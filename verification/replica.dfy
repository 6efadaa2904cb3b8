/** A replica whose list is held in linked blocks converges with every other one. */
module Replica {
  import opened Ids
  import opened Yata
  import opened Spans
  import opened Convergence
  import opened OriginTree
  import opened BlockIntegration
  import opened Seqs
  import opened Block
  import opened Squash
  import opened Integration

  /** When the left origin ends its block, the right origin is in another one. */
  lemma FitsApart(bs: seq<Span>, x: Span)
    requires NonEmpty(bs) && Distinct(Expand(bs)) && Between(Expand(bs), x.UnitAt(0))
    ensures OriginsApart(bs, x)
  {
    hide Expand, BlockOf, CleanEnd;
    if x.origin.Some? && x.rightOrigin.Some? {
      var id := x.origin.value;
      var a := CleanEnd(bs, id);
      BlockOfUnit(bs, id);
      CleanEndCuts(bs, id);
      var j :| 0 <= j < |a| && a[j].len > 0 && a[j].LastId() == id;
      BlockOfLast(a, j);
      BlockOfUnit(a, x.rightOrigin.value);
    }
  }

  ghost predicate Between(s: seq<Unit>, x: Unit) {
    Has(s, x.origin) && Has(s, x.rightOrigin) && LeftPos(s, x.origin) < RightPos(s, x.rightOrigin)
  }

  /** The first `n` units of a block have been integrated. */
  ghost predicate Known(ops: seq<Op>, x: Span, n: nat) {
    forall k {:trigger x.UnitAt(k)} :: 0 <= k < n ==> Made(ops, x.UnitAt(k))
  }

  /** The operations of the units of a block that are not known yet. */
  ghost predicate Rest(xs: seq<Op>, x: Span, n: nat) {
    |xs| == x.len - n > 0 && forall k :: 0 <= k < |xs| ==> xs[k].unit == x.UnitAt(n + k)
  }

  lemma BlockBetween(w: set<Op>, ops: seq<Op>, xs: seq<Op>, x: Span, n: nat)
    requires World(w) && From(w, ops + xs) && Deliverable(ops + xs) && Known(ops, x, n) && Rest(xs, x, n)
    ensures Inv(Run(ops)) && Between(Run(ops), x.UnitAt(0))
  {
    hide Run;
    var op, all, m := xs[0], ops + xs, |ops|;
    FirstPart(w, ops, xs);
    RunIsGood(w, ops);
    if n == 0 {
      assert all[m] == op && all[..m] == ops;
      assert Ready(all[..m], all[m]);
      PastIsFrom(w, op);
      RunIsGood(w, op.past);
      FitsRun(w, ops, op);
    } else {
      assert Made(ops, x.UnitAt(0));
      var k :| 0 <= k < |ops| && ops[k].unit == x.UnitAt(0);
      HeldAt(w, Run(ops), ops, ops[k]);
      assert Bracketed(Run(ops), Find(Run(ops), x.UnitAt(0).id));
    }
  }

  /** A unit of the list is in a block of the chain, and known. */
  lemma InChain(t: Transaction, b: Branch, key: Option<string>, id: ID)
    requires t.Holds(b) && Distinct(Expand(ToSpans(b.Chain(key)))) && Find(Expand(ToSpans(b.Chain(key))), id) >= 0
    ensures t.OnlyIn(id, b.Chain(key)) && id in t.blocks.known
  {
    hide Branch.Valid, ToSpans, Linked, Expand;
    b.LinkedChain(key);
    ChainNonEmpty(t, b, key);
    BlockOfUnit(ToSpans(b.Chain(key)), id);
    assert b.Chain(key)[BlockOf(ToSpans(b.Chain(key)), id)].Has(id);
  }

  lemma ChainNonEmpty(t: Transaction, b: Branch, key: Option<string>)
    requires t.Holds(b)
    ensures NonEmpty(ToSpans(b.Chain(key)))
  {
    hide Branch.Valid, BlockStore.Valid, ToSpans, Linked;
    b.LinkedChain(key);
    forall j | 0 <= j < |b.Chain(key)| ensures ToSpans(b.Chain(key))[j].len > 0 {
      assert b.Chain(key)[j].HasLength();
    }
  }

  /** The blocks before the scan for what is left of `x`. */
  ghost function Before(bs: seq<Span>, x: Span, n: nat): seq<Span> {
    if n > 0 then CleanEnd(Prepare(bs, x), x.IdAt(n - 1)) else Prepare(bs, x)
  }

  /** The last unit of `x` that is left out is in the list. */
  ghost predicate FirstHeld(bs: seq<Span>, x: Span, n: nat) {
    n > 0 ==> Distinct(Expand(Prepare(bs, x))) && Find(Expand(Prepare(bs, x)), x.IdAt(n - 1)) >= 0
  }

  /** The last unit of `x` that is left out is in a block of the chain. */
  ghost predicate FirstKnown(t: Transaction, x: Span, n: nat, ch: seq<Item>)
    reads t`blocks, t.blocks`known, ch`id, ch`len, ch`origin, ch`rightOrigin
  {
    n > 0 ==> t.OnlyIn(x.IdAt(n - 1), ch) && x.IdAt(n - 1) in t.blocks.known
  }

  /** What is left of `x` is not known. */
  ghost predicate RestUnknown(t: Transaction, x: Span, n: nat)
    reads t`blocks, t.blocks`known
  {
    n < x.len && t.Unknown(Tail(x, n))
  }

  /** Looks up the neighbours of a block, and integrates what is not known of it. */
  method Arrive(t: Transaction, x: Item, offset: nat, ghost b: Branch, ghost key: Option<string>) returns (done: bool)
    requires t.Holds(b) && b.Counted(t.kind) && OriginsApart(ToSpans(b.Chain(key)), x.ToSpan())
    requires b.item != x && x !in b.items && x !in t.blocks.stored
    requires x.HasLength() && !x.deleted && x.countable == x.content.IsCountable()
    requires RestUnknown(t, x.ToSpan(), offset)
    requires x.parent != null ==> x.parent == b && x.parentSub == key
    requires x.origin.Some? ==> t.OnlyIn(x.origin.value, b.Chain(key)) && x.origin.value in t.blocks.known
    requires x.rightOrigin.Some? ==>
      t.OnlyIn(x.rightOrigin.value, b.Chain(key)) && x.rightOrigin.value in t.blocks.known
    requires FirstHeld(ToSpans(b.Chain(key)), x.ToSpan(), offset)
    modifies t`deleteSet, t`insertSet, t.blocks, x`id, x`left, x`right, x`origin, x`len, x`content
    modifies x`deleted, x`parent, x`parentSub
    modifies b.items`len, b.items`content, b.items`left, b.items`right, b.items`deleted
    modifies b`start, b`entries, b`chains, b`items, b`lost, b`blockLen, b`contentLen
    ensures t.Holds(b) && b.Counted(t.kind) && done == old(Homed(x)) && t.OnlyAdds(x, b)
    ensures var bs := Before(old(ToSpans(b.Chain(key))), old(x.ToSpan()), offset);
      ToSpans(b.Chain(key)) == if done then BlockIntegrate(bs, Tail(old(x.ToSpan()), offset)) else bs
    ensures x.id == IdAfter(old(x.id), offset) && x.len == old(x.len) - offset
    ensures done ==> x.parent == b && x.parentSub == key && Fate(x, b, key)
    ensures done && old(OneLives(b.Chain(key))) ==> t.KeepsTop(x, b, key)
    ensures x.content == if offset > 0 then old(x.content).Cut(offset).1 else old(x.content)
    ensures done && key.None? && old(AllClean(b.Chain(key), CutsFor(x.ToSpan()))) ==>
      Seqs.Inserted(old(ShownAll(b.Chain(key))), Look(x), ShownAll(b.Chain(key)))
    ensures t.kind.Utf16? || key.Some? || old(AllClean(b.Chain(key), CutsFor(x.ToSpan()))) ==> b.lost == old(b.lost)
    ensures done && key.Some? && (x.deleted || x.len == 1) && old(OneLives(b.Chain(key))) ==> OneLives(b.Chain(key))
    ensures if done then t.Noted(x, b, key) else t.RecordsRange(x, offset)
  {
    hide Transaction.Holds, Branch.Counted, ToSpans, Expand, Transaction.OnlyIn, Prepare, BlockIntegrate, CleanEnd;
    hide Transaction.Found, AllClean, ShownAll, Look, Seqs.Inserted, Fate, TopOf, EndsWith, OneLives;
    hide Transaction.Unknown, Homed, DeadIds, IdsOf, Joins;
    hide Before, Tail, FirstHeld, FirstKnown, RestUnknown;
    ghost var was, span, ch := ToSpans(b.Chain(key)), x.ToSpan(), b.Chain(key);
    ghost var shown, free, one, dead := ShownAll(ch), AllClean(ch, CutsFor(span)), OneLives(ch), DeadIds(ch);
    ghost var top := TopOf(ch);
    RepairKnown(t, x, offset, b, key);
    done := Land(t, x, offset, b, key, was, span, shown, free, one, dead, top);
  }

  /** Integrates what is not known of a block whose neighbours have been looked up. */
  method Land(t: Transaction, x: Item, offset: nat, ghost b: Branch, ghost key: Option<string>,
      ghost was: seq<Span>, ghost span: Span, ghost shown: seq<Seen>, ghost free: bool, ghost one: bool,
      ghost dead: iset<ID>, ghost top: Top) returns (done: bool)
    requires t.Holds(b) && b.Counted(t.kind) && b.item != x && x !in b.items && x !in t.blocks.stored
    requires t.Found(x.left, x.right, x.ToSpan(), b.Chain(key)) && RestUnknown(t, x.ToSpan(), offset)
    requires x.HasLength() && !x.deleted && x.countable == x.content.IsCountable()
    requires x.parent != null ==> x.parent == b && x.parentSub == key
    requires FirstKnown(t, x.ToSpan(), offset, b.Chain(key))
    requires x.ToSpan() == span && ToSpans(b.Chain(key)) == Prepare(was, span)
    requires free ==> ShownAll(b.Chain(key)) == shown
    requires (one ==> OneLives(b.Chain(key)) && TopOf(b.Chain(key)) == top) && DeadIds(b.Chain(key)) == dead
    modifies t`deleteSet, t`insertSet, t.blocks, x`id, x`left, x`right, x`origin, x`len, x`content
    modifies x`deleted, x`parent, x`parentSub
    modifies b.items`len, b.items`content, b.items`left, b.items`right, b.items`deleted
    modifies b`start, b`entries, b`chains, b`items, b`lost, b`blockLen, b`contentLen
    ensures t.Holds(b) && b.Counted(t.kind) && t.OnlyAdds(x, b)
    ensures x.parent == old(x.parent) && done == (x.parent != null)
    ensures x.id == IdAfter(span.id, offset) && x.len == span.len - offset
    ensures ToSpans(b.Chain(key)) ==
      if done then BlockIntegrate(Before(was, span, offset), Tail(span, offset)) else Before(was, span, offset)
    ensures done ==> x.parentSub == key && Fate(x, b, key)
    ensures done && one && !EndsWith(b.Chain(key), x) ==> TopOf(b.Chain(key)) == top
    ensures done && key.None? && free ==> Seqs.Inserted(shown, Look(x), ShownAll(b.Chain(key)))
    ensures x.content == if offset > 0 then old(x.content).Cut(offset).1 else old(x.content)
    ensures b.lost == old(b.lost)
    ensures done && key.Some? && (x.deleted || x.len == 1) && one ==> OneLives(b.Chain(key))
    ensures !done ==> t.RecordsRange(x, offset)
    ensures done ==> t.insertSet == old(t.insertSet) + IdsOf(x.ToSpan())
    ensures done ==> forall id :: id in t.deleteSet <==>
      id in old(t.deleteSet) || (id in DeadIds(b.Chain(key)) && id !in dead)
    ensures done && key.None? ==> Joins(dead, x, DeadIds(b.Chain(key)))
  {
    hide Transaction.Holds, Branch.Counted, ToSpans, Expand, Transaction.OnlyIn, Prepare, BlockIntegrate, CleanEnd;
    hide Transaction.Found, AllClean, ShownAll, Look, Seqs.Inserted, Fate, TopOf, EndsWith, LiveOnes;
    hide Transaction.Fell;
    hide DeadIds, IdsOf, Joins;
    hide Transaction.Unknown, OnlyLastLives, Item.Ids;
    done := t.IntegrateItem(x, offset, b, key);
  }

  /**
    The branch of a block can be told: from the block, which says it if it has no origin, or from a neighbour.
   */
  predicate Homed(x: Item)
    reads x`parent, x`origin, x`rightOrigin
  {
    x.parent != null || x.origin.Some? || x.rightOrigin.Some?
  }

  /** A block whose origins are known has the neighbours that it names. */
  lemma NeighboursFound(t: Transaction, x: Item, ch: seq<Item>)
    requires t.Found(x.left, x.right, x.ToSpan(), ch)
    requires x.origin.Some? ==> x.origin.value in t.blocks.known
    requires x.rightOrigin.Some? ==> x.rightOrigin.value in t.blocks.known
    ensures (x.left != null <==> x.origin.Some?) && (x.right != null <==> x.rightOrigin.Some?)
  {
  }

  /** Looks up the neighbours of a block: what is unknown stays unknown, and what is known stays known. */
  method RepairKnown(t: Transaction, x: Item, offset: nat, ghost b: Branch, ghost key: Option<string>)
    requires t.Holds(b) && OriginsApart(ToSpans(b.Chain(key)), x.ToSpan())
    requires x !in b.items && x !in t.blocks.stored && RestUnknown(t, x.ToSpan(), offset)
    requires x.parent != null ==> x.parent == b && x.parentSub == key
    requires x.origin.Some? ==> t.OnlyIn(x.origin.value, b.Chain(key)) && x.origin.value in t.blocks.known
    requires x.rightOrigin.Some? ==>
      t.OnlyIn(x.rightOrigin.value, b.Chain(key)) && x.rightOrigin.value in t.blocks.known
    requires FirstHeld(ToSpans(b.Chain(key)), x.ToSpan(), offset)
    modifies x`left, x`right, x`parent, x`parentSub
    modifies t.blocks, b.items`len, b.items`content, b.items`left, b.items`right
    modifies b`start, b`entries, b`chains, b`items, b`lost
    ensures t.Holds(b) && t.SameUnits(b, key, CutsFor(x.ToSpan())) && t.blocks.known == old(t.blocks.known)
    ensures fresh(b.items - old(b.items)) && fresh(t.blocks.stored - old(t.blocks.stored))
    ensures old(b.items) <= b.items && old(t.blocks.stored) <= t.blocks.stored
    ensures old(b.Counted(t.kind)) ==> b.Counted(t.kind)
    ensures old(OneLives(b.Chain(key))) ==>
      OneLives(b.Chain(key)) && TopOf(b.Chain(key)) == old(TopOf(b.Chain(key)))
    ensures DeadIds(b.Chain(key)) == old(DeadIds(b.Chain(key)))
    ensures t.Found(x.left, x.right, x.ToSpan(), b.Chain(key)) && RestUnknown(t, x.ToSpan(), offset)
    ensures ToSpans(b.Chain(key)) == Prepare(old(ToSpans(b.Chain(key))), x.ToSpan())
    ensures x.parent == if old(Homed(x)) then b else null
    ensures x.parent != null ==> x.parentSub == key
    ensures FirstKnown(t, x.ToSpan(), offset, b.Chain(key))
  {
    hide RestUnknown;
    hide Transaction.Holds, Branch.Counted, ToSpans, Expand, Transaction.OnlyIn, Prepare, CleanEnd, Transaction.Found;
    hide DeadIds, AllClean, ShownAll, TopOf;
    t.Repair(x, b, key);
    NeighboursFound(t, x, b.Chain(key));
    if offset > 0 { InChain(t, b, key, x.ToSpan().IdAt(offset - 1)); }
  }

  /** Receives a block made elsewhere, whose first units may be known: the list is the one of `Run`. */
  method Receive(t: Transaction, x: Item, offset: nat, ghost b: Branch, ghost key: Option<string>,
      ghost w: set<Op>, ghost ops: seq<Op>, ghost xs: seq<Op>) returns (done: bool)
    requires t.Holds(b) && b.Counted(t.kind)
    requires b.item != x && x !in b.items && x !in t.blocks.stored && offset < x.len
    requires x.HasLength() && !x.deleted && x.countable == x.content.IsCountable()
    requires t.Unknown(Tail(x.ToSpan(), offset))
    requires x.parent != null ==> x.parent == b && x.parentSub == key
    requires World(w) && From(w, ops + xs) && Deliverable(ops + xs)
    requires Known(ops, x.ToSpan(), offset) && Rest(xs, x.ToSpan(), offset)
    requires Expand(ToSpans(b.Chain(key))) == Run(ops)
    modifies t`deleteSet, t`insertSet, t.blocks, x`id, x`left, x`right, x`origin, x`len, x`content
    modifies x`deleted, x`parent, x`parentSub
    modifies b.items`len, b.items`content, b.items`left, b.items`right, b.items`deleted
    modifies b`start, b`entries, b`chains, b`items, b`lost, b`blockLen, b`contentLen
    ensures t.Holds(b) && b.Counted(t.kind) && done == old(Homed(x)) && t.OnlyAdds(x, b)
    ensures Expand(ToSpans(b.Chain(key))) == Run(if done then ops + xs else ops)
    ensures x.id == IdAfter(old(x.id), offset) && x.len == old(x.len) - offset
    ensures done ==> x.parent == b && x.parentSub == key && Fate(x, b, key)
    ensures done && old(OneLives(b.Chain(key))) ==> t.KeepsTop(x, b, key)
    ensures x.content == if offset > 0 then old(x.content).Cut(offset).1 else old(x.content)
    ensures done && key.None? && old(AllClean(b.Chain(key), CutsFor(x.ToSpan()))) ==>
      Seqs.Inserted(old(ShownAll(b.Chain(key))), Look(x), ShownAll(b.Chain(key)))
    ensures t.kind.Utf16? || key.Some? || old(AllClean(b.Chain(key), CutsFor(x.ToSpan()))) ==> b.lost == old(b.lost)
    ensures done && key.Some? && (x.deleted || x.len == 1) && old(OneLives(b.Chain(key))) ==> OneLives(b.Chain(key))
    ensures if done then t.Noted(x, b, key) else t.RecordsRange(x, offset)
  {
    hide Transaction.Holds, Branch.Counted, ToSpans, Expand, Run, Transaction.OnlyIn, World, From, Prepare, OneLives;
    hide Deliverable, BlockIntegrate, CleanEnd, Known, Bracketed, Uncrossed, SiblingOrder, AllClean, ShownAll, Look;
    hide Seqs.Inserted, Transaction.Noted, Transaction.RecordsRange, Fate, TopOf, EndsWith;
    ghost var bs, s := ToSpans(b.Chain(key)), x.ToSpan();
    ChainNonEmpty(t, b, key);
    BlockBetween(w, ops, xs, s, offset);
    Prepared(w, ops, xs, bs, s, offset);
    if x.origin.Some? { InChain(t, b, key, x.origin.value); }
    if x.rightOrigin.Some? { InChain(t, b, key, x.rightOrigin.value); }
    done := Arrive(t, x, offset, b, key);
  }

  /** What `Receive` does to the blocks, in terms of their units. */
  lemma Prepared(w: set<Op>, ops: seq<Op>, xs: seq<Op>, bs: seq<Span>, x: Span, n: nat)
    requires World(w) && From(w, ops + xs) && Deliverable(ops + xs) && Known(ops, x, n) && Rest(xs, x, n)
    requires NonEmpty(bs) && Expand(bs) == Run(ops) && Inv(Run(ops)) && Between(Run(ops), x.UnitAt(0))
    ensures OriginsApart(bs, x) && Distinct(Expand(Prepare(bs, x)))
    ensures n > 0 ==> Find(Expand(Prepare(bs, x)), x.IdAt(n - 1)) >= 0
    ensures Expand(Before(bs, x, n)) == Run(ops)
    ensures Expand(BlockIntegrate(Before(bs, x, n), Tail(x, n))) == Run(ops + xs)
  {
    hide Expand, Run, BlockIntegrate, Prepare, CleanEnd, World, From, Deliverable;
    FitsApart(bs, x);
    PrepareAligns(bs, x);
    if n > 0 {
      assert Made(ops, x.UnitAt(n - 1));
      var k :| 0 <= k < |ops| && ops[k].unit == x.UnitAt(n - 1);
      assert Knows(ops, x.IdAt(n - 1));
      FirstPart(w, ops, xs);
      RunIsGood(w, ops);
      KnownIsHeld(Run(ops), ops, Some(x.IdAt(n - 1)));
      PrepareTail(bs, x, n);
      ReceiveTail(w, ops, xs, bs, x, n);
    } else {
      ReceiveBlock(w, ops, xs, bs, x);
    }
  }

  // ----- the entries of a map

  /** The branch was not deleted, nor does it hold itself. */
  ghost predicate Open(b: Branch)
    reads b`item, b`items, (if b.item == null then {} else {b.item})`deleted
  {
    b.item == null || (!b.item.deleted && b.item !in b.items)
  }

  /**
    What the writes to a key were: what each of them wrote, and which are deleted, or came without what they wrote.
    If the branch was deleted, which is not `open`, then nothing is said of what lives.
   */
  datatype Writes = Writes(made: map<ID, Content>, gone: set<ID>, open: bool)

  /** The last entry lives unless it is deleted, and holds what was written. */
  predicate Says(top: Top, said: Writes) {
    match top
    case Nothing => true
    case Dead(last) => last in said.gone
    case Alive(last, c) => last !in said.gone && last in said.made && said.made[last] == c
  }

  /** What is left of a block after its first `n` units holds what was written, if its content is still there. */
  predicate AsWritten(c: Content, x: Span, n: nat, said: Writes)
    requires n < x.len
  {
    && (n > 0 ==> c.CanBeCut() && n <= c.Length16()) && (x.LastId() in said.gone <==> c.Deleted?)
    && (!c.Deleted? ==> x.LastId() in said.made && said.made[x.LastId()] == if n > 0 then c.Cut(n).1 else c)
  }

  lemma StaysGone(c: Content, n: nat)
    requires c.CanBeCut() && n <= c.Length16()
    ensures c.Cut(n).1.Deleted? <==> c.Deleted?
  {
  }

  /**
    A block for a key that is still to be received, but for its first `n` units, which are known: it is one write,
    or several that were deleted and joined.
   */
  ghost predicate Waits(t: Transaction, b: Branch, key: string, x: Item, n: nat, mine: seq<Op>, said: Writes)
    reads t`blocks, t.blocks`stored, t.blocks`known, b`items, b`item, x
  {
    && x.HasLength() && !x.deleted && x.countable == x.content.IsCountable()
    && Homed(x) && (x.parent != null ==> x.parent == b && x.parentSub == Some(key))
    && b.item != x && x !in b.items && x !in t.blocks.stored
    && n < x.len && (x.len - n == 1 || x.content.Deleted?)
    && t.Unknown(Tail(x.ToSpan(), n)) && Rest(mine, x.ToSpan(), n) && AsWritten(x.content, x.ToSpan(), n, said)
  }

  /** The entries of a key are those that `ops` leave, and only the last of them lives, unless that is deleted. */
  ghost predicate KeyAfter(t: Transaction, b: Branch, key: string, ops: seq<Op>, said: Writes)
    reads b`item, (if b.item == null then {} else {b.item})`deleted
    reads t`blocks, t.blocks, t.blocks.stored`id, t.blocks.stored`len, t.blocks.stored`parent
    reads b`start, b`entries, b`chains, b`items, b.Chain(Some(key))
    reads b.items`parent, b.items`parentSub, b.items`left, b.items`right, b.items`len, b.items`content
  {
    && t.Holds(b) && OneLives(b.Chain(Some(key)))
    && Expand(ToSpans(b.Chain(Some(key)))) == Run(ops)
    && (said.open ==> Open(b) && Says(TopOf(b.Chain(Some(key))), said))
  }

  method ReceiveWrite(t: Transaction, x: Item, n: nat, ghost b: Branch, ghost key: string,
      ghost w: set<Op>, ghost ops: seq<Op>, ghost mine: seq<Op>, ghost said: Writes)
    requires KeyAfter(t, b, key, ops, said) && b.Counted(t.kind) && Waits(t, b, key, x, n, mine, said)
    requires World(w) && From(w, ops + mine) && Deliverable(ops + mine) && Known(ops, x.ToSpan(), n)
    modifies t`deleteSet, t`insertSet, t.blocks, x`id, x`left, x`right, x`origin, x`len, x`content
    modifies x`deleted, x`parent, x`parentSub
    modifies b.items`len, b.items`content, b.items`left, b.items`right, b.items`deleted
    modifies b`start, b`entries, b`chains, b`items, b`lost, b`blockLen, b`contentLen
    ensures KeyAfter(t, b, key, ops + mine, said) && b.Counted(t.kind) && t.OnlyAdds(x, b)
    ensures x.id == IdAfter(old(x.id), n) && x.len == old(x.len) - n
  {
    hide Transaction.Holds, Branch.Counted, ToSpans, Expand, Run, World, From, Deliverable, OneLives, Look, ShownAll;
    hide AllClean, Seqs.Inserted, Known, Rest, Transaction.Noted, Transaction.RecordsRange;
    ghost var whole := x.content;
    var done := Receive(t, x, n, b, Some(key), w, ops, mine);
    if n > 0 { StaysGone(whole, n); }
  }

  /** Receives the next of several blocks for one key; the others still wait. */
  method WriteStep(t: Transaction, xs: seq<Item>, ns: seq<nat>, i: nat, ghost b: Branch, ghost key: string,
      ghost w: set<Op>, ghost ops: seq<Op>, ghost more: seq<seq<Op>>, ghost said: Writes)
    requires i < |xs| == |ns| == |more| && KeyAfter(t, b, key, ops + Flat(more[..i]), said) && b.Counted(t.kind)
    requires World(w) && From(w, ops + Flat(more)) && Deliverable(ops + Flat(more))
    requires forall j :: i <= j < |xs| ==> Waits(t, b, key, xs[j], ns[j], more[j], said)
    requires Known(ops + Flat(more[..i]), xs[i].ToSpan(), ns[i])
    requires forall j :: i < j < |xs| ==> xs[i] != xs[j]
    modifies t`deleteSet, t`insertSet, t.blocks
    modifies {xs[i]}`id, {xs[i]}`left, {xs[i]}`right, {xs[i]}`origin, {xs[i]}`len, {xs[i]}`content
    modifies {xs[i]}`deleted, {xs[i]}`parent, {xs[i]}`parentSub
    modifies b.items`len, b.items`content, b.items`left, b.items`right, b.items`deleted
    modifies b`start, b`entries, b`chains, b`items, b`lost, b`blockLen, b`contentLen
    ensures KeyAfter(t, b, key, ops + Flat(more[..i + 1]), said) && b.Counted(t.kind)
    ensures forall j :: i < j < |xs| ==> Waits(t, b, key, xs[j], ns[j], more[j], said)
    ensures forall o :: o in b.items && !fresh(o) ==> o in old(b.items) || o == xs[i]
  {
    hide KeyAfter, Branch.Counted, World, From, Deliverable, Known, Flat, Rest, Tail, Item.Ids, Strange;
    hide Transaction.Unknown, Transaction.Holds, Item.HasLength;
    NextWrite(w, ops, more, i);
    ghost var known, tail := t.blocks.known, Tail(xs[i].ToSpan(), ns[i]);
    forall j | i < j < |xs| ensures Strange(known, tail, Tail(xs[j].ToSpan(), ns[j])) {
      OtherIds(ops, more, i, j, xs[i].ToSpan(), ns[i], xs[j].ToSpan(), ns[j]);
      AreStrange(t, tail, Tail(xs[j].ToSpan(), ns[j]));
    }
    TailIs(xs[i].ToSpan(), ns[i]);
    ReceiveWrite(t, xs[i], ns[i], b, key, w, ops + Flat(more[..i]), more[i], said);
    forall j | i < j < |xs| ensures t.Unknown(Tail(xs[j].ToSpan(), ns[j])) {
      StaysUnknown(t, known, tail, xs[i], Tail(xs[j].ToSpan(), ns[j]));
    }
  }

  /** Receives blocks for one key, in any order in which they can be delivered. */
  method ReceiveWrites(t: Transaction, xs: seq<Item>, ns: seq<nat>, ghost b: Branch, ghost key: string,
      ghost w: set<Op>, ghost ops: seq<Op>, ghost more: seq<seq<Op>>, ghost said: Writes)
    requires KeyAfter(t, b, key, ops, said) && b.Counted(t.kind)
    requires World(w) && From(w, ops + Flat(more)) && Deliverable(ops + Flat(more))
    requires |xs| == |ns| == |more| && forall i :: 0 <= i < |xs| ==> Waits(t, b, key, xs[i], ns[i], more[i], said)
    requires forall i :: 0 <= i < |xs| ==> Known(ops + Flat(more[..i]), xs[i].ToSpan(), ns[i])
    requires forall i, j :: 0 <= i < j < |xs| ==> xs[i] != xs[j]
    modifies t`deleteSet, t`insertSet, t.blocks, xs`id, xs`left, xs`right, xs`origin, xs`len, xs`content
    modifies xs`deleted, xs`parent, xs`parentSub
    modifies b.items`len, b.items`content, b.items`left, b.items`right, b.items`deleted
    modifies b`start, b`entries, b`chains, b`items, b`lost, b`blockLen, b`contentLen
    ensures KeyAfter(t, b, key, ops + Flat(more), said) && b.Counted(t.kind)
  {
    hide KeyAfter, Branch.Counted, World, From, Deliverable, Known, Flat, Rest, Tail, Transaction.Unknown, AsWritten;
    hide Item.HasLength;
    NothingYet(ops, more);
    for i := 0 to |xs|
      invariant KeyAfter(t, b, key, ops + Flat(more[..i]), said) && b.Counted(t.kind)
      invariant forall o :: o in b.items && !fresh(o) ==> o in old(b.items) || o in xs[..i]
      invariant forall j :: i <= j < |xs| ==> Waits(t, b, key, xs[j], ns[j], more[j], said)
      invariant forall j :: i <= j < |xs| ==> xs[j].ToSpan() == old(xs[j].ToSpan())
    {
      WriteStep(t, xs, ns, i, b, key, w, ops, more, said);
    }
    assert more[..|xs|] == more;
  }

  /** Nothing of `y` is in `known` or in `x`. */
  ghost predicate Strange(known: iset<ID>, x: Span, y: Span) {
    forall id :: y.Contains(id) ==> id !in known && !x.Contains(id)
  }

  lemma AreStrange(t: Transaction, x: Span, y: Span)
    requires t.Unknown(y) && forall id :: y.Contains(id) ==> !x.Contains(id)
    ensures Strange(t.blocks.known, x, y)
  {
  }

  lemma TailIs(x: Span, n: nat)
    requires n < x.len
    ensures Tail(x, n).id == IdAfter(x.id, n) && Tail(x, n).len == x.len - n
  {
  }

  lemma StaysUnknown(t: Transaction, known: iset<ID>, tail: Span, x: Item, y: Span)
    requires t.blocks.known <= known + x.Ids() && x.id == tail.id && x.len == tail.len && Strange(known, tail, y)
    ensures t.Unknown(y)
  {
  }

  lemma NothingYet(ops: seq<Op>, more: seq<seq<Op>>)
    ensures ops + Flat(more[..0]) == ops
  {
  }

  lemma NextWrite(w: set<Op>, ops: seq<Op>, more: seq<seq<Op>>, i: nat)
    requires From(w, ops + Flat(more)) && Deliverable(ops + Flat(more)) && i < |more|
    ensures ops + Flat(more[..i + 1]) == (ops + Flat(more[..i])) + more[i]
    ensures From(w, (ops + Flat(more[..i])) + more[i]) && Deliverable((ops + Flat(more[..i])) + more[i])
  {
    hide From, Deliverable, Flat;
    var first, rest := Flat(more[..i]), Flat(more[i + 1..]);
    FlatAt(more, i);
    Assoc(ops, first, more[i]);
    Assoc(ops, first + more[i], rest);
    FirstPart(w, (ops + first) + more[i], rest);
  }

  /** Two blocks of a run have no ids in common. */
  lemma OtherIds(ops: seq<Op>, more: seq<seq<Op>>, i: nat, j: nat, x: Span, m: nat, y: Span, n: nat)
    requires Deliverable(ops + Flat(more)) && i < j < |more|
    requires m < x.len && n < y.len && Rest(more[i], x, m) && Rest(more[j], y, n)
    ensures forall id :: Tail(y, n).Contains(id) ==> !Tail(x, m).Contains(id)
  {
    hide Deliverable, Flat;
    forall id | Tail(y, n).Contains(id) ensures !Tail(x, m).Contains(id) {
      if Tail(x, m).Contains(id) {
        var a := TailOp(x, m, more[i], id);
        var c := TailOp(y, n, more[j], id);
        Apart2(ops, more, i, j, a, c);
      }
    }
  }

  lemma TailOp(x: Span, n: nat, mine: seq<Op>, id: ID) returns (op: Op)
    requires n < x.len && Rest(mine, x, n) && Tail(x, n).Contains(id)
    ensures op in mine && op.unit.id == id
  {
    op := mine[id.clock - (x.id.clock + n)];
  }

  lemma Apart2(ops: seq<Op>, more: seq<seq<Op>>, i: nat, j: nat, a: Op, c: Op)
    requires Deliverable(ops + Flat(more)) && i < j < |more| && a in more[i] && c in more[j]
    ensures a.unit.id != c.unit.id
  {
    hide Deliverable, Flat;
    var first, all := Flat(more[..j]), ops + Flat(more);
    FlatAt(more, j);
    FlatHas(more[..j], a);
    assert a in more[..j][i];
    var p :| 0 <= p < |first| && first[p] == a;
    var q :| 0 <= q < |more[j]| && more[j][q] == c;
    assert all[|ops| + p] == a && all[|ops| + |first| + q] == c;
    if a.unit.id == c.unit.id { NoRepeat(all, |ops| + p, |ops| + |first| + q); }
  }

  /**
    After any run of writes to a key, the entry that is left is the last one of the list, which is the same
    on every replica: it was made by the largest client among those that replaced the same entry.
   */
  lemma Survivor(t: Transaction, b: Branch, key: string, w: set<Op>, ops: seq<Op>, said: Writes)
    requires KeyAfter(t, b, key, ops, said) && World(w) && From(w, ops) && Deliverable(ops) && ops != []
    requires forall op :: op in ops ==> op.unit.rightOrigin.None?
    ensures key in b.entries && forall it :: it in b.Chain(Some(key)) && it != b.entries[key] ==> it.deleted
    ensures b.entries[key] in b.Chain(Some(key)) && (b.entries[key].deleted || b.entries[key].len == 1)
    ensures b.entries[key].len > 0
    ensures var last := b.entries[key].ToSpan().UnitAt(b.entries[key].len - 1);
      && last == Run(ops)[|ops| - 1]
      && (said.open ==> (b.entries[key].deleted <==> last.id in said.gone))
      && (said.open && last.id !in said.gone ==> last.id in said.made && b.entries[key].content == said.made[last.id])
      && forall op :: op in ops && op.unit.origin == last.origin && op.unit.id != last.id ==>
           op.unit.id.client < last.id.client
  {
    hide Run, World, From, Deliverable, ToSpans, Expand, Says, TopOf, Transaction.Holds;
    var s, ch := Run(ops), b.Chain(Some(key));
    RunIsGood(w, ops);
    ChainNonEmpty(t, b, Some(key));
    LastEntry(t, b, key, s);
    EntrySays(t, b, key, ops, said);
    var p := |s| - 1;
    forall i | 0 <= i < |s| ensures s[i].rightOrigin.None? { assert Made(ops, s[i]); }
    forall op | op in ops && op.unit.origin == s[p].origin && op.unit.id != s[p].id
      ensures op.unit.id.client < s[p].id.client
    {
      HeldAt(w, s, ops, op);
      LastWins(s, p, Find(s, op.unit.id));
    }
  }

  /** What is said of the last unit is so of the current entry. */
  lemma EntrySays(t: Transaction, b: Branch, key: string, ops: seq<Op>, said: Writes)
    requires KeyAfter(t, b, key, ops, said) && ops != []
    ensures key in b.entries
    ensures var it, last := b.entries[key], Run(ops)[|ops| - 1];
      && (said.open ==> (it.deleted <==> last.id in said.gone))
      && (said.open && last.id !in said.gone ==> last.id in said.made && it.content == said.made[last.id])
  {
    hide Run, ToSpans, Expand, Transaction.Holds;
    LastEntry(t, b, key, Run(ops));
  }

  /** The current entry is the last block of the chain, and it is the last unit of the list. */
  lemma LastEntry(t: Transaction, b: Branch, key: string, s: seq<Unit>)
    requires t.Holds(b) && OneLives(b.Chain(Some(key))) && Expand(ToSpans(b.Chain(Some(key)))) == s && s != []
    ensures var ch := b.Chain(Some(key));
      && ch != [] && key in b.entries && b.entries[key] == ch[|ch| - 1]
      && (ch[|ch| - 1].deleted || ch[|ch| - 1].len == 1)
      && ch[|ch| - 1].len > 0 && ch[|ch| - 1].ToSpan().UnitAt(ch[|ch| - 1].len - 1) == s[|s| - 1]
      && forall it :: it in ch && it != ch[|ch| - 1] ==> it.deleted
  {
    hide BlockStore.Valid, Branch.Sound, Expand;
    var ch := b.Chain(Some(key));
    var bs := ToSpans(ch);
    if ch == [] { ExpandNone(); }
    b.LinkedChain(Some(key));
    OffEnd(bs);
    ChainNonEmpty(t, b, Some(key));
    ExpandAt(bs, |bs| - 1, bs[|bs| - 1].len - 1);
    assert EndsWith(b.chains[Some(key)], b.entries[key]);
  }
}
