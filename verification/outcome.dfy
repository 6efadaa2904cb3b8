/** Replicas that hold the same insertions and deletions show the same, block by block as they may differ. */
module Outcome {
  import opened Ids
  import opened Seqs
  import opened Yata
  import opened Agreement
  import opened Spans
  import opened BlockIntegration
  import opened Convergence
  import opened Block
  import opened Squash
  import opened Integration
  import opened Cursor
  import opened Replica
  import opened Gc
  import opened Commit

  function UnitsIn(shown: seq<Seen>): seq<Unit> {
    seq(|shown|, i requires 0 <= i < |shown| => shown[i].unit)
  }

  /** The units that a chain shows are those of its blocks. */
  lemma {:induction false} ShownUnits(ch: seq<Item>)
    requires forall it :: it in ch ==> it.HasLength()
    ensures UnitsIn(ShownAll(ch)) == Expand(ToSpans(ch))
  {
    hide Elements;
    if ch != [] {
      ShownUnits(ch[1..]);
      LookIs(ch[0]);
      assert Looks(ch) == [Look(ch[0])] + Looks(ch[1..]);
      assert UnitsIn(Look(ch[0])) == Units(ch[0].ToSpan());
      assert ShownAll(ch) == Look(ch[0]) + ShownAll(ch[1..]);
      assert UnitsIn(ShownAll(ch)) == UnitsIn(Look(ch[0])) + UnitsIn(ShownAll(ch[1..]));
    }
  }

  /**
    The deleted units are those in `gone`.  Every unit holds what its author made it hold, but deleted ones in
    `lost` may have lost that.
   */
  ghost predicate Told(shown: seq<Seen>, say: map<ID, Element>, gone: set<ID>, lost: iset<ID>) {
    forall s :: s in shown ==>
      && (s.deleted <==> s.unit.id in gone)
      && AsMade(s, say, lost)
  }

  ghost predicate AsMade(s: Seen, say: map<ID, Element>, lost: iset<ID>) {
    (s.deleted && s.unit.id in lost && s.element == Gone) || (s.unit.id in say && s.element == say[s.unit.id])
  }

  /** An insertion keeps it so. */
  lemma TellsMore(s: seq<Seen>, x: seq<Seen>, r: seq<Seen>, say: map<ID, Element>, gone: set<ID>, lost: iset<ID>)
    requires Told(s, say, gone, lost) && Told(x, say, gone, lost) && Seqs.Inserted(s, x, r)
    ensures Told(r, say, gone, lost)
  {
    var i: nat :| IsInserted(s, i, x, r);
    forall j | 0 <= j < |r| ensures r[j] in s || r[j] in x {
      if j < i {
        assert r[j] == s[j];
      } else if j < i + |x| {
        assert r[j] == x[j - i];
      } else {
        assert r[j] == s[j - |x|];
      }
    }
  }

  /** Both show the same units, the same of them as deleted, and the same of each but of deleted ones in `lost`. */
  ghost predicate Alike(s: seq<Seen>, t: seq<Seen>, lost: iset<ID>) {
    |s| == |t| && forall i :: 0 <= i < |s| ==>
      && s[i].unit == t[i].unit && s[i].deleted == t[i].deleted
      && (s[i].element == t[i].element || (s[i].deleted && s[i].unit.id in lost))
  }

  /** The deleted units of the two may have lost their content at different times. */
  lemma SameShown(s: seq<Seen>, t: seq<Seen>, say: map<ID, Element>, gone: set<ID>, lost: iset<ID>, taken: iset<ID>)
    requires Told(s, say, gone, lost) && Told(t, say, gone, taken) && UnitsIn(s) == UnitsIn(t)
    ensures Alike(s, t, lost + taken)
  {
    assert |s| == |UnitsIn(s)| == |t|;
    forall i | 0 <= i < |s| ensures s[i].unit == t[i].unit { assert UnitsIn(s)[i] == UnitsIn(t)[i]; }
  }

  // ----- what is visible

  predicate Countable(e: Element) {
    !e.Gone? && !(e.Single? && e.content.Format?)
  }

  function Live(shown: seq<Seen>): seq<Element> {
    if shown == [] then []
    else (if !shown[0].deleted && Countable(shown[0].element) then [shown[0].element] else []) + Live(shown[1..])
  }

  lemma {:induction false} LiveConcat(s: seq<Seen>, t: seq<Seen>)
    ensures Live(s + t) == Live(s) + Live(t)
  {
    hide Countable;
    if s == [] {
      assert s + t == t;
    } else {
      var a := if !s[0].deleted && Countable(s[0].element) then [s[0].element] else [];
      LiveConcat(s[1..], t);
      assert (s + t)[1..] == s[1..] + t;
      Assoc(a, Live(s[1..]), Live(t));
    }
  }

  /** What is lost is not live. */
  lemma {:induction false} LiveSame(s: seq<Seen>, t: seq<Seen>, lost: iset<ID>)
    requires Alike(s, t, lost)
    ensures Live(s) == Live(t)
  {
    hide Countable;
    if s != [] { LiveSame(s[1..], t[1..], lost); }
  }

  /** Of units that are alike, all are live or none is. */
  lemma {:induction false} LiveAlike(s: seq<Seen>, es: seq<Element>, live: bool)
    requires |s| == |es| && forall i :: 0 <= i < |s| ==>
      s[i].element == es[i] && (live <==> !s[i].deleted && Countable(s[i].element))
    ensures Live(s) == if live then es else []
  {
    if s != [] { LiveAlike(s[1..], es[1..], live); }
  }

  lemma CountsAlike(c: Content)
    ensures forall i :: 0 <= i < |Elements(c)| ==> (Countable(Elements(c)[i]) <==> c.IsCountable())
  {
  }

  /** A block counts if its content does. */
  ghost predicate Proportioned(ch: seq<Item>)
    reads ch`len, ch`content, ch`countable
  {
    forall it :: it in ch ==> it.HasLength() && it.countable == it.content.IsCountable()
  }

  /** What is visible of a chain is what its live units hold. */
  lemma {:induction false} VisibleIsLive(ch: seq<Item>)
    requires Proportioned(ch)
    ensures Visible(ch) == Live(ShownAll(ch))
  {
    hide Elements, Countable;
    if ch != [] {
      var it, rest := ch[0], ch[1..];
      VisibleIsLive(rest);
      LookIs(it);
      CountsAlike(it.content);
      LiveAlike(Look(it), Elements(it.content), it.Counts());
      assert Slots(ch) == [Slot(it)] + Slots(rest) && Looks(ch) == [Look(it)] + Looks(rest);
      assert Visible(ch) == Slot(it) + Visible(rest) && ShownAll(ch) == Look(it) + ShownAll(rest);
      LiveConcat(Look(it), ShownAll(rest));
    }
  }

  function LiveIds(shown: seq<Seen>): seq<ID> {
    if shown == [] then []
    else (if !shown[0].deleted && Countable(shown[0].element) then [shown[0].unit.id] else []) + LiveIds(shown[1..])
  }

  lemma {:induction false} LiveIdsConcat(s: seq<Seen>, t: seq<Seen>)
    ensures LiveIds(s + t) == LiveIds(s) + LiveIds(t)
  {
    hide Countable;
    if s == [] {
      assert s + t == t;
    } else {
      var a := if !s[0].deleted && Countable(s[0].element) then [s[0].unit.id] else [];
      LiveIdsConcat(s[1..], t);
      assert (s + t)[1..] == s[1..] + t;
      Assoc(a, LiveIds(s[1..]), LiveIds(t));
    }
  }

  lemma {:induction false} LiveIdsAlike(s: seq<Seen>, ids: seq<ID>, live: bool)
    requires |s| == |ids| && forall i :: 0 <= i < |s| ==>
      s[i].unit.id == ids[i] && (live <==> !s[i].deleted && Countable(s[i].element))
    ensures LiveIds(s) == if live then ids else []
  {
    if s != [] { LiveIdsAlike(s[1..], ids[1..], live); }
  }

  /** The ids of what is visible are those of the live units. */
  lemma {:induction false} NamesAreLive(ch: seq<Item>)
    requires Proportioned(ch)
    ensures Flat(NameSlots(ch)) == LiveIds(ShownAll(ch))
  {
    hide Elements, Countable;
    if ch != [] {
      var it, rest := ch[0], ch[1..];
      NamesAreLive(rest);
      LookIs(it);
      CountsAlike(it.content);
      LiveIdsAlike(Look(it), Named(it.id, it.len), it.Counts());
      assert NameSlots(ch) == [NameSlot(it)] + NameSlots(rest) && Looks(ch) == [Look(it)] + Looks(rest);
      assert ShownAll(ch) == Look(it) + ShownAll(rest);
      LiveIdsConcat(Look(it), ShownAll(rest));
    }
  }

  /** What is typed is put between two neighbours of the list, as insertions are assumed to be. */
  lemma TypedIsAuthored(s: seq<Unit>, x: Span, r: seq<Unit>)
    requires Typed(s, x, r) && Distinct(s) && x.len > 0
    ensures Adjacent(s, x.UnitAt(0).origin, x.UnitAt(0).rightOrigin)
  {
    var u: nat :| TypedAt(s, u, x, r);
    if u > 0 { FindIs(s, u - 1); }
    if u < |s| { FindIs(s, u); }
  }

  /** The units are put where integrating them one after the other would put them. */
  lemma TypedIsIntegrated(s: seq<Unit>, x: Span, r: seq<Unit>)
    requires Typed(s, x, r) && Inv(s) && Fresh(s, x) && x.len > 0
    ensures r == IntegrateAll(s, Units(x))
  {
    var u: nat :| TypedAt(s, u, x, r);
    if u > 0 { FindIs(s, u - 1); }
    assert Place(s, x.UnitAt(0)) == u - 1;
    UnitsPut(s, u - 1, x);
    assert Units(x)[..x.len] == Units(x);
  }

  // ----- convergence

  /** A replica has received `ops`, and its blocks hold what was made. */
  ghost predicate Replicates(t: Transaction, b: Branch, key: Option<string>, ops: seq<Op>,
      say: map<ID, Element>, gone: set<ID>, lost: iset<ID>)
    reads t`blocks, t.blocks, t.blocks.stored`id, t.blocks.stored`len, t.blocks.stored`parent
    reads b`start, b`entries, b`chains, b`items, b.Chain(key)
    reads b.items`parent, b.items`parentSub, b.items`left, b.items`right, b.items`len, b.items`content
  {
    && t.Holds(b) && Expand(ToSpans(b.Chain(key))) == Run(ops)
    && Told(ShownAll(b.Chain(key)), say, gone, lost)
  }

  /** What is left of a block after its first `n` units is what its author made, if its content is still there. */
  ghost predicate Makes(c: Content, x: Span, n: nat, say: map<ID, Element>, lost: iset<ID>) {
    && n < x.len == c.Length16() && (n > 0 ==> c.CanBeCut() && Clean(c, n))
    && forall k {:trigger x.IdAt(k)} :: n <= k < x.len ==>
         (c.Deleted? && x.IdAt(k) in lost) || (x.IdAt(k) in say && say[x.IdAt(k)] == Elements(c)[k])
  }

  /** Of a block whose content is gone, no unit holds anything. */
  lemma NothingThere(c: Content)
    requires c.Deleted?
    ensures forall i :: 0 <= i < |Elements(c)| ==> Elements(c)[i] == Gone
  {
  }

  /** What is left of a content, unit by unit. */
  lemma RestElements(whole: Content, n: nat, rest: Content)
    requires n < whole.Length16() && (n > 0 ==> whole.CanBeCut() && Clean(whole, n))
    requires rest == if n > 0 then whole.Cut(n).1 else whole
    ensures rest.Length16() == whole.Length16() - n && (rest.Deleted? <==> whole.Deleted?)
    ensures forall i :: 0 <= i < |Elements(rest)| ==> Elements(rest)[i] == Elements(whole)[n + i]
  {
    hide Elements, Content.Length16, Clean;
    if n > 0 {
      CutLengths(whole, n);
      CutElements(whole, n);
      forall i | 0 <= i < |Elements(rest)| ensures Elements(rest)[i] == Elements(whole)[n + i] {
        assert (Elements(whole.Cut(n).0) + Elements(rest))[n + i] == Elements(rest)[i];
      }
    }
  }

  lemma RestUnit(x: Item, was: Span, whole: Content, n: nat, say: map<ID, Element>, lost: iset<ID>, i: nat)
    requires Makes(whole, was, n, say, lost) && (x.content.Deleted? ==> x.deleted)
    requires x.id == IdAfter(was.id, n) && i < x.len == was.len - n
    requires x.content == if n > 0 then whole.Cut(n).1 else whole
    ensures Proper(DataOf(x))
    ensures var s := Look(x)[i];
      AsMade(s, say, lost) && s.deleted == x.deleted && s.unit.id == was.IdAt(n + i) && Tail(was, n).Contains(s.unit.id)
  {
    hide Elements, Content.Cut, Content.Length16, Clean;
    RestElements(whole, n, x.content);
    if whole.Deleted? { NothingThere(whole); }
    assert Look(x)[i].unit.id == was.IdAt(n + i);
  }

  lemma RestTold(x: Item, was: Span, whole: Content, n: nat, say: map<ID, Element>, gone: set<ID>, lost: iset<ID>)
    requires Makes(whole, was, n, say, lost) && (x.content.Deleted? ==> x.deleted)
    requires x.id == IdAfter(was.id, n) && x.len == was.len - n
    requires x.content == if n > 0 then whole.Cut(n).1 else whole
    requires forall id :: Tail(was, n).Contains(id) ==> (id in gone <==> x.deleted)
    ensures Told(Look(x), say, gone, lost)
  {
    hide Makes, Content.Cut, AsMade, Tail, Shown;
    forall s | s in Look(x) ensures (s.deleted <==> s.unit.id in gone) && AsMade(s, say, lost) {
      var i :| 0 <= i < |Look(x)| && Look(x)[i] == s;
      RestUnit(x, was, whole, n, say, lost, i);
    }
  }

  /** Receiving a block keeps it so, if the block itself is what was made, and what it marks as deleted is. */
  method ReceiveShown(t: Transaction, x: Item, offset: nat, ghost b: Branch, ghost w: set<Op>, ghost ops: seq<Op>,
      ghost xs: seq<Op>, ghost say: map<ID, Element>, ghost gone: set<ID>, ghost lost: iset<ID>) returns (done: bool)
    requires Replicates(t, b, None, ops, say, gone, lost) && b.Counted(t.kind)
    requires Makes(x.content, x.ToSpan(), offset, say, lost)
    requires AllClean(b.Chain(None), CutsFor(x.ToSpan()))
    requires b.item != x && x !in b.items && x !in t.blocks.stored && offset < x.len
    requires x.HasLength() && !x.deleted && x.countable == x.content.IsCountable()
    requires t.Unknown(Tail(x.ToSpan(), offset))
    requires x.parent != null ==> x.parent == b && x.parentSub == None
    requires World(w) && From(w, ops + xs) && Deliverable(ops + xs)
    requires Known(ops, x.ToSpan(), offset) && Rest(xs, x.ToSpan(), offset)
    modifies t`deleteSet, t`insertSet, t.blocks, x`id, x`left, x`right, x`origin, x`len, x`content
    modifies x`deleted, x`parent, x`parentSub
    modifies b.items`len, b.items`content, b.items`left, b.items`right, b.items`deleted
    modifies b`start, b`entries, b`chains, b`items, b`lost, b`blockLen, b`contentLen
    ensures b.Counted(t.kind) && b.lost == old(b.lost) && done == old(Homed(x)) && t.OnlyAdds(x, b)
    ensures x.id == IdAfter(old(x.id), offset) && x.len == old(x.len) - offset
    ensures done ==> x.parent == b && x.parentSub == None && Fate(x, b, None)
    ensures x.content == if offset > 0 then old(x.content).Cut(offset).1 else old(x.content)
    ensures done && (forall id :: Tail(old(x.ToSpan()), offset).Contains(id) ==> (id in gone <==> x.deleted)) ==>
      Replicates(t, b, None, ops + xs, say, gone, lost)
  {
    hide Transaction.Holds, Branch.Counted, ToSpans, Expand, Run, Transaction.Unknown, World, From, Deliverable, Known;
    hide Rest, AllClean, ShownAll, Look, Seqs.Inserted, Told, Tail, Makes;
    ghost var shown, was, whole := ShownAll(b.Chain(None)), x.ToSpan(), x.content;
    done := Receive(t, x, offset, b, None, w, ops, xs);
    if done && forall id :: Tail(was, offset).Contains(id) ==> (id in gone <==> x.deleted) {
      RestTold(x, was, whole, offset, say, gone, lost);
      TellsMore(shown, Look(x), ShownAll(b.Chain(None)), say, gone, lost);
    }
  }

  /** Of a chain in which block `i` was deleted: what its units hold is as it was. */
  lemma DeletedTold(ch: seq<Item>, i: nat, ls: seq<seq<Seen>>, say: map<ID, Element>, gone: set<ID>, lost: iset<ID>)
    requires i < |ch| == |ls| && (forall j :: 0 <= j < |ch| ==> ch[j].HasLength()) && ch[i].deleted
    requires forall j :: 0 <= j < |ch| && j != i ==> ls[j] == Look(ch[j])
    requires forall j, id :: 0 <= j < |ch| && j != i && ch[i].Has(id) ==> !ch[j].Has(id)
    requires |Look(ch[i])| == |ls[i]|
    requires forall k :: 0 <= k < |ls[i]| ==>
      Look(ch[i])[k].unit == ls[i][k].unit && Look(ch[i])[k].element == ls[i][k].element
    requires Told(Flat(ls), say, gone, lost)
    ensures Told(ShownAll(ch), say, gone + IdsOf(ch[i].ToSpan()), lost)
  {
    hide Elements, Look, ShownAll, Item.HasLength, Flat, IdsOf, Item.ToSpan;
    forall s | s in ShownAll(ch)
      ensures s.deleted <==> s.unit.id in gone + IdsOf(ch[i].ToSpan())
      ensures AsMade(s, say, lost)
    {
      InChainShown(ch, s);
      var j :| 0 <= j < |ch| && s in Look(ch[j]);
      InBlockShown(ch[j], s);
      IdsAre(ch[i], s.unit.id);
      if j == i {
        var k :| 0 <= k < |Look(ch[i])| && Look(ch[i])[k] == s;
        FlatHas(ls, ls[i][k]);
      } else {
        FlatHas(ls, s);
      }
    }
  }

  lemma DeletedLook(d: Data, e: Data)
    requires Proper(d) && e == d.(deleted := true)
    ensures |Shown(e)| == |Shown(d)|
    ensures forall k :: 0 <= k < |Shown(d)| ==>
      Shown(e)[k].unit == Shown(d)[k].unit && Shown(e)[k].element == Shown(d)[k].element
  {
    hide Elements;
  }

  /** Deleting a block keeps it so, with its units among the deleted ones. */
  method DeleteShown(t: Transaction, it: Item, ghost b: Branch, ghost key: Option<string>, ghost ops: seq<Op>,
      ghost say: map<ID, Element>, ghost gone: set<ID>, ghost lost: iset<ID>) returns (done: bool)
    requires Replicates(t, b, key, ops, say, gone, lost) && b.Counted(t.kind)
    requires it in b.Chain(key) && it.parent == b && it.parentSub == key
    modifies t`deleteSet, it`deleted, b`blockLen, b`contentLen
    ensures Replicates(t, b, key, ops, say, gone + IdsOf(it.ToSpan()), lost) && b.Counted(t.kind)
    ensures it.deleted && t.deleteSet == if done then old(t.deleteSet) + IdsOf(it.ToSpan()) else old(t.deleteSet)
  {
    hide BlockStore.Exact;
    hide Branch.Valid, BlockStore.Valid, Branch.Sound, Branch.Counted, ToSpans, Expand, Run, Told, Look, Looks, IdsOf;
    hide Flat, Linked, Shown;
    ghost var ch := b.Chain(key);
    ghost var i, ls, was := Pos(ch, it), Looks(ch), DataOf(it);
    AllHaveLength(t, b, key);
    b.LinkedChain(key);
    Unique(ch, i);
    forall j, id | 0 <= j < |ch| && j != i && ch[i].Has(id) ensures !ch[j].Has(id) { t.OneHas(b, key, i, id); }
    LookIs(it);
    done := t.Delete(it);
    LookIs(it);
    DeletedLook(was, DataOf(it));
    DeletedTold(ch, i, ls, say, gone, lost);
  }

  lemma AllHaveLength(t: Transaction, b: Branch, key: Option<string>)
    requires t.Holds(b)
    ensures forall it :: it in b.Chain(key) ==> it.HasLength()
  {
    hide Branch.Valid, BlockStore.Valid, Linked;
    b.LinkedChain(key);
  }

  // ----- collection

  /** Of a chain in which the blocks in `off`, which are deleted, may have lost their content. */
  lemma ClearedTold(ch: seq<Item>, off: set<Item>, ls: seq<seq<Seen>>,
      say: map<ID, Element>, gone: set<ID>, lost: iset<ID>)
    requires |ch| == |ls| && (forall it :: it in ch ==> it.HasLength())
    requires forall j :: 0 <= j < |ch| && ch[j] !in off ==> Look(ch[j]) == ls[j]
    requires forall j :: 0 <= j < |ch| && ch[j] in off ==> ch[j].deleted && Emptied(ls[j], Look(ch[j]))
    requires forall j, s :: 0 <= j < |ch| && ch[j] in off && s in Look(ch[j]) ==> s.element == Gone
    requires Told(Flat(ls), say, gone, lost)
    ensures Told(ShownAll(ch), say, gone, lost + IdsIn(off))
  {
    hide Elements, Look, ShownAll, Item.HasLength, Flat, Item.Has;
    forall s | s in ShownAll(ch)
      ensures s.deleted <==> s.unit.id in gone
      ensures AsMade(s, say, lost + IdsIn(off))
    {
      InChainShown(ch, s);
      var j :| 0 <= j < |ch| && s in Look(ch[j]);
      InBlockShown(ch[j], s);
      if ch[j] in off {
        var k :| 0 <= k < |Look(ch[j])| && Look(ch[j])[k] == s;
        FlatHas(ls, ls[j][k]);
      } else {
        FlatHas(ls, s);
      }
    }
  }

  /** The same units are shown, and all are deleted as they were: only what they hold may differ. */
  ghost predicate Emptied(s: seq<Seen>, t: seq<Seen>) {
    |s| == |t| && forall k :: 0 <= k < |s| ==> s[k].unit == t[k].unit && s[k].deleted == t[k].deleted
  }

  /** The block shows this, if this is its content. */
  ghost predicate ShowsAs(it: Item, c: Content, l: seq<Seen>)
    reads it`id, it`len, it`origin, it`rightOrigin, it`deleted
  {
    |l| == it.len == c.Length16() && forall k :: 0 <= k < it.len ==>
      l[k].unit == it.ToSpan().UnitAt(k) && l[k].deleted == it.deleted && l[k].element == Elements(c)[k]
  }

  /** The looks are those of a chain whose blocks had this content. */
  ghost predicate ShowAs(ch: seq<Item>, had: map<Item, (Content, bool)>, ls: seq<seq<Seen>>)
    reads ch`id, ch`len, ch`origin, ch`rightOrigin, ch`deleted
  {
    |ls| == |ch| && forall j :: 0 <= j < |ch| ==> ch[j] in had && ShowsAs(ch[j], had[ch[j]].0, ls[j])
  }

  lemma LooksBefore(ch: seq<Item>, items: set<Item>)
    requires forall it :: it in ch ==> it.HasLength() && it in items
    ensures ShowAs(ch, ContentsOf(items), Looks(ch))
  {
    hide Elements;
    forall j | 0 <= j < |ch| ensures ShowsAs(ch[j], ch[j].content, Look(ch[j])) { LookIs(ch[j]); }
  }

  /** The last block is this, if blocks have this content. */
  ghost predicate TopAs(ch: seq<Item>, had: map<Item, (Content, bool)>, top: Top)
    reads ch`id, ch`len, ch`deleted
  {
    if ch == [] then top == Nothing
    else
      var it := ch[|ch| - 1];
      var last := ID(it.id.client, if it.len > 0 then it.id.clock + it.len - 1 else it.id.clock);
      it in had && top == if it.deleted then Dead(last) else Alive(last, had[it].0)
  }

  lemma TopBefore(ch: seq<Item>, items: set<Item>)
    requires forall it :: it in ch ==> it in items
    ensures TopAs(ch, ContentsOf(items), TopOf(ch))
  {
  }

  lemma TopAfter(ch: seq<Item>, items: set<Item>, off: set<Item>, had: map<Item, (Content, bool)>, top: Top)
    requires TopAs(ch, had, top) && OnlyLost(items, off, had) && (forall it :: it in off ==> it.deleted)
    requires forall it :: it in ch ==> it in items
    ensures TopOf(ch) == top
  {
  }

  lemma LooksAfter(ch: seq<Item>, items: set<Item>, off: set<Item>, had: map<Item, (Content, bool)>, ls: seq<seq<Seen>>)
    requires ShowAs(ch, had, ls) && OnlyLost(items, off, had) && forall it :: it in ch ==> it.HasLength() && it in items
    ensures forall j :: 0 <= j < |ch| && ch[j] !in off ==> Look(ch[j]) == ls[j]
    ensures forall j :: 0 <= j < |ch| ==> Emptied(ls[j], Look(ch[j]))
    ensures forall j, s :: 0 <= j < |ch| && ch[j] in off && s in Look(ch[j]) ==> s.element == Gone
  {
    hide Elements;
    forall j | 0 <= j < |ch|
      ensures Emptied(ls[j], Look(ch[j])) && (ch[j] !in off ==> Look(ch[j]) == ls[j])
      ensures ch[j] in off ==> forall s :: s in Look(ch[j]) ==> s.element == Gone
    {
      assert ShowsAs(ch[j], had[ch[j]].0, ls[j]);
      LookIs(ch[j]);
      if ch[j].content.Deleted? { NothingThere(ch[j].content); }
    }
  }

  /** The last block of the chain of a key is as it was after a collection. */
  method CollectTop(t: Transaction, deleted: map<nat, seq<Range>>, ghost h: map<Branch, nat>, ghost closed: bool,
      ghost b: Branch, ghost key: Option<string>) returns (ghost off: set<Item>)
    requires t.Holds(b) && b.Counted(t.kind) && (b.item == null || !b.item.deleted)
    requires Tree(t.blocks.stored, h) && Covered(t.blocks.clients)
    requires closed ==> KeepClosed(t.blocks.stored, h.Keys)
    modifies t.blocks, t.blocks.stored`content, t.blocks.stored`countable, h.Keys`start, h.Keys`entries
    ensures t.Holds(b) && b.Counted(t.kind) && OnlyLost(b.items, off, old(ContentsOf(t.blocks.stored)))
    ensures off == old(DeadIn(ScopeOf(t.blocks.clients, deleted))) && forall it :: it in off ==> it.deleted
    ensures TopOf(b.Chain(key)) == old(TopOf(b.Chain(key)))
  {
    hide Tree, KeepClosed, Covered, DeadIn, ScopeOf, Transaction.Holds, TopAs, TopOf, OnlyLost, ContentsOf, HadLengths;
    ghost var ch, had, top := b.Chain(key), ContentsOf(t.blocks.stored), TopOf(b.Chain(key));
    t.HasLengths(b, key);
    HadThem(t, b);
    TopBefore(ch, t.blocks.stored);
    off := CollectBranch(t, deleted, h, closed, b);
    TopAfter(ch, b.items, off, had, top);
  }

  /** The collection at the end of a transaction keeps it so, with what was collected among what is lost. */
  method CollectShown(t: Transaction, deleted: map<nat, seq<Range>>, ghost h: map<Branch, nat>, ghost closed: bool,
      ghost b: Branch, ghost key: Option<string>, ghost ops: seq<Op>,
      ghost say: map<ID, Element>, ghost gone: set<ID>, ghost lost: iset<ID>) returns (ghost off: set<Item>)
    requires Replicates(t, b, key, ops, say, gone, lost) && b.Counted(t.kind) && (b.item == null || !b.item.deleted)
    requires Tree(t.blocks.stored, h) && Covered(t.blocks.clients)
    requires closed ==> KeepClosed(t.blocks.stored, h.Keys)
    modifies t.blocks, t.blocks.stored`content, t.blocks.stored`countable, h.Keys`start, h.Keys`entries
    ensures Replicates(t, b, key, ops, say, gone, lost + IdsIn(off)) && b.Counted(t.kind)
    ensures off == old(DeadIn(ScopeOf(t.blocks.clients, deleted)))
    ensures old(OneLives(b.Chain(key))) ==> OneLives(b.Chain(key))
    ensures TopOf(b.Chain(key)) == old(TopOf(b.Chain(key)))
  {
    hide Tree, KeepClosed, Covered, DeadIn, ScopeOf, Transaction.Holds, ToSpans, Expand, Run, Told, Looks, Shown;
    hide OneLives, Emptied, Item.HasLength, ShowAs, OnlyLost, ContentsOf, HadLengths, Look;
    hide TopOf, IdsIn;
    ghost var ch := b.Chain(key);
    ghost var ls, had := Looks(ch), ContentsOf(t.blocks.stored);
    AllHaveLength(t, b, key);
    t.HasLengths(b, key);
    HadThem(t, b);
    LooksBefore(ch, t.blocks.stored);
    off := CollectTop(t, deleted, h, closed, b, key);
    AllHaveLength(t, b, key);
    LooksAfter(ch, b.items, off, had, ls);
    ClearedTold(ch, off, ls, say, gone, lost);
  }

  /**
    Two replicas that have received the same insertions and deletions, in whatever order these could be
    delivered, however they cut or join their blocks, and whenever they collect what was deleted, show the same:
    unit by unit, but for the content of deleted units that one of them has lost, and to a reader.
   */
  lemma SameOutcome(t: Transaction, b: Branch, u: Transaction, c: Branch, key: Option<string>,
      w: set<Op>, ops: seq<Op>, others: seq<Op>, say: map<ID, Element>, gone: set<ID>,
      lost: iset<ID>, taken: iset<ID>)
    requires Replicates(t, b, key, ops, say, gone, lost) && Replicates(u, c, key, others, say, gone, taken)
    requires World(w) && From(w, ops) && From(w, others) && Deliverable(ops) && Deliverable(others)
    requires forall op :: op in ops <==> op in others
    ensures Alike(ShownAll(b.Chain(key)), ShownAll(c.Chain(key)), lost + taken)
    ensures lost + taken == iset{} ==> ShownAll(b.Chain(key)) == ShownAll(c.Chain(key))
    ensures Proportioned(b.Chain(key)) && Proportioned(c.Chain(key)) ==>
      Visible(b.Chain(key)) == Visible(c.Chain(key))
  {
    hide Run, World, From, Deliverable, ShownAll, Visible, Expand, ToSpans, Told, Item.HasLength, Transaction.Holds;
    hide Proportioned;
    Converge(w, ops, others);
    AllHaveLength(t, b, key);
    AllHaveLength(u, c, key);
    ShownUnits(b.Chain(key));
    ShownUnits(c.Chain(key));
    SameShown(ShownAll(b.Chain(key)), ShownAll(c.Chain(key)), say, gone, lost, taken);
    if Proportioned(b.Chain(key)) && Proportioned(c.Chain(key)) {
      VisibleIsLive(b.Chain(key));
      VisibleIsLive(c.Chain(key));
      LiveSame(ShownAll(b.Chain(key)), ShownAll(c.Chain(key)), lost + taken);
    }
  }

  /** Removing the entry of a key: what it wrote is then gone. */
  method RemoveEntry(t: Transaction, ghost b: Branch, it: Item, ghost key: string, ghost ops: seq<Op>,
      ghost said: Writes) returns (done: bool)
    requires KeyAfter(t, b, key, ops, said) && b.Counted(t.kind) && key in b.entries && b.entries[key] == it
    modifies t`deleteSet, it`deleted, b`blockLen, b`contentLen
    ensures KeyAfter(t, b, key, ops, said.(gone := said.gone + IdsOf(it.ToSpan()))) && b.Counted(t.kind)
    ensures it.deleted && t.deleteSet == if done then old(t.deleteSet) + IdsOf(it.ToSpan()) else old(t.deleteSet)
  {
    hide Transaction.Holds, Branch.Valid, Branch.Counted, ToSpans, Expand, Run, IdsOf;
    EntryIs(t, b, key);
    IdsAre(it, it.LastId());
    done := t.Delete(it);
  }

  lemma EntryIs(t: Transaction, b: Branch, key: string)
    requires t.Holds(b) && key in b.entries
    ensures var ch, it := b.Chain(Some(key)), b.entries[key];
      && b.Valid() && ch != [] && it == ch[|ch| - 1] && it in b.items
      && it.parent == b && it.parentSub == Some(key) && it.len > 0
  {
    hide BlockStore.Valid, BlockStore.Exact, Linked;
    b.LinkedChain(Some(key));
    AllHaveLength(t, b, Some(key));
    assert EndsWith(b.Chain(Some(key)), b.entries[key]);
  }

  /** Two replicas that have received the same writes to a key keep the same entry. */
  lemma SameSurvivor(t: Transaction, b: Branch, u: Transaction, c: Branch, key: string,
      w: set<Op>, ops: seq<Op>, others: seq<Op>, said: Writes)
    requires KeyAfter(t, b, key, ops, said) && KeyAfter(u, c, key, others, said) && ops != []
    requires World(w) && From(w, ops) && From(w, others) && Deliverable(ops) && Deliverable(others)
    requires forall op :: op in ops <==> op in others
    ensures key in b.entries && key in c.entries && b.entries[key].len > 0 && c.entries[key].len > 0
    ensures b.entries[key].LastId() == c.entries[key].LastId()
    ensures said.open ==> b.entries[key].deleted == c.entries[key].deleted
    ensures said.open && !b.entries[key].deleted ==> b.entries[key].content == c.entries[key].content
  {
    hide Run, World, From, Deliverable, ToSpans, Transaction.Holds, Says, TopOf;
    Converge(w, ops, others);
    assert ops[0] in others;
    LastEntry(t, b, key, Run(ops));
    LastEntry(u, c, key, Run(others));
    EntrySays(t, b, key, ops, said);
    EntrySays(u, c, key, others, said);
  }
}
