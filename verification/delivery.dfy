/** A whole run of blocks for a sequence is received: the replica then shows what their authors made. */
module Delivery {
  import opened Ids
  import opened Seqs
  import opened Spans
  import opened Convergence
  import opened Block
  import opened Squash
  import opened Integration
  import opened Replica
  import opened Outcome

  /** What is to come out: what each unit holds, which are deleted, and which of those have lost what they held. */
  datatype Aim = Aim(say: map<ID, Element>, gone: set<ID>, lost: iset<ID>)

  /** A cut before one of these ids is not inside a surrogate pair. */
  ghost predicate NotLow(cuts: set<ID>, say: map<ID, Element>) {
    forall id :: id in cuts && id in say ==> !IsLow(say[id])
  }

  /** A block is what its author made, and its units are among the deleted ones exactly if its content is gone. */
  ghost predicate AsAimed(c: Content, x: Span, n: nat, aim: Aim) {
    && Makes(c, x, n, aim.say, aim.lost) && NotLow(CutsFor(x), aim.say)
    && forall id :: Tail(x, n).Contains(id) ==> (id in aim.gone <==> c.Deleted?)
  }

  /** A block for the sequence of `b` that is still to be received, but for its first `n` units, which are known. */
  ghost predicate Comes(t: Transaction, b: Branch, x: Item, n: nat, mine: seq<Op>, aim: Aim)
    reads t`blocks, t.blocks`stored, t.blocks`known, b`items, b`item, x
  {
    && x.HasLength() && !x.deleted && x.countable == x.content.IsCountable()
    && Homed(x) && (x.parent != null ==> x.parent == b && x.parentSub == None)
    && b.item != x && x !in b.items && x !in t.blocks.stored && n < x.len
    && t.Unknown(Tail(x.ToSpan(), n)) && Rest(mine, x.ToSpan(), n) && AsAimed(x.content, x.ToSpan(), n, aim)
  }

  /** The sequence holds what `ops` and the aim say. */
  ghost predicate ShowsAfter(t: Transaction, b: Branch, ops: seq<Op>, aim: Aim)
    reads t`blocks, t.blocks, t.blocks.stored`id, t.blocks.stored`len, t.blocks.stored`parent
    reads b`start, b`entries, b`chains, b`items, b.Chain(None)
    reads b.items`parent, b.items`parentSub, b.items`left, b.items`right, b.items`len, b.items`content
  {
    Replicates(t, b, None, ops, aim.say, aim.gone, aim.lost)
  }

  lemma ToldClean(ch: seq<Item>, cuts: set<ID>, aim: Aim)
    requires Told(ShownAll(ch), aim.say, aim.gone, aim.lost) && NotLow(cuts, aim.say)
    ensures AllClean(ch, cuts)
  {
    hide ShownAll;
  }

  /** Receives one of the blocks. */
  method ReceiveOne(t: Transaction, x: Item, n: nat, ghost b: Branch, ghost w: set<Op>, ghost ops: seq<Op>,
      ghost mine: seq<Op>, ghost aim: Aim)
    requires ShowsAfter(t, b, ops, aim) && b.Counted(t.kind) && Open(b) && Comes(t, b, x, n, mine, aim)
    requires World(w) && From(w, ops + mine) && Deliverable(ops + mine) && Known(ops, x.ToSpan(), n)
    modifies t`deleteSet, t`insertSet, t.blocks, x`id, x`left, x`right, x`origin, x`len, x`content
    modifies x`deleted, x`parent, x`parentSub
    modifies b.items`len, b.items`content, b.items`left, b.items`right, b.items`deleted
    modifies b`start, b`entries, b`chains, b`items, b`lost, b`blockLen, b`contentLen
    ensures ShowsAfter(t, b, ops + mine, aim) && b.Counted(t.kind) && Open(b) && t.OnlyAdds(x, b)
    ensures x.id == IdAfter(old(x.id), n) && x.len == old(x.len) - n && b.lost == old(b.lost)
  {
    hide Transaction.Holds, Branch.Counted, ToSpans, Expand, Run, World, From, Deliverable, Look, ShownAll, Told;
    hide AllClean, Known, Rest, Makes, NotLow, CutsFor, Item.HasLength, Transaction.Unknown;
    ghost var whole, was := x.content, x.ToSpan();
    ToldClean(b.Chain(None), CutsFor(was), aim);
    var done := ReceiveShown(t, x, n, b, w, ops, mine, aim.say, aim.gone, aim.lost);
    StillGone(whole, was, n, x.content, aim);
  }

  lemma StillGone(whole: Content, was: Span, n: nat, rest: Content, aim: Aim)
    requires Makes(whole, was, n, aim.say, aim.lost) && rest == if n > 0 then whole.Cut(n).1 else whole
    ensures rest.Deleted? <==> whole.Deleted?
  {
    RestElements(whole, n, rest);
  }

  /** Receives the next of several blocks; the others are still to come. */
  method ReceiveNext(t: Transaction, xs: seq<Item>, ns: seq<nat>, i: nat, ghost b: Branch, ghost w: set<Op>,
      ghost ops: seq<Op>, ghost more: seq<seq<Op>>, ghost aim: Aim)
    requires i < |xs| == |ns| == |more| && ShowsAfter(t, b, ops + Flat(more[..i]), aim)
    requires b.Counted(t.kind) && Open(b)
    requires World(w) && From(w, ops + Flat(more)) && Deliverable(ops + Flat(more))
    requires forall j :: i <= j < |xs| ==> Comes(t, b, xs[j], ns[j], more[j], aim)
    requires Known(ops + Flat(more[..i]), xs[i].ToSpan(), ns[i])
    requires forall j :: i < j < |xs| ==> xs[i] != xs[j]
    modifies t`deleteSet, t`insertSet, t.blocks
    modifies {xs[i]}`id, {xs[i]}`left, {xs[i]}`right, {xs[i]}`origin, {xs[i]}`len, {xs[i]}`content
    modifies {xs[i]}`deleted, {xs[i]}`parent, {xs[i]}`parentSub
    modifies b.items`len, b.items`content, b.items`left, b.items`right, b.items`deleted
    modifies b`start, b`entries, b`chains, b`items, b`lost, b`blockLen, b`contentLen
    ensures ShowsAfter(t, b, ops + Flat(more[..i + 1]), aim) && b.Counted(t.kind) && Open(b) && b.lost == old(b.lost)
    ensures forall j :: i < j < |xs| ==> Comes(t, b, xs[j], ns[j], more[j], aim)
    ensures forall o :: o in b.items && !fresh(o) ==> o in old(b.items) || o == xs[i]
  {
    hide ShowsAfter, Branch.Counted, World, From, Deliverable, Known, Flat, Rest, Tail, Item.Ids, Strange, Open;
    hide Transaction.Unknown, Item.HasLength, AsAimed;
    NextWrite(w, ops, more, i);
    ghost var known, tail := t.blocks.known, Tail(xs[i].ToSpan(), ns[i]);
    forall j | i < j < |xs| ensures Strange(known, tail, Tail(xs[j].ToSpan(), ns[j])) {
      OtherIds(ops, more, i, j, xs[i].ToSpan(), ns[i], xs[j].ToSpan(), ns[j]);
      AreStrange(t, tail, Tail(xs[j].ToSpan(), ns[j]));
    }
    TailIs(xs[i].ToSpan(), ns[i]);
    ReceiveOne(t, xs[i], ns[i], b, w, ops + Flat(more[..i]), more[i], aim);
    forall j | i < j < |xs| ensures t.Unknown(Tail(xs[j].ToSpan(), ns[j])) {
      StaysUnknown(t, known, tail, xs[i], Tail(xs[j].ToSpan(), ns[j]));
    }
  }

  /** Receives blocks for a sequence, in any order in which they can be delivered. */
  method ReceiveAll(t: Transaction, xs: seq<Item>, ns: seq<nat>, ghost b: Branch, ghost w: set<Op>,
      ghost ops: seq<Op>, ghost more: seq<seq<Op>>, ghost aim: Aim)
    requires ShowsAfter(t, b, ops, aim) && b.Counted(t.kind) && Open(b)
    requires World(w) && From(w, ops + Flat(more)) && Deliverable(ops + Flat(more))
    requires |xs| == |ns| == |more| && forall i :: 0 <= i < |xs| ==> Comes(t, b, xs[i], ns[i], more[i], aim)
    requires forall i :: 0 <= i < |xs| ==> Known(ops + Flat(more[..i]), xs[i].ToSpan(), ns[i])
    requires forall i, j :: 0 <= i < j < |xs| ==> xs[i] != xs[j]
    modifies t`deleteSet, t`insertSet, t.blocks, xs`id, xs`left, xs`right, xs`origin, xs`len, xs`content
    modifies xs`deleted, xs`parent, xs`parentSub
    modifies b.items`len, b.items`content, b.items`left, b.items`right, b.items`deleted
    modifies b`start, b`entries, b`chains, b`items, b`lost, b`blockLen, b`contentLen
    ensures ShowsAfter(t, b, ops + Flat(more), aim) && b.Counted(t.kind) && Open(b) && b.lost == old(b.lost)
  {
    hide ShowsAfter, Branch.Counted, World, From, Deliverable, Known, Flat, Rest, Tail, Transaction.Unknown;
    hide Item.HasLength, AsAimed, Open;
    NothingYet(ops, more);
    for i := 0 to |xs|
      invariant ShowsAfter(t, b, ops + Flat(more[..i]), aim) && b.Counted(t.kind) && Open(b) && b.lost == old(b.lost)
      invariant forall o :: o in b.items && !fresh(o) ==> o in old(b.items) || o in xs[..i]
      invariant forall j :: i <= j < |xs| ==> Comes(t, b, xs[j], ns[j], more[j], aim)
      invariant forall j :: i <= j < |xs| ==> xs[j].ToSpan() == old(xs[j].ToSpan())
    {
      ReceiveNext(t, xs, ns, i, b, w, ops, more, aim);
    }
    assert more[..|xs|] == more;
  }
}
