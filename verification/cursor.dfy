/** A cursor over the visible elements of a branch, whose blocks may be deleted or not countable. */
module Cursor {
  import opened Ids
  import opened Seqs
  import opened Text
  import opened Spans
  import opened BlockIntegration
  import opened Block
  import opened Squash
  import opened Integration

  // ----- what is visible

  /** What a block shows. */
  function Slot(it: Item): seq<Element>
    reads it`deleted, it`countable, it`content
  {
    if it.Counts() then Elements(it.content) else []
  }

  ghost function Slots(ch: seq<Item>): (ss: seq<seq<Element>>)
    reads ch`deleted, ch`countable, ch`content
    ensures |ss| == |ch| && forall i :: 0 <= i < |ch| ==> ss[i] == Slot(ch[i])
  {
    if ch == [] then [] else [Slot(ch[0])] + Slots(ch[1..])
  }

  lemma SlotsAre(ch: seq<Item>, ss: seq<seq<Element>>)
    requires |ss| == |ch| && forall i :: 0 <= i < |ch| ==> ss[i] == Slot(ch[i])
    ensures Slots(ch) == ss
  {
  }

  /** The elements before block `p`. */
  ghost function Front(ch: seq<Item>, p: nat): seq<Element>
    requires p <= |ch|
    reads ch`deleted, ch`countable, ch`content
  {
    Flat(Slots(ch)[..p])
  }

  ghost function Visible(ch: seq<Item>): seq<Element>
    reads ch`deleted, ch`countable, ch`content
  {
    Flat(Slots(ch))
  }

  /** Every element is one unit of this kind, as it always is but for text that is measured in bytes. */
  ghost predicate AllMeasured(ch: seq<Item>, kind: OffsetKind)
    reads ch`content, ch`len, ch`countable
  {
    forall it :: it in ch ==>
      Measured(it.content, kind) && it.HasLength() && it.countable == it.content.IsCountable()
  }

  /** Every character is one unit, so that what is read of a text is what is visible of it. */
  ghost predicate AllPlain(ch: seq<Item>)
    reads ch`content
  {
    forall it :: it in ch ==> Plain(it.content)
  }

  /** A cut before element `i` is not inside a surrogate pair. */
  ghost predicate Seam(es: seq<Element>, i: nat) {
    i < |es| ==> !IsLow(es[i])
  }

  lemma NotEmpty(ch: seq<Item>, kind: OffsetKind, it: Item)
    requires AllMeasured(ch, kind) && it in ch
    ensures it.len > 0
  {
  }

  // ----- the ids of what is visible

  function Named(id: ID, n: nat): (ids: seq<ID>)
    ensures |ids| == n
  {
    seq(n, i requires 0 <= i => IdAfter(id, i))
  }

  ghost function NameSlot(it: Item): seq<ID>
    reads it`deleted, it`countable, it`id, it`len
  {
    if it.Counts() then Named(it.id, it.len) else []
  }

  ghost function NameSlots(ch: seq<Item>): (ns: seq<seq<ID>>)
    reads ch`deleted, ch`countable, ch`id, ch`len
    ensures |ns| == |ch| && forall i :: 0 <= i < |ch| ==> ns[i] == NameSlot(ch[i])
  {
    if ch == [] then [] else [NameSlot(ch[0])] + NameSlots(ch[1..])
  }

  lemma NameSlotsAre(ch: seq<Item>, ns: seq<seq<ID>>)
    requires |ns| == |ch| && forall i :: 0 <= i < |ch| ==> ns[i] == NameSlot(ch[i])
    ensures NameSlots(ch) == ns
  {
  }

  /** All units, the ids of the visible ones, of all that are deleted, and of those that were recorded as deleted. */
  datatype Trace = Trace(units: seq<Unit>, names: seq<ID>, dead: iset<ID>, noted: set<ID>)

  ghost function TraceOf(ch: seq<Item>, noted: set<ID>): Trace
    reads ch`deleted, ch`countable, ch`id, ch`len, ch`origin, ch`rightOrigin
  {
    Trace(Expand(ToSpans(ch)), Flat(NameSlots(ch)), DeadIds(ch), noted)
  }

  /** Exactly the `n` elements from `i` on are no longer visible; they are deleted and recorded, and nothing else is. */
  ghost predicate Erased(was: Trace, i: nat, n: nat, now: Trace) {
    && was.units == now.units && IsRemoved(was.names, i, n, now.names)
    && (forall id :: id in now.dead <==> id in was.dead || id in was.names[i..i + n])
    && (forall id :: id in now.noted <==> id in was.noted || id in was.names[i..i + n])
  }

  lemma ErasedNone(was: Trace, i: nat)
    requires i <= |was.names|
    ensures Erased(was, i, 0, was)
  {
  }

  lemma ErasedMore(was: Trace, i: nat, m: nat, mid: Trace, n: nat, now: Trace)
    requires Erased(was, i, m, mid) && Erased(mid, i, n, now)
    ensures Erased(was, i, m + n, now)
  {
    RemoveMore(was.names, i, m, mid.names, n, now.names);
    assert mid.names[i..i + n] == was.names[i + m..i + m + n];
    SliceJoin(was.names, i, i + m, i + m + n);
  }

  /** There are as many ids as elements. */
  lemma AsManyNames(ch: seq<Item>, kind: OffsetKind, p: nat)
    requires AllMeasured(ch, kind) && p <= |ch|
    ensures |Flat(NameSlots(ch)[..p])| == |Front(ch, p)| && |Flat(NameSlots(ch))| == |Visible(ch)|
  {
    hide Measured;
    var ws := Weights(ch, Utf16);
    forall i | 0 <= i < |ch| ensures |Slots(ch)[i]| == |NameSlots(ch)[i]| == ws[i] { assert ch[i] in ch; }
    FlatLength(Slots(ch), ws);
    FlatLength(NameSlots(ch), ws);
    FlatLength(Slots(ch)[..p], ws[..p]);
    FlatLength(NameSlots(ch)[..p], ws[..p]);
  }

  /** The units of a block were put in one place, and the block names the units on both sides of it. */
  ghost predicate Typed(s: seq<Unit>, x: Span, r: seq<Unit>) {
    exists u :: TypedAt(s, u, x, r)
  }

  predicate TypedAt(s: seq<Unit>, u: nat, x: Span, r: seq<Unit>) {
    && u <= |s| && IsInserted(s, u, Units(x), r)
    && x.origin == (if u == 0 then None else Some(s[u - 1].id))
    && x.rightOrigin == (if u == |s| then None else Some(s[u].id))
  }

  /** A block was put between two others, which it names. */
  lemma PutTyped(bs: seq<Span>, p: nat, x: Span)
    requires NonEmpty(bs) && p <= |bs|
    requires x.origin == if p == 0 then None else Some(bs[p - 1].LastId())
    requires x.rightOrigin == if p == |bs| then None else Some(bs[p].id)
    ensures Typed(Expand(bs), x, Expand(PutAfter(bs, p - 1, x)))
  {
    hide Expand, Units;
    var s, u := Expand(bs), |Expand(bs[..p])|;
    ExpandPrefix(bs, p);
    ExpandConcat(bs[..p] + [x], bs[p..]);
    ExpandConcat(bs[..p], [x]);
    ExpandOne(x);
    OffEnd(bs);
    if p > 0 { ExpandAt(bs, p - 1, bs[p - 1].len - 1); }
    if p < |bs| { ExpandAt(bs, p, 0); }
    assert s[..u] == Expand(bs[..p]) && s[u..] == Expand(bs[p..]);
    if p < |bs| { assert u < |s|; } else { ExpandNone(); }
    assert TypedAt(s, u, x, Expand(PutAfter(bs, p - 1, x)));
  }

  // ----- positions, in units of the kind

  /** How much is visible before block `p`. */
  ghost function Offset(ch: seq<Item>, p: nat, kind: OffsetKind): nat
    requires p <= |ch|
    reads ch`deleted, ch`countable, ch`len, ch`content
  {
    Sum(Weights(ch, kind)[..p])
  }

  ghost function Total(ch: seq<Item>, kind: OffsetKind): nat
    reads ch`deleted, ch`countable, ch`len, ch`content
  {
    Sum(Weights(ch, kind))
  }

  lemma AtEnd(ch: seq<Item>, kind: OffsetKind)
    ensures Offset(ch, |ch|, kind) == Total(ch, kind)
  {
    assert Weights(ch, kind)[..|ch|] == Weights(ch, kind);
  }

  lemma OffsetNext(ch: seq<Item>, p: nat, kind: OffsetKind)
    requires p < |ch|
    ensures Offset(ch, p + 1, kind) == Offset(ch, p, kind) + ch[p].Weight(kind) <= Total(ch, kind)
    ensures p + 1 == |ch| ==> Offset(ch, p + 1, kind) == Total(ch, kind)
  {
    hide Item.Weight;
    SumAt(Weights(ch, kind), p);
  }

  lemma NoOffset(ch: seq<Item>, kind: OffsetKind)
    ensures Offset(ch, 0, kind) == 0 && (ch == [] ==> Total(ch, kind) == 0)
  {
  }

  /** Where every element is one unit, positions count elements. */
  lemma Measures(ch: seq<Item>, p: nat, kind: OffsetKind)
    requires AllMeasured(ch, kind) && p <= |ch|
    ensures Offset(ch, p, kind) == |Front(ch, p)| && Total(ch, kind) == |Visible(ch)|
    ensures p < |ch| ==> ch[p].Weight(kind) == |Slot(ch[p])| == if ch[p].Counts() then ch[p].len else 0
  {
    hide Sum, Flat, Weights, Slots, Measured;
    forall i | 0 <= i < |ch| ensures |Slots(ch)[i]| == Weights(ch, kind)[i] {
      assert ch[i] in ch;
      MeasuredLength(ch[i].content, kind);
    }
    FlatLength(Slots(ch), Weights(ch, kind));
    FlatLength(Slots(ch)[..p], Weights(ch, kind)[..p]);
  }

  /** The length that a branch keeps, with what is lost, is that of what is visible. */
  lemma VisibleLength(b: Branch, kind: OffsetKind)
    requires b.Totals(b.Chain(None), kind) && AllMeasured(b.Chain(None), kind)
    ensures b.contentLen + b.lost == Total(b.Chain(None), kind) == |Visible(b.Chain(None))|
  {
    hide Sum, Weights, Visible, AllMeasured;
    Measures(b.Chain(None), 0, kind);
  }

  /** The cursor stands at position `pos`: `rel` units into `item`, or at the end. */
  ghost predicate StandsAt(ch: seq<Item>, item: Item?, rel: nat, end: bool, pos: nat, kind: OffsetKind)
    reads ch`deleted, ch`countable, ch`len, ch`content
  {
    if ch == [] then item == null && end && rel == 0 && pos == 0
    else if end then item == ch[|ch| - 1] && rel == 0 && pos == Total(ch, kind)
    else item != null && item in ch && InBlock(ch, Pos(ch, item), rel, pos, kind)
  }

  ghost predicate InBlock(ch: seq<Item>, p: nat, rel: nat, pos: nat, kind: OffsetKind)
    requires p < |ch|
    reads ch`deleted, ch`countable, ch`len, ch`content
  {
    pos == Offset(ch, p, kind) + rel && (rel > 0 ==> rel < ch[p].Weight(kind))
  }

  lemma StandsIn(ch: seq<Item>, p: nat, rel: nat, pos: nat, kind: OffsetKind)
    requires Linked(ch) && p < |ch| && InBlock(ch, p, rel, pos, kind)
    ensures StandsAt(ch, ch[p], rel, false, pos, kind)
  {
    Unique(ch, p);
  }

  lemma NotAtEnd(ch: seq<Item>, item: Item?, rel: nat, end: bool, pos: nat, kind: OffsetKind)
    requires StandsAt(ch, item, rel, end, pos, kind) && pos < Total(ch, kind)
    ensures !end && item != null && item in ch
  {
    NoOffset(ch, kind);
  }

  /** What is visible from a place inside of block `p` on. */
  lemma ReadAt(ch: seq<Item>, p: nat, rel: nat, pos: nat, r: nat)
    requires p < |ch| && pos == |Front(ch, p)| + rel && rel + r <= |Slot(ch[p])|
    ensures pos + r <= |Visible(ch)| && Visible(ch)[pos..pos + r] == Slot(ch[p])[rel..rel + r]
  {
    hide Slots, Slot;
    FlatAt(Slots(ch), p);
    Middle(Front(ch, p), Slots(ch)[p], Flat(Slots(ch)[p + 1..]), rel, r);
  }

  lemma PositionInside(ch: seq<Item>, p: nat, rel: nat, pos: nat, kind: OffsetKind)
    requires p < |ch| && InBlock(ch, p, rel, pos, kind)
    ensures pos <= Total(ch, kind)
  {
    hide Weights, Item.Weight;
    OffsetNext(ch, p, kind);
  }

  /** Where a cursor is that goes past a new block and the one after it. */
  lemma PastTwo(ch: seq<Item>, p: nat, pos: nat, kind: OffsetKind)
    requires Linked(ch) && AllMeasured(ch, kind) && p + 1 < |ch| && pos == Offset(ch, p, kind)
    ensures StandsAt(ch, At(ch, p + 2), 0, false, pos, kind)
        <==> p + 2 < |ch| && !ch[p].Counts() && !ch[p + 1].Counts()
  {
    hide Offset, Total, Front, Visible, Slot, Measured, Item.HasLength;
    Measures(ch, p, kind);
    Measures(ch, p + 1, kind);
    OffsetNext(ch, p, kind);
    OffsetNext(ch, p + 1, kind);
    NotEmpty(ch, kind, ch[p]);
    NotEmpty(ch, kind, ch[p + 1]);
    if p + 2 < |ch| { Unique(ch, p + 2); }
  }

  class BlockIter {
    const branch: Branch
    var index: nat
    var rel: nat
    var nextItem: Item?
    var reachedEnd: bool

    constructor (branch: Branch)
      requires branch.Valid()
      ensures this.branch == branch && index == rel == 0 && forall kind :: Well(kind)
    {
      this.branch, index, rel := branch, 0, 0;
      nextItem, reachedEnd := branch.start, branch.start == null;
      new;
      branch.LinkedChain(None);
      forall kind ensures Well(kind) {
        NoOffset(branch.Chain(None), kind);
        if branch.Chain(None) != [] { StandsIn(branch.Chain(None), 0, 0, 0, kind); }
      }
    }

    /** The cursor stands at `index`. */
    ghost predicate Well(kind: OffsetKind)
      reads this, branch`chains, branch.Chain(None)`deleted, branch.Chain(None)`countable
      reads branch.Chain(None)`len, branch.Chain(None)`content
    {
      StandsAt(branch.Chain(None), nextItem, rel, reachedEnd, index, kind)
    }

    predicate CanForward(ptr: Item?, len: nat)
      reads this`reachedEnd, (if ptr == null then {} else {ptr})`countable
      reads (if ptr == null then {} else {ptr})`deleted
    {
      !reachedEnd && (len > 0 || (ptr != null && (!ptr.countable || ptr.deleted)))
    }

    /** Moves by `n` units, and then past everything that is not visible, whatever the blocks hold. */
    method TryForward(n: nat, kind: OffsetKind, ghost pos: nat) returns (ok: bool)
      requires branch.Valid() && branch.Counted(kind)
      requires StandsAt(branch.Chain(None), nextItem, rel, reachedEnd, pos, kind) && pos <= index
      modifies this`index, this`rel, this`nextItem, this`reachedEnd
      ensures ok <==> if old(nextItem) == null then n == 0 else old(index) + n <= branch.contentLen
      ensures !ok ==> unchanged(this)
      ensures ok ==> index == old(index) + n
      ensures ok ==> StandsAt(branch.Chain(None), nextItem, rel, reachedEnd, pos + n, kind)
      ensures ok && !reachedEnd ==> nextItem != null && nextItem.Counts()
      ensures n == 0 && old(rel) == 0 ==> rel == 0
    {
      hide Branch.Valid, Linked, Sum, Weights, Offset, Content.Length8, Item.Weight;
      if n == 0 && nextItem == null { return true; }
      if index + n > branch.contentLen || nextItem == null { return false; }
      ghost var ch := branch.Chain(None);
      branch.LinkedChain(None);
      var len := n + rel;
      index, rel := index + n, 0;
      var item, left := Walk(nextItem, len, kind, Pos(ch, nextItem), pos + n);
      index, nextItem := index - left, item;
      return true;
    }

    /** The loop of `TryForward`. */
    method Walk(first: Item, n: nat, kind: OffsetKind, ghost q: nat, ghost target: nat)
      returns (item: Item, len: nat)
      requires branch.Valid()
      requires q < |branch.Chain(None)| && first == branch.Chain(None)[q] && rel == 0
      requires target <= Total(branch.Chain(None), kind)
      requires Remains(branch.Chain(None), q, n, reachedEnd, target, kind)
      modifies this`rel, this`reachedEnd
      ensures len == 0 && StandsAt(branch.Chain(None), item, rel, reachedEnd, target, kind)
      ensures (!reachedEnd ==> item.Counts()) && (n == 0 ==> rel == 0)
    {
      hide Branch.Valid, Linked, Total, Offset, Content.Length8;
      item, len := first, n;
      ghost var ch, p := branch.Chain(None), q;
      branch.LinkedChain(None);
      while CanForward(item, len)
        invariant p < |ch| && item == ch[p] && rel == 0 && Remains(ch, p, len, reachedEnd, target, kind)
        invariant n == 0 ==> len == 0
        decreases |ch| - p, if reachedEnd then 0 else 1
      {
        branch.Neighbours(None, p);
        OffsetNext(ch, p, kind);
        if item.countable && !item.deleted && len > 0 {
          var itemLen := item.ContentLen(kind);
          if itemLen > len {
            rel, len := len, 0;
            break;
          }
          len := len - itemLen;
        }
        if item.right != null {
          item, p := item.right, p + 1;
        } else {
          reachedEnd := true;
        }
      }
      if !reachedEnd { StandsIn(ch, p, rel, target, kind); }
    }

    /** Moves to the next block, or to the end. */
    method Advance(i: Item, kind: OffsetKind, ghost q: nat, ghost pos: nat) returns (next: Item)
      requires branch.Valid() && q < |branch.Chain(None)| && branch.Chain(None)[q] == i && rel == 0 && !reachedEnd
      requires pos == Offset(branch.Chain(None), q + 1, kind)
      modifies this`reachedEnd
      ensures StandsAt(branch.Chain(None), next, rel, reachedEnd, pos, kind)
      ensures reachedEnd ==> q + 1 == |branch.Chain(None)|
      ensures !reachedEnd ==> q + 1 < |branch.Chain(None)| && next == branch.Chain(None)[q + 1]
    {
      hide Branch.Valid, Linked, Offset, Total, Item.Weight;
      ghost var ch := branch.Chain(None);
      branch.Neighbours(None, q);
      branch.LinkedChain(None);
      OffsetNext(ch, q, kind);
      next := i;
      if i.right != null {
        next := i.right;
        StandsIn(ch, q + 1, 0, pos, kind);
      } else {
        reachedEnd := true;
      }
    }

    /** Reads what it can of a visible block, from the cursor on. */
    method ReadHere(item: Item, buf: array<Element>, read: nat, kind: OffsetKind, ghost p: nat, ghost pos: nat)
      returns (r: nat)
      requires branch.Valid() && AllMeasured(branch.Chain(None), kind)
      requires AllPlain(branch.Chain(None)) && read < buf.Length
      requires p < |branch.Chain(None)| && item == branch.Chain(None)[p] && item.Counts()
      requires InBlock(branch.Chain(None), p, rel, pos, kind)
      modifies buf
      ensures 0 < r && read + r <= buf.Length && pos + r <= |Visible(branch.Chain(None))|
      ensures buf[..read + r] == old(buf[..read]) + Visible(branch.Chain(None))[pos..pos + r]
      ensures rel + r <= item.ContentLen(kind)
      ensures rel + r < item.ContentLen(kind) ==> read + r == buf.Length
    {
      hide Branch.Valid, Front, Slots, Visible, Elements, Content.Length16, Content.Length8, Offset, Total;
      ghost var ch := branch.Chain(None);
      assert item in ch;
      Measures(ch, p, kind);
      SpelledIs(item.content, rel);
      r := Read(item.content, rel, buf, read);
      ReadAt(ch, p, rel, pos, r);
    }

    /** Reads what it can of a block that counts, and passes the block once all of it is read. */
    method ReadBlock(item: Item, buf: array<Element>, read: nat, kind: OffsetKind, ghost p: nat, ghost pos: nat)
      returns (next: Item, r: nat)
      requires branch.Valid() && AllMeasured(branch.Chain(None), kind)
      requires AllPlain(branch.Chain(None)) && !reachedEnd && read < buf.Length
      requires p < |branch.Chain(None)| && item == branch.Chain(None)[p] && item.countable
      requires InBlock(branch.Chain(None), p, rel, pos, kind)
      modifies this`rel, this`reachedEnd, buf
      ensures read + r <= buf.Length && pos + r <= |Visible(branch.Chain(None))|
      ensures buf[..read + r] == old(buf[..read]) + Visible(branch.Chain(None))[pos..pos + r]
      ensures StandsAt(branch.Chain(None), next, rel, reachedEnd, pos + r, kind)
      ensures if item.deleted then r == 0 else r > 0
      ensures rel > 0 ==> read + r == buf.Length && next == item
      ensures reachedEnd ==> p + 1 == |branch.Chain(None)|
      ensures !reachedEnd && rel == 0 ==> p + 1 < |branch.Chain(None)| && next == branch.Chain(None)[p + 1]
    {
      hide Pos, StandsAt;
      hide AllPlain, Branch.Valid, Linked, Front, Slots, Visible, Elements, Content.Length16, Content.Length8;
      hide Offset, Total, AllMeasured;
      ghost var ch := branch.Chain(None);
      branch.LinkedChain(None);
      Measures(ch, p, kind);
      OffsetNext(ch, p, kind);
      next, r := item, 0;
      if item.deleted {
        ReadAt(ch, p, rel, pos, 0);
      } else {
        r := ReadHere(item, buf, read, kind, p, pos);
        if rel + r == item.ContentLen(kind) {
          rel := 0;
        } else {
          rel := rel + r;
          StandsIn(ch, p, rel, pos + r, kind);
          return;
        }
      }
      next := Advance(item, kind, p, pos + r);
    }

    /** Reads the next elements into `buf`, if there are as many. */
    method Slice(buf: array<Element>, kind: OffsetKind) returns (read: nat)
      requires branch.Valid() && branch.Counted(kind) && AllMeasured(branch.Chain(None), kind)
      requires AllPlain(branch.Chain(None)) && Well(kind)
      modifies this`index, this`rel, this`nextItem, this`reachedEnd, buf
      ensures var all := Visible(branch.Chain(None));
        if old(index) + buf.Length > branch.contentLen then read == 0 && buf[..] == old(buf[..]) && unchanged(this)
        else read == buf.Length && index == old(index) + read && IsSlice(all, old(index), read, buf[..]) && Well(kind)
      ensures old(index) + buf.Length <= branch.contentLen ==>
        ReadsParts(branch.Chain(None), kind, old(index), buf[..])
    {
      hide ReadsParts;
      hide AllPlain, Branch.Valid, Linked, Front, Slots, Visible, Elements, Branch.Totals, InBlock, AllMeasured, Total;
      VisibleLength(branch, kind);
      read := 0;
      if index + buf.Length > branch.contentLen { return; }
      ghost var ch, from := branch.Chain(None), index;
      index := index + buf.Length;
      var next := nextItem;
      while read < buf.Length
        invariant read <= buf.Length && index == from + buf.Length
        invariant StandsAt(ch, next, rel, reachedEnd, from + read, kind)
        invariant IsSlice(Visible(ch), from, read, buf[..read])
        decreases buf.Length - read, if next != null && next.Counts() then 0 else 1
      {
        next, read := SliceStep(next, buf, read, kind, from);
      }
      nextItem := next;
      SliceParts(ch, kind, from, buf[..]);
    }

    /** One round of `Slice`: elements are read, or the cursor moves to a block that can be. */
    method SliceStep(first: Item?, buf: array<Element>, start: nat, kind: OffsetKind, ghost from: nat)
      returns (next: Item?, read: nat)
      requires branch.Valid() && branch.Counted(kind) && AllMeasured(branch.Chain(None), kind)
      requires AllPlain(branch.Chain(None))
      requires start < buf.Length && index == from + buf.Length <= branch.contentLen
      requires StandsAt(branch.Chain(None), first, rel, reachedEnd, from + start, kind)
      requires IsSlice(Visible(branch.Chain(None)), from, start, buf[..start])
      modifies this`index, this`rel, this`nextItem, this`reachedEnd, buf
      ensures start <= read <= buf.Length && index == old(index)
      ensures StandsAt(branch.Chain(None), next, rel, reachedEnd, from + read, kind)
      ensures IsSlice(Visible(branch.Chain(None)), from, read, buf[..read])
      ensures start < read || (next != null && next.Counts() && !old(first != null && first.Counts()))
    {
      hide AllPlain, Branch.Valid, Linked, Front, Slots, Visible, Elements, Branch.Totals, InBlock, AllMeasured;
      hide IsSlice, Total;
      hide StandsAt;
      VisibleLength(branch, kind);
      next, read := ReadRun(first, buf, start, kind, from);
      if read < buf.Length { NotAtEnd(branch.Chain(None), next, rel, reachedEnd, from + read, kind); }
      if !reachedEnd && read < buf.Length {
        nextItem := next;
        var ok := TryForward(0, kind, from + read);
        next := nextItem;
        NotAtEnd(branch.Chain(None), next, rel, reachedEnd, from + read, kind);
      }
    }

    /** The inner loop of `Slice`: reads blocks up to one that does not count. */
    method ReadRun(first: Item?, buf: array<Element>, start: nat, kind: OffsetKind, ghost from: nat)
      returns (next: Item?, read: nat)
      requires branch.Valid() && AllMeasured(branch.Chain(None), kind)
      requires AllPlain(branch.Chain(None)) && start < buf.Length
      requires StandsAt(branch.Chain(None), first, rel, reachedEnd, from + start, kind)
      requires from + buf.Length <= |Visible(branch.Chain(None))|
      requires IsSlice(Visible(branch.Chain(None)), from, start, buf[..start])
      modifies this`rel, this`reachedEnd, buf
      ensures start <= read <= buf.Length && (first != null && first.Counts() ==> start < read)
      ensures StandsAt(branch.Chain(None), next, rel, reachedEnd, from + read, kind)
      ensures IsSlice(Visible(branch.Chain(None)), from, read, buf[..read])
    {
      hide AllPlain, Branch.Valid, Linked, Front, Slots, Visible, Elements, InBlock, AllMeasured, Total, Offset;
      hide IsSlice;
      ghost var ch := branch.Chain(None);
      branch.LinkedChain(None);
      Measures(ch, 0, kind);
      next, read := first, start;
      ghost var p: nat := if next == null then 0 else Pos(ch, next);
      while next != null && next.countable && !reachedEnd && read < buf.Length
        invariant start <= read <= buf.Length && StandsAt(ch, next, rel, reachedEnd, from + read, kind)
        invariant next != null ==> p < |ch| && ch[p] == next
        invariant IsSlice(Visible(ch), from, read, buf[..read])
        invariant first != null && first.Counts() ==> start < read || (next == first && !reachedEnd)
        decreases buf.Length - read, |ch| - p, if reachedEnd then 0 else 1
      {
        var r;
        ghost var had := buf[..read];
        Unique(ch, p);
        next, r := ReadBlock(next, buf, read, kind, p, from + read);
        SliceMore(Visible(ch), from, read, r, had, buf[..read + r]);
        read := read + r;
        if !reachedEnd && rel == 0 { p := p + 1; }
      }
    }

    // ----- deletion

    /** Cuts the block that the cursor is inside of, so that the cursor is before a block. */
    method CutAtRel(t: Transaction, item: Item, ghost p: nat) returns (i: Item, ghost q: nat)
      requires t.Holds(branch) && branch.Counted(t.kind) && AllMeasured(branch.Chain(None), t.kind)
      requires p < |branch.Chain(None)| && branch.Chain(None)[p] == item
      requires InBlock(branch.Chain(None), p, rel, index, t.kind)
      requires rel > 0 ==> Seam(Visible(branch.Chain(None)), index)
      modifies this`rel, t.blocks, branch.items`len, branch.items`content, branch.items`left, branch.items`right
      modifies branch`start, branch`entries, branch`chains, branch`items, branch`lost
      ensures t.Holds(branch) && branch.Counted(t.kind) && AllMeasured(branch.Chain(None), t.kind)
      ensures branch.lost == old(branch.lost)
      ensures fresh(branch.items - old(branch.items)) && fresh(t.blocks.stored - old(t.blocks.stored))
      ensures t.blocks.known == old(t.blocks.known)
      ensures Visible(branch.Chain(None)) == old(Visible(branch.Chain(None)))
      ensures TraceOf(branch.Chain(None), t.deleteSet) == old(TraceOf(branch.Chain(None), t.deleteSet))
      ensures q < |branch.Chain(None)| && branch.Chain(None)[q] == i && i.Counts() == old(item.Counts())
      ensures rel == 0 && index == |Front(branch.Chain(None), q)|
    {
      hide TraceOf;
      hide Transaction.Holds, Branch.Counted, Front, Visible, Linked, Elements, Put, Content.Length16;
      i, q := item, p;
      Measures(branch.Chain(None), p, t.kind);
      if rel > 0 {
        SeamIsClean(branch.Chain(None), p, rel);
        i := CutBlock(t, branch, item, rel, p);
        PutGet(old(branch.Chain(None)), p, i, p + 1);
        PutGet(old(branch.Chain(None)), p, i, p);
        rel, q := 0, p + 1;
      }
    }

    /** Cuts a block that has more elements than are to be deleted. */
    method CutAtEnd(t: Transaction, i: Item, len: nat, ghost q: nat)
      requires t.Holds(branch) && branch.Counted(t.kind) && AllMeasured(branch.Chain(None), t.kind)
      requires q < |branch.Chain(None)| && branch.Chain(None)[q] == i && i.Counts() && len > 0
      requires Seam(Visible(branch.Chain(None)), |Front(branch.Chain(None), q)| + len)
      modifies t.blocks, branch.items`len, branch.items`content, branch.items`left, branch.items`right
      modifies branch`start, branch`entries, branch`chains, branch`items, branch`lost
      ensures t.Holds(branch) && branch.Counted(t.kind) && AllMeasured(branch.Chain(None), t.kind)
      ensures branch.lost == old(branch.lost)
      ensures fresh(branch.items - old(branch.items)) && fresh(t.blocks.stored - old(t.blocks.stored))
      ensures Visible(branch.Chain(None)) == old(Visible(branch.Chain(None)))
      ensures TraceOf(branch.Chain(None), t.deleteSet) == old(TraceOf(branch.Chain(None), t.deleteSet))
      ensures q < |branch.Chain(None)| && branch.Chain(None)[q] == i && i.Counts() && 0 < i.len <= len
      ensures |Front(branch.Chain(None), q)| == old(|Front(branch.Chain(None), q)|)
    {
      hide TraceOf;
      hide Branch.Valid, BlockStore.Valid, Branch.Sound, Branch.Totals, Slots, Flat, Elements, Put, Content.Length16;
      Measures(branch.Chain(None), q, t.kind);
      if len < i.ContentLen(t.kind) {
        SeamIsClean(branch.Chain(None), q, len);
        var rest := CutBlock(t, branch, i, len, q);
        PutGet(old(branch.Chain(None)), q, rest, q);
      }
    }

    /** Cuts out a block of up to `len` elements that starts at the cursor. */
    method CutOut(t: Transaction, item: Item, len: nat, ghost p: nat) returns (i: Item, ghost q: nat)
      requires t.Holds(branch) && branch.Counted(t.kind) && AllMeasured(branch.Chain(None), t.kind)
      requires p < |branch.Chain(None)| && branch.Chain(None)[p] == item && item.Counts() && len > 0
      requires InBlock(branch.Chain(None), p, rel, index, t.kind)
      requires rel > 0 ==> Seam(Visible(branch.Chain(None)), index)
      requires Seam(Visible(branch.Chain(None)), index + len)
      modifies this`rel, t.blocks, branch.items`len, branch.items`content, branch.items`left, branch.items`right
      modifies branch`start, branch`entries, branch`chains, branch`items, branch`lost
      ensures t.Holds(branch) && branch.Counted(t.kind) && AllMeasured(branch.Chain(None), t.kind)
      ensures branch.lost == old(branch.lost)
      ensures fresh(branch.items - old(branch.items)) && fresh(t.blocks.stored - old(t.blocks.stored))
      ensures Visible(branch.Chain(None)) == old(Visible(branch.Chain(None)))
      ensures TraceOf(branch.Chain(None), t.deleteSet) == old(TraceOf(branch.Chain(None), t.deleteSet))
      ensures q < |branch.Chain(None)| && branch.Chain(None)[q] == i && i.Counts() && 0 < i.len <= len
      ensures rel == 0 && index == |Front(branch.Chain(None), q)|
    {
      hide TraceOf;
      hide Transaction.Holds, Branch.Valid, Branch.Counted, Front, Visible, Elements, InBlock, AllMeasured, Seam;
      i, q := CutAtRel(t, item, p);
      CutAtEnd(t, i, len, q);
    }

    /** Deletes up to `len` elements that are in one block. */
    method DeleteHere(t: Transaction, item: Item, len: nat, ghost p: nat) returns (next: Item, n: nat)
      requires t.Holds(branch) && branch.Counted(t.kind) && AllMeasured(branch.Chain(None), t.kind)
      requires p < |branch.Chain(None)| && branch.Chain(None)[p] == item && item.Counts() && len > 0
      requires InBlock(branch.Chain(None), p, rel, index, t.kind) && !reachedEnd
      requires rel > 0 ==> Seam(Visible(branch.Chain(None)), index)
      requires Seam(Visible(branch.Chain(None)), index + len)
      modifies this`rel, this`reachedEnd, t`deleteSet, t.blocks
      modifies branch.items`len, branch.items`content, branch.items`left, branch.items`right, branch.items`deleted
      modifies branch`start, branch`entries, branch`chains, branch`items
      modifies branch`lost, branch`blockLen, branch`contentLen
      ensures t.Holds(branch) && branch.Counted(t.kind) && AllMeasured(branch.Chain(None), t.kind)
      ensures branch.lost == old(branch.lost)
      ensures fresh(branch.items - old(branch.items)) && fresh(t.blocks.stored - old(t.blocks.stored))
      ensures 0 < n <= len && index + n <= old(|Visible(branch.Chain(None))|)
      ensures IsRemoved(old(Visible(branch.Chain(None))), index, n, Visible(branch.Chain(None)))
      ensures StandsAt(branch.Chain(None), next, rel, reachedEnd, index, t.kind) && rel == 0
      ensures Erased(old(TraceOf(branch.Chain(None), t.deleteSet)), index, n, TraceOf(branch.Chain(None), t.deleteSet))
    {
      hide Erased, TraceOf;
      hide Transaction.Holds, Branch.Valid, Branch.Counted, Front, Visible, Elements, InBlock, StandsAt, AllMeasured;
      hide Offset, Total, Seam, IsRemoved;
      var i;
      ghost var q;
      i, q := CutOut(t, item, len, p);
      Measures(branch.Chain(None), q, t.kind);
      n := i.ContentLen(t.kind);
      DeleteBlock(t, branch, i, q, index);
      Measures(branch.Chain(None), q + 1, t.kind);
      next := Advance(i, t.kind, q, index);
    }

    /** The inner loop of `Delete`: goes on up to a block that is not visible. */
    method DeleteRun(t: Transaction, first: Item?, n: nat, ghost was: seq<Element>, ghost gone: nat, ghost at: Trace)
      returns (item: Item?, len: nat)
      requires t.Holds(branch) && branch.Counted(t.kind) && AllMeasured(branch.Chain(None), t.kind)
      requires StandsAt(branch.Chain(None), first, rel, reachedEnd, index, t.kind) && n > 0
      requires index + gone + n <= |was| && IsRemoved(was, index, gone, Visible(branch.Chain(None)))
      requires Seam(was, index + gone + n) && (rel > 0 ==> Seam(Visible(branch.Chain(None)), index))
      requires Erased(at, index, gone, TraceOf(branch.Chain(None), t.deleteSet))
      modifies this`rel, this`reachedEnd, t`deleteSet, t.blocks
      modifies branch.items`len, branch.items`content, branch.items`left, branch.items`right, branch.items`deleted
      modifies branch`start, branch`entries, branch`chains, branch`items
      modifies branch`lost, branch`blockLen, branch`contentLen
      ensures t.Holds(branch) && branch.Counted(t.kind) && AllMeasured(branch.Chain(None), t.kind)
      ensures branch.lost == old(branch.lost)
      ensures fresh(branch.items - old(branch.items))
      ensures StandsAt(branch.Chain(None), item, rel, reachedEnd, index, t.kind)
      ensures rel > 0 ==> Seam(Visible(branch.Chain(None)), index)
      ensures len <= n && IsRemoved(was, index, gone + (n - len), Visible(branch.Chain(None)))
      ensures first != null && old(first.Counts()) ==> len < n
      ensures Erased(at, index, gone + (n - len), TraceOf(branch.Chain(None), t.deleteSet))
    {
      hide Erased, TraceOf;
      hide Total, Offset;
      hide Transaction.Holds, Branch.Valid, Branch.Counted, Front, Visible, Elements, AllMeasured, InBlock, IsRemoved;
      item, len := first, n;
      NothingVisible(branch.Chain(None));
      Measures(branch.Chain(None), 0, t.kind);
      RemoveLength(was, index, gone, Visible(branch.Chain(None)));
      while item != null && item.Counts() && !reachedEnd && len > 0
        invariant t.Holds(branch) && branch.Counted(t.kind) && AllMeasured(branch.Chain(None), t.kind)
        invariant fresh(branch.items - old(branch.items)) && branch.lost == old(branch.lost)
        invariant StandsAt(branch.Chain(None), item, rel, reachedEnd, index, t.kind)
        invariant rel > 0 ==> Seam(Visible(branch.Chain(None)), index)
        invariant len <= n && IsRemoved(was, index, gone + (n - len), Visible(branch.Chain(None)))
        invariant Erased(at, index, gone + (n - len), TraceOf(branch.Chain(None), t.deleteSet))
        invariant len < n || !old(first != null && first.Counts())
          || (item == first && item.Counts() && !reachedEnd)
        decreases len
      {
        var m;
        ghost var sofar, seen := gone + (n - len), Visible(branch.Chain(None));
        ghost var mid := TraceOf(branch.Chain(None), t.deleteSet);
        SeamLater(was, index, sofar, seen, len);
        item, m := DeleteHere(t, item, len, Pos(branch.Chain(None), item));
        RemoveMore(was, index, sofar, seen, m, Visible(branch.Chain(None)));
        ErasedMore(at, index, sofar, mid, m, TraceOf(branch.Chain(None), t.deleteSet));
        len := len - m;
      }
    }

    /** Deletes the next `n` elements, if there are as many. */
    method Delete(t: Transaction, n: nat) returns (ok: bool)
      requires t.Holds(branch) && branch.Counted(t.kind) && AllMeasured(branch.Chain(None), t.kind) && Well(t.kind)
      requires (rel > 0 ==> Seam(Visible(branch.Chain(None)), index)) && Seam(Visible(branch.Chain(None)), index + n)
      modifies this`index, this`rel, this`nextItem, this`reachedEnd, t`deleteSet, t.blocks
      modifies branch.items`len, branch.items`content, branch.items`left, branch.items`right, branch.items`deleted
      modifies branch`start, branch`entries, branch`chains, branch`items
      modifies branch`lost, branch`blockLen, branch`contentLen
      ensures t.Holds(branch) && branch.Counted(t.kind) && AllMeasured(branch.Chain(None), t.kind) && Well(t.kind)
      ensures index == old(index) && (ok <==> index + n <= old(branch.contentLen)) && branch.lost == old(branch.lost)
      ensures ok ==> IsRemoved(old(Visible(branch.Chain(None))), index, n, Visible(branch.Chain(None)))
      ensures !ok ==> unchanged(this) && Visible(branch.Chain(None)) == old(Visible(branch.Chain(None)))
      ensures ok ==>
        Erased(old(TraceOf(branch.Chain(None), t.deleteSet)), index, n, TraceOf(branch.Chain(None), t.deleteSet))
      ensures !ok ==> TraceOf(branch.Chain(None), t.deleteSet) == old(TraceOf(branch.Chain(None), t.deleteSet))
    {
      hide Erased, TraceOf;
      hide Transaction.Holds, Branch.Counted, Front, Visible, Elements, AllMeasured, InBlock, IsRemoved, StandsAt;
      ghost var was, at := Visible(branch.Chain(None)), TraceOf(branch.Chain(None), t.deleteSet);
      LengthKnown(t);
      NoneErased(t);
      RemoveNone(was, index);
      if index + n > branch.contentLen { return false; }
      var item, len: nat := nextItem, n;
      while len > 0
        invariant t.Holds(branch) && branch.Counted(t.kind) && AllMeasured(branch.Chain(None), t.kind)
        invariant fresh(branch.items - old(branch.items)) && index == old(index) && branch.lost == old(branch.lost)
        invariant StandsAt(branch.Chain(None), item, rel, reachedEnd, index, t.kind)
        invariant rel > 0 ==> Seam(Visible(branch.Chain(None)), index)
        invariant len <= n && IsRemoved(was, index, n - len, Visible(branch.Chain(None)))
        invariant Erased(at, index, n - len, TraceOf(branch.Chain(None), t.deleteSet))
        decreases len, if item != null && item.Counts() then 0 else 1
      {
        item, len := DeleteStep(t, item, len, was, n - len, at);
      }
      nextItem := item;
      return true;
    }

    lemma LengthKnown(t: Transaction)
      requires t.Holds(branch) && branch.Counted(t.kind) && AllMeasured(branch.Chain(None), t.kind) && Well(t.kind)
      ensures branch.contentLen + branch.lost == |Visible(branch.Chain(None))| && branch.Valid()
      ensures index <= |Visible(branch.Chain(None))|
    {
      hide Branch.Valid, BlockStore.Valid, Branch.Sound, Front, Slots, Elements, Branch.Totals, Linked, Total;
      VisibleLength(branch, t.kind);
      branch.LinkedChain(None);
      if !reachedEnd {
        PositionInside(branch.Chain(None), Pos(branch.Chain(None), nextItem), rel, index, t.kind);
      }
    }

    lemma NoneErased(t: Transaction)
      requires AllMeasured(branch.Chain(None), t.kind) && index <= |Visible(branch.Chain(None))|
      ensures var at := TraceOf(branch.Chain(None), t.deleteSet); Erased(at, index, 0, at)
    {
      hide Visible, Front, Flat, NameSlots, DeadIds;
      AsManyNames(branch.Chain(None), t.kind, 0);
      ErasedNone(TraceOf(branch.Chain(None), t.deleteSet), index);
    }

    /** One round of `Delete`: blocks are deleted, or the cursor moves to a block that can be. */
    method DeleteStep(t: Transaction, first: Item?, n: nat, ghost was: seq<Element>, ghost gone: nat, ghost at: Trace)
      returns (item: Item?, len: nat)
      requires t.Holds(branch) && branch.Counted(t.kind) && AllMeasured(branch.Chain(None), t.kind)
      requires StandsAt(branch.Chain(None), first, rel, reachedEnd, index, t.kind) && n > 0
      requires index + gone + n + branch.lost <= |was| && IsRemoved(was, index, gone, Visible(branch.Chain(None)))
      requires Seam(was, index + gone + n) && (rel > 0 ==> Seam(Visible(branch.Chain(None)), index))
      requires Erased(at, index, gone, TraceOf(branch.Chain(None), t.deleteSet))
      modifies this`index, this`rel, this`nextItem, this`reachedEnd, t`deleteSet, t.blocks
      modifies branch.items`len, branch.items`content, branch.items`left, branch.items`right, branch.items`deleted
      modifies branch`start, branch`entries, branch`chains, branch`items
      modifies branch`lost, branch`blockLen, branch`contentLen
      ensures t.Holds(branch) && branch.Counted(t.kind) && AllMeasured(branch.Chain(None), t.kind)
      ensures branch.lost == old(branch.lost)
      ensures fresh(branch.items - old(branch.items)) && index == old(index)
      ensures StandsAt(branch.Chain(None), item, rel, reachedEnd, index, t.kind)
      ensures rel > 0 ==> Seam(Visible(branch.Chain(None)), index)
      ensures len <= n && IsRemoved(was, index, gone + (n - len), Visible(branch.Chain(None)))
      ensures 0 < len == n ==> item != null && item.Counts() && !old(first != null && first.Counts())
      ensures Erased(at, index, gone + (n - len), TraceOf(branch.Chain(None), t.deleteSet))
    {
      hide Erased, TraceOf;
      hide AllMeasured, Branch.Valid, BlockStore.Valid, Branch.Sound, Front, Visible, Elements, Branch.Totals, InBlock;
      hide IsRemoved, StandsAt, Total;
      item, len := DeleteRun(t, first, n, was, gone, at);
      if len > 0 {
        RemoveLength(was, index, gone + (n - len), Visible(branch.Chain(None)));
        VisibleLength(branch, t.kind);
        nextItem := item;
        NotAtEnd(branch.Chain(None), item, rel, reachedEnd, index, t.kind);
        var moved := TryForward(0, t.kind, index);
        NotAtEnd(branch.Chain(None), nextItem, rel, reachedEnd, index, t.kind);
        item := nextItem;
      }
    }

    // ----- insertion

    method SplitRel(t: Transaction)
      requires t.Holds(branch) && branch.Counted(t.kind) && AllMeasured(branch.Chain(None), t.kind) && Well(t.kind)
      requires rel > 0 ==> Seam(Visible(branch.Chain(None)), index)
      modifies this`rel, this`nextItem, t.blocks
      modifies branch.items`len, branch.items`content, branch.items`left, branch.items`right
      modifies branch`start, branch`entries, branch`chains, branch`items, branch`lost
      ensures t.Holds(branch) && branch.Counted(t.kind) && AllMeasured(branch.Chain(None), t.kind)
      ensures Well(t.kind) && rel == 0 && BeforeNothing() == old(BeforeNothing())
      ensures fresh(branch.items - old(branch.items)) && fresh(t.blocks.stored - old(t.blocks.stored))
      ensures t.blocks.known == old(t.blocks.known)
      ensures Visible(branch.Chain(None)) == old(Visible(branch.Chain(None)))
      ensures TraceOf(branch.Chain(None), t.deleteSet) == old(TraceOf(branch.Chain(None), t.deleteSet))
    {
      hide TraceOf;
      hide Offset;
      hide Branch.Valid, BlockStore.Valid, Branch.Sound, Branch.Totals, Linked, Slots, Visible, Front, Elements;
      hide AllMeasured;
      if rel > 0 {
        ghost var q;
        var i;
        i, q := CutAtRel(t, nextItem, Pos(branch.Chain(None), nextItem));
        branch.LinkedChain(None);
        Measures(branch.Chain(None), q, t.kind);
        StandsIn(branch.Chain(None), q, 0, index, t.kind);
        nextItem := i;
      }
    }

    /** Before a block that does not count and is not the last one. */
    predicate BeforeNothing()
      reads this`reachedEnd, this`rel, this`nextItem, (if nextItem == null then {} else {nextItem})`right
      reads (if nextItem == null then {} else {nextItem})`deleted
      reads (if nextItem == null then {} else {nextItem})`countable
    {
      !reachedEnd && rel == 0 && nextItem != null && nextItem.right != null && !nextItem.Counts()
    }

    function Left(): Item?
      reads this`reachedEnd, this`nextItem, (if nextItem == null then {} else {nextItem})`left
    {
      if reachedEnd then nextItem else if nextItem != null then nextItem.left else null
    }

    function Right(): Item?
      reads this`reachedEnd, this`nextItem
    {
      if reachedEnd then null else nextItem
    }

    /** The two blocks next to the cursor are neighbours. */
    lemma Neighbours(kind: OffsetKind) returns (p: nat)
      requires branch.Valid() && AllMeasured(branch.Chain(None), kind) && Well(kind) && rel == 0
      ensures p <= |branch.Chain(None)| && index == |Front(branch.Chain(None), p)|
      ensures Left() == At(branch.Chain(None), p - 1) && Right() == At(branch.Chain(None), p)
      ensures BeforeNothing() <==> p + 1 < |branch.Chain(None)| && !branch.Chain(None)[p].Counts()
    {
      hide Branch.Valid, Front, Visible, Offset, Total;
      var ch := branch.Chain(None);
      if reachedEnd {
        p := |ch|;
        NoOffset(ch, kind);
        AtEnd(ch, kind);
      } else {
        p := Pos(ch, nextItem);
        branch.Neighbours(None, p);
      }
      Measures(ch, p, kind);
    }

    /**
      Inserts a content before the element at `index`.  After that, the cursor does not stand where its index
      says, but where it passed over nothing.
     */
    method InsertContents(t: Transaction, id: ID, content: Content) returns (x: Item?)
      requires t.Holds(branch) && branch.Counted(t.kind) && AllMeasured(branch.Chain(None), t.kind) && Well(t.kind)
      requires rel > 0 ==> Seam(Visible(branch.Chain(None)), index)
      requires Measured(content, t.kind) && (content.Length16() > 1 ==> content.CanBeCut())
      requires t.Unknown(Span(id, content.Length16(), None, None))
      modifies this`rel, this`nextItem, this`reachedEnd, t`deleteSet, t`insertSet, t.blocks
      modifies branch.items`len, branch.items`content, branch.items`left, branch.items`right, branch.items`deleted
      modifies branch`start, branch`entries, branch`chains, branch`items
      modifies branch`lost, branch`blockLen, branch`contentLen
      ensures t.Holds(branch) && branch.Counted(t.kind) && AllMeasured(branch.Chain(None), t.kind)
      ensures x == null <==> content.Length16() == 0
      ensures x != null && x.Counts() ==>
        IsInserted(old(Visible(branch.Chain(None))), index, Elements(content), Visible(branch.Chain(None)))
      ensures x == null || !x.Counts() ==> Visible(branch.Chain(None)) == old(Visible(branch.Chain(None)))
      ensures x != null ==> (x.Counts() <==>
        content.IsCountable() && !(branch.item != null && branch.item.deleted))
      ensures index == old(index) && (Well(t.kind) <==> x == null || (old(BeforeNothing()) && !x.Counts()))
      ensures x != null ==>
        && x.id == id && x.content == content && x.len == content.Length16()
        && t.insertSet == old(t.insertSet) + IdsOf(x.ToSpan())
        && t.deleteSet == old(t.deleteSet) + (if x.deleted then IdsOf(x.ToSpan()) else {})
        && Typed(old(Expand(ToSpans(branch.Chain(None)))), x.ToSpan(), Expand(ToSpans(branch.Chain(None))))
      ensures x == null ==> t.insertSet == old(t.insertSet) && t.deleteSet == old(t.deleteSet)
    {
      hide IdsOf, Typed, Expand, ToSpans, Item.ToSpan;
      hide StandsAt, IsInserted, Branch.Valid, BlockStore.Valid, Branch.Sound, Branch.Totals, Linked, Slots;
      hide Visible, Front, Elements, AllMeasured;
      hide Seam, Measured, BeforeNothing, Transaction.Unknown;
      LengthKnown(t);
      SplitRel(t);
      if content.Length16() == 0 { return null; }
      x := InsertHere(t, id, content);
    }

    /** Inserts a content where the cursor is, which is not inside a block. */
    method InsertHere(t: Transaction, id: ID, content: Content) returns (x: Item)
      requires t.Holds(branch) && branch.Counted(t.kind) && AllMeasured(branch.Chain(None), t.kind) && Well(t.kind)
      requires Measured(content, t.kind) && content.Length16() > 0 && (content.Length16() > 1 ==> content.CanBeCut())
      requires t.Unknown(Span(id, content.Length16(), None, None)) && rel == 0
      modifies this`nextItem, this`reachedEnd, t`deleteSet, t`insertSet, t.blocks
      modifies branch.items`left, branch.items`right, branch.items`deleted
      modifies branch`start, branch`entries, branch`chains, branch`items
      modifies branch`lost, branch`blockLen, branch`contentLen
      ensures t.Holds(branch) && branch.Counted(t.kind) && AllMeasured(branch.Chain(None), t.kind)
      ensures x.Counts() ==>
        IsInserted(old(Visible(branch.Chain(None))), index, Elements(content), Visible(branch.Chain(None)))
      ensures !x.Counts() ==> Visible(branch.Chain(None)) == old(Visible(branch.Chain(None)))
      ensures x.Counts() <==> content.IsCountable() && !(branch.item != null && branch.item.deleted)
      ensures Well(t.kind) <==> old(BeforeNothing()) && !x.Counts()
      ensures x.id == id && x.content == content && x.len == content.Length16()
      ensures t.insertSet == old(t.insertSet) + IdsOf(x.ToSpan())
      ensures t.deleteSet == old(t.deleteSet) + if x.deleted then IdsOf(x.ToSpan()) else {}
      ensures Typed(old(Expand(ToSpans(branch.Chain(None)))), x.ToSpan(), Expand(ToSpans(branch.Chain(None))))
    {
      hide IdsOf, Typed, Expand, Item.ToSpan, ToSpans;
      hide StandsAt, IsInserted, Branch.Valid, BlockStore.Valid, Branch.Sound, Branch.Totals, Linked, Slots;
      hide Visible, Front, Elements, AllMeasured, Measured, Transaction.Unknown, Offset;
      LengthKnown(t);
      var right, left := Right(), Left();
      ghost var was, nothing := branch.Chain(None), BeforeNothing();
      ghost var p := Neighbours(t.kind);
      ItemsOf(t);
      x := Insert(t, id, content, left, right, p);
      GoPast(left, right, was, p, x, t.kind, nothing);
    }

    /** What is done to the cursor after an insertion. */
    method GoPast(left: Item?, right: Item?, ghost was: seq<Item>, ghost p: nat, ghost x: Item, ghost kind: OffsetKind,
        ghost nothing: bool)
      requires branch.Valid() && AllMeasured(branch.Chain(None), kind) && p <= |was|
      requires branch.Chain(None) == Put(was, p - 1, x) && index == Offset(branch.Chain(None), p, kind)
      requires left == At(was, p - 1) && right == At(was, p) && rel == 0
      requires right != null ==> !reachedEnd
      requires nothing <==> p + 1 < |was| && !was[p].Counts()
      modifies this`nextItem, this`reachedEnd
      ensures Well(kind) <==> nothing && !x.Counts()
    {
      hide Branch.Valid, Offset, Total, AllMeasured, StandsAt, Put;
      AfterInsert(was, p, x, kind);
      if right != null {
        nextItem := right.right;
      } else {
        nextItem, reachedEnd := left, true;
      }
    }

    /** Makes a block that names two neighbours. */
    method MakeBetween(t: Transaction, id: ID, content: Content, left: Item?, right: Item?, ghost p: nat)
      returns (x: Item)
      requires t.Holds(branch) && AllMeasured(branch.Chain(None), t.kind) && p <= |branch.Chain(None)|
      requires left == At(branch.Chain(None), p - 1) && right == At(branch.Chain(None), p)
      requires t.Unknown(Span(id, content.Length16(), None, None))
      ensures x.id == id && x.origin == (if left == null then None else Some(left.LastId()))
      ensures x.rightOrigin == (if right == null then None else Some(right.id))
      ensures fresh(x) && x.content == content && x.len == content.Length16() && x.left == left && x.right == right
      ensures x.parent == branch && x.parentSub == None && !x.deleted && x.countable == content.IsCountable()
      ensures t.Found(x.left, x.right, x.ToSpan(), branch.Chain(None)) && t.Unknown(x.ToSpan())
      ensures BlockPlace(ToSpans(branch.Chain(None)), x.ToSpan()) == p - 1
      ensures var bs := ToSpans(branch.Chain(None));
        Typed(Expand(bs), x.ToSpan(), Expand(PutAfter(bs, p - 1, x.ToSpan())))
    {
      hide Expand, Typed, PutAfter;
      hide AllMeasured, Transaction.Holds, ToSpans, BlockPlace, Content.Length16, Transaction.Found;
      if left != null { NotEmpty(branch.Chain(None), t.kind, left); }
      var origin := if left == null then None else Some(left.LastId());
      var rightOrigin := if right == null then None else Some(right.id);
      x := new Item(id, left, origin, right, rightOrigin, branch, None, content);
      PlaceBetween(t, branch, left, right, p, x.ToSpan());
      TypedBetween(t, left, right, p, x);
      UnknownToo(t, Span(id, x.len, None, None), x.ToSpan());
    }

    /** Puts a new block between two neighbours. */
    method Insert(t: Transaction, id: ID, content: Content, left: Item?, right: Item?, ghost p: nat)
      returns (x: Item)
      requires t.Holds(branch) && branch.Counted(t.kind) && AllMeasured(branch.Chain(None), t.kind)
      requires Measured(content, t.kind) && content.Length16() > 0 && (content.Length16() > 1 ==> content.CanBeCut())
      requires t.Unknown(Span(id, content.Length16(), None, None))
      requires p <= |branch.Chain(None)| && index == |Front(branch.Chain(None), p)|
      requires left == At(branch.Chain(None), p - 1) && right == At(branch.Chain(None), p)
      modifies t`deleteSet, t`insertSet, t.blocks
      modifies branch.items`left, branch.items`right, branch.items`deleted
      modifies branch`start, branch`entries, branch`chains, branch`items
      modifies branch`lost, branch`blockLen, branch`contentLen
      ensures t.Holds(branch) && branch.Counted(t.kind) && AllMeasured(branch.Chain(None), t.kind)
      ensures x.Counts() ==>
        IsInserted(old(Visible(branch.Chain(None))), index, Elements(content), Visible(branch.Chain(None)))
      ensures !x.Counts() ==> Visible(branch.Chain(None)) == old(Visible(branch.Chain(None)))
      ensures x.Counts() <==> content.IsCountable() && !(branch.item != null && branch.item.deleted)
      ensures branch.Chain(None) == Put(old(branch.Chain(None)), p - 1, x)
      ensures index == Offset(branch.Chain(None), p, t.kind)
      ensures forall o :: o in old(branch.items) ==> o.deleted == old(o.deleted)
      ensures x.id == id && x.content == content && x.len == content.Length16()
      ensures t.insertSet == old(t.insertSet) + IdsOf(x.ToSpan())
      ensures t.deleteSet == old(t.deleteSet) + if x.deleted then IdsOf(x.ToSpan()) else {}
      ensures Typed(old(Expand(ToSpans(branch.Chain(None)))), x.ToSpan(), Expand(ToSpans(branch.Chain(None))))
    {
      hide PutAfter;
      hide IdsOf, Typed, Expand, Item.ToSpan;
      hide IsInserted, AllMeasured, Transaction.Holds, Branch.Counted, Slots, Visible, Front, Offset;
      hide Elements, ToSpans, BlockPlace, Put, Content.Length16, Transaction.Found, Transaction.Unknown;
      x := MakeBetween(t, id, content, left, right, p);
      InsertMade(t, x, p);
    }

    lemma TypedBetween(t: Transaction, left: Item?, right: Item?, p: nat, x: Item)
      requires t.Holds(branch) && p <= |branch.Chain(None)|
      requires left == At(branch.Chain(None), p - 1) && right == At(branch.Chain(None), p)
      requires x.origin == (if left == null then None else Some(ID(left.id.client, left.id.clock + left.len - 1)))
      requires x.rightOrigin == (if right == null then None else Some(right.id))
      ensures var bs := ToSpans(branch.Chain(None));
        Typed(Expand(bs), x.ToSpan(), Expand(PutAfter(bs, p - 1, x.ToSpan())))
    {
      hide Branch.Valid, BlockStore.Valid, ToSpans, Expand, Typed;
      branch.LinkedChain(None);
      var ch, bs := branch.Chain(None), ToSpans(branch.Chain(None));
      forall j | 0 <= j < |bs| ensures bs[j].len > 0 { assert ch[j].HasLength(); }
      PutTyped(bs, p, x.ToSpan());
    }

    /** Puts a new block in, and says what is visible then. */
    method InsertMade(t: Transaction, x: Item, ghost p: nat)
      requires t.Holds(branch) && branch.Counted(t.kind) && AllMeasured(branch.Chain(None), t.kind)
      requires t.Found(x.left, x.right, x.ToSpan(), branch.Chain(None)) && t.Unknown(x.ToSpan())
      requires p <= |branch.Chain(None)| && BlockPlace(ToSpans(branch.Chain(None)), x.ToSpan()) == p - 1
      requires x.HasLength() && Measured(x.content, t.kind) && !x.deleted && x.countable == x.content.IsCountable()
      requires x.parent == branch && x.parentSub == None && branch.item != x
      requires x !in branch.items && x !in t.blocks.stored
      requires index == |Front(branch.Chain(None), p)|
      modifies t`deleteSet, t`insertSet, t.blocks, x`left, x`right, x`deleted, x`parentSub
      modifies branch.items`left, branch.items`right, branch.items`deleted
      modifies branch`start, branch`entries, branch`chains, branch`items
      modifies branch`lost, branch`blockLen, branch`contentLen
      ensures t.Holds(branch) && branch.Counted(t.kind) && AllMeasured(branch.Chain(None), t.kind)
      ensures x.Counts() ==>
        IsInserted(old(Visible(branch.Chain(None))), index, Elements(x.content), Visible(branch.Chain(None)))
      ensures !x.Counts() ==> Visible(branch.Chain(None)) == old(Visible(branch.Chain(None)))
      ensures x.Counts() <==> x.content.IsCountable() && !(branch.item != null && branch.item.deleted)
      ensures branch.Chain(None) == Put(old(branch.Chain(None)), p - 1, x)
      ensures p <= |branch.Chain(None)| && index == Offset(branch.Chain(None), p, t.kind)
      ensures forall o :: o in old(branch.items) ==> o.deleted == old(o.deleted)
      ensures t.insertSet == old(t.insertSet) + IdsOf(x.ToSpan())
      ensures t.deleteSet == old(t.deleteSet) + if x.deleted then IdsOf(x.ToSpan()) else {}
      ensures ToSpans(branch.Chain(None)) == PutAfter(old(ToSpans(branch.Chain(None))), p - 1, x.ToSpan())
    {
      hide PutAfter, IdsOf, Item.ToSpan, Item.HasLength, Measured;
      hide IsInserted, AllMeasured, Transaction.Holds, Branch.Counted, Slots, Visible, Front, Offset;
      hide Elements, ToSpans, BlockPlace, Put, Transaction.Found, Transaction.Unknown;
      InsertAt(t, x, p);
      Measures(branch.Chain(None), p, t.kind);
      if !x.Counts() { InsertNone(old(Visible(branch.Chain(None))), index, Visible(branch.Chain(None))); }
    }

    method InsertAt(t: Transaction, x: Item, ghost p: nat)
      requires t.Holds(branch) && branch.Counted(t.kind) && AllMeasured(branch.Chain(None), t.kind)
      requires t.Found(x.left, x.right, x.ToSpan(), branch.Chain(None)) && t.Unknown(x.ToSpan())
      requires p <= |branch.Chain(None)| && BlockPlace(ToSpans(branch.Chain(None)), x.ToSpan()) == p - 1
      requires x.HasLength() && Measured(x.content, t.kind) && !x.deleted && x.countable == x.content.IsCountable()
      requires x.parent == branch && x.parentSub == None && branch.item != x
      requires x !in branch.items && x !in t.blocks.stored
      modifies t`deleteSet, t`insertSet, t.blocks, x`left, x`right, x`deleted, x`parentSub
      modifies branch.items`left, branch.items`right, branch.items`deleted
      modifies branch`start, branch`entries, branch`chains, branch`items
      modifies branch`lost, branch`blockLen, branch`contentLen
      ensures t.Holds(branch) && branch.Counted(t.kind) && AllMeasured(branch.Chain(None), t.kind)
      ensures IsInserted(old(Visible(branch.Chain(None))), old(|Front(branch.Chain(None), p)|), Slot(x),
        Visible(branch.Chain(None)))
      ensures x.Counts() <==> x.content.IsCountable() && !(branch.item != null && branch.item.deleted)
      ensures branch.Chain(None) == Put(old(branch.Chain(None)), p - 1, x)
      ensures forall o :: o in old(branch.items) ==> o.deleted == old(o.deleted)
      ensures p <= |branch.Chain(None)| && Front(branch.Chain(None), p) == old(Front(branch.Chain(None), p))
      ensures t.insertSet == old(t.insertSet) + IdsOf(x.ToSpan())
      ensures t.deleteSet == old(t.deleteSet) + if x.deleted then IdsOf(x.ToSpan()) else {}
      ensures ToSpans(branch.Chain(None)) == PutAfter(old(ToSpans(branch.Chain(None))), p - 1, x.ToSpan())
    {
      hide IdsOf, Transaction.KeepsTop, Transaction.Fell;
      hide Transaction.Holds, Branch.Counted, Slots, Elements, ToSpans, BlockPlace, Put;
      hide Transaction.Found, Transaction.Unknown, Transaction.OnlyIn, Item.HasLength, Measured, AllMeasured, Slot;
      hide Flat, Item.ToSpan;
      ghost var ch := branch.Chain(None);
      ghost var ss := Slots(ch);
      ItemsOf(t);
      var done := t.Enter(x, 0, branch, None);
      InsertSeen(ch, ss, p, x, t.kind);
    }

    /** Where the cursor is left. */
    lemma AfterInsert(was: seq<Item>, p: nat, x: Item, kind: OffsetKind)
      requires branch.Valid() && AllMeasured(branch.Chain(None), kind) && p <= |was|
      requires branch.Chain(None) == Put(was, p - 1, x) && index == Offset(branch.Chain(None), p, kind)
      ensures p < |was| ==>
        var well := StandsAt(branch.Chain(None), was[p].right, 0, false, index, kind);
        well <==> p + 1 < |was| && !x.Counts() && !was[p].Counts()
      ensures p == |was| ==> !StandsAt(branch.Chain(None), At(was, p - 1), 0, true, index, kind)
    {
      hide Branch.Valid, Offset, Total, AllMeasured;
      var ch := branch.Chain(None);
      branch.LinkedChain(None);
      if p < |was| {
        PutGet(was, p - 1, x, p);
        PutGet(was, p - 1, x, p + 1);
        branch.Neighbours(None, p + 1);
        PastTwo(ch, p, index, kind);
      } else {
        PutGet(was, p - 1, x, p);
        Unique(ch, p);
        if p > 0 { PutGet(was, p - 1, x, p - 1); }
      }
    }

    lemma UnknownToo(t: Transaction, x: Span, y: Span)
      requires t.Unknown(x) && x.id == y.id && x.len == y.len
      ensures t.Unknown(y)
    {
      assert forall id :: y.Contains(id) ==> x.Contains(id);
    }

    lemma ItemsOf(t: Transaction)
      requires t.Holds(branch)
      ensures forall o :: o in branch.Chain(None) ==> o in branch.items
    {
      hide Branch.Valid, BlockStore.Valid;
      branch.LinkedChain(None);
    }

    /**
      Moves back by `n` units, whatever the blocks hold.
      At the end, the mark that the end was reached is not taken back.
     */
    method Backward(n: nat, kind: OffsetKind) returns (ok: bool)
      requires branch.Valid() && Well(kind)
      modifies this`index, this`rel, this`nextItem
      ensures ok <==> n <= old(index)
      ensures !ok ==> unchanged(this)
      ensures ok ==> index == old(index) - n
      ensures ok ==>
        (Well(kind) <==> !reachedEnd || (n == 0 && (old(nextItem) == null || old(nextItem).Weight(kind) == 0)))
    {
      hide Branch.Valid, Linked, Offset, Total, Content.Length16, Content.Length8;
      if index < n { return false; }
      ghost var ch := branch.Chain(None);
      branch.LinkedChain(None);
      index := index - n;
      if reachedEnd && nextItem != null {
        BackFromEnd(n, kind);
        return true;
      }
      if rel >= n {
        rel := rel - n;
        return true;
      }
      OffsetNext(ch, Pos(ch, nextItem), kind);
      var len := n + nextItem.Weight(kind) - rel;
      rel := 0;
      nextItem := WalkBack(nextItem, len, kind, Pos(ch, nextItem), index);
      return true;
    }

    /** The steps of `Backward` when the end was reached. */
    method BackFromEnd(n: nat, kind: OffsetKind)
      requires branch.Valid()
      requires reachedEnd && nextItem != null && rel == 0 && branch.Chain(None) != []
      requires nextItem == branch.Chain(None)[|branch.Chain(None)| - 1]
      requires index + n == Total(branch.Chain(None), kind)
      modifies this`rel, this`nextItem
      ensures Well(kind) <==> n == 0 && old(nextItem).Weight(kind) == 0
    {
      hide Branch.Valid, Linked, Offset, Total, Content.Length16, Content.Length8;
      ghost var ch := branch.Chain(None);
      OffsetNext(ch, |ch| - 1, kind);
      rel := nextItem.Weight(kind);
      if rel >= n {
        rel := rel - n;
        return;
      }
      rel := 0;
      nextItem := WalkBack(nextItem, n, kind, |ch| - 1, index);
    }

    /** The loop of `Backward`: `len` units back from the end of `first`. */
    method WalkBack(first: Item, n: nat, kind: OffsetKind, ghost q: nat, ghost target: nat) returns (item: Item)
      requires branch.Valid()
      requires q < |branch.Chain(None)| && first == branch.Chain(None)[q] && rel == 0 && n > 0
      requires Offset(branch.Chain(None), q + 1, kind) == target + n
      modifies this`rel
      ensures StandsAt(branch.Chain(None), item, rel, false, target, kind)
    {
      hide Branch.Valid, Linked, Offset, Total, Content.Length16, Content.Length8;
      var len: nat := n;
      item := first;
      ghost var ch := branch.Chain(None);
      ghost var p: nat := q;
      branch.LinkedChain(None);
      while len > 0
        invariant p < |ch| && item == ch[p]
        invariant len > 0 ==> rel == 0 && Offset(ch, p + 1, kind) == target + len
        invariant len == 0 ==> InBlock(ch, p, rel, target, kind)
        decreases p, len
      {
        branch.Neighbours(None, p);
        OffsetNext(ch, p, kind);
        if item.countable && !item.deleted {
          var itemLen := item.ContentLen(kind);
          if len < itemLen {
            rel, len := itemLen - len, 0;
          } else {
            len := len - itemLen;
          }
          if len == 0 { break; }
        }
        assert p > 0 by { NoOffset(ch, kind); }
        item, p := item.left, p - 1;
      }
      StandsIn(ch, p, rel, target, kind);
    }
  }

  /** Copies what can be copied of `es` from `offset` on, to `buf` from `at` on. */
  method CopyElements(es: seq<Element>, offset: nat, buf: array<Element>, at: nat) returns (j: nat)
    requires offset <= |es| && at <= buf.Length
    modifies buf
    ensures j == Least(|es| - offset, buf.Length - at)
    ensures buf[..at + j] == old(buf[..at]) + es[offset..offset + j] && buf[at + j..] == old(buf[at + j..])
  {
    var i := offset;
    j := 0;
    while i < |es| && j < buf.Length - at
      invariant i == offset + j <= |es| && at + j <= buf.Length
      invariant buf[..at + j] == old(buf[..at]) + es[offset..i] && buf[at + j..] == old(buf[at + j..])
    {
      buf[at + j] := es[i];
      i, j := i + 1, j + 1;
    }
  }

  function Least(a: nat, b: nat): nat {
    if a < b then a else b
  }

  /** What is read of a content: of a text, its characters. */
  function Spelled(c: Content): seq<Element> {
    match c
    case Chars(s) => seq(|s|, i requires 0 <= i < |s| => CodeUnit(s[i] as int))
    case Deleted(_) => []
    case Format(_, _) => []
    case _ => Elements(c)
  }

  /** From `offset` on, but that a single element is always read. */
  function SpelledFrom(c: Content, offset: nat): seq<Element> {
    if c.CanBeCut() then Spelled(c)[Least(offset, |Spelled(c)|)..] else Spelled(c)
  }

  /** Unit `k` of block `i`, if it is among what was read, is the part that the block has there. */
  ghost predicate ReadsPart(ch: seq<Item>, kind: OffsetKind, from: nat, r: seq<Element>, i: nat, k: nat)
    requires i < |ch|
    reads ch`deleted, ch`countable, ch`len, ch`content
  {
    var at := Offset(ch, i, kind) + k;
    ch[i].Counts() && k < ch[i].len && from <= at < from + |r| ==> IsPart(r[at - from], ch[i].content, k)
  }

  /** What is read of a chain: each position has the part that the block there has at it. */
  ghost predicate ReadsParts(ch: seq<Item>, kind: OffsetKind, from: nat, r: seq<Element>)
    reads ch`deleted, ch`countable, ch`len, ch`content
  {
    forall i: nat, k: nat :: i < |ch| ==> ReadsPart(ch, kind, from, r, i, k)
  }

  lemma SliceParts(ch: seq<Item>, kind: OffsetKind, from: nat, r: seq<Element>)
    requires AllMeasured(ch, kind) && AllPlain(ch) && IsSlice(Visible(ch), from, |r|, r)
    ensures ReadsParts(ch, kind, from, r)
  {
    hide Elements, Visible, Front, Offset, Total, IsPart, Measured, Plain, SpelledFrom, Item.HasLength;
    forall i: nat, k: nat | i < |ch| ensures ReadsPart(ch, kind, from, r, i, k) {
      var at := Offset(ch, i, kind) + k;
      if ch[i].Counts() && k < ch[i].len && from <= at < from + |r| {
        assert ch[i] in ch;
        Measures(ch, i, kind);
        ReadAt(ch, i, k, at, 1);
        assert r[at - from] == Visible(ch)[at];
        assert Visible(ch)[at..at + 1][0] == Slot(ch[i])[k..k + 1][0];
        PartIs(ch[i].content, k);
      }
    }
  }

  lemma PartIs(c: Content, k: nat)
    requires Plain(c) && c.IsCountable() && k < |Elements(c)|
    ensures IsPart(Elements(c)[k], c, k)
  {
    hide Elements, IsPart, Plain, SpelledFrom;
    SpelledIs(c, k);
    SpelledParts(c, k);
    SpelledSome(c, k);
    assert Elements(c)[k..][0] == Elements(c)[k];
  }

  lemma SpelledSome(c: Content, k: nat)
    requires Plain(c) && c.IsCountable() && k < |Elements(c)|
    ensures |Elements(c)[k..]| > 0
  {
  }

  lemma SeamLater(was: seq<Element>, index: nat, gone: nat, now: seq<Element>, n: nat)
    requires IsRemoved(was, index, gone, now) && Seam(was, index + gone + n)
    ensures Seam(now, index + n)
  {
  }

  lemma SpelledIs(c: Content, offset: nat)
    requires Plain(c) && c.IsCountable() && offset < |Elements(c)|
    ensures SpelledFrom(c, offset) == Elements(c)[offset..]
  {
    if c.Chars? { BasicUnits(c.s); }
  }

  /** How many elements can be read of a content from `offset` on; one that cannot be cut is read from its start. */
  function Readable(c: Content, offset: nat): nat {
    match c
    case AnyItems(v) => Left(|v|, offset)
    case Json(v) => Left(|v|, offset)
    case Chars(s) => Left(|s|, offset)
    case Deleted(_) => 0
    case Format(_, _) => 0
    case _ => 1
  }

  function Left(n: nat, offset: nat): nat {
    if offset < n then n - offset else 0
  }

  /** `e` is the value, the text or the character at position `k`, or the content itself. */
  predicate IsPart(e: Element, c: Content, k: nat) {
    match c
    case AnyItems(v) => k < |v| && e == Value(v[k])
    case Json(v) => k < |v| && e == Raw(v[k])
    case Chars(s) => k < |s| && e == CodeUnit(s[k] as int)
    case Deleted(_) => false
    case Format(_, _) => false
    case _ => e == Single(c)
  }

  lemma SpelledParts(c: Content, offset: nat)
    ensures |SpelledFrom(c, offset)| == Readable(c, offset)
    ensures forall k :: 0 <= k < Readable(c, offset) ==> IsPart(SpelledFrom(c, offset)[k], c, offset + k)
  {
  }

  /** Reads elements of a content into `buf` from `at` on: as many as there are, and fit. */
  method Read(c: Content, offset: nat, buf: array<Element>, at: nat) returns (r: nat)
    requires at <= buf.Length
    modifies buf
    ensures r == Least(|SpelledFrom(c, offset)|, buf.Length - at)
    ensures buf[..at + r] == old(buf[..at]) + SpelledFrom(c, offset)[..r] && buf[at + r..] == old(buf[at + r..])
    ensures r == Least(Readable(c, offset), buf.Length - at)
    ensures forall j :: at <= j < at + r ==> IsPart(buf[j], c, offset + j - at)
  {
    hide SpelledFrom, IsPart, Readable;
    ghost var was, es := buf[..at], SpelledFrom(c, offset);
    SpelledParts(c, offset);
    r := ReadSpelled(c, offset, buf, at);
    PartsCopied(was, es, r, buf[..at + r], c, offset);
    assert forall j :: at <= j < at + r ==> buf[j] == buf[..at + r][j];
  }

  lemma PartsCopied(was: seq<Element>, es: seq<Element>, r: nat, now: seq<Element>, c: Content, offset: nat)
    requires r <= |es| == Readable(c, offset) && now == was + es[..r]
    requires forall k :: 0 <= k < |es| ==> IsPart(es[k], c, offset + k)
    ensures forall j :: |was| <= j < |now| ==> IsPart(now[j], c, offset + j - |was|)
  {
    hide IsPart, Readable;
    forall j | |was| <= j < |now| ensures IsPart(now[j], c, offset + j - |was|) {
      assert now[j] == es[j - |was|];
    }
  }

  method ReadSpelled(c: Content, offset: nat, buf: array<Element>, at: nat) returns (r: nat)
    requires at <= buf.Length
    modifies buf
    ensures r == Least(|SpelledFrom(c, offset)|, buf.Length - at)
    ensures buf[..at + r] == old(buf[..at]) + SpelledFrom(c, offset)[..r] && buf[at + r..] == old(buf[at + r..])
  {
    hide Elements;
    ghost var es := SpelledFrom(c, offset);
    if at == buf.Length {
      r := 0;
    } else if c.CanBeCut() {
      var from := Least(offset, |Spelled(c)|);
      r := CopyElements(Spelled(c), from, buf, at);
      assert Spelled(c)[from..from + r] == es[..r];
    } else if !c.IsCountable() {
      r := 0;
    } else {
      r := 1;
      ReadSingle(c, buf, at);
      assert es[..1] == [Single(c)];
    }
    assert r == 0 ==> es[..r] == [];
  }

  method ReadSingle(c: Content, buf: array<Element>, at: nat)
    requires !c.CanBeCut() && at < buf.Length
    modifies buf
    ensures Elements(c) == [Single(c)]
    ensures buf[..at + 1] == old(buf[..at]) + [Single(c)] && buf[at + 1..] == old(buf[at + 1..])
  {
    buf[at] := Single(c);
  }

  // ----- changing what is visible

  /** A block was cut: what is visible stays the same. */
  lemma CutVisible(ch: seq<Item>, p: nat, rest: Item, ss: seq<seq<Element>>)
    requires p < |ch| == |ss| && ss[p] == Slot(ch[p]) + Slot(rest)
    requires forall i :: 0 <= i < |ch| && i != p ==> ss[i] == Slot(ch[i])
    ensures Visible(Put(ch, p, rest)) == Flat(ss)
    ensures Front(Put(ch, p, rest), p) == Flat(ss[..p])
    ensures Front(Put(ch, p, rest), p + 1) == Flat(ss[..p]) + Slot(ch[p])
  {
    hide Slot, Flat, Slots;
    var t, u := Put(ch, p, rest), ss[..p] + [Slot(ch[p]), Slot(rest)] + ss[p + 1..];
    forall i | 0 <= i < |t| ensures u[i] == Slot(t[i]) { PutGet(ch, p, rest, i); }
    SlotsAre(t, u);
    FlatCut(ss, p, Slot(ch[p]), Slot(rest));
    assert u[..p] == ss[..p] && u[p] == Slot(ch[p]);
    FlatAt(u, p);
  }

  /** Looks up the block that starts with the `k`-th unit of `it`, which is cut there. */
  method SplitInside(t: Transaction, b: Branch, it: Item, k: nat, ghost p: nat) returns (rest: Item)
    requires t.Holds(b) && b.Counted(t.kind)
    requires p < |b.Chain(None)| && b.Chain(None)[p] == it && 0 < k < it.len
    modifies t.blocks, b.items`len, b.items`content, b.items`left, b.items`right
    modifies b`start, b`entries, b`chains, b`items, b`lost
    ensures t.Holds(b) && b.Counted(t.kind) && b.Chain(None) == Put(old(b.Chain(None)), p, rest)
    ensures fresh(b.items - old(b.items)) && fresh(t.blocks.stored - old(t.blocks.stored))
    ensures it.Parts(rest, old(it.ToSpan()), old(it.content), k) && fresh(rest)
    ensures forall o :: o in old(b.Chain(None)) && o != it ==> o.content == old(o.content) && o.len == old(o.len)
    ensures t.blocks.known == old(t.blocks.known)
    ensures b.lost == old(b.lost) + if !it.Counts() || EvenCut(old(it.content), k, t.kind) then 0 else 2
    ensures IsCut(old(ToSpans(b.Chain(None))), p, k, ToSpans(b.Chain(None)))
  {
    hide Branch.Valid, BlockStore.Valid, Linked, ToSpans, Content.Cut, Content.Length16, Put, Branch.Totals, IsCut;
    hide EvenCut;
    b.LinkedChain(None);
    Unique(b.Chain(None), p);
    var id := IdAfter(it.id, k);
    var o := t.blocks.GetItem(id);
    assert it.Has(id);
    if o != it { NotInBoth(t.blocks, o, it, id); }
    rest := t.Split(it, k, b, None, p);
  }

  /** Of a chain of which block `p` was cut: the same ids are visible. */
  lemma CutNames(ch: seq<Item>, p: nat, rest: Item, ns: seq<seq<ID>>)
    requires p < |ch| == |ns| && ns[p] == NameSlot(ch[p]) + NameSlot(rest)
    requires forall i :: 0 <= i < |ch| && i != p ==> ns[i] == NameSlot(ch[i])
    ensures Flat(NameSlots(Put(ch, p, rest))) == Flat(ns)
  {
    hide NameSlot, Flat, NameSlots;
    var t, u := Put(ch, p, rest), ns[..p] + [NameSlot(ch[p]), NameSlot(rest)] + ns[p + 1..];
    forall i | 0 <= i < |t| ensures u[i] == NameSlot(t[i]) { PutGet(ch, p, rest, i); }
    NameSlotsAre(t, u);
    FlatCut(ns, p, NameSlot(ch[p]), NameSlot(rest));
  }

  lemma PartsNamed(it: Item, rest: Item, was: Span, whole: Content, k: nat, names: seq<ID>)
    requires it.Parts(rest, was, whole, k) && 0 < k < was.len
    requires names == if it.Counts() then Named(was.id, was.len) else []
    ensures NameSlot(it) + NameSlot(rest) == names && rest.deleted == it.deleted
    ensures it.ToSpan() == CutLeft(was, k) && rest.ToSpan() == CutRight(was, k)
  {
    assert Named(was.id, k) + Named(IdAfter(was.id, k), was.len - k) == Named(was.id, was.len);
  }

  lemma CutUnits(bs: seq<Span>, p: nat, k: nat, r: seq<Span>)
    requires IsCut(bs, p, k, r)
    ensures Expand(r) == Expand(bs)
  {
    CutKeepsUnits(bs, p, k);
  }

  /** What is visible and what is deleted stay the same ids when a block is cut. */
  method SplitNamed(t: Transaction, b: Branch, it: Item, k: nat, ghost p: nat) returns (rest: Item)
    requires t.Holds(b) && b.Counted(t.kind)
    requires p < |b.Chain(None)| && b.Chain(None)[p] == it && 0 < k < it.len
    modifies t.blocks, b.items`len, b.items`content, b.items`left, b.items`right
    modifies b`start, b`entries, b`chains, b`items, b`lost
    ensures t.Holds(b) && b.Counted(t.kind) && b.Chain(None) == Put(old(b.Chain(None)), p, rest)
    ensures fresh(b.items - old(b.items)) && fresh(t.blocks.stored - old(t.blocks.stored))
    ensures it.Parts(rest, old(it.ToSpan()), old(it.content), k) && fresh(rest)
    ensures forall o :: o in old(b.Chain(None)) && o != it ==> o.content == old(o.content) && o.len == old(o.len)
    ensures t.blocks.known == old(t.blocks.known)
    ensures b.lost == old(b.lost) + if !it.Counts() || EvenCut(old(it.content), k, t.kind) then 0 else 2
    ensures TraceOf(b.Chain(None), t.deleteSet) == old(TraceOf(b.Chain(None), t.deleteSet))
  {
    hide Branch.Valid, BlockStore.Valid, Linked, Put, Branch.Counted, EvenCut, Flat, NameSlots, DeadIds, IdsIn;
    hide Transaction.Holds, SpanIds, Item.Parts, Named, CutLeft, CutRight, Content.Cut, Content.Length16;
    hide Expand, ToSpans, IsCut;
    ghost var ch, was, whole := b.Chain(None), it.ToSpan(), it.content;
    ghost var ns, others := NameSlots(ch), set o | o in ch && o != it && o.deleted;
    t.HasLengthIn(b, None, p);
    ghost var bs := ToSpans(ch);
    DeadParts(ch, it, others);
    rest := SplitInside(t, b, it, k, p);
    CutUnits(bs, p, k, ToSpans(b.Chain(None)));
    PartsNamed(it, rest, was, whole, k, ns[p]);
    CutNames(ch, p, rest, ns);
    CutDead(ch, p, rest, was, k, others);
  }

  lemma PartsMeasured(it: Item, rest: Item, was: Span, whole: Content, k: nat, kind: OffsetKind)
    requires it.Parts(rest, was, whole, k) && was.len == whole.Length16() && Measured(whole, kind)
    requires it.countable == whole.IsCountable() && Clean(whole, k)
    ensures EvenCut(whole, k, kind)
    ensures Measured(it.content, kind) && it.HasLength() && it.countable == it.content.IsCountable()
    ensures Measured(rest.content, kind) && rest.HasLength() && rest.countable == rest.content.IsCountable()
    ensures rest.Counts() == it.Counts()
    ensures Slot(it) + Slot(rest) == if it.Counts() then Elements(whole) else []
  {
    hide Elements, Content.Cut, Measured, Clean, EvenCut;
    MeasuredCut(whole, k, kind);
    CutLengths(whole, k);
  }

  /** Where a cut falls on what is visible tells whether it falls inside a pair. */
  lemma SeamIsClean(ch: seq<Item>, p: nat, k: nat)
    requires p < |ch| && ch[p].HasLength() && ch[p].Counts() && 0 < k < ch[p].len
    requires Seam(Visible(ch), |Front(ch, p)| + k)
    ensures Clean(ch[p].content, k)
  {
    hide Elements, Visible, Front;
    ReadAt(ch, p, k, |Front(ch, p)| + k, 1);
    var v, at := Visible(ch), |Front(ch, p)| + k;
    assert v[at..at + 1][0] == Slot(ch[p])[k..k + 1][0];
    LowIsCut(ch[p].content, k);
  }

  /** A cut that is not inside a pair changes nothing of what is visible. */
  method CutBlock(t: Transaction, b: Branch, it: Item, k: nat, ghost p: nat) returns (rest: Item)
    requires t.Holds(b) && b.Counted(t.kind) && AllMeasured(b.Chain(None), t.kind)
    requires p < |b.Chain(None)| && b.Chain(None)[p] == it && 0 < k < it.len && Clean(it.content, k)
    modifies t.blocks, b.items`len, b.items`content, b.items`left, b.items`right
    modifies b`start, b`entries, b`chains, b`items, b`lost
    ensures t.Holds(b) && b.Counted(t.kind) && AllMeasured(b.Chain(None), t.kind) && b.lost == old(b.lost)
    ensures fresh(b.items - old(b.items)) && fresh(t.blocks.stored - old(t.blocks.stored))
    ensures t.blocks.known == old(t.blocks.known)
    ensures b.Chain(None) == Put(old(b.Chain(None)), p, rest)
    ensures Visible(b.Chain(None)) == old(Visible(b.Chain(None)))
    ensures Front(b.Chain(None), p) == old(Front(b.Chain(None), p))
    ensures Front(b.Chain(None), p + 1) == old(Front(b.Chain(None), p)) + Slot(it)
    ensures it.len == k && it.Counts() == old(it.Counts()) && rest.Counts() == it.Counts()
    ensures TraceOf(b.Chain(None), t.deleteSet) == old(TraceOf(b.Chain(None), t.deleteSet))
  {
    hide Branch.Valid, BlockStore.Valid, Branch.Sound, Branch.Totals, Linked, Slots, Flat, Elements, Content.Cut, Put;
    hide Content.Length16, Measured, Clean, EvenCut, Visible, Front, Slot, TraceOf;
    ghost var ch := b.Chain(None);
    ghost var ss, was, whole, counts := Slots(ch), it.ToSpan(), it.content, it.Counts();
    DifferentBlocks(b, p);
    WhatIsCut(ch, p, ss);
    rest := SplitNamed(t, b, it, k, p);
    PartsMeasured(it, rest, was, whole, k, t.kind);
    CutVisible(ch, p, rest, ss);
    PutHas(ch, p, rest);
  }

  lemma WhatIsCut(ch: seq<Item>, p: nat, ss: seq<seq<Element>>)
    requires p < |ch| && ss == Slots(ch)
    ensures Flat(ss) == Visible(ch) && Flat(ss[..p]) == Front(ch, p)
    ensures ss[p] == if ch[p].Counts() then Elements(ch[p].content) else []
  {
    hide Flat, Slots, Elements;
  }

  lemma DifferentBlocks(b: Branch, p: nat)
    requires b.Valid() && p < |b.Chain(None)|
    ensures forall i :: 0 <= i < |b.Chain(None)| && i != p ==> b.Chain(None)[i] != b.Chain(None)[p]
    ensures b.Chain(None)[p].ToSpan().len == b.Chain(None)[p].len
  {
    b.LinkedChain(None);
    Unique(b.Chain(None), p);
  }

  /** A new block was put after block `p - 1`. */
  lemma InsertVisible(ch: seq<Item>, p: nat, x: Item)
    requires p <= |ch|
    ensures IsInserted(Visible(ch), |Front(ch, p)|, Slot(x), Visible(Put(ch, p - 1, x)))
    ensures p <= |Put(ch, p - 1, x)| && Front(Put(ch, p - 1, x), p) == Front(ch, p)
  {
    hide Slot, Flat, Slots;
    var ss := Slots(ch);
    var t, u := Put(ch, p - 1, x), ss[..p] + [Slot(x)] + ss[p..];
    forall i | 0 <= i < |t| ensures u[i] == Slot(t[i]) { PutGet(ch, p - 1, x, i); }
    SlotsAre(t, u);
    assert u[..p] == ss[..p];
    FlatPut(ss, p, Slot(x));
    FlatSplit(ss, p);
    var a, c := Flat(ss[..p]), Flat(ss[p..]);
    assert (a + c)[..|a|] == a && (a + c)[|a|..] == c;
  }

  lemma InsertSeen(ch: seq<Item>, ss: seq<seq<Element>>, p: nat, x: Item, kind: OffsetKind)
    requires |ss| == |ch| && (forall i :: 0 <= i < |ch| ==> ss[i] == Slot(ch[i])) && p <= |ch|
    requires AllMeasured(ch, kind) && Measured(x.content, kind) && x.HasLength()
    requires x.countable == x.content.IsCountable()
    ensures AllMeasured(Put(ch, p - 1, x), kind)
    ensures IsInserted(Flat(ss), |Flat(ss[..p])|, Slot(x), Visible(Put(ch, p - 1, x)))
    ensures p <= |Put(ch, p - 1, x)| && Front(Put(ch, p - 1, x), p) == Flat(ss[..p])
  {
    hide Slot, Slots;
    SlotsAre(ch, ss);
    InsertVisible(ch, p, x);
    PutHas(ch, p - 1, x);
    forall it | it in Put(ch, p - 1, x)
      ensures Measured(it.content, kind) && it.HasLength() && it.countable == it.content.IsCountable()
    {
      assert it == x || it in ch;
    }
    FlatSplit(ss, p);
  }

  /** Between two neighbours a block goes to where they are: the scan does not move it. */
  lemma PlaceBetween(t: Transaction, b: Branch, left: Item?, right: Item?, p: nat, x: Span)
    requires t.Holds(b) && p <= |b.Chain(None)| && left == At(b.Chain(None), p - 1) && right == At(b.Chain(None), p)
    requires x.origin == if left == null then None else Some(ID(left.id.client, left.id.clock + left.len - 1))
    requires x.rightOrigin == if right == null then None else Some(right.id)
    ensures t.Found(left, right, x, b.Chain(None)) && BlockPlace(ToSpans(b.Chain(None)), x) == p - 1
  {
    hide Branch.Valid, BlockStore.Valid, ToSpans, BlockOf;
    b.LinkedChain(None);
    var ch := b.Chain(None);
    assert left != null ==> left in ch && left.HasLength();
    t.SeatsFound(left, right, x, b, None);
    if ch != [] {
      if left != null { b.Neighbours(None, p - 1); } else { b.Neighbours(None, 0); }
      NoConflict(left, right, x, ch);
      Unique(ch, if left == null then 0 else p - 1);
    }
  }

  /** A block that counted is deleted: the others stay visible. */
  lemma DeleteVisible(ch: seq<Item>, p: nat, ss: seq<seq<Element>>)
    requires p < |ch| == |ss| && Slot(ch[p]) == []
    requires forall i :: 0 <= i < |ch| && i != p ==> ss[i] == Slot(ch[i])
    ensures |Flat(ss[..p])| + |ss[p]| <= |Flat(ss)|
    ensures IsRemoved(Flat(ss), |Flat(ss[..p])|, |ss[p]|, Visible(ch))
    ensures Flat(ss[..p]) == Flat(ss)[..|Flat(ss[..p])|]
    ensures Front(ch, p) == Front(ch, p + 1) == Flat(ss[..p])
  {
    hide Slot, Flat, Slots;
    SlotsAre(ch, ss[p := []]);
    FlatAt(ss, p);
    FlatSet(ss, p, []);
    FlatAt(ss[p := []], p);
    var a, c := Flat(ss[..p]), Flat(ss[p + 1..]);
    assert a + [] == a;
    assert (a + ss[p] + c)[|a| + |ss[p]|..] == c && (a + ss[p] + c)[..|a|] == a;
  }

  /** Of a chain in which block `p`, which counted, was deleted. */
  lemma DeleteNames(ch: seq<Item>, p: nat, was: Trace, ns: seq<seq<ID>>, others: set<Item>, noted: set<ID>)
    requires p < |ch| == |ns| && ch[p].deleted && ns[p] == Named(ch[p].id, ch[p].len)
    requires forall i :: 0 <= i < |ch| && i != p ==> ns[i] == NameSlot(ch[i])
    requires others == set o | o in ch && o != ch[p] && o.deleted
    requires was.units == Expand(ToSpans(ch)) && was.names == Flat(ns) && was.dead == IdsIn(others)
    requires noted == was.noted + IdsOf(ch[p].ToSpan())
    ensures Erased(was, |Flat(ns[..p])|, ch[p].len, TraceOf(ch, noted))
  {
    hide Flat, NameSlots, IdsOf, DeadIds, IdsIn, Expand, ToSpans;
    var it := ch[p];
    NameSlotsAre(ch, ns[p := []]);
    FlatAt(ns, p);
    FlatSet(ns, p, []);
    DeadParts(ch, it, others);
    var a, c := Flat(ns[..p]), Flat(ns[p + 1..]);
    assert a + [] == a;
    Middle(a, ns[p], c, 0, it.len);
    assert (a + ns[p] + c)[|a| + it.len..] == c && (a + ns[p] + c)[..|a|] == a;
    forall id ensures id in ns[p] <==> it.Has(id) { NamedHas(it, id); }
    forall id ensures id in IdsOf(it.ToSpan()) <==> it.Has(id) { IdsAre(it, id); }
    assert forall id :: id in SpanIds(it.ToSpan()) <==> it.Has(id);
  }

  lemma NamedHas(it: Item, id: ID)
    ensures id in Named(it.id, it.len) <==> it.Has(id)
  {
    if it.Has(id) { assert Named(it.id, it.len)[id.clock - it.id.clock] == id; }
  }

  /** Exactly the block is deleted, and recorded. */
  method DeleteNamed(t: Transaction, b: Branch, it: Item, ghost p: nat)
    requires t.Holds(b) && b.Counted(t.kind) && p < |b.Chain(None)| && b.Chain(None)[p] == it && it.Counts()
    modifies t`deleteSet, it`deleted, b`blockLen, b`contentLen
    ensures b.Counted(t.kind) && it.deleted
    ensures Erased(old(TraceOf(b.Chain(None), t.deleteSet)), old(|Flat(NameSlots(b.Chain(None))[..p])|), it.len,
      TraceOf(b.Chain(None), t.deleteSet))
  {
    hide Branch.Valid, BlockStore.Valid, Branch.Sound, Branch.Totals, Linked, Flat, NameSlots, IdsOf, DeadIds, IdsIn;
    hide Erased, SpanIds, Expand, ToSpans;
    ghost var ch := b.Chain(None);
    ghost var ns, was, others := NameSlots(ch), TraceOf(ch, t.deleteSet), set o | o in ch && o != it && o.deleted;
    b.LinkedChain(None);
    Unique(ch, p);
    DeadParts(ch, it, others);
    assert it in ch;
    var done := t.Delete(it);
    DeleteNames(ch, p, was, ns, others, t.deleteSet);
  }

  method DeleteBlock(t: Transaction, b: Branch, it: Item, ghost p: nat, ghost index: nat)
    requires t.Holds(b) && b.Counted(t.kind) && AllMeasured(b.Chain(None), t.kind)
    requires p < |b.Chain(None)| && b.Chain(None)[p] == it && it.Counts() && index == |Front(b.Chain(None), p)|
    modifies t`deleteSet, b.items`deleted, b`blockLen, b`contentLen
    ensures t.Holds(b) && b.Counted(t.kind) && AllMeasured(b.Chain(None), t.kind) && b.lost == old(b.lost)
    ensures index + it.len <= old(|Visible(b.Chain(None))|)
    ensures IsRemoved(old(Visible(b.Chain(None))), index, it.len, Visible(b.Chain(None)))
    ensures index == |Front(b.Chain(None), p)| == |Front(b.Chain(None), p + 1)|
    ensures b.Valid()
    ensures Erased(old(TraceOf(b.Chain(None), t.deleteSet)), index, it.len, TraceOf(b.Chain(None), t.deleteSet))
  {
    hide Branch.Valid, BlockStore.Valid, Branch.Sound, Branch.Totals, Linked, Slots, Flat, Elements, Erased;
    hide TraceOf;
    ghost var ch := b.Chain(None);
    ghost var ss := Slots(ch);
    b.LinkedChain(None);
    DifferentBlocks(b, p);
    assert it in ch;
    AsManyNames(ch, t.kind, p);
    DeleteNamed(t, b, it, p);
    DeleteVisible(ch, p, ss);
  }

  lemma NothingVisible(ch: seq<Item>)
    ensures ch == [] ==> Visible(ch) == []
  {
  }

  /** At the start of block `p`, `len` units before `target`; or at the end. */
  ghost predicate Remains(ch: seq<Item>, p: nat, len: nat, end: bool, target: nat, kind: OffsetKind)
    requires p < |ch|
    reads ch`deleted, ch`countable, ch`len, ch`content
  {
    if end then p == |ch| - 1 && len == 0 && target == Total(ch, kind)
    else Offset(ch, p, kind) + len == target
  }
}
