/** Inputs on which the program does not do what one would expect of it. */
module Findings {
  import opened Ids
  import opened AnyValue
  import opened Text
  import opened Spans
  import opened Block
  import opened Squash
  import opened Integration
  import opened Floats
  import opened FloatValues
  import opened Codec
  import opened Numbers
  import opened Cursor
  import opened Gc

  const FACE: Content := Chars("\U{1F600}")

  /** Cut in the middle, a character of 4 bytes becomes 6 bytes that the length of the branch does not count. */
  lemma CutFace()
    ensures FACE.Length16() == 2 && LengthIn(FACE, Bytes) == 4 && !EvenCut(FACE, 1, Bytes)
    ensures LengthIn(FACE.Cut(1).0, Bytes) + LengthIn(FACE.Cut(1).1, Bytes) == 6
    ensures FACE.Cut(1).0.Squash(FACE.Cut(1).1) == Some(Chars("\U{FFFD}\U{FFFD}"))
  {
    var s := "\U{1F600}";
    assert s[1..] == [];
    assert Encode16(s) == Char16(s[0]) + [];
    assert Split16(s, 1) == ([REPLACEMENT], [REPLACEMENT] + s[1..]);
    assert [REPLACEMENT] + ([REPLACEMENT] + s[1..]) == "\U{FFFD}\U{FFFD}";
    CutKeepsLength(FACE, 1, Bytes);
  }

  /** A block of 3 units whose first is known, and whose branch is not: unit 1 is lost. */
  lemma RangeTooShort()
    ensures var rest := Tail(Span(ID(7, 0), 3, None, None), 1);
      IdsOf(rest) == {ID(7, 1), ID(7, 2)} && IdsOf(GcRange(rest.id, rest.len, 1)) == {ID(7, 2)}
  {
    var rest := Tail(Span(ID(7, 0), 3, None, None), 1);
    var gc := GcRange(rest.id, rest.len, 1);
    assert rest.IdAt(0) == ID(7, 1) && rest.IdAt(1) == ID(7, 2) && gc.IdAt(0) == ID(7, 2);
    assert rest.len == 2 && gc.len == 1;
    forall id | id in IdsOf(rest) ensures id == ID(7, 1) || id == ID(7, 2) { }
    forall id | id in IdsOf(gc) ensures id == ID(7, 2) { }
  }

  /** With 2 of the 3 known, the length goes below zero, and wraps around. */
  lemma RangeTooLong()
    ensures var rest := Tail(Span(ID(7, 0), 3, None, None), 2);
      rest.len == 1 && GcRange(rest.id, rest.len, 2).len == 0xFFFF_FFFF
  {
  }

  /** A branch that holds one number. */
  method OneNumber() returns (b: Branch)
    ensures fresh(b) && fresh(b.items) && b.Valid() && b.Counted(Utf16) && b.contentLen == 1 && |b.Chain(None)| == 1
    ensures b.Chain(None)[0].Weight(Utf16) == 1 && b.start != null
  {
    hide Branch.Valid, Branch.Counted, Linked, EntriesOk, Item.Weight;
    b := new Branch(null);
    NewIsValid(b);
    var x := new Item(ID(7, 0), null, None, null, None, b, None, AnyItems([Null]));
    b.Attach(x, -1);
    assert b.Chain(None) == [x];
    b.Neighbours(None, 0);
    b.StartIsFirst();
    b.blockLen, b.contentLen := 1, 1;
    CountsOne(b, x);
  }

  lemma CountsOne(b: Branch, x: Item)
    requires b.Chain(None) == [x] && b.blockLen == b.contentLen == 1 && b.lost == 0
    requires x.len == 1 && !x.deleted && x.countable
    ensures b.Counted(Utf16) && x.Weight(Utf16) == 1
  {
    WeightsAre([x], Utf16, [1]);
    assert [1][1..] == [];
  }

  /** A step to the end and back: the index is that of the start, but the cursor is not there. */
  method BackFromEnd() returns (c: BlockIter)
    ensures c.index == 0 && c.reachedEnd && !c.Well(Utf16)
  {
    hide Branch.Valid, Linked, Offset, Total, Item.Weight, Branch.Totals;
    var b := OneNumber();
    c := new BlockIter(b);
    assert c.Well(Utf16);
    NoOffset(b.Chain(None), Utf16);
    OffsetNext(b.Chain(None), 0, Utf16);
    var ok := c.TryForward(1, Utf16, 0);
    ok := c.Backward(1, Utf16);
  }

  /** Two deleted entries of a key, joined: the key leads to the one that is gone, until `SquashLeft` mends it. */
  method JoinEntries() returns (b: Branch, ok: bool)
    ensures ok && !b.Valid() && b.Chained()
  {
    hide Branch.Valid, Linked, Put, EntriesOk, Branch.Chained, Branch.ChainOk;
    var a, o;
    b, a, o := TwoEntries();
    ok := TrySquash(a, o);
  }

  method TwoEntries() returns (b: Branch, a: Item, o: Item)
    ensures fresh(b) && fresh(b.items) && b.Valid() && a in b.items
    ensures b.Chain(Some("k")) == [a, o] && a.parent == o.parent == b && a.parentSub == o.parentSub == Some("k")
    ensures a.right == o && o.right == null && a.len == o.len == 1
    ensures DataOf(a) == Data(Span(ID(7, 0), 1, None, None), Deleted(1), true, None, false, false)
    ensures DataOf(o) == Data(Span(ID(7, 1), 1, Some(ID(7, 0)), None), Deleted(1), true, None, false, false)
  {
    hide Branch.Valid, Linked, EntriesOk;
    b := new Branch(null);
    NewIsValid(b);
    a := AddEntry(b, 0, null);
    o := AddEntry(b, 1, a);
    b.Neighbours(Some("k"), 0);
    b.Neighbours(Some("k"), 1);
  }

  /** A deleted entry of a key, after `left`. */
  method AddEntry(b: Branch, clock: nat, left: Item?) returns (x: Item)
    requires b.Valid() && if left == null then b.Chain(Some("k")) == [] else b.Chain(Some("k")) == [left]
    requires left != null ==> left.len > 0
    modifies b.items`left, b.items`right, b`start, b`entries, b`chains, b`items
    ensures b.Valid() && fresh(x) && b.items == old(b.items) + {x}
    ensures b.Chain(Some("k")) == if left == null then [x] else [left, x]
    ensures x.parent == b && x.parentSub == Some("k") && x.len == 1
    ensures var origin := if left == null then None else Some(left.LastId());
      DataOf(x) == Data(Span(ID(7, clock), 1, origin, None), Deleted(1), true, None, false, false)
  {
    hide Branch.Valid, Linked, EntriesOk;
    var origin := if left == null then None else Some(left.LastId());
    x := new Item(ID(7, clock), left, origin, null, None, b, Some("k"), Deleted(1));
    b.Attach(x, if left == null then -1 else 0);
    x.deleted := true;
  }

  lemma NewIsValid(b: Branch)
    requires b.start == null && b.entries == map[] && b.chains == map[None := []] && b.items == {}
    ensures b.Valid()
  {
  }

  /** An empty branch of an empty document. */
  method Nothing() returns (t: Transaction, b: Branch)
    ensures fresh(b) && fresh(b.items) && fresh(t) && fresh(t.blocks) && fresh(t.blocks.stored) && t.kind == Utf16
    ensures t.Holds(b) && b.Counted(Utf16) && b.Chain(None) == [] && b.contentLen == 0 && b.item == null
    ensures t.blocks.known == iset{}
  {
    hide Branch.Valid;
    b := new Branch(null);
    NewIsValid(b);
    var blocks := new BlockStore();
    t := new Transaction(blocks, Utf16);
  }

  /** A number is appended: the cursor is left at the block before it, here at none. */
  method AppendOne() returns (c: BlockIter, x: Item?)
    ensures x != null && c.index == 0 && !c.Well(Utf16)
  {
    hide Branch.Valid, BlockStore.Valid, BlockIter.Well, Visible, Seqs.IsInserted, Branch.Counted;
    var t, b := Nothing();
    c := new BlockIter(b);
    x := c.InsertContents(t, ID(7, 0), AnyItems([Null]));
  }

  /** Blocks 0 to 5 and 5 to 7, and the range from 2 to 7: the walk reaches the first, but not the second. */
  lemma RangeInside()
    ensures var cells := [GcCell(ID(7, 0), 5), GcCell(ID(7, 5), 2)];
      Tiles(cells, 7) && Reaches(cells, Range(2, 7), 0) && !Reaches(cells, Range(2, 7), 1)
  {
    var cells := [GcCell(ID(7, 0), 5), GcCell(ID(7, 5), 2)];
    assert Covers(cells[0], 2) && Ends(cells[0]) + 2 <= 7;
  }

  /** Two kept items of a collection: when one is no longer kept, nor is what holds the other. */
  method KeepOneOfTwo() returns (holder: Item, a: Item, b: Item, branch: Branch)
    ensures a.parent == b.parent == branch && branch.item == holder && !a.keep && b.keep && !holder.keep
    ensures !KeepClosed({holder, a, b}, {branch})
  {
    hide KeepClosed, KeptAlone, Holders;
    branch := new Branch(null);
    holder := Kept(0, null, Type(branch));
    branch.item := holder;
    a := Kept(1, branch, AnyItems([Null]));
    b := Kept(2, branch, AnyItems([Null]));
    TwoOfOne(holder, a, b, branch);
    Keep(a, false, {holder, a, b}, {branch});
  }

  method Kept(clock: nat, parent: Branch?, content: Content) returns (x: Item)
    ensures fresh(x) && x.parent == parent && x.content == content && x.keep
  {
    x := new Item(ID(7, clock), null, None, null, None, parent, None, content);
    x.keep := true;
  }

  lemma TwoOfOne(holder: Item, a: Item, b: Item, branch: Branch)
    requires a != b && a != holder && b != holder && a.parent == b.parent == branch && holder.parent == null
    requires branch.item == holder && holder.keep && a.keep && b.keep
    ensures KeepClosed({holder, a, b}, {branch}) && !KeptAlone(a, {holder, a, b}, {branch})
    ensures Holders(a, {holder, a, b}, {branch}) == {a, holder}
  {
    var items := {holder, a, b};
    assert Holders(holder, items - {a}, {branch}) == {holder};
  }

  /** The float 2^63 is taken for the greatest integer, which it is not. */
  lemma OneLess()
    ensures Value64(0x43E0_0000_0000_0000) == 9223372036854775808.0
    ensures AsI64(Float(0x43E0_0000_0000_0000)) == Some(MAX64)
    ensures MAX64 as real != 9223372036854775808.0
  {
    hide TwoTo, Pow2, AsI64;
    Powers();
    TwoToPow(63);
    AsI64Exact(0x43E0_0000_0000_0000, MAX64);
  }
}
