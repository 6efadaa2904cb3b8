/**
  Blocks of several insertions.  A list of blocks stands for the list of their units, and
  the scan over blocks places a block where the scan over units places its units.
 */
module Spans {
  import opened Ids
  import opened Seqs
  import opened Yata

  /** Where a block stands: `len` units with consecutive clocks, each typed after the one before. */
  datatype Span = Span(id: ID, len: nat, origin: Option<ID>, rightOrigin: Option<ID>) {

    function IdAt(k: nat): ID { ID(id.client, id.clock + k) }

    function LastId(): ID
      requires len > 0
    {
      IdAt(len - 1)
    }

    function UnitAt(k: nat): Unit {
      Unit(IdAt(k), if k == 0 then origin else Some(IdAt(k - 1)), rightOrigin)
    }

    predicate Contains(i: ID) {
      i.client == id.client && id.clock <= i.clock < id.clock + len
    }
  }

  function Units(b: Span): (s: seq<Unit>)
    ensures |s| == b.len
  {
    seq(b.len, k requires 0 <= k => b.UnitAt(k))
  }

  function Expand(bs: seq<Span>): seq<Unit> {
    if bs == [] then [] else Units(bs[0]) + Expand(bs[1..])
  }

  predicate NonEmpty(bs: seq<Span>) {
    forall j :: 0 <= j < |bs| ==> bs[j].len > 0
  }

  /** The position of the first unit of block `j`. */
  function Off(bs: seq<Span>, j: nat): nat
    requires j <= |bs|
  {
    if j == 0 then 0 else Off(bs, j - 1) + bs[j - 1].len
  }

  // ----- positions of blocks and of units

  lemma ExpandCons(b: Span, rest: seq<Span>)
    ensures Expand([b] + rest) == Units(b) + Expand(rest)
  {
    ConsTail(b, rest);
  }

  lemma ExpandNone()
    ensures Expand([]) == []
  {
  }

  lemma {:induction false} ExpandConcat(a: seq<Span>, b: seq<Span>)
    ensures Expand(a + b) == Expand(a) + Expand(b)
  {
    hide Expand, Units;
    if a == [] {
      ExpandNone();
      assert a + b == b;
    } else {
      var x, rest := a[0], a[1..];
      ExpandConcat(rest, b);
      HeadTail(a);
      ExpandCons(x, rest);
      ExpandCons(x, rest + b);
      Assoc([x], rest, b);
      Assoc(Units(x), Expand(rest), Expand(b));
    }
  }

  lemma ExpandOne(b: Span)
    ensures Expand([b]) == Units(b)
  {
    assert Expand([b][1..]) == [];
  }

  lemma {:induction false} ExpandPrefix(bs: seq<Span>, j: nat)
    requires j <= |bs|
    ensures |Expand(bs[..j])| == Off(bs, j)
    ensures Expand(bs) == Expand(bs[..j]) + Expand(bs[j..])
  {
    hide Units;
    if j > 0 {
      ExpandPrefix(bs, j - 1);
      TakeNext(bs, j - 1);
      ExpandConcat(bs[..j - 1], [bs[j - 1]]);
      ExpandOne(bs[j - 1]);
    }
    SplitAt(bs, j);
    ExpandConcat(bs[..j], bs[j..]);
  }

  lemma OffEnd(bs: seq<Span>)
    ensures Off(bs, |bs|) == |Expand(bs)|
  {
    ExpandPrefix(bs, |bs|);
    assert bs[..|bs|] == bs;
  }

  lemma OffInside(bs: seq<Span>, j: nat)
    requires j <= |bs|
    ensures Off(bs, j) <= |Expand(bs)|
  {
    ExpandPrefix(bs, j);
  }

  lemma ExpandAt(bs: seq<Span>, j: nat, k: nat)
    requires j < |bs| && k < bs[j].len
    ensures Off(bs, j) + k < |Expand(bs)|
    ensures Expand(bs)[Off(bs, j) + k] == bs[j].UnitAt(k)
  {
    ExpandPrefix(bs, j);
    assert bs[j..][0] == bs[j];
  }

  lemma {:induction false} OffRises(bs: seq<Span>, i: nat, j: nat)
    requires NonEmpty(bs) && i < j <= |bs|
    ensures Off(bs, i) + bs[i].len <= Off(bs, j)
  {
    if i < j - 1 { OffRises(bs, i, j - 1); }
  }

  /** The block of the i-th unit. */
  lemma {:induction false} BlockAt(bs: seq<Span>, i: nat, n: nat) returns (j: nat, k: nat)
    requires n <= |bs| && i < Off(bs, n)
    ensures j < n && k < bs[j].len && i == Off(bs, j) + k
  {
    if Off(bs, n - 1) <= i {
      j, k := n - 1, i - Off(bs, n - 1);
    } else {
      j, k := BlockAt(bs, i, n - 1);
    }
  }

  ghost predicate IsBlockOf(bs: seq<Span>, id: ID, j: int) {
    0 <= j < |bs| && bs[j].Contains(id)
  }

  /** The position of the block that contains `id`, or -1. */
  ghost function BlockOf(bs: seq<Span>, id: ID): (j: int)
    ensures -1 <= j < |bs|
  {
    if exists j :: IsBlockOf(bs, id, j) then
      var j :| IsBlockOf(bs, id, j); j
    else -1
  }

  lemma BlockOfUnit(bs: seq<Span>, id: ID)
    requires Distinct(Expand(bs)) && NonEmpty(bs)
    ensures BlockOf(bs, id) < 0 <==> Find(Expand(bs), id) < 0
    ensures BlockOf(bs, id) >= 0 ==>
      var j := BlockOf(bs, id); Off(bs, j) <= Find(Expand(bs), id) < Off(bs, j) + bs[j].len
  {
    var s, j, i := Expand(bs), BlockOf(bs, id), Find(Expand(bs), id);
    if i >= 0 {
      OffEnd(bs);
      var j0, k := BlockAt(bs, i, |bs|);
      ExpandAt(bs, j0, k);
      assert IsBlockOf(bs, id, j0);
    }
    if j >= 0 {
      var k := id.clock - bs[j].id.clock;
      ExpandAt(bs, j, k);
      FindIs(s, Off(bs, j) + k);
    }
  }

  // ----- the scan over blocks

  /** One step of the scan at block `j`, in terms of blocks. */
  ghost function BlockStep(bs: seq<Span>, x: Span, lo: int, c: int, j: int): (r: Option<int>)
    requires -1 <= lo <= c < j < |bs|
    ensures r.Some? ==> r.value == c || r.value == j
  {
    if bs[j].origin == x.origin then
      if bs[j].id.client < x.id.client then Some(j)
      else if bs[j].rightOrigin == x.rightOrigin then None
      else Some(c)
    else
      var o := if bs[j].origin.Some? then BlockOf(bs, bs[j].origin.value) else -1;
      if lo < o <= j then
        if o <= c then Some(j) else Some(c)
      else None
  }

  ghost function BlockScan(bs: seq<Span>, x: Span, lo: int, c: int, j: int): (r: int)
    requires -1 <= lo <= c < j <= |bs|
    ensures c <= r < |bs|
    decreases |bs| - j
  {
    if j == |bs| || x.rightOrigin == Some(bs[j].id) then c
    else
      var step := BlockStep(bs, x, lo, c, j);
      if step.None? then c else BlockScan(bs, x, lo, step.value, j + 1)
  }

  /** The block that ends with the origin of `x`. */
  ghost function LeftBlock(bs: seq<Span>, x: Span): (lo: int)
    ensures -1 <= lo < |bs|
  {
    if x.origin.Some? then BlockOf(bs, x.origin.value) else -1
  }

  ghost function BlockPlace(bs: seq<Span>, x: Span): (c: int)
    ensures LeftBlock(bs, x) <= c < |bs|
  {
    var lo := LeftBlock(bs, x);
    BlockScan(bs, x, lo, lo, lo + 1)
  }

  function PutAfter(bs: seq<Span>, c: int, x: Span): seq<Span>
    requires -1 <= c < |bs|
  {
    bs[..c + 1] + [x] + bs[c + 1..]
  }

  ghost function BlockIntegrate(bs: seq<Span>, x: Span): seq<Span> {
    PutAfter(bs, BlockPlace(bs, x), x)
  }

  /** Both origins of `x` are at block boundaries, as splitting the blocks first makes them. */
  ghost predicate Aligned(bs: seq<Span>, x: Span) {
    && (x.origin.Some? ==>
          exists j :: 0 <= j < |bs| && bs[j].len > 0 && bs[j].LastId() == x.origin.value)
    && (x.rightOrigin.Some? ==> exists j :: 0 <= j < |bs| && bs[j].id == x.rightOrigin.value)
  }

  // ----- it refines the scan over units

  /** The last unit at or before block `j`. */
  function Last(bs: seq<Span>, j: int): int
    requires -1 <= j < |bs|
  {
    Off(bs, j + 1) - 1
  }

  lemma LastLe(bs: seq<Span>, i: int, j: int, u: int)
    requires NonEmpty(bs) && -1 <= i < |bs| && 0 <= j < |bs|
    requires Off(bs, j) <= u < Off(bs, j) + bs[j].len
    ensures j <= i <==> u <= Last(bs, i)
  {
    if j < i { OffRises(bs, j, i + 1); }
    if i < j && i + 1 < j { OffRises(bs, i + 1, j); }
  }

  /** An inner unit of block `j` follows the unit before it. */
  lemma {:induction false} InnerStep(bs: seq<Span>, x: Span, lo: int, c: int, j: nat, k: nat)
    requires NonEmpty(bs) && Inv(Expand(bs)) && Aligned(bs, x)
    requires j < |bs| && 0 < k < bs[j].len && lo == LeftPos(Expand(bs), x.origin)
    requires lo < Off(bs, j) && lo <= c < Off(bs, j) + k
    requires c < Off(bs, j) || c == Off(bs, j) + k - 1
    ensures var i := Off(bs, j) + k;
      GoesOn(Expand(bs), x.UnitAt(0), lo, c, i, if c < Off(bs, j) then c else i)
  {
    hide Expand, Bracketed, Uncrossed, SiblingOrder;
    var s, i := Expand(bs), Off(bs, j) + k;
    ExpandAt(bs, j, k);
    ExpandAt(bs, j, k - 1);
    FindIs(s, i - 1);
    if x.rightOrigin.Some? {
      var m :| 0 <= m < |bs| && bs[m].id == x.rightOrigin.value;
      ExpandAt(bs, m, 0);
      if m < j { OffRises(bs, m, j); }
      if j < m { OffRises(bs, j, m); }
    }
  }

  /** The inner units of a block that was passed are passed. */
  lemma PassInner(bs: seq<Span>, x: Span, lo: int, c: int, j: nat)
    requires NonEmpty(bs) && Inv(Expand(bs)) && Aligned(bs, x)
    requires j < |bs| && -1 <= lo == LeftPos(Expand(bs), x.origin)
    requires lo <= c < Off(bs, j) && Off(bs, j + 1) <= |Expand(bs)|
    ensures forall i :: Off(bs, j) + 1 <= i < Off(bs, j + 1) ==>
      GoesOn(Expand(bs), x.UnitAt(0), lo, c, i, c)
  {
    var s, u, m := Expand(bs), x.UnitAt(0), Off(bs, j);
    forall i | m + 1 <= i < m + bs[j].len ensures GoesOn(s, u, lo, c, i, c) {
      InnerStep(bs, x, lo, c, j, i - m);
    }
  }

  /** The inner units of a block that was absorbed are absorbed. */
  lemma AbsorbInner(bs: seq<Span>, x: Span, lo: int, j: nat)
    requires NonEmpty(bs) && Inv(Expand(bs)) && Aligned(bs, x)
    requires j < |bs| && -1 <= lo == LeftPos(Expand(bs), x.origin)
    requires lo < Off(bs, j) && Off(bs, j + 1) <= |Expand(bs)|
    ensures forall i :: Off(bs, j) + 1 <= i < Off(bs, j + 1) ==> Absorbing(Expand(bs), x.UnitAt(0), lo, i)
  {
    var s, u, m := Expand(bs), x.UnitAt(0), Off(bs, j);
    forall i | m + 1 <= i < m + bs[j].len ensures Absorbing(s, u, lo, i) {
      InnerStep(bs, x, lo, i - 1, j, i - m);
    }
  }

  /** The step at a block is the step at its first unit. */
  lemma HeadStep(bs: seq<Span>, x: Span, lo: int, c: int, j: nat)
    requires NonEmpty(bs) && Inv(Expand(bs)) && -1 <= lo <= c < j < |bs|
    requires Last(bs, c) < Off(bs, j) < |Expand(bs)| && -1 <= Last(bs, lo) <= Last(bs, c)
    ensures Step(Expand(bs), x.UnitAt(0), Last(bs, lo), Last(bs, c), Off(bs, j)) ==
      match BlockStep(bs, x, lo, c, j)
      case None => None
      case Some(v) => Some(if v == c then Last(bs, c) else Off(bs, j))
  {
    hide Expand, SiblingOrder, Uncrossed, RightPos;
    var s, i := Expand(bs), Off(bs, j);
    ExpandAt(bs, j, 0);
    assert Bracketed(s, i);
    if bs[j].origin.Some? {
      BlockOfUnit(bs, bs[j].origin.value);
      var o, u := BlockOf(bs, bs[j].origin.value), OriginAt(s, i);
      if o >= 0 {
        LastLe(bs, lo, o, u);
        LastLe(bs, c, o, u);
        LastLe(bs, j, o, u);
      }
    }
  }

  /** A block whose head is passed is passed. */
  lemma PassBlock(bs: seq<Span>, x: Span, lo: int, c: int, j: nat)
    requires NonEmpty(bs) && Inv(Expand(bs)) && Aligned(bs, x)
    requires j < |bs| && -1 <= lo == LeftPos(Expand(bs), x.origin)
    requires Off(bs, j + 1) <= |Expand(bs)| && GoesOn(Expand(bs), x.UnitAt(0), lo, c, Off(bs, j), c)
    ensures Scan(Expand(bs), x.UnitAt(0), lo, c, Off(bs, j))
         == Scan(Expand(bs), x.UnitAt(0), lo, c, Off(bs, j + 1))
  {
    hide Inv, Aligned, Expand;
    PassInner(bs, x, lo, c, j);
    PassRun(Expand(bs), x.UnitAt(0), lo, c, Off(bs, j) + 1, Off(bs, j + 1));
  }

  /** A block whose head is absorbed is absorbed. */
  lemma AbsorbBlock(bs: seq<Span>, x: Span, lo: int, c: int, j: nat)
    requires NonEmpty(bs) && Inv(Expand(bs)) && Aligned(bs, x)
    requires j < |bs| && -1 <= lo == LeftPos(Expand(bs), x.origin)
    requires Off(bs, j + 1) <= |Expand(bs)|
    requires GoesOn(Expand(bs), x.UnitAt(0), lo, c, Off(bs, j), Off(bs, j))
    ensures Scan(Expand(bs), x.UnitAt(0), lo, c, Off(bs, j))
         == Scan(Expand(bs), x.UnitAt(0), lo, Last(bs, j), Off(bs, j + 1))
  {
    hide Inv, Aligned, Expand;
    AbsorbInner(bs, x, lo, j);
    AbsorbRun(Expand(bs), x.UnitAt(0), lo, Off(bs, j) + 1, Off(bs, j + 1));
  }

  /** One step over blocks is as many steps over units as the block is long. */
  lemma BlockStepRefines(bs: seq<Span>, x: Span, lo: int, c: int, j: nat)
    requires NonEmpty(bs) && Inv(Expand(bs)) && Aligned(bs, x)
    requires -1 <= lo <= c < j < |bs| && Last(bs, lo) == LeftPos(Expand(bs), x.origin)
    requires -1 <= Last(bs, lo) <= Last(bs, c) < Off(bs, j) && Off(bs, j + 1) <= |Expand(bs)|
    requires x.rightOrigin != Some(bs[j].id)
    ensures var s, u, step := Expand(bs), x.UnitAt(0), BlockStep(bs, x, lo, c, j);
      Scan(s, u, Last(bs, lo), Last(bs, c), Off(bs, j)) ==
        if step.None? then Last(bs, c)
        else Scan(s, u, Last(bs, lo), Last(bs, step.value), Off(bs, j + 1))
  {
    ExpandAt(bs, j, 0);
    HeadStep(bs, x, lo, c, j);
    var step := BlockStep(bs, x, lo, c, j);
    if step == Some(c) {
      PassBlock(bs, x, Last(bs, lo), Last(bs, c), j);
    } else if step.Some? {
      AbsorbBlock(bs, x, Last(bs, lo), Last(bs, c), j);
    }
  }

  /** The scan over blocks finds the place that the scan over units finds. */
  lemma {:induction false} BlockScanRefines(bs: seq<Span>, x: Span, lo: int, c: int, j: int)
    requires NonEmpty(bs) && Inv(Expand(bs)) && Aligned(bs, x)
    requires -1 <= lo <= c < j <= |bs| && Last(bs, lo) == LeftPos(Expand(bs), x.origin)
    requires Last(bs, lo) <= Last(bs, c) < Off(bs, j) <= |Expand(bs)|
    ensures Scan(Expand(bs), x.UnitAt(0), Last(bs, lo), Last(bs, c), Off(bs, j)) ==
            Last(bs, BlockScan(bs, x, lo, c, j))
    decreases |bs| - j
  {
    hide Inv, Aligned, Expand, Step, BlockStep;
    OffEnd(bs);
    if j < |bs| {
      ExpandAt(bs, j, 0);
      if x.rightOrigin != Some(bs[j].id) {
        OffInside(bs, j + 1);
        BlockStepRefines(bs, x, lo, c, j);
        var step := BlockStep(bs, x, lo, c, j);
        if step.Some? { BlockScanRefines(bs, x, lo, step.value, j + 1); }
      }
    }
  }
}
