/**
  Integrating a block is integrating its units one after the other, over a list that itself
  is held in blocks; and cutting blocks, before or while doing so, changes nothing.
 */
module BlockIntegration {
  import opened Ids
  import opened Seqs
  import opened Yata
  import opened Spans
  import opened Convergence

  ghost predicate Fresh(s: seq<Unit>, x: Span) {
    forall k {:trigger x.IdAt(k)} :: 0 <= k < x.len ==> Find(s, x.IdAt(k)) < 0
  }

  // ----- the first unit

  lemma {:induction false} BlockOfLast(bs: seq<Span>, j: nat)
    requires NonEmpty(bs) && Distinct(Expand(bs)) && j < |bs|
    ensures BlockOf(bs, bs[j].LastId()) == j && Find(Expand(bs), bs[j].LastId()) == Last(bs, j)
  {
    hide Expand;
    var id := bs[j].LastId();
    assert IsBlockOf(bs, id, j);
    BlockOfUnit(bs, id);
    ExpandAt(bs, j, bs[j].len - 1);
    FindIs(Expand(bs), Last(bs, j));
    var i := BlockOf(bs, id);
    if i < j { OffRises(bs, i, j); }
    if j < i { OffRises(bs, j, i); }
  }

  lemma LeftAligned(bs: seq<Span>, x: Span)
    requires NonEmpty(bs) && Distinct(Expand(bs)) && Aligned(bs, x)
    ensures Last(bs, LeftBlock(bs, x)) == LeftPos(Expand(bs), x.origin)
  {
    if x.origin.Some? {
      var j :| 0 <= j < |bs| && bs[j].len > 0 && bs[j].LastId() == x.origin.value;
      BlockOfLast(bs, j);
    }
  }

  lemma HeadPlace(bs: seq<Span>, x: Span)
    requires NonEmpty(bs) && Inv(Expand(bs)) && Aligned(bs, x)
    ensures Place(Expand(bs), x.UnitAt(0)) == Last(bs, BlockPlace(bs, x))
  {
    LeftAligned(bs, x);
    var lo := LeftBlock(bs, x);
    OffInside(bs, lo + 1);
    BlockScanRefines(bs, x, lo, lo, lo + 1);
  }

  // ----- the other units

  /** `s` with the first `k` units of `x` after position `p`. */
  function Partial(s: seq<Unit>, p: int, x: Span, k: nat): seq<Unit>
    requires -1 <= p < |s| && k <= x.len
  {
    s[..p + 1] + Units(x)[..k] + s[p + 1..]
  }

  lemma PartialFind(s: seq<Unit>, p: int, x: Span, k: nat, m: nat)
    requires Distinct(s) && Fresh(s, x) && -1 <= p < |s| && m < k <= x.len
    ensures Find(Partial(s, p, x, k), x.IdAt(m)) == p + 1 + m
  {
    var t := Partial(s, p, x, k);
    assert t[p + 1 + m].id == x.IdAt(m);
    FindSome(t, p + 1 + m);
    var i := Find(t, x.IdAt(m));
    if i <= p { FindIs(s, i); }
    if p + k < i {
      assert t[i] == s[i - k];
      FindIs(s, i - k);
    }
  }

  /** The k-th unit goes right after the one before it: the scan stops at once. */
  lemma NextPlace(s: seq<Unit>, p: int, x: Span, k: nat)
    requires Inv(s) && Fresh(s, x) && -1 <= p < |s| && 0 < k < x.len
    ensures Place(Partial(s, p, x, k), x.UnitAt(k)) == p + k
  {
    var t, u, j := Partial(s, p, x, k), x.UnitAt(k), p + k + 1;
    PartialFind(s, p, x, k, k - 1);
    if j < |t| {
      assert t[j] == s[p + 1];
      assert Bracketed(s, p + 1);
      assert x.IdAt(k - 1) == u.origin.value;
      var o := OriginAt(t, j);
      assert !(p + k < o <= j);
    }
  }

  lemma PartialNext(s: seq<Unit>, p: int, x: Span, k: nat)
    requires -1 <= p < |s| && k < x.len
    ensures InsertAfter(Partial(s, p, x, k), p + k, x.UnitAt(k)) == Partial(s, p, x, k + 1)
  {
  }

  lemma {:induction false} UnitsFollow(s: seq<Unit>, p: int, x: Span, k: nat)
    requires Inv(s) && Fresh(s, x) && -1 <= p < |s| && 0 < k <= x.len
    ensures IntegrateAll(Partial(s, p, x, k), Units(x)[k..]) == Partial(s, p, x, x.len)
    decreases x.len - k
  {
    hide Scan, Place, InsertAfter, IntegrateAll, Inv, Fresh;
    if k < x.len {
      var t, us := Partial(s, p, x, k), Units(x)[k..];
      assert us[0] == x.UnitAt(k) && us[1..] == Units(x)[k + 1..];
      NextPlace(s, p, x, k);
      PartialNext(s, p, x, k);
      IntegrateFirst(t, us);
      UnitsFollow(s, p, x, k + 1);
    } else {
      assert Units(x)[k..] == [];
      IntegrateNone(Partial(s, p, x, k));
    }
  }

  lemma ExpandPut(bs: seq<Span>, c: int, x: Span)
    requires -1 <= c < |bs|
    ensures Last(bs, c) < |Expand(bs)|
    ensures Expand(PutAfter(bs, c, x)) == Partial(Expand(bs), Last(bs, c), x, x.len)
  {
    ExpandPrefix(bs, c + 1);
    ExpandConcat(bs[..c + 1] + [x], bs[c + 1..]);
    ExpandConcat(bs[..c + 1], [x]);
    ExpandOne(x);
  }

  lemma FirstPut(s: seq<Unit>, p: int, x: Span)
    requires -1 <= p < |s| && x.len > 0 && Place(s, x.UnitAt(0)) == p
    ensures Integrate(s, Units(x)[0]) == Partial(s, p, x, 1)
  {
    hide Scan;
    PartialNext(s, p, x, 0);
    assert Partial(s, p, x, 0) == s;
  }

  lemma UnitsPut(s: seq<Unit>, p: int, x: Span)
    requires Inv(s) && Fresh(s, x) && -1 <= p < |s| && x.len > 0 && Place(s, x.UnitAt(0)) == p
    ensures IntegrateAll(s, Units(x)) == Partial(s, p, x, x.len)
  {
    hide IntegrateAll, Place;
    IntegrateFirst(s, Units(x));
    FirstPut(s, p, x);
    UnitsFollow(s, p, x, 1);
  }

  /** Integrating a block over blocks is integrating its units over units. */
  lemma BlockIsUnits(bs: seq<Span>, x: Span)
    requires NonEmpty(bs) && Inv(Expand(bs)) && Aligned(bs, x) && x.len > 0 && Fresh(Expand(bs), x)
    ensures Expand(BlockIntegrate(bs, x)) == IntegrateAll(Expand(bs), Units(x))
  {
    var c := BlockPlace(bs, x);
    HeadPlace(bs, x);
    ExpandPut(bs, c, x);
    UnitsPut(Expand(bs), Last(bs, c), x);
  }

  // ----- cutting blocks

  /** The two blocks that a block is cut into. */
  function CutLeft(b: Span, k: nat): Span
    requires 0 < k < b.len
  {
    Span(b.id, k, b.origin, b.rightOrigin)
  }

  function CutRight(b: Span, k: nat): Span
    requires 0 < k < b.len
  {
    Span(b.IdAt(k), b.len - k, Some(b.IdAt(k - 1)), b.rightOrigin)
  }

  function Cut(bs: seq<Span>, j: nat, k: nat): (r: seq<Span>)
    requires j < |bs| && 0 < k < bs[j].len
    ensures NonEmpty(bs) ==> NonEmpty(r)
  {
    bs[..j] + [CutLeft(bs[j], k), CutRight(bs[j], k)] + bs[j + 1..]
  }

  /** The part of a block that is left when its first `k` units are already known. */
  lemma TrimmedUnits(b: Span, k: nat)
    requires 0 < k < b.len
    ensures Units(b) == Units(CutLeft(b, k)) + Units(CutRight(b, k))
    ensures Units(CutRight(b, k)) == Units(b)[k..]
  {
  }

  lemma CutKeepsUnits(bs: seq<Span>, j: nat, k: nat)
    requires j < |bs| && 0 < k < bs[j].len
    ensures Expand(Cut(bs, j, k)) == Expand(bs)
  {
    hide Expand, Units;
    var b, l, r, before, after := bs[j], CutLeft(bs[j], k), CutRight(bs[j], k), bs[..j], bs[j + 1..];
    SplitAt(bs, j);
    HeadTail(bs[j..]);
    assert bs[j..][1..] == after;
    TrimmedUnits(b, k);
    assert Cut(bs, j, k) == before + ([l] + ([r] + after));
    ExpandConcat(before, [b] + after);
    ExpandConcat(before, [l] + ([r] + after));
    ExpandCons(b, after);
    ExpandCons(l, [r] + after);
    ExpandCons(r, after);
    Assoc(Units(l), Units(r), Expand(after));
  }

  /** The blocks after a cut that makes `id` the last one of its block, or the first. */
  ghost function CleanEnd(bs: seq<Span>, id: ID): (r: seq<Span>)
    ensures NonEmpty(bs) ==> NonEmpty(r)
  {
    var j := BlockOf(bs, id);
    if j < 0 || id == bs[j].LastId() then bs else Cut(bs, j, id.clock - bs[j].id.clock + 1)
  }

  ghost function CleanStart(bs: seq<Span>, id: ID): (r: seq<Span>)
    ensures NonEmpty(bs) ==> NonEmpty(r)
  {
    var j := BlockOf(bs, id);
    if j < 0 || id == bs[j].id then bs else Cut(bs, j, id.clock - bs[j].id.clock)
  }

  ghost predicate EndsBlock(bs: seq<Span>, id: ID) {
    exists j :: 0 <= j < |bs| && bs[j].len > 0 && bs[j].LastId() == id
  }

  ghost predicate StartsBlock(bs: seq<Span>, id: ID) {
    exists j :: 0 <= j < |bs| && bs[j].id == id
  }

  lemma CleanEndCuts(bs: seq<Span>, id: ID)
    requires NonEmpty(bs) && BlockOf(bs, id) >= 0
    ensures EndsBlock(CleanEnd(bs, id), id) && Expand(CleanEnd(bs, id)) == Expand(bs)
  {
    var j := BlockOf(bs, id);
    var k := id.clock - bs[j].id.clock + 1;
    if id == bs[j].LastId() {
      assert bs[j].len > 0;
    } else {
      CutKeepsUnits(bs, j, k);
      var r := Cut(bs, j, k);
      assert r[j] == CutLeft(bs[j], k);
      assert r[j].LastId() == id;
    }
  }

  lemma CleanStartCuts(bs: seq<Span>, id: ID)
    requires NonEmpty(bs) && BlockOf(bs, id) >= 0
    ensures StartsBlock(CleanStart(bs, id), id) && Expand(CleanStart(bs, id)) == Expand(bs)
  {
    var j := BlockOf(bs, id);
    var k := id.clock - bs[j].id.clock;
    if id == bs[j].id {
    } else {
      CutKeepsUnits(bs, j, k);
      assert Cut(bs, j, k)[j + 1] == CutRight(bs[j], k);
    }
  }

  /** A later cut keeps the boundaries that there are. */
  lemma CutKeepsEnds(bs: seq<Span>, j: nat, k: nat, id: ID)
    requires NonEmpty(bs) && j < |bs| && 0 < k < bs[j].len && EndsBlock(bs, id)
    ensures EndsBlock(Cut(bs, j, k), id)
  {
    var r := Cut(bs, j, k);
    var i :| 0 <= i < |bs| && bs[i].LastId() == id;
    if i < j { assert r[i] == bs[i]; }
    if i == j { assert r[j + 1] == CutRight(bs[j], k) && r[j + 1].LastId() == id; }
    if i > j { assert r[i + 1] == bs[i]; }
  }

  /** A cut loses no id. */
  lemma CleanEndKeeps(bs: seq<Span>, id: ID, other: ID)
    ensures BlockOf(bs, other) >= 0 ==> BlockOf(CleanEnd(bs, id), other) >= 0
  {
    var j, i := BlockOf(bs, id), BlockOf(bs, other);
    if i >= 0 && j >= 0 && id != bs[j].LastId() {
      var k := id.clock - bs[j].id.clock + 1;
      var r := Cut(bs, j, k);
      if i < j {
        assert IsBlockOf(r, other, i);
      } else if i > j {
        assert IsBlockOf(r, other, i + 1);
      } else {
        assert IsBlockOf(r, other, j) || IsBlockOf(r, other, j + 1);
      }
    }
  }

  /** What is done to the blocks before the scan. */
  ghost function Prepare(bs: seq<Span>, x: Span): (r: seq<Span>)
    ensures NonEmpty(bs) ==> NonEmpty(r)
  {
    var a := if x.origin.Some? then CleanEnd(bs, x.origin.value) else bs;
    if x.rightOrigin.Some? then CleanStart(a, x.rightOrigin.value) else a
  }

  lemma PrepareAligns(bs: seq<Span>, x: Span)
    requires NonEmpty(bs) && Distinct(Expand(bs))
    requires Has(Expand(bs), x.origin) && Has(Expand(bs), x.rightOrigin)
    ensures Aligned(Prepare(bs, x), x) && Expand(Prepare(bs, x)) == Expand(bs)
  {
    var a := bs;
    if x.origin.Some? {
      BlockOfUnit(bs, x.origin.value);
      CleanEndCuts(bs, x.origin.value);
      a := CleanEnd(bs, x.origin.value);
    }
    if x.rightOrigin.Some? {
      var r := x.rightOrigin.value;
      BlockOfUnit(a, r);
      CleanStartCuts(a, r);
      var j := BlockOf(a, r);
      if x.origin.Some? && r != a[j].id {
        CutKeepsEnds(a, j, r.clock - a[j].id.clock, x.origin.value);
      }
    }
  }

  // ----- a replica that holds its list in blocks

  lemma FirstPart(w: set<Op>, ops: seq<Op>, xs: seq<Op>)
    requires From(w, ops + xs) && Deliverable(ops + xs)
    ensures From(w, ops) && Deliverable(ops)
  {
    forall k | 0 <= k < |ops| ensures ops[k] in w && Ready(ops[..k], ops[k]) {
      assert ops[..k] == (ops + xs)[..k];
      assert (ops + xs)[k] == ops[k];
      assert Ready((ops + xs)[..k], (ops + xs)[k]);
    }
  }

  lemma NotKnownEarlier(all: seq<Op>, n: nat, k: nat)
    requires Deliverable(all) && n <= k < |all|
    ensures !Knows(all[..n], all[k].unit.id)
  {
    assert Ready(all[..k], all[k]);
    forall i | 0 <= i < n ensures all[..n][i].unit.id != all[k].unit.id {
      assert all[..n][i] == all[..k][i];
    }
  }

  /** The units of the next block are unknown, but its origins are not. */
  lemma NextBlock(ops: seq<Op>, xs: seq<Op>, s: seq<Unit>, x: Span)
    requires Deliverable(ops + xs) && Holds(s, ops)
    requires |xs| == x.len > 0 && forall k :: 0 <= k < x.len ==> xs[k].unit == x.UnitAt(k)
    ensures Fresh(s, x) && Has(s, x.origin) && Has(s, x.rightOrigin)
  {
    var all, n := ops + xs, |ops|;
    assert all[..n] == ops;
    forall k {:trigger x.IdAt(k)} | 0 <= k < x.len ensures Find(s, x.IdAt(k)) < 0 {
      NotKnownEarlier(all, n, n + k);
      assert all[n + k] == xs[k];
      NotHeld(ops, s, x.IdAt(k));
    }
    assert Ready(all[..n], all[n]);
    assert all[n].unit == x.UnitAt(0);
    KnownIsHeld(s, ops, x.origin);
    KnownIsHeld(s, ops, x.rightOrigin);
  }

  lemma ReceiveAligned(w: set<Op>, ops: seq<Op>, xs: seq<Op>, bs: seq<Span>, x: Span)
    requires World(w) && From(w, ops + xs) && Deliverable(ops + xs)
    requires |xs| == x.len > 0 && forall k :: 0 <= k < x.len ==> xs[k].unit == x.UnitAt(k)
    requires NonEmpty(bs) && Expand(bs) == Run(ops) && Aligned(bs, x)
    ensures NonEmpty(BlockIntegrate(bs, x)) && Expand(BlockIntegrate(bs, x)) == Run(ops + xs)
  {
    hide IntegrateAll, Expand, Aligned;
    FirstPart(w, ops, xs);
    RunIsGood(w, ops);
    NextBlock(ops, xs, Run(ops), x);
    BlockIsUnits(bs, x);
    assert UnitsOf(ops + xs) == UnitsOf(ops) + Units(x);
    IntegrateConcat([], UnitsOf(ops), Units(x));
  }

  /** A replica that holds its list in blocks and receives blocks holds the list of its units. */
  lemma ReceiveBlock(w: set<Op>, ops: seq<Op>, xs: seq<Op>, bs: seq<Span>, x: Span)
    requires World(w) && From(w, ops + xs) && Deliverable(ops + xs)
    requires |xs| == x.len > 0 && forall k :: 0 <= k < x.len ==> xs[k].unit == x.UnitAt(k)
    requires NonEmpty(bs) && Expand(bs) == Run(ops)
    ensures NonEmpty(BlockIntegrate(Prepare(bs, x), x))
    ensures Expand(BlockIntegrate(Prepare(bs, x), x)) == Run(ops + xs)
  {
    hide IntegrateAll, Expand, Prepare, Aligned, BlockIntegrate;
    FirstPart(w, ops, xs);
    RunIsGood(w, ops);
    NextBlock(ops, xs, Run(ops), x);
    PrepareAligns(bs, x);
    ReceiveAligned(w, ops, xs, Prepare(bs, x), x);
  }

  lemma CutKeepsStarts(bs: seq<Span>, j: nat, k: nat, id: ID)
    requires j < |bs| && 0 < k < bs[j].len && StartsBlock(bs, id)
    ensures StartsBlock(Cut(bs, j, k), id)
  {
    var r := Cut(bs, j, k);
    var i :| 0 <= i < |bs| && bs[i].id == id;
    if i < j { assert r[i] == bs[i]; }
    if i == j { assert r[j] == CutLeft(bs[j], k); }
    if i > j { assert r[i + 1] == bs[i]; }
  }

  lemma CleanEndKeepsStarts(bs: seq<Span>, id: ID, start: ID)
    requires NonEmpty(bs) && StartsBlock(bs, start)
    ensures StartsBlock(CleanEnd(bs, id), start)
  {
    var j := BlockOf(bs, id);
    if j >= 0 && id != bs[j].LastId() { CutKeepsStarts(bs, j, id.clock - bs[j].id.clock + 1, start); }
  }

  /** The first `n` units of a block are known already: exactly the others are added. */
  lemma ReceiveTail(w: set<Op>, ops: seq<Op>, xs: seq<Op>, bs: seq<Span>, x: Span, n: nat)
    requires World(w) && From(w, ops + xs) && Deliverable(ops + xs) && 0 < n < x.len
    requires |xs| == x.len - n && forall k :: 0 <= k < |xs| ==> xs[k].unit == x.UnitAt(n + k)
    requires Knows(ops, x.IdAt(n - 1))
    requires NonEmpty(bs) && Expand(bs) == Run(ops)
    ensures var r := BlockIntegrate(CleanEnd(Prepare(bs, x), x.IdAt(n - 1)), CutRight(x, n));
      NonEmpty(r) && Expand(r) == Run(ops + xs)
    ensures Run(ops + xs) == IntegrateAll(Run(ops), Units(x)[n..])
  {
    hide IntegrateAll, Expand, Prepare, BlockIntegrate;
    var y, a, id := CutRight(x, n), Prepare(bs, x), x.IdAt(n - 1);
    FirstPart(w, ops, xs);
    RunIsGood(w, ops);
    NextBlock(ops, xs, Run(ops), y);
    KnownIsHeld(Run(ops), ops, Some(id));
    PrepareTail(bs, x, n);
    assert UnitsOf(ops + xs) == UnitsOf(ops) + Units(x)[n..];
    IntegrateConcat([], UnitsOf(ops), Units(x)[n..]);
    ReceiveAligned(w, ops, xs, CleanEnd(a, id), y);
  }

  lemma PrepareTail(bs: seq<Span>, x: Span, n: nat)
    requires NonEmpty(bs) && Distinct(Expand(bs)) && 0 < n < x.len
    requires Find(Expand(bs), x.IdAt(n - 1)) >= 0 && Has(Expand(bs), x.rightOrigin)
    ensures var r := CleanEnd(Prepare(bs, x), x.IdAt(n - 1));
      NonEmpty(r) && Aligned(r, CutRight(x, n)) && Expand(r) == Expand(bs)
  {
    hide Expand, BlockOf, Prepare, CleanEnd;
    var a, id := Prepare(bs, x), x.IdAt(n - 1);
    PrepareStarts(bs, x);
    BlockOfUnit(a, id);
    CleanEndCuts(a, id);
    if x.rightOrigin.Some? { CleanEndKeepsStarts(a, id, x.rightOrigin.value); }
  }

  /** What `Prepare` does for the right origin does not depend on the left one. */
  lemma PrepareStarts(bs: seq<Span>, x: Span)
    requires NonEmpty(bs) && Distinct(Expand(bs)) && Has(Expand(bs), x.rightOrigin)
    ensures Expand(Prepare(bs, x)) == Expand(bs)
    ensures x.rightOrigin.Some? ==> StartsBlock(Prepare(bs, x), x.rightOrigin.value)
  {
    hide Expand, BlockOf;
    var a := if x.origin.Some? then CleanEnd(bs, x.origin.value) else bs;
    if x.origin.Some? && BlockOf(bs, x.origin.value) >= 0 { CleanEndCuts(bs, x.origin.value); }
    if x.rightOrigin.Some? {
      BlockOfUnit(a, x.rightOrigin.value);
      CleanStartCuts(a, x.rightOrigin.value);
    }
  }
}
