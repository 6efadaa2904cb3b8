/**
  The conflict resolution scan on a list of single insertions, and the invariant
  that it maintains.
 */
module Yata {
  import opened Ids

  // ----- positions

  ghost predicate Names(s: seq<Unit>, id: ID, k: int) {
    0 <= k < |s| && s[k].id == id
  }

  /** The position of the unit named `id`, or -1. */
  ghost function Find(s: seq<Unit>, id: ID): (k: int)
    ensures -1 <= k < |s|
    ensures k >= 0 ==> s[k].id == id
  {
    if exists k :: Names(s, id, k) then
      var k :| Names(s, id, k); k
    else -1
  }

  ghost predicate Has(s: seq<Unit>, o: Option<ID>) {
    o.Some? ==> Find(s, o.value) >= 0
  }

  /** Where a left origin stands; the left end of the list is position -1. */
  ghost function LeftPos(s: seq<Unit>, o: Option<ID>): (k: int)
    ensures -1 <= k < |s|
  {
    if o.Some? then Find(s, o.value) else -1
  }

  /** Where a right origin stands; the right end of the list is position |s|. */
  ghost function RightPos(s: seq<Unit>, r: Option<ID>): (k: int)
    ensures 0 <= k <= |s|
  {
    if r.Some? && Find(s, r.value) >= 0 then Find(s, r.value) else |s|
  }

  ghost function OriginAt(s: seq<Unit>, i: nat): int
    requires i < |s|
  {
    LeftPos(s, s[i].origin)
  }

  ghost function RightAt(s: seq<Unit>, i: nat): int
    requires i < |s|
  {
    RightPos(s, s[i].rightOrigin)
  }

  // ----- the scan

  /**
    One step of the scan: the new candidate position, or None to stop.  `lo` is where the
    origin of `x` stands, `c` the best position found so far and `j` the unit to look at.
    The units in (lo, j] are the ones the program calls "before origin", and those in
    (c, j] are the "conflicting" ones.
   */
  ghost function Step(s: seq<Unit>, x: Unit, lo: int, c: int, j: int): (r: Option<int>)
    requires -1 <= lo <= c < j < |s|
    ensures r.Some? ==> r.value == c || r.value == j
  {
    if s[j].origin == x.origin then
      if s[j].id.client < x.id.client then Some(j)
      else if s[j].rightOrigin == x.rightOrigin then None
      else Some(c)
    else if lo < OriginAt(s, j) <= j then
      if OriginAt(s, j) <= c then Some(j) else Some(c)
    else None
  }

  /** The position after which `x` goes: take steps until one stops or `x` has to be placed. */
  ghost function Scan(s: seq<Unit>, x: Unit, lo: int, c: int, j: int): (r: int)
    requires -1 <= lo <= c < j <= |s|
    ensures c <= r < |s|
    decreases |s| - j
  {
    if j == |s| || x.rightOrigin == Some(s[j].id) then c
    else
      var step := Step(s, x, lo, c, j);
      if step.None? then c else Scan(s, x, lo, step.value, j + 1)
  }

  ghost function Place(s: seq<Unit>, x: Unit): (c: int)
    ensures LeftPos(s, x.origin) <= c < |s|
  {
    var lo := LeftPos(s, x.origin);
    Scan(s, x, lo, lo, lo + 1)
  }

  function InsertAfter(s: seq<Unit>, c: int, x: Unit): (t: seq<Unit>)
    requires -1 <= c < |s|
    ensures |t| == |s| + 1
  {
    s[..c + 1] + [x] + s[c + 1..]
  }

  ghost function Integrate(s: seq<Unit>, x: Unit): (t: seq<Unit>)
  {
    InsertAfter(s, Place(s, x), x)
  }

  // ----- the invariant

  predicate Distinct(s: seq<Unit>) {
    forall i, j :: 0 <= i < j < |s| ==> s[i].id != s[j].id
  }

  /** Every unit stands strictly between its two origins, and both are in the list. */
  ghost predicate Bracketed(s: seq<Unit>, i: nat)
    requires i < |s|
  {
    && Has(s, s[i].origin) && Has(s, s[i].rightOrigin)
    && OriginAt(s, i) < i < RightAt(s, i)
    && (RightAt(s, i) < |s| ==> OriginAt(s, RightAt(s, i)) <= OriginAt(s, i))
  }

  /** The edge from `i` to its origin is not crossed by the edge of any `j` below it. */
  ghost predicate Uncrossed(s: seq<Unit>, j: nat, i: nat)
    requires j < |s| && i < |s|
  {
    OriginAt(s, i) < j < i ==> OriginAt(s, i) <= OriginAt(s, j)
  }

  /** Two units with one origin are in client order, unless the left one had to stop earlier. */
  ghost predicate SiblingOrder(s: seq<Unit>, j: nat, i: nat)
    requires j < |s| && i < |s|
  {
    j < i < RightAt(s, j) && s[j].origin == s[i].origin ==> s[j].id.client < s[i].id.client
  }

  ghost predicate Inv(s: seq<Unit>) {
    && Distinct(s)
    && (forall i :: 0 <= i < |s| ==> Bracketed(s, i))
    && (forall j, i :: 0 <= j < |s| && 0 <= i < |s| ==> Uncrossed(s, j, i))
    && (forall j, i :: 0 <= j < |s| && 0 <= i < |s| ==> SiblingOrder(s, j, i))
  }

  /** What the author of `x` saw, as far as the list `s` can tell. */
  ghost predicate Fits(s: seq<Unit>, x: Unit) {
    && Find(s, x.id) < 0
    && Has(s, x.origin) && Has(s, x.rightOrigin)
    && LeftPos(s, x.origin) < RightPos(s, x.rightOrigin)
    && (RightPos(s, x.rightOrigin) < |s| ==>
          OriginAt(s, RightPos(s, x.rightOrigin)) <= LeftPos(s, x.origin))
  }

  /** An earlier insertion by the same client after the same origin is out of the way. */
  ghost predicate Yields(s: seq<Unit>, x: Unit, c: int, i: nat)
    requires i < |s|
  {
    s[i].origin == x.origin && s[i].id.client == x.id.client ==>
      RightPos(s, x.rightOrigin) <= i || RightAt(s, i) <= c
  }

  // ----- lists and positions

  lemma FindSome(s: seq<Unit>, k: nat)
    requires k < |s|
    ensures 0 <= Find(s, s[k].id)
  {
    assert Names(s, s[k].id, k);
  }

  lemma FindIs(s: seq<Unit>, k: nat)
    requires Distinct(s) && k < |s|
    ensures Find(s, s[k].id) == k
  {
    FindSome(s, k);
  }

  function Shift(k: int, c: int): int {
    if k <= c then k else k + 1
  }

  function Unshift(k: int, c: int): int {
    if k <= c then k else k - 1
  }

  lemma Inserted(s: seq<Unit>, c: int, x: Unit, k: nat)
    requires -1 <= c < |s| && k <= |s|
    ensures InsertAfter(s, c, x)[k] == if k == c + 1 then x else s[Unshift(k, c)]
  {
  }

  lemma DistinctInserted(s: seq<Unit>, c: int, x: Unit)
    requires Distinct(s) && -1 <= c < |s| && Find(s, x.id) < 0
    ensures Distinct(InsertAfter(s, c, x))
  {
    var t := InsertAfter(s, c, x);
    forall i, j | 0 <= i < j < |t| ensures t[i].id != t[j].id {
      Inserted(s, c, x, i);
      Inserted(s, c, x, j);
      if i != c + 1 { FindSome(s, Unshift(i, c)); }
      if j != c + 1 { FindSome(s, Unshift(j, c)); }
    }
  }

  lemma FindInserted(s: seq<Unit>, c: int, x: Unit, id: ID)
    requires Distinct(s) && -1 <= c < |s| && Find(s, x.id) < 0
    ensures Find(InsertAfter(s, c, x), id) ==
            if id == x.id then c + 1 else if Find(s, id) < 0 then -1 else Shift(Find(s, id), c)
  {
    var t := InsertAfter(s, c, x);
    var k := Find(t, id);
    DistinctInserted(s, c, x);
    if k >= 0 {
      Inserted(s, c, x, k);
      if k != c + 1 { FindIs(s, Unshift(k, c)); }
    }
    if id == x.id {
      Inserted(s, c, x, c + 1);
      FindIs(t, c + 1);
    } else if Find(s, id) >= 0 {
      Inserted(s, c, x, Shift(Find(s, id), c));
      FindIs(t, Shift(Find(s, id), c));
    }
  }

  // ----- what the scan guarantees

  /** A unit in the scanned window that was not absorbed: below one, or a sibling that yields. */
  ghost predicate Passed(s: seq<Unit>, x: Unit, c: int, k: nat)
    requires k < |s|
  {
    c < OriginAt(s, k) || (s[k].origin == x.origin && x.id.client <= s[k].id.client)
  }

  /** A unit at or before the candidate: if it is a larger sibling, its right origin is too. */
  ghost predicate Absorbed(s: seq<Unit>, x: Unit, c: int, k: nat)
    requires k < |s|
  {
    s[k].origin == x.origin && x.id.client <= s[k].id.client ==> RightAt(s, k) <= c
  }

  /** The facts that hold while the scan looks at `j` with candidate `c`. */
  ghost predicate Scanned(s: seq<Unit>, x: Unit, lo: int, c: int, j: int)
    requires -1 <= lo <= c < j <= |s|
  {
    && (forall k {:trigger OriginAt(s, k)} :: lo < k < j ==> lo <= OriginAt(s, k))
    && (forall k :: c < k < j ==> Passed(s, x, c, k))
    && (forall k :: lo < k <= c ==> Absorbed(s, x, c, k))
  }

  /** Why the scan stopped at `e`. */
  ghost predicate Stopped(s: seq<Unit>, x: Unit, lo: int, e: int)
    requires -1 <= lo < e <= |s|
  {
    || e == RightPos(s, x.rightOrigin)
    || (e < |s| && s[e].origin == x.origin && x.id.client <= s[e].id.client
        && s[e].rightOrigin == x.rightOrigin)
    || (e < |s| && OriginAt(s, e) < lo)
  }

  lemma SameOrigin(s: seq<Unit>, x: Unit, k: nat)
    requires Inv(s) && Has(s, x.origin) && k < |s|
    ensures s[k].origin == x.origin <==> OriginAt(s, k) == LeftPos(s, x.origin)
  {
    assert Bracketed(s, k);
  }

  lemma AbsorbSmaller(s: seq<Unit>, x: Unit, lo: int, c: int, j: int)
    requires Inv(s) && Fits(s, x) && lo == LeftPos(s, x.origin)
    requires lo <= c < j < RightPos(s, x.rightOrigin) && Scanned(s, x, lo, c, j)
    requires s[j].origin == x.origin && s[j].id.client < x.id.client
    ensures Scanned(s, x, lo, j, j + 1)
  {
    forall k | lo < k <= j ensures Absorbed(s, x, j, k) {
      assert SiblingOrder(s, k, j);
    }
  }

  lemma AbsorbBelow(s: seq<Unit>, x: Unit, lo: int, c: int, j: int)
    requires Inv(s) && Fits(s, x) && lo == LeftPos(s, x.origin)
    requires lo <= c < j < RightPos(s, x.rightOrigin) && Scanned(s, x, lo, c, j)
    requires lo < OriginAt(s, j) <= c
    ensures Scanned(s, x, lo, j, j + 1)
  {
    forall k | lo < k <= j ensures Absorbed(s, x, j, k) {
      assert k <= c ==> Absorbed(s, x, c, k);
      assert Uncrossed(s, k, j);
    }
  }

  lemma PassOver(s: seq<Unit>, x: Unit, lo: int, c: int, j: int)
    requires lo <= c < j < |s| && -1 <= lo && Scanned(s, x, lo, c, j)
    requires lo <= OriginAt(s, j) && Passed(s, x, c, j)
    ensures Scanned(s, x, lo, c, j + 1)
  {
  }

  lemma StepFacts(s: seq<Unit>, x: Unit, lo: int, c: int, j: int)
    requires Inv(s) && Fits(s, x) && lo == LeftPos(s, x.origin)
    requires lo <= c < j < RightPos(s, x.rightOrigin) && Scanned(s, x, lo, c, j)
    ensures x.rightOrigin != Some(s[j].id)
    ensures Step(s, x, lo, c, j).None? ==> Stopped(s, x, lo, j)
    ensures Step(s, x, lo, c, j).Some? ==>
      lo <= Step(s, x, lo, c, j).value <= j && Scanned(s, x, lo, Step(s, x, lo, c, j).value, j + 1)
  {
    FindIs(s, j);
    SameOrigin(s, x, j);
    assert Bracketed(s, j);
    if s[j].origin == x.origin {
      if s[j].id.client < x.id.client {
        AbsorbSmaller(s, x, lo, c, j);
      } else {
        PassOver(s, x, lo, c, j);
      }
    } else if lo < OriginAt(s, j) {
      if OriginAt(s, j) <= c {
        AbsorbBelow(s, x, lo, c, j);
      } else {
        PassOver(s, x, lo, c, j);
      }
    }
  }

  lemma {:induction false} ScanFacts(s: seq<Unit>, x: Unit, lo: int, c: int, j: int) returns (e: int)
    requires Inv(s) && Fits(s, x) && lo == LeftPos(s, x.origin)
    requires lo <= c < j <= RightPos(s, x.rightOrigin) && Scanned(s, x, lo, c, j)
    ensures Scan(s, x, lo, c, j) < e <= RightPos(s, x.rightOrigin)
    ensures Scanned(s, x, lo, Scan(s, x, lo, c, j), e)
    ensures Stopped(s, x, lo, e)
    decreases |s| - j
  {
    hide Find, Inv, Fits, Scanned, Step;
    e := j;
    if j < RightPos(s, x.rightOrigin) {
      StepFacts(s, x, lo, c, j);
      if Step(s, x, lo, c, j).Some? {
        e := ScanFacts(s, x, lo, Step(s, x, lo, c, j).value, j + 1);
      }
    }
  }

  /** The scan goes on past unit `i`, with candidate `c`, and makes `v` the candidate. */
  ghost predicate GoesOn(s: seq<Unit>, x: Unit, lo: int, c: int, i: int, v: int) {
    && -1 <= lo <= c < i < |s|
    && x.rightOrigin != Some(s[i].id) && Step(s, x, lo, c, i) == Some(v)
  }

  /** The scan over units that it passes. */
  lemma {:induction false} PassRun(s: seq<Unit>, x: Unit, lo: int, c: int, j: int, n: int)
    requires -1 <= lo <= c < j <= n <= |s|
    requires forall i :: j <= i < n ==> GoesOn(s, x, lo, c, i, c)
    ensures Scan(s, x, lo, c, j) == Scan(s, x, lo, c, n)
    decreases n - j
  {
    if j < n {
      assert GoesOn(s, x, lo, c, j, c);
      PassRun(s, x, lo, c, j + 1, n);
    }
  }

  ghost predicate Absorbing(s: seq<Unit>, x: Unit, lo: int, i: int) {
    GoesOn(s, x, lo, i - 1, i, i)
  }

  /** The scan over units that it absorbs. */
  lemma {:induction false} AbsorbRun(s: seq<Unit>, x: Unit, lo: int, j: int, n: int)
    requires -1 <= lo < j <= n <= |s|
    requires forall i :: j <= i < n ==> Absorbing(s, x, lo, i)
    ensures Scan(s, x, lo, j - 1, j) == Scan(s, x, lo, n - 1, n)
    decreases n - j
  {
    if j < n {
      assert Absorbing(s, x, lo, j);
      AbsorbRun(s, x, lo, j + 1, n);
    }
  }

  // ----- integration keeps the invariant

  /** No edge that ends right of the new unit starts inside the skipped part. */
  lemma NoEdgeOver(s: seq<Unit>, x: Unit, c: int, e: int, i: nat)
    requires Inv(s) && Fits(s, x) && LeftPos(s, x.origin) <= c < e <= RightPos(s, x.rightOrigin)
    requires Scanned(s, x, LeftPos(s, x.origin), c, e) && Stopped(s, x, LeftPos(s, x.origin), e)
    requires c < i < |s| && OriginAt(s, i) <= c
    ensures OriginAt(s, i) <= LeftPos(s, x.origin)
  {
    if i < e {
      assert Passed(s, x, c, i);
      SameOrigin(s, x, i);
    } else {
      SameOrigin(s, x, e);
      if i > e { assert Uncrossed(s, e, i); }
    }
  }

  lemma SiblingsAfter(s: seq<Unit>, x: Unit, c: int, e: int, i: nat)
    requires Inv(s) && Fits(s, x) && LeftPos(s, x.origin) <= c < e <= RightPos(s, x.rightOrigin)
    requires Scanned(s, x, LeftPos(s, x.origin), c, e) && Stopped(s, x, LeftPos(s, x.origin), e)
    requires c < i < RightPos(s, x.rightOrigin) && s[i].origin == x.origin && Yields(s, x, c, i)
    ensures x.id.client < s[i].id.client
  {
    SameOrigin(s, x, i);
    assert Bracketed(s, i);
    assert i < e ==> Passed(s, x, c, i);
    if i > e {
      SameOrigin(s, x, e);
      assert SiblingOrder(s, e, i);
      assert Uncrossed(s, e, i);
    }
  }

  /** Where the origins of `t[k]` stand, in terms of the list before the insertion. */
  lemma EdgesInserted(s: seq<Unit>, c: int, x: Unit, k: nat)
    requires Inv(s) && Fits(s, x) && LeftPos(s, x.origin) <= c < RightPos(s, x.rightOrigin) && k <= |s|
    ensures var t := InsertAfter(s, c, x);
      && Has(t, t[k].origin) && Has(t, t[k].rightOrigin)
      && (k == c + 1 ==>
            t[k] == x && OriginAt(t, k) == LeftPos(s, x.origin)
            && RightAt(t, k) == RightPos(s, x.rightOrigin) + 1)
      && (k != c + 1 ==>
            && t[k] == s[Unshift(k, c)]
            && OriginAt(t, k) == Shift(OriginAt(s, Unshift(k, c)), c)
            && RightAt(t, k) == Shift(RightAt(s, Unshift(k, c)), c))
  {
    var t := InsertAfter(s, c, x);
    Inserted(s, c, x, k);
    if k != c + 1 { assert Bracketed(s, Unshift(k, c)); }
    if t[k].origin.Some? { FindInserted(s, c, x, t[k].origin.value); }
    if t[k].rightOrigin.Some? { FindInserted(s, c, x, t[k].rightOrigin.value); }
  }

  lemma BracketedInserted(s: seq<Unit>, c: int, x: Unit, i: nat)
    requires Inv(s) && Fits(s, x) && LeftPos(s, x.origin) <= c < RightPos(s, x.rightOrigin)
    requires i <= |s|
    ensures Bracketed(InsertAfter(s, c, x), i)
  {
    hide Find, LeftPos, RightPos, OriginAt, RightAt, Has, InsertAfter;
    var t := InsertAfter(s, c, x);
    EdgesInserted(s, c, x, i);
    var r := RightAt(t, i);
    if i == c + 1 {
      if r < |t| { EdgesInserted(s, c, x, r); }
    } else {
      assert Bracketed(s, Unshift(i, c));
      if r < |t| {
        assert r != c + 1;
        EdgesInserted(s, c, x, r);
      }
    }
  }

  lemma UncrossedInserted(s: seq<Unit>, x: Unit, c: int, e: int, j: nat, i: nat)
    requires Inv(s) && Fits(s, x) && LeftPos(s, x.origin) <= c < e <= RightPos(s, x.rightOrigin)
    requires Scanned(s, x, LeftPos(s, x.origin), c, e) && Stopped(s, x, LeftPos(s, x.origin), e)
    requires j <= |s| && i <= |s|
    ensures Uncrossed(InsertAfter(s, c, x), j, i)
  {
    hide Find, LeftPos, RightPos, OriginAt, RightAt, Has, InsertAfter, Stopped, Passed, Absorbed;
    EdgesInserted(s, c, x, i);
    EdgesInserted(s, c, x, j);
    if i != c + 1 && j != c + 1 {
      assert Uncrossed(s, Unshift(j, c), Unshift(i, c));
    } else if j == c + 1 && j < i && OriginAt(InsertAfter(s, c, x), i) < j {
      NoEdgeOver(s, x, c, e, i - 1);
    }
  }

  lemma SiblingsInserted(s: seq<Unit>, x: Unit, c: int, e: int, j: nat, i: nat)
    requires Inv(s) && Fits(s, x) && LeftPos(s, x.origin) <= c < e <= RightPos(s, x.rightOrigin)
    requires Scanned(s, x, LeftPos(s, x.origin), c, e) && Stopped(s, x, LeftPos(s, x.origin), e)
    requires forall i :: 0 <= i < |s| ==> Yields(s, x, c, i)
    requires j <= |s| && i <= |s|
    ensures SiblingOrder(InsertAfter(s, c, x), j, i)
  {
    hide Find, LeftPos, RightPos, OriginAt, RightAt, Has, InsertAfter, Stopped, Passed;
    var t := InsertAfter(s, c, x);
    EdgesInserted(s, c, x, i);
    EdgesInserted(s, c, x, j);
    if j < i < RightAt(t, j) && t[j].origin == t[i].origin {
      if i == c + 1 {
        SameOrigin(s, x, j);
        assert Bracketed(s, j);
        assert Absorbed(s, x, c, j);
      } else if j == c + 1 {
        SiblingsAfter(s, x, c, e, i - 1);
      } else {
        assert SiblingOrder(s, Unshift(j, c), Unshift(i, c));
      }
    }
  }

  lemma InsertKeepsInv(s: seq<Unit>, x: Unit, c: int, e: int)
    requires Inv(s) && Fits(s, x) && LeftPos(s, x.origin) <= c < e <= RightPos(s, x.rightOrigin)
    requires Scanned(s, x, LeftPos(s, x.origin), c, e) && Stopped(s, x, LeftPos(s, x.origin), e)
    requires forall i :: 0 <= i < |s| ==> Yields(s, x, c, i)
    ensures Inv(InsertAfter(s, c, x))
  {
    var t := InsertAfter(s, c, x);
    DistinctInserted(s, c, x);
    forall i | 0 <= i < |t| ensures Bracketed(t, i) {
      BracketedInserted(s, c, x, i);
    }
    forall j, i | 0 <= j < |t| && 0 <= i < |t| ensures Uncrossed(t, j, i) {
      UncrossedInserted(s, x, c, e, j, i);
    }
    forall j, i | 0 <= j < |t| && 0 <= i < |t| ensures SiblingOrder(t, j, i) {
      SiblingsInserted(s, x, c, e, j, i);
    }
  }

  lemma IntegrateKeepsInv(s: seq<Unit>, x: Unit)
    requires Inv(s) && Fits(s, x)
    requires forall i :: 0 <= i < |s| ==> Yields(s, x, Place(s, x), i)
    ensures Inv(Integrate(s, x))
    ensures LeftPos(s, x.origin) <= Place(s, x) < RightPos(s, x.rightOrigin)
  {
    var lo := LeftPos(s, x.origin);
    var e := ScanFacts(s, x, lo, lo, lo + 1);
    InsertKeepsInv(s, x, Place(s, x), e);
  }

  // ----- integrating several units

  ghost function IntegrateAll(s: seq<Unit>, us: seq<Unit>): (t: seq<Unit>)
    ensures |t| == |s| + |us|
    decreases |us|
  {
    if us == [] then s else IntegrateAll(Integrate(s, us[0]), us[1..])
  }

  lemma IntegrateNone(s: seq<Unit>)
    ensures IntegrateAll(s, []) == s
  {
  }

  lemma IntegrateFirst(s: seq<Unit>, us: seq<Unit>)
    requires us != []
    ensures IntegrateAll(s, us) == IntegrateAll(Integrate(s, us[0]), us[1..])
  {
  }

  lemma {:induction false} IntegrateConcat(s: seq<Unit>, us: seq<Unit>, vs: seq<Unit>)
    ensures IntegrateAll(s, us + vs) == IntegrateAll(IntegrateAll(s, us), vs)
    decreases |us|
  {
    hide Integrate;
    if us == [] {
      assert us + vs == vs;
    } else {
      IntegrateConcat(Integrate(s, us[0]), us[1..], vs);
      assert (us + vs)[1..] == us[1..] + vs;
    }
  }

  lemma IntegrateSnoc(s: seq<Unit>, us: seq<Unit>, u: Unit)
    ensures IntegrateAll(s, us + [u]) == Integrate(IntegrateAll(s, us), u)
  {
    IntegrateConcat(s, us, [u]);
    var t := IntegrateAll(s, us);
    assert IntegrateAll(t, [u]) == IntegrateAll(Integrate(t, u), [u][1..]);
  }
}
