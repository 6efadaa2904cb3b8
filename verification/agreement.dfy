/**
  The order of two insertions does not depend on what else a list holds: any two lists that
  satisfy the invariant agree on it, so the invariant determines the list.
 */
module Agreement {
  import opened Ids
  import opened Yata

  // ----- two lists that satisfy the invariant agree on what they share

  ghost predicate Before(s: seq<Unit>, a: ID, b: ID) {
    0 <= Find(s, a) < Find(s, b)
  }

  /** A name stands for the same insertion in both lists. */
  ghost predicate Consistent(s: seq<Unit>, t: seq<Unit>) {
    forall id {:trigger Find(s, id)} {:trigger Find(t, id)} ::
      Find(s, id) >= 0 && Find(t, id) >= 0 ==> s[Find(s, id)] == t[Find(t, id)]
  }

  ghost predicate RefsBelow(u: Unit, rank: ID -> nat) {
    && (u.origin.Some? ==> rank(u.origin.value) < rank(u.id))
    && (u.rightOrigin.Some? ==> rank(u.rightOrigin.value) < rank(u.id))
  }

  /** Origins were made before the units that name them. */
  ghost predicate Ranked(s: seq<Unit>, rank: ID -> nat) {
    forall i :: 0 <= i < |s| ==> RefsBelow(s[i], rank)
  }

  /** What is known about a unit that both lists hold. */
  lemma Shared(s: seq<Unit>, t: seq<Unit>, rank: ID -> nat, a: ID)
    requires Inv(s) && Inv(t) && Consistent(s, t) && Ranked(s, rank)
    requires Find(s, a) >= 0 && Find(t, a) >= 0
    ensures var i, k := Find(s, a), Find(t, a);
      && s[i] == t[k] && s[i].id == a && RefsBelow(s[i], rank)
      && Bracketed(s, i) && Bracketed(t, k)
  {
    assert Bracketed(s, Find(s, a));
    assert Bracketed(t, Find(t, a));
  }

  /** The sibling case of `Agree`. */
  lemma AgreeSiblings(s: seq<Unit>, t: seq<Unit>, rank: ID -> nat, a: ID, b: ID)
    requires Inv(s) && Inv(t) && Consistent(s, t) && Ranked(s, rank)
    requires Before(s, a, b) && Find(t, a) >= 0 && Find(t, b) >= 0
    requires s[Find(s, a)].origin == s[Find(s, b)].origin
    ensures Before(t, a, b)
    decreases rank(a) + rank(b), 0
  {
    Shared(s, t, rank, a);
    Shared(s, t, rank, b);
    if Before(t, b, a) {
      var u, v := s[Find(s, a)], s[Find(s, b)];
      assert SiblingOrder(s, Find(s, a), Find(s, b));
      assert SiblingOrder(t, Find(t, b), Find(t, a));
      if RightAt(s, Find(s, a)) <= Find(s, b) {
        if u.rightOrigin.value != b { Agree(s, t, rank, u.rightOrigin.value, b); }
      } else {
        if v.rightOrigin.value != a { Agree(s, t, rank, a, v.rightOrigin.value); }
      }
    }
  }

  /** Any two lists that satisfy the invariant order the units they share alike. */
  lemma {:induction false} Agree(s: seq<Unit>, t: seq<Unit>, rank: ID -> nat, a: ID, b: ID)
    requires Inv(s) && Inv(t) && Consistent(s, t) && Ranked(s, rank)
    requires Before(s, a, b) && Find(t, a) >= 0 && Find(t, b) >= 0
    ensures Before(t, a, b)
    decreases rank(a) + rank(b), 1
  {
    Shared(s, t, rank, a);
    Shared(s, t, rank, b);
    var i, j := Find(s, a), Find(s, b);
    var u, v := s[i], s[j];
    if u.origin == v.origin {
      AgreeSiblings(s, t, rank, a, b);
    } else if Before(t, b, a) {
      if i < OriginAt(s, j) {
        Agree(s, t, rank, a, v.origin.value);
      } else {
        assert Uncrossed(s, i, j);
        if Find(t, b) < OriginAt(t, Find(t, a)) {
          Agree(s, t, rank, u.origin.value, b);
        } else {
          assert Uncrossed(t, Find(t, b), Find(t, a));
          Agree(s, t, rank, v.origin.value, u.origin.value);
        }
      }
    }
  }

  // ----- and are equal when they hold the same units

  ghost predicate SameOrder(s: seq<Unit>, t: seq<Unit>) {
    forall i, j :: 0 <= i < j < |s| ==> 0 <= Find(t, s[i].id) < Find(t, s[j].id)
  }

  lemma {:induction false} NotEarlier(s: seq<Unit>, t: seq<Unit>, k: nat)
    requires SameOrder(s, t) && k < |s| && Find(t, s[k].id) >= 0
    ensures k <= Find(t, s[k].id)
  {
    if k > 0 {
      assert 0 <= Find(t, s[k - 1].id) < Find(t, s[k].id);
      NotEarlier(s, t, k - 1);
    }
  }

  lemma OrderKept(s: seq<Unit>, t: seq<Unit>, rank: ID -> nat)
    requires Inv(s) && Inv(t) && Consistent(s, t) && Ranked(s, rank)
    requires forall i :: 0 <= i < |s| ==> Find(t, s[i].id) >= 0
    ensures SameOrder(s, t)
  {
    forall i, j | 0 <= i < j < |s| ensures 0 <= Find(t, s[i].id) < Find(t, s[j].id) {
      FindIs(s, i);
      FindIs(s, j);
      Agree(s, t, rank, s[i].id, s[j].id);
    }
  }

  lemma SameLength(s: seq<Unit>, t: seq<Unit>)
    requires SameOrder(s, t) && forall i :: 0 <= i < |s| ==> Find(t, s[i].id) >= 0
    ensures |s| <= |t|
  {
    if s != [] { NotEarlier(s, t, |s| - 1); }
  }

  /** The invariant determines the list: it is a function of the set of units in it. */
  lemma SameUnits(s: seq<Unit>, t: seq<Unit>, rank: ID -> nat)
    requires Inv(s) && Inv(t) && Consistent(s, t) && Ranked(s, rank)
    requires forall i :: 0 <= i < |s| ==> Find(t, s[i].id) >= 0
    requires forall i :: 0 <= i < |t| ==> Find(s, t[i].id) >= 0
    ensures s == t
  {
    forall i | 0 <= i < |t| ensures RefsBelow(t[i], rank) {
      FindIs(t, i);
      Shared(s, t, rank, t[i].id);
    }
    OrderKept(s, t, rank);
    OrderKept(t, s, rank);
    SameLength(s, t);
    SameLength(t, s);
    forall k | 0 <= k < |s| ensures s[k] == t[k] {
      FindIs(s, k);
      NotEarlier(s, t, k);
      NotEarlier(t, s, Find(t, s[k].id));
    }
  }

  // ----- an insertion made in one list, received in another

  /** `o` and `r` are neighbours, where None stands for an end of the list. */
  ghost predicate Adjacent(s: seq<Unit>, o: Option<ID>, r: Option<ID>) {
    Has(s, o) && Has(s, r) && LeftPos(s, o) + 1 == RightPos(s, r)
  }

  /** `m` is a list that satisfies the invariant and does not contradict `s`. */
  ghost predicate View(m: seq<Unit>, s: seq<Unit>, rank: ID -> nat) {
    Inv(m) && Inv(s) && Consistent(m, s) && Ranked(m, rank)
  }

  /** A unit made between two neighbours of `m` fits wherever both of them are present. */
  lemma FitsElsewhere(s: seq<Unit>, m: seq<Unit>, rank: ID -> nat, x: Unit)
    requires View(m, s, rank) && Adjacent(m, x.origin, x.rightOrigin)
    requires Find(s, x.id) < 0 && Has(s, x.origin) && Has(s, x.rightOrigin)
    ensures Fits(s, x)
  {
    if x.rightOrigin.Some? {
      var r := x.rightOrigin.value;
      if x.origin.Some? { Agree(m, s, rank, x.origin.value, r); }
      Shared(m, s, rank, r);
      var o := m[Find(m, r)].origin;
      if o.Some? && x.origin != o { Agree(m, s, rank, o.value, x.origin.value); }
    }
  }

  /** A sibling that the scan leaves behind `x`, but before its right origin, is not smaller. */
  lemma SiblingNotSmaller(s: seq<Unit>, x: Unit, i: nat)
    requires Inv(s) && Fits(s, x)
    requires Place(s, x) < i < RightPos(s, x.rightOrigin) && s[i].origin == x.origin
    ensures x.id.client <= s[i].id.client
  {
    hide Step, Find;
    var lo, c := LeftPos(s, x.origin), Place(s, x);
    var e := ScanFacts(s, x, lo, lo, lo + 1);
    SameOrigin(s, x, i);
    assert Bracketed(s, i);
    assert i < e ==> Passed(s, x, c, i);
    if i > e {
      SameOrigin(s, x, e);
      assert SiblingOrder(s, e, i);
      assert Uncrossed(s, e, i);
    }
  }

  /** A unit between siblings, and no further from their origin than they are, is one too. */
  lemma SiblingBetween(m: seq<Unit>, x: Unit, y: ID)
    requires Inv(m) && Find(m, x.id) >= 0 && m[Find(m, x.id)] == x && Before(m, y, x.id)
    requires OriginAt(m, Find(m, y)) <= LeftPos(m, x.origin) < Find(m, y)
    ensures m[Find(m, y)].origin == x.origin
  {
    assert Bracketed(m, Find(m, x.id));
    assert Uncrossed(m, Find(m, y), Find(m, x.id));
    SameOrigin(m, x, Find(m, y));
  }

  /** A sibling that is not smaller, yet to the left, was put before some sibling in between. */
  lemma NextSibling(m: seq<Unit>, x: Unit, z: ID) returns (y: ID)
    requires Inv(m) && Find(m, x.id) >= 0 && m[Find(m, x.id)] == x && Before(m, z, x.id)
    requires m[Find(m, z)].origin == x.origin && x.id.client <= m[Find(m, z)].id.client
    ensures m[Find(m, z)].rightOrigin == Some(y) && Find(m, z) < Find(m, y) <= Find(m, x.id)
    ensures y != x.id ==> m[Find(m, y)].origin == x.origin
  {
    assert SiblingOrder(m, Find(m, z), Find(m, x.id));
    assert Bracketed(m, Find(m, z));
    y := m[Find(m, z)].rightOrigin.value;
    if y != x.id { SiblingBetween(m, x, y); }
  }

  /**
    If some list shows `z` before `x`, and they share an origin, then the scan places `x`
    after `z`, whatever else the scanned list holds.
   */
  lemma {:induction false} PlacedAfter(s: seq<Unit>, m: seq<Unit>, rank: ID -> nat, x: Unit, z: ID)
    requires View(m, s, rank) && Fits(s, x)
    requires Find(m, x.id) >= 0 && m[Find(m, x.id)] == x
    requires Before(m, z, x.id) && Find(s, z) >= 0 && m[Find(m, z)].origin == x.origin
    ensures Find(s, z) <= Place(s, x)
    decreases |m| - Find(m, z)
  {
    hide Consistent, Ranked, Scan, Find, Uncrossed, SiblingOrder;
    var k := Find(s, z);
    Shared(m, s, rank, z);
    assert Bracketed(m, Find(m, x.id));
    if Place(s, x) < k {
      if x.rightOrigin.Some? { Agree(m, s, rank, z, x.rightOrigin.value); }
      SiblingNotSmaller(s, x, k);
      var y := NextSibling(m, x, z);
      PlacedAfter(s, m, rank, x, y);
    }
  }

  /** The author of `x` saw `y`, inserted after the same neighbour: `y` is further right. */
  lemma EarlierSibling(s: seq<Unit>, m: seq<Unit>, rank: ID -> nat, x: Unit, y: Unit)
    requires View(m, s, rank) && Adjacent(m, x.origin, x.rightOrigin) && Has(s, x.rightOrigin)
    requires Find(m, y.id) >= 0 && m[Find(m, y.id)] == y && Find(s, y.id) >= 0
    requires x.origin == y.origin
    ensures RightPos(s, x.rightOrigin) <= Find(s, y.id)
  {
    assert Bracketed(m, Find(m, y.id));
    var r := x.rightOrigin.value;
    if r != y.id { Agree(m, s, rank, r, y.id); }
  }

  /** The author of `y` saw `x`: then `x` goes to the right of what `y` was put before. */
  lemma LaterSibling(s: seq<Unit>, m: seq<Unit>, rank: ID -> nat, x: Unit, y: Unit)
    requires View(m, s, rank) && Adjacent(m, y.origin, y.rightOrigin) && Has(s, y.rightOrigin)
    requires Fits(s, x) && Find(m, x.id) >= 0 && m[Find(m, x.id)] == x
    requires x.origin == y.origin
    ensures RightPos(s, y.rightOrigin) <= Place(s, x)
  {
    assert Bracketed(m, Find(m, x.id));
    var z := y.rightOrigin.value;
    assert Bracketed(m, Find(m, z));
    SiblingBetween(m, x, z);
    PlacedAfter(s, m, rank, x, z);
  }

  // ----- the place that the scan finds is the only one

  lemma HeldAfterInsert(s: seq<Unit>, x: Unit, c: int, d: int, i: nat)
    requires Distinct(s) && Find(s, x.id) < 0 && -1 <= c < |s| && -1 <= d < |s| && i <= |s|
    ensures Find(InsertAfter(s, d, x), InsertAfter(s, c, x)[i].id) >= 0
  {
    Inserted(s, c, x, i);
    if i != c + 1 { FindIs(s, Unshift(i, c)); }
    FindInserted(s, d, x, InsertAfter(s, c, x)[i].id);
  }

  lemma ConsistentInserted(s: seq<Unit>, x: Unit, c: int, d: int)
    requires Distinct(s) && Find(s, x.id) < 0 && -1 <= c < |s| && -1 <= d < |s|
    ensures Consistent(InsertAfter(s, c, x), InsertAfter(s, d, x))
  {
    hide Find;
    forall id ensures Find(InsertAfter(s, c, x), id) >= 0 && Find(InsertAfter(s, d, x), id) >= 0 ==>
      InsertAfter(s, c, x)[Find(InsertAfter(s, c, x), id)] == InsertAfter(s, d, x)[Find(InsertAfter(s, d, x), id)]
    {
      FindInserted(s, c, x, id);
      FindInserted(s, d, x, id);
      if id == x.id || Find(s, id) >= 0 {
        Inserted(s, c, x, Find(InsertAfter(s, c, x), id));
        Inserted(s, d, x, Find(InsertAfter(s, d, x), id));
      }
    }
  }

  /** There is no other position at which inserting `x` would keep the invariant. */
  lemma OnlyPlace(s: seq<Unit>, x: Unit, rank: ID -> nat, c: int)
    requires Inv(s) && Fits(s, x) && Ranked(s, rank) && RefsBelow(x, rank)
    requires forall i :: 0 <= i < |s| ==> Yields(s, x, Place(s, x), i)
    requires -1 <= c < |s| && Inv(InsertAfter(s, c, x))
    ensures c == Place(s, x)
  {
    hide Place, Find, Yields;
    var d := Place(s, x);
    IntegrateKeepsInv(s, x);
    var t, u := InsertAfter(s, c, x), InsertAfter(s, d, x);
    forall i | 0 <= i < |t| ensures RefsBelow(t[i], rank) && Find(u, t[i].id) >= 0 {
      Inserted(s, c, x, i);
      HeldAfterInsert(s, x, c, d, i);
    }
    forall i | 0 <= i < |u| ensures Find(t, u[i].id) >= 0 {
      HeldAfterInsert(s, x, d, c, i);
    }
    ConsistentInserted(s, x, c, d);
    SameUnits(t, u, rank);
    FindInserted(s, c, x, x.id);
    FindInserted(s, d, x, x.id);
  }
}
