/**
  Replicas converge.  Nothing is assumed of an insertion but how its author made it: between
  two neighbours of a list that the author had built by integrating what it had received.
 */
module Convergence {
  import opened Ids
  import opened Yata
  import opened Agreement

  /** An insertion, and everything its author had integrated before, in that order. */
  datatype Op = Op(unit: Unit, past: seq<Op>)

  function UnitsOf(ops: seq<Op>): (us: seq<Unit>)
    ensures |us| == |ops|
  {
    seq(|ops|, k requires 0 <= k < |ops| => ops[k].unit)
  }

  /** The list of a replica that has integrated `ops` in this order. */
  ghost function Run(ops: seq<Op>): (s: seq<Unit>)
    ensures |s| == |ops|
  {
    IntegrateAll([], UnitsOf(ops))
  }

  lemma RunNext(ops: seq<Op>, op: Op)
    ensures Run(ops + [op]) == Integrate(Run(ops), op.unit)
  {
    assert UnitsOf(ops + [op]) == UnitsOf(ops) + [op.unit];
    IntegrateSnoc([], UnitsOf(ops), op.unit);
  }

  ghost predicate Knows(ops: seq<Op>, id: ID) {
    exists k :: 0 <= k < |ops| && ops[k].unit.id == id
  }

  ghost predicate KnowsAny(ops: seq<Op>, o: Option<ID>) {
    o.Some? ==> Knows(ops, o.value)
  }

  /** An insertion can be integrated once both its origins have been: nothing else is waited for. */
  ghost predicate Ready(ops: seq<Op>, op: Op) {
    && !Knows(ops, op.unit.id)
    && KnowsAny(ops, op.unit.origin) && KnowsAny(ops, op.unit.rightOrigin)
  }

  ghost predicate Deliverable(ops: seq<Op>) {
    forall k :: 0 <= k < |ops| ==> Ready(ops[..k], ops[k])
  }

  ghost predicate Authored(op: Op) {
    && Deliverable(op.past) && Ready(op.past, op)
    && Adjacent(Run(op.past), op.unit.origin, op.unit.rightOrigin)
  }

  /** Two insertions do not share a name, and a client makes its own one after the other. */
  ghost predicate Apart(a: Op, b: Op) {
    && (a.unit.id == b.unit.id ==> a == b)
    && (a.unit.id.client == b.unit.id.client ==> a == b || a in b.past || b in a.past)
  }

  /** All the insertions ever made: each was authored from others of them. */
  ghost predicate World(w: set<Op>) {
    && (forall op {:trigger Authored(op)} :: op in w ==> Authored(op))
    && (forall op {:trigger From(w, op.past)} :: op in w ==> From(w, op.past))
    && (forall a, b {:trigger Apart(a, b)} :: a in w && b in w ==> Apart(a, b))
  }

  ghost predicate From(w: set<Op>, ops: seq<Op>) {
    forall k :: 0 <= k < |ops| ==> ops[k] in w
  }

  ghost predicate Made(ops: seq<Op>, u: Unit) {
    exists k :: 0 <= k < |ops| && ops[k].unit == u
  }

  /** `s` holds exactly the insertions of `ops`. */
  ghost predicate Holds(s: seq<Unit>, ops: seq<Op>) {
    && (forall k :: 0 <= k < |ops| ==> Find(s, ops[k].unit.id) >= 0)
    && (forall i :: 0 <= i < |s| ==> Made(ops, s[i]))
  }

  // ----- what a run yields, given that it keeps the invariant

  lemma HoldsMore(s: seq<Unit>, ops: seq<Op>, op: Op, c: int)
    requires Inv(s) && Holds(s, ops) && Find(s, op.unit.id) < 0 && -1 <= c < |s|
    ensures Holds(InsertAfter(s, c, op.unit), ops + [op])
  {
    var t := InsertAfter(s, c, op.unit);
    var all := ops + [op];
    forall k | 0 <= k < |all| ensures Find(t, all[k].unit.id) >= 0 {
      FindInserted(s, c, op.unit, all[k].unit.id);
    }
    forall i | 0 <= i < |t| ensures Made(all, t[i]) {
      Inserted(s, c, op.unit, i);
      if i == c + 1 {
        assert all[|ops|].unit == t[i];
      } else {
        assert Made(ops, s[Unshift(i, c)]);
        var k :| 0 <= k < |ops| && ops[k].unit == t[i];
        assert all[k].unit == t[i];
      }
    }
  }

  lemma KnownIsHeld(s: seq<Unit>, ops: seq<Op>, o: Option<ID>)
    requires Holds(s, ops) && KnowsAny(ops, o)
    ensures Has(s, o)
  {
    if o.Some? {
      var k :| 0 <= k < |ops| && ops[k].unit.id == o.value;
      assert Find(s, ops[k].unit.id) >= 0;
    }
  }

  /** The first position at which `id` was integrated. */
  ghost function RankIn(ops: seq<Op>): ID -> nat {
    (id: ID) => if Knows(ops, id)
                then (var k :| 0 <= k < |ops| && ops[k].unit.id == id; k)
                else 0
  }

  lemma RunRanked(ops: seq<Op>, s: seq<Unit>)
    requires Deliverable(ops) && Holds(s, ops)
    ensures Ranked(s, RankIn(ops))
  {
    forall i | 0 <= i < |s| ensures RefsBelow(s[i], RankIn(ops)) {
      assert Made(ops, s[i]);
      var k :| 0 <= k < |ops| && ops[k].unit == s[i];
      assert Ready(ops[..k], ops[k]);
      RankIs(ops, k);
      if s[i].origin.Some? { RankBelow(ops, k, s[i].origin.value); }
      if s[i].rightOrigin.Some? { RankBelow(ops, k, s[i].rightOrigin.value); }
    }
  }

  lemma RankIs(ops: seq<Op>, k: nat)
    requires Deliverable(ops) && k < |ops|
    ensures RankIn(ops)(ops[k].unit.id) == k
  {
    var id := ops[k].unit.id;
    assert Knows(ops, id);
    var j := RankIn(ops)(id);
    assert 0 <= j < |ops| && ops[j].unit.id == id;
    NoRepeat(ops, j, k);
    NoRepeat(ops, k, j);
  }

  lemma NoRepeat(ops: seq<Op>, j: nat, k: nat)
    requires Deliverable(ops) && k < |ops| && j < |ops| && ops[j].unit.id == ops[k].unit.id
    ensures k <= j
  {
  }

  lemma RankBelow(ops: seq<Op>, k: nat, id: ID)
    requires Deliverable(ops) && k < |ops| && Knows(ops[..k], id)
    ensures RankIn(ops)(id) < k
  {
    var j :| 0 <= j < k && ops[..k][j].unit.id == id;
    RankIs(ops, j);
  }

  lemma WorldConsistent(w: set<Op>, s: seq<Unit>, a: seq<Op>, t: seq<Unit>, b: seq<Op>)
    requires World(w) && From(w, a) && From(w, b) && Holds(s, a) && Holds(t, b)
    ensures Consistent(s, t)
  {
    forall id | Find(s, id) >= 0 && Find(t, id) >= 0 ensures s[Find(s, id)] == t[Find(t, id)] {
      assert Made(a, s[Find(s, id)]) && Made(b, t[Find(t, id)]);
      var k :| 0 <= k < |a| && a[k].unit == s[Find(s, id)];
      var j :| 0 <= j < |b| && b[j].unit == t[Find(t, id)];
      assert Apart(a[k], b[j]);
    }
  }

  // ----- why an insertion fits into the list of any replica

  /** A delivery order whose list has been shown to satisfy the invariant. */
  ghost predicate Good(w: set<Op>, ops: seq<Op>) {
    From(w, ops) && Deliverable(ops) && Inv(Run(ops)) && Holds(Run(ops), ops)
  }

  ghost predicate PastsGood(w: set<Op>, ops: seq<Op>) {
    forall k {:trigger Good(w, ops[k].past)} :: 0 <= k < |ops| ==> Good(w, ops[k].past)
  }

  lemma GoodView(w: set<Op>, a: seq<Op>, b: seq<Op>)
    requires World(w) && Good(w, a) && Good(w, b)
    ensures View(Run(a), Run(b), RankIn(a))
  {
    WorldConsistent(w, Run(a), a, Run(b), b);
    RunRanked(a, Run(a));
  }

  lemma NotHeld(ops: seq<Op>, s: seq<Unit>, id: ID)
    requires Holds(s, ops) && !Knows(ops, id)
    ensures Find(s, id) < 0
  {
  }

  lemma HeldAt(w: set<Op>, s: seq<Unit>, ops: seq<Op>, op: Op)
    requires World(w) && From(w, ops) && Holds(s, ops) && op in ops
    ensures Find(s, op.unit.id) >= 0 && s[Find(s, op.unit.id)] == op.unit
  {
    var k :| 0 <= k < |ops| && ops[k] == op;
    assert Find(s, ops[k].unit.id) >= 0;
    assert Made(ops, s[Find(s, op.unit.id)]);
    var j :| 0 <= j < |ops| && ops[j].unit == s[Find(s, op.unit.id)];
    assert Apart(ops[j], ops[k]);
  }

  lemma FitsRun(w: set<Op>, ops: seq<Op>, op: Op)
    requires World(w) && Good(w, ops) && op in w && Good(w, op.past) && Ready(ops, op)
    ensures Fits(Run(ops), op.unit)
  {
    assert Authored(op);
    NotHeld(ops, Run(ops), op.unit.id);
    KnownIsHeld(Run(ops), ops, op.unit.origin);
    KnownIsHeld(Run(ops), ops, op.unit.rightOrigin);
    GoodView(w, op.past, ops);
    FitsElsewhere(Run(ops), Run(op.past), RankIn(op.past), op.unit);
  }

  lemma OneMadeFirst(w: set<Op>, op: Op, other: Op)
    requires World(w) && op in w && other in w && op != other
    requires op.unit.id.client == other.unit.id.client
    ensures other in op.past || op in other.past
  {
    assert Apart(op, other);
  }

  /** `YieldsRun` for the operation that made the sibling. */
  lemma YieldsTo(w: set<Op>, ops: seq<Op>, op: Op, other: Op)
    requires World(w) && Good(w, ops) && op in w && Good(w, op.past) && Ready(ops, op)
    requires other in ops && other in w && Good(w, other.past)
    requires other.unit.origin == op.unit.origin && other.unit.id.client == op.unit.id.client
    requires op != other && Fits(Run(ops), op.unit)
    ensures RightPos(Run(ops), op.unit.rightOrigin) <= Find(Run(ops), other.unit.id)
            || RightPos(Run(ops), other.unit.rightOrigin) <= Place(Run(ops), op.unit)
  {
    OneMadeFirst(w, op, other);
    HeldAt(w, Run(ops), ops, other);
    assert Authored(op) && Authored(other);
    if other in op.past {
      GoodView(w, op.past, ops);
      HeldAt(w, Run(op.past), op.past, other);
      EarlierSibling(Run(ops), Run(op.past), RankIn(op.past), op.unit, other.unit);
    } else {
      GoodView(w, other.past, ops);
      HeldAt(w, Run(other.past), other.past, op);
      assert Bracketed(Run(ops), Find(Run(ops), other.unit.id));
      LaterSibling(Run(ops), Run(other.past), RankIn(other.past), op.unit, other.unit);
    }
  }

  lemma YieldsRun(w: set<Op>, ops: seq<Op>, op: Op, i: nat)
    requires World(w) && Good(w, ops) && op in w && Good(w, op.past) && Ready(ops, op)
    requires PastsGood(w, ops)
    requires i < |ops| && Fits(Run(ops), op.unit)
    ensures Yields(Run(ops), op.unit, Place(Run(ops), op.unit), i)
  {
    var s, x := Run(ops), op.unit;
    if s[i].origin == x.origin && s[i].id.client == x.id.client {
      assert Made(ops, s[i]);
      var k :| 0 <= k < |ops| && ops[k].unit == s[i];
      assert ops[k] in ops && ops[k] in w && Good(w, ops[k].past);
      YieldsTo(w, ops, op, ops[k]);
      FindIs(s, i);
    }
  }

  // ----- the results

  /** One more delivery to a replica, given that everything it rests on is fine. */
  lemma DeliverIsGood(w: set<Op>, ops: seq<Op>, op: Op, next: seq<Op>)
    requires World(w) && Good(w, ops) && op in w && Good(w, op.past) && Ready(ops, op)
    requires PastsGood(w, ops) && next == ops + [op]
    ensures Inv(Run(next)) && Holds(Run(next), next)
  {
    var s, x := Run(ops), op.unit;
    FitsRun(w, ops, op);
    forall i | 0 <= i < |ops| ensures Yields(s, x, Place(s, x), i) {
      YieldsRun(w, ops, op, i);
    }
    IntegrateKeepsInv(s, x);
    HoldsMore(s, ops, op, Place(s, x));
    RunNext(ops, op);
  }

  lemma DeliverableInit(ops: seq<Op>)
    requires Deliverable(ops) && ops != []
    ensures Deliverable(ops[..|ops| - 1]) && Ready(ops[..|ops| - 1], ops[|ops| - 1])
  {
    var init := ops[..|ops| - 1];
    forall k | 0 <= k < |init| ensures Ready(init[..k], init[k]) {
      assert init[..k] == ops[..k];
      assert Ready(ops[..k], ops[k]);
    }
  }

  /** Every list that a replica can reach satisfies the invariant and loses nothing. */
  lemma {:induction false} RunIsGood(w: set<Op>, ops: seq<Op>)
    requires World(w) && From(w, ops) && Deliverable(ops)
    ensures Inv(Run(ops)) && Holds(Run(ops), ops)
    decreases ops, 1
  {
    hide IntegrateAll;
    if ops == [] {
      assert Run(ops) == [];
    } else {
      var n := |ops| - 1;
      DeliverableInit(ops);
      RunIsGood(w, ops[..n]);
      PastsAreGood(w, ops[..n]);
      PastIsFrom(w, ops[n]);
      RunIsGood(w, ops[n].past);
      DeliverIsGood(w, ops[..n], ops[n], ops);
    }
  }

  lemma {:induction false} PastsAreGood(w: set<Op>, ops: seq<Op>)
    requires World(w) && From(w, ops)
    ensures PastsGood(w, ops)
    decreases ops, 0
  {
    forall k | 0 <= k < |ops| ensures Good(w, ops[k].past) {
      PastIsFrom(w, ops[k]);
      RunIsGood(w, ops[k].past);
    }
  }

  lemma PastIsFrom(w: set<Op>, op: Op)
    requires World(w) && op in w
    ensures From(w, op.past) && Deliverable(op.past)
  {
    assert Authored(op);
  }

  /** Two replicas show the insertions that they both have in the same order, at any time. */
  lemma OneOrder(w: set<Op>, a: seq<Op>, b: seq<Op>, x: ID, y: ID)
    requires World(w) && From(w, a) && Deliverable(a) && From(w, b) && Deliverable(b)
    requires Knows(a, x) && Knows(a, y) && Knows(b, x) && Knows(b, y)
    requires Before(Run(a), x, y)
    ensures Before(Run(b), x, y)
  {
    RunIsGood(w, a);
    RunIsGood(w, b);
    KnownIsHeld(Run(b), b, Some(x));
    KnownIsHeld(Run(b), b, Some(y));
    GoodView(w, a, b);
    Agree(Run(a), Run(b), RankIn(a), x, y);
  }

  lemma HeldByBoth(w: set<Op>, a: seq<Op>, b: seq<Op>, i: nat)
    requires World(w) && Good(w, a) && Good(w, b) && i < |a|
    requires forall op :: op in a ==> op in b
    ensures Find(Run(b), Run(a)[i].id) >= 0
  {
    assert Made(a, Run(a)[i]);
    var k :| 0 <= k < |a| && a[k].unit == Run(a)[i];
    assert a[k] in b;
    HeldAt(w, Run(b), b, a[k]);
  }

  /** Replicas that have received the same insertions, in any two orders, have equal lists. */
  lemma Converge(w: set<Op>, a: seq<Op>, b: seq<Op>)
    requires World(w) && From(w, a) && Deliverable(a) && From(w, b) && Deliverable(b)
    requires forall op :: op in a <==> op in b
    ensures Run(a) == Run(b)
  {
    RunIsGood(w, a);
    RunIsGood(w, b);
    GoodView(w, a, b);
    forall i | 0 <= i < |a| ensures Find(Run(b), Run(a)[i].id) >= 0 { HeldByBoth(w, a, b, i); }
    forall i | 0 <= i < |b| ensures Find(Run(a), Run(b)[i].id) >= 0 { HeldByBoth(w, b, a, i); }
    SameUnits(Run(a), Run(b), RankIn(a));
  }
}
