/** Facts about sequences that proofs name, so that no other proof has to search for them. */
module Seqs {

  lemma Assoc<T>(a: seq<T>, b: seq<T>, c: seq<T>)
    ensures (a + b) + c == a + (b + c)
  {
  }

  lemma HeadTail<T>(s: seq<T>)
    requires s != []
    ensures s == [s[0]] + s[1..]
  {
  }

  lemma ConsTail<T>(x: T, s: seq<T>)
    ensures ([x] + s)[0] == x && ([x] + s)[1..] == s && [x] + s != []
  {
  }

  lemma SplitAt<T>(s: seq<T>, k: nat)
    requires k <= |s|
    ensures s == s[..k] + s[k..]
  {
  }

  lemma TakeNext<T>(s: seq<T>, k: nat)
    requires k < |s|
    ensures s[..k + 1] == s[..k] + [s[k]]
  {
  }

  lemma Middle<T>(a: seq<T>, b: seq<T>, c: seq<T>, i: nat, r: nat)
    requires i + r <= |b|
    ensures |a| + i + r <= |a + b + c|
    ensures (a + b + c)[|a| + i..|a| + i + r] == b[i..i + r]
  {
  }

  lemma SliceJoin<T>(s: seq<T>, i: nat, j: nat, k: nat)
    requires i <= j <= k <= |s|
    ensures s[i..j] + s[j..k] == s[i..k]
  {
  }

  /** `r` is the `n` elements of `s` from position `i` on. */
  predicate IsSlice<T(==)>(s: seq<T>, i: nat, n: nat, r: seq<T>) {
    i + n <= |s| && r == s[i..i + n]
  }

  lemma SliceMore<T>(s: seq<T>, i: nat, n: nat, m: nat, r: seq<T>, u: seq<T>)
    requires IsSlice(s, i, n, r) && i + n + m <= |s| && u == r + s[i + n..i + n + m]
    ensures IsSlice(s, i, n + m, u)
  {
    SliceJoin(s, i, i + n, i + n + m);
  }

  /** `r` is `s` with the elements of `t` before position `i`. */
  predicate IsInserted<T(==)>(s: seq<T>, i: nat, t: seq<T>, r: seq<T>) {
    i <= |s| && r == s[..i] + t + s[i..]
  }

  ghost predicate Inserted<T>(s: seq<T>, t: seq<T>, r: seq<T>) {
    exists i :: IsInserted(s, i, t, r)
  }

  lemma InsertNone<T>(s: seq<T>, i: nat, r: seq<T>)
    requires IsInserted(s, i, [], r)
    ensures r == s
  {
  }

  /** `r` is `s` without the `n` elements from position `i` on. */
  predicate IsRemoved<T(==)>(s: seq<T>, i: nat, n: nat, r: seq<T>) {
    i + n <= |s| && r == s[..i] + s[i + n..]
  }

  lemma RemoveMore<T>(s: seq<T>, i: nat, m: nat, r: seq<T>, n: nat, u: seq<T>)
    requires IsRemoved(s, i, m, r) && IsRemoved(r, i, n, u)
    ensures IsRemoved(s, i, m + n, u)
  {
  }

  lemma RemoveLength<T>(s: seq<T>, i: nat, n: nat, r: seq<T>)
    requires IsRemoved(s, i, n, r)
    ensures i <= |r| == |s| - n
  {
  }

  lemma RemoveNone<T>(s: seq<T>, i: nat)
    requires i <= |s|
    ensures IsRemoved(s, i, 0, s)
  {
  }

  function Sum(s: seq<nat>): nat {
    if s == [] then 0 else s[0] + Sum(s[1..])
  }

  lemma {:induction false} SumConcat(a: seq<nat>, b: seq<nat>)
    ensures Sum(a + b) == Sum(a) + Sum(b)
  {
    if a == [] {
      assert a + b == b;
    } else {
      SumConcat(a[1..], b);
      assert (a + b)[1..] == a[1..] + b;
    }
  }

  lemma SumSplit(s: seq<nat>, i: nat)
    requires i < |s|
    ensures Sum(s) == Sum(s[..i]) + s[i] + Sum(s[i + 1..])
  {
    SplitAt(s, i);
    SumConcat(s[..i], s[i..]);
    assert s[i..][1..] == s[i + 1..];
  }

  lemma SumAt(s: seq<nat>, p: nat)
    requires p < |s|
    ensures Sum(s[..p + 1]) == Sum(s[..p]) + s[p] <= Sum(s)
    ensures p + 1 == |s| ==> Sum(s[..p + 1]) == Sum(s)
  {
    SumSplit(s, p);
    TakeNext(s, p);
    SumConcat(s[..p], [s[p]]);
    assert [s[p]][1..] == [];
    assert p + 1 == |s| ==> s[..p + 1] == s;
  }

  lemma SumSet(s: seq<nat>, i: nat, x: nat)
    requires i < |s|
    ensures Sum(s[i := x]) == Sum(s) - s[i] + x && s[i] <= Sum(s)
  {
    SumSplit(s, i);
    SumSplit(s[i := x], i);
    assert s[i := x][..i] == s[..i] && s[i := x][i + 1..] == s[i + 1..];
  }

  lemma SumPut(s: seq<nat>, i: nat, x: nat)
    requires i <= |s|
    ensures Sum(s[..i] + [x] + s[i..]) == Sum(s) + x
  {
    SplitAt(s, i);
    SumConcat(s[..i], s[i..]);
    SumConcat(s[..i] + [x], s[i..]);
    SumConcat(s[..i], [x]);
    assert Sum([x]) == x by { assert [x][1..] == []; }
  }

  function Flat<T>(ss: seq<seq<T>>): seq<T> {
    if ss == [] then [] else ss[0] + Flat(ss[1..])
  }

  lemma {:induction false} FlatConcat<T>(a: seq<seq<T>>, b: seq<seq<T>>)
    ensures Flat(a + b) == Flat(a) + Flat(b)
  {
    if a == [] {
      assert a + b == b;
    } else {
      FlatConcat(a[1..], b);
      assert (a + b)[1..] == a[1..] + b;
      Assoc(a[0], Flat(a[1..]), Flat(b));
    }
  }

  lemma FlatOne<T>(s: seq<T>)
    ensures Flat([s]) == s
  {
    assert [s][1..] == [];
  }

  lemma FlatSplit<T>(ss: seq<seq<T>>, p: nat)
    requires p <= |ss|
    ensures Flat(ss) == Flat(ss[..p]) + Flat(ss[p..])
  {
    SplitAt(ss, p);
    FlatConcat(ss[..p], ss[p..]);
  }

  lemma FlatAt<T>(ss: seq<seq<T>>, p: nat)
    requires p < |ss|
    ensures Flat(ss[..p + 1]) == Flat(ss[..p]) + ss[p]
    ensures Flat(ss) == Flat(ss[..p]) + ss[p] + Flat(ss[p + 1..])
  {
    FlatSplit(ss, p + 1);
    TakeNext(ss, p);
    FlatConcat(ss[..p], [ss[p]]);
    FlatOne(ss[p]);
  }

  /** Replacing one part. */
  lemma FlatSet<T>(ss: seq<seq<T>>, p: nat, s: seq<T>)
    requires p < |ss|
    ensures Flat(ss[p := s]) == Flat(ss[..p]) + s + Flat(ss[p + 1..])
    ensures Flat(ss[p := s][..p]) == Flat(ss[..p])
  {
    FlatAt(ss[p := s], p);
    assert ss[p := s][..p] == ss[..p] && ss[p := s][p + 1..] == ss[p + 1..];
  }

  lemma FlatSame<T>(ss: seq<seq<T>>, p: nat, s: seq<T>)
    requires p < |ss| && |s| == |ss[p]|
    ensures Flat(ss[p := s]) == Flat(ss) <==> s == ss[p]
  {
    FlatAt(ss, p);
    FlatSet(ss, p, s);
    SameMiddle(Flat(ss[..p]), s, ss[p], Flat(ss[p + 1..]));
  }

  lemma SameMiddle<T>(a: seq<T>, s: seq<T>, t: seq<T>, b: seq<T>)
    requires |s| == |t|
    ensures a + s + b == a + t + b <==> s == t
  {
    if a + s + b == a + t + b {
      forall i | 0 <= i < |s| ensures s[i] == t[i] {
        assert (a + s + b)[|a| + i] == s[i] && (a + t + b)[|a| + i] == t[i];
      }
    }
  }

  lemma {:induction false} FlatHas<T>(ss: seq<seq<T>>, x: T)
    ensures x in Flat(ss) <==> exists i :: 0 <= i < |ss| && x in ss[i]
  {
    if ss != [] {
      FlatHas(ss[1..], x);
      assert x in Flat(ss) <==> x in ss[0] || x in Flat(ss[1..]);
      if x in Flat(ss[1..]) {
        var i :| 0 <= i < |ss[1..]| && x in ss[1..][i];
        assert x in ss[i + 1];
      }
      if i :| 0 <= i < |ss| && x in ss[i] { assert i > 0 ==> x in ss[1..][i - 1]; }
    }
  }

  /** Cutting one part in two. */
  lemma FlatCut<T>(ss: seq<seq<T>>, p: nat, l: seq<T>, r: seq<T>)
    requires p < |ss| && ss[p] == l + r
    ensures Flat(ss[..p] + [l, r] + ss[p + 1..]) == Flat(ss)
  {
    FlatAt(ss, p);
    FlatConcat(ss[..p] + [l, r], ss[p + 1..]);
    FlatConcat(ss[..p], [l, r]);
    assert [l, r] == [l] + [r];
    FlatConcat([l], [r]);
    FlatOne(l);
    FlatOne(r);
    Assoc(Flat(ss[..p]), l, r);
  }

  /** Putting a part between two others. */
  lemma FlatPut<T>(ss: seq<seq<T>>, p: nat, s: seq<T>)
    requires p <= |ss|
    ensures Flat(ss[..p] + [s] + ss[p..]) == Flat(ss[..p]) + s + Flat(ss[p..])
  {
    FlatConcat(ss[..p] + [s], ss[p..]);
    FlatConcat(ss[..p], [s]);
    FlatOne(s);
  }

  lemma {:induction false} FlatLength<T>(ss: seq<seq<T>>, ns: seq<nat>)
    requires |ss| == |ns| && forall i :: 0 <= i < |ss| ==> |ss[i]| == ns[i]
    ensures |Flat(ss)| == Sum(ns)
  {
    if ss != [] { FlatLength(ss[1..], ns[1..]); }
  }
}
