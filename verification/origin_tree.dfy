/** The list as a tree: each unit is a child of its origin, and the list is a preorder of the tree. */
module OriginTree {
  import opened Ids
  import opened Yata

  /** Unit `k` descends from unit `a`; -1 is the root. */
  ghost predicate Below(s: seq<Unit>, a: int, k: int)
    decreases k
  {
    && 0 <= k < |s| && a <= OriginAt(s, k) < k
    && (OriginAt(s, k) == a || Below(s, a, OriginAt(s, k)))
  }

  /** Everything descends from the root. */
  lemma {:induction false} AllBelowRoot(s: seq<Unit>, k: nat)
    requires Inv(s) && k < |s|
    ensures Below(s, -1, k)
  {
    assert Bracketed(s, k);
    if OriginAt(s, k) >= 0 { AllBelowRoot(s, OriginAt(s, k)); }
  }

  /** The descendants of a unit are contiguous, and follow it: the list is a preorder. */
  lemma {:induction false} Contiguous(s: seq<Unit>, a: int, j: int, k: int)
    requires Inv(s) && -1 <= a < j < k < |s| && Below(s, a, k)
    ensures Below(s, a, j)
    decreases k, j
  {
    var o := OriginAt(s, k);
    assert Bracketed(s, j);
    if j < o {
      Contiguous(s, a, j, o);
    } else if o < j {
      assert Uncrossed(s, j, k);
      if o < OriginAt(s, j) {
        Contiguous(s, a, OriginAt(s, j), k);
      } else if a < o {
        assert Below(s, a, o);
      }
    }
  }

  /** Two units are either one below the other, or have disjoint groups of descendants. */
  lemma NestedOrApart(s: seq<Unit>, a: int, b: int, k: int)
    requires Inv(s) && -1 <= a < b < |s| && Below(s, a, k) && Below(s, b, k)
    ensures Below(s, a, b)
  {
    Contiguous(s, a, b, k);
  }

  /**
    In the chain of a map entry no unit has a right origin.  The last one, and every one
    that it descends from, was made by the largest client among its siblings.
   */
  lemma LastWins(s: seq<Unit>, p: nat, q: nat)
    requires Inv(s) && forall i :: 0 <= i < |s| ==> s[i].rightOrigin.None?
    requires p < |s| && q < |s| && p != q && s[p].origin == s[q].origin
    requires p == |s| - 1 || Below(s, p, |s| - 1)
    ensures s[q].id.client < s[p].id.client
  {
    if p < q < |s| - 1 { Contiguous(s, p, q, |s| - 1); }
    assert Bracketed(s, p);
    assert OriginAt(s, q) == OriginAt(s, p) < p;
    assert SiblingOrder(s, q, p);
  }
}
