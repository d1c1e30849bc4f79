/** Sizes of sets, and sequences without repetition. */
module Counting {

  function One(b: bool): int { if b then 1 else 0 }

  predicate Distinct(q: seq<int>) {
    forall k, l | 0 <= k < l < |q| :: q[k] != q[l]
  }

  lemma {:induction false} DistinctCard(q: seq<int>)
    requires Distinct(q)
    ensures |set x | x in q| == |q|
  {
    if q != [] {
      var l := |q| - 1;
      DistinctCard(q[..l]);
      assert (set x | x in q) == (set x | x in q[..l]) + {q[l]} by { assert q == q[..l] + [q[l]]; }
      assert q[l] !in q[..l];
    } else {
      assert (set x | x in q) == {};
    }
  }

  /** The numbers from `lo` up to but not including `hi`. */
  function Range(lo: int, hi: int): (r: set<int>)
    ensures |r| == (if lo <= hi then hi - lo else 0) && forall x :: x in r <==> lo <= x < hi
    decreases hi - lo
  {
    if lo >= hi then {} else Range(lo, hi - 1) + {hi - 1}
  }

  lemma SubsetCard(a: set<int>, b: set<int>)
    requires a <= b
    ensures |a| <= |b| && (|a| == |b| ==> a == b)
  {
    assert b == a + (b - a);
    assert |b| == |a| + |b - a|;
  }

  lemma TwoIn<T>(s: set<T>, a: T, b: T)
    requires a in s && b in s && |s| == 1
    ensures a == b
  {
    var rest := s - {a};
    assert |rest| == 0;
    assert rest == {};
  }

  /** Two sets apart from each other fill a third exactly when their sizes add up to its size. */
  lemma CoverIff(a: set<int>, b: set<int>, all: set<int>)
    requires a !! b && a <= all && b <= all
    ensures |a| + |b| <= |all| && (|a| + |b| == |all| <==> all <= a + b)
  {
    var rest := all - (a + b);
    assert all == (a + b) + rest;
    assert |all| == |a + b| + |rest| && |a + b| == |a| + |b|;
    assert |rest| == 0 <==> rest == {};
  }
}
