/** The sorted arrangement of a sequence, and rearrangements of a part of it. */
module Sorting {

  ghost predicate Sorted(s: seq<int>) {
    forall i, j | 0 <= i < j < |s| :: s[i] <= s[j]
  }

  function Insert(x: int, s: seq<int>): seq<int> {
    if s == [] then [x] else if x <= s[0] then [x] + s else [s[0]] + Insert(x, s[1..])
  }

  lemma SortedCons(x: int, s: seq<int>)
    requires Sorted(s) && forall y | y in s :: x <= y
    ensures Sorted([x] + s)
  {
    var t := [x] + s;
    forall i, j | 0 <= i < j < |t| ensures t[i] <= t[j] {
      assert t[j] == s[j - 1] && t[j] in s;
      if i > 0 { assert t[i] == s[i - 1]; }
    }
  }

  lemma {:induction false} InsertOk(x: int, s: seq<int>)
    requires Sorted(s)
    ensures var r := Insert(x, s); Sorted(r) && multiset(r) == multiset(s) + multiset{x}
  {
    if s == [] {
    } else if x <= s[0] {
      SortedCons(x, s);
    } else {
      var rest := Insert(x, s[1..]);
      InsertOk(x, s[1..]);
      forall y | y in rest ensures s[0] <= y {
        assert y in multiset(rest);
        assert y == x || y in s[1..];
      }
      assert s == [s[0]] + s[1..];
      hide Sorted;
      SortedCons(s[0], rest);
    }
  }

  /** The sorted arrangement. */
  function Sort(s: seq<int>): seq<int> {
    if s == [] then [] else Insert(s[0], Sort(s[1..]))
  }

  lemma {:induction false} SortOk(s: seq<int>)
    ensures var r := Sort(s); Sorted(r) && multiset(r) == multiset(s) && |r| == |s|
  {
    if s != [] {
      SortOk(s[1..]);
      assert Sort(s) == Insert(s[0], Sort(s[1..]));
      hide Insert, Sorted, Sort;
      InsertOk(s[0], Sort(s[1..]));
      assert s == [s[0]] + s[1..];
      assert |multiset(Sort(s))| == |multiset(s)|;
    }
    assert |multiset(Sort(s))| == |Sort(s)| && |multiset(s)| == |s|;
  }

  lemma SortMembers(s: seq<int>)
    ensures |Sort(s)| == |s| && forall k | 0 <= k < |s| :: Sort(s)[k] in s
  {
    SortOk(s);
    forall k | 0 <= k < |s| ensures Sort(s)[k] in s {
      assert Sort(s)[k] in multiset(s);
    }
  }

  /** Sorting `s` puts `x` at `k`. */
  predicate SortsTo(s: seq<int>, k: int, x: int) {
    0 <= k < |Sort(s)| && Sort(s)[k] == x
  }

  /** There is only one. */
  lemma {:induction false} SortedUnique(s: seq<int>, t: seq<int>)
    requires Sorted(s) && Sorted(t) && multiset(s) == multiset(t)
    ensures s == t
  {
    assert |multiset(s)| == |s| && |multiset(t)| == |t|;
    if s != [] {
      SmallestFirst(s, t);
      assert s == [s[0]] + s[1..] && t == [t[0]] + t[1..];
      assert multiset(s[1..]) == multiset(s) - multiset{s[0]} && multiset(t[1..]) == multiset(t) - multiset{t[0]};
      SortedUnique(s[1..], t[1..]);
    }
  }

  lemma SmallestFirst(s: seq<int>, t: seq<int>)
    requires Sorted(s) && Sorted(t) && multiset(s) == multiset(t) && s != [] && t != []
    ensures s[0] == t[0]
  {
    assert s[0] in multiset(t) && t[0] in multiset(s);
  }

  lemma SortIs(s: seq<int>, t: seq<int>)
    requires Sorted(t) && multiset(t) == multiset(s)
    ensures t == Sort(s)
  {
    SortOk(s);
    SortedUnique(t, Sort(s));
  }

  /** `t` is `s` with [lo, hi) rearranged. */
  ghost predicate Shuffled(s: seq<int>, t: seq<int>, lo: int, hi: int) {
    0 <= lo <= hi <= |s| == |t| && s[..lo] == t[..lo] && s[hi..] == t[hi..]
      && multiset(s[lo..hi]) == multiset(t[lo..hi])
  }

  lemma ShuffledTrans(s: seq<int>, t: seq<int>, u: seq<int>, lo: int, hi: int)
    requires Shuffled(s, t, lo, hi) && Shuffled(t, u, lo, hi)
    ensures Shuffled(s, u, lo, hi)
  {
  }

  /** A rearrangement of a part is one of the whole. */
  lemma ShuffledWider(s: seq<int>, t: seq<int>, lo: int, hi: int, from: int, to: int)
    requires Shuffled(s, t, lo, hi) && 0 <= from <= lo && hi <= to <= |s|
    ensures Shuffled(s, t, from, to)
  {
    assert s[from..to] == s[from..lo] + s[lo..hi] + s[hi..to];
    assert t[from..to] == t[from..lo] + t[lo..hi] + t[hi..to];
    assert s[from..lo] == s[..lo][from..] && t[from..lo] == t[..lo][from..];
    assert s[hi..to] == s[hi..][..to - hi] && t[hi..to] == t[hi..][..to - hi];
    assert s[..from] == s[..lo][..from] && t[..from] == t[..lo][..from];
    assert s[to..] == s[hi..][to - hi..] && t[to..] == t[hi..][to - hi..];
  }

  function Swapped(s: seq<int>, i: int, j: int): seq<int>
    requires 0 <= i < |s| && 0 <= j < |s|
  {
    s[i := s[j]][j := s[i]]
  }

  lemma SwappedAt(s: seq<int>, i: int, j: int)
    requires 0 <= i < |s| && 0 <= j < |s|
    ensures var t := Swapped(s, i, j);
            |t| == |s| && t[i] == s[j] && t[j] == s[i] && forall k | 0 <= k < |s| && k != i && k != j :: t[k] == s[k]
  {
  }

  lemma ShuffledSwap(s: seq<int>, i: int, j: int, lo: int, hi: int)
    requires 0 <= lo <= i < hi <= |s| && lo <= j < hi
    ensures Shuffled(s, Swapped(s, i, j), lo, hi)
  {
    var t := Swapped(s, i, j);
    assert t[lo..hi] == s[lo..hi][i - lo := s[j]][j - lo := s[i]];
  }

  lemma SwapAgain(s: seq<int>, t: seq<int>, i: int, j: int, lo: int, hi: int)
    requires Shuffled(s, t, lo, hi) && lo <= i < hi && lo <= j < hi
    ensures Shuffled(s, Swapped(t, i, j), lo, hi)
  {
    ShuffledSwap(t, i, j, lo, hi);
    hide Swapped;
    ShuffledTrans(s, t, Swapped(t, i, j), lo, hi);
  }

  lemma ShuffledSelf(s: seq<int>, lo: int, hi: int)
    requires 0 <= lo <= hi <= |s|
    ensures Shuffled(s, s, lo, hi)
  {
  }

  /** What bounds all of a part bounds it rearranged; the rest stays as it is. */
  lemma ShuffledBound(s: seq<int>, t: seq<int>, lo: int, hi: int, x: int)
    requires Shuffled(s, t, lo, hi)
    ensures (forall k | lo <= k < hi :: s[k] <= x) ==> forall k | lo <= k < hi :: t[k] <= x
    ensures (forall k | lo <= k < hi :: x <= s[k]) ==> forall k | lo <= k < hi :: x <= t[k]
    ensures forall k | 0 <= k < |s| && !(lo <= k < hi) :: t[k] == s[k]
  {
    forall k | lo <= k < hi ensures exists n | lo <= n < hi :: s[n] == t[k] {
      assert t[k] == t[lo..hi][k - lo];
      assert t[k] in multiset(s[lo..hi]);
      var m :| 0 <= m < hi - lo && s[lo..hi][m] == t[k];
      assert s[m + lo] == t[k];
    }
    forall k | 0 <= k < |s| && !(lo <= k < hi) ensures t[k] == s[k] {
      if k < lo { assert t[k] == t[..lo][k] == s[..lo][k]; } else { assert t[k] == t[hi..][k - hi] == s[hi..][k - hi]; }
    }
  }

  /** [lo, hi) is sorted, read off the whole sequence. */
  ghost predicate SortedOn(s: seq<int>, lo: int, hi: int) {
    forall i, j | 0 <= lo <= i < j < hi <= |s| :: s[i] <= s[j]
  }

  lemma SortedOnIs(s: seq<int>, lo: int, hi: int)
    requires 0 <= lo <= hi <= |s|
    ensures SortedOn(s, lo, hi) <==> Sorted(s[lo..hi])
  {
    var part := s[lo..hi];
    if Sorted(part) {
      forall i, j | lo <= i < j < hi ensures s[i] <= s[j] {
        assert part[i - lo] <= part[j - lo];
      }
    }
  }

  /** A sequence with [lo, hi) sorted. */
  function SortRange(s: seq<int>, lo: int, hi: int): (r: seq<int>)
    requires 0 <= lo <= hi <= |s|
    ensures |r| == |s|
  {
    SortOk(s[lo..hi]);
    s[..lo] + Sort(s[lo..hi]) + s[hi..]
  }

  lemma SortRangeIs(s: seq<int>, t: seq<int>, lo: int, hi: int)
    requires Shuffled(s, t, lo, hi) && SortedOn(t, lo, hi)
    ensures t == SortRange(s, lo, hi)
  {
    SortedOnIs(t, lo, hi);
    SortIs(s[lo..hi], t[lo..hi]);
    assert t == t[..lo] + t[lo..hi] + t[hi..];
  }

  lemma SortRangeShuffles(s: seq<int>, lo: int, hi: int)
    requires 0 <= lo <= hi <= |s|
    ensures Shuffled(s, SortRange(s, lo, hi), lo, hi) && SortedOn(SortRange(s, lo, hi), lo, hi)
    ensures SortRange(s, lo, hi)[lo..hi] == Sort(s[lo..hi])
  {
    var t := SortRange(s, lo, hi);
    SortOk(s[lo..hi]);
    assert t[..lo] == s[..lo] && t[hi..] == s[hi..] && t[lo..hi] == Sort(s[lo..hi]);
    SortedOnIs(t, lo, hi);
  }

  /**
   * An element with nothing greater before it and nothing smaller behind it stands where sorting would put it, and
   * the parts before and behind it can be sorted on their own.
   */
  lemma InPlace(s: seq<int>, k: int)
    requires 0 <= k < |s| && (forall i | 0 <= i < k :: s[i] <= s[k]) && (forall i | k < i < |s| :: s[k] <= s[i])
    ensures Sort(s) == Sort(s[..k]) + [s[k]] + Sort(s[k + 1..])
  {
    var l, r := Sort(s[..k]), Sort(s[k + 1..]);
    SortMembers(s[..k]);
    SortMembers(s[k + 1..]);
    forall i | 0 <= i < k ensures l[i] <= s[k] {
      assert l[i] in s[..k];
    }
    forall i | 0 <= i < |r| ensures s[k] <= r[i] {
      assert r[i] in s[k + 1..];
    }
    hide Sort, Sorted;
    SortOk(s[..k]);
    SortOk(s[k + 1..]);
    SortedConcat(l, s[k], r);
    ThreeParts(s, k, l, r);
    SortIs(s, l + [s[k]] + r);
  }

  lemma ThreeParts(s: seq<int>, k: int, l: seq<int>, r: seq<int>)
    requires 0 <= k < |s| && multiset(l) == multiset(s[..k]) && multiset(r) == multiset(s[k + 1..])
    ensures multiset(l + [s[k]] + r) == multiset(s)
  {
    assert s == s[..k] + [s[k]] + s[k + 1..];
  }

  lemma SortedConcat(l: seq<int>, x: int, r: seq<int>)
    requires Sorted(l) && Sorted(r) && (forall i | 0 <= i < |l| :: l[i] <= x) && (forall i | 0 <= i < |r| :: x <= r[i])
    ensures Sorted(l + [x] + r)
  {
  }

  lemma SortSame(s: seq<int>, t: seq<int>)
    requires multiset(s) == multiset(t)
    ensures Sort(s) == Sort(t)
  {
    SortOk(s);
    SortIs(t, Sort(s));
  }

  /** Sorting around an element that is in place. */
  lemma PivotIn(s: seq<int>, m: int, k: int, x: int)
    requires 0 <= m < |s| && (forall i | 0 <= i < m :: s[i] <= s[m]) && (forall i | m < i < |s| :: s[m] <= s[i])
    requires if k == m then x == s[m] else if k < m then SortsTo(s[..m], k, x) else SortsTo(s[m + 1..], k - m - 1, x)
    ensures SortsTo(s, k, x)
  {
    SortMembers(s[..m]);
    SortMembers(s[m + 1..]);
    InPlace(s, m);
    hide Sort;
  }
}
