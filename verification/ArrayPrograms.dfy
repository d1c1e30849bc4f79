/**
 * The array programs: two sorts and the selection of the k-th element, in place, and what the master checks of them.
 */
module ArrayPrograms {
  import opened Mmu
  import opened Sorting

  const INT_MIN := -0x8000_0000
  const INT_MAX := 0x7FFF_FFFF

  predicate Ints(s: seq<int>) {
    forall k | 0 <= k < |s| :: INT_MIN <= s[k] <= INT_MAX
  }

  method Swap(a: array<int>, i: int, j: int)
    requires 0 <= i < a.Length && 0 <= j < a.Length
    modifies a
    ensures a[..] == Swapped(old(a[..]), i, j)
  {
    var tmp := a[i];
    a[i] := a[j];
    a[j] := tmp;
  }

  /**
   * The elements of [lo, hi] stand around `p` at `j`: none greater before it, `p` up to `i`, none smaller from `i` on.
   */
  ghost predicate Parted(s: seq<int>, lo: int, hi: int, j: int, i: int) {
    && 0 <= lo <= j < i <= hi + 1 <= |s|
    && (forall k | lo <= k < j :: s[k] <= s[j]) && (forall k | j <= k < i :: s[k] == s[j])
       && (forall k | i <= k <= hi :: s[j] <= s[k])
  }

  /** Swapping the pivot into the gap between the two sides. */
  lemma PartedSwap(s: seq<int>, lo: int, hi: int, j: int, i: int)
    requires 0 <= lo <= j < i <= hi + 1 <= |s|
    requires (forall k | lo < k < i :: s[k] <= s[lo]) && (forall k | j < k <= hi :: s[lo] <= s[k])
    ensures Parted(Swapped(s, lo, j), lo, hi, j, i)
  {
  }

  /** Quicksort's partitioning around a pivot that RAND picks anywhere in [lo, hi). */
  method Partition(a: array<int>, lo: int, hi: int) returns (i: int, j: int)
    requires 0 <= lo < hi < a.Length
    modifies a
    ensures Shuffled(old(a[..]), a[..], lo, hi + 1) && Parted(a[..], lo, hi, j, i)
  {
    hide Shuffled, Parted, Swapped;
    ghost var was := a[..];
    var pivot: int :| lo <= pivot < hi;
    ShuffledSwap(was, lo, pivot, lo, hi + 1);
    Swap(a, lo, pivot);
    ghost var p := a[lo];
    i, j := lo + 1, hi;
    ghost var first := true;
    while i <= j
      invariant lo + 1 <= i <= hi + 1 && lo <= j <= hi && a[lo] == p && Shuffled(was, a[..], lo, hi + 1)
      invariant (forall k | lo < k < i :: a[k] <= p) && (forall k | j < k <= hi :: p <= a[k])
      invariant !first && i <= j ==> a[i] <= p
      decreases if i <= j then j - i + 1 else 0, first
    {
      ghost var now := a[..];
      assert Shuffled(was, now, lo, hi + 1);
      while i <= hi && a[lo] >= a[i]
        invariant a[..] == now && lo + 1 <= i <= hi + 1 && forall k | lo < k < i :: a[k] <= p
      {
        i := i + 1;
      }
      while j > lo && a[lo] <= a[j]
        invariant a[..] == now && lo <= j <= hi && forall k | j < k <= hi :: p <= a[k]
      {
        j := j - 1;
      }
      if i <= j {
        SwapAgain(was, now, i, j, lo, hi + 1);
        SwappedAt(now, i, j);
        Swap(a, i, j);
        assert a[..] == Swapped(now, i, j);
        first := false;
      }
    }
    SwapAgain(was, a[..], lo, j, lo, hi + 1);
    PartedSwap(a[..], lo, hi, j, i);
    Swap(a, lo, j);
  }

  method QSort(a: array<int>, lo: int, hi: int)
    requires 0 <= lo <= hi + 1 <= a.Length
    modifies a
    ensures a[..] == SortRange(old(a[..]), lo, hi + 1)
    decreases hi - lo + 1
  {
    hide Shuffled, Parted, SortRange, SortedOn, Swapped;
    ghost var was := a[..];
    if lo >= hi {
      OneSorted(was, lo, hi + 1);
      SortRangeIs(was, was, lo, hi + 1);
      return;
    }
    var i, j := Partition(a, lo, hi);
    ghost var parted := a[..];
    PartedBounds(parted, lo, hi, j, i);
    QSort(a, lo, j - 1);
    ghost var half := a[..];
    QSort(a, i, hi);
    SortedParts(parted, half, a[..], lo, hi, j, i);
    ShuffledTrans(was, parted, a[..], lo, hi + 1);
    SortRangeIs(was, a[..], lo, hi + 1);
  }

  lemma OneSorted(s: seq<int>, lo: int, hi: int)
    requires 0 <= lo <= hi <= |s| && hi <= lo + 1
    ensures Shuffled(s, s, lo, hi) && SortedOn(s, lo, hi)
  {
  }

  lemma PartedBounds(s: seq<int>, lo: int, hi: int, j: int, i: int)
    requires Parted(s, lo, hi, j, i)
    ensures 0 <= lo <= j < i <= hi + 1 <= |s|
  {
  }

  /** Sorting the two parts around the pivot sorts the whole. */
  lemma SortedParts(s: seq<int>, t: seq<int>, u: seq<int>, lo: int, hi: int, j: int, i: int)
    requires Parted(s, lo, hi, j, i) && t == SortRange(s, lo, j) && u == SortRange(t, i, hi + 1)
    ensures Shuffled(s, u, lo, hi + 1) && SortedOn(u, lo, hi + 1)
  {
    assert 0 <= lo <= j < i <= hi + 1 <= |s| == |t| == |u|;
    hide Shuffled, SortRange, SortedOn, Parted, Sort;
    SortRangeShuffles(s, lo, j);
    SortRangeShuffles(t, i, hi + 1);
    ShuffledWider(s, t, lo, j, lo, hi + 1);
    ShuffledWider(t, u, i, hi + 1, lo, hi + 1);
    ShuffledTrans(s, t, u, lo, hi + 1);
    Glue(s, t, u, lo, hi, j, i);
  }

  lemma Glue(s: seq<int>, t: seq<int>, u: seq<int>, lo: int, hi: int, j: int, i: int)
    requires Parted(s, lo, hi, j, i) && Shuffled(s, t, lo, j) && Shuffled(t, u, i, hi + 1)
    requires SortedOn(t, lo, j) && SortedOn(u, i, hi + 1)
    ensures SortedOn(u, lo, hi + 1)
  {
    assert |s| == |t| == |u|;
    hide Shuffled;
    ShuffledBound(s, t, lo, j, s[j]);
    ShuffledBound(t, u, i, hi + 1, s[j]);
  }

  method QuickSort(a: array<int>)
    modifies a
    ensures a[..] == Sort(old(a[..]))
  {
    QSort(a, 0, a.Length - 1);
    assert old(a[..])[0..a.Length] == old(a[..]);
  }

  // ----- selection -----

  /** The selection's partitioning: equal elements stay on the left, so the two sides meet. */
  method PartitionStrictly(a: array<int>, lo: int, hi: int) returns (i: int, j: int)
    requires 0 <= lo < hi < a.Length
    modifies a
    ensures Shuffled(old(a[..]), a[..], lo, hi + 1) && Parted(a[..], lo, hi, j, i) && i == j + 1
  {
    hide Shuffled, Parted, Swapped;
    ghost var was := a[..];
    var pivot: int :| lo <= pivot < hi;
    ShuffledSwap(was, lo, pivot, lo, hi + 1);
    Swap(a, lo, pivot);
    ghost var p := a[lo];
    i, j := lo + 1, hi;
    ghost var first := true;
    while i <= j
      invariant lo + 1 <= i <= hi + 1 && lo <= j <= hi && i <= j + 1 && a[lo] == p && Shuffled(was, a[..], lo, hi + 1)
      invariant (forall k | lo < k < i :: a[k] <= p) && (forall k | j < k <= hi :: p < a[k])
      invariant !first && i <= j ==> a[i] <= p
      decreases if i <= j then j - i + 1 else 0, first
    {
      ghost var now := a[..];
      assert Shuffled(was, now, lo, hi + 1);
      while i <= hi && a[lo] >= a[i]
        invariant a[..] == now && lo + 1 <= i <= hi + 1 && i <= j + 1 && forall k | lo < k < i :: a[k] <= p
      {
        i := i + 1;
      }
      while j > lo && a[lo] < a[j]
        invariant a[..] == now && lo <= j <= hi && i <= j + 1 && forall k | j < k <= hi :: p < a[k]
      {
        j := j - 1;
      }
      if i <= j {
        SwapAgain(was, now, i, j, lo, hi + 1);
        SwappedAt(now, i, j);
        Swap(a, i, j);
        assert a[..] == Swapped(now, i, j);
        first := false;
      }
    }
    SwapAgain(was, a[..], lo, j, lo, hi + 1);
    PartedSwap(a[..], lo, hi, j, i);
    Swap(a, lo, j);
  }

  /** The element that sorting [lo, hi] would put at `k`. */
  method QSelect(a: array<int>, lo: int, hi: int, k: int) returns (r: int)
    requires 0 <= lo <= hi < a.Length && (lo <= k <= hi || lo == hi)
    modifies a
    ensures Shuffled(old(a[..]), a[..], lo, hi + 1)
    ensures if lo == hi then r == old(a[hi]) else SortsTo(old(a[..])[lo..hi + 1], k - lo, r)
    decreases hi - lo
  {
    hide Shuffled, Parted, Swapped, SortsTo;
    ghost var was := a[..];
    if lo >= hi {
      ShuffledSelf(was, lo, hi + 1);
      return a[hi];
    }
    var i, j := PartitionStrictly(a, lo, hi);
    ghost var parted := a[..];
    PartedBounds(parted, lo, hi, j, i);
    if k == j {
      PivotPlace(was, parted, lo, hi, j, k, a[k]);
      return a[k];
    }
    var from, to := i, hi;
    if k < j {
      from, to := lo, j - 1;
    }
    r := QSelect(a, from, to, k);
    ghost var now := a[..];
    if from == to { OneElement(parted, from); }
    assert SortsTo(parted[from..to + 1], k - from, r);
    ShuffledPart(was, parted, now, from, to + 1, lo, hi + 1);
    PivotPlace(was, parted, lo, hi, j, k, r);
  }

  lemma ShuffledPart(s: seq<int>, t: seq<int>, u: seq<int>, lo: int, hi: int, from: int, to: int)
    requires Shuffled(s, t, from, to) && Shuffled(t, u, lo, hi) && from <= lo && hi <= to
    ensures Shuffled(s, u, from, to)
  {
    assert 0 <= from && to <= |t|;
    hide Shuffled;
    ShuffledWider(t, u, lo, hi, from, to);
    ShuffledTrans(s, t, u, from, to);
  }

  lemma OneElement(s: seq<int>, lo: int)
    requires 0 <= lo < |s|
    ensures SortsTo(s[lo..lo + 1], 0, s[lo])
  {
    SortIs(s[lo..lo + 1], s[lo..lo + 1]);
  }

  /** Sorting leaves the pivot where it is, and sorts the two sides on their own. */
  lemma PivotPlace(was: seq<int>, s: seq<int>, lo: int, hi: int, j: int, k: int, x: int)
    requires Parted(s, lo, hi, j, j + 1) && Shuffled(was, s, lo, hi + 1)
    requires if k == j then x == s[j] else if k < j then SortsTo(s[lo..j], k - lo, x)
             else SortsTo(s[j + 1..hi + 1], k - j - 1, x)
    ensures SortsTo(was[lo..hi + 1], k - lo, x)
  {
    hide Sort, SortsTo;
    SortSame(was[lo..hi + 1], s[lo..hi + 1]);
    PartedSlice(s, lo, hi, j);
    hide Parted, Shuffled;
    PivotIn(s[lo..hi + 1], j - lo, k - lo, x);
    SortsSame(was[lo..hi + 1], s[lo..hi + 1], k - lo, x);
  }

  lemma SortsSame(s: seq<int>, t: seq<int>, k: int, x: int)
    requires Sort(s) == Sort(t) && SortsTo(t, k, x)
    ensures SortsTo(s, k, x)
  {
  }

  lemma PartedSlice(s: seq<int>, lo: int, hi: int, j: int)
    requires Parted(s, lo, hi, j, j + 1)
    ensures var part, m := s[lo..hi + 1], j - lo;
            && 0 <= m < |part| && part[m] == s[j] && part[..m] == s[lo..j] && part[m + 1..] == s[j + 1..hi + 1]
            && (forall i | 0 <= i < m :: part[i] <= part[m]) && (forall i | m < i < |part| :: part[m] <= part[i])
  {
  }

  /** A single element is returned whatever `k` is: the caller asks for the 0th of one. */
  method KthElement(a: array<int>, k: int) returns (r: int)
    requires 1 <= k <= a.Length || a.Length == 1
    modifies a
    ensures multiset(a[..]) == multiset(old(a[..]))
    ensures if a.Length == 1 then r == old(a[0]) else SortsTo(old(a[..]), k - 1, r)
  {
    ghost var was := a[..];
    r := QSelect(a, 0, a.Length - 1, k - 1);
    assert was[0..a.Length] == was && a[..][0..a.Length] == a[..];
  }

  // ----- statistics -----

  function Sum(s: seq<int>): int {
    if s == [] then 0 else Sum(s[..|s| - 1]) + s[|s| - 1]
  }

  function Squares(s: seq<int>, mean: int): int {
    if s == [] then 0 else (s[0] - mean) * (s[0] - mean) + Squares(s[1..], mean)
  }

  lemma {:induction false} SquaresAppend(s: seq<int>, x: int, mean: int)
    ensures Squares(s + [x], mean) == Squares(s, mean) + (x - mean) * (x - mean)
  {
    if s != [] {
      assert (s + [x])[1..] == s[1..] + [x];
      SquaresAppend(s[1..], x, mean);
    }
  }

  lemma {:induction false} SquaresInsert(x: int, s: seq<int>, mean: int)
    ensures Squares(Insert(x, s), mean) == (x - mean) * (x - mean) + Squares(s, mean)
  {
    if s == [] || x <= s[0] {
      assert Insert(x, s)[1..] == s;
    } else {
      assert Insert(x, s)[1..] == Insert(x, s[1..]);
      SquaresInsert(x, s[1..], mean);
    }
  }

  lemma {:induction false} SquaresSort(s: seq<int>, mean: int)
    ensures Squares(Sort(s), mean) == Squares(s, mean)
  {
    if s != [] {
      SquaresSort(s[1..], mean);
      SquaresInsert(s[0], Sort(s[1..]), mean);
    }
  }

  /** The sum of squares does not depend on the order the selection leaves behind. */
  lemma SquaresSame(s: seq<int>, t: seq<int>, mean: int)
    requires multiset(s) == multiset(t)
    ensures Squares(s, mean) == Squares(t, mean)
  {
    SortSame(s, t);
    SquaresSort(s, mean);
    SquaresSort(t, mean);
  }

  predicate IsMin(s: seq<int>, x: int) { x in s && forall k | 0 <= k < |s| :: x <= s[k] }
  predicate IsMax(s: seq<int>, x: int) { x in s && forall k | 0 <= k < |s| :: s[k] <= x }

  lemma {:induction false} SumConcat(a: seq<int>, b: seq<int>)
    ensures Sum(a + b) == Sum(a) + Sum(b)
    decreases |b|
  {
    if b == [] {
      assert a + b == a;
    } else {
      assert (a + b)[..|a + b| - 1] == a + b[..|b| - 1];
      SumConcat(a, b[..|b| - 1]);
    }
  }

  lemma {:induction false} SquaresConcat(a: seq<int>, b: seq<int>, mean: int)
    ensures Squares(a + b, mean) == Squares(a, mean) + Squares(b, mean)
  {
    if a == [] {
      assert a + b == b;
    } else {
      assert (a + b)[1..] == a[1..] + b;
      SquaresConcat(a[1..], b, mean);
    }
  }

  /** One element adds itself to the sum, and the square of its distance to the sum of squares. */
  lemma OneCounts(s: seq<int>, x: int, mean: int)
    ensures Sum([x]) == x && Squares([x], mean) == (x - mean) * (x - mean)
    ensures Sum(s + [x]) == Sum(s) + x && Squares(s + [x], mean) == Squares(s, mean) + (x - mean) * (x - mean)
  {
    assert [x][..0] == [] && [x][1..] == [];
    SumConcat(s, [x]);
    SquaresConcat(s, [x], mean);
  }

  lemma {:induction false} SumInsert(x: int, s: seq<int>)
    ensures Sum(Insert(x, s)) == x + Sum(s)
  {
    assert Sum([x]) == x;
    if s == [] || x <= s[0] {
      assert Insert(x, s) == [x] + s;
      SumConcat([x], s);
    } else {
      assert Insert(x, s) == [s[0]] + Insert(x, s[1..]) && s == [s[0]] + s[1..];
      SumInsert(x, s[1..]);
      SumConcat([s[0]], Insert(x, s[1..]));
      SumConcat([s[0]], s[1..]);
    }
  }

  lemma {:induction false} SumSort(s: seq<int>)
    ensures Sum(Sort(s)) == Sum(s)
  {
    if s != [] {
      SumSort(s[1..]);
      SumInsert(s[0], Sort(s[1..]));
      assert s == [s[0]] + s[1..];
      SumConcat([s[0]], s[1..]);
      assert Sum([s[0]]) == s[0];
    }
  }

  /** The sum does not depend on the order. */
  lemma SumSame(s: seq<int>, t: seq<int>)
    requires multiset(s) == multiset(t)
    ensures Sum(s) == Sum(t)
  {
    SortSame(s, t);
    SumSort(s);
    SumSort(t);
  }

  lemma {:induction false} SumBounds(s: seq<int>, lo: int, hi: int)
    requires forall k | 0 <= k < |s| :: lo <= s[k] <= hi
    ensures |s| * lo <= Sum(s) <= |s| * hi
    decreases |s|
  {
    if s != [] {
      var n := |s| - 1;
      SumBounds(s[..n], lo, hi);
      assert (n + 1) * lo == n * lo + lo && (n + 1) * hi == n * hi + hi;
    }
  }

  /** The mean, rounded toward zero, lies between the least and the greatest element. */
  lemma MeanBetween(s: seq<int>, min: int, max: int)
    requires IsMin(s, min) && IsMax(s, max)
    ensures |s| * min <= Sum(s) <= |s| * max && |s| > 0 && min <= TruncDiv(Sum(s), |s|) <= max
  {
    SumBounds(s, min, max);
    hide Sum, IsMin, IsMax;
    QuotientBetween(Sum(s), |s|, min, max);
  }

  lemma Beyond(n: int, p: int, q: int)
    requires n > 0
    ensures q > p ==> n * q >= n * p + n
  {
    var d := q - p - 1;
    assert n * q == n * p + n + n * d;
    assert d >= 0 ==> n * d >= 0;
  }

  lemma QuotientBetween(sum: int, n: int, lo: int, hi: int)
    requires n > 0 && n * lo <= sum <= n * hi
    ensures lo <= TruncDiv(sum, n) <= hi
  {
    TruncDivIs(sum, n);
    hide TruncDiv;
    Beyond(n, hi, TruncDiv(sum, n));
    Beyond(n, TruncDiv(sum, n), lo);
  }

  /** The sum of squares is never negative, and 0 exactly if all elements are the mean. */
  lemma {:induction false} SquaresPositive(s: seq<int>, mean: int)
    ensures Squares(s, mean) >= 0 && (Squares(s, mean) == 0 <==> forall k | 0 <= k < |s| :: s[k] == mean)
  {
    if s != [] {
      SquaresPositive(s[1..], mean);
      var d := s[0] - mean;
      assert d * d >= 0 && (d * d == 0 <==> d == 0) by { SquareSign(d); }
      assert forall k | 1 <= k < |s| :: s[k] == s[1..][k - 1];
    }
  }

  lemma SquareSign(d: int)
    ensures d * d >= 0 && (d * d == 0 <==> d == 0)
  {
    if d > 0 { assert d * d >= d; } else if d < 0 { assert d * d >= -d; }
  }

  method SumMinMax(a: array<int>) returns (sum: int, min: int, max: int)
    requires a.Length >= 1 && Ints(a[..])
    ensures sum == Sum(a[..]) && IsMin(a[..], min) && IsMax(a[..], max)
  {
    ghost var s := a[..];
    sum, min, max := 0, INT_MAX, INT_MIN;
    for i := 0 to a.Length
      invariant sum == Sum(s[..i])
      invariant if i == 0 then min == INT_MAX else min in s[..i] && forall k | 0 <= k < i :: min <= s[k]
      invariant if i == 0 then max == INT_MIN else max in s[..i] && forall k | 0 <= k < i :: s[k] <= max
    {
      assert s[..i + 1] == s[..i] + [s[i]];
      assert a[i] == s[i] && INT_MIN <= s[i] <= INT_MAX;
      sum := sum + a[i];
      if a[i] < min { min := a[i]; }
      if a[i] > max { max := a[i]; }
    }
    assert s[..a.Length] == s;
  }

  method SumSquares(a: array<int>, mean: int) returns (sum: int)
    ensures sum == Squares(a[..], mean)
  {
    ghost var s := a[..];
    sum := 0;
    for i := 0 to a.Length
      invariant sum == Squares(s[..i], mean)
    {
      assert s[..i + 1] == s[..i] + [s[i]];
      SquaresAppend(s[..i], s[i], mean);
      sum := sum + (a[i] - mean) * (a[i] - mean);
    }
    assert s[..a.Length] == s;
  }

  method ArrayStats(a: array<int>) returns (mean: int, variance: int, min: int, max: int, med: int)
    requires a.Length >= 1 && Ints(a[..])
    modifies a
    ensures IsMin(old(a[..]), min) && IsMax(old(a[..]), max)
    ensures if a.Length == 1 then med == old(a[0]) else SortsTo(old(a[..]), a.Length / 2 - 1, med)
    ensures mean == TruncDiv(Sum(old(a[..])), a.Length) && variance == TruncDiv(Squares(old(a[..]), mean), a.Length)
  {
    hide SortsTo, TruncDiv, IsMin, IsMax, Sum, Squares, Ints;
    ghost var was := a[..];
    mean, min, max := SumMinMax(a);
    med := KthElement(a, a.Length / 2);
    mean := TruncDiv(mean, a.Length);
    variance := SumSquares(a, mean);
    SquaresSame(was, a[..], mean);
    variance := TruncDiv(variance, a.Length);
  }

  // ----- merge sort, on ranges that count from 1 -----

  function Merged(l: seq<int>, r: seq<int>): (m: seq<int>)
    ensures |m| == |l| + |r|
  {
    if l == [] then r else if r == [] then l
    else if l[0] < r[0] then [l[0]] + Merged(l[1..], r) else [r[0]] + Merged(l, r[1..])
  }

  lemma {:induction false} MergedOk(l: seq<int>, r: seq<int>)
    requires Sorted(l) && Sorted(r)
    ensures Sorted(Merged(l, r)) && multiset(Merged(l, r)) == multiset(l) + multiset(r)
    decreases |l| + |r|
  {
    hide Sorted;
    if l == [] || r == [] {
    } else {
      HeadLeast(l);
      HeadLeast(r);
      if l[0] < r[0] {
        MergedOk(l[1..], r);
        assert Merged(l, r) == [l[0]] + Merged(l[1..], r);
        assert l == [l[0]] + l[1..];
        hide Merged;
        MergedCons(l[0], l[1..], r);
      } else {
        MergedOk(l, r[1..]);
        assert Merged(l, r) == [r[0]] + Merged(l, r[1..]);
        assert r == [r[0]] + r[1..];
        hide Merged;
        MergedCons(r[0], l, r[1..]);
      }
    }
  }

  lemma HeadLeast(s: seq<int>)
    requires Sorted(s) && s != []
    ensures Sorted(s[1..]) && (forall y | y in s :: s[0] <= y) && forall y | y in s[1..] :: s[0] <= y
  {
  }

  lemma MergedCons(x: int, l: seq<int>, r: seq<int>)
    requires Sorted(Merged(l, r)) && multiset(Merged(l, r)) == multiset(l) + multiset(r)
    requires (forall y | y in l :: x <= y) && (forall y | y in r :: x <= y)
    ensures Sorted([x] + Merged(l, r))
  {
    forall y | y in Merged(l, r) ensures x <= y {
      assert y in multiset(Merged(l, r));
      assert y in multiset(l) || y in multiset(r);
      assert y in l || y in r;
    }
    hide Merged, Sorted;
    SortedCons(x, Merged(l, r));
  }

  lemma MergedStep(l: seq<int>, r: seq<int>, i: int, j: int)
    requires 0 <= i <= |l| && 0 <= j <= |r| && i + j < |l| + |r|
    ensures if i < |l| && (j >= |r| || l[i] < r[j]) then Merged(l[i..], r[j..]) == [l[i]] + Merged(l[i + 1..], r[j..])
            else j < |r| && Merged(l[i..], r[j..]) == [r[j]] + Merged(l[i..], r[j + 1..])
  {
    if i < |l| { assert l[i..] == [l[i]] + l[i + 1..]; }
    if j < |r| { assert r[j..] == [r[j]] + r[j + 1..]; }
  }

  method CopyRange(a: array<int>, from: int, n: int) returns (b: array<int>)
    requires 0 <= from && 0 <= n && from + n <= a.Length
    ensures fresh(b) && b[..] == a[from..from + n]
  {
    b := new int[n];
    for i := 0 to n
      invariant forall k | 0 <= k < i :: b[k] == a[from + k]
    {
      b[i] := a[from + i];
    }
  }

  /** `s` with the places from `at` on overwritten by `m`. */
  function Overlaid(s: seq<int>, at: int, m: seq<int>): seq<int>
    requires 0 <= at && at + |m| <= |s|
  {
    s[..at] + m + s[at + |m|..]
  }

  lemma OverlaidStep(s: seq<int>, at: int, done: seq<int>, x: int)
    requires 0 <= at && at + |done| < |s|
    ensures Overlaid(s, at, done)[at + |done| := x] == Overlaid(s, at, done + [x])
  {
  }

  /** The merging loop: at place k - 1 goes the smaller of the two heads, the right one if they are equal. */
  method MergeInto(a: array<int>, p: int, r: int, left: array<int>, right: array<int>)
    requires 1 <= p <= r + 1 && r <= a.Length && left.Length + right.Length == r - p + 1 && a != left && a != right
    modifies a
    ensures a[..] == Overlaid(old(a[..]), p - 1, Merged(left[..], right[..]))
  {
    hide Merged, Overlaid;
    ghost var was, l, rr, done := a[..], left[..], right[..], [];
    var leftIndex, rightIndex := 0, 0;
    assert l[0..] == l && rr[0..] == rr;
    assert a[..] == Overlaid(was, p - 1, done) by { NothingOverlaid(was, p - 1); }
    for k := p to r + 1
      invariant left[..] == l && right[..] == rr && 0 <= leftIndex <= |l| && 0 <= rightIndex <= |rr|
      invariant |done| == k - p == leftIndex + rightIndex && a[..] == Overlaid(was, p - 1, done)
      invariant done + Merged(l[leftIndex..], rr[rightIndex..]) == Merged(l, rr)
    {
      MergedStep(l, rr, leftIndex, rightIndex);
      ghost var before := a[..];
      var x;
      if leftIndex < left.Length && rightIndex < right.Length {
        if left[leftIndex] < right[rightIndex] {
          x, leftIndex := left[leftIndex], leftIndex + 1;
        } else {
          x, rightIndex := right[rightIndex], rightIndex + 1;
        }
      } else if leftIndex < left.Length {
        x, leftIndex := left[leftIndex], leftIndex + 1;
      } else {
        x, rightIndex := right[rightIndex], rightIndex + 1;
      }
      OverlaidStep(was, p - 1, done, x);
      Moved(done, x, Merged(l[leftIndex..], rr[rightIndex..]));
      done := done + [x];
      a[k - 1] := x;
      assert a[..] == before[k - 1 := x];
    }
    MergedEnd(l, rr, done);
  }

  lemma Moved(done: seq<int>, x: int, rest: seq<int>)
    ensures done + ([x] + rest) == done + [x] + rest
  {
  }

  lemma NothingOverlaid(s: seq<int>, at: int)
    requires 0 <= at <= |s|
    ensures Overlaid(s, at, []) == s
  {
  }

  lemma MergedEnd(l: seq<int>, r: seq<int>, done: seq<int>)
    requires done + Merged(l[|l|..], r[|r|..]) == Merged(l, r)
    ensures done == Merged(l, r)
  {
    assert Merged(l[|l|..], r[|r|..]) == [];
  }

  /** Merges two sorted ranges that lie next to each other. */
  method Merge(a: array<int>, p: int, q: int, r: int)
    requires 1 <= p <= q < r <= a.Length
    requires SortedOn(a[..], p - 1, q) && SortedOn(a[..], q, r)
    modifies a
    ensures a[..] == SortRange(old(a[..]), p - 1, r)
  {
    hide Merged, Overlaid, SortRange, SortedOn;
    ghost var was := a[..];
    var left := CopyRange(a, p - 1, q - p + 1);
    var right := CopyRange(a, q, r - q);
    MergeInto(a, p, r, left, right);
    MergeSorts(was, p - 1, q, r);
  }

  lemma MergeSorts(s: seq<int>, lo: int, mid: int, hi: int)
    requires 0 <= lo <= mid <= hi <= |s| && SortedOn(s, lo, mid) && SortedOn(s, mid, hi)
    ensures Overlaid(s, lo, Merged(s[lo..mid], s[mid..hi])) == SortRange(s, lo, hi)
  {
    SortedOnIs(s, lo, mid);
    SortedOnIs(s, mid, hi);
    assert s[lo..hi] == s[lo..mid] + s[mid..hi];
    hide Merged, Sort, Sorted, SortedOn;
    MergedIsSort(s[lo..mid], s[mid..hi]);
  }

  lemma MergedIsSort(l: seq<int>, r: seq<int>)
    requires Sorted(l) && Sorted(r)
    ensures Merged(l, r) == Sort(l + r)
  {
    MergedOk(l, r);
    hide Merged, Sort, Sorted;
    SortIs(l + r, Merged(l, r));
  }

  method MSort(a: array<int>, p: int, r: int)
    requires 1 <= p <= r + 1 <= a.Length + 1
    modifies a
    ensures a[..] == SortRange(old(a[..]), p - 1, r)
    decreases r - p + 1
  {
    hide SortRange, SortedOn, Shuffled;
    ghost var was := a[..];
    if p >= r {
      OneSorted(was, p - 1, r);
      SortRangeIs(was, was, p - 1, r);
      return;
    }
    var q := (p + r) / 2;
    MSort(a, p, q);
    ghost var half := a[..];
    MSort(a, q + 1, r);
    HalvesSorted(was, half, a[..], p - 1, q, r);
    Merge(a, p, q, r);
  }

  lemma HalvesSorted(s: seq<int>, t: seq<int>, u: seq<int>, lo: int, mid: int, hi: int)
    requires 0 <= lo <= mid <= hi <= |s| && t == SortRange(s, lo, mid) && u == SortRange(t, mid, hi)
    ensures SortedOn(u, lo, mid) && SortedOn(u, mid, hi) && SortRange(u, lo, hi) == SortRange(s, lo, hi)
  {
    SortRangeShuffles(s, lo, mid);
    SortRangeShuffles(t, mid, hi);
    hide Shuffled, SortRange;
    ShuffledBound(t, u, mid, hi, 0);
    ShuffledWider(s, t, lo, mid, lo, hi);
    ShuffledWider(t, u, mid, hi, lo, hi);
    ShuffledTrans(s, t, u, lo, hi);
    SortRangeShuffles(u, lo, hi);
    ShuffledTrans(s, u, SortRange(u, lo, hi), lo, hi);
    SortRangeIs(s, SortRange(u, lo, hi), lo, hi);
  }

  method MergeSort(a: array<int>)
    modifies a
    ensures a[..] == Sort(old(a[..]))
  {
    MSort(a, 1, a.Length);
    assert old(a[..])[0..a.Length] == old(a[..]);
  }

  // ----- what the master checks -----

  method CheckSorted(a: array<int>) returns (sorted: bool)
    ensures sorted <==> Sorted(a[..])
  {
    ghost var s := a[..];
    sorted := true;
    var i := 0;
    while i < a.Length - 1
      invariant 0 <= i && (i <= a.Length - 1 || a.Length == 0) && sorted
      invariant forall m, n | 0 <= m < n <= i && n < |s| :: s[m] <= s[n]
    {
      if a[i] > a[i + 1] {
        assert s[i] > s[i + 1];
        return false;
      }
      i := i + 1;
    }
  }

  lemma Ends(s: seq<int>, min: int, max: int)
    requires IsMin(s, min) && IsMax(s, max)
    ensures |Sort(s)| == |s| && Sort(s)[0] == min && Sort(s)[|s| - 1] == max
  {
    SortOk(s);
    SortMembers(s);
    var t := Sort(s);
    hide Sort;
    assert min in multiset(s) && max in multiset(s);
    assert t[0] in s && t[|s| - 1] in s;
    var i :| 0 <= i < |t| && t[i] == min;
    var j :| 0 <= j < |t| && t[j] == max;
  }

  /** The mean and variance that the master computes itself. */
  method MasterStats(a: array<int>) returns (mean: int, variance: int)
    requires a.Length >= 1
    ensures mean == TruncDiv(Sum(a[..]), a.Length) && variance == TruncDiv(Squares(a[..], mean), a.Length)
  {
    hide TruncDiv, Squares;
    mean := 0;
    for i := 0 to a.Length
      invariant mean == Sum(a[..i])
    {
      assert a[..i + 1][..i] == a[..i];
      mean := mean + a[i];
    }
    assert a[..a.Length] == a[..];
    mean := TruncDiv(mean, a.Length);
    variance := SumSquares(a, mean);
    variance := TruncDiv(variance, a.Length);
  }

  /**
   * The master's comparisons, whatever pivots were drawn: the median it compares with lies inside the array exactly
   * if there are two elements or more, and then the three programs agree with the master.
   */
  method MasterChecks(elements: array<int>, quick: array<int>, merge: array<int>, stats: array<int>)
    returns (inside: bool, passes: bool)
    requires quick != merge && merge != stats && stats != quick && elements !in {quick, merge, stats}
    requires elements.Length >= 1 && elements[..] == quick[..] == merge[..] == stats[..] && Ints(elements[..])
    modifies quick, merge, stats
    ensures inside <==> elements.Length >= 2
    ensures inside ==> passes
    ensures quick[..] == merge[..] == Sort(elements[..])
  {
    hide Sort, Sorted, Sum, Squares, TruncDiv, IsMin, IsMax, Ints;
    ghost var s := elements[..];
    inside, passes := true, false;
    QuickSort(quick);
    MergeSort(merge);
    var mean, variance, min, max, med := ArrayStats(stats);
    SortOk(s);
    var sorted := CheckSorted(quick);
    if !sorted { return; }
    sorted := CheckSorted(merge);
    if !sorted { return; }
    var correctMean, correctVariance := MasterStats(elements);
    Ends(s, min, max);
    var last, middle := elements.Length - 1, TruncDiv(elements.Length, 2) - 1;
    MiddleInside(elements.Length);
    inside := 0 <= middle < quick.Length;
    if inside {
      passes := mean == correctMean && variance == correctVariance
                && min == quick[0] && max == quick[last] && med == quick[middle];
    }
  }

  lemma MiddleInside(n: int)
    requires n >= 1
    ensures TruncDiv(n, 2) == n / 2 && (0 <= TruncDiv(n, 2) - 1 < n <==> n >= 2)
  {
  }
}
