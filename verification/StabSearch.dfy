/** The binary search over debug entries of which only those of one type count. */
module StabSearch {

  datatype Stab = Stab(kind: int, value: int)

  const ADDRESS_STEP := 4  // addr is a pointer to 32-bit words: addr++ adds four

  predicate Of(stabs: seq<Stab>, kind: int, left: int, right: int, k: int) {
    left <= k <= right && 0 <= k < |stabs| && stabs[k].kind == kind
  }

  ghost predicate Increasing(stabs: seq<Stab>, kind: int, left: int, right: int) {
    forall m, n | Of(stabs, kind, left, right, m) && Of(stabs, kind, left, right, n) && m < n ::
      stabs[m].value < stabs[n].value
  }

  /** The entry `i` matches exactly, and the next of its type follows by four or less. */
  ghost predicate Close(stabs: seq<Stab>, kind: int, left: int, right: int, addr: int, i: int, j: int) {
    && Of(stabs, kind, left, right, i) && Of(stabs, kind, left, right, j) && i < j
    && stabs[i].value == addr && stabs[j].value <= addr + ADDRESS_STEP
    && forall k | i < k < j :: !Of(stabs, kind, left, right, k)
  }

  /** Entries of the type increase, and none follows an exact match by four or less. */
  ghost predicate Spaced(stabs: seq<Stab>, kind: int, left: int, right: int, addr: int) {
    Increasing(stabs, kind, left, right) && forall i, j :: !Close(stabs, kind, left, right, addr, i, j)
  }

  /** The last entry of the type at or below `addr`, and the next one, if any, just behind `r`. */
  ghost predicate Brackets(stabs: seq<Stab>, kind: int, left: int, right: int, addr: int, l: int, r: int) {
    && Of(stabs, kind, left, right, l) && stabs[l].value <= addr && l <= r <= right
    && (forall k | Of(stabs, kind, left, right, k) && k > l :: k > r && stabs[k].value > addr)
    && (r == right || Of(stabs, kind, left, right, r + 1))
  }

  /** Where the search ends when entries of the type are there but all lie above `addr`: just before the first. */
  ghost predicate BeforeFirst(stabs: seq<Stab>, kind: int, left: int, right: int, l: int, r: int) {
    && Of(stabs, kind, left, right, r + 1) && (forall k | Of(stabs, kind, left, right, k) :: k > r)
    && l == if left <= r then left else r
  }

  ghost predicate SomeOf(stabs: seq<Stab>, kind: int, left: int, right: int) {
    exists k :: Of(stabs, kind, left, right, k)
  }

  ghost predicate SomeUpTo(stabs: seq<Stab>, kind: int, left: int, right: int, addr: int) {
    exists k :: Of(stabs, kind, left, right, k) && stabs[k].value <= addr
  }

  function Top(stabs: seq<Stab>): (r: int)
    ensures forall k | 0 <= k < |stabs| :: stabs[k].value <= r
  {
    if stabs == [] then 0
    else
      var last := stabs[|stabs| - 1].value;
      var rest := Top(stabs[..|stabs| - 1]);
      assert forall k | 0 <= k < |stabs| - 1 :: stabs[k] == stabs[..|stabs| - 1][k];
      if last > rest then last else rest
  }

  /**
   * Below l every entry of the type is at most the region's left end, which is then such an entry at or below the
   * address; above r every entry of the type lies above the address, and one stands just behind r unless r is the
   * right end. The address has moved at most once, when an entry matched exactly.
   */
  ghost predicate Halfway(stabs: seq<Stab>, kind: int, left: int, right: int, addr: int, l: int, r: int,
      regionLeft: int, a: int) {
    && (forall k | Of(stabs, kind, left, right, k) && k < l ::
       k <= regionLeft && Of(stabs, kind, left, right, regionLeft))
    && (regionLeft != left ==> Of(stabs, kind, left, right, regionLeft) && stabs[regionLeft].value <= addr)
    && (Of(stabs, kind, left, right, regionLeft) && regionLeft < l ==> stabs[regionLeft].value <= addr)
    && (forall k | Of(stabs, kind, left, right, k) && k > r :: stabs[k].value > addr)
    && (r == right || Of(stabs, kind, left, right, r + 1))
    && left <= regionLeft <= l && l <= r + 1 && (regionLeft <= r || regionLeft == left)
    && (a == addr || (a == addr + ADDRESS_STEP && Of(stabs, kind, left, right, regionLeft)
       && stabs[regionLeft].value == addr))
  }

  /** Up to `r` the search cannot tell the moved address from the old one. */
  ghost predicate Settled(stabs: seq<Stab>, kind: int, left: int, right: int, addr: int, r: int, a: int) {
    forall k | Of(stabs, kind, left, right, k) && k <= r && stabs[k].value > addr :: stabs[k].value > a
  }

  lemma TopIs(stabs: seq<Stab>, k: int)
    requires 0 <= k < |stabs|
    ensures stabs[k].value <= Top(stabs)
  {
  }

  lemma Start(stabs: seq<Stab>, kind: int, left: int, right: int, addr: int)
    ensures left <= right ==> Halfway(stabs, kind, left, right, addr, left, right, left, addr)
  {
  }

  /** No entry of the type in [l, middle]. */
  lemma Skip(stabs: seq<Stab>, kind: int, left: int, right: int, addr: int, l: int, r: int, regionLeft: int, a: int,
      middle: int)
    requires Halfway(stabs, kind, left, right, addr, l, r, regionLeft, a) && left <= l <= middle <= r
    requires forall k | l <= k <= middle :: !Of(stabs, kind, left, right, k)
    ensures Halfway(stabs, kind, left, right, addr, middle + 1, r, regionLeft, a)
  {
  }

  /** The last entry of the type in [l, middle] is `m`. */
  lemma Probe(stabs: seq<Stab>, kind: int, left: int, right: int, addr: int, l: int, r: int, regionLeft: int, a: int,
      m: int, middle: int)
    requires Increasing(stabs, kind, left, right) && Halfway(stabs, kind, left, right, addr, l, r, regionLeft, a)
    requires Settled(stabs, kind, left, right, addr, r, a)
    requires left <= l <= m <= middle <= r && Of(stabs, kind, left, right, m)
    requires forall k | m < k <= middle :: !Of(stabs, kind, left, right, k)
    ensures stabs[m].value < a ==> Halfway(stabs, kind, left, right, addr, middle + 1, r, m, a)
    ensures stabs[m].value > a ==> Halfway(stabs, kind, left, right, addr, l, m - 1, regionLeft, a)
    ensures stabs[m].value > a ==> Settled(stabs, kind, left, right, addr, m - 1, a)
    ensures stabs[m].value == a ==> a == addr && Halfway(stabs, kind, left, right, addr, m, r, m, a + ADDRESS_STEP)
  {
  }

  /** The region once l has passed r and the scan from the right end has stopped at `scan`. */
  lemma Ended(stabs: seq<Stab>, kind: int, left: int, right: int, addr: int, r: int, regionLeft: int, a: int, scan: int)
    requires Increasing(stabs, kind, left, right) && Halfway(stabs, kind, left, right, addr, r + 1, r, regionLeft, a)
    requires SomeOf(stabs, kind, left, right) && scan <= r && (regionLeft <= scan || scan == r)
    requires (forall k | scan < k <= r :: !Of(stabs, kind, left, right, k))
             && (scan <= regionLeft || Of(stabs, kind, left, right, scan))
    ensures SomeUpTo(stabs, kind, left, right, addr) ==> Brackets(stabs, kind, left, right, addr, scan, r)
    ensures !SomeUpTo(stabs, kind, left, right, addr) ==> BeforeFirst(stabs, kind, left, right, scan, r)
  {
    if k :| Of(stabs, kind, left, right, k) && stabs[k].value <= addr {
      assert k <= regionLeft <= r && scan == regionLeft;
    } else {
      assert regionLeft == left;
      assert forall k | Of(stabs, kind, left, right, k) :: k > r;
    }
  }

  /** The last entry of the type in [l, m]; l - 1 if there is none. */
  function LastIn(stabs: seq<Stab>, kind: int, l: int, m: int): (r: int)
    requires 0 <= l && m < |stabs|
    ensures l <= m ==> l - 1 <= r <= m
    decreases m - l + 1
  {
    if m < l then m else if stabs[m].kind == kind then m else LastIn(stabs, kind, l, m - 1)
  }

  /** The scan for the region's left end. */
  function Back(stabs: seq<Stab>, kind: int, regionLeft: int, l: int): int
    requires 0 <= regionLeft && l < |stabs|
    decreases l - regionLeft
  {
    if l > regionLeft && stabs[l].kind != kind then Back(stabs, kind, regionLeft, l - 1) else l
  }

  /** The search as a function of its variables. */
  function Search(stabs: seq<Stab>, kind: int, l: int, r: int, regionLeft: int, any: bool, a: int): (int, int)
    requires 0 <= l && r < |stabs| && 0 <= regionLeft
    decreases if a <= Top(stabs) then Top(stabs) + 1 - a else 0, r - l + 1
  {
    if l > r then
      if any then (Back(stabs, kind, regionLeft, r), r) else (regionLeft, regionLeft - 1)
    else
      var middle := (l + r) / 2;
      var m := LastIn(stabs, kind, l, middle);
      if m < l then Search(stabs, kind, middle + 1, r, regionLeft, any, a)
      else if stabs[m].value < a then Search(stabs, kind, middle + 1, r, m, true, a)
      else if stabs[m].value > a then Search(stabs, kind, l, m - 1, regionLeft, true, a)
      else Search(stabs, kind, m, r, m, true, a + ADDRESS_STEP)
  }

  lemma SearchStep(stabs: seq<Stab>, kind: int, l: int, r: int, regionLeft: int, any: bool, a: int)
    requires 0 <= l && r < |stabs| && 0 <= regionLeft
    ensures var now := Search(stabs, kind, l, r, regionLeft, any, a);
            if l > r then now == if any then (Back(stabs, kind, regionLeft, r), r) else (regionLeft, regionLeft - 1)
            else
              var middle := (l + r) / 2;
              var m := LastIn(stabs, kind, l, middle);
              && l - 1 <= m <= middle
              && (m < l ==> now == Search(stabs, kind, middle + 1, r, regionLeft, any, a))
              && (m >= l && stabs[m].value < a ==> now == Search(stabs, kind, middle + 1, r, m, true, a))
              && (m >= l && stabs[m].value > a ==> now == Search(stabs, kind, l, m - 1, regionLeft, true, a))
              && (m >= l && stabs[m].value == a ==> now == Search(stabs, kind, m, r, m, true, a + ADDRESS_STEP))
  {
    hide Top;
  }

  method StabBinsearch(stabs: seq<Stab>, left: int, right: int, kind: int, addr: int)
      returns (regionLeft: int, regionRight: int)
    requires 0 <= left && right < |stabs|
    ensures (regionLeft, regionRight) == Search(stabs, kind, left, right, left, false, addr)
  {
    hide Top, Search;
    regionLeft, regionRight := left, right;
    var l, r, anyMatches, a := left, right, false, addr;
    while l <= r
      invariant left <= l && r <= right && regionRight == r && left <= regionLeft
      invariant Search(stabs, kind, l, r, regionLeft, anyMatches, a)
                == Search(stabs, kind, left, right, left, false, addr)
      invariant anyMatches || r == right
      decreases if a <= Top(stabs) then Top(stabs) + 1 - a else 0, r - l + 1
    {
      var trueM := (l + r) / 2;
      var m := trueM;
      SearchStep(stabs, kind, l, r, regionLeft, anyMatches, a);
      while m >= l && stabs[m].kind != kind
        invariant l - 1 <= m <= trueM
        invariant LastIn(stabs, kind, l, m) == LastIn(stabs, kind, l, trueM)
      {
        m := m - 1;
      }
      if m < l {
        l := trueM + 1;
      } else {
        anyMatches := true;
        TopIs(stabs, m);
        if stabs[m].value < a {
          regionLeft := m;
          l := trueM + 1;
        } else if stabs[m].value > a {
          regionRight := m - 1;
          r := m - 1;
        } else {
          regionLeft := m;
          l := m;
          a := a + ADDRESS_STEP;
        }
      }
    }
    SearchStep(stabs, kind, l, r, regionLeft, anyMatches, a);
    if !anyMatches {
      regionRight := regionLeft - 1;
    } else {
      l := regionRight;
      while l > regionLeft && stabs[l].kind != kind
        invariant l <= regionRight
        invariant Back(stabs, kind, regionLeft, l) == Back(stabs, kind, regionLeft, regionRight)
        decreases l - regionLeft
      {
        l := l - 1;
      }
      regionLeft := l;
    }
  }

  lemma {:induction false} LastInIs(stabs: seq<Stab>, kind: int, left: int, right: int, l: int, m: int)
    requires 0 <= left <= l <= m + 1 && m <= right < |stabs|
    ensures var n := LastIn(stabs, kind, l, m);
            && l - 1 <= n <= m && (n >= l ==> Of(stabs, kind, left, right, n))
            && forall k | n < k <= m :: !Of(stabs, kind, left, right, k)
    decreases m - l + 1
  {
    if m >= l && stabs[m].kind != kind {
      LastInIs(stabs, kind, left, right, l, m - 1);
    }
  }

  lemma {:induction false} BackIs(stabs: seq<Stab>, kind: int, left: int, right: int, regionLeft: int, l: int)
    requires 0 <= left <= regionLeft && l <= right < |stabs|
    ensures var scan := Back(stabs, kind, regionLeft, l);
            && scan <= l && (regionLeft <= scan || scan == l)
               && (scan <= regionLeft || Of(stabs, kind, left, right, scan))
            && forall k | scan < k <= l :: !Of(stabs, kind, left, right, k)
    decreases l - regionLeft
  {
    if l > regionLeft && stabs[l].kind != kind {
      BackIs(stabs, kind, left, right, regionLeft, l - 1);
    }
  }

  // ----- when a close successor misleads -----

  /**
   * The probes reach entry `i` while entry `j` behind it is still in range. Values do not matter: as long as the
   * address has not moved, a probe lies below the exact match or above it.
   */
  predicate Hits(stabs: seq<Stab>, kind: int, l: int, r: int, i: int, j: int)
    requires 0 <= l && r < |stabs|
    decreases r - l + 1
  {
    l <= r &&
    var middle := (l + r) / 2;
    var m := LastIn(stabs, kind, l, middle);
    if m < i then Hits(stabs, kind, middle + 1, r, i, j)
    else if m > i then Hits(stabs, kind, l, m - 1, i, j)
    else m >= l && r >= j
  }

  ghost predicate Unhit(stabs: seq<Stab>, kind: int, left: int, right: int, addr: int, l: int, r: int)
    requires 0 <= l && r < |stabs|
  {
    forall i, j | Close(stabs, kind, left, right, addr, i, j) :: !Hits(stabs, kind, l, r, i, j)
  }

  /** Some exact match with a close successor is reached while the successor is in range. */
  ghost predicate Misled(stabs: seq<Stab>, kind: int, left: int, right: int, addr: int)
    requires 0 <= left && right < |stabs|
  {
    exists i, j :: Close(stabs, kind, left, right, addr, i, j) && Hits(stabs, kind, left, right, i, j)
  }

  /** Where the search is, no close successor has misled it or will. */
  ghost predicate Undeceived(stabs: seq<Stab>, kind: int, left: int, right: int, addr: int, l: int, r: int, a: int)
    requires 0 <= l && r < |stabs|
  {
    Settled(stabs, kind, left, right, addr, r, a) && (a == addr ==> Unhit(stabs, kind, left, right, addr, l, r))
  }

  /** An entry behind the search is not reached any more. */
  lemma {:induction false} PassedUnhit(stabs: seq<Stab>, kind: int, l: int, r: int, i: int, j: int)
    requires 0 <= l && r < |stabs| && i < l
    ensures !Hits(stabs, kind, l, r, i, j)
    decreases r - l + 1
  {
    if l <= r {
      var m := LastIn(stabs, kind, l, (l + r) / 2);
      if m > i { PassedUnhit(stabs, kind, l, m - 1, i, j); }
    }
  }

  lemma SkipUnhit(stabs: seq<Stab>, kind: int, left: int, right: int, addr: int, l: int, r: int)
    requires 0 <= left <= l <= r <= right < |stabs| && LastIn(stabs, kind, l, (l + r) / 2) < l
    requires Unhit(stabs, kind, left, right, addr, l, r)
    ensures Unhit(stabs, kind, left, right, addr, (l + r) / 2 + 1, r)
  {
    forall i, j | Close(stabs, kind, left, right, addr, i, j) ensures !Hits(stabs, kind, (l + r) / 2 + 1, r, i, j) {
      if i < l { PassedUnhit(stabs, kind, (l + r) / 2 + 1, r, i, j); }
    }
  }

  /** The first entry of the type behind `m`, up to `k`. */
  lemma {:induction false} FirstBehind(stabs: seq<Stab>, kind: int, left: int, right: int, m: int, k: int)
      returns (j: int)
    requires Of(stabs, kind, left, right, k) && left <= m < k
    ensures m < j <= k && Of(stabs, kind, left, right, j) && forall n | m < n < j :: !Of(stabs, kind, left, right, n)
    decreases k - m
  {
    if n :| m < n < k && Of(stabs, kind, left, right, n) {
      j := FirstBehind(stabs, kind, left, right, m, n);
    } else {
      j := k;
    }
  }

  /** A probe at `m` while the address has not moved. */
  lemma ProbeUnhit(stabs: seq<Stab>, kind: int, left: int, right: int, addr: int, l: int, r: int, m: int)
    requires 0 <= left <= l <= r <= right < |stabs| && Increasing(stabs, kind, left, right)
    requires m == LastIn(stabs, kind, l, (l + r) / 2) >= l && Of(stabs, kind, left, right, m)
    requires Unhit(stabs, kind, left, right, addr, l, r)
    ensures stabs[m].value < addr ==> Unhit(stabs, kind, left, right, addr, (l + r) / 2 + 1, r)
    ensures stabs[m].value > addr ==> Unhit(stabs, kind, left, right, addr, l, m - 1)
    ensures stabs[m].value == addr ==> Settled(stabs, kind, left, right, addr, r, addr + ADDRESS_STEP)
  {
    if stabs[m].value == addr {
      forall k | Of(stabs, kind, left, right, k) && k <= r && stabs[k].value > addr
        ensures stabs[k].value > addr + ADDRESS_STEP
      {
        assert k > m;
        var j := FirstBehind(stabs, kind, left, right, m, k);
        assert stabs[k].value <= addr + ADDRESS_STEP ==> Close(stabs, kind, left, right, addr, m, j);
      }
    } else {
      forall i, j | Close(stabs, kind, left, right, addr, i, j)
        ensures stabs[m].value < addr ==> !Hits(stabs, kind, (l + r) / 2 + 1, r, i, j)
        ensures stabs[m].value > addr ==> !Hits(stabs, kind, l, m - 1, i, j)
      {
        assert !Hits(stabs, kind, l, r, i, j);
      }
    }
  }

  /** From half way on, a search that no close successor misleads ends with the bracketing region. */
  lemma {:induction false} SearchFrom(stabs: seq<Stab>, kind: int, left: int, right: int, addr: int, l: int, r: int,
      regionLeft: int, any: bool, a: int)
    requires 0 <= left <= right < |stabs| && left <= l && r <= right && l <= r + 1 && left <= regionLeft
    requires Increasing(stabs, kind, left, right) && Halfway(stabs, kind, left, right, addr, l, r, regionLeft, a)
    requires Undeceived(stabs, kind, left, right, addr, l, r, a)
    requires SomeOf(stabs, kind, left, right) && (any || forall k | Of(stabs, kind, left, right, k) :: l <= k <= r)
    ensures var (x, y) := Search(stabs, kind, l, r, regionLeft, any, a);
            if SomeUpTo(stabs, kind, left, right, addr) then Brackets(stabs, kind, left, right, addr, x, y)
            else BeforeFirst(stabs, kind, left, right, x, y)
    decreases if a <= Top(stabs) then Top(stabs) + 1 - a else 0, r - l + 1
  {
    hide Increasing, Brackets, BeforeFirst, Halfway, Top, SomeUpTo, Search, LastIn, Back, Settled, Unhit;
    SearchStep(stabs, kind, l, r, regionLeft, any, a);
    if l > r {
      BackIs(stabs, kind, left, right, regionLeft, r);
      Ended(stabs, kind, left, right, addr, r, regionLeft, a, Back(stabs, kind, regionLeft, r));
    } else {
      var middle := (l + r) / 2;
      var m := LastIn(stabs, kind, l, middle);
      LastInIs(stabs, kind, left, right, l, middle);
      if m < l {
        Skip(stabs, kind, left, right, addr, l, r, regionLeft, a, middle);
        if a == addr { SkipUnhit(stabs, kind, left, right, addr, l, r); }
        SearchFrom(stabs, kind, left, right, addr, middle + 1, r, regionLeft, any, a);
      } else {
        TopIs(stabs, m);
        Probe(stabs, kind, left, right, addr, l, r, regionLeft, a, m, middle);
        if a == addr { ProbeUnhit(stabs, kind, left, right, addr, l, r, m); }
        if stabs[m].value < a {
          SearchFrom(stabs, kind, left, right, addr, middle + 1, r, m, true, a);
        } else if stabs[m].value > a {
          SearchFrom(stabs, kind, left, right, addr, l, m - 1, regionLeft, true, a);
        } else {
          SearchFrom(stabs, kind, left, right, addr, m, r, m, true, a + ADDRESS_STEP);
        }
      }
    }
  }

  /** Once the address has moved to entry `j` or beyond, the left end is not found below `j`. */
  lemma {:induction false} SearchBeyond(stabs: seq<Stab>, kind: int, left: int, right: int, l: int, r: int,
      regionLeft: int, a: int, j: int)
    requires 0 <= left <= l && r <= right < |stabs| && left <= regionLeft && l <= r + 1
    requires Increasing(stabs, kind, left, right) && Of(stabs, kind, left, right, j) && stabs[j].value <= a && j <= r
    ensures Search(stabs, kind, l, r, regionLeft, true, a).0 >= j
    decreases if a <= Top(stabs) then Top(stabs) + 1 - a else 0, r - l + 1
  {
    hide Top, Search, LastIn, Back;
    SearchStep(stabs, kind, l, r, regionLeft, true, a);
    if l > r {
      BackIs(stabs, kind, left, right, regionLeft, r);
    } else {
      var middle := (l + r) / 2;
      var m := LastIn(stabs, kind, l, middle);
      LastInIs(stabs, kind, left, right, l, middle);
      if m < l {
        SearchBeyond(stabs, kind, left, right, middle + 1, r, regionLeft, a, j);
      } else {
        TopIs(stabs, m);
        if stabs[m].value < a {
          SearchBeyond(stabs, kind, left, right, middle + 1, r, m, a, j);
        } else if stabs[m].value > a {
          SearchBeyond(stabs, kind, left, right, l, m - 1, regionLeft, a, j);
        } else {
          SearchBeyond(stabs, kind, left, right, m, r, m, a + ADDRESS_STEP, j);
        }
      }
    }
  }

  /** A close successor that is in range when its entry is reached misleads the search. */
  lemma {:induction false} HitMisleads(stabs: seq<Stab>, kind: int, left: int, right: int, addr: int, l: int, r: int,
      regionLeft: int, any: bool, i: int, j: int)
    requires 0 <= left <= l && r <= right < |stabs| && left <= regionLeft
    requires Increasing(stabs, kind, left, right) && Close(stabs, kind, left, right, addr, i, j)
             && Hits(stabs, kind, l, r, i, j)
    ensures Search(stabs, kind, l, r, regionLeft, any, addr).0 >= j
    decreases r - l + 1
  {
    hide Top, Search, LastIn;
    SearchStep(stabs, kind, l, r, regionLeft, any, addr);
    var middle := (l + r) / 2;
    var m := LastIn(stabs, kind, l, middle);
    LastInIs(stabs, kind, left, right, l, middle);
    if m < l {
      if i < l { PassedUnhit(stabs, kind, l, r, i, j); }
      HitMisleads(stabs, kind, left, right, addr, middle + 1, r, regionLeft, any, i, j);
    } else if m < i {
      HitMisleads(stabs, kind, left, right, addr, middle + 1, r, m, true, i, j);
    } else if m > i {
      HitMisleads(stabs, kind, left, right, addr, l, m - 1, regionLeft, true, i, j);
    } else {
      SearchBeyond(stabs, kind, left, right, m, r, m, addr + ADDRESS_STEP, j);
    }
  }

  lemma {:induction false} SearchNone(stabs: seq<Stab>, kind: int, left: int, right: int, addr: int, l: int, r: int)
    requires 0 <= left <= l && r <= right < |stabs| && !SomeOf(stabs, kind, left, right)
    ensures Search(stabs, kind, l, r, left, false, addr) == (left, left - 1)
    decreases r - l + 1
  {
    if l <= r {
      var middle := (l + r) / 2;
      LastInIs(stabs, kind, left, right, l, middle);
      assert LastIn(stabs, kind, l, middle) < l;
      hide Top;
      SearchNone(stabs, kind, left, right, addr, middle + 1, r);
    }
  }

  /**
   * With entries that increase, the search finds the region of an address exactly if no close successor misleads it.
   */
  lemma FindsIff(stabs: seq<Stab>, kind: int, left: int, right: int, addr: int)
    requires 0 <= left && right < |stabs| && Increasing(stabs, kind, left, right)
    ensures var (l, r) := Search(stabs, kind, left, right, left, false, addr);
            if SomeUpTo(stabs, kind, left, right, addr)
            then Brackets(stabs, kind, left, right, addr, l, r) <==> !Misled(stabs, kind, left, right, addr)
            else if SomeOf(stabs, kind, left, right) then BeforeFirst(stabs, kind, left, right, l, r)
            else l == left && r == left - 1
  {
    if Misled(stabs, kind, left, right, addr) {
      var i, j :| Close(stabs, kind, left, right, addr, i, j) && Hits(stabs, kind, left, right, i, j);
      HitMisleads(stabs, kind, left, right, addr, left, right, left, false, i, j);
      hide Search, Hits;
      assert SomeUpTo(stabs, kind, left, right, addr);
    } else if SomeOf(stabs, kind, left, right) {
      hide Search, Hits;
      Start(stabs, kind, left, right, addr);
      SearchFrom(stabs, kind, left, right, addr, left, right, left, false, addr);
    } else {
      SearchNone(stabs, kind, left, right, addr, left, right);
    }
  }

  /** What the search finds when no exact match has a close successor, whatever the probes. */
  lemma SearchFinds(stabs: seq<Stab>, kind: int, left: int, right: int, addr: int)
    requires 0 <= left && right < |stabs| && Spaced(stabs, kind, left, right, addr)
    ensures var (l, r) := Search(stabs, kind, left, right, left, false, addr);
            if SomeUpTo(stabs, kind, left, right, addr) then Brackets(stabs, kind, left, right, addr, l, r)
            else if SomeOf(stabs, kind, left, right) then BeforeFirst(stabs, kind, left, right, l, r)
            else l == left && r == left - 1
  {
    hide Search;
    FindsIff(stabs, kind, left, right, addr);
  }

  lemma {:induction false} RegionFrom(stabs: seq<Stab>, kind: int, left: int, right: int, l: int, r: int,
      regionLeft: int, any: bool, a: int)
    requires 0 <= left <= l && r <= right < |stabs| && left <= regionLeft
    requires any || (SomeOf(stabs, kind, left, right) && forall k | Of(stabs, kind, left, right, k) :: l <= k <= r)
    ensures var (x, y) := Search(stabs, kind, l, r, regionLeft, any, a); x <= y
    decreases if a <= Top(stabs) then Top(stabs) + 1 - a else 0, r - l + 1
  {
    hide Top, Search, LastIn, Back;
    SearchStep(stabs, kind, l, r, regionLeft, any, a);
    if l > r {
      BackIs(stabs, kind, left, right, regionLeft, r);
    } else {
      var middle := (l + r) / 2;
      var m := LastIn(stabs, kind, l, middle);
      LastInIs(stabs, kind, left, right, l, middle);
      if m < l {
        RegionFrom(stabs, kind, left, right, middle + 1, r, regionLeft, any, a);
      } else {
        TopIs(stabs, m);
        if stabs[m].value < a {
          RegionFrom(stabs, kind, left, right, middle + 1, r, m, true, a);
        } else if stabs[m].value > a {
          RegionFrom(stabs, kind, left, right, l, m - 1, regionLeft, true, a);
        } else {
          RegionFrom(stabs, kind, left, right, m, r, m, true, a + ADDRESS_STEP);
        }
      }
    }
  }

  /**
   * The left end passes the right one only when there is no entry of the type; not whenever the address is below
   * them all.
   */
  lemma EmptyRegion(stabs: seq<Stab>, kind: int, left: int, right: int, addr: int)
    requires 0 <= left && right < |stabs|
    ensures var (l, r) := Search(stabs, kind, left, right, left, false, addr);
            l > r <==> !SomeOf(stabs, kind, left, right)
  {
    hide Search;
    if SomeOf(stabs, kind, left, right) {
      RegionFrom(stabs, kind, left, right, left, right, left, false, addr);
    } else {
      SearchNone(stabs, kind, left, right, addr, left, right);
    }
  }

  /** Two entries four apart: an address that matches the first exactly is taken to lie in the second. */
  lemma TooClose()
    ensures var stabs := [Stab(36, 100), Stab(36, 104)];
            Search(stabs, 36, 0, 1, 0, false, 100) == (1, 1) && !Brackets(stabs, 36, 0, 1, 100, 1, 1)
  {
    var stabs := [Stab(36, 100), Stab(36, 104)];
    assert Search(stabs, 36, 2, 1, 1, true, 108) == (1, 1);
    assert Search(stabs, 36, 1, 1, 1, true, 108) == (1, 1);
    assert Search(stabs, 36, 1, 1, 0, true, 104) == (1, 1);
    assert Search(stabs, 36, 0, 1, 0, true, 104) == (1, 1);
    assert Of(stabs, 36, 0, 1, 0) && Of(stabs, 36, 0, 1, 1);
  }
}
