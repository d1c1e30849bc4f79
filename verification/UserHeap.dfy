/** The page allocator of the user heap: the lowest run of unmarked pages, and the table of allocation sizes. */
module UserHeap {
  import opened Counting
  import opened Mmu

  const USER_HEAP_START := 0x8000_0000
  const USER_HEAP_MAX := 0xA000_0000
  const FIRST_PAGE := 0x8_0000  // USER_HEAP_START / PAGE_SIZE
  const LAST_PAGE := 0xA_0000   // USER_HEAP_MAX / PAGE_SIZE
  const ARRAY_SIZE := 0x2_0000  // entries of allocation_sizes

  datatype Address = Null | At(va: int)

  function RoundUp32(size: int): int { (size + PAGE_SIZE - 1) % WORD_LIMIT / PAGE_SIZE * PAGE_SIZE }

  /** The number of pages the search asks for, with the 32-bit sum of the rounding. */
  function Pages32(size: int): int { RoundUp32(size) / PAGE_SIZE }

  /** The number of pages a size takes. */
  function PagesOf(size: int): int { (size + PAGE_SIZE - 1) / PAGE_SIZE }

  lemma RoundingWraps(size: int)
    requires 0 <= size < WORD_LIMIT
    ensures Pages32(size) == PagesOf(size) <==> size <= WORD_LIMIT - PAGE_SIZE
    ensures size > WORD_LIMIT - PAGE_SIZE ==> Pages32(size) == 0 && PagesOf(size) == WORD_LIMIT / PAGE_SIZE
    ensures RoundUp32(size) == Pages32(size) * PAGE_SIZE
  {
  }

  lemma PagesAsked(size: int)
    requires 0 <= size < WORD_LIMIT
    ensures Pages32(size) == if 0 < size <= WORD_LIMIT - PAGE_SIZE then PagesOf(size) else 0
  {
    RoundingWraps(size);
  }

  /** The page of an address. */
  function PageAt(va: int): int { va / PAGE_SIZE }

  /** Where the kernel's loops over user memory end, with their 32-bit sums. */
  function EndOf(va: int, size: int): int { RoundUp32((va + size) % WORD_LIMIT) }

  /** The pages they visit. */
  function Touched(va: int, size: int): set<int> { Range(PageAt(va), PageAt(EndOf(va, size))) }

  // ----- runs of pages, by page number -----

  predicate IsFree(marked: set<int>, page: int, n: int) {
    forall q | page <= q < page + n :: q !in marked
  }

  /** `n` unmarked pages inside the heap. */
  predicate Fits(marked: set<int>, page: int, n: int) {
    page + n <= LAST_PAGE && IsFree(marked, page, n)
  }

  /** The lowest run of `n` unmarked pages from `first` on, or none. */
  ghost predicate Lowest(marked: set<int>, first: int, n: int, r: Address) {
    match r
    case Null => forall p | first <= p :: !Fits(marked, p, n)
    case At(va) =>
      && va % PAGE_SIZE == 0 && first <= va / PAGE_SIZE && Fits(marked, va / PAGE_SIZE, n)
      && forall p | first <= p < va / PAGE_SIZE :: !Fits(marked, p, n)
  }

  /** The search finds what the size asks for exactly when rounding the size up does not wrap. */
  lemma LowestIffNoWrap(marked: set<int>, first: int, size: int, r: Address)
    requires 0 <= size < WORD_LIMIT && 0 <= first <= LAST_PAGE && Lowest(marked, first, Pages32(size), r)
    ensures Lowest(marked, first, PagesOf(size), r) <==> size <= WORD_LIMIT - PAGE_SIZE
  {
    RoundingWraps(size);
    if size > WORD_LIMIT - PAGE_SIZE {
      assert Fits(marked, first, 0);
      assert r.At?;
      assert !Fits(marked, r.va / PAGE_SIZE, PagesOf(size));
    }
  }

  function Run(page: int, n: int): set<int> { Range(page, page + n) }

  /** Marked pages and unmarked pages lie apart. */
  lemma Apart(marked: set<int>, p: int, n: int, page: int, m: int)
    requires n > 0 && m > 0 && (forall q | p <= q < p + n :: q in marked) && IsFree(marked, page, m)
    ensures p + n <= page || page + m <= p
  {
    var q := if p <= page then page else p;
    assert q < p + n && q < page + m ==> q in marked && q !in marked;
  }

  lemma RunFree(marked: set<int>, page: int, n: int)
    ensures IsFree(marked, page, n) ==> marked !! Run(page, n)
    ensures forall q | page <= q < page + n :: q in Run(page, n)
  {
  }

  lemma FirstFree(marked: set<int>, page: int, n: int)
    requires IsFree(marked, page, n) && n > 0
    ensures page !in marked
  {
  }

  lemma LowestIs(marked: set<int>, first: int, n: int, r: Address)
    requires Lowest(marked, first, n, r) && r.At?
    ensures first <= r.va / PAGE_SIZE && r.va / PAGE_SIZE + n <= LAST_PAGE && IsFree(marked, r.va / PAGE_SIZE, n)
  {
  }

  ghost predicate Allocated(first: int, marked: set<int>, table: seq<int>, size: int, p: int) {
    && first <= p && FIRST_PAGE <= p && 0 < size <= WORD_LIMIT - PAGE_SIZE && 0 < PagesOf(size)
       && p + PagesOf(size) <= LAST_PAGE
    && (forall q | p <= q < p + PagesOf(size) :: q in marked)
    && p - FIRST_PAGE < |table| && table[p - FIRST_PAGE] == size
  }

  /** Live allocations lie apart on marked pages behind the break, and their sizes are in the table. */
  ghost predicate Entries(first: int, marked: set<int>, table: seq<int>, live: map<int, int>) {
    && (forall p | p in live :: Allocated(first, marked, table, live[p], p))
    && (forall p, q | p in live && q in live && p < q :: p + PagesOf(live[p]) <= q)
  }

  /** Table entries of unmarked pages do not matter. */
  lemma TableOnly(first: int, marked: set<int>, table: seq<int>, r: seq<int>, live: map<int, int>)
    requires Entries(first, marked, table, live) && |r| == |table|
    requires forall k | 0 <= k < |table| && r[k] != table[k] :: FIRST_PAGE + k !in marked
    ensures Entries(first, marked, r, live)
  {
    forall p | p in live ensures Allocated(first, marked, r, live[p], p) {
      assert Allocated(first, marked, table, live[p], p) && p in marked;
      assert FIRST_PAGE + (p - FIRST_PAGE) == p;
    }
  }

  /** A run of unmarked pages becomes an allocation. */
  lemma Taken(first: int, marked: set<int>, table: seq<int>, live: map<int, int>, page: int, size: int)
    requires Entries(first, marked, table, live) && first <= page && FIRST_PAGE <= page
    requires 0 < size <= WORD_LIMIT - PAGE_SIZE
    requires 0 < PagesOf(size) && page + PagesOf(size) <= LAST_PAGE && IsFree(marked, page, PagesOf(size))
    requires page - FIRST_PAGE < |table| && table[page - FIRST_PAGE] == size
    ensures page !in live && marked !! Run(page, PagesOf(size))
    ensures Entries(first, marked + Run(page, PagesOf(size)), table, live[page := size])
  {
    var n := PagesOf(size);
    RunFree(marked, page, n);
    hide PagesOf, Run;
    forall p | p in live ensures p + PagesOf(live[p]) <= page || page + n <= p {
      assert Allocated(first, marked, table, live[p], p);
      Apart(marked, p, PagesOf(live[p]), page, n);
    }
    hide IsFree;
    assert forall p | p in live :: Allocated(first, marked, table, live[p], p);
  }

  lemma RoundUpPage(x: int)
    requires 0 <= x <= WORD_LIMIT - PAGE_SIZE
    ensures PageAt(RoundUp32(x)) == PagesOf(x)
  {
    assert (x + PAGE_SIZE - 1) % WORD_LIMIT == x + PAGE_SIZE - 1;
  }

  lemma PagesShift(page: int, size: int)
    ensures PagesOf(page * PAGE_SIZE + size) == page + PagesOf(size) && PageAt(page * PAGE_SIZE) == page
  {
  }

  lemma SizeBound(size: int)
    ensures size <= PagesOf(size) * PAGE_SIZE
  {
  }

  /** From `off` bytes inside a page on, a size touches that page and the following ones. */
  lemma TouchedIs(page: int, off: int, size: int)
    requires FIRST_PAGE <= page && 0 <= off < PAGE_SIZE && 0 < size && page + PagesOf(off + size) <= LAST_PAGE + 1
    ensures Touched(page * PAGE_SIZE + off, size) == Run(page, PagesOf(off + size))
  {
    hide RoundUp32, PagesOf;
    SizeBound(off + size);
    PagesShift(page, off + size);
    RoundUpPage(page * PAGE_SIZE + off + size);
    assert (page * PAGE_SIZE + off + size) % WORD_LIMIT == page * PAGE_SIZE + off + size;
    assert PageAt(page * PAGE_SIZE + off) == page;
  }

  lemma OnePageMore(off: int, size: int)
    requires 0 <= off < PAGE_SIZE
    ensures PagesOf(size) <= PagesOf(off + size) <= PagesOf(size) + 1
  {
  }

  /** What lies within the page before a page address is rounded up to it. */
  lemma RoundUpInside(page: int, x: int)
    requires FIRST_PAGE <= page <= LAST_PAGE && (page - 1) * PAGE_SIZE < x <= page * PAGE_SIZE
    ensures RoundUp32(x) == page * PAGE_SIZE
  {
    var r := x + PAGE_SIZE - 1 - page * PAGE_SIZE;
    assert (x + PAGE_SIZE - 1) % WORD_LIMIT == page * PAGE_SIZE + r;
    assert (page * PAGE_SIZE + r) / PAGE_SIZE == page;
  }

  lemma WrapsAt(x: int)
    requires 0 <= x < 2 * WORD_LIMIT
    ensures x % WORD_LIMIT == if x < WORD_LIMIT then x else x - WORD_LIMIT
  {
  }

  /** A size of 0, or one whose rounding wraps, touches nothing from a page address on. */
  lemma TouchedNone(va: int, size: int)
    requires USER_HEAP_START <= va <= USER_HEAP_MAX && va % PAGE_SIZE == 0
             && (size == 0 || WORD_LIMIT - PAGE_SIZE < size < WORD_LIMIT)
    ensures Touched(va, size) == {}
  {
    var page := va / PAGE_SIZE;
    assert va == page * PAGE_SIZE && FIRST_PAGE <= page <= LAST_PAGE;
    var x := if size == 0 then va else va + size - WORD_LIMIT;
    hide RoundUp32, PageAt;
    WrapsAt(va + size);
    RoundUpInside(page, x);
    assert EndOf(va, size) == va;
  }

  /** One page visited by the kernel's loops. */
  lemma Visit(va: int, k: int)
    requires 0 <= va && 0 <= k
    ensures PageAt(va + k * PAGE_SIZE) == PageAt(va) + k
    ensures Range(PageAt(va), PageAt(va) + k + 1) == Range(PageAt(va), PageAt(va) + k) + {PageAt(va) + k}
    ensures Range(PageAt(va), PageAt(va)) == {}
  {
  }

  /** A search for no pages, for a size that wraps or is 0. */
  lemma FoundNothing(first: int, marked: set<int>, table: seq<int>, live: map<int, int>, size: int, r: Address)
    requires Entries(first, marked, table, live) && Lowest(marked, first, 0, r)
    requires FIRST_PAGE <= first <= LAST_PAGE && first - FIRST_PAGE < |table|
             && (size == 0 || WORD_LIMIT - PAGE_SIZE < size < WORD_LIMIT)
    ensures r == At(first * PAGE_SIZE) && r.va / PAGE_SIZE == first && Touched(r.va, size) == {}
    ensures Entries(first, marked, table[first - FIRST_PAGE := size], live) <==> first !in live
  {
    LowestOfNone(marked, first, r);
    hide Entries, Lowest, Touched;
    TouchedNone(r.va, size);
    Overwritten(first, marked, table, live, first, size);
    if first in live {
      LiveSize(first, marked, table, live, first);
    }
  }

  /** A search for the pages of a size, when the scan wrote no table entry of a marked page. */
  lemma FoundPages(first: int, marked: set<int>, table: seq<int>, r: seq<int>, live: map<int, int>, size: int,
      found: Address)
    requires Entries(first, marked, table, live) && Lowest(marked, first, PagesOf(size), found)
    requires FIRST_PAGE <= first && 0 < size <= WORD_LIMIT - PAGE_SIZE && |r| == |table| == ARRAY_SIZE + 1
    requires forall k | 0 <= k < |table| && r[k] != table[k] :: IsFree(marked, FIRST_PAGE + k, PagesOf(size))
    requires found.At? ==> r == table[found.va / PAGE_SIZE - FIRST_PAGE := size]
    ensures Entries(first, marked, r, live)
    ensures found.At? ==>
              var page := found.va / PAGE_SIZE;
              && 0 <= found.va < WORD_LIMIT && Touched(found.va, size) == Run(page, PagesOf(size)) && page !in live
              && marked !! Run(page, PagesOf(size))
              && Entries(first, marked + Run(page, PagesOf(size)), r, live[page := size])
  {
    hide PagesOf, Entries, Lowest, Touched, Run;
    PagesPositive(size);
    ScanOnly(first, marked, table, r, live, PagesOf(size));
    if found.At? {
      LowestIs(marked, first, PagesOf(size), found);
      AlignedAt(found, first, PagesOf(size), marked);
      FoundRun(first, marked, r, live, size, found.va / PAGE_SIZE);
    }
  }

  lemma PagesPositive(size: int)
    requires size > 0
    ensures PagesOf(size) > 0
  {
  }

  lemma ScanOnly(first: int, marked: set<int>, table: seq<int>, r: seq<int>, live: map<int, int>, n: int)
    requires Entries(first, marked, table, live) && |r| == |table| && n > 0
    requires forall k | 0 <= k < |table| && r[k] != table[k] :: IsFree(marked, FIRST_PAGE + k, n)
    ensures Entries(first, marked, r, live)
  {
    hide Entries;
    forall k | 0 <= k < |table| && r[k] != table[k] ensures FIRST_PAGE + k !in marked {
      FirstFree(marked, FIRST_PAGE + k, n);
    }
    TableOnly(first, marked, table, r, live);
  }

  lemma FoundRun(first: int, marked: set<int>, r: seq<int>, live: map<int, int>, size: int, page: int)
    requires Entries(first, marked, r, live) && FIRST_PAGE <= first <= page && 0 < size <= WORD_LIMIT - PAGE_SIZE
    requires page + PagesOf(size) <= LAST_PAGE && IsFree(marked, page, PagesOf(size))
    requires page - FIRST_PAGE < |r| && r[page - FIRST_PAGE] == size
    ensures Touched(page * PAGE_SIZE, size) == Run(page, PagesOf(size)) && page !in live
    ensures marked !! Run(page, PagesOf(size))
    ensures Entries(first, marked + Run(page, PagesOf(size)), r, live[page := size])
  {
    hide PagesOf, Entries, IsFree, Touched, Run, Range, PageAt, EndOf;
    PagesPositive(size);
    Taken(first, marked, r, live, page, size);
    TouchedIs(page, 0, size);
  }

  lemma SameMembers(a: set<int>, b: set<int>, c: set<int>)
    requires forall q :: q in a <==> q in b || q in c
    ensures a == b + c
  {
    assert forall q :: q in a <==> q in b + c;
  }

  lemma Visited(va: int, size: int, k: int)
    requires 0 <= va && 0 <= k && va + k * PAGE_SIZE >= EndOf(va, size)
    requires k == 0 || va + k * PAGE_SIZE < EndOf(va, size) + PAGE_SIZE
    ensures Range(PageAt(va), PageAt(va) + k) == Touched(va, size)
    ensures forall q :: q in Touched(va, size) <==> PageAt(va) <= q < PageAt(va) + k
  {
    hide EndOf, PageAt;
    EndAligned(va, size);
    LastVisited(va, EndOf(va, size), k);
  }

  lemma EndAligned(va: int, size: int)
    ensures EndOf(va, size) % PAGE_SIZE == 0
  {
  }

  lemma LastVisited(va: int, end: int, k: int)
    requires 0 <= k && end % PAGE_SIZE == 0 && va + k * PAGE_SIZE >= end
    requires k == 0 || va + k * PAGE_SIZE < end + PAGE_SIZE
    ensures if k == 0 then PageAt(end) <= PageAt(va) else PageAt(end) == PageAt(va) + k
  {
  }

  /** No pages are found at once. */
  lemma LowestOfNone(marked: set<int>, first: int, r: Address)
    requires Lowest(marked, first, 0, r) && 0 <= first <= LAST_PAGE
    ensures r == At(first * PAGE_SIZE)
  {
    assert Fits(marked, first, 0);
  }

  lemma AlignedAt(r: Address, first: int, n: int, marked: set<int>)
    requires Lowest(marked, first, n, r) && r.At? && 0 <= first && 0 <= n
    ensures r.va % PAGE_SIZE == 0 && 0 <= r.va < WORD_LIMIT
  {
  }

  lemma GivenBack(m: set<int>, run: set<int>, live: map<int, int>, page: int, size: int)
    requires m !! run && page !in live
    ensures m + run - run == m && live[page := size] - {page} == live && live[page := size][page] == size
  {
  }

  lemma LiveSize(first: int, marked: set<int>, table: seq<int>, live: map<int, int>, page: int)
    requires Entries(first, marked, table, live) && page in live
    ensures 0 < live[page] <= WORD_LIMIT - PAGE_SIZE
  {
    assert Allocated(first, marked, table, live[page], page);
  }

  lemma Given(first: int, marked: set<int>, table: seq<int>, live: map<int, int>, page: int)
    requires Entries(first, marked, table, live) && page in live
    ensures 0 <= page - FIRST_PAGE < |table| && table[page - FIRST_PAGE] == live[page]
    ensures Entries(first, marked - Run(page, PagesOf(live[page])), table[page - FIRST_PAGE := 0], live - {page})
  {
    assert Allocated(first, marked, table, live[page], page);
    var m, r := marked - Run(page, PagesOf(live[page])), table[page - FIRST_PAGE := 0];
    hide PagesOf;
    forall p | p in live && p != page ensures Allocated(first, m, r, live[p], p) {
      assert Allocated(first, marked, table, live[p], p);
      assert p + PagesOf(live[p]) <= page || page + PagesOf(live[page]) <= p;
    }
  }

  /** Unmarking pages keeps the other allocations exactly if it touches none of theirs. */
  lemma Released(first: int, marked: set<int>, table: seq<int>, live: map<int, int>, page: int, pages: set<int>)
    requires Entries(first, marked, table, live) && 0 <= page - FIRST_PAGE < |table|
    ensures var rest := live - {page};
            Entries(first, marked - pages, table[page - FIRST_PAGE := 0], rest)
            <==> forall p | p in rest :: Run(p, PagesOf(rest[p])) !! pages
  {
    var m, r, l := marked - pages, table[page - FIRST_PAGE := 0], live - {page};
    hide PagesOf;
    forall p | p in l ensures Allocated(first, m, r, l[p], p) <==> Run(p, PagesOf(live[p])) !! pages {
      assert Allocated(first, marked, table, live[p], p);
    }
    assert forall p :: p in l <==> p in live && p != page;
  }

  /** A run that begins at an allocation and is at most a page longer meets no other, unless one begins right behind. */
  lemma Spill(first: int, marked: set<int>, table: seq<int>, live: map<int, int>, page: int, n: int)
    requires Entries(first, marked, table, live) && page in live
    requires PagesOf(live[page]) <= n <= PagesOf(live[page]) + 1
    ensures (forall p | p in live - {page} :: Run(p, PagesOf(live[p])) !! Run(page, n))
            <==> n == PagesOf(live[page]) || page + PagesOf(live[page]) !in live - {page}
  {
    var next := page + PagesOf(live[page]);
    assert Allocated(first, marked, table, live[page], page);
    hide PagesOf;
    forall p | p in live - {page}
      ensures Run(p, PagesOf(live[p])) !! Run(page, n) <==> n == PagesOf(live[page]) || p != next
    {
      assert Allocated(first, marked, table, live[p], p);
      assert p + PagesOf(live[p]) <= page || next <= p;
      if p == next && n > PagesOf(live[page]) {
        assert next in Run(p, PagesOf(live[p])) && next in Run(page, n);
      }
    }
    if next in live && n > PagesOf(live[page]) {
      assert next in live - {page};
    }
  }

  /** What a size recorded for an allocation touches from anywhere inside its first page on. */
  lemma TouchedInside(first: int, marked: set<int>, table: seq<int>, live: map<int, int>, page: int, off: int)
    requires Entries(first, marked, table, live) && page in live && 0 <= off < PAGE_SIZE
    ensures var size := live[page];
            && Touched(page * PAGE_SIZE + off, size) == Run(page, PagesOf(off + size))
            && ((forall p | p in live - {page} :: Run(p, PagesOf(live[p])) !! Touched(page * PAGE_SIZE + off, size))
                <==> PagesOf(off + size) == PagesOf(size) || page + PagesOf(size) !in live - {page})
  {
    AllocatedAt(first, marked, table, live, page);
    hide PagesOf, Touched, Run, Entries;
    OnePageMore(off, live[page]);
    TouchedIs(page, off, live[page]);
    Spill(first, marked, table, live, page, PagesOf(off + live[page]));
  }

  lemma AllocatedAt(first: int, marked: set<int>, table: seq<int>, live: map<int, int>, page: int)
    requires Entries(first, marked, table, live) && page in live
    ensures FIRST_PAGE <= page && 0 < live[page] && 0 < PagesOf(live[page]) && page + PagesOf(live[page]) <= LAST_PAGE
  {
    assert Allocated(first, marked, table, live[page], page);
  }

  /** Overwriting the size of one page hurts exactly if that page begins an allocation of another size. */
  lemma Overwritten(first: int, marked: set<int>, table: seq<int>, live: map<int, int>, page: int, size: int)
    requires Entries(first, marked, table, live) && 0 <= page - FIRST_PAGE < |table|
    ensures Entries(first, marked, table[page - FIRST_PAGE := size], live) <==> page !in live || live[page] == size
  {
    var r := table[page - FIRST_PAGE := size];
    hide PagesOf;
    forall p | p in live ensures Allocated(first, marked, r, live[p], p) <==> p != page || live[p] == size {
      assert Allocated(first, marked, table, live[p], p);
    }
  }

  // ----- the heap -----

  // ----- in addresses and bytes -----

  /** `size` bytes from `v` on lie in the heap, and none of their pages is marked. */
  predicate Room(marked: set<int>, v: int, size: int) {
    v + size <= 0xA000_0000 && forall q | v / 4096 <= q <= (v + size - 1) / 4096 :: q !in marked
  }

  /** The pages of a size are those of its bytes. */
  lemma PagesOfBytes(v: int, size: int)
    requires 0 <= v && 0 < size
    ensures PagesOf(v % 4096 + size) == (v + size - 1) / 4096 - v / 4096 + 1
    ensures v % 4096 == 0 ==> PagesOf(size) == (v + size - 1) / 4096 - v / 4096 + 1
  {
    var page, off := v / 4096, v % 4096;
    assert v + size - 1 == page * 4096 + (off + size - 1);
    ShiftedQuotient(page, off + size - 1);
    assert off + size + PAGE_SIZE - 1 == 1 * 4096 + (off + size - 1);
    ShiftedQuotient(1, off + size - 1);
  }

  lemma ShiftedQuotient(page: int, x: int)
    ensures (page * 4096 + x) / 4096 == page + x / 4096
  {
  }

  lemma RoomIs(marked: set<int>, v: int, size: int)
    requires 0 <= v && v % 4096 == 0 && 0 < size
    ensures Room(marked, v, size) <==> Fits(marked, v / PAGE_SIZE, PagesOf(size))
  {
    PagesOfBytes(v, size);
    var page, n := v / 4096, PagesOf(size);
    assert v + size <= 0xA000_0000 <==> page + n <= LAST_PAGE by {
      assert v + size - 1 < 0xA000_0000 <==> (v + size - 1) / 4096 < 0xA_0000;
    }
    hide PagesOf;
  }

  /** The lowest run is the one with the lowest address that has room. */
  lemma LowestIsLowest(marked: set<int>, limit: int, size: int, r: Address)
    requires USER_HEAP_START <= limit && limit % PAGE_SIZE == 0 && 0 < size
    requires Lowest(marked, limit / PAGE_SIZE + 1, PagesOf(size), r)
    ensures r.At? ==> limit + 4096 <= r.va && r.va % 4096 == 0 && Room(marked, r.va, size)
    ensures r.At? ==> forall v | limit + 4096 <= v < r.va && v % 4096 == 0 :: !Room(marked, v, size)
    ensures r.Null? ==> forall v | limit + 4096 <= v && v % 4096 == 0 :: !Room(marked, v, size)
  {
    hide Room, Fits, PagesOf;
    if r.At? { RoomIs(marked, r.va, size); }
    forall v | limit + 4096 <= v && v % 4096 == 0 && (r.At? ==> v < r.va) ensures !Room(marked, v, size) {
      RoomIs(marked, v, size);
      assert limit / PAGE_SIZE + 1 <= v / PAGE_SIZE;
      assert r.At? ==> v / PAGE_SIZE < r.va / PAGE_SIZE;
    }
  }

  lemma RunBytes(v: int, size: int)
    requires 0 <= v && 0 < size
    ensures Run(v / PAGE_SIZE, PagesOf(v % PAGE_SIZE + size)) == Range(v / 4096, (v + size - 1) / 4096 + 1)
    ensures v % PAGE_SIZE == 0 ==> Run(v / PAGE_SIZE, PagesOf(size)) == Range(v / 4096, (v + size - 1) / 4096 + 1)
  {
    PagesOfBytes(v, size);
    hide PagesOf;
  }

  /**
   * What the answer to a request for `size` bytes means in addresses: the lowest aligned address behind the break with
   * room for them, all of whose pages it marks, or nothing if there is none.
   */
  ghost predicate LowestRoom(was: set<int>, now: set<int>, limit: int, size: int, r: Address) {
    match r
    case Null => now == was && forall v | limit + 4096 <= v && v % 4096 == 0 :: !Room(was, v, size)
    case At(va) =>
      && limit + 4096 <= va && va % 4096 == 0 && Room(was, va, size)
      && (forall v | limit + 4096 <= v < va && v % 4096 == 0 :: !Room(was, v, size))
      && now == was + Range(va / 4096, (va + size - 1) / 4096 + 1)
  }

  lemma LowestRoomIs(was: set<int>, now: set<int>, limit: int, size: int, r: Address)
    requires USER_HEAP_START <= limit && limit % PAGE_SIZE == 0 && 0 < size
    requires Lowest(was, limit / PAGE_SIZE + 1, PagesOf(size), r)
    requires now == if r.Null? then was else was + Run(r.va / PAGE_SIZE, PagesOf(size))
    ensures LowestRoom(was, now, limit, size, r)
  {
    LowestIsLowest(was, limit, size, r);
    if r.At? { RunBytes(r.va, size); }
    hide Room, Lowest, PagesOf, Run;
  }

  /** What free does with an address: nothing, a call of the block allocator's free, a panic, or freeing its pages. */
  datatype Outcome = Ignored | Block | Panic | Pages

  class Heap {
    var uhLimit: int
    var marked: set<int>
    var sizes: array<int>
    ghost var live: map<int, int>  // the first page of each allocation and its size

    constructor (limit: int)
      requires USER_HEAP_START <= limit && limit + PAGE_SIZE <= USER_HEAP_MAX && limit % PAGE_SIZE == 0
      ensures Valid() && live == map[] && marked == {} && uhLimit == limit && fresh(sizes)
    {
      uhLimit, marked, live := limit, {}, map[];
      sizes := new int[ARRAY_SIZE + 1](_ => 0);
    }

    /** The first page the search looks at. */
    ghost function First(): int
      reads this
    {
      uhLimit / PAGE_SIZE + 1
    }

    ghost predicate Valid()
      reads this, sizes
    {
      && USER_HEAP_START <= uhLimit && uhLimit + PAGE_SIZE <= USER_HEAP_MAX && uhLimit % PAGE_SIZE == 0
      && sizes.Length == ARRAY_SIZE + 1 && (forall k | 0 <= k < sizes.Length :: 0 <= sizes[k] < WORD_LIMIT)
      && Entries(First(), marked, sizes[..], live)
    }

    /** The table entry is written before the range check: the run found may begin at USER_HEAP_MAX. */
    method GetConsecutivePages(size: int) returns (r: Address)
      requires Valid() && 0 <= size < WORD_LIMIT
      modifies sizes
      ensures Lowest(marked, First(), Pages32(size), r)
      ensures r.At? ==> sizes[..] == old(sizes[..])[r.va / PAGE_SIZE - FIRST_PAGE := size]
      ensures forall k | 0 <= k < sizes.Length :: 0 <= sizes[k] < WORD_LIMIT
      ensures forall k | 0 <= k < sizes.Length && sizes[k] != old(sizes[k]) ::
                sizes[k] == size && FIRST_PAGE + k >= First() && IsFree(marked, FIRST_PAGE + k, Pages32(size))
    {
      var va := uhLimit + PAGE_SIZE;
      var numOfPages, countPages, current := RoundUp32(size) / PAGE_SIZE, 0, va;
      RoundingWraps(size);
      ghost var first := First();
      while countPages < numOfPages
        invariant 0 <= countPages <= numOfPages && va % PAGE_SIZE == 0 && current == va + countPages * PAGE_SIZE
        invariant first <= va / PAGE_SIZE && current <= USER_HEAP_MAX + PAGE_SIZE
        invariant IsFree(marked, va / PAGE_SIZE, countPages)
        invariant forall p | first <= p < va / PAGE_SIZE :: !IsFree(marked, p, numOfPages)
        decreases USER_HEAP_MAX + PAGE_SIZE - current
      {
        if current > USER_HEAP_MAX {
          assert current / PAGE_SIZE == va / PAGE_SIZE + countPages;
          return Null;
        }
        assert current / PAGE_SIZE == va / PAGE_SIZE + countPages;
        if current / PAGE_SIZE in marked {
          countPages := 0;
          current := current + PAGE_SIZE;
          va := current;
        } else {
          countPages := countPages + 1;
          current := current + PAGE_SIZE;
        }
      }
      var index := (va - USER_HEAP_START) / PAGE_SIZE;
      assert index == va / PAGE_SIZE - FIRST_PAGE;
      sizes[index] := size;
      if va + RoundUp32(size) > USER_HEAP_MAX {
        return Null;
      }
      r := At(va);
    }

    /** allocate_user_mem: marks the pages it visits. */
    method AllocateUserMem(va: int, size: int)
      requires 0 <= va < WORD_LIMIT && 0 <= size < WORD_LIMIT
      modifies this`marked
      ensures marked == old(marked) + Touched(va, size)
    {
      hide EndOf, Range, PageAt, Touched;
      var current, end := va, EndOf(va, size);
      ghost var k, was := 0, marked;
      while current < end
        invariant 0 <= k && (k == 0 || current < end + PAGE_SIZE) && current == va + k * PAGE_SIZE
        invariant forall q :: q in marked <==> q in was || PageAt(va) <= q < PageAt(va) + k
        decreases end - current
      {
        Visit(va, k);
        marked := marked + {PageAt(current)};
        current, k := current + PAGE_SIZE, k + 1;
      }
      Visited(va, size, k);
      SameMembers(marked, was, Touched(va, size));
    }

    /** free_user_mem: unmarks the pages it visits. */
    method FreeUserMem(va: int, size: int)
      requires 0 <= va < WORD_LIMIT && 0 <= size < WORD_LIMIT
      modifies this`marked
      ensures marked == old(marked) - Touched(va, size)
    {
      hide EndOf, Range, PageAt, Touched;
      var current, end := va, EndOf(va, size);
      ghost var k := 0;
      Visit(va, 0);
      while current < end
        invariant 0 <= k && (k == 0 || current < end + PAGE_SIZE)
        invariant current == va + k * PAGE_SIZE && marked == old(marked) - Range(PageAt(va), PageAt(va) + k)
        decreases end - current
      {
        Visit(va, k);
        marked := marked - {PageAt(current)};
        current, k := current + PAGE_SIZE, k + 1;
      }
      Visited(va, size, k);
    }

    /**
     * Takes the lowest run of pages that is long enough, or changes no allocation. For size 0, and for a size whose
     * rounding wraps, it returns the first page behind the break, marks nothing, and records the size there even if
     * the page begins a live allocation.
     */
    method AllocateInPageAllocator(size: int) returns (r: Address)
      requires Valid() && 0 <= size < WORD_LIMIT
      modifies this`marked, this`live, sizes
      ensures uhLimit == old(uhLimit) && sizes == old(sizes)
      ensures 0 < size <= WORD_LIMIT - PAGE_SIZE ==>
                && Valid() && Lowest(old(marked), First(), PagesOf(size), r)
                && (r.Null? ==> marked == old(marked) && live == old(live))
                && (r.At? ==> r.va / PAGE_SIZE !in old(live) && live == old(live)[r.va / PAGE_SIZE := size]
                              && old(marked) !! Run(r.va / PAGE_SIZE, PagesOf(size))
                              && marked == old(marked) + Run(r.va / PAGE_SIZE, PagesOf(size)))
      ensures size == 0 || size > WORD_LIMIT - PAGE_SIZE ==>
                && r == At(uhLimit + PAGE_SIZE) && marked == old(marked) && live == old(live)
                && (Valid() <==> First() !in live)
    {
      hide Entries, Lowest, Run, Fits, IsFree, PagesOf, Pages32, RoundUp32, Touched;
      ghost var sound, was, table := 0 < size <= WORD_LIMIT - PAGE_SIZE, marked, sizes[..];
      PagesAsked(size);
      r := GetConsecutivePages(size);
      if sound {
        FoundPages(First(), was, table, sizes[..], live, size, r);
      } else {
        FoundNothing(First(), was, table, live, size, r);
      }
      if r == Null { return; }
      AllocateUserMem(r.va, size);
      if sound {
        live := live[r.va / PAGE_SIZE := size];
      }
    }

    /** The same in addresses and bytes. */
    method AllocateBytes(size: int) returns (r: Address)
      requires Valid() && 0 < size <= WORD_LIMIT - PAGE_SIZE
      modifies this`marked, this`live, sizes
      ensures Valid() && LowestRoom(old(marked), marked, uhLimit, size, r)
    {
      hide Entries, Lowest, Run, PagesOf, LowestRoom;
      ghost var was := marked;
      r := AllocateInPageAllocator(size);
      LowestRoomIs(was, marked, uhLimit, size, r);
    }

    /** The recorded size of the page at an address behind the break. */
    ghost function Recorded(va: int): int
      reads this, sizes
      requires Valid() && uhLimit <= va < USER_HEAP_MAX
    {
      sizes[(va - USER_HEAP_START) / PAGE_SIZE]
    }

    /** An address that an allocation handed out. */
    ghost predicate HandedOut(va: int)
      reads this
    {
      va % PAGE_SIZE == 0 && va / PAGE_SIZE in live
    }

    lemma InsideHeap(va: int)
      requires Valid() && va / PAGE_SIZE in live
      ensures uhLimit < va < USER_HEAP_MAX && Recorded(va) == live[va / PAGE_SIZE] > 0
      ensures va / PAGE_SIZE >= FIRST_PAGE && va / PAGE_SIZE + PagesOf(live[va / PAGE_SIZE]) <= LAST_PAGE
    {
      var p := va / PAGE_SIZE;
      assert Allocated(First(), marked, sizes[..], live[p], p);
      hide PagesOf;
      assert (va - USER_HEAP_START) / PAGE_SIZE == p - FIRST_PAGE;
    }

    /** Live allocations begin behind the break and inside the heap, and their recorded sizes are not 0. */
    lemma LivePage(va: int)
      requires Valid() && HandedOut(va)
      ensures uhLimit < va < USER_HEAP_MAX && Recorded(va) == live[va / PAGE_SIZE] > 0
      ensures Touched(va, Recorded(va)) == Run(va / PAGE_SIZE, PagesOf(live[va / PAGE_SIZE]))
    {
      hide Touched, Run, Entries, PagesOf;
      var p := va / PAGE_SIZE;
      InsideHeap(va);
      TouchedIs(p, 0, live[p]);
    }

    /**
     * free, for every address. Whatever size the page of the address has recorded, that many bytes from the address
     * on are given up; the heap stays in order exactly if none of their pages belongs to another allocation. From
     * inside the first page of an allocation that takes one page too many exactly if the end of the size crosses into
     * another page, and breaks the heap exactly if an allocation begins there.
     */
    method Free(va: int) returns (outcome: Outcome)
      requires Valid() && 0 <= va < WORD_LIMIT
      modifies this`marked, this`live, sizes
      ensures outcome == if va < USER_HEAP_START || va >= USER_HEAP_MAX then Ignored
                         else if va < uhLimit then Block
                         else if old(Recorded(va)) == 0 then Panic else Pages
      ensures uhLimit == old(uhLimit) && sizes == old(sizes)
      ensures outcome != Pages ==> marked == old(marked) && live == old(live) && sizes[..] == old(sizes[..]) && Valid()
      ensures outcome == Pages ==>
                && live == old(live) - {va / PAGE_SIZE} && marked == old(marked) - Touched(va, old(Recorded(va)))
                && sizes[..] == old(sizes[..])[va / PAGE_SIZE - FIRST_PAGE := 0]
                && (Valid() <==> forall p | p in live :: Run(p, PagesOf(live[p])) !! Touched(va, old(Recorded(va))))
      ensures va / PAGE_SIZE in old(live) ==>
                var size := old(live)[va / PAGE_SIZE];
                && outcome == Pages && marked == old(marked) - Run(va / PAGE_SIZE, PagesOf(va % PAGE_SIZE + size))
                && (Valid() <==> PagesOf(va % PAGE_SIZE + size) == PagesOf(size)
                                 || va / PAGE_SIZE + PagesOf(size) !in live)
      ensures old(HandedOut(va)) ==>
                && outcome == Pages && Valid() && Recorded(va) == 0
                && marked == old(marked) - Run(va / PAGE_SIZE, PagesOf(old(live)[va / PAGE_SIZE]))
    {
      hide Entries, Run, PagesOf, Touched;
      ghost var out, m, table, l := HandedOut(va), marked, sizes[..], live;
      if va / PAGE_SIZE in live {
        InsideHeap(va);
        assert va == va / PAGE_SIZE * PAGE_SIZE + va % PAGE_SIZE;
        TouchedInside(First(), m, table, l, va / PAGE_SIZE, va % PAGE_SIZE);
      }
      if out {
        LivePage(va);
        Given(First(), marked, sizes[..], live, va / PAGE_SIZE);
      }
      if va == 0 { return Ignored; }
      if USER_HEAP_START <= va < uhLimit { return Block; }
      if va < USER_HEAP_START || va >= USER_HEAP_MAX { return Ignored; }
      var index := (va - USER_HEAP_START) / PAGE_SIZE;
      assert index == va / PAGE_SIZE - FIRST_PAGE;
      var size := sizes[index];
      if size == 0 { return Panic; }
      FreeUserMem(va, size);
      sizes[index] := 0;
      live := live - {va / PAGE_SIZE};
      assert sizes[..] == table[index := 0];
      Released(First(), m, table, l, va / PAGE_SIZE, Touched(va, size));
      assert forall k | 0 <= k < sizes.Length :: 0 <= sizes[k] < WORD_LIMIT;
      assert marked == m - Touched(va, size);
      outcome := Pages;
    }

    /** A freed allocation cannot be freed again: the second call panics and changes nothing. */
    method FreeTwice(va: int) returns (first: Outcome, second: Outcome)
      requires Valid() && HandedOut(va)
      modifies this`marked, this`live, sizes
      ensures Valid() && first == Pages && second == Panic && live == old(live) - {va / PAGE_SIZE}
    {
      LivePage(va);
      first := Free(va);
      second := Free(va);
    }

    /** Freeing what was just allocated leaves the same pages marked and the same allocations. */
    method AllocateThenFree(size: int) returns (r: Address)
      requires Valid() && 0 < size <= WORD_LIMIT - PAGE_SIZE
      modifies this`marked, this`live, sizes
      ensures Valid() && marked == old(marked) && live == old(live)
    {
      PagesPositive(size);
      hide Entries, PagesOf, Run, Lowest, Touched;
      ghost var m, l := marked, live;
      r := AllocateInPageAllocator(size);
      if r.At? {
        AlignedAt(r, First(), PagesOf(size), m);
        GivenBack(m, Run(r.va / PAGE_SIZE, PagesOf(size)), l, r.va / PAGE_SIZE, size);
        assert HandedOut(r.va);
        var outcome := Free(r.va);
      }
    }
  }
}
