/** The memory manager's own scenario: three frames, one page table, pages at 0 and PAGE_SIZE. */
module PageCheck {
  import opened Counting
  import opened Mmu
  import opened PageTables
  import opened Paging

  const PTSIZE := PAGE_SIZE * ENTRIES

  function With(refs: seq<int>, f: int, n: int): seq<int> {
    if 0 <= f < |refs| then refs[f := n] else refs
  }

  /** The counts of the three frames. */
  function Counts(refs: seq<int>, pp0: int, n0: int, pp1: int, n1: int, pp2: int, n2: int): seq<int> {
    With(With(With(refs, pp0, n0), pp1, n1), pp2, n2)
  }

  lemma MapFresh(free: seq<int>, refs: seq<int>, f: int)
    requires 0 <= f < |refs|
    ensures MappedRefs(refs, 0, f) == refs[f := refs[f] + 1] && MappedFree(free, refs, 0, f) == free
    ensures TableRefs(refs, free, false) == refs && TableFree(free, false) == free
  {
  }

  lemma NoFree(mem: Memory, refs: seq<int>, free: seq<int>, dirs: set<int>, tables: set<int>, managed: set<int>)
    requires Consistent(mem, refs, free, dirs, tables, managed)
    ensures Consistent(mem, refs, [], dirs, tables, managed)
    ensures forall f | f in free :: f in managed && f !in tables && 0 <= f < |refs| && refs[f] == 0
    ensures Distinct(free)
  {
  }

  lemma FirstThree(free: seq<int>, pp0: int, pp1: int, pp2: int, fl: seq<int>)
    requires Distinct(free) && free == [pp0, pp1, pp2] + fl
    ensures pp0 in free && pp1 in free && pp2 in free && (forall f | f in fl :: f in free) && Distinct(fl)
    ensures pp0 !in fl && pp1 !in fl && pp2 !in fl && pp0 != pp1 && pp1 != pp2 && pp2 != pp0
    ensures |[pp2, pp1, pp0] + fl| == |free| && forall f :: f in [pp2, pp1, pp0] + fl <==> f in free
  {
    assert free[0] == pp0 && free[1] == pp1 && free[2] == pp2 && free[3..] == fl;
    assert forall k | 0 <= k < |fl| :: fl[k] == free[k + 3];
  }

  lemma Unmissing(mem: Memory, d: int, page: int)
    requires Word(mem, Place(d, page / ENTRIES)) == 0
    ensures Look(mem, d, page) == 0
  {
  }

  /** With three frames left, a fourth allocation fails, and so does mapping a page without a page table. */
  method StealFrames(m: MemoryManager, d: int) returns (pp0: int, pp1: int, pp2: int, fl: seq<int>)
    requires m.Valid() && d in m.dirs && |m.freeList| >= 3 && m.Missing(d, 0)
    modifies m`freeList, m`tables, m.references, m.memory
    ensures m.Valid() && m.freeList == [] && m.tables == old(m.tables)
    ensures m.memory[..] == old(m.memory[..]) && m.references[..] == old(m.references[..])
    ensures old(m.freeList) == [pp0, pp1, pp2] + fl
  {
    hide Consistent;
    ghost var free := m.freeList;
    NoFree(m.memory[..], m.references[..], free, m.dirs, m.tables, m.managed);
    var err, frame := m.AllocateFrame();
    assert err == 0;
    pp0 := frame.number;
    err, frame := m.AllocateFrame();
    assert err == 0;
    pp1 := frame.number;
    err, frame := m.AllocateFrame();
    assert err == 0;
    pp2 := frame.number;
    fl := m.freeList;
    assert free == [pp0, pp1, pp2] + fl;
    FirstThree(free, pp0, pp1, pp2, fl);
    assert pp1 != pp0 && pp2 != pp1 && pp2 != pp0;
    NoFree(m.memory[..], m.references[..], fl, m.dirs, m.tables, m.managed);
    m.freeList := [];
    err, frame := m.AllocateFrame();
    assert err == E_NO_MEM;
    err := m.MapFrame(d, pp1, 0, 0);
    assert err < 0;
  }

  /** The first page takes a free frame for its page table; the second needs none. */
  method MapTwo(m: MemoryManager, d: int, pp0: int, pp1: int, pp2: int)
    requires m.Valid() && d in m.dirs && m.freeList == [] && m.Missing(d, 0) && m.Missing(d, PTSIZE)
    requires pp0 != pp1 && pp1 != pp2 && pp2 != pp0
    requires forall f | f in {pp0, pp1, pp2} ::
               f in m.managed && f !in m.tables && 0 <= f < m.references.Length && m.references[f] == 0
    modifies m`freeList, m`tables, m.references, m.memory
    ensures m.Valid() && m.freeList == [] && m.tables == old(m.tables) + {pp0} && m.Missing(d, PTSIZE)
    ensures m.references[..] == Counts(old(m.references[..]), pp0, 1, pp1, 1, pp2, 1)
    ensures Word(m.memory[..], Place(d, 0)) == Entry(pp0, 7)
    ensures forall e, q | e in m.dirs && UserPage(q) :: Look(m.memory[..], e, q) ==
              if e == d && q == 0 then Entry(pp1, 1) else if e == d && q == 1 then Entry(pp2, 1)
                else old(Look(m.memory[..], e, q))
  {
    hide Consistent, Look, MappedRefs, MappedFree;
    ghost var mem, refs := m.memory[..], m.references[..];
    Unmissing(mem, d, 0);
    Unmissing(mem, d, 1);
    assert DirPlace(m.dirs, Place(d, 0)) && DirPlace(m.dirs, Place(d, 1));
    m.FreeFrame(pp0);
    assert TableRefs(refs, [pp0], true) == refs[pp0 := 1] && TableFree([pp0], true) == [];
    var err := m.MapFrame(d, pp1, 0, 0);
    MapFresh([], refs[pp0 := 1], pp1);
    assert err == 0 && FrameOf(Word(m.memory[..], Place(d, 0))) == pp0;
    assert m.references[..] == refs[pp0 := 1][pp1 := 1];
    assert Look(m.memory[..], d, 0) == Entry(pp1, 1);
    err := m.MapFrame(d, pp2, PAGE_SIZE, 0);
    MapFresh([], refs[pp0 := 1][pp1 := 1], pp2);
    assert err == 0;
  }

  /** Three different frames of which `pp0` is the page table at 0. */
  ghost predicate Trio(m: MemoryManager, d: int, pp0: int, pp1: int, pp2: int)
    reads m, m.memory, m.references
  {
    && m.Valid() && d in m.dirs && pp0 != pp1 && pp1 != pp2 && pp2 != pp0
    && pp0 in m.managed && pp1 in m.managed && pp2 in m.managed && pp1 !in m.tables && pp2 !in m.tables
    && 0 <= pp0 < m.references.Length && 0 <= pp1 < m.references.Length && 0 <= pp2 < m.references.Length
    && !m.Missing(d, 0)
  }

  /** Mapping a frame where it is changes nothing; mapping another one there frees the first. */
  method MapAgain(m: MemoryManager, d: int, pp0: int, pp1: int, pp2: int)
    requires Trio(m, d, pp0, pp1, pp2) && m.freeList == [] && m.Missing(d, PTSIZE)
    requires m.references[pp1] == m.references[pp2] == 1
    requires Look(m.memory[..], d, 0) == Entry(pp1, 1) && Look(m.memory[..], d, 1) == Entry(pp2, 1)
    modifies m`freeList, m`tables, m.references, m.memory
    ensures Trio(m, d, pp0, pp1, pp2) && m.freeList == [] && m.tables == old(m.tables)
    ensures m.references[..] == With(With(old(m.references[..]), pp2, 0), pp1, 2)
    ensures Word(m.memory[..], Place(d, 0)) == old(Word(m.memory[..], Place(d, 0)))
    ensures forall e, q | e in m.dirs && UserPage(q) :: Look(m.memory[..], e, q) ==
              if e == d && q == 1 then Entry(pp1, 1) else old(Look(m.memory[..], e, q))
  {
    hide Consistent, Look, MappedRefs, MappedFree;
    ghost var refs := m.references[..];
    EntryParts(pp1, 0);
    EntryParts(pp2, 0);
    assert DirPlace(m.dirs, Place(d, 0)) && DirPlace(m.dirs, Place(d, 1));
    var err, frame := m.AllocateFrame();
    assert err == E_NO_MEM;
    SameFrame([], refs, Entry(pp2, 1), pp2);
    err := m.MapFrame(d, pp2, PAGE_SIZE, 0);
    assert err == 0 && m.references[pp2] == refs[pp2] == 1;
    err, frame := m.AllocateFrame();
    assert err == E_NO_MEM;
    err := m.MapFrame(d, pp0, PTSIZE, 0);
    assert err < 0;
    OtherFrame([], refs, Entry(pp2, 1), pp1);
    MapFresh([], refs, pp1);
    err := m.MapFrame(d, pp1, PAGE_SIZE, 0);
    assert err == 0 && m.freeList == [pp2];
    err, frame := m.AllocateFrame();
    assert err == 0 && frame == Frame(pp2);
  }

  lemma SameFrame(free: seq<int>, refs: seq<int>, w: int, f: int)
    requires w != 0 && FrameOf(w) == f
    ensures MappedRefs(refs, w, f) == refs && MappedFree(free, refs, w, f) == free
    ensures TableRefs(refs, free, false) == refs && TableFree(free, false) == free
  {
  }

  lemma OtherFrame(free: seq<int>, refs: seq<int>, w: int, f: int)
    requires w != 0 && FrameOf(w) != f && 0 <= f < |refs| && 0 <= FrameOf(w) < |refs| && refs[FrameOf(w)] == 1
    ensures MappedRefs(refs, w, f) == With(With(refs, FrameOf(w), 0), f, refs[f] + 1)
    ensures MappedFree(free, refs, w, f) == [FrameOf(w)] + free
  {
  }

  /** Unmapping one of two pages of a frame keeps the frame; unmapping the other frees it. */
  method UnmapBoth(m: MemoryManager, d: int, pp0: int, pp1: int, pp2: int)
    requires Trio(m, d, pp0, pp1, pp2) && m.freeList == [] && m.references[pp1] == 2
    requires Look(m.memory[..], d, 0) == Entry(pp1, 1) && Look(m.memory[..], d, 1) == Entry(pp1, 1)
    modifies m`freeList, m`tables, m.references, m.memory
    ensures Trio(m, d, pp0, pp1, pp2) && m.freeList == [] && m.tables == old(m.tables)
    ensures m.references[..] == With(old(m.references[..]), pp1, 0)
    ensures Word(m.memory[..], Place(d, 0)) == old(Word(m.memory[..], Place(d, 0)))
    ensures forall e, q | e in m.dirs && UserPage(q) :: Look(m.memory[..], e, q) ==
              if e == d && 0 <= q <= 1 then 0 else old(Look(m.memory[..], e, q))
  {
    hide Consistent, Look, Naming;
    ghost var refs := m.references[..];
    EntryParts(pp1, 0);
    assert DirPlace(m.dirs, Place(d, 0));
    m.UnmapFrame(d, 0);
    assert Look(m.memory[..], d, 0) == 0 && Look(m.memory[..], d, 1) == Entry(pp1, 1);
    assert m.references[pp1] == 1 && m.freeList == [];
    m.UnmapFrame(d, PAGE_SIZE);
    assert Look(m.memory[..], d, 0) == 0 && Look(m.memory[..], d, 1) == 0;
    assert m.references[pp1] == 0 && m.freeList == [pp1];
    var err, frame := m.AllocateFrame();
    assert err == 0 && frame == Frame(pp1);
    err, frame := m.AllocateFrame();
    assert err == E_NO_MEM;
  }

  /** Taking an empty page table back by force leaves the rest consistent. */
  lemma ForcedOk(mem: Memory, refs: seq<int>, dirs: set<int>, tables: set<int>, managed: set<int>, d: int, t: int)
    requires Consistent(mem, refs, [], dirs, tables, managed) && d in dirs
    requires Word(mem, Place(d, 0)) != 0 && FrameOf(Word(mem, Place(d, 0))) == t
    requires forall q | 0 <= q < ENTRIES :: Look(mem, d, q) == 0
    ensures In(mem, Place(d, 0))
            && Consistent(Put(mem, Place(d, 0), 0), With(refs, t, 0), [], dirs, tables - {t}, managed)
  {
    var p := Place(d, 0);
    assert DirPlace(dirs, p) && t in tables && In(mem, p);
    var r, refs' := Put(mem, p, 0), With(refs, t, 0);
    forall j | 0 <= j < ENTRIES ensures Word(mem, Place(t, j)) == 0 {
      assert DirOf(d, j) == p;
      assert Look(mem, d, j) == 0;
    }
    forall f | f in managed ensures 0 <= f < |refs'| && refs'[f] == |Naming(r, Places(dirs, tables - {t}), f)| {
      assert Naming(mem, Places(dirs, tables - {t}), f) == Naming(mem, Places(dirs, tables), f);
      assert Place(d, 0) in Places(dirs, tables - {t});
      PutNaming(mem, Places(dirs, tables - {t}), p, 0, f);
    }
    forall q: Place | DirPlace(dirs, q) && Word(mem, q) != 0 && FrameOf(Word(mem, q)) == t ensures q == p {
      OwnTable(mem, refs, dirs, tables, managed, q, p);
    }
    hide Counted, Naming, Places, Put;
    assert Kinds(r, refs', dirs, tables - {t}, managed);
    assert DirsOk(r, dirs, tables - {t});
    assert TablesOk(r, tables - {t}, managed);
    assert Counted(r, refs', dirs, tables - {t}, managed) by { CountedIs(r, refs', dirs, tables - {t}, managed); }
  }

  lemma CountedIs(mem: Memory, refs: seq<int>, dirs: set<int>, tables: set<int>, managed: set<int>)
    requires forall f | f in managed :: 0 <= f < |refs| && refs[f] == |Naming(mem, Places(dirs, tables), f)|
    ensures Counted(mem, refs, dirs, tables, managed)
  {
  }

  lemma FreeAgain(mem: Memory, refs: seq<int>, free: seq<int>, dirs: set<int>, tables: set<int>, managed: set<int>)
    requires Consistent(mem, refs, [], dirs, tables, managed) && Distinct(free)
    requires forall k | 0 <= k < |free| :: free[k] in managed && 0 <= free[k] < |refs| && refs[free[k]] == 0
    ensures Consistent(mem, refs, free, dirs, tables, managed)
  {
  }

  /** Gives the free list back, and the three frames in front of it. */
  method GiveBack(m: MemoryManager, d: int, pp0: int, pp1: int, pp2: int, fl: seq<int>)
    requires Trio(m, d, pp0, pp1, pp2) && m.freeList == []
    requires FrameOf(Word(m.memory[..], Place(d, 0))) == pp0
             && forall q | 0 <= q < ENTRIES :: Look(m.memory[..], d, q) == 0
    requires Distinct(fl) && pp0 !in fl && pp1 !in fl && pp2 !in fl
    requires m.references[pp1] == m.references[pp2] == 0
    requires forall f | f in fl :: f in m.managed && 0 <= f < m.references.Length && m.references[f] == 0
    modifies m`freeList, m`tables, m.references, m.memory
    ensures m.Valid() && m.freeList == [pp2, pp1, pp0] + fl && m.tables == old(m.tables) - {pp0}
    ensures m.references[..] == With(old(m.references[..]), pp0, 0)
  {
    hide Consistent, Look;
    ghost var mem, refs := m.memory[..], m.references[..];
    ForcedOk(mem, refs, m.dirs, m.tables, m.managed, d, pp0);
    m.memory[d] := m.memory[d][0 := 0];
    m.references[pp0] := 0;
    m.tables := m.tables - {pp0};
    assert m.memory[..] == Put(mem, Place(d, 0), 0) && m.references[..] == With(refs, pp0, 0);
    m.freeList := fl;
    assert forall k | 0 <= k < |fl| :: fl[k] in fl;
    FreeAgain(m.memory[..], m.references[..], fl, m.dirs, m.tables, m.managed);
    m.FreeFrame(pp0);
    m.FreeFrame(pp1);
    m.FreeFrame(pp2);
  }

  lemma UntouchedRest(refs: seq<int>, r: seq<int>, pp0: int, pp1: int, pp2: int)
    requires 0 <= pp0 < |refs| && 0 <= pp1 < |refs| && 0 <= pp2 < |refs| && pp0 != pp1 && pp1 != pp2 && pp2 != pp0
    requires refs[pp0] == refs[pp1] == refs[pp2] == 0
    requires r == With(With(With(With(Counts(refs, pp0, 1, pp1, 1, pp2, 1), pp2, 0), pp1, 2), pp1, 0), pp0, 0)
    ensures r == refs
  {
  }

  /**
   * The whole scenario, for any directory whose first two entries are missing and any list of three or more free
   * frames.
   */
  method PageCheck(m: MemoryManager, d: int)
    requires m.Valid() && d in m.dirs && |m.freeList| >= 3 && m.Missing(d, 0) && m.Missing(d, PTSIZE)
    modifies m`freeList, m`tables, m.references, m.memory
    ensures m.Valid() && m.references[..] == old(m.references[..]) && m.tables == old(m.tables)
    ensures |m.freeList| == |old(m.freeList)| && forall f :: f in m.freeList <==> f in old(m.freeList)
  {
    hide Consistent, Look;
    ghost var free, refs := m.freeList, m.references[..];
    NoFree(m.memory[..], refs, free, m.dirs, m.tables, m.managed);
    var pp0, pp1, pp2, fl := StealFrames(m, d);
    FirstThree(free, pp0, pp1, pp2, fl);
    hide Distinct;
    forall q | 0 <= q < ENTRIES ensures Look(m.memory[..], d, q) == 0 { Unmissing(m.memory[..], d, q); }
    MapTwo(m, d, pp0, pp1, pp2);
    EntryParts(pp0, 7);
    MapAgain(m, d, pp0, pp1, pp2);
    UnmapBoth(m, d, pp0, pp1, pp2);
    GiveBack(m, d, pp0, pp1, pp2, fl);
    UntouchedRest(refs, m.references[..], pp0, pp1, pp2);
  }
}
