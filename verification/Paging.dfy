/** The frame allocator and the page table operations of the memory manager, in place. */
module Paging {
  import opened Counting
  import opened Mmu
  import opened PageTables

  const E_NO_MEM := -4
  const MAX_REFERENCES := 0xFFFF  // references is a 16-bit field
  const IO_FRAME := 160           // PHYS_IO_MEM / PAGE_SIZE
  const EXTENDED_FRAME := 256     // PHYS_EXTENDED_MEM / PAGE_SIZE
  const NO_ADDRESS := 0xFFFF_FFFF

  datatype Frame = NoFrame | Frame(number: int)

  function PageOf(va: int): int { va / PAGE_SIZE }

  lemma PageIndices(va: int)
    requires 0 <= va < USER_TOP
    ensures UserPage(PageOf(va)) && PageOf(va) / ENTRIES == PDX(va) && PageOf(va) % ENTRIES == PTX(va)
    ensures 0 <= PDX(va) < USER_ENTRIES && 0 <= PTX(va) < ENTRIES
  {
  }

  // ----- what mapping a frame does to the counts and the free list -----

  /** The entry of a page after mapping `f` there: a page that already maps `f` keeps its old entry. */
  function Remapped(w: int, f: int, perm: int): int {
    if w != 0 && FrameOf(w) == f then w else Entry(f, WithPresent(perm))
  }

  function Dropped(refs: seq<int>, w: int): seq<int> {
    if w != 0 && 0 <= FrameOf(w) < |refs| then refs[FrameOf(w) := refs[FrameOf(w)] - 1] else refs
  }

  function DroppedFree(free: seq<int>, refs: seq<int>, w: int): seq<int> {
    if w != 0 && 0 <= FrameOf(w) < |refs| then Returned(free, refs, FrameOf(w)) else free
  }

  function MappedRefs(refs: seq<int>, w: int, f: int): seq<int> {
    if w != 0 && FrameOf(w) == f then refs else
      var dropped := Dropped(refs, w);
      if 0 <= f < |dropped| then dropped[f := dropped[f] + 1] else dropped
  }

  function MappedFree(free: seq<int>, refs: seq<int>, w: int, f: int): seq<int> {
    if w != 0 && FrameOf(w) == f then free else DroppedFree(free, refs, w)
  }

  /** A directory entry without a page table takes the first free frame for one. */
  function TableRefs(refs: seq<int>, free: seq<int>, missing: bool): seq<int> {
    if missing && free != [] && 0 <= free[0] < |refs| then refs[free[0] := 1] else refs
  }

  function TableFree(free: seq<int>, missing: bool): seq<int> {
    if missing && free != [] then free[1..] else free
  }

  /** hi-1, hi-2, .., lo. */
  function Down(lo: int, hi: int): (r: seq<int>)
    ensures |r| == if lo <= hi then hi - lo else 0
    ensures forall k | 0 <= k < |r| :: r[k] == hi - 1 - k
    ensures forall f :: f in r <==> lo <= f < hi
    decreases hi - lo
  {
    if lo >= hi then [] else [hi - 1] + Down(lo, hi - 1)
  }

  /** The initial count of a frame: 0 for base memory behind frame 0 and for the memory behind the kernel. */
  function InUse(f: int, kernelEnd: int): int {
    if 1 <= f < IO_FRAME || f >= kernelEnd then 0 else 1
  }

  lemma DownStep(lo: int, hi: int, rest: seq<int>)
    requires lo <= hi
    ensures Down(lo, lo) == [] && Down(lo, hi + 1) + rest == [hi] + (Down(lo, hi) + rest)
  {
  }

  lemma DownMembers(lo: int, hi: int, lo2: int, hi2: int)
    ensures forall f :: f in Down(lo, hi) + Down(lo2, hi2) <==> lo <= f < hi || lo2 <= f < hi2
  {
  }

  lemma InUseIs(kernelEnd: int)
    ensures forall f {:trigger InUse(f, kernelEnd)} ::
              InUse(f, kernelEnd) == if 1 <= f < IO_FRAME || f >= kernelEnd then 0 else 1
  {
  }

  lemma DownDistinct(lo: int, hi: int, lo2: int, hi2: int)
    requires hi2 <= lo
    ensures Distinct(Down(lo, hi) + Down(lo2, hi2))
  {
  }

  // ----- the translation -----

  function CheckVa2pa(mem: Memory, d: int, va: int): int {
    var entry := Word(mem, Place(d, PDX(va)));
    if !Present(entry) then NO_ADDRESS
    else
      var word := Word(mem, Place(FrameOf(entry), PTX(va)));
      if !Present(word) then NO_ADDRESS else FrameOf(word) * PAGE_SIZE
  }

  /** The walk of the tables is the flat map, and never leads to a free frame. */
  lemma TranslationIsFlat(mem: Memory, refs: seq<int>, free: seq<int>, dirs: set<int>, tables: set<int>,
      managed: set<int>, d: int, va: int)
    requires Consistent(mem, refs, free, dirs, tables, managed) && d in dirs && 0 <= va < USER_TOP
    ensures var w := Look(mem, d, PageOf(va));
            && CheckVa2pa(mem, d, va) == (if w == 0 then 0xFFFF_FFFF else w / 4096 * 4096)
            && (w != 0 ==> FrameOf(w) in managed && FrameOf(w) !in free && FrameOf(w) !in tables)
  {
    PageIndices(va);
    assert DirPlace(dirs, DirOf(d, PageOf(va)));
    var p := Place(FrameOf(Word(mem, DirOf(d, PageOf(va)))), PTX(va));
    if Look(mem, d, PageOf(va)) != 0 {
      assert TablePlace(tables, p);
      var f := FrameOf(Word(mem, p));
      if f in free {
        var k :| 0 <= k < |free| && free[k] == f;
        FreeUnnamed(mem, refs, free, dirs, tables, managed, k, p);
      }
    }
  }

  /** Every frame is a page of words. */
  ghost predicate Framed(mem: Memory) {
    forall f | 0 <= f < |mem| :: |mem[f]| == ENTRIES
  }

  ghost predicate NoUserEntries(mem: Memory, d: int) {
    0 <= d < |mem| && forall i | 0 <= i < USER_ENTRIES && i < |mem[d]| :: mem[d][i] == 0
  }

  class MemoryManager {
    var memory: array<seq<int>>
    var references: array<int>
    var freeList: seq<int>
    ghost var dirs: set<int>
    ghost var tables: set<int>
    ghost var managed: set<int>

    constructor (frames: nat)
      ensures memory.Length == references.Length == frames && freeList == [] && dirs == tables == managed == {}
      ensures fresh(memory) && fresh(references)
      ensures forall f | 0 <= f < frames :: memory[f] == Zeros()
    {
      memory := new seq<int>[frames](_ => Zeros());
      references := new int[frames](_ => 0);
      freeList, dirs, tables, managed := [], {}, {}, {};
    }

    ghost predicate Valid()
      reads this, memory, references
    {
      Consistent(memory[..], references[..], freeList, dirs, tables, managed)
    }

    /** The frames from `lo` to `hi` are counted 0 and put in front of the list one by one. */
    method MarkFree(lo: int, hi: int)
      requires 0 <= lo <= hi <= references.Length
      modifies this`freeList, references
      ensures freeList == Down(lo, hi) + old(freeList)
      ensures forall f | 0 <= f < references.Length :: references[f] == if lo <= f < hi then 0 else old(references[f])
    {
      ghost var rest := freeList;
      DownStep(lo, lo, rest);
      hide Down;
      for i := lo to hi
        invariant freeList == Down(lo, i) + rest
        invariant forall f | 0 <= f < references.Length ::
                    references[f] == if lo <= f < i then 0 else old(references[f])
      {
        DownStep(lo, i, rest);
        references[i] := 0;
        freeList := [i] + freeList;
      }
    }

    method MarkUsed(lo: int, hi: int)
      requires 0 <= lo <= hi <= references.Length
      modifies references
      ensures forall f | 0 <= f < references.Length :: references[f] == if lo <= f < hi then 1 else old(references[f])
    {
      for i := lo to hi
        invariant forall f | 0 <= f < references.Length ::
                    references[f] == if lo <= f < i then 1 else old(references[f])
      {
        references[i] := 1;
      }
    }

    /** Base memory and the memory behind the kernel becomes free, highest frame first. */
    method MarkFrames(kernelEnd: int)
      requires EXTENDED_FRAME <= kernelEnd <= references.Length
      modifies this`freeList, references
      ensures freeList == Down(kernelEnd, references.Length) + Down(1, IO_FRAME)
      ensures forall f | 0 <= f < references.Length :: references[f] == InUse(f, kernelEnd)
    {
      hide Down, InUse;
      InUseIs(kernelEnd);
      freeList := [];
      references[0] := 1;
      MarkFree(1, IO_FRAME);
      assert freeList == Down(1, IO_FRAME);
      MarkUsed(IO_FRAME, EXTENDED_FRAME);
      MarkUsed(EXTENDED_FRAME, kernelEnd);
      MarkFree(kernelEnd, references.Length);
    }

    method InitializePaging(kernelEnd: int, ghost directories: set<int>)
      requires 256 <= kernelEnd <= references.Length == memory.Length
      requires forall d | d in directories :: 256 <= d < kernelEnd
      requires Framed(memory[..]) && forall d | d in directories :: NoUserEntries(memory[..], d)
      modifies this`freeList, this`dirs, this`tables, this`managed, references
      ensures Valid() && dirs == directories && tables == {} && managed == set f | f in freeList
      ensures freeList == Down(kernelEnd, references.Length) + Down(1, 160)
      ensures forall f | 0 <= f < references.Length :: f in freeList <==> 1 <= f < 160 || kernelEnd <= f
      ensures forall f | 0 <= f < references.Length :: references[f] == if f in freeList then 0 else 1
    {
      hide Consistent, Distinct, InUse, Framed, NoUserEntries;
      MarkFrames(kernelEnd);
      DownMembers(kernelEnd, references.Length, 1, IO_FRAME);
      InUseIs(kernelEnd);
      DownDistinct(kernelEnd, references.Length, 1, IO_FRAME);
      hide Down;
      dirs, tables, managed := directories, {}, set f | f in freeList;
      InitialOk(memory[..], references[..], freeList, dirs, managed);
    }

    method AllocateFrame() returns (err: int, frame: Frame)
      requires Valid()
      modifies this`freeList, references
      ensures Valid()
      ensures old(freeList) == [] ==> err == E_NO_MEM && frame == NoFrame && freeList == []
      ensures old(freeList) != [] ==> err == 0 && frame == Frame(old(freeList)[0]) && freeList == old(freeList)[1..]
      ensures references[..] == old(references[..])
    {
      if freeList == [] {
        return E_NO_MEM, NoFrame;
      }
      frame := Frame(freeList[0]);
      freeList := freeList[1..];
      assert references[frame.number] == references[..][frame.number] == 0;
      references[frame.number] := 0;
      assert references[..] == old(references[..]);
      err := 0;
    }

    method FreeFrame(f: int)
      requires Valid() && f in managed && f !in freeList && references[..][f] == 0
      modifies this`freeList
      ensures Valid() && freeList == [f] + old(freeList)
    {
      freeList := [f] + freeList;
    }

    /** Called with the entry still in place, so it states the counts and the list and not the invariant. */
    method DecrementReferences(f: int)
      requires 0 <= f < references.Length && references[f] > 0
      modifies this`freeList, references
      ensures references[..] == old(references[..])[f := old(references[f]) - 1]
      ensures freeList == if old(references[f]) == 1 then [f] + old(freeList) else old(freeList)
    {
      references[f] := references[f] - 1;
      if references[f] == 0 {
        freeList := [f] + freeList;
      }
    }

    /** No directory entry for `va` in `d`. */
    ghost predicate Missing(d: int, va: int)
      reads this, memory
    {
      Word(memory[..], Place(d, PDX(va))) == 0
    }

    /** The call changed nothing. */
    twostate predicate Untouched()
      reads this, memory, references
    {
      memory[..] == old(memory[..]) && references[..] == old(references[..]) && freeList == old(freeList)
        && tables == old(tables)
    }

    /** A directory entry for `va` that was missing is now there for the first free frame; the others are as before. */
    twostate predicate TableAdded(d: int, va: int)
      reads this, memory
    {
      var missing := old(Missing(d, va)) && old(freeList) != [];
      && tables == (if missing then old(tables) + {old(freeList)[0]} else old(tables))
      && forall p: Place | DirPlace(dirs, p) :: Word(memory[..], p) ==
           if missing && p == Place(d, PDX(va)) then old(freeList)[0] * 4096 + 7
           else old(Word(memory[..], p))
    }

    /** The page table of `va`; with `create`, a missing one is made from the first free frame. */
    method GetPageTable(d: int, va: int, create: bool) returns (err: int, table: Frame)
      requires Valid() && d in dirs && 0 <= va < USER_TOP
      modifies memory, references, this`freeList, this`tables
      ensures Valid()
      ensures old(Missing(d, va)) && (!create || old(freeList) == []) ==>
                table == NoFrame && err == (if create then E_NO_MEM else 0)
      ensures !create || !old(Missing(d, va)) || old(freeList) == [] ==> Untouched()
      ensures !old(Missing(d, va)) || (create && old(freeList) != []) ==>
                && err == 0 && !Missing(d, va) && table == Frame(FrameOf(Word(memory[..], Place(d, PDX(va)))))
                && references[..] == TableRefs(old(references[..]), old(freeList), old(Missing(d, va)))
                && freeList == TableFree(old(freeList), old(Missing(d, va))) && TableAdded(d, va)
                && (forall e, q | e in dirs && UserPage(q) :: Look(memory[..], e, q) == old(Look(memory[..], e, q)))
    {
      hide Consistent, Look;
      PageIndices(va);
      ghost var p := Place(d, PDX(va));
      DirWord(memory[..], references[..], freeList, dirs, tables, managed, p);
      var entry := memory[d][PDX(va)];
      table := Frame(FrameOf(entry));
      if entry == 0 {
        if !create {
          return 0, NoFrame;
        }
        var frame;
        err, frame := AllocateFrame();
        if err == E_NO_MEM {
          table := NoFrame;
          return;
        }
        var t := frame.number;
        var word := Entry(t, WithPresent(PERM_USER + PERM_WRITEABLE));
        TableEntry(t);
        AddTableOk(old(memory[..]), old(references[..]), old(freeList), dirs, tables, managed, p, word);
        table := Frame(t);
        memory[t] := Zeros();
        references[t] := 1;
        memory[d] := memory[d][PDX(va) := word];
        tables := tables + {t};
        assert memory[..] == AddTable(old(memory[..]), p, t, word);
        AddedWords(old(memory[..]), references[..], freeList, dirs, tables, managed, p, t, word);
      }
      err := 0;
    }

    method GetFrameInfo(d: int, va: int) returns (frame: Frame, table: Frame)
      requires Valid() && d in dirs && 0 <= va < USER_TOP
      modifies memory, references, this`freeList, this`tables
      ensures Valid() && Untouched()
      ensures var w := Look(memory[..], d, PageOf(va)); frame == if w == 0 then NoFrame else Frame(FrameOf(w))
      ensures table == if Missing(d, va) then NoFrame else Frame(FrameOf(Word(memory[..], Place(d, PDX(va)))))
    {
      hide Consistent, Look;
      var err;
      err, table := GetPageTable(d, va, false);
      frame := NoFrame;
      TableWord(memory[..], references[..], freeList, dirs, tables, managed, d, va);
      if table != NoFrame {
        var entry := memory[table.number][PTX(va)];
        if entry != 0 {
          frame := Frame(FrameOf(entry));
        }
      }
    }

    /** Removes one page from the map; its frame becomes free exactly when nothing names it any more. */
    method UnmapFrame(d: int, va: int)
      requires Valid() && d in dirs && 0 <= va < USER_TOP
      modifies memory, references, this`freeList, this`tables
      ensures Valid() && tables == old(tables)
      ensures forall p: Place | DirPlace(dirs, p) :: Word(memory[..], p) == old(Word(memory[..], p))
      ensures forall e, q | e in dirs && UserPage(q) ::
                Look(memory[..], e, q) == if e == d && q == PageOf(va) then 0 else old(Look(memory[..], e, q))
      ensures var w := old(Look(memory[..], d, PageOf(va)));
              references[..] == Dropped(old(references[..]), w)
                && freeList == DroppedFree(old(freeList), old(references[..]), w)
      ensures forall f | f in managed && f !in old(freeList) && old(references[..])[f] > 0 ::
                f in freeList <==> Naming(memory[..], Places(dirs, tables), f) == {}
    {
      hide Consistent, Look, Naming, Places, Dropped, DroppedFree;
      ghost var mem, refs, free := memory[..], references[..], freeList;
      ghost var w := Look(mem, d, PageOf(va));
      var frame, table := GetFrameInfo(d, va);
      TableWord(mem, refs, free, dirs, tables, managed, d, va);
      UnmapOk(mem, refs, free, dirs, tables, managed, d, va);
      if frame != NoFrame {
        DecrementReferences(frame.number);
        memory[table.number] := memory[table.number][PTX(va) := 0];
        assert memory[..] == Put(mem, Place(table.number, PTX(va)), 0);
      }
    }

    /** The last steps of map_frame: counts `f` and writes the entry of a page that maps nothing. */
    method EnterFrame(d: int, f: int, va: int, perm: int, t: int)
      requires Valid() && d in dirs && 0 <= va < USER_TOP && 0 <= perm < PAGE_SIZE
      requires f in managed && f !in freeList && f !in tables && references[..][f] < MAX_REFERENCES
      requires !Missing(d, va) && t == FrameOf(Word(memory[..], Place(d, PDX(va))))
               && Look(memory[..], d, PageOf(va)) == 0
      modifies memory, references
      ensures Valid()
      ensures forall e, q | e in dirs && UserPage(q) ::
                Look(memory[..], e, q)
                == if e == d && q == PageOf(va) then Entry(f, WithPresent(perm)) else old(Look(memory[..], e, q))
      ensures references[..] == MappedRefs(old(references[..]), 0, f)
      ensures forall p: Place | DirPlace(dirs, p) :: Word(memory[..], p) == old(Word(memory[..], p))
    {
      hide Consistent, Look;
      PageIndices(va);
      ghost var mem, refs, word, p := memory[..], references[..], Entry(f, WithPresent(perm)), Place(t, PTX(va));
      FrameFacts(mem, refs, freeList, dirs, tables, managed, f);
      EntryParts(f, perm);
      TableWord(mem, refs, freeList, dirs, tables, managed, d, va);
      LookPut(mem, refs, freeList, dirs, tables, managed, d, PageOf(va), word);
      SetOk(mem, refs, freeList, dirs, tables, managed, p, f, word);
      references[f] := (references[f] + 1) % (MAX_REFERENCES + 1);
      memory[t] := memory[t][PTX(va) := Entry(f, WithPresent(perm))];
      assert memory[..] == Put(mem, p, word);
      DirsApart(mem, refs, freeList, dirs, tables, managed);
    }

    /**
     * Maps one page of `d` to `f`; every other page keeps its entry, and without memory for a page table so does
     * everything.
     */
    method MapFrame(d: int, f: int, va: int, perm: int) returns (err: int)
      requires Valid() && d in dirs && 0 <= va < USER_TOP && 0 <= perm < PAGE_SIZE && f in managed && f !in freeList
      requires (Missing(d, va) && freeList == []) || (f !in tables && references[..][f] < MAX_REFERENCES)
      modifies memory, references, this`freeList, this`tables
      ensures Valid()
      ensures err == if old(Missing(d, va)) && old(freeList) == [] then E_NO_MEM else 0
      ensures err == E_NO_MEM ==> Untouched()
      ensures err == 0 ==> TableAdded(d, va)
      ensures err == 0 ==> forall e, q | e in dirs && UserPage(q) ::
                Look(memory[..], e, q)
                == if e == d && q == PageOf(va) then Remapped(old(Look(memory[..], d, PageOf(va))), f, perm)
                   else old(Look(memory[..], e, q))
      ensures err == 0 ==>
                var w, missing := old(Look(memory[..], d, PageOf(va))), old(Missing(d, va));
                var refs := TableRefs(old(references[..]), old(freeList), missing);
                var free := TableFree(old(freeList), missing);
                references[..] == MappedRefs(refs, w, f) && freeList == MappedFree(free, refs, w, f)
      ensures err == 0 ==>
                var w, word := old(Look(memory[..], d, PageOf(va))), Look(memory[..], d, PageOf(va));
                && FrameOf(word) == f && (w == 0 || FrameOf(w) != f ==> word == f * 4096 + perm + (1 - perm % 2))
                && (Perm(word) == WithPresent(perm)
                    <==> w == 0 || FrameOf(w) != f || Perm(w) == WithPresent(perm))
    {
      hide Consistent, Look, MappedRefs, MappedFree, Dropped, DroppedFree, TableRefs, TableFree;
      FrameFacts(memory[..], references[..], freeList, dirs, tables, managed, f);
      PermissionsAsAsked(Look(memory[..], d, PageOf(va)), f, perm);
      InTable(freeList, references[..], Missing(d, va), f);
      PageIndices(va);
      ghost var page := PageOf(va);
      ghost var w := Look(memory[..], d, page);
      var table;
      err, table := GetPageTable(d, va, true);
      if err != 0 {
        return E_NO_MEM;
      }
      assert Look(memory[..], d, page) == w;
      TableWord(memory[..], references[..], freeList, dirs, tables, managed, d, va);
      var entry := memory[table.number][PTX(va)];
      assert entry == w;
      ghost var refs, free := references[..], freeList;
      MappedIs(free, refs, w, f);
      PresentWord(memory[..], tables, managed, Place(table.number, PTX(va)), references[..], freeList, dirs);
      if Present(entry) {
        if FrameOf(entry) == f {
          return 0;
        }
        assert DirPlace(dirs, Place(d, PDX(va)));
        UnmapFrame(d, va);
      }
      EnterFrame(d, f, va, perm, table.number);
    }
  }

  /** The page gets the permissions asked for, except when it already maps the frame with others. */
  lemma PermissionsAsAsked(w: int, f: int, perm: int)
    requires 0 <= f && 0 <= perm < PAGE_SIZE
    ensures FrameOf(Remapped(w, f, perm)) == f
    ensures w == 0 || FrameOf(w) != f ==> Remapped(w, f, perm) == f * 4096 + perm + (1 - perm % 2)
    ensures Perm(Remapped(w, f, perm)) == WithPresent(perm)
            <==> (w == 0 || FrameOf(w) != f || Perm(w) == WithPresent(perm))
  {
    EntryParts(f, perm);
  }

  /**
   * A page mapped to a frame and mapped again to the same frame keeps the permissions of the first call, whatever the
   * second asks for: read-only memory is not made writeable this way.
   */
  method MapTwice(m: MemoryManager, d: int, f: int, va: int, first: int, second: int)
    requires m.Valid() && d in m.dirs && 0 <= va < USER_TOP && 0 <= first < PAGE_SIZE && 0 <= second < PAGE_SIZE
    requires f in m.managed && f !in m.freeList && f !in m.tables && m.references[..][f] + 1 < MAX_REFERENCES
    requires !(m.Missing(d, va) && m.freeList == []) && Look(m.memory[..], d, PageOf(va)) == 0
    modifies m.memory, m.references, m`freeList, m`tables
    ensures m.Valid() && Look(m.memory[..], d, PageOf(va)) == Entry(f, WithPresent(first))
    ensures WithPresent(first) != WithPresent(second)
            ==> Perm(Look(m.memory[..], d, PageOf(va))) != WithPresent(second)
  {
    hide Consistent, Look, TableRefs, TableFree;
    PageIndices(va);
    FrameFacts(m.memory[..], m.references[..], m.freeList, m.dirs, m.tables, m.managed, f);
    EntryParts(f, first);
    InTable(m.freeList, m.references[..], m.Missing(d, va), f);
    var err := m.MapFrame(d, f, va, first);
    assert err == 0 && Look(m.memory[..], d, PageOf(va)) == Entry(f, WithPresent(first));
    err := m.MapFrame(d, f, va, second);
  }

  /** Mapping `f` in place of `w` drops the old frame and then counts `f`. */
  lemma MappedIs(free: seq<int>, refs: seq<int>, w: int, f: int)
    ensures w != 0 && FrameOf(w) == f ==> MappedRefs(refs, w, f) == refs && MappedFree(free, refs, w, f) == free
    ensures w == 0 || FrameOf(w) != f ==>
              && MappedRefs(refs, w, f) == MappedRefs(Dropped(refs, w), 0, f)
                 && MappedFree(free, refs, w, f) == DroppedFree(free, refs, w)
              && (f !in free ==> f !in DroppedFree(free, refs, w))
    ensures |Dropped(refs, w)| == |refs| && (0 <= f < |refs| && FrameOf(w) != f ==> Dropped(refs, w)[f] == refs[f])
    ensures w == 0 ==> Dropped(refs, w) == refs && DroppedFree(free, refs, w) == free
  {
  }

  lemma InTable(free: seq<int>, refs: seq<int>, missing: bool, f: int)
    requires f !in free && 0 <= f < |refs|
    ensures |TableRefs(refs, free, missing)| == |refs| && TableRefs(refs, free, missing)[f] == refs[f]
            && f !in TableFree(free, missing)
  {
  }

  lemma FreeIffUnnamed(before: seq<int>, mem: Memory, refs: seq<int>, was: seq<int>, free: seq<int>, dirs: set<int>,
      tables: set<int>, managed: set<int>, w: int)
    requires Consistent(mem, refs, free, dirs, tables, managed) && refs == Dropped(before, w)
             && free == DroppedFree(was, before, w)
    ensures forall f | f in managed && f !in was && 0 <= f < |before| && before[f] > 0 ::
              f in free <==> Naming(mem, Places(dirs, tables), f) == {}
  {
    forall f | f in managed && f !in was && 0 <= f < |before| && before[f] > 0
      ensures f in free <==> Naming(mem, Places(dirs, tables), f) == {}
    {
      assert refs[f] == |Naming(mem, Places(dirs, tables), f)|;
    }
  }

  /** Memory after the entry of a page was cleared. */
  function Unmapped(mem: Memory, d: int, va: int): Memory {
    var p := Place(FrameOf(Word(mem, Place(d, PDX(va)))), PTX(va));
    if Look(mem, d, PageOf(va)) != 0 && In(mem, p) then Put(mem, p, 0) else mem
  }

  lemma UnmapOk(mem: Memory, refs: seq<int>, free: seq<int>, dirs: set<int>, tables: set<int>, managed: set<int>,
      d: int, va: int)
    requires Consistent(mem, refs, free, dirs, tables, managed) && d in dirs && 0 <= va < USER_TOP
    ensures var w, r := Look(mem, d, PageOf(va)), Unmapped(mem, d, va);
            && Consistent(r, Dropped(refs, w), DroppedFree(free, refs, w), dirs, tables, managed)
            && (w == 0 ==> Dropped(refs, w) == refs && DroppedFree(free, refs, w) == free)
            && (w != 0 ==>
                  && 0 <= FrameOf(w) < |refs| && refs[FrameOf(w)] > 0
                  && Dropped(refs, w) == refs[FrameOf(w) := refs[FrameOf(w)] - 1]
                  && DroppedFree(free, refs, w) == Returned(free, refs, FrameOf(w)))
            && (forall e, q | e in dirs && UserPage(q) ::
                  Look(r, e, q) == if e == d && q == PageOf(va) then 0 else Look(mem, e, q))
            && (forall p: Place | DirPlace(dirs, p) :: Word(r, p) == Word(mem, p))
            && (forall f | f in managed :: 0 <= f < |refs| && (f !in free && refs[f] > 0 ==>
                  (f in DroppedFree(free, refs, w) <==> Naming(r, Places(dirs, tables), f) == {})))
  {
    hide Consistent, Look, Naming, Places;
    var w := Look(mem, d, PageOf(va));
    forall f | f in managed ensures 0 <= f < |refs| { FrameFacts(mem, refs, free, dirs, tables, managed, f); }
    PageIndices(va);
    TableWord(mem, refs, free, dirs, tables, managed, d, va);
    if w != 0 {
      var p := Place(FrameOf(Word(mem, Place(d, PDX(va)))), PTX(va));
      LookPut(mem, refs, free, dirs, tables, managed, d, PageOf(va), 0);
      ClearOk(mem, refs, free, dirs, tables, managed, p);
      DirsApart(mem, refs, free, dirs, tables, managed);
    }
    FreeIffUnnamed(refs, Unmapped(mem, d, va), Dropped(refs, w), free, DroppedFree(free, refs, w), dirs, tables,
      managed, w);
  }

  lemma DirsApart(mem: Memory, refs: seq<int>, free: seq<int>, dirs: set<int>, tables: set<int>, managed: set<int>)
    requires Consistent(mem, refs, free, dirs, tables, managed)
    ensures forall p: Place | DirPlace(dirs, p) :: p.frame !in tables
  {
  }

  /** The entry a page's table holds for it. */
  lemma TableWord(mem: Memory, refs: seq<int>, free: seq<int>, dirs: set<int>, tables: set<int>, managed: set<int>,
      d: int, va: int)
    requires Consistent(mem, refs, free, dirs, tables, managed) && d in dirs && 0 <= va < USER_TOP
    ensures var entry := Word(mem, Place(d, PDX(va)));
            var p := Place(FrameOf(entry), PTX(va));
            && (entry == 0 ==> Look(mem, d, PageOf(va)) == 0)
            && (entry != 0 ==>
                  In(mem, p) && TablePlace(tables, p)
                  && Look(mem, d, PageOf(va)) == Word(mem, p) == mem[p.frame][p.slot])
  {
    PageIndices(va);
    assert DirPlace(dirs, DirOf(d, PageOf(va)));
  }

  lemma AddedWords(mem: Memory, refs: seq<int>, free: seq<int>, dirs: set<int>, tables: set<int>, managed: set<int>,
      p: Place, t: int, word: int)
    requires 0 <= t < |mem| && p.frame != t && In(mem, p) && t in tables
    requires Consistent(AddTable(mem, p, t, word), refs, free, dirs, tables, managed)
    ensures Word(AddTable(mem, p, t, word), p) == word
    ensures forall q: Place | DirPlace(dirs, q) ::
              Word(AddTable(mem, p, t, word), q) == if q == p then word else Word(mem, q)
  {
    forall q: Place
      ensures Word(AddTable(mem, p, t, word), q)
              == if q == p then word else if q.frame == t then 0 else Word(mem, q)
    {
      AddedWord(mem, p, t, word, q);
    }
  }

  lemma FrameFacts(mem: Memory, refs: seq<int>, free: seq<int>, dirs: set<int>, tables: set<int>, managed: set<int>,
      f: int)
    requires Consistent(mem, refs, free, dirs, tables, managed) && f in managed
    ensures 0 <= f < |refs| == |mem| && refs[f] >= 0
  {
  }

  lemma PresentWord(mem: Memory, tables: set<int>, managed: set<int>, p: Place, refs: seq<int>, free: seq<int>,
      dirs: set<int>)
    requires Consistent(mem, refs, free, dirs, tables, managed) && TablePlace(tables, p)
    ensures Present(Word(mem, p)) <==> Word(mem, p) != 0
  {
  }

  lemma DirWord(mem: Memory, refs: seq<int>, free: seq<int>, dirs: set<int>, tables: set<int>, managed: set<int>,
      p: Place)
    requires Consistent(mem, refs, free, dirs, tables, managed) && DirPlace(dirs, p)
    ensures In(mem, p) && Word(mem, p) == mem[p.frame][p.slot]
    ensures free != [] ==> 0 <= free[0] < |mem| == |refs| && free[0] != p.frame && free[0] !in tables
  {
    if free != [] { FreeUnnamed(mem, refs, free, dirs, tables, managed, 0, p); }
  }

  lemma InitialOk(mem: Memory, refs: seq<int>, free: seq<int>, dirs: set<int>, managed: set<int>)
    requires |mem| == |refs| && Framed(mem)
    requires managed == (set f | f in free) && Distinct(free)
    requires forall f | f in free :: 0 <= f < |refs| && refs[f] == 0
    requires forall d | d in dirs :: 0 <= d < |mem| && d !in managed
    requires forall d | d in dirs :: NoUserEntries(mem, d)
    ensures Consistent(mem, refs, free, dirs, {}, managed)
  {
    assert DirsOk(mem, dirs, {});
    assert FreeOk(free, refs, managed) by { assert forall k | 0 <= k < |free| :: free[k] in free; }
    forall f | f in managed ensures 0 <= f < |refs| && refs[f] == |Naming(mem, Places(dirs, {}), f)| {
      assert Naming(mem, Places(dirs, {}), f) == {};
    }
  }
}
