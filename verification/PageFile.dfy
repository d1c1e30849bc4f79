/** The page file: disk frames owned by the page and table slots of the environments. */
module PageFile {
  import opened Counting
  import opened Mmu

  const PAGES_PER_FILE := 133120  // PAGE_FILE_SIZE / PAGE_SIZE
  const E_NO_PAGE_FILE_SPACE := -8
  const E_PAGE_NOT_EXIST_IN_PF := -9
  const E_TABLE_NOT_EXIST_IN_PF := -10

  type Page = seq<int>

  /** The disk page directory with its disk page tables, and the disk table directory; both are made on first use. */
  datatype PageDir = NoPageDir | PageDir(tables: map<int, seq<int>>)
  datatype TableDir = NoTableDir | TableDir(slots: seq<int>)
  datatype Env = Env(pages: PageDir, tables: TableDir)

  /** What a disk frame can be given to. */
  datatype Slot = PageSlot(env: int, pdx: int, ptx: int) | TableSlot(env: int, pdx: int)

  type Envs = map<int, Env>

  predicate Writable(envs: Envs, s: Slot) {
    s.env in envs && 0 <= s.pdx < ENTRIES &&
    match s
    case PageSlot(e, i, j) => envs[e].pages.PageDir? && i in envs[e].pages.tables && 0 <= j < |envs[e].pages.tables[i]|
    case TableSlot(e, i) => envs[e].tables.TableDir? && i < |envs[e].tables.slots|
  }

  /** The disk frame number in a slot; 0 for none. */
  function Dfn(envs: Envs, s: Slot): int {
    if !Writable(envs, s) then 0
    else match s
      case PageSlot(e, i, j) => envs[e].pages.tables[i][j]
      case TableSlot(e, i) => envs[e].tables.slots[i]
  }

  function Put(envs: Envs, s: Slot, dfn: int): (r: Envs)
    requires Writable(envs, s)
    ensures forall t: Slot :: Writable(r, t) == Writable(envs, t) && Dfn(r, t) == if t == s then dfn else Dfn(envs, t)
    ensures r.Keys == envs.Keys
  {
    match s
    case PageSlot(e, i, j) =>
      var dir := envs[e].pages;
      envs[e := envs[e].(pages := PageDir(dir.tables[i := dir.tables[i][j := dfn]]))]
    case TableSlot(e, i) => envs[e := envs[e].(tables := TableDir(envs[e].tables.slots[i := dfn]))]
  }

  // ----- the invariant -----

  ghost predicate Shape(envs: Envs) {
    && (forall e, i | e in envs && envs[e].pages.PageDir? && i in envs[e].pages.tables ::
          0 <= i < ENTRIES && |envs[e].pages.tables[i]| == ENTRIES)
    && (forall e | e in envs && envs[e].tables.TableDir? :: |envs[e].tables.slots| == ENTRIES)
  }

  ghost predicate FreeOk(free: seq<int>) {
    Distinct(free) && forall f | f in free :: 1 <= f < PAGES_PER_FILE
  }

  /** `owner` says which slot holds each disk frame in use: no frame is in two slots, and none is also free. */
  ghost predicate Owned(envs: Envs, free: seq<int>, owner: map<int, Slot>) {
    && Shape(envs) && FreeOk(free)
    && (forall s: Slot | Dfn(envs, s) != 0 :: Dfn(envs, s) in owner && owner[Dfn(envs, s)] == s)
    && (forall f | f in owner :: 1 <= f < PAGES_PER_FILE && f !in free && Dfn(envs, owner[f]) == f)
  }

  /** No disk frame is lost. */
  ghost predicate Complete(free: seq<int>, owner: map<int, Slot>) {
    forall f | 1 <= f < PAGES_PER_FILE :: f in free || f in owner
  }

  lemma TakeOk(envs: Envs, free: seq<int>, owner: map<int, Slot>, s: Slot)
    requires Owned(envs, free, owner) && free != [] && Writable(envs, s) && Dfn(envs, s) == 0
    ensures var f := free[0];
            && f != 0 && f !in owner && Owned(Put(envs, s, f), free[1..], owner[f := s])
            && (Complete(free, owner) ==> Complete(free[1..], owner[f := s]))
  {
    var f := free[0];
    assert f in free && free == [f] + free[1..];
    assert Shape(Put(envs, s, f)) by { PutShape(envs, s, f); }
    assert FreeOk(free[1..]) by { assert forall g | g in free[1..] :: g in free; }
    hide Shape, FreeOk, Put;
  }

  lemma PutShape(envs: Envs, s: Slot, dfn: int)
    requires Shape(envs) && Writable(envs, s)
    ensures Shape(Put(envs, s, dfn))
  {
  }

  /** The free list after free_disk_frame. */
  function Freed(free: seq<int>, dfn: int): seq<int> {
    if dfn == 0 then free else [dfn] + free
  }

  function Disowned(owner: map<int, Slot>, dfn: int): map<int, Slot> { owner - {dfn} }

  lemma GiveOk(envs: Envs, free: seq<int>, owner: map<int, Slot>, s: Slot)
    requires Owned(envs, free, owner) && Writable(envs, s)
    ensures var f := Dfn(envs, s);
            && Owned(Put(envs, s, 0), Freed(free, f), Disowned(owner, f))
            && (Complete(free, owner) <==> Complete(Freed(free, f), Disowned(owner, f)))
  {
    var f := Dfn(envs, s);
    assert Shape(Put(envs, s, 0)) by { PutShape(envs, s, 0); }
    assert FreeOk(Freed(free, f));
    hide Shape, FreeOk, Put;
    assert forall g :: g in Freed(free, f) <==> g in free || (g == f && f != 0);
  }

  // ----- the map from slots to contents -----

  datatype Content = Absent | Here(page: Page)

  function View(envs: Envs, disk: seq<Page>, s: Slot): Content {
    var f := Dfn(envs, s);
    if f != 0 && 0 <= f < |disk| then Here(disk[f]) else Absent
  }

  /** Writing the frame of one slot shows in no other. */
  lemma WriteView(envs: Envs, free: seq<int>, owner: map<int, Slot>, disk: seq<Page>, s: Slot, data: Page)
    requires Owned(envs, free, owner) && |disk| == PAGES_PER_FILE && Dfn(envs, s) != 0
    ensures var f := Dfn(envs, s);
            && 0 < f < |disk|
            && (forall t: Slot :: View(envs, disk[f := data], t) == if t == s then Here(data) else View(envs, disk, t))
  {
    hide Shape, FreeOk;
    var f := Dfn(envs, s);
    forall t: Slot ensures View(envs, disk[f := data], t) == if t == s then Here(data) else View(envs, disk, t) {
      assert Dfn(envs, t) == f ==> owner[f] == t && owner[f] == s;
    }
  }

  /** Two addresses share a page slot exactly if they lie in one page, and a table slot if in one 4 MB stretch. */
  lemma SlotsApart(e: int, a: int, b: int)
    requires 0 <= a < 0x1_0000_0000 && 0 <= b < 0x1_0000_0000
    ensures PageSlot(e, PDX(a), PTX(a)) == PageSlot(e, PDX(b), PTX(b)) <==> a / 4096 == b / 4096
    ensures TableSlot(e, PDX(a)) == TableSlot(e, PDX(b)) <==> a / 0x40_0000 == b / 0x40_0000
  {
    IndicesAre(a);
    IndicesAre(b);
    assert a / 0x40_0000 == a / 4096 / 1024 && b / 0x40_0000 == b / 4096 / 1024;
  }

  // ----- making the directories -----

  function WithPageDir(envs: Envs, e: int): Envs
    requires e in envs
  {
    if envs[e].pages.NoPageDir? then envs[e := envs[e].(pages := PageDir(map[]))] else envs
  }

  function WithPageTable(envs: Envs, e: int, i: int): Envs
    requires e in envs && envs[e].pages.PageDir?
  {
    if i in envs[e].pages.tables then envs
    else envs[e := envs[e].(pages := PageDir(envs[e].pages.tables[i := Zeros()]))]
  }

  function WithTableDir(envs: Envs, e: int): Envs
    requires e in envs
  {
    if envs[e].tables.NoTableDir? then envs[e := envs[e].(tables := TableDir(Zeros()))] else envs
  }

  /** A new directory or table is empty: no slot shows anything it did not show before. */
  ghost predicate SameSlots(envs: Envs, r: Envs) {
    r.Keys == envs.Keys && (forall s: Slot :: Dfn(r, s) == Dfn(envs, s))
      && (forall s: Slot | Writable(envs, s) :: Writable(r, s))
  }

  lemma NewPageDir(envs: Envs, e: int)
    requires Shape(envs) && e in envs
    ensures var r := WithPageDir(envs, e); SameSlots(envs, r) && Shape(r) && r[e].pages.PageDir?
  {
  }

  lemma NewPageTable(envs: Envs, e: int, i: int)
    requires Shape(envs) && e in envs && envs[e].pages.PageDir? && 0 <= i < ENTRIES
    ensures var r := WithPageTable(envs, e, i);
            SameSlots(envs, r) && Shape(r) && forall j | 0 <= j < ENTRIES :: Writable(r, PageSlot(e, i, j))
  {
  }

  lemma NewTableDir(envs: Envs, e: int, i: int)
    requires Shape(envs) && e in envs && 0 <= i < ENTRIES
    ensures var r := WithTableDir(envs, e); SameSlots(envs, r) && Shape(r) && Writable(r, TableSlot(e, i))
  {
  }

  lemma NewDirs(envs: Envs, e: int, i: int)
    requires Shape(envs) && e in envs && 0 <= i < ENTRIES
    ensures var r := WithPageTable(WithPageDir(envs, e), e, i);
            SameSlots(envs, r) && Shape(r) && forall j | 0 <= j < ENTRIES :: Writable(r, PageSlot(e, i, j))
  {
    NewPageDir(envs, e);
    hide Shape, WithPageTable, Dfn, Writable;
    NewPageTable(WithPageDir(envs, e), e, i);
  }

  lemma SameOwned(envs: Envs, r: Envs, free: seq<int>, owner: map<int, Slot>)
    requires Owned(envs, free, owner) && SameSlots(envs, r) && Shape(r)
    ensures Owned(r, free, owner)
  {
    hide Shape, FreeOk;
  }

  class Manager {
    var disk: array<Page>
    var free: seq<int>
    var envs: Envs
    ghost var owner: map<int, Slot>

    ghost predicate Valid()
      reads this, disk
    {
      disk.Length == PAGES_PER_FILE && Owned(envs, free, owner)
    }

    ghost function Shown(s: Slot): Content
      reads this, disk
    {
      View(envs, disk[..], s)
    }

    /** What the frame that would be handed out next holds. */
    ghost function Stale(): Page
      reads this, disk
    {
      if free != [] && 0 <= free[0] < disk.Length then disk[free[0]] else []
    }

    /** Frame 0 is never handed out; the others start free, the last one first. */
    constructor (environments: Envs)
      requires forall e | e in environments :: environments[e] == Env(NoPageDir, NoTableDir)
      ensures Valid() && Complete(free, owner) && owner == map[] && envs == environments && fresh(disk)
      ensures |free| == 133119 && forall k | 0 <= k < |free| :: free[k] == 133119 - k
    {
      disk := new Page[PAGES_PER_FILE](_ => []);
      envs := environments;
      owner := map[];
      free := [];
      new;
      for i := 1 to PAGES_PER_FILE
        invariant disk.Length == PAGES_PER_FILE && fresh(disk) && envs == environments && owner == map[]
        invariant |free| == i - 1 && forall k | 0 <= k < |free| :: free[k] == i - 1 - k
      {
        free := [i] + free;
      }
      forall f | 1 <= f < PAGES_PER_FILE ensures f in free {
        assert free[PAGES_PER_FILE - 1 - f] == f;
      }
    }

    method AllocateDiskFrame() returns (err: int, dfn: int)
      modifies this`free
      ensures old(free) == [] ==> err == E_NO_PAGE_FILE_SPACE && free == []
      ensures old(free) != [] ==> err == 0 && dfn == old(free)[0] && free == old(free)[1..]
    {
      dfn := 0;
      if free == [] {
        err := E_NO_PAGE_FILE_SPACE;
      } else {
        err, dfn := 0, free[0];
        free := free[1..];
      }
    }

    method FreeDiskFrame(dfn: int)
      modifies this`free
      ensures free == Freed(old(free), dfn) == if dfn == 0 then old(free) else [dfn] + old(free)
    {
      if dfn == 0 { return; }
      free := [dfn] + free;
    }

    method GetDiskPageDirectory(e: int)
      requires e in envs
      modifies this`envs
      ensures envs == WithPageDir(old(envs), e)
    {
      if envs[e].pages.NoPageDir? {
        envs := envs[e := envs[e].(pages := PageDir(map[]))];
      }
    }

    /** It reads through the page directory and goes wild where that is missing. */
    method GetDiskPageTable(e: int, va: int, create: bool) returns (wild: bool, found: bool)
      requires e in envs
      modifies this`envs
      ensures wild == !old(envs)[e].pages.PageDir? && (wild ==> envs == old(envs))
      ensures !wild ==> found == (create || PDX(va) in old(envs)[e].pages.tables)
                        && envs == if create then WithPageTable(old(envs), e, PDX(va)) else old(envs)
    {
      wild, found := envs[e].pages.NoPageDir?, false;
      if wild { return; }
      if PDX(va) !in envs[e].pages.tables {
        if !create { return; }
        envs := envs[e := envs[e].(pages := PageDir(envs[e].pages.tables[PDX(va) := Zeros()]))];
      }
      found := true;
    }

    /** The disk frame of a page, taking a free one if it has none. */
    method FrameFor(e: int, va: int) returns (err: int, dfn: int)
      requires Valid() && e in envs && 0 <= va < KERNEL_BASE
      modifies this`envs, this`free, this`owner
      ensures Valid() && (old(Complete(free, owner)) ==> Complete(free, owner))
      ensures var s := PageSlot(e, PDX(va), PTX(va));
              var f := old(Dfn(envs, s));
              && err == (if f == 0 && old(free) == [] then E_NO_PAGE_FILE_SPACE else 0)
              && free == (if f == 0 && old(free) != [] then old(free)[1..] else old(free))
              && (err == 0 ==> dfn != 0 && dfn == if f == 0 then old(free)[0] else f)
              && (forall t: Slot :: Dfn(envs, t) == if err == 0 && t == s then dfn else old(Dfn(envs, t)))
    {
      hide Owned, Complete, Put, Dfn, Writable;
      ghost var was, s := envs, PageSlot(e, PDX(va), PTX(va));
      assert Shape(envs) by { ShapeOf(envs, free, owner); }
      NewDirs(envs, e, PDX(va));
      GetDiskPageDirectory(e);
      var wild, found := GetDiskPageTable(e, va, true);
      SameOwned(was, envs, free, owner);
      SlotWord(envs, s);
      dfn := envs[e].pages.tables[PDX(va)][PTX(va)];
      err := 0;
      if dfn == 0 {
        if free != [] { TakeOk(envs, free, owner, s); }
        err, dfn := AllocateDiskFrame();
        if err == E_NO_PAGE_FILE_SPACE { return; }
        PutPage(envs, s, dfn);
        var tables := envs[e].pages.tables;
        envs := envs[e := envs[e].(pages := PageDir(tables[PDX(va) := tables[PDX(va)][PTX(va) := dfn]]))];
        owner := owner[dfn := s];
      }
    }

    /** Adds or overwrites one page; without a frame for it nothing is changed. */
    method PfAddEnvPage(e: int, va: int, data: Page) returns (err: int)
      requires Valid() && e in envs && 0 <= va < KERNEL_BASE
      modifies this`envs, this`free, this`owner, disk
      ensures Valid() && (old(Complete(free, owner)) ==> Complete(free, owner))
      ensures var s := PageSlot(e, PDX(va), PTX(va));
              && (err == if old(Shown(s)) == Absent && old(free) == [] then E_NO_PAGE_FILE_SPACE else 0)
              && forall t: Slot :: Shown(t) == if err == 0 && t == s then Here(data) else old(Shown(t))
    {
      hide Owned, Complete, Dfn;
      ghost var s := PageSlot(e, PDX(va), PTX(va));
      InRange(envs, free, owner);
      var dfn;
      err, dfn := FrameFor(e, va);
      ViewSame(old(envs), envs, disk[..], if err == 0 then Is(s) else Nothing);
      if err == 0 {
        InRange(envs, free, owner);
        WriteView(envs, free, owner, disk[..], s, data);
        ghost var was := disk[..];
        disk[dfn] := data;
        assert disk[..] == was[dfn := data];
      }
    }

    /** Without initialisation a new page shows what the disk frame held before. */
    method PfAddEmptyEnvPage(e: int, va: int, initializeByZero: bool) returns (err: int)
      requires Valid() && e in envs && 0 <= va < KERNEL_BASE
      modifies this`envs, this`free, this`owner, disk
      ensures Valid() && (old(Complete(free, owner)) ==> Complete(free, owner))
      ensures var s := PageSlot(e, PDX(va), PTX(va));
              && (err == if old(Shown(s)) == Absent && old(free) == [] then E_NO_PAGE_FILE_SPACE else 0)
              && (forall t: Slot | t != s || err != 0 :: Shown(t) == old(Shown(t)))
              && (err == 0 ==>
                    Shown(s) == if initializeByZero then Here(Zeros())
                                else if old(Shown(s)) == Absent then Here(old(Stale())) else old(Shown(s)))
    {
      hide Owned, Complete, Dfn;
      if initializeByZero {
        err := PfAddEnvPage(e, va, Zeros());
        return;
      }
      ghost var s := PageSlot(e, PDX(va), PTX(va));
      InRange(envs, free, owner);
      var dfn;
      err, dfn := FrameFor(e, va);
      ViewSame(old(envs), envs, disk[..], if err == 0 then Is(s) else Nothing);
      InRange(envs, free, owner);
    }

    method PfReadEnvPage(e: int, va: int) returns (err: int, data: Page)
      requires Valid() && e in envs && 0 <= va < WORD_LIMIT
      ensures var s := PageSlot(e, PDX(va), PTX(va));
              if Shown(s) == Absent then err == E_PAGE_NOT_EXIST_IN_PF else err == 0 && Shown(s) == Here(data)
    {
      data := [];
      if envs[e].pages.NoPageDir? {
        return E_PAGE_NOT_EXIST_IN_PF, [];
      }
      if PDX(va) !in envs[e].pages.tables {
        return E_PAGE_NOT_EXIST_IN_PF, [];
      }
      assert 0 <= PTX(va) < ENTRIES;
      var dfn := envs[e].pages.tables[PDX(va)][PTX(va)];
      assert dfn == Dfn(envs, PageSlot(e, PDX(va), PTX(va)));
      if dfn == 0 {
        return E_PAGE_NOT_EXIST_IN_PF, [];
      }
      err, data := 0, disk[dfn];
    }

    method PfRemoveEnvPage(e: int, va: int)
      requires Valid() && e in envs && 0 <= va < WORD_LIMIT
      modifies this`envs, this`free, this`owner
      ensures Valid() && (Complete(free, owner) <==> old(Complete(free, owner)))
      ensures var s := PageSlot(e, PDX(va), PTX(va));
              && free == Freed(old(free), old(Dfn(envs, s)))
              && forall t: Slot :: Shown(t) == if t == s then Absent else old(Shown(t))
    {
      hide Owned, Complete, Put;
      var s := PageSlot(e, PDX(va), PTX(va));
      if envs[e].pages.NoPageDir? { return; }
      if PDX(va) !in envs[e].pages.tables { return; }
      assert Writable(envs, s) by { ShapeOf(envs, free, owner); }
      hide Dfn, Writable;
      SlotWord(envs, s);
      RemoveSlot(s);
    }

    /** The common end of removing: the slot's frame goes back to the free list. */
    method RemoveSlot(s: Slot)
      requires Valid() && Writable(envs, s)
      modifies this`envs, this`free, this`owner
      ensures Valid() && envs == Put(old(envs), s, 0) && free == Freed(old(free), old(Dfn(envs, s)))
              && owner == Disowned(old(owner), old(Dfn(envs, s)))
      ensures Complete(free, owner) <==> old(Complete(free, owner))
      ensures forall t: Slot :: Shown(t) == if t == s then Absent else old(Shown(t))
    {
      hide Owned, Complete, Freed, Disowned;
      GiveOk(envs, free, owner, s);
      var dfn := Dfn(envs, s);
      envs := Put(envs, s, 0);
      owner := Disowned(owner, dfn);
      FreeDiskFrame(dfn);
      ViewSame(old(envs), envs, disk[..], Is(s));
    }

    /** A page table of the environment, kept in its own slot of the page file. */
    method WriteEnvTable(e: int, va: int, data: Page) returns (err: int)
      requires Valid() && e in envs && 0 <= va < KERNEL_BASE
      modifies this`envs, this`free, this`owner, disk
      ensures Valid() && (old(Complete(free, owner)) ==> Complete(free, owner))
      ensures var s := TableSlot(e, PDX(va));
              && (err == if old(Shown(s)) == Absent && old(free) == [] then E_NO_PAGE_FILE_SPACE else 0)
              && forall t: Slot :: Shown(t) == if err == 0 && t == s then Here(data) else old(Shown(t))
    {
      hide Owned, Complete, Put, Dfn, Writable;
      var s := TableSlot(e, PDX(va));
      InRange(envs, free, owner);
      assert Shape(envs) by { ShapeOf(envs, free, owner); }
      NewTableDir(envs, e, PDX(va));
      SameOwned(envs, WithTableDir(envs, e), free, owner);
      if envs[e].tables.NoTableDir? {
        envs := envs[e := envs[e].(tables := TableDir(Zeros()))];
      }
      var dfn := Dfn(envs, s);
      err := 0;
      if dfn == 0 {
        if free != [] { TakeOk(envs, free, owner, s); }
        err, dfn := AllocateDiskFrame();
        if err == E_NO_PAGE_FILE_SPACE {
          ViewSame(old(envs), envs, disk[..], Nothing);
          return;
        }
        envs := Put(envs, s, dfn);
        owner := owner[dfn := s];
      }
      ViewSame(old(envs), envs, disk[..], Is(s));
      InRange(envs, free, owner);
      WriteView(envs, free, owner, disk[..], s, data);
      ghost var was := disk[..];
      disk[dfn] := data;
      assert disk[..] == was[dfn := data];
    }

    method ReadEnvTable(e: int, va: int) returns (err: int, data: Page)
      requires Valid() && e in envs && 0 <= va < WORD_LIMIT
      ensures var s := TableSlot(e, PDX(va));
              if Shown(s) == Absent then err == E_TABLE_NOT_EXIST_IN_PF else err == 0 && Shown(s) == Here(data)
    {
      if envs[e].tables.NoTableDir? {
        return E_TABLE_NOT_EXIST_IN_PF, [];
      }
      var dfn := envs[e].tables.slots[PDX(va)];
      assert dfn == Dfn(envs, TableSlot(e, PDX(va)));
      if dfn == 0 {
        return E_TABLE_NOT_EXIST_IN_PF, [];
      }
      err, data := 0, disk[dfn];
    }

    method RemoveEnvTable(e: int, va: int)
      requires Valid() && e in envs && 0 <= va < WORD_LIMIT
      modifies this`envs, this`free, this`owner
      ensures Valid() && (Complete(free, owner) <==> old(Complete(free, owner)))
      ensures var s := TableSlot(e, PDX(va));
              && free == Freed(old(free), old(Dfn(envs, s)))
              && forall t: Slot :: Shown(t) == if t == s then Absent else old(Shown(t))
    {
      hide Owned, Complete, Put;
      if envs[e].tables.NoTableDir? { return; }
      var s := TableSlot(e, PDX(va));
      assert Writable(envs, s) by { ShapeOf(envs, free, owner); }
      hide Dfn, Writable;
      RemoveSlot(s);
    }

    /** Pages of the environment below USER_TOP that are in the page file; wild where it has no page directory. */
    method CalculateAllocatedPages(e: int) returns (wild: bool, counter: nat)
      requires Valid() && e in envs
      ensures wild == !envs[e].pages.PageDir?
      ensures !wild ==> counter == |ShownBelow(envs, disk[..], e, 955)|
    {
      hide Owned;
      wild, counter := envs[e].pages.NoPageDir?, 0;
      if wild { return; }
      ghost var all := envs;
      ShapeOf(envs, free, owner);
      NoneBelow(envs, e);
      for i := 0 to USER_ENTRIES
        invariant envs == all && counter == |PagesBelow(envs, e, i, 0)|
      {
        if i in envs[e].pages.tables {
          for j := 0 to ENTRIES
            invariant envs == all && counter == |PagesBelow(envs, e, i, j)|
          {
            OneMore(envs, e, i, j);
            if envs[e].pages.tables[i][j] != 0 {
              counter := counter + 1;
            }
          }
        }
        NextTable(envs, e, i);
      }
      ShownAre(envs, free, owner, disk[..], e);
    }

    method CalculateFreeFrames() returns (n: nat)
      requires Valid()
      ensures n == |free| && (Complete(free, owner) <==> n + |owner| == PAGES_PER_FILE - 1)
    {
      FramesConserved(envs, free, owner);
      n := |free|;
    }

    /** Empties the page slots below USER_TOP and the tables that held them; wild without a page directory. */
    method FreePages(e: int) returns (wild: bool)
      requires Valid() && e in envs
      modifies this`envs, this`free, this`owner
      ensures wild == !old(envs)[e].pages.PageDir? && Valid() && e in envs && envs.Keys == old(envs).Keys
      ensures wild ==> envs == old(envs) && free == old(free) && owner == old(owner)
      ensures !wild ==> envs[e].pages.PageDir?
                        && Emptied(old(envs), old(free), old(owner), envs, free, owner, e, USER_ENTRIES, 0, 0)
    {
      hide Owned, Put, Dfn, Gone, Emptied, Freed, Disowned;
      wild := envs[e].pages.NoPageDir?;
      if wild { return; }
      ghost var was, wasFree, wasOwner := envs, free, owner;
      EmptyNone(envs, free, owner, e);
      for i := 0 to USER_ENTRIES
        invariant Valid() && e in envs && envs.Keys == was.Keys && envs[e].pages.PageDir?
        invariant Emptied(was, wasFree, wasOwner, envs, free, owner, e, i, 0, 0)
      {
        if i in envs[e].pages.tables {
          for j := 0 to ENTRIES
            invariant Valid() && e in envs && envs.Keys == was.Keys && envs[e].pages.PageDir?
                      && i in envs[e].pages.tables
            invariant Emptied(was, wasFree, wasOwner, envs, free, owner, e, i, j, 0)
          {
            var s := PageSlot(e, i, j);
            assert Writable(envs, s) by { ShapeOf(envs, free, owner); }
            EmptyOne(was, wasFree, wasOwner, envs, free, owner, e, i, j, 0, s);
            GiveOk(envs, free, owner, s);
            PutKeeps(envs, s, 0);
            var dfn := Dfn(envs, s);
            envs := Put(envs, s, 0);
            owner := Disowned(owner, dfn);
            FreeDiskFrame(dfn);
          }
          NoTable(was, wasFree, wasOwner, envs, free, owner, e, i);
          envs := envs[e := envs[e].(pages := PageDir(envs[e].pages.tables - {i}))];
        } else {
          SkipTable(was, wasFree, wasOwner, envs, free, owner, e, i);
        }
      }
    }

    method RemoveEnvAllTables(e: int)
      requires Valid() && e in envs
      modifies this`envs, this`free, this`owner
      ensures Valid() && e in envs && envs.Keys == old(envs).Keys && envs[e].pages == old(envs)[e].pages
      ensures Emptied(old(envs), old(free), old(owner), envs, free, owner, e, 0, 0, USER_ENTRIES)
    {
      hide Owned, Put, Dfn, Gone, Emptied, Freed, Disowned;
      ghost var was, wasFree, wasOwner := envs, free, owner;
      if envs[e].tables.NoTableDir? {
        NoTables(envs, free, owner, e);
        return;
      }
      EmptyNone(envs, free, owner, e);
      for k := 0 to USER_ENTRIES
        invariant Valid() && e in envs && envs.Keys == was.Keys && envs[e].tables.TableDir?
                  && envs[e].pages == was[e].pages
        invariant Emptied(was, wasFree, wasOwner, envs, free, owner, e, 0, 0, k)
      {
        var s := TableSlot(e, k);
        assert Writable(envs, s) by { ShapeOf(envs, free, owner); }
        EmptyOne(was, wasFree, wasOwner, envs, free, owner, e, 0, 0, k, s);
        GiveOk(envs, free, owner, s);
        PutKeeps(envs, s, 0);
        var dfn := Dfn(envs, s);
        envs := Put(envs, s, 0);
        owner := Disowned(owner, dfn);
        FreeDiskFrame(dfn);
      }
    }

    /**
     * Every frame of the environment's slots below USER_TOP comes back; those of slots above it are lost. So no
     * frame is lost exactly when the environment had nothing there. Without a page directory, as after an earlier
     * call, it goes wild at once.
     */
    method PfFreeEnv(e: int) returns (wild: bool)
      requires Valid() && e in envs
      modifies this`envs, this`free, this`owner
      ensures wild == !old(envs)[e].pages.PageDir? && Valid()
      ensures wild ==> envs == old(envs) && free == old(free) && owner == old(owner)
      ensures !wild ==> e in envs && envs[e] == Env(NoPageDir, NoTableDir)
      ensures !wild ==> forall t: Slot :: Shown(t) == if t.env == e then Absent else old(Shown(t))
      ensures !wild ==> forall f ::
               f in free
               <==> f in old(free) || (f in old(owner) && old(owner)[f].env == e && old(owner)[f].pdx < USER_ENTRIES)
      ensures !wild ==> forall f :: f in owner <==> f in old(owner) && old(owner)[f].env != e
      ensures !wild && old(Complete(free, owner)) ==>
                (Complete(free, owner)
                 <==> forall s: Slot | s.env == e && s.pdx >= USER_ENTRIES :: old(Shown(s)) == Absent)
    {
      hide Owned, Dfn, Gone, Emptied;
      ghost var was, wasFree, wasOwner := envs, free, owner;
      wild := FreePages(e);
      if wild { return; }
      ghost var envs1, free1, owner1 := envs, free, owner;
      owner := map f | f in owner && !(owner[f].env == e && owner[f].PageSlot?) :: owner[f];
      envs := envs[e := envs[e].(pages := NoPageDir)];
      DropPages(envs1, envs, free, owner1, owner, e);
      ghost var envs2, owner2 := envs, owner;
      RemoveEnvAllTables(e);
      ghost var envs3, owner3 := envs, owner;
      NoPagesLeft(envs2, free1, owner2, envs, free, owner, e);
      owner := map f | f in owner && owner[f].env != e :: owner[f];
      envs := envs[e := envs[e].(tables := NoTableDir)];
      DropTables(envs3, envs, free, owner3, owner, e);
      FreedFrames(wasFree, wasOwner, was, envs1, free1, owner1, owner2, envs2, envs3, free, owner3, owner, e);
      FreedViews(was, wasFree, wasOwner, envs1, free1, owner1, envs2, owner2, envs3, free, owner3, envs, disk[..], e);
      LostIff(was, wasFree, wasOwner, free, owner, disk[..], e);
    }
  }

  // ----- freeing an environment -----

  /** The slots of `e` that have been emptied: page slots before (i, j), table slots before k. */
  predicate Gone(s: Slot, e: int, i: int, j: int, k: int) {
    s.env == e && match s
                  case PageSlot(_, p, q) => p < i || (p == i && q < j)
                  case TableSlot(_, p) => p < k
  }

  /** The frames of the emptied slots are free and nobody's; everything else is as it was. */
  ghost predicate Emptied(was: Envs, wasFree: seq<int>, wasOwner: map<int, Slot>, envs: Envs, free: seq<int>,
      owner: map<int, Slot>, e: int, i: int, j: int, k: int)
  {
    && Owned(envs, free, owner)
    && (forall s: Slot :: Dfn(envs, s) == if Gone(s, e, i, j, k) then 0 else Dfn(was, s))
    && (forall f :: f in owner <==> f in wasOwner && !Gone(wasOwner[f], e, i, j, k))
    && (forall f | f in owner :: owner[f] == wasOwner[f])
    && (forall f :: f in free <==> f in wasFree || (f in wasOwner && Gone(wasOwner[f], e, i, j, k)))
  }

  /** Emptying the next slot. */
  lemma EmptyOne(was: Envs, wasFree: seq<int>, wasOwner: map<int, Slot>, envs: Envs, free: seq<int>,
      owner: map<int, Slot>, e: int, i: int, j: int, k: int, s: Slot)
    requires Owned(was, wasFree, wasOwner) && Emptied(was, wasFree, wasOwner, envs, free, owner, e, i, j, k)
             && Writable(envs, s)
    requires s == PageSlot(e, i, j) || s == TableSlot(e, k)
    ensures var f := Dfn(envs, s);
            Emptied(was, wasFree, wasOwner, Put(envs, s, 0), Freed(free, f), Disowned(owner, f), e,
                    i, if s.PageSlot? then j + 1 else j, if s.PageSlot? then k else k + 1)
  {
    var f := Dfn(envs, s);
    GiveOk(envs, free, owner, s);
    var j', k' := if s.PageSlot? then j + 1 else j, if s.PageSlot? then k else k + 1;
    hide Owned, Put, Dfn, Writable;
    NextGone(e, i, j, k, s);
    assert !Gone(s, e, i, j, k);
    hide Gone;
    OwnerOf(was, wasFree, wasOwner, s);
    EmptySets(wasFree, wasOwner, free, owner, e, i, j, k, j', k', s, f);
  }

  /** The frame that goes is the slot's, if it has one. */
  lemma EmptySets(wasFree: seq<int>, wasOwner: map<int, Slot>, free: seq<int>, owner: map<int, Slot>, e: int, i: int,
      j: int, k: int, j': int, k': int, s: Slot, f: int)
    requires forall t: Slot :: Gone(t, e, i, j', k') <==> Gone(t, e, i, j, k) || t == s
    requires forall g | g in wasOwner && wasOwner[g] == s :: g == f
    requires f != 0 ==> f in wasOwner && wasOwner[f] == s
    requires forall g :: g in owner <==> g in wasOwner && !Gone(wasOwner[g], e, i, j, k)
    requires forall g | g in owner :: owner[g] == wasOwner[g]
    requires forall g :: g in free <==> g in wasFree || (g in wasOwner && Gone(wasOwner[g], e, i, j, k))
    requires 0 !in wasOwner
    ensures var r := Disowned(owner, f);
            && (forall g :: g in r <==> g in wasOwner && !Gone(wasOwner[g], e, i, j', k'))
            && (forall g | g in r :: r[g] == wasOwner[g])
            && (forall g :: g in Freed(free, f) <==> g in wasFree || (g in wasOwner && Gone(wasOwner[g], e, i, j', k')))
  {
    hide Gone;
    assert forall g :: g in Freed(free, f) <==> g in free || (g == f && f != 0);
    assert forall g :: g in Disowned(owner, f) <==> g in owner && g != f;
    hide Freed, Disowned;
  }

  /** Slots that hold nothing need no emptying. */
  lemma EmptySkip(was: Envs, wasFree: seq<int>, wasOwner: map<int, Slot>, envs: Envs, r: Envs, free: seq<int>,
      owner: map<int, Slot>, e: int, i: int, j: int, k: int, i': int, j': int, k': int)
    requires Owned(was, wasFree, wasOwner) && Emptied(was, wasFree, wasOwner, envs, free, owner, e, i, j, k)
    requires Shape(r) && forall s: Slot :: Dfn(r, s) == Dfn(envs, s)
    requires forall s: Slot | Gone(s, e, i, j, k) != Gone(s, e, i', j', k') ::
             Gone(s, e, i', j', k') && Dfn(was, s) == 0
    ensures Emptied(was, wasFree, wasOwner, r, free, owner, e, i', j', k')
  {
    assert forall f | f in wasOwner :: Gone(wasOwner[f], e, i, j, k) == Gone(wasOwner[f], e, i', j', k');
    assert Owned(r, free, owner) by { hide Shape, FreeOk; }
    hide Owned, Gone, Dfn;
  }

  lemma EmptyNone(envs: Envs, free: seq<int>, owner: map<int, Slot>, e: int)
    requires Owned(envs, free, owner)
    ensures Emptied(envs, free, owner, envs, free, owner, e, 0, 0, 0)
  {
    assert forall s: Slot :: Gone(s, e, 0, 0, 0) ==> Dfn(envs, s) == 0;
    assert forall f | f in owner :: Dfn(envs, owner[f]) == f;
    hide Owned, Dfn, Gone;
  }

  lemma PutKeeps(envs: Envs, s: Slot, dfn: int)
    requires Writable(envs, s)
    ensures var r := Put(envs, s, dfn);
            && r.Keys == envs.Keys
            && (forall e | e in envs ::
               r[e].pages.PageDir? == envs[e].pages.PageDir? && r[e].tables.TableDir? == envs[e].tables.TableDir?)
            && (forall e, i | e in envs && envs[e].pages.PageDir? && i in envs[e].pages.tables ::
               i in r[e].pages.tables)
    ensures s.TableSlot? ==> Put(envs, s, dfn)[s.env].pages == envs[s.env].pages
  {
  }

  /** A disk page table whose entries are all empty can go. */
  lemma NoTable(was: Envs, wasFree: seq<int>, wasOwner: map<int, Slot>, envs: Envs, free: seq<int>,
      owner: map<int, Slot>, e: int, i: int)
    requires Owned(was, wasFree, wasOwner) && Emptied(was, wasFree, wasOwner, envs, free, owner, e, i, ENTRIES, 0)
    requires e in envs && envs[e].pages.PageDir?
    ensures var r := envs[e := envs[e].(pages := PageDir(envs[e].pages.tables - {i}))];
            Owned(r, free, owner) && Emptied(was, wasFree, wasOwner, r, free, owner, e, i + 1, 0, 0)
  {
    var r := envs[e := envs[e].(pages := PageDir(envs[e].pages.tables - {i}))];
    assert Shape(envs) && Shape(r) && Shape(was);
    forall s: Slot ensures Dfn(r, s) == Dfn(envs, s) {
      if s.PageSlot? && s.env == e && s.pdx == i { assert Gone(s, e, i, ENTRIES, 0) || !Writable(envs, s); }
    }
    forall s: Slot | Gone(s, e, i, ENTRIES, 0) != Gone(s, e, i + 1, 0, 0)
      ensures Gone(s, e, i + 1, 0, 0) && Dfn(was, s) == 0
    {
      assert !Writable(was, s);
    }
    EmptySkip(was, wasFree, wasOwner, envs, r, free, owner, e, i, ENTRIES, 0, i + 1, 0, 0);
  }

  lemma SkipTable(was: Envs, wasFree: seq<int>, wasOwner: map<int, Slot>, envs: Envs, free: seq<int>,
      owner: map<int, Slot>, e: int, i: int)
    requires Owned(was, wasFree, wasOwner) && Emptied(was, wasFree, wasOwner, envs, free, owner, e, i, 0, 0)
    requires e in envs && envs[e].pages.PageDir? && i !in envs[e].pages.tables
    ensures Emptied(was, wasFree, wasOwner, envs, free, owner, e, i + 1, 0, 0)
  {
    assert Shape(envs);
    forall s: Slot | Gone(s, e, i, 0, 0) != Gone(s, e, i + 1, 0, 0)
      ensures Gone(s, e, i + 1, 0, 0) && Dfn(was, s) == 0
    {
      assert Dfn(envs, s) == 0;
    }
    EmptySkip(was, wasFree, wasOwner, envs, envs, free, owner, e, i, 0, 0, i + 1, 0, 0);
  }

  lemma NoTables(envs: Envs, free: seq<int>, owner: map<int, Slot>, e: int)
    requires Owned(envs, free, owner) && e in envs && envs[e].tables.NoTableDir?
    ensures Emptied(envs, free, owner, envs, free, owner, e, 0, 0, USER_ENTRIES)
  {
    EmptyNone(envs, free, owner, e);
    assert Shape(envs);
    EmptySkip(envs, free, owner, envs, envs, free, owner, e, 0, 0, 0, 0, 0, USER_ENTRIES);
  }

  /** What is still in the page slots when their directory goes is lost. */
  lemma DropPages(envs: Envs, r: Envs, free: seq<int>, owner: map<int, Slot>, left: map<int, Slot>, e: int)
    requires Owned(envs, free, owner) && e in envs && r == envs[e := envs[e].(pages := NoPageDir)]
    requires left == map f | f in owner && !(owner[f].env == e && owner[f].PageSlot?) :: owner[f]
    ensures Owned(r, free, left) && forall s: Slot :: Dfn(r, s) == if s.env == e && s.PageSlot? then 0 else Dfn(envs, s)
  {
    assert Shape(r);
    assert forall s: Slot :: Dfn(r, s) == if s.env == e && s.PageSlot? then 0 else Dfn(envs, s);
    hide Shape, FreeOk, Dfn;
  }

  lemma DropTables(envs: Envs, r: Envs, free: seq<int>, owner: map<int, Slot>, left: map<int, Slot>, e: int)
    requires Owned(envs, free, owner) && e in envs && r == envs[e := envs[e].(tables := NoTableDir)]
    requires left == map f | f in owner && owner[f].env != e :: owner[f]
    requires forall s: Slot | s.env == e && s.PageSlot? :: Dfn(envs, s) == 0
    ensures Owned(r, free, left) && forall s: Slot :: Dfn(r, s) == if s.env == e then 0 else Dfn(envs, s)
  {
    assert Shape(r);
    assert forall s: Slot :: Dfn(r, s) == if s.env == e then 0 else Dfn(envs, s);
    hide Shape, FreeOk, Dfn;
  }

  lemma NoPagesLeft(was: Envs, wasFree: seq<int>, wasOwner: map<int, Slot>, envs: Envs, free: seq<int>,
      owner: map<int, Slot>, e: int)
    requires Emptied(was, wasFree, wasOwner, envs, free, owner, e, 0, 0, USER_ENTRIES)
    requires forall s: Slot | s.env == e && s.PageSlot? :: Dfn(was, s) == 0
    ensures forall s: Slot | s.env == e && s.PageSlot? :: Dfn(envs, s) == 0
  {
    hide Dfn, Owned, Gone;
  }

  /** Which frames came back, and who still owns one. */
  lemma FreedFrames(wasFree: seq<int>, wasOwner: map<int, Slot>, was: Envs, envs1: Envs, free1: seq<int>,
      owner1: map<int, Slot>, owner2: map<int, Slot>, envs2: Envs, envs3: Envs, free: seq<int>, owner3: map<int, Slot>,
      owner: map<int, Slot>, e: int)
    requires Owned(was, wasFree, wasOwner)
    requires Emptied(was, wasFree, wasOwner, envs1, free1, owner1, e, USER_ENTRIES, 0, 0)
    requires owner2 == map f | f in owner1 && !(owner1[f].env == e && owner1[f].PageSlot?) :: owner1[f]
    requires Emptied(envs2, free1, owner2, envs3, free, owner3, e, 0, 0, USER_ENTRIES)
    requires owner == map f | f in owner3 && owner3[f].env != e :: owner3[f]
    ensures forall f ::
             f in free
             <==> f in wasFree || (f in wasOwner && wasOwner[f].env == e && wasOwner[f].pdx < USER_ENTRIES)
    ensures forall f :: f in owner <==> f in wasOwner && wasOwner[f].env != e
  {
    forall f | f in wasOwner ensures 0 <= wasOwner[f].pdx && (wasOwner[f].PageSlot? ==> 0 <= wasOwner[f].ptx) {
      assert Dfn(was, wasOwner[f]) == f;
    }
    hide Dfn, Owned;
  }

  lemma FreedViews(was: Envs, wasFree: seq<int>, wasOwner: map<int, Slot>, envs1: Envs, free1: seq<int>,
      owner1: map<int, Slot>, envs2: Envs, owner2: map<int, Slot>, envs3: Envs, free: seq<int>, owner3: map<int, Slot>,
      envs: Envs, disk: seq<Page>, e: int)
    requires Emptied(was, wasFree, wasOwner, envs1, free1, owner1, e, USER_ENTRIES, 0, 0)
    requires forall s: Slot :: Dfn(envs2, s) == if s.env == e && s.PageSlot? then 0 else Dfn(envs1, s)
    requires Emptied(envs2, free1, owner2, envs3, free, owner3, e, 0, 0, USER_ENTRIES)
    requires forall s: Slot :: Dfn(envs, s) == if s.env == e then 0 else Dfn(envs3, s)
    ensures forall s: Slot :: View(envs, disk, s) == if s.env == e then Absent else View(was, disk, s)
  {
    hide Dfn, Owned;
  }

  lemma OwnerOf(envs: Envs, free: seq<int>, owner: map<int, Slot>, s: Slot)
    requires Owned(envs, free, owner)
    ensures Dfn(envs, s) != 0 ==> Dfn(envs, s) in owner && owner[Dfn(envs, s)] == s
    ensures 0 !in owner && forall f | f in owner && owner[f] == s :: f == Dfn(envs, s)
  {
  }

  lemma NextGone(e: int, i: int, j: int, k: int, s: Slot)
    requires s == PageSlot(e, i, j) || s == TableSlot(e, k)
    ensures forall t: Slot ::
              Gone(t, e, i, if s.PageSlot? then j + 1 else j, if s.PageSlot? then k else k + 1)
              <==> Gone(t, e, i, j, k) || t == s
  {
    var j', k' := if s.PageSlot? then j + 1 else j, if s.PageSlot? then k else k + 1;
    forall t: Slot ensures Gone(t, e, i, j', k') <==> Gone(t, e, i, j, k) || t == s {
      match t
      case PageSlot(_, p, q) => assert t == s <==> s.PageSlot? && t.env == e && p == i && q == j;
      case TableSlot(_, p) => assert t == s <==> s.TableSlot? && t.env == e && p == k;
    }
  }

  /** Frames are lost exactly when the environment had a slot in use at or above USER_TOP. */
  lemma LostIff(was: Envs, wasFree: seq<int>, wasOwner: map<int, Slot>, free: seq<int>, owner: map<int, Slot>,
      disk: seq<Page>, e: int)
    requires Owned(was, wasFree, wasOwner) && |disk| == PAGES_PER_FILE
    requires forall f ::
              f in free
              <==> f in wasFree || (f in wasOwner && wasOwner[f].env == e && wasOwner[f].pdx < USER_ENTRIES)
    requires forall f :: f in owner <==> f in wasOwner && wasOwner[f].env != e
    ensures Complete(wasFree, wasOwner) ==>
              (Complete(free, owner)
               <==> forall s: Slot | s.env == e && s.pdx >= USER_ENTRIES :: View(was, disk, s) == Absent)
  {
    InRange(was, wasFree, wasOwner);
    if Complete(wasFree, wasOwner) && Complete(free, owner) {
      forall s: Slot | s.env == e && s.pdx >= USER_ENTRIES ensures View(was, disk, s) == Absent {
        OwnerOf(was, wasFree, wasOwner, s);
      }
    }
    if forall s: Slot | s.env == e && s.pdx >= USER_ENTRIES :: View(was, disk, s) == Absent {
      forall f | f in wasOwner ensures f in free || f in owner {
        assert View(was, disk, wasOwner[f]) == Here(disk[f]);
      }
    }
  }

  /** The pages of `e` in the page file before page (i, j). */
  ghost function PagesBelow(envs: Envs, e: int, i: int, j: int): set<(int, int)> {
    set p, q | 0 <= p < ENTRIES && 0 <= q < ENTRIES && (p < i || (p == i && q < j))
      && Dfn(envs, PageSlot(e, p, q)) != 0 :: (p, q)
  }

  /** The pages of `e` with a directory index below `top` whose contents can be read. */
  ghost function ShownBelow(envs: Envs, disk: seq<Page>, e: int, top: int): set<(int, int)> {
    set p, q | 0 <= p < top && 0 <= q < 1024 && View(envs, disk, PageSlot(e, p, q)) != Absent :: (p, q)
  }

  lemma ShownAre(envs: Envs, free: seq<int>, owner: map<int, Slot>, disk: seq<Page>, e: int)
    requires Owned(envs, free, owner) && |disk| == PAGES_PER_FILE
    ensures PagesBelow(envs, e, USER_ENTRIES, 0) == ShownBelow(envs, disk, e, 955)
  {
    forall p, q ensures View(envs, disk, PageSlot(e, p, q)) != Absent <==> Dfn(envs, PageSlot(e, p, q)) != 0 {
      var f := Dfn(envs, PageSlot(e, p, q));
      assert f != 0 ==> f in owner;
    }
    hide View, Dfn, Owned;
  }

  lemma NoneBelow(envs: Envs, e: int)
    ensures |PagesBelow(envs, e, 0, 0)| == 0
  {
    assert PagesBelow(envs, e, 0, 0) == {};
  }

  lemma OneMore(envs: Envs, e: int, i: int, j: int)
    requires 0 <= i < ENTRIES && 0 <= j < ENTRIES
    ensures |PagesBelow(envs, e, i, j + 1)| == |PagesBelow(envs, e, i, j)|
            + if Dfn(envs, PageSlot(e, i, j)) != 0 then 1 else 0
  {
    if Dfn(envs, PageSlot(e, i, j)) != 0 {
      assert PagesBelow(envs, e, i, j + 1) == PagesBelow(envs, e, i, j) + {(i, j)};
    } else {
      assert PagesBelow(envs, e, i, j + 1) == PagesBelow(envs, e, i, j);
    }
  }

  lemma NextTable(envs: Envs, e: int, i: int)
    requires 0 <= i < ENTRIES
    ensures PagesBelow(envs, e, i + 1, 0) == PagesBelow(envs, e, i, ENTRIES)
    ensures (e in envs && envs[e].pages.PageDir? && i !in envs[e].pages.tables) ==>
            PagesBelow(envs, e, i + 1, 0) == PagesBelow(envs, e, i, 0)
  {
  }

  /** The free frames and the owned ones are all the frames exactly when their numbers add up. */
  lemma FramesConserved(envs: Envs, free: seq<int>, owner: map<int, Slot>)
    requires Owned(envs, free, owner)
    ensures |free| + |owner| <= PAGES_PER_FILE - 1
    ensures Complete(free, owner) <==> |free| + |owner| == PAGES_PER_FILE - 1
  {
    var a, all := (set f | f in free), Range(1, PAGES_PER_FILE);
    hide Range, Shape;
    assert Distinct(free);
    assert a !! owner.Keys && a <= all && owner.Keys <= all;
    hide Owned, FreeOk, Distinct;
    CompleteIsCover(free, owner);
    hide Complete;
    DistinctCard(free);
    CoverIff(a, owner.Keys, all);
    assert |owner| == |owner.Keys|;
  }

  lemma CompleteIsCover(free: seq<int>, owner: map<int, Slot>)
    ensures Complete(free, owner) <==> Range(1, PAGES_PER_FILE) <= (set f | f in free) + owner.Keys
  {
    var all := Range(1, PAGES_PER_FILE);
    hide Range;
    var have := (set f | f in free) + owner.Keys;
    if Complete(free, owner) {
      forall f | f in all ensures f in have {}
    }
    if all <= have {
      forall f | 1 <= f < PAGES_PER_FILE ensures f in free || f in owner {
        assert f in all && f in have;
      }
    }
  }

  datatype Only = Nothing | Is(s: Slot)

  lemma InRange(envs: Envs, free: seq<int>, owner: map<int, Slot>)
    requires Owned(envs, free, owner)
    ensures forall s: Slot :: 0 <= Dfn(envs, s) < PAGES_PER_FILE
    ensures free != [] ==> 1 <= free[0] < PAGES_PER_FILE
  {
    forall s: Slot ensures 0 <= Dfn(envs, s) < PAGES_PER_FILE {
      if Dfn(envs, s) != 0 { assert Dfn(envs, s) in owner; }
    }
    assert free != [] ==> free[0] in free;
  }

  lemma ViewSame(envs: Envs, r: Envs, disk: seq<Page>, only: Only)
    requires forall t: Slot | only != Is(t) :: Dfn(r, t) == Dfn(envs, t)
    ensures forall t: Slot | only != Is(t) :: View(r, disk, t) == View(envs, disk, t)
  {
  }

  lemma ShapeOf(envs: Envs, free: seq<int>, owner: map<int, Slot>)
    requires Owned(envs, free, owner)
    ensures Shape(envs)
  {
  }

  lemma SlotWord(envs: Envs, s: Slot)
    requires s.PageSlot? && Writable(envs, s)
    ensures envs[s.env].pages.PageDir? && s.pdx in envs[s.env].pages.tables
            && 0 <= s.ptx < |envs[s.env].pages.tables[s.pdx]|
    ensures Dfn(envs, s) == envs[s.env].pages.tables[s.pdx][s.ptx]
  {
  }

  lemma PutPage(envs: Envs, s: Slot, dfn: int)
    requires s.PageSlot? && Writable(envs, s)
    ensures var table := envs[s.env].pages.tables[s.pdx];
            var tables := envs[s.env].pages.tables;
            Put(envs, s, dfn) == envs[s.env := envs[s.env].(pages := PageDir(tables[s.pdx := table[s.ptx := dfn]]))]
  {
  }

  /** One page added at USER_TOP is enough to lose a disk frame when its environment is freed. */
  method LoseFrame(data: Page) returns (m: Manager)
    ensures fresh(m) && m.Valid() && !Complete(m.free, m.owner) && |m.free| + |m.owner| < PAGES_PER_FILE - 1
  {
    hide Owned, Complete, Dfn;
    m := new Manager(map[1 := Env(NoPageDir, NoTableDir)]);
    assert 1 in m.envs;
    ghost var s := PageSlot(1, USER_ENTRIES, 0);
    assert m.Shown(s) == Absent by { NothingShown(m.envs, m.disk[..], s); }
    var va := USER_ENTRIES * ENTRIES * PAGE_SIZE;
    assert PDX(va) == USER_ENTRIES && PTX(va) == 0 && va < KERNEL_BASE;
    var err := m.PfAddEnvPage(1, va, data);
    assert m.Shown(s) == Here(data);
    ShownHasDir(m.envs, m.disk[..], s);
    var wild := m.PfFreeEnv(1);
    FramesConserved(m.envs, m.free, m.owner);
  }

  lemma NothingShown(envs: Envs, disk: seq<Page>, s: Slot)
    requires forall e | e in envs :: envs[e] == Env(NoPageDir, NoTableDir)
    ensures View(envs, disk, s) == Absent
  {
  }

  lemma ShownHasDir(envs: Envs, disk: seq<Page>, s: Slot)
    requires s.PageSlot? && View(envs, disk, s) != Absent
    ensures s.env in envs && envs[s.env].pages.PageDir?
  {
  }
}
