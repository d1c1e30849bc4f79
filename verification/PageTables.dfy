/** Two-level page tables in physical memory: what the entries name, and the flat map they stand for. */
module PageTables {
  import opened Counting
  import opened Mmu

  const PERM_PRESENT := 1
  const PERM_WRITEABLE := 2
  const PERM_USER := 4

  /** The words of every physical frame. */
  type Memory = seq<seq<int>>

  datatype Place = Place(frame: int, slot: int)

  function FrameOf(word: int): int { word / PAGE_SIZE }
  function Perm(word: int): int { word % PAGE_SIZE }
  predicate Present(word: int) { word % 2 == 1 }

  /** The low twelve bits of the address are clear: the permissions are or-ed in by adding them. */
  function Entry(frame: int, perm: int): int { frame * PAGE_SIZE + perm }
  function WithPresent(perm: int): int { if perm % 2 == 1 then perm else perm + PERM_PRESENT }

  lemma EntryParts(frame: int, perm: int)
    requires 0 <= frame && 0 <= perm < PAGE_SIZE
    ensures var w := Entry(frame, WithPresent(perm));
            FrameOf(w) == frame && Perm(w) == WithPresent(perm) && Present(w) && w > 0
    ensures Entry(frame, WithPresent(perm)) == frame * 4096 + perm + (1 - perm % 2)
  {
  }

  /** What a directory gets for a new page table: present, writeable and for the user. */
  lemma TableEntry(frame: int)
    requires 0 <= frame
    ensures Entry(frame, WithPresent(PERM_USER + PERM_WRITEABLE)) == frame * 4096 + 7
  {
  }

  predicate In(mem: Memory, p: Place) {
    0 <= p.frame < |mem| && 0 <= p.slot < |mem[p.frame]|
  }

  function Word(mem: Memory, p: Place): int {
    if In(mem, p) then mem[p.frame][p.slot] else 0
  }

  function Put(mem: Memory, p: Place, word: int): (r: Memory)
    requires In(mem, p)
    ensures |r| == |mem| && (forall f | 0 <= f < |mem| :: |r[f]| == |mem[f]|)
    ensures forall q: Place :: Word(r, q) == if q == p then word else Word(mem, q)
  {
    mem[p.frame := mem[p.frame][p.slot := word]]
  }

  // ----- the entries that name a frame -----

  predicate Names(mem: Memory, p: Place, f: int) {
    Word(mem, p) != 0 && FrameOf(Word(mem, p)) == f
  }

  /** The user entries of the directories and all the entries of the page tables. */
  ghost function Places(dirs: set<int>, tables: set<int>): set<Place> {
    (set d, i | d in dirs && 0 <= i < USER_ENTRIES :: Place(d, i))
      + (set t, j | t in tables && 0 <= j < ENTRIES :: Place(t, j))
  }

  ghost function Naming(mem: Memory, places: set<Place>, f: int): set<Place> {
    set p | p in places && Names(mem, p, f)
  }

  lemma PutNaming(mem: Memory, places: set<Place>, p: Place, word: int, f: int)
    requires In(mem, p) && p in places
    ensures |Naming(Put(mem, p, word), places, f)| == |Naming(mem, places, f)| - One(Names(mem, p, f))
            + One(word != 0 && FrameOf(word) == f)
  {
    var r := Put(mem, p, word);
    var a, b := Naming(mem, places, f), Naming(r, places, f);
    assert forall q: Place | q != p :: Names(r, q, f) == Names(mem, q, f);
    assert a - {p} == b - {p};
    assert |a - {p}| == |a| - One(p in a) && |b - {p}| == |b| - One(p in b);
  }

  // ----- the invariant -----

  ghost predicate DirPlace(dirs: set<int>, p: Place) { p.frame in dirs && 0 <= p.slot < USER_ENTRIES }
  ghost predicate TablePlace(tables: set<int>, p: Place) { p.frame in tables && 0 <= p.slot < ENTRIES }

  ghost predicate DirsOk(mem: Memory, dirs: set<int>, tables: set<int>) {
    forall p: Place | DirPlace(dirs, p) ::
      Word(mem, p) == 0 || (Word(mem, p) > 0 && Present(Word(mem, p)) && FrameOf(Word(mem, p)) in tables)
  }

  ghost predicate TablesOk(mem: Memory, tables: set<int>, managed: set<int>) {
    forall p: Place | TablePlace(tables, p) ::
      Word(mem, p) == 0
      || (Word(mem, p) > 0 && Present(Word(mem, p)) && FrameOf(Word(mem, p)) in managed
          && FrameOf(Word(mem, p)) !in tables)
  }

  /** Every managed frame's count is the number of the entries naming it. */
  ghost predicate Counted(mem: Memory, refs: seq<int>, dirs: set<int>, tables: set<int>, managed: set<int>) {
    forall f | f in managed :: 0 <= f < |refs| && refs[f] == |Naming(mem, Places(dirs, tables), f)|
  }

  /** The free frames are managed ones with count 0, each listed once. */
  ghost predicate FreeOk(free: seq<int>, refs: seq<int>, managed: set<int>) {
    Distinct(free) && forall k | 0 <= k < |free| :: free[k] in managed && 0 <= free[k] < |refs| && refs[free[k]] == 0
  }

  /** Directories are boot frames outside the managed ones; a page table is a managed frame with one entry naming it. */
  ghost predicate Kinds(mem: Memory, refs: seq<int>, dirs: set<int>, tables: set<int>, managed: set<int>) {
    && |refs| == |mem| && (forall f | 0 <= f < |mem| :: |mem[f]| == ENTRIES)
    && (forall d | d in dirs :: 0 <= d < |mem| && d !in managed)
    && (forall f | f in managed :: 0 <= f < |mem|)
    && (forall t | t in tables :: t in managed && 0 <= t < |refs| && refs[t] == 1)
  }

  ghost predicate Consistent(mem: Memory, refs: seq<int>, free: seq<int>, dirs: set<int>, tables: set<int>,
      managed: set<int>) {
    && Kinds(mem, refs, dirs, tables, managed) && DirsOk(mem, dirs, tables) && TablesOk(mem, tables, managed)
    && Counted(mem, refs, dirs, tables, managed) && FreeOk(free, refs, managed)
  }

  // ----- the flat map -----

  predicate UserPage(page: int) { 0 <= page < USER_ENTRIES * ENTRIES }

  function DirOf(d: int, page: int): Place { Place(d, page / ENTRIES) }

  /** The word that maps a page in directory `d`; 0 if there is none. */
  function Look(mem: Memory, d: int, page: int): int {
    var w := Word(mem, DirOf(d, page));
    if w == 0 then 0 else Word(mem, Place(FrameOf(w), page % ENTRIES))
  }

  /** No two directory entries share a page table. */
  lemma OwnTable(mem: Memory, refs: seq<int>, dirs: set<int>, tables: set<int>, managed: set<int>, p: Place, q: Place)
    requires Kinds(mem, refs, dirs, tables, managed) && DirsOk(mem, dirs, tables)
             && Counted(mem, refs, dirs, tables, managed)
    requires DirPlace(dirs, p) && DirPlace(dirs, q)
    requires Word(mem, p) != 0 && Word(mem, q) != 0 && FrameOf(Word(mem, p)) == FrameOf(Word(mem, q))
    ensures p == q
  {
    var t := FrameOf(Word(mem, p));
    var naming := Naming(mem, Places(dirs, tables), t);
    assert t in tables && |naming| == 1;
    assert Place(p.frame, p.slot) in naming && Place(q.frame, q.slot) in naming;
    TwoIn(naming, p, q);
  }

  /** Nothing names a free frame. */
  lemma FreeUnnamed(mem: Memory, refs: seq<int>, free: seq<int>, dirs: set<int>, tables: set<int>, managed: set<int>,
      k: int, p: Place)
    requires Consistent(mem, refs, free, dirs, tables, managed) && 0 <= k < |free|
             && (DirPlace(dirs, p) || TablePlace(tables, p))
    ensures !Names(mem, p, free[k]) && free[k] !in tables
  {
    assert Place(p.frame, p.slot) in Places(dirs, tables);
    assert p in Naming(mem, Places(dirs, tables), free[k]) <==> Names(mem, p, free[k]);
    assert Naming(mem, Places(dirs, tables), free[k]) == {};
  }

  // ----- clearing and setting a table entry -----

  /** The free list after the last entry naming `f` went: `f` is its head. */
  function Returned(free: seq<int>, refs: seq<int>, f: int): seq<int>
    requires 0 <= f < |refs|
  {
    if refs[f] == 1 then [f] + free else free
  }

  lemma WriteCounted(mem: Memory, refs: seq<int>, r: seq<int>, dirs: set<int>, tables: set<int>, managed: set<int>,
      p: Place, word: int)
    requires Counted(mem, refs, dirs, tables, managed) && In(mem, p) && (DirPlace(dirs, p) || TablePlace(tables, p))
    requires |r| == |refs| && forall f | 0 <= f < |refs| ::
             r[f] == refs[f] - One(Names(mem, p, f)) + One(word != 0 && FrameOf(word) == f)
    ensures Counted(Put(mem, p, word), r, dirs, tables, managed)
  {
    assert Place(p.frame, p.slot) in Places(dirs, tables);
    forall f | f in managed ensures 0 <= f < |r| && r[f] == |Naming(Put(mem, p, word), Places(dirs, tables), f)| {
      PutNaming(mem, Places(dirs, tables), p, word, f);
    }
  }

  lemma ClearOk(mem: Memory, refs: seq<int>, free: seq<int>, dirs: set<int>, tables: set<int>, managed: set<int>,
      p: Place)
    requires Consistent(mem, refs, free, dirs, tables, managed) && TablePlace(tables, p) && Word(mem, p) != 0
    ensures var f := FrameOf(Word(mem, p));
            && f in managed && 0 <= f < |refs| && refs[f] > 0 && In(mem, p)
            && Consistent(Put(mem, p, 0), refs[f := refs[f] - 1], Returned(free, refs, f), dirs, tables, managed)
  {
    var f := FrameOf(Word(mem, p));
    assert In(mem, p) && f in managed && f !in tables;
    assert Place(p.frame, p.slot) in Naming(mem, Places(dirs, tables), f);
    var r := refs[f := refs[f] - 1];
    WriteCounted(mem, refs, r, dirs, tables, managed, p, 0);
    assert DirsOk(Put(mem, p, 0), dirs, tables);
    assert TablesOk(Put(mem, p, 0), tables, managed);
    assert FreeOk(Returned(free, refs, f), r, managed);
    hide Counted, DirsOk, TablesOk, FreeOk, Put;
  }

  lemma SetOk(mem: Memory, refs: seq<int>, free: seq<int>, dirs: set<int>, tables: set<int>, managed: set<int>,
      p: Place, f: int, word: int)
    requires Consistent(mem, refs, free, dirs, tables, managed) && TablePlace(tables, p) && Word(mem, p) == 0
    requires f in managed && f !in tables && f !in free && word > 0 && Present(word) && FrameOf(word) == f
    ensures 0 <= f < |refs| && In(mem, p)
            && Consistent(Put(mem, p, word), refs[f := refs[f] + 1], free, dirs, tables, managed)
  {
    var r := refs[f := refs[f] + 1];
    assert In(mem, p);
    WriteCounted(mem, refs, r, dirs, tables, managed, p, word);
    assert DirsOk(Put(mem, p, word), dirs, tables);
    assert TablesOk(Put(mem, p, word), tables, managed);
    assert FreeOk(free, r, managed);
    hide Counted, DirsOk, TablesOk, FreeOk, Put;
  }

  /** Writing the entry of one page changes what that page maps to and nothing else. */
  lemma LookPut(mem: Memory, refs: seq<int>, free: seq<int>, dirs: set<int>, tables: set<int>, managed: set<int>,
      d: int, page: int, word: int)
    requires Consistent(mem, refs, free, dirs, tables, managed)
    requires d in dirs && UserPage(page) && Word(mem, DirOf(d, page)) != 0
    ensures var p := Place(FrameOf(Word(mem, DirOf(d, page))), page % ENTRIES);
            In(mem, p) && TablePlace(tables, p) && forall e, q | e in dirs && UserPage(q) ::
              Look(Put(mem, p, word), e, q) == if e == d && q == page then word else Look(mem, e, q)
  {
    var t := FrameOf(Word(mem, DirOf(d, page)));
    var p := Place(t, page % ENTRIES);
    assert DirPlace(dirs, DirOf(d, page)) && t in tables;
    var r := Put(mem, p, word);
    forall e, q | e in dirs && UserPage(q)
      ensures Look(r, e, q) == if e == d && q == page then word else Look(mem, e, q)
    {
      assert DirPlace(dirs, DirOf(e, q)) && Word(r, DirOf(e, q)) == Word(mem, DirOf(e, q));
      if Word(mem, DirOf(e, q)) != 0 && FrameOf(Word(mem, DirOf(e, q))) == t {
        OwnTable(mem, refs, dirs, tables, managed, DirOf(d, page), DirOf(e, q));
      }
    }
  }

  // ----- adding a page table -----

  /** Memory after frame `t` has become the empty page table of the directory entry at `p`. */
  function AddTable(mem: Memory, p: Place, t: int, word: int): Memory
    requires 0 <= t < |mem| && p.frame != t && In(mem, p)
  {
    Put(mem[t := Zeros()], p, word)
  }

  lemma AddedWord(mem: Memory, p: Place, t: int, word: int, q: Place)
    requires 0 <= t < |mem| && p.frame != t && In(mem, p)
    ensures Word(AddTable(mem, p, t, word), q) == if q == p then word else if q.frame == t then 0 else Word(mem, q)
  {
  }

  lemma AddNaming(mem: Memory, dirs: set<int>, tables: set<int>, p: Place, t: int, word: int, f: int)
    requires 0 <= t < |mem| && In(mem, p) && DirPlace(dirs, p) && Word(mem, p) == 0 && t !in dirs && t !in tables
    ensures |Naming(AddTable(mem, p, t, word), Places(dirs, tables + {t}), f)|
         == |Naming(mem, Places(dirs, tables), f)| + One(word != 0 && FrameOf(word) == f)
  {
    var mem1 := mem[t := Zeros()];
    assert Naming(mem1, Places(dirs, tables + {t}), f) == Naming(mem, Places(dirs, tables), f) by {
      assert forall q: Place :: Word(mem1, q) == if q.frame == t then 0 else Word(mem, q);
    }
    assert Place(p.frame, p.slot) in Places(dirs, tables + {t});
    PutNaming(mem1, Places(dirs, tables + {t}), p, word, f);
  }

  /** The words after a page table was added, against those before. */
  ghost predicate Added(mem: Memory, r: Memory, p: Place, t: int, word: int) {
    forall q: Place :: Word(r, q) == if q == p then word else if q.frame == t then 0 else Word(mem, q)
  }

  lemma AddedEntries(mem: Memory, r: Memory, dirs: set<int>, tables: set<int>, managed: set<int>, p: Place, t: int,
      word: int)
    requires Added(mem, r, p, t, word) && DirsOk(mem, dirs, tables) && TablesOk(mem, tables, managed)
    requires DirPlace(dirs, p) && p.frame !in tables && p.frame != t && word > 0 && Present(word) && FrameOf(word) == t
    requires forall q: Place | TablePlace(tables, q) :: !Names(mem, q, t)
    ensures DirsOk(r, dirs, tables + {t}) && TablesOk(r, tables + {t}, managed)
  {
    hide Word, FrameOf;
    assert forall q: Place ::
        TablePlace(tables + {t}, q) <==> TablePlace(tables, q) || (q.frame == t && TablePlace({t}, q));
  }

  lemma AddedCounts(mem: Memory, refs: seq<int>, dirs: set<int>, tables: set<int>, managed: set<int>, p: Place, t: int,
      word: int)
    requires Counted(mem, refs, dirs, tables, managed) && 0 <= t < |mem| == |refs| && refs[t] == 0 && In(mem, p)
    requires DirPlace(dirs, p) && p.frame != t && Word(mem, p) == 0 && word > 0 && FrameOf(word) == t
    requires t !in dirs && t !in tables
    ensures Counted(AddTable(mem, p, t, word), refs[t := 1], dirs, tables + {t}, managed)
  {
    var r, refs' := AddTable(mem, p, t, word), refs[t := 1];
    hide AddTable, Naming, Places, FrameOf;
    forall f | f in managed ensures 0 <= f < |refs'| && refs'[f] == |Naming(r, Places(dirs, tables + {t}), f)| {
      AddNaming(mem, dirs, tables, p, t, word, f);
    }
  }

  lemma AddTableOk(mem: Memory, refs: seq<int>, free: seq<int>, dirs: set<int>, tables: set<int>, managed: set<int>,
      p: Place, word: int)
    requires Consistent(mem, refs, free, dirs, tables, managed) && DirPlace(dirs, p) && Word(mem, p) == 0
    requires free != [] && word > 0 && Present(word) && FrameOf(word) == free[0]
    ensures var t := free[0];
            && 0 <= t < |mem| == |refs| && p.frame != t && In(mem, p)
            && Consistent(AddTable(mem, p, t, word), refs[t := 1], free[1..], dirs, tables + {t}, managed)
            && (forall e, q | e in dirs && UserPage(q) :: Look(AddTable(mem, p, t, word), e, q) == Look(mem, e, q))
  {
    var t := free[0];
    FreeUnnamed(mem, refs, free, dirs, tables, managed, 0, p);
    var r, refs' := AddTable(mem, p, t, word), refs[t := 1];
    assert Kinds(r, refs', dirs, tables + {t}, managed) && FreeOk(free[1..], refs', managed);
    hide AddTable, FrameOf, Look, Naming, Places;
    assert Added(mem, r, p, t, word) by {
      forall q: Place { AddedWord(mem, p, t, word, q); }
    }
    forall q: Place | TablePlace(tables, q) ensures !Names(mem, q, t) {
      FreeUnnamed(mem, refs, free, dirs, tables, managed, 0, q);
    }
    hide Names, Word, DirsOk, TablesOk, Counted, FreeOk, Added;
    AddedEntries(mem, r, dirs, tables, managed, p, t, word);
    AddedCounts(mem, refs, dirs, tables, managed, p, t, word);
    AddedLook(mem, r, dirs, tables, p, t, word);
  }

  /** The new, empty page table maps nothing. */
  lemma AddedLook(mem: Memory, r: Memory, dirs: set<int>, tables: set<int>, p: Place, t: int, word: int)
    requires DirsOk(mem, dirs, tables) && t !in dirs && t !in tables && Word(mem, p) == 0 && FrameOf(word) == t
    requires Added(mem, r, p, t, word) && p.frame in dirs && forall d | d in dirs :: d !in tables
    ensures forall e, q | e in dirs && UserPage(q) :: Look(r, e, q) == Look(mem, e, q)
  {
    forall e, q | e in dirs && UserPage(q) ensures Look(r, e, q) == Look(mem, e, q) {
      assert DirPlace(dirs, DirOf(e, q));
      var w := Word(mem, DirOf(e, q));
      assert w != 0 ==> FrameOf(w) in tables;
    }
  }
}
