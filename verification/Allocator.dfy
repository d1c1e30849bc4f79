/** The dynamic allocator over raw memory: boundary tags and an intrusive list of free blocks. */
module Allocator {
  import opened Mmu
  import opened Memory
  import opened Blocks
  import opened HeapImage
  import opened CrackedHeap
  import opened TornHeap

  const MIN_BLOCK_SIZE: nat := 8    // DYN_ALLOC_MIN_BLOCK_SIZE

  /** A request rounded as alloc_block_FF does: even and at least 8. */
  function Rounded(size: nat): nat {
    if EvenUp(size) < MIN_BLOCK_SIZE then MIN_BLOCK_SIZE else EvenUp(size)
  }

  /** Pages obtained for the very first request: the block, its tags and the two sentinels. */
  function FirstPages(size: nat): nat {
    (Rounded(size) + 2 * META + PAGE_SIZE - 1) / PAGE_SIZE
  }

  lemma FirstPagesFit(size: nat)
    ensures FirstPages(size) > 0 && FirstPages(size) * PAGE_SIZE >= Rounded(size) + 2 * META
            && Rounded(size) >= MIN_BLOCK_SIZE
    ensures EvenUp(FirstPages(size) * PAGE_SIZE) == FirstPages(size) * PAGE_SIZE
  {
  }

  /** What the rounding computes, and that nothing else does. */
  lemma PieceIs(size: nat)
    ensures LeastPiece(size, Rounded(size) + META) && forall n | LeastPiece(size, n) :: n == Rounded(size) + META
    ensures Rounded(Rounded(size)) == Rounded(size)
    ensures size + 4112 <= WORD_LIMIT ==> Rounded(size) + 2 * META + PAGE_SIZE <= WORD_LIMIT
  {
  }

  /** The fewest pages that hold the piece and the two sentinels. */
  lemma FirstPagesLeast(size: nat, n: nat)
    requires LeastPiece(size, n)
    ensures n + 8 <= FirstPages(size) * 4096 < n + 8 + 4096
  {
    PieceIs(size);
  }

  /** A lost block, if there is one, and the listed ones. */
  lemma Joined(bs: seq<Block>, lost: nat, p: seq<Block>)
    requires lost <= |bs| && lost <= 1
    ensures (bs[..lost] + p)[lost..] == p && |bs[..lost] + p| >= lost && (lost == 1 ==> (bs[..lost] + p)[0] == bs[0])
  {
  }

  lemma StoredElse(m: seq<byte>, m': seq<byte>, a: nat, w: nat)
    requires Stored(m, m', a, w)
    ensures |m'| == |m| && forall i | 0 <= i < |m| && !(a <= i < a + 4) :: m'[i] == m[i]
  {
  }

  class Heap {
    const mem: array<byte>
    const start: nat                // daStart
    var brk: nat                    // the current break
    var initialized: bool
    var first: nat                  // freeBlocksList.lh_first
    var last: nat                   // freeBlocksList.lh_last
    var count: nat                  // freeBlocksList.size
    ghost var blocks: seq<Block>    // the layout that the tags in memory describe

    constructor (memory: array<byte>, daStart: nat)
      requires memory.Length < WORD_LIMIT && 0 < daStart <= memory.Length
      ensures mem == memory && start == daStart && brk == daStart && !initialized
    {
      mem, start, brk := memory, daStart, daStart;
      initialized, first, last, count := false, 0, 0, 0;
      blocks := [];
    }

    // ----- invariants -----

    /** The first and the last element of the list. */
    ghost predicate Ends(l: seq<nat>)
      reads `first, `last
    {
      first == (if l == [] then 0 else l[0]) && last == (if l == [] then 0 else l[|l| - 1])
    }

    /** The ends are right, or `last` of a one-element list was never set, as line 122 leaves it. */
    ghost predicate EndsReady(l: seq<nat>)
      reads `first, `last
    {
      Ends(l) || (|l| == 1 && first == l[0] && last == 0)
    }

    ghost predicate Heads(l: seq<nat>)
      reads `first, `last, `count
    {
      Ends(l) && count == |l|
    }

    /** The list holds the free blocks of `bs`, which lie from `lo` up to the break, and its size counts `lost` more. */
    ghost predicate HoldsReady(bs: seq<Block>, lo: nat, lost: nat)
      reads `brk, `first, `last, `count, mem
    {
      && brk <= mem.Length < WORD_LIMIT && Part(mem[..], bs, lo, brk)
      && EndsReady(FreeAddrs(bs)) && count == |FreeAddrs(bs)| + lost
    }

    ghost predicate Holds(bs: seq<Block>, lo: nat, lost: nat)
      reads `brk, `first, `last, `count, mem
    {
      HoldsReady(bs, lo, lost) && Ends(FreeAddrs(bs))
    }

    /** Memory carries the sentinels and the tags of `blocks`, which tile the space between them. */
    ghost predicate Shape()
      reads this, mem
    {
      && initialized && 0 < start && start + 8 <= brk <= mem.Length < WORD_LIMIT
      && Tiles(blocks, start + 8, brk) && NoAdjacentFree(blocks)
      && AllTagged(mem[..], blocks)
      && Load(mem[..], start) == 1 && Load(mem[..], brk - 4) == 1
    }

    /** The heap is well formed and the list holds exactly the free blocks, in address order. */
    ghost predicate Valid()
      reads this, mem
    {
      Shape() && Linked(mem[..], FreeAddrs(blocks)) && Heads(FreeAddrs(blocks))
    }

    /** What initialize_dynamic_allocator leaves behind: one free block, in the list, but not as its last. */
    ghost predicate Fresh()
      reads this, mem
    {
      && Shape() && |blocks| == 1 && blocks[0].free
      && Linked(mem[..], [blocks[0].va]) && first == blocks[0].va && last == 0 && count == 1
    }

    ghost predicate Ready()
      reads this, mem
    {
      Valid() || Fresh()
    }

    /** The first block has dropped out of the list although its tag still says free, and the size still counts it. */
    ghost predicate Cracked()
      reads this, mem
    {
      && initialized && 0 < start && blocks != []
      && Holds(blocks[1..], start + 8 + blocks[0].size, 1)
      && LostImage(mem[..], blocks[0], start + 8) && Load(mem[..], start) == 1
    }

    /** The blocks that allocation works on: all but a lost one. */
    ghost function Listed(): seq<Block>
      reads this, mem
    {
      if Cracked() then blocks[1..] else blocks
    }

    /** Where they begin. */
    ghost function ListedFrom(): nat
      reads this, mem
    {
      if Cracked() then start + 8 + blocks[0].size else start + 8
    }

    /** How many elements too many the size of the list counts. */
    ghost function Lost(): nat
      reads this, mem
    {
      if Cracked() then 1 else 0
    }

    /** No list of any kind matches memory and the list head of a cracked heap. */
    lemma LostBlock()
      requires Cracked()
      ensures forall l :: !(Linked(mem[..], l) && Heads(l))
      ensures !Valid() && !Fresh()
    {
      hide Load, Layout, Linked;
      assert blocks[0].va > 0;
      forall l | Heads(l) ensures !Linked(mem[..], l) {
        NoLonger(mem[..], FreeAddrs(blocks[1..]), l);
      }
    }

    method Write(a: nat, w: nat)
      requires a + 4 <= mem.Length && w < WORD_LIMIT
      modifies mem
      ensures Stored(old(mem[..]), mem[..], a, w)
    {
      ghost var m := mem[..];
      var s := Bytes(w);
      mem[a], mem[a + 1], mem[a + 2], mem[a + 3] := s[0], s[1], s[2], s[3];
      ghost var m' := mem[..];
      assert m'[a..a + 4] == s;
      LoadBytes(m', a, w);
      forall b: nat | b + 4 <= |m| && (b + 4 <= a || a + 4 <= b) ensures Load(m', b) == Load(m, b) {
        LoadSame(m, m', b);
      }
    }

    /** LIST_REMOVE: unlinks element `k`; the head fields follow if they were those of the list. */
    method ListRemove(x: nat, ghost l: seq<nat>, ghost k: nat)
      requires mem.Length < WORD_LIMIT
      requires Linked(mem[..], l) && k < |l| && l[k] == x && count > 0
      modifies mem, `first, `last, `count
      ensures Linked(mem[..], Removed(l, k)) && count == old(count) - 1
      ensures first == if k == 0 then NextOf(l, 0) else old(first)
      ensures last == if k + 1 == |l| then PrevOf(l, k) else old(last)
      ensures old(EndsReady(l)) ==> Ends(Removed(l, k))
      ensures OnlyLinks(old(mem[..]), mem[..], l)
    {
      hide Load, Bytes, LinkAt, Linked, Removed, OnlyLinks;
      ghost var m := mem[..];
      LinkWords(m, l, k);
      LinkedApart(m, l);
      RemoveRoom(l, k, |m|);
      hide Apart, OnlyWords, Stored;
      var n := Load(mem[..], x);
      var p := Load(mem[..], x + 4);
      if n != 0 {
        Write(n + 4, p);
      } else {
        last := p;
      }
      ghost var m1 := mem[..];
      if p != 0 {
        Write(p, n);
      } else {
        first := n;
      }
      ghost var m2 := mem[..];
      Write(x, 0);
      ghost var m3 := mem[..];
      Write(x + 4, 0);
      count := count - 1;
      RemoveStored(m, m1, m2, m3, mem[..], l, k);
    }

    /** LIST_INSERT_AFTER: links `x` in behind element `k - 1`. */
    method ListInsertAfter(at: nat, x: nat, ghost l: seq<nat>, ghost k: nat)
      requires mem.Length < WORD_LIMIT
      requires Linked(mem[..], l) && EndsReady(l) && 0 < k <= |l| && l[k - 1] == at
      requires Apart(Inserted(l, k, x), mem.Length)
      modifies mem, `first, `last, `count
      ensures Linked(mem[..], Inserted(l, k, x)) && Ends(Inserted(l, k, x)) && count == old(count) + 1
      ensures OnlyLinks(old(mem[..]), mem[..], Inserted(l, k, x))
    {
      hide Load, Bytes, LinkAt, Linked;
      ghost var m := mem[..];
      LinkWords(m, l, k - 1);
      InsertRoom(l, k, x, |m|);
      hide Apart;
      var n := Load(mem[..], at);
      Write(x, n);
      if n != 0 {
        Write(n + 4, x);
      }
      Write(at, x);
      Write(x + 4, at);
      if n == 0 {
        last := x;
      }
      count := count + 1;
      InsertLinked(m, mem[..], l, k, x);
    }

    /** LIST_INSERT_BEFORE: links `x` in before element `k`. */
    method ListInsertBefore(at: nat, x: nat, ghost l: seq<nat>, ghost k: nat)
      requires mem.Length < WORD_LIMIT
      requires Linked(mem[..], l) && Ends(l) && k < |l| && l[k] == at
      requires Apart(Inserted(l, k, x), mem.Length)
      modifies mem, `first, `count
      ensures Linked(mem[..], Inserted(l, k, x)) && Ends(Inserted(l, k, x)) && count == old(count) + 1
      ensures OnlyLinks(old(mem[..]), mem[..], Inserted(l, k, x))
    {
      hide Load, Bytes, LinkAt, Linked;
      ghost var m := mem[..];
      LinkWords(m, l, k);
      InsertRoom(l, k, x, |m|);
      hide Apart, OnlyWords, Stored, OnlyLinks, Inserted;
      var p := Load(mem[..], at + 4);
      Write(x + 4, p);
      ghost var m1 := mem[..];
      Write(x, at);
      ghost var m2 := mem[..];
      if p != 0 {
        Write(p, x);
      }
      ghost var m3 := mem[..];
      Write(at + 4, x);
      InsertBeforeLinked(m, m1, m2, m3, mem[..], l, k, x);
      if p == 0 {
        first := x;
      }
      count := count + 1;
    }

    /** LIST_INSERT_HEAD; it consults only `first`, and `last` stays as it was unless the list was empty. */
    method ListInsertHead(x: nat, ghost l: seq<nat>)
      requires mem.Length < WORD_LIMIT
      requires Linked(mem[..], l) && Apart(Inserted(l, 0, x), mem.Length) && first == if l == [] then 0 else l[0]
      modifies mem, `first, `last, `count
      ensures Linked(mem[..], Inserted(l, 0, x)) && count == old(count) + 1
      ensures first == x && last == if l == [] then x else old(last)
      ensures old(Ends(l)) ==> Ends(Inserted(l, 0, x))
      ensures OnlyLinks(old(mem[..]), mem[..], Inserted(l, 0, x))
    {
      hide Load, Bytes;
      ghost var m := mem[..];
      InsertRoom(l, 0, x, |m|);
      hide Apart;
      Write(x, first);
      if first != 0 {
        Write(first + 4, x);
      } else {
        last := x;
      }
      first := x;
      Write(x + 4, 0);
      count := count + 1;
      InsertLinked(m, mem[..], l, 0, x);
    }

    /** LIST_INSERT_TAIL; it consults only `last`, so a NULL `last` makes `x` the whole list. */
    method ListInsertTail(x: nat, ghost l: seq<nat>)
      requires mem.Length < WORD_LIMIT
      requires Linked(mem[..], l) && Apart(Inserted(l, |l|, x), mem.Length)
      requires last == (if l == [] then 0 else l[|l| - 1]) && (l != [] ==> first == l[0])
      modifies mem, `first, `last, `count
      ensures Linked(mem[..], Inserted(l, |l|, x)) && Ends(Inserted(l, |l|, x)) && count == old(count) + 1
      ensures OnlyLinks(old(mem[..]), mem[..], Inserted(l, |l|, x))
    {
      hide Load, Bytes;
      ghost var m := mem[..];
      InsertRoom(l, |l|, x, |m|);
      hide Apart;
      Write(x + 4, last);
      if last != 0 {
        Write(last, x);
      } else {
        first := x;
      }
      last := x;
      Write(x, 0);
      count := count + 1;
      InsertLinked(m, mem[..], l, |l|, x);
    }

    // ----- blocks -----

    /** set_block_data: writes the header and the footer. */
    method SetBlockData(va: nat, totalSize: nat, isAllocated: bool)
      requires 4 <= va && 8 <= totalSize && va + totalSize - 4 <= mem.Length < WORD_LIMIT
      modifies mem
      ensures Load(mem[..], va - 4) == Load(mem[..], va + totalSize - 8)
              == totalSize + if isAllocated && totalSize % 2 == 0 then 1 else 0
      ensures MIN_TOTAL <= totalSize && totalSize % 2 == 0 ==> Tagged(mem[..], Block(va, totalSize, !isAllocated))
      ensures OnlyTags(old(mem[..]), mem[..], Block(va, totalSize, !isAllocated))
    {
      hide Load, Bytes;
      var data := if isAllocated then totalSize + 1 - totalSize % 2 else totalSize;
      Write(va - 4, data);
      Write(va + totalSize - 8, data);
    }

    lemma ReadyHolds()
      requires Ready()
      ensures initialized && 0 < start && start + 8 <= brk <= mem.Length < WORD_LIMIT && Load(mem[..], start) == 1
      ensures HoldsReady(blocks, start + 8, 0) && (Valid() ==> Holds(blocks, start + 8, 0))
    {
      if Fresh() {
        assert blocks == [blocks[0]];
        FreeAddrsPair(blocks[0], blocks[0]);
      }
    }

    /** What allocation finds, on a cracked heap too. */
    lemma ListedHolds()
      requires Ready() || Cracked()
      ensures initialized && 0 < start && start + 8 <= brk <= mem.Length < WORD_LIMIT && Load(mem[..], start) == 1
      ensures HoldsReady(Listed(), ListedFrom(), Lost()) && (!Fresh() ==> Holds(Listed(), ListedFrom(), Lost()))
      ensures Cracked() ==> blocks != [] && LostImage(mem[..], blocks[0], start + 8)
    {
      hide Load, Layout, LostImage, Linked, FreeAddrs;
      if Cracked() {
        LostBlock();
        PartTiles(mem[..], blocks[1..], start + 8 + blocks[0].size, brk);
      } else {
        ReadyHolds();
      }
    }

    lemma PartHolds(bs: seq<Block>, lo: nat, lost: nat)
      requires HoldsReady(bs, lo, lost)
      ensures brk <= mem.Length < WORD_LIMIT && Part(mem[..], bs, lo, brk) && Tiles(bs, lo, brk)
      ensures NoAdjacentFree(bs) && 8 < lo <= brk
      ensures Linked(mem[..], FreeAddrs(bs)) && EndsReady(FreeAddrs(bs)) && count == |FreeAddrs(bs)| + lost
    {
    }

    lemma HoldsAreReady(bs: seq<Block>, lo: nat, lost: nat)
      requires Holds(bs, lo, lost)
      ensures HoldsReady(bs, lo, lost)
    {
    }

    /** Free block `k` as first fit finds it: its place in the list, and its size in the header. */
    lemma FreeBlockAt(bs: seq<Block>, lo: nat, lost: nat, k: nat)
      requires HoldsReady(bs, lo, lost) && k < |bs| && bs[k].free
      ensures var l, at := FreeAddrs(bs), |FreeAddrs(bs[..k])|;
              Linked(mem[..], l) && EndsReady(l) && at < |l| && l[at] == bs[k].va && count == |l| + lost
      ensures var b := bs[k];
              && 4 <= b.va && MIN_TOTAL <= b.size && b.size % 2 == 0 && b.va + b.size <= brk
              && SizeAt(mem[..], b.va) == b.size
    {
      PlaceWholeList(bs, k);
      BlockInside(bs, k, lo, brk);
      TaggedWord(mem[..], bs[k]);
    }

    lemma FirstFree(bs: seq<Block>, lo: nat, lost: nat)
      requires HoldsReady(bs, lo, lost)
      ensures var j := NextFree(bs, 0); first == if j < |bs| then bs[j].va else 0
      ensures forall j | 0 <= j < |bs| :: bs[j].va > 0
    {
      FreeAddrsNext(bs, 0);
      assert bs[0..] == bs;
      TilesBounds(bs, lo, brk);
    }

    /** What the scans read from free block `j`. */
    lemma ScanStep(bs: seq<Block>, lo: nat, lost: nat, j: nat)
      requires HoldsReady(bs, lo, lost) && j < |bs| && bs[j].free
      ensures 4 <= bs[j].va && bs[j].va + 4 <= mem.Length
      ensures var n := NextFree(bs, j + 1);
              Load(mem[..], bs[j].va) == if n < |bs| then bs[n].va else 0
      ensures SizeAt(mem[..], bs[j].va) == bs[j].size
      ensures bs[j].size % 2 == 0
    {
      BlockInside(bs, j, lo, brk);
      ScanNext(mem[..], bs, j);
      TaggedWord(mem[..], bs[j]);
    }

    /** Tags element `at` of the list as allocated and takes it off. */
    method Unlist(blk: nat, size: nat, ghost l: seq<nat>, ghost at: nat) returns (ghost m1: seq<byte>)
      requires 4 <= blk && MIN_TOTAL <= size && size % 2 == 0 && blk + size - 4 <= mem.Length < WORD_LIMIT
      requires Linked(mem[..], l) && EndsReady(l) && at < |l| && l[at] == blk && count > 0
      requires Clear(l, Block(blk, size, false))
      modifies mem, `first, `last, `count
      ensures Tagged(m1, Block(blk, size, false)) && OnlyTags(old(mem[..]), m1, Block(blk, size, false))
      ensures OnlyLinks(m1, mem[..], l) && Linked(mem[..], Removed(l, at)) && Ends(Removed(l, at))
              && count == old(count) - 1
    {
      hide Load, Linked, Tagged, OnlyTags, OnlyLinks, Removed, Clear;
      ghost var m := mem[..];
      SetBlockData(blk, size, true);
      m1 := mem[..];
      TagsMissLinks(m, m1, l, Block(blk, size, false));
      ListRemove(blk, l, at);
    }

    /** Tags the two parts of element `at`, links the rest in behind it and takes the element off the list. */
    method Exchange(blk: nat, need: nat, remaining: nat, ghost l: seq<nat>, ghost at: nat)
      returns (ghost m1: seq<byte>, ghost m2: seq<byte>, ghost m3: seq<byte>)
      requires 4 <= blk && MIN_TOTAL <= need && MIN_TOTAL <= remaining
      requires blk + need + remaining - 4 <= mem.Length < WORD_LIMIT
      requires Linked(mem[..], l) && EndsReady(l) && at < |l| && l[at] == blk
      requires Clear(l, Block(blk, need, false)) && Clear(l, Block(blk + need, remaining, true))
      requires var r := Inserted(l, at + 1, blk + need); Apart(r, mem.Length) && r[at] == blk
      modifies mem, `first, `last, `count
      ensures OnlyTags(old(mem[..]), m1, Block(blk, need, false))
      ensures OnlyTags(m1, m2, Block(blk + need, remaining, true)) && |m2| == mem.Length
      ensures need % 2 == 0 ==> Tagged(m1, Block(blk, need, false))
      ensures remaining % 2 == 0 ==> Tagged(m2, Block(blk + need, remaining, true))
      ensures Load(m2, blk + need - 4) == remaining
      ensures var r := Inserted(l, at + 1, blk + need);
              && OnlyLinks(m2, m3, r) && OnlyLinks(m3, mem[..], r)
              && Linked(mem[..], Removed(r, at)) && Ends(Removed(r, at)) && count == old(count)
    {
      hide Load, Linked, Tagged, OnlyTags, OnlyLinks, Removed, Inserted, Apart, Clear;
      ghost var m := mem[..];
      SetBlockData(blk, need, true);
      m1 := mem[..];
      TagsMissLinks(m, m1, l, Block(blk, need, false));
      SetBlockData(blk + need, remaining, false);
      m2 := mem[..];
      TagsMissLinks(m1, m2, l, Block(blk + need, remaining, true));
      ListInsertAfter(blk, blk + need, l, at + 1);
      m3 := mem[..];
      ListRemove(blk, Inserted(l, at + 1, blk + need), at);
    }

    /** No split: the whole of free block `k` is allocated. */
    method TakeWhole(blk: nat, ghost bs: seq<Block>, ghost lo: nat, ghost lost: nat, ghost k: nat)
      requires HoldsReady(bs, lo, lost) && k < |bs| && bs[k].free && bs[k].va == blk
      modifies mem, `first, `last, `count
      ensures Holds(Place(bs, k, bs[k].size), lo, lost) && Confined(old(mem[..]), mem[..], bs, 0)
    {
      hide Load, Bytes, Tagged, Linked, OnlyTags, OnlyLinks, Clear, Tiles, NoAdjacentFree;
      hide SizeAt, Place, FreeAddrs, Removed, Part, Confined;
      ghost var m, l, at := mem[..], FreeAddrs(bs), |FreeAddrs(bs[..k])|;
      PartHolds(bs, lo, lost);
      FreeBlockAt(bs, lo, lost, k);
      FreeListClear(bs, k, bs[k].(free := false), lo, brk);
      var size := SizeAt(mem[..], blk);
      ghost var m1 := Unlist(blk, size, l, at);
      WholeDone(m, m1, mem[..], bs, k, lo, brk);
    }

    lemma BecomesCracked(m: seq<byte>, b: Block)
      requires initialized && 0 < start && blocks != [] && blocks[0] == b
      requires Holds(blocks[1..], start + 8 + b.size, 1) && LostImage(m, b, start + 8) && Load(m, start) == 1
      requires SameOn(m, mem[..], 0, b.va + b.size - 4)
      ensures Cracked()
    {
      LostKept(m, mem[..], b, start + 8);
    }

    lemma BecomesValid(m: seq<byte>)
      requires initialized && 0 < start && start + 4 <= |m| && Holds(blocks, start + 8, 0)
      requires SameOn(m, mem[..], 0, start + 4) && Load(m, start) == 1
      ensures Valid()
    {
      LoadSame(m, mem[..], start);
    }

    /** The list holds a block whose header has lost its flag: the sizes of a block and its rest were odd. */
    ghost predicate Torn(lost: nat)
      reads `first, `last, `count, mem
    {
      exists l, x :: TornImage(mem[..], l, x) && Ends(l) && count == |l| + lost
    }

    /** No blocks of any kind match memory and the list head of such a heap. */
    lemma TornFits(bs: seq<Block>, lo: nat, lost: nat)
      requires Torn(lost)
      ensures !Holds(bs, lo, lost)
    {
      hide Part, TornImage, FreeAddrs;
      var l, x :| TornImage(mem[..], l, x) && Ends(l) && count == |l| + lost;
      TornSome(mem[..], l, x);
      if Holds(bs, lo, lost) {
        NoLayout(mem[..], l, x, bs, lo, brk);
      }
    }

    /** So it is no well-formed heap, nor one that lost its first block. */
    lemma TornIsNeither(lost: nat)
      requires Torn(lost) && lost <= 1
      ensures lost == 0 ==> !Valid()
      ensures lost == 1 ==> !Cracked()
    {
      hide Load, Part, FreeAddrs, LostImage;
      TornFits(blocks, start + 8, 0 + lost);
      if blocks != [] {
        TornFits(blocks[1..], start + 8 + blocks[0].size, 0 + lost);
      }
      if Valid() {
        ReadyHolds();
      }
    }

    /**
     * Split: `need` bytes of free block `k` are allocated and the rest stays free. Cut at an odd size the rest is
     * linked in all the same, but it reads as allocated.
     */
    method SplitBlock(blk: nat, need: nat, ghost bs: seq<Block>, ghost lo: nat, ghost lost: nat, ghost k: nat)
      requires HoldsReady(bs, lo, lost) && k < |bs| && bs[k].free && bs[k].va == blk
      requires MIN_TOTAL <= need && need + 2 * 8 <= bs[k].size
      modifies mem, `first, `last, `count
      ensures if need % 2 == 0 then Holds(Place(bs, k, need), lo, lost) else Torn(lost)
      ensures Confined(old(mem[..]), mem[..], bs, 0)
    {
      hide Load, Bytes, Tagged, Linked, OnlyTags, OnlyLinks, Clear, Tiles, NoAdjacentFree, Apart;
      hide SizeAt, Place, FreeAddrs, Removed, Inserted, Part, InsideFree, TornImage, Torn, Confined;
      ghost var m, l, at := mem[..], FreeAddrs(bs), |FreeAddrs(bs[..k])|;
      PartHolds(bs, lo, lost);
      FreeBlockAt(bs, lo, lost, k);
      OddPlan(bs, k, need, lo, brk, |m|);
      FreeListClear(bs, k, Block(blk, need, false), lo, brk);
      var remaining := SizeAt(mem[..], blk) - need;
      ghost var m1, m2, m3 := Exchange(blk, need, remaining, l, at);
      if need % 2 == 0 {
        SplitPlan(bs, k, need, lo, brk, |m|);
        SplitTagged(m, m1, m2, bs, k, need, lo, brk);
        SplitDone(m, m2, m3, mem[..], bs, k, need, lo, brk);
      } else {
        OddDone(m, m1, m2, m3, mem[..], bs, k, need, Inserted(l, at + 1, blk + need));
        BecomesTorn(Removed(Inserted(l, at + 1, blk + need), at), blk + need, lost);
      }
    }

    lemma BecomesTorn(l: seq<nat>, x: nat, lost: nat)
      requires Linked(mem[..], l) && Ends(l) && count == |l| + lost
      requires x in l && 4 <= x <= mem.Length && Load(mem[..], x - 4) % 2 == 1
      ensures Torn(lost)
    {
      assert TornImage(mem[..], l, x) && Ends(l) && count == |l| + lost;
    }

    // ----- the break -----

    /** sbrk: moves the break up by whole pages and writes the END word there, or fails with -1. */
    method Sbrk(pages: nat) returns (r: int)
      requires brk <= mem.Length < WORD_LIMIT
      modifies `brk, mem
      ensures brk == old(brk) + (if r == -1 then 0 else pages * PAGE_SIZE)
      ensures r == -1 <==> old(brk) + pages * PAGE_SIZE > mem.Length
      ensures r != -1 ==> r == old(brk)
      ensures r == -1 ==> unchanged(this) && unchanged(mem)
      ensures if r != -1 && pages > 0 then Stored(old(mem[..]), mem[..], brk - 4, 1) else mem[..] == old(mem[..])
    {
      if brk + pages * PAGE_SIZE > mem.Length {
        return -1;
      }
      r := brk;
      brk := brk + pages * PAGE_SIZE;
      if pages > 0 {
        Write(brk - 4, 1);
      }
    }

    /** A heap is in at most one of these states. */
    lemma Modes()
      ensures Valid() ==> !Fresh() && !Cracked() && Tiles(blocks, start + 8, brk) && NoAdjacentFree(blocks)
      ensures Fresh() ==> !Cracked() && |blocks| == 1
      ensures Ready() || Cracked() ==> initialized && start + 8 <= brk <= mem.Length < WORD_LIMIT
    {
      if Cracked() {
        LostBlock();
        ListedHolds();
      } else if Fresh() {
        FreeAddrsPair(blocks[0], blocks[0]);
        assert blocks == [blocks[0]];
        assert !Valid();
      }
    }

    /** What growth reads before it changes anything: `last` is the end of the list, or NULL if that is not known. */
    ghost predicate Growable(bs: seq<Block>, lo: nat, lost: nat)
      reads `brk, `first, `last, `count, mem
    {
      var l := FreeAddrs(bs);
      && brk <= mem.Length < WORD_LIMIT && Part(mem[..], bs, lo, brk) && count == |l| + lost
      && last == (if l == [] then 0 else l[|l| - 1]) && (l != [] ==> first == l[0])
    }

    lemma GrowthStart(bs: seq<Block>, lo: nat, lost: nat)
      requires Growable(bs, lo, lost)
      ensures 8 < lo <= brk <= mem.Length < WORD_LIMIT && Part(mem[..], bs, lo, brk) && count == |FreeAddrs(bs)| + lost
      ensures var l := FreeAddrs(bs);
              && Linked(mem[..], l) && Apart(l, brk) && (forall y | y in l :: y + MIN_TOTAL <= brk)
              && last == (if l == [] then 0 else l[|l| - 1]) && (l != [] ==> first == l[0])
      ensures last != 0 ==>
                && 4 <= last <= mem.Length && MIN_TOTAL <= SizeAt(mem[..], last)
                && SizeAt(mem[..], last) % 2 == 0 && last + SizeAt(mem[..], last) <= brk
                && bs != [] && (last + SizeAt(mem[..], last) == brk <==> bs[|bs| - 1].free)
                && (bs[|bs| - 1].free ==> bs[|bs| - 1] == Block(last, SizeAt(mem[..], last), true))
      ensures last == 0 ==> bs == [] || !bs[|bs| - 1].free
    {
      PartTiles(mem[..], bs, lo, brk);
      LastInList(mem[..], bs, lo, brk);
      hide Load, Tagged, Tiles, AllTagged, NoAdjacentFree, FreeAddrs, SizeAt;
      LinkedApart(mem[..], FreeAddrs(bs));
      if FreeAddrs(bs) != [] { ApartPositive(FreeAddrs(bs), mem.Length); }
    }

    /** A free block of one page at the old break, linked in as the last. */
    method AppendPage(x: nat, ghost l: seq<nat>) returns (ghost m2: seq<byte>)
      requires 4 <= x && x + PAGE_SIZE <= mem.Length < WORD_LIMIT
      requires Linked(mem[..], l) && Apart(l, x) && forall y | y in l :: y + MIN_TOTAL <= x
      requires last == (if l == [] then 0 else l[|l| - 1]) && (l != [] ==> first == l[0])
      modifies mem, `first, `last, `count
      ensures Tagged(m2, Block(x, PAGE_SIZE, true)) && OnlyTags(old(mem[..]), m2, Block(x, PAGE_SIZE, true))
      ensures var r := Inserted(l, |l|, x); Linked(mem[..], r) && OnlyLinks(m2, mem[..], r) && Ends(r)
      ensures Inserted(l, |l|, x) == l + [x] && count == old(count) + 1
    {
      hide Load, Linked, Tagged, OnlyTags, OnlyLinks, Inserted;
      ghost var m1 := mem[..];
      SetBlockData(x, PAGE_SIZE, false);
      m2 := mem[..];
      TagsMissLinks(m1, m2, l, Block(x, PAGE_SIZE, true));
      LinkedApart(m2, l);
      TailApart(l, x, mem.Length);
      ListInsertTail(x, l);
    }

    /** The part of alloc_block_FF that runs when no free block fits: one page more, merged into a free tail. */
    method GrowHeap(ghost bs: seq<Block>, ghost lo: nat, ghost lost: nat) returns (ok: bool)
      requires Growable(bs, lo, lost)
      modifies `brk, mem, `first, `last, `count
      ensures ok <==> old(brk) + PAGE_SIZE <= mem.Length
      ensures brk == old(brk) + if ok then PAGE_SIZE else 0
      ensures !ok ==> unchanged(this) && unchanged(mem)
      ensures ok ==> Holds(Grow(bs, old(brk)), lo, lost) && SameOn(old(mem[..]), mem[..], 0, lo - 4)
      ensures ok ==> Confined(old(mem[..]), mem[..], Grow(bs, old(brk)), brk)
    {
      hide Load, Bytes, Tagged, Linked, OnlyTags, OnlyLinks, Apart, Confined, Stored, Tiles, NoAdjacentFree;
      hide FreeAddrs, Inserted, Grow, Part, SizeAt, SameOn;
      ghost var m, b0, l := mem[..], brk, FreeAddrs(bs);
      GrowthStart(bs, lo, lost);
      var oldEndBlock := Sbrk(1);
      if oldEndBlock == -1 {
        return false;
      }
      ok := true;
      ghost var m1 := mem[..];
      WordMissesLinks(m, m1, l, b0 + PAGE_SIZE - 4);
      WordKeepsTag(m, m1, last, b0);
      if last != 0 && oldEndBlock == last + SizeAt(mem[..], last) {
        SetBlockData(last, SizeAt(mem[..], last) + PAGE_SIZE, false);
        GrowMerged(m, m1, mem[..], bs, lo, b0);
      } else {
        ghost var m2 := AppendPage(oldEndBlock, l);
        GrowAppended(m, m1, m2, mem[..], bs, lo, b0);
      }
    }

    // ----- initialisation and first fit -----

    /** No page obtained yet; pages that sbrk hands out later are zero-filled. */
    ghost predicate Untouched()
      reads this, mem
    {
      && !initialized && 0 < start && brk == start <= mem.Length < WORD_LIMIT
      && first == last == count == 0 && blocks == []
      && forall i | start <= i < mem.Length :: mem[i] == 0
    }

    /** The four words of initialize_dynamic_allocator. */
    method WriteFirstTags(daStart: nat, size: nat)
      requires 0 < daStart && 24 <= size && size % 2 == 0 && daStart + size <= mem.Length < WORD_LIMIT
      modifies mem
      ensures var b := Block(daStart + 8, size - 8, true);
              AllTagged(mem[..], [b]) && Tiles([b], daStart + 8, daStart + size) && NoAdjacentFree([b])
      ensures Linked(mem[..], [daStart + 8])
              <==> old(Load(mem[..], daStart + 8)) == 0 && old(Load(mem[..], daStart + 12)) == 0
      ensures Load(mem[..], daStart) == 1 && Load(mem[..], daStart + size - 4) == 1
      ensures SameOn(old(mem[..]), mem[..], 0, daStart)
      ensures SameOn(old(mem[..]), mem[..], daStart + size, mem.Length)
    {
      hide Load, Linked, Tagged, Tiles, Stored, Bytes, SameOn, AllTagged, NoAdjacentFree;
      ghost var m := mem[..];
      Write(daStart + 4, size - 8);
      ghost var m1 := mem[..];
      Write(daStart + size - 8, size - 8);
      ghost var m2 := mem[..];
      Write(daStart, 1);
      ghost var m3 := mem[..];
      Write(daStart + size - 4, 1);
      InitImage(m, m1, m2, m3, mem[..], daStart, size);
    }

    /**
     * initialize_dynamic_allocator: one free block between the BEG and END words. It never writes the links of that
     * block, so the heap is as intended exactly if memory held 0 there.
     */
    method InitializeDynamicAllocator(daStart: nat, initSizeOfAllocatedSpace: nat)
      requires daStart == start && 0 < start && brk <= mem.Length < WORD_LIMIT
      requires initSizeOfAllocatedSpace > 0 ==> brk == start + EvenUp(initSizeOfAllocatedSpace) && start + 24 <= brk
      modifies this, mem
      ensures brk == old(brk)
      ensures initSizeOfAllocatedSpace == 0 ==> initialized == old(initialized) && mem[..] == old(mem[..])
      ensures initSizeOfAllocatedSpace > 0 ==>
                && Shape() && blocks == [Block(start + 8, brk - start - 8, true)]
                && first == start + 8 && last == 0 && count == 1
                && (Fresh() <==> old(Load(mem[..], start + 8)) == 0 && old(Load(mem[..], start + 12)) == 0)
      ensures SameOn(old(mem[..]), mem[..], 0, start) && SameOn(old(mem[..]), mem[..], brk, mem.Length)
    {
      hide Load, Linked, Tiles, AllTagged, NoAdjacentFree;
      var size := EvenUp(initSizeOfAllocatedSpace);
      if size == 0 {
        return;
      }
      initialized := true;
      first, last, count := 0, 0, 0;
      WriteFirstTags(daStart, size);
      first, count := daStart + 8, 1;
      blocks := [Block(start + 8, size - 8, true)];
    }

    /**
     * The first request obtains enough pages for itself and initialises the heap over them. It does not look at what
     * sbrk answers: if that is -1 it goes wild and is about to store its first header at address 3, four bytes behind
     * 2^32 - 1, and that is where the model stops.
     */
    method ObtainFirstPages(size: nat) returns (wild: bool, header: nat)
      requires Untouched()
      modifies this, mem
      ensures wild <==> start + FirstPages(size) * PAGE_SIZE > mem.Length
      ensures header == if wild then 3 else start + 4
      ensures wild ==> unchanged(this) && unchanged(mem)
      ensures !wild ==>
                brk == start + FirstPages(size) * PAGE_SIZE && blocks == [Block(start + 8, brk - start - 8, true)]
      ensures !wild ==> Fresh() && Fits(blocks[0], Rounded(size) + META)
    {
      FirstPagesFit(size);
      hide Load, Bytes, Linked, Tiles, AllTagged, FirstPages, Rounded, Stored;
      ghost var m := mem[..];
      var daStart := Sbrk(FirstPages(size));
      header := (daStart + 4) % WORD_LIMIT;
      wild := daStart == -1;
      if wild {
        return;
      }
      StoredElse(m, mem[..], brk - 4, 1);
      var daBreak := Sbrk(0);
      ZeroWord(mem[..], start + 8);
      ZeroWord(mem[..], start + 12);
      InitializeDynamicAllocator(daStart, daBreak - daStart);
    }

    /** The scan of alloc_block_FF: allocates at the first free block that fits, if there is one. */
    method ScanFirstFit(need: nat, ghost bs: seq<Block>, ghost lo: nat, ghost lost: nat) returns (va: nat, ghost k: nat)
      requires HoldsReady(bs, lo, lost) && MIN_TOTAL <= need && need % 2 == 0
      modifies mem, `first, `last, `count
      ensures va == 0 ==> unchanged(this) && unchanged(mem) && NoFit(bs, need)
      ensures va != 0 ==> FirstFit(bs, k, need) && va == bs[k].va && Holds(Place(bs, k, need), lo, lost)
      ensures va != 0 ==> Confined(old(mem[..]), mem[..], bs, 0)
    {
      hide Load, Bytes, Linked, Tiles, Apart, Confined, InsideFree, Within, Stored, AllTagged, NoAdjacentFree, Place;
      hide FreeAddrs, SizeAt, Holds, HoldsReady;
      k := 0;
      var blk := first;
      ghost var j := NextFree(bs, 0);
      FirstFree(bs, lo, lost);
      while blk != 0
        invariant unchanged(this) && unchanged(mem)
        invariant j <= |bs| && (j < |bs| ==> bs[j].free) && blk == (if j < |bs| then bs[j].va else 0)
        invariant forall i | 0 <= i < j :: !Fits(bs[i], need)
        decreases |bs| - j
      {
        ScanStep(bs, lo, lost, j);
        var next := Load(mem[..], blk);
        var current := SizeAt(mem[..], blk);
        if need <= current {
          assert mem[..] == old(mem[..]);
          if current - need < 2 * MIN_BLOCK_SIZE {
            TakeWhole(blk, bs, lo, lost, j);
            PlaceWhole(bs, j, need);
          } else {
            SplitBlock(blk, need, bs, lo, lost, j);
          }
          va, k := blk, j;
          return;
        }
        j := NextFree(bs, j + 1);
        blk := next;
      }
      va := 0;
    }

    /** A request that the one block of a heap just initialised cannot serve, while the heap can grow. */
    ghost predicate Cracks(requested: nat)
      reads this, mem
    {
      Fresh() && blocks[0].size < requested + 8 && brk + PAGE_SIZE <= mem.Length
    }

    /** The listed blocks were replaced, and memory below them is as in `m`. */
    lemma Settles(m: seq<byte>, lost: nat)
      requires initialized && 0 < start && start + 4 <= |m| && Load(m, start) == 1 && lost <= 1 && lost <= |blocks|
      requires lost == 1 ==> LostImage(m, blocks[0], start + 8)
      requires var lo := start + 8 + if lost == 1 then blocks[0].size else 0;
               8 < lo && Holds(blocks[lost..], lo, lost) && SameOn(m, mem[..], 0, lo - 4)
      ensures if lost == 1 then Cracked() else Valid()
      ensures (Cracked() <==> lost == 1) && Listed() == blocks[lost..]
    {
      hide Load, Part, Linked, Layout;
      if lost == 1 {
        BecomesCracked(m, blocks[0]);
      } else {
        assert blocks[0..] == blocks;
        BecomesValid(m);
        Modes();
      }
    }

    /** A heap just initialised whose one block is about to be left behind by growth. */
    lemma FreshGrows()
      requires Fresh()
      ensures Growable([], brk, 1) && blocks != [] && LostImage(mem[..], blocks[0], start + 8)
      ensures start + 8 + blocks[0].size == brk
    {
      hide Load, Linked, Tiles, AllTagged;
      ReadyHolds();
      FreshLost(mem[..], blocks, start + 8, brk);
    }

    /**
     * What a request for `need` bytes, tags included, came to: the blocks `bs` below `brk0` grew by the fewest pages
     * that make one fit, and the first that fits was placed; or none fits and the break cannot move.
     */
    ghost predicate Served(va: nat, bs: seq<Block>, brk0: nat, pages: nat, k: nat, need: nat)
      reads this, mem
    {
      var grown := GrowBy(bs, brk0, pages);
      && brk == brk0 + pages * PAGE_SIZE && (pages > 0 ==> NoFit(GrowBy(bs, brk0, pages - 1), need))
      && if va != 0 then FirstFit(grown, k, need) && va == grown[k].va && Listed() == Place(grown, k, need)
         else NoFit(grown, need) && Listed() == grown && brk + PAGE_SIZE > mem.Length
    }

    lemma ServedIs(va: nat, bs: seq<Block>, brk0: nat, pages: nat, k: nat, need: nat)
      requires Served(va, bs, brk0, pages, k, need)
      ensures brk == brk0 + pages * PAGE_SIZE && (pages > 0 ==> NoFit(GrowBy(bs, brk0, pages - 1), need))
      ensures va == 0 ==> Listed() == GrowBy(bs, brk0, pages) && brk + PAGE_SIZE > mem.Length
      ensures va == 0 ==> NoFit(GrowBy(bs, brk0, pages), need)
      ensures va != 0 ==>
                var g := GrowBy(bs, brk0, pages);
                && k < |g| && g[k].free && need <= g[k].size && NoFit(g[..k], need) && va == g[k].va
                && Listed() == Place(g, k, need) && Place(g, k, need)[k].va == va && !Place(g, k, need)[k].free
    {
      hide GrowBy, Listed;
    }

    lemma ServedAtOnce(va: nat, bs: seq<Block>, k: nat, need: nat)
      requires if va != 0 then FirstFit(bs, k, need) && va == bs[k].va && Listed() == Place(bs, k, need)
               else NoFit(bs, need) && Listed() == bs && brk + PAGE_SIZE > mem.Length
      ensures Served(va, bs, brk, 0, k, need)
    {
    }

    lemma ServedLater(va: nat, bs: seq<Block>, brk0: nat, pages: nat, k: nat, need: nat)
      requires NoFit(bs, need) && Served(va, Grow(bs, brk0), brk0 + PAGE_SIZE, pages, k, need)
      ensures Served(va, bs, brk0, pages + 1, k, need)
      ensures GrowBy(bs, brk0, pages + 1) == GrowBy(Grow(bs, brk0), brk0 + PAGE_SIZE, pages)
      ensures brk == brk0 + (pages + 1) * PAGE_SIZE
    {
      hide Grow, Place, FirstFit, NoFit, Listed;
    }

    /** The end of alloc_block_FF: no block fits, so it obtains a page and starts again. */
    method GrowAndRetry(size: nat) returns (va: nat, ghost bs: seq<Block>, ghost pages: nat, ghost k: nat)
      requires Rounded(size) == size && size + 2 * META + PAGE_SIZE <= WORD_LIMIT && (Ready() || Cracked())
      requires NoFit(Listed(), size + META)
      modifies this, mem
      ensures bs == if old(Fresh()) && old(brk) + PAGE_SIZE <= mem.Length then [] else old(Listed())
      ensures Served(va, bs, old(brk), pages, k, size + META)
      ensures Confined(old(mem[..]), mem[..], GrowBy(bs, old(brk), pages), brk)
      ensures Cracked() <==> old(Cracked()) || (old(Fresh()) && old(brk) + PAGE_SIZE <= mem.Length)
      ensures Cracked() ==> blocks != [] && old(blocks) != [] && blocks[0] == old(blocks)[0]
      ensures !Cracked() ==> if old(Fresh()) then va == 0 && Fresh() else Valid()
      decreases mem.Length - brk, 0
    {
      hide Load, Confined, Grow, Place, Shape, Valid, Fresh, Cracked, Tiles, NoAdjacentFree, FreeAddrs, FirstPages,
        Part;
      hide Holds, HoldsReady, Growable, LostImage, Listed, ListedFrom, Lost, SameOn, FirstFit, Served, GrowBy, NoFit;
      hide FirstFitAnswer, NoneOf, LeastPiece;
      Modes();
      ghost var m, b, young, brk0 := mem[..], blocks, Fresh(), brk;
      bs, pages, va, k := Listed(), 0, 0, 0;
      ghost var g, lo, lost := GrowsFrom();
      var ok := GrowHeap(g, lo, lost);
      if !ok {
        assert mem[..] == m;
        ConfinedRefl(m, bs, brk);
        ServedAtOnce(0, bs, 0, size + META);
        NotGrown(bs, brk);
        return;
      }
      bs := g;
      ghost var m1, brk1 := mem[..], brk;
      blocks := b[..lost] + Grow(g, brk0);
      Joined(b, lost, Grow(g, brk0));
      Settles(m, lost);
      Modes();
      HoldsAreReady(Grow(g, brk0), lo, lost);
      PartHolds(Grow(g, brk0), lo, lost);
      var wild;
      ghost var inner, e;
      va, wild, inner, e, pages, k := AllocBlockFF(size);
      ServedLater(va, g, brk0, pages, k, size + META);
      GrowByWidens(m, m1, Grow(g, brk0), lo, brk1, pages);
      ConfinedTrans(m, m1, mem[..], GrowBy(Grow(g, brk0), brk1, pages), brk);
      Modes();
      pages := pages + 1;
    }

    lemma NotGrown(bs: seq<Block>, brk0: nat)
      ensures GrowBy(bs, brk0, 0) == bs
    {
    }

    /** The blocks that growth extends: none if the heap was just initialised. */
    lemma GrowsFrom() returns (bs: seq<Block>, lo: nat, lost: nat)
      requires Ready() || Cracked()
      ensures bs == (if Fresh() then [] else Listed()) && lost == (if Fresh() || Cracked() then 1 else 0)
      ensures Growable(bs, lo, lost) && initialized && 0 < start && start + 4 <= mem.Length && Load(mem[..], start) == 1
      ensures lost <= |blocks| && (lost == 1 ==> LostImage(mem[..], blocks[0], start + 8))
      ensures 8 < lo && lo == start + 8 + if lost == 1 then blocks[0].size else 0
      ensures NoFit([], 0) && forall need :: NoFit([], need)
    {
      hide Load, Part, LostImage, FreeAddrs, Shape;
      Modes();
      ListedHolds();
      ListedIs();
      PartHolds(Listed(), ListedFrom(), Lost());
      if Fresh() {
        FreshGrows();
        bs, lo, lost := [], brk, 1;
      } else {
        bs, lo, lost := Listed(), ListedFrom(), Lost();
      }
    }

    lemma FreshFits(need: nat)
      requires Fresh()
      ensures NoFit(Listed(), need) <==> blocks[0].size < need
    {
      hide Load, Linked, Tiles;
      Modes();
      ListedIs();
    }

    /** The part of alloc_block_FF behind the initialisation; `size` is already rounded. */
    method SearchOrGrow(size: nat) returns (va: nat, ghost bs: seq<Block>, ghost pages: nat, ghost k: nat)
      requires Rounded(size) == size && size + 2 * META + PAGE_SIZE <= WORD_LIMIT && (Ready() || Cracked())
      modifies this, mem
      ensures bs == if old(Cracks(size)) then [] else old(Listed())
      ensures Served(va, bs, old(brk), pages, k, size + META) && (va == 0 ==> NoFit(old(Listed()), size + META))
      ensures Confined(old(mem[..]), mem[..], GrowBy(bs, old(brk), pages), brk)
      ensures Cracked() <==> old(Cracked()) || old(Cracks(size))
      ensures Cracked() ==> blocks != [] && old(blocks) != [] && blocks[0] == old(blocks)[0]
      ensures !Cracked() ==> if old(Fresh()) && va == 0 then Fresh() else Valid()
      decreases mem.Length - brk, 1
    {
      hide Load, Confined, Grow, Place, Shape, Valid, Fresh, Cracked, Tiles, NoAdjacentFree, FreeAddrs, FirstPages,
        Part;
      hide Holds, HoldsReady, LostImage, Listed, ListedFrom, Lost, SameOn, FirstFit, Served, GrowBy, NoFit, Fits;
      Modes();
      if Fresh() {
        FreshFits(size + META);
      }
      ghost var m, b, lo, lost := mem[..], blocks, ListedFrom(), Lost();
      bs, pages := Listed(), 0;
      ListedHolds();
      ListedIs();
      PartHolds(bs, lo, lost);
      va, k := ScanFirstFit(size + 2 * 4, bs, lo, lost);
      if va != 0 {
        ScanFits(bs, k, size + META);
        ConfinedKeepsSentinels(m, mem[..], bs, lo, brk);
        ConfinedWiden(m, mem[..], bs, brk);
        blocks := b[..lost] + Place(bs, k, size + META);
        Joined(b, lost, Place(bs, k, size + META));
        Settles(m, lost);
        ServedAtOnce(va, bs, k, size + META);
        NotGrown(bs, brk);
        return;
      }
      assert mem[..] == m;
      va, bs, pages, k := GrowAndRetry(size);
    }

    /** The one block of a heap just initialised has an even size: rounding a request makes no difference to it. */
    lemma CracksRounded(requested: nat)
      requires Fresh()
      ensures Cracks(requested) == Cracks(Rounded(requested))
      ensures Cracks(requested) <==> blocks[0].size < requested + 8 && brk + PAGE_SIZE <= mem.Length
      ensures Fits(blocks[0], Rounded(requested) + META) <==> requested + 8 <= blocks[0].size
    {
      hide Load, Linked;
      PieceIs(requested);
      TilesBounds(blocks, start + 8, brk);
      assert blocks[0] in blocks;
    }

    /** What a served request comes to for its caller. */
    lemma Answered(requested: nat, va: nat, bs: seq<Block>, lo: nat, brk0: nat, pages: nat, k: nat)
      requires Served(va, bs, brk0, pages, k, Rounded(requested) + META) && Tiles(bs, lo, brk0) && NoAdjacentFree(bs)
      ensures brk == brk0 + 4096 * pages && (va == 0 ==> brk + 4096 > mem.Length)
      ensures pages > 0 ==> NoneOf(GrowBy(bs, brk0, pages - 1), requested + 8)
      ensures forall n: nat | LeastPiece(requested, n) ::
                FirstFitAnswer(requested, n, GrowBy(bs, brk0, pages), va, k, Listed())
    {
      hide Listed, GrowBy, Tiles, NoFit, FirstFit, Place, FirstFitAnswer, NoneOf, NoAdjacentFree, Rounded, LeastPiece;
      var n := Rounded(requested) + META;
      PieceIs(requested);
      GrowByKeeps(bs, lo, brk0, pages);
      AnswerIs(requested, n, GrowBy(bs, brk0, pages), lo, brk0 + pages * PAGE_SIZE, va, k, Listed());
      if pages > 0 {
        GrowByKeeps(bs, lo, brk0, pages - 1);
        NoneOfPiece(GrowBy(bs, brk0, pages - 1), lo, brk0 + (pages - 1) * PAGE_SIZE, requested, n);
      }
    }

    lemma TilesNone(brk0: nat)
      ensures Tiles([], brk0, brk0) && NoAdjacentFree([])
    {
    }

    /** A block that the scan finds is no reason to grow. */
    lemma ScanFits(bs: seq<Block>, k: nat, need: nat)
      requires FirstFit(bs, k, need)
      ensures k < |bs| && Fits(bs[k], need) && !NoFit(bs, need)
    {
    }

    /**
     * alloc_block_FF. The ghost results name the blocks `bs` searched, the pages added and the block chosen. A heap
     * just initialised whose block is too small loses it to growth, and a heap that lost it works on without it.
     */
    method AllocBlockFF(requested: nat)
      returns (va: nat, wild: bool, ghost bs: seq<Block>, ghost brk0: nat, ghost pages: nat, ghost k: nat)
      requires requested + 4112 <= WORD_LIMIT
      requires Ready() || Cracked() || Untouched()
      modifies this, mem
      ensures wild <==> old(Untouched()) && start + FirstPages(requested) * PAGE_SIZE > mem.Length
      ensures wild ==> Untouched() && mem[..] == old(mem[..])
      ensures !wild ==> brk0 == if old(initialized) then old(brk) else start + FirstPages(requested) * PAGE_SIZE
      ensures !wild ==> bs == if !old(initialized) then [Block(start + 8, brk0 - start - 8, true)]
                              else if old(Cracks(requested)) then [] else old(Listed())
      ensures !wild ==> Served(va, bs, brk0, pages, k, Rounded(requested) + META)
      // what that is in bytes: a free block with room is cut, after the fewest pages that make one
      ensures !wild ==> brk == brk0 + 4096 * pages && (va == 0 ==> brk + 4096 > mem.Length)
      ensures !wild && pages > 0 ==> NoneOf(GrowBy(bs, brk0, pages - 1), requested + 8)
      ensures !wild ==> forall n: nat | LeastPiece(requested, n) ::
                          FirstFitAnswer(requested, n, GrowBy(bs, brk0, pages), va, k, Listed())
      ensures !wild && !old(initialized) ==> forall n: nat | LeastPiece(requested, n) ::
                                               n + 8 <= brk0 - start < n + 8 + 4096
      ensures !wild && old(initialized) ==> Confined(old(mem[..]), mem[..], GrowBy(bs, brk0, pages), brk)
      // what heap it leaves
      ensures !wild ==> (Cracked() <==> old(Cracked()) || old(Cracks(requested)))
      ensures !wild && Cracked() ==> blocks != [] && old(blocks) != [] && blocks[0] == old(blocks)[0]
      ensures !wild && !Cracked() ==> if old(Fresh()) && va == 0 then Fresh() else Valid()
      ensures old(Fresh()) && old(brk) + PAGE_SIZE <= mem.Length ==>
                (Valid() <==> requested + 8 <= old(blocks)[0].size)
      decreases mem.Length - brk, 2
    {
      hide Load, Confined, Grow, Place, Shape, Valid, Fresh, Cracked, Tiles, NoAdjacentFree, FreeAddrs, FirstPages,
        Part;
      hide Listed, GrowBy, FirstFit, Served, FirstFitAnswer, NoneOf, LeastPiece, Rounded, HoldsReady, Cracks;
      hide ListedFrom;
      Modes();
      bs, brk0, pages, va, k, wild := [], brk, 0, 0, 0, false;
      PieceIs(requested);
      var size := Rounded(requested);
      if Fresh() {
        CracksRounded(requested);
      } else {
        CracksOnlyFresh(requested);
      }
      if initialized {
        ListedIs();
      }
      if !initialized {
        var header;
        wild, header := ObtainFirstPages(requested);
        if wild {
          return;
        }
        forall n: nat | LeastPiece(requested, n) { FirstPagesLeast(requested, n); }
        Modes();
        ListedIs();
        CracksRounded(requested);
      }
      brk0 := brk;
      ListedHolds();
      PartHolds(Listed(), ListedFrom(), Lost());
      TilesNone(brk0);
      ghost var lo := if Cracks(size) then brk0 else ListedFrom();
      va, bs, pages, k := SearchOrGrow(size);
      Answered(requested, va, bs, lo, brk0, pages, k);
      Modes();
    }

    lemma CracksOnlyFresh(requested: nat)
      requires !Fresh()
      ensures !Cracks(requested) && !Cracks(Rounded(requested))
    {
    }

    lemma ListedIs()
      requires Ready() || Cracked()
      ensures !Cracked() ==> Listed() == blocks && ListedFrom() == start + 8 && Lost() == 0
      ensures Cracked() ==>
                && blocks != [] && Listed() == blocks[1..] && ListedFrom() == start + 8 + blocks[0].size && Lost() == 1
    {
    }

    // ----- best fit -----

    /** The scan of alloc_block_BF: the first among the smallest free blocks that fit. */
    method FindBestFit(need: nat, ghost bs: seq<Block>, ghost lo: nat, ghost lost: nat)
      returns (best: nat, bestSize: nat, ghost k: nat)
      requires HoldsReady(bs, lo, lost)
      ensures best == 0 ==> NoFit(bs, need)
      ensures best != 0 ==> BestFit(bs, k, need) && bs[k].va == best && bestSize == bs[k].size
    {
      hide Load, Linked, Tiles, Apart, AllTagged, NoAdjacentFree, FreeAddrs, HoldsReady;
      best, bestSize, k := 0, 0, 0;
      var blk := first;
      ghost var j := NextFree(bs, 0);
      FirstFree(bs, lo, lost);
      while blk != 0
        invariant j <= |bs| && (j < |bs| ==> bs[j].free)
        invariant blk == (if j < |bs| then bs[j].va else 0)
        invariant best == 0 ==> forall i | 0 <= i < j :: !Fits(bs[i], need)
        invariant best != 0 ==> k < j && Fits(bs[k], need) && bs[k].va == best && bestSize == bs[k].size
        invariant best != 0 ==> forall i | 0 <= i < j && Fits(bs[i], need) :: bestSize <= bs[i].size
        invariant best != 0 ==> forall i | 0 <= i < k && Fits(bs[i], need) :: bestSize < bs[i].size
        decreases |bs| - j
      {
        ScanStep(bs, lo, lost, j);
        var next := Load(mem[..], blk);
        var current := Load(mem[..], blk - 4) - Load(mem[..], blk - 4) % 2;
        if current >= need && (best == 0 || current < bestSize) {
          best, bestSize, k := blk, current, j;
        }
        j := NextFree(bs, j + 1);
        blk := next;
      }
    }

    /** The cut of a block for less than 16 bytes, up to the list macros: the tags overwrite the block's own links. */
    method CutSmall(blk: nat, need: nat, ghost bs: seq<Block>, ghost lo: nat, ghost lost: nat, ghost k: nat)
      requires HoldsReady(bs, lo, lost) && k < |bs| && bs[k].free && bs[k].va == blk
      requires 8 < need < MIN_TOTAL && need + 2 * 8 <= bs[k].size
      modifies mem
      ensures blk + 8 <= mem.Length && 0 < OwnLink(mem[..], blk, need) < 0x1000_0000
      ensures Confined(old(mem[..]), mem[..], bs, 0)
    {
      hide Load, Bytes, Tagged, Linked, OnlyTags, Tiles, HoldsReady, SizeAt, FreeAddrs, OwnLink, Confined, Part;
      ghost var m := mem[..];
      PartHolds(bs, lo, lost);
      FreeBlockAt(bs, lo, lost, k);
      var remaining := SizeAt(mem[..], blk) - need;
      SetBlockData(blk, need, true);
      ghost var m1 := mem[..];
      TagsConfined(m, m1, bs, bs[k], Block(blk, need, false));
      SetBlockData(blk + need, remaining, false);
      TagsConfined(m1, mem[..], bs, bs[k], Block(blk + need, remaining, true));
      OwnLinkLost(m1, mem[..], blk, need, Block(blk + need, remaining, true));
      ConfinedTrans(m, m1, mem[..], bs, 0);
    }

    /**
     * alloc_block_BF. It does not round. An odd size is harmless if a block is taken whole, and otherwise leaves a heap
     * that holds no blocks at all. For a size below 8 that leaves a rest it goes wild: the list macros are about to
     * store through a link that the new tags have overwritten, and that is where the model stops.
     */
    method AllocBlockBF(size: nat) returns (va: nat, wild: bool, ghost k: nat)
      requires (Ready() || Cracked()) && size + 8 < WORD_LIMIT
      modifies this, mem
      ensures brk == old(brk)
      ensures va == 0 <==> size == 0 || NoneOf(old(Listed()), size + 8)
      ensures va == 0 ==> unchanged(this) && unchanged(mem)
      ensures va != 0 ==> SmallestFree(old(Listed()), k, size + 8) && va == old(Listed())[k].va
      ensures wild <==> 0 < size < 8 && CutsBest(old(Listed()), size + 8)
      ensures wild ==> va != 0 && va + 8 <= mem.Length && 0 < OwnLink(mem[..], va, size + 8) < 0x1000_0000
      ensures va != 0 && !wild ==>
                ((if old(Cracked()) then Cracked() else Valid())
                 <==> size % 2 == 0 || !CutsBest(old(Listed()), size + 8))
      ensures va != 0 && !wild && (size % 2 == 0 || !CutsBest(old(Listed()), size + 8)) ==>
                && Listed() == CutFrom(old(Listed()), k, size + 8)
                && (Cracked() ==> blocks != [] && old(blocks) != [] && blocks[0] == old(blocks)[0])
      ensures va != 0 && !wild && size % 2 == 1 && CutsBest(old(Listed()), size + 8) ==>
                forall bs, lo :: !Holds(bs, lo, old(Lost()))
      ensures va != 0 ==> Confined(old(mem[..]), mem[..], old(Listed()), 0)
    {
      hide Load, Bytes, Linked, Tiles, Apart, Confined, InsideFree, Within, Stored, AllTagged, NoAdjacentFree, Place;
      hide FreeAddrs, Torn, OwnLink, CutsBest, SmallestFree, NoneOf, CutFrom, Holds, HoldsReady, Listed, ListedFrom;
      hide Lost, LostImage, Valid, Fresh, Cracked, Part, SameOn;
      va, wild, k := 0, false, 0;
      if size == 0 {
        return;
      }
      ghost var m, b, bs, lo, lost := mem[..], blocks, Listed(), ListedFrom(), Lost();
      ListedHolds();
      ListedIs();
      PartHolds(bs, lo, lost);
      var need := size + 2 * 4;
      SmallestIs(bs, need);
      var bestSize;
      va, bestSize, k := FindBestFit(need, bs, lo, lost);
      if va == 0 {
        NeverCuts(bs, need);
        return;
      }
      CutsChosen(bs, k, need);
      if bestSize - need < 2 * MIN_BLOCK_SIZE {
        TakeWhole(va, bs, lo, lost, k);
        PlaceWhole(bs, k, need);
      } else if need < 2 * MIN_BLOCK_SIZE {
        CutSmall(va, need, bs, lo, lost, k);
        wild := true;
        return;
      } else {
        SplitBlock(va, need, bs, lo, lost, k);
        if need % 2 == 1 {
          TornIsNeither(lost);
          forall c, at ensures !Holds(c, at, lost) {
            TornFits(c, at, lost);
          }
          return;
        }
      }
      ConfinedKeepsSentinels(m, mem[..], bs, lo, brk);
      blocks := b[..lost] + Place(bs, k, need);
      Joined(b, lost, Place(bs, k, need));
      Settles(m, lost);
    }

    // ----- free -----

    /**
     * The end of free_block: links `block` in so that the list stays in address order. If `last` is NULL although the
     * list goes on, `block` must be the new first one, and `last` stays NULL.
     */
    method InsertInOrder(block: nat, ghost l: seq<nat>, ghost q: nat)
      requires mem.Length < WORD_LIMIT
      requires Linked(mem[..], l) && q <= |l| && Apart(Inserted(l, q, block), mem.Length)
      requires Ends(l) || (last == 0 && q == 0 && l != [] && first == l[0])
      requires forall i | 0 <= i < q :: l[i] < block
      requires forall i | q <= i < |l| :: block < l[i]
      modifies mem, `first, `last, `count
      ensures Linked(mem[..], Inserted(l, q, block)) && count == old(count) + 1
      ensures old(Ends(l)) ==> Ends(Inserted(l, q, block))
      ensures !old(Ends(l)) ==> first == block && last == 0
      ensures OnlyLinks(old(mem[..]), mem[..], Inserted(l, q, block))
    {
      hide Load, Linked, OnlyLinks, Inserted;
      InsertRoom(l, q, block, mem.Length);
      LinkedApart(mem[..], l);
      assert forall i | 0 <= i < |l| :: 0 < l[i];
      hide Apart;
      if block < first {
        assert q == 0;
        ListInsertHead(block, l);
        return;
      }
      if block > last {
        assert q == |l|;
        ListInsertTail(block, l);
        return;
      }
      assert 0 < q < |l|;
      var current := first;
      ghost var i := 0;
      while current != 0
        invariant mem[..] == old(mem[..]) && unchanged(this) && Ends(l)
        invariant i < q < |l| && current == l[i]
        decreases q - i
      {
        LinkWords(mem[..], l, i);
        var next := Load(mem[..], current);
        if current < block {
          if next != 0 {
            if next > block {
              assert i + 1 == q;
              ListInsertBefore(next, block, l, i + 1);
              return;
            }
          } else {
            assert false;
          }
        } else {
          assert false;
        }
        current, i := next, i + 1;
      }
      assert false;
    }

    /**
     * Halfway through free_block: block `k` is tagged free, but the list is the old one. `astray` says that the block
     * before it is free, but linked to nothing.
     */
    ghost predicate Freeing(bs: seq<Block>, lo: nat, astray: bool, lost: nat, k: nat)
      reads `brk, `first, `last, `count, mem
    {
      && brk <= mem.Length < WORD_LIMIT && 8 < lo <= brk
      && Tiles(bs, lo, brk) && NoAdjacentFree(bs) && k < |bs| && !bs[k].free
      && AllTagged(mem[..], Marked(bs, k))
      && Load(mem[..], brk - 4) == 1 && (k == 0 ==> Load(mem[..], lo - 8) == 1)
      && Linked(mem[..], ListOf(bs, astray)) && Ends(ListOf(bs, astray)) && count == |ListOf(bs, astray)| + lost
      && (astray ==> k == 1 && bs[0].free && lost == 1 && Linked(mem[..], [bs[0].va]))
    }

    /** The free block before the one being freed leaves the list; one that is astray takes the head fields with it. */
    method TakePrevious(previous: nat, ghost bs: seq<Block>, ghost lo: nat, ghost astray: bool, ghost lost: nat,
        ghost k: nat)
      requires Freeing(bs, lo, astray, lost, k) && k > 0 && bs[k - 1].free && bs[k - 1].va == previous
      modifies mem, `first, `last, `count
      ensures var l1 := FreeAddrs(bs[..k - 1]) + FreeAddrs(bs[k + 1..]);
              && Linked(mem[..], l1) && count == |l1| + lost - (if astray then 1 else 0)
              && (if astray then first == last == 0 else Ends(l1))
      ensures AllTagged(mem[..], Marked(bs, k)) && Confined(old(mem[..]), mem[..], Marked(bs, k), 0)
      ensures Load(mem[..], brk - 4) == 1
    {
      hide Load, Bytes, Tagged, Linked, OnlyTags, OnlyLinks, Tiles, Apart, Confined, InsideFree, Within, Stored;
      hide AllTagged, NoAdjacentFree, FreeAddrs, Marked, Removed, ListOf;
      ghost var l, m, b := ListOf(bs, astray), mem[..], Marked(bs, k);
      MarkedTiles(bs, k, lo, brk);
      MarkedHolds(bs, k, lo, brk);
      ListOfIs(bs, astray);
      ConfinedRefl(m, b, 0);
      if astray {
        AstrayList(bs, lo, brk);
        Sublist(FreeAddrs(bs), [previous], b, b);
        FreeAddrsApart(bs, lo, brk, |m|);
      } else {
        ReleaseListBefore(bs, k);
      }
      ghost var from, at := if astray then [previous] else l, if astray then 0 else |FreeAddrs(bs[..k - 1])|;
      ListRemove(previous, from, at);
      LinkStep(m, m, mem[..], b, from, lo, brk, 0);
      if astray {
        ApartKept(m, mem[..], previous, l, |m|);
      }
    }

    /** The free block behind it leaves what the list is then, the first block of which it is if the list is astray. */
    method TakeNext(next: nat, ghost bs: seq<Block>, ghost lo: nat, ghost k: nat)
      requires brk <= mem.Length < WORD_LIMIT && 8 < lo <= brk && Tiles(bs, lo, brk) && k + 1 < |bs| && !bs[k].free
      requires bs[k + 1].free && bs[k + 1].va == next
      requires AllTagged(mem[..], Marked(bs, k)) && Load(mem[..], brk - 4) == 1
      requires Linked(mem[..], FreeAddrs(bs[..RunStart(bs, k)]) + FreeAddrs(bs[k + 1..])) && count > 0
      modifies mem, `first, `last, `count
      ensures var a, z := FreeAddrs(bs[..RunStart(bs, k)]), FreeAddrs(bs[k + 2..]);
              && Linked(mem[..], a + z) && count == old(count) - 1
              && (old(Ends(a + FreeAddrs(bs[k + 1..]))) ==> Ends(a + z))
              && (a == [] ==> first == if z == [] then 0 else z[0])
              && (a == [] ==> last == if z == [] then 0 else old(last))
      ensures AllTagged(mem[..], Marked(bs, k)) && Confined(old(mem[..]), mem[..], Marked(bs, k), 0)
      ensures Load(mem[..], brk - 4) == 1
    {
      hide Load, Bytes, Tagged, Linked, OnlyTags, OnlyLinks, Tiles, Apart, Confined, InsideFree, Within, Stored;
      hide AllTagged, FreeAddrs, Marked, Removed;
      ghost var m, b, l1 := mem[..], Marked(bs, k), FreeAddrs(bs[..RunStart(bs, k)]) + FreeAddrs(bs[k + 1..]);
      MarkedTiles(bs, k, lo, brk);
      MarkedHolds(bs, k, lo, brk);
      RunListHolds(bs, k, b);
      ReleaseListBehind(bs, k);
      FreeFrom(bs, k + 1);
      ConfinedRefl(m, b, 0);
      ListRemove(next, l1, |FreeAddrs(bs[..RunStart(bs, k)])|);
      LinkStep(m, m, mem[..], b, l1, lo, brk, 0);
    }

    /** The size and the neighbours of the block at `va`, read from its header and the tags next to it. */
    method ReadNeighbours(va: nat, ghost bs: seq<Block>, ghost lo: nat, ghost k: nat)
      returns (size: nat, previous: nat, next: nat)
      requires brk <= mem.Length && 8 < lo <= brk && Tiles(bs, lo, brk) && k < |bs| && !bs[k].free && bs[k].va == va
      requires AllTagged(mem[..], Marked(bs, k)) && Load(mem[..], brk - 4) == 1
      requires k == 0 ==> Load(mem[..], lo - 8) == 1
      ensures size == bs[k].size && previous == (if k == 0 then 0 else bs[k - 1].va)
      ensures next == if k + 1 == |bs| then 0 else bs[k + 1].va
      ensures previous != 0 ==> 4 <= previous <= mem.Length && Load(mem[..], previous - 4) == Tag(bs[k - 1])
      ensures k > 0 ==> previous != 0 && bs[k - 1].size % 2 == 0
      ensures next != 0 ==> 4 <= next <= mem.Length && Load(mem[..], next - 4) == Tag(bs[k + 1])
      ensures k + 1 < |bs| ==> next != 0 && bs[k + 1].size % 2 == 0
    {
      hide Load, Tiles, AllTagged, Marked;
      NeighbourWords(mem[..], bs, k, lo, brk);
      size := Load(mem[..], va - 4) - Load(mem[..], va - 4) % 2;
      var footer := Load(mem[..], va - 8) - Load(mem[..], va - 8) % 2;
      previous := if footer == 0 then 0 else va - footer;
      var header := Load(mem[..], va + size - 4) - Load(mem[..], va + size - 4) % 2;
      next := if header == 0 then 0 else va + size;
    }

    /** Takes the free neighbours of the block being freed off the list and adds up the sizes. */
    method Coalesce(va: nat, ghost bs: seq<Block>, ghost lo: nat, ghost astray: bool, ghost lost: nat, ghost k: nat)
      returns (block: nat, total: nat)
      requires Freeing(bs, lo, astray, lost, k) && bs[k].va == va
      modifies mem, `first, `last, `count
      ensures var i, j := RunStart(bs, k), RunEnd(bs, k);
              && block == bs[i].va
              && total == bs[k].size + (if i < k then bs[i].size else 0) + (if j > k + 1 then bs[k + 1].size else 0)
      ensures var i, j := RunStart(bs, k), RunEnd(bs, k);
              var l2 := FreeAddrs(bs[..i]) + FreeAddrs(bs[j..]);
              && Linked(mem[..], l2) && count == |l2| + lost - (if astray then 1 else 0)
              && (!astray ==> Ends(l2))
              && (astray ==> last == 0 && first == if j == 3 && l2 != [] then l2[0] else 0)
      ensures AllTagged(mem[..], Marked(bs, k)) && Confined(old(mem[..]), mem[..], Marked(bs, k), 0)
      ensures Load(mem[..], brk - 4) == 1
    {
      hide Load, Bytes, Tagged, Linked, OnlyTags, OnlyLinks, Tiles, Apart, Confined, InsideFree, Within, Stored;
      hide AllTagged, NoAdjacentFree, FreeAddrs, Marked, Removed, ListOf;
      ghost var m, b, i := mem[..], Marked(bs, k), RunStart(bs, k);
      ListOfIs(bs, astray);
      ReleaseListBefore(bs, k);
      ReleaseListBehind(bs, k);
      ConfinedRefl(m, b, 0);
      if astray {
        AstrayList(bs, lo, brk);
      }
      var size, previous, next := ReadNeighbours(va, bs, lo, k);
      block, total := va, size;
      if previous != 0 && Load(mem[..], previous - 4) % 2 == 0 {
        total := total + Load(mem[..], previous - 4) - Load(mem[..], previous - 4) % 2;
        block := previous;
        TakePrevious(previous, bs, lo, astray, lost, k);
      }
      ghost var m1 := mem[..];
      NeighbourWords(m1, bs, k, lo, brk);
      if next != 0 && Load(mem[..], next - 4) % 2 == 0 {
        total := total + Load(mem[..], next - 4) - Load(mem[..], next - 4) % 2;
        TakeNext(next, bs, lo, k);
        ConfinedTrans(m, m1, mem[..], b, 0);
      }
    }

    /**
     * What freeing block 1 of `bs` leaves of a heap that lost block 0. The merged block is in the list; of the other
     * free blocks either all are, but then `last` is NULL, or none is.
     */
    ghost predicate Mended(bs: seq<Block>)
      reads `first, `last, `count, mem
      requires |bs| > 1
    {
      var x, l := bs[0].va, Survivors(bs);
      && count == |l| + 1
      && if l != [] && RunEnd(bs, 1) == 3 then Linked(mem[..], [x] + l) && first == x && last == 0
         else Linked(mem[..], [x]) && Ends([x])
    }

    /** Unless it is the only free block, no list matches memory and the list head. */
    lemma MendedFits(bs: seq<Block>)
      requires |bs| > 1 && Mended(bs) && Survivors(bs) != []
      ensures forall l :: !(Linked(mem[..], l) && Heads(l))
    {
      hide Load, FreeAddrs;
      if RunEnd(bs, 1) == 2 {
        LinkWords(mem[..], [bs[0].va], 0);
      }
      forall l | Linked(mem[..], l) ensures !Heads(l) {
        LinkedApart(mem[..], l);
        if l != [] {
          LinkWords(mem[..], l, 0);
        }
      }
    }

    /** The rest of free_block when other blocks are free: merge with the neighbours, then link in. */
    method MergeAndInsert(va: nat, ghost bs: seq<Block>, ghost lo: nat, ghost astray: bool, ghost lost: nat,
        ghost k: nat)
      requires Freeing(bs, lo, astray, lost, k) && bs[k].va == va
      modifies mem, `first, `last, `count
      ensures Layout(mem[..], Release(bs, k), lo, brk) && Confined(old(mem[..]), mem[..], Marked(bs, k), 0)
      ensures if astray then Mended(bs) else Holds(Release(bs, k), lo, lost)
    {
      hide Load, Bytes, Tagged, Linked, OnlyTags, OnlyLinks, Tiles, Apart, Confined, InsideFree, Within, Stored;
      hide AllTagged, NoAdjacentFree, FreeAddrs, Marked, Inserted, ListOf;
      ghost var m, b, i, r := mem[..], Marked(bs, k), RunStart(bs, k), Release(bs, k);
      ghost var q, l2 := |FreeAddrs(bs[..i])|, FreeAddrs(bs[..i]) + FreeAddrs(bs[RunEnd(bs, k)..]);
      if astray {
        AstrayList(bs, lo, brk);
      }
      var block, total := Coalesce(va, bs, lo, astray, lost, k);
      ghost var m3 := mem[..];
      RunSpan(bs, k, lo, brk);
      ReleaseKeeps(bs, k, lo, brk);
      ReleaseListRun(bs, k, lo, brk, |m|);
      BlockInside(r, i, lo, brk);
      SetBlockData(block, total, false);
      ghost var m4 := mem[..];
      RunTagged(m3, m4, bs, k, lo, brk);
      RunConfined(m3, m4, bs, k, lo, brk);
      MarkedTiles(bs, k, lo, brk);
      ConfinedKeepsSentinels(m3, m4, b, lo, brk);
      ghost var seen := if astray && RunEnd(bs, k) == 2 then [] else l2;
      ghost var now := Inserted(seen, if seen == [] then 0 else q, block);
      ChainIs(m4, seen, l2, q, block, |m|);
      InsertInOrder(block, seen, if seen == [] then 0 else q);
      FreeAddrsApart(r, lo, brk, |m|);
      Sublist(FreeAddrs(r), now, r, b);
      LinksKeepTags(m4, mem[..], r, now, lo, brk);
      LinksConfined(m4, mem[..], b, now);
      ConfinedKeepsSentinels(m4, mem[..], b, lo, brk);
      ConfinedTrans(m, m3, m4, b, 0);
      ConfinedTrans(m, m4, mem[..], b, 0);
      assert astray ==> l2 == Survivors(bs);
    }

    /** What free_block starts from; `astray` says that the block before `k` is free, but linked to nothing. */
    ghost predicate Freeable(bs: seq<Block>, lo: nat, astray: bool, lost: nat, k: nat)
      reads `brk, `first, `last, `count, mem
    {
      && brk <= mem.Length < WORD_LIMIT && Layout(mem[..], bs, lo, brk) && k < |bs| && !bs[k].free
      && (k == 0 ==> Load(mem[..], lo - 8) == 1)
      && Linked(mem[..], ListOf(bs, astray)) && Ends(ListOf(bs, astray)) && count == |ListOf(bs, astray)| + lost
      && (astray ==> k == 1 && bs[0].free && lost == 1 && Linked(mem[..], [bs[0].va]))
    }

    /** free_block from set_block_data on. */
    method FreeIn(va: nat, ghost bs: seq<Block>, ghost lo: nat, ghost astray: bool, ghost lost: nat, ghost k: nat)
      requires Freeable(bs, lo, astray, lost, k) && bs[k].va == va
      modifies mem, `first, `last, `count
      ensures Layout(mem[..], Release(bs, k), lo, brk) && Confined(old(mem[..]), mem[..], Marked(bs, k), 0)
      ensures if astray then Mended(bs) else Holds(Release(bs, k), lo, lost)
    {
      hide Load, Bytes, Tagged, Linked, OnlyTags, OnlyLinks, Tiles, Apart, Confined, InsideFree, Within, Stored;
      hide AllTagged, NoAdjacentFree, FreeAddrs, Release, Marked, Inserted, Removed, ListOf, Mended;
      ghost var m, b := mem[..], Marked(bs, k);
      BlockInside(bs, k, lo, brk);
      AllTaggedAt(m, bs, k);
      TaggedWord(m, bs[k]);
      ListOfIs(bs, astray);
      SetBlockData(va, Load(mem[..], va - 4) - Load(mem[..], va - 4) % 2, false);
      ghost var m1 := mem[..];
      MarkStep(m, m1, bs, k, ListOf(bs, astray), lo, brk);
      if count == 0 {
        ReleaseAlone(bs, k, lo, brk, |m|);
        ReleaseKeeps(bs, k, lo, brk);
        FreeAddrsApart(b, lo, brk, |m|);
        FreeAddrsInside(b, lo, brk);
        ListInsertHead(va, []);
        LinkStep(m, m1, mem[..], b, FreeAddrs(b), lo, brk, 0);
        return;
      }
      if astray {
        AstrayList(bs, lo, brk);
        MarkStep(m, m1, bs, k, [bs[0].va], lo, brk);
      }
      MergeAndInsert(va, bs, lo, astray, lost, k);
      ConfinedTrans(m, m1, mem[..], b, 0);
    }

    /** Where the part begins in which allocated block `k` is freed: behind a lost block, unless `k` borders on it. */
    lemma FreeStart(k: nat) returns (skip: nat, lo: nat, astray: bool, lost: nat)
      requires (Ready() || Cracked()) && k < |blocks| && !blocks[k].free
      ensures lost == (if Cracked() then 1 else 0) && astray == (Cracked() && k == 1)
      ensures skip == (if Cracked() && k > 1 then 1 else 0) && skip <= k && (Cracked() ==> k >= 1)
      ensures lo == start + 8 + (if skip == 1 then blocks[0].size else 0)
      ensures Freeable(blocks[skip..], lo, astray, lost, k - skip) && blocks[skip..][k - skip] == blocks[k]
      ensures initialized && 0 < start && Load(mem[..], start) == 1
      ensures Cracked() ==> LostImage(mem[..], blocks[0], start + 8)
    {
      hide Load, Tiles, Linked, FreeAddrs, Tagged;
      ListedHolds();
      ListedIs();
      if Cracked() {
        WholeLayout(mem[..], blocks, start + 8, brk);
        ListOfIs(blocks, true);
        if k > 1 { ListOfIs(blocks[1..], false); }
      } else {
        assert blocks[0..] == blocks;
        ListOfIs(blocks, false);
      }
      lost := if Cracked() then 1 else 0;
      astray := Cracked() && k == 1;
      skip := if Cracked() && k > 1 then 1 else 0;
      lo := start + 8 + (if skip == 1 then blocks[0].size else 0);
    }

    /** The header that free_block reads first. */
    lemma HeaderAt(k: nat)
      requires (Ready() || Cracked()) && k < |blocks|
      ensures 4 <= blocks[k].va <= mem.Length && (Load(mem[..], blocks[k].va - 4) % 2 == 0 <==> blocks[k].free)
    {
      hide Load, Linked, FreeAddrs;
      if Cracked() {
        ListedHolds();
        WholeLayout(mem[..], blocks, start + 8, brk);
      }
      BlockInside(blocks, k, start + 8, brk);
      TaggedWord(mem[..], blocks[k]);
    }

    /**
     * free_block: `k` is the block whose payload starts at `va`. On a heap that lost its first block, freeing the
     * second one finds the lost one by its tag: that repairs the heap exactly if no block from index 3 on is free.
     */
    method FreeBlock(va: nat, ghost k: nat)
      requires (Ready() || Cracked()) && (va == 0 || (k < |blocks| && blocks[k].va == va))
      modifies this, mem
      ensures brk == old(brk)
      ensures va == 0 || old(blocks[k].free) ==> unchanged(this) && unchanged(mem)
      ensures va != 0 && !old(blocks[k].free) ==>
                blocks == Release(old(blocks), k) && Confined(old(mem[..]), mem[..], Marked(old(blocks), k), 0)
      ensures va != 0 && !old(blocks[k].free) && old(Ready()) ==> Valid()
      ensures va != 0 && !old(blocks[k].free) && old(Cracked()) ==> k >= 1 && (k > 1 ==> Cracked())
      ensures va != 0 && !old(blocks[k].free) && old(Cracked()) && k == 1 ==>
                && Shape() && Mended(old(blocks))
                && (Valid() <==> forall i | 3 <= i < |old(blocks)| :: !old(blocks)[i].free)
                && (!Valid() ==> forall l :: !(Linked(mem[..], l) && Heads(l)))
    {
      hide Load, Linked, Tiles, Confined, AllTagged, NoAdjacentFree, FreeAddrs, Release, Marked, LostImage, Freeable;
      hide Part, Layout, Mended, Cracked, Valid, Fresh, Holds, SameOn, Shape, ListOf;
      if va == 0 {
        return;
      }
      Modes();
      HeaderAt(k);
      if Load(mem[..], va - 4) % 2 == 0 {
        return;
      }
      ghost var m, bs, cracked := mem[..], blocks, Cracked();
      ghost var skip, lo, astray, lost := FreeStart(k);
      ghost var part := bs[skip..];
      assert skip == 0 ==> part == bs;
      FreeRoom(part, lo, astray, lost, k - skip);
      FreeIn(va, part, lo, astray, lost, k - skip);
      MarkedTiles(part, k - skip, lo, brk);
      ConfinedKeepsSentinels(m, mem[..], Marked(part, k - skip), lo, brk);
      if skip == 1 {
        ReleaseShift(bs, k);
        ShiftConfined(m, mem[..], bs, k);
      }
      blocks := Release(bs, k);
      assert skip == 1 ==> blocks[1..] == Release(part, k - 1);
      assert skip == 0 ==> blocks[0..] == Release(part, k);
      if astray {
        Mends(m, bs);
      } else {
        Settles(m, lost);
      }
    }

    lemma FreeRoom(bs: seq<Block>, lo: nat, astray: bool, lost: nat, k: nat)
      requires Freeable(bs, lo, astray, lost, k)
      ensures 8 < lo <= brk <= mem.Length < WORD_LIMIT && Tiles(bs, lo, brk) && k < |bs| && !bs[k].free
      ensures astray ==> k == 1 && bs[0].free
    {
    }

    /** The merged block is the only free one, or the list is not a list any more. */
    lemma Mends(m: seq<byte>, bs: seq<Block>)
      requires |bs| > 1 && bs[0].free && !bs[1].free && Mended(bs) && blocks == Release(bs, 1)
      requires initialized && 0 < start && brk <= mem.Length < WORD_LIMIT && Layout(mem[..], blocks, start + 8, brk)
      requires start + 4 <= |m| && Load(m, start) == 1 && SameOn(m, mem[..], 0, start + 4)
      ensures Shape() && (Valid() <==> forall i | 3 <= i < |bs| :: !bs[i].free)
      ensures !Valid() ==> forall l :: !(Linked(mem[..], l) && Heads(l))
    {
      hide Load, Linked, Tiles, AllTagged, NoAdjacentFree, FreeAddrs, Release;
      LoadSame(m, mem[..], start);
      NoSurvivors(bs);
      ReleaseAddrs(bs, 1);
      assert RunStart(bs, 1) == 0 && bs[..0] == [] && FreeAddrs([]) == [] by { NoneFree([]); }
      if Survivors(bs) == [] {
        assert FreeAddrs(blocks) == [bs[0].va];
      } else {
        MendedFits(bs);
      }
    }

    // ----- across operations -----

    /** Freeing the block just placed. */
    method FreePlaced(va: nat, ghost bs: seq<Block>, ghost k: nat, ghost need: nat)
      requires Valid() && Tiles(bs, start + 8, brk) && NoAdjacentFree(bs) && va != 0
      requires k < |bs| && bs[k].free && need <= bs[k].size && va == bs[k].va && blocks == Place(bs, k, need)
      modifies this, mem
      ensures Valid() && blocks == bs && brk == old(brk) && Confined(old(mem[..]), mem[..], bs, brk)
    {
      hide Load, Tiles, Confined, FreeAddrs, Release, Marked, SameOn, NoAdjacentFree;
      hide Shape, Valid, Fresh, Cracked, Mended, Linked, Heads;
      ghost var m := mem[..];
      Modes();
      ReleaseUndoesPlace(bs, k, need);
      PlacedAt(bs, k, need);
      hide Place;
      FreeBlock(va, k);
      ReplacedConfined(m, mem[..], bs, k, need, start + 8, brk);
    }

    lemma PlacedAt(bs: seq<Block>, k: nat, need: nat)
      requires k < |bs| && need <= bs[k].size
      ensures Place(bs, k, need)[k].va == bs[k].va && !Place(bs, k, need)[k].free
    {
    }

    lemma PayloadsStay(m: seq<byte>, m': seq<byte>, bs: seq<Block>, lo: nat, brk0: nat, pages: nat)
      requires var end := brk0 + pages * PAGE_SIZE;
               Tiles(GrowBy(bs, brk0, pages), lo, end) && Confined(m, m', GrowBy(bs, brk0, pages), end)
      ensures forall b | b in bs && !b.free :: SameOn(m, m', b.va, b.va + b.size - META)
    {
      ConfinedKeepsPayloads(m, m', GrowBy(bs, brk0, pages), lo, brk0 + pages * PAGE_SIZE);
      hide Tiles, Confined, GrowBy, SameOn;
      forall b | b in bs && !b.free ensures SameOn(m, m', b.va, b.va + b.size - META) {
        AllocatedStays(bs, brk0, pages, b);
      }
    }

    lemma ValidIs()
      requires Valid()
      ensures !Cracked() && !Fresh() && Listed() == blocks && initialized && start + 8 <= brk <= mem.Length
      ensures Tiles(blocks, start + 8, brk) && NoAdjacentFree(blocks) && !Untouched()
    {
      Modes();
      ListedIs();
    }

    /** alloc_block_FF on a well-formed heap. */
    method FitValid(requested: nat) returns (va: nat, ghost pages: nat, ghost k: nat)
      requires Valid() && requested + 4112 <= WORD_LIMIT
      modifies this, mem
      ensures Valid() && Served(va, old(blocks), old(brk), pages, k, Rounded(requested) + META)
      ensures pages > 0 ==> NoneOf(GrowBy(old(blocks), old(brk), pages - 1), requested + 8)
      ensures va == 0 ==> NoneOf(GrowBy(old(blocks), old(brk), pages), requested + 8) && brk + 4096 > mem.Length
      ensures Confined(old(mem[..]), mem[..], GrowBy(old(blocks), old(brk), pages), brk)
    {
      ValidIs();
      PieceIs(requested);
      hide Load, Tiles, Confined, FreeAddrs, Place, NoAdjacentFree, NoFit, GrowBy, Fits, FirstFit, FirstPages;
      hide Shape, Valid, Fresh, Cracked, Untouched, Listed, Served, Rounded, NoneOf, LeastPiece;
      var wild;
      ghost var bs, brk0;
      va, wild, bs, brk0, pages, k := AllocBlockFF(requested);
    }

    /** The two calls: what they change lies in free blocks, the new pages included. */
    method FitAndFree(requested: nat) returns (va: nat, ghost pages: nat)
      requires Valid() && requested + 4112 <= WORD_LIMIT
      modifies this, mem
      ensures Valid() && blocks == GrowBy(old(blocks), old(brk), pages) && brk == old(brk) + pages * PAGE_SIZE
      ensures pages > 0 ==> NoneOf(GrowBy(old(blocks), old(brk), pages - 1), requested + 8)
      ensures va == 0 ==> NoneOf(blocks, requested + 8) && brk + 4096 > mem.Length
      ensures Tiles(blocks, start + 8, brk) && Confined(old(mem[..]), mem[..], blocks, brk)
    {
      hide Load, Tiles, Confined, FreeAddrs, Place, NoAdjacentFree, NoFit, GrowBy, Fits, FirstFit;
      hide Shape, Valid, Fresh, Cracked, Untouched, Listed, Served, Rounded, NoneOf;
      ghost var m, bs, brk0, k := mem[..], blocks, brk, 0;
      ValidIs();
      va, pages, k := FitValid(requested);
      ValidIs();
      ServedIs(va, bs, brk0, pages, k, Rounded(requested) + META);
      ghost var m1, g := mem[..], GrowBy(bs, brk0, pages);
      GrowByKeeps(bs, start + 8, brk0, pages);
      if va != 0 {
        FreePlaced(va, g, k, Rounded(requested) + META);
        ConfinedTrans(m, m1, mem[..], g, brk);
      }
    }

    /**
     * First fit followed by free_block: the old layout, but for one longer free tail if the heap had to grow, which it
     * does, page by page, only while no free block has room for the request and its 8 bytes of tags.
     */
    method AllocThenFree(requested: nat) returns (va: nat, ghost pages: nat)
      requires Valid() && requested + 4112 <= WORD_LIMIT
      modifies this, mem
      ensures Valid()
      ensures blocks == GrowBy(old(blocks), old(brk), pages)
      ensures pages > 0 ==> forall b | b in GrowBy(old(blocks), old(brk), pages - 1) && b.free :: b.size < requested + 8
      ensures (exists b :: b in old(blocks) && b.free && requested + 8 <= b.size) ==> va != 0 && blocks == old(blocks)
      ensures va == 0 ==> (forall b | b in blocks && b.free :: b.size < requested + 8) && brk + 4096 > mem.Length
      ensures forall b | b in old(blocks) && !b.free :: SameOn(old(mem[..]), mem[..], b.va, b.va + b.size - META)
    {
      hide Load, Tiles, Confined, FreeAddrs, SameOn, NoAdjacentFree, NoFit, GrowBy, Fits, Rounded, Shape, Valid;
      ghost var m, bs, brk0 := mem[..], blocks, brk;
      va, pages := FitAndFree(requested);
      SmallestIs(bs, requested + 8);
      if pages > 0 { SmallestIs(GrowBy(bs, brk0, pages - 1), requested + 8); }
      NoNeedToGrow(bs, brk0, pages, requested + 8);
      PayloadsStay(m, mem[..], bs, start + 8, brk0, pages);
    }
  }

  // ----- three short runs -----

  /** A heap of one page, with room for `pages` in all. */
  method OnePage(pages: nat) returns (h: Heap)
    requires 1 <= pages <= 8
    ensures fresh(h) && fresh(h.mem) && h.Fresh() && h.blocks == [Block(24, 4088, true)] && h.start == 16
    ensures h.brk == 16 + PAGE_SIZE && h.mem.Length == 16 + pages * PAGE_SIZE
  {
    var memory := new byte[16 + pages * PAGE_SIZE](_ => 0);
    h := new Heap(memory, 16);
    ghost var m := memory[..];
    var daStart := h.Sbrk(1);
    hide Load, Linked, Tiles, AllTagged, NoAdjacentFree;
    StoredElse(m, memory[..], h.brk - 4, 1);
    hide Stored;
    ZeroWord(memory[..], 24);
    ZeroWord(memory[..], 28);
    h.InitializeDynamicAllocator(daStart, PAGE_SIZE);
  }

  /** Asked for more than it holds, the heap loses its first block. */
  method LoseBlock() returns (h: Heap, va: nat)
    ensures fresh(h) && h.Cracked() && !h.Valid() && h.blocks != [] && h.blocks[0] == Block(24, 4088, true)
    ensures forall l :: !(Linked(h.mem[..], l) && h.Heads(l))
  {
    h := OnePage(3);
    hide Load, Linked, Tiles, AllTagged, NoAdjacentFree;
    h.Modes();
    var wild;
    ghost var bs, brk0, pages, k;
    va, wild, bs, brk0, pages, k := h.AllocBlockFF(5000);
    h.LostBlock();
  }

  /** A request for a whole page takes the page behind the lost block. */
  method TakePage(h: Heap) returns (va: nat)
    requires h.Fresh() && h.blocks == [Block(24, 4088, true)] && h.start == 16 && h.brk == 16 + PAGE_SIZE
    requires 16 + 2 * PAGE_SIZE <= h.mem.Length
    modifies h, h.mem
    ensures h.Cracked() && va == 16 + PAGE_SIZE && h.brk == 16 + 2 * PAGE_SIZE
    ensures h.blocks == [Block(24, 4088, true), Block(va, PAGE_SIZE, false)]
  {
    hide Load, Linked, Tiles, AllTagged, NoAdjacentFree;
    h.Modes();
    var wild;
    ghost var bs, brk0, pages, k;
    va, wild, bs, brk0, pages, k := h.AllocBlockFF(4088);
    h.ListedIs();
    PageGrown(16 + PAGE_SIZE, pages);
  }

  /** From nothing, one page is what a request for a whole page needs. */
  lemma PageGrown(brk: nat, pages: nat)
    requires pages > 0 ==> NoFit(GrowBy([], brk, pages - 1), PAGE_SIZE)
    ensures pages <= 1 && GrowBy([], brk, 0) == [] && GrowBy([], brk, 1) == [Block(brk, PAGE_SIZE, true)]
    ensures Place([Block(brk, PAGE_SIZE, true)], 0, PAGE_SIZE) == [Block(brk, PAGE_SIZE, false)]
  {
    var page := Block(brk, PAGE_SIZE, true);
    assert Grow([], brk) == [page];
    assert GrowBy([page], brk + PAGE_SIZE, 0) == [page];
    assert page in [page] && Fits(page, PAGE_SIZE);
    if pages >= 2 {
      assert GrowBy([], brk, pages - 1) == GrowBy([page], brk + PAGE_SIZE, pages - 2);
      hide GrowBy;
      StillFits([page], brk + PAGE_SIZE, pages - 2, PAGE_SIZE);
    }
  }

  /** The heap loses its first block, and freeing the block behind it brings that back. */
  method RepairBlock() returns (h: Heap)
    ensures fresh(h) && h.Valid() && h.blocks == [Block(24, 4088 + PAGE_SIZE, true)]
  {
    h := OnePage(2);
    var va := TakePage(h);
    hide Load, Linked, Tiles, AllTagged, NoAdjacentFree;
    ghost var bs := h.blocks;
    h.FreeBlock(va, 1);
    TwoMerged(bs[0], bs[1]);
  }

  lemma TwoMerged(a: Block, b: Block)
    requires a.free
    ensures Release([a, b], 1) == [Block(a.va, a.size + b.size, true)]
  {
    assert [a, b][0..2][1..][1..] == [] && [a, b][0..2][1..] == [b];
    assert Span([b]) == b.size;
  }

  /** A further request for 5000 bytes takes two pages and leaves a free rest. */
  method TakeMore(h: Heap) returns (va: nat)
    requires h.Cracked() && |h.blocks| == 2 && !h.blocks[1].free && h.brk + 2 * PAGE_SIZE == h.mem.Length
    modifies h, h.mem
    ensures h.Cracked()
    ensures var a, b, end := old(h.blocks[0]), old(h.blocks[1]), old(h.brk);
            h.blocks == [a, b, Block(end, 5008, false), Block(end + 5008, 2 * PAGE_SIZE - 5008, true)]
  {
    hide Load, Linked, Tiles, AllTagged, NoAdjacentFree, Heap.Served, FirstFit, GrowBy, Place, NoFit, FreeAddrs;
    hide Heap.Valid, Heap.Fresh, Heap.Cracked, Heap.Listed, Confined;
    h.Modes();
    h.ListedIs();
    assert h.blocks[1..] == [h.blocks[1]];
    ghost var behind := h.blocks[1];
    var wild;
    ghost var bs, brk0, pages, k;
    va, wild, bs, brk0, pages, k := h.AllocBlockFF(5000);
    h.Modes();
    h.ListedIs();
    h.ServedIs(va, bs, brk0, pages, k, 5008);
    TwoPagesTaken(behind, brk0, pages, k);
    assert h.blocks == [h.blocks[0]] + h.Listed();
  }

  /** The same with such a request in between: freeing the block behind the lost one drops the rest from the list. */
  method SpoilHeap() returns (h: Heap)
    ensures fresh(h) && !h.Valid() && forall l :: !(Linked(h.mem[..], l) && h.Heads(l))
  {
    h := OnePage(4);
    var a := TakePage(h);
    var b := TakeMore(h);
    hide Load, Linked, Tiles, AllTagged, NoAdjacentFree, FreeAddrs, Confined, Release;
    hide Heap.Valid, Heap.Fresh, Heap.Cracked, Heap.Shape, Heap.Mended, Heap.Heads;
    assert h.blocks[3].free;
    h.FreeBlock(a, 1);
  }

  lemma TwoPagesTaken(b: Block, brk: nat, pages: nat, k: nat)
    requires !b.free && (pages > 0 ==> NoFit(GrowBy([b], brk, pages - 1), 5008))
    ensures pages <= 2
    ensures var g := GrowBy([b], brk, pages);
            && (pages == 2 ==> !NoFit(g, 5008))
            && (k < |g| && g[k].free && 5008 <= g[k].size ==>
                  pages == 2
                  && Place(g, k, 5008) == [b, Block(brk, 5008, false), Block(brk + 5008, 2 * PAGE_SIZE - 5008, true)])
  {
    TwoPagesGrown(b, brk, pages);
    assert Fits([b, Block(brk, 2 * PAGE_SIZE, true)][1], 5008);
  }

  /** Behind an allocated block, two pages are what a request for 5008 bytes needs; it leaves a rest. */
  lemma TwoPagesGrown(b: Block, brk: nat, pages: nat)
    requires !b.free && (pages > 0 ==> NoFit(GrowBy([b], brk, pages - 1), 5008))
    ensures pages <= 2 && GrowBy([b], brk, 0) == [b]
    ensures GrowBy([b], brk, 1) == [b, Block(brk, PAGE_SIZE, true)]
    ensures GrowBy([b], brk, 2) == [b, Block(brk, 2 * PAGE_SIZE, true)]
    ensures Place([b, Block(brk, 2 * PAGE_SIZE, true)], 1, 5008)
            == [b, Block(brk, 5008, false), Block(brk + 5008, 2 * PAGE_SIZE - 5008, true)]
  {
    var one, two := Block(brk, PAGE_SIZE, true), Block(brk, 2 * PAGE_SIZE, true);
    assert Grow([b], brk) == [b, one] && Grow([b, one], brk + PAGE_SIZE) == [b, two];
    assert GrowBy([b, two], brk + 2 * PAGE_SIZE, 0) == [b, two];
    assert GrowBy([b, one], brk + PAGE_SIZE, 1) == [b, two];
    assert two in [b, two] && Fits(two, 5008);
    if pages >= 3 {
      assert GrowBy([b], brk, pages - 1) == GrowBy([b, two], brk + 2 * PAGE_SIZE, pages - 3);
      StillFits([b, two], brk + 2 * PAGE_SIZE, pages - 3, 5008);
    }
  }
}
