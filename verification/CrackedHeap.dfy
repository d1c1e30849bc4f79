/**
 * Memory of a heap whose first block has dropped out of the list: what first fit still works on, and what it has lost.
 */
module CrackedHeap {
  import opened Mmu
  import opened Memory
  import opened Blocks
  import opened HeapImage

  /** The first block, from `lo` on, is tagged free but linked to nothing. */
  ghost predicate LostImage(m: seq<byte>, b: Block, lo: nat) {
    && 8 < lo == b.va && b.free && b.size % 2 == 0 && Tagged(m, b)
    && Load(m, b.va) == 0 && Load(m, b.va + 4) == 0
  }

  /** What is not written below the end of the lost block leaves it as it was. */
  lemma LostKept(m: seq<byte>, m': seq<byte>, b: Block, lo: nat)
    requires LostImage(m, b, lo) && SameOn(m, m', 0, b.va + b.size - 4)
    ensures LostImage(m', b, lo) && Load(m', lo - 8) == Load(m, lo - 8)
  {
    hide Load;
    TaggedFrame(m, m', b);
    LoadSame(m, m', b.va);
    LoadSame(m, m', b.va + 4);
    LoadSame(m, m', lo - 8);
  }

  /** The one block of a heap just initialised, once it is out of the list. */
  lemma FreshLost(m: seq<byte>, bs: seq<Block>, lo: nat, brk: nat)
    requires Part(m, bs, lo, brk) && |bs| == 1 && bs[0].free
    ensures LostImage(m, bs[0], lo) && bs[0].va + bs[0].size == brk && Part(m, [], brk, brk) && FreeAddrs([]) == []
  {
    hide Load, Linked;
    AloneTiles(bs, lo, brk);
    assert bs == [bs[0]];
    FreeAddrsPair(bs[0], bs[0]);
    LinkWords(m, [bs[0].va], 0);
    AllTaggedAt(m, bs, 0);
    EmptyPart(m, brk);
  }

  /** The lost block and the rest as one layout. */
  lemma WholeLayout(m: seq<byte>, bs: seq<Block>, lo: nat, brk: nat)
    requires bs != [] && LostImage(m, bs[0], lo) && Part(m, bs[1..], lo + bs[0].size, brk)
    ensures Tiles(bs, lo, brk) && AllTagged(m, bs) && Linked(m, [bs[0].va])
    ensures FreeAddrs(bs) == [bs[0].va] + FreeAddrs(bs[1..])
    ensures |bs| > 1 && !bs[1].free ==> Layout(m, bs, lo, brk)
  {
    hide Load, Tagged;
    TaggedWord(m, bs[0]);
    assert bs == [bs[0]] + bs[1..];
    assert LinkAt(m, [bs[0].va], 0);
    if |bs| > 1 && !bs[1].free {
      forall i | 0 <= i < |bs| - 1 ensures !(bs[i].free && bs[i + 1].free) {
        if i > 0 { assert bs[1..][i - 1] == bs[i] && bs[1..][i] == bs[i + 1]; }
      }
    }
  }

  /** Links and first element determine a list as far as it goes. */
  lemma {:induction false} SameUpTo(m: seq<byte>, l: seq<nat>, r: seq<nat>, n: nat)
    requires Linked(m, l) && Linked(m, r) && n <= |l| && n <= |r| && (n > 0 ==> l[0] == r[0])
    ensures l[..n] == r[..n]
  {
    if n > 1 {
      SameUpTo(m, l, r, n - 1);
      assert l[..n - 1][n - 2] == r[..n - 1][n - 2];
      LinkWords(m, l, n - 2);
      LinkWords(m, r, n - 2);
      assert l[..n] == l[..n - 1] + [l[n - 1]] && r[..n] == r[..n - 1] + [r[n - 1]];
    }
  }

  /** No list is longer by one than another that starts like it. */
  lemma NoLonger(m: seq<byte>, r: seq<nat>, l: seq<nat>)
    requires Linked(m, r) && |l| == |r| + 1 && l[0] == if r == [] then 0 else r[0]
    ensures !Linked(m, l)
  {
    hide Load;
    if Linked(m, l) {
      LinkedApart(m, l);
      if r != [] {
        SameUpTo(m, l, r, |r|);
        assert l[..|r|][|r| - 1] == r[..|r|][|r| - 1];
        LinkWords(m, l, |r| - 1);
        LinkWords(m, r, |r| - 1);
      }
    }
  }

  // ----- writes that miss a tag or a link -----

  /** A word written behind the old break leaves the header of the block at `x`. */
  lemma WordKeepsTag(m: seq<byte>, m': seq<byte>, x: nat, brk: nat)
    requires Stored(m, m', brk + PAGE_SIZE - 4, 1) && (x == 0 || (4 <= x && x <= brk))
    ensures |m'| == |m| && (x != 0 ==> x <= |m| && SizeAt(m', x) == SizeAt(m, x))
  {
    hide Load;
  }

  /** The tags of `c` miss the links of `l`. */
  ghost predicate Clear(l: seq<nat>, c: Block) {
    MIN_TOTAL <= c.size && forall y | y in l :: y + 12 <= c.va || y == c.va || c.va + c.size <= y
  }

  /** The tags of a free block, and of a piece of it, miss the links of the free list. */
  lemma FreeListClear(bs: seq<Block>, k: nat, c: Block, lo: nat, hi: nat)
    requires Tiles(bs, lo, hi) && k < |bs| && MIN_TOTAL <= c.size
    requires c.va == bs[k].va || bs[k].va + MIN_TOTAL <= c.va
    requires c.va + c.size <= bs[k].va + bs[k].size
    ensures Clear(FreeAddrs(bs), c)
  {
    TilesBounds(bs, lo, hi);
    FreeAddrsOf(bs);
    hide Tiles, FreeAddrs;
    forall y | y in FreeAddrs(bs) ensures y + 12 <= c.va || y == c.va || c.va + c.size <= y {
      var b :| b in bs && b.va == y;
      var i :| 0 <= i < |bs| && bs[i] == b;
    }
  }

  lemma ApartPositive(l: seq<nat>, len: nat)
    requires Apart(l, len) && l != []
    ensures 0 < l[|l| - 1]
  {
  }

  lemma TagsMissLinks(m: seq<byte>, m': seq<byte>, l: seq<nat>, c: Block)
    requires Linked(m, l) && OnlyTags(m, m', c) && Clear(l, c)
    ensures Linked(m', l)
  {
    hide Load;
    forall i | 0 <= i < |m| && InLinks(l, i) ensures m'[i] == m[i] {
      var y :| y in l && y <= i < y + 8;
    }
    LinkedFrame(m, m', l);
  }

  lemma WordMissesLinks(m: seq<byte>, m': seq<byte>, l: seq<nat>, a: nat)
    requires Linked(m, l) && Stored(m, m', a, 1) && forall y | y in l :: y + 8 <= a
    ensures Linked(m', l)
  {
    hide Load;
    forall i | 0 <= i < |m| && InLinks(l, i) ensures m'[i] == m[i] {
      var y :| y in l && y <= i < y + 8;
    }
    LinkedFrame(m, m', l);
  }

  lemma TailApart(l: seq<nat>, x: nat, len: nat)
    requires Apart(l, len) && 0 < x && x + 8 <= len && forall y | y in l :: y + 8 <= x
    ensures Apart(Inserted(l, |l|, x), len) && Inserted(l, |l|, x) == l + [x]
  {
    assert Inserted(l, |l|, x) == l + [x];
    assert forall i | 0 <= i < |l| :: l[i] in l;
  }

  // ----- freeing -----

  /** The list that goes with `bs`, which misses the first block if that is astray. */
  function ListOf(bs: seq<Block>, astray: bool): seq<nat> {
    if astray && bs != [] then FreeAddrs(bs[1..]) else FreeAddrs(bs)
  }

  lemma ListOfIs(bs: seq<Block>, astray: bool)
    requires bs != []
    ensures ListOf(bs, astray) == if astray then FreeAddrs(bs[1..]) else FreeAddrs(bs)
    ensures forall y | y in ListOf(bs, astray) :: y in FreeAddrs(bs)
  {
  }

  /** The list that the merged block enters: what is left of the old one, or nothing. */
  lemma ChainIs(m: seq<byte>, seen: seq<nat>, l: seq<nat>, q: nat, x: nat, len: nat)
    requires (seen == [] || seen == l) && Linked(m, l) && q <= |l| && Apart(Inserted(l, q, x), len)
    ensures var at := if seen == [] then 0 else q;
            && Linked(m, seen) && Apart(Inserted(seen, at, x), len)
            && (forall y | y in Inserted(seen, at, x) :: y in Inserted(l, q, x))
            && Inserted(seen, at, x) == if seen == [] then [x] else Inserted(l, q, x)
    ensures l != [] ==> l[|l| - 1] > 0
    ensures Inserted(l, 0, x) == [x] + l
  {
    hide Load;
    InsertRoom(l, q, x, len);
    assert Inserted([], 0, x) == [x];
    assert Inserted(l, q, x)[q] == x;
  }

  /** The list of a layout whose first block is astray and whose second block is being freed. */
  lemma AstrayList(bs: seq<Block>, lo: nat, brk: nat)
    requires Tiles(bs, lo, brk) && |bs| > 1 && bs[0].free && !bs[1].free
    ensures FreeAddrs(bs) == [bs[0].va] + FreeAddrs(bs[1..]) && RunStart(bs, 1) == 0
    ensures FreeAddrs(bs[1..]) == FreeAddrs(bs[..0]) + FreeAddrs(bs[2..]) && FreeAddrs(bs[..0]) == []
  {
    assert bs[1..][0] == bs[1] && bs[1..][1..] == bs[2..] && bs[..0] == [];
  }

  /** Links of an element that lies apart from a list are none of the list's. */
  lemma ApartKept(m: seq<byte>, m': seq<byte>, x: nat, l: seq<nat>, len: nat)
    requires Linked(m, l) && OnlyLinks(m, m', [x]) && Apart([x] + l, len)
    ensures Linked(m', l)
  {
    hide Load;
    var r := [x] + l;
    forall i | 0 <= i < |m| && InLinks(l, i) ensures m'[i] == m[i] {
      var y :| y in l && y <= i < y + 8;
      var n :| 0 <= n < |l| && l[n] == y;
      assert r[n + 1] == y && r[0] == x;
    }
    LinkedFrame(m, m', l);
  }

  lemma ShiftRun(bs: seq<Block>, k: nat)
    requires 2 <= k < |bs|
    ensures 1 <= RunStart(bs, k) < RunEnd(bs, k)
    ensures RunStart(bs[1..], k - 1) == RunStart(bs, k) - 1 && RunEnd(bs[1..], k - 1) == RunEnd(bs, k) - 1
  {
  }

  lemma ShiftSlices(bs: seq<Block>, i: nat, j: nat)
    requires 1 <= i < j <= |bs|
    ensures bs[1..][i - 1..j - 1] == bs[i..j] && bs[..i] == [bs[0]] + bs[1..][..i - 1] && bs[1..][j - 1..] == bs[j..]
    ensures bs[1..][i - 1] == bs[i]
  {
  }

  lemma ReleaseParts(bs: seq<Block>, k: nat, i: nat, j: nat)
    requires k < |bs| && i == RunStart(bs, k) && j == RunEnd(bs, k)
    ensures Release(bs, k) == bs[..i] + [Block(bs[i].va, Span(bs[i..j]), true)] + bs[j..]
  {
  }

  lemma InFront(a: Block, x: seq<Block>, y: seq<Block>, z: seq<Block>)
    ensures [a] + x + y + z == [a] + (x + y + z)
  {
  }

  /** Behind the lost block freeing works on the rest of the layout. */
  lemma ReleaseShift(bs: seq<Block>, k: nat)
    requires 2 <= k < |bs|
    ensures Release(bs, k) == [bs[0]] + Release(bs[1..], k - 1)
  {
    hide Release, RunStart, RunEnd, Span;
    ShiftRun(bs, k);
    var r, i, j := bs[1..], RunStart(bs, k), RunEnd(bs, k);
    ShiftSlices(bs, i, j);
    ReleaseParts(bs, k, i, j);
    ReleaseParts(r, k - 1, i - 1, j - 1);
    InFront(bs[0], r[..i - 1], [Block(bs[i].va, Span(bs[i..j]), true)], bs[j..]);
  }

  lemma ShiftConfined(m: seq<byte>, m': seq<byte>, bs: seq<Block>, k: nat)
    requires 1 <= k < |bs| && Confined(m, m', Marked(bs[1..], k - 1), 0)
    ensures Confined(m, m', Marked(bs, k), 0)
  {
    var r, b := Marked(bs[1..], k - 1), Marked(bs, k);
    assert b == [bs[0]] + r;
    forall i | 0 <= i < |m| && m'[i] != m[i] ensures InFree(b, i) {
      assert InFree(r, i);
      var c :| c in r && c.free && c.va - 4 <= i < c.va + c.size - 4;
      assert c in b;
    }
  }

  /** What stays in the list when the block behind the lost one is freed. */
  function Survivors(bs: seq<Block>): seq<nat>
    requires |bs| > 1
  {
    FreeAddrs(bs[RunEnd(bs, 1)..])
  }

  /** Nothing stays exactly if no block from index 3 on is free. */
  lemma NoSurvivors(bs: seq<Block>)
    requires |bs| > 1
    ensures Survivors(bs) == [] <==> forall i | 3 <= i < |bs| :: !bs[i].free
  {
    var j := RunEnd(bs, 1);
    NoneFree(bs[j..]);
    if Survivors(bs) == [] {
      forall i | 3 <= i < |bs| ensures !bs[i].free {
        assert bs[j..][i - j] == bs[i];
      }
    }
  }

  lemma {:induction false} NoneFree(bs: seq<Block>)
    ensures FreeAddrs(bs) == [] <==> forall i | 0 <= i < |bs| :: !bs[i].free
  {
    if bs != [] {
      NoneFree(bs[1..]);
      assert forall i | 0 < i < |bs| :: bs[i] == bs[1..][i - 1];
    }
  }
}
