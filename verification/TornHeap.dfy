/** Memory after a block was cut at an odd size or below 16 bytes, which best fit does when it is asked for one. */
module TornHeap {
  import opened Memory
  import opened Blocks
  import opened HeapImage
  import opened CrackedHeap

  /** The list contains a block whose header reads as allocated. */
  ghost predicate TornImage(m: seq<byte>, l: seq<nat>, x: nat) {
    Linked(m, l) && x in l && 4 <= x <= |m| && Load(m, x - 4) % 2 == 1
  }

  lemma TornSome(m: seq<byte>, l: seq<nat>, x: nat)
    requires TornImage(m, l, x)
    ensures l != []
  {
  }

  lemma EvenHeader(m: seq<byte>, bs: seq<Block>, lo: nat, brk: nat, x: nat)
    requires Part(m, bs, lo, brk) && x in FreeAddrs(bs) && 4 <= x <= |m|
    ensures Load(m, x - 4) % 2 == 0
  {
    FreeAddrsOf(bs);
    TilesBounds(bs, lo, brk);
    hide Load, Tiles, FreeAddrs, Linked;
    var b :| b in bs && b.free && b.va == x;
    assert Tagged(m, b) && b.size % 2 == 0;
  }

  /** No layout whatsoever has such a list. */
  lemma NoLayout(m: seq<byte>, l: seq<nat>, x: nat, bs: seq<Block>, lo: nat, brk: nat)
    requires TornImage(m, l, x) && |FreeAddrs(bs)| == |l| && FreeAddrs(bs)[0] == l[0]
    ensures !Part(m, bs, lo, brk)
  {
    if Part(m, bs, lo, brk) {
      SameUpTo(m, l, FreeAddrs(bs), |l|);
      assert FreeAddrs(bs)[..|l|] == FreeAddrs(bs) && l[..|l|] == l;
      hide Load, Part;
      EvenHeader(m, bs, lo, brk, x);
    }
  }

  /** No free block but the cut one begins inside it. */
  lemma BesideBlock(bs: seq<Block>, k: nat, lo: nat, hi: nat)
    requires Tiles(bs, lo, hi) && k < |bs|
    ensures forall y | y in FreeAddrs(bs) :: y <= bs[k].va || bs[k].va + bs[k].size <= y
  {
    TilesBounds(bs, lo, hi);
    FreeAddrsOf(bs);
    hide Tiles, FreeAddrs;
    forall y | y in FreeAddrs(bs) ensures y <= bs[k].va || bs[k].va + bs[k].size <= y {
      var b :| b in bs && b.va == y;
      var i :| 0 <= i < |bs| && bs[i] == b;
    }
  }

  lemma ClearApart(l: seq<nat>, q: nat, c: Block, len: nat)
    requires Apart(l, len) && Clear(l, c) && c.va !in l && q <= |l| && 0 < c.va && c.va + 8 <= len
    ensures Apart(Inserted(l, q, c.va), len)
  {
    var r := Inserted(l, q, c.va);
    forall i | 0 <= i < |r| ensures r[i] == c.va || r[i] in l {
    }
    forall i, j | 0 <= i < j < |r| ensures r[i] + 8 <= r[j] || r[j] + 8 <= r[i] {
      if i != q && j != q {
        assert r[i] == l[if i < q then i else i - 1] && r[j] == l[if j < q then j else j - 1];
      }
    }
  }

  /** The list while both parts of a block cut at any size of at least 16 are in it. */
  lemma OddPlan(bs: seq<Block>, k: nat, need: nat, lo: nat, hi: nat, len: nat)
    requires Tiles(bs, lo, hi) && 0 < lo && hi <= len && k < |bs| && bs[k].free
    requires MIN_TOTAL <= need && need + 2 * 8 <= bs[k].size
    ensures var l, at, x := FreeAddrs(bs), |FreeAddrs(bs[..k])|, bs[k].va + need;
            && at < |l| && l[at] == bs[k].va && Clear(l, Block(x, bs[k].size - need, true))
            && var r := Inserted(l, at + 1, x);
            && Apart(r, len) && InsideFree(r, bs) && r[at] == bs[k].va
            && (forall y | y in r :: y + 12 <= x || x <= y) && x in Removed(r, at) && |Removed(r, at)| == |l|
  {
    var l, at, x := FreeAddrs(bs), |FreeAddrs(bs[..k])|, bs[k].va + need;
    var c := Block(x, bs[k].size - need, true);
    PlaceWholeList(bs, k);
    FreeListClear(bs, k, c, lo, hi);
    BesideBlock(bs, k, lo, hi);
    BlockInside(bs, k, lo, hi);
    FreeAddrsApart(bs, lo, hi, len);
    FreeAddrsInside(bs, lo, hi);
    hide Tiles, FreeAddrs, Apart;
    ClearApart(l, at + 1, c, len);
    var r := Inserted(l, at + 1, x);
    assert Removed(r, at)[at] == r[at + 1] == x;
    forall y | y in r
      ensures exists b :: b in bs && b.free && b.va <= y && y + 12 <= b.va + b.size
      ensures y + 12 <= x || x <= y
    {
      if y == x {
        assert bs[k] in bs;
      } else {
        assert y in l;
      }
    }
  }

  lemma HeaderStays(m: seq<byte>, m': seq<byte>, l: seq<nat>, x: nat)
    requires OnlyLinks(m, m', l) && 4 <= x <= |m| && forall y | y in l :: y + 8 <= x - 4 || x <= y
    ensures Load(m', x - 4) == Load(m, x - 4)
  {
    LoadSame(m, m', x - 4);
  }

  /** The header of the rest survives the list operations, and nothing outside free blocks is written. */
  lemma OddDone(m: seq<byte>, m1: seq<byte>, m2: seq<byte>, m3: seq<byte>, m4: seq<byte>, bs: seq<Block>, k: nat,
      need: nat, r: seq<nat>)
    requires k < |bs| && bs[k].free && MIN_TOTAL <= need && need + 2 * 8 <= bs[k].size
    requires OnlyTags(m, m1, Block(bs[k].va, need, false))
    requires OnlyTags(m1, m2, Block(bs[k].va + need, bs[k].size - need, true))
    requires OnlyLinks(m2, m3, r) && OnlyLinks(m3, m4, r) && InsideFree(r, bs)
    requires 4 <= bs[k].va + need <= |m| && forall y | y in r :: y + 12 <= bs[k].va + need || bs[k].va + need <= y
    ensures |m2| == |m4| == |m| && Load(m4, bs[k].va + need - 4) == Load(m2, bs[k].va + need - 4)
    ensures Confined(m, m4, bs, 0)
  {
    hide Load, OnlyTags, OnlyLinks, Confined, InsideFree;
    TagsConfined(m, m1, bs, bs[k], Block(bs[k].va, need, false));
    TagsConfined(m1, m2, bs, bs[k], Block(bs[k].va + need, bs[k].size - need, true));
    LinksConfined(m2, m3, bs, r);
    LinksConfined(m3, m4, bs, r);
    ConfinedLengths(m, m1, m2, m3, m4, bs);
    HeaderStays(m2, m3, r, bs[k].va + need);
    HeaderStays(m3, m4, r, bs[k].va + need);
    ConfinedTrans(m, m1, m2, bs, 0);
    ConfinedTrans(m, m2, m3, bs, 0);
    ConfinedTrans(m, m3, m4, bs, 0);
  }

  lemma ConfinedLengths(m: seq<byte>, m1: seq<byte>, m2: seq<byte>, m3: seq<byte>, m4: seq<byte>, bs: seq<Block>)
    requires Confined(m, m1, bs, 0) && Confined(m1, m2, bs, 0) && Confined(m2, m3, bs, 0) && Confined(m3, m4, bs, 0)
    ensures |m| == |m1| == |m2| == |m3| == |m4|
  {
  }

  // ----- a block of less than 16 bytes -----

  lemma SmallWord(m: seq<byte>, a: nat)
    requires a + 4 <= |m| && Load(m, a) < 0x100
    ensures m[a] as nat == Load(m, a) && m[a + 1] == 0 && m[a + 2] == 0 && m[a + 3] == 0
  {
  }

  /** A word that a small number from its byte `j` on overlaps. */
  lemma Overlapped(m: seq<byte>, p: nat, j: nat)
    requires j < 4 && p + j + 4 <= |m| && 0 < Load(m, p + j) < 16
    ensures 0 < Load(m, p) < 0x1000_0000
  {
    SmallWord(m, p + j);
    var w := m[p + j];
    match j
    case 0 =>
    case 1 => assert m[p + 1] == w && m[p + 2] == 0 && m[p + 3] == 0;
    case 2 => assert m[p + 2] == w && m[p + 3] == 0;
    case 3 => assert m[p + 3] == w;
  }

  /** The link of the block at `blk` that its footer overlaps: the next one, or the one before. */
  function OwnLink(m: seq<byte>, blk: nat, need: nat): nat
    requires blk + 8 <= |m|
  {
    if need < 12 then Load(m, blk) else Load(m, blk + 4)
  }

  /** Once block and rest are tagged, that link is not NULL and lies below any heap. */
  lemma OwnLinkLost(m1: seq<byte>, m2: seq<byte>, blk: nat, need: nat, rest: Block)
    requires 8 < need < MIN_TOTAL && blk + need + 8 <= |m1| && MIN_TOTAL <= rest.size && rest.va == blk + need
    requires Load(m1, blk + need - 8) < 16 && Load(m1, blk + need - 8) > 0 && OnlyTags(m1, m2, rest)
    ensures |m2| == |m1| && 0 < OwnLink(m2, blk, need) < 0x1000_0000
  {
    LoadSame(m1, m2, blk + need - 8);
    if need < 12 {
      Overlapped(m2, blk, need - 8);
    } else {
      Overlapped(m2, blk + 4, need - 12);
    }
  }
}
