/** The block layout of the heap: what the boundary tags in memory stand for. */
module Blocks {
  import opened Mmu

  /** A block by the address of its payload and its size, header and footer included. */
  datatype Block = Block(va: nat, size: nat, free: bool)

  const META: nat := 8            // header word and footer word
  const MIN_TOTAL: nat := 16      // smallest payload, 8 bytes, and the tags

  function EvenUp(n: nat): nat {
    n + n % 2
  }

  /** The blocks lie one after another from `lo` to `hi`, each with an even size of at least 16. */
  ghost predicate Tiles(bs: seq<Block>, lo: nat, hi: nat) {
    if bs == [] then lo == hi
    else
      && bs[0].va == lo && MIN_TOTAL <= bs[0].size && bs[0].size % 2 == 0
      && Tiles(bs[1..], lo + bs[0].size, hi)
  }

  ghost predicate NoAdjacentFree(bs: seq<Block>) {
    forall i | 0 <= i < |bs| - 1 :: !(bs[i].free && bs[i + 1].free)
  }

  /** The payload addresses of the free blocks, in block order. */
  function FreeAddrs(bs: seq<Block>): seq<nat> {
    if bs == [] then []
    else (if bs[0].free then [bs[0].va] else []) + FreeAddrs(bs[1..])
  }

  /** Index of the first free block at or after `k`, or |bs| if there is none. */
  function NextFree(bs: seq<Block>, k: nat): (j: nat)
    requires k <= |bs|
    ensures k <= j <= |bs| && (j < |bs| ==> bs[j].free)
    ensures forall i | k <= i < j :: !bs[i].free
    decreases |bs| - k
  {
    if k == |bs| || bs[k].free then k else NextFree(bs, k + 1)
  }

  ghost predicate Fits(b: Block, need: nat) {
    b.free && need <= b.size
  }

  ghost predicate NoFit(bs: seq<Block>, need: nat) {
    forall i | 0 <= i < |bs| :: !Fits(bs[i], need)
  }

  /** Block `k` is the first one that fits; by the tiling it is the one at the lowest address. */
  ghost predicate FirstFit(bs: seq<Block>, k: nat, need: nat) {
    k < |bs| && Fits(bs[k], need) && NoFit(bs[..k], need)
  }

  /** Block `k` is the first among the smallest blocks that fit. */
  ghost predicate BestFit(bs: seq<Block>, k: nat, need: nat) {
    && k < |bs| && Fits(bs[k], need)
    && (forall i | 0 <= i < |bs| && Fits(bs[i], need) :: bs[k].size <= bs[i].size)
    && (forall i | 0 <= i < k && Fits(bs[i], need) :: bs[k].size < bs[i].size)
  }

  // ----- the operations on layouts -----

  /** Block `k` cut for a request of `need` bytes: whole if fewer than 16 bytes would remain. */
  function Carve(b: Block, need: nat): seq<Block>
    requires need <= b.size
  {
    if b.size - need < 2 * 8 then [b.(free := false)]
    else [Block(b.va, need, false), Block(b.va + need, b.size - need, true)]
  }

  function Place(bs: seq<Block>, k: nat, need: nat): (r: seq<Block>)
    requires k < |bs| && need <= bs[k].size
    ensures k < |r|
  {
    bs[..k] + Carve(bs[k], need) + bs[k + 1..]
  }

  /** First block of the free run that appears when block `k` is freed. */
  function RunStart(bs: seq<Block>, k: nat): (i: nat)
    requires k < |bs|
    ensures i <= k
  {
    if k > 0 && bs[k - 1].free then k - 1 else k
  }

  /** One past the last block of that run. */
  function RunEnd(bs: seq<Block>, k: nat): (i: nat)
    requires k < |bs|
    ensures k < i <= |bs|
  {
    if k + 1 < |bs| && bs[k + 1].free then k + 2 else k + 1
  }

  function Span(bs: seq<Block>): nat {
    if bs == [] then 0 else bs[0].size + Span(bs[1..])
  }

  /** The layout after block `k` is freed and merged with its free neighbours. */
  function Release(bs: seq<Block>, k: nat): seq<Block>
    requires k < |bs|
  {
    var i, j := RunStart(bs, k), RunEnd(bs, k);
    bs[..i] + [Block(bs[i].va, Span(bs[i..j]), true)] + bs[j..]
  }

  /** The layout after the break moved up one page from `brk`. */
  function Grow(bs: seq<Block>, brk: nat): seq<Block> {
    if bs != [] && bs[|bs| - 1].free
    then bs[..|bs| - 1] + [bs[|bs| - 1].(size := bs[|bs| - 1].size + PAGE_SIZE)]
    else bs + [Block(brk, PAGE_SIZE, true)]
  }

  function GrowBy(bs: seq<Block>, brk: nat, pages: nat): seq<Block>
    decreases pages
  {
    if pages == 0 then bs else GrowBy(Grow(bs, brk), brk + PAGE_SIZE, pages - 1)
  }

  lemma PlaceWhole(bs: seq<Block>, k: nat, need: nat)
    requires k < |bs| && need <= bs[k].size < need + 2 * 8
    ensures Place(bs, k, need) == Place(bs, k, bs[k].size)
  {
  }

  // ----- tiling -----

  lemma {:induction false} TilesConcat(a: seq<Block>, b: seq<Block>, lo: nat, mid: nat, hi: nat)
    requires Tiles(a, lo, mid) && Tiles(b, mid, hi)
    ensures Tiles(a + b, lo, hi)
  {
    if a == [] {
      assert a + b == b;
    } else {
      TilesConcat(a[1..], b, lo + a[0].size, mid, hi);
      assert (a + b)[1..] == a[1..] + b;
    }
  }

  /** Cutting a tiling before block `k`. */
  lemma {:induction false} TilesCut(bs: seq<Block>, k: nat, lo: nat, hi: nat) returns (mid: nat)
    requires Tiles(bs, lo, hi) && k <= |bs|
    ensures Tiles(bs[..k], lo, mid) && Tiles(bs[k..], mid, hi)
    ensures k < |bs| ==> mid == bs[k].va
    ensures k == |bs| ==> mid == hi
  {
    if k == 0 {
      mid := lo;
    } else {
      mid := TilesCut(bs[1..], k - 1, lo + bs[0].size, hi);
      assert bs[..k][1..] == bs[1..][..k - 1];
      assert bs[k..] == bs[1..][k - 1..];
    }
  }

  lemma {:induction false} TilesBounds(bs: seq<Block>, lo: nat, hi: nat)
    requires Tiles(bs, lo, hi)
    ensures lo <= hi
    ensures forall b | b in bs :: lo <= b.va && b.va + b.size <= hi && MIN_TOTAL <= b.size && b.size % 2 == 0
    ensures forall i, j | 0 <= i < j < |bs| :: bs[i].va + bs[i].size <= bs[j].va
  {
    if bs != [] {
      TilesBounds(bs[1..], lo + bs[0].size, hi);
      assert bs == [bs[0]] + bs[1..];
      forall i, j | 0 <= i < j < |bs| ensures bs[i].va + bs[i].size <= bs[j].va {
        assert bs[j] == bs[1..][j - 1];
        if i > 0 {
          assert bs[i] == bs[1..][i - 1];
        } else {
          assert bs[j] in bs[1..];
        }
      }
    }
  }

  /** Replacing a stretch of a tiling by another tiling of the same range. */
  lemma TilesReplace(bs: seq<Block>, i: nat, j: nat, x: seq<Block>, lo: nat, hi: nat, a: nat, b: nat)
    requires Tiles(bs, lo, hi) && i <= j <= |bs|
    requires Tiles(bs[..i], lo, a) && Tiles(x, a, b) && Tiles(bs[j..], b, hi)
    ensures Tiles(bs[..i] + x + bs[j..], lo, hi)
  {
    TilesConcat(bs[..i], x, lo, a, b);
    TilesConcat(bs[..i] + x, bs[j..], lo, b, hi);
  }

  lemma {:induction false} SpanTiles(bs: seq<Block>, lo: nat, hi: nat)
    requires Tiles(bs, lo, hi)
    ensures hi == lo + Span(bs)
    ensures Span(bs) % 2 == 0
  {
    if bs != [] {
      SpanTiles(bs[1..], lo + bs[0].size, hi);
    }
  }

  // ----- the free addresses -----

  lemma {:induction false} FreeAddrsConcat(a: seq<Block>, b: seq<Block>)
    ensures FreeAddrs(a + b) == FreeAddrs(a) + FreeAddrs(b)
  {
    if a == [] {
      assert a + b == b;
    } else {
      var head := if a[0].free then [a[0].va] else [];
      assert (a + b)[0] == a[0] && (a + b)[1..] == a[1..] + b;
      assert FreeAddrs(a + b) == head + FreeAddrs(a[1..] + b) && FreeAddrs(a) == head + FreeAddrs(a[1..]);
      hide FreeAddrs;
      FreeAddrsConcat(a[1..], b);
    }
  }

  lemma FreeAddrsFirst(bs: seq<Block>)
    requires bs != []
    ensures FreeAddrs(bs) == (if bs[0].free then [bs[0].va] else []) + FreeAddrs(bs[1..])
  {
  }

  lemma FreeAddrsAt(bs: seq<Block>, k: nat)
    requires k < |bs|
    ensures FreeAddrs(bs) == FreeAddrs(bs[..k]) + (if bs[k].free then [bs[k].va] else []) + FreeAddrs(bs[k + 1..])
  {
    hide FreeAddrs;
    assert bs == bs[..k] + bs[k..];
    FreeAddrsConcat(bs[..k], bs[k..]);
    FreeAddrsFirst(bs[k..]);
    assert bs[k..][1..] == bs[k + 1..];
  }

  lemma {:induction false} FreeAddrsNext(bs: seq<Block>, k: nat)
    requires k <= |bs|
    ensures var j := NextFree(bs, k);
            && FreeAddrs(bs[..j]) == FreeAddrs(bs[..k])
            && FreeAddrs(bs[k..]) == FreeAddrs(bs[j..])
            && (j == |bs| <==> FreeAddrs(bs[k..]) == [])
            && (j < |bs| ==> FreeAddrs(bs[k..]) == [bs[j].va] + FreeAddrs(bs[j + 1..]))
    decreases |bs| - k
  {
    if k < |bs| {
      assert bs[k..][1..] == bs[k + 1..];
      if !bs[k].free {
        FreeAddrsNext(bs, k + 1);
        FreeAddrsConcat(bs[..k], [bs[k]]);
        assert bs[..k + 1] == bs[..k] + [bs[k]];
        assert FreeAddrs([bs[k]]) == [];
        assert FreeAddrs(bs[..k + 1]) == FreeAddrs(bs[..k]);
      }
    }
  }

  lemma {:induction false} FreeAddrsOf(bs: seq<Block>)
    ensures forall y | y in FreeAddrs(bs) :: exists b :: b in bs && b.free && b.va == y
  {
    if bs != [] {
      FreeAddrsOf(bs[1..]);
      assert bs == [bs[0]] + bs[1..];
      forall y | y in FreeAddrs(bs) ensures exists b :: b in bs && b.free && b.va == y {
        if y in FreeAddrs(bs[1..]) {
          var b :| b in bs[1..] && b.free && b.va == y;
          assert b in bs;
        } else {
          assert bs[0] in bs && bs[0].free && bs[0].va == y;
        }
      }
    }
  }

  // ----- what the operations keep -----

  lemma NoAdjacentSplice(a: seq<Block>, x: seq<Block>, b: seq<Block>)
    requires NoAdjacentFree(a) && NoAdjacentFree(x) && NoAdjacentFree(b) && x != []
    requires a != [] ==> !(a[|a| - 1].free && x[0].free)
    requires b != [] ==> !(x[|x| - 1].free && b[0].free)
    ensures NoAdjacentFree(a + x + b)
  {
    var s := a + x + b;
    forall i | 0 <= i < |s| - 1 ensures !(s[i].free && s[i + 1].free) {
      if i + 1 < |a| {
        assert s[i] == a[i] && s[i + 1] == a[i + 1];
      } else if |a| <= i && i + 1 < |a| + |x| {
        assert s[i] == x[i - |a|] && s[i + 1] == x[i + 1 - |a|];
      } else if |a| + |x| <= i {
        assert s[i] == b[i - |a| - |x|] && s[i + 1] == b[i + 1 - |a| - |x|];
      }
    }
  }

  lemma TilesLegal(bs: seq<Block>, k: nat, lo: nat, hi: nat)
    requires k < |bs|
    ensures Tiles(bs, lo, hi) ==> MIN_TOTAL <= bs[k].size && bs[k].size % 2 == 0
  {
    if Tiles(bs, lo, hi) {
      TilesBounds(bs, lo, hi);
      assert bs[k] in bs;
    }
  }

  /** Cutting a free block keeps the layout well formed exactly when the piece cut off is a legal block. */
  lemma PlaceKeepsExactly(bs: seq<Block>, k: nat, need: nat, lo: nat, hi: nat)
    requires Tiles(bs, lo, hi) && NoAdjacentFree(bs)
    requires k < |bs| && bs[k].free && need <= bs[k].size
    ensures NoAdjacentFree(Place(bs, k, need))
    ensures Tiles(Place(bs, k, need), lo, hi)
            <==> bs[k].size - need < 2 * 8 || (MIN_TOTAL <= need && need % 2 == 0)
  {
    var b, c, after := bs[k], Carve(bs[k], need), Place(bs, k, need);
    TilesBounds(bs, lo, hi);
    assert b in bs;
    if b.size - need < 2 * 8 || (MIN_TOTAL <= need && need % 2 == 0) {
      CarveTiles(b, need);
      hide Tiles, Carve;
      TilesAround(bs, k, lo, hi);
      TilesReplace(bs, k, k + 1, c, lo, hi, b.va, b.va + b.size);
    } else {
      assert after[k] == c[0];
      hide Tiles;
      TilesLegal(after, k, lo, hi);
    }
    if k + 1 < |bs| { assert bs[k + 1..][0] == bs[k + 1]; }
    NoAdjacentSplice(bs[..k], c, bs[k + 1..]);
  }

  /** The pieces of a block tile it. */
  lemma CarveTiles(b: Block, need: nat)
    requires need <= b.size && MIN_TOTAL <= b.size && b.size % 2 == 0
    requires b.size - need < 2 * 8 || (MIN_TOTAL <= need && need % 2 == 0)
    ensures Tiles(Carve(b, need), b.va, b.va + b.size)
  {
    var c := Carve(b, need);
    if |c| == 2 {
      assert Tiles([c[1]], b.va + need, b.va + b.size) by { assert [c[1]][1..] == []; }
      assert c[1..] == [c[1]];
    } else {
      assert c[1..] == [];
    }
  }

  lemma TilesAround(bs: seq<Block>, k: nat, lo: nat, hi: nat)
    requires Tiles(bs, lo, hi) && k < |bs|
    ensures Tiles(bs[..k], lo, bs[k].va) && Tiles(bs[k + 1..], bs[k].va + bs[k].size, hi)
  {
    var mid := TilesCut(bs, k, lo, hi);
    assert bs[k..][0] == bs[k] && bs[k..][1..] == bs[k + 1..];
  }

  /** A stretch of a tiling may be replaced by one block of its length. */
  lemma MergeTiles(bs: seq<Block>, i: nat, j: nat, lo: nat, hi: nat)
    requires Tiles(bs, lo, hi) && i < j <= |bs|
    ensures Tiles(bs[..i] + [Block(bs[i].va, Span(bs[i..j]), true)] + bs[j..], lo, hi)
  {
    var run := Block(bs[i].va, Span(bs[i..j]), true);
    var a := TilesCut(bs, i, lo, hi);
    var b := TilesCut(bs[i..], j - i, a, hi);
    assert bs[i..][..j - i] == bs[i..j] && bs[i..][j - i..] == bs[j..];
    SpanTiles(bs[i..j], a, b);
    TilesBounds(bs[i..j], a, b);
    assert bs[i..j][0] in bs[i..j];
    assert Tiles([run], a, b) by { assert [run][1..] == []; }
    hide Tiles, Span;
    TilesReplace(bs, i, j, [run], lo, hi, a, b);
  }

  lemma ReleaseTiles(bs: seq<Block>, k: nat, lo: nat, hi: nat)
    requires Tiles(bs, lo, hi) && k < |bs|
    ensures Tiles(Release(bs, k), lo, hi)
  {
    hide Tiles, Span;
    MergeTiles(bs, RunStart(bs, k), RunEnd(bs, k), lo, hi);
  }

  lemma ReleaseNoAdjacent(bs: seq<Block>, k: nat)
    requires NoAdjacentFree(bs) && k < |bs| && !bs[k].free
    ensures NoAdjacentFree(Release(bs, k))
  {
    var i, j := RunStart(bs, k), RunEnd(bs, k);
    if j < |bs| { assert bs[j..][0] == bs[j]; }
    NoAdjacentSplice(bs[..i], [Block(bs[i].va, Span(bs[i..j]), true)], bs[j..]);
  }

  /** Freeing keeps the layout well formed: the merged run is one block and has no free neighbour. */
  lemma ReleaseKeeps(bs: seq<Block>, k: nat, lo: nat, hi: nat)
    requires Tiles(bs, lo, hi) && NoAdjacentFree(bs) && k < |bs| && !bs[k].free
    ensures Tiles(Release(bs, k), lo, hi) && NoAdjacentFree(Release(bs, k))
  {
    ReleaseTiles(bs, k, lo, hi);
    ReleaseNoAdjacent(bs, k);
  }

  lemma GrowKeeps(bs: seq<Block>, lo: nat, brk: nat)
    requires Tiles(bs, lo, brk) && NoAdjacentFree(bs)
    ensures Tiles(Grow(bs, brk), lo, brk + PAGE_SIZE) && NoAdjacentFree(Grow(bs, brk))
  {
    var n := |bs|;
    if bs != [] && bs[n - 1].free {
      var mid := TilesCut(bs, n - 1, lo, brk);
      var t := bs[n - 1].(size := bs[n - 1].size + PAGE_SIZE);
      assert bs[n - 1..][1..] == [] && [t][1..] == [];
      TilesConcat(bs[..n - 1], [t], lo, mid, brk + PAGE_SIZE);
    } else {
      var t := Block(brk, PAGE_SIZE, true);
      assert [t][1..] == [];
      TilesConcat(bs, [t], lo, brk, brk + PAGE_SIZE);
    }
  }

  // ----- round trips -----

  /** Freeing what was just placed gives back the layout that was there before. */
  lemma ReleaseUndoesPlace(bs: seq<Block>, k: nat, need: nat)
    requires NoAdjacentFree(bs) && k < |bs| && bs[k].free && need <= bs[k].size
    ensures !Place(bs, k, need)[k].free && Place(bs, k, need)[k].va == bs[k].va
    ensures Release(Place(bs, k, need), k) == bs
  {
    var p, c := Place(bs, k, need), Carve(bs[k], need);
    assert p[k] == c[0];
    assert k > 0 ==> p[k - 1] == bs[k - 1];
    if |c| == 2 {
      assert p[k + 1] == c[1] && p[k..k + 2] == c && c[1..][1..] == [];
      assert Span(c) == bs[k].size by { assert Span(c[1..]) == c[1].size; }
      assert p[k + 2..] == bs[k + 1..];
    } else {
      assert p[k + 1..] == bs[k + 1..];
      assert k + 1 < |bs| ==> p[k + 1] == bs[k + 1];
      assert p[k..k + 1] == c && c[1..] == [];
      assert Span(c) == bs[k].size;
    }
    assert p[..k] == bs[..k];
    assert Release(p, k) == bs[..k] + [bs[k]] + bs[k + 1..];
  }

  /** Growing page by page only lengthens the tail: the old last free block, or one new free block. */
  lemma {:induction false} GrowByIsOneTail(bs: seq<Block>, brk: nat, pages: nat)
    ensures GrowBy(bs, brk, pages) ==
            if pages == 0 then bs
            else if bs != [] && bs[|bs| - 1].free
            then bs[..|bs| - 1] + [bs[|bs| - 1].(size := bs[|bs| - 1].size + pages * PAGE_SIZE)]
            else bs + [Block(brk, pages * PAGE_SIZE, true)]
    decreases pages
  {
    if pages > 0 {
      GrowByIsOneTail(Grow(bs, brk), brk + PAGE_SIZE, pages - 1);
    }
  }

  /** First fit is lowest-address fit. */
  lemma FirstFitIsLowest(bs: seq<Block>, k: nat, need: nat, lo: nat, hi: nat)
    requires Tiles(bs, lo, hi) && FirstFit(bs, k, need)
    ensures forall i | 0 <= i < |bs| && Fits(bs[i], need) :: bs[k].va <= bs[i].va
  {
    TilesBounds(bs, lo, hi);
    assert forall i | 0 <= i < k :: bs[..k][i] == bs[i];
  }

  lemma {:induction false} GrowByKeeps(bs: seq<Block>, lo: nat, brk: nat, pages: nat)
    requires Tiles(bs, lo, brk) && NoAdjacentFree(bs)
    ensures Tiles(GrowBy(bs, brk, pages), lo, brk + pages * PAGE_SIZE) && NoAdjacentFree(GrowBy(bs, brk, pages))
    decreases pages
  {
    if pages > 0 {
      GrowKeeps(bs, lo, brk);
      GrowByKeeps(Grow(bs, brk), lo, brk + PAGE_SIZE, pages - 1);
    }
  }

  /** A block that fits still fits after growth. */
  lemma StillFits(bs: seq<Block>, brk: nat, pages: nat, need: nat)
    requires exists b :: b in bs && Fits(b, need)
    ensures !NoFit(GrowBy(bs, brk, pages), need)
  {
    var b :| b in bs && Fits(b, need);
    var i :| 0 <= i < |bs| && bs[i] == b;
    GrowByIsOneTail(bs, brk, pages);
    assert Fits(GrowBy(bs, brk, pages)[i], need);
  }

  /** First fit grows only while nothing fits, so a layout in which something fits stays as it is. */
  lemma NoNeedToGrow(bs: seq<Block>, brk: nat, pages: nat, need: nat)
    requires pages > 0 ==> NoFit(GrowBy(bs, brk, pages - 1), need)
    ensures !NoFit(bs, need) ==> GrowBy(bs, brk, pages) == bs
  {
    if pages > 0 && !NoFit(bs, need) {
      var i :| 0 <= i < |bs| && Fits(bs[i], need);
      assert bs[i] in bs;
      StillFits(bs, brk, pages - 1, need);
    }
  }

  lemma AllocatedStays(bs: seq<Block>, brk: nat, pages: nat, b: Block)
    requires b in bs && !b.free
    ensures b in GrowBy(bs, brk, pages)
  {
    var i :| 0 <= i < |bs| && bs[i] == b;
    GrowByIsOneTail(bs, brk, pages);
    assert GrowBy(bs, brk, pages)[i] == b;
  }

  // ----- what callers get, in the numbers of the source -----

  /** The least even number of bytes that holds `size` bytes, at least 8, together with their 8 bytes of tags. */
  predicate LeastPiece(size: nat, n: nat) {
    n % 2 == 0 && 16 <= n && size + 8 <= n && (n == 16 || n < size + 10)
  }

  /** No free block of `bs` has as many as `n` bytes. */
  ghost predicate NoneOf(bs: seq<Block>, n: nat) {
    forall b | b in bs && b.free :: b.size < n
  }

  /** `n` bytes cut from the front of block `k`, or all of it if fewer than 16 would be left. */
  function CutFrom(bs: seq<Block>, k: nat, n: nat): seq<Block>
    requires k < |bs| && n <= bs[k].size
  {
    bs[..k]
    + (if bs[k].size < n + 16 then [Block(bs[k].va, bs[k].size, false)]
       else [Block(bs[k].va, n, false), Block(bs[k].va + n, bs[k].size - n, true)])
    + bs[k + 1..]
  }

  /**
   * First fit among the blocks `g` for `size` bytes: the first free block with room for them and 8 bytes more is cut
   * for `n` bytes, and nothing is answered only if there is none.
   */
  ghost predicate FirstFitAnswer(size: nat, n: nat, g: seq<Block>, va: nat, k: nat, r: seq<Block>) {
    if va == 0 then NoneOf(g, size + 8) && r == g
    else
      && k < |g| && g[k].free && size + 8 <= g[k].size && n <= g[k].size && NoneOf(g[..k], size + 8)
      && va == g[k].va && r == CutFrom(g, k, n)
      && k < |r| && r[k].va == va && !r[k].free && size <= r[k].size - 8
  }

  /** The same for best fit: the first among the smallest free blocks with room, cut for exactly `size + 8` bytes. */
  ghost predicate SmallestFree(bs: seq<Block>, k: nat, n: nat) {
    && k < |bs| && bs[k].free && n <= bs[k].size
    && (forall i | 0 <= i < |bs| && bs[i].free && n <= bs[i].size :: bs[k].size <= bs[i].size)
    && (forall i | 0 <= i < k && bs[i].free && n <= bs[i].size :: bs[k].size < bs[i].size)
  }

  /** Cut for `n` bytes, the block that best fit chooses leaves a rest. */
  ghost predicate CutsBest(bs: seq<Block>, n: nat) {
    exists j: nat :: SmallestFree(bs, j, n) && n + 16 <= bs[j].size
  }

  /** The choice of best fit is unique, so all its candidates are cut or none is. */
  lemma CutsChosen(bs: seq<Block>, k: nat, n: nat)
    requires SmallestFree(bs, k, n)
    ensures CutsBest(bs, n) <==> n + 16 <= bs[k].size
  {
  }

  lemma NeverCuts(bs: seq<Block>, n: nat)
    requires NoneOf(bs, n)
    ensures !CutsBest(bs, n)
  {
    assert forall j: nat | j < |bs| :: bs[j] in bs;
  }

  /** Blocks have even sizes, so one with room for `size` bytes has room for them rounded up. */
  lemma RoomForPiece(bs: seq<Block>, lo: nat, hi: nat, size: nat, n: nat)
    requires Tiles(bs, lo, hi) && LeastPiece(size, n)
    ensures forall b | b in bs :: n <= b.size <==> size + 8 <= b.size
  {
    TilesBounds(bs, lo, hi);
  }

  lemma NoneOfPiece(bs: seq<Block>, lo: nat, hi: nat, size: nat, n: nat)
    requires Tiles(bs, lo, hi) && LeastPiece(size, n)
    ensures NoFit(bs, n) <==> NoneOf(bs, size + 8)
  {
    RoomForPiece(bs, lo, hi, size, n);
    hide Tiles, LeastPiece;
    if NoFit(bs, n) {
      forall b | b in bs && b.free ensures b.size < size + 8 {
        var i :| 0 <= i < |bs| && bs[i] == b;
        assert !Fits(bs[i], n);
      }
    }
    if NoneOf(bs, size + 8) {
      forall i | 0 <= i < |bs| ensures !Fits(bs[i], n) {
        assert bs[i] in bs;
      }
    }
  }

  lemma AnswerIs(size: nat, n: nat, g: seq<Block>, lo: nat, hi: nat, va: nat, k: nat, r: seq<Block>)
    requires Tiles(g, lo, hi) && LeastPiece(size, n)
    requires if va != 0 then FirstFit(g, k, n) && va == g[k].va && r == Place(g, k, n) else NoFit(g, n) && r == g
    ensures FirstFitAnswer(size, n, g, va, k, r)
  {
    NoneOfPiece(g, lo, hi, size, n);
    if va != 0 {
      RoomForPiece(g, lo, hi, size, n);
      var mid := TilesCut(g, k, lo, hi);
      NoneOfPiece(g[..k], lo, mid, size, n);
      assert g[k] in g;
    }
    hide Tiles;
  }

  lemma SmallestIs(bs: seq<Block>, n: nat)
    ensures NoFit(bs, n) <==> NoneOf(bs, n)
    ensures forall k: nat :: BestFit(bs, k, n) <==> SmallestFree(bs, k, n)
    ensures forall k: nat | k < |bs| && n <= bs[k].size :: Place(bs, k, n) == CutFrom(bs, k, n)
  {
    if NoFit(bs, n) {
      forall b | b in bs && b.free ensures b.size < n {
        var i :| 0 <= i < |bs| && bs[i] == b;
        assert !Fits(bs[i], n);
      }
    }
    if NoneOf(bs, n) {
      forall i | 0 <= i < |bs| ensures !Fits(bs[i], n) {
        assert bs[i] in bs;
      }
    }
  }

  /** The bytes in free blocks. */
  function FreeBytes(bs: seq<Block>): nat {
    if bs == [] then 0 else (if bs[0].free then bs[0].size else 0) + FreeBytes(bs[1..])
  }

  lemma {:induction false} FreeBytesConcat(a: seq<Block>, b: seq<Block>)
    ensures FreeBytes(a + b) == FreeBytes(a) + FreeBytes(b)
  {
    if a == [] {
      assert a + b == b;
    } else {
      FreeBytesConcat(a[1..], b);
      assert (a + b)[1..] == a[1..] + b;
    }
  }

  /** An allocation takes its block from the free bytes and leaves every other allocated block in place. */
  lemma PlaceTakes(bs: seq<Block>, k: nat, need: nat)
    requires k < |bs| && bs[k].free && need <= bs[k].size
    ensures var r := Place(bs, k, need);
            && !r[k].free && r[k].va == bs[k].va && need <= r[k].size < need + 16
            && FreeBytes(r) == FreeBytes(bs) - r[k].size
            && forall b: Block | !b.free :: b in r <==> b in bs || b == r[k]
  {
    var c, r := Carve(bs[k], need), Place(bs, k, need);
    assert bs == bs[..k] + [bs[k]] + bs[k + 1..];
    assert r[k] == c[0];
    FreeBytesConcat(bs[..k] + c, bs[k + 1..]);
    FreeBytesConcat(bs[..k], c);
    FreeBytesConcat(bs[..k] + [bs[k]], bs[k + 1..]);
    FreeBytesConcat(bs[..k], [bs[k]]);
    assert FreeBytes([bs[k]]) == bs[k].size by { assert [bs[k]][1..] == []; }
    assert FreeBytes(c) == bs[k].size - c[0].size by {
      if |c| == 2 { assert c[1..][1..] == [] && FreeBytes(c[1..]) == c[1].size; } else { assert c[1..] == []; }
    }
    forall b: Block | !b.free ensures b in r <==> b in bs || b == r[k] {
      assert b in r <==> b in bs[..k] || b in c || b in bs[k + 1..];
      assert b in bs <==> b in bs[..k] || b == bs[k] || b in bs[k + 1..];
    }
  }

  /** The one block that a run of at most three becomes. */
  lemma RunBytes(bs: seq<Block>, k: nat)
    requires k < |bs| && !bs[k].free
    ensures var run := bs[RunStart(bs, k)..RunEnd(bs, k)];
            Span(run) == FreeBytes(run) + bs[k].size && forall b | b in run && b != bs[k] :: b.free
  {
    var i, j := RunStart(bs, k), RunEnd(bs, k);
    var a, z := bs[i..k], bs[k + 1..j];
    assert bs[i..j] == a + [bs[k]] + z;
    FreeBytesConcat(a + [bs[k]], z);
    FreeBytesConcat(a, [bs[k]]);
    SpanConcat(a + [bs[k]], z);
    SpanConcat(a, [bs[k]]);
    OneOrNone(a);
    OneOrNone(z);
    OneOrNone([bs[k]]);
  }

  lemma {:induction false} SpanConcat(a: seq<Block>, b: seq<Block>)
    ensures Span(a + b) == Span(a) + Span(b)
  {
    if a == [] {
      assert a + b == b;
    } else {
      SpanConcat(a[1..], b);
      assert (a + b)[1..] == a[1..] + b;
    }
  }

  lemma OneOrNone(a: seq<Block>)
    requires |a| <= 1
    ensures Span(a) == (if a == [] then 0 else a[0].size)
    ensures FreeBytes(a) == if a == [] || !a[0].free then 0 else a[0].size
  {
    if a != [] { assert a[1..] == []; }
  }

  /** A release gives the bytes of its block back and leaves every other allocated block in place. */
  lemma ReleaseGives(bs: seq<Block>, k: nat, lo: nat, hi: nat)
    requires Tiles(bs, lo, hi) && k < |bs| && !bs[k].free
    ensures FreeBytes(Release(bs, k)) == FreeBytes(bs) + bs[k].size
    ensures forall b: Block | !b.free :: b in Release(bs, k) <==> b in bs && b != bs[k]
  {
    var i, j := RunStart(bs, k), RunEnd(bs, k);
    var x, run, y := bs[..i], bs[i..j], bs[j..];
    var one := [Block(bs[i].va, Span(run), true)];
    assert bs == x + run + y && Release(bs, k) == x + one + y;
    RunBytes(bs, k);
    FreeBytesConcat(x + run, y);
    FreeBytesConcat(x, run);
    FreeBytesConcat(x + one, y);
    FreeBytesConcat(x, one);
    OneOrNone(one);
    TilesBounds(bs, lo, hi);
    hide Tiles, FreeBytes, Span, Release;
    forall b: Block | !b.free ensures b in x + one + y <==> b in bs && b != bs[k] {
      OnlyOnce(bs, k, i, j, b);
    }
  }

  lemma OnlyOnce(bs: seq<Block>, k: nat, i: nat, j: nat, b: Block)
    requires i <= k < j <= |bs| && forall n, m | 0 <= n < m < |bs| :: bs[n].va + bs[n].size <= bs[m].va
    requires (forall n | 0 <= n < |bs| :: bs[n].size > 0) && !b.free
    requires forall c | c in bs[i..j] && c != bs[k] :: c.free
    ensures b in bs[..i] || b in bs[j..] <==> b in bs && b != bs[k]
  {
    if b in bs && b != bs[k] {
      var n :| 0 <= n < |bs| && bs[n] == b;
      assert n < i ==> bs[..i][n] == b;
      assert j <= n ==> bs[j..][n - j] == b;
    }
    if b in bs[..i] {
      var n :| 0 <= n < i && bs[n] == b;
      assert bs[n].va < bs[k].va;
    }
    if b in bs[j..] {
      var n :| 0 <= n < |bs| - j && bs[j..][n] == b;
      assert bs[j + n] == b && bs[k].va < bs[j + n].va;
    }
  }
}
