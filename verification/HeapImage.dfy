/** How a heap layout and its free list are represented in memory. */
module HeapImage {
  import opened Mmu
  import opened Memory
  import opened Blocks

  // ----- boundary tags -----

  /** Size and status share one word: sizes are even, bit 0 is set for an allocated block. */
  function Tag(b: Block): nat {
    b.size + if b.free then 0 else 1
  }

  ghost predicate InTags(b: Block, i: int) {
    b.va - 4 <= i < b.va || b.va + b.size - 8 <= i < b.va + b.size - 4
  }

  /** Header and footer of `b` are both its tag. */
  ghost predicate Tagged(m: seq<byte>, b: Block) {
    && 4 <= b.va && MIN_TOTAL <= b.size && b.va + b.size - 4 <= |m|
    && Load(m, b.va - 4) == Tag(b) && Load(m, b.va + b.size - 8) == Tag(b)
  }

  ghost predicate AllTagged(m: seq<byte>, bs: seq<Block>) {
    forall b | b in bs :: Tagged(m, b)
  }

  // ----- the intrusive list -----

  function NextOf(l: seq<nat>, i: nat): nat {
    if i + 1 < |l| then l[i + 1] else 0
  }

  function PrevOf(l: seq<nat>, i: nat): nat
    requires i <= |l|
  {
    if i > 0 then l[i - 1] else 0
  }

  /** No element is NULL and the link fields of different elements do not overlap. */
  ghost predicate Apart(l: seq<nat>, len: nat) {
    && (forall i | 0 <= i < |l| :: 0 < l[i] && l[i] + 8 <= len)
    && (forall i, j | 0 <= i < j < |l| :: l[i] + 8 <= l[j] || l[j] + 8 <= l[i])
  }

  /** Element `i` holds the address of the next element and of the previous one. */
  ghost predicate LinkAt(m: seq<byte>, l: seq<nat>, i: nat)
    requires i < |l|
  {
    l[i] + 8 <= |m| && Load(m, l[i]) == NextOf(l, i) && Load(m, l[i] + 4) == PrevOf(l, i)
  }

  ghost predicate Linked(m: seq<byte>, l: seq<nat>) {
    Apart(l, |m|) && forall i: nat | i < |l| :: LinkAt(m, l, i)
  }

  lemma LinkWords(m: seq<byte>, l: seq<nat>, i: nat)
    requires Linked(m, l) && i < |l|
    ensures l[i] + 8 <= |m| && Load(m, l[i]) == NextOf(l, i) && Load(m, l[i] + 4) == PrevOf(l, i)
  {
    assert LinkAt(m, l, i);
  }

  lemma LinkedApart(m: seq<byte>, l: seq<nat>)
    requires Linked(m, l)
    ensures Apart(l, |m|)
  {
  }

  ghost predicate InLinks(l: seq<nat>, i: int) {
    exists y :: y in l && y <= i < y + 8
  }

  /** Only link fields of elements of `l` differ. */
  ghost predicate OnlyLinks(m: seq<byte>, m': seq<byte>, l: seq<nat>) {
    |m'| == |m| && forall i | 0 <= i < |m| && !InLinks(l, i) :: m'[i] == m[i]
  }

  /** Only the tags of `b` differ. */
  ghost predicate OnlyTags(m: seq<byte>, m': seq<byte>, b: Block) {
    |m'| == |m| && forall i | 0 <= i < |m| && !InTags(b, i) :: m'[i] == m[i]
  }

  /** One word was written and nothing else changed. */
  ghost predicate Stored(m: seq<byte>, m': seq<byte>, a: nat, w: nat) {
    && |m'| == |m| && a + 4 <= |m| && Load(m', a) == w
    && (forall b: nat | b + 4 <= |m| && (b + 4 <= a || a + 4 <= b) :: Load(m', b) == Load(m, b))
    && SameOn(m, m', 0, a) && SameOn(m, m', a + 4, |m|)
  }

  // ----- framing -----

  lemma LinkedFrame(m: seq<byte>, m': seq<byte>, l: seq<nat>)
    requires Linked(m, l) && |m'| == |m|
    requires forall i | 0 <= i < |m| && InLinks(l, i) :: m'[i] == m[i]
    ensures Linked(m', l)
  {
    hide Load;
    forall i: nat | i < |l| ensures LinkAt(m', l, i) {
      assert LinkAt(m, l, i);
      forall j | l[i] <= j < l[i] + 8 ensures InLinks(l, j) {
        assert l[i] in l && l[i] <= j < l[i] + 8;
      }
      LoadSame(m, m', l[i]);
      LoadSame(m, m', l[i] + 4);
    }
  }

  lemma TaggedFrame(m: seq<byte>, m': seq<byte>, b: Block)
    requires Tagged(m, b) && |m'| == |m|
    requires forall i | 0 <= i < |m| && InTags(b, i) :: m'[i] == m[i]
    ensures Tagged(m', b)
  {
    hide Load;
    LoadSame(m, m', b.va - 4);
    LoadSame(m, m', b.va + b.size - 8);
  }

  /** Every element of `l` is the payload address of some block of `bs`. */
  ghost predicate Within(l: seq<nat>, bs: seq<Block>) {
    forall y | y in l :: exists b :: b in bs && b.va == y
  }

  /** Link fields lie in payloads, so they never overlap a tag. */
  lemma TagsAvoidLinks(bs: seq<Block>, l: seq<nat>, lo: nat, hi: nat, b: Block, i: int)
    requires Tiles(bs, lo, hi) && Within(l, bs) && b in bs && InTags(b, i)
    ensures !InLinks(l, i)
  {
    TilesBounds(bs, lo, hi);
    forall y | y in l ensures !(y <= i < y + 8) {
      var c :| c in bs && c.va == y;
      var p :| 0 <= p < |bs| && bs[p] == c;
      var q :| 0 <= q < |bs| && bs[q] == b;
      assert p < q || q < p || p == q;
    }
  }

  lemma LinksKeepTags(m: seq<byte>, m': seq<byte>, bs: seq<Block>, l: seq<nat>, lo: nat, hi: nat)
    requires AllTagged(m, bs) && Tiles(bs, lo, hi) && Within(l, bs) && OnlyLinks(m, m', l)
    ensures AllTagged(m', bs)
  {
    hide Load;
    forall b | b in bs ensures Tagged(m', b) {
      forall i | 0 <= i < |m| && InTags(b, i) ensures m'[i] == m[i] {
        TagsAvoidLinks(bs, l, lo, hi, b, i);
      }
      TaggedFrame(m, m', b);
    }
  }

  lemma TagsKeepLinks(m: seq<byte>, m': seq<byte>, bs: seq<Block>, l: seq<nat>, lo: nat, hi: nat, b: Block)
    requires Linked(m, l) && Tiles(bs, lo, hi) && Within(l, bs) && b in bs && OnlyTags(m, m', b)
    ensures Linked(m', l)
  {
    hide Load;
    forall i | 0 <= i < |m| && InLinks(l, i) ensures m'[i] == m[i] {
      if InTags(b, i) { TagsAvoidLinks(bs, l, lo, hi, b, i); }
    }
    LinkedFrame(m, m', l);
  }

  /** Retagging one block leaves the tags of the others alone. */
  lemma TagsKeepTags(m: seq<byte>, m': seq<byte>, bs: seq<Block>, lo: nat, hi: nat, b: Block, c: Block)
    requires Tiles(bs, lo, hi) && b in bs && c in bs && b != c && OnlyTags(m, m', b) && Tagged(m, c)
    ensures Tagged(m', c)
  {
    hide Load;
    TilesBounds(bs, lo, hi);
    var p :| 0 <= p < |bs| && bs[p] == c;
    var q :| 0 <= q < |bs| && bs[q] == b;
    assert p < q || q < p;
    TaggedFrame(m, m', c);
  }

  // ----- list surgery -----

  /** Only the words at the addresses `ws` differ. */
  ghost predicate OnlyWords(m: seq<byte>, m': seq<byte>, ws: set<nat>) {
    && |m'| == |m|
    && (forall i | 0 <= i < |m| && (forall a | a in ws :: !(a <= i < a + 4)) :: m'[i] == m[i])
  }

  lemma WordKept(m: seq<byte>, m': seq<byte>, ws: set<nat>, b: nat)
    requires OnlyWords(m, m', ws) && b + 4 <= |m|
    requires forall a | a in ws :: b + 4 <= a || a + 4 <= b
    ensures Load(m', b) == Load(m, b)
  {
    hide Load;
    LoadSame(m, m', b);
  }

  /** The words that unlinking element `k` may write. */
  ghost function RemoveWords(l: seq<nat>, k: nat): set<nat>
    requires k < |l|
  {
    {l[k], l[k] + 4} + (if k > 0 then {l[k - 1]} else {}) + (if k + 1 < |l| then {l[k + 1] + 4} else {})
  }

  function Removed(l: seq<nat>, k: nat): (r: seq<nat>)
    requires k < |l|
    ensures |r| == |l| - 1
    ensures forall i | 0 <= i < |r| :: r[i] == l[if i < k then i else i + 1]
  {
    l[..k] + l[k + 1..]
  }

  /** An element and its neighbours lie in memory and do not overlap. */
  lemma RemoveRoom(l: seq<nat>, k: nat, len: nat)
    requires k < |l| && Apart(l, len)
    ensures 0 < l[k] && l[k] + 8 <= len
    ensures k > 0 ==> 0 < l[k - 1] && l[k - 1] + 8 <= len && (l[k - 1] + 8 <= l[k] || l[k] + 8 <= l[k - 1])
    ensures k + 1 < |l| ==> 0 < l[k + 1] && l[k + 1] + 8 <= len && (l[k + 1] + 8 <= l[k] || l[k] + 8 <= l[k + 1])
    ensures 0 < k && k + 1 < |l| ==> l[k - 1] + 8 <= l[k + 1] || l[k + 1] + 8 <= l[k - 1]
  {
  }

  /** A link field that does not name element `k` keeps its value. */
  lemma RemoveKeeps(m: seq<byte>, m': seq<byte>, l: seq<nat>, k: nat, i: nat, prev: bool)
    requires Apart(l, |m|) && k < |l| && i < |l| && i != k && OnlyWords(m, m', RemoveWords(l, k))
    requires if prev then i != k + 1 else i + 1 != k
    ensures Load(m', if prev then l[i] + 4 else l[i]) == Load(m, if prev then l[i] + 4 else l[i])
  {
    hide Load;
    WordKept(m, m', RemoveWords(l, k), if prev then l[i] + 4 else l[i]);
  }

  lemma RemoveAt(m: seq<byte>, m': seq<byte>, l: seq<nat>, k: nat, i: nat)
    requires Linked(m, l) && k < |l| && OnlyWords(m, m', RemoveWords(l, k))
    requires k > 0 ==> Load(m', l[k - 1]) == NextOf(l, k)
    requires k + 1 < |l| ==> Load(m', l[k + 1] + 4) == PrevOf(l, k)
    requires i < |Removed(l, k)|
    ensures LinkAt(m', Removed(l, k), i)
  {
    hide Load, Apart, OnlyWords;
    var j := if i < k then i else i + 1;
    assert LinkAt(m, l, j);
    assert |m'| == |m| by { SameLength(m, m', RemoveWords(l, k)); }
    if j + 1 != k { RemoveKeeps(m, m', l, k, j, false); }
    if j != k + 1 { RemoveKeeps(m, m', l, k, j, true); }
  }

  lemma SameLength(m: seq<byte>, m': seq<byte>, ws: set<nat>)
    requires OnlyWords(m, m', ws)
    ensures |m'| == |m|
  {
  }

  /** Unlinking element `k`: the fields of its neighbours that named it. */
  lemma RemoveLinked(m: seq<byte>, m': seq<byte>, l: seq<nat>, k: nat)
    requires Linked(m, l) && k < |l| && OnlyWords(m, m', RemoveWords(l, k))
    requires k > 0 ==> Load(m', l[k - 1]) == NextOf(l, k)
    requires k + 1 < |l| ==> Load(m', l[k + 1] + 4) == PrevOf(l, k)
    ensures Linked(m', Removed(l, k))
    ensures OnlyLinks(m, m', l)
  {
    hide Load, LinkAt;
    forall i: nat | i < |Removed(l, k)| ensures LinkAt(m', Removed(l, k), i) {
      RemoveAt(m, m', l, k, i);
    }
    forall i | 0 <= i < |m| && !InLinks(l, i) ensures m'[i] == m[i] {
      assert l[k] in l && !(l[k] <= i < l[k] + 8);
      if k + 1 < |l| { assert l[k + 1] in l && !(l[k + 1] <= i < l[k + 1] + 8); }
      if k > 0 { assert l[k - 1] in l && !(l[k - 1] <= i < l[k - 1] + 8); }
    }
  }

  /** The writes of LIST_REMOVE. */
  lemma RemoveStored(m: seq<byte>, m1: seq<byte>, m2: seq<byte>, m3: seq<byte>, m4: seq<byte>, l: seq<nat>, k: nat)
    requires Linked(m, l) && k < |l|
    requires if k + 1 < |l| then Stored(m, m1, l[k + 1] + 4, PrevOf(l, k)) else m1 == m
    requires if k > 0 then Stored(m1, m2, l[k - 1], NextOf(l, k)) else m2 == m1
    requires Stored(m2, m3, l[k], 0) && Stored(m3, m4, l[k] + 4, 0)
    ensures Linked(m4, Removed(l, k)) && OnlyLinks(m, m4, l)
  {
    hide Load, Linked, LinkAt, Removed, OnlyLinks;
    LinkedApart(m, l);
    RemoveRoom(l, k, |m|);
    hide Apart;
    assert k + 1 < |l| ==> Load(m2, l[k + 1] + 4) == PrevOf(l, k);
    RemoveLinked(m, m4, l, k);
  }

  /** `l` with `x` inserted as element `k`. */
  function Inserted(l: seq<nat>, k: nat, x: nat): (r: seq<nat>)
    requires k <= |l|
    ensures |r| == |l| + 1 && r[k] == x
  {
    l[..k] + [x] + l[k..]
  }

  /** The words that linking in `x` as element `k` may write. */
  ghost function InsertWords(l: seq<nat>, k: nat, x: nat): set<nat>
    requires k <= |l|
  {
    {x, x + 4} + (if k > 0 then {l[k - 1]} else {}) + (if k < |l| then {l[k] + 4} else {})
  }

  /** A link field that does not name the insertion point keeps its value. */
  lemma InsertKeeps(m: seq<byte>, m': seq<byte>, l: seq<nat>, k: nat, x: nat, i: nat, prev: bool)
    requires Apart(l, |m|) && k <= |l| && Apart(Inserted(l, k, x), |m|) && i < |l|
    requires OnlyWords(m, m', InsertWords(l, k, x))
    requires if prev then i != k else i + 1 != k
    ensures Load(m', if prev then l[i] + 4 else l[i]) == Load(m, if prev then l[i] + 4 else l[i])
  {
    hide Load;
    var r := Inserted(l, k, x);
    assert r[k] == x && r[if i < k then i else i + 1] == l[i];
    WordKept(m, m', InsertWords(l, k, x), if prev then l[i] + 4 else l[i]);
  }

  /** The new element and its neighbours lie in memory and do not overlap. */
  lemma InsertRoom(l: seq<nat>, k: nat, x: nat, len: nat)
    requires k <= |l| && Apart(Inserted(l, k, x), len)
    ensures 0 < x && x + 8 <= len
    ensures k > 0 ==> 0 < l[k - 1] && l[k - 1] + 8 <= len && (l[k - 1] + 8 <= x || x + 8 <= l[k - 1])
    ensures k < |l| ==> 0 < l[k] && l[k] + 8 <= len && (l[k] + 8 <= x || x + 8 <= l[k])
    ensures 0 < k < |l| ==> l[k - 1] + 8 <= l[k] || l[k] + 8 <= l[k - 1]
  {
    var r := Inserted(l, k, x);
    assert r[k] == x && (k > 0 ==> r[k - 1] == l[k - 1]) && (k < |l| ==> r[k + 1] == l[k]);
  }

  /** The links of `l` with `x` inserted, in terms of those of `l`. */
  lemma InsertedLinks(l: seq<nat>, k: nat, x: nat, i: nat)
    requires k <= |l| && i <= |l| && i != k
    ensures var r, j := Inserted(l, k, x), if i < k then i else i - 1;
            && r[i] == l[j]
            && NextOf(r, i) == (if j + 1 == k then x else NextOf(l, j))
            && PrevOf(r, i) == if j == k then x else PrevOf(l, j)
  {
  }

  lemma InsertAt(m: seq<byte>, m': seq<byte>, l: seq<nat>, k: nat, x: nat, i: nat)
    requires Linked(m, l) && k <= |l| && Apart(Inserted(l, k, x), |m|)
    requires OnlyWords(m, m', InsertWords(l, k, x))
    requires Load(m', x) == (if k < |l| then l[k] else 0) && Load(m', x + 4) == PrevOf(l, k)
    requires k > 0 ==> Load(m', l[k - 1]) == x
    requires k < |l| ==> Load(m', l[k] + 4) == x
    requires i <= |l|
    ensures LinkAt(m', Inserted(l, k, x), i)
  {
    hide Load, Apart, OnlyWords, Linked;
    SameLength(m, m', InsertWords(l, k, x));
    InsertRoom(l, k, x, |m|);
    if i != k {
      var j := if i < k then i else i - 1;
      InsertedLinks(l, k, x, i);
      LinkWords(m, l, j);
      LinkedApart(m, l);
      if j + 1 != k { InsertKeeps(m, m', l, k, x, j, false); }
      if j != k { InsertKeeps(m, m', l, k, x, j, true); }
    }
  }

  /** Linking in `x`: its own two fields and the fields of its neighbours that name it, in any order of writing. */
  lemma InsertLinked(m: seq<byte>, m': seq<byte>, l: seq<nat>, k: nat, x: nat)
    requires Linked(m, l) && k <= |l| && Apart(Inserted(l, k, x), |m|)
    requires OnlyWords(m, m', InsertWords(l, k, x))
    requires Load(m', x) == (if k < |l| then l[k] else 0) && Load(m', x + 4) == PrevOf(l, k)
    requires k > 0 ==> Load(m', l[k - 1]) == x
    requires k < |l| ==> Load(m', l[k] + 4) == x
    ensures Linked(m', Inserted(l, k, x))
    ensures OnlyLinks(m, m', Inserted(l, k, x))
  {
    hide Load, LinkAt;
    var r := Inserted(l, k, x);
    forall i: nat | i < |r| ensures LinkAt(m', r, i) {
      InsertAt(m, m', l, k, x, i);
    }
    forall i | 0 <= i < |m| && !InLinks(r, i) ensures m'[i] == m[i] {
      assert r[k] in r && !(x <= i < x + 8);
      if k > 0 { assert r[k - 1] == l[k - 1] && r[k - 1] in r && !(l[k - 1] <= i < l[k - 1] + 8); }
      if k < |l| { assert r[k + 1] == l[k] && r[k + 1] in r && !(l[k] <= i < l[k] + 8); }
    }
  }

  /** The writes of LIST_INSERT_BEFORE. */
  lemma InsertBeforeLinked(m: seq<byte>, m1: seq<byte>, m2: seq<byte>, m3: seq<byte>, m4: seq<byte>, l: seq<nat>,
      k: nat, x: nat)
    requires Linked(m, l) && k < |l| && Apart(Inserted(l, k, x), |m|)
    requires Stored(m, m1, x + 4, PrevOf(l, k)) && Stored(m1, m2, x, l[k])
    requires if k > 0 then Stored(m2, m3, l[k - 1], x) else m3 == m2
    requires Stored(m3, m4, l[k] + 4, x)
    ensures Linked(m4, Inserted(l, k, x)) && OnlyLinks(m, m4, Inserted(l, k, x))
  {
    hide Load, Linked, LinkAt;
    InsertRoom(l, k, x, |m|);
    hide Apart, Inserted;
    assert Load(m3, x) == l[k] && Load(m3, x + 4) == PrevOf(l, k);
    assert k > 0 ==> Load(m3, l[k - 1]) == x;
    InsertLinked(m, m4, l, k, x);
  }

  // ----- layouts and their lists -----

  lemma {:induction false} FreeAddrsSorted(bs: seq<Block>, lo: nat, hi: nat)
    requires Tiles(bs, lo, hi)
    ensures forall i | 0 <= i < |FreeAddrs(bs)| :: lo <= FreeAddrs(bs)[i] && FreeAddrs(bs)[i] + MIN_TOTAL <= hi
    ensures forall i, j | 0 <= i < j < |FreeAddrs(bs)| :: FreeAddrs(bs)[i] + MIN_TOTAL <= FreeAddrs(bs)[j]
  {
    TilesBounds(bs, lo, hi);
    if bs != [] {
      FreeAddrsSorted(bs[1..], lo + bs[0].size, hi);
    }
  }

  lemma FreeAddrsApart(bs: seq<Block>, lo: nat, hi: nat, len: nat)
    requires Tiles(bs, lo, hi) && 0 < lo && hi <= len
    ensures Apart(FreeAddrs(bs), len) && Within(FreeAddrs(bs), bs)
  {
    FreeAddrsSorted(bs, lo, hi);
    FreeAddrsOf(bs);
  }

  /** Retagging `b` leaves every other tagged block tagged. */
  lemma RetagRest(m: seq<byte>, m': seq<byte>, bs: seq<Block>, lo: nat, hi: nat, b: Block)
    requires Tiles(bs, lo, hi) && b in bs && OnlyTags(m, m', b)
    ensures forall c | c in bs && c != b && Tagged(m, c) :: Tagged(m', c)
  {
    hide Tagged;
    forall c | c in bs && c != b && Tagged(m, c) ensures Tagged(m', c) {
      TagsKeepTags(m, m', bs, lo, hi, b, c);
    }
  }

  /** Following the next field of a free block leads to the next free block. */
  lemma ScanNext(m: seq<byte>, bs: seq<Block>, k: nat)
    requires Linked(m, FreeAddrs(bs)) && k < |bs| && bs[k].free
    ensures bs[k].va + 8 <= |m|
    ensures var j := NextFree(bs, k + 1);
            Load(m, bs[k].va) == if j < |bs| then bs[j].va else 0
  {
    hide Load;
    var p := |FreeAddrs(bs[..k])|;
    FreeAddrsAt(bs, k);
    FreeAddrsNext(bs, k + 1);
    assert LinkAt(m, FreeAddrs(bs), p);
  }

  // ----- what an operation may change -----

  ghost predicate InFree(bs: seq<Block>, i: int) {
    exists b :: b in bs && b.free && b.va - 4 <= i < b.va + b.size - 4
  }

  /** Every changed byte lies in a free block of `bs`, tags included, or in the END word below `end`. */
  ghost predicate Confined(m: seq<byte>, m': seq<byte>, bs: seq<Block>, end: nat) {
    |m'| == |m| && forall i | 0 <= i < |m| && m'[i] != m[i] :: InFree(bs, i) || end - 4 <= i < end
  }

  /** Tags of a piece `c` of a free block. */
  lemma TagsConfined(m: seq<byte>, m': seq<byte>, bs: seq<Block>, b: Block, c: Block)
    requires b in bs && b.free && OnlyTags(m, m', c)
    requires b.va <= c.va && c.va + c.size <= b.va + b.size && META <= c.size
    ensures Confined(m, m', bs, 0)
  {
    forall i | 0 <= i < |m| && m'[i] != m[i] ensures InFree(bs, i) {
      assert InTags(c, i);
    }
  }

  /** Every element of `l` has its links inside some free block of `bs`. */
  ghost predicate InsideFree(l: seq<nat>, bs: seq<Block>) {
    forall y | y in l :: exists b :: b in bs && b.free && b.va <= y && y + 12 <= b.va + b.size
  }

  lemma LinksConfined(m: seq<byte>, m': seq<byte>, bs: seq<Block>, l: seq<nat>)
    requires InsideFree(l, bs) && OnlyLinks(m, m', l)
    ensures Confined(m, m', bs, 0)
  {
    forall i | 0 <= i < |m| && m'[i] != m[i] ensures InFree(bs, i) {
      assert InLinks(l, i);
      var y :| y in l && y <= i < y + 8;
      var b :| b in bs && b.free && b.va <= y && y + 12 <= b.va + b.size;
    }
  }

  lemma FreeAddrsInside(bs: seq<Block>, lo: nat, hi: nat)
    requires Tiles(bs, lo, hi)
    ensures InsideFree(FreeAddrs(bs), bs)
  {
    FreeAddrsOf(bs);
    TilesBounds(bs, lo, hi);
  }

  lemma ConfinedKeepsSentinels(m: seq<byte>, m': seq<byte>, bs: seq<Block>, lo: nat, hi: nat)
    requires Tiles(bs, lo, hi) && Confined(m, m', bs, 0) && 8 <= lo <= hi <= |m|
    ensures SameOn(m, m', 0, lo - 4) && SameOn(m, m', hi - 4, |m|)
    ensures Load(m', lo - 8) == Load(m, lo - 8) && Load(m', hi - 4) == Load(m, hi - 4)
  {
    TilesBounds(bs, lo, hi);
    LoadSame(m, m', lo - 8);
    LoadSame(m, m', hi - 4);
  }

  lemma ConfinedRefl(m: seq<byte>, bs: seq<Block>, end: nat)
    ensures Confined(m, m, bs, end)
  {
  }

  lemma ConfinedTrans(m: seq<byte>, m': seq<byte>, m'': seq<byte>, bs: seq<Block>, end: nat)
    requires Confined(m, m', bs, end) && Confined(m', m'', bs, end)
    ensures Confined(m, m'', bs, end)
  {
  }

  /** The payload of every allocated block survives a confined change. */
  lemma ConfinedKeepsPayloads(m: seq<byte>, m': seq<byte>, bs: seq<Block>, lo: nat, end: nat)
    requires Tiles(bs, lo, end) && Confined(m, m', bs, end)
    ensures forall b | b in bs && !b.free :: SameOn(m, m', b.va, b.va + b.size - META)
  {
    TilesBounds(bs, lo, end);
    forall b, i | b in bs && !b.free && 0 <= i < |m| && b.va <= i < b.va + b.size - META ensures m'[i] == m[i] {
      var q :| 0 <= q < |bs| && bs[q] == b;
      forall c | c in bs && c.free ensures !(c.va - 4 <= i < c.va + c.size - 4) {
        var p :| 0 <= p < |bs| && bs[p] == c;
        assert p < q || q < p;
      }
      assert !InFree(bs, i);
    }
  }

  lemma BlockInside(bs: seq<Block>, k: nat, lo: nat, hi: nat)
    requires Tiles(bs, lo, hi) && k < |bs|
    ensures lo <= bs[k].va && bs[k].va + bs[k].size <= hi && MIN_TOTAL <= bs[k].size && bs[k].size % 2 == 0
  {
    TilesBounds(bs, lo, hi);
    assert bs[k] in bs;
  }

  /** What get_block_size and is_free_block read, and the footer that the next block sees. */
  lemma TaggedWord(m: seq<byte>, b: Block)
    requires Tagged(m, b) && b.size % 2 == 0
    ensures 4 <= b.va && MIN_TOTAL <= b.size && b.va + b.size - 4 <= |m|
    ensures Load(m, b.va - 4) - Load(m, b.va - 4) % 2 == b.size
    ensures Load(m, b.va - 4) % 2 == 0 <==> b.free
    ensures Load(m, b.va + b.size - 8) == Load(m, b.va - 4)
  {
    hide Load;
  }

  lemma AllTaggedAt(m: seq<byte>, bs: seq<Block>, k: nat)
    requires AllTagged(m, bs) && k < |bs|
    ensures Tagged(m, bs[k])
  {
    assert bs[k] in bs;
  }

  // ----- memory steps of the operations -----

  /** One block of the layout `bs` was retagged; the others were tagged already. */
  lemma RetagStep(m: seq<byte>, m': seq<byte>, bs: seq<Block>, lo: nat, hi: nat, b: Block, l: seq<nat>)
    requires Tiles(bs, lo, hi) && b in bs && Tagged(m', b) && OnlyTags(m, m', b)
    requires forall c | c in bs && c != b :: Tagged(m, c)
    requires Linked(m, l) && Within(l, bs)
    ensures AllTagged(m', bs) && Linked(m', l)
  {
    hide Tagged, Linked, OnlyTags, Tiles;
    RetagRest(m, m', bs, lo, hi, b);
    TagsKeepLinks(m, m', bs, l, lo, hi, b);
  }

  /** The block list around block `k` of `bs`. */
  lemma BlocksAround(bs: seq<Block>, k: nat, lo: nat, hi: nat)
    requires Tiles(bs, lo, hi) && k < |bs|
    ensures forall c | c in bs :: c in bs[..k] || c == bs[k] || c in bs[k + 1..]
    ensures forall c | c in bs[..k] :: c in bs && c.va + c.size <= bs[k].va
    ensures forall c | c in bs[k + 1..] :: c in bs && bs[k].va + bs[k].size <= c.va
  {
    TilesBounds(bs, lo, hi);
    hide Tiles;
    MemberSplit(bs, k);
    forall c | c in bs[..k] ensures c.va + c.size <= bs[k].va {
      var i :| 0 <= i < k && bs[i] == c;
    }
    forall c | c in bs[k + 1..] ensures bs[k].va + bs[k].size <= c.va {
      var i :| k + 1 <= i < |bs| && bs[i] == c;
    }
  }

  lemma MemberSplit(bs: seq<Block>, k: nat)
    requires k < |bs|
    ensures forall c :: c in bs <==> c in bs[..k] || c == bs[k] || c in bs[k + 1..]
  {
    assert bs == bs[..k] + [bs[k]] + bs[k + 1..];
  }

  /** Both cuts of a placement, or the one block taken whole. */
  lemma PlaceTagged(m: seq<byte>, m1: seq<byte>, m2: seq<byte>, bs: seq<Block>, k: nat, need: nat, lo: nat, hi: nat,
      l: seq<nat>)
    requires Tiles(bs, lo, hi) && AllTagged(m, bs) && Linked(m, l) && Within(l, bs)
    requires k < |bs| && bs[k].free && need <= bs[k].size && Tiles(Place(bs, k, need), lo, hi)
    requires var c := Carve(bs[k], need);
             && Tagged(m1, c[0]) && OnlyTags(m, m1, c[0])
             && if |c| == 2 then Tagged(m2, c[1]) && OnlyTags(m1, m2, c[1]) else m2 == m1
    ensures AllTagged(m2, Place(bs, k, need)) && Linked(m2, l) && Confined(m, m2, bs, 0)
  {
    hide Tagged, Linked, OnlyTags, Tiles;
    var p, c := Place(bs, k, need), Carve(bs[k], need);
    BlocksAround(bs, k, lo, hi);
    assert Within(l, p) by { PlaceWithin(l, bs, k, need); }
    assert c[0] in p;
    TilesBounds(p, lo, hi);
    TagsConfined(m, m1, bs, bs[k], c[0]);
    RetagRest(m, m1, p, lo, hi, c[0]);
    TagsKeepLinks(m, m1, p, l, lo, hi, c[0]);
    assert forall d | d in p && d !in c :: d in bs;
    if |c| == 2 {
      assert c[1] in p;
      RetagStep(m1, m2, p, lo, hi, c[1], l);
      TagsConfined(m1, m2, bs, bs[k], c[1]);
      ConfinedTrans(m, m1, m2, bs, 0);
    } else {
      assert forall d | d in p && d != c[0] :: d in bs;
    }
  }

  lemma PlaceWithin(l: seq<nat>, bs: seq<Block>, k: nat, need: nat)
    requires Within(l, bs) && k < |bs| && need <= bs[k].size
    ensures Within(l, Place(bs, k, need))
  {
    var p, c := Place(bs, k, need), Carve(bs[k], need);
    forall y | y in l ensures exists b :: b in p && b.va == y {
      var b :| b in bs && b.va == y;
      assert bs == bs[..k] + [bs[k]] + bs[k + 1..];
      if b == bs[k] {
        assert c[0] in p && c[0].va == y;
      } else {
        assert b in p;
      }
    }
  }

  lemma FreeAddrsPair(a: Block, b: Block)
    ensures FreeAddrs([a]) == if a.free then [a.va] else []
    ensures FreeAddrs([a, b]) == (if a.free then [a.va] else []) + if b.free then [b.va] else []
  {
    assert [a][1..] == [] && [b][1..] == [] && [a, b][1..] == [b];
    assert FreeAddrs([b]) == if b.free then [b.va] else [];
  }

  /** The free list of a layout made of three parts. */
  lemma FreeAddrsThree(a: seq<Block>, x: seq<Block>, b: seq<Block>)
    ensures FreeAddrs(a + x + b) == FreeAddrs(a) + FreeAddrs(x) + FreeAddrs(b)
  {
    FreeAddrsConcat(a + x, b);
    FreeAddrsConcat(a, x);
  }

  /** Where block `k` is in the free list, and what the list becomes when the block is taken whole. */
  lemma PlaceWholeList(bs: seq<Block>, k: nat)
    requires k < |bs| && bs[k].free
    ensures var l, at := FreeAddrs(bs), |FreeAddrs(bs[..k])|;
            && at < |l| && l[at] == bs[k].va
            && Removed(l, at) == FreeAddrs(bs[..k] + [bs[k].(free := false)] + bs[k + 1..])
  {
    FreeAddrsAt(bs, k);
    FreeAddrsPair(bs[k].(free := false), bs[k]);
    FreeAddrsThree(bs[..k], [bs[k].(free := false)], bs[k + 1..]);
  }

  /** The same when the block is split: the rest is linked in behind it before it is unlinked. */
  lemma PlaceSplitList(bs: seq<Block>, k: nat, c0: Block, c1: Block)
    requires k < |bs| && bs[k].free && c0.va == bs[k].va && !c0.free && c1.free
    ensures var l, at := FreeAddrs(bs), |FreeAddrs(bs[..k])|;
            && at < |l| && l[at] == bs[k].va
            && Inserted(l, at + 1, c1.va) == FreeAddrs(bs[..k] + [c0.(free := true), c1] + bs[k + 1..])
            && Inserted(l, at + 1, c1.va)[at] == bs[k].va
            && Removed(Inserted(l, at + 1, c1.va), at) == FreeAddrs(bs[..k] + [c0, c1] + bs[k + 1..])
  {
    hide FreeAddrs, Inserted, Removed;
    var a, b := FreeAddrs(bs[..k]), FreeAddrs(bs[k + 1..]);
    FreeAddrsAt(bs, k);
    SplitPair(c0, c1);
    FreeAddrsThree(bs[..k], [c0, c1], bs[k + 1..]);
    FreeAddrsThree(bs[..k], [c0.(free := true), c1], bs[k + 1..]);
    SpliceTwo(a, bs[k].va, c1.va, b);
  }

  lemma SplitPair(c0: Block, c1: Block)
    requires !c0.free && c1.free
    ensures FreeAddrs([c0, c1]) == [c1.va] && FreeAddrs([c0.(free := true), c1]) == [c0.va, c1.va]
  {
    FreeAddrsPair(c0, c1);
    FreeAddrsPair(c0.(free := true), c1);
  }

  /** Linking `y` in behind `x` and then unlinking `x`. */
  lemma SpliceTwo(a: seq<nat>, x: nat, y: nat, b: seq<nat>)
    ensures var l := a + [x] + b;
            && Inserted(l, |a| + 1, y) == a + [x, y] + b && Inserted(l, |a| + 1, y)[|a|] == x
            && Removed(Inserted(l, |a| + 1, y), |a|) == a + [y] + b
  {
  }

  /** While both halves of a split are in the list, its elements do not overlap. */
  lemma SplitListRoom(bs: seq<Block>, k: nat, c0: Block, c1: Block, lo: nat, hi: nat, len: nat)
    requires Tiles(bs, lo, hi) && 0 < lo && hi <= len && k < |bs| && bs[k].free
    requires c0.va == bs[k].va && c1.va == c0.va + c0.size && c0.size + c1.size == bs[k].size
    requires MIN_TOTAL <= c0.size && MIN_TOTAL <= c1.size && c0.size % 2 == 0 && c1.free && !c0.free
    ensures var l := FreeAddrs(bs[..k] + [c0.(free := true), c1] + bs[k + 1..]);
            Apart(l, len) && Within(l, bs[..k] + [c0, c1] + bs[k + 1..]) && InsideFree(l, bs)
  {
    var d := [c0.(free := true), c1];
    var q, p := bs[..k] + d + bs[k + 1..], bs[..k] + [c0, c1] + bs[k + 1..];
    SplitTiles(bs, k, c0.(free := true), c1, lo, hi);
    FreeAddrsApart(q, lo, hi, len);
    FreeAddrsOf(q);
    TilesBounds(bs, lo, hi);
    hide Tiles, Apart, FreeAddrs;
    assert bs == bs[..k] + [bs[k]] + bs[k + 1..];
    assert bs[k] in bs && c0 in p && c1 in p;
    forall y | y in FreeAddrs(q)
      ensures exists b :: b in p && b.va == y
      ensures exists b :: b in bs && b.free && b.va <= y && y + 12 <= b.va + b.size
    {
      var e :| e in q && e.free && e.va == y;
      if e == d[0] {
        assert c0 in p && bs[k].va <= y && y + 12 <= bs[k].va + bs[k].size;
      } else if e == d[1] {
        assert c1 in p && bs[k].va <= y && y + 12 <= bs[k].va + bs[k].size;
      } else {
        assert e in p && e in bs;
      }
    }
  }

  lemma SplitTiles(bs: seq<Block>, k: nat, c0: Block, c1: Block, lo: nat, hi: nat)
    requires Tiles(bs, lo, hi) && k < |bs|
    requires c0.va == bs[k].va && c1.va == c0.va + c0.size && c0.size + c1.size == bs[k].size
    requires MIN_TOTAL <= c0.size && MIN_TOTAL <= c1.size && c0.size % 2 == 0
    ensures Tiles(bs[..k] + [c0, c1] + bs[k + 1..], lo, hi)
  {
    var a := TilesCut(bs, k, lo, hi);
    assert bs[k..][0] == bs[k] && bs[k..][1..] == bs[k + 1..];
    assert Tiles([c0, c1], a, a + bs[k].size) by {
      assert [c0, c1][1..] == [c1] && [c1][1..] == [];
    }
    TilesReplace(bs, k, k + 1, [c0, c1], lo, hi, a, a + bs[k].size);
  }

  /** Two list operations on the layout `p`, inside the free blocks of `bs`. */
  lemma LinksTwice(m: seq<byte>, m1: seq<byte>, m2: seq<byte>, bs: seq<Block>, p: seq<Block>, l: seq<nat>, lo: nat,
      hi: nat)
    requires AllTagged(m, p) && Tiles(p, lo, hi) && Within(l, p) && InsideFree(l, bs)
    requires OnlyLinks(m, m1, l) && OnlyLinks(m1, m2, l)
    ensures AllTagged(m2, p) && Confined(m, m2, bs, 0)
  {
    hide Tiles, Within, InsideFree, AllTagged;
    LinksKeepTags(m, m1, p, l, lo, hi);
    LinksKeepTags(m1, m2, p, l, lo, hi);
    LinksConfined(m, m1, bs, l);
    LinksConfined(m1, m2, bs, l);
  }

  /** Everything about splitting block `k` that does not depend on memory. */
  lemma SplitPlan(bs: seq<Block>, k: nat, need: nat, lo: nat, hi: nat, len: nat)
    requires Tiles(bs, lo, hi) && NoAdjacentFree(bs) && 0 < lo && hi <= len && k < |bs| && bs[k].free
    requires MIN_TOTAL <= need && need % 2 == 0 && need + 2 * 8 <= bs[k].size
    ensures Tiles(Place(bs, k, need), lo, hi) && NoAdjacentFree(Place(bs, k, need))
    ensures var l, at := FreeAddrs(bs), |FreeAddrs(bs[..k])|;
            && at < |l| && l[at] == bs[k].va
            && var r := Inserted(l, at + 1, bs[k].va + need);
            && r[at] == bs[k].va && Removed(r, at) == FreeAddrs(Place(bs, k, need))
            && Apart(r, len) && Within(r, Place(bs, k, need)) && InsideFree(r, bs)
  {
    var c0, c1 := Block(bs[k].va, need, false), Block(bs[k].va + need, bs[k].size - need, true);
    assert Place(bs, k, need) == bs[..k] + [c0, c1] + bs[k + 1..];
    TilesBounds(bs, lo, hi);
    PlaceKeepsExactly(bs, k, need, lo, hi);
    hide Tiles, NoAdjacentFree, Apart, Within, InsideFree, FreeAddrs, Place, Inserted, Removed;
    PlaceSplitList(bs, k, c0, c1);
    SplitListRoom(bs, k, c0, c1, lo, hi, len);
  }

  // ----- memory before and after an operation -----

  /** The tagged blocks from `lo` up to the END word. */
  ghost predicate Layout(m: seq<byte>, bs: seq<Block>, lo: nat, brk: nat) {
    && 8 < lo <= brk <= |m| && Tiles(bs, lo, brk) && NoAdjacentFree(bs) && AllTagged(m, bs)
    && Load(m, brk - 4) == 1
  }

  /** They and the list of the free ones among them, as memory carries them. */
  ghost predicate Part(m: seq<byte>, bs: seq<Block>, lo: nat, brk: nat) {
    Layout(m, bs, lo, brk) && Linked(m, FreeAddrs(bs))
  }

  lemma PartTiles(m: seq<byte>, bs: seq<Block>, lo: nat, brk: nat)
    requires Part(m, bs, lo, brk)
    ensures Tiles(bs, lo, brk) && NoAdjacentFree(bs) && 8 < lo <= brk <= |m|
  {
  }

  /** With nothing left up to the break there is only the END word. */
  lemma EmptyPart(m: seq<byte>, brk: nat)
    requires 8 < brk <= |m| && Load(m, brk - 4) == 1
    ensures Part(m, [], brk, brk) && FreeAddrs([]) == []
  {
  }

  /** A free block tagged as allocated while it is still in the list. */
  lemma WholeTagged(m: seq<byte>, m1: seq<byte>, bs: seq<Block>, k: nat, lo: nat, hi: nat)
    requires Part(m, bs, lo, hi) && k < |bs| && bs[k].free
    requires var c := bs[k].(free := false); Tagged(m1, c) && OnlyTags(m, m1, c)
    ensures Linked(m1, FreeAddrs(bs)) && AllTagged(m1, Place(bs, k, bs[k].size)) && Confined(m, m1, bs, 0)
  {
    hide Load, Linked, Tagged, AllTagged, OnlyTags, Tiles, Confined, NoAdjacentFree, FreeAddrs, Within;
    FreeAddrsApart(bs, lo, hi, |m|);
    BlockInside(bs, k, lo, hi);
    PlaceKeepsExactly(bs, k, bs[k].size, lo, hi);
    assert Carve(bs[k], bs[k].size) == [bs[k].(free := false)];
    hide Place;
    PlaceTagged(m, m1, m1, bs, k, bs[k].size, lo, hi, FreeAddrs(bs));
  }

  /** Then it is taken off the list. */
  lemma WholeDone(m: seq<byte>, m1: seq<byte>, m2: seq<byte>, bs: seq<Block>, k: nat, lo: nat, hi: nat)
    requires Part(m, bs, lo, hi) && k < |bs| && bs[k].free
    requires var c := bs[k].(free := false); Tagged(m1, c) && OnlyTags(m, m1, c)
    requires OnlyLinks(m1, m2, FreeAddrs(bs))
    requires var at := |FreeAddrs(bs[..k])|; at < |FreeAddrs(bs)| ==> Linked(m2, Removed(FreeAddrs(bs), at))
    ensures var l, at, p := FreeAddrs(bs), |FreeAddrs(bs[..k])|, Place(bs, k, bs[k].size);
            && at < |l| && FreeAddrs(p) == Removed(l, at)
            && Part(m2, p, lo, hi) && Confined(m, m2, bs, 0)
  {
    WholeTagged(m, m1, bs, k, lo, hi);
    hide Load, Linked, Tagged, AllTagged, OnlyTags, OnlyLinks, Tiles, Confined, NoAdjacentFree, FreeAddrs, Within;
    hide InsideFree, Removed;
    var l, p := FreeAddrs(bs), Place(bs, k, bs[k].size);
    assert Carve(bs[k], bs[k].size) == [bs[k].(free := false)];
    PlaceKeepsExactly(bs, k, bs[k].size, lo, hi);
    PlaceWholeList(bs, k);
    FreeAddrsApart(bs, lo, hi, |m|);
    FreeAddrsInside(bs, lo, hi);
    PlaceWithin(l, bs, k, bs[k].size);
    LinksKeepTags(m1, m2, p, l, lo, hi);
    LinksConfined(m1, m2, bs, l);
    ConfinedTrans(m, m1, m2, bs, 0);
    ConfinedKeepsSentinels(m, m2, bs, lo, hi);
  }

  /** A free block cut in two while it is still in the list. */
  lemma SplitTagged(m: seq<byte>, m1: seq<byte>, m2: seq<byte>, bs: seq<Block>, k: nat, need: nat, lo: nat, hi: nat)
    requires Part(m, bs, lo, hi) && k < |bs| && bs[k].free
    requires MIN_TOTAL <= need && need % 2 == 0 && need + 2 * 8 <= bs[k].size
    requires var c := Block(bs[k].va, need, false); Tagged(m1, c) && OnlyTags(m, m1, c)
    requires var c := Block(bs[k].va + need, bs[k].size - need, true); Tagged(m2, c) && OnlyTags(m1, m2, c)
    ensures Linked(m2, FreeAddrs(bs)) && AllTagged(m2, Place(bs, k, need)) && Confined(m, m2, bs, 0)
  {
    hide Load, Linked, Tagged, AllTagged, OnlyTags, Tiles, Confined, NoAdjacentFree, FreeAddrs, Within;
    FreeAddrsApart(bs, lo, hi, |m|);
    PlaceKeepsExactly(bs, k, need, lo, hi);
    assert Carve(bs[k], need)
        == [Block(bs[k].va, need, false), Block(bs[k].va + need, bs[k].size - need, true)];
    hide Place;
    PlaceTagged(m, m1, m2, bs, k, need, lo, hi, FreeAddrs(bs));
  }

  /** Then the rest is linked in behind it, and it is taken off the list. */
  lemma SplitDone(m: seq<byte>, m2: seq<byte>, m3: seq<byte>, m4: seq<byte>, bs: seq<Block>, k: nat, need: nat, lo: nat,
      hi: nat)
    requires Part(m, bs, lo, hi) && k < |bs| && bs[k].free
    requires MIN_TOTAL <= need && need % 2 == 0 && need + 2 * 8 <= bs[k].size
    requires AllTagged(m2, Place(bs, k, need)) && Confined(m, m2, bs, 0) && |FreeAddrs(bs[..k])| < |FreeAddrs(bs)|
    requires var at := |FreeAddrs(bs[..k])|;
             var r := Inserted(FreeAddrs(bs), at + 1, bs[k].va + need);
             OnlyLinks(m2, m3, r) && OnlyLinks(m3, m4, r) && Linked(m4, Removed(r, at))
    ensures Part(m4, Place(bs, k, need), lo, hi) && Confined(m, m4, bs, 0)
  {
    hide Load, Linked, Tagged, AllTagged, OnlyTags, OnlyLinks, Tiles, Confined, NoAdjacentFree, FreeAddrs, Within;
    hide InsideFree, Removed, Inserted, Place, Apart;
    var at := |FreeAddrs(bs[..k])|;
    var r, p := Inserted(FreeAddrs(bs), at + 1, bs[k].va + need), Place(bs, k, need);
    SplitPlan(bs, k, need, lo, hi, |m|);
    LinksTwice(m2, m3, m4, bs, p, r, lo, hi);
    ConfinedTrans(m, m2, m4, bs, 0);
    ConfinedKeepsSentinels(m, m4, bs, lo, hi);
  }

  // ----- growth -----

  lemma ConfinedWiden(m: seq<byte>, m': seq<byte>, bs: seq<Block>, end: nat)
    requires Confined(m, m', bs, 0)
    ensures Confined(m, m', bs, end)
  {
  }

  /** Growing keeps what lay in free blocks in free blocks, the old END word included. */
  lemma GrowWidens(m: seq<byte>, m': seq<byte>, bs: seq<Block>, lo: nat, brk: nat, end: nat)
    requires Tiles(bs, lo, brk) && Confined(m, m', bs, brk)
    ensures Confined(m, m', Grow(bs, brk), end)
  {
    var g := Grow(bs, brk);
    GrowTail(bs, lo, brk);
    hide Tiles, Grow;
    var t := g[|g| - 1];
    assert t in g;
    forall i | 0 <= i < |m| && m'[i] != m[i] ensures InFree(g, i) {
      if InFree(bs, i) {
        GrowInFree(bs, brk, i);
      } else {
        assert t.va - 4 <= i < t.va + t.size - 4;
      }
    }
  }

  lemma GrowInFree(bs: seq<Block>, brk: nat, i: int)
    requires InFree(bs, i)
    ensures InFree(Grow(bs, brk), i)
  {
    var g := Grow(bs, brk);
    var b :| b in bs && b.free && b.va - 4 <= i < b.va + b.size - 4;
    var p :| 0 <= p < |bs| && bs[p] == b;
    assert g[p].va == b.va && b.size <= g[p].size && g[p].free;
    assert g[p] in g;
  }

  /** The block at the end of a grown layout is free and reaches the new break. */
  lemma GrowTail(bs: seq<Block>, lo: nat, brk: nat)
    requires Tiles(bs, lo, brk)
    ensures var g := Grow(bs, brk);
            && g != [] && g[|g| - 1].free && g[|g| - 1].va <= brk
            && g[|g| - 1].va + g[|g| - 1].size == brk + PAGE_SIZE
  {
    if bs != [] && bs[|bs| - 1].free {
      var mid := TilesCut(bs, |bs| - 1, lo, brk);
      assert bs[|bs| - 1..][1..] == [];
    }
  }

  /** The list's last element borders on the break exactly when the last block is free. */
  lemma LastFree(bs: seq<Block>, lo: nat, hi: nat) returns (k: nat)
    requires Tiles(bs, lo, hi) && FreeAddrs(bs) != []
    ensures k < |bs| && bs[k].free && bs[k].va == FreeAddrs(bs)[|FreeAddrs(bs)| - 1]
    ensures bs[k].va + bs[k].size == hi <==> bs[|bs| - 1].free
    ensures bs[|bs| - 1].free ==> k == |bs| - 1
  {
    var n := |bs|;
    k := n - 1;
    while !bs[k].free
      invariant k < n && FreeAddrs(bs[k + 1..]) == [] && forall i | k < i < n :: !bs[i].free
      decreases k
    {
      var before := bs[..k];
      assert k == 0 ==> before == [];
      assert bs[k..][0] == bs[k] && bs[k..][1..] == bs[k + 1..];
      FreeAddrsAt(bs, k);
      k := k - 1;
    }
    FreeAddrsAt(bs, k);
    var a := TilesCut(bs, k, lo, hi);
    assert bs[k..][0] == bs[k] && bs[k..][1..] == bs[k + 1..];
    TilesBounds(bs[k + 1..], bs[k].va + bs[k].size, hi);
    if k + 1 < n { assert bs[n - 1] == bs[k + 1..][n - 2 - k]; assert bs[n - 1] in bs[k + 1..]; }
  }

  /** A grown layout is the old one except for its last block. */
  lemma GrowParts(bs: seq<Block>, brk: nat)
    ensures var g, n := Grow(bs, brk), |bs|;
            && g != [] && (forall c | c in g && c != g[|g| - 1] :: c in bs)
            && g[|g| - 1] == if bs != [] && bs[n - 1].free then bs[n - 1].(size := bs[n - 1].size + PAGE_SIZE)
                             else Block(brk, PAGE_SIZE, true)
  {
  }

  lemma GrowList(bs: seq<Block>, brk: nat)
    ensures var l := FreeAddrs(bs);
            FreeAddrs(Grow(bs, brk)) == if bs != [] && bs[|bs| - 1].free then l else Inserted(l, |l|, brk)
    ensures bs != [] && bs[|bs| - 1].free ==> FreeAddrs(bs) != []
  {
    hide FreeAddrs;
    if bs != [] && bs[|bs| - 1].free {
      var n := |bs| - 1;
      FreeAddrsLast(bs[..n], bs[n]);
      FreeAddrsLast(bs[..n], bs[n].(size := bs[n].size + PAGE_SIZE));
      assert bs == bs[..n] + [bs[n]];
    } else {
      FreeAddrsLast(bs, Block(brk, PAGE_SIZE, true));
    }
  }

  lemma FreeAddrsLast(bs: seq<Block>, b: Block)
    ensures FreeAddrs(bs + [b]) == FreeAddrs(bs) + if b.free then [b.va] else []
  {
    FreeAddrsPair(b, b);
    hide FreeAddrs;
    FreeAddrsConcat(bs, [b]);
  }

  /** A word written past every block disturbs neither tags nor links. */
  lemma StoredPast(m: seq<byte>, m': seq<byte>, bs: seq<Block>, l: seq<nat>, lo: nat, hi: nat, a: nat)
    requires Tiles(bs, lo, hi) && 0 < lo && AllTagged(m, bs) && Linked(m, l) && Within(l, bs)
    requires hi <= a && Stored(m, m', a, 1)
    ensures AllTagged(m', bs) && Linked(m', l)
  {
    hide Load;
    TilesBounds(bs, lo, hi);
    forall b | b in bs ensures Tagged(m', b) {
      TaggedFrame(m, m', b);
    }
    forall i | 0 <= i < |m| && InLinks(l, i) ensures m'[i] == m[i] {
      var y :| y in l && y <= i < y + 8;
      var b :| b in bs && b.va == y;
    }
    LinkedFrame(m, m', l);
  }

  lemma GrowWithin(l: seq<nat>, bs: seq<Block>, brk: nat)
    requires Within(l, bs)
    ensures Within(l, Grow(bs, brk)) && Within(Inserted(l, |l|, brk), bs + [Block(brk, PAGE_SIZE, true)])
  {
    var n, g, h := |bs|, Grow(bs, brk), bs + [Block(brk, PAGE_SIZE, true)];
    forall y | y in l ensures (exists b :: b in g && b.va == y) && (exists b :: b in h && b.va == y) {
      var b :| b in bs && b.va == y;
      var p :| 0 <= p < n && bs[p] == b;
      assert g[p] in g && g[p].va == y;
      assert h[p] in h && h[p].va == y;
    }
    assert h[n] in h && h[n].va == brk;
    forall y | y in Inserted(l, |l|, brk) ensures exists b :: b in h && b.va == y {
      assert y in l || y == brk;
    }
  }

  lemma AllTaggedIn(m: seq<byte>, bs: seq<Block>)
    requires AllTagged(m, bs)
    ensures forall c | c in bs :: Tagged(m, c)
  {
  }

  /** The bytes that change when the END word moves and the block `t` at the end of `g` is tagged. */
  lemma GrowBytes(m: seq<byte>, m1: seq<byte>, m2: seq<byte>, g: seq<Block>, t: Block, lo: nat, brk: nat)
    requires 8 <= lo <= brk && Tiles(g, lo, brk + PAGE_SIZE) && t in g && t.free && META <= t.size
    requires Stored(m, m1, brk + PAGE_SIZE - 4, 1) && OnlyTags(m1, m2, t)
    ensures Confined(m, m2, g, brk + PAGE_SIZE)
    ensures SameOn(m, m2, 0, lo - 4) && Load(m2, brk + PAGE_SIZE - 4) == 1
  {
    hide Load, Tiles, OnlyTags, InFree;
    TagsConfined(m1, m2, g, t, t);
    ConfinedKeepsSentinels(m1, m2, g, lo, brk + PAGE_SIZE);
    assert Confined(m, m1, g, brk + PAGE_SIZE);
    ConfinedTrans(m, m1, m2, g, brk + PAGE_SIZE);
  }

  /** The memory after the END word moved and the block `t` at the end of `g` was tagged. */
  lemma GrowTagged(m: seq<byte>, m1: seq<byte>, m2: seq<byte>, bs: seq<Block>, g: seq<Block>, t: Block, l: seq<nat>,
      lo: nat, brk: nat)
    requires Tiles(bs, lo, brk) && 8 <= lo <= |m| && AllTagged(m, bs) && Linked(m, l) && Within(l, bs) && Within(l, g)
    requires Tiles(g, lo, brk + PAGE_SIZE) && t in g && t.free && forall c | c in g && c != t :: c in bs
    requires Stored(m, m1, brk + PAGE_SIZE - 4, 1) && Tagged(m2, t) && OnlyTags(m1, m2, t)
    ensures AllTagged(m2, g) && Linked(m2, l) && Confined(m, m2, g, brk + PAGE_SIZE)
    ensures SameOn(m, m2, 0, lo - 4) && Load(m2, brk + PAGE_SIZE - 4) == 1
  {
    hide Load;
    TilesBounds(g, lo, brk + PAGE_SIZE);
    TilesBounds(bs, lo, brk);
    hide Tiles, OnlyTags, Linked, Within, Confined, Stored, AllTagged, SameOn;
    StoredPast(m, m1, bs, l, lo, brk, brk + PAGE_SIZE - 4);
    AllTaggedIn(m1, bs);
    hide Tagged;
    RetagStep(m1, m2, g, lo, brk + PAGE_SIZE, t, l);
    GrowBytes(m, m1, m2, g, t, lo, brk);
  }

  lemma AloneTiles(bs: seq<Block>, lo: nat, hi: nat)
    requires Tiles(bs, lo, hi) && |bs| == 1
    ensures bs[0].va == lo && bs[0].va + bs[0].size == hi
  {
    assert bs[1..] == [];
  }

  /** A list operation on the layout `g`, inside the free blocks of `g`. */
  lemma LinkStep(m: seq<byte>, m2: seq<byte>, m3: seq<byte>, g: seq<Block>, l: seq<nat>, lo: nat, hi: nat, end: nat)
    requires Tiles(g, lo, hi) && 8 <= lo <= hi <= |m| && AllTagged(m2, g) && Confined(m, m2, g, end)
    requires Within(l, g) && InsideFree(l, g) && OnlyLinks(m2, m3, l)
    ensures AllTagged(m3, g) && Confined(m, m3, g, end) && SameOn(m2, m3, 0, lo - 4)
    ensures Load(m3, lo - 8) == Load(m2, lo - 8) && Load(m3, hi - 4) == Load(m2, hi - 4)
  {
    LinksKeepTags(m2, m3, g, l, lo, hi);
    LinksConfined(m2, m3, g, l);
    ConfinedKeepsSentinels(m2, m3, g, lo, hi);
    ConfinedWiden(m2, m3, g, end);
    ConfinedTrans(m, m2, m3, g, end);
  }

  /** The size that the header of the block at `x` records. */
  function SizeAt(m: seq<byte>, x: nat): (size: int)
    requires 4 <= x <= |m|
  {
    Load(m, x - 4) - Load(m, x - 4) % 2
  }

  lemma FreeAddrsBelow(bs: seq<Block>, lo: nat, brk: nat)
    requires Tiles(bs, lo, brk) && 0 < lo
    ensures Apart(FreeAddrs(bs), brk) && forall y | y in FreeAddrs(bs) :: y + MIN_TOTAL <= brk
  {
    FreeAddrsSorted(bs, lo, brk);
    FreeAddrsApart(bs, lo, brk, brk);
  }

  /** The last free block reaches the break exactly if the last block is free. */
  lemma LastInList(m: seq<byte>, bs: seq<Block>, lo: nat, brk: nat)
    requires Part(m, bs, lo, brk)
    ensures var l := FreeAddrs(bs); Apart(l, brk) && forall y | y in l :: y + MIN_TOTAL <= brk
    ensures FreeAddrs(bs) == [] ==> bs == [] || !bs[|bs| - 1].free
    ensures FreeAddrs(bs) != [] ==> bs != [] && var x := FreeAddrs(bs)[|FreeAddrs(bs)| - 1];
              && 4 <= x <= |m| && MIN_TOTAL <= SizeAt(m, x) && SizeAt(m, x) % 2 == 0 && x + SizeAt(m, x) <= brk
              && (x + SizeAt(m, x) == brk <==> bs[|bs| - 1].free)
              && (bs[|bs| - 1].free ==> bs[|bs| - 1] == Block(x, SizeAt(m, x), true))
  {
    hide Load, Linked, Tagged, AllTagged, NoAdjacentFree, SizeAt;
    assert Tiles(bs, lo, brk) && AllTagged(m, bs) && 8 < lo <= brk <= |m|;
    hide Part;
    hide Tiles, FreeAddrs, Apart, Within;
    var l := FreeAddrs(bs);
    FreeAddrsBelow(bs, lo, brk);
    GrowList(bs, brk);
    if l != [] {
      var k := LastFree(bs, lo, brk);
      HeaderSize(m, bs, k, lo, brk);
    }
  }

  lemma HeaderSize(m: seq<byte>, bs: seq<Block>, k: nat, lo: nat, brk: nat)
    requires Tiles(bs, lo, brk) && lo <= brk <= |m| && AllTagged(m, bs) && k < |bs|
    ensures 4 <= bs[k].va <= |m| && SizeAt(m, bs[k].va) == bs[k].size
    ensures MIN_TOTAL <= bs[k].size && bs[k].size % 2 == 0 && bs[k].va + bs[k].size <= brk
  {
    hide Load, Tagged;
    BlockInside(bs, k, lo, brk);
    TaggedWord(m, bs[k]);
  }

  /** A page added to a free last block. */
  lemma GrowMerged(m: seq<byte>, m1: seq<byte>, m2: seq<byte>, bs: seq<Block>, lo: nat, brk: nat)
    requires Part(m, bs, lo, brk) && brk + PAGE_SIZE <= |m| && bs != [] && bs[|bs| - 1].free
    requires Stored(m, m1, brk + PAGE_SIZE - 4, 1)
    requires var t := bs[|bs| - 1].(size := bs[|bs| - 1].size + PAGE_SIZE); Tagged(m2, t) && OnlyTags(m1, m2, t)
    ensures var g := Grow(bs, brk);
            && Part(m2, g, lo, brk + PAGE_SIZE) && FreeAddrs(g) == FreeAddrs(bs)
            && Confined(m, m2, g, brk + PAGE_SIZE)
    ensures SameOn(m, m2, 0, lo - 4)
  {
    assert |m2| == |m|;
    hide Load, Linked, Tagged, AllTagged, OnlyTags, Stored, Tiles, Confined, Grow, FreeAddrs, NoAdjacentFree, Within;
    var g := Grow(bs, brk);
    FreeAddrsApart(bs, lo, brk, |m|);
    GrowKeeps(bs, lo, brk);
    GrowList(bs, brk);
    GrowParts(bs, brk);
    GrowWithin(FreeAddrs(bs), bs, brk);
    GrowTagged(m, m1, m2, bs, g, g[|g| - 1], FreeAddrs(bs), lo, brk);
  }

  /** A page added as a free block of its own. */
  lemma GrowAppended(m: seq<byte>, m1: seq<byte>, m2: seq<byte>, m3: seq<byte>, bs: seq<Block>, lo: nat, brk: nat)
    requires Part(m, bs, lo, brk) && brk + PAGE_SIZE <= |m| && (bs == [] || !bs[|bs| - 1].free)
    requires Stored(m, m1, brk + PAGE_SIZE - 4, 1)
    requires var t := Block(brk, PAGE_SIZE, true); Tagged(m2, t) && OnlyTags(m1, m2, t)
    requires var r := Inserted(FreeAddrs(bs), |FreeAddrs(bs)|, brk); OnlyLinks(m2, m3, r) && Linked(m3, r)
    ensures var g, l := Grow(bs, brk), FreeAddrs(bs);
            && Part(m3, g, lo, brk + PAGE_SIZE) && FreeAddrs(g) == Inserted(l, |l|, brk)
            && Confined(m, m3, g, brk + PAGE_SIZE)
    ensures SameOn(m, m3, 0, lo - 4)
  {
    hide Load, Linked, Tagged, AllTagged, OnlyTags, OnlyLinks, Stored, Tiles, Confined, Inserted;
    hide Grow, FreeAddrs, NoAdjacentFree, Within, InsideFree;
    var g := Grow(bs, brk);
    FreeAddrsApart(bs, lo, brk, |m|);
    GrowKeeps(bs, lo, brk);
    GrowList(bs, brk);
    GrowParts(bs, brk);
    GrowWithin(FreeAddrs(bs), bs, brk);
    FreeAddrsApart(g, lo, brk + PAGE_SIZE, |m|);
    FreeAddrsInside(g, lo, brk + PAGE_SIZE);
    GrowTagged(m, m1, m2, bs, g, g[|g| - 1], FreeAddrs(bs), lo, brk);
    LinkStep(m, m2, m3, g, FreeAddrs(g), lo, brk + PAGE_SIZE, brk + PAGE_SIZE);
  }

  /** The four writes of initialize_dynamic_allocator; the links of its block stay what memory held. */
  lemma InitImage(m: seq<byte>, m1: seq<byte>, m2: seq<byte>, m3: seq<byte>, m4: seq<byte>, start: nat, size: nat)
    requires 0 < start && 24 <= size && size % 2 == 0 && start + size <= |m|
    requires Stored(m, m1, start + 4, size - 8) && Stored(m1, m2, start + size - 8, size - 8)
    requires Stored(m2, m3, start, 1) && Stored(m3, m4, start + size - 4, 1)
    ensures Tagged(m4, Block(start + 8, size - 8, true))
    ensures Linked(m4, [start + 8]) <==> Load(m, start + 8) == 0 && Load(m, start + 12) == 0
    ensures Load(m4, start) == 1 && Load(m4, start + size - 4) == 1
    ensures SameOn(m, m4, 0, start) && SameOn(m, m4, start + size, |m|)
    ensures var bs := [Block(start + 8, size - 8, true)];
            Tiles(bs, start + 8, start + size) && NoAdjacentFree(bs) && AllTagged(m4, bs)
  {
    hide Load;
    assert Load(m4, start + 8) == Load(m, start + 8) && Load(m4, start + 12) == Load(m, start + 12);
    assert Linked(m4, [start + 8]) <==> LinkAt(m4, [start + 8], 0);
    assert [Block(start + 8, size - 8, true)][1..] == [];
  }

  lemma {:induction false} GrowByWidens(m: seq<byte>, m': seq<byte>, bs: seq<Block>, lo: nat, brk: nat, pages: nat)
    requires Tiles(bs, lo, brk) && NoAdjacentFree(bs) && Confined(m, m', bs, brk)
    ensures Confined(m, m', GrowBy(bs, brk, pages), brk + pages * PAGE_SIZE)
    decreases pages
  {
    hide Tiles, NoAdjacentFree, Confined, Grow;
    if pages > 0 {
      GrowWidens(m, m', bs, lo, brk, brk + PAGE_SIZE);
      GrowKeeps(bs, lo, brk);
      GrowByWidens(m, m', Grow(bs, brk), lo, brk + PAGE_SIZE, pages - 1);
    }
  }

  // ----- freeing -----

  /** The layout with block `k` marked free, before any merging. */
  function Marked(bs: seq<Block>, k: nat): (r: seq<Block>)
    requires k < |bs|
    ensures |r| == |bs| && r[k].free && r[k].va == bs[k].va && r[k].size == bs[k].size
    ensures forall i | 0 <= i < |bs| && i != k :: r[i] == bs[i]
  {
    bs[k := bs[k].(free := true)]
  }

  lemma MarkedTiles(bs: seq<Block>, k: nat, lo: nat, hi: nat)
    requires Tiles(bs, lo, hi) && k < |bs|
    ensures Tiles(Marked(bs, k), lo, hi)
  {
    var b := bs[k].(free := true);
    var mid := TilesCut(bs, k, lo, hi);
    assert bs[k..][0] == bs[k] && bs[k..][1..] == bs[k + 1..];
    assert Tiles([b], mid, mid + b.size) by { assert [b][1..] == []; }
    TilesReplace(bs, k, k + 1, [b], lo, hi, mid, mid + b.size);
    assert Marked(bs, k) == bs[..k] + [b] + bs[k + 1..];
  }

  /** The first write of free_block: block `k` is tagged free, a list of free blocks is as before. */
  lemma MarkStep(m: seq<byte>, m1: seq<byte>, bs: seq<Block>, k: nat, l: seq<nat>, lo: nat, hi: nat)
    requires Tiles(bs, lo, hi) && 8 <= lo <= hi <= |m| && AllTagged(m, bs) && k < |bs| && !bs[k].free
    requires Linked(m, l) && forall y | y in l :: y in FreeAddrs(bs)
    requires Tagged(m1, bs[k].(free := true)) && OnlyTags(m, m1, bs[k].(free := true))
    ensures var b := Marked(bs, k);
            && Tiles(b, lo, hi) && AllTagged(m1, b) && Linked(m1, l) && Confined(m, m1, b, 0)
            && Within(l, b) && InsideFree(l, b)
    ensures Load(m1, lo - 8) == Load(m, lo - 8) && Load(m1, hi - 4) == Load(m, hi - 4)
  {
    var b := Marked(bs, k);
    MarkedTiles(bs, k, lo, hi);
    MarkedHolds(bs, k, lo, hi);
    Sublist(FreeAddrs(bs), l, b, b);
    hide Tiles, Tagged, OnlyTags, Linked, Within, InsideFree, FreeAddrs, Confined;
    assert b[k] in b;
    forall c | c in b && c != b[k] ensures Tagged(m, c) {
      var i :| 0 <= i < |b| && b[i] == c;
      assert bs[i] in bs;
    }
    BlockInside(b, k, lo, hi);
    RetagStep(m, m1, b, lo, hi, b[k], l);
    TagsConfined(m, m1, b, b[k], b[k]);
    ConfinedKeepsSentinels(m, m1, b, lo, hi);
  }

  lemma Sublist(l: seq<nat>, r: seq<nat>, bs: seq<Block>, cs: seq<Block>)
    requires Within(l, bs) && InsideFree(l, cs) && forall y | y in r :: y in l
    ensures Within(r, bs) && InsideFree(r, cs)
  {
  }

  /** The list of `bs` is still a list of free blocks when block `k` is marked free. */
  lemma MarkedHolds(bs: seq<Block>, k: nat, lo: nat, hi: nat)
    requires Tiles(bs, lo, hi) && k < |bs| && !bs[k].free
    ensures Within(FreeAddrs(bs), Marked(bs, k)) && InsideFree(FreeAddrs(bs), Marked(bs, k))
  {
    var b := Marked(bs, k);
    FreeAddrsOf(bs);
    TilesBounds(bs, lo, hi);
    forall y | y in FreeAddrs(bs)
      ensures exists c :: c in b && c.va == y
      ensures exists c :: c in b && c.free && c.va <= y && y + 12 <= c.va + c.size
    {
      var c :| c in bs && c.free && c.va == y;
      var i :| 0 <= i < |bs| && bs[i] == c;
      assert b[i] == c && b[i] in b;
    }
  }

  /** What free_block reads next to block `k`: the footer before it and the header behind it, 1 at the END word. */
  lemma Neighbours(m: seq<byte>, bs: seq<Block>, k: nat, lo: nat, hi: nat)
    requires Tiles(bs, lo, hi) && 8 <= lo <= hi <= |m| && AllTagged(m, bs) && k < |bs|
    requires Load(m, hi - 4) == 1
    ensures lo <= bs[k].va && bs[k].va + bs[k].size <= hi
    ensures Load(m, bs[k].va - 8) == if k == 0 then Load(m, lo - 8) else Tag(bs[k - 1])
    ensures k > 0 ==> bs[k - 1].va + bs[k - 1].size == bs[k].va && MIN_TOTAL <= bs[k - 1].size
                      && bs[k - 1].size % 2 == 0 && lo <= bs[k - 1].va && Load(m, bs[k - 1].va - 4) == Tag(bs[k - 1])
    ensures Load(m, bs[k].va + bs[k].size - 4) == if k + 1 == |bs| then 1 else Tag(bs[k + 1])
    ensures k + 1 < |bs| ==> bs[k + 1].va == bs[k].va + bs[k].size && MIN_TOTAL <= bs[k + 1].size
                             && bs[k + 1].size % 2 == 0 && bs[k + 1].va + bs[k + 1].size <= hi
  {
    hide Load;
    BlockInside(bs, k, lo, hi);
    Adjacent(bs, k, lo, hi);
    if k > 0 {
      BlockInside(bs, k - 1, lo, hi);
      AllTaggedAt(m, bs, k - 1);
    }
    if k + 1 < |bs| {
      BlockInside(bs, k + 1, lo, hi);
      AllTaggedAt(m, bs, k + 1);
    }
  }

  lemma Adjacent(bs: seq<Block>, k: nat, lo: nat, hi: nat)
    requires Tiles(bs, lo, hi) && k < |bs|
    ensures if k == 0 then bs[k].va == lo else bs[k - 1].va + bs[k - 1].size == bs[k].va
    ensures if k + 1 == |bs| then bs[k].va + bs[k].size == hi else bs[k].va + bs[k].size == bs[k + 1].va
  {
    var a := TilesCut(bs, k, lo, hi);
    assert bs[k..][0] == bs[k] && bs[k..][1..] == bs[k + 1..];
    if k + 1 < |bs| { assert bs[k + 1..][0] == bs[k + 1]; }
    if k > 0 {
      var b := TilesCut(bs, k - 1, lo, hi);
      assert bs[k - 1..][0] == bs[k - 1] && bs[k - 1..][1..] == bs[k..];
    }
  }

  lemma RemovedMiddle(a: seq<nat>, x: nat, b: seq<nat>)
    ensures Removed(a + [x] + b, |a|) == a + b
  {
  }

  /** Freeing block `k`: a free block before it leaves the list. */
  lemma ReleaseListBefore(bs: seq<Block>, k: nat)
    requires k < |bs| && !bs[k].free
    ensures var i := RunStart(bs, k);
            var at, l1 := |FreeAddrs(bs[..i])|, FreeAddrs(bs[..i]) + FreeAddrs(bs[k + 1..]);
            if i == k then FreeAddrs(bs) == l1
            else at < |FreeAddrs(bs)| && FreeAddrs(bs)[at] == bs[i].va && Removed(FreeAddrs(bs), at) == l1
  {
    var i := RunStart(bs, k);
    FreeAddrsAt(bs, k);
    if i < k {
      FreeAddrsAt(bs[..k], i);
      assert bs[..k][..i] == bs[..i] && bs[..k][i + 1..] == [];
      assert FreeAddrs(bs[..k]) == FreeAddrs(bs[..i]) + [bs[i].va];
      RemovedMiddle(FreeAddrs(bs[..i]), bs[i].va, FreeAddrs(bs[k + 1..]));
    }
  }

  /** A free block behind it leaves the list. */
  lemma ReleaseListBehind(bs: seq<Block>, k: nat)
    requires k < |bs| && !bs[k].free
    ensures var a, l1 := FreeAddrs(bs[..RunStart(bs, k)]), FreeAddrs(bs[..RunStart(bs, k)]) + FreeAddrs(bs[k + 1..]);
            var j := RunEnd(bs, k);
            var l2 := a + FreeAddrs(bs[j..]);
            if j == k + 1 then l1 == l2
            else |a| < |l1| && l1[|a|] == bs[k + 1].va && Removed(l1, |a|) == l2
  {
    var j := RunEnd(bs, k);
    if j > k + 1 {
      assert bs[k + 1..][0] == bs[k + 1] && bs[k + 1..][1..] == bs[j..];
      assert FreeAddrs(bs[k + 1..]) == [bs[k + 1].va] + FreeAddrs(bs[j..]);
      RemovedMiddle(FreeAddrs(bs[..RunStart(bs, k)]), bs[k + 1].va, FreeAddrs(bs[j..]));
      assert FreeAddrs(bs[..RunStart(bs, k)]) + FreeAddrs(bs[k + 1..])
             == FreeAddrs(bs[..RunStart(bs, k)]) + [bs[k + 1].va] + FreeAddrs(bs[j..]);
    }
  }

  lemma FreeFrom(bs: seq<Block>, i: nat)
    requires i < |bs| && bs[i].free
    ensures FreeAddrs(bs[i..]) == [bs[i].va] + FreeAddrs(bs[i + 1..])
  {
    assert bs[i..][0] == bs[i] && bs[i..][1..] == bs[i + 1..];
  }

  /** The merged block enters it, in address order. */
  lemma ReleaseListRun(bs: seq<Block>, k: nat, lo: nat, hi: nat, len: nat)
    requires Tiles(bs, lo, hi) && 0 < lo && hi <= len && k < |bs| && !bs[k].free
    ensures var i, j := RunStart(bs, k), RunEnd(bs, k);
            var q, l2 := |FreeAddrs(bs[..i])|, FreeAddrs(bs[..i]) + FreeAddrs(bs[j..]);
            && FreeAddrs(Release(bs, k)) == Inserted(l2, q, bs[i].va)
            && Apart(Inserted(l2, q, bs[i].va), len)
            && (forall n | 0 <= n < q :: l2[n] < bs[i].va)
            && (forall n | q <= n < |l2| :: bs[i].va < l2[n])
  {
    var i, j := RunStart(bs, k), RunEnd(bs, k);
    ReleaseTiles(bs, k, lo, hi);
    FreeAddrsApart(Release(bs, k), lo, hi, len);
    FreeAddrsSorted(Release(bs, k), lo, hi);
    hide Tiles, Apart;
    ReleaseAddrs(bs, k);
    hide FreeAddrs, Release;
    InsertedSorted(FreeAddrs(bs[..i]), bs[i].va, FreeAddrs(bs[j..]));
  }

  lemma ReleaseAddrs(bs: seq<Block>, k: nat)
    requires k < |bs| && !bs[k].free
    ensures var i, j := RunStart(bs, k), RunEnd(bs, k);
            FreeAddrs(Release(bs, k)) == FreeAddrs(bs[..i]) + [bs[i].va] + FreeAddrs(bs[j..])
  {
    var i, j := RunStart(bs, k), RunEnd(bs, k);
    var run := Block(bs[i].va, Span(bs[i..j]), true);
    FreeAddrsPair(run, run);
    hide FreeAddrs;
    FreeAddrsThree(bs[..i], [run], bs[j..]);
  }

  lemma InsertedSorted(a: seq<nat>, x: nat, b: seq<nat>)
    requires forall i, j | 0 <= i < j < |a + [x] + b| :: (a + [x] + b)[i] < (a + [x] + b)[j]
    ensures Inserted(a + b, |a|, x) == a + [x] + b
    ensures (forall n | 0 <= n < |a| :: (a + b)[n] < x) && forall n | |a| <= n < |a + b| :: x < (a + b)[n]
  {
    var r := a + [x] + b;
    forall n | 0 <= n < |a| ensures (a + b)[n] < x {
      assert r[n] < r[|a|];
    }
    forall n | |a| <= n < |a + b| ensures x < (a + b)[n] {
      assert r[|a|] < r[n + 1];
    }
  }

  /** The last tagging step of free_block: the merged run. */
  lemma RunTagged(m3: seq<byte>, m4: seq<byte>, bs: seq<Block>, k: nat, lo: nat, hi: nat)
    requires Tiles(bs, lo, hi) && 8 <= lo <= hi <= |m3| && k < |bs| && !bs[k].free
    requires AllTagged(m3, Marked(bs, k))
    requires Linked(m3, FreeAddrs(bs[..RunStart(bs, k)]) + FreeAddrs(bs[RunEnd(bs, k)..]))
    requires var run := Release(bs, k)[RunStart(bs, k)]; Tagged(m4, run) && OnlyTags(m3, m4, run)
    ensures AllTagged(m4, Release(bs, k))
    ensures Linked(m4, FreeAddrs(bs[..RunStart(bs, k)]) + FreeAddrs(bs[RunEnd(bs, k)..]))
  {
    var i, r := RunStart(bs, k), Release(bs, k);
    var l := FreeAddrs(bs[..i]) + FreeAddrs(bs[RunEnd(bs, k)..]);
    var run := r[i];
    ReleaseTiles(bs, k, lo, hi);
    RunRest(bs, k);
    assert Within(l, r) by {
      FreeAddrsApart(r, lo, hi, |m3|);
      ReleaseListRun(bs, k, lo, hi, |m3|);
      WithoutInserted(l, |FreeAddrs(bs[..i])|, bs[i].va, r);
    }
    hide Tiles, Tagged, Linked, Within, FreeAddrs, OnlyTags, Release, Marked;
    assert run in r;
    RetagStep(m3, m4, r, lo, hi, run, l);
  }

  lemma WithoutInserted(l: seq<nat>, q: nat, x: nat, bs: seq<Block>)
    requires q <= |l| && Within(Inserted(l, q, x), bs)
    ensures Within(l, bs)
  {
    forall y | y in l ensures exists b :: b in bs && b.va == y {
      var n :| 0 <= n < |l| && l[n] == y;
      assert Inserted(l, q, x)[if n < q then n else n + 1] in Inserted(l, q, x);
    }
  }

  /** That step, and the final linking, stay inside the blocks that are free or being freed. */
  lemma MarkedAt(bs: seq<Block>, k: nat)
    requires k < |bs|
    ensures |Marked(bs, k)| == |bs|
    ensures forall n | 0 <= n < |bs| :: Marked(bs, k)[n].va == bs[n].va && Marked(bs, k)[n].size == bs[n].size
  {
  }

  lemma RunConfined(m3: seq<byte>, m4: seq<byte>, bs: seq<Block>, k: nat, lo: nat, hi: nat)
    requires Tiles(bs, lo, hi) && k < |bs| && !bs[k].free
    requires OnlyTags(m3, m4, Release(bs, k)[RunStart(bs, k)])
    ensures Confined(m3, m4, Marked(bs, k), 0)
    ensures InsideFree(FreeAddrs(Release(bs, k)), Marked(bs, k))
  {
    var i, j, r, b := RunStart(bs, k), RunEnd(bs, k), Release(bs, k), Marked(bs, k);
    var run := r[i];
    MarkedAt(bs, k);
    hide Tiles, FreeAddrs, Release, Marked;
    RunSpan(bs, k, lo, hi);
    MarkedTiles(bs, k, lo, hi);
    TilesBounds(b, lo, hi);
    assert b[i] in b && b[j - 1] in b;
    EndsConfined(m3, m4, b, b[i], b[j - 1], run);
    RunInside(bs, k, lo, hi);
  }

  lemma RunInside(bs: seq<Block>, k: nat, lo: nat, hi: nat)
    requires Tiles(bs, lo, hi) && k < |bs| && !bs[k].free
    ensures InsideFree(FreeAddrs(Release(bs, k)), Marked(bs, k))
  {
    var i, r, b := RunStart(bs, k), Release(bs, k), Marked(bs, k);
    MarkedTiles(bs, k, lo, hi);
    TilesBounds(b, lo, hi);
    RunSpan(bs, k, lo, hi);
    RunRest(bs, k);
    FreeAddrsOf(r);
    assert b[i] in b && b[i].va == r[i].va;
    hide Tiles, FreeAddrs, Release, Marked;
    forall y | y in FreeAddrs(r) ensures exists c :: c in b && c.free && c.va <= y && y + 12 <= c.va + c.size {
      var c :| c in r && c.free && c.va == y;
      if c != r[i] { assert c in b; }
    }
  }

  /** The tags of a run from the free block `c` to the free block `d`. */
  lemma EndsConfined(m: seq<byte>, m': seq<byte>, bs: seq<Block>, c: Block, d: Block, run: Block)
    requires c in bs && c.free && d in bs && d.free && MIN_TOTAL <= c.size && MIN_TOTAL <= d.size
    requires run.va == c.va && run.va + run.size == d.va + d.size && OnlyTags(m, m', run)
    ensures Confined(m, m', bs, 0)
  {
    forall n | 0 <= n < |m| && m'[n] != m[n] ensures InFree(bs, n) {
      assert InTags(run, n);
      assert c.va - 4 <= n < c.va || d.va + d.size - 8 <= n < d.va + d.size - 4;
    }
  }

  lemma RunRest(bs: seq<Block>, k: nat)
    requires k < |bs|
    ensures forall c | c in Release(bs, k) && c != Release(bs, k)[RunStart(bs, k)] :: c in Marked(bs, k)
  {
    var i, j, r, b := RunStart(bs, k), RunEnd(bs, k), Release(bs, k), Marked(bs, k);
    forall c | c in r && c != r[i] ensures c in b {
      var n :| 0 <= n < |r| && r[n] == c;
      if n < i {
        assert b[n] == c;
      } else {
        assert b[n - i - 1 + j] == c;
      }
    }
  }

  lemma SpanSlice(bs: seq<Block>, i: nat, j: nat)
    requires i < j <= |bs| && j <= i + 3
    ensures Span(bs[i..j]) == bs[i].size + (if i + 1 < j then bs[i + 1].size else 0)
            + (if i + 2 < j then bs[i + 2].size else 0)
  {
    var s := bs[i..j];
    if j == i + 1 {
      assert s[1..] == [];
    } else if j == i + 2 {
      assert s[1..][1..] == [] && s[1..][0] == s[1];
      assert Span(s[1..]) == s[1].size;
    } else {
      assert s[1..][1..][1..] == [] && s[1..][1..][0] == s[2] && s[1..][0] == s[1];
      assert Span(s[1..][1..]) == s[2].size;
      assert Span(s[1..]) == s[1].size + s[2].size;
    }
  }

  lemma RunBlock(bs: seq<Block>, k: nat)
    requires k < |bs|
    ensures var i, j := RunStart(bs, k), RunEnd(bs, k);
            && |Release(bs, k)| == |bs| - (j - i) + 1
            && Release(bs, k)[i] == Block(bs[i].va, Span(bs[i..j]), true)
            && |Marked(bs, k)| == |bs| && Marked(bs, k)[i].free && Marked(bs, k)[j - 1].free
  {
  }

  /** Where the merged run lies and which blocks it is made of. */
  lemma RunSpan(bs: seq<Block>, k: nat, lo: nat, hi: nat)
    requires Tiles(bs, lo, hi) && k < |bs| && !bs[k].free
    ensures var i, j := RunStart(bs, k), RunEnd(bs, k);
            var run := Release(bs, k)[i];
            && run.va == bs[i].va && run.va + run.size == bs[j - 1].va + bs[j - 1].size && run.free
            && run.size == bs[k].size + (if i < k then bs[i].size else 0) + (if j > k + 1 then bs[k + 1].size else 0)
            && MIN_TOTAL <= run.size && run.size % 2 == 0
            && Marked(bs, k)[i].free && Marked(bs, k)[j - 1].free
  {
    var i, j := RunStart(bs, k), RunEnd(bs, k);
    BlockInside(bs, i, lo, hi);
    BlockInside(bs, k, lo, hi);
    BlockInside(bs, j - 1, lo, hi);
    Adjacent(bs, k, lo, hi);
    SpanSlice(bs, i, j);
    hide Tiles, Span, Release, Marked;
    RunBlock(bs, k);
  }

  /** With no free block anywhere, freeing merges nothing. */
  lemma ReleaseAlone(bs: seq<Block>, k: nat, lo: nat, hi: nat, len: nat)
    requires Tiles(bs, lo, hi) && 0 < lo && hi <= len && k < |bs| && !bs[k].free && FreeAddrs(bs) == []
    ensures Release(bs, k) == Marked(bs, k)
    ensures FreeAddrs(Release(bs, k)) == Inserted([], 0, bs[k].va) && Apart(Inserted([], 0, bs[k].va), len)
  {
    hide FreeAddrs, Tiles, Apart, Inserted, Span;
    AloneRun(bs, k);
    ReleaseListRun(bs, k, lo, hi, len);
    SpanSlice(bs, k, k + 1);
  }

  lemma AloneRun(bs: seq<Block>, k: nat)
    requires k < |bs| && !bs[k].free && FreeAddrs(bs) == []
    ensures RunStart(bs, k) == k && RunEnd(bs, k) == k + 1 && FreeAddrs(bs[..k]) == [] && FreeAddrs(bs[k + 1..]) == []
  {
    hide FreeAddrs;
    FreeAddrsAt(bs, k);
    ReleaseListBefore(bs, k);
    ReleaseListBehind(bs, k);
  }

  /** The words free_block reads around block `k`, as the numbers it computes from them. */
  lemma NeighbourWords(m: seq<byte>, bs: seq<Block>, k: nat, lo: nat, hi: nat)
    requires Tiles(bs, lo, hi) && 8 <= lo <= hi <= |m| && k < |bs| && !bs[k].free && AllTagged(m, Marked(bs, k))
    requires Load(m, hi - 4) == 1
    ensures 8 <= bs[k].va && bs[k].va + bs[k].size <= |m|
    ensures Load(m, bs[k].va - 4) == bs[k].size && bs[k].size % 2 == 0
    ensures var w := Load(m, bs[k].va - 8);
            && (k == 0 ==> bs[k].va == lo && w == Load(m, lo - 8))
            && (k > 0 ==> w == Tag(bs[k - 1]) && bs[k - 1].va + bs[k - 1].size == bs[k].va && 4 < bs[k - 1].va
                          && 0 < bs[k - 1].size && bs[k - 1].size % 2 == 0 && Load(m, bs[k - 1].va - 4) == w)
    ensures var w := Load(m, bs[k].va + bs[k].size - 4);
            && (k + 1 == |bs| ==> w == 1)
            && (k + 1 < |bs| ==> w == Tag(bs[k + 1]) && bs[k].va + bs[k].size == bs[k + 1].va
                                 && 0 < bs[k + 1].size && bs[k + 1].size % 2 == 0)
  {
    hide Load, Tiles;
    var b := Marked(bs, k);
    MarkedTiles(bs, k, lo, hi);
    Neighbours(m, b, k, lo, hi);
    BlockInside(b, k, lo, hi);
    AllTaggedAt(m, b, k);
  }

  /** After the block before `k` has left the list, the list still holds only free blocks. */
  lemma RunListHolds(bs: seq<Block>, k: nat, b: seq<Block>)
    requires k < |bs| && !bs[k].free && Within(FreeAddrs(bs), b) && InsideFree(FreeAddrs(bs), b)
    ensures var l1 := FreeAddrs(bs[..RunStart(bs, k)]) + FreeAddrs(bs[k + 1..]);
            Within(l1, b) && InsideFree(l1, b)
  {
    var i := RunStart(bs, k);
    var l1 := FreeAddrs(bs[..i]) + FreeAddrs(bs[k + 1..]);
    FreeAddrsAt(bs, k);
    if i < k {
      FreeAddrsAt(bs[..k], i);
      assert bs[..k][..i] == bs[..i];
    }
    assert forall y | y in l1 :: y in FreeAddrs(bs);
  }

  /** Freeing a block that was just placed changes bytes of the free blocks before the placement only. */
  lemma ReplacedConfined(m: seq<byte>, m': seq<byte>, bs: seq<Block>, k: nat, need: nat, lo: nat, hi: nat)
    requires Tiles(bs, lo, hi) && k < |bs| && bs[k].free && need <= bs[k].size
    requires Place(bs, k, need)[k].free == false
    requires Confined(m, m', Marked(Place(bs, k, need), k), 0)
    ensures Confined(m, m', bs, hi)
  {
    var p, c := Place(bs, k, need), Carve(bs[k], need);
    var b := Marked(p, k);
    assert bs[k] in bs;
    forall i | 0 <= i < |m| && m'[i] != m[i] ensures InFree(bs, i) {
      var d :| d in b && d.free && d.va - 4 <= i < d.va + d.size - 4;
      var n :| 0 <= n < |b| && b[n] == d;
      if n < k {
        assert bs[n] == d && bs[n] in bs;
      } else if n >= k + |c| {
        assert bs[n - |c| + 1] == d && bs[n - |c| + 1] in bs;
      } else {
        assert p[n] == c[n - k];
        assert bs[k].va - 4 <= i < bs[k].va + bs[k].size - 4;
      }
    }
  }
}
