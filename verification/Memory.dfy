/** Byte-addressed memory holding 32-bit little-endian words at any address. */
module Memory {
  import opened Mmu

  newtype byte = x: int | 0 <= x < 256

  /** The word stored in the four bytes that start at `a`. */
  function Load(m: seq<byte>, a: nat): nat
    requires a + 4 <= |m|
  {
    m[a] as nat + 0x100 * m[a + 1] as nat + 0x1_0000 * m[a + 2] as nat + 0x100_0000 * m[a + 3] as nat
  }

  /** The four bytes of a word, least significant first. */
  function Bytes(w: nat): (s: seq<byte>)
    requires w < WORD_LIMIT
    ensures |s| == 4
  {
    [(w % 0x100) as byte, (w / 0x100 % 0x100) as byte, (w / 0x1_0000 % 0x100) as byte, (w / 0x100_0000) as byte]
  }

  /** `m` and `m'` hold the same bytes from `lo` up to but excluding `hi`. */
  ghost predicate SameOn(m: seq<byte>, m': seq<byte>, lo: int, hi: int) {
    |m| == |m'| && forall i | 0 <= i < |m| && lo <= i < hi :: m'[i] == m[i]
  }

  lemma LoadBytes(m: seq<byte>, a: nat, w: nat)
    requires w < WORD_LIMIT && a + 4 <= |m| && m[a..a + 4] == Bytes(w)
    ensures Load(m, a) == w
  {
    var s := m[a..a + 4];
    assert s[0] == m[a] && s[1] == m[a + 1] && s[2] == m[a + 2] && s[3] == m[a + 3];
    var q1, q2 := w / 0x100, w / 0x1_0000;
    assert q2 == q1 / 0x100 && w / 0x100_0000 == q2 / 0x100;
  }

  lemma LoadSame(m: seq<byte>, m': seq<byte>, a: nat)
    requires a + 4 <= |m| && SameOn(m, m', a, a + 4)
    ensures Load(m', a) == Load(m, a)
  {
  }

  lemma ZeroWord(m: seq<byte>, a: nat)
    requires a + 4 <= |m| && m[a] == 0 && m[a + 1] == 0 && m[a + 2] == 0 && m[a + 3] == 0
    ensures Load(m, a) == 0
  {
  }
}
