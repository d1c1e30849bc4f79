/** The layout of addresses and tables, and integer division as in C. */
module Mmu {

  const WORD_LIMIT: nat := 0x1_0000_0000  // words and addresses have 32 bits
  const PAGE_SIZE: nat := 4096
  const ENTRIES := 1024
  const USER_ENTRIES := 955  // PDX(USER_TOP): the directory entries of user space
  const USER_TOP := 0xEEC0_0000
  const KERNEL_BASE := 0xF000_0000

  function PDX(va: int): int { va / (PAGE_SIZE * ENTRIES) }
  function PTX(va: int): int { va / PAGE_SIZE % ENTRIES }

  /** An empty table. */
  function Zeros(): seq<int> { seq(ENTRIES, _ => 0) }

  /** Division as in C: toward zero. */
  function TruncDiv(n: int, d: int): int
    requires d > 0
  {
    if n >= 0 then n / d else -((-n) / d)
  }

  /** The remainder is smaller than the divisor and has the sign of the dividend. */
  lemma TruncDivIs(n: int, d: int)
    requires d > 0
    ensures var r := n - d * TruncDiv(n, d); -d < r < d && (n >= 0 ==> r >= 0) && (n <= 0 ==> r <= 0)
  {
  }

  /** Directory and table index together are the page number of an address. */
  lemma IndicesAre(va: int)
    requires 0 <= va < 0x1_0000_0000
    ensures 0 <= PDX(va) < 1024 && 0 <= PTX(va) < 1024 && va / 4096 == PDX(va) * 1024 + PTX(va)
    ensures va < 0xEEC0_0000 <==> PDX(va) < USER_ENTRIES
  {
  }
}
