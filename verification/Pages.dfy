/** Page arithmetic of common.h, over unbounded integers; 64-bit limits are written out where they matter. */
module Pages {
  const PAGE_SIZE: nat := 0x1000
  /** One past the largest 64-bit value: the modulus of pointer and size_t arithmetic. */
  const WORD: nat := 0x1_0000_0000_0000_0000
  type Word = w: int | 0 <= w < WORD

  /** First address that user mappings cannot reach on x86-64, and the lowest one mmap accepts. */
  const TASK_SIZE: nat := 0x7FFF_FFFF_F000
  const MMAP_MIN_ADDR: nat := 0x10000

  function RoundDown(x: nat): nat {
    x - x % PAGE_SIZE
  }

  function RoundUp(x: nat): nat {
    RoundDown(x + PAGE_SIZE - 1)
  }

  function PageOffset(x: nat): nat {
    x % PAGE_SIZE
  }

  predicate Aligned(x: nat) {
    x % PAGE_SIZE == 0
  }

  /** x is one of the n addresses starting at addr. */
  predicate Covers(addr: nat, n: nat, x: nat) {
    addr <= x < addr + n
  }

  predicate SamePage(a: nat, b: nat) {
    a / PAGE_SIZE == b / PAGE_SIZE
  }

  /** RoundUp is the least aligned value that is at least x; RoundDown the greatest that is at most x. */
  lemma RoundingIsTight(x: nat, p: nat)
    requires Aligned(p)
    ensures Aligned(RoundUp(x)) && Aligned(RoundDown(x))
    ensures x <= p <==> RoundUp(x) <= p
    ensures p <= x <==> p <= RoundDown(x)
    ensures RoundDown(x) <= x < RoundDown(x) + PAGE_SIZE
    ensures x <= RoundUp(x) < x + PAGE_SIZE
  {
  }

  lemma RoundUpShift(p: nat, n: nat)
    requires Aligned(p)
    ensures RoundUp(p + n) == p + RoundUp(n)
  {
  }

  /** The last byte below an unaligned end shares its page with everything up to the rounded end. */
  lemma TailSharesPage(lo: nat, n: nat, b: nat)
    requires Aligned(lo) && 0 < n && lo + n <= b < RoundUp(lo + n)
    ensures SamePage(lo + n - 1, b)
  {
  }

  /** The source computes both roundings with a mask on 64-bit words. */
  lemma MasksAreRoundings(x: bv64)
    ensures x & !0xFFF == x - x % 0x1000
    ensures (x + 0xFFF) & !0xFFF == (x + 0xFFF) - (x + 0xFFF) % 0x1000
    ensures x & 0xFFF == x % 0x1000
  {
  }

  /** Their meaning on numbers: the nearest multiples of 4096. */
  lemma RoundingsAre(x: nat)
    ensures RoundDown(x) == x / 0x1000 * 0x1000 && RoundUp(x) == (x + 0xFFF) / 0x1000 * 0x1000
    ensures PageOffset(x) == x % 0x1000 && (Aligned(x) <==> x % 0x1000 == 0)
  {
  }
}
