/** Size classes of the free lists (memory.c:68-75): slot n holds sizes from 2^n up to 2^(n+1) - 1. */
module Slots {
  import opened Words

  const NUM_SIZES: int := 32

  function Pow2(n: nat): (p: nat)
    ensures p > 0
  {
    if n == 0 then 1 else 2 * Pow2(n - 1)
  }

  /** The number of halvings that take size to 0, less one. */
  function Slot(size: nat): int {
    if size == 0 then -1 else 1 + Slot(size / 2)
  }

  /** The slot is the rounded-down base 2 logarithm. */
  lemma {:induction false} SlotIsLog2(size: nat)
    requires size > 0
    ensures Slot(size) >= 0 && Pow2(Slot(size)) <= size < Pow2(Slot(size) + 1)
  {
    if size > 1 {
      SlotIsLog2(size / 2);
    }
  }

  lemma {:induction false} Pow2Monotonic(a: nat, b: nat)
    requires a <= b
    ensures Pow2(a) <= Pow2(b)
    decreases b
  {
    if a < b {
      Pow2Monotonic(a, b - 1);
    }
  }

  /** A size is in slot l or above exactly when it is at least 2^l. */
  lemma SlotAtLeast(size: nat, l: nat)
    ensures Slot(size) >= l <==> size >= Pow2(l)
  {
    if size > 0 {
      SlotIsLog2(size);
      if Slot(size) >= l {
        Pow2Monotonic(l, Slot(size));
      } else {
        Pow2Monotonic(Slot(size) + 1, l);
      }
    }
  }

  lemma Pow2Of32()
    ensures Pow2(32) == WORD_RANGE
  {
    assert Pow2(8) == 0x100;
    assert Pow2(16) == 0x1_0000;
    assert Pow2(24) == 0x100_0000;
  }

  /** Every size_t that is not 0 has a slot in 0..31. */
  lemma SlotInRange(size: Word)
    requires size > 0
    ensures 0 <= Slot(size) < NUM_SIZES
  {
    SlotIsLog2(size);
    SlotAtLeast(size, 32);
    Pow2Of32();
  }

  method MemoryChunkSlot(size: Word) returns (n: int)
    ensures n == Slot(size)
    ensures size == 0 ==> n == -1
    ensures size > 0 ==> 0 <= n < NUM_SIZES && Pow2(n) <= size < Pow2(n + 1)
  {
    n := -1;
    var rest := size;
    while rest > 0
      invariant Slot(size) == n + 1 + Slot(rest)
    {
      n := n + 1;
      rest := rest / 2;
    }
    if size > 0 {
      SlotIsLog2(size);
      SlotInRange(size);
    }
  }

  // ----- Rounding of requests (memory.c:100-101) -----

  const ALIGN: int := 4
  const MIN_SIZE: int := 8

  /** The size malloc looks for: rounded up to ALIGN in size_t arithmetic, and at least MIN_SIZE. */
  function Round(size: Word): (r: Word)
    ensures r >= MIN_SIZE && r % ALIGN == 0
  {
    var aligned := Wrap(size + ALIGN - 1) / ALIGN * ALIGN;
    if aligned < MIN_SIZE then MIN_SIZE else aligned
  }

  /** Rounding keeps the promise to return enough memory exactly up to 2^32 - 4 bytes;
      above that the sum wraps to 0 and malloc looks for MIN_SIZE bytes. */
  lemma RoundCovers(size: Word)
    ensures size <= Round(size) <==> size <= 0xFFFF_FFFC
    ensures Round(size) % 4 == 0 && Round(size) >= 8
    ensures size <= 0xFFFF_FFFC ==> Round(size) < size + 4 || Round(size) == 8
    ensures size > 0xFFFF_FFFC ==> Round(size) == 8
  {
  }

  /** The first free list malloc looks at. */
  function FirstSlot(req: Word): (n: int)
    requires req > 0
  {
    Slot(req - 1) + 1
  }

  /** It is the rounded-up base 2 logarithm of the request. */
  lemma FirstSlotIsCeilLog2(req: Word)
    requires req > 1
    ensures 1 <= FirstSlot(req) <= 32
    ensures req <= Pow2(FirstSlot(req)) < 2 * req
  {
    SlotIsLog2(req - 1);
    SlotInRange(req - 1);
  }
}
