/** The 32-bit machine words of the kernel.

    Memory is an array of words.  A pointer to a word-aligned object is represented by the
    number of the word it addresses (its byte address divided by 4), and NULL is word 0.
    Byte counts (`size_t`) stay in bytes and wrap modulo 2^32. */
module Words {
  const WORD_RANGE: int := 0x1_0000_0000

  /** The number of words a 32-bit address space holds. */
  const MEM_WORDS: int := 0x4000_0000

  type Word = w: int | 0 <= w < 0x1_0000_0000

  /** The value a `size_t` holds after an arithmetic operation with mathematical result x. */
  function Wrap(x: int): Word {
    x % 0x1_0000_0000
  }
}
