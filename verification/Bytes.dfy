/** Bytes of the word memory, least significant first, and the byte loops of string.c. */
module Bytes {
  import opened Words

  type Byte = b: int | 0 <= b < 256

  /** Byte k of a word. */
  function ByteOf(w: nat, k: nat): Byte {
    if k == 0 then w % 256 else ByteOf(w / 256, k - 1)
  }

  /** The word with byte k replaced. */
  function WithByte(w: nat, k: nat, b: Byte): nat {
    if k == 0 then w / 256 * 256 + b else WithByte(w / 256, k - 1, b) * 256 + w % 256
  }

  function Pow256(n: nat): nat {
    if n == 0 then 1 else 256 * Pow256(n - 1)
  }

  lemma Below256(w: nat, p: nat)
    requires w < 256 * p
    ensures w / 256 < p
  {
  }

  lemma Compose256(a: nat, b: Byte, p: nat)
    requires a < p
    ensures a * 256 + b < 256 * p
  {
  }

  lemma {:induction false} WithByteFits(w: nat, k: nat, b: Byte, n: nat)
    requires w < Pow256(n) && k < n
    ensures WithByte(w, k, b) < Pow256(n)
  {
    Below256(w, Pow256(n - 1));
    if k == 0 {
      Compose256(w / 256, b, Pow256(n - 1));
    } else {
      WithByteFits(w / 256, k - 1, b, n - 1);
      Compose256(WithByte(w / 256, k - 1, b), w % 256, Pow256(n - 1));
    }
  }

  lemma DivMod256(a: nat, b: Byte)
    ensures (a * 256 + b) / 256 == a && (a * 256 + b) % 256 == b
  {
  }

  lemma {:induction false} ByteOfWithByte(w: nat, k: nat, b: Byte, j: nat)
    ensures ByteOf(WithByte(w, k, b), j) == if j == k then b else ByteOf(w, j)
  {
    if k == 0 {
      DivMod256(w / 256, b);
    } else {
      DivMod256(WithByte(w / 256, k - 1, b), w % 256);
      if j > 0 {
        ByteOfWithByte(w / 256, k - 1, b, j - 1);
      }
    }
  }

  lemma {:induction false} SameBytes(v: nat, w: nat, n: nat)
    requires v < Pow256(n) && w < Pow256(n)
    requires forall k: nat :: k < n ==> ByteOf(v, k) == ByteOf(w, k)
    ensures v == w
  {
    if n > 0 {
      forall k: nat | k < n - 1
        ensures ByteOf(v / 256, k) == ByteOf(w / 256, k)
      {
        assert ByteOf(v, k + 1) == ByteOf(w, k + 1);
      }
      SameBytes(v / 256, w / 256, n - 1);
      assert ByteOf(v, 0) == ByteOf(w, 0);
    }
  }

  lemma WordRange()
    ensures Pow256(4) == WORD_RANGE
  {
    assert Pow256(2) == 0x1_0000;
  }

  // ----- Byte addresses -----

  /** The byte at byte address a. */
  function Load(m: seq<Word>, a: int): Byte
    requires 0 <= a < 4 * |m|
  {
    ByteOf(m[a / 4], a % 4)
  }

  /** Memory after one byte is stored. */
  function Store(m: seq<Word>, a: int, b: Byte): (m': seq<Word>)
    requires 0 <= a < 4 * |m|
    ensures |m'| == |m|
  {
    WordRange();
    WithByteFits(m[a / 4], a % 4, b, 4);
    m[a / 4 := WithByte(m[a / 4], a % 4, b)]
  }

  lemma LoadStore(m: seq<Word>, a: int, b: Byte, x: int)
    requires 0 <= a < 4 * |m| && 0 <= x < 4 * |m|
    ensures Load(Store(m, a, b), x) == if x == a then b else Load(m, x)
  {
    ByteOfWithByte(m[a / 4], a % 4, b, x % 4);
  }

  /** The four bytes of word w' of m' are those of word w of m. */
  ghost predicate SameFour(m: seq<Word>, w: nat, m': seq<Word>, w': nat)
    requires w < |m| && w' < |m'|
  {
    && Load(m', 4 * w') == Load(m, 4 * w)
    && Load(m', 4 * w' + 1) == Load(m, 4 * w + 1)
    && Load(m', 4 * w' + 2) == Load(m, 4 * w + 2)
    && Load(m', 4 * w' + 3) == Load(m, 4 * w + 3)
  }

  lemma WordOfBytes(m: seq<Word>, w: nat, m': seq<Word>, w': nat)
    requires w < |m| && w' < |m'| && SameFour(m, w, m', w')
    ensures m'[w'] == m[w]
  {
    WordRange();
    forall k: nat | k < 4
      ensures ByteOf(m'[w'], k) == ByteOf(m[w], k)
    {
      LoadAt(m, w, k);
      LoadAt(m', w', k);
    }
    SameBytes(m'[w'], m[w], 4);
  }

  lemma LoadAt(m: seq<Word>, w: nat, k: nat)
    requires w < |m| && k < 4
    ensures Load(m, 4 * w + k) == ByteOf(m[w], k)
  {
  }

  // ----- string.c -----

  /** Memory after n bytes from address s are set to c. */
  ghost predicate Filled(m: seq<Word>, m': seq<Word>, s: int, n: int, c: Byte) {
    |m'| == |m| && forall x :: 0 <= x < 4 * |m| ==> Load(m', x) == if s <= x < s + n then c else Load(m, x)
  }

  method StoreByte(mem: array<Word>, a: int, b: Byte)
    requires 0 <= a < 4 * mem.Length
    modifies mem
    ensures mem[..] == Store(old(mem[..]), a, b)
  {
    WordRange();
    WithByteFits(mem[a / 4], a % 4, b, 4);
    mem[a / 4] := WithByte(mem[a / 4], a % 4, b);
  }

  method MemSet(mem: array<Word>, s: int, c: Byte, n: nat)
    requires 0 <= s && s + n <= 4 * mem.Length
    modifies mem
    ensures Filled(old(mem[..]), mem[..], s, n, c)
  {
    var p, left := s, n;
    while left > 0
      invariant p == s + n - left
      invariant 0 <= left <= n
      invariant Filled(old(mem[..]), mem[..], s, n - left, c)
    {
      ghost var m := mem[..];
      left := left - 1;
      StoreByte(mem, p, c);
      FilledMore(old(mem[..]), m, s, p - s, c);
      p := p + 1;
    }
  }

  lemma FilledMore(m: seq<Word>, m1: seq<Word>, s: int, n: nat, c: Byte)
    requires 0 <= s && s + n < 4 * |m| && Filled(m, m1, s, n, c)
    ensures Filled(m, Store(m1, s + n, c), s, n + 1, c)
  {
    hide Load, Store;
    var m2 := Store(m1, s + n, c);
    forall x {:trigger Load(m2, x)} | 0 <= x < 4 * |m|
      ensures Load(m2, x) == if s <= x < s + (n + 1) then c else Load(m, x)
    {
      LoadStore(m1, s + n, c, x);
    }
  }

  /** Memory after n bytes are copied from s to d. */
  ghost predicate Copied(m: seq<Word>, m': seq<Word>, d: int, s: int, n: int) {
    |m'| == |m| && 0 <= s && s + n <= 4 * |m| &&
    forall x {:trigger Load(m', x)} :: 0 <= x < 4 * |m| ==>
      Load(m', x) == if d <= x < d + n then Load(m, s + (x - d)) else Load(m, x)
  }

  lemma NothingCopied(m: seq<Word>, d: int, s: int)
    requires 0 <= s <= 4 * |m|
    ensures Copied(m, m, d, s, 0)
  {
  }

  /** memcpy of two areas that do not overlap. */
  method MemCpy(mem: array<Word>, dest: int, src: int, n: nat)
    requires 0 <= dest && dest + n <= 4 * mem.Length && 0 <= src && src + n <= 4 * mem.Length
    requires dest + n <= src || src + n <= dest
    modifies mem
    ensures Copied(old(mem[..]), mem[..], dest, src, n)
  {
    hide Copied, Store;
    var d, s, left := dest, src, n;
    NothingCopied(mem[..], dest, src);
    while left > 0
      invariant d == dest + n - left && s == src + n - left
      invariant 0 <= left <= n
      invariant Copied(old(mem[..]), mem[..], dest, src, n - left)
    {
      ghost var m := mem[..];
      left := left - 1;
      StoreByte(mem, d, ByteOf(mem[s / 4], s % 4));
      CopiedMore(old(mem[..]), m, dest, src, d - dest);
      d, s := d + 1, s + 1;
    }
  }

  lemma CopiedMore(m: seq<Word>, m1: seq<Word>, d: int, s: int, n: nat)
    requires 0 <= d && d + n < 4 * |m| && 0 <= s && s + n < 4 * |m| && Copied(m, m1, d, s, n)
    requires s + n < d || d + n <= s + n
    ensures Copied(m, Store(m1, d + n, Load(m1, s + n)), d, s, n + 1)
  {
    hide Load, Store;
    var m2 := Store(m1, d + n, Load(m1, s + n));
    forall x {:trigger Load(m2, x)} | 0 <= x < 4 * |m|
      ensures Load(m2, x) == if d <= x < d + (n + 1) then Load(m, s + (x - d)) else Load(m, x)
    {
      CopiedByte(m, m1, d, s, n, x);
    }
  }

  lemma CopiedByte(m: seq<Word>, m1: seq<Word>, d: int, s: int, n: nat, x: int)
    requires 0 <= d && d + n < 4 * |m| && 0 <= s && s + n < 4 * |m| && Copied(m, m1, d, s, n)
    requires s + n < d || d + n <= s + n
    requires 0 <= x < 4 * |m|
    ensures Load(Store(m1, d + n, Load(m1, s + n)), x)
      == if d <= x < d + (n + 1) then Load(m, s + (x - d)) else Load(m, x)
  {
    hide Load, Store;
    assert Load(m1, s + n) == Load(m, s + n);
    LoadStore(m1, d + n, Load(m1, s + n), x);
  }
}
