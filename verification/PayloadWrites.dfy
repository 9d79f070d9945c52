/** Writes by the owner of a block: they leave the allocator's structure and all other blocks alone. */
module PayloadWrites {
  import opened Words
  import opened DList
  import opened HeapSpec
  import opened HeapOps
  import opened HeapLaws
  import opened HeapLayout
  import opened Contents
  import opened Bytes

  /** Only words from lo up to hi differ. */
  ghost predicate Between(m: seq<Word>, m': seq<Word>, lo: int, hi: int) {
    |m'| == |m| && forall w :: 0 <= w < |m| && !(lo <= w < hi) ==> m'[w] == m[w]
  }

  /** The range lies in the payload of chunk j, which is in use. */
  ghost predicate Inside(cs: seq<int>, free: set<int>, j: nat, lo: int, hi: int) {
    Tiled(cs) && free <= ToSet(cs) && j + 1 < |cs| && cs[j] !in free && cs[j] + DATA <= lo <= hi <= cs[j + 1]
  }

  lemma CellKept(m: seq<Word>, m': seq<Word>, cs: seq<int>, free: set<int>, j: nat, lo: int, hi: int, w: int)
    requires Inside(cs, free, j, lo, hi) && Between(m, m', lo, hi) && 0 <= w < |m| && w in Meta(ToSet(cs), free)
    ensures m'[w] == m[w]
  {
    if lo <= w < hi {
      PayloadNotMeta(cs, free, j, w);
    }
  }

  lemma MetaCells(chunks: set<int>, free: set<int>, c: int)
    requires c in chunks
    ensures c in Meta(chunks, free) && c + 1 in Meta(chunks, free) && c + USED in Meta(chunks, free)
    ensures c in free ==> c + FREE in Meta(chunks, free) && c + FREE + 1 in Meta(chunks, free)
  {
    assert c + 0 in Cells(chunks, {0, 1, 2}) && c + 1 in Cells(chunks, {0, 1, 2}) && c + 2 in Cells(chunks, {0, 1, 2});
    if c in free {
      assert c + 3 in Cells(free, {3, 4}) && c + 4 in Cells(free, {3, 4});
    }
  }

  lemma NodeKept(m: seq<Word>, m': seq<Word>, cs: seq<int>, free: set<int>, j: nat, lo: int, hi: int, c: int, off: int)
    requires InMemory(m, cs) && Inside(cs, free, j, lo, hi) && Between(m, m', lo, hi)
    requires c in ToSet(cs) && (off == ALL || (off == FREE && c in free))
    ensures NodeSame(m, m', c + off)
  {
    hide Inside, Meta, ToSet, Between;
    MetaCells(ToSet(cs), free, c);
    ChunkInMemory(m, cs, c);
    CellKept(m, m', cs, free, j, lo, hi, c + off);
    CellKept(m, m', cs, free, j, lo, hi, c + off + 1);
    BetweenLength(m, m', lo, hi);
  }

  lemma BetweenLength(m: seq<Word>, m': seq<Word>, lo: int, hi: int)
    requires Between(m, m', lo, hi)
    ensures |m'| == |m|
  {
  }

  lemma RingKept(m: seq<Word>, m': seq<Word>, cs: seq<int>, free: set<int>, j: nat, lo: int, hi: int, s: seq<int>,
                 off: int)
    requires InMemory(m, cs) && Inside(cs, free, j, lo, hi) && Between(m, m', lo, hi)
    requires Ring(m, s, off) && ToSet(s) <= ToSet(cs) && (off == ALL || (off == FREE && ToSet(s) <= free))
    ensures Ring(m', s, off)
  {
    hide InMemory, Inside, Between, Ring, NodeSame, ToSet;
    forall i | 0 <= i < |s|
      ensures NodeSame(m, m', s[i] + off)
    {
      InToSet(s, i);
      NodeKept(m, m', cs, free, j, lo, hi, s[i], off);
    }
    BetweenLength(m, m', lo, hi);
    RingSame(m, m', s, off);
  }

  lemma FlagsKept(m: seq<Word>, m': seq<Word>, cs: seq<int>, free: set<int>, j: nat, lo: int, hi: int)
    requires InMemory(m, cs) && Inside(cs, free, j, lo, hi) && Between(m, m', lo, hi) && Flags(m, cs, free)
    ensures Flags(m', cs, free)
  {
    hide InMemory, Inside, Between, ToSet, Meta;
    BetweenLength(m, m', lo, hi);
    forall i | 0 <= i < |cs|
      ensures 0 <= cs[i] + USED < |m'| && m'[cs[i] + USED] == if cs[i] in free then 0 else 1
    {
      InToSet(cs, i);
      MetaCells(ToSet(cs), free, cs[i]);
      CellKept(m, m', cs, free, j, lo, hi, cs[i] + USED);
    }
  }

  /** A write inside a block in use leaves the structure as it was. */
  lemma StructureKept(m: seq<Word>, m': seq<Word>, heads: seq<Word>, h: Heap, j: nat, lo: int, hi: int)
    requires Holds(m, heads, h.cs, h.lists, h.free) && ListedIn(h.lists, h.free)
    requires Inside(h.cs, h.free, j, lo, hi) && Between(m, m', lo, hi)
    ensures Holds(m', heads, h.cs, h.lists, h.free)
  {
    HoldsParts(m, heads, h.cs, h.lists, h.free);
    hide InMemory, Inside, Between, Ring, Flags, ToSet, Tiled;
    RingKept(m, m', h.cs, h.free, j, lo, hi, h.cs, ALL);
    FlagsKept(m, m', h.cs, h.free, j, lo, hi);
    forall l | 0 <= l < |h.lists|
      ensures ListAt(m', heads[l], h.lists[l])
    {
      RingKept(m, m', h.cs, h.free, j, lo, hi, h.lists[l], FREE);
    }
    BetweenLength(m, m', lo, hi);
    MemorySame(m, m', h.cs);
  }

  lemma OtherBlockKept(m: seq<Word>, m': seq<Word>, h: Heap, p: int, lo: int, hi: int, q: int)
    requires Tiled(h.cs) && p in Blocks(h) && q in Blocks(h) && q != p
    requires p <= lo <= hi <= p + Blocks(h)[p] / 4 && Between(m, m', lo, hi)
    ensures Payload(m', q, Blocks(h)[q]) == Payload(m, q, Blocks(h)[q])
  {
    hide Blocks;
    var i := BlockPlace(h, p);
    var j := BlockPlace(h, q);
    assert h.cs[i] < h.cs[j] ==> h.cs[i + 1] <= h.cs[j];
    assert h.cs[j] < h.cs[i] ==> h.cs[j + 1] <= h.cs[i];
    hide Tiled;
    if 0 <= q <= q + Blocks(h)[q] / 4 <= |m| {
      forall w | q <= w < q + Blocks(h)[q] / 4
        ensures m'[w] == m[w]
      {
      }
    }
  }

  /** The words of a block in use lie in the region. */
  lemma BlockInRegion(m: seq<Word>, h: Heap, p: int) returns (j: nat)
    requires InMemory(m, h.cs) && p in Blocks(h)
    ensures j + 1 < |h.cs| && h.cs[j] == p - HEADER && h.cs[j] !in h.free && Blocks(h)[p] == 4 * (h.cs[j + 1] - p)
    ensures h.cs[0] <= p <= p + Blocks(h)[p] / 4 <= h.cs[|h.cs| - 1] < |m|
  {
    hide Blocks;
    j := BlockPlace(h, p);
  }

  /** A write inside block p changes the contents of p only. */
  lemma ContentsKept(m: seq<Word>, m': seq<Word>, h: Heap, p: int, lo: int, hi: int)
    requires Inv(h) && InMemory(m, h.cs) && p in Blocks(h) && p <= lo <= hi <= p + Blocks(h)[p] / 4
    requires Between(m, m', lo, hi)
    ensures p in ContentsOf(m', h) && ContentsOf(m', h) == ContentsOf(m, h)[p := ContentsOf(m', h)[p]]
    ensures |h.cs| > 0 && OutsideSame(m, m', h.cs)
  {
    hide Inv, Blocks, Payload, Tiled;
    InvParts(h);
    var j := BlockInRegion(m, h, p);
    forall q | q in Blocks(h) && q != p
      ensures Payload(m', q, Blocks(h)[q]) == Payload(m, q, Blocks(h)[q])
    {
      OtherBlockKept(m, m', h, p, lo, hi, q);
    }
  }

  /** The same, for memory that holds a heap. */
  lemma OwnerWrites(m: seq<Word>, m': seq<Word>, heads: seq<Word>, h: Heap, p: int, lo: int, hi: int)
    requires Inv(h) && Holds(m, heads, h.cs, h.lists, h.free)
    requires p in Blocks(h) && p <= lo <= hi <= p + Blocks(h)[p] / 4 && Between(m, m', lo, hi)
    ensures Holds(m', heads, h.cs, h.lists, h.free)
    ensures p in ContentsOf(m', h) && ContentsOf(m', h) == ContentsOf(m, h)[p := ContentsOf(m', h)[p]]
    ensures |h.cs| > 0 && OutsideSame(m, m', h.cs)
  {
    hide Inv, Blocks, Holds, ContentsOf, Between, OutsideSame;
    HoldsParts(m, heads, h.cs, h.lists, h.free);
    ListedFree(h);
    var j := BlockInRegion(m, h, p);
    assert Inside(h.cs, h.free, j, lo, hi);
    StructureKept(m, m', heads, h, j, lo, hi);
    ContentsKept(m, m', h, p, lo, hi);
  }

  /** Filling bytes from word p on touches only the words up to hi. */
  lemma FilledBetween(m: seq<Word>, m': seq<Word>, p: int, n: int, c: Byte, hi: int)
    requires 0 <= p && Filled(m, m', 4 * p, n, c) && 4 * p + n <= 4 * hi
    ensures Between(m, m', p, hi)
  {
    forall w | 0 <= w < |m| && !(p <= w < hi)
      ensures m'[w] == m[w]
    {
      WordOfBytes(m, w, m', w);
    }
  }

  lemma CopiedBetween(m: seq<Word>, m': seq<Word>, d: int, s: int, n: int, hi: int)
    requires 0 <= d && Copied(m, m', 4 * d, 4 * s, n) && 4 * d + n <= 4 * hi
    ensures Between(m, m', d, hi)
  {
    forall w | 0 <= w < |m| && !(d <= w < hi)
      ensures m'[w] == m[w]
    {
      WordOfBytes(m, w, m', w);
    }
  }

  /** Copying whole words copies words. */
  lemma CopiedWords(m: seq<Word>, m': seq<Word>, d: int, s: int, n: int)
    requires 0 <= d && 0 <= s && 0 <= n && d + n <= |m| && Copied(m, m', 4 * d, 4 * s, 4 * n)
    ensures |m'| == |m| && s + n <= |m| && m'[d..d + n] == m[s..s + n]
  {
    hide Copied, SameFour, ByteOf, Load;
    CopiedBounds(m, m', 4 * d, 4 * s, 4 * n);
    forall w | d <= w < d + n
      ensures m'[w] == m[s + (w - d)]
    {
      CopiedFour(m, m', d, s, n, w);
      WordOfBytes(m, s + (w - d), m', w);
    }
  }

  lemma CopiedBounds(m: seq<Word>, m': seq<Word>, d: int, s: int, n: int)
    requires Copied(m, m', d, s, n)
    ensures |m'| == |m| && 0 <= s && s + n <= 4 * |m|
  {
  }

  lemma CopiedFour(m: seq<Word>, m': seq<Word>, d: int, s: int, n: int, w: int)
    requires 0 <= d <= w < d + n <= |m| && Copied(m, m', 4 * d, 4 * s, 4 * n)
    ensures 0 <= s && s + n <= |m| == |m'| && SameFour(m, s + (w - d), m', w)
  {
    hide ByteOf;
  }

  lemma ContentsAt(m: seq<Word>, h: Heap, p: int)
    requires Inv(h) && InMemory(m, h.cs) && p in Blocks(h)
    ensures p in ContentsOf(m, h) && 0 <= p <= p + Blocks(h)[p] / 4 <= |m|
    ensures ContentsOf(m, h)[p] == m[p..p + Blocks(h)[p] / 4]
    ensures Blocks(h)[p] % 4 == 0 && 4 * |ContentsOf(m, h)[p]| == Blocks(h)[p]
  {
    hide Inv, Blocks;
    var j := BlockInRegion(m, h, p);
  }

  /** The new and the old block of realloc do not overlap. */
  lemma MoveApart(m: seq<Word>, h: Heap, p: int, r: int)
    requires Inv(h) && InMemory(m, h.cs) && p in Blocks(h) && r in Blocks(h) && p != r
    ensures p + Blocks(h)[p] / 4 <= r || r + Blocks(h)[r] / 4 <= p
    ensures 0 <= p && 0 <= r && p + Blocks(h)[p] / 4 <= |m| && r + Blocks(h)[r] / 4 <= |m|
    ensures Blocks(h)[p] % 4 == 0 && Blocks(h)[r] % 4 == 0 && 0 < Blocks(h)[p] && 0 < Blocks(h)[r]
  {
    hide Inv, Blocks, Tiled, InMemory;
    MemoryTiled(m, h.cs);
    var i := BlockInRegion(m, h, p);
    var j := BlockInRegion(m, h, r);
    NextBefore(h.cs, i, j);
    NextBefore(h.cs, j, i);
  }

  lemma MemoryTiled(m: seq<Word>, cs: seq<int>)
    requires InMemory(m, cs)
    ensures Tiled(cs) && 0 < cs[0]
  {
  }

  lemma NextBefore(cs: seq<int>, i: nat, j: nat)
    requires Tiled(cs) && i + 1 < |cs| && j + 1 < |cs|
    ensures i < j ==> cs[i + 1] <= cs[j]
    ensures cs[i] + CHUNK <= cs[i + 1]
  {
  }

  /** A copy of the whole of block p to the start of block r. */
  lemma BlockCopied(m: seq<Word>, m': seq<Word>, h: Heap, p: int, r: int)
    requires Inv(h) && InMemory(m, h.cs) && InMemory(m', h.cs) && p in Blocks(h) && r in Blocks(h) && p != r
    requires Blocks(h)[p] <= Blocks(h)[r] && Copied(m, m', 4 * r, 4 * p, Blocks(h)[p])
    ensures p in ContentsOf(m, h) && r in ContentsOf(m', h)
    ensures ContentsOf(m, h)[p] <= ContentsOf(m', h)[r]
  {
    hide Inv, InMemory, Blocks, Copied, ContentsOf;
    MoveApart(m, h, p, r);
    CopiedWords(m, m', r, p, Blocks(h)[p] / 4);
    ContentsAt(m, h, p);
    ContentsAt(m', h, r);
    assert m'[r..r + Blocks(h)[r] / 4][..Blocks(h)[p] / 4] == m'[r..r + Blocks(h)[p] / 4];
  }
}
