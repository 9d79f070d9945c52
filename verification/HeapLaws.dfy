/** What malloc and free mean to their callers: the heap as a finite map from live blocks to sizes. */
module HeapLaws {
  import opened Words
  import opened Slots
  import opened DList
  import opened HeapSpec
  import opened HeapOps

  // ----- The live blocks -----

  ghost function Pointers(cs: seq<int>, free: set<int>): set<int> {
    set i | 1 <= i < |cs| - 1 && cs[i] !in free :: cs[i] + HEADER
  }

  ghost function BlocksOf(cs: seq<int>, free: set<int>): map<int, int> {
    map p | p in Pointers(cs, free) :: SizeOf(cs, p - HEADER)
  }

  /** The sizes of the blocks in use, by the pointer malloc returned. */
  ghost function Blocks(h: Heap): map<int, int> {
    BlocksOf(h.cs, h.free)
  }

  lemma BlockEntry(cs: seq<int>, free: set<int>, p: int)
    ensures p in BlocksOf(cs, free) <==> p in Pointers(cs, free)
    ensures p in BlocksOf(cs, free) ==> BlocksOf(cs, free)[p] == SizeOf(cs, p - HEADER)
  {
    hide Pointers, SizeOf;
  }

  lemma PointersInUse(cs: seq<int>, free: set<int>, p: int)
    requires Tiled(cs)
    ensures InUse(cs, free, p) <==> p in Pointers(cs, free)
    ensures InUse(cs, free, p) ==> SizeOf(cs, p - HEADER) == Size(cs, At(cs, p - HEADER))
  {
    hide Tiled, SizeOf, SlotOf, Slot, Size, At;
    if p in Pointers(cs, free) {
      var i :| 1 <= i < |cs| - 1 && cs[i] !in free && cs[i] + HEADER == p;
      ChunkAt(cs, i);
    }
    if InUse(cs, free, p) {
      ChunkAt(cs, At(cs, p - HEADER));
      assert cs[At(cs, p - HEADER)] + HEADER in Pointers(cs, free);
    }
  }

  /** Two layouts have the same blocks, but for gone and come, if they agree on every other pointer. */
  ghost predicate SameBlock(cs: seq<int>, free: set<int>, cs': seq<int>, free': set<int>, q: int) {
    && (InUse(cs, free, q) <==> InUse(cs', free', q))
    && (InUse(cs, free, q) ==> SizeOf(cs', q - HEADER) == SizeOf(cs, q - HEADER))
  }

  lemma SameBlockMap(cs: seq<int>, free: set<int>, cs': seq<int>, free': set<int>, q: int)
    requires Tiled(cs) && Tiled(cs') && SameBlock(cs, free, cs', free', q)
    ensures q in BlocksOf(cs, free) <==> q in BlocksOf(cs', free')
    ensures q in BlocksOf(cs, free) ==> BlocksOf(cs, free)[q] == BlocksOf(cs', free')[q]
  {
    hide Tiled, SizeOf, At, Pointers, BlocksOf, InUse;
    PointersInUse(cs, free, q);
    PointersInUse(cs', free', q);
    BlockEntry(cs, free, q);
    BlockEntry(cs', free', q);
  }

  lemma SameBlockAt(cs: seq<int>, free: set<int>, j: nat, cs': seq<int>, free': set<int>, k: nat)
    requires Tiled(cs) && Tiled(cs') && j < |cs| && k < |cs'| && cs[j] == cs'[k]
    requires cs[j] in free <==> cs[j] in free'
    requires 1 <= j < |cs| - 1 <==> 1 <= k < |cs'| - 1
    requires 1 <= j < |cs| - 1 ==> cs[j + 1] == cs'[k + 1]
    ensures SameBlock(cs, free, cs', free', cs[j] + HEADER)
  {
    ChunkAt(cs, j);
    ChunkAt(cs', k);
  }

  /** A merge concerns only the two chunks merged. */
  lemma WithoutSameBlock(cs: seq<int>, free: set<int>, i: nat, free': set<int>, q: int)
    requires Tiled(cs) && 2 <= i < |cs| - 1
    requires q != cs[i] + HEADER && q != cs[i - 1] + HEADER && (q - HEADER in free <==> q - HEADER in free')
    ensures Tiled(Without(cs, i)) && SameBlock(cs, free, Without(cs, i), free', q)
  {
    hide Tiled, SameBlock, Without;
    var c := q - HEADER;
    DropTiled(cs, i);
    if c in cs {
      var j := At(cs, c);
      var k := if j < i then j else j - 1;
      WithoutItem(cs, i, k);
      if j + 1 < |cs| {
        WithoutItem(cs, i, k + 1);
      }
      SameBlockAt(cs, free, j, Without(cs, i), free', k);
    } else {
      WithoutNotIn(cs, i, c);
      NoBlock(cs, free, Without(cs, i), free', q);
    }
  }

  lemma WithoutNotIn(cs: seq<int>, i: nat, c: int)
    requires i < |cs| && c !in cs
    ensures c !in Without(cs, i)
  {
  }

  lemma DroppedNotIn(cs: seq<int>, i: nat)
    requires Tiled(cs) && i < |cs|
    ensures cs[i] !in Without(cs, i)
  {
  }

  lemma NoBlock(cs: seq<int>, free: set<int>, cs': seq<int>, free': set<int>, q: int)
    requires q - HEADER !in cs && q - HEADER !in cs'
    ensures SameBlock(cs, free, cs', free', q)
  {
  }

  /** A split concerns only the chunk split. */
  lemma SplitSameBlock(cs: seq<int>, free: set<int>, i: nat, c2: int, free': set<int>, q: int)
    requires Tiled(cs) && 1 <= i < |cs| - 1 && cs[i] + CHUNK <= c2 && c2 + CHUNK <= cs[i + 1]
    requires q != cs[i] + HEADER && q != c2 + HEADER && (q - HEADER in free <==> q - HEADER in free')
    ensures Tiled(Spliced(cs, i, [c2])) && SameBlock(cs, free, Spliced(cs, i, [c2]), free', q)
  {
    hide Tiled, SameBlock, Spliced;
    var c := q - HEADER;
    SplitTiled(cs, i, c2);
    if c in cs {
      var j := At(cs, c);
      var k := if j <= i then j else j + 1;
      SplicedItem(cs, i, [c2], k);
      if j + 1 < |cs| {
        SplicedItem(cs, i, [c2], k + 1);
      }
      SameBlockAt(cs, free, j, Spliced(cs, i, [c2]), free', k);
    } else {
      SplicedNotIn(cs, i, c2, c);
      NoBlock(cs, free, Spliced(cs, i, [c2]), free', q);
    }
  }

  lemma SplicedNotIn(cs: seq<int>, i: nat, c2: int, c: int)
    requires i < |cs| && c !in cs && c != c2
    ensures c !in Spliced(cs, i, [c2])
  {
  }

  // ----- malloc and free as operations on the map -----

  lemma NotInUse(cs: seq<int>, free: set<int>, cs': seq<int>, free': set<int>, q: int)
    requires q - HEADER in free || q - HEADER !in cs
    requires q - HEADER in free' || q - HEADER !in cs'
    ensures SameBlock(cs, free, cs', free', q)
  {
  }

  lemma SameBlockTrans(cs: seq<int>, free: set<int>, cs1: seq<int>, free1: set<int>, cs2: seq<int>, free2: set<int>,
                       q: int)
    requires SameBlock(cs, free, cs1, free1, q) && SameBlock(cs1, free1, cs2, free2, q)
    ensures SameBlock(cs, free, cs2, free2, q)
  {
  }

  lemma SameBlockFree(cs: seq<int>, free: set<int>, free': set<int>, q: int)
    requires q - HEADER in free <==> q - HEADER in free'
    ensures SameBlock(cs, free, cs, free', q)
  {
  }

  lemma AbsorbNextSameBlock(cs: seq<int>, free: set<int>, i: nat, q: int)
    requires Tiled(cs) && Interior(cs, free) && 1 <= i < |cs| - 1 && q != cs[i] + HEADER
    ensures var cs1 := if cs[i + 1] in free then Without(cs, i + 1) else cs;
      && Tiled(cs1) && i + 1 < |cs1| && cs1[i - 1] == cs[i - 1] && cs1[i] == cs[i]
      && (cs[i + 1] in free ==> cs[i + 1] !in cs1)
      && SameBlock(cs, free, cs1, free - {cs[i + 1]}, q)
  {
    ChunkAt(cs, i + 1);
    hide Tiled, SameBlock, InUse;
    if cs[i + 1] in free {
      DropTiled(cs, i + 1);
      DroppedNotIn(cs, i + 1);
      if q == cs[i + 1] + HEADER {
        NotInUse(cs, free, Without(cs, i + 1), free - {cs[i + 1]}, q);
      } else {
        WithoutSameBlock(cs, free, i + 1, free - {cs[i + 1]}, q);
      }
      assert Without(cs, i + 1)[i - 1] == cs[i - 1];
    } else {
      SameBlockFree(cs, free, free - {cs[i + 1]}, q);
    }
  }

  lemma AbsorbPrevSameBlock(cs: seq<int>, free: set<int>, i: nat, q: int)
    requires Tiled(cs) && 1 <= i < |cs| - 1 && q != cs[i] + HEADER && (cs[i - 1] in free ==> 2 <= i)
    ensures var cs2 := if cs[i - 1] in free then Without(cs, i) else cs;
      && Tiled(cs2)
      && SameBlock(cs, free, cs2, free + {if cs[i - 1] in free then cs[i - 1] else cs[i]}, q)
      && (cs[i - 1] in free ==> cs[i] !in cs2)
  {
    if cs[i - 1] in free {
      DroppedNotIn(cs, i);
      hide SameBlock, InUse, Without;
      if q == cs[i - 1] + HEADER {
        DropTiled(cs, i);
        NotInUse(cs, free, Without(cs, i), free + {cs[i - 1]}, q);
      } else {
        WithoutSameBlock(cs, free, i, free + {cs[i - 1]}, q);
      }
    } else {
      SameBlockFree(cs, free, free + {cs[i]}, q);
    }
  }

  lemma AbsorbedSameBlock(cs: seq<int>, free: set<int>, i: nat, q: int)
    requires Tiled(cs) && Interior(cs, free) && 1 <= i < |cs| - 1 && q != cs[i] + HEADER
    ensures var r := Absorbed(cs, free, i);
      Tiled(r.0) && SameBlock(cs, free, r.0, r.1, q) && (cs[i] in r.0 ==> cs[i] in r.1)
  {
    hide Tiled, SameBlock, InUse, Without, SizeOf, SlotOf;
    ChunkAt(cs, i - 1);
    AbsorbNextSameBlock(cs, free, i, q);
    var cs1 := if cs[i + 1] in free then Without(cs, i + 1) else cs;
    var free1 := free - {cs[i + 1]};
    AbsorbPrevSameBlock(cs1, free1, i, q);
    var r := Absorbed(cs, free, i);
    SameBlockTrans(cs, free, cs1, free1, r.0, r.1, q);
  }

  lemma FreeBlock(h: Heap, p: int, q: int)
    requires Inv(h) && Live(h, p)
    ensures var h' := Free(h, p);
      && (q in Blocks(h') <==> q in Blocks(h) && q != p)
      && (q in Blocks(h') ==> Blocks(h)[q] == Blocks(h')[q])
  {
    FreeChunks(h, p);
    SoundParts(h, 0);
    var i := At(h.cs, p - HEADER);
    var h' := Free(h, p);
    hide Sound, Tiled, SameBlock, Free, Absorbed, SizeOf, BlocksOf, Coalesced, Interior;
    if q == p {
      AbsorbedSameBlock(h.cs, h.free, i, 0);
      PointersInUse(h'.cs, h'.free, p);
    } else {
      AbsorbedSameBlock(h.cs, h.free, i, q);
      SameBlockMap(h.cs, h.free, h'.cs, h'.free, q);
    }
    BlocksOfKeys(h'.cs, h'.free);
  }

  lemma BlocksOfKeys(cs: seq<int>, free: set<int>)
    ensures BlocksOf(cs, free).Keys == Pointers(cs, free)
  {
  }

  /** free takes exactly the block it is given out of the map, and leaves every other block its
      address and size. */
  lemma FreeBlocks(h: Heap, p: int)
    requires Inv(h) && Live(h, p)
    ensures Blocks(Free(h, p)) == Blocks(h) - {p}
  {
    hide Inv, Live, Free, Blocks;
    forall q
      ensures q in Blocks(Free(h, p)) <==> q in Blocks(h) && q != p
      ensures q in Blocks(Free(h, p)) ==> Blocks(h)[q] == Blocks(Free(h, p))[q]
    {
      FreeBlock(h, p, q);
    }
  }

  lemma CutNotIn(cs: seq<int>, i: nat, c2: int)
    requires Tiled(cs) && i + 1 < |cs| && cs[i] + CHUNK <= c2 && c2 + CHUNK <= cs[i + 1]
    ensures c2 !in cs
  {
  }

  /** One new block at p; every other block as it was, as far as q can tell. */
  ghost predicate Gained(blocks: map<int, int>, blocks': map<int, int>, p: int, q: int) {
    && p !in blocks && p in blocks'
    && (q != p ==> (q in blocks' <==> q in blocks))
    && (q != p && q in blocks ==> blocks'[q] == blocks[q])
  }

  lemma GainWhole(cs: seq<int>, free: set<int>, i: nat, q: int)
    requires Tiled(cs) && 1 <= i < |cs| - 1 && cs[i] in free
    ensures Gained(BlocksOf(cs, free), BlocksOf(cs, free - {cs[i]}), cs[i] + HEADER, q)
  {
    ChunkAt(cs, i);
    PointersInUse(cs, free, cs[i] + HEADER);
    PointersInUse(cs, free - {cs[i]}, cs[i] + HEADER);
    hide Tiled, SameBlock, InUse, SizeOf;
    if q != cs[i] + HEADER {
      SameBlockFree(cs, free, free - {cs[i]}, q);
      SameBlockMap(cs, free, cs, free - {cs[i]}, q);
    }
  }

  /** The block handed out by a split. */
  lemma GainSplitBlock(cs: seq<int>, free: set<int>, i: nat, c2: int)
    requires Tiled(cs) && 1 <= i < |cs| - 1 && cs[i] in free && cs[i] + CHUNK <= c2 && c2 + CHUNK <= cs[i + 1]
    ensures var r, free' := Spliced(cs, i, [c2]), free - {cs[i]} + {c2};
      Tiled(r) && cs[i] + HEADER !in BlocksOf(cs, free) && cs[i] + HEADER in BlocksOf(r, free')
  {
    hide Tiled, Spliced, BlocksOf, Pointers, SizeOf, SlotOf, Slot, Size, At;
    var r, free' := Spliced(cs, i, [c2]), free - {cs[i]} + {c2};
    SplitTiled(cs, i, c2);
    CutNotIn(cs, i, c2);
    ChunkAt(r, i);
    PointersInUse(cs, free, cs[i] + HEADER);
    PointersInUse(r, free', cs[i] + HEADER);
    BlockEntry(cs, free, cs[i] + HEADER);
    BlockEntry(r, free', cs[i] + HEADER);
  }

  lemma GainSplit(cs: seq<int>, free: set<int>, i: nat, c2: int, q: int)
    requires Tiled(cs) && 1 <= i < |cs| - 1 && cs[i] in free && cs[i] + CHUNK <= c2 && c2 + CHUNK <= cs[i + 1]
    ensures Gained(BlocksOf(cs, free), BlocksOf(Spliced(cs, i, [c2]), free - {cs[i]} + {c2}), cs[i] + HEADER, q)
  {
    hide Tiled, SameBlock, Spliced, BlocksOf;
    var r, free' := Spliced(cs, i, [c2]), free - {cs[i]} + {c2};
    GainSplitBlock(cs, free, i, c2);
    CutNotIn(cs, i, c2);
    if q != cs[i] + HEADER {
      if q == c2 + HEADER {
        NotInUse(cs, free, r, free', q);
      } else {
        SplitSameBlock(cs, free, i, c2, free', q);
      }
      SameBlockMap(cs, free, r, free', q);
    }
  }

  lemma MallocGains(h: Heap, size: Word, q: int)
    requires Inv(h) && Malloc(h, size).1 != 0
    ensures var r := Malloc(h, size);
      Gained(BlocksOf(h.cs, h.free), BlocksOf(r.0.cs, r.0.free), r.1, q)
  {
    hide *;
    InvParts(h);
    MallocChunks(h, size);
    var k := Source(h, size);
    var c := h.lists[k][0];
    var i := At(h.cs, c);
    if Splits(h, c, Round(size)) {
      GainSplit(h.cs, h.free, i, c + HEADER + Round(size) / 4, q);
    } else {
      GainWhole(h.cs, h.free, i, q);
    }
  }

  /** The head of any list at or above the first one searched is large enough. */
  lemma HeadFits(h: Heap, req: Word, l: nat, c: int)
    requires Inv(h) && req > 1 && FirstSlot(req) <= l < |h.lists| && c in h.lists[l]
    ensures SizeOf(h.cs, c) >= Pow2(l) >= req
  {
    ListedSize(h, l, c);
    FirstSlotIsCeilLog2(req);
    Pow2Monotonic(FirstSlot(req), l);
  }

  /** A chunk on list l is free, and its size has l as rounded-down base 2 logarithm. */
  lemma ListedSize(h: Heap, l: nat, c: int)
    requires Inv(h) && l < |h.lists| && c in h.lists[l]
    ensures c in h.free && SlotOf(h.cs, c) == l && Pow2(l) <= SizeOf(h.cs, c) < Pow2(l + 1)
  {
    assert Filed(h.cs, h.free, h.lists[l], l, c);
    hide Inv;
    SlotIsLog2(SizeOf(h.cs, c));
  }

  lemma GainSize(h: Heap, size: Word)
    requires Inv(h) && Malloc(h, size).1 != 0
    ensures var r := Malloc(h, size);
      Round(size) <= SizeOf(r.0.cs, r.1 - HEADER) < Round(size) + CHUNK_SIZE
  {
    hide *;
    InvParts(h);
    MallocChunks(h, size);
    SourceFits(h, size);
    var r := Malloc(h, size);
    var c := h.lists[Source(h, size)][0];
    if Splits(h, c, Round(size)) {
      RoundAligned(size);
      CutSize(h.cs, At(h.cs, c), Round(size));
    } else {
      NotSplit(h, c, Round(size));
    }
  }

  lemma CutSize(cs: seq<int>, i: nat, req: Word)
    requires Tiled(cs) && 1 <= i < |cs| - 1 && req % 4 == 0
    requires var c2 := cs[i] + HEADER + req / 4;
      cs[i] + CHUNK <= c2 && c2 + CHUNK <= cs[i + 1]
    ensures SizeOf(Spliced(cs, i, [cs[i] + HEADER + req / 4]), cs[i]) == req < req + CHUNK_SIZE
  {
    hide Tiled, Spliced, SizeOf;
    SplitSizes(cs, i, cs[i] + HEADER + req / 4, i);
  }

  lemma SourceFits(h: Heap, size: Word)
    requires Inv(h) && Source(h, size) < |h.lists| == NUM_SIZES
    ensures SizeOf(h.cs, h.lists[Source(h, size)][0]) >= Round(size)
  {
    hide Inv, SizeOf, FirstSlot;
    FirstSlotIsCeilLog2(Round(size));
    HeadFits(h, Round(size), Source(h, size), h.lists[Source(h, size)][0]);
  }

  lemma RoundAligned(size: Word)
    ensures Round(size) % 4 == 0
  {
  }

  lemma NotSplit(h: Heap, c: int, req: Word)
    requires !Splits(h, c, req)
    ensures SizeOf(h.cs, c) < req + CHUNK_SIZE
  {
  }

  /** malloc, when it does not return NULL, adds exactly one block to the map, at a pointer that was
      not in it, and leaves every other block its address and size. */
  lemma MallocBlocks(h: Heap, size: Word)
    requires Inv(h) && Malloc(h, size).1 != 0
    ensures var (h', p) := Malloc(h, size);
      p !in Blocks(h) && p in Blocks(h') && Blocks(h') == Blocks(h)[p := Blocks(h')[p]]
  {
    hide Inv, Malloc, BlocksOf;
    var r := Malloc(h, size);
    forall q
      ensures Gained(Blocks(h), Blocks(r.0), r.1, q)
    {
      MallocGains(h, size, q);
    }
    assert Gained(Blocks(h), Blocks(r.0), r.1, r.1);
    forall q
      ensures q in Blocks(r.0) <==> q == r.1 || q in Blocks(h)
      ensures q in Blocks(h) ==> Blocks(r.0)[q] == Blocks(h)[q]
    {
      assert Gained(Blocks(h), Blocks(r.0), r.1, q);
    }
  }

  lemma BlockSize(h: Heap, p: int)
    requires p in Blocks(h)
    ensures Blocks(h)[p] == SizeOf(h.cs, p - HEADER)
  {
  }

  /** The new block holds the request, and wastes less than a Chunk beyond rounding, exactly when
      the request is at most 2^32 - 4 bytes: above that the rounding wraps, and the block is too small. */
  lemma MallocSize(h: Heap, size: Word)
    requires Inv(h) && Malloc(h, size).1 != 0
    ensures var (h', p) := Malloc(h, size);
      && p in Blocks(h')
      && Round(size) <= Blocks(h')[p] < Round(size) + CHUNK_SIZE
      && (size <= Blocks(h')[p] <==> size <= 0xFFFF_FFFC)
  {
    hide Inv, Malloc, BlocksOf, SizeOf, Round;
    var r := Malloc(h, size);
    MallocGains(h, size, r.1);
    assert r.1 in Blocks(r.0);
    BlockSize(r.0, r.1);
    GainSize(h, size);
    RoundCovers(size);
  }
}
