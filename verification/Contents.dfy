/** The words of the blocks in use, and why no call but their owner's changes them. */
module Contents {
  import opened Words
  import opened Slots
  import opened DList
  import opened HeapSpec
  import opened Ledger
  import opened HeapOps
  import opened HeapLaws
  import opened HeapTheorems
  import opened HeapLayout

  /** The payload of a block of the given size at p. */
  ghost function Payload(m: seq<Word>, p: int, size: int): seq<Word> {
    if 0 <= p <= p + size / 4 <= |m| then m[p..p + size / 4] else []
  }

  ghost function ContentsOf(m: seq<Word>, h: Heap): map<int, seq<Word>> {
    map p | p in Blocks(h) :: Payload(m, p, Blocks(h)[p])
  }

  lemma BlockPlace(h: Heap, q: int) returns (j: nat)
    requires Tiled(h.cs) && q in Blocks(h)
    ensures 1 <= j < |h.cs| - 1 && h.cs[j] == q - HEADER && h.cs[j] !in h.free && Blocks(h)[q] == 4 * (h.cs[j + 1] - q)
  {
    hide Tiled, Pointers, SizeOf, BlocksOf;
    BlocksOfKeys(h.cs, h.free);
    PointersInUse(h.cs, h.free, q);
    BlockSize(h, q);
    j := At(h.cs, q - HEADER);
  }

  /** Two blocks in use do not overlap. */
  lemma BlocksDisjoint(h: Heap, p: int, q: int)
    requires Inv(h) && p in Blocks(h) && q in Blocks(h) && p < q
    ensures 0 < p && 0 <= Blocks(h)[p] && Blocks(h)[p] % 4 == 0
    ensures p + Blocks(h)[p] / 4 <= q - HEADER
    ensures |h.cs| > 0 && q + Blocks(h)[q] / 4 <= h.cs[|h.cs| - 1]
  {
    hide Inv, BlocksOf, Sound, Coalesced, Indexed, Interior, Account;
    InvParts(h);
    var i := BlockPlace(h, p);
    var j := BlockPlace(h, q);
  }

  /** A block overlaps no header, be its chunk used, free or a sentinel. */
  lemma BlockAvoidsHeaders(h: Heap, p: int, k: nat)
    requires Inv(h) && p in Blocks(h) && k < |h.cs|
    ensures h.cs[k] + HEADER <= p || p + Blocks(h)[p] / 4 <= h.cs[k]
  {
    hide Inv, BlocksOf, Sound, Coalesced, Indexed, Interior, Account;
    InvParts(h);
    var i := BlockPlace(h, p);
  }

  /** Writes to the allocator's own words leave a block as it was. */
  lemma BlockSafe(m: seq<Word>, m': seq<Word>, h: Heap, free: set<int>, q: int)
    requires InMemory(m, h.cs) && Wrote(m, m', Meta(ToSet(h.cs), free)) && free <= ToSet(h.cs)
    requires q in Blocks(h) && q - HEADER !in free
    ensures Payload(m', q, Blocks(h)[q]) == Payload(m, q, Blocks(h)[q])
  {
    hide Meta, Wrote, Blocks, Tiled, ToSet;
    MemoryTiled(m, h.cs);
    var j := BlockPlace(h, q);
    PayloadSafe(m, m', h.cs, free, j);
  }

  lemma MemoryTiled(m: seq<Word>, cs: seq<int>)
    requires InMemory(m, cs)
    ensures Tiled(cs)
  {
  }

  lemma BlockNotFree(h: Heap, q: int)
    requires Tiled(h.cs) && q in Blocks(h)
    ensures q - HEADER !in h.free
  {
    var j := BlockPlace(h, q);
  }

  /** free gives up the contents of its block and keeps those of all others. */
  lemma FreeContents(m: seq<Word>, m': seq<Word>, h: Heap, p: int)
    requires Inv(h) && Live(h, p) && InMemory(m, h.cs)
    requires h.free + {p - HEADER} <= ToSet(h.cs) && Wrote(m, m', Meta(ToSet(h.cs), h.free + {p - HEADER}))
    ensures ContentsOf(m', Free(h, p)) == ContentsOf(m, h) - {p}
  {
    hide Inv, Live, InMemory, Wrote, Meta, Blocks, Free, ToSet, Payload;
    FreeBlocks(h, p);
    MemoryTiled(m, h.cs);
    forall q | q in Blocks(h) && q != p
      ensures Payload(m', q, Blocks(h)[q]) == Payload(m, q, Blocks(h)[q])
    {
      BlockNotFree(h, q);
      BlockSafe(m, m', h, h.free + {p - HEADER}, q);
    }
  }

  /** malloc adds the contents of its block and keeps those of all others. */
  lemma MallocContents(m: seq<Word>, m': seq<Word>, h: Heap, size: Word)
    requires Inv(h) && Malloc(h, size).1 != 0
    requires var h' := Malloc(h, size).0;
      InMemory(m, h'.cs) && h.free + h'.free <= ToSet(h'.cs) && Wrote(m, m', Meta(ToSet(h'.cs), h.free + h'.free))
    ensures var (h', p) := Malloc(h, size);
      && p in Blocks(h')
      && p !in ContentsOf(m, h) && p in ContentsOf(m', h')
      && ContentsOf(m', h') == ContentsOf(m, h)[p := Payload(m', p, Blocks(h')[p])]
  {
    hide Inv, InMemory, Wrote, Meta, Blocks, Malloc, ToSet, Payload;
    var (h', p) := Malloc(h, size);
    MallocBlocks(h, size);
    MemoryTiled(m, h'.cs);
    InvParts(h);
    forall q | q in Blocks(h)
      ensures Payload(m', q, Blocks(h')[q]) == Payload(m, q, Blocks(h)[q])
    {
      BlockNotFree(h, q);
      BlockNotFree(h', q);
      BlockSafe(m, m', h', h.free + h'.free, q);
    }
  }

  // ----- What the code of malloc and free needs to know of the abstract heap -----

  lemma MallocNone(h: Heap, size: Word)
    requires Inv(h) && |h.lists| == NUM_SIZES && Source(h, size) == NUM_SIZES
    ensures Malloc(h, size) == (h, 0)
  {
    hide Inv, Source;
    MallocChunks(h, size);
  }

  lemma MallocSome(h: Heap, size: Word)
    requires Inv(h) && |h.lists| == NUM_SIZES && Source(h, size) < NUM_SIZES
    ensures Malloc(h, size).1 != 0
  {
    hide Inv, Source, Malloc, Tiled, Sound;
    InvParts(h);
    MallocChunks(h, size);
    ChunkPositive(h.cs, At(h.cs, h.lists[Source(h, size)][0]));
  }

  lemma ListedFree(h: Heap)
    requires Inv(h)
    ensures |h.lists| == NUM_SIZES && ListedIn(h.lists, h.free) && h.free <= ToSet(h.cs)
  {
    forall x | x in h.free
      ensures x in ToSet(h.cs)
    {
      InToSet(h.cs, At(h.cs, x));
    }
    forall l | 0 <= l < |h.lists|
      ensures ToSet(h.lists[l]) <= h.free
    {
      forall x | x in ToSet(h.lists[l])
        ensures x in h.free
      {
        assert Filed(h.cs, h.free, h.lists[l], l, x);
      }
    }
  }

  /** A malloc that succeeds, as the code goes through it: list k is popped, and chunk i is split
      at c2 or handed out whole. */
  lemma MallocSteps(h: Heap, size: Word) returns (k: nat, i: nat, c2: int, split: bool)
    requires Inv(h) && |h.lists| == NUM_SIZES && Source(h, size) < NUM_SIZES
    ensures k == Source(h, size) && h.lists[k] != [] && 1 <= i < |h.cs| - 1 && h.cs[i] == h.lists[k][0]
    ensures 0 < h.cs[i] && h.cs[i] in h.free
    ensures c2 == h.cs[i] + HEADER + Round(size) / 4
    ensures split <==> Round(size) + CHUNK_SIZE <= Size(h.cs, i)
    ensures SizeOf(h.cs, h.cs[i]) == Size(h.cs, i)
    ensures split ==> Gap(h.cs, i, c2) && Cuttable(h.cs, i, c2) && c2 !in h.free
    ensures split ==> Malloc(h, size) == (MallocSplit(h, k, i, c2), h.cs[i] + HEADER)
    ensures !split ==> Malloc(h, size) == (MallocWhole(h, k), h.cs[i] + HEADER)
    ensures ListedIn(Pop(h, k).lists, h.free) && ListedIn(Pop(h, k).lists, h.free + Malloc(h, size).0.free)
  {
    hide Inv, Malloc, SizeOf, SlotOf, Cuttable, MallocSplit, MallocWhole, Source, Round, Tiled, Sound, Indexed,
      Account, ListedIn, ToSet;
    InvParts(h);
    MallocSome(h, size);
    k, i, c2, split := MallocIs(h, size);
    ChunkAt(h.cs, i);
    ChunkPositive(h.cs, i);
    ListedFree(h);
    PopListed(h.lists, h.free, h.free + Malloc(h, size).0.free, k);
    if split {
      CutNotFree(h, i, c2);
    }
  }

  lemma PopListed(lists: seq<seq<int>>, free: set<int>, more: set<int>, k: nat)
    requires ListedIn(lists, free) && free <= more && k < |lists| && lists[k] != []
    ensures ListedIn(lists[k := lists[k][1..]], free) && ListedIn(lists[k := lists[k][1..]], more)
  {
    assert ToSet(lists[k][1..]) <= ToSet(lists[k]);
  }

  lemma CutNotFree(h: Heap, i: nat, c2: int)
    requires Inv(h) && Gap(h.cs, i, c2)
    ensures c2 !in h.free
  {
    CutNotIn(h.cs, i, c2);
  }

  lemma SourceIs(h: Heap, size: Word)
    requires |h.lists| == NUM_SIZES && 1 <= FirstSlot(Round(size)) <= NUM_SIZES
    ensures Source(h, size) == FirstList(h.lists, FirstSlot(Round(size)))
  {
  }

  lemma WholeIs(h: Heap, k: nat)
    requires k < |h.lists| && h.lists[k] != []
    ensures var size2 := SizeOf(h.cs, h.lists[k][0]);
      MallocWhole(h, k)
        == Pop(h, k).(memFree := Wrap(h.memFree - size2), memUsed := Wrap(h.memUsed + size2 - HEADER_SIZE),
        unsplit := h.unsplit + 1)
  {
  }

  lemma SplitIs(h: Heap, k: nat, i: nat, c2: int) returns (g: Heap)
    requires k < |h.lists| == NUM_SIZES && h.lists[k] != [] && Cuttable(h.cs, i, c2)
    ensures g == PushFree(Pop(h, k).(cs := Spliced(h.cs, i, [c2])), c2)
    ensures g.cs == Spliced(h.cs, i, [c2]) && g.memUsed == h.memUsed && g.memMeta == h.memMeta
    ensures var size2 := SizeOf(h.cs, h.lists[k][0]);
      var len := SizeOf(Spliced(h.cs, i, [c2]), c2);
      MallocSplit(h, k, i, c2) == g.(memMeta := Wrap(g.memMeta + HEADER_SIZE), memFree := Wrap(g.memFree - size2),
        memUsed := Wrap(g.memUsed + size2 - len - HEADER_SIZE))
  {
    hide SizeOf, SlotOf, Spliced;
    g := PushFree(Pop(h, k).(cs := Spliced(h.cs, i, [c2])), c2);
  }

  /** Nothing outside the region first..last differs. */
  ghost predicate OutsideSame(m: seq<Word>, m': seq<Word>, cs: seq<int>)
    requires |cs| > 0
  {
    |m'| == |m| && forall w :: 0 <= w < |m| && (w < cs[0] || cs[|cs| - 1] + CHUNK <= w) ==> m'[w] == m[w]
  }

  lemma OutsideAll(m: seq<Word>, m': seq<Word>, cs: seq<int>, free: set<int>)
    requires InMemory(m, cs) && Wrote(m, m', Meta(ToSet(cs), free)) && free <= ToSet(cs)
    ensures |cs| > 0 && OutsideSame(m, m', cs)
  {
    MemoryTiled(m, cs);
    TiledLong(cs);
    hide Meta, ToSet, Tiled;
    forall w | 0 <= w < |m| && (w < cs[0] || cs[|cs| - 1] + CHUNK <= w)
      ensures m'[w] == m[w]
    {
      OutsideSafe(m, m', cs, free, w);
    }
  }

  lemma FreeStays(h: Heap, size: Word)
    requires Inv(h) && Malloc(h, size).1 != 0
    ensures h.free + Malloc(h, size).0.free <= ToSet(Malloc(h, size).0.cs)
  {
    hide Inv, Malloc, ToSet, Tiled, Sound, Splits, Round, Source, Spliced;
    MallocKeepsInv(h, size);
    ListedFree(Malloc(h, size).0);
    ListedFree(h);
    MallocChunks(h, size);
    var c := h.lists[Source(h, size)][0];
    SpliceFacts(h.cs, At(h.cs, c), c + HEADER + Round(size) / 4);
  }

  /** What the writes of malloc mean for the owners of blocks and of other memory. */
  lemma MallocEffect(m: seq<Word>, m': seq<Word>, h: Heap, size: Word)
    requires Inv(h) && Malloc(h, size).1 != 0
    requires var h' := Malloc(h, size).0;
      InMemory(m', h'.cs) && Wrote(m, m', Meta(ToSet(h'.cs), h.free + h'.free))
    ensures var (h', p) := Malloc(h, size);
      && |h'.cs| > 0 && OutsideSame(m, m', h'.cs)
      && p !in ContentsOf(m, h) && p in ContentsOf(m', h')
      && ContentsOf(m', h') == ContentsOf(m, h)[p := ContentsOf(m', h')[p]]
  {
    hide *;
    FreeStays(h, size);
    var (h', p) := Malloc(h, size);
    SameLength(m, m', Meta(ToSet(h'.cs), h.free + h'.free));
    MemorySame(m', m, h'.cs);
    MallocContents(m, m', h, size);
    OutsideAll(m, m', h'.cs, h.free + h'.free);
  }

  /** The same for free. */
  lemma FreeEffect(m: seq<Word>, m': seq<Word>, h: Heap, p: int)
    requires Inv(h) && Live(h, p) && InMemory(m, h.cs) && Wrote(m, m', Meta(ToSet(h.cs), h.free + {p - HEADER}))
    ensures |h.cs| > 0 && OutsideSame(m, m', h.cs)
    ensures ContentsOf(m', Free(h, p)) == ContentsOf(m, h) - {p}
  {
    FreeInside(h, p);
    hide *;
    FreeContents(m, m', h, p);
    OutsideAll(m, m', h.cs, h.free + {p - HEADER});
  }

  lemma FreeInside(h: Heap, p: int)
    requires Inv(h) && Live(h, p)
    ensures h.free + {p - HEADER} <= ToSet(h.cs)
  {
    ListedFree(h);
    InToSet(h.cs, At(h.cs, p - HEADER));
  }

  /** What the index says of one chunk. */
  lemma IndexFacts(cs: seq<int>, free: set<int>, lists: seq<seq<int>>, c: int)
    requires Indexed(cs, free, lists)
    ensures ListedIn(lists, free) && |lists| == NUM_SIZES
    ensures c in free && Listable(cs, c) ==> c in lists[SlotOf(cs, c)]
    ensures c !in free ==> Unlisted(lists, c)
  {
    if c in free && Listable(cs, c) {
      assert Filed(cs, free, lists[SlotOf(cs, c)], SlotOf(cs, c), c);
    }
    forall l | 0 <= l < |lists|
      ensures ToSet(lists[l]) <= free
      ensures c in ToSet(lists[l]) ==> c in free
    {
      forall x | x in ToSet(lists[l])
        ensures x in free
      {
        assert Filed(cs, free, lists[l], l, x);
      }
    }
  }

  /** What the first half of free finds: the chunk and its neighbours. */
  lemma FreeFirst(h: Heap, p: int) returns (i: nat)
    requires Inv(h) && Live(h, p)
    ensures i == At(h.cs, p - HEADER) && CanFree(h, i) && h.cs[i] == p - HEADER && h.cs[i] !in h.free
    ensures ListedIn(h.lists, h.free + {p - HEADER})
    ensures h.cs[i + 1] in h.free ==> i + 2 < |h.cs| && h.cs[i + 1] in h.lists[SlotOf(h.cs, h.cs[i + 1])]
    ensures Free(h, p) == FreeAt(h, i)
  {
    hide Sound, Coalesced, CanFree, SlotOf, SizeOf, ListedIn, Indexed, Tiled, Interior;
    InvParts(h);
    i := At(h.cs, p - HEADER);
    FreeIsFreeAt(h, p);
    CanFreeParts(h, i);
    IndexFacts(h.cs, h.free, h.lists, h.cs[i + 1]);
    ListedWider(h.lists, h.free, p - HEADER);
    AbsorbNext(h.cs, h.free, i);
  }

  lemma ListedWider(lists: seq<seq<int>>, free: set<int>, c: int)
    requires ListedIn(lists, free)
    ensures ListedIn(lists, free + {c})
  {
  }

  lemma CanFreeParts(h: Heap, i: nat)
    requires CanFree(h, i)
    ensures |h.lists| == NUM_SIZES && 1 <= i < |h.cs| - 1 && (h.cs[i + 1] in h.free ==> Listable(h.cs, h.cs[i + 1]))
  {
  }

  /** What the second half of free finds. */
  lemma FreeSecond(h: Heap, i: nat) returns (g: Heap)
    requires Inv(h) && CanFree(h, i) && h.cs[i] !in h.free
    ensures g == FreeNext(h, i) && FreeAt(h, i) == FreePrev(g, i)
    ensures |g.lists| == NUM_SIZES && i + 1 < |g.cs| && g.cs[i] == h.cs[i] && g.cs[i - 1] == h.cs[i - 1]
    ensures Listable(g.cs, g.cs[i])
    ensures g.free == h.free - {h.cs[i + 1]} && ToSet(g.cs) <= ToSet(h.cs)
    ensures h.cs[i - 1] in g.free <==> h.cs[i - 1] in h.free
    ensures Unlisted(g.lists, g.cs[i]) && ListedIn(g.lists, h.free + {h.cs[i]})
    ensures g.cs[i - 1] in g.free ==> 2 <= i && Listable(g.cs, g.cs[i - 1]) && Listable(Without(g.cs, i), g.cs[i - 1])
    ensures g.cs[i - 1] in g.free ==> g.cs[i - 1] in g.lists[SlotOf(g.cs, g.cs[i - 1])]
  {
    hide Inv, Sound, CanFree, FreeNext, FreePrev, Without, Indexed, Tiled, ToSet, SlotOf, ListedIn, Unlisted,
      SizeOf, Interior, Account;
    CanFreeParts(h, i);
    InvParts(h);
    FreeNextSound(h, i);
    g := FreeNext(h, i);
    SoundParts(g, Size(g.cs, i));
    FreePrevSound(g, i);
    IndexFacts(g.cs, g.free, g.lists, g.cs[i]);
    IndexFacts(g.cs, g.free, g.lists, g.cs[i - 1]);
    ListedLess(g.lists, g.free, h.free + {h.cs[i]});
    NeighboursDiffer(h.cs, i);
    if h.cs[i + 1] in h.free {
      AbsorbNext(h.cs, h.free, i);
      WithoutSet(h.cs, i + 1);
    }
  }

  lemma ListedLess(lists: seq<seq<int>>, free: set<int>, more: set<int>)
    requires ListedIn(lists, free) && free <= more
    ensures ListedIn(lists, more)
  {
  }

  lemma NeighboursDiffer(cs: seq<int>, i: nat)
    requires Tiled(cs) && 1 <= i < |cs| - 1
    ensures cs[i - 1] != cs[i + 1]
  {
  }

  lemma PointerPositive(h: Heap, p: int)
    requires Inv(h) && p in Blocks(h)
    ensures p > 0
  {
    hide Inv, Blocks, Tiled;
    InvParts(h);
    var j := BlockPlace(h, p);
    ChunkPositive(h.cs, j);
  }

  lemma NullNotLive(m: seq<Word>, h: Heap)
    requires Inv(h)
    ensures ContentsOf(m, h) == ContentsOf(m, h) - {0}
  {
    hide Inv, BlocksOf, Payload;
    if 0 in Blocks(h) {
      PointerPositive(h, 0);
    }
  }
}
