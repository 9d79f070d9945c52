/** Properties of every reachable heap. */
module HeapTheorems {
  import opened Words
  import opened Slots
  import opened DList
  import opened HeapSpec
  import opened Ledger
  import opened HeapOps
  import opened HeapLaws

  // ----- The layout is a function of the live blocks -----

  /** Chunk boundaries and free chunks fit together as malloc and free leave them. */
  ghost predicate Layout(cs: seq<int>, free: set<int>) {
    Tiled(cs) && Interior(cs, free) && Coalesced(cs, free)
  }

  /** Two layouts of one region with the same live blocks. */
  ghost predicate Alike(cs1: seq<int>, free1: set<int>, cs2: seq<int>, free2: set<int>) {
    && Layout(cs1, free1) && Layout(cs2, free2)
    && cs1[0] == cs2[0] && cs1[|cs1| - 1] == cs2[|cs2| - 1]
    && BlocksOf(cs1, free1) == BlocksOf(cs2, free2)
  }

  lemma BlockAt(cs: seq<int>, free: set<int>, i: nat)
    requires Tiled(cs) && 1 <= i < |cs| - 1
    ensures cs[i] !in free <==> cs[i] + HEADER in BlocksOf(cs, free)
    ensures cs[i] !in free ==> BlocksOf(cs, free)[cs[i] + HEADER] == Size(cs, i)
  {
    hide Tiled, SizeOf, SlotOf, Slot, At, Pointers, BlocksOf;
    ChunkAt(cs, i);
    PointersInUse(cs, free, cs[i] + HEADER);
    BlockEntry(cs, free, cs[i] + HEADER);
  }

  /** A block of one layout is a chunk of the other. */
  lemma BlockIsChunk(cs: seq<int>, free: set<int>, c: int)
    requires Tiled(cs) && c + HEADER in BlocksOf(cs, free)
    ensures c in cs
  {
    hide Tiled, SizeOf, At, Pointers, BlocksOf;
    PointersInUse(cs, free, c + HEADER);
    BlockEntry(cs, free, c + HEADER);
  }

  /** The chunk after a free chunk is in use, so the other layout knows it too. */
  lemma FreeChunkEnd(cs1: seq<int>, free1: set<int>, cs2: seq<int>, free2: set<int>, i: nat)
    requires Alike(cs1, free1, cs2, free2)
    requires 1 <= i < |cs1| - 1 && i < |cs2| - 1 && cs1[i] == cs2[i] && cs1[i] in free1
    ensures cs2[i + 1] <= cs1[i + 1]
  {
    hide *;
    AlikeParts(cs1, free1, cs2, free2);
    AfterFree(cs1, free1, i);
    var n := cs1[i + 1];
    if i + 1 < |cs1| - 1 {
      BlockAt(cs1, free1, i + 1);
      BlockIsChunk(cs2, free2, n);
    }
    ChunkFrom(cs2, i, n);
  }

  lemma AfterFree(cs: seq<int>, free: set<int>, i: nat)
    requires Layout(cs, free) && 1 <= i < |cs| - 1 && cs[i] in free
    ensures cs[i] < cs[i + 1] && (i + 1 < |cs| - 1 ==> cs[i + 1] !in free)
  {
  }

  lemma ChunkOrder(cs: seq<int>, i: nat, j: nat)
    requires Tiled(cs) && i < |cs| && j < |cs|
    ensures i < j ==> cs[i] < cs[j]
  {
  }

  /** No chunk lies between a chunk and the one after it. */
  lemma ChunkFrom(cs: seq<int>, i: nat, c: int)
    requires Tiled(cs) && i + 1 < |cs| && c in cs && cs[i] < c
    ensures cs[i + 1] <= c
  {
    var k := At(cs, c);
    ChunkOrder(cs, k, i);
    ChunkOrder(cs, i + 1, k);
  }

  lemma SameNext(cs1: seq<int>, free1: set<int>, cs2: seq<int>, free2: set<int>, i: nat)
    requires Alike(cs1, free1, cs2, free2)
    requires 1 <= i < |cs1| - 1 && i < |cs2| - 1 && cs1[i] == cs2[i]
    ensures cs1[i] in free1 <==> cs1[i] in free2
    ensures cs1[i + 1] == cs2[i + 1]
  {
    hide *;
    AlikeParts(cs1, free1, cs2, free2);
    BlockAt(cs1, free1, i);
    BlockAt(cs2, free2, i);
    if cs1[i] in free1 {
      FreeChunkEnd(cs1, free1, cs2, free2, i);
      FreeChunkEnd(cs2, free2, cs1, free1, i);
    } else {
      SameSize(cs1, cs2, i);
    }
  }

  lemma AlikeParts(cs1: seq<int>, free1: set<int>, cs2: seq<int>, free2: set<int>)
    requires Alike(cs1, free1, cs2, free2)
    ensures Alike(cs2, free2, cs1, free1) && Tiled(cs1) && Tiled(cs2) && BlocksOf(cs1, free1) == BlocksOf(cs2, free2)
    ensures Layout(cs1, free1) && cs1[|cs1| - 1] in cs2
  {
  }

  lemma SameSize(cs1: seq<int>, cs2: seq<int>, i: nat)
    requires i + 1 < |cs1| && i + 1 < |cs2| && cs1[i] == cs2[i] && Size(cs1, i) == Size(cs2, i)
    ensures cs1[i + 1] == cs2[i + 1]
  {
  }

  lemma {:induction false} SamePrefix(cs1: seq<int>, free1: set<int>, cs2: seq<int>, free2: set<int>, i: nat)
    requires Alike(cs1, free1, cs2, free2) && i < |cs1|
    ensures i < |cs2| && cs1[i] == cs2[i]
  {
    if i >= 2 {
      SamePrefix(cs1, free1, cs2, free2, i - 1);
      SameNext(cs1, free1, cs2, free2, i - 1);
    }
  }

  /** Which chunks there are and which of them are free follows from the live blocks alone. */
  lemma CanonicalLayout(cs1: seq<int>, free1: set<int>, cs2: seq<int>, free2: set<int>)
    requires Alike(cs1, free1, cs2, free2)
    ensures cs1 == cs2 && free1 == free2
  {
    SamePrefix(cs1, free1, cs2, free2, |cs1| - 1);
    SamePrefix(cs2, free2, cs1, free1, |cs2| - 1);
    forall i | 0 <= i < |cs1|
      ensures cs1[i] == cs2[i]
    {
      SamePrefix(cs1, free1, cs2, free2, i);
    }
    FreeSubset(cs1, free1, cs2, free2);
    FreeSubset(cs2, free2, cs1, free1);
  }

  lemma FreeSubset(cs1: seq<int>, free1: set<int>, cs2: seq<int>, free2: set<int>)
    requires Alike(cs1, free1, cs2, free2) && cs1 == cs2
    ensures free1 <= free2
  {
    forall c | c in free1
      ensures c in free2
    {
      SameNext(cs1, free1, cs2, free2, At(cs1, c));
    }
  }

  /** Two heaps of one region with the same live blocks have the same chunks, and the same chunks on
      each free list, whatever the calls that led to them. */
  lemma Canonical(h1: Heap, h2: Heap)
    requires Inv(h1) && Inv(h2)
    requires |h1.cs| > 0 && |h2.cs| > 0 && h1.cs[0] == h2.cs[0] && h1.cs[|h1.cs| - 1] == h2.cs[|h2.cs| - 1]
    requires Blocks(h1) == Blocks(h2)
    ensures h1.cs == h2.cs && h1.free == h2.free
    ensures |h1.lists| == |h2.lists| == NUM_SIZES
    ensures forall l :: 0 <= l < NUM_SIZES ==> ToSet(h1.lists[l]) == ToSet(h2.lists[l])
    ensures h1.memMeta == h2.memMeta
    ensures Wrap(h1.memUsed + HEADER_SIZE * h1.unsplit) == Wrap(h2.memUsed + HEADER_SIZE * h2.unsplit)
    ensures Wrap(h1.memFree + HEADER_SIZE * h1.unsplit) == Wrap(h2.memFree + HEADER_SIZE * h2.unsplit)
  {
    hide Inv, Indexed, Tiled, Interior, Coalesced, Account, BlocksOf, ToSet, Sound;
    InvParts(h1);
    InvParts(h2);
    CanonicalLayout(h1.cs, h1.free, h2.cs, h2.free);
    forall l | 0 <= l < NUM_SIZES
      ensures ToSet(h1.lists[l]) == ToSet(h2.lists[l])
    {
      SameList(h1.cs, h1.free, h1.lists, h2.lists, l);
    }
    SameAccount(h1, h2);
  }

  lemma SameList(cs: seq<int>, free: set<int>, lists1: seq<seq<int>>, lists2: seq<seq<int>>, l: nat)
    requires Indexed(cs, free, lists1) && Indexed(cs, free, lists2) && l < |lists1| && l < |lists2|
    ensures ToSet(lists1[l]) == ToSet(lists2[l])
  {
    forall x
      ensures x in ToSet(lists1[l]) <==> x in ToSet(lists2[l])
    {
      assert Filed(cs, free, lists1[l], l, x);
      assert Filed(cs, free, lists2[l], l, x);
    }
  }

  /** The counters follow from the chunks, but for the headers of the calls that did not split. */
  lemma SameAccount(h1: Heap, h2: Heap)
    requires Account(h1, 0) && Account(h2, 0) && h1.cs == h2.cs && h1.free == h2.free
    ensures h1.memMeta == h2.memMeta
    ensures Wrap(h1.memUsed + HEADER_SIZE * h1.unsplit) == Wrap(h2.memUsed + HEADER_SIZE * h2.unsplit)
    ensures Wrap(h1.memFree + HEADER_SIZE * h1.unsplit) == Wrap(h2.memFree + HEADER_SIZE * h2.unsplit)
  {
    ShiftTo(h1.memUsed, UsedDue(h1, 0), HEADER_SIZE * h1.unsplit, UsedBytes(h1));
    ShiftTo(h2.memUsed, UsedDue(h2, 0), HEADER_SIZE * h2.unsplit, UsedBytes(h2));
    ShiftTo(h1.memFree, FreeDue(h1), HEADER_SIZE * h1.unsplit,
            FreeBytes(h1) - HEADER_SIZE * (|h1.cs| - 2 + |h1.free| - 1));
    ShiftTo(h2.memFree, FreeDue(h2), HEADER_SIZE * h2.unsplit,
            FreeBytes(h2) - HEADER_SIZE * (|h2.cs| - 2 + |h2.free| - 1));
  }

  // ----- malloc then free -----

  ghost function ListsLess(cs: seq<int>, lists: seq<seq<int>>, c: int): (r: seq<seq<int>>)
    requires |lists| == NUM_SIZES && Listable(cs, c)
    ensures |r| == NUM_SIZES
  {
    lists[SlotOf(cs, c) := Removed(lists[SlotOf(cs, c)], c)]
  }

  ghost function ListsMore(cs: seq<int>, lists: seq<seq<int>>, c: int): (r: seq<seq<int>>)
    requires |lists| == NUM_SIZES && Listable(cs, c)
    ensures |r| == NUM_SIZES
  {
    lists[SlotOf(cs, c) := [c] + lists[SlotOf(cs, c)]]
  }

  lemma FreeNextLists(h: Heap, i: nat)
    requires |h.lists| == NUM_SIZES && i + 1 < |h.cs| && (h.cs[i + 1] in h.free ==> Listable(h.cs, h.cs[i + 1]))
    ensures FreeNext(h, i).unsplit == h.unsplit
    ensures FreeNext(h, i).lists == if h.cs[i + 1] in h.free then ListsLess(h.cs, h.lists, h.cs[i + 1]) else h.lists
  {
    hide SlotOf, Removed;
  }

  lemma FreePrevLists(h: Heap, i: nat)
    requires |h.lists| == NUM_SIZES && 1 <= i < |h.cs| && Listable(h.cs, h.cs[i]) && h.cs[i - 1] !in h.free
    ensures FreePrev(h, i).unsplit == h.unsplit
    ensures FreePrev(h, i).lists == ListsMore(h.cs, h.lists, h.cs[i])
  {
    hide SlotOf;
  }

  /** What free does to the lists when the chunk before is in use. */
  lemma FreeLists(h: Heap, i: nat)
    requires CanFree(h, i) && h.cs[i - 1] !in h.free
    ensures FreeAt(h, i).unsplit == h.unsplit
    ensures h.cs[i + 1] in h.free ==> Listable(Without(h.cs, i + 1), h.cs[i])
    ensures h.cs[i + 1] !in h.free ==> Listable(h.cs, h.cs[i])
    ensures FreeAt(h, i).lists ==
      if h.cs[i + 1] in h.free then ListsMore(Without(h.cs, i + 1), ListsLess(h.cs, h.lists, h.cs[i + 1]), h.cs[i])
      else ListsMore(h.cs, h.lists, h.cs[i])
  {
    FreeNextLists(h, i);
    FreePrevLists(FreeNext(h, i), i);
    hide Listable, ListsLess, ListsMore, SlotOf;
  }

  lemma RestoreHead(cs: seq<int>, lists: seq<seq<int>>, k: nat)
    requires |lists| == NUM_SIZES && k < |lists| && lists[k] != [] && SlotOf(cs, lists[k][0]) == k
    ensures Listable(cs, lists[k][0])
    ensures ListsMore(cs, lists[k := lists[k][1..]], lists[k][0]) == lists
  {
    assert [lists[k][0]] + lists[k][1..] == lists[k];
    hide SlotOf;
  }

  lemma UndoMore(cs: seq<int>, lists: seq<seq<int>>, c: int)
    requires |lists| == NUM_SIZES && Listable(cs, c) && c !in lists[SlotOf(cs, c)]
    ensures ListsLess(cs, ListsMore(cs, lists, c), c) == lists
  {
    var s := lists[SlotOf(cs, c)];
    assert c in [c] + s;
    assert At([c] + s, c) == 0;
    assert Removed([c] + s, c) == s;
    hide SlotOf;
  }

  /** The lists after a malloc that does not split and a free of its result. */
  lemma WholeRestored(h: Heap, k: nat, i: nat)
    requires k < |h.lists| == NUM_SIZES && h.lists[k] != [] && 1 <= i < |h.cs| - 1 && h.cs[i] == h.lists[k][0]
    requires SlotOf(h.cs, h.cs[i]) == k && h.cs[i - 1] !in h.free && h.cs[i + 1] !in h.free
    requires CanFree(MallocWhole(h, k), i)
    ensures FreeAt(MallocWhole(h, k), i).lists == h.lists
    ensures FreeAt(MallocWhole(h, k), i).unsplit == h.unsplit + 1
  {
    FreeLists(MallocWhole(h, k), i);
    RestoreHead(h.cs, h.lists, k);
    hide SlotOf, SizeOf, FreeAt, CanFree, Listable, ListsMore;
  }

  lemma SplitLists(h: Heap, k: nat, i: nat, c2: int)
    requires k < |h.lists| == NUM_SIZES && h.lists[k] != [] && Cuttable(h.cs, i, c2)
    ensures Listable(Spliced(h.cs, i, [c2]), c2)
    ensures MallocSplit(h, k, i, c2).lists == ListsMore(Spliced(h.cs, i, [c2]), h.lists[k := h.lists[k][1..]], c2)
    ensures MallocSplit(h, k, i, c2).unsplit == h.unsplit
  {
    hide SlotOf, SizeOf, Spliced;
  }

  lemma SpliceUndone(cs: seq<int>, i: nat, c2: int)
    requires i < |cs|
    ensures var r := Spliced(cs, i, [c2]);
      Without(r, i + 1) == cs && r[i] == cs[i] && r[i + 1] == c2 && (i > 0 ==> r[i - 1] == cs[i - 1])
  {
  }

  /** The lists after a malloc that splits and a free of its result. */
  lemma SplitRestored(h: Heap, k: nat, i: nat, c2: int)
    requires k < |h.lists| == NUM_SIZES && h.lists[k] != [] && 1 <= i < |h.cs| - 1 && h.cs[i] == h.lists[k][0]
    requires SlotOf(h.cs, h.cs[i]) == k && h.cs[i - 1] !in h.free && h.cs[i - 1] != c2
    requires Cuttable(h.cs, i, c2) && forall l :: 0 <= l < |h.lists| ==> c2 !in h.lists[l]
    requires CanFree(MallocSplit(h, k, i, c2), i)
    ensures FreeAt(MallocSplit(h, k, i, c2), i).lists == h.lists
    ensures FreeAt(MallocSplit(h, k, i, c2), i).unsplit == h.unsplit
  {
    var popped := h.lists[k := h.lists[k][1..]];
    var r := Spliced(h.cs, i, [c2]);
    assert forall l :: 0 <= l < |popped| ==> c2 !in popped[l];
    assert Listable(r, c2) ==> c2 !in popped[SlotOf(r, c2)];
    var h1 := MallocSplit(h, k, i, c2);
    assert h1.cs[i - 1] !in h1.free && c2 in h1.free by {
      SpliceUndone(h.cs, i, c2);
    }
    hide SlotOf, SizeOf, FreeAt, CanFree, Listable, ListsMore, ListsLess, MallocSplit, Spliced, Cuttable;
    SpliceUndone(h.cs, i, c2);
    SplitLists(h, k, i, c2);
    FreeLists(h1, i);
    UndoMore(r, popped, c2);
    RestoreHead(h.cs, h.lists, k);
  }

  /** A malloc that succeeds, taken apart: it pops chunk i, the head of list k, and splits it at c2
      or hands it out whole. */
  lemma MallocIs(h: Heap, size: Word) returns (k: nat, i: nat, c2: int, split: bool)
    requires Inv(h) && Malloc(h, size).1 != 0
    ensures k < |h.lists| == NUM_SIZES && h.lists[k] != [] && 1 <= i < |h.cs| - 1 && h.cs[i] == h.lists[k][0]
    ensures h.cs[i] in h.free && SlotOf(h.cs, h.cs[i]) == k
    ensures k == Source(h, size) && c2 == h.cs[i] + HEADER + Round(size) / 4
    ensures Malloc(h, size).1 == h.cs[i] + HEADER
    ensures split <==> Splits(h, h.cs[i], Round(size))
    ensures split ==> h.cs[i] + CHUNK <= c2 && c2 + CHUNK <= h.cs[i + 1] && Cuttable(h.cs, i, c2)
    ensures split ==> Malloc(h, size).0 == MallocSplit(h, k, i, c2)
    ensures !split ==> Malloc(h, size).0 == MallocWhole(h, k)
  {
    hide Inv, At, Splits, Source, Round, Cuttable, MallocSplit, MallocWhole, SlotOf, SizeOf, Sound, Spliced;
    MallocDefined(h, size);
    MallocChunks(h, size);
    k := Source(h, size);
    i := At(h.cs, h.lists[k][0]);
    c2 := h.lists[k][0] + HEADER + Round(size) / 4;
    split := Splits(h, h.lists[k][0], Round(size));
  }

  lemma FreeIsFreeAt(h: Heap, p: int)
    requires Inv(h) && Live(h, p)
    ensures CanFree(h, At(h.cs, p - HEADER)) && Free(h, p) == FreeAt(h, At(h.cs, p - HEADER))
  {
    hide Sound, Coalesced, CanFree, FreeAt;
    FreeDefined(h, At(h.cs, p - HEADER));
  }

  /** The chunks next to a free chunk are in use, and no chunk starts inside it. */
  lemma AroundFree(h: Heap, i: nat)
    requires Inv(h) && 1 <= i < |h.cs| - 1 && h.cs[i] in h.free
    ensures h.cs[i - 1] !in h.free && h.cs[i + 1] !in h.free
  {
  }

  lemma CutUnlisted(h: Heap, i: nat, c2: int)
    requires Inv(h) && 1 <= i < |h.cs| - 1 && h.cs[i] + CHUNK <= c2 && c2 + CHUNK <= h.cs[i + 1]
    ensures h.cs[i - 1] != c2
    ensures forall l :: 0 <= l < |h.lists| ==> c2 !in h.lists[l]
  {
    CutNotIn(h.cs, i, c2);
    forall l | 0 <= l < |h.lists|
      ensures c2 !in h.lists[l]
    {
      assert Filed(h.cs, h.free, h.lists[l], l, c2);
    }
  }

  lemma RestoredLists(h: Heap, size: Word)
    requires Inv(h) && Malloc(h, size).1 != 0
    ensures var (h1, p) := Malloc(h, size);
      && Inv(h1) && Live(h1, p)
      && Free(h1, p).lists == h.lists
      && Free(h1, p).unsplit == h1.unsplit
  {
    hide *;
    InvParts(h);
    MallocKeepsInv(h, size);
    MallocLive(h, size);
    var k, i, c2, split := MallocIs(h, size);
    MallocPlace(h, size, i);
    var (h1, p) := Malloc(h, size);
    FreeIsFreeAt(h1, p);
    AroundFree(h, i);
    if split {
      CutUnlisted(h, i, c2);
      SplitLists(h, k, i, c2);
      SplitRestored(h, k, i, c2);
    } else {
      WholeUnsplit(h, k);
      WholeRestored(h, k, i);
    }
  }

  lemma WholeUnsplit(h: Heap, k: nat)
    requires k < |h.lists| && h.lists[k] != []
    ensures MallocWhole(h, k).unsplit == h.unsplit + 1
  {
  }

  lemma MallocLive(h: Heap, size: Word)
    requires Inv(h) && Malloc(h, size).1 != 0
    ensures Live(Malloc(h, size).0, Malloc(h, size).1)
  {
    hide *;
    MallocGains(h, size, 0);
    MallocKeepsInv(h, size);
    InvParts(Malloc(h, size).0);
    GainedInUse(h, Malloc(h, size).0, Malloc(h, size).1);
  }

  lemma GainedInUse(h: Heap, h': Heap, p: int)
    requires Tiled(h'.cs) && Gained(BlocksOf(h.cs, h.free), BlocksOf(h'.cs, h'.free), p, 0)
    ensures Live(h', p)
  {
    PointersInUse(h'.cs, h'.free, p);
  }

  lemma MallocPlace(h: Heap, size: Word, i: nat)
    requires Inv(h) && Malloc(h, size).1 != 0 && i < |h.cs| && Malloc(h, size).1 == h.cs[i] + HEADER
    ensures var (h1, p) := Malloc(h, size);
      p - HEADER in h1.cs && At(h1.cs, p - HEADER) == i
  {
    hide *;
    var k, c2 := MallocWhere(h, size);
    ChunkAt(h.cs, i);
    ChunkAt(h.cs, k);
    ChunkStays(h.cs, Malloc(h, size).0.cs, i, c2, Malloc(h, size).1);
  }

  lemma MallocWhere(h: Heap, size: Word) returns (i: nat, c2: int)
    requires Inv(h) && Malloc(h, size).1 != 0
    ensures Tiled(h.cs) && Tiled(Malloc(h, size).0.cs)
    ensures i < |h.cs| && Malloc(h, size).1 == h.cs[i] + HEADER
    ensures Malloc(h, size).0.cs == h.cs || Malloc(h, size).0.cs == Spliced(h.cs, i, [c2])
  {
    hide *;
    InvParts(h);
    MallocChunks(h, size);
    SoundParts(Malloc(h, size).0, 0);
    var c := h.lists[Source(h, size)][0];
    i, c2 := At(h.cs, c), c + HEADER + Round(size) / 4;
  }

  /** A split keeps the chunk that it splits in its place. */
  lemma ChunkStays(cs: seq<int>, cs': seq<int>, i: nat, c2: int, p: int)
    requires Tiled(cs) && Tiled(cs') && i < |cs| && p == cs[i] + HEADER
    requires cs' == cs || cs' == Spliced(cs, i, [c2])
    ensures p - HEADER in cs' && At(cs', p - HEADER) == i
  {
    hide Tiled, Spliced, At;
    if cs' != cs {
      SplicedItem(cs, i, [c2], i);
    }
    ChunkAt(cs', i);
  }

  ghost predicate SameRegion(h: Heap, h': Heap) {
    |h.cs| > 0 && |h'.cs| > 0 && h.cs[0] == h'.cs[0] && h.cs[|h.cs| - 1] == h'.cs[|h'.cs| - 1]
  }

  lemma MallocRegion(h: Heap, size: Word)
    requires Inv(h)
    ensures SameRegion(h, Malloc(h, size).0)
  {
    hide Inv, Malloc, Splits, SizeOf, SlotOf, Source, Round, Tiled, Sound, Spliced, At, Indexed, Interior,
      Account, Coalesced;
    InvParts(h);
    MallocChunks(h, size);
    if Source(h, size) < NUM_SIZES && Splits(h, h.lists[Source(h, size)][0], Round(size)) {
      var c := h.lists[Source(h, size)][0];
      SplitTiled(h.cs, At(h.cs, c), c + HEADER + Round(size) / 4);
    } else {
      TiledLong(h.cs);
    }
  }

  lemma TiledLong(cs: seq<int>)
    requires Tiled(cs)
    ensures |cs| >= 3
  {
  }

  lemma WithoutEnds(cs: seq<int>, i: nat)
    requires 1 <= i < |cs| - 1
    ensures var r := Without(cs, i);
      |r| == |cs| - 1 && r[0] == cs[0] && r[|r| - 1] == cs[|cs| - 1]
  {
  }

  lemma AbsorbedEnds(cs: seq<int>, free: set<int>, i: nat)
    requires Tiled(cs) && Interior(cs, free) && 1 <= i < |cs| - 1
    ensures var r := Absorbed(cs, free, i).0;
      |r| > 0 && r[0] == cs[0] && r[|r| - 1] == cs[|cs| - 1]
  {
    hide Tiled, Without, SizeOf, SlotOf;
    ChunkAt(cs, i + 1);
    if cs[i + 1] in free {
      WithoutEnds(cs, i + 1);
      WithoutEnds(Without(cs, i + 1), i);
    } else {
      WithoutEnds(cs, i);
    }
  }

  lemma FreeRegion(h: Heap, p: int)
    requires Inv(h) && Live(h, p)
    ensures SameRegion(h, Free(h, p))
  {
    hide Inv, Free, Absorbed, Tiled, Interior, Sound, Coalesced;
    InvParts(h);
    TiledLong(h.cs);
    FreeChunks(h, p);
    AbsorbedEnds(h.cs, h.free, At(h.cs, p - HEADER));
  }

  lemma LostHeaders(a: Word, b: Word, x: int, y: int)
    requires Wrap(a + x) == Wrap(b + y)
    ensures a == Wrap(b - (x - y))
  {
    hide Wrap;
    WrapShift(a + x, -x);
    WrapShift(b + y, -x);
    assert a + x + -x == a && b + y + -x == b - (x - y);
    WrapWord(a);
  }

  lemma WrapWord(a: Word)
    ensures Wrap(a) == a
  {
  }

  lemma HeapsEqual(h: Heap, h2: Heap)
    requires h2.cs == h.cs && h2.free == h.free && h2.lists == h.lists && h2.memMeta == h.memMeta
    requires h2.unsplit >= h.unsplit
    requires Wrap(h2.memUsed + HEADER_SIZE * h2.unsplit) == Wrap(h.memUsed + HEADER_SIZE * h.unsplit)
    requires Wrap(h2.memFree + HEADER_SIZE * h2.unsplit) == Wrap(h.memFree + HEADER_SIZE * h.unsplit)
    ensures var lost := HEADER_SIZE * (h2.unsplit - h.unsplit);
      h2 == h.(memUsed := Wrap(h.memUsed - lost), memFree := Wrap(h.memFree - lost), unsplit := h2.unsplit)
  {
    LostHeaders(h2.memUsed, h.memUsed, HEADER_SIZE * h2.unsplit, HEADER_SIZE * h.unsplit);
    LostHeaders(h2.memFree, h.memFree, HEADER_SIZE * h2.unsplit, HEADER_SIZE * h.unsplit);
  }

  lemma MallocUnsplit(h: Heap, size: Word)
    requires Inv(h) && Malloc(h, size).1 != 0
    ensures Malloc(h, size).0.unsplit == h.unsplit || Malloc(h, size).0.unsplit == h.unsplit + 1
  {
    hide *;
    var k, i, c2, split := MallocIs(h, size);
    if split {
      SplitLists(h, k, i, c2);
    } else {
      WholeUnsplit(h, k);
    }
  }

  /** malloc and then free of its result: the chunks and the order of every free list are as before.
      So are the counters if malloc split a chunk; if not, mem_used and mem_free end one header lower. */
  lemma MallocThenFree(h: Heap, size: Word)
    requires Inv(h) && Malloc(h, size).1 != 0
    ensures var (h1, p) := Malloc(h, size);
      && Inv(h1) && Live(h1, p)
      && (h1.unsplit == h.unsplit || h1.unsplit == h.unsplit + 1)
      && Free(h1, p) ==
         if h1.unsplit == h.unsplit then h
         else h.(memUsed := Wrap(h.memUsed - HEADER_SIZE), memFree := Wrap(h.memFree - HEADER_SIZE),
                 unsplit := h.unsplit + 1)
  {
    hide Inv, Malloc, Free, Live, Blocks, SameRegion;
    var (h1, p) := Malloc(h, size);
    RestoredLists(h, size);
    MallocUnsplit(h, size);
    MallocBlocks(h, size);
    MallocKeepsInv(h, size);
    var h2 := Free(h1, p);
    FreeBlocks(h1, p);
    assert Blocks(h2) == Blocks(h);
    FreeKeepsInv(h1, p);
    RoundTripRegion(h, size);
    Canonical(h2, h);
    HeapsEqual(h, h2);
    WrapId(h.memUsed);
    WrapId(h.memFree);
  }

  lemma WrapId(x: Word)
    ensures Wrap(x) == x
  {
  }

  lemma RoundTripRegion(h: Heap, size: Word)
    requires Inv(h) && Inv(Malloc(h, size).0) && Live(Malloc(h, size).0, Malloc(h, size).1)
    ensures var h2 := Free(Malloc(h, size).0, Malloc(h, size).1);
      |h2.cs| > 0 && |h.cs| > 0 && h2.cs[0] == h.cs[0] && h2.cs[|h2.cs| - 1] == h.cs[|h.cs| - 1]
  {
    hide Inv, Malloc, Free, Live;
    MallocRegion(h, size);
    FreeRegion(Malloc(h, size).0, Malloc(h, size).1);
  }

  // ----- The first heap, and what remains when all is freed -----

  lemma InitialInv(first: int, last: int)
    requires 0 < first && first + 2 * CHUNK <= last && last + CHUNK <= MEM_WORDS
    ensures Inv(Initial(first, last)) && Blocks(Initial(first, last)) == map[]
  {
    hide Indexed, Account, SlotOf, SizeOf, Slot, Wrap, Held;
    var h := Initial(first, last);
    var second := first + CHUNK;
    assert Tiled(h.cs);
    ChunkAt(h.cs, 1);
    InitialIndexed(h.cs, second);
    InitialBalanced(h, second);
    assert Pointers(h.cs, h.free) == {};
  }

  lemma InitialBalanced(h: Heap, c: int)
    requires |h.cs| == 3 && h.cs[1] == c && h.free == {c} && h.unsplit == 0
    requires h.memFree == Wrap(Size(h.cs, 1) - HEADER_SIZE) && h.memUsed == 0
    requires h.memMeta == 2 * CHUNK_SIZE + HEADER_SIZE
    ensures Balanced(h)
  {
    var t := h.cs[1..];
    assert t == [c, h.cs[2]] && t[1..] == [h.cs[2]];
    assert Held(t[1..], h.free, true) == 0 && Held(t[1..], h.free, false) == 0;
    assert Held(t, h.free, false) == 0 && Held(t, h.free, true) == Size(h.cs, 1);
  }

  lemma InitialIndexed(cs: seq<int>, c: int)
    requires Tiled(cs) && |cs| == 3 && cs[1] == c
    ensures Indexed(cs, {c}, seq(NUM_SIZES, l => if l == Slot(4 * (cs[2] - c - HEADER)) then [c] else []))
  {
    hide SizeOf, SlotOf, Slot, Tiled;
    ChunkAt(cs, 1);
    var lists := seq(NUM_SIZES, l => if l == Slot(4 * (cs[2] - c - HEADER)) then [c] else []);
    forall l, x | 0 <= l < |lists|
      ensures Filed(cs, {c}, lists[l], l, x)
    {
    }
  }

  /** Once every block is freed, in whatever order, the heap is the initial one again: one free
      chunk between the sentinels, in its slot.  Only mem_used and mem_free have lost a header for
      every malloc that did not split. */
  lemma AllFreed(h: Heap)
    requires Inv(h) && Blocks(h) == map[]
    ensures |h.cs| == 3 && 0 < h.cs[0] && h.cs[0] + 2 * CHUNK <= h.cs[2] && h.cs[2] + CHUNK <= MEM_WORDS
    ensures var h0 := Initial(h.cs[0], h.cs[2]);
      var lost := HEADER_SIZE * h.unsplit;
      h == h0.(memUsed := Wrap(h0.memUsed - lost), memFree := Wrap(h0.memFree - lost), unsplit := h.unsplit)
  {
    hide Inv, Blocks, Initial, Tiled, Sound, Indexed, Interior, Coalesced, Account;
    InvParts(h);
    var first, last := h.cs[0], h.cs[|h.cs| - 1];
    RegionRoom(h.cs);
    var h0 := Initial(first, last);
    InitialInv(first, last);
    InitialEnds(first, last);
    InvParts(h0);
    Canonical(h, h0);
    SingleLists(h.cs, h.free, h.lists, h0.lists);
    HeapsEqual(h0, h);
  }

  lemma RegionRoom(cs: seq<int>)
    requires Tiled(cs)
    ensures 0 < cs[0] && cs[0] + 2 * CHUNK <= cs[|cs| - 1] && cs[|cs| - 1] + CHUNK <= MEM_WORDS
  {
  }

  lemma InitialEnds(first: int, last: int)
    requires 0 < first && first + 2 * CHUNK <= last && last + CHUNK <= MEM_WORDS
    ensures var h := Initial(first, last);
      h.cs == [first, first + CHUNK, last] && h.free == {first + CHUNK} && h.unsplit == 0
  {
  }

  /** With one free chunk the lists have no order to differ in. */
  lemma SingleLists(cs: seq<int>, free: set<int>, lists1: seq<seq<int>>, lists2: seq<seq<int>>)
    requires |cs| == 3 && free == {cs[1]} && Indexed(cs, free, lists1) && Indexed(cs, free, lists2)
    ensures lists1 == lists2
  {
    forall l | 0 <= l < NUM_SIZES
      ensures lists1[l] == lists2[l]
    {
      assert Filed(cs, free, lists1[l], l, cs[1]) && Filed(cs, free, lists2[l], l, cs[1]);
      OnlyItem(cs, free, lists1[l], l);
      OnlyItem(cs, free, lists2[l], l);
    }
  }

  lemma OnlyItem(cs: seq<int>, free: set<int>, list: seq<int>, l: nat)
    requires |cs| == 3 && free == {cs[1]} && NoDup(list)
    requires forall x {:trigger Filed(cs, free, list, l, x)} :: Filed(cs, free, list, l, x)
    ensures list == if SlotOf(cs, cs[1]) == l then [cs[1]] else []
  {
    assert Filed(cs, free, list, l, cs[1]);
    if list != [] {
      var final := |list| - 1;
      assert Filed(cs, free, list, l, list[0]) && Filed(cs, free, list, l, list[final]);
      assert list[0] == list[final] == cs[1];
      assert final == 0;
    }
  }

  // ----- The free lists as an index -----

  ghost predicate OnList(h: Heap, l: nat, j: nat, c: int) {
    l < |h.lists| && j < |h.lists[l]| && h.lists[l][j] == c
  }

  /** A chunk between the sentinels is free exactly when it is on a free list; it is then there once,
      and that list is the rounded-down base 2 logarithm of its size. */
  lemma ListedOnce(h: Heap, i: nat) returns (l: nat, j: nat)
    requires Inv(h) && 1 <= i < |h.cs| - 1
    ensures h.cs[i] in h.free <==> OnList(h, l, j, h.cs[i])
    ensures forall l': nat, j': nat :: OnList(h, l', j', h.cs[i]) ==> h.cs[i] in h.free && l' == l && j' == j
    ensures h.cs[i] in h.free ==> Pow2(l) <= Size(h.cs, i) < Pow2(l + 1) && l < NUM_SIZES
  {
    hide Inv, Sound, Tiled, Interior, Account, Coalesced, SizeOf, SlotOf, Slot, Size, Pow2;
    var c := h.cs[i];
    InvParts(h);
    ChunkAt(h.cs, i);
    if c in h.free {
      l := SlotOf(h.cs, c);
      assert Filed(h.cs, h.free, h.lists[l], l, c);
      j := At(h.lists[l], c);
      SlotIsLog2(Size(h.cs, i));
    }
    forall l': nat, j': nat | OnList(h, l', j', c)
      ensures c in h.free && l' == l && j' == j
    {
      assert Filed(h.cs, h.free, h.lists[l'], l', c);
    }
    if c !in h.free {
      l, j := 0, 0;
    }
  }

  // ----- What the search promises -----

  /** malloc returns NULL exactly when every free chunk is smaller than the request rounded up to a
      power of two, and that is less than twice the aligned request. */
  lemma NullExactly(h: Heap, size: Word)
    requires Inv(h)
    ensures 1 <= FirstSlot(Round(size)) && Pow2(FirstSlot(Round(size))) < 2 * Round(size)
    ensures Malloc(h, size).1 == 0 <==> forall c :: c in h.free ==> SizeOf(h.cs, c) < Pow2(FirstSlot(Round(size)))
  {
    hide Inv, Malloc, SizeOf, Round, FirstSlot, Tiled, Sound, Splits, SlotOf;
    var req := Round(size);
    FirstSlotIsCeilLog2(req);
    InvParts(h);
    MallocChunks(h, size);
    var k := Source(h, size);
    if k < NUM_SIZES {
      HeadFits(h, req, k, h.lists[k][0]);
      ListedSize(h, k, h.lists[k][0]);
      Pow2Monotonic(FirstSlot(req), k);
      ChunkPositive(h.cs, At(h.cs, h.lists[k][0]));
    } else {
      forall c | c in h.free
        ensures SizeOf(h.cs, c) < Pow2(FirstSlot(req))
      {
        FreeIsSmall(h, c, FirstSlot(req));
      }
    }
  }

  lemma ChunkPositive(cs: seq<int>, i: nat)
    requires Tiled(cs) && i < |cs|
    ensures cs[i] > 0
  {
  }

  lemma FreeIsSmall(h: Heap, c: int, n: nat)
    requires Inv(h) && c in h.free && forall l :: n <= l < |h.lists| ==> h.lists[l] == []
    ensures SizeOf(h.cs, c) < Pow2(n)
  {
    var l := SlotOf(h.cs, c);
    ChunkAt(h.cs, At(h.cs, c));
    assert Filed(h.cs, h.free, h.lists[l], l, c);
    hide Inv;
    SlotAtLeast(SizeOf(h.cs, c), n);
  }
}
