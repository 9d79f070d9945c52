/** Whole runs of malloc, calloc, realloc and free calls. */
module HeapRuns {
  import opened Words
  import opened Slots
  import opened HeapSpec
  import opened HeapOps
  import opened HeapLaws
  import opened HeapTheorems

  datatype Call =
    | MallocCall(size: Word)
    | CallocCall(nmemb: Word, size: Word)
    | ReallocCall(p: int, size: Word)
    | FreeCall(p: int)

  /** What a caller owes: a live block (or NULL for free), and, for calloc and realloc, which do
      not check, a malloc that succeeds and whose rounding does not wrap. */
  ghost predicate Legal(h: Heap, call: Call) {
    Inv(h) &&
    match call
    case MallocCall(_) => true
    case CallocCall(nmemb, size) => Malloc(h, Wrap(nmemb * size)).1 != 0 && Wrap(nmemb * size) <= 0xFFFF_FFFC
    case ReallocCall(p, size) =>
      p in Blocks(h) && (Blocks(h)[p] >= size || (Malloc(h, size).1 != 0 && size <= 0xFFFF_FFFC))
    case FreeCall(p) => p == 0 || p in Blocks(h)
  }

  lemma MovedLive(h: Heap, size: Word, p: int)
    requires Inv(h) && Malloc(h, size).1 != 0 && p in Blocks(h)
    ensures var h1 := Malloc(h, size).0;
      Inv(h1) && Live(h1, p) && p != Malloc(h, size).1
      && p in Blocks(h1) && Blocks(h1)[p] == Blocks(h)[p]
  {
    hide Inv, Malloc, Live, Blocks, Sound, Tiled;
    MallocKeepsInv(h, size);
    MallocBlocks(h, size);
    InvParts(Malloc(h, size).0);
    BlockIsLive(Malloc(h, size).0, p);
  }

  lemma BlockIsLive(h: Heap, p: int)
    requires Tiled(h.cs)
    ensures p in Blocks(h) <==> Live(h, p)
  {
    PointersInUse(h.cs, h.free, p);
  }

  /** The heap after a call. */
  ghost function Step(h: Heap, call: Call): Heap
    requires Legal(h, call)
  {
    hide Malloc, Free, Live, Blocks;
    InvParts(h);
    match call
    case MallocCall(size) => Malloc(h, size).0
    case CallocCall(nmemb, size) => Malloc(h, Wrap(nmemb * size)).0
    case ReallocCall(p, size) =>
      if Blocks(h)[p] >= size then h else
        MovedLive(h, size, p);
        Free(Malloc(h, size).0, p)
    case FreeCall(p) =>
      if p == 0 then h else
        BlockIsLive(h, p);
        Free(h, p)
  }

  lemma StepKeepsInv(h: Heap, call: Call)
    requires Legal(h, call)
    ensures Inv(Step(h, call)) && SameRegion(h, Step(h, call))
  {
    hide Inv, Malloc, Free, Live, Blocks, Sound, Tiled;
    InvParts(h);
    TiledLong(h.cs);
    match call
    case MallocCall(size) =>
      MallocKeepsInv(h, size);
      MallocRegion(h, size);
    case CallocCall(nmemb, size) =>
      MallocKeepsInv(h, Wrap(nmemb * size));
      MallocRegion(h, Wrap(nmemb * size));
    case ReallocCall(p, size) =>
      if Blocks(h)[p] < size {
        MovedLive(h, size, p);
        MallocRegion(h, size);
        FreeKeepsInv(Malloc(h, size).0, p);
        FreeRegion(Malloc(h, size).0, p);
      }
    case FreeCall(p) =>
      if p != 0 {
        BlockIsLive(h, p);
        FreeKeepsInv(h, p);
        FreeRegion(h, p);
      }
  }

  /** The calls, each legal when it is made, lead from h to h'. */
  ghost predicate Run(h: Heap, calls: seq<Call>, h': Heap)
    decreases |calls|
  {
    hide Legal, Step;
    if calls == [] then h == h'
    else Legal(h, calls[0]) && Run(Step(h, calls[0]), calls[1..], h')
  }

  /** A run of one call is that call. */
  lemma RunOne(h: Heap, call: Call, h': Heap)
    ensures Run(h, [call], h') <==> Legal(h, call) && h' == Step(h, call)
  {
    hide Legal, Step;
    assert [call][1..] == [];
  }

  /** A run of two parts is a run of each. */
  lemma {:induction false} RunConcat(h: Heap, a: seq<Call>, b: seq<Call>, h': Heap)
    ensures Run(h, a + b, h') <==> exists m :: Run(h, a, m) && Run(m, b, h')
    decreases |a|
  {
    hide Legal, Step;
    if a == [] {
      assert a + b == b && Run(h, a, h);
    } else {
      assert (a + b)[0] == a[0] && (a + b)[1..] == a[1..] + b;
      if Legal(h, a[0]) {
        var h1 := Step(h, a[0]);
        RunConcat(h1, a[1..], b, h');
        forall m
          ensures Run(h, a, m) <==> Run(h1, a[1..], m)
        {
        }
      }
    }
  }

  /** Every reachable heap satisfies the invariant: its chunks tile the region, no two neighbours are
      free, the lists index the free chunks by size, and the counters obey their law. */
  lemma {:induction false} RunKeepsInv(h: Heap, calls: seq<Call>, h': Heap)
    requires Inv(h) && Run(h, calls, h')
    ensures Inv(h') && SameRegion(h, h')
    decreases |calls|
  {
    hide Inv, Legal, Step;
    if calls == [] {
      RegionReflexive(h);
    } else {
      StepKeepsInv(h, calls[0]);
      RunKeepsInv(Step(h, calls[0]), calls[1..], h');
    }
  }

  lemma RegionReflexive(h: Heap)
    requires Inv(h)
    ensures SameRegion(h, h)
  {
  }

  /** Two runs from one heap that end with the same live blocks, such as the same frees in different
      orders, end with the same chunks and the same free lists up to order. */
  lemma RunsConfluent(h: Heap, calls1: seq<Call>, h1: Heap, calls2: seq<Call>, h2: Heap)
    requires Inv(h) && Run(h, calls1, h1) && Run(h, calls2, h2) && Blocks(h1) == Blocks(h2)
    ensures h1.cs == h2.cs && h1.free == h2.free && |h1.lists| == |h2.lists| == NUM_SIZES
    ensures forall l :: 0 <= l < NUM_SIZES ==> ToSet(h1.lists[l]) == ToSet(h2.lists[l])
    ensures h1.unsplit == h2.unsplit ==>
      h1.memFree == h2.memFree && h1.memUsed == h2.memUsed && h1.memMeta == h2.memMeta
  {
    hide Inv, Run, Blocks, ToSet;
    RunKeepsInv(h, calls1, h1);
    RunKeepsInv(h, calls2, h2);
    Canonical(h1, h2);
    if h1.unsplit == h2.unsplit {
      SameCounters(h1, h2);
    }
  }

  lemma SameCounters(h1: Heap, h2: Heap)
    requires Inv(h1) && Inv(h2) && h1.cs == h2.cs && h1.free == h2.free && h1.unsplit == h2.unsplit
    ensures h1.memFree == h2.memFree && h1.memUsed == h2.memUsed && h1.memMeta == h2.memMeta
  {
  }

  /** A run from memory_init that has freed all it allocated is back at the initial heap, but for
      the headers the counters lost. */
  lemma RunReturns(first: int, last: int, calls: seq<Call>, h: Heap)
    requires 0 < first && first + 2 * CHUNK <= last && last + CHUNK <= MEM_WORDS
    requires Run(Initial(first, last), calls, h) && Blocks(h) == map[]
    ensures var h0 := Initial(first, last);
      var lost := HEADER_SIZE * h.unsplit;
      h == h0.(memUsed := Wrap(h0.memUsed - lost), memFree := Wrap(h0.memFree - lost), unsplit := h.unsplit)
  {
    hide Inv, Run, Blocks;
    InitialInv(first, last);
    RunKeepsInv(Initial(first, last), calls, h);
    AllFreed(h);
  }

  // ----- Each call -----

  /** malloc: NULL and an unchanged heap, or one more block, which covers the request exactly when rounding
      it up does not wrap. */
  lemma MallocStep(h: Heap, size: Word) returns (p: int)
    requires Inv(h)
    ensures Legal(h, MallocCall(size)) && (Step(h, MallocCall(size)), p) == Malloc(h, size)
    ensures var h' := Step(h, MallocCall(size));
      if p == 0 then h' == h
      else
        && p !in Blocks(h) && p in Blocks(h') && Blocks(h') == Blocks(h)[p := Blocks(h')[p]]
        && (size <= Blocks(h')[p] <==> size <= 0xFFFF_FFFC)
  {
    hide Inv, Malloc, Blocks;
    p := Malloc(h, size).1;
    if p == 0 {
      MallocNothing(h, size);
    } else {
      MallocBlocks(h, size);
      MallocSize(h, size);
    }
  }

  lemma MallocNothing(h: Heap, size: Word)
    requires Inv(h) && Malloc(h, size).1 == 0
    ensures Malloc(h, size).0 == h
  {
    hide *;
    InvParts(h);
    MallocChunks(h, size);
    ListedPositive(h, size);
  }

  lemma ListedPositive(h: Heap, size: Word)
    requires Tiled(h.cs) && |h.lists| == NUM_SIZES
    ensures var k := Source(h, size);
      k < |h.lists| && h.lists[k] != [] && h.lists[k][0] in h.cs ==> h.lists[k][0] + HEADER > 0
  {
    hide Source;
  }

  /** calloc: one more block of nmemb * size bytes, in size_t arithmetic. */
  lemma CallocStep(h: Heap, nmemb: Word, size: Word) returns (p: int)
    requires Legal(h, CallocCall(nmemb, size))
    ensures (Step(h, CallocCall(nmemb, size)), p) == Malloc(h, nmemb * size % 0x1_0000_0000)
    ensures var h' := Step(h, CallocCall(nmemb, size));
      && p !in Blocks(h) && p in Blocks(h') && Blocks(h') == Blocks(h)[p := Blocks(h')[p]]
      && nmemb * size % 0x1_0000_0000 <= Blocks(h')[p]
  {
    hide Inv, Malloc, Blocks;
    p := MallocStep(h, Wrap(nmemb * size));
  }

  lemma CallocIsLegal(h: Heap, nmemb: Word, size: Word)
    requires Inv(h) && Malloc(h, Wrap(nmemb * size)).1 != 0 && Wrap(nmemb * size) <= 0xFFFF_FFFC
    ensures Legal(h, CallocCall(nmemb, size))
    ensures Step(h, CallocCall(nmemb, size)) == Malloc(h, Wrap(nmemb * size)).0
  {
    hide Inv, Malloc, Wrap;
  }

  /** free: exactly that block goes. */
  lemma FreeStep(h: Heap, p: int)
    requires Legal(h, FreeCall(p))
    ensures p != 0 ==> Live(h, p)
    ensures Step(h, FreeCall(p)) == if p == 0 then h else Free(h, p)
    ensures Blocks(Step(h, FreeCall(p))) == Blocks(h) - {p}
  {
    hide Inv, Free, Live, Blocks, Tiled, Sound;
    InvParts(h);
    if p == 0 {
      NoNullBlock(h);
      assert Blocks(h) == Blocks(h) - {p};
    } else {
      BlockIsLive(h, p);
      FreeBlocks(h, p);
    }
  }

  lemma FreeIsLegal(h: Heap, p: int)
    requires Inv(h) && (p == 0 || Live(h, p))
    ensures Legal(h, FreeCall(p))
  {
    hide Live, Blocks, Sound, Tiled;
    InvParts(h);
    BlockIsLive(h, p);
  }

  lemma NoNullBlock(h: Heap)
    requires Tiled(h.cs)
    ensures 0 !in Blocks(h)
  {
    hide Blocks;
    BlockIsLive(h, 0);
    if Live(h, 0) {
      PositiveChunk(h.cs, At(h.cs, 0 - HEADER));
    }
  }

  lemma PositiveChunk(cs: seq<int>, i: nat)
    requires Tiled(cs) && i < |cs|
    ensures cs[i] > 0
  {
  }

  /** realloc: nothing if the block is large enough; else it goes, and one that is large enough comes. */
  lemma ReallocBlocks(h: Heap, p: int, size: Word) returns (r: int)
    requires Legal(h, ReallocCall(p, size))
    ensures var h' := Step(h, ReallocCall(p, size));
      if Blocks(h)[p] >= size then h' == h && r == p
      else
        && r !in Blocks(h) && r in Blocks(h') && Blocks(h') == (Blocks(h) - {p})[r := Blocks(h')[r]]
        && size <= Blocks(h')[r]
  {
    hide Inv, Malloc, Free, Live, Blocks, Sound, Tiled;
    r := p;
    if Blocks(h)[p] < size {
      r := MallocStep(h, size);
      MovedLive(h, size, p);
      var h1 := Malloc(h, size).0;
      FreeBlocks(h1, p);
      assert Blocks(h1) - {p} == (Blocks(h) - {p})[r := Blocks(h1)[r]];
    }
  }

  /** realloc of a block that is too small: allocate, then free. */
  lemma ReallocStep(h: Heap, p: int, size: Word)
    requires Inv(h) && p in Blocks(h) && Blocks(h)[p] < size && Malloc(h, size).1 != 0 && size <= 0xFFFF_FFFC
    ensures Legal(h, ReallocCall(p, size))
    ensures var h1 := Malloc(h, size).0;
      Inv(h1) && Live(h1, p) && Step(h, ReallocCall(p, size)) == Free(h1, p)
  {
    hide Inv, Malloc, Live, Blocks, Free;
    MovedLive(h, size, p);
  }
}
