/** The allocator as it runs: memory.c over one word memory. */
module Allocator {
  import opened Words
  import opened Slots
  import opened DList
  import opened HeapSpec
  import opened HeapOps
  import opened HeapLaws
  import opened HeapTheorems
  import opened HeapRuns
  import opened HeapLayout
  import opened HeapStart
  import opened Contents
  import opened Bytes
  import opened PayloadWrites

  class Memory {
    const mem: array<Word>
    /** The 32 free list pointers. */
    const freeChunk: array<Word>
    var memFree: Word
    var memUsed: Word
    var memMeta: Word
    var first: int
    var last: int
    /** The abstract heap this memory holds. */
    ghost var heap: Heap

    /** Memory holds the given structure. */
    ghost predicate Holding(cs: seq<int>, lists: seq<seq<int>>, zero: set<int>)
      reads mem, freeChunk
    {
      mem != freeChunk && Holds(mem[..], freeChunk[..], cs, lists, zero)
    }

    // ----- memory_init -----

    /** memory_init of the size bytes from byte address start: the sentinels, and one free chunk that
        is everything between them.  The region must hold three chunks. */
    constructor (mem: array<Word>, start: int, size: int)
      requires mem.Length <= MEM_WORDS && 0 < start && 0 <= size && start + size <= 4 * mem.Length
      requires (start + ALIGN - 1) / ALIGN + 2 * CHUNK <= (start + size) / ALIGN - CHUNK
      modifies mem
      ensures this.mem == mem && fresh(freeChunk)
      ensures Valid() && heap == Initial((start + ALIGN - 1) / ALIGN, (start + size) / ALIGN - CHUNK)
      ensures Contents() == map[] && OutsideSame(old(mem[..]), mem[..], heap.cs)
    {
      hide Inv, Matches, OutsideSame, ContentsOf, Initial;
      this.mem := mem;
      freeChunk := new Word[NUM_SIZES](_ => 0);
      memFree, memUsed, memMeta := 0, 0, 0;
      first := (start + ALIGN - 1) / ALIGN;
      last := (start + size) / ALIGN - CHUNK;
      heap := Initial((start + ALIGN - 1) / ALIGN, (start + size) / ALIGN - CHUNK);
      new;
      FirstPush(first, last);
      MemoryInit();
    }

    /** The part of memory_init that works on memory. */
    method MemoryInit()
      requires Room(mem[..], first, last) && mem != freeChunk && memUsed == 0 && heap == Initial(first, last)
      requires freeChunk.Length == NUM_SIZES && forall l :: 0 <= l < NUM_SIZES ==> freeChunk[l] == 0
      modifies mem, freeChunk, this`memFree, this`memMeta
      ensures Valid() && Contents() == map[] && OutsideSame(old(mem[..]), mem[..], heap.cs)
    {
      hide Inv, Holds, Wrote, Meta, ToSet, OutsideSame, SlotOf, SizeOf, Ring, Tiled, ContentsOf, Unlisted,
        Initial, NoLists, Bare, Cells,
        Wrap, Slot, Links, InMemory;
      ghost var m := mem[..];
      ghost var cs, free := Three(first, last), {first, first + CHUNK, last};
      var second := first + CHUNK;
      InitChunks(second);
      ghost var m0 := mem[..];
      LinkChunks(second);
      MetaTrans(m, m0, mem[..], ToSet(cs), free);
      FirstPush(first, last);
      ghost var m1 := mem[..];
      ThreeTiled(m, first, last);
      SecondUnlisted(second);
      var len := MemoryChunkSize(second, 1, cs, NoLists(), {second});
      var n := MemoryChunkSlot(len);
      ChunkFacts(m1, freeChunk[..], cs, NoLists(), {second}, 1);
      PushList(n, second, cs, NoLists(), {second});
      memFree := Wrap(len - HEADER_SIZE);
      memMeta := CHUNK_SIZE * 2 + HEADER_SIZE;
      InitialInv(first, last);
      StartEffect(m, m1, mem[..], first, last, n);
    }

    /** The three chunks of memory_init. */
    method InitChunks(second: int)
      requires Room(mem[..], first, last) && second == first + CHUNK
      modifies mem
      ensures Room(mem[..], first, last) && Bare(mem[..], first) && Bare(mem[..], second) && Bare(mem[..], last)
      ensures Wrote(old(mem[..]), mem[..], Meta(ToSet(Three(first, last)), {first, second, last}))
    {
      hide Wrote, Meta, ToSet, Ring, Tiled, Bare, Cells, Links;
      ghost var m := mem[..];
      ghost var cs, free := Three(first, last), {first, second, last};
      ThreeTiled(m, first, last);
      NothingWrote(m, Meta(ToSet(cs), free));
      MemoryChunkInit(first);
      ghost var m1 := mem[..];
      InitCells(m, m, m1, cs, first, free);
      MemoryChunkInit(second);
      ghost var m2 := mem[..];
      InitCells(m, m1, m2, cs, second, free);
      BareKept(m1, m2, cs, first, second);
      MemoryChunkInit(last);
      ghost var m3 := mem[..];
      InitCells(m, m2, m3, cs, last, free);
      BareKept(m2, m3, cs, first, last);
      BareKept(m2, m3, cs, second, last);
    }

    /** They are linked into one ring, and the sentinels are marked as used. */
    method LinkChunks(second: int)
      requires Room(mem[..], first, last) && second == first + CHUNK && mem != freeChunk
      requires Bare(mem[..], first) && Bare(mem[..], second) && Bare(mem[..], last)
      requires freeChunk.Length == NUM_SIZES && forall l :: 0 <= l < NUM_SIZES ==> freeChunk[l] == 0
      modifies mem
      ensures Holding(Three(first, last), NoLists(), {second}) && Ring(mem[..], [second], FREE)
      ensures Wrote(old(mem[..]), mem[..], Meta(ToSet(Three(first, last)), {first, second, last}))
    {
      hide Holds, Wrote, Meta, ToSet, Ring, Tiled, Bare, Cells, InsertAfter, Linked, Flags, Links;
      ghost var m := mem[..];
      ghost var cs, free := Three(first, last), {first, second, last};
      ThreeTiled(m, first, last);
      BareFlags(m, first, last);
      JoinSecond(m, first, last);
      DListInsertAfter(mem, first, second);
      ghost var m1 := mem[..];
      FlagsJoined(m, m1, first, last, {first, second});
      MetaOfAll(m, m1, ToSet(cs), {first, second}, free);
      JoinLast(m1, first, last);
      DListInsertAfter(mem, second, last);
      ghost var m2 := mem[..];
      FlagsJoined(m1, m2, first, last, free);
      MetaOfAll(m1, m2, ToSet(cs), free, free);
      MetaTrans(m, m1, m2, ToSet(cs), free);
      HoldsThree(m2, freeChunk[..], first, last);
      MarkSentinels(second);
      MetaTrans(m, m2, mem[..], ToSet(cs), free);
    }

    method MarkSentinels(second: int)
      requires second == first + CHUNK && Room(mem[..], first, last)
      requires Holding(Three(first, last), NoLists(), {first, second, last}) && Ring(mem[..], [second], FREE)
      modifies mem
      ensures Holding(Three(first, last), NoLists(), {second}) && Ring(mem[..], [second], FREE)
      ensures Wrote(old(mem[..]), mem[..], Meta(ToSet(Three(first, last)), {first, second, last}))
    {
      hide Holds, Wrote, Meta, ToSet, Ring, Tiled, Cells, NoLists;
      ghost var m := mem[..];
      ghost var cs, free := Three(first, last), {first, second, last};
      ThreeTiled(m, first, last);
      FlagStep(m, freeChunk[..], cs, NoLists(), free, {second, last}, 0, 1);
      mem[first + USED] := 1;
      ghost var m1 := mem[..];
      LoneFlag(m, m1, first, last, first);
      MetaOfFlag(m, m1, ToSet(cs), first, free);
      FlagStep(m1, freeChunk[..], cs, NoLists(), {second, last}, {second}, 2, 1);
      mem[last + USED] := 1;
      LoneFlag(m1, mem[..], first, last, last);
      MetaOfFlag(m1, mem[..], ToSet(cs), last, free);
      MetaTrans(m, m1, mem[..], ToSet(cs), free);
    }

    // ----- List macros on free_chunk -----

    /** DLIST_POP(&free_chunk[n], free). */
    method PopList(n: nat, ghost cs: seq<int>, ghost lists: seq<seq<int>>, ghost zero: set<int>) returns (c: int)
      requires Holding(cs, lists, zero) && n < |lists| && lists[n] != []
      modifies mem, freeChunk
      ensures c == lists[n][0]
      ensures Holding(cs, lists[n := lists[n][1..]], zero) && Ring(mem[..], [c], FREE)
      ensures Wrote(old(mem[..]), mem[..], Cells(ToSet(lists[n]), Links(FREE)))
    {
      hide Holds, Remove, Linked, Wrote, Ring, Without;
      ListFacts(mem[..], freeChunk[..], cs, lists, zero, n, 0);
      UnlistStep(mem[..], freeChunk[..], cs, lists, zero, n, 0, HeadWithout(freeChunk[n], lists[n], 0));
      WithoutFirst(lists[n]);
      var head := freeChunk[n] as int + FREE;
      ghost var next := mem[head];
      assert next == mem[..][head];
      var head', d := DListPop(mem, head);
      freeChunk[n] := if head' == 0 then 0 else head' - FREE;
      assert freeChunk[n] == HeadWithout(old(freeChunk[n]), lists[n], 0);
      c := d - FREE;
    }

    /** DLIST_REMOVE_FROM(&free_chunk[n], c, free), where c is at position j of the list. */
    method RemoveFromList(n: nat, c: int, ghost j: nat, ghost cs: seq<int>, ghost lists: seq<seq<int>>,
                          ghost zero: set<int>)
      requires Holding(cs, lists, zero) && n < |lists| && j < |lists[n]| && lists[n][j] == c
      modifies mem, freeChunk
      ensures Holding(cs, lists[n := Without(lists[n], j)], zero) && Ring(mem[..], [c], FREE)
      ensures Wrote(old(mem[..]), mem[..], Cells(ToSet(lists[n]), Links(FREE)))
    {
      hide Holds, Remove, Linked, Wrote, Ring, Without;
      ListFacts(mem[..], freeChunk[..], cs, lists, zero, n, 0);
      ListFacts(mem[..], freeChunk[..], cs, lists, zero, n, j);
      UnlistStep(mem[..], freeChunk[..], cs, lists, zero, n, j, HeadWithout(freeChunk[n], lists[n], j));
      var head := freeChunk[n] as int + FREE;
      ghost var next := mem[c + FREE];
      assert next == mem[..][c + FREE];
      var head' := DListRemoveFrom(mem, head, c + FREE);
      freeChunk[n] := if head' == 0 then 0 else head' - FREE;
      assert freeChunk[n] == HeadWithout(old(freeChunk[n]), lists[n], j);
    }

    /** DLIST_PUSH(&free_chunk[n], c, free). */
    method PushList(n: nat, c: int, ghost cs: seq<int>, ghost lists: seq<seq<int>>, ghost zero: set<int>)
      requires Holding(cs, lists, zero) && n < |lists|
      requires c in ToSet(cs) && Unlisted(lists, c) && Ring(mem[..], [c], FREE)
      modifies mem, freeChunk
      ensures Holding(cs, lists[n := [c] + lists[n]], zero)
      ensures Wrote(old(mem[..]), mem[..], Cells(ToSet(lists[n]) + {c}, Links(FREE)))
    {
      hide Holds, InsertBefore, Linked, Wrote, Ring, Cells, Links, ToSet, Unlisted;
      PushFacts(mem[..], freeChunk[..], cs, lists, zero, n, c);
      EnlistStep(mem[..], freeChunk[..], cs, lists, zero, n, c);
      var head := if freeChunk[n] == 0 then 0 else freeChunk[n] as int + FREE;
      var head' := DListPush(mem, head, c + FREE);
      freeChunk[n] := head' - FREE;
    }

    // ----- Chunks -----

    /** The abstract heap g describes this memory, but that the chunks of zero are those not used. */
    ghost predicate Matches(g: Heap, zero: set<int>)
      reads this, mem, freeChunk
    {
      Holding(g.cs, g.lists, zero) && memFree == g.memFree && memUsed == g.memUsed && memMeta == g.memMeta
    }

    method MemoryChunkSize(c: int, ghost i: nat, ghost cs: seq<int>, ghost lists: seq<seq<int>>,
                           ghost zero: set<int>) returns (size: Word)
      requires Holding(cs, lists, zero) && i + 1 < |cs| && c == cs[i]
      ensures size == SizeOf(cs, c) == Size(cs, i)
    {
      hide Holds, SlotOf, SizeOf;
      ChunkFacts(mem[..], freeChunk[..], cs, lists, zero, i);
      size := Wrap(4 * (mem[c] - c) - HEADER_SIZE);
    }

    /** remove_free: chunk i leaves its list. */
    method RemoveFreeChunk(c: int, ghost i: nat, ghost g: Heap, ghost zero: set<int>)
      requires Matches(g, zero) && i + 1 < |g.cs| && c == g.cs[i] && |g.lists| == NUM_SIZES && Listable(g.cs, c)
      requires c in g.lists[SlotOf(g.cs, c)]
      modifies mem, freeChunk, this`memFree
      ensures Matches(RemoveFree(g, c), zero) && Ring(mem[..], [c], FREE)
      ensures Wrote(old(mem[..]), mem[..], Cells(ToSet(g.lists[SlotOf(g.cs, c)]), Links(FREE)))
    {
      hide Holds, SlotOf, SizeOf, Wrote, Ring, Without, Removed, RemoveFree, Cells, Links, ToSet, Slot, Wrap;
      ChunkFacts(mem[..], freeChunk[..], g.cs, g.lists, zero, i);
      RemoveFreeIs(g, c);
      var len := MemoryChunkSize(c, i, g.cs, g.lists, zero);
      var n := MemoryChunkSlot(len);
      RemoveFromList(n, c, At(g.lists[n], c), g.cs, g.lists, zero);
      memFree := Wrap(memFree - (len - HEADER_SIZE));
    }

    /** push_free: chunk i goes to the front of the list for its size. */
    method PushFreeChunk(c: int, ghost i: nat, ghost g: Heap, ghost zero: set<int>)
      requires Matches(g, zero) && i + 1 < |g.cs| && c == g.cs[i] && |g.lists| == NUM_SIZES && Listable(g.cs, c)
      requires Unlisted(g.lists, c) && Ring(mem[..], [c], FREE)
      modifies mem, freeChunk, this`memFree
      ensures Matches(PushFree(g, c), zero)
      ensures Wrote(old(mem[..]), mem[..], Cells(ToSet(g.lists[SlotOf(g.cs, c)]) + {c}, Links(FREE)))
    {
      hide Holds, SlotOf, SizeOf, Wrote, Ring, ToSet, Unlisted, Cells, Links, Slot, Wrap, PushFree;
      ChunkFacts(mem[..], freeChunk[..], g.cs, g.lists, zero, i);
      PushFreeIs(g, c);
      InToSet(g.cs, i);
      var len := MemoryChunkSize(c, i, g.cs, g.lists, zero);
      var n := MemoryChunkSlot(len);
      PushList(n, c, g.cs, g.lists, zero);
      memFree := Wrap(memFree + (len - HEADER_SIZE));
    }

    /** memory_chunk_init. */
    method MemoryChunkInit(c: int)
      requires 0 < c && c + CHUNK <= mem.Length <= MEM_WORDS
      modifies mem
      ensures Bare(mem[..], c) && Wrote(old(mem[..]), mem[..], Cells({c}, OFFSETS))
    {
      ghost var m := mem[..];
      DListInit(mem, c);
      mem[c + USED] := 0;
      DListInit(mem, c + FREE);
      BareInit(m, c);
    }

    // ----- Steps of free -----

    /** Chunk i takes in the free chunk after it. */
    method MergeNextChunk(next: int, ghost i: nat, ghost g: Heap, ghost zero: set<int>, ghost free: set<int>)
      requires Matches(g, zero) && 1 <= i && i + 2 < |g.cs| && next == g.cs[i + 1]
      requires |g.lists| == NUM_SIZES && Listable(g.cs, next) && next in g.lists[SlotOf(g.cs, next)]
      requires ListedIn(g.lists, free)
      modifies mem, freeChunk, this`memFree, this`memMeta
      ensures Matches(MergeNext(g, i), zero - {next})
      ensures Wrote(old(mem[..]), mem[..], Meta(ToSet(g.cs), free))
    {
      hide Holds, SlotOf, SizeOf, Wrote, Ring, Without, Cells, Meta, ToSet, Removed, Unlisted, Linked, Remove, ListedIn;
      ghost var m := mem[..];
      RemovedUnlisted(m, freeChunk[..], g.cs, g.lists, zero, SlotOf(g.cs, next), next, free);
      ListedAt(g.lists, free, SlotOf(g.cs, next));
      RemoveFreeChunk(next, i + 1, g, zero);
      ghost var m1 := mem[..];
      ghost var g1 := RemoveFree(g, next);
      DropStep(m1, freeChunk[..], g1.cs, g1.lists, zero, zero - {next}, i + 1);
      DListRemove(mem, next);
      memMeta := Wrap(memMeta - HEADER_SIZE);
      memFree := Wrap(memFree + HEADER_SIZE);
      MetaOfLinks(m, m1, ToSet(g.cs), ToSet(g.lists[SlotOf(g.cs, next)]), free);
      MetaOfAll(m1, mem[..], ToSet(g.cs), ToSet(g.cs), free);
      MetaTrans(m, m1, mem[..], ToSet(g.cs), free);
    }

    /** The free chunk before chunk i takes it in. */
    method MergePrevChunk(c: int, prev: int, ghost i: nat, ghost g: Heap, ghost zero: set<int>, ghost free: set<int>)
      requires Matches(g, zero) && 2 <= i && i + 1 < |g.cs| && c == g.cs[i] && prev == g.cs[i - 1]
      requires |g.lists| == NUM_SIZES && Listable(g.cs, prev) && prev in g.lists[SlotOf(g.cs, prev)]
      requires ListedIn(g.lists, free)
      requires Listable(Without(g.cs, i), prev) && Unlisted(g.lists, c) && prev in free
      modifies mem, freeChunk, this`memFree, this`memMeta
      ensures Matches(MergePrev(g, i), zero)
      ensures Wrote(old(mem[..]), mem[..], Meta(ToSet(g.cs), free))
    {
      hide Holds, SlotOf, SizeOf, Wrote, Ring, Without, Cells, Meta, ToSet, Removed, Unlisted, Linked, Remove,
        ListedIn, Wrap, Links;
      ghost var m := mem[..];
      ghost var l := SlotOf(g.cs, prev);
      RemovedUnlisted(m, freeChunk[..], g.cs, g.lists, zero, l, prev, free);
      ListedAt(g.lists, free, l);
      HoldsParts(m, freeChunk[..], g.cs, g.lists, zero);
      DropKeeps(g.cs, i);
      RemoveFreeChunk(prev, i - 1, g, zero);
      ghost var m1 := mem[..];
      ghost var g1 := RemoveFree(g, prev);
      HoldsParts(m1, freeChunk[..], g1.cs, g1.lists, zero);
      DropStep(m1, freeChunk[..], g1.cs, g1.lists, zero, zero, i);
      DListRemove(mem, c);
      ghost var m2 := mem[..];
      ghost var g2 := g1.(cs := Without(g.cs, i));
      LoneStep(m1, m2, g.cs, prev);
      PushFreeChunk(prev, i - 1, g2, zero);
      memMeta := Wrap(memMeta - HEADER_SIZE);
      memFree := Wrap(memFree + HEADER_SIZE);
      ListedAt(g2.lists, free, SlotOf(g2.cs, prev));
      MergeWrote(m, m1, m2, mem[..], ToSet(g.cs), ToSet(g.lists[l]), prev, ToSet(g2.lists[SlotOf(g2.cs, prev)]), free);
    }

    /** Chunk i becomes a free chunk of its own. */
    method ReleaseChunk(c: int, ghost i: nat, ghost g: Heap, ghost zero: set<int>, ghost free: set<int>)
      requires Matches(g, zero) && i + 1 < |g.cs| && c == g.cs[i] && c in free
      requires |g.lists| == NUM_SIZES && Listable(g.cs, c) && Unlisted(g.lists, c) && ListedIn(g.lists, free)
      modifies mem, freeChunk, this`memFree
      ensures Matches(PushFree(g, c), zero + {c})
      ensures Wrote(old(mem[..]), mem[..], Meta(ToSet(g.cs), free))
    {
      hide Holds, SlotOf, SizeOf, Wrote, Ring, Cells, Meta, ToSet, Unlisted, Init, ListedIn;
      ghost var m := mem[..];
      InToSet(g.cs, i);
      FlagStep(m, freeChunk[..], g.cs, g.lists, zero, zero + {c}, i, 0);
      mem[c + USED] := 0;
      ghost var m1 := mem[..];
      InitStep(m1, freeChunk[..], g.cs, g.lists, zero + {c}, c);
      DListInit(mem, c + FREE);
      ghost var m2 := mem[..];
      PushFreeChunk(c, i, g, zero + {c});
      MetaOfFlag(m, m1, ToSet(g.cs), c, free);
      MetaOfLinks(m1, m2, ToSet(g.cs), {c}, free);
      MetaTrans(m, m1, m2, ToSet(g.cs), free);
      ListedAt(g.lists, free, SlotOf(g.cs, c));
      MetaOfLinks(m2, mem[..], ToSet(g.cs), ToSet(g.lists[SlotOf(g.cs, c)]) + {c}, free);
      MetaTrans(m, m2, mem[..], ToSet(g.cs), free);
    }

    // ----- Steps of malloc -----

    /** What malloc does to a popped chunk that is large enough to split: the rest of chunk i, from
        c2 on, becomes a free chunk. */
    method CutOff(c: int, c2: int, ghost i: nat, ghost g: Heap, ghost zero: set<int>, ghost free: set<int>)
      returns (len: Word)
      requires Matches(g, zero) && Gap(g.cs, i, c2) && c == g.cs[i] && |g.lists| == NUM_SIZES && Cuttable(g.cs, i, c2)
      requires c2 !in zero && c2 in free && ListedIn(g.lists, free)
      modifies mem, freeChunk, this`memFree, this`memMeta
      ensures len == SizeOf(Spliced(g.cs, i, [c2]), c2)
      ensures var g2 := PushFree(g.(cs := Spliced(g.cs, i, [c2])), c2);
        Matches(g2.(memMeta := Wrap(g2.memMeta + HEADER_SIZE)), zero + {c2})
      ensures Wrote(old(mem[..]), mem[..], Meta(ToSet(Spliced(g.cs, i, [c2])), free))
    {
      hide Holds, SlotOf, SizeOf, Wrote, Ring, Cells, Meta, ToSet, Unlisted, Linked, InsertAfter, Bare, Spliced,
        ListedIn, Links, Wrap, Slot, Cuttable, PushFree;
      ghost var m := mem[..];
      ghost var r := Spliced(g.cs, i, [c2]);
      HoldsParts(m, freeChunk[..], g.cs, g.lists, zero);
      GapFacts(m, g.cs, i, c2, g.lists);
      SpliceFacts(g.cs, i, c2);
      MemoryChunkInit(c2);
      ghost var m1 := mem[..];
      GapStep(m, m1, freeChunk[..], g.cs, g.lists, zero, i, c2);
      InsertStep(m1, freeChunk[..], g.cs, g.lists, zero, i, c2);
      DListInsertAfter(mem, c, c2);
      ghost var m2 := mem[..];
      len := MemoryChunkSize(c2, i + 1, r, g.lists, zero + {c2});
      var n := MemoryChunkSlot(len);
      ChunkFacts(m2, freeChunk[..], r, g.lists, zero + {c2}, i + 1);
      PushFreeIs(g.(cs := r), c2);
      PushList(n, c2, r, g.lists, zero + {c2});
      memMeta := Wrap(memMeta + HEADER_SIZE);
      memFree := Wrap(memFree + (len - HEADER_SIZE));
      ListedAt(g.lists, free, n);
      CutWrote(m, m1, m2, mem[..], ToSet(r), c2, ToSet(g.lists[n]), free);
    }

    // ----- The interface -----

    /** Between calls memory holds exactly the abstract heap, and that satisfies its invariant. */
    ghost predicate Valid()
      reads this, mem, freeChunk
    {
      && Inv(heap) && Matches(heap, heap.free)
      && |heap.cs| > 0 && first == heap.cs[0] && last == heap.cs[|heap.cs| - 1]
    }

    /** What the owners of the blocks in use see: the words of each block. */
    ghost function Contents(): map<int, seq<Word>>
      reads this, mem
    {
      ContentsOf(mem[..], heap)
    }

    /** The search of malloc: the first non-empty list for a request of req bytes, or NUM_SIZES. */
    method FindList(req: Word) returns (n: nat)
      requires Valid() && req > 1
      ensures |heap.lists| == NUM_SIZES && 1 <= FirstSlot(req) <= NUM_SIZES
      ensures n == FirstList(heap.lists, FirstSlot(req))
    {
      hide Inv, Holds, Slot;
      InvParts(heap);
      HeadFact(mem[..], freeChunk[..], heap.cs, heap.lists, heap.free, 0);
      FirstSlotIsCeilLog2(req);
      var slot := MemoryChunkSlot(req - 1);
      n := slot + 1;
      while n < NUM_SIZES && freeChunk[n] == 0
        invariant 1 <= n <= NUM_SIZES
        invariant FirstList(heap.lists, FirstSlot(req)) == FirstList(heap.lists, n)
      {
        HeadFact(mem[..], freeChunk[..], heap.cs, heap.lists, heap.free, n);
        n := n + 1;
      }
      if n < NUM_SIZES {
        HeadFact(mem[..], freeChunk[..], heap.cs, heap.lists, heap.free, n);
      }
    }

    /** The used flag of the popped chunk, and the counters. */
    method HandOut(c: int, size2: Word, len: Word, ghost i: nat, ghost g: Heap, ghost zero: set<int>,
                   ghost free: set<int>)
      requires Matches(g, zero) && i < |g.cs| && c == g.cs[i]
      modifies mem, this`memFree, this`memUsed
      ensures Matches(g.(memFree := Wrap(g.memFree - size2), memUsed := Wrap(g.memUsed + size2 - len - HEADER_SIZE)),
                      zero - {c})
      ensures Wrote(old(mem[..]), mem[..], Meta(ToSet(g.cs), free))
    {
      hide Holds, Wrote, Meta, ToSet;
      FlagStep(mem[..], freeChunk[..], g.cs, g.lists, zero, zero - {c}, i, 1);
      InToSet(g.cs, i);
      ghost var m := mem[..];
      mem[c + USED] := 1;
      MetaOfFlag(m, mem[..], ToSet(g.cs), c, free);
      memFree := Wrap(memFree - size2);
      memUsed := Wrap(memUsed + size2 - len - HEADER_SIZE);
    }

    /** The rest of malloc, for the popped chunk c of size2 bytes. */
    method TakeChunk(c: int, size2: Word, req: Word, ghost h: Heap, ghost size: Word, ghost k: nat, ghost i: nat,
                     ghost c2: int, ghost free: set<int>)
      requires k < |h.lists| == NUM_SIZES && h.lists[k] != [] && c == h.lists[k][0] && Matches(Pop(h, k), h.free)
      requires i + 1 < |h.cs| && h.cs[i] == c && size2 == SizeOf(h.cs, c) && c2 == c + HEADER + req / 4
      requires ListedIn(Pop(h, k).lists, free)
      requires req + CHUNK_SIZE <= size2 ==>
        Gap(h.cs, i, c2) && Cuttable(h.cs, i, c2) && c2 !in h.free && c2 in free
      modifies this`memFree, this`memUsed, this`memMeta, mem, freeChunk
      ensures var h' := if req + CHUNK_SIZE <= size2 then MallocSplit(h, k, i, c2) else MallocWhole(h, k);
        Matches(h', h'.free) && Wrote(old(mem[..]), mem[..], Meta(ToSet(h'.cs), free))
    {
      hide Holds, SlotOf, SizeOf, Wrote, Meta, ToSet, MallocSplit, MallocWhole, PushFree, Spliced, Gap,
        Cuttable, ListedIn;
      ghost var m := mem[..];
      var len: Word := 0;
      if req + CHUNK_SIZE <= size2 {
        ghost var r := Spliced(h.cs, i, [c2]);
        len := CutOff(c, c + HEADER + req / 4, i, Pop(h, k), h.free, free);
        ghost var m1 := mem[..];
        ghost var g := SplitIs(h, k, i, c2);
        SpliceFacts(h.cs, i, c2);
        SplicedItem(h.cs, i, [c2], i);
        HandOut(c, size2, len, i, g.(memMeta := Wrap(g.memMeta + HEADER_SIZE)), h.free + {c2}, free);
        MetaTrans(m, m1, mem[..], ToSet(r), free);
        assert h.free + {c2} - {c} == h.free - {c} + {c2};
      } else {
        WholeIs(h, k);
        HandOut(c, size2, len, i, Pop(h, k), h.free, free);
      }
    }

    /** malloc, and which words it writes. */
    method AllocateChunk(size: Word) returns (p: int)
      requires Valid()
      modifies this`memFree, this`memUsed, this`memMeta, this`heap, mem, freeChunk
      ensures Valid()
      ensures (heap, p) == HeapOps.Malloc(old(heap), size)
      ensures p == 0 ==> mem[..] == old(mem[..])
      ensures p != 0 ==> Wrote(old(mem[..]), mem[..], Meta(ToSet(heap.cs), old(heap).free + heap.free))
    {
      hide Inv, Holds, SlotOf, SizeOf, Wrote, Ring, Cells, Meta, ToSet, HeapOps.Malloc, MallocSplit,
        MallocWhole, Spliced, Source, FirstList, FirstSlot, Gap, Cuttable, ListedIn;
      var req := Wrap(size + ALIGN - 1) / ALIGN * ALIGN;
      if req < MIN_SIZE {
        req := MIN_SIZE;
      }
      assert req == Round(size);
      var n := FindList(req);
      SourceIs(heap, size);
      if n >= NUM_SIZES {
        MallocNone(heap, size);
        return 0;
      }
      ghost var h := heap;
      ghost var m := mem[..];
      ghost var free := h.free + HeapOps.Malloc(h, size).0.free;
      ghost var k, i, c2, split := MallocSteps(h, size);
      MallocRegion(h, size);
      MallocKeepsInv(h, size);
      ListedFree(h);
      ListedAt(h.lists, h.free, n);
      var c := PopList(n, h.cs, h.lists, h.free);
      ghost var m1 := mem[..];
      var size2 := MemoryChunkSize(c, i, h.cs, Pop(h, k).lists, h.free);
      TakeChunk(c, size2, req, h, size, k, i, c2, free);
      heap := HeapOps.Malloc(h, size).0;
      MetaOfLinks(m, m1, ToSet(heap.cs), ToSet(h.lists[n]), free);
      MetaTrans(m, m1, mem[..], ToSet(heap.cs), free);
      p := c + HEADER;
    }

    /** malloc: on the abstract heap it is the operation of that name; to the owners of blocks it
        adds one block, or returns NULL, and changes nothing else. */
    method Malloc(size: Word) returns (p: int)
      requires Valid()
      modifies this`memFree, this`memUsed, this`memMeta, this`heap, mem, freeChunk
      ensures Valid()
      ensures (heap, p) == HeapOps.Malloc(old(heap), size)
      ensures Legal(old(heap), MallocCall(size)) && heap == Step(old(heap), MallocCall(size))
      ensures p == 0 ==> Contents() == old(Contents())
      ensures p != 0 ==> p !in old(Contents()) && p in Contents() && Contents() == old(Contents())[p := Contents()[p]]
      ensures OutsideSame(old(mem[..]), mem[..], heap.cs)
    {
      hide Inv, Holds, Wrote, Meta, ToSet, HeapOps.Malloc, ContentsOf, OutsideSame, Legal, Step, Blocks;
      ghost var h, m := heap, mem[..];
      ghost var q := MallocStep(h, size);
      p := AllocateChunk(size);
      if p == 0 {
        SourceNone(h, size);
        OutsideReflexive(m, heap.cs);
      } else {
        HoldsParts(mem[..], freeChunk[..], heap.cs, heap.lists, heap.free);
        MallocEffect(m, mem[..], h, size);
      }
    }

    /** The first half of free: charge mem_used, and merge the chunk after, if it is free. */
    method FreeForward(c: int, next: int, ghost i: nat, ghost free: set<int>)
      requires Matches(heap, heap.free) && CanFree(heap, i) && c == heap.cs[i] && next == heap.cs[i + 1]
      requires next in heap.free ==> i + 2 < |heap.cs| && next in heap.lists[SlotOf(heap.cs, next)]
      requires ListedIn(heap.lists, free)
      modifies mem, freeChunk, this`memFree, this`memMeta, this`memUsed
      ensures Matches(FreeNext(heap, i), heap.free - {next}) && Wrote(old(mem[..]), mem[..], Meta(ToSet(heap.cs), free))
    {
      hide Holds, SlotOf, SizeOf, Wrote, Meta, ToSet, ListedIn, MergeNext;
      ghost var h, m := heap, mem[..];
      var size := MemoryChunkSize(c, i, h.cs, h.lists, h.free);
      memUsed := Wrap(memUsed - size);
      ChunkFacts(m, freeChunk[..], h.cs, h.lists, h.free, i + 1);
      if mem[next + USED] == 0 {
        MergeNextChunk(next, i, Charge(h, i), h.free, free);
      } else {
        NothingWrote(m, Meta(ToSet(h.cs), free));
        assert h.free - {next} == h.free;
      }
    }

    /** The second half: merge into the chunk before, if it is free, or put the chunk on a list. */
    method FreeBackward(c: int, prev: int, ghost i: nat, ghost g: Heap, ghost free: set<int>)
      requires Matches(g, g.free) && |g.lists| == NUM_SIZES && 1 <= i && i + 1 < |g.cs| && c == g.cs[i]
      requires prev == g.cs[i - 1]
      requires Listable(g.cs, c) && Unlisted(g.lists, c) && ListedIn(g.lists, free) && c in free && g.free <= free
      requires prev in g.free ==> 2 <= i && Listable(g.cs, prev) && Listable(Without(g.cs, i), prev)
      requires prev in g.free ==> prev in g.lists[SlotOf(g.cs, prev)]
      modifies mem, freeChunk, this`memFree, this`memMeta
      ensures var h' := FreePrev(g, i);
        Matches(h', h'.free) && Wrote(old(mem[..]), mem[..], Meta(ToSet(g.cs), free))
    {
      hide Holds, SlotOf, SizeOf, Wrote, Meta, ToSet, ListedIn, MergePrev, PushFree, Unlisted;
      ChunkFacts(mem[..], freeChunk[..], g.cs, g.lists, g.free, i - 1);
      if mem[prev + USED] == 0 {
        MergePrevChunk(c, prev, i, g, g.free, free);
        assert g.free + {prev} == g.free;
      } else {
        ReleaseChunk(c, i, g, g.free, free);
      }
    }

    /** free of a block, and which words it writes. */
    method FreeBlock(p: int)
      requires Valid() && Live(heap, p)
      modifies this`memFree, this`memUsed, this`memMeta, this`heap, mem, freeChunk
      ensures Valid()
      ensures heap == HeapOps.Free(old(heap), p)
      ensures Wrote(old(mem[..]), mem[..], Meta(ToSet(old(heap).cs), old(heap).free + {p - HEADER}))
    {
      hide Inv, Holds, SlotOf, SizeOf, Wrote, Meta, ToSet, ListedIn, FreePrev, FreeNext, FreeAt, CanFree,
        Unlisted, HeapOps.Free, Live, Without;
      ghost var h, m, free := heap, mem[..], heap.free + {p - HEADER};
      ghost var i := FreeFirst(h, p);
      CanFreeParts(h, i);
      ChunkFacts(m, freeChunk[..], h.cs, h.lists, h.free, i);
      var c := p - HEADER;
      var next, prev := mem[c], mem[c + 1];
      assert next == m[c] && prev == m[c + 1];
      FreeForward(c, next, i, free);
      ghost var m1 := mem[..];
      ghost var g := FreeSecond(h, i);
      FreeBackward(c, prev, i, g, free);
      FreeKeepsInv(h, p);
      FreeRegion(h, p);
      heap := HeapOps.Free(h, p);
      MetaWider(ToSet(g.cs), free, ToSet(h.cs), free);
      WroteMore(m1, mem[..], Meta(ToSet(g.cs), free), Meta(ToSet(h.cs), free));
      MetaTrans(m, m1, mem[..], ToSet(h.cs), free);
    }

    /** free: on the abstract heap it is the operation of that name; the owner of the block loses it,
        and nothing else changes. */
    method Free(p: int)
      requires Valid() && (p == 0 || Live(heap, p))
      modifies this`memFree, this`memUsed, this`memMeta, this`heap, mem, freeChunk
      ensures Valid()
      ensures heap == if p == 0 then old(heap) else HeapOps.Free(old(heap), p)
      ensures Legal(old(heap), FreeCall(p)) && heap == Step(old(heap), FreeCall(p))
      ensures Contents() == old(Contents()) - {p}
      ensures OutsideSame(old(mem[..]), mem[..], heap.cs)
    {
      hide Inv, Holds, Wrote, Meta, ToSet, HeapOps.Free, Live, ContentsOf, OutsideSame, Legal, Step, Blocks;
      ghost var h, m := heap, mem[..];
      FreeIsLegal(h, p);
      FreeStep(h, p);
      OutsideReflexive(m, h.cs);
      if p == 0 {
        NullNotLive(m, h);
        return;
      }
      HoldsParts(m, freeChunk[..], h.cs, h.lists, h.free);
      FreeBlock(p);
      FreeRegion(h, p);
      FreeEffect(m, mem[..], h, p);
      OutsideRegion(m, mem[..], h, heap);
    }

    /** A program stores a word into a block of its own. */
    method WriteWord(p: int, k: nat, v: Word)
      requires Valid() && p in Contents() && k < |Contents()[p]|
      modifies mem
      ensures Valid() && heap == old(heap)
      ensures Contents() == old(Contents())[p := Updated(old(Contents())[p], k, v)]
    {
      hide Inv, Holds, ContentsOf;
      ghost var m := mem[..];
      WordWritten(m, freeChunk[..], heap, p, k, v);
      mem[p + k] := v;
      assert mem[..] == m[p + k := v];
    }

    /** calloc: a block whose first nmemb * size bytes (in size_t arithmetic) are 0. */
    method Calloc(nmemb: Word, size: Word) returns (p: int)
      requires Valid() && HeapOps.Malloc(heap, Wrap(nmemb * size)).1 != 0 && Wrap(nmemb * size) <= 0xFFFF_FFFC
      modifies this`memFree, this`memUsed, this`memMeta, this`heap, mem, freeChunk
      ensures Valid()
      ensures (heap, p) == HeapOps.Malloc(old(heap), Wrap(nmemb * size))
      ensures Legal(old(heap), CallocCall(nmemb, size)) && heap == Step(old(heap), CallocCall(nmemb, size))
      ensures p !in old(Contents()) && p in Contents() && Contents() == old(Contents())[p := Contents()[p]]
      ensures OutsideSame(old(mem[..]), mem[..], heap.cs)
      ensures Wrap(nmemb * size) <= 4 * |Contents()[p]|
      ensures 0 <= 4 * p && 4 * p + Wrap(nmemb * size) <= 4 * mem.Length
      ensures forall k :: 4 * p <= k < 4 * p + Wrap(nmemb * size) ==> Load(mem[..], k) == 0
    {
      hide Inv, Holds, Blocks, ContentsOf, OutsideSame, HeapOps.Malloc, Wrap, Load, Filled, Legal, Step;
      ghost var h := heap;
      var total := Wrap(nmemb * size);
      CallocIsLegal(h, nmemb, size);
      p := Malloc(total);
      MallocSize(h, total);
      ghost var m := mem[..];
      BlockRoom(m, freeChunk[..], heap, p, total);
      MemSet(mem, 4 * p, 0, total);
      BlockFilled(m, mem[..], freeChunk[..], heap, p, total);
      OutsideTrans(old(mem[..]), m, mem[..], heap.cs);
    }

    /** realloc: the block itself if it is large enough; else a new block that starts with the words
        of the old one, which is freed.  Nobody else's block changes. */
    method Realloc(p: int, size: Word) returns (r: int)
      requires Valid() && p in Blocks(heap)
      requires Blocks(heap)[p] >= size || (HeapOps.Malloc(heap, size).1 != 0 && size <= 0xFFFF_FFFC)
      modifies this`memFree, this`memUsed, this`memMeta, this`heap, mem, freeChunk
      ensures Valid()
      ensures Legal(old(heap), ReallocCall(p, size)) && heap == Step(old(heap), ReallocCall(p, size))
      ensures p in old(Contents()) && r in Contents()
      ensures 4 * |old(Contents())[p]| >= size ==> r == p && mem[..] == old(mem[..])
      ensures 4 * |old(Contents())[p]| < size ==> r !in old(Contents())
      ensures old(Contents())[p] <= Contents()[r] && size <= 4 * |Contents()[r]|
      ensures Contents() == (old(Contents()) - {p})[r := Contents()[r]]
      ensures OutsideSame(old(mem[..]), mem[..], heap.cs)
    {
      hide Inv, Holds, Blocks, ContentsOf, Between, OutsideSame, HeapOps.Malloc, HeapOps.Free, Live, Copied;
      ghost var h, m := heap, mem[..];
      HoldsParts(m, freeChunk[..], h.cs, h.lists, h.free);
      ContentsAt(m, h, p);
      ghost var i := BlockInRegion(m, h, p);
      OutsideReflexive(m, h.cs);
      var size0 := MemoryChunkSize(p - HEADER, i, h.cs, h.lists, h.free);
      if size0 >= size {
        r := p;
      } else {
        r := MoveBlock(p, size0, size);
      }
    }

    /** memcpy of all of block p to the start of block r. */
    method CopyBlock(p: int, r: int, size0: Word)
      requires Valid() && p in Blocks(heap) && r in Blocks(heap) && p != r
      requires size0 == Blocks(heap)[p] <= Blocks(heap)[r]
      modifies mem
      ensures Valid() && heap == old(heap)
      ensures p in old(Contents()) && r in Contents() && old(Contents())[p] <= Contents()[r]
      ensures Contents() == old(Contents())[r := Contents()[r]] && 4 * |Contents()[r]| == Blocks(heap)[r]
      ensures |heap.cs| > 0 && OutsideSame(old(mem[..]), mem[..], heap.cs)
    {
      hide Inv, Holds, Blocks, ContentsOf, Between, OutsideSame, Copied, Ring, Flags, InMemory, Tiled;
      ghost var m := mem[..];
      HoldsParts(m, freeChunk[..], heap.cs, heap.lists, heap.free);
      MoveApart(m, heap, p, r);
      MemCpy(mem, 4 * r, 4 * p, size0);
      CopiedBetween(m, mem[..], r, p, size0, r + Blocks(heap)[r] / 4);
      OwnerWrites(m, mem[..], freeChunk[..], heap, r, r, r + Blocks(heap)[r] / 4);
      HoldsParts(mem[..], freeChunk[..], heap.cs, heap.lists, heap.free);
      BlockCopied(m, mem[..], heap, p, r);
      ContentsAt(mem[..], heap, r);
    }

    /** realloc when the block is too small. */
    method MoveBlock(p: int, size0: Word, size: Word) returns (r: int)
      requires Valid() && p in Blocks(heap) && size0 == Blocks(heap)[p] < size <= 0xFFFF_FFFC
      requires HeapOps.Malloc(heap, size).1 != 0
      modifies this`memFree, this`memUsed, this`memMeta, this`heap, mem, freeChunk
      ensures Valid()
      ensures Legal(old(heap), ReallocCall(p, size)) && heap == Step(old(heap), ReallocCall(p, size))
      ensures p in old(Contents()) && r in Contents() && r !in old(Contents())
      ensures old(Contents())[p] <= Contents()[r] && size <= 4 * |Contents()[r]|
      ensures Contents() == (old(Contents()) - {p})[r := Contents()[r]]
      ensures OutsideSame(old(mem[..]), mem[..], heap.cs)
    {
      hide Inv, Matches, Blocks, ContentsOf, OutsideSame, HeapOps.Malloc, HeapOps.Free, Live, Legal, Step, SameRegion;
      ghost var h, m := heap, mem[..];
      ContentsBlock(m, h, p);
      PointerPositive(h, p);
      ReallocStep(h, p, size);
      MovedLive(h, size, p);
      MallocSize(h, size);
      r := Malloc(size);
      ghost var m1 := mem[..];
      ContentsBlock(m1, heap, r);
      CopyBlock(p, r, size0);
      ghost var h1, m2 := heap, mem[..];
      OutsideTrans(m, m1, m2, h1.cs);
      FreeRegion(h1, p);
      Free(p);
      OutsideRegion(m, m2, h1, heap);
      OutsideTrans(m, m2, mem[..], heap.cs);
    }
  }

  lemma OutsideTrans(m: seq<Word>, m1: seq<Word>, m2: seq<Word>, cs: seq<int>)
    requires |cs| > 0 && OutsideSame(m, m1, cs) && OutsideSame(m1, m2, cs)
    ensures OutsideSame(m, m2, cs)
  {
  }

  function Updated(s: seq<Word>, k: nat, v: Word): seq<Word>
    requires k < |s|
  {
    s[k := v]
  }

  /** The first n bytes of a block in use. */
  lemma BlockRoom(m: seq<Word>, heads: seq<Word>, h: Heap, p: int, n: int)
    requires Inv(h) && Holds(m, heads, h.cs, h.lists, h.free) && p in Blocks(h) && n <= Blocks(h)[p]
    ensures 0 <= 4 * p && 4 * p + n <= 4 * |m| && p in ContentsOf(m, h) && n <= 4 * |ContentsOf(m, h)[p]|
  {
    hide *;
    HoldsParts(m, heads, h.cs, h.lists, h.free);
    ContentsAt(m, h, p);
  }

  lemma BlockFilled(m: seq<Word>, m': seq<Word>, heads: seq<Word>, h: Heap, p: int, n: int)
    requires Inv(h) && Holds(m, heads, h.cs, h.lists, h.free) && p in Blocks(h) && 0 <= n <= Blocks(h)[p]
    requires 0 <= p && Filled(m, m', 4 * p, n, 0)
    ensures Holds(m', heads, h.cs, h.lists, h.free) && |h.cs| > 0 && OutsideSame(m, m', h.cs)
    ensures p in ContentsOf(m', h) && ContentsOf(m', h) == ContentsOf(m, h)[p := ContentsOf(m', h)[p]]
    ensures n <= 4 * |ContentsOf(m', h)[p]| && 4 * p + n <= 4 * |m'|
    ensures forall k :: 4 * p <= k < 4 * p + n ==> Load(m', k) == 0
  {
    hide *;
    HoldsParts(m, heads, h.cs, h.lists, h.free);
    ContentsAt(m, h, p);
    FilledBetween(m, m', p, n, 0, p + Blocks(h)[p] / 4);
    OwnerWrites(m, m', heads, h, p, p, p + Blocks(h)[p] / 4);
    BlockRoom(m', heads, h, p, n);
    FilledBytes(m, m', 4 * p, n, 0);
  }

  lemma FilledBytes(m: seq<Word>, m': seq<Word>, s: int, n: int, c: Byte)
    requires Filled(m, m', s, n, c) && 0 <= s && s + n <= 4 * |m'|
    ensures forall k :: s <= k < s + n ==> Load(m', k) == c
  {
    hide Load;
  }

  /** A word written into a block in use. */
  lemma WordWritten(m: seq<Word>, heads: seq<Word>, h: Heap, p: int, k: nat, v: Word)
    requires Inv(h) && Holds(m, heads, h.cs, h.lists, h.free) && p in ContentsOf(m, h) && k < |ContentsOf(m, h)[p]|
    ensures 0 <= p + k < |m| && Holds(m[p + k := v], heads, h.cs, h.lists, h.free)
    ensures ContentsOf(m[p + k := v], h) == ContentsOf(m, h)[p := Updated(ContentsOf(m, h)[p], k, v)]
  {
    hide *;
    HoldsParts(m, heads, h.cs, h.lists, h.free);
    ContentsBlock(m, h, p);
    ContentsAt(m, h, p);
    var m' := m[p + k := v];
    OneWord(m, p + k, v);
    OwnerWrites(m, m', heads, h, p, p + k, p + k + 1);
    HoldsParts(m', heads, h.cs, h.lists, h.free);
    ContentsAt(m', h, p);
    UpdatedSlice(m, p, p + Blocks(h)[p] / 4, k, v);
  }

  lemma UpdatedSlice(m: seq<Word>, lo: int, hi: int, k: nat, v: Word)
    requires 0 <= lo && lo + k < hi <= |m|
    ensures m[lo + k := v][lo..hi] == Updated(m[lo..hi], k, v)
  {
  }

  lemma OneWord(m: seq<Word>, w: int, v: Word)
    requires 0 <= w < |m|
    ensures Between(m, m[w := v], w, w + 1)
  {
  }

  lemma ContentsBlock(m: seq<Word>, h: Heap, p: int)
    ensures p in ContentsOf(m, h) <==> p in Blocks(h)
  {
  }

  lemma OutsideRegion(m: seq<Word>, m': seq<Word>, h: Heap, h': Heap)
    requires SameRegion(h, h') && |h.cs| > 0 && OutsideSame(m, m', h.cs)
    ensures |h'.cs| > 0 && OutsideSame(m, m', h'.cs)
  {
  }

  lemma NothingWrote(m: seq<Word>, cells: set<int>)
    ensures Wrote(m, m, cells)
  {
  }

  lemma SourceNone(h: Heap, size: Word)
    requires Inv(h) && HeapOps.Malloc(h, size).1 == 0
    ensures HeapOps.Malloc(h, size).0 == h
  {
    hide Inv, Source, HeapOps.Malloc;
    ListedFree(h);
    if Source(h, size) < NUM_SIZES {
      MallocSome(h, size);
    } else {
      MallocNone(h, size);
    }
  }

  lemma OutsideReflexive(m: seq<Word>, cs: seq<int>)
    requires |cs| > 0
    ensures OutsideSame(m, m, cs)
  {
  }

  lemma GapFacts(m: seq<Word>, cs: seq<int>, i: nat, c: int, lists: seq<seq<int>>)
    requires InMemory(m, cs) && Gap(cs, i, c) && Shelved(cs, lists)
    ensures 0 < c && c + CHUNK <= |m| <= MEM_WORDS && i + 1 < |cs| && Unlisted(lists, c)
  {
    GapMemory(m, cs, i, c);
    GapLists(cs, lists, c);
  }

  lemma DropKeeps(cs: seq<int>, i: nat)
    requires Tiled(cs) && 2 <= i < |cs| - 1
    ensures |Without(cs, i)| == |cs| - 1 && Without(cs, i)[i - 1] == cs[i - 1]
    ensures cs[i - 1] in ToSet(cs) && cs[i - 1] in ToSet(Without(cs, i))
  {
    DropTiled(cs, i);
    assert Without(cs, i)[i - 1] in ToSet(Without(cs, i));
  }

  lemma BareInit(m: seq<Word>, c: int)
    requires 0 < c && c + CHUNK <= |m| <= MEM_WORDS
    ensures var m' := Init(Init(m, c)[c + USED := 0], c + FREE);
      Bare(m', c) && Wrote(m, m', Cells({c}, OFFSETS))
  {
    var m' := Init(Init(m, c)[c + USED := 0], c + FREE);
    hide Cells, Ring;
    LoneRing(m', c, ALL);
    LoneRing(m', c, FREE);
    ChunkCells(c);
    WroteMore(m, m', {c, c + 1, c + 2, c + 3, c + 4}, Cells({c}, OFFSETS));
  }

  lemma ChunkCells(c: int)
    ensures {c, c + 1, c + 2, c + 3, c + 4} <= Cells({c}, OFFSETS)
  {
    assert c in {c};
    assert c + 0 in Cells({c}, OFFSETS) && c + 1 in Cells({c}, OFFSETS) && c + 2 in Cells({c}, OFFSETS)
      && c + 3 in Cells({c}, OFFSETS) && c + 4 in Cells({c}, OFFSETS);
  }

  /** push_free on the abstract heap, field by field. */
  lemma PushFreeIs(g: Heap, c: int)
    requires |g.lists| == NUM_SIZES && 0 <= SlotOf(g.cs, c) < NUM_SIZES
    ensures var l, g' := SlotOf(g.cs, c), PushFree(g, c);
      && g'.cs == g.cs && g'.lists == g.lists[l := [c] + g.lists[l]]
      && g'.memFree == Wrap(g.memFree + (SizeOf(g.cs, c) - HEADER_SIZE)) && g'.memUsed == g.memUsed
      && g'.memMeta == g.memMeta
  {
    hide SlotOf, SizeOf, Wrap;
  }

  /** remove_free on the abstract heap, field by field. */
  lemma RemoveFreeIs(g: Heap, c: int)
    requires |g.lists| == NUM_SIZES && 0 <= SlotOf(g.cs, c) < NUM_SIZES && c in g.lists[SlotOf(g.cs, c)]
    ensures var l, g' := SlotOf(g.cs, c), RemoveFree(g, c);
      && g'.cs == g.cs && g'.lists == g.lists[l := Without(g.lists[l], At(g.lists[l], c))]
      && g'.memFree == Wrap(g.memFree - (SizeOf(g.cs, c) - HEADER_SIZE)) && g'.memUsed == g.memUsed
      && g'.memMeta == g.memMeta
  {
    hide SlotOf, SizeOf, Without, At, Wrap;
  }

  lemma WithoutFirst(s: seq<int>)
    requires s != []
    ensures Without(s, 0) == s[1..]
  {
  }
}
