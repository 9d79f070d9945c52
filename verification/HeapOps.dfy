/** malloc, free and their helpers on the abstract heap, and the invariant they keep. */
module HeapOps {
  import opened Words
  import opened Slots
  import opened DList
  import opened HeapSpec
  import opened Ledger

  // ----- The invariant -----

  /** Free chunks lie between the sentinels. */
  ghost predicate Interior(cs: seq<int>, free: set<int>) {
    forall x :: x in free ==> x in cs && 1 <= At(cs, x) < |cs| - 1
  }

  /** No two neighbours are both free. */
  ghost predicate Coalesced(cs: seq<int>, free: set<int>) {
    forall i :: 0 <= i < |cs| - 1 ==> cs[i] !in free || cs[i + 1] !in free
  }

  /** What holds at every step inside an operation. */
  ghost predicate Sound(h: Heap, open: int) {
    Tiled(h.cs) && Interior(h.cs, h.free) && Indexed(h.cs, h.free, h.lists) && Account(h, open)
  }

  /** What holds between operations. */
  ghost predicate Inv(h: Heap) {
    Sound(h, 0) && Coalesced(h.cs, h.free)
  }

  lemma InvParts(h: Heap)
    requires Inv(h)
    ensures Sound(h, 0) && Tiled(h.cs) && Interior(h.cs, h.free) && Coalesced(h.cs, h.free)
    ensures Indexed(h.cs, h.free, h.lists) && |h.lists| == NUM_SIZES && Account(h, 0)
  {
  }

  // ----- The operations -----

  /** memory_init: the sentinels at `first` and `last`, and all between them one free chunk. */
  ghost function Initial(first: int, last: int): Heap
    requires 0 < first && first + 2 * CHUNK <= last && last + CHUNK <= MEM_WORDS
  {
    var second := first + CHUNK;
    var len := 4 * (last - second - HEADER);
    SlotInRange(len);
    Heap([first, second, last], {second}, seq(NUM_SIZES, l => if l == Slot(len) then [second] else []),
      Wrap(len - HEADER_SIZE), 0, 2 * CHUNK_SIZE + HEADER_SIZE, 0)
  }

  /** remove_free: c leaves the list for its size. */
  ghost function RemoveFree(h: Heap, c: int): (h': Heap)
    requires |h.lists| == NUM_SIZES && 0 <= SlotOf(h.cs, c) < NUM_SIZES
    ensures h'.cs == h.cs && |h'.lists| == NUM_SIZES
  {
    var l := SlotOf(h.cs, c);
    h.(free := h.free - {c}, lists := h.lists[l := Removed(h.lists[l], c)],
       memFree := Wrap(h.memFree - (SizeOf(h.cs, c) - HEADER_SIZE)))
  }

  /** push_free: c goes to the front of the list for its size. */
  ghost function PushFree(h: Heap, c: int): (h': Heap)
    requires |h.lists| == NUM_SIZES && 0 <= SlotOf(h.cs, c) < NUM_SIZES
    ensures h'.cs == h.cs && |h'.lists| == NUM_SIZES && h'.free == h.free + {c}
  {
    var l := SlotOf(h.cs, c);
    h.(free := h.free + {c}, lists := h.lists[l := [c] + h.lists[l]],
       memFree := Wrap(h.memFree + (SizeOf(h.cs, c) - HEADER_SIZE)))
  }

  /** Chunk i becomes part of chunk i - 1. */
  ghost function Merge(h: Heap, i: nat): Heap
    requires i < |h.cs|
  {
    h.(cs := Without(h.cs, i), memMeta := Wrap(h.memMeta - HEADER_SIZE), memFree := Wrap(h.memFree + HEADER_SIZE))
  }

  lemma AccountIgnoresLists(h: Heap, lists: seq<seq<int>>, open: int)
    requires Account(h, open)
    ensures Account(h.(lists := lists), open)
  {
  }

  lemma ListCount(cs: seq<int>, free: set<int>, lists: seq<seq<int>>)
    requires Indexed(cs, free, lists)
    ensures |lists| == NUM_SIZES
  {
  }

  lemma RemoveSound(h: Heap, open: int, i: nat)
    requires Sound(h, open) && i < |h.cs| && h.cs[i] in h.free
    ensures 1 <= i < |h.cs| - 1 && 0 <= SlotOf(h.cs, h.cs[i]) < NUM_SIZES
    ensures Sound(RemoveFree(h, h.cs[i]), open + Size(h.cs, i))
  {
    hide Indexed, SizeOf, SlotOf, Tiled, Account;
    ListCount(h.cs, h.free, h.lists);
    ChunkAt(h.cs, i);
    IndexRemove(h.cs, h.free, h.lists, h.cs[i]);
    AccountRemove(h, open, i);
    AccountIgnoresLists(h.(free := h.free - {h.cs[i]}, memFree := Wrap(h.memFree - (Size(h.cs, i) - HEADER_SIZE))),
      RemoveFree(h, h.cs[i]).lists, open + Size(h.cs, i));
  }

  lemma PushSound(h: Heap, open: int, i: nat)
    requires Sound(h, open) && 1 <= i < |h.cs| - 1 && h.cs[i] !in h.free
    ensures 0 <= SlotOf(h.cs, h.cs[i]) < NUM_SIZES
    ensures Sound(PushFree(h, h.cs[i]), open - Size(h.cs, i))
  {
    hide Indexed, SizeOf, SlotOf, Tiled, Account;
    ListCount(h.cs, h.free, h.lists);
    ChunkAt(h.cs, i);
    IndexAdd(h.cs, h.free, h.lists, h.cs[i]);
    AccountPush(h, open, i);
    AccountIgnoresLists(h.(free := h.free + {h.cs[i]}, memFree := Wrap(h.memFree + (Size(h.cs, i) - HEADER_SIZE))),
      PushFree(h, h.cs[i]).lists, open - Size(h.cs, i));
  }

  lemma MergeKeeps(cs: seq<int>, free: set<int>, i: nat, x: int)
    requires Tiled(cs) && Interior(cs, free) && 2 <= i < |cs| - 1 && cs[i] !in free && cs[i - 1] !in free
    requires x in free
    ensures SizeOf(Without(cs, i), x) == SizeOf(cs, x)
    ensures x in Without(cs, i) && 1 <= At(Without(cs, i), x) < |cs| - 2
  {
    hide Tiled, SizeOf, SlotOf, Slot, Size, Without, At;
    var j := At(cs, x);
    DropTiled(cs, i);
    DropSizes(cs, i, j);
    ChunkAt(cs, j);
    var k := if j < i then j else j - 1;
    WithoutItem(cs, i, k);
    ChunkAt(Without(cs, i), k);
  }

  lemma MergeSound(h: Heap, open: int, i: nat)
    requires Sound(h, open) && 2 <= i < |h.cs| - 1 && h.cs[i] !in h.free && h.cs[i - 1] !in h.free
    ensures Sound(Merge(h, i), open + HEADER_SIZE)
  {
    hide Indexed, SizeOf, Tiled, Account, Without, At;
    DropTiled(h.cs, i);
    AccountMerge(h, open, i);
    forall x | x in h.free
      ensures SizeOf(Without(h.cs, i), x) == SizeOf(h.cs, x)
      ensures x in Without(h.cs, i) && 1 <= At(Without(h.cs, i), x) < |h.cs| - 2
    {
      MergeKeeps(h.cs, h.free, i, x);
    }
    IndexResize(h.cs, Without(h.cs, i), h.free, h.lists);
  }

  lemma SplitKeeps(cs: seq<int>, free: set<int>, i: nat, c: int, x: int)
    requires Tiled(cs) && Interior(cs, free) && 1 <= i < |cs| - 1 && cs[i] !in free
    requires cs[i] + CHUNK <= c && c + CHUNK <= cs[i + 1] && x in free
    ensures x != c && SizeOf(Spliced(cs, i, [c]), x) == SizeOf(cs, x)
    ensures x in Spliced(cs, i, [c]) && 1 <= At(Spliced(cs, i, [c]), x) < |cs|
  {
    var j := At(cs, x);
    SplitTiled(cs, i, c);
    SplitSizes(cs, i, c, j);
    ChunkAt(cs, j);
    var k := if j <= i then j else j + 1;
    SplicedItem(cs, i, [c], k);
    ChunkAt(Spliced(cs, i, [c]), k);
  }

  ghost function Divide(h: Heap, i: nat, c: int): (h': Heap)
    requires i < |h.cs|
    ensures h'.cs == Spliced(h.cs, i, [c]) && h'.lists == h.lists
  {
    h.(cs := Spliced(h.cs, i, [c]), memMeta := Wrap(h.memMeta + HEADER_SIZE), memFree := Wrap(h.memFree - HEADER_SIZE))
  }

  lemma SplitSound(h: Heap, open: int, i: nat, c: int)
    requires Sound(h, open) && 1 <= i < |h.cs| - 1 && h.cs[i] !in h.free
    requires h.cs[i] + CHUNK <= c && c + CHUNK <= h.cs[i + 1]
    ensures c !in h.free && Sound(Divide(h, i, c), open - HEADER_SIZE)
  {
    hide Indexed, SizeOf, Tiled, Account, Spliced, At;
    SplitTiled(h.cs, i, c);
    forall x | x in h.free
      ensures x != c && SizeOf(Spliced(h.cs, i, [c]), x) == SizeOf(h.cs, x)
      ensures x in Spliced(h.cs, i, [c]) && 1 <= At(Spliced(h.cs, i, [c]), x) < |h.cs|
    {
      SplitKeeps(h.cs, h.free, i, c, x);
    }
    AccountSplit(h, open, i, c);
    IndexResize(h.cs, Spliced(h.cs, i, [c]), h.free, h.lists);
  }

  // ----- malloc -----

  /** The first non-empty list from slot n on, or NUM_SIZES. */
  ghost function FirstList(lists: seq<seq<int>>, n: nat): (k: nat)
    requires |lists| == NUM_SIZES && n <= NUM_SIZES
    ensures n <= k <= NUM_SIZES
    ensures k < NUM_SIZES ==> lists[k] != []
    ensures forall l :: n <= l < k ==> lists[l] == []
    decreases NUM_SIZES - n
  {
    if n == NUM_SIZES || lists[n] != [] then n else FirstList(lists, n + 1)
  }

  /** The list malloc takes a chunk from, or NUM_SIZES when it returns NULL. */
  ghost function Source(h: Heap, size: Word): (k: nat)
    requires |h.lists| == NUM_SIZES
    ensures k <= NUM_SIZES && (k < NUM_SIZES ==> h.lists[k] != [])
  {
    FirstSlotIsCeilLog2(Round(size));
    FirstList(h.lists, FirstSlot(Round(size)))
  }

  /** The head of list k leaves the index. */
  ghost function Pop(h: Heap, k: nat): Heap
    requires k < |h.lists| && h.lists[k] != []
  {
    h.(free := h.free - {h.lists[k][0]}, lists := h.lists[k := h.lists[k][1..]])
  }

  /** The popped chunk is handed out as it is. */
  ghost function MallocWhole(h: Heap, k: nat): (h': Heap)
    requires k < |h.lists| && h.lists[k] != []
    ensures h'.cs == h.cs && h'.free == h.free - {h.lists[k][0]}
  {
    var size2 := SizeOf(h.cs, h.lists[k][0]);
    Pop(h, k).(memFree := Wrap(h.memFree - size2), memUsed := Wrap(h.memUsed + size2 - HEADER_SIZE),
               unsplit := h.unsplit + 1)
  }

  /** The part of chunk i from c2 on would be a chunk with a free list. */
  ghost predicate Cuttable(cs: seq<int>, i: nat, c2: int) {
    i < |cs| && 0 <= SlotOf(Spliced(cs, i, [c2]), c2) < NUM_SIZES
  }

  /** Chunk i of size2 bytes, already popped, is cut at c2: the rest of it becomes a free chunk. */
  ghost function CutChunk(h: Heap, i: nat, c2: int, size2: int): Heap
    requires |h.lists| == NUM_SIZES && Cuttable(h.cs, i, c2)
  {
    var len := SizeOf(Spliced(h.cs, i, [c2]), c2);
    var h2 := PushFree(h.(cs := Spliced(h.cs, i, [c2])), c2);
    h2.(memMeta := Wrap(h2.memMeta + HEADER_SIZE), memFree := Wrap(h2.memFree - size2),
        memUsed := Wrap(h2.memUsed + size2 - len - HEADER_SIZE))
  }

  /** The popped chunk, chunk i, keeps what lies before c2. */
  ghost function MallocSplit(h: Heap, k: nat, i: nat, c2: int): (h': Heap)
    requires k < |h.lists| == NUM_SIZES && h.lists[k] != [] && Cuttable(h.cs, i, c2)
    ensures h'.cs == Spliced(h.cs, i, [c2]) && h'.free == h.free - {h.lists[k][0]} + {c2}
  {
    CutChunk(Pop(h, k), i, c2, SizeOf(h.cs, h.lists[k][0]))
  }

  /** Chunk c, popped for a request of req bytes, is split. */
  ghost predicate Splits(h: Heap, c: int, req: Word) {
    req + CHUNK_SIZE <= SizeOf(h.cs, c)
  }

  lemma PopIsRemove(h: Heap, k: nat)
    requires Sound(h, 0) && k < NUM_SIZES && h.lists[k] != []
    ensures var c := h.lists[k][0];
      && c in h.free && c in h.cs && 1 <= At(h.cs, c) < |h.cs| - 1 && SlotOf(h.cs, c) == k
      && Pop(h, k) == RemoveFree(h, c).(memFree := h.memFree)
  {
    var c := h.lists[k][0];
    assert Filed(h.cs, h.free, h.lists[k], k, c);
    assert c in h.lists[k];
    assert At(h.lists[k], c) == 0;
    assert Removed(h.lists[k], c) == h.lists[k][1..];
  }

  lemma SplitPoint(h: Heap, c: int, req: Word)
    requires Tiled(h.cs) && c in h.cs && 1 <= At(h.cs, c) < |h.cs| - 1 && Splits(h, c, req)
    requires req >= MIN_SIZE && req % ALIGN == 0
    ensures var i, c2 := At(h.cs, c), c + HEADER + req / 4;
      && h.cs[i] + CHUNK <= c2 && c2 + CHUNK <= h.cs[i + 1]
      && Tiled(Spliced(h.cs, i, [c2]))
      && SizeOf(Spliced(h.cs, i, [c2]), c2) == SizeOf(h.cs, c) - req - HEADER_SIZE
      && Cuttable(h.cs, i, c2)
  {
    var i, c2 := At(h.cs, c), c + HEADER + req / 4;
    ChunkAt(h.cs, i);
    hide Tiled, Spliced, SizeOf, SlotOf;
    SplitTiled(h.cs, i, c2);
    SplitSizes(h.cs, i, c2, i);
    ChunkAt(Spliced(h.cs, i, [c2]), i + 1);
  }

  lemma MallocDefined(h: Heap, size: Word)
    requires Inv(h)
    ensures |h.lists| == NUM_SIZES
    ensures var k := Source(h, size);
      k < NUM_SIZES ==>
      var c := h.lists[k][0];
      && c in h.cs && 1 <= At(h.cs, c) < |h.cs| - 1
      && (Splits(h, c, Round(size)) ==>
        Cuttable(h.cs, At(h.cs, c), c + HEADER + Round(size) / 4))
  {
    hide Indexed, SizeOf, SlotOf, Tiled, Account, Spliced, FirstSlot, FirstList, Splits, At;
    ListCount(h.cs, h.free, h.lists);
    var k := Source(h, size);
    if k < NUM_SIZES {
      PopIsRemove(h, k);
      if Splits(h, h.lists[k][0], Round(size)) {
        SplitPoint(h, h.lists[k][0], Round(size));
      }
    }
  }

  ghost function Malloc(h: Heap, size: Word): (Heap, int)
    requires Inv(h)
  {
    hide *;
    MallocDefined(h, size);
    var k, req := Source(h, size), Round(size);
    if k == NUM_SIZES then
      (h, 0)
    else
      var c := h.lists[k][0];
      if Splits(h, c, req) then
        (MallocSplit(h, k, At(h.cs, c), c + HEADER + req / 4), c + HEADER)
      else
        (MallocWhole(h, k), c + HEADER)
  }

  lemma AccountWhole(h: Heap, c: int, size2: int)
    requires Account(h, size2)
    ensures Account(h.(memFree := Wrap(h.memFree - HEADER_SIZE), memUsed := Wrap(h.memUsed + size2 - HEADER_SIZE),
                       unsplit := h.unsplit + 1), 0)
  {
    hide Wrap, Held;
    var h' := h.(memFree := Wrap(h.memFree - HEADER_SIZE), memUsed := Wrap(h.memUsed + size2 - HEADER_SIZE),
                 unsplit := h.unsplit + 1);
    ShiftTo(h.memFree, FreeDue(h), -HEADER_SIZE, FreeDue(h'));
    ShiftTo(h.memUsed, UsedDue(h, size2), size2 - HEADER_SIZE, UsedDue(h', 0));
    assert MetaDue(h') == MetaDue(h);
  }

  lemma AccountUse(h: Heap, open: int)
    requires Account(h, open)
    ensures Account(h.(memUsed := Wrap(h.memUsed + open)), 0)
  {
    hide Wrap, Held;
    var h' := h.(memUsed := Wrap(h.memUsed + open));
    ShiftTo(h.memUsed, UsedDue(h, open), open, UsedDue(h', 0));
    assert MetaDue(h') == MetaDue(h) && FreeDue(h') == FreeDue(h);
  }

  lemma SoundCounters(h: Heap, h': Heap, open: int, open': int)
    requires Sound(h, open) && h'.cs == h.cs && h'.free == h.free && h'.lists == h.lists && Account(h', open')
    ensures Sound(h', open')
  {
    hide Tiled, Indexed, Interior, Account;
  }

  lemma MallocWholeIs(h: Heap, k: nat, c: int, size2: int)
    requires k < |h.lists| == NUM_SIZES && h.lists[k] != [] && c == h.lists[k][0] && size2 == SizeOf(h.cs, c)
    requires Listable(h.cs, c)
    requires Pop(h, k) == RemoveFree(h, c).(memFree := h.memFree)
    ensures var h1 := RemoveFree(h, c);
      MallocWhole(h, k) == h1.(memFree := Wrap(h1.memFree - HEADER_SIZE),
                               memUsed := Wrap(h1.memUsed + size2 - HEADER_SIZE), unsplit := h1.unsplit + 1)
  {
    hide SizeOf, SlotOf, Removed, Wrap;
    WrapShift(h.memFree - (size2 - HEADER_SIZE), -HEADER_SIZE);
  }

  lemma WholeSound(h: Heap, k: nat)
    requires Sound(h, 0) && k < |h.lists| == NUM_SIZES && h.lists[k] != []
    ensures Sound(MallocWhole(h, k), 0)
  {
    hide *;
    SoundParts(h, 0);
    PopIsRemove(h, k);
    var c := h.lists[k][0];
    var i := At(h.cs, c);
    ChunkAt(h.cs, i);
    RemoveSound(h, 0, i);
    RemovedFree(h, c);
    var h1 := RemoveFree(h, c);
    SoundParts(h1, Size(h.cs, i));
    AccountWhole(h1, c, Size(h.cs, i));
    MallocWholeIs(h, k, c, Size(h.cs, i));
    SoundCounters(h1, MallocWhole(h, k), Size(h.cs, i), 0);
  }

  /** Taking chunk i from the index, splitting it at c2 and putting the rest on a list. */
  lemma SplitSteps(h: Heap, i: nat, c2: int)
    requires Sound(h, 0) && i + 1 < |h.cs| && h.cs[i] in h.free
    requires h.cs[i] + CHUNK <= c2 && c2 + CHUNK <= h.cs[i + 1]
    ensures |h.lists| == NUM_SIZES && 0 <= SlotOf(h.cs, h.cs[i]) < NUM_SIZES
    ensures 0 <= SlotOf(Spliced(h.cs, i, [c2]), c2) < NUM_SIZES && Cuttable(h.cs, i, c2)
    ensures var h3 := PushFree(Divide(RemoveFree(h, h.cs[i]), i, c2), c2);
      Sound(h3, Size(h.cs, i) - HEADER_SIZE - SizeOf(h3.cs, c2))
  {
    hide Indexed, SizeOf, SlotOf, Tiled, Account, Spliced, Interior, Removed;
    ListCount(h.cs, h.free, h.lists);
    RemoveSound(h, 0, i);
    var h1 := RemoveFree(h, h.cs[i]);
    SplitSound(h1, Size(h.cs, i), i, c2);
    SplitTiled(h.cs, i, c2);
    ChunkAt(Spliced(h.cs, i, [c2]), i + 1);
    PushSound(Divide(h1, i, c2), Size(h.cs, i) - HEADER_SIZE, i + 1);
  }

  lemma SoundUse(h: Heap, open: int)
    requires Sound(h, open)
    ensures Sound(h.(memUsed := Wrap(h.memUsed + open)), 0)
  {
    AccountUse(h, open);
    hide Account, Indexed, Interior, Tiled;
  }

  lemma SplitFacts(h: Heap, k: nat, req: Word)
    requires Sound(h, 0) && k < |h.lists| == NUM_SIZES && h.lists[k] != []
    requires h.lists[k][0] in h.cs && Splits(h, h.lists[k][0], req) && req >= MIN_SIZE && req % ALIGN == 0
    ensures var c := h.lists[k][0];
      var i, c2 := At(h.cs, c), c + HEADER + req / 4;
      && c in h.free && 1 <= i < |h.cs| - 1 && SlotOf(h.cs, c) == k
      && RemoveFree(h, c) == Pop(h, k).(memFree := Wrap(h.memFree - (SizeOf(h.cs, c) - HEADER_SIZE)))
      && Pop(h, k).cs == h.cs && |Pop(h, k).lists| == NUM_SIZES && Pop(h, k).memFree == h.memFree
      && h.cs[i] + CHUNK <= c2 && c2 + CHUNK <= h.cs[i + 1]
      && SizeOf(h.cs, c) == Size(h.cs, i)
      && Cuttable(h.cs, i, c2)
  {
    hide Indexed, Account, Splits, SizeOf, SlotOf, Slot, Size, At, Tiled, Spliced, Interior, Removed, Wrap,
      Cuttable;
    PopIsRemove(h, k);
    var c := h.lists[k][0];
    SplitPoint(h, c, req);
    ChunkAt(h.cs, At(h.cs, c));
  }

  lemma SplitMallocSound(h: Heap, k: nat, req: Word)
    returns (i: nat, c2: int)
    requires Sound(h, 0) && k < |h.lists| == NUM_SIZES && h.lists[k] != []
    requires h.lists[k][0] in h.cs && Splits(h, h.lists[k][0], req) && req >= MIN_SIZE && req % ALIGN == 0
    ensures i == At(h.cs, h.lists[k][0]) && c2 == h.lists[k][0] + HEADER + req / 4
    ensures Cuttable(h.cs, i, c2)
    ensures Sound(MallocSplit(h, k, i, c2), 0)
  {
    hide *;
    SplitFacts(h, k, req);
    var c := h.lists[k][0];
    i := At(h.cs, c);
    c2 := c + HEADER + req / 4;
    SplitSteps(h, i, c2);
    CutCounters(Pop(h, k), RemoveFree(h, c), i, c2, SizeOf(h.cs, c));
    var h3 := PushFree(Divide(RemoveFree(h, c), i, c2), c2);
    SoundUse(h3, SizeOf(h.cs, c) - HEADER_SIZE - SizeOf(h3.cs, c2));
    MallocSplitIs(h, k, i, c2);
  }

  lemma MallocSplitIs(h: Heap, k: nat, i: nat, c2: int)
    requires k < |h.lists| == NUM_SIZES && h.lists[k] != [] && Cuttable(h.cs, i, c2)
    ensures MallocSplit(h, k, i, c2) == CutChunk(Pop(h, k), i, c2, SizeOf(h.cs, h.lists[k][0]))
  {
  }

  lemma WrapChain(f: int, s: int, len: int)
    ensures Wrap(Wrap(Wrap(f - (s - HEADER_SIZE)) - HEADER_SIZE) + (len - HEADER_SIZE))
      == Wrap(Wrap(f + (len - HEADER_SIZE)) - s)
  {
    WrapShift(f - (s - HEADER_SIZE), -HEADER_SIZE);
    WrapShift(f - s, len - HEADER_SIZE);
    WrapShift(f + (len - HEADER_SIZE), -s);
  }

  /** The code's order of counter updates gives the same counters as the accounted steps. */
  lemma CutCounters(h: Heap, h1: Heap, i: nat, c2: int, size2: int)
    requires |h.lists| == NUM_SIZES && Cuttable(h.cs, i, c2)
    requires h1 == h.(memFree := Wrap(h.memFree - (size2 - HEADER_SIZE)))
    ensures var h3 := PushFree(Divide(h1, i, c2), c2);
      CutChunk(h, i, c2, size2) == h3.(memUsed := Wrap(h3.memUsed + (size2 - HEADER_SIZE - SizeOf(h3.cs, c2))))
  {
    hide SizeOf, SlotOf, Spliced, Wrap;
    WrapChain(h.memFree, size2, SizeOf(Spliced(h.cs, i, [c2]), c2));
  }

  // ----- free -----

  /** p points to the payload of a chunk in use. */
  ghost predicate InUse(cs: seq<int>, free: set<int>, p: int) {
    p - HEADER in cs && 1 <= At(cs, p - HEADER) < |cs| - 1 && p - HEADER !in free
  }

  /** The block at p is in use. */
  ghost predicate Live(h: Heap, p: int) {
    InUse(h.cs, h.free, p)
  }

  /** The chunk at address c has a free list. */
  ghost predicate Listable(cs: seq<int>, c: int) {
    0 <= SlotOf(cs, c) < NUM_SIZES
  }

  /** mem_used is charged first. */
  ghost function Charge(h: Heap, i: nat): Heap
    requires i + 1 < |h.cs|
  {
    h.(memUsed := Wrap(h.memUsed - Size(h.cs, i)))
  }

  /** Chunk i takes in the free chunk after it. */
  ghost function MergeNext(h: Heap, i: nat): (h': Heap)
    requires |h.lists| == NUM_SIZES && i + 1 < |h.cs| && Listable(h.cs, h.cs[i + 1])
    ensures |h'.lists| == NUM_SIZES && h'.cs == Without(h.cs, i + 1) && h'.free == h.free - {h.cs[i + 1]}
  {
    Merge(RemoveFree(h, h.cs[i + 1]), i + 1)
  }

  /** The free chunk before chunk i takes it in, and moves to the list for its new size. */
  ghost function MergePrev(h: Heap, i: nat): (h': Heap)
    requires |h.lists| == NUM_SIZES && 1 <= i < |h.cs| && Listable(h.cs, h.cs[i - 1])
    requires Listable(Without(h.cs, i), h.cs[i - 1])
    ensures h'.cs == Without(h.cs, i) && h'.free == h.free + {h.cs[i - 1]}
  {
    var h1 := RemoveFree(h, h.cs[i - 1]);
    var h2 := PushFree(h1.(cs := Without(h.cs, i)), h.cs[i - 1]);
    h2.(memMeta := Wrap(h2.memMeta - HEADER_SIZE), memFree := Wrap(h2.memFree + HEADER_SIZE))
  }

  lemma MergeNextSound(h: Heap, i: nat)
    requires 1 <= i && i + 2 < |h.cs| && Sound(h, Size(h.cs, i)) && h.cs[i] !in h.free && h.cs[i + 1] in h.free
    ensures |h.lists| == NUM_SIZES && Listable(h.cs, h.cs[i + 1])
    ensures var h' := MergeNext(h, i);
      |h'.cs| == |h.cs| - 1 && h'.cs[i] == h.cs[i] && h'.cs[i + 1] == h.cs[i + 2] && Sound(h', Size(h'.cs, i))
  {
    hide *;
    SoundParts(h, Size(h.cs, i));
    ListCount(h.cs, h.free, h.lists);
    RemoveSound(h, Size(h.cs, i), i + 1);
    var h1 := RemoveFree(h, h.cs[i + 1]);
    RemovedFree(h, h.cs[i + 1]);
    MergeSound(h1, Size(h.cs, i) + Size(h.cs, i + 1), i + 1);
    DropTiled(h.cs, i + 1);
    WithoutItem(h.cs, i + 1, i);
    WithoutItem(h.cs, i + 1, i + 1);
    MergedNext(h, i);
  }

  lemma RemovedFree(h: Heap, c: int)
    requires |h.lists| == NUM_SIZES && 0 <= SlotOf(h.cs, c) < NUM_SIZES
    ensures RemoveFree(h, c).free == h.free - {c}
    ensures Listable(h.cs, c)
  {
  }

  lemma MergedNext(h: Heap, i: nat)
    requires |h.lists| == NUM_SIZES && i + 2 < |h.cs| && Listable(h.cs, h.cs[i + 1])
    requires |Without(h.cs, i + 1)| == |h.cs| - 1 && Without(h.cs, i + 1)[i] == h.cs[i]
    requires Without(h.cs, i + 1)[i + 1] == h.cs[i + 2]
    ensures MergeNext(h, i) == Merge(RemoveFree(h, h.cs[i + 1]), i + 1)
    ensures Size(MergeNext(h, i).cs, i) == Size(h.cs, i) + Size(h.cs, i + 1) + HEADER_SIZE
  {
    hide RemoveFree, Without, SlotOf;
  }

  /** The code counts the merge after the push. */
  lemma MergePrevOrder(h: Heap, i: nat)
    requires |h.lists| == NUM_SIZES && 1 <= i < |h.cs| && Listable(h.cs, h.cs[i - 1])
    requires Listable(Without(h.cs, i), h.cs[i - 1])
    ensures MergePrev(h, i) == PushFree(Merge(RemoveFree(h, h.cs[i - 1]), i), h.cs[i - 1])
  {
    hide SizeOf, SlotOf, Without, Removed, Wrap;
    var h1 := RemoveFree(h, h.cs[i - 1]);
    var len := SizeOf(Without(h.cs, i), h.cs[i - 1]);
    WrapSwap(h1.memFree, len - HEADER_SIZE, HEADER_SIZE);
  }

  lemma WrapSwap(x: int, a: int, b: int)
    ensures Wrap(Wrap(x + a) + b) == Wrap(Wrap(x + b) + a)
  {
    WrapShift(x + a, b);
    WrapShift(x + b, a);
  }

  lemma MergePrevSound(h: Heap, i: nat)
    requires 1 <= i && i + 1 < |h.cs| && Sound(h, Size(h.cs, i)) && h.cs[i] !in h.free && h.cs[i - 1] in h.free
    ensures 2 <= i && |h.lists| == NUM_SIZES && Listable(h.cs, h.cs[i - 1]) && Listable(Without(h.cs, i), h.cs[i - 1])
    ensures Sound(MergePrev(h, i), 0)
  {
    hide Indexed, SizeOf, SlotOf, Account, Interior, Removed;
    ListCount(h.cs, h.free, h.lists);
    RemoveSound(h, Size(h.cs, i), i - 1);
    var h1 := RemoveFree(h, h.cs[i - 1]);
    MergeSound(h1, Size(h.cs, i) + Size(h.cs, i - 1), i);
    DropTiled(h.cs, i);
    PushSound(Merge(h1, i), Size(h.cs, i) + Size(h.cs, i - 1) + HEADER_SIZE, i - 1);
    MergePrevOrder(h, i);
  }

  lemma ChargeSound(h: Heap, i: nat)
    requires Sound(h, 0) && i + 1 < |h.cs|
    ensures Sound(Charge(h, i), Size(h.cs, i))
  {
    hide Tiled, Indexed, Interior, Wrap, Held;
    var h' := Charge(h, i);
    ShiftTo(h.memUsed, UsedDue(h, 0), -Size(h.cs, i), UsedDue(h', Size(h.cs, i)));
    assert MetaDue(h') == MetaDue(h) && FreeDue(h') == FreeDue(h);
  }

  /** The first two steps of free: charge mem_used, then merge in the next chunk if it is free. */
  ghost function FreeNext(h: Heap, i: nat): Heap
    requires |h.lists| == NUM_SIZES && i + 1 < |h.cs| && (h.cs[i + 1] in h.free ==> Listable(h.cs, h.cs[i + 1]))
  {
    if h.cs[i + 1] in h.free then MergeNext(Charge(h, i), i) else Charge(h, i)
  }

  /** The last step: merge into the previous chunk if it is free, else put the chunk on a list. */
  ghost function FreePrev(h: Heap, i: nat): Heap
    requires |h.lists| == NUM_SIZES && 1 <= i < |h.cs| && Listable(h.cs, h.cs[i])
    requires h.cs[i - 1] in h.free ==> Listable(h.cs, h.cs[i - 1]) && Listable(Without(h.cs, i), h.cs[i - 1])
  {
    if h.cs[i - 1] in h.free then MergePrev(h, i) else PushFree(h, h.cs[i])
  }

  lemma FreeNextSound(h: Heap, i: nat)
    requires Sound(h, 0) && 1 <= i < |h.cs| - 1 && h.cs[i] !in h.free
    ensures |h.lists| == NUM_SIZES && (h.cs[i + 1] in h.free ==> Listable(h.cs, h.cs[i + 1]))
    ensures var h' := FreeNext(h, i);
      && |h'.lists| == NUM_SIZES && i < |h'.cs| - 1 && Sound(h', Size(h'.cs, i))
      && h'.free == h.free - {h.cs[i + 1]}
      && h'.cs == (if h.cs[i + 1] in h.free then Without(h.cs, i + 1) else h.cs)
      && h'.cs[i - 1] == h.cs[i - 1] && h'.cs[i] == h.cs[i]
  {
    hide Sound, SizeOf, SlotOf, Tiled, Interior, Indexed, Account, MergeNext, Without;
    SoundParts(h, 0);
    ListCount(h.cs, h.free, h.lists);
    ChargeSound(h, i);
    if h.cs[i + 1] in h.free {
      RemoveSound(h, 0, i + 1);
      WithoutItem(h.cs, i + 1, i - 1);
      MergeNextSound(Charge(h, i), i);
    }
  }

  lemma FreePrevSound(h: Heap, i: nat)
    requires 1 <= i < |h.cs| - 1 && Sound(h, Size(h.cs, i)) && h.cs[i] !in h.free
    ensures |h.lists| == NUM_SIZES && Listable(h.cs, h.cs[i])
    ensures h.cs[i - 1] in h.free ==> 2 <= i && Listable(h.cs, h.cs[i - 1]) && Listable(Without(h.cs, i), h.cs[i - 1])
    ensures var h' := FreePrev(h, i);
      && Sound(h', 0)
      && h'.free == h.free + {if h.cs[i - 1] in h.free then h.cs[i - 1] else h.cs[i]}
      && h'.cs == (if h.cs[i - 1] in h.free then Without(h.cs, i) else h.cs)
  {
    hide Sound, SizeOf, SlotOf, Tiled, Interior, Indexed, Account, MergePrev, PushFree, Without;
    SoundParts(h, Size(h.cs, i));
    ListCount(h.cs, h.free, h.lists);
    ChunkAt(h.cs, i);
    if h.cs[i - 1] in h.free {
      MergePrevSound(h, i);
    } else {
      PushSound(h, Size(h.cs, i), i);
    }
  }

  /** Every chunk that free has to find on a list or put on one has a list. */
  ghost predicate CanFree(h: Heap, i: nat) {
    && |h.lists| == NUM_SIZES && 1 <= i < |h.cs| - 1
    && (h.cs[i + 1] in h.free ==> Listable(h.cs, h.cs[i + 1]))
    && var h1 := FreeNext(h, i);
    && |h1.lists| == NUM_SIZES && i < |h1.cs| && Listable(h1.cs, h1.cs[i])
    && (h1.cs[i - 1] in h1.free ==> Listable(h1.cs, h1.cs[i - 1]) && Listable(Without(h1.cs, i), h1.cs[i - 1]))
  }

  lemma FreeDefined(h: Heap, i: nat)
    requires Sound(h, 0) && 1 <= i < |h.cs| - 1 && h.cs[i] !in h.free
    ensures CanFree(h, i) && Sound(FreePrev(FreeNext(h, i), i), 0)
  {
    hide Sound, Listable, FreeNext, FreePrev, Without;
    FreeNextSound(h, i);
    FreePrevSound(FreeNext(h, i), i);
  }

  /** free, given the number of the chunk. */
  ghost function FreeAt(h: Heap, i: nat): Heap
    requires CanFree(h, i)
  {
    FreePrev(FreeNext(h, i), i)
  }

  ghost function Free(h: Heap, p: int): Heap
    requires Inv(h) && Live(h, p)
  {
    hide CanFree, Sound, FreeNext, FreePrev;
    FreeDefined(h, At(h.cs, p - HEADER));
    FreeAt(h, At(h.cs, p - HEADER))
  }

  // ----- The invariant is kept -----

  lemma CoalescedWithout(cs: seq<int>, free: set<int>, i: nat)
    requires Coalesced(cs, free) && 1 <= i < |cs| - 1 && cs[i - 1] !in free
    ensures Coalesced(Without(cs, i), free)
  {
    var r := Without(cs, i);
    forall j | 0 <= j < |r| - 1
      ensures r[j] !in free || r[j + 1] !in free
    {
      assert cs[if j < i then j else j + 1] == r[j];
    }
  }

  lemma CoalescedSplit(cs: seq<int>, free: set<int>, i: nat, c: int)
    requires Coalesced(cs, free) && i < |cs| - 1 && cs[i] !in free && c !in free
    ensures Coalesced(Spliced(cs, i, [c]), free)
  {
    var r := Spliced(cs, i, [c]);
    forall j | 0 <= j < |r| - 1
      ensures r[j] !in free || r[j + 1] !in free
    {
      SplicedItem(cs, i, [c], j);
      SplicedItem(cs, i, [c], j + 1);
    }
  }

  lemma CoalescedAdd(cs: seq<int>, free: set<int>, i: nat)
    requires Tiled(cs) && Coalesced(cs, free) && 1 <= i < |cs| - 1 && cs[i - 1] !in free && cs[i + 1] !in free
    ensures Coalesced(cs, free + {cs[i]})
  {
  }

  /** Chunk i becomes free and takes in the neighbours that are free. */
  ghost function Absorbed(cs: seq<int>, free: set<int>, i: nat): (r: (seq<int>, set<int>))
    requires 1 <= i < |cs| - 1
  {
    var cs1 := if cs[i + 1] in free then Without(cs, i + 1) else cs;
    var free1 := free - {cs[i + 1]};
    if cs[i - 1] in free1 then (Without(cs1, i), free1 + {cs[i - 1]}) else (cs1, free1 + {cs[i]})
  }

  lemma AbsorbNext(cs: seq<int>, free: set<int>, i: nat)
    requires Tiled(cs) && Interior(cs, free) && Coalesced(cs, free) && 1 <= i < |cs| - 1 && cs[i] !in free
    ensures cs[i + 1] in free ==> i + 2 < |cs| && cs[i + 2] !in free
    ensures cs[i - 1] in free ==> 2 <= i
    ensures cs[i + 1] in free ==> Coalesced(Without(cs, i + 1), free - {cs[i + 1]})
  {
    ChunkAt(cs, i + 1);
    ChunkAt(cs, i - 1);
    hide Tiled, Interior;
    if cs[i + 1] in free {
      CoalescedLess(cs, free, {cs[i + 1]});
      CoalescedWithout(cs, free - {cs[i + 1]}, i + 1);
    }
  }

  lemma AbsorbedCoalesced(cs: seq<int>, free: set<int>, i: nat)
    requires Tiled(cs) && Interior(cs, free) && Coalesced(cs, free) && 1 <= i < |cs| - 1 && cs[i] !in free
    ensures var r := Absorbed(cs, free, i);
      Coalesced(r.0, r.1)
  {
    hide Coalesced, Interior, Tiled;
    AbsorbNext(cs, free, i);
    CoalescedLess(cs, free, {cs[i + 1]});
    if cs[i + 1] in free {
      DropTiled(cs, i + 1);
      AbsorbPrev(Without(cs, i + 1), free - {cs[i + 1]}, i);
    } else {
      AbsorbPrev(cs, free - {cs[i + 1]}, i);
    }
  }

  lemma AbsorbPrev(cs: seq<int>, free: set<int>, i: nat)
    requires Tiled(cs) && Coalesced(cs, free) && 1 <= i < |cs| - 1 && cs[i] !in free && cs[i + 1] !in free
    requires cs[i - 1] in free ==> 2 <= i
    ensures Coalesced(if cs[i - 1] in free then Without(cs, i) else cs,
                      free + {if cs[i - 1] in free then cs[i - 1] else cs[i]})
  {
    if cs[i - 1] in free {
      var free2 := free - {cs[i - 1]};
      assert Coalesced(cs, free2);
      assert cs[i - 2] !in free;
      CoalescedWithout(cs, free2, i);
      DropTiled(cs, i);
      assert Without(cs, i)[i - 2] == cs[i - 2];
      CoalescedAdd(Without(cs, i), free2, i - 1);
      assert free2 + {cs[i - 1]} == free + {cs[i - 1]};
    } else {
      CoalescedAdd(cs, free, i);
    }
  }

  /** What free does to the chunks. */
  lemma FreeChunks(h: Heap, p: int)
    requires Inv(h) && Live(h, p)
    ensures var h' := Free(h, p);
      Sound(h', 0) && (h'.cs, h'.free) == Absorbed(h.cs, h.free, At(h.cs, p - HEADER))
  {
    hide Sound, FreeNext, FreePrev, Listable, Coalesced;
    var i := At(h.cs, p - HEADER);
    FreeDefined(h, i);
    FreeNextSound(h, i);
    FreePrevSound(FreeNext(h, i), i);
  }

  /** free keeps the invariant. */
  lemma FreeKeepsInv(h: Heap, p: int)
    requires Inv(h) && Live(h, p)
    ensures Inv(Free(h, p))
  {
    FreeChunks(h, p);
    var i := At(h.cs, p - HEADER);
    AbsorbedCoalesced(h.cs, h.free, i);
    hide Sound, Absorbed, Free;
  }

  lemma SplitCoalesced(cs: seq<int>, free: set<int>, i: nat, c2: int)
    requires Tiled(cs) && Interior(cs, free) && Coalesced(cs, free) && 1 <= i < |cs| - 1 && cs[i] in free
    requires cs[i] + CHUNK <= c2 && c2 + CHUNK <= cs[i + 1]
    ensures Coalesced(Spliced(cs, i, [c2]), free - {cs[i]} + {c2})
  {
    var free1 := free - {cs[i]};
    assert Coalesced(cs, free1);
    SplitTiled(cs, i, c2);
    if c2 in free {
      ChunkAt(cs, At(cs, c2));
      assert false;
    }
    hide Interior;
    CoalescedSplit(cs, free1, i, c2);
    CoalescedAdd(Spliced(cs, i, [c2]), free1, i + 1);
  }

  /** What malloc does to the chunks. */
  lemma MallocChunks(h: Heap, size: Word)
    requires Inv(h)
    ensures |h.lists| == NUM_SIZES
    ensures var k, req := Source(h, size), Round(size);
      var r := Malloc(h, size);
      if k == NUM_SIZES then r == (h, 0)
      else
        var c := h.lists[k][0];
        c in h.free && c in h.cs &&
        var i := At(h.cs, c);
        var c2 := c + HEADER + req / 4;
        && 1 <= i < |h.cs| - 1 && SlotOf(h.cs, c) == k
        && SizeOf(h.cs, c) == Size(h.cs, i) && r.1 == c + HEADER && Sound(r.0, 0)
        && if Splits(h, c, req) then
             && h.cs[i] + CHUNK <= c2 && c2 + CHUNK <= h.cs[i + 1]
             && r.0.cs == Spliced(h.cs, i, [c2]) && r.0.free == h.free - {c} + {c2}
           else
             r.0.cs == h.cs && r.0.free == h.free - {c}
  {
    hide Sound, Coalesced, Splits, Tiled, MallocSplit, MallocWhole, SlotOf, SizeOf, Source, Round, Cuttable, Spliced;
    MallocDefined(h, size);
    var k, req := Source(h, size), Round(size);
    if k < NUM_SIZES {
      SoundParts(h, 0);
      PopIsRemove(h, k);
      var c := h.lists[k][0];
      ChunkAt(h.cs, At(h.cs, c));
      if Splits(h, c, req) {
        var i, c2 := SplitMallocSound(h, k, req);
        SplitPoint(h, c, req);
      } else {
        WholeSound(h, k);
      }
    }
  }

  lemma SoundParts(h: Heap, open: int)
    requires Sound(h, open)
    ensures Tiled(h.cs) && Interior(h.cs, h.free) && Indexed(h.cs, h.free, h.lists) && Account(h, open)
  {
  }

  /** malloc keeps the invariant. */
  lemma MallocKeepsInv(h: Heap, size: Word)
    requires Inv(h)
    ensures Inv(Malloc(h, size).0)
  {
    hide Sound, Coalesced, Splits, Malloc, Tiled, SlotOf, SizeOf, Source, Interior, Indexed, Account, Spliced;
    SoundParts(h, 0);
    MallocChunks(h, size);
    var k, req := Source(h, size), Round(size);
    if k < NUM_SIZES {
      var c := h.lists[k][0];
      var i := At(h.cs, c);
      if Splits(h, c, req) {
        SplitCoalesced(h.cs, h.free, i, c + HEADER + req / 4);
      } else {
        CoalescedLess(h.cs, h.free, {c});
      }
    }
  }

  lemma CoalescedLess(cs: seq<int>, free: set<int>, gone: set<int>)
    requires Coalesced(cs, free)
    ensures Coalesced(cs, free - gone)
  {
  }
}
