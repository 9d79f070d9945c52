/** The allocator (memory.c) as operations on an abstract heap: the chunk boundaries in address
    order, the set of free chunks, the contents of the 32 free lists, and the three counters.
    Addresses are word numbers, sizes are bytes. */
module HeapSpec {
  import opened Words
  import opened Slots
  import opened DList

  /** The layout of a Chunk: all.next, all.prev, used, then the payload, whose first two words
      hold free.next and free.prev while the chunk is free. */
  const HEADER: int := 3
  const CHUNK: int := 5
  const HEADER_SIZE: int := 12
  const CHUNK_SIZE: int := 20

  /** `unsplit` is history: how many calls of malloc so far returned a chunk without splitting it. */
  datatype Heap = Heap(
    cs: seq<int>,
    free: set<int>,
    lists: seq<seq<int>>,
    memFree: Word,
    memUsed: Word,
    memMeta: Word,
    unsplit: nat)

  // ----- Chunks -----

  /** The chunks follow each other in increasing address order, from the sentinel `first` to the
      sentinel `last`; `first` is exactly one bare Chunk. */
  ghost predicate Tiled(cs: seq<int>) {
    && |cs| >= 3
    && 0 < cs[0] && cs[1] == cs[0] + CHUNK && cs[|cs| - 1] + CHUNK <= MEM_WORDS
    && (forall i, j :: 0 <= i < j < |cs| ==> cs[i] + CHUNK <= cs[j])
  }

  /** memory_chunk_size: from the end of the header to the next chunk. */
  function Size(cs: seq<int>, i: nat): int
    requires i + 1 < |cs|
  {
    4 * (cs[i + 1] - cs[i] - HEADER)
  }

  ghost function At(s: seq<int>, c: int): (i: nat)
    requires c in s
    ensures i < |s| && s[i] == c
  {
    var i :| 0 <= i < |s| && s[i] == c;
    i
  }

  /** The size of the chunk at address c. */
  ghost function SizeOf(cs: seq<int>, c: int): int {
    if c in cs && At(cs, c) + 1 < |cs| then Size(cs, At(cs, c)) else 0
  }

  /** The free list for that size. */
  ghost function SlotOf(cs: seq<int>, c: int): int {
    if SizeOf(cs, c) >= 0 then Slot(SizeOf(cs, c)) else -1
  }

  lemma ChunkAt(cs: seq<int>, i: nat)
    requires Tiled(cs) && i < |cs|
    ensures At(cs, cs[i]) == i
    ensures i + 1 < |cs| ==> SizeOf(cs, cs[i]) == Size(cs, i) && MIN_SIZE <= Size(cs, i) < WORD_RANGE
    ensures i + 1 < |cs| ==> SlotOf(cs, cs[i]) == Slot(Size(cs, i)) && 0 <= SlotOf(cs, cs[i]) < NUM_SIZES
  {
    assert cs[i] in cs;
    if i + 1 < |cs| {
      SlotInRange(Size(cs, i));
    }
  }

  /** Merging chunk i into its predecessor. */
  lemma DropTiled(cs: seq<int>, i: nat)
    requires Tiled(cs) && 2 <= i < |cs| - 1
    ensures Tiled(Without(cs, i))
    ensures |Without(cs, i)| == |cs| - 1
    ensures Without(cs, i)[0] == cs[0] && Without(cs, i)[i - 1] == cs[i - 1] && Without(cs, i)[i] == cs[i + 1]
    ensures Without(cs, i)[|cs| - 2] == cs[|cs| - 1]
  {
  }

  lemma DropSizes(cs: seq<int>, i: nat, j: nat)
    requires Tiled(cs) && 2 <= i < |cs| - 1 && j < |cs| - 1 && j != i
    ensures SizeOf(Without(cs, i), cs[j])
      == if j == i - 1 then Size(cs, i - 1) + Size(cs, i) + HEADER_SIZE else Size(cs, j)
  {
    hide Tiled, SizeOf, SlotOf, Slot, Without, At;
    DropTiled(cs, i);
    var k := if j < i then j else j - 1;
    WithoutItem(cs, i, k);
    WithoutItem(cs, i, k + 1);
    ChunkAt(Without(cs, i), k);
  }

  lemma WithoutItem<T>(s: seq<T>, k: nat, i: nat)
    requires k < |s| && i < |s| - 1
    ensures |Without(s, k)| == |s| - 1 && Without(s, k)[i] == if i < k then s[i] else s[i + 1]
  {
  }

  /** Splitting chunk i at address c. */
  lemma SplitTiled(cs: seq<int>, i: nat, c: int)
    requires Tiled(cs) && 1 <= i < |cs| - 1 && cs[i] + CHUNK <= c && c + CHUNK <= cs[i + 1]
    ensures Tiled(Spliced(cs, i, [c]))
    ensures var r := Spliced(cs, i, [c]);
      r[0] == cs[0] && r[i] == cs[i] && r[i + 1] == c && r[i + 2] == cs[i + 1] && r[|cs|] == cs[|cs| - 1]
  {
    hide Spliced;
    var r := Spliced(cs, i, [c]);
    SplicedItem(cs, i, [c], 0);
    SplicedItem(cs, i, [c], 1);
    SplicedItem(cs, i, [c], i);
    SplicedItem(cs, i, [c], i + 1);
    SplicedItem(cs, i, [c], i + 2);
    SplicedItem(cs, i, [c], |cs|);
    forall x, y | 0 <= x < y < |r|
      ensures r[x] + CHUNK <= r[y]
    {
      SplicedItem(cs, i, [c], x);
      SplicedItem(cs, i, [c], y);
    }
  }

  lemma SplitSizes(cs: seq<int>, i: nat, c: int, j: nat)
    requires Tiled(cs) && 1 <= i < |cs| - 1 && cs[i] + CHUNK <= c && c + CHUNK <= cs[i + 1] && j < |cs| - 1
    ensures SizeOf(Spliced(cs, i, [c]), cs[j]) == if j == i then 4 * (c - cs[i] - HEADER) else Size(cs, j)
    ensures SizeOf(Spliced(cs, i, [c]), c) == 4 * (cs[i + 1] - c - HEADER)
  {
    hide Tiled, SizeOf, SlotOf, Slot, Spliced, At;
    SplitTiled(cs, i, c);
    var r := Spliced(cs, i, [c]);
    var k := if j <= i then j else j + 1;
    ChunkAt(r, k);
    ChunkAt(r, i + 1);
    SplicedItem(cs, i, [c], k);
    SplicedItem(cs, i, [c], k + 1);
  }

  // ----- The index of free chunks -----

  ghost predicate NoDup(s: seq<int>) {
    forall i, j :: 0 <= i < j < |s| ==> s[i] != s[j]
  }

  /** x is on list l exactly when it is free and its size belongs in slot l. */
  ghost predicate Filed(cs: seq<int>, free: set<int>, list: seq<int>, l: int, x: int) {
    x in list <==> x in free && SlotOf(cs, x) == l
  }

  /** A chunk is free exactly when it is once on one list, and that is the list for its size. */
  ghost predicate Indexed(cs: seq<int>, free: set<int>, lists: seq<seq<int>>) {
    && |lists| == NUM_SIZES
    && (forall l :: 0 <= l < |lists| ==> NoDup(lists[l]))
    && (forall l, x {:trigger Filed(cs, free, lists[l], l, x)} :: 0 <= l < |lists| ==> Filed(cs, free, lists[l], l, x))
  }

  ghost function ToSet(s: seq<int>): set<int> {
    set i | 0 <= i < |s| :: s[i]
  }

  /** s with the element c taken out. */
  ghost function Removed(s: seq<int>, c: int): seq<int> {
    if c in s then Without(s, At(s, c)) else s
  }

  lemma RemovedItems(s: seq<int>, c: int)
    requires NoDup(s)
    ensures NoDup(Removed(s, c))
    ensures forall x :: x in Removed(s, c) <==> x in s && x != c
  {
    if c in s {
      var k := At(s, c);
      var r := Without(s, k);
      assert forall i :: 0 <= i < |r| ==> r[i] == s[if i < k then i else i + 1];
      forall x | x in s && x != c
        ensures x in r
      {
        var i :| 0 <= i < |s| && s[i] == x;
        assert r[if i < k then i else i - 1] == x;
      }
    }
  }

  lemma IndexRemove(cs: seq<int>, free: set<int>, lists: seq<seq<int>>, c: int)
    requires Indexed(cs, free, lists) && c in free && 0 <= SlotOf(cs, c) < NUM_SIZES
    ensures var l := SlotOf(cs, c);
      c in lists[l] && Indexed(cs, free - {c}, lists[l := Removed(lists[l], c)])
  {
    var l := SlotOf(cs, c);
    assert Filed(cs, free, lists[l], l, c);
    RemovedItems(lists[l], c);
    var lists' := lists[l := Removed(lists[l], c)];
    forall k, x | 0 <= k < |lists'|
      ensures Filed(cs, free - {c}, lists'[k], k, x)
    {
      assert Filed(cs, free, lists[k], k, x);
    }
  }

  lemma IndexAdd(cs: seq<int>, free: set<int>, lists: seq<seq<int>>, c: int)
    requires Indexed(cs, free, lists) && c !in free && 0 <= SlotOf(cs, c) < NUM_SIZES
    ensures var l := SlotOf(cs, c);
      Indexed(cs, free + {c}, lists[l := [c] + lists[l]])
  {
    var l := SlotOf(cs, c);
    var lists' := lists[l := [c] + lists[l]];
    assert Filed(cs, free, lists[l], l, c);
    forall k, x | 0 <= k < |lists'|
      ensures Filed(cs, free + {c}, lists'[k], k, x)
    {
      assert Filed(cs, free, lists[k], k, x);
    }
  }

  lemma IndexResize(cs: seq<int>, cs': seq<int>, free: set<int>, lists: seq<seq<int>>)
    requires Indexed(cs, free, lists)
    requires forall x :: x in free ==> SizeOf(cs', x) == SizeOf(cs, x)
    ensures Indexed(cs', free, lists)
  {
    forall k, x | 0 <= k < |lists|
      ensures Filed(cs', free, lists[k], k, x)
    {
      assert Filed(cs, free, lists[k], k, x);
    }
  }
}
