/** memory_init: how the first three chunks come into being. */
module HeapStart {
  import opened Words
  import opened Slots
  import opened DList
  import opened HeapSpec
  import opened HeapOps
  import opened HeapLaws
  import opened HeapTheorems
  import opened HeapLayout
  import opened Contents

  /** Room for the sentinels and one chunk between them. */
  ghost predicate Room(m: seq<Word>, first: int, last: int) {
    0 < first && first + 2 * CHUNK <= last && last + CHUNK <= |m| <= MEM_WORDS
  }

  ghost function Three(first: int, last: int): seq<int> {
    [first, first + CHUNK, last]
  }

  lemma ThreeTiled(m: seq<Word>, first: int, last: int)
    requires Room(m, first, last)
    ensures InMemory(m, Three(first, last)) && Tiled(Three(first, last))
    ensures ToSet(Three(first, last)) == {first, first + CHUNK, last}
  {
    var cs := Three(first, last);
    assert cs[0] in ToSet(cs) && cs[1] in ToSet(cs) && cs[2] in ToSet(cs);
  }

  lemma OneSet(c: int)
    ensures ToSet([c]) == {c}
  {
    assert [c][0] in ToSet([c]);
  }

  lemma TwoSet(c: int, d: int)
    ensures ToSet([c, d]) == {c, d}
  {
    assert [c, d][0] in ToSet([c, d]) && [c, d][1] in ToSet([c, d]);
  }

  /** A bare chunk stays bare while another chunk is initialised. */
  lemma BareKept(m: seq<Word>, m': seq<Word>, cs: seq<int>, c: int, d: int)
    requires InMemory(m, cs) && c in ToSet(cs) && d in ToSet(cs) && c != d
    requires Bare(m, c) && Wrote(m, m', Cells({d}, OFFSETS))
    ensures Bare(m', c)
  {
    OneSet(c);
    ChunkInMemory(m, cs, c);
    assert {d} <= ToSet(cs);
    assert Ring(m, [c], ALL) && Ring(m, [c], FREE);
    hide Ring, Cells, ToSet, InMemory;
    RingUntouched(m, m', cs, {d}, OFFSETS, [c], ALL);
    RingUntouched(m, m', cs, {d}, OFFSETS, [c], FREE);
    MemoryTiled(m, cs);
    Untouched(m, m', cs, {d}, OFFSETS, c, USED);
  }

  /** The first sentinel and the second chunk are joined. */
  lemma JoinSecond(m: seq<Word>, first: int, last: int)
    requires Room(m, first, last) && Bare(m, first) && Bare(m, first + CHUNK) && Bare(m, last)
    ensures Linked(m, first) && Linked(m, first + CHUNK)
    ensures var s := first + CHUNK;
      var m' := InsertAfter(m, first, s);
      && Ring(m', [first, s], ALL) && Ring(m', [s], FREE) && Ring(m', [last], ALL)
      && Wrote(m, m', Cells({first, s}, Links(ALL)))
  {
    hide Ring, Cells, ToSet, InMemory, Links, Bare, Tiled, InsertAfter, Linked, Spliced, Wrote, ApartFrom;
    var s := first + CHUNK;
    var cs := Three(first, last);
    BareRings(m, first, s, last);
    ThreeTiled(m, first, last);
    OffsetFacts();
    OneSet(first);
    OneSet(s);
    OneSet(last);
    JoinPlan(first);
    Join(m, [first], ALL, 0, [s]);
    InsertWrote(m, [first], ALL, 0, s);
    var m' := InsertAfter(m, first + ALL, s + ALL);
    RingUntouched(m, m', cs, {first, s}, Links(ALL), [s], FREE);
    RingUntouched(m, m', cs, {first, s}, Links(ALL), [last], ALL);
  }

  lemma JoinPlan(first: int)
    ensures var s := first + CHUNK;
      ApartFrom([first], [s]) && Spliced([first], 0, [s]) == [first, s] && {first} + {s} == {first, s}
  {
  }

  lemma BareRings(m: seq<Word>, a: int, b: int, c: int)
    requires Bare(m, a) && Bare(m, b) && Bare(m, c)
    ensures Ring(m, [a], ALL) && Ring(m, [b], ALL) && Ring(m, [c], ALL) && Ring(m, [b], FREE)
  {
  }

  /** And the last sentinel. */
  lemma JoinLast(m: seq<Word>, first: int, last: int)
    requires Room(m, first, last)
    requires Ring(m, [first, first + CHUNK], ALL) && Ring(m, [first + CHUNK], FREE) && Ring(m, [last], ALL)
    ensures Linked(m, first + CHUNK) && Linked(m, last)
    ensures var s := first + CHUNK;
      var m' := InsertAfter(m, s, last);
      && Ring(m', Three(first, last), ALL) && Ring(m', [s], FREE)
      && Wrote(m, m', Cells({first, s, last}, Links(ALL)))
  {
    hide *;
    var s := first + CHUNK;
    var cs := Three(first, last);
    ThreeTiled(m, first, last);
    OffsetFacts();
    AllFirst();
    TwoSet(first, s);
    OneSet(s);
    JoinLastPlan(m, first, last);
    Join(m, [first, s], ALL, 1, [last]);
    InsertWrote(m, [first, s], ALL, 1, last);
    var m' := InsertAfter(m, s + ALL, last + ALL);
    RingUntouched(m, m', cs, {first, s, last}, Links(ALL), [s], FREE);
  }

  lemma JoinLastPlan(m: seq<Word>, first: int, last: int)
    requires Room(m, first, last)
    ensures var s := first + CHUNK;
      && ApartFrom([first, s], [last]) && Spliced([first, s], 1, [last]) == Three(first, last)
      && {first, s} + {last} == {first, s, last}
  {
  }

  lemma BareFlags(m: seq<Word>, first: int, last: int)
    requires Bare(m, first) && Bare(m, first + CHUNK) && Bare(m, last)
    ensures Flags(m, Three(first, last), {first, first + CHUNK, last})
  {
  }

  /** The joins leave the flags alone. */
  lemma FlagsJoined(m: seq<Word>, m': seq<Word>, first: int, last: int, some: set<int>)
    requires Room(m, first, last) && Wrote(m, m', Cells(some, Links(ALL))) && some <= {first, first + CHUNK, last}
    requires Flags(m, Three(first, last), {first, first + CHUNK, last})
    ensures Flags(m', Three(first, last), {first, first + CHUNK, last})
  {
    ThreeTiled(m, first, last);
    OffsetFacts();
    var cs := Three(first, last);
    hide Cells, ToSet, InMemory, Links, Flags, Tiled;
    FlagsUntouched(m, m', cs, some, Links(ALL), cs, {first, first + CHUNK, last});
  }

  ghost function NoLists(): (r: seq<seq<int>>)
    ensures |r| == NUM_SIZES && forall l :: 0 <= l < NUM_SIZES ==> r[l] == []
  {
    seq(NUM_SIZES, _ => [])
  }

  lemma HoldsThree(m: seq<Word>, heads: seq<Word>, first: int, last: int)
    requires Room(m, first, last) && Ring(m, Three(first, last), ALL) && |heads| == NUM_SIZES
    requires Flags(m, Three(first, last), {first, first + CHUNK, last})
    requires forall l :: 0 <= l < |heads| ==> heads[l] == 0
    ensures Holds(m, heads, Three(first, last), NoLists(), {first, first + CHUNK, last})
  {
    ThreeTiled(m, first, last);
    var lists := NoLists();
    forall l | 0 <= l < |lists|
      ensures ListAt(m, heads[l], lists[l]) && NoDup(lists[l]) && ToSet(lists[l]) == {}
    {
    }
  }

  lemma FirstPush(first: int, last: int)
    requires 0 < first && first + 2 * CHUNK <= last && last + CHUNK <= MEM_WORDS
    ensures var h := Initial(first, last);
      var s := first + CHUNK;
      var l := SlotOf(Three(first, last), s);
      && h.cs == Three(first, last) && h.free == {s} && 0 <= l < NUM_SIZES
      && SizeOf(h.cs, s) == Size(h.cs, 1) && h.lists == NoLists()[l := [s] + NoLists()[l]]
      && h.memFree == Wrap(Size(h.cs, 1) - HEADER_SIZE) && h.memUsed == 0 && h.memMeta == 2 * CHUNK_SIZE + HEADER_SIZE
  {
    hide SlotOf, SizeOf, Wrap;
    var cs, s := Three(first, last), first + CHUNK;
    ChunkAt(cs, 1);
    var l := SlotOf(cs, s);
    var h, lists := Initial(first, last), NoLists()[l := [s] + NoLists()[l]];
    assert [s] + NoLists()[l] == [s];
    forall k | 0 <= k < NUM_SIZES
      ensures h.lists[k] == lists[k]
    {
    }
    assert h.lists == lists;
  }

  lemma SecondUnlisted(s: int)
    ensures Unlisted(NoLists(), s)
  {
  }

  lemma InitCells(m: seq<Word>, m1: seq<Word>, m2: seq<Word>, cs: seq<int>, c: int, free: set<int>)
    requires Wrote(m, m1, Meta(ToSet(cs), free)) && Wrote(m1, m2, Cells({c}, OFFSETS)) && c in ToSet(cs) && c in free
    ensures Wrote(m, m2, Meta(ToSet(cs), free))
  {
    MetaOfChunk(m1, m2, ToSet(cs), c, free);
    MetaTrans(m, m1, m2, ToSet(cs), free);
  }

  lemma LoneFlag(m: seq<Word>, m': seq<Word>, first: int, last: int, c: int)
    requires Room(m, first, last) && c in {first, last} && Ring(m, [first + CHUNK], FREE)
    requires Wrote(m, m', Cells({c}, {USED}))
    ensures Ring(m', [first + CHUNK], FREE) && Room(m', first, last)
  {
    ThreeTiled(m, first, last);
    OffsetFacts();
    OneSet(first + CHUNK);
    hide Cells, ToSet, InMemory, Links, Ring, Tiled;
    RingUntouched(m, m', Three(first, last), {c}, {USED}, [first + CHUNK], FREE);
  }

  /** What memory_init writes, and that no block is in use after it. */
  lemma StartEffect(m: seq<Word>, m1: seq<Word>, m2: seq<Word>, first: int, last: int, n: nat)
    requires Room(m, first, last) && n < NUM_SIZES
    requires Wrote(m, m1, Meta(ToSet(Three(first, last)), {first, first + CHUNK, last}))
    requires Wrote(m1, m2, Cells(ToSet(NoLists()[n]) + {first + CHUNK}, Links(FREE)))
    ensures OutsideSame(m, m2, Three(first, last))
    ensures ContentsOf(m2, Initial(first, last)) == map[]
  {
    InitialInv(first, last);
    ThreeTiled(m, first, last);
    var cs, free := Three(first, last), {first, first + CHUNK, last};
    assert ToSet(NoLists()[n]) == {};
    hide Wrote, Meta, Cells, Links, ToSet, InMemory, OutsideSame, Blocks, Initial;
    MetaOfLinks(m1, m2, ToSet(cs), ToSet(NoLists()[n]) + {first + CHUNK}, free);
    MetaTrans(m, m1, m2, ToSet(cs), free);
    OutsideAll(m, m2, cs, free);
  }
}
