/** How the abstract heap lies in memory: the words of a Chunk and the rings through them. */
module HeapLayout {
  import opened Words
  import opened Slots
  import opened DList
  import opened HeapSpec

  /** Offsets of the fields of a Chunk. */
  const ALL: int := 0
  const USED: int := 2
  const DATA: int := 3
  const FREE: int := 3

  // ----- Which words an operation writes -----

  /** The words at the given offsets in the given chunks. */
  ghost function Cells(chunks: set<int>, offsets: set<int>): set<int> {
    set c, a | c in chunks && a in offsets :: c + a
  }

  /** Only the given cells differ. */
  ghost predicate Wrote(m: seq<Word>, m': seq<Word>, cells: set<int>) {
    |m'| == |m| && forall w :: 0 <= w < |m| && w !in cells ==> m'[w] == m[w]
  }

  lemma WroteMore(m: seq<Word>, m': seq<Word>, cells: set<int>, more: set<int>)
    requires Wrote(m, m', cells) && cells <= more
    ensures Wrote(m, m', more)
  {
  }

  ghost function Links(off: int): set<int> {
    {off, off + 1}
  }

  lemma RemoveWrote(m: seq<Word>, s: seq<int>, off: int, k: nat)
    requires Ring(m, s, off) && k < |s| && Linked(m, s[k] + off)
    ensures Wrote(m, Remove(m, s[k] + off), Cells(ToSet(s), Links(off)))
  {
    hide Cells, Links, Remove, Wrote;
    RingLinked(m, s, off, k);
    var p, n := s[Before(k, |s|)], s[After(k, |s|)];
    assert p in ToSet(s) && n in ToSet(s) && s[k] in ToSet(s);
    FourCells(ToSet(s), off, p, n, s[k]);
    RemoveCells(m, s[k] + off, p + off, n + off);
    WroteMore(m, Remove(m, s[k] + off), {p + off, n + off + 1, s[k] + off, s[k] + off + 1},
              Cells(ToSet(s), Links(off)));
  }

  lemma FourCells(chunks: set<int>, off: int, p: int, n: int, c: int)
    requires {p, n, c} <= chunks
    ensures {p + off, n + off + 1, c + off, c + off + 1} <= Cells(chunks, Links(off))
  {
    assert off in Links(off) && off + 1 in Links(off);
    assert p in chunks && n in chunks && c in chunks;
    assert n + (off + 1) in Cells(chunks, Links(off)) && c + (off + 1) in Cells(chunks, Links(off));
  }

  lemma RemoveCells(m: seq<Word>, d: int, p: int, n: int)
    requires Linked(m, d) && m[d] == n && m[d + 1] == p && (p == d <==> n == d) && p != d + 1
    ensures Wrote(m, Remove(m, d), {p, n + 1, d, d + 1})
  {
  }

  lemma InsertAfterCells(m: seq<Word>, d1: int, d2: int)
    requires Linked(m, d1) && Linked(m, d2)
    ensures Wrote(m, InsertAfter(m, d1, d2), {d1, d2 + 1, m[d2 + 1] as int, m[d1] as int + 1})
  {
  }

  lemma InsertBeforeCells(m: seq<Word>, d1: int, d2: int)
    requires Linked(m, d1) && Linked(m, d2)
    ensures Wrote(m, InsertBefore(m, d1, d2), {m[d1 + 1] as int, d2 + 1, m[d2 + 1] as int, d1 + 1})
  {
  }

  lemma RingCells(chunks: set<int>, off: int, a: int, b: int, c: int)
    requires {a, b, c} <= chunks
    ensures {a + off, c + off + 1, c + off, b + off + 1} <= Cells(chunks, Links(off))
  {
    FourCells(chunks, off, a, b, c);
  }

  lemma InsertWrote(m: seq<Word>, s: seq<int>, off: int, k: nat, c: int)
    requires Ring(m, s, off) && k < |s| && Ring(m, [c], off) && Linked(m, s[k] + off) && Linked(m, c + off)
    ensures Wrote(m, InsertAfter(m, s[k] + off, c + off), Cells(ToSet(s) + {c}, Links(off)))
  {
    hide *;
    RingLinked(m, s, off, k);
    RingLinked(m, [c], off, 0);
    var n := After(k, |s|);
    InToSet(s, n);
    InToSet(s, k);
    RingCells(ToSet(s) + {c}, off, s[k], s[n], c);
    InsertAfterCells(m, s[k] + off, c + off);
    WroteMore(m, InsertAfter(m, s[k] + off, c + off), {s[k] + off, c + off + 1, c + off, s[n] + off + 1},
              Cells(ToSet(s) + {c}, Links(off)));
  }

  lemma PushWrote(m: seq<Word>, s: seq<int>, off: int, c: int)
    requires Ring(m, s, off) && |s| > 0 && Ring(m, [c], off) && Linked(m, s[0] + off) && Linked(m, c + off)
    ensures Wrote(m, InsertBefore(m, s[0] + off, c + off), Cells(ToSet(s) + {c}, Links(off)))
  {
    hide *;
    RingLinked(m, s, off, 0);
    RingLinked(m, [c], off, 0);
    var p := Before(0, |s|);
    InToSet(s, p);
    InToSet(s, 0);
    RingCells(ToSet(s) + {c}, off, s[p], s[0], c);
    InsertBeforeCells(m, s[0] + off, c + off);
    WroteMore(m, InsertBefore(m, s[0] + off, c + off), {s[p] + off, c + off + 1, c + off, s[0] + off + 1},
              Cells(ToSet(s) + {c}, Links(off)));
  }

  // ----- The representation -----

  ghost predicate InMemory(m: seq<Word>, cs: seq<int>) {
    Tiled(cs) && cs[|cs| - 1] + CHUNK <= |m| <= MEM_WORDS
  }

  /** The used flags: 0 in the chunks of zero, 1 in the others. */
  ghost predicate Flags(m: seq<Word>, cs: seq<int>, zero: set<int>) {
    forall i :: 0 <= i < |cs| ==> 0 <= cs[i] + USED < |m| && m[cs[i] + USED] == if cs[i] in zero then 0 else 1
  }

  /** The lists are made of chunks, and no chunk is on two of them. */
  ghost predicate Shelved(cs: seq<int>, lists: seq<seq<int>>) {
    && (forall l :: 0 <= l < |lists| ==> NoDup(lists[l]) && ToSet(lists[l]) <= ToSet(cs))
    && (forall k, l :: 0 <= k < l < |lists| ==> ToSet(lists[k]) !! ToSet(lists[l]))
  }

  /** The list pointer h leads to the ring s of chunks, linked through their free fields. */
  ghost predicate ListAt(m: seq<Word>, h: int, s: seq<int>) {
    Ring(m, s, FREE) && h == if s == [] then 0 else s[0]
  }

  ghost predicate ListsAt(m: seq<Word>, heads: seq<Word>, lists: seq<seq<int>>) {
    |heads| == |lists| == NUM_SIZES && forall l :: 0 <= l < |lists| ==> ListAt(m, heads[l], lists[l])
  }

  /** Memory holds the chunks cs in one ring, their used flags, and the free lists. */
  ghost predicate Holds(m: seq<Word>, heads: seq<Word>, cs: seq<int>, lists: seq<seq<int>>, zero: set<int>) {
    InMemory(m, cs) && Ring(m, cs, ALL) && Flags(m, cs, zero) && Shelved(cs, lists) && ListsAt(m, heads, lists)
  }

  // ----- Frames -----

  const OFFSETS: set<int> := {0, 1, 2, 3, 4}

  /** Chunks do not share words. */
  lemma CellsDiffer(cs: seq<int>, c: int, a: int, d: int, b: int)
    requires Tiled(cs) && c in cs && d in cs && 0 <= a < CHUNK && 0 <= b < CHUNK && (c != d || a != b)
    ensures c + a != d + b
  {
    var i, j := At(cs, c), At(cs, d);
  }

  /** A word of a chunk is untouched by writes to other chunks, or to other fields. */
  lemma Untouched(m: seq<Word>, m': seq<Word>, cs: seq<int>, chunks: set<int>, offsets: set<int>, c: int, a: int)
    requires Wrote(m, m', Cells(chunks, offsets)) && Tiled(cs) && chunks <= ToSet(cs) && offsets <= OFFSETS
    requires c in cs && 0 <= a < CHUNK && c + a < |m| && 0 < c
    requires c !in chunks || a !in offsets
    ensures m'[c + a] == m[c + a]
  {
    forall d, b | d in chunks && b in offsets
      ensures c + a != d + b
    {
      CellsDiffer(cs, c, a, d, b);
    }
  }

  ghost predicate NodeSame(m: seq<Word>, m': seq<Word>, a: int) {
    |m'| == |m| && Node(m, a) && m'[a] == m[a] && m'[a + 1] == m[a + 1]
  }

  lemma RingUntouched(m: seq<Word>, m': seq<Word>, cs: seq<int>, chunks: set<int>, offsets: set<int>, s: seq<int>,
                      off: int)
    requires Wrote(m, m', Cells(chunks, offsets)) && InMemory(m, cs) && chunks <= ToSet(cs) && offsets <= OFFSETS
    requires Ring(m, s, off) && ToSet(s) <= ToSet(cs) && (off == ALL || off == FREE)
    requires ToSet(s) !! chunks || Links(off) !! offsets
    ensures Ring(m', s, off)
  {
    hide *;
    forall i | 0 <= i < |s|
      ensures NodeSame(m, m', s[i] + off)
    {
      InToSet(s, i);
      NodeUntouched(m, m', cs, chunks, offsets, s[i], off);
    }
    SameLength(m, m', Cells(chunks, offsets));
    RingSame(m, m', s, off);
  }

  lemma SameLength(m: seq<Word>, m': seq<Word>, cells: set<int>)
    requires Wrote(m, m', cells)
    ensures |m'| == |m|
  {
  }

  lemma RingSame(m: seq<Word>, m': seq<Word>, s: seq<int>, off: int)
    requires Ring(m, s, off) && |m'| == |m| && forall i :: 0 <= i < |s| ==> NodeSame(m, m', s[i] + off)
    ensures Ring(m', s, off)
  {
    RingFrame(m, m', s, off);
  }

  lemma InToSet(s: seq<int>, i: nat)
    requires i < |s|
    ensures s[i] in ToSet(s)
  {
  }

  lemma NodeUntouched(m: seq<Word>, m': seq<Word>, cs: seq<int>, chunks: set<int>, offsets: set<int>, c: int, off: int)
    requires Wrote(m, m', Cells(chunks, offsets)) && InMemory(m, cs) && chunks <= ToSet(cs) && offsets <= OFFSETS
    requires c in ToSet(cs) && (off == ALL || off == FREE)
    requires c !in chunks || Links(off) !! offsets
    ensures |m'| == |m| && NodeSame(m, m', c + off)
  {
    assert off in Links(off) && off + 1 in Links(off);
    ChunkInMemory(m, cs, c);
    Untouched(m, m', cs, chunks, offsets, c, off);
    Untouched(m, m', cs, chunks, offsets, c, off + 1);
  }

  lemma ChunkInMemory(m: seq<Word>, cs: seq<int>, c: int)
    requires InMemory(m, cs) && c in ToSet(cs)
    ensures c in cs && 0 < c && c + CHUNK <= |m|
  {
  }

  lemma FlagsUntouched(m: seq<Word>, m': seq<Word>, cs: seq<int>, chunks: set<int>, offsets: set<int>, s: seq<int>,
                       zero: set<int>)
    requires Wrote(m, m', Cells(chunks, offsets)) && InMemory(m, cs) && chunks <= ToSet(cs) && offsets <= OFFSETS
    requires Flags(m, s, zero) && ToSet(s) <= ToSet(cs) && (USED !in offsets || ToSet(s) !! chunks)
    ensures Flags(m', s, zero)
  {
    forall i | 0 <= i < |s|
      ensures 0 <= s[i] + USED < |m'| && m'[s[i] + USED] == if s[i] in zero then 0 else 1
    {
      assert s[i] in ToSet(s);
      ChunkInMemory(m, cs, s[i]);
      Untouched(m, m', cs, chunks, offsets, s[i], USED);
    }
  }

  lemma ListsUntouched(m: seq<Word>, m': seq<Word>, cs: seq<int>, chunks: set<int>, offsets: set<int>,
                       heads: seq<Word>, lists: seq<seq<int>>)
    requires Wrote(m, m', Cells(chunks, offsets)) && InMemory(m, cs) && chunks <= ToSet(cs) && offsets <= OFFSETS
    requires ListsAt(m, heads, lists) && Shelved(cs, lists)
    requires Links(FREE) !! offsets || forall l :: 0 <= l < |lists| ==> ToSet(lists[l]) !! chunks
    ensures ListsAt(m', heads, lists)
  {
    forall l | 0 <= l < |lists|
      ensures ListAt(m', heads[l], lists[l])
    {
      RingUntouched(m, m', cs, chunks, offsets, lists[l], FREE);
    }
  }

  // ----- Steps -----

  lemma OffsetFacts()
    ensures Links(FREE) <= OFFSETS && Links(ALL) <= OFFSETS && Links(ALL) !! Links(FREE)
    ensures USED !in Links(ALL) && USED !in Links(FREE) && {USED} <= OFFSETS && {USED} !! Links(ALL)
    ensures {USED} !! Links(FREE)
  {
  }

  /** A step that rewrites list k and nothing else. */
  lemma ListStep(m: seq<Word>, m': seq<Word>, heads: seq<Word>, cs: seq<int>, lists: seq<seq<int>>, zero: set<int>,
                 k: nat, s': seq<int>, h': Word, chunks: set<int>)
    requires Holds(m, heads, cs, lists, zero) && k < NUM_SIZES
    requires Wrote(m, m', Cells(chunks, Links(FREE))) && chunks <= ToSet(cs)
    requires forall l :: 0 <= l < |lists| && l != k ==> ToSet(lists[l]) !! chunks
    requires ListAt(m', h', s')
    requires |lists| == NUM_SIZES ==> Shelved(cs, lists[k := s'])
    ensures |heads| == |lists| == NUM_SIZES && Holds(m', heads[k := h'], cs, lists[k := s'], zero)
  {
    OffsetFacts();
    RingUntouched(m, m', cs, chunks, Links(FREE), cs, ALL);
    FlagsUntouched(m, m', cs, chunks, Links(FREE), cs, zero);
    var heads', lists' := heads[k := h'], lists[k := s'];
    forall l | 0 <= l < |lists'|
      ensures ListAt(m', heads'[l], lists'[l])
    {
      if l != k {
        RingUntouched(m, m', cs, chunks, Links(FREE), lists[l], FREE);
      }
    }
  }

  lemma ShelvedLess(cs: seq<int>, lists: seq<seq<int>>, k: nat, j: nat)
    requires Shelved(cs, lists) && k < |lists| && j < |lists[k]|
    ensures Shelved(cs, lists[k := Without(lists[k], j)])
  {
    var s' := Without(lists[k], j);
    assert forall i :: 0 <= i < |s'| ==> s'[i] == lists[k][if i < j then i else i + 1];
    assert ToSet(s') <= ToSet(lists[k]);
  }

  /** The list pointer after an object at position j left the list. */
  function HeadWithout(h: Word, s: seq<int>, j: nat): int
    requires j < |s|
  {
    if j > 0 then h else if |s| == 1 then 0 else s[1]
  }

  /** Taking position j out of list k. */
  lemma UnlistStep(m: seq<Word>, heads: seq<Word>, cs: seq<int>, lists: seq<seq<int>>, zero: set<int>, k: nat,
                   j: nat, h': Word)
    requires Holds(m, heads, cs, lists, zero) && k < |lists| == |heads| && j < |lists[k]|
    requires h' == HeadWithout(heads[k], lists[k], j)
    ensures Linked(m, lists[k][j] + FREE)
    ensures var m' := Remove(m, lists[k][j] + FREE);
      && Holds(m', heads[k := h'], cs, lists[k := Without(lists[k], j)], zero)
      && Ring(m', [lists[k][j]], FREE)
      && Wrote(m, m', Cells(ToSet(lists[k]), Links(FREE)))
  {
    HoldsList(m, heads, cs, lists, zero, k);
    HoldsParts(m, heads, cs, lists, zero);
    hide *;
    var s := lists[k];
    RingRemoveAt(m, s, FREE, j);
    RemoveWrote(m, s, FREE, j);
    ShelvedLess(cs, lists, k, j);
    HeadStays(Remove(m, s[j] + FREE), heads[k], s, j, h');
    ListStep(m, Remove(m, s[j] + FREE), heads, cs, lists, zero, k, Without(s, j), h', ToSet(s));
  }

  lemma HoldsParts(m: seq<Word>, heads: seq<Word>, cs: seq<int>, lists: seq<seq<int>>, zero: set<int>)
    requires Holds(m, heads, cs, lists, zero)
    ensures InMemory(m, cs) && Tiled(cs) && Ring(m, cs, ALL) && Flags(m, cs, zero) && Shelved(cs, lists)
    ensures ListsAt(m, heads, lists)
    ensures |heads| == |lists| == NUM_SIZES
  {
  }

  lemma HoldsList(m: seq<Word>, heads: seq<Word>, cs: seq<int>, lists: seq<seq<int>>, zero: set<int>, k: nat)
    requires Holds(m, heads, cs, lists, zero) && k < |lists|
    ensures |heads| == |lists| == NUM_SIZES
    ensures ListAt(m, heads[k], lists[k]) && Ring(m, lists[k], FREE) && ToSet(lists[k]) <= ToSet(cs)
    ensures forall l :: 0 <= l < |lists| && l != k ==> ToSet(lists[l]) !! ToSet(lists[k])
  {
  }

  lemma HeadStays(m': seq<Word>, h: Word, s: seq<int>, j: nat, h': Word)
    requires j < |s| && h == s[0] && h' == HeadWithout(h, s, j) && Ring(m', Without(s, j), FREE)
    ensures ListAt(m', h', Without(s, j))
  {
  }

  /** c is on no list. */
  ghost predicate Unlisted(lists: seq<seq<int>>, c: int) {
    forall l :: 0 <= l < |lists| ==> c !in ToSet(lists[l])
  }

  lemma ShelvedMore(cs: seq<int>, lists: seq<seq<int>>, k: nat, c: int)
    requires Shelved(cs, lists) && k < |lists| && c in ToSet(cs) && Unlisted(lists, c)
    ensures Shelved(cs, lists[k := [c] + lists[k]])
  {
    var s := lists[k];
    var s' := [c] + s;
    ToSetCons(c, s);
    assert NoDup(s');
    var lists' := lists[k := s'];
    forall i, j | 0 <= i < j < |lists'|
      ensures ToSet(lists'[i]) !! ToSet(lists'[j])
    {
    }
  }

  lemma ToSetCons(c: int, s: seq<int>)
    ensures ToSet([c] + s) == {c} + ToSet(s)
  {
    var r := [c] + s;
    assert r[0] in ToSet(r);
    forall x | x in ToSet(s)
      ensures x in ToSet(r)
    {
      var i :| 0 <= i < |s| && s[i] == x;
      assert r[i + 1] == x;
    }
  }

  /** The chunks of a list do not overlap a chunk that is not on it. */
  lemma ListApart(cs: seq<int>, s: seq<int>, c: int)
    requires Tiled(cs) && ToSet(s) <= ToSet(cs) && c in ToSet(cs) && c !in ToSet(s)
    ensures ApartFrom(s, [c])
  {
    var t := [c];
    forall i, j | 0 <= i < |s| && 0 <= j < |t|
      ensures s[i] + 2 <= t[j] || t[j] + 2 <= s[i]
    {
      assert s[i] in ToSet(s);
      var x, y := At(cs, s[i]), At(cs, c);
    }
  }

  /** The memory after a push in front of list s. */
  ghost function Pushed(m: seq<Word>, s: seq<int>, c: int): seq<Word>
    requires s != [] ==> Linked(m, s[0] + FREE) && Linked(m, c + FREE)
  {
    if s == [] then m else InsertBefore(m, s[0] + FREE, c + FREE)
  }

  lemma PushedRing(m: seq<Word>, cs: seq<int>, s: seq<int>, c: int)
    requires Tiled(cs) && Ring(m, s, FREE) && ToSet(s) <= ToSet(cs) && c in ToSet(cs) && c !in ToSet(s)
    requires Ring(m, [c], FREE)
    ensures s != [] ==> Linked(m, s[0] + FREE) && Linked(m, c + FREE)
    ensures ListAt(Pushed(m, s, c), c, [c] + s)
    ensures Wrote(m, Pushed(m, s, c), Cells(ToSet(s) + {c}, Links(FREE)))
  {
    ListApart(cs, s, c);
    if s == [] {
      assert [c] + s == [c];
    } else {
      hide Ring, Wrote, Cells, ToSet, Tiled, ApartFrom, Links, InsertBefore, Linked;
      RingPush(m, s, FREE, c);
      PushWrote(m, s, FREE, c);
    }
  }

  /** Putting c in front of list k. */
  lemma EnlistStep(m: seq<Word>, heads: seq<Word>, cs: seq<int>, lists: seq<seq<int>>, zero: set<int>, k: nat, c: Word)
    requires Holds(m, heads, cs, lists, zero) && k < |lists| == |heads| && c in ToSet(cs) && Unlisted(lists, c)
    requires Ring(m, [c], FREE)
    ensures lists[k] != [] ==> Linked(m, lists[k][0] + FREE) && Linked(m, c + FREE)
    ensures var m' := Pushed(m, lists[k], c);
      && Holds(m', heads[k := c], cs, lists[k := [c] + lists[k]], zero)
      && Wrote(m, m', Cells(ToSet(lists[k]) + {c}, Links(FREE)))
  {
    HoldsList(m, heads, cs, lists, zero, k);
    HoldsParts(m, heads, cs, lists, zero);
    UnlistedFrom(lists, c, k);
    hide *;
    var s := lists[k];
    PushedRing(m, cs, s, c);
    ShelvedMore(cs, lists, k, c);
    InOne(cs, c);
    ListStep(m, Pushed(m, s, c), heads, cs, lists, zero, k, [c] + s, c, ToSet(s) + {c});
  }

  lemma UnlistedFrom(lists: seq<seq<int>>, c: int, k: nat)
    requires Unlisted(lists, c) && k < |lists|
    ensures c !in ToSet(lists[k])
    ensures forall l :: 0 <= l < |lists| ==> ToSet(lists[l]) !! {c}
  {
  }

  lemma InOne(cs: seq<int>, c: int)
    requires c in ToSet(cs)
    ensures {c} <= ToSet(cs)
  {
  }

  lemma SpliceSet(cs: seq<int>, i: nat, c: int)
    requires i < |cs|
    ensures ToSet(Spliced(cs, i, [c])) == ToSet(cs) + {c}
  {
    var r := Spliced(cs, i, [c]);
    forall x | x in ToSet(cs) + {c}
      ensures x in ToSet(r)
    {
      if x in ToSet(cs) {
        var j :| 0 <= j < |cs| && cs[j] == x;
        SplicedItem(cs, i, [c], if j <= i then j else j + 1);
      } else {
        SplicedItem(cs, i, [c], i + 1);
      }
    }
    forall x | x in ToSet(r)
      ensures x in ToSet(cs) + {c}
    {
      var j :| 0 <= j < |r| && r[j] == x;
      SplicedItem(cs, i, [c], j);
    }
  }

  /** memory_chunk_init: both rings of c are c alone, and it is not used. */
  ghost predicate Bare(m: seq<Word>, c: int) {
    Ring(m, [c], ALL) && Ring(m, [c], FREE) && c + USED < |m| && 0 <= c + USED && m[c + USED] == 0
  }

  ghost predicate Gap(cs: seq<int>, i: nat, c: int) {
    1 <= i < |cs| - 1 && cs[i] + CHUNK <= c && c + CHUNK <= cs[i + 1]
  }

  lemma GapMemory(m: seq<Word>, cs: seq<int>, i: nat, c: int)
    requires InMemory(m, cs) && Gap(cs, i, c)
    ensures InMemory(m, Spliced(cs, i, [c])) && c !in ToSet(cs) && ToSet(Spliced(cs, i, [c])) == ToSet(cs) + {c}
    ensures {c} <= ToSet(Spliced(cs, i, [c])) && ToSet(cs) <= ToSet(Spliced(cs, i, [c]))
  {
    SplitTiled(cs, i, c);
    SpliceSet(cs, i, c);
  }

  /** Writing inside a gap leaves the structure alone. */
  lemma GapStep(m: seq<Word>, m1: seq<Word>, heads: seq<Word>, cs: seq<int>, lists: seq<seq<int>>, zero: set<int>,
                i: nat, c: int)
    requires Holds(m, heads, cs, lists, zero) && Gap(cs, i, c) && Wrote(m, m1, Cells({c}, OFFSETS))
    ensures Holds(m1, heads, cs, lists, zero)
  {
    HoldsParts(m, heads, cs, lists, zero);
    GapMemory(m, cs, i, c);
    var r := Spliced(cs, i, [c]);
    ShelvedWider(cs, r, lists);
    GapLists(cs, lists, c);
    SameLength(m, m1, Cells({c}, OFFSETS));
    hide *;
    RingUntouched(m, m1, r, {c}, OFFSETS, cs, ALL);
    FlagsUntouched(m, m1, r, {c}, OFFSETS, cs, zero);
    ListsUntouched(m, m1, r, {c}, OFFSETS, heads, lists);
    HoldsMade(m1, heads, cs, lists, zero);
  }

  lemma HoldsMade(m: seq<Word>, heads: seq<Word>, cs: seq<int>, lists: seq<seq<int>>, zero: set<int>)
    requires InMemory(m, cs) && Ring(m, cs, ALL) && Flags(m, cs, zero) && Shelved(cs, lists) && ListsAt(m, heads, lists)
    ensures Holds(m, heads, cs, lists, zero)
  {
  }

  lemma ShelvedWider(cs: seq<int>, cs': seq<int>, lists: seq<seq<int>>)
    requires Shelved(cs, lists) && ToSet(cs) <= ToSet(cs')
    ensures Shelved(cs', lists)
  {
  }

  lemma GapLists(cs: seq<int>, lists: seq<seq<int>>, c: int)
    requires Shelved(cs, lists) && c !in ToSet(cs)
    ensures Unlisted(lists, c)
    ensures forall l :: 0 <= l < |lists| ==> ToSet(lists[l]) !! {c}
  {
  }

  /** Putting a bare chunk into the ring of all chunks after chunk i. */
  lemma InsertStep(m: seq<Word>, heads: seq<Word>, cs: seq<int>, lists: seq<seq<int>>, zero: set<int>, i: nat, c: int)
    requires Holds(m, heads, cs, lists, zero) && Gap(cs, i, c) && Bare(m, c) && c !in zero
    ensures Linked(m, cs[i]) && Linked(m, c)
    ensures var m' := InsertAfter(m, cs[i], c);
      var r := Spliced(cs, i, [c]);
      && Holds(m', heads, r, lists, zero + {c})
      && Ring(m', [c], FREE)
      && Wrote(m, m', Cells(ToSet(r), Links(ALL)))
  {
    hide *;
    HoldsParts(m, heads, cs, lists, zero);
    InsertFacts(m, cs, lists, zero, i, c);
    OffsetFacts();
    var r := Spliced(cs, i, [c]);
    Join(m, cs, ALL, i, [c]);
    InsertWrote(m, cs, ALL, i, c);
    AllIsZero();
    var m' := InsertAfter(m, cs[i] + ALL, c + ALL);
    RingUntouched(m, m', r, ToSet(r), Links(ALL), [c], FREE);
    FlagsUntouched(m, m', r, ToSet(r), Links(ALL), r, zero + {c});
    ListsUntouched(m, m', r, ToSet(r), Links(ALL), heads, lists);
    SameLength(m, m', Cells(ToSet(r), Links(ALL)));
    MemorySame(m, m', r);
    HoldsMade(m', heads, r, lists, zero + {c});
  }

  lemma AllIsZero()
    ensures ALL == 0
  {
  }

  lemma MemorySame(m: seq<Word>, m': seq<Word>, cs: seq<int>)
    requires InMemory(m, cs) && |m'| == |m|
    ensures InMemory(m', cs)
  {
  }

  lemma InsertFacts(m: seq<Word>, cs: seq<int>, lists: seq<seq<int>>, zero: set<int>, i: nat, c: int)
    requires InMemory(m, cs) && Flags(m, cs, zero) && Shelved(cs, lists) && Gap(cs, i, c) && Bare(m, c)
    ensures i < |cs| && Ring(m, [c], ALL) && Ring(m, [c], FREE) && ApartFrom(cs, [c])
    ensures var r := Spliced(cs, i, [c]);
      && InMemory(m, r) && ToSet(r) == ToSet(cs) + {c} && Shelved(r, lists) && ToSet([c]) <= ToSet(r)
      && Flags(m, r, zero + {c})
  {
    GapMemory(m, cs, i, c);
    var r := Spliced(cs, i, [c]);
    ShelvedWider(cs, r, lists);
    GapApart(cs, i, c);
    FlagsSpliced(m, cs, zero, i, c);
    SameSetOne(r, c);
    hide Ring, InMemory, Shelved, Flags, ToSet, Spliced;
  }

  lemma SameSetOne(r: seq<int>, c: int)
    requires c in ToSet(r)
    ensures ToSet([c]) <= ToSet(r)
  {
  }

  lemma GapApart(cs: seq<int>, i: nat, c: int)
    requires Tiled(cs) && Gap(cs, i, c)
    ensures ApartFrom(cs, [c])
  {
  }

  lemma FlagsSpliced(m: seq<Word>, cs: seq<int>, zero: set<int>, i: nat, c: int)
    requires Flags(m, cs, zero) && i < |cs| && c !in ToSet(cs) && 0 <= c + USED < |m| && m[c + USED] == 0
    ensures Flags(m, Spliced(cs, i, [c]), zero + {c})
  {
    var r := Spliced(cs, i, [c]);
    forall j | 0 <= j < |r|
      ensures 0 <= r[j] + USED < |m| && m[r[j] + USED] == if r[j] in zero + {c} then 0 else 1
    {
      SplicedItem(cs, i, [c], j);
    }
  }

  lemma WithoutSet(cs: seq<int>, i: nat)
    requires Tiled(cs) && i < |cs|
    ensures ToSet(Without(cs, i)) == ToSet(cs) - {cs[i]}
  {
    hide Without;
    var r := Without(cs, i);
    WithoutItem(cs, i, 0);
    forall x | x in ToSet(cs) - {cs[i]}
      ensures x in ToSet(r)
    {
      var j :| 0 <= j < |cs| && cs[j] == x;
      WithoutItem(cs, i, if j < i then j else j - 1);
    }
    forall x | x in ToSet(r)
      ensures x in ToSet(cs) - {cs[i]}
    {
      var j :| 0 <= j < |r| && r[j] == x;
      WithoutItem(cs, i, j);
    }
  }

  lemma ShelvedDropped(cs: seq<int>, i: nat, lists: seq<seq<int>>)
    requires Tiled(cs) && Shelved(cs, lists) && i < |cs| && Unlisted(lists, cs[i])
    ensures Shelved(Without(cs, i), lists)
  {
    WithoutSet(cs, i);
    forall l | 0 <= l < |lists|
      ensures ToSet(lists[l]) <= ToSet(Without(cs, i))
    {
    }
  }

  lemma FlagsDropped(m: seq<Word>, cs: seq<int>, zero: set<int>, zero': set<int>, i: nat)
    requires Tiled(cs) && Flags(m, cs, zero) && i < |cs|
    requires forall x :: x != cs[i] ==> (x in zero <==> x in zero')
    ensures Flags(m, Without(cs, i), zero')
  {
    var r := Without(cs, i);
    forall j | 0 <= j < |r|
      ensures 0 <= r[j] + USED < |m| && m[r[j] + USED] == if r[j] in zero' then 0 else 1
    {
      assert cs[if j < i then j else j + 1] == r[j];
    }
  }

  /** Taking chunk i out of the ring of all chunks. */
  lemma DropStep(m: seq<Word>, heads: seq<Word>, cs: seq<int>, lists: seq<seq<int>>, zero: set<int>,
                 zero': set<int>, i: nat)
    requires Holds(m, heads, cs, lists, zero) && 2 <= i < |cs| - 1 && Unlisted(lists, cs[i])
    requires forall x :: x != cs[i] ==> (x in zero <==> x in zero')
    ensures Linked(m, cs[i])
    ensures var m' := Remove(m, cs[i]);
      && Holds(m', heads, Without(cs, i), lists, zero')
      && Wrote(m, m', Cells(ToSet(cs), Links(ALL)))
  {
    hide *;
    HoldsParts(m, heads, cs, lists, zero);
    OffsetFacts();
    AllFirst();
    RingRemoveAt(m, cs, ALL, i);
    RemoveWrote(m, cs, ALL, i);
    var m' := Remove(m, cs[i] + ALL);
    FlagsUntouched(m, m', cs, ToSet(cs), Links(ALL), cs, zero);
    FlagsDropped(m', cs, zero, zero', i);
    ListsUntouched(m, m', cs, ToSet(cs), Links(ALL), heads, lists);
    ShelvedDropped(cs, i, lists);
    SameLength(m, m', Cells(ToSet(cs), Links(ALL)));
    DropMemory(m, m', cs, i);
    HoldsMade(m', heads, Without(cs, i), lists, zero');
  }

  lemma AllFirst()
    ensures ALL == 0
  {
  }

  lemma DropMemory(m: seq<Word>, m': seq<Word>, cs: seq<int>, i: nat)
    requires InMemory(m, cs) && 2 <= i < |cs| - 1 && |m'| == |m|
    ensures InMemory(m', Without(cs, i))
  {
    DropTiled(cs, i);
  }

  /** The free node of a chunk is untouched by changes to the ring of all chunks. */
  lemma LoneStep(m: seq<Word>, m': seq<Word>, cs: seq<int>, c: int)
    requires InMemory(m, cs) && c in ToSet(cs) && Ring(m, [c], FREE) && Wrote(m, m', Cells(ToSet(cs), Links(ALL)))
    ensures Ring(m', [c], FREE)
  {
    OffsetFacts();
    SameSetOne(cs, c);
    hide Ring, Wrote, Cells, ToSet, Links, InMemory;
    RingUntouched(m, m', cs, ToSet(cs), Links(ALL), [c], FREE);
  }

  /** Writing the used flag of chunk i. */
  lemma FlagStep(m: seq<Word>, heads: seq<Word>, cs: seq<int>, lists: seq<seq<int>>, zero: set<int>,
                 zero': set<int>, i: nat, v: Word)
    requires Holds(m, heads, cs, lists, zero) && i < |cs|
    requires forall x :: x != cs[i] ==> (x in zero <==> x in zero')
    requires v == if cs[i] in zero' then 0 else 1
    ensures 0 <= cs[i] + USED < |m|
    ensures var m' := m[cs[i] + USED := v];
      && Holds(m', heads, cs, lists, zero')
      && Wrote(m, m', Cells({cs[i]}, {USED}))
  {
    HoldsParts(m, heads, cs, lists, zero);
    OffsetFacts();
    FlagWrite(m, cs, zero, zero', i, v);
    assert {cs[i]} <= ToSet(cs);
    hide *;
    var m' := m[cs[i] + USED := v];
    RingUntouched(m, m', cs, {cs[i]}, {USED}, cs, ALL);
    ListsUntouched(m, m', cs, {cs[i]}, {USED}, heads, lists);
    SameLength(m, m', Cells({cs[i]}, {USED}));
    HoldsMade(m', heads, cs, lists, zero');
  }

  lemma FlagWrite(m: seq<Word>, cs: seq<int>, zero: set<int>, zero': set<int>, i: nat, v: Word)
    requires InMemory(m, cs) && Flags(m, cs, zero) && i < |cs|
    requires forall x :: x != cs[i] ==> (x in zero <==> x in zero')
    requires v == if cs[i] in zero' then 0 else 1
    ensures 0 <= cs[i] + USED < |m|
    ensures var m' := m[cs[i] + USED := v];
      InMemory(m', cs) && Flags(m', cs, zero') && Wrote(m, m', Cells({cs[i]}, {USED}))
  {
    assert cs[i] in {cs[i]} && USED in {USED};
    assert cs[i] + USED in Cells({cs[i]}, {USED});
  }

  /** What the list macros read: the pointer to list k, and the next field of its position j. */
  lemma ListFacts(m: seq<Word>, heads: seq<Word>, cs: seq<int>, lists: seq<seq<int>>, zero: set<int>, k: nat, j: nat)
    requires Holds(m, heads, cs, lists, zero) && k < |lists| && j < |lists[k]|
    ensures |heads| == |lists| == NUM_SIZES
    ensures var s := lists[k];
      && heads[k] == s[0] && (heads[k] == s[j] <==> j == 0) && 0 < s[j] < WORD_RANGE - FREE
      && Linked(m, s[j] + FREE) && s[j] + FREE + 1 < |m|
      && (m[s[j] + FREE] == s[j] + FREE <==> |s| == 1)
      && (j == 0 && |s| > 1 ==> m[s[j] + FREE] == s[1] + FREE && 0 < s[1] < WORD_RANGE - FREE)
  {
    var s := lists[k];
    assert ListAt(m, heads[k], s);
    assert s[j] in ToSet(s);
    ChunkInMemory(m, cs, s[j]);
    if |s| > 1 {
      assert s[1] in ToSet(s);
      ChunkInMemory(m, cs, s[1]);
    }
    RingLinked(m, s, FREE, j);
  }

  lemma PushFacts(m: seq<Word>, heads: seq<Word>, cs: seq<int>, lists: seq<seq<int>>, zero: set<int>, k: nat, c: int)
    requires Holds(m, heads, cs, lists, zero) && k < |lists| && c in ToSet(cs)
    ensures |heads| == |lists| == NUM_SIZES && 0 < c < WORD_RANGE
    ensures heads[k] == 0 <==> lists[k] == []
    ensures lists[k] != [] ==> heads[k] == lists[k][0]
  {
    assert ListAt(m, heads[k], lists[k]);
    ChunkInMemory(m, cs, c);
    if lists[k] != [] {
      assert lists[k][0] in ToSet(lists[k]);
      ChunkInMemory(m, cs, lists[k][0]);
    }
  }

  // ----- Payload -----

  /** The words that belong to the allocator: every header, and the free node of the chunks in free. */
  ghost function Meta(chunks: set<int>, free: set<int>): set<int> {
    Cells(chunks, {0, 1, 2}) + Cells(free, {3, 4})
  }

  lemma MetaWider(chunks: set<int>, free: set<int>, chunks': set<int>, free': set<int>)
    requires chunks <= chunks' && free <= free'
    ensures Meta(chunks, free) <= Meta(chunks', free')
  {
  }

  lemma MetaParts(chunks: set<int>, free: set<int>, some: set<int>)
    requires some <= chunks
    ensures Cells(some, Links(ALL)) <= Meta(chunks, free) && Cells(some, {USED}) <= Meta(chunks, free)
    ensures Cells(free, Links(FREE)) <= Meta(chunks, free)
  {
  }

  /** No word of a block in use belongs to the allocator. */
  lemma PayloadNotMeta(cs: seq<int>, free: set<int>, j: nat, w: int)
    requires Tiled(cs) && free <= ToSet(cs) && j + 1 < |cs| && cs[j] !in free
    requires cs[j] + DATA <= w < cs[j + 1]
    ensures w !in Meta(ToSet(cs), free)
  {
    hide Tiled;
    forall c, a | c in ToSet(cs) && a in OFFSETS && (a < HEADER || c in free)
      ensures c + a != w
    {
      var i :| 0 <= i < |cs| && cs[i] == c;
      WordOfChunk(cs, j, i, w, a);
    }
  }

  lemma WordOfChunk(cs: seq<int>, j: nat, i: nat, w: int, a: int)
    requires Tiled(cs) && j + 1 < |cs| && cs[j] + DATA <= w < cs[j + 1]
    requires i < |cs| && 0 <= a < CHUNK && (a < HEADER || i != j)
    ensures cs[i] + a != w
  {
    assert i < j ==> cs[i] + CHUNK <= cs[j];
    assert j + 1 < i ==> cs[j + 1] + CHUNK <= cs[i];
  }

  ghost predicate SameBetween(m: seq<Word>, m': seq<Word>, lo: int, hi: int) {
    |m| == |m'| && 0 <= lo <= hi <= |m| && m'[lo..hi] == m[lo..hi]
  }

  /** Whatever writes only the allocator's words leaves every block in use as it was. */
  lemma PayloadSafe(m: seq<Word>, m': seq<Word>, cs: seq<int>, free: set<int>, j: nat)
    requires InMemory(m, cs) && Wrote(m, m', Meta(ToSet(cs), free)) && free <= ToSet(cs)
    requires j + 1 < |cs| && cs[j] !in free
    ensures SameBetween(m, m', cs[j] + DATA, cs[j + 1])
  {
    forall w | cs[j] + DATA <= w < cs[j + 1]
      ensures m'[w] == m[w]
    {
      PayloadNotMeta(cs, free, j, w);
    }
  }

  /** Nor does it write outside the region. */
  lemma OutsideSafe(m: seq<Word>, m': seq<Word>, cs: seq<int>, free: set<int>, w: int)
    requires InMemory(m, cs) && Wrote(m, m', Meta(ToSet(cs), free)) && free <= ToSet(cs)
    requires 0 <= w < cs[0] || cs[|cs| - 1] + CHUNK <= w < |m|
    ensures m'[w] == m[w]
  {
    forall c, a | c in ToSet(cs) && a in OFFSETS
      ensures c + a != w
    {
      var i :| 0 <= i < |cs| && cs[i] == c;
      assert cs[0] <= cs[i] <= cs[|cs| - 1];
    }
  }

  /** DLIST_INIT of a chunk that is on no list. */
  lemma InitStep(m: seq<Word>, heads: seq<Word>, cs: seq<int>, lists: seq<seq<int>>, zero: set<int>, c: int)
    requires Holds(m, heads, cs, lists, zero) && c in ToSet(cs) && Unlisted(lists, c)
    ensures Node(m, c + FREE)
    ensures var m' := Init(m, c + FREE);
      Holds(m', heads, cs, lists, zero) && Ring(m', [c], FREE) && Wrote(m, m', Cells({c}, Links(FREE)))
  {
    HoldsParts(m, heads, cs, lists, zero);
    InitWrites(m, cs, c);
    OffsetFacts();
    UnlistedApart(lists, c);
    hide *;
    var m' := Init(m, c + FREE);
    InOne(cs, c);
    RingUntouched(m, m', cs, {c}, Links(FREE), cs, ALL);
    FlagsUntouched(m, m', cs, {c}, Links(FREE), cs, zero);
    ListsUntouched(m, m', cs, {c}, Links(FREE), heads, lists);
    SameLength(m, m', Cells({c}, Links(FREE)));
    MemorySame(m, m', cs);
    HoldsMade(m', heads, cs, lists, zero);
  }

  lemma UnlistedApart(lists: seq<seq<int>>, c: int)
    requires Unlisted(lists, c)
    ensures forall l :: 0 <= l < |lists| ==> ToSet(lists[l]) !! {c}
  {
  }

  lemma InitWrites(m: seq<Word>, cs: seq<int>, c: int)
    requires InMemory(m, cs) && c in ToSet(cs)
    ensures Node(m, c + FREE)
    ensures Wrote(m, Init(m, c + FREE), Cells({c}, Links(FREE))) && Ring(Init(m, c + FREE), [c], FREE)
  {
    ChunkInMemory(m, cs, c);
    assert c in {c} && FREE in Links(FREE) && FREE + 1 in Links(FREE);
    assert c + FREE in Cells({c}, Links(FREE)) && c + (FREE + 1) in Cells({c}, Links(FREE));
    LoneRing(Init(m, c + FREE), c, FREE);
  }

  lemma LoneRing(m: seq<Word>, c: int, off: int)
    requires Edge(m, c + off, c + off)
    ensures Ring(m, [c], off)
  {
  }

  // ----- Reading the structure -----

  /** The neighbours, the size and the flag of chunk i. */
  lemma ChunkFacts(m: seq<Word>, heads: seq<Word>, cs: seq<int>, lists: seq<seq<int>>, zero: set<int>, i: nat)
    requires Holds(m, heads, cs, lists, zero) && i < |cs|
    ensures |heads| == |lists| == NUM_SIZES
    ensures 0 < cs[i] && cs[i] + CHUNK <= |m| <= MEM_WORDS
    ensures i + 1 < |cs| ==>
      m[cs[i]] == cs[i + 1] && SizeOf(cs, cs[i]) == Size(cs, i) == 4 * (m[cs[i]] - cs[i] - HEADER)
    ensures i + 1 < |cs| ==> MIN_SIZE <= Size(cs, i) < WORD_RANGE
    ensures i + 1 < |cs| ==> SlotOf(cs, cs[i]) == Slot(Size(cs, i)) && 0 <= SlotOf(cs, cs[i]) < NUM_SIZES
    ensures i > 0 ==> m[cs[i] + 1] == cs[i - 1]
    ensures m[cs[i] + USED] == 0 <==> cs[i] in zero
  {
    assert cs[i] in ToSet(cs);
    ChunkInMemory(m, cs, cs[i]);
    RingLinked(m, cs, ALL, i);
    ChunkAt(cs, i);
  }

  lemma MetaTrans(m: seq<Word>, m1: seq<Word>, m2: seq<Word>, chunks: set<int>, free: set<int>)
    requires Wrote(m, m1, Meta(chunks, free)) && Wrote(m1, m2, Meta(chunks, free))
    ensures Wrote(m, m2, Meta(chunks, free))
  {
  }

  lemma MetaOfLinks(m: seq<Word>, m': seq<Word>, chunks: set<int>, some: set<int>, free: set<int>)
    requires Wrote(m, m', Cells(some, Links(FREE))) && some <= free
    ensures Wrote(m, m', Meta(chunks, free))
  {
    MetaParts(chunks, some, {});
    MetaWider(chunks, some, chunks, free);
  }

  lemma MetaOfAll(m: seq<Word>, m': seq<Word>, chunks: set<int>, some: set<int>, free: set<int>)
    requires Wrote(m, m', Cells(some, Links(ALL))) && some <= chunks
    ensures Wrote(m, m', Meta(chunks, free))
  {
    MetaParts(chunks, free, some);
  }

  lemma MetaOfFlag(m: seq<Word>, m': seq<Word>, chunks: set<int>, c: int, free: set<int>)
    requires Wrote(m, m', Cells({c}, {USED})) && c in chunks
    ensures Wrote(m, m', Meta(chunks, free))
  {
    MetaParts(chunks, free, {c});
  }

  /** A merge with the chunk before: off its list, out of the ring, onto a list. */
  lemma MergeWrote(m: seq<Word>, m1: seq<Word>, m2: seq<Word>, m3: seq<Word>, chunks: set<int>, from: set<int>,
                   c: int, to: set<int>, free: set<int>)
    requires Wrote(m, m1, Cells(from, Links(FREE))) && Wrote(m1, m2, Cells(chunks, Links(ALL)))
    requires Wrote(m2, m3, Cells(to + {c}, Links(FREE))) && from <= free && to <= free && c in free
    ensures Wrote(m, m3, Meta(chunks, free))
  {
    hide *;
    MetaOfLinks(m, m1, chunks, from, free);
    MetaOfAll(m1, m2, chunks, chunks, free);
    MetaTrans(m, m1, m2, chunks, free);
    MetaOfLinks(m2, m3, chunks, to + {c}, free);
    MetaTrans(m, m2, m3, chunks, free);
  }

  /** All chunks on lists are in free. */
  ghost predicate ListedIn(lists: seq<seq<int>>, free: set<int>) {
    forall l :: 0 <= l < |lists| ==> ToSet(lists[l]) <= free
  }

  lemma ListedAt(lists: seq<seq<int>>, free: set<int>, l: nat)
    requires ListedIn(lists, free) && l < |lists|
    ensures ToSet(lists[l]) <= free
  {
  }

  lemma RemovedListed(lists: seq<seq<int>>, free: set<int>, l: nat, c: int)
    requires ListedIn(lists, free) && l < |lists| && NoDup(lists[l])
    ensures ListedIn(lists[l := Removed(lists[l], c)], free)
  {
    RemovedItems(lists[l], c);
    RemovedSubset(lists[l], c);
  }

  lemma RemovedSubset(s: seq<int>, c: int)
    requires NoDup(s)
    ensures ToSet(Removed(s, c)) <= ToSet(s)
  {
    RemovedItems(s, c);
    var r := Removed(s, c);
    forall x | x in ToSet(r)
      ensures x in ToSet(s)
    {
      var i :| 0 <= i < |r| && r[i] == x;
      assert x in r;
      assert x in s;
      var j :| 0 <= j < |s| && s[j] == x;
    }
  }

  /** A chunk taken off its list is on no list, and no other chunk was put on one. */
  lemma RemovedUnlisted(m: seq<Word>, heads: seq<Word>, cs: seq<int>, lists: seq<seq<int>>, zero: set<int>, l: nat,
                        c: int, free: set<int>)
    requires Holds(m, heads, cs, lists, zero) && l < |lists| && c in lists[l] && ListedIn(lists, free)
    ensures var lists' := lists[l := Removed(lists[l], c)];
      && Unlisted(lists', c) && ListedIn(lists', free)
      && forall d :: Unlisted(lists, d) ==> Unlisted(lists', d)
  {
    RemovedItems(lists[l], c);
    RemovedSubset(lists[l], c);
    RemovedListed(lists, free, l, c);
    assert c in ToSet(lists[l]);
    RemovedNot(lists[l], c);
  }

  lemma RemovedNot(s: seq<int>, c: int)
    requires NoDup(s)
    ensures c !in ToSet(Removed(s, c))
  {
    RemovedItems(s, c);
  }

  /** A split: a chunk made, put into the ring and onto a list. */
  lemma CutWrote(m: seq<Word>, m1: seq<Word>, m2: seq<Word>, m3: seq<Word>, chunks: set<int>, c: int, to: set<int>,
                 free: set<int>)
    requires Wrote(m, m1, Cells({c}, OFFSETS)) && Wrote(m1, m2, Cells(chunks, Links(ALL)))
    requires Wrote(m2, m3, Cells(to + {c}, Links(FREE))) && c in chunks && to <= free && c in free
    ensures Wrote(m, m3, Meta(chunks, free))
  {
    hide *;
    MetaOfChunk(m, m1, chunks, c, free);
    MetaOfAll(m1, m2, chunks, chunks, free);
    MetaTrans(m, m1, m2, chunks, free);
    MetaOfLinks(m2, m3, chunks, to + {c}, free);
    MetaTrans(m, m2, m3, chunks, free);
  }

  lemma MetaOfChunk(m: seq<Word>, m': seq<Word>, chunks: set<int>, c: int, free: set<int>)
    requires Wrote(m, m', Cells({c}, OFFSETS)) && c in chunks && c in free
    ensures Wrote(m, m', Meta(chunks, free))
  {
    forall w | w in Cells({c}, OFFSETS)
      ensures w in Meta(chunks, free)
    {
      var a :| a in OFFSETS && w == c + a;
      if a < HEADER {
        assert c + a in Cells(chunks, {0, 1, 2});
      } else {
        assert c + a in Cells(free, {3, 4});
      }
    }
  }

  lemma HeadFact(m: seq<Word>, heads: seq<Word>, cs: seq<int>, lists: seq<seq<int>>, zero: set<int>, k: nat)
    requires Holds(m, heads, cs, lists, zero) && k < NUM_SIZES
    ensures |heads| == |lists| == NUM_SIZES && (heads[k] == 0 <==> lists[k] == [])
  {
    if lists[k] != [] {
      ListFacts(m, heads, cs, lists, zero, k, 0);
    } else {
      assert ListAt(m, heads[k], lists[k]);
    }
  }

  lemma SpliceFacts(cs: seq<int>, i: nat, c: int)
    requires i < |cs|
    ensures var r := Spliced(cs, i, [c]);
      i + 1 < |r| && r[i + 1] == c && (i + 1 < |cs| ==> i + 2 < |r|) && c in ToSet(r) && ToSet(cs) <= ToSet(r)
  {
    SpliceSet(cs, i, c);
    SplicedItem(cs, i, [c], i + 1);
  }
}
