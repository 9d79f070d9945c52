/** The exact law of the three counters mem_free, mem_used and mem_meta. */
module Ledger {
  import opened Words
  import opened DList
  import opened HeapSpec

  /** The bytes in the chunks that start in t, up to its last element, and that are free (want)
      or not (!want). */
  ghost function Held(t: seq<int>, free: set<int>, want: bool): int {
    if |t| < 2 then 0
    else (if (t[0] in free) == want then 4 * (t[1] - t[0] - HEADER) else 0) + Held(t[1..], free, want)
  }

  ghost function FreeBytes(h: Heap): int
    requires |h.cs| > 0
  {
    Held(h.cs[1..], h.free, true)
  }

  ghost function UsedBytes(h: Heap): int
    requires |h.cs| > 0
  {
    Held(h.cs[1..], h.free, false)
  }

  lemma {:induction false} HeldConcat(a: seq<int>, x: int, b: seq<int>, free: set<int>, want: bool)
    ensures Held(a + [x] + b, free, want) == Held(a + [x], free, want) + Held([x] + b, free, want)
  {
    if a == [] {
      assert a + [x] + b == [x] + b && a + [x] == [x];
    } else {
      HeldConcat(a[1..], x, b, free, want);
      assert (a + [x] + b)[1..] == a[1..] + [x] + b && (a + [x])[1..] == a[1..] + [x];
    }
  }

  lemma {:induction false} HeldFrame(t: seq<int>, free: set<int>, free': set<int>, want: bool)
    requires forall i :: 0 <= i < |t| - 1 ==> (t[i] in free <==> t[i] in free')
    ensures Held(t, free, want) == Held(t, free', want)
  {
    if |t| >= 2 {
      HeldFrame(t[1..], free, free', want);
    }
  }

  /** One chunk's contribution. */
  lemma HeldAt(t: seq<int>, i: nat, free: set<int>, want: bool)
    requires i + 1 < |t|
    ensures Held(t, free, want) == Held(t[..i + 1], free, want)
      + (if (t[i] in free) == want then 4 * (t[i + 1] - t[i] - HEADER) else 0)
      + Held(t[i + 1..], free, want)
  {
    assert t == t[..i] + [t[i]] + t[i + 1..] && t[..i] + [t[i]] == t[..i + 1];
    HeldConcat(t[..i], t[i], t[i + 1..], free, want);
    assert ([t[i]] + t[i + 1..])[1..] == t[i + 1..];
  }

  ghost predicate Increasing(t: seq<int>) {
    forall i, j :: 0 <= i < j < |t| ==> t[i] < t[j]
  }

  /** Chunk i changes from used to free. */
  lemma HeldMark(t: seq<int>, i: nat, free: set<int>)
    requires Increasing(t) && i + 1 < |t| && t[i] !in free
    ensures Held(t, free + {t[i]}, true) == Held(t, free, true) + 4 * (t[i + 1] - t[i] - HEADER)
    ensures Held(t, free + {t[i]}, false) == Held(t, free, false) - 4 * (t[i + 1] - t[i] - HEADER)
  {
    HeldFrame(t[..i + 1], free, free + {t[i]}, true);
    HeldFrame(t[..i + 1], free, free + {t[i]}, false);
    HeldFrame(t[i + 1..], free, free + {t[i]}, true);
    HeldFrame(t[i + 1..], free, free + {t[i]}, false);
    HeldAt(t, i, free, true);
    HeldAt(t, i, free, false);
    HeldAt(t, i, free + {t[i]}, true);
    HeldAt(t, i, free + {t[i]}, false);
  }

  /** A used chunk splits in two, both used: one header's bytes are gone. */
  lemma HeldSplit(t: seq<int>, i: nat, c: int, free: set<int>)
    requires i + 1 < |t| && t[i] !in free && c !in free
    ensures Held(Spliced(t, i, [c]), free, true) == Held(t, free, true)
    ensures Held(Spliced(t, i, [c]), free, false) == Held(t, free, false) - HEADER_SIZE
  {
    var r := Spliced(t, i, [c]);
    assert r[..i + 1] == t[..i + 1] && r[i + 1..] == [c] + t[i + 1..] && r[i + 1..][1..] == t[i + 1..];
    HeldAt(t, i, free, true);
    HeldAt(t, i, free, false);
    HeldAt(r, i, free, true);
    HeldAt(r, i, free, false);
  }

  /** All the bytes between the first and the last chunk of t are held or are headers. */
  lemma {:induction false} HeldTotal(t: seq<int>, free: set<int>)
    requires |t| > 0
    ensures Held(t, free, true) + Held(t, free, false) + HEADER_SIZE * (|t| - 1) == 4 * (t[|t| - 1] - t[0])
  {
    if |t| > 1 {
      HeldTotal(t[1..], free);
    }
  }

  /** mem_free as the law has it: one header short for each chunk, for each free chunk and for each
      malloc that did not split, but one. */
  ghost function FreeDue(h: Heap): int
    requires |h.cs| > 1
  {
    FreeBytes(h) - HEADER_SIZE * (|h.cs| - 2 + |h.free| + h.unsplit - 1)
  }

  /** And mem_used, when `open` bytes that are in used chunks are left out. */
  ghost function UsedDue(h: Heap, open: int): int
    requires |h.cs| > 1
  {
    UsedBytes(h) - HEADER_SIZE * h.unsplit - open
  }

  /** And mem_meta: two sentinels and a header for every other chunk. */
  ghost function MetaDue(h: Heap): int {
    2 * CHUNK_SIZE + HEADER_SIZE * (|h.cs| - 2)
  }

  /** The law of the counters, when `open` bytes that are in used chunks are not in mem_used
      because the call that releases or hands out their chunk is still at work. */
  ghost predicate Account(h: Heap, open: int) {
    && |h.cs| > 1
    && h.memMeta == Wrap(MetaDue(h))
    && h.memUsed == Wrap(UsedDue(h, open))
    && h.memFree == Wrap(FreeDue(h))
  }

  /** The law between calls.  With c chunks between the sentinels, k of them free, and M calls of
      malloc so far that did not split, mem_meta counts the two sentinels and c headers, mem_used
      is M headers short of the bytes in use, and mem_free is c + k + M - 1 headers short of the
      free bytes. */
  ghost predicate Balanced(h: Heap) {
    Account(h, 0)
  }

  lemma WrapShift(x: int, d: int)
    ensures Wrap(Wrap(x) + d) == Wrap(x + d)
  {
  }

  lemma ShiftTo(w: Word, x: int, d: int, y: int)
    requires w == Wrap(x) && y == x + d
    ensures Wrap(w + d) == Wrap(y)
  {
    WrapShift(x, d);
  }

  lemma TiledTail(cs: seq<int>)
    requires Tiled(cs)
    ensures Increasing(cs[1..])
  {
  }

  /** remove_free moves a chunk's bytes from the free account to no account. */
  lemma AccountRemove(h: Heap, open: int, i: nat)
    requires Account(h, open) && Tiled(h.cs) && 1 <= i < |h.cs| - 1 && h.cs[i] in h.free
    ensures Account(h.(free := h.free - {h.cs[i]}, memFree := Wrap(h.memFree - (Size(h.cs, i) - HEADER_SIZE))),
                    open + Size(h.cs, i))
  {
    hide Tiled, Wrap, Held;
    var c, d := h.cs[i], -(Size(h.cs, i) - HEADER_SIZE);
    var h' := h.(free := h.free - {c}, memFree := Wrap(h.memFree + d));
    TiledTail(h.cs);
    HeldMark(h.cs[1..], i - 1, h.free - {c});
    assert h.free - {c} + {c} == h.free && |h'.free| == |h.free| - 1;
    ShiftTo(h.memFree, FreeDue(h), d, FreeDue(h'));
    assert UsedDue(h', open + Size(h.cs, i)) == UsedDue(h, open);
  }

  /** push_free moves a chunk's bytes from no account to the free account. */
  lemma AccountPush(h: Heap, open: int, i: nat)
    requires Account(h, open) && Tiled(h.cs) && 1 <= i < |h.cs| - 1 && h.cs[i] !in h.free
    ensures Account(h.(free := h.free + {h.cs[i]}, memFree := Wrap(h.memFree + (Size(h.cs, i) - HEADER_SIZE))),
                    open - Size(h.cs, i))
  {
    hide Tiled, Wrap, Held;
    var d := Size(h.cs, i) - HEADER_SIZE;
    var h' := h.(free := h.free + {h.cs[i]}, memFree := Wrap(h.memFree + d));
    TiledTail(h.cs);
    HeldMark(h.cs[1..], i - 1, h.free);
    assert |h'.free| == |h.free| + 1;
    ShiftTo(h.memFree, FreeDue(h), d, FreeDue(h'));
    assert UsedDue(h', open - Size(h.cs, i)) == UsedDue(h, open);
  }

  lemma MergedBack(cs: seq<int>, i: nat)
    requires 2 <= i < |cs| - 1
    ensures var t := Without(cs, i);
      |t| == |cs| - 1 && t[1..][i - 2] == cs[i - 1] && Spliced(t[1..], i - 2, [cs[i]]) == cs[1..]
  {
    var t := Without(cs, i)[1..];
    assert t[..i - 1] == cs[1..i] && t[i - 1..] == cs[i + 1..];
    assert cs[1..] == cs[1..i] + [cs[i]] + cs[i + 1..];
  }

  /** Merging chunk i into its predecessor gives a header back. */
  lemma AccountMerge(h: Heap, open: int, i: nat)
    requires Account(h, open) && Tiled(h.cs) && 2 <= i < |h.cs| - 1 && h.cs[i] !in h.free && h.cs[i - 1] !in h.free
    ensures Account(h.(cs := Without(h.cs, i), memMeta := Wrap(h.memMeta - HEADER_SIZE),
                       memFree := Wrap(h.memFree + HEADER_SIZE)), open + HEADER_SIZE)
  {
    hide Tiled, Wrap, Held, Spliced, Without;
    var h' := h.(cs := Without(h.cs, i), memMeta := Wrap(h.memMeta - HEADER_SIZE),
                 memFree := Wrap(h.memFree + HEADER_SIZE));
    MergedBack(h.cs, i);
    HeldSplit(h'.cs[1..], i - 2, h.cs[i], h.free);
    ShiftTo(h.memFree, FreeDue(h), HEADER_SIZE, FreeDue(h'));
    ShiftTo(h.memMeta, MetaDue(h), -HEADER_SIZE, MetaDue(h'));
    assert UsedDue(h', open + HEADER_SIZE) == UsedDue(h, open);
  }

  /** Splitting a chunk takes a header away. */
  lemma AccountSplit(h: Heap, open: int, i: nat, c: int)
    requires Account(h, open) && 1 <= i < |h.cs| - 1 && h.cs[i] !in h.free && c !in h.free
    ensures Account(h.(cs := Spliced(h.cs, i, [c]), memMeta := Wrap(h.memMeta + HEADER_SIZE),
                       memFree := Wrap(h.memFree - HEADER_SIZE)), open - HEADER_SIZE)
  {
    hide Wrap, Held;
    var h' := h.(cs := Spliced(h.cs, i, [c]), memMeta := Wrap(h.memMeta + HEADER_SIZE),
                 memFree := Wrap(h.memFree - HEADER_SIZE));
    assert h'.cs[1..] == Spliced(h.cs[1..], i - 1, [c]);
    HeldSplit(h.cs[1..], i - 1, c, h.free);
    ShiftTo(h.memFree, FreeDue(h), -HEADER_SIZE, FreeDue(h'));
    ShiftTo(h.memMeta, MetaDue(h), HEADER_SIZE, MetaDue(h'));
    assert UsedDue(h', open - HEADER_SIZE) == UsedDue(h, open);
  }

  /** Sizes, headers and sentinels make up the whole region: while chunks come and go, the bytes
      in free chunks, the bytes in used chunks and mem_meta always add up to its length. */
  lemma RegionConserved(h: Heap)
    requires Tiled(h.cs) && Balanced(h)
    ensures FreeBytes(h) + UsedBytes(h) + h.memMeta == 4 * (h.cs[|h.cs| - 1] + CHUNK - h.cs[0])
  {
    HeldTotal(h.cs[1..], h.free);
    ManyChunks(h.cs, |h.cs| - 1);
  }

  lemma {:induction false} ManyChunks(cs: seq<int>, i: nat)
    requires Tiled(cs) && i < |cs|
    ensures CHUNK * i < cs[i]
  {
    if i > 0 {
      ManyChunks(cs, i - 1);
    }
  }
}
