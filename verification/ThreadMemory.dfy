/** Thread descriptors and stacks in a word memory, and what switching and creating threads does to them
    (Thread_stubs.c:10-24, 66-97, 229-291 and boot.S:264-281).

    A descriptor takes twelve words: next, prev, top_of_stack, the eight saved variables of the OCaml
    runtime in the order of the struct, and the saved stack pointer. */
module ThreadMemory {
  import opened Words
  import opened DList
  import C = Coroutines

  const TOP: int := 2
  const SAVED: int := 3
  const STACK: int := 11
  const DESCRIPTOR: int := 12

  /** r4-r12 and lr, and below them on the stack d8-d15. */
  const CORE_WORDS: int := 10
  const VFP_WORDS: int := 16
  const FRAME: int := 26

  /** The frame of a thread that was not started: r0-r3 and lr for starter_stub follow. */
  const START_FRAME: int := 31

  /** THREAD_STACK_SIZE / sizeof(uint32_t). */
  const STACK_WORDS: int := 262144

  const VAL_UNIT: Word := 1

  /** The addresses that lr can hold on a stack: in schedule after its call of switch_thread, starter_stub,
      and starter. */
  datatype Code = Code(afterSwitch: Word, stub: Word, starter: Word) {
    predicate Distinct() {
      afterSwitch != stub && afterSwitch != starter && stub != starter
    }
  }

  /** The functions that ocaml_thread_init hooks into the channel mutexes. */
  datatype MutexHooks = MutexHooks(free: Word, lock: Word, unlock: Word, unlockExn: Word)

  /** The words [lo, hi) that a thread's stack may use. */
  datatype Region = Region(lo: int, hi: int)

  predicate Separate(lo: int, hi: int, lo': int, hi': int) {
    hi <= lo' || hi' <= lo
  }

  // ----- Where things are -----

  /** The descriptor and the stack of a thread lie in a memory of n words and do not overlap. */
  predicate Placed(n: int, d: int, stacks: map<int, Region>) {
    && 0 < d && d + DESCRIPTOR <= n && d in stacks
    && 0 <= stacks[d].lo <= stacks[d].hi <= n
    && Separate(stacks[d].lo, stacks[d].hi, d, d + DESCRIPTOR)
  }

  /** Nor do those of two threads. */
  predicate Disjoint(d: int, e: int, stacks: map<int, Region>) {
    && d in stacks && e in stacks
    && Separate(d, d + DESCRIPTOR, e, e + DESCRIPTOR)
    && Separate(stacks[d].lo, stacks[d].hi, stacks[e].lo, stacks[e].hi)
    && Separate(stacks[d].lo, stacks[d].hi, e, e + DESCRIPTOR)
    && Separate(stacks[e].lo, stacks[e].hi, d, d + DESCRIPTOR)
  }

  ghost predicate Layout(n: int, ring: seq<int>, stacks: map<int, Region>) {
    && n <= MEM_WORDS
    && (forall i :: 0 <= i < |ring| ==> Placed(n, ring[i], stacks))
    && (forall i, j :: 0 <= i < |ring| && 0 <= j < |ring| && i != j ==> Disjoint(ring[i], ring[j], stacks))
  }

  /** A thread that does not run: its saved stack pointer leads to a frame of switch_thread in its own
      stack, which resumes it in schedule or starts it with its own descriptor. */
  predicate Suspended(m: seq<Word>, d: int, stack: Region, code: Code) {
    && 0 < d && d + DESCRIPTOR <= |m| && 0 <= stack.lo <= stack.hi <= |m|
    && var s := m[d + STACK];
       && stack.lo <= s && s + FRAME <= stack.hi
       && (m[s + 9] == code.afterSwitch || Unstarted(m, d, stack, code))
  }

  /** One that was built and has not run: there is no stack of it to scan yet. */
  predicate Unstarted(m: seq<Word>, d: int, stack: Region, code: Code)
    requires 0 < d && d + DESCRIPTOR <= |m| && 0 <= stack.lo <= stack.hi <= |m|
    requires stack.lo <= m[d + STACK] && m[d + STACK] + FRAME <= stack.hi
  {
    var s := m[d + STACK];
    && s + START_FRAME == stack.hi && m[s + 9] == code.stub && m[s + FRAME] == d && m[s + 30] == code.starter
    && m[d + SAVED] == 0
  }

  /** What such a thread will find. */
  function Saved(m: seq<Word>, d: int, stack: Region, code: Code): C.Context
    requires Suspended(m, d, stack, code)
  {
    var s := m[d + STACK];
    var top := if m[s + 9] == code.afterSwitch then s + FRAME else s + START_FRAME;
    C.Context(m[s..s + 9], m[s + CORE_WORDS..s + FRAME], top, m[d + SAVED..d + STACK], m[top..stack.hi])
  }

  /** The threads of a ring of which the first one runs. */
  ghost predicate Threads(m: seq<Word>, ring: seq<int>, stacks: map<int, Region>, code: Code) {
    && |ring| > 0 && Ring(m, ring, 0) && Layout(|m|, ring, stacks)
    && forall j :: 1 <= j < |ring| ==> Suspended(m, ring[j], stacks[ring[j]], code)
  }

  /** What they amount to. */
  ghost function Abstract(m: seq<Word>, ring: seq<int>, stacks: map<int, Region>, code: Code,
                          live: C.Context): (c: C.State)
    requires Threads(m, ring, stacks, code)
    ensures c.ring == ring
  {
    C.State(ring, map t | t in ring :: if t == ring[0] then live else
      assert exists j :: 1 <= j < |ring| && ring[j] == t;
      Saved(m, t, stacks[t], code))
  }

  // ----- Frames -----

  /** Only words in [lo, hi) and [lo', hi') differ. */
  ghost predicate SameOutside(m: seq<Word>, m': seq<Word>, lo: int, hi: int, lo': int, hi': int) {
    |m'| == |m| &&
    forall w :: 0 <= w < |m| && !(lo <= w < hi) && !(lo' <= w < hi') ==> m'[w] == m[w]
  }

  /** A thread is not touched by writes outside its descriptor and its stack. */
  lemma OtherKept(m: seq<Word>, m': seq<Word>, lo: int, hi: int, lo': int, hi': int, t: int, stack: Region, code: Code)
    requires SameOutside(m, m', lo, hi, lo', hi') && Suspended(m, t, stack, code)
    requires Separate(lo, hi, t, t + DESCRIPTOR) && Separate(lo', hi', t, t + DESCRIPTOR)
    requires Separate(lo, hi, stack.lo, stack.hi) && Separate(lo', hi', stack.lo, stack.hi)
    ensures Suspended(m', t, stack, code) && Saved(m', t, stack, code) == Saved(m, t, stack, code)
  {
    SameSaved(m, m', t, stack, code);
  }

  /** What is saved depends on these words only. */
  lemma SameSaved(m: seq<Word>, m': seq<Word>, t: int, stack: Region, code: Code)
    requires |m| == |m'| && Suspended(m, t, stack, code)
    requires forall w :: t + SAVED <= w < t + DESCRIPTOR || stack.lo <= w < stack.hi ==> m'[w] == m[w]
    ensures Suspended(m', t, stack, code) && Saved(m', t, stack, code) == Saved(m, t, stack, code)
  {
    var s := m[t + STACK];
    var top := if m[s + 9] == code.afterSwitch then s + FRAME else s + START_FRAME;
    SameWords(m, m', s, s + 9);
    SameWords(m, m', s + CORE_WORDS, s + FRAME);
    SameWords(m, m', t + SAVED, t + STACK);
    SameWords(m, m', top, stack.hi);
  }

  lemma SameWords(m: seq<Word>, m': seq<Word>, lo: int, hi: int)
    requires 0 <= lo <= hi <= |m| == |m'| && forall w :: lo <= w < hi ==> m'[w] == m[w]
    ensures m'[lo..hi] == m[lo..hi]
  {
  }

  lemma RingKept(m: seq<Word>, m': seq<Word>, ring: seq<int>, lo: int, hi: int, lo': int, hi': int)
    requires Ring(m, ring, 0) && SameOutside(m, m', lo, hi, lo', hi')
    requires forall j :: 0 <= j < |ring| ==>
      Separate(lo, hi, ring[j], ring[j] + 2) && Separate(lo', hi', ring[j], ring[j] + 2)
    ensures Ring(m', ring, 0)
  {
    forall j | 0 <= j < |ring|
      ensures Node(m, ring[j]) && m'[ring[j]] == m[ring[j]] && m'[ring[j] + 1] == m[ring[j] + 1]
    {
      assert Separate(lo, hi, ring[j], ring[j] + 2);
      assert Edge(m, ring[j] + 0, ring[After(j, |ring|)] + 0);
    }
    assert SameNodes(m, m', ring, 0);
    RingFrame(m, m', ring, 0);
  }

  // ----- Storing words -----

  /** m with the words ws from address at on. */
  function Put(m: seq<Word>, at: int, ws: seq<Word>): (m': seq<Word>)
    requires 0 <= at && at + |ws| <= |m|
    ensures |m'| == |m|
  {
    m[..at] + ws + m[at + |ws|..]
  }

  lemma PutAt(m: seq<Word>, at: int, ws: seq<Word>, w: int)
    requires 0 <= at && at + |ws| <= |m| && 0 <= w < |m|
    ensures Put(m, at, ws)[w] == if at <= w < at + |ws| then ws[w - at] else m[w]
  {
  }

  lemma PutAll(m: seq<Word>, at: int, ws: seq<Word>)
    returns (m': seq<Word>)
    requires 0 <= at && at + |ws| <= |m|
    ensures m' == Put(m, at, ws)
    ensures forall w :: 0 <= w < |m| ==> m'[w] == if at <= w < at + |ws| then ws[w - at] else m[w]
  {
    m' := Put(m, at, ws);
  }

  /** The memory after a running thread d was switched out. */
  function SwitchOut(m: seq<Word>, d: int, sp: int, core: seq<Word>, vfp: seq<Word>, globals: seq<Word>)
    : (m': seq<Word>)
    requires |core| == CORE_WORDS && |vfp| == VFP_WORDS && |globals| == 8
    requires 0 <= d && d + DESCRIPTOR <= |m| && FRAME <= sp <= |m| <= MEM_WORDS
    ensures |m'| == |m|
  {
    var m1 := Put(m, d + SAVED, globals);
    var m2 := Put(m1, sp - VFP_WORDS, vfp);
    var m3 := Put(m2, sp - FRAME, core);
    Put(m3, d + STACK, [sp - FRAME])
  }

  /** Word w of that memory, when descriptor and stack do not overlap. */
  function Switched(m: seq<Word>, d: int, sp: int, core: seq<Word>, vfp: seq<Word>, globals: seq<Word>, w: int): Word
    requires |core| == CORE_WORDS && |vfp| == VFP_WORDS && |globals| == 8
    requires 0 <= d && d + DESCRIPTOR <= |m| && FRAME <= sp <= |m| <= MEM_WORDS && 0 <= w < |m|
  {
    if w == d + STACK then sp - FRAME
    else if d + SAVED <= w < d + STACK then globals[w - (d + SAVED)]
    else if sp - FRAME <= w < sp - VFP_WORDS then core[w - (sp - FRAME)]
    else if sp - VFP_WORDS <= w < sp then vfp[w - (sp - VFP_WORDS)]
    else m[w]
  }

  lemma SwitchedWord(m: seq<Word>, d: int, sp: int, core: seq<Word>, vfp: seq<Word>, globals: seq<Word>, w: int)
    requires |core| == CORE_WORDS && |vfp| == VFP_WORDS && |globals| == 8
    requires 0 < d && d + DESCRIPTOR <= |m| <= MEM_WORDS && FRAME <= sp <= |m| && 0 <= w < |m|
    requires Separate(sp - FRAME, sp, d, d + DESCRIPTOR)
    ensures SwitchOut(m, d, sp, core, vfp, globals)[w] == Switched(m, d, sp, core, vfp, globals, w)
  {
    hide Put;
    var m1 := Put(m, d + SAVED, globals);
    var m2 := Put(m1, sp - VFP_WORDS, vfp);
    var m3 := Put(m2, sp - FRAME, core);
    PutAt(m, d + SAVED, globals, w);
    PutAt(m1, sp - VFP_WORDS, vfp, w);
    PutAt(m2, sp - FRAME, core, w);
    PutAt(m3, d + STACK, [sp - FRAME], w);
  }

  lemma SwitchedWords(m: seq<Word>, d: int, sp: int, core: seq<Word>, vfp: seq<Word>, globals: seq<Word>)
    returns (m': seq<Word>)
    requires |core| == CORE_WORDS && |vfp| == VFP_WORDS && |globals| == 8
    requires 0 < d && d + DESCRIPTOR <= |m| <= MEM_WORDS && FRAME <= sp <= |m|
    requires Separate(sp - FRAME, sp, d, d + DESCRIPTOR)
    ensures m' == SwitchOut(m, d, sp, core, vfp, globals) && |m'| == |m|
    ensures SameOutside(m, m', d + SAVED, d + DESCRIPTOR, sp - FRAME, sp) && m'[d] == m[d]
    ensures m'[d + STACK] == sp - FRAME && m'[d + SAVED..d + STACK] == globals
    ensures m'[sp - FRAME..sp - FRAME + CORE_WORDS] == core && m'[sp - FRAME + CORE_WORDS..sp] == vfp
  {
    hide SwitchOut;
    m' := SwitchOut(m, d, sp, core, vfp, globals);
    forall w | 0 <= w < |m|
      ensures m'[w] == Switched(m, d, sp, core, vfp, globals, w)
    {
      SwitchedWord(m, d, sp, core, vfp, globals, w);
    }
    Holding(m', d + SAVED, globals);
    Holding(m', sp - FRAME, core);
    Holding(m', sp - VFP_WORDS, vfp);
  }

  lemma Holding(m: seq<Word>, at: int, ws: seq<Word>)
    requires 0 <= at && at + |ws| <= |m| && forall w :: at <= w < at + |ws| ==> m[w] == ws[w - at]
    ensures m[at..at + |ws|] == ws
  {
  }

  /** It is then suspended with the context that it had. */
  lemma SwitchedOut(m: seq<Word>, d: int, sp: int, core: seq<Word>, vfp: seq<Word>, globals: seq<Word>,
                    stack: Region, code: Code)
    requires |core| == CORE_WORDS && |vfp| == VFP_WORDS && |globals| == 8 && core[9] == code.afterSwitch
    requires 0 < d && d + DESCRIPTOR <= |m| <= MEM_WORDS
    requires 0 <= stack.lo <= sp - FRAME && sp <= stack.hi <= |m| && Separate(stack.lo, stack.hi, d, d + DESCRIPTOR)
    ensures var m' := SwitchOut(m, d, sp, core, vfp, globals);
      && SameOutside(m, m', d + SAVED, d + DESCRIPTOR, sp - FRAME, sp) && m'[d] == m[d]
      && Suspended(m', d, stack, code)
      && Saved(m', d, stack, code) == C.Context(core[..9], vfp, sp, globals, m[sp..stack.hi])
  {
    hide SwitchOut, SameOutside;
    var m' := SwitchedWords(m, d, sp, core, vfp, globals);
    var s := sp - FRAME;
    CoreParts(m', s, core);
    KeptAbove(m, m', d, sp, stack);
  }

  /** The ten core words of a frame: r4-r12 and the code address. */
  lemma CoreParts(m: seq<Word>, s: int, core: seq<Word>)
    requires 0 <= s && s + CORE_WORDS <= |m| && |core| == CORE_WORDS && m[s..s + CORE_WORDS] == core
    ensures m[s..s + 9] == core[..9] && m[s + 9] == core[9]
  {
    assert m[s..s + 9] == m[s..s + CORE_WORDS][..9];
    assert m[s + 9] == m[s..s + CORE_WORDS][9];
  }

  lemma KeptAbove(m: seq<Word>, m': seq<Word>, d: int, sp: int, stack: Region)
    requires SameOutside(m, m', d + SAVED, d + DESCRIPTOR, sp - FRAME, sp)
    requires Separate(stack.lo, stack.hi, d, d + DESCRIPTOR)
    requires 0 <= stack.lo <= sp <= stack.hi <= |m|
    ensures m'[sp..stack.hi] == m[sp..stack.hi]
  {
  }

  // ----- A switch of threads -----

  /** Switching out the running thread keeps the other ones and leaves it with the context it had. */
  lemma SwitchedThread(m: seq<Word>, m': seq<Word>, ring: seq<int>, stacks: map<int, Region>, code: Code,
                       live: C.Context, j: nat)
    requires Threads(m, ring, stacks, code) && j < |ring|
    requires stacks[ring[0]].lo <= live.sp - FRAME && live.sp <= stacks[ring[0]].hi
    requires SameOutside(m, m', ring[0] + SAVED, ring[0] + DESCRIPTOR, live.sp - FRAME, live.sp)
    requires Suspended(m', ring[0], stacks[ring[0]], code) && Saved(m', ring[0], stacks[ring[0]], code) == live
    ensures Suspended(m', ring[j], stacks[ring[j]], code)
    ensures Saved(m', ring[j], stacks[ring[j]], code)
      == if j == 0 then live else Saved(m, ring[j], stacks[ring[j]], code)
  {
    if j > 0 {
      hide Suspended, Saved, Ring;
      assert Disjoint(ring[0], ring[j], stacks);
      OtherKept(m, m', ring[0] + SAVED, ring[0] + DESCRIPTOR, live.sp - FRAME, live.sp, ring[j], stacks[ring[j]], code);
    }
  }

  lemma SwitchedRing(m: seq<Word>, m': seq<Word>, ring: seq<int>, stacks: map<int, Region>, sp: int)
    requires |ring| > 0 && Ring(m, ring, 0) && Layout(|m|, ring, stacks)
    requires stacks[ring[0]].lo <= sp - FRAME && sp <= stacks[ring[0]].hi
    requires SameOutside(m, m', ring[0] + SAVED, ring[0] + DESCRIPTOR, sp - FRAME, sp)
    ensures Ring(m', Rotated(ring, 1), 0)
  {
    forall j | 0 <= j < |ring|
      ensures Separate(ring[0] + SAVED, ring[0] + DESCRIPTOR, ring[j], ring[j] + 2)
      ensures Separate(sp - FRAME, sp, ring[j], ring[j] + 2)
    {
      assert Placed(|m|, ring[j], stacks);
      assert j > 0 ==> Disjoint(ring[0], ring[j], stacks);
    }
    RingKept(m, m', ring, ring[0] + SAVED, ring[0] + DESCRIPTOR, sp - FRAME, sp);
    Rotate(m', ring, 0, 1);
  }

  lemma LayoutRotated(n: int, ring: seq<int>, stacks: map<int, Region>)
    requires |ring| > 0 && Layout(n, ring, stacks)
    ensures Layout(n, Rotated(ring, 1), stacks)
  {
    hide Placed, Disjoint;
    var r := Rotated(ring, 1);
    forall i | 0 <= i < |r|
      ensures r[i] == ring[After(i, |ring|)]
    {
    }
    forall i, j | 0 <= i < |r| && 0 <= j < |r| && i != j
      ensures Disjoint(r[i], r[j], stacks)
    {
      assert Disjoint(ring[After(i, |ring|)], ring[After(j, |ring|)], stacks);
    }
  }

  lemma DistinctThreads(n: int, ring: seq<int>, stacks: map<int, Region>)
    requires Layout(n, ring, stacks)
    ensures forall i, j :: 0 <= i < |ring| && 0 <= j < |ring| && i != j ==> ring[i] != ring[j]
  {
    forall i, j | 0 <= i < |ring| && 0 <= j < |ring| && i != j
      ensures ring[i] != ring[j]
    {
      assert Disjoint(ring[i], ring[j], stacks);
    }
  }

  lemma SwitchedThreads(m: seq<Word>, m': seq<Word>, ring: seq<int>, stacks: map<int, Region>, code: Code,
                        live: C.Context)
    requires Threads(m, ring, stacks, code) && |ring| > 1
    requires stacks[ring[0]].lo <= live.sp - FRAME && live.sp <= stacks[ring[0]].hi
    requires SameOutside(m, m', ring[0] + SAVED, ring[0] + DESCRIPTOR, live.sp - FRAME, live.sp)
    requires Suspended(m', ring[0], stacks[ring[0]], code) && Saved(m', ring[0], stacks[ring[0]], code) == live
    ensures Threads(m', Rotated(ring, 1), stacks, code)
    ensures forall j :: 0 <= j < |ring| ==> ring[j] in stacks
    ensures forall j :: 0 <= j < |ring| ==>
      && Suspended(m', ring[j], stacks[ring[j]], code)
      && Saved(m', ring[j], stacks[ring[j]], code) == if j == 0 then live else Saved(m, ring[j], stacks[ring[j]], code)
  {
    SwitchedRing(m, m', ring, stacks, live.sp);
    LayoutRotated(|m|, ring, stacks);
    hide Suspended, Saved, Ring, Layout, SameOutside;
    forall j | 0 <= j < |ring|
      ensures Suspended(m', ring[j], stacks[ring[j]], code)
      ensures Saved(m', ring[j], stacks[ring[j]], code)
        == if j == 0 then live else Saved(m, ring[j], stacks[ring[j]], code)
    {
      SwitchedThread(m, m', ring, stacks, code, live, j);
    }
    assert Rotated(ring, 1) == ring[1..] + [ring[0]];
  }

  lemma AbstractParts(m: seq<Word>, ring: seq<int>, stacks: map<int, Region>, code: Code, live: C.Context)
    returns (c: C.State)
    requires Threads(m, ring, stacks, code)
    ensures c == Abstract(m, ring, stacks, code, live) && C.Valid(c)
    ensures c.ring == ring && c.contexts.Keys == (set t | t in ring)
    ensures c.contexts[ring[0]] == live
    ensures forall j :: 1 <= j < |ring| ==>
      Suspended(m, ring[j], stacks[ring[j]], code) && c.contexts[ring[j]] == Saved(m, ring[j], stacks[ring[j]], code)
  {
    DistinctThreads(|m|, ring, stacks);
    hide Suspended, Saved, Layout;
    c := Abstract(m, ring, stacks, code, live);
  }

  lemma SameContexts(ring: seq<int>, c: map<int, C.Context>, c': map<int, C.Context>)
    requires c.Keys == (set t | t in ring) && c'.Keys == (set t | t in ring)
    requires forall j :: 0 <= j < |ring| ==> c[ring[j]] == c'[ring[j]]
    ensures c == c'
  {
  }

  /** So a switch is a yield. */
  lemma SwitchIsYield(m: seq<Word>, m': seq<Word>, ring: seq<int>, stacks: map<int, Region>, code: Code,
                      live: C.Context)
    requires Threads(m, ring, stacks, code) && |ring| > 1
    requires ring[0] in stacks && stacks[ring[0]].lo <= live.sp - FRAME && live.sp <= stacks[ring[0]].hi
    requires SameOutside(m, m', ring[0] + SAVED, ring[0] + DESCRIPTOR, live.sp - FRAME, live.sp)
    requires Suspended(m', ring[0], stacks[ring[0]], code) && Saved(m', ring[0], stacks[ring[0]], code) == live
    ensures ring[1] in stacks && Suspended(m', ring[1], stacks[ring[1]], code)
    ensures Threads(m', Rotated(ring, 1), stacks, code)
    ensures C.Valid(Abstract(m, ring, stacks, code, live))
    ensures Abstract(m', Rotated(ring, 1), stacks, code, Saved(m', ring[1], stacks[ring[1]], code))
      == C.Yield(Abstract(m, ring, stacks, code, live))
  {
    hide Suspended, Saved, Ring, Layout, SameOutside, Abstract, C.Valid, Threads;
    SwitchedThreads(m, m', ring, stacks, code, live);
    var c := AbstractParts(m, ring, stacks, code, live);
    var r := Rotated(ring, 1);
    var c' := AbstractParts(m', r, stacks, code, Saved(m', ring[1], stacks[ring[1]], code));
    forall j | 0 <= j < |ring|
      ensures ring[j] in r && c'.contexts[ring[j]] == c.contexts[ring[j]]
    {
      assert r[Before(j, |ring|)] == ring[j];
    }
    assert (set t | t in r) == (set t | t in ring);
    SameContexts(ring, c.contexts, c'.contexts);
  }

  lemma ThreadsParts(m: seq<Word>, ring: seq<int>, stacks: map<int, Region>, code: Code)
    requires Threads(m, ring, stacks, code)
    ensures |ring| > 0 && Ring(m, ring, 0) && Layout(|m|, ring, stacks) && |m| <= MEM_WORDS
    ensures Placed(|m|, ring[0], stacks) && Linked(m, ring[0]) && 0 < ring[0] && ring[0] + DESCRIPTOR <= |m|
    ensures m[ring[0]] == ring[After(0, |ring|)]
    ensures m[ring[0]] == ring[0] <==> |ring| == 1
    ensures |ring| > 1 ==>
      ring[1] in stacks && Suspended(m, ring[1], stacks[ring[1]], code) && Disjoint(ring[0], ring[1], stacks)
  {
    hide Suspended;
    RingLinked(m, ring, 0, 0);
    if |ring| > 1 {
      assert Disjoint(ring[0], ring[1], stacks);
    }
  }

  /** A suspended thread is yet to be started. */
  predicate Starts(m: seq<Word>, d: int, code: Code)
    requires 0 <= d && d + DESCRIPTOR <= |m| && m[d + STACK] as int + FRAME <= |m|
  {
    m[m[d + STACK] + 9] == code.stub
  }

  lemma ResumeParts(m: seq<Word>, d: int, stack: Region, code: Code)
    requires Suspended(m, d, stack, code) && code.Distinct()
    ensures 0 < d && d + DESCRIPTOR <= |m| && 0 <= stack.lo <= m[d + STACK]
    ensures m[d + STACK] as int + FRAME <= stack.hi <= |m|
    ensures m[m[d + STACK]..m[d + STACK] + CORE_WORDS][9] == if Starts(m, d, code) then code.stub else code.afterSwitch
  {
  }

  /** What is loaded when a thread goes on: one frame. */
  lemma GoesOn(m: seq<Word>, d: int, stack: Region, code: Code, s: int, core: seq<Word>)
    requires Suspended(m, d, stack, code) && code.Distinct() && !Starts(m, d, code)
    requires s == m[d + STACK] && core == m[s..s + CORE_WORDS]
    ensures Saved(m, d, stack, code)
      == C.Context(core[..9], m[s + CORE_WORDS..s + FRAME], s + FRAME, m[d + SAVED..d + STACK], m[s + FRAME..stack.hi])
  {
    assert core[..9] == m[s..s + 9];
  }

  /** And when it starts: two. */
  lemma StartsUp(m: seq<Word>, d: int, stack: Region, code: Code, s: int, core: seq<Word>, words: seq<Word>)
    requires Suspended(m, d, stack, code) && code.Distinct() && Starts(m, d, code)
    requires s == m[d + STACK] && s + START_FRAME <= |m| && words == m[s + FRAME..s + START_FRAME]
    requires core == m[s..s + CORE_WORDS][9 := words[4]]
    ensures s + START_FRAME == stack.hi && words[4] == code.starter && words[0] == d && words[1] == m[stack.hi - 4]
    ensures Saved(m, d, stack, code)
      == C.Context(core[..9], m[s + CORE_WORDS..s + FRAME], stack.hi, m[d + SAVED..d + STACK], m[stack.hi..stack.hi])
  {
    assert core[..9] == m[s..s + 9];
  }

  lemma StartRoom(m: seq<Word>, d: int, stack: Region, code: Code)
    requires Suspended(m, d, stack, code) && code.Distinct() && Starts(m, d, code)
    ensures m[d + STACK] as int + START_FRAME == stack.hi <= |m|
  {
  }

  /** What schedule needs to know of the thread that it switches to. */
  lemma NextParts(m: seq<Word>, ring: seq<int>, stacks: map<int, Region>, code: Code)
    requires Threads(m, ring, stacks, code) && |ring| > 1
    ensures ring[1] in stacks && m[ring[0]] == ring[1] && ring[1] + DESCRIPTOR <= |m|
    ensures ring[0] in stacks && ring[0] + DESCRIPTOR <= |m| && 0 <= stacks[ring[0]].lo && stacks[ring[0]].hi <= |m|
    ensures Separate(ring[0], ring[0] + DESCRIPTOR, ring[1], ring[1] + DESCRIPTOR)
    ensures m[ring[1] + STACK] as int + FRAME <= stacks[ring[1]].hi <= |m|
    ensures Suspended(m, ring[1], stacks[ring[1]], code) && Disjoint(ring[0], ring[1], stacks)
  {
    ThreadsParts(m, ring, stacks, code);
  }

  /** The running thread's first half of schedule, as a yield. */
  lemma LeaveIsYield(m: seq<Word>, ring: seq<int>, stacks: map<int, Region>, code: Code, live: C.Context,
                     core: seq<Word>)
    returns (m': seq<Word>)
    requires Threads(m, ring, stacks, code) && |ring| > 1
    requires ring[0] in stacks && stacks[ring[0]].lo <= live.sp - FRAME && live.sp <= stacks[ring[0]].hi
    requires |core| == CORE_WORDS && core[9] == code.afterSwitch
    requires |live.vfp| == VFP_WORDS && |live.globals| == 8 && Placed(|m|, ring[0], stacks) && |m| <= MEM_WORDS
    requires live == C.Context(core[..9], live.vfp, live.sp, live.globals, m[live.sp..stacks[ring[0]].hi])
    ensures m' == SwitchOut(m, ring[0], live.sp, core, live.vfp, live.globals)
    ensures SameOutside(m, m', ring[0] + SAVED, ring[0] + DESCRIPTOR, live.sp - FRAME, live.sp)
    ensures m'[ring[0]] == m[ring[0]]
    ensures Threads(m', Rotated(ring, 1), stacks, code) && Rotated(ring, 1)[0] == ring[1]
    ensures ring[1] in stacks && Suspended(m', ring[1], stacks[ring[1]], code)
    ensures C.Valid(Abstract(m, ring, stacks, code, live))
    ensures Abstract(m', Rotated(ring, 1), stacks, code, Saved(m', ring[1], stacks[ring[1]], code))
      == C.Yield(Abstract(m, ring, stacks, code, live))
  {
    hide Threads, Suspended, Saved, Abstract, SwitchOut, SameOutside, Layout, Ring, Starts, C.Yield, C.Valid,
      Disjoint, Linked;
    m' := SwitchOut(m, ring[0], live.sp, core, live.vfp, live.globals);
    SwitchedOut(m, ring[0], live.sp, core, live.vfp, live.globals, stacks[ring[0]], code);
    SwitchIsYield(m, m', ring, stacks, code, live);
  }

  lemma NextKept(m: seq<Word>, m': seq<Word>, d: int, next: int, stacks: map<int, Region>, code: Code, sp: int)
    requires Disjoint(d, next, stacks) && Suspended(m, next, stacks[next], code)
    requires stacks[d].lo <= sp - FRAME && sp <= stacks[d].hi
    requires SameOutside(m, m', d + SAVED, d + DESCRIPTOR, sp - FRAME, sp)
    ensures m'[next + STACK] == m[next + STACK] && Starts(m', next, code) == Starts(m, next, code)
    ensures m'[stacks[next].hi - 4] == m[stacks[next].hi - 4]
  {
  }

  /** What a thread that was just created finds. */
  lemma StartValues(m: seq<Word>, ring: seq<int>, stacks: map<int, Region>, code: Code, live: C.Context, c: C.State,
                    th: int, top: int)
    requires Threads(m, ring, stacks, code) && ring[0] == th && C.Valid(c)
    requires Abstract(m, ring, stacks, code, live) == C.Create(c, th, StartContext(top))
    ensures live.core == [4, 5, 6, 7, 8, 9, 10, 11, 12] && live.vfp == seq(16, _ => 0)
    ensures live.globals == [0, 1, 0, 0, 0, 0, 0, 1] && live.sp == top && live.stack == []
  {
    var c' := AbstractParts(m, ring, stacks, code, live);
    assert c'.contexts[th] == StartContext(top);
  }

  /** Code of the running thread that writes neither to a descriptor nor to another thread's stack is work
      of its own. */
  lemma ComputeIsWork(m: seq<Word>, m': seq<Word>, ring: seq<int>, stacks: map<int, Region>, code: Code,
                      live: C.Context, live': C.Context)
    requires Threads(m, ring, stacks, code) && |m'| == |m|
    requires forall i, w :: 0 <= i < |ring| && ring[i] <= w < ring[i] + DESCRIPTOR && 0 <= w < |m| ==> m'[w] == m[w]
    requires forall i, w ::
      1 <= i < |ring| && ring[i] in stacks && stacks[ring[i]].lo <= w < stacks[ring[i]].hi && 0 <= w < |m| ==>
        m'[w] == m[w]
    ensures Threads(m', ring, stacks, code)
    ensures C.Valid(Abstract(m, ring, stacks, code, live))
    ensures Abstract(m', ring, stacks, code, live') == C.Work(Abstract(m, ring, stacks, code, live), live')
  {
    ComputeKeepsRing(m, m', ring, stacks, code);
    forall j | 1 <= j < |ring|
      ensures ring[j] in stacks && Suspended(m, ring[j], stacks[ring[j]], code)
      ensures Suspended(m', ring[j], stacks[ring[j]], code)
      ensures Saved(m', ring[j], stacks[ring[j]], code) == Saved(m, ring[j], stacks[ring[j]], code)
    {
      assert Placed(|m|, ring[j], stacks);
      hide Suspended, Saved, Ring, Layout;
      SameSaved(m, m', ring[j], stacks[ring[j]], code);
    }
    hide Suspended, Saved, Ring, Layout, Abstract;
    ComputedState(m, m', ring, stacks, code, live, live');
  }

  /** A word of the running thread's own stack is part of no descriptor and of no other stack. */
  lemma OwnStackWord(m: seq<Word>, m': seq<Word>, ring: seq<int>, stacks: map<int, Region>, code: Code, w: int, v: Word)
    requires Threads(m, ring, stacks, code) && ring[0] in stacks && stacks[ring[0]].lo <= w < stacks[ring[0]].hi
    requires 0 <= w < |m| && m' == m[w := v]
    ensures forall i, x :: 0 <= i < |ring| && ring[i] <= x < ring[i] + DESCRIPTOR && 0 <= x < |m| ==> m'[x] == m[x]
    ensures forall i, x ::
      1 <= i < |ring| && ring[i] in stacks && stacks[ring[i]].lo <= x < stacks[ring[i]].hi && 0 <= x < |m| ==>
        m'[x] == m[x]
  {
    hide Suspended, Ring;
    forall i | 0 <= i < |ring|
      ensures i == 0 ==> Placed(|m|, ring[i], stacks)
      ensures i > 0 ==> Disjoint(ring[0], ring[i], stacks)
    {
    }
  }

  lemma ComputeKeepsRing(m: seq<Word>, m': seq<Word>, ring: seq<int>, stacks: map<int, Region>, code: Code)
    requires Threads(m, ring, stacks, code) && |m'| == |m|
    requires forall i, w :: 0 <= i < |ring| && ring[i] <= w < ring[i] + DESCRIPTOR && 0 <= w < |m| ==> m'[w] == m[w]
    ensures Ring(m', ring, 0)
  {
    hide Suspended;
    forall j | 0 <= j < |ring|
      ensures Node(m, ring[j]) && m'[ring[j]] == m[ring[j]] && m'[ring[j] + 1] == m[ring[j] + 1]
    {
      assert Placed(|m|, ring[j], stacks);
    }
    assert SameNodes(m, m', ring, 0);
    RingFrame(m, m', ring, 0);
  }

  lemma ComputedState(m: seq<Word>, m': seq<Word>, ring: seq<int>, stacks: map<int, Region>, code: Code,
                      live: C.Context, live': C.Context)
    requires Threads(m, ring, stacks, code) && Threads(m', ring, stacks, code)
    requires forall j :: 1 <= j < |ring| ==>
      && ring[j] in stacks && Suspended(m, ring[j], stacks[ring[j]], code)
      && Suspended(m', ring[j], stacks[ring[j]], code)
      && Saved(m', ring[j], stacks[ring[j]], code) == Saved(m, ring[j], stacks[ring[j]], code)
    ensures C.Valid(Abstract(m, ring, stacks, code, live))
    ensures Abstract(m', ring, stacks, code, live') == C.Work(Abstract(m, ring, stacks, code, live), live')
  {
    hide Threads, Suspended, Saved, Abstract, Layout, Ring, Linked, Placed, Disjoint;
    ThreadsParts(m, ring, stacks, code);
    DistinctThreads(|m|, ring, stacks);
    var c := AbstractParts(m, ring, stacks, code, live);
    var c' := AbstractParts(m', ring, stacks, code, live');
    var contexts := c.contexts[ring[0] := live'];
    assert ring[0] in ring;
    SameContexts(ring, c'.contexts, contexts);
  }

  // ----- A new thread -----

  /** The frame that a thread is created with: one for switch_thread, then one for starter_stub. */
  function StartFrame(th: Word, fn: Word, code: Code): (f: seq<Word>)
    ensures |f| == START_FRAME
  {
    [4, 5, 6, 7, 8, 9, 10, 11, 12, code.stub]
      + [0, 0, 0, 0, 0, 0, 0, 0, 0, 0, 0, 0, 0, 0, 0, 0]
      + [th, fn, 2, 3, code.starter]
  }

  const START_GLOBALS: seq<Word> := [0, 1, 0, 0, 0, 0, 0, VAL_UNIT]

  /** The context it starts with. */
  function StartContext(top: int): C.Context {
    C.Context([4, 5, 6, 7, 8, 9, 10, 11, 12], [0, 0, 0, 0, 0, 0, 0, 0, 0, 0, 0, 0, 0, 0, 0, 0], top, START_GLOBALS, [])
  }

  /** Its fields from top_of_stack to backtrace_last_exn, the two frames, and its saved stack pointer. */
  function Build(m: seq<Word>, th: Word, fn: Word, top: int, code: Code): (m': seq<Word>)
    requires START_FRAME <= top <= |m| <= MEM_WORDS && th + DESCRIPTOR <= |m|
    ensures |m'| == |m|
  {
    var m1 := Put(m, th + TOP, [top] + START_GLOBALS);
    var m2 := Put(m1, top - START_FRAME, StartFrame(th, fn, code));
    Put(m2, th + STACK, [top - START_FRAME])
  }

  /** Pushing c, b and a is storing a + b + c. */
  lemma PushesJoin(m: seq<Word>, top: int, a: seq<Word>, b: seq<Word>, c: seq<Word>)
    requires |a| + |b| + |c| <= top <= |m|
    ensures Put(Put(Put(m, top - |c|, c), top - |c| - |b|, b), top - |c| - |b| - |a|, a)
      == Put(m, top - |c| - |b| - |a|, a + b + c)
  {
    hide Put;
    var m1 := PutAll(m, top - |c|, c);
    var m2 := PutAll(m1, top - |c| - |b|, b);
    var m3 := PutAll(m2, top - |c| - |b| - |a|, a);
    var n := PutAll(m, top - |c| - |b| - |a|, a + b + c);
    assert m3 == n;
  }

  lemma BuiltWords(m: seq<Word>, th: Word, fn: Word, top: int, code: Code)
    returns (m': seq<Word>)
    requires START_FRAME <= top <= |m| <= MEM_WORDS && 0 < th && th + DESCRIPTOR <= |m|
    requires Separate(top - START_FRAME, top, th, th + DESCRIPTOR)
    ensures m' == Build(m, th, fn, top, code)
    ensures SameOutside(m, m', th + TOP, th + DESCRIPTOR, top - START_FRAME, top)
    ensures m'[th + TOP] == top && m'[th + STACK] == top - START_FRAME
    ensures m'[th + SAVED..th + STACK] == START_GLOBALS
    ensures m'[top - START_FRAME..top] == StartFrame(th, fn, code)
  {
    hide Put, StartFrame;
    var m1 := PutAll(m, th + TOP, [top] + START_GLOBALS);
    var m2 := PutAll(m1, top - START_FRAME, StartFrame(th, fn, code));
    m' := PutAll(m2, th + STACK, [top - START_FRAME]);
    Holding(m', th + SAVED, START_GLOBALS);
    Holding(m', top - START_FRAME, StartFrame(th, fn, code));
  }

  /** What was built is a thread that will enter starter with its descriptor and its closure. */
  lemma Built(m: seq<Word>, th: Word, fn: Word, stack: Region, code: Code)
    requires 0 < th && th + DESCRIPTOR <= |m| <= MEM_WORDS && code.Distinct()
    requires 0 <= stack.lo <= stack.hi - START_FRAME && stack.hi <= |m|
    requires Separate(stack.lo, stack.hi, th, th + DESCRIPTOR)
    ensures var m' := Build(m, th, fn, stack.hi, code);
      && SameOutside(m, m', th + TOP, th + DESCRIPTOR, stack.hi - START_FRAME, stack.hi)
      && Suspended(m', th, stack, code) && Unstarted(m', th, stack, code)
      && Saved(m', th, stack, code) == StartContext(stack.hi)
      && m'[th + STACK] == stack.hi - START_FRAME && m'[stack.hi - START_FRAME + 9] == code.stub
      && m'[stack.hi - 4] == fn
  {
    hide Build, SameOutside, StartFrame, Suspended, Unstarted, Saved, StartContext;
    var m' := BuiltWords(m, th, fn, stack.hi, code);
    FrameParts(m', stack.hi - START_FRAME, StartFrame(th, fn, code));
    StartFrameParts(th, fn, code);
    FirstGlobal(m', th);
    WaitsToStart(m', th, stack, code);
  }

  lemma WaitsToStart(m: seq<Word>, th: Word, stack: Region, code: Code)
    requires 0 < th && th + DESCRIPTOR <= |m| && 0 <= stack.lo <= stack.hi - START_FRAME && stack.hi <= |m|
    requires code.Distinct() && m[th + STACK] == stack.hi - START_FRAME
    requires m[th + SAVED..th + STACK] == START_GLOBALS && m[th + SAVED] == 0
    requires var s := stack.hi - START_FRAME;
      && m[s..s + 9] == [4, 5, 6, 7, 8, 9, 10, 11, 12] && m[s + 9] == code.stub
      && m[s + CORE_WORDS..s + FRAME] == [0, 0, 0, 0, 0, 0, 0, 0, 0, 0, 0, 0, 0, 0, 0, 0]
      && m[s + FRAME] == th && m[s + 30] == code.starter
    ensures Suspended(m, th, stack, code) && Unstarted(m, th, stack, code)
    ensures Saved(m, th, stack, code) == StartContext(stack.hi)
  {
    assert m[stack.hi..stack.hi] == [];
  }

  lemma FirstGlobal(m: seq<Word>, th: int)
    requires 0 <= th && th + DESCRIPTOR <= |m| && m[th + SAVED..th + STACK] == START_GLOBALS
    ensures m[th + SAVED] == 0
  {
    assert m[th + SAVED] == m[th + SAVED..th + STACK][0];
  }

  /** Word by word: top_of_stack; bottom_of_stack, last_retaddr, gc_regs, exception_pointer, local_roots,
      backtrace_pos, backtrace_buffer and backtrace_last_exn; and the saved stack pointer.  On the stack r4-r12
      and the address of starter_stub, d8-d15, and what starter_stub loads. */
  lemma BuiltFields(m: seq<Word>, th: Word, fn: Word, top: int, code: Code)
    requires START_FRAME <= top <= |m| <= MEM_WORDS && 0 < th && th + DESCRIPTOR <= |m|
    requires Separate(top - START_FRAME, top, th, th + DESCRIPTOR)
    ensures var m' := Build(m, th, fn, top, code);
      && m'[th + 2..th + 12] == [top, 0, 1, 0, 0, 0, 0, 0, 1, top - 31]
      && m'[top - 31..top] == [4, 5, 6, 7, 8, 9, 10, 11, 12, code.stub]
          + seq(16, _ => 0) + [th, fn, 2, 3, code.starter]
  {
    hide Build, SameOutside;
    var m' := BuiltWords(m, th, fn, top, code);
    DescriptorWords(m', th, top);
  }

  lemma DescriptorWords(m: seq<Word>, th: int, top: int)
    requires 0 <= th && th + DESCRIPTOR <= |m| && START_FRAME <= top <= |m| <= MEM_WORDS
    requires m[th + TOP] == top && m[th + STACK] == top - START_FRAME
    requires m[th + SAVED..th + STACK] == START_GLOBALS
    ensures m[th + 2..th + 12] == [top, 0, 1, 0, 0, 0, 0, 0, 1, top - 31]
  {
    assert m[th + 2..th + 12] == [m[th + 2]] + m[th + 3..th + 11] + [m[th + 11]];
  }

  lemma StartFrameParts(th: Word, fn: Word, code: Code)
    ensures var f := StartFrame(th, fn, code);
      && f[..9] == [4, 5, 6, 7, 8, 9, 10, 11, 12] && f[9] == code.stub
      && f[CORE_WORDS..FRAME] == [0, 0, 0, 0, 0, 0, 0, 0, 0, 0, 0, 0, 0, 0, 0, 0]
      && f[FRAME] == th && f[27] == fn && f[30] == code.starter
  {
  }

  lemma FrameParts(m: seq<Word>, s: int, f: seq<Word>)
    requires |f| == START_FRAME && 0 <= s && s + START_FRAME <= |m| && m[s..s + START_FRAME] == f
    ensures m[s..s + 9] == f[..9] && m[s + CORE_WORDS..s + FRAME] == f[CORE_WORDS..FRAME]
    ensures m[s + 9] == f[9] && m[s + FRAME] == f[FRAME] && m[s + 27] == f[27] && m[s + 30] == f[30]
  {
    forall k | 0 <= k < START_FRAME
      ensures f[k] == m[s + k]
    {
      assert m[s..s + START_FRAME][k] == m[s + k];
    }
  }

  /** th is linked in after c. */
  function Link(m: seq<Word>, c: int, th: int): (m': seq<Word>)
    requires Linked(m, c) && Node(m, th)
    ensures |m'| == |m|
  {
    m[th := m[c]][th + 1 := c][m[c] + 1 := th][c := th]
  }

  lemma LinkIsInsert(m: seq<Word>, c: int, th: int)
    requires Linked(m, c) && Node(m, th) && Edge(m, c, m[c])
    requires Separate(c, c + 2, th, th + 2) && Separate(m[c], m[c] + 2, th, th + 2)
    ensures var m1 := Init(m, th);
      Linked(m1, c) && Linked(m1, th) && InsertAfter(m1, c, th) == Link(m, c, th)
  {
  }

  /** What linking a node in after the first of a ring needs to know. */
  lemma LinkParts(m: seq<Word>, ring: seq<int>, th: int)
    requires |ring| > 0 && Ring(m, ring, 0) && Node(m, th)
    requires forall i :: 0 <= i < |ring| ==> Separate(ring[i], ring[i] + 2, th, th + 2)
    ensures Linked(m, ring[0]) && m[ring[0]] == ring[After(0, |ring|)] && Edge(m, ring[0], m[ring[0]])
    ensures Separate(ring[0], ring[0] + 2, th, th + 2) && Separate(m[ring[0]], m[ring[0]] + 2, th, th + 2)
    ensures Spliced(ring, 0, [th]) == [ring[0], th] + ring[1..]
  {
    RingLinked(m, ring, 0, 0);
    assert Edge(m, ring[0] + 0, ring[After(0, |ring|)] + 0);
    assert Separate(ring[After(0, |ring|)], ring[After(0, |ring|)] + 2, th, th + 2);
  }

  lemma LinkedRing(m: seq<Word>, ring: seq<int>, th: int)
    requires |ring| > 0 && Ring(m, ring, 0) && Node(m, th)
    requires forall i :: 0 <= i < |ring| ==> Separate(ring[i], ring[i] + 2, th, th + 2)
    ensures Linked(m, ring[0]) && m[ring[0]] == ring[After(0, |ring|)]
    ensures Ring(Link(m, ring[0], th), [ring[0], th] + ring[1..], 0)
  {
    hide *;
    LinkParts(m, ring, th);
    LinkIsInsert(m, ring[0], th);
    InitKeeps(m, ring, th);
    Join(Init(m, th), ring, 0, 0, [th]);
  }

  lemma InitKeeps(m: seq<Word>, ring: seq<int>, th: int)
    requires Ring(m, ring, 0) && Node(m, th)
    requires forall i :: 0 <= i < |ring| ==> Separate(ring[i], ring[i] + 2, th, th + 2)
    ensures Ring(Init(m, th), ring, 0) && Ring(Init(m, th), [th], 0) && ApartFrom(ring, [th])
  {
    forall j | 0 <= j < |ring|
      ensures Node(m, ring[j]) && Init(m, th)[ring[j]] == m[ring[j]] && Init(m, th)[ring[j] + 1] == m[ring[j] + 1]
    {
      assert Separate(ring[j], ring[j] + 2, th, th + 2);
      assert Edge(m, ring[j] + 0, ring[After(j, |ring|)] + 0);
    }
    assert SameNodes(m, Init(m, th), ring, 0);
    RingFrame(m, Init(m, th), ring, 0);
    assert Edge(Init(m, th), th + 0, th + 0);
  }

  /** th can become a thread with this stack: neither overlaps those of the other threads. */
  ghost predicate Newcomer(n: int, ring: seq<int>, stacks: map<int, Region>, th: int, stack: Region) {
    && Placed(n, th, stacks[th := stack])
    && stack.lo + START_FRAME <= stack.hi
    && forall i :: 0 <= i < |ring| ==> Disjoint(ring[i], th, stacks[th := stack])
  }

  function WithNew(ring: seq<int>, th: int): seq<int>
    requires |ring| > 0
  {
    [ring[0], th] + ring[1..]
  }

  lemma LayoutJoined(n: int, ring: seq<int>, stacks: map<int, Region>, th: int, stack: Region)
    requires |ring| > 0 && Layout(n, ring, stacks) && Newcomer(n, ring, stacks, th, stack)
    ensures Layout(n, WithNew(ring, th), stacks[th := stack])
  {
    var r := WithNew(ring, th);
    var stacks' := stacks[th := stack];
    forall i | 0 <= i < |r| && i != 1
      ensures Placed(n, r[i], stacks') && Disjoint(r[i], th, stacks') && Disjoint(th, r[i], stacks')
    {
      assert Placed(n, ring[if i == 0 then 0 else i - 1], stacks);
    }
    forall i, j | 0 <= i < |r| && 0 <= j < |r| && i != j
      ensures Disjoint(r[i], r[j], stacks')
    {
      if i != 1 && j != 1 {
        DisjointStill(ring, stacks, th, stack, if i == 0 then 0 else i - 1, if j == 0 then 0 else j - 1);
      }
    }
  }

  lemma DisjointStill(ring: seq<int>, stacks: map<int, Region>, th: int, stack: Region, i: nat, j: nat)
    requires i < |ring| && j < |ring|
    requires Disjoint(ring[i], ring[j], stacks) && Disjoint(ring[i], th, stacks[th := stack])
    requires Disjoint(ring[j], th, stacks[th := stack])
    ensures Disjoint(ring[i], ring[j], stacks[th := stack])
  {
  }

  /** The links of thread i are no part of what is saved for thread j. */
  lemma LinksApart(n: int, ring: seq<int>, stacks: map<int, Region>, i: nat, j: nat)
    requires Layout(n, ring, stacks) && i < |ring| && j < |ring|
    ensures Placed(n, ring[j], stacks)
    ensures Separate(ring[i], ring[i] + 2, ring[j] + SAVED, ring[j] + DESCRIPTOR)
    ensures Separate(ring[i], ring[i] + 2, stacks[ring[j]].lo, stacks[ring[j]].hi)
  {
    assert i != j ==> Disjoint(ring[i], ring[j], stacks);
  }

  lemma LinkKeeps(m: seq<Word>, ring: seq<int>, stacks: map<int, Region>, code: Code, k: nat, j: nat)
    requires Layout(|m|, ring, stacks) && 1 < |ring| && k < |ring| && j < |ring|
    requires Linked(m, ring[0]) && m[ring[0]] == ring[k] && Node(m, ring[1])
    requires ring[j] in stacks && Suspended(m, ring[j], stacks[ring[j]], code)
    ensures var m' := Link(m, ring[0], ring[1]);
      && Suspended(m', ring[j], stacks[ring[j]], code)
      && Saved(m', ring[j], stacks[ring[j]], code) == Saved(m, ring[j], stacks[ring[j]], code)
      && m'[ring[j] + STACK] == m[ring[j] + STACK]
      && (forall w :: stacks[ring[j]].lo <= w < stacks[ring[j]].hi ==> m'[w] == m[w])
  {
    hide Layout, Suspended, Saved;
    LinksApart(|m|, ring, stacks, 0, j);
    LinksApart(|m|, ring, stacks, 1, j);
    LinksApart(|m|, ring, stacks, k, j);
    SuspendedPlace(m, ring[j], stacks[ring[j]], code);
    SameSaved(m, Link(m, ring[0], ring[1]), ring[j], stacks[ring[j]], code);
  }

  lemma SuspendedPlace(m: seq<Word>, t: int, stack: Region, code: Code)
    requires Suspended(m, t, stack, code)
    ensures 0 < t && t + DESCRIPTOR <= |m| && 0 <= stack.lo <= stack.hi <= |m|
  {
  }

  /** Building a thread keeps the other ones. */
  lemma BuildKeeps(m: seq<Word>, ring: seq<int>, stacks: map<int, Region>, code: Code, th: Word, fn: Word,
                   stack: Region, j: nat)
    requires Threads(m, ring, stacks, code) && code.Distinct()
    requires Newcomer(|m|, ring, stacks, th, stack) && 1 <= j < |ring|
    ensures var m1 := Build(m, th, fn, stack.hi, code);
      && Suspended(m1, ring[j], stacks[ring[j]], code)
      && Saved(m1, ring[j], stacks[ring[j]], code) == Saved(m, ring[j], stacks[ring[j]], code)
  {
    Built(m, th, fn, stack, code);
    assert Disjoint(ring[j], th, stacks[th := stack]);
    hide Suspended, Saved, Layout, Ring, Build;
    OtherKept(m, Build(m, th, fn, stack.hi, code), th + TOP, th + DESCRIPTOR, stack.hi - START_FRAME, stack.hi,
              ring[j], stacks[ring[j]], code);
  }

  lemma BuildKeepsRing(m: seq<Word>, ring: seq<int>, stacks: map<int, Region>, code: Code, th: Word, fn: Word,
                       stack: Region)
    requires |ring| > 0 && Ring(m, ring, 0) && Layout(|m|, ring, stacks) && code.Distinct()
    requires Newcomer(|m|, ring, stacks, th, stack)
    ensures var m1 := Build(m, th, fn, stack.hi, code);
      && Ring(m1, ring, 0) && Node(m1, th)
      && (forall i :: 0 <= i < |ring| ==> Separate(ring[i], ring[i] + 2, th, th + 2))
      && ring[0] in stacks
      && (forall w :: stacks[ring[0]].lo <= w < stacks[ring[0]].hi && 0 <= w < |m| ==> m1[w] == m[w])
  {
    Built(m, th, fn, stack, code);
    var m1 := Build(m, th, fn, stack.hi, code);
    forall j | 0 <= j < |ring|
      ensures Separate(th + TOP, th + DESCRIPTOR, ring[j], ring[j] + 2)
      ensures Separate(stack.hi - START_FRAME, stack.hi, ring[j], ring[j] + 2)
      ensures Separate(ring[j], ring[j] + 2, th, th + 2)
    {
      assert Disjoint(ring[j], th, stacks[th := stack]);
    }
    assert Disjoint(ring[0], th, stacks[th := stack]) && Placed(|m|, ring[0], stacks);
    hide Suspended, Saved, Layout, Ring, Build;
    RingKept(m, m1, ring, th + TOP, th + DESCRIPTOR, stack.hi - START_FRAME, stack.hi);
  }

  lemma NewcomerStacks(n: int, ring: seq<int>, stacks: map<int, Region>, th: int, stack: Region)
    requires Newcomer(n, ring, stacks, th, stack) && Layout(n, ring, stacks)
    ensures forall j :: 0 <= j < |ring| ==>
      ring[j] in stacks && ring[j] != th && stacks[th := stack][ring[j]] == stacks[ring[j]]
    ensures 0 < th && th + DESCRIPTOR <= n && 0 <= stack.lo <= stack.hi <= n
    ensures Separate(stack.lo, stack.hi, th, th + DESCRIPTOR)
    ensures stack.lo + START_FRAME <= stack.hi && n <= MEM_WORDS
  {
    forall j | 0 <= j < |ring|
      ensures ring[j] in stacks && ring[j] != th
    {
      assert Disjoint(ring[j], th, stacks[th := stack]) && Placed(n, ring[j], stacks);
    }
  }

  /** What caml_thread_create needs to know of its two blocks. */
  lemma NewcomerParts(m: seq<Word>, ring: seq<int>, stacks: map<int, Region>, code: Code, th: int, stack: Region)
    requires Threads(m, ring, stacks, code) && Newcomer(|m|, ring, stacks, th, stack)
    ensures 0 < th && th + DESCRIPTOR <= |m| <= MEM_WORDS && START_FRAME <= stack.hi <= |m|
    ensures Separate(stack.hi - START_FRAME, stack.hi, th, th + DESCRIPTOR)
    ensures Separate(ring[0], ring[0] + 2, th, th + 2)
  {
    NewcomerStacks(|m|, ring, stacks, th, stack);
    assert Disjoint(ring[0], th, stacks[th := stack]);
  }

  /** The threads after a new one was built and linked in after the running one. */
  lemma CreatedThreads(m: seq<Word>, ring: seq<int>, stacks: map<int, Region>, code: Code, th: Word, fn: Word,
                       stack: Region)
    requires Threads(m, ring, stacks, code) && code.Distinct() && Newcomer(|m|, ring, stacks, th, stack)
    requires START_FRAME <= stack.hi <= |m| && th + DESCRIPTOR <= |m|
    ensures Linked(Build(m, th, fn, stack.hi, code), ring[0])
    ensures var m2 := Link(Build(m, th, fn, stack.hi, code), ring[0], th);
      && Threads(m2, WithNew(ring, th), stacks[th := stack], code)
      && Suspended(m2, th, stack, code) && Saved(m2, th, stack, code) == StartContext(stack.hi)
      && m2[th + STACK] == stack.hi - START_FRAME && m2[stack.hi - START_FRAME + 9] == code.stub
      && m2[stack.hi - 4] == fn
      && (forall j :: 1 <= j < |ring| ==>
            && ring[j] in stacks && Suspended(m2, ring[j], stacks[ring[j]], code)
            && Saved(m2, ring[j], stacks[ring[j]], code) == Saved(m, ring[j], stacks[ring[j]], code))
      && ring[0] in stacks
      && (forall w :: stacks[ring[0]].lo <= w < stacks[ring[0]].hi && 0 <= w < |m| ==> m2[w] == m[w])
  {
    hide Layout, Ring, Suspended, Saved, Build, Newcomer, Separate, Link, StartContext;
    NewcomerStacks(|m|, ring, stacks, th, stack);
    var m1 := Build(m, th, fn, stack.hi, code);
    var r := WithNew(ring, th);
    var stacks' := stacks[th := stack];
    BuildKeepsRing(m, ring, stacks, code, th, fn, stack);
    LinkedRing(m1, ring, th);
    LayoutJoined(|m|, ring, stacks, th, stack);
    Built(m, th, fn, stack, code);
    var k := if |ring| == 1 then 0 else 2;
    assert r[k] == ring[After(0, |ring|)];
    LinkKeeps(m1, r, stacks', code, k, 1);
    forall j | 1 <= j < |ring|
      ensures ring[j] == r[j + 1] && Suspended(Link(m1, ring[0], th), ring[j], stacks[ring[j]], code)
      ensures Saved(Link(m1, ring[0], th), ring[j], stacks[ring[j]], code) == Saved(m, ring[j], stacks[ring[j]], code)
    {
      BuildKeeps(m, ring, stacks, code, th, fn, stack, j);
      LinkKeeps(m1, r, stacks', code, k, j + 1);
    }
    LinkKeepsRunning(m1, r, stacks', k);
  }

  lemma LinkKeepsRunning(m: seq<Word>, ring: seq<int>, stacks: map<int, Region>, k: nat)
    requires Layout(|m|, ring, stacks) && 1 < |ring| && k < |ring|
    requires Linked(m, ring[0]) && m[ring[0]] == ring[k] && Node(m, ring[1]) && ring[0] in stacks
    ensures var m' := Link(m, ring[0], ring[1]);
      forall w :: stacks[ring[0]].lo <= w < stacks[ring[0]].hi && 0 <= w < |m| ==> m'[w] == m[w]
  {
    LinksApart(|m|, ring, stacks, 0, 0);
    LinksApart(|m|, ring, stacks, 1, 0);
    LinksApart(|m|, ring, stacks, k, 0);
  }

  lemma CreateState(ring: seq<int>, th: int, c: map<int, C.Context>, c2: map<int, C.Context>, start: C.Context)
    requires |ring| > 0 && th !in ring
    requires c.Keys == (set t | t in ring) && c2.Keys == (set t | t in WithNew(ring, th))
    requires c2[th] == start && forall j :: 0 <= j < |ring| ==> c2[ring[j]] == c[ring[j]]
    ensures c2 == c[th := start]
    ensures Rotated(WithNew(ring, th), 1) == [th] + ring[1..] + [ring[0]]
  {
    NewElements(ring, th);
  }

  lemma NewElements(ring: seq<int>, th: int)
    requires |ring| > 0
    ensures forall t :: t in WithNew(ring, th) <==> t in ring || t == th
    ensures WithNew(ring, th)[1] == th && forall j :: 0 <= j < |ring| ==> ring[j] in WithNew(ring, th)
  {
    var r := WithNew(ring, th);
    assert r[0] == ring[0] && r[1] == th;
    forall j | 0 <= j < |ring|
      ensures ring[j] in r
    {
      assert ring[j] == r[if j == 0 then 0 else j + 1];
    }
  }

  /** What was built amounts to the new thread waiting right behind its creator, so that the next yield
      completes its creation. */
  lemma CreateIsYield(m: seq<Word>, m2: seq<Word>, ring: seq<int>, stacks: map<int, Region>, code: Code,
                      live: C.Context,
                      th: int, stack: Region)
    requires Threads(m, ring, stacks, code) && Newcomer(|m|, ring, stacks, th, stack)
    requires Threads(m2, WithNew(ring, th), stacks[th := stack], code)
    requires Suspended(m2, th, stack, code) && Saved(m2, th, stack, code) == StartContext(stack.hi)
    requires forall j :: 1 <= j < |ring| ==>
      && ring[j] in stacks && Suspended(m2, ring[j], stacks[ring[j]], code)
      && Saved(m2, ring[j], stacks[ring[j]], code) == Saved(m, ring[j], stacks[ring[j]], code)
    ensures C.Valid(Abstract(m, ring, stacks, code, live))
    ensures C.Valid(Abstract(m2, WithNew(ring, th), stacks[th := stack], code, live))
    ensures th !in ring
    ensures C.Yield(Abstract(m2, WithNew(ring, th), stacks[th := stack], code, live))
      == C.Create(Abstract(m, ring, stacks, code, live), th, StartContext(stack.hi))
  {
    hide Threads, Newcomer, Suspended, Saved, Abstract, StartContext, C.Valid, Rotated;
    ThreadsParts(m, ring, stacks, code);
    NewcomerStacks(|m|, ring, stacks, th, stack);
    var r := WithNew(ring, th);
    var c := AbstractParts(m, ring, stacks, code, live);
    var c2 := AbstractParts(m2, r, stacks[th := stack], code, live);
    NewElements(ring, th);
    assert r[1] == th && stacks[th := stack][th] == stack && c2.contexts[r[1]] == StartContext(stack.hi);
    forall j | 0 <= j < |ring|
      ensures ring[j] in r && c2.contexts[ring[j]] == c.contexts[ring[j]]
    {
      if j > 0 {
        assert r[j + 1] == ring[j] && stacks[th := stack][ring[j]] == stacks[ring[j]];
      }
    }
    CreateState(ring, th, c.contexts, c2.contexts, StartContext(stack.hi));
  }

  // ----- The first thread, and the garbage collector's walk -----

  /** The first thread is a ring of its own. */
  lemma FirstThread(m: seq<Word>, th: Word, c: Word, stack: Region, code: Code)
    returns (m': seq<Word>)
    requires Placed(|m|, th, map[th as int := stack]) && |m| <= MEM_WORDS
    ensures m' == Put(m, th + TOP, [c] + START_GLOBALS)[th := th][th + 1 := th]
    ensures Threads(m', [th], map[th as int := stack], code)
    ensures SameOutside(m, m', th, th + STACK, 0, 0) && m'[th + 2..th + 11] == [c, 0, 1, 0, 0, 0, 0, 0, 1]
    ensures forall k :: stack.lo <= k <= stack.hi ==> m'[k..stack.hi] == m[k..stack.hi]
  {
    hide Put;
    var m1 := PutAll(m, th + TOP, [c] + START_GLOBALS);
    m' := m1[th := th][th + 1 := th];
    assert Edge(m', th + 0, th + 0);
    Holding(m', th + TOP, [c] + START_GLOBALS);
  }

  /** bottom_of_stack is not NULL. */
  predicate HasStack(m: seq<Word>, t: int) {
    0 <= t && t + DESCRIPTOR <= |m| && m[t + SAVED] != 0
  }

  /** Those of the given threads, but the running one, that have a stack to be scanned. */
  function Scanned(m: seq<Word>, ts: seq<int>, running: int): seq<int> {
    if ts == [] then []
    else
      var t := ts[|ts| - 1];
      Scanned(m, ts[..|ts| - 1], running) + (if t != running && HasStack(m, t) then [t] else [])
  }

  lemma {:induction false} ScannedExactly(m: seq<Word>, ts: seq<int>, running: int, t: int)
    ensures t in Scanned(m, ts, running) <==> t in ts && t != running && HasStack(m, t)
  {
    if ts != [] {
      ScannedExactly(m, ts[..|ts| - 1], running, t);
      assert ts == ts[..|ts| - 1] + [ts[|ts| - 1]];
    }
  }

  /** In terms of contexts: a thread other than the running one is scanned, once, if and only if the first of
      its shared variables, caml_bottom_of_stack, is not NULL. */
  lemma ScannedContexts(m: seq<Word>, ring: seq<int>, stacks: map<int, Region>, code: Code, live: C.Context)
    requires Threads(m, ring, stacks, code) && |live.globals| == 8
    ensures var contexts := Abstract(m, ring, stacks, code, live).contexts;
      && (forall t :: t in ring ==> t in contexts && |contexts[t].globals| == 8)
      && (forall t :: t in Scanned(m, ring, ring[0]) <==>
            t in ring && t != ring[0] && contexts[t].globals[0] != 0)
      && (forall k :: 1 <= k < |ring| ==>
            0 <= ring[k] && ring[k] + 10 < |m| && m[ring[k] + 10] == contexts[ring[k]].globals[7])
  {
    hide Threads, Suspended, Saved, Abstract, Scanned, HasStack;
    var c := AbstractParts(m, ring, stacks, code, live);
    forall k | 1 <= k < |ring|
      ensures ring[k] != ring[0] && |c.contexts[ring[k]].globals| == 8
      ensures 0 <= ring[k] && ring[k] + 10 < |m| && m[ring[k] + 10] == c.contexts[ring[k]].globals[7]
      ensures c.contexts[ring[k]].globals[0] != 0 <==> HasStack(m, ring[k])
    {
      SavedGlobals(m, ring, stacks, code, k);
    }
    forall t
      ensures t in Scanned(m, ring, ring[0]) <==> t in ring && t != ring[0] && c.contexts[t].globals[0] != 0
    {
      ScannedExactly(m, ring, ring[0], t);
    }
  }

  lemma SavedGlobals(m: seq<Word>, ring: seq<int>, stacks: map<int, Region>, code: Code, k: nat)
    requires Threads(m, ring, stacks, code) && 1 <= k < |ring|
    ensures ring[k] != ring[0] && 0 < ring[k] && ring[k] + DESCRIPTOR <= |m|
    ensures ring[k] in stacks && Suspended(m, ring[k], stacks[ring[k]], code)
    ensures var g := Saved(m, ring[k], stacks[ring[k]], code).globals;
      |g| == 8 && g[7] == m[ring[k] + 10] && (g[0] != 0 <==> HasStack(m, ring[k]))
  {
    DistinctThreads(|m|, ring, stacks);
    assert Placed(|m|, ring[k], stacks);
  }

  /** Only threads that have run are scanned: they wait in schedule. */
  lemma UnstartedUnscanned(m: seq<Word>, ring: seq<int>, stacks: map<int, Region>, code: Code)
    requires Threads(m, ring, stacks, code)
    ensures forall t :: t in Scanned(m, ring, ring[0]) ==>
      && 0 <= t && t + DESCRIPTOR <= |m| && m[t + STACK] as int + FRAME <= |m|
      && m[m[t + STACK] + 9] == code.afterSwitch
  {
    hide Ring, Layout, Suspended, Scanned;
    forall t | t in Scanned(m, ring, ring[0])
      ensures 0 <= t && t + DESCRIPTOR <= |m| && m[t + STACK] as int + FRAME <= |m|
      ensures m[m[t + STACK] + 9] == code.afterSwitch
    {
      ScannedExactly(m, ring, ring[0], t);
      var k :| 0 <= k < |ring| && ring[k] == t;
      WaitsInSchedule(m, ring, stacks, code, k);
    }
  }

  lemma WaitsInSchedule(m: seq<Word>, ring: seq<int>, stacks: map<int, Region>, code: Code, k: nat)
    requires Threads(m, ring, stacks, code) && 1 <= k < |ring| && HasStack(m, ring[k])
    ensures m[ring[k] + STACK] as int + FRAME <= |m| && m[m[ring[k] + STACK] + 9] == code.afterSwitch
  {
    hide Threads;
    SavedGlobals(m, ring, stacks, code, k);
  }

  /** No thread is scanned twice. */
  lemma {:induction false} ScannedOnce(m: seq<Word>, ts: seq<int>, running: int)
    requires forall i, j :: 0 <= i < j < |ts| ==> ts[i] != ts[j]
    ensures forall i, j :: 0 <= i < j < |Scanned(m, ts, running)| ==>
      Scanned(m, ts, running)[i] != Scanned(m, ts, running)[j]
  {
    if ts != [] {
      var front, t := ts[..|ts| - 1], ts[|ts| - 1];
      ScannedOnce(m, front, running);
      ScannedExactly(m, front, running, t);
      assert t !in front;
    }
  }

  lemma ThreadsScannedOnce(m: seq<Word>, ring: seq<int>, stacks: map<int, Region>, code: Code)
    requires Threads(m, ring, stacks, code)
    ensures forall i, j :: 0 <= i < j < |Scanned(m, ring, ring[0])| ==>
      Scanned(m, ring, ring[0])[i] != Scanned(m, ring, ring[0])[j]
  {
    hide Scanned;
    DistinctThreads(|m|, ring, stacks);
    ScannedOnce(m, ring, ring[0]);
  }

  /** The backtrace_last_exn fields of the given threads. */
  function ExceptionSlots(ts: seq<int>): (slots: seq<int>)
    ensures |slots| == |ts| && forall i :: 0 <= i < |ts| ==> slots[i] == ts[i] + STACK - 1
  {
    if ts == [] then [] else ExceptionSlots(ts[..|ts| - 1]) + [ts[|ts| - 1] + STACK - 1]
  }

  lemma ScannedMore(m: seq<Word>, ring: seq<int>, i: nat)
    requires i < |ring|
    ensures Scanned(m, ring[..0], ring[0]) == [] && ExceptionSlots(ring[..0]) == []
    ensures ExceptionSlots(ring[..i + 1]) == ExceptionSlots(ring[..i]) + [ring[i] + STACK - 1]
    ensures Scanned(m, ring[..i + 1], ring[0])
      == Scanned(m, ring[..i], ring[0]) + (if ring[i] != ring[0] && HasStack(m, ring[i]) then [ring[i]] else [])
  {
    assert ring[..i + 1][..i] == ring[..i];
  }

  /** Following next from thread i: the next one, or the first again. */
  lemma WalkStep(m: seq<Word>, ring: seq<int>, stacks: map<int, Region>, code: Code, i: nat)
    requires Threads(m, ring, stacks, code) && i < |ring|
    ensures 0 < ring[i] && ring[i] + DESCRIPTOR <= |m|
    ensures m[ring[i]] == if i + 1 < |ring| then ring[i + 1] else ring[0]
    ensures i + 1 < |ring| ==> ring[i + 1] != ring[0]
  {
    assert Edge(m, ring[i] + 0, ring[After(i, |ring|)] + 0);
    DistinctThreads(|m|, ring, stacks);
    assert Placed(|m|, ring[i], stacks);
  }
}
