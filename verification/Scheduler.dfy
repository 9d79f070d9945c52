/** The cooperative scheduler: Thread_stubs.c:66-97, 99-128, 203-337 with switch_thread and starter_stub
    of boot.S:264-281, on one machine whose memory holds the descriptors and the stacks. */
module Scheduler {
  import opened Words
  import opened DList
  import opened ThreadMemory

  class Machine {
    const mem: array<Word>
    const code: Code

    // r4-r12 and lr, d8-d15 as words, r0-r3, and sp
    var core: seq<Word>
    var vfp: seq<Word>
    var args: seq<Word>
    var sp: int

    /** The variables of the OCaml runtime that the threads share: caml_bottom_of_stack,
        caml_last_return_address, caml_gc_regs, caml_exception_pointer, local_roots, backtrace_pos,
        backtrace_buffer and backtrace_last_exn. */
    var globals: seq<Word>

    /** curr_thread. */
    var curr: Word

    /** The hooks, and the functions of this file that are hooked in: caml_thread_scan_roots and the four
        that serve channel mutexes. */
    const scanRoots: Word
    const mutexCode: MutexHooks
    var scanRootsHook: Word
    var prevScanRootsHook: Word
    var mutexHooks: MutexHooks

    /** The threads from the running one on, and their stacks. */
    ghost var ring: seq<int>
    ghost var stacks: map<int, Region>

    ghost predicate Shape()
      reads this
    {
      && |core| == CORE_WORDS && |vfp| == VFP_WORDS && |args| == 4 && |globals| == 8
      && code.Distinct() && mem.Length <= MEM_WORDS
    }

    /** Before ocaml_thread_init there are no threads; afterwards the first of the ring runs on its own stack. */
    ghost predicate Valid()
      reads this, mem
    {
      && Shape()
      && (curr == 0 ==> ring == [])
      && (curr != 0 ==>
            && Threads(mem[..], ring, stacks, code) && ring[0] == curr
            && curr as int in stacks && stacks[curr].lo <= sp <= stacks[curr].hi)
    }

    /** The context of the running thread. */
    ghost function Live(): C.Context
      reads this, mem
      requires Valid() && curr != 0
    {
      ThreadsParts(mem[..], ring, stacks, code);
      C.Context(core[..9], vfp, sp, globals, mem[..][sp..stacks[curr].hi])
    }

    ghost function Contents(): (c: C.State)
      reads this, mem
      requires Valid() && curr != 0
      ensures c.ring == ring
    {
      Abstract(mem[..], ring, stacks, code, Live())
    }

    /** The next thread is yet to be started; and with which closure. */
    ghost predicate NextStarts()
      reads this, mem
      requires Valid() && curr != 0 && |ring| > 1
    {
      NextParts(mem[..], ring, stacks, code);
      Starts(mem[..], ring[1], code)
    }

    ghost function NextClosure(): Word
      reads this, mem
      requires Valid() && curr != 0 && |ring| > 1
    {
      NextParts(mem[..], ring, stacks, code);
      mem[stacks[ring[1]].hi - 4]
    }

    constructor (mem0: array<Word>, code0: Code, core0: seq<Word>, vfp0: seq<Word>, args0: seq<Word>, sp0: int,
                 globals0: seq<Word>, scanRoots0: Word, mutexCode0: MutexHooks, hook0: Word, hooks0: MutexHooks)
      requires mem0.Length <= MEM_WORDS && code0.Distinct()
      requires |core0| == CORE_WORDS && |vfp0| == VFP_WORDS && |args0| == 4 && |globals0| == 8
      ensures Valid() && curr == 0 && mem == mem0 && code == code0
      ensures core == core0 && vfp == vfp0 && args == args0 && sp == sp0 && globals == globals0
      ensures scanRoots == scanRoots0 && mutexCode == mutexCode0
      ensures scanRootsHook == hook0 && prevScanRootsHook == 0 && mutexHooks == hooks0
    {
      mem, code, core, vfp, args, sp, globals := mem0, code0, core0, vfp0, args0, sp0, globals0;
      scanRoots, mutexCode := scanRoots0, mutexCode0;
      scanRootsHook, prevScanRootsHook, mutexHooks := hook0, 0, hooks0;
      curr := 0;
      ring, stacks := [], map[];
    }

    // ----- What the running thread does between calls -----

    /** It stores a word into its own stack. */
    method StoreOwn(w: int, v: Word)
      requires Valid() && curr != 0 && stacks[curr].lo <= w < stacks[curr].hi
      modifies mem
      ensures Valid() && (0 <= w < mem.Length && mem[..] == old(mem[..])[w := v])
      ensures C.Valid(old(Contents())) && Contents() == C.Work(old(Contents()), Live())
    {
      hide Threads, Abstract, C.Valid, C.Work;
      ghost var m, live := mem[..], Live();
      ThreadsParts(m, ring, stacks, code);
      mem[w] := v;
      OwnStackWord(m, mem[..], ring, stacks, code, w, v);
      ghost var live' := C.Context(core[..9], vfp, sp, globals, mem[..][sp..stacks[curr].hi]);
      ComputeIsWork(m, mem[..], ring, stacks, code, live, live');
    }

    /** It sets its registers, moves its stack pointer within its stack, and sets the shared variables. */
    method SetRegisters(core0: seq<Word>, vfp0: seq<Word>, args0: seq<Word>, sp0: int, globals0: seq<Word>)
      requires Valid() && curr != 0 && stacks[curr].lo <= sp0 <= stacks[curr].hi
      requires |core0| == CORE_WORDS && |vfp0| == VFP_WORDS && |args0| == 4 && |globals0| == 8
      modifies this`core, this`vfp, this`args, this`sp, this`globals
      ensures Valid() && core == core0 && vfp == vfp0 && args == args0 && sp == sp0 && globals == globals0
      ensures C.Valid(old(Contents())) && Contents() == C.Work(old(Contents()), Live())
    {
      hide Threads, Abstract, C.Valid, C.Work;
      ghost var m, live := mem[..], Live();
      ThreadsParts(m, ring, stacks, code);
      core, vfp, args, sp, globals := core0, vfp0, args0, sp0, globals0;
      ghost var live' := C.Context(core[..9], vfp, sp, globals, mem[..][sp..stacks[curr].hi]);
      ComputeIsWork(m, mem[..], ring, stacks, code, live, live');
    }

    // ----- Instructions -----

    method Store(at: int, ws: seq<Word>)
      requires 0 <= at && at + |ws| <= mem.Length
      modifies mem
      ensures mem[..] == Put(old(mem[..]), at, ws)
    {
      forall i | 0 <= i < |ws| {
        mem[at + i] := ws[i];
      }
    }

    method Push(ws: seq<Word>)
      requires |ws| <= sp <= mem.Length
      modifies mem, this`sp
      ensures sp == old(sp) - |ws| && mem[..] == Put(old(mem[..]), sp, ws)
    {
      sp := sp - |ws|;
      Store(sp, ws);
    }

    method Pop(n: nat) returns (ws: seq<Word>)
      requires 0 <= sp && sp + n <= mem.Length
      modifies this`sp
      ensures sp == old(sp) + n && ws == mem[..][old(sp)..sp] && |ws| == n
    {
      ws := mem[sp..sp + n];
      sp := sp + n;
    }

    /** switch_thread, up to its return to the address in lr. */
    method SwitchThread(oldStack: int, newStack: int)
      requires Shape() && FRAME <= sp <= mem.Length && 0 <= oldStack < mem.Length && 0 <= newStack
      requires newStack + FRAME <= mem.Length
      modifies mem, this`sp, this`core, this`vfp
      ensures Shape() && sp == newStack + FRAME
      ensures mem[..] == Put(Put(Put(old(mem[..]), old(sp) - VFP_WORDS, old(vfp)), old(sp) - FRAME, old(core)),
                             oldStack, [old(sp) - FRAME])
      ensures core == mem[..][newStack..newStack + CORE_WORDS]
      ensures vfp == mem[..][newStack + CORE_WORDS..newStack + FRAME]
    {
      hide Put;
      Push(vfp);
      Push(core);
      Store(oldStack, [sp]);
      sp := newStack;
      core := Pop(CORE_WORDS);
      vfp := Pop(VFP_WORDS);
    }

    // ----- schedule -----

    /** The loads of the eight shared variables. */
    method LoadGlobals(th: int) returns (ws: seq<Word>)
      requires 0 <= th && th + STACK <= mem.Length
      ensures ws == mem[..][th + SAVED..th + STACK] && |ws| == 8
    {
      ws := mem[th + SAVED..th + STACK];
    }

    /** starter, up to its call of the closure. */
    method Starter(th: Word)
      requires th + STACK <= mem.Length
      modifies this`curr, this`globals
      ensures curr == th && globals == mem[..][th + SAVED..th + STACK]
    {
      curr := th;
      globals := LoadGlobals(curr);
    }

    /** starter_stub. */
    method StarterStub() returns (pc: Word)
      requires Shape() && 0 <= sp && sp + 5 <= mem.Length
      modifies this`sp, this`args, this`core
      ensures Shape() && sp == old(sp) + 5 && core == old(core)[9 := pc]
      ensures args == mem[..][old(sp)..sp][..4] && pc == mem[..][old(sp)..sp][4]
    {
      var words := Pop(5);
      args, core := words[..4], core[9 := words[4]];
      pc := core[9];
    }

    /** What happens at the address in lr after a switch: schedule goes on, with curr_thread still the
        thread that was left, or starter_stub starts a new thread. */
    method Resume(ghost d: int, ghost stack: Region) returns (pc: Word)
      requires Shape() && Suspended(mem[..], d, stack, code)
      requires sp == mem[d + STACK] + FRAME && curr as int < mem.Length && mem[curr] == d
      requires core == mem[..][sp - FRAME..sp - VFP_WORDS] && vfp == mem[..][sp - VFP_WORDS..sp]
      modifies this`sp, this`core, this`args, this`curr, this`globals
      ensures Shape() && curr == d && stack.lo <= sp <= stack.hi
      ensures C.Context(core[..9], vfp, sp, globals, mem[..][sp..stack.hi]) == Saved(mem[..], d, stack, code)
      ensures if Starts(mem[..], d, code) then
          pc == code.starter && args[0] == d && args[1] == mem[stack.hi - 4] && sp == stack.hi
        else pc == code.afterSwitch
    {
      hide Suspended, Saved, Starts;
      ResumeParts(mem[..], d, stack, code);
      pc := core[9];
      if pc == code.stub {
        pc := StartUp(d, stack);
      } else {
        GoOn(d, stack);
      }
    }

    /** A thread starts: starter_stub leads to starter. */
    method StartUp(ghost d: int, ghost stack: Region) returns (pc: Word)
      requires Shape() && Suspended(mem[..], d, stack, code) && Starts(mem[..], d, code)
      requires sp == mem[d + STACK] + FRAME
      requires core == mem[..][sp - FRAME..sp - VFP_WORDS] && vfp == mem[..][sp - VFP_WORDS..sp]
      modifies this`sp, this`core, this`args, this`curr, this`globals
      ensures Shape() && curr == d && sp == stack.hi
      ensures C.Context(core[..9], vfp, sp, globals, mem[..][sp..stack.hi]) == Saved(mem[..], d, stack, code)
      ensures pc == code.starter && args[0] == d && args[1] == mem[stack.hi - 4]
    {
      hide Suspended, Saved, Starts;
      ResumeParts(mem[..], d, stack, code);
      ghost var m, s := mem[..], sp - FRAME;
      StartRoom(m, d, stack, code);
      pc := StarterStub();
      StartsUp(m, d, stack, code, s, core, m[s + FRAME..s + START_FRAME]);
      Starter(args[0]);
    }

    /** A thread goes on: the second half of schedule. */
    method GoOn(ghost d: int, ghost stack: Region)
      requires Shape() && Suspended(mem[..], d, stack, code) && !Starts(mem[..], d, code)
      requires sp == mem[d + STACK] + FRAME && curr as int < mem.Length && mem[curr] == d
      requires core == mem[..][sp - FRAME..sp - VFP_WORDS] && vfp == mem[..][sp - VFP_WORDS..sp]
      modifies this`curr, this`globals
      ensures Shape() && curr == d
      ensures C.Context(core[..9], vfp, sp, globals, mem[..][sp..stack.hi]) == Saved(mem[..], d, stack, code)
    {
      hide Suspended, Saved, Starts;
      ResumeParts(mem[..], d, stack, code);
      GoesOn(mem[..], d, stack, code, sp - FRAME, core);
      curr := mem[curr];
      globals := LoadGlobals(curr);
    }

    /** The first half of schedule: the shared variables are saved and the stacks are switched. */
    method Leave()
      requires Shape() && curr as int + DESCRIPTOR <= mem.Length && mem[curr] as int + DESCRIPTOR <= mem.Length
      requires Separate(curr, curr + DESCRIPTOR, mem[curr], mem[curr] + DESCRIPTOR)
      requires FRAME <= sp <= mem.Length && mem[mem[curr] + STACK] as int + FRAME <= mem.Length
      modifies mem, this`sp, this`core, this`vfp
      ensures Shape()
      ensures mem[..] == SwitchOut(old(mem[..]), curr, old(sp), old(core)[9 := code.afterSwitch], old(vfp), globals)
      ensures sp == old(mem[mem[curr] + STACK]) + FRAME
      ensures core == mem[..][sp - FRAME..sp - VFP_WORDS] && vfp == mem[..][sp - VFP_WORDS..sp]
    {
      hide Put;
      assert mem[..][curr] == mem[curr];
      PutAt(mem[..], curr + SAVED, globals, curr);
      PutAt(mem[..], curr + SAVED, globals, mem[curr] + STACK);
      Store(curr + SAVED, globals);
      core := core[9 := code.afterSwitch];
      SwitchThread(curr + STACK, mem[mem[curr] + STACK]);
    }

    /** Both halves together. */
    method Switch(ghost m': seq<Word>, ghost next: int, ghost stack: Region) returns (pc: Word)
      requires Shape() && curr as int + DESCRIPTOR <= mem.Length && mem[curr] == next && 0 <= next
      requires next + DESCRIPTOR <= mem.Length
      requires Separate(curr, curr + DESCRIPTOR, next, next + DESCRIPTOR)
      requires FRAME <= sp <= mem.Length && mem[next + STACK] as int + FRAME <= mem.Length
      requires m' == SwitchOut(mem[..], curr, sp, core[9 := code.afterSwitch], vfp, globals)
      requires Suspended(m', next, stack, code) && m'[curr] == next && m'[next + STACK] == mem[next + STACK]
      modifies mem, this`sp, this`core, this`vfp, this`args, this`curr, this`globals
      ensures Shape() && mem[..] == m' && curr == next && stack.lo <= sp <= stack.hi
      ensures C.Context(core[..9], vfp, sp, globals, mem[..][sp..stack.hi]) == Saved(m', next, stack, code)
      ensures if Starts(m', next, code) then
          pc == code.starter && args[0] == next && args[1] == m'[stack.hi - 4] && sp == stack.hi
        else pc == code.afterSwitch
    {
      hide Saved, Starts, SwitchOut;
      Leave();
      pc := Resume(next, stack);
    }

    /** schedule.  With more than one thread it returns in the next thread of the ring, which finds its own
        context, while every other thread, among them the one that called, keeps its own. */
    method Schedule() returns (pc: Word)
      requires Valid()
      requires curr != 0 && |ring| > 1 ==> stacks[curr].lo <= sp - FRAME
      modifies mem, this`sp, this`core, this`vfp, this`args, this`curr, this`globals, this`ring
      ensures Valid()
      ensures old(curr) == 0 || |old(ring)| == 1 ==>
        && pc == code.afterSwitch && mem[..] == old(mem[..]) && ring == old(ring) && curr == old(curr)
        && core == old(core) && vfp == old(vfp) && sp == old(sp) && globals == old(globals)
      ensures old(curr) != 0 && |old(ring)| > 1 ==>
        && curr != 0 && C.Valid(old(Contents())) && curr == old(ring[1])
        && Contents() == C.Yield(old(Contents()))
      ensures old(curr) != 0 && |old(ring)| > 1 ==>
        if old(NextStarts()) then
          pc == code.starter && args[0] == curr && args[1] == old(NextClosure()) && sp == stacks[curr].hi
        else pc == code.afterSwitch
    {
      hide Threads, Starts, SameOutside, Disjoint, Separate, Placed, Layout, Ring, Linked, Suspended, Saved,
        Abstract, C.Yield, C.Valid, SwitchOut, Rotated;
      pc := code.afterSwitch;
      if curr != 0 {
        ThreadsParts(mem[..], ring, stacks, code);
        if curr != mem[curr] {
          ghost var m, live, next := mem[..], Live(), ring[1];
          NextParts(m, ring, stacks, code);
          ghost var m' := LeaveIsYield(m, ring, stacks, code, live, core[9 := code.afterSwitch]);
          NextKept(m, m', curr, next, stacks, code, sp);
          pc := Switch(m', next, stacks[next]);
          ring := Rotated(ring, 1);
        }
      }
    }

    // ----- caml_thread_create -----

    /** A push on the new thread's stack. */
    method PushOn(top: int, ws: seq<Word>) returns (top': int)
      requires |ws| <= top <= mem.Length
      modifies mem
      ensures top' == top - |ws| && mem[..] == Put(old(mem[..]), top', ws)
    {
      top' := top - |ws|;
      Store(top', ws);
    }

    /** The descriptor and the stack of the new thread, whose stack ends at top0. */
    method BuildThread(th: Word, fn: Word, top0: int)
      requires START_FRAME <= top0 <= mem.Length <= MEM_WORDS && th + DESCRIPTOR <= mem.Length
      requires Separate(top0 - START_FRAME, top0, th, th + DESCRIPTOR)
      modifies mem
      ensures mem[..] == Build(old(mem[..]), th, fn, top0, code)
      ensures th > 0 ==> mem[..][th + 2..th + 12] == [top0, 0, 1, 0, 0, 0, 0, 0, 1, top0 - 31]
      ensures
        var frames := [4, 5, 6, 7, 8, 9, 10, 11, 12, code.stub] + seq(16, _ => 0) + [th, fn, 2, 3, code.starter];
        th > 0 ==> mem[..][top0 - 31..top0] == frames
    {
      hide Put;
      if th > 0 {
        BuiltFields(mem[..], th, fn, top0, code);
      }
      var top := top0;
      Store(th + TOP, [top] + START_GLOBALS);
      ghost var m := mem[..];
      top := PushOn(top, [th, fn, 2, 3, code.starter]);
      top := PushOn(top, [0, 0, 0, 0, 0, 0, 0, 0, 0, 0, 0, 0, 0, 0, 0, 0]);
      top := PushOn(top, [4, 5, 6, 7, 8, 9, 10, 11, 12, code.stub]);
      PushesJoin(m, top0, [4, 5, 6, 7, 8, 9, 10, 11, 12, code.stub], [0, 0, 0, 0, 0, 0, 0, 0, 0, 0, 0, 0, 0, 0, 0, 0],
                 [th, fn, 2, 3, code.starter]);
      Store(th + STACK, [top]);
    }

    method LinkThread(th: Word)
      requires Linked(mem[..], curr) && Node(mem[..], th)
      requires Separate(curr, curr + 2, th, th + 2)
      modifies mem
      ensures mem[..] == Link(old(mem[..]), curr, th)
    {
      mem[th] := mem[curr];
      mem[th + 1] := curr;
      mem[mem[curr] + 1] := th;
      mem[curr] := th;
    }

    /** The new thread's words, and those that link it in. */
    method PlaceThread(th: Word, fn: Word, top: int)
      requires START_FRAME <= top <= mem.Length <= MEM_WORDS && th + DESCRIPTOR <= mem.Length
      requires Separate(top - START_FRAME, top, th, th + DESCRIPTOR) && Separate(curr, curr + 2, th, th + 2)
      requires var m1 := Build(mem[..], th, fn, top, code); Linked(m1, curr) && Node(m1, th)
      modifies mem
      ensures mem[..] == Link(Build(old(mem[..]), th, fn, top, code), curr, th)
    {
      hide Build, Link, Linked, Node;
      BuildThread(th, fn, top);
      LinkThread(th);
    }

    /** The new thread is built and linked in behind the running one. */
    method AddThread(th: Word, stack: Word, fn: Word)
      requires Valid() && curr != 0
      requires Newcomer(mem.Length, ring, stacks, th, Region(stack, stack + STACK_WORDS))
      modifies mem, this`ring, this`stacks
      ensures Valid() && ring == WithNew(old(ring), th) && ring[1] == th && |ring| > 1
      ensures stacks == old(stacks)[th as int := Region(stack, stack + STACK_WORDS)]
      ensures stacks[curr] == old(stacks)[curr]
      ensures NextStarts() && NextClosure() == fn
      ensures C.Valid(old(Contents())) && C.Valid(Contents()) && th as int !in old(ring)
      ensures C.Yield(Contents()) == C.Create(old(Contents()), th, StartContext(stack + STACK_WORDS))
    {
      hide Threads, Newcomer, SameOutside, Disjoint, Separate, Layout, Ring, Linked, Suspended, Saved, Abstract,
        C.Yield, C.Create, C.Valid, StartContext, Link, Build;
      ghost var m, live, region := mem[..], Live(), Region(stack, stack + STACK_WORDS);
      ThreadsParts(m, ring, stacks, code);
      NewcomerParts(m, ring, stacks, code, th, region);
      CreatedThreads(m, ring, stacks, code, th, fn, region);
      PlaceThread(th, fn, stack + STACK_WORDS);
      CreateIsYield(m, mem[..], ring, stacks, code, live, th, region);
      ring, stacks := WithNew(ring, th), stacks[th as int := region];
      assert mem[..][sp..stacks[curr].hi] == m[sp..stacks[curr].hi];
    }

    /** caml_thread_create with the results of its two allocations.  When one fails nothing changes here,
        and `freed` is the descriptor that is given back, if any.
        Otherwise the new thread runs at once: it enters starter with its descriptor, its closure and its
        stack pointer at the top of its stack; and its creator waits with the context it has.  `result` is
        then what the creator will get when it is resumed. */
    method Create(th: Word, stack: Word, fn: Word) returns (result: Word, pc: Word, freed: Word)
      requires Valid() && curr != 0 && stacks[curr].lo <= sp - FRAME
      requires th != 0 && stack != 0 ==> Newcomer(mem.Length, ring, stacks, th, Region(stack, stack + STACK_WORDS))
      modifies mem, this`sp, this`core, this`vfp, this`args, this`curr, this`globals, this`ring, this`stacks
      ensures Valid()
      ensures freed == if stack == 0 then th else 0
      ensures th == 0 || stack == 0 ==>
        && result == 0 && mem[..] == old(mem[..]) && ring == old(ring) && stacks == old(stacks) && curr == old(curr)
        && core == old(core) && vfp == old(vfp) && sp == old(sp) && globals == old(globals)
      ensures th != 0 && stack != 0 ==>
        && result == th && curr == th && stacks == old(stacks)[th as int := Region(stack, stack + STACK_WORDS)]
        && C.Valid(old(Contents())) && th as int !in old(Contents()).ring
        && Contents() == C.Create(old(Contents()), th, StartContext(stack + STACK_WORDS))
        && pc == code.starter && args[0] == th && args[1] == fn && sp == stack + STACK_WORDS
      ensures th != 0 && stack != 0 ==>
        globals == [0, 1, 0, 0, 0, 0, 0, 1] && core[..9] == [4, 5, 6, 7, 8, 9, 10, 11, 12] && vfp == seq(16, _ => 0)
    {
      hide Threads, Newcomer, WithNew, Abstract, C.Yield, C.Create, C.Valid, StartContext;
      result, pc, freed := th, code.afterSwitch, 0;
      if th != 0 {
        if stack == 0 {
          freed := th;
          result := 0;
        } else {
          ghost var c0 := Contents();
          AddThread(th, stack, fn);
          pc := Schedule();
          StartValues(mem[..], ring, stacks, code, Live(), c0, th, stack + STACK_WORDS);
        }
      }
    }

    // ----- ocaml_thread_init -----

    /** The descriptor of the first thread: its fields up to backtrace_last_exn, and its links to itself. */
    method InitFirst(c: Word)
      requires curr as int + DESCRIPTOR <= mem.Length
      modifies mem
      ensures mem[..] == Put(old(mem[..]), curr + TOP, [c] + START_GLOBALS)[curr as int := curr][curr + 1 := curr]
    {
      hide Put;
      Store(curr + TOP, [c] + START_GLOBALS);
      mem[curr] := curr;
      mem[curr + 1] := curr;
    }

    /** ocaml_thread_init with the block that stat_alloc returned and an address in the caller's frame. */
    method ThreadInit(th: Word, c: Word, ghost stack: Region)
      requires Valid()
      requires curr == 0 ==> Placed(mem.Length, th, map[th as int := stack]) && stack.lo <= sp <= stack.hi
      modifies mem, this`curr, this`ring, this`stacks, this`scanRootsHook, this`prevScanRootsHook, this`mutexHooks
      ensures Valid()
      ensures old(curr) != 0 ==>
        && mem[..] == old(mem[..]) && curr == old(curr) && ring == old(ring) && stacks == old(stacks)
        && scanRootsHook == old(scanRootsHook) && prevScanRootsHook == old(prevScanRootsHook)
        && mutexHooks == old(mutexHooks)
      ensures old(curr) == 0 ==>
        && prevScanRootsHook == old(scanRootsHook) && scanRootsHook == scanRoots && mutexHooks == mutexCode
      ensures old(curr) == 0 ==>
        && curr == th && Contents().ring == [th as int] && stacks == map[th as int := stack]
        && Live() == C.Context(core[..9], vfp, sp, globals, old(mem[..])[sp..stack.hi])
        && mem[..][th + 2..th + 11] == [c, 0, 1, 0, 0, 0, 0, 0, 1]
        && SameOutside(old(mem[..]), mem[..], th, th + STACK, 0, 0)
    {
      hide Threads, Put, SameOutside, Abstract, Ring, Layout, Suspended, Saved, Disjoint;
      if curr != 0 {
        return;
      }
      ghost var m' := FirstThread(mem[..], th, c, stack, code);
      curr := th;
      InitFirst(c);
      prevScanRootsHook := scanRootsHook;
      scanRootsHook := scanRoots;
      mutexHooks := mutexCode;
      ring, stacks := [th as int], map[th as int := stack];
    }

    // ----- caml_thread_scan_roots -----

    /** The loop of caml_thread_scan_roots. */
    method VisitThreads() returns (slots: seq<int>, scanned: seq<int>)
      requires Valid() && curr != 0
      ensures slots == ExceptionSlots(ring) && scanned == Scanned(mem[..], ring, curr)
    {
      hide Threads, Scanned, ExceptionSlots, HasStack, Ring, Layout, Suspended, Placed, Linked, Disjoint;
      ghost var m, i := mem[..], 0;
      ThreadsParts(m, ring, stacks, code);
      WalkStep(m, ring, stacks, code, 0);
      ScannedMore(m, ring, 0);
      var th: int := curr;
      slots, scanned := [], [];
      var more := true;
      while more
        invariant 0 <= i <= |ring| && (if more then i < |ring| && th == ring[i] else i == |ring|)
        invariant slots == ExceptionSlots(ring[..i]) && scanned == Scanned(m, ring[..i], curr)
        decreases |ring| - i
      {
        WalkStep(m, ring, stacks, code, i);
        ScannedMore(m, ring, i);
        slots := slots + [th + STACK - 1];
        scanned := ScanStack(th, scanned);
        th := mem[th];
        more := th != curr;
        i := i + 1;
      }
      WholeRing(ring);
    }

    /** caml_thread_scan_roots: the slots that the action is given, the threads whose stacks are scanned, and
        the hook called at the end, 0 for none. */
    method ScanRoots() returns (slots: seq<int>, scanned: seq<int>, called: Word)
      requires Valid() && curr != 0
      ensures slots == ExceptionSlots(ring) && scanned == Scanned(mem[..], ring, curr)
      ensures called == prevScanRootsHook
      ensures forall t :: t in ring ==> t in Contents().contexts && |Contents().contexts[t].globals| == 8
      ensures forall t :: t in scanned <==> t in ring && t != curr as int && Contents().contexts[t].globals[0] != 0
      ensures forall i, j :: 0 <= i < j < |scanned| ==> scanned[i] != scanned[j]
      ensures forall t :: t in scanned ==>
        && 0 <= t && t + DESCRIPTOR <= mem.Length && mem[t + STACK] as int + FRAME <= mem.Length
        && mem[mem[t + STACK] + 9] == code.afterSwitch
      ensures |slots| == |ring| && forall k :: 0 <= k < |ring| ==> slots[k] == ring[k] + 10
      ensures forall k :: 1 <= k < |ring| ==>
        0 <= slots[k] < mem.Length && mem[slots[k]] == Contents().contexts[ring[k]].globals[7]
    {
      hide Threads, Scanned, ExceptionSlots, Abstract, Starts, Suspended, Saved;
      slots, scanned := VisitThreads();
      ScannedContexts(mem[..], ring, stacks, code, Live());
      UnstartedUnscanned(mem[..], ring, stacks, code);
      ThreadsScannedOnce(mem[..], ring, stacks, code);
      called := 0;
      if prevScanRootsHook != 0 {
        called := prevScanRootsHook;
      }
    }

    /** The stack of a thread other than the running one, if it has saved one. */
    method ScanStack(th: int, before: seq<int>) returns (scanned: seq<int>)
      requires 0 <= th && th + DESCRIPTOR <= mem.Length
      ensures scanned == before + (if th != curr as int && HasStack(mem[..], th) then [th] else [])
    {
      scanned := before;
      if th != curr as int {
        if mem[th + SAVED] != 0 {
          scanned := scanned + [th];
        }
      }
    }
  }

  lemma WholeRing(ring: seq<int>)
    ensures ring[..|ring|] == ring
  {
  }
}
