/** What the scheduler of Thread_stubs.c is for: threads with private contexts that take turns.

    The ring lists the threads from the running one on. */
module Coroutines {
  import opened Words
  import opened DList

  /** What a thread must find again when it goes on: r4-r12, d8-d15, sp, the eight shared variables of the
      OCaml runtime, and its stack from sp up. */
  datatype Context = Context(core: seq<Word>, vfp: seq<Word>, sp: int, globals: seq<Word>, stack: seq<Word>)

  datatype State = State(ring: seq<int>, contexts: map<int, Context>)

  ghost predicate Valid(c: State) {
    && |c.ring| > 0
    && (forall i, j :: 0 <= i < j < |c.ring| ==> c.ring[i] != c.ring[j])
    && (forall i :: 0 <= i < |c.ring| ==> c.ring[i] in c.contexts)
  }

  /** The running thread yields: the next one runs, and every context stays as it is. */
  function Yield(c: State): State
    requires Valid(c)
  {
    c.(ring := Rotated(c.ring, 1))
  }

  /** The running thread creates one, which runs at once; the creator goes to the end of the ring. */
  function Create(c: State, th: int, start: Context): State
    requires Valid(c)
  {
    State([th] + c.ring[1..] + [c.ring[0]], c.contexts[th := start])
  }

  /** The running thread computes, which changes its own context only. */
  function Work(c: State, context: Context): State
    requires Valid(c)
  {
    c.(contexts := c.contexts[c.ring[0] := context])
  }

  datatype Event = Yields | Creates(th: int, start: Context) | Works(context: Context)

  predicate Possible(c: State, e: Event) {
    e.Creates? ==> e.th !in c.ring
  }

  function Step(c: State, e: Event): (c': State)
    requires Valid(c) && Possible(c, e)
    ensures Valid(c')
  {
    match e
    case Yields => Yield(c)
    case Creates(th, start) => Create(c, th, start)
    case Works(context) => Work(c, context)
  }

  ghost predicate AllPossible(c: State, es: seq<Event>)
    requires Valid(c)
    decreases |es|
  {
    es == [] || (Possible(c, es[0]) && AllPossible(Step(c, es[0]), es[1..]))
  }

  ghost function Run(c: State, es: seq<Event>): (c': State)
    requires Valid(c) && AllPossible(c, es)
    ensures Valid(c')
    decreases |es|
  {
    if es == [] then c else Run(Step(c, es[0]), es[1..])
  }

  // ----- Isolation -----

  /** The contexts that thread t gave itself while it ran, in order. */
  ghost function WorkOf(c: State, es: seq<Event>, t: int): seq<Context>
    requires Valid(c) && AllPossible(c, es)
    decreases |es|
  {
    if es == [] then []
    else (if es[0].Works? && c.ring[0] == t then [es[0].context] else []) + WorkOf(Step(c, es[0]), es[1..], t)
  }

  /** Whatever yields, creations and computations of other threads come in between, a thread finds the
      context that it left. */
  lemma {:induction false} Isolation(c: State, es: seq<Event>, t: int)
    requires Valid(c) && AllPossible(c, es) && t in c.ring
    ensures t in Run(c, es).ring
    ensures var own := WorkOf(c, es, t);
      Run(c, es).contexts[t] == if own == [] then c.contexts[t] else own[|own| - 1]
    decreases |es|
  {
    if es != [] {
      StepKeeps(c, es[0], t);
      Isolation(Step(c, es[0]), es[1..], t);
    }
  }

  /** A thread never leaves the ring. */
  lemma StepKeeps(c: State, e: Event, t: int)
    requires Valid(c) && Possible(c, e) && t in c.ring
    ensures t in Step(c, e).ring
    ensures Step(c, e).contexts[t] == if e.Works? && c.ring[0] == t then e.context else c.contexts[t]
  {
    var i :| 0 <= i < |c.ring| && c.ring[i] == t;
    if e.Yields? {
      assert Rotated(c.ring, 1)[if i == 0 then |c.ring| - 1 else i - 1] == t;
    } else if e.Creates? {
      assert ([e.th] + c.ring[1..] + [c.ring[0]])[if i == 0 then |c.ring| else i] == t;
    }
  }

  // ----- Fairness -----

  function YieldCount(es: seq<Event>): nat {
    if es == [] then 0 else (if es[0].Yields? then 1 else 0) + YieldCount(es[1..])
  }

  /** A thread at distance d is at distance d - y after y yields, however many threads were created. */
  lemma {:induction false} Distance(c: State, es: seq<Event>, d: nat)
    requires Valid(c) && AllPossible(c, es) && 0 < d < |c.ring| && YieldCount(es) < d
    ensures d - YieldCount(es) < |Run(c, es).ring| && Run(c, es).ring[d - YieldCount(es)] == c.ring[d]
    decreases |es|
  {
    if es != [] {
      var d' := if es[0].Yields? then d - 1 else d;
      assert Step(c, es[0]).ring[d'] == c.ring[d];
      Distance(Step(c, es[0]), es[1..], d');
    }
  }

  /** Bounded waiting: it does not run before the d-th yield, and then it does. */
  lemma {:induction false} RunsAfter(c: State, es: seq<Event>, d: nat)
    requires Valid(c) && AllPossible(c, es) && 0 < d < |c.ring| && YieldCount(es) < d
    ensures Run(c, es).ring[0] != c.ring[d]
    ensures Step(Run(c, es), Yields).ring[0] == c.ring[d] <==> YieldCount(es) == d - 1
  {
    Distance(c, es, d);
    var c' := Run(c, es);
    assert Step(c', Yields).ring[0] == c'.ring[1];
  }
}
