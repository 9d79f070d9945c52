/** Cyclic doubly linked lists threaded through a word memory (list.h).

    A node `d` occupies two words: `m[d]` is its `next` field and `m[d + 1]` its `prev` field.
    Every operation is a method on the memory array, specified by a function on memory contents;
    the lemmas say what those functions do to rings. */
module DList {
  import opened Words

  predicate Node(m: seq<Word>, d: int) {
    0 <= d && d + 1 < |m| <= MEM_WORDS
  }

  /** d and both its neighbours are nodes of the memory. */
  predicate Linked(m: seq<Word>, d: int) {
    Node(m, d) && Node(m, m[d]) && Node(m, m[d + 1])
  }

  // ----- The operations as functions of the memory contents -----

  function Init(m: seq<Word>, d: int): (m': seq<Word>)
    requires Node(m, d)
    ensures |m'| == |m|
  {
    m[d := d][d + 1 := d]
  }

  function InsertAfter(m: seq<Word>, d1: int, d2: int): (m': seq<Word>)
    requires Linked(m, d1) && Linked(m, d2)
    ensures |m'| == |m|
  {
    m[d1 := d2][d2 + 1 := d1][m[d2 + 1] := m[d1]][m[d1] + 1 := m[d2 + 1]]
  }

  function InsertBefore(m: seq<Word>, d1: int, d2: int): (m': seq<Word>)
    requires Linked(m, d1) && Linked(m, d2)
    ensures |m'| == |m|
  {
    m[m[d1 + 1] := d2][d2 + 1 := m[d1 + 1]][m[d2 + 1] := d1][d1 + 1 := m[d2 + 1]]
  }

  /** d leaves its ring and becomes a ring of its own. */
  function Remove(m: seq<Word>, d: int): (m': seq<Word>)
    requires Linked(m, d)
    ensures |m'| == |m|
  {
    var m1 := m[m[d + 1] := m[d]];
    m1[m1[d] + 1 := m1[d + 1]][d := d][d + 1 := d]
  }

  // ----- The operations as the code performs them -----

  method DListInit(mem: array<Word>, d: int)
    requires Node(mem[..], d)
    modifies mem
    ensures mem[..] == Init(old(mem[..]), d)
  {
    mem[d] := d;
    mem[d + 1] := d;
  }

  method DListInsertAfter(mem: array<Word>, d1: int, d2: int)
    requires Linked(mem[..], d1) && Linked(mem[..], d2)
    modifies mem
    ensures mem[..] == InsertAfter(old(mem[..]), d1, d2)
  {
    var n1 := mem[d1];
    var e2 := mem[d2 + 1];
    mem[d1] := d2;
    mem[d2 + 1] := d1;
    mem[e2] := n1;
    mem[n1 + 1] := e2;
  }

  method DListInsertBefore(mem: array<Word>, d1: int, d2: int)
    requires Linked(mem[..], d1) && Linked(mem[..], d2)
    modifies mem
    ensures mem[..] == InsertBefore(old(mem[..]), d1, d2)
  {
    var e1 := mem[d1 + 1];
    var e2 := mem[d2 + 1];
    mem[e1] := d2;
    mem[d2 + 1] := e1;
    mem[e2] := d1;
    mem[d1 + 1] := e2;
  }

  method DListRemove(mem: array<Word>, d: int)
    requires Linked(mem[..], d)
    modifies mem
    ensures mem[..] == Remove(old(mem[..]), d)
  {
    mem[mem[d + 1]] := mem[d];
    mem[mem[d] + 1] := mem[d + 1];
    mem[d] := d;
    mem[d + 1] := d;
  }

  // ----- Lists: a pointer to the first node of a ring, or NULL -----

  /** Pushing d2 to the front makes it the first node. */
  method DListPush(mem: array<Word>, head: int, d2: int) returns (head': int)
    requires head != 0 ==> Linked(mem[..], head) && Linked(mem[..], d2)
    modifies mem
    ensures mem[..] == if head != 0 then InsertBefore(old(mem[..]), head, d2) else old(mem[..])
    ensures head' == d2
  {
    if head != 0 {
      DListInsertBefore(mem, head, d2);
    }
    head' := d2;
  }

  /** Popping makes the next node the first, or leaves an empty list. */
  method DListPop(mem: array<Word>, head: int) returns (head': int, d1: int)
    requires Linked(mem[..], head)
    modifies mem
    ensures mem[..] == Remove(old(mem[..]), head)
    ensures d1 == head
    ensures head' == if old(mem[head]) == head then 0 else old(mem[head])
  {
    d1 := head;
    var d2 := mem[d1];
    DListRemove(mem, d1);
    if d1 == d2 {
      head' := 0;
    } else {
      head' := d2;
    }
  }

  /** Removing a node advances the list pointer if it was the first. */
  method DListRemoveFrom(mem: array<Word>, head: int, d2: int) returns (head': int)
    requires Linked(mem[..], d2)
    modifies mem
    ensures mem[..] == Remove(old(mem[..]), d2)
    ensures head' == if head != d2 then head else if old(mem[d2]) == d2 then 0 else old(mem[d2])
  {
    head' := head;
    if head == d2 {
      var d1;
      head', d1 := DListPop(mem, head);
    } else {
      DListRemove(mem, d2);
    }
  }

  // ----- Rings of objects -----

  /** The index after i in a cyclic sequence of n elements. */
  function After(i: nat, n: nat): (j: nat)
    requires i < n
    ensures j < n
  {
    if i + 1 == n then 0 else i + 1
  }

  /** Nodes at the given addresses do not overlap. */
  ghost predicate Apart(s: seq<int>) {
    forall i, j :: 0 <= i < |s| && 0 <= j < |s| && i != j ==> s[i] + 2 <= s[j] || s[j] + 2 <= s[i]
  }

  /** Next leads from node a to node b, and prev leads back. */
  predicate Edge(m: seq<Word>, a: int, b: int) {
    Node(m, a) && Node(m, b) && m[a] == b && m[b + 1] == a
  }

  /** The objects s, each with its node at offset off, form one ring in this order. */
  ghost predicate Ring(m: seq<Word>, s: seq<int>, off: int) {
    && Apart(s)
    && forall i :: 0 <= i < |s| ==> Edge(m, s[i] + off, s[After(i, |s|)] + off)
  }

  function Before(i: nat, n: nat): (j: nat)
    requires i < n
    ensures j < n && After(j, n) == i
  {
    if i == 0 then n - 1 else i - 1
  }

  lemma RingEdge(m: seq<Word>, s: seq<int>, off: int, i: nat)
    requires Ring(m, s, off) && i < |s|
    ensures Edge(m, s[i] + off, s[After(i, |s|)] + off)
  {
  }

  lemma RingApart(m: seq<Word>, s: seq<int>, off: int)
    requires Ring(m, s, off)
    ensures Apart(s)
  {
  }

  lemma RingMade(m: seq<Word>, s: seq<int>, off: int)
    requires Apart(s) && forall i :: 0 <= i < |s| ==> Edge(m, s[i] + off, s[After(i, |s|)] + off)
    ensures Ring(m, s, off)
  {
  }

  lemma RingLinked(m: seq<Word>, s: seq<int>, off: int, k: nat)
    requires Ring(m, s, off) && k < |s|
    ensures Linked(m, s[k] + off)
    ensures m[s[k] + off] == s[After(k, |s|)] + off
    ensures m[s[k] + off + 1] == s[Before(k, |s|)] + off
  {
    hide Ring;
    RingEdge(m, s, off, Before(k, |s|));
    RingEdge(m, s, off, k);
  }

  /** Two memories that agree on the nodes of s. */
  ghost predicate SameNodes(m: seq<Word>, m': seq<Word>, s: seq<int>, off: int) {
    |m| == |m'| &&
    forall i :: 0 <= i < |s| && Node(m, s[i] + off) ==>
      m'[s[i] + off] == m[s[i] + off] && m'[s[i] + off + 1] == m[s[i] + off + 1]
  }

  /** A ring depends only on the words of its nodes. */
  lemma RingFrame(m: seq<Word>, m': seq<Word>, s: seq<int>, off: int)
    requires Ring(m, s, off) && SameNodes(m, m', s, off)
    ensures Ring(m', s, off)
  {
    forall i | 0 <= i < |s|
      ensures Edge(m', s[i] + off, s[After(i, |s|)] + off)
    {
      assert Edge(m, s[i] + off, s[After(i, |s|)] + off);
    }
  }

  // ----- Splicing -----

  /** Every node of s is apart from every node of t. */
  ghost predicate ApartFrom(s: seq<int>, t: seq<int>) {
    forall i, j :: 0 <= i < |s| && 0 <= j < |t| ==> s[i] + 2 <= t[j] || t[j] + 2 <= s[i]
  }

  /** The sequence t put into s after position k. */
  function Spliced<T>(s: seq<T>, k: nat, t: seq<T>): (r: seq<T>)
    requires k < |s|
    ensures |r| == |s| + |t|
  {
    s[..k + 1] + t + s[k + 1..]
  }

  lemma SplicedApart(s: seq<int>, k: nat, t: seq<int>)
    requires k < |s| && Apart(s) && Apart(t) && ApartFrom(s, t)
    ensures Apart(Spliced(s, k, t))
  {
    var r := Spliced(s, k, t);
    forall i, j | 0 <= i < |r| && 0 <= j < |r| && i != j
      ensures r[i] + 2 <= r[j] || r[j] + 2 <= r[i]
    {
      SplicedItem(s, k, t, i);
      SplicedItem(s, k, t, j);
    }
  }

  lemma SplicedItem<T>(s: seq<T>, k: nat, t: seq<T>, i: nat)
    requires k < |s| && i < |s| + |t|
    ensures Spliced(s, k, t)[i] == if i <= k then s[i] else if i <= k + |t| then t[i - k - 1] else s[i - |t|]
  {
  }

  /** Only next of a, next of e, prev of b and prev of n differ between m and m'. */
  ghost predicate Rewired(m: seq<Word>, m': seq<Word>, a: int, b: int, e: int, n: int) {
    |m'| == |m| &&
    forall w :: 0 <= w < |m| && w != a && w != b + 1 && w != e && w != n + 1 ==> m'[w] == m[w]
  }

  /** Two nodes are the same or do not overlap. */
  predicate Clear(a: int, b: int) {
    a == b || a + 2 <= b || b + 2 <= a
  }

  /** Inserting a node d2 after d1: the two edges that left d1 and entered d2 are crossed over. */
  lemma SpliceEdges(m: seq<Word>, d1: int, n1: int, d2: int, e2: int)
    requires Linked(m, d1) && Linked(m, d2) && Edge(m, d1, n1) && Edge(m, e2, d2)
    requires Clear(d1, d2) && Clear(n1, d2) && Clear(d1, e2) && Clear(n1, e2)
    ensures var m' := InsertAfter(m, d1, d2);
      && Edge(m', d1, d2) && Edge(m', e2, n1)
      && Rewired(m, m', d1, d2, e2, n1)
  {
  }

  /** An edge of a ring whose ends are not rewired survives. */
  lemma KeptEdge(m: seq<Word>, m': seq<Word>, s: seq<int>, off: int, x: nat, a: int, b: int, e: int, n: int)
    requires Ring(m, s, off) && x < |s| && Rewired(m, m', a, b, e, n)
    requires var p, q := s[x] + off, s[After(x, |s|)] + off;
      p != a && p != e && q != b && q != n && p != b + 1 && p != n + 1 && q + 1 != a && q + 1 != e
    ensures Edge(m', s[x] + off, s[After(x, |s|)] + off)
  {
    assert Edge(m, s[x] + off, s[After(x, |s|)] + off);
  }

  /** The memory after a node of ring t is inserted after s[k]. */
  ghost predicate Joined(m: seq<Word>, m': seq<Word>, s: seq<int>, off: int, k: nat, t: seq<int>)
    requires k < |s| && |t| > 0
  {
    && Rewired(m, m', s[k] + off, t[0] + off, t[|t| - 1] + off, s[After(k, |s|)] + off)
    && Edge(m', s[k] + off, t[0] + off) && Edge(m', t[|t| - 1] + off, s[After(k, |s|)] + off)
  }

  lemma JoinKeepsOuter(m: seq<Word>, m': seq<Word>, s: seq<int>, off: int, k: nat, t: seq<int>, x: nat)
    requires Ring(m, s, off) && k < |s| && |t| > 0 && ApartFrom(s, t) && Joined(m, m', s, off, k, t)
    requires x < |s| && x != k
    ensures Edge(m', s[x] + off, s[After(x, |s|)] + off)
  {
    KeptEdge(m, m', s, off, x, s[k] + off, t[0] + off, t[|t| - 1] + off, s[After(k, |s|)] + off);
  }

  lemma JoinKeepsInner(m: seq<Word>, m': seq<Word>, s: seq<int>, off: int, k: nat, t: seq<int>, x: nat)
    requires Ring(m, t, off) && k < |s| && |t| > 0 && ApartFrom(s, t) && Joined(m, m', s, off, k, t)
    requires x < |t| - 1
    ensures Edge(m', t[x] + off, t[x + 1] + off)
  {
    KeptEdge(m, m', t, off, x, s[k] + off, t[0] + off, t[|t| - 1] + off, s[After(k, |s|)] + off);
  }

  lemma JoinedEdge(m: seq<Word>, m': seq<Word>, s: seq<int>, off: int, k: nat, t: seq<int>, i: nat)
    requires Ring(m, s, off) && Ring(m, t, off) && k < |s| && |t| > 0 && ApartFrom(s, t)
    requires Joined(m, m', s, off, k, t) && i < |s| + |t|
    ensures Edge(m', Spliced(s, k, t)[i] + off, Spliced(s, k, t)[After(i, |s| + |t|)] + off)
  {
    hide Ring, ApartFrom, Rewired, Edge, Spliced;
    SplicedItem(s, k, t, i);
    SplicedItem(s, k, t, After(i, |s| + |t|));
    if k < i < k + |t| {
      JoinKeepsInner(m, m', s, off, k, t, i - k - 1);
    } else if i != k && i != k + |t| {
      JoinKeepsOuter(m, m', s, off, k, t, if i < k then i else i - |t|);
    }
  }

  lemma ApartClear(s: seq<int>, t: seq<int>, off: int, i: nat, j: nat)
    requires ApartFrom(s, t) && i < |s| && j < |t|
    ensures Clear(s[i] + off, t[j] + off)
  {
  }

  /** Inserting a node of another ring joins the two rings. */
  lemma Join(m: seq<Word>, s: seq<int>, off: int, k: nat, t: seq<int>)
    requires Ring(m, s, off) && Ring(m, t, off) && k < |s| && |t| > 0 && ApartFrom(s, t)
    ensures Linked(m, s[k] + off) && Linked(m, t[0] + off)
    ensures Ring(InsertAfter(m, s[k] + off, t[0] + off), Spliced(s, k, t), off)
  {
    hide *;
    InsertJoins(m, s, off, k, t);
    RingApart(m, s, off);
    RingApart(m, t, off);
    SplicedApart(s, k, t);
    JoinedRing(m, InsertAfter(m, s[k] + off, t[0] + off), s, off, k, t);
  }

  lemma InsertJoins(m: seq<Word>, s: seq<int>, off: int, k: nat, t: seq<int>)
    requires Ring(m, s, off) && Ring(m, t, off) && k < |s| && |t| > 0 && ApartFrom(s, t)
    ensures Linked(m, s[k] + off) && Linked(m, t[0] + off)
    ensures Joined(m, InsertAfter(m, s[k] + off, t[0] + off), s, off, k, t)
  {
    hide Ring, ApartFrom, Edge, Linked, Clear, InsertAfter, Rewired;
    var n, e := After(k, |s|), |t| - 1;
    RingLinked(m, s, off, k);
    RingLinked(m, t, off, 0);
    RingEdge(m, s, off, k);
    RingEdge(m, t, off, e);
    ApartClear(s, t, off, k, 0);
    ApartClear(s, t, off, k, e);
    ApartClear(s, t, off, n, 0);
    ApartClear(s, t, off, n, e);
    SpliceEdges(m, s[k] + off, s[n] + off, t[0] + off, t[e] + off);
  }

  lemma JoinedRing(m: seq<Word>, m': seq<Word>, s: seq<int>, off: int, k: nat, t: seq<int>)
    requires Ring(m, s, off) && Ring(m, t, off) && k < |s| && |t| > 0 && ApartFrom(s, t)
    requires Joined(m, m', s, off, k, t) && Apart(Spliced(s, k, t))
    ensures Ring(m', Spliced(s, k, t), off)
  {
    hide Ring, Apart, ApartFrom, Edge, Joined, Spliced, After;
    var r := Spliced(s, k, t);
    forall i | 0 <= i < |r|
      ensures Edge(m', r[i] + off, r[After(i, |r|)] + off)
    {
      JoinedEdge(m, m', s, off, k, t, i);
    }
    RingMade(m', r, off);
  }

  // ----- Splitting -----

  /** The memory after s[j] is inserted after s[0] of the same ring. */
  ghost predicate Cut(m: seq<Word>, m': seq<Word>, s: seq<int>, off: int, j: nat)
    requires j < |s|
  {
    && Rewired(m, m', s[0] + off, s[j] + off, s[Before(j, |s|)] + off, s[After(0, |s|)] + off)
    && Edge(m', s[0] + off, s[j] + off) && Edge(m', s[Before(j, |s|)] + off, s[After(0, |s|)] + off)
  }

  lemma CutKeeps(m: seq<Word>, m': seq<Word>, s: seq<int>, off: int, j: nat, x: nat)
    requires Ring(m, s, off) && j < |s| && Cut(m, m', s, off, j)
    requires 0 < x < |s| && x != Before(j, |s|)
    ensures Edge(m', s[x] + off, s[After(x, |s|)] + off)
  {
    KeptEdge(m, m', s, off, x, s[0] + off, s[j] + off, s[Before(j, |s|)] + off, s[After(0, |s|)] + off);
  }

  /** The part of ring s that keeps s[0] when s[j] is inserted after s[0]; the rest is s[1..j]
      (or, for j = 0, all of s but s[0]). */
  function Head<T>(s: seq<T>, j: nat): seq<T>
    requires j < |s|
  {
    if j == 0 then [s[0]] else [s[0]] + s[j..]
  }

  function Rest<T>(s: seq<T>, j: nat): seq<T>
    requires j < |s|
  {
    if j == 0 then s[1..] else s[1..j]
  }

  lemma HeadEdge(m: seq<Word>, m': seq<Word>, s: seq<int>, off: int, j: nat, i: nat)
    requires Ring(m, s, off) && j < |s| && Cut(m, m', s, off, j)
    requires i < |Head(s, j)|
    ensures Edge(m', Head(s, j)[i] + off, Head(s, j)[After(i, |Head(s, j)|)] + off)
  {
    hide Ring, Rewired, Edge;
    if 0 < i {
      CutKeeps(m, m', s, off, j, i + j - 1);
    }
  }

  lemma RestEdge(m: seq<Word>, m': seq<Word>, s: seq<int>, off: int, j: nat, i: nat)
    requires Ring(m, s, off) && j < |s| && Cut(m, m', s, off, j)
    requires i < |Rest(s, j)|
    ensures Edge(m', Rest(s, j)[i] + off, Rest(s, j)[After(i, |Rest(s, j)|)] + off)
  {
    hide Ring, Rewired, Edge;
    if i + 1 < |Rest(s, j)| {
      CutKeeps(m, m', s, off, j, i + 1);
    }
  }

  lemma HeadItem<T>(s: seq<T>, j: nat, i: nat)
    requires j < |s| && i < |Head(s, j)|
    ensures i == 0 || 0 <= i + j - 1 < |s|
    ensures Head(s, j)[i] == if i == 0 then s[0] else s[i + j - 1]
    ensures 0 < i ==> 0 < j
  {
  }

  lemma RestItem<T>(s: seq<T>, j: nat, i: nat)
    requires j < |s| && i < |Rest(s, j)|
    ensures i + 1 < |s| && Rest(s, j)[i] == s[i + 1]
  {
  }

  lemma CutApart(s: seq<int>, j: nat)
    requires Apart(s) && j < |s|
    ensures Apart(Head(s, j)) && Apart(Rest(s, j))
  {
    hide Head, Rest;
    var h, r := Head(s, j), Rest(s, j);
    forall x, y | 0 <= x < |h| && 0 <= y < |h| && x != y
      ensures h[x] + 2 <= h[y] || h[y] + 2 <= h[x]
    {
      HeadItem(s, j, x);
      HeadItem(s, j, y);
    }
    forall x, y | 0 <= x < |r| && 0 <= y < |r| && x != y
      ensures r[x] + 2 <= r[y] || r[y] + 2 <= r[x]
    {
      RestItem(s, j, x);
      RestItem(s, j, y);
    }
  }

  lemma CutEnds(m: seq<Word>, s: seq<int>, off: int, j: nat)
    requires Ring(m, s, off) && j < |s|
    ensures Linked(m, s[0] + off) && Linked(m, s[j] + off)
    ensures var n, e := After(0, |s|), Before(j, |s|);
      && Edge(m, s[0] + off, s[n] + off) && Edge(m, s[e] + off, s[j] + off)
      && Clear(s[0] + off, s[j] + off) && Clear(s[n] + off, s[j] + off) && Clear(s[0] + off, s[e] + off)
      && Clear(s[n] + off, s[e] + off)
  {
    RingLinked(m, s, off, 0);
    RingLinked(m, s, off, j);
    var n, e := After(0, |s|), Before(j, |s|);
    assert Edge(m, s[0] + off, s[n] + off) && Edge(m, s[e] + off, s[After(e, |s|)] + off);
  }

  lemma InsertCuts(m: seq<Word>, s: seq<int>, off: int, j: nat)
    requires Ring(m, s, off) && j < |s|
    ensures Linked(m, s[0] + off) && Linked(m, s[j] + off)
    ensures Cut(m, InsertAfter(m, s[0] + off, s[j] + off), s, off, j)
  {
    hide Ring, Edge, Linked, Clear, InsertAfter, Rewired;
    CutEnds(m, s, off, j);
    SpliceEdges(m, s[0] + off, s[After(0, |s|)] + off, s[j] + off, s[Before(j, |s|)] + off);
  }

  /** Inserting a node of the same ring splits the ring. */
  lemma Split(m: seq<Word>, s: seq<int>, off: int, j: nat)
    requires Ring(m, s, off) && j < |s|
    ensures Linked(m, s[0] + off) && Linked(m, s[j] + off)
    ensures var m' := InsertAfter(m, s[0] + off, s[j] + off);
      Ring(m', Head(s, j), off) && Ring(m', Rest(s, j), off)
  {
    hide Edge, Cut, InsertAfter, Head, Rest, Linked, Apart;
    InsertCuts(m, s, off, j);
    CutApart(s, j);
    var m' := InsertAfter(m, s[0] + off, s[j] + off);
    forall i | 0 <= i < |Head(s, j)|
      ensures Edge(m', Head(s, j)[i] + off, Head(s, j)[After(i, |Head(s, j)|)] + off)
    {
      HeadEdge(m, m', s, off, j, i);
    }
    forall i | 0 <= i < |Rest(s, j)|
      ensures Edge(m', Rest(s, j)[i] + off, Rest(s, j)[After(i, |Rest(s, j)|)] + off)
    {
      RestEdge(m, m', s, off, j, i);
    }
  }

  /** The sequence started at position k. */
  function Rotated<T>(s: seq<T>, k: nat): (r: seq<T>)
    requires k <= |s|
    ensures |r| == |s|
  {
    s[k..] + s[..k]
  }

  /** A ring has no first element. */
  lemma Rotate(m: seq<Word>, s: seq<int>, off: int, k: nat)
    requires Ring(m, s, off) && k <= |s|
    ensures Ring(m, Rotated(s, k), off)
  {
    hide Edge, Apart, Rotated;
    var r := Rotated(s, k);
    RotatedApart(s, k);
    forall i | 0 <= i < |r|
      ensures Edge(m, r[i] + off, r[After(i, |r|)] + off)
    {
      RotatedItem(s, k, i);
      RotatedItem(s, k, After(i, |r|));
      var x := if i + k < |s| then i + k else i + k - |s|;
      assert Edge(m, s[x] + off, s[After(x, |s|)] + off);
    }
  }

  lemma RotatedItem<T>(s: seq<T>, k: nat, i: nat)
    requires k <= |s| && i < |s|
    ensures Rotated(s, k)[i] == s[if i + k < |s| then i + k else i + k - |s|]
  {
  }

  lemma RotatedApart(s: seq<int>, k: nat)
    requires k <= |s| && Apart(s)
    ensures Apart(Rotated(s, k))
  {
    hide Rotated;
    var r := Rotated(s, k);
    forall i, j | 0 <= i < |r| && 0 <= j < |r| && i != j
      ensures r[i] + 2 <= r[j] || r[j] + 2 <= r[i]
    {
      RotatedItem(s, k, i);
      RotatedItem(s, k, j);
    }
  }

  // ----- Laws of the splice that hold whatever rings the nodes are in -----

  /** d's neighbours are in the set and lead back to it. */
  ghost predicate InverseAt(m: seq<Word>, nodes: set<int>, d: int) {
    Node(m, d) && Edge(m, d, m[d]) && Edge(m, m[d + 1], d) && m[d] in nodes && m[d + 1] in nodes
  }

  /** A set of nodes, clear of each other, closed under next and prev, which undo each other. */
  ghost predicate Inverse(m: seq<Word>, nodes: set<int>) {
    && (forall a, b {:trigger Clear(a, b)} :: a in nodes && b in nodes ==> Clear(a, b))
    && (forall d {:trigger InverseAt(m, nodes, d)} :: d in nodes ==> InverseAt(m, nodes, d))
  }

  /** What InsertAfter(d1, d2) needs to know of its four nodes. */
  lemma InverseEnds(m: seq<Word>, nodes: set<int>, d1: int, d2: int)
    requires Inverse(m, nodes) && d1 in nodes && d2 in nodes
    ensures Linked(m, d1) && Linked(m, d2)
    ensures var n1, e2 := m[d1], m[d2 + 1];
      && n1 in nodes && e2 in nodes && Edge(m, d1, n1) && Edge(m, e2, d2)
      && Linked(m, n1) && Linked(m, e2)
      && Clear(d1, d2) && Clear(d1, n1) && Clear(d1, e2) && Clear(n1, d2) && Clear(n1, e2) && Clear(e2, d2)
  {
    assert InverseAt(m, nodes, d1) && InverseAt(m, nodes, d2);
    assert InverseAt(m, nodes, m[d1]) && InverseAt(m, nodes, m[d2 + 1]);
  }

  /** A node and its neighbours after a splice elsewhere or at it. */
  lemma SpliceInverse(m: seq<Word>, nodes: set<int>, d1: int, n1: int, d2: int, e2: int, d: int)
    requires Linked(m, d1) && Linked(m, d2) && Edge(m, d1, n1) && Edge(m, e2, d2)
    requires d1 in nodes && n1 in nodes && d2 in nodes && e2 in nodes
    requires Clear(d1, d2) && Clear(n1, d2) && Clear(d1, e2) && Clear(n1, e2)
    requires InverseAt(m, nodes, d)
    requires Clear(d, d1) && Clear(d, n1) && Clear(d, d2) && Clear(d, e2)
    requires Clear(m[d], d1) && Clear(m[d], n1) && Clear(m[d], d2) && Clear(m[d], e2)
    requires Clear(m[d + 1], d1) && Clear(m[d + 1], n1) && Clear(m[d + 1], d2) && Clear(m[d + 1], e2)
    ensures InverseAt(InsertAfter(m, d1, d2), nodes, d)
  {
    hide InsertAfter;
    SpliceEdges(m, d1, n1, d2, e2);
  }

  lemma InverseParts(m: seq<Word>, nodes: set<int>, d: int)
    requires Inverse(m, nodes) && d in nodes
    ensures InverseAt(m, nodes, d) && 0 <= d && d + 1 < |m| && m[d] in nodes && m[d + 1] in nodes
    ensures forall a, b {:trigger Clear(a, b)} :: a in nodes && b in nodes ==> Clear(a, b)
  {
  }

  lemma InsertKeepsInverseAt(m: seq<Word>, nodes: set<int>, d1: int, d2: int, d: int)
    requires Inverse(m, nodes) && d1 in nodes && d2 in nodes && d in nodes
    ensures Linked(m, d1) && Linked(m, d2)
    ensures InverseAt(InsertAfter(m, d1, d2), nodes, d)
  {
    hide *;
    InverseEnds(m, nodes, d1, d2);
    InverseParts(m, nodes, d1);
    InverseParts(m, nodes, d2);
    InverseParts(m, nodes, d);
    SpliceInverse(m, nodes, d1, m[d1], d2, m[d2 + 1], d);
  }

  /** Any splice keeps next and prev inverse to each other. */
  lemma InsertKeepsInverse(m: seq<Word>, nodes: set<int>, d1: int, d2: int)
    requires Inverse(m, nodes) && d1 in nodes && d2 in nodes
    ensures Linked(m, d1) && Linked(m, d2)
    ensures Inverse(InsertAfter(m, d1, d2), nodes)
  {
    hide InverseAt, InsertAfter, Clear;
    InverseEnds(m, nodes, d1, d2);
    forall d | d in nodes
      ensures InverseAt(InsertAfter(m, d1, d2), nodes, d)
    {
      InsertKeepsInverseAt(m, nodes, d1, d2, d);
    }
  }

  /** A splice is undone by inserting d1's former successor after d1. */
  lemma InsertUndone(m: seq<Word>, nodes: set<int>, d1: int, d2: int)
    requires Inverse(m, nodes) && d1 in nodes && d2 in nodes
    ensures Linked(m, d1) && Linked(m, d2)
    ensures Linked(InsertAfter(m, d1, d2), d1) && Linked(InsertAfter(m, d1, d2), m[d1])
    ensures InsertAfter(InsertAfter(m, d1, d2), d1, m[d1]) == m
  {
    InverseEnds(m, nodes, d1, d2);
    hide Inverse;
  }

  /** Inserting before a node is inserting after its predecessor. */
  lemma InsertBeforeIsAfter(m: seq<Word>, nodes: set<int>, d1: int, d2: int)
    requires Inverse(m, nodes) && d1 in nodes && d2 in nodes
    ensures Linked(m, d1) && Linked(m, d2) && Linked(m, m[d1 + 1])
    ensures InsertBefore(m, d1, d2) == InsertAfter(m, m[d1 + 1], d2)
  {
    InverseEnds(m, nodes, d1, d2);
    InverseEnds(m, nodes, d1, d1);
    InverseEnds(m, nodes, m[d1 + 1], d2);
    hide Inverse;
  }

  /** Removing a node is inserting it after itself. */
  lemma RemoveIsInsert(m: seq<Word>, nodes: set<int>, d: int)
    requires Inverse(m, nodes) && d in nodes
    ensures Linked(m, d)
    ensures Remove(m, d) == InsertAfter(m, d, d)
  {
    InverseEnds(m, nodes, d, d);
    hide Inverse;
  }

  // ----- The list operations on rings -----

  ghost function Nodes(s: seq<int>, off: int): set<int> {
    set i | 0 <= i < |s| :: s[i] + off
  }

  lemma RingInverseAt(m: seq<Word>, s: seq<int>, off: int, i: nat)
    requires Ring(m, s, off) && i < |s|
    ensures InverseAt(m, Nodes(s, off), s[i] + off)
  {
    RingLinked(m, s, off, i);
    assert After(Before(i, |s|), |s|) == i;
    assert Edge(m, s[i] + off, s[After(i, |s|)] + off) && Edge(m, s[Before(i, |s|)] + off, s[i] + off);
  }

  lemma NodesClear(s: seq<int>, t: seq<int>, off: int, a: int, b: int)
    requires Apart(s) && Apart(t) && ApartFrom(s, t)
    requires a in Nodes(s, off) + Nodes(t, off) && b in Nodes(s, off) + Nodes(t, off)
    ensures Clear(a, b)
  {
  }

  lemma RingsInverseAt(m: seq<Word>, s: seq<int>, t: seq<int>, off: int, d: int)
    requires Ring(m, s, off) && Ring(m, t, off) && d in Nodes(s, off) + Nodes(t, off)
    ensures InverseAt(m, Nodes(s, off) + Nodes(t, off), d)
  {
    if d in Nodes(s, off) {
      var i :| 0 <= i < |s| && d == s[i] + off;
      hide Ring;
      RingInverseAt(m, s, off, i);
    } else {
      var i :| 0 <= i < |t| && d == t[i] + off;
      hide Ring;
      RingInverseAt(m, t, off, i);
    }
  }

  /** Rings are a special case. */
  lemma RingsInverse(m: seq<Word>, s: seq<int>, t: seq<int>, off: int)
    requires Ring(m, s, off) && Ring(m, t, off) && ApartFrom(s, t)
    ensures Inverse(m, Nodes(s, off) + Nodes(t, off))
  {
    hide InverseAt, Nodes, ApartFrom, Edge, Apart, Clear;
    forall d | d in Nodes(s, off) + Nodes(t, off)
      ensures InverseAt(m, Nodes(s, off) + Nodes(t, off), d)
    {
      RingsInverseAt(m, s, t, off, d);
    }
    forall a, b | a in Nodes(s, off) + Nodes(t, off) && b in Nodes(s, off) + Nodes(t, off)
      ensures Clear(a, b)
    {
      NodesClear(s, t, off, a, b);
    }
  }

  function Without<T>(s: seq<T>, k: nat): seq<T>
    requires k < |s|
  {
    s[..k] + s[k + 1..]
  }

  lemma RotatedOut<T>(s: seq<T>, k: nat)
    requires k < |s|
    ensures Rotated(s, k)[0] == s[k] && Head(Rotated(s, k), 0) == [s[k]]
    ensures |Rest(Rotated(s, k), 0)| == |s| - 1
    ensures Rotated(Rest(Rotated(s, k), 0), |s| - k - 1) == Without(s, k)
  {
  }

  lemma RingAlone(m: seq<Word>, s: seq<int>, off: int, k: nat)
    requires Ring(m, s, off) && k < |s|
    ensures Inverse(m, Nodes(s, off) + Nodes([], off)) && s[k] + off in Nodes(s, off)
  {
    RingsInverse(m, s, [], off);
  }

  /** dlist_remove takes one object out of a ring and leaves it a ring of its own. */
  lemma RingRemoveAt(m: seq<Word>, s: seq<int>, off: int, k: nat)
    requires Ring(m, s, off) && k < |s|
    ensures Linked(m, s[k] + off)
    ensures Ring(Remove(m, s[k] + off), Without(s, k), off)
    ensures Ring(Remove(m, s[k] + off), [s[k]], off)
  {
    hide *;
    RingAlone(m, s, off, k);
    RemoveIsInsert(m, Nodes(s, off) + Nodes([], off), s[k] + off);
    RotatedOut(s, k);
    Rotate(m, s, off, k);
    Split(m, Rotated(s, k), off, 0);
    Rotate(Remove(m, s[k] + off), Rest(Rotated(s, k), 0), off, |s| - k - 1);
  }

  /** dlist_push on a list that is not empty: the new object comes first. */
  lemma RingPush(m: seq<Word>, s: seq<int>, off: int, c: int)
    requires Ring(m, s, off) && |s| > 0 && Ring(m, [c], off) && ApartFrom(s, [c])
    ensures Linked(m, s[0] + off) && Linked(m, c + off)
    ensures Ring(InsertBefore(m, s[0] + off, c + off), [c] + s, off)
  {
    hide *;
    var k := |s| - 1;
    RingsInverse(m, s, [c], off);
    RingLinked(m, s, off, 0);
    FirstNodes(s, c, off);
    InsertBeforeIsAfter(m, Nodes(s, off) + Nodes([c], off), s[0] + off, c + off);
    Join(m, s, off, k, [c]);
    PushRotation(s, c);
    Rotate(InsertBefore(m, s[0] + off, c + off), s + [c], off, |s|);
  }

  lemma FirstNodes(s: seq<int>, c: int, off: int)
    requires |s| > 0
    ensures s[0] + off in Nodes(s, off) && c + off in Nodes([c], off)
    ensures Before(0, |s|) == |s| - 1
  {
    assert [c][0] + off in Nodes([c], off);
  }

  lemma PushRotation(s: seq<int>, c: int)
    requires |s| > 0
    ensures Spliced(s, |s| - 1, [c]) == s + [c] && Rotated(s + [c], |s|) == [c] + s
  {
  }
}
