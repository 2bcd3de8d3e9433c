/** The queues of pending events (ev.c:1414-1444), and the order in which they are called (ev.c:2671-2685). */
module Queues {
  import opened TimerHeap

  /** ANPENDING */
  datatype Pending = Pending(w: Watcher, events: bv32)

  const MINPRI := -2
  const MAXPRI := 2
  const NUMPRI := MAXPRI - MINPRI + 1

  predicate InRange(priority: int) { MINPRI <= priority <= MAXPRI }

  /** The nearest priority in range. */
  function Clamped(priority: int): (p: int)
    ensures InRange(p) && (InRange(priority) ==> p == priority)
    ensures forall q :: InRange(q) ==> priority <= p <= q || q <= p <= priority
  {
    if priority < MINPRI then MINPRI else if priority > MAXPRI then MAXPRI else priority
  }

  /** ABSPRI */
  function Pri(priority: int): nat
    requires InRange(priority)
  {
    priority - MINPRI
  }

  function Or(a: bv32, b: bv32): bv32 { a | b }

  /** All bits of b are set in a. */
  predicate Has(a: bv32, b: bv32) { a & b == b }

  lemma OrHas(a: bv32, b: bv32)
    ensures Has(Or(a, b), b)
  {
  }

  lemma OrKeeps(a: bv32, b: bv32, e: bv32)
    requires Has(a, e)
    ensures Has(Or(a, b), e)
  {
  }

  lemma HasSelf(b: bv32)
    ensures Has(b, b)
  {
  }

  /** The queues with more events for the entry at place i of queue p. */
  function WithEvents(q: seq<seq<Pending>>, p: nat, i: int, revents: bv32): seq<seq<Pending>> {
    if p < |q| && 0 <= i < |q[p]| then q[p := q[p][i := q[p][i].(events := Or(q[p][i].events, revents))]] else q
  }

  /** At this place of its queue there is an entry with at least these events. */
  predicate WaitsIn(q: seq<seq<Pending>>, pending: int, priority: int, revents: bv32) {
    && InRange(priority) && |q| == NUMPRI && 1 <= pending <= |q[Pri(priority)]|
    && Has(q[Pri(priority)][pending - 1].events, revents)
  }

  /** No pending event is lost. */
  ghost predicate Grows(q: seq<seq<Pending>>, q': seq<seq<Pending>>) {
    forall pending, priority, e :: WaitsIn(q, pending, priority, e) ==> WaitsIn(q', pending, priority, e)
  }

  lemma SameGrows(q: seq<seq<Pending>>)
    ensures Grows(q, q)
  {
  }

  lemma GrowsTrans(a: seq<seq<Pending>>, b: seq<seq<Pending>>, c: seq<seq<Pending>>)
    requires Grows(a, b) && Grows(b, c)
    ensures Grows(a, c)
  {
  }

  lemma WaitsMore(q: seq<seq<Pending>>, p: nat, i: nat, revents: bv32)
    requires |q| == NUMPRI && p < NUMPRI && i < |q[p]|
    ensures var q' := WithEvents(q, p, i, revents);
      WaitsIn(q', i + 1, p + MINPRI, revents) && Grows(q, q')
  {
    OrHas(q[p][i].events, revents);
    hide Or, Has;
    forall pending, priority, e | WaitsIn(q, pending, priority, e)
      ensures WaitsIn(WithEvents(q, p, i, revents), pending, priority, e) {
      if Pri(priority) == p && pending == i + 1 { OrKeeps(q[p][i].events, revents, e); }
    }
  }

  lemma WaitsAppend(q: seq<seq<Pending>>, p: nat, w: Watcher, revents: bv32)
    requires |q| == NUMPRI && p < NUMPRI
    ensures var q' := q[p := q[p] + [Pending(w, revents)]];
      WaitsIn(q', |q[p]| + 1, p + MINPRI, revents) && Grows(q, q')
  {
    HasSelf(revents);
    hide Has;
  }

  const EV_TIMER: bv32 := 0x100

  // ---------- the order of calls ----------

  function Reversed(s: seq<Pending>): (r: seq<Pending>)
    ensures |r| == |s| && forall i :: 0 <= i < |s| ==> r[|s| - 1 - i] == s[i]
  {
    if s == [] then [] else Reversed(s[1..]) + [s[0]]
  }

  lemma ReversedEmpty(q: seq<Pending>)
    ensures q[|q|..] == [] && q[..|q|] == q && Reversed([]) == []
  {
  }

  lemma ReversedStep(q: seq<Pending>, n: nat)
    requires n < |q|
    ensures Reversed(q[n..]) == Reversed(q[n + 1..]) + [q[n]] && q[..n + 1][..n] == q[..n] && q[..n + 1][n] == q[n]
  {
    assert q[n..][1..] == q[n + 1..];
  }

  /** The calls for the queues below n: the highest priority first, each queue from its end. */
  function Calls(q: seq<seq<Pending>>, n: nat): seq<Pending>
    requires n <= |q|
  {
    if n == 0 then [] else Reversed(q[n - 1]) + Calls(q, n - 1)
  }

  /** The queues from n on are empty. */
  function Drained(q: seq<seq<Pending>>, n: nat): (r: seq<seq<Pending>>)
    ensures |r| == |q|
  {
    seq(|q|, p requires 0 <= p < |q| => if p < n then q[p] else [])
  }

  lemma DrainedStep(q: seq<seq<Pending>>, n: nat)
    requires n < |q|
    ensures Drained(q, n + 1)[n] == q[n] && Drained(q, n + 1)[n := []] == Drained(q, n)
  {
  }

  lemma DrainedAll(q: seq<seq<Pending>>)
    ensures Drained(q, |q|) == q && forall p :: 0 <= p < |q| ==> Drained(q, 0)[p] == []
  {
  }

  /** When entry i of queue p is called. */
  function CallTime(q: seq<seq<Pending>>, n: nat, p: nat, i: nat): nat
    requires p < n <= |q| && i < |q[p]|
  {
    if p == n - 1 then |q[p]| - 1 - i else |q[n - 1]| + CallTime(q, n - 1, p, i)
  }

  /** Every entry is called at its time. */
  lemma {:induction false} CalledAt(q: seq<seq<Pending>>, n: nat, p: nat, i: nat)
    requires p < n <= |q| && i < |q[p]|
    ensures CallTime(q, n, p, i) < |Calls(q, n)| && Calls(q, n)[CallTime(q, n, p, i)] == q[p][i]
    decreases n
  {
    var r, rest := Reversed(q[n - 1]), Calls(q, n - 1);
    assert Calls(q, n) == r + rest;
    hide Reversed, Calls;
    if p < n - 1 {
      CalledAt(q, n - 1, p, i);
      assert (r + rest)[|r| + CallTime(q, n - 1, p, i)] == rest[CallTime(q, n - 1, p, i)];
    }
  }

  /** Higher priorities are called before lower ones, and in a queue later entries before earlier ones. */
  lemma {:induction false} CallOrder(q: seq<seq<Pending>>, n: nat, p: nat, i: nat, p': nat, i': nat)
    requires p < n <= |q| && p' < n && i < |q[p]| && i' < |q[p']|
    ensures CallTime(q, n, p, i) < CallTime(q, n, p', i') <==> p > p' || (p == p' && i > i')
    decreases n
  {
    if p < n - 1 && p' < n - 1 { CallOrder(q, n - 1, p, i, p', i'); }
  }

  lemma CallsStep(q: seq<seq<Pending>>, n: nat)
    requires n < |q|
    ensures Calls(q, n + 1) == Reversed(q[n]) + Calls(q, n) && Calls(q, 0) == []
  {
  }
}
