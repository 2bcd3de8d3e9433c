/** ev_invoke_pending (ev.c:2671-2685) with callbacks that feed, start and stop watchers. */
module Invocation {
  import opened TimerHeap
  import opened Queues

  /** What a callback may do with the loop. */
  datatype Action = Feed(w: Watcher, revents: bv32) | Start(w: Watcher) | Stop(w: Watcher) | Again(w: Watcher)

  /** A call of the entry found at place `pos` of queue `pri`, and what its callback did. */
  datatype Call = Call(pri: nat, pos: nat, entry: Pending, acts: seq<Action>)

  predicate Clears(a: Action, w: Watcher) { (a.Stop? || a.Again?) && a.w == w }

  predicate FeedsOne(a: Action, w: Watcher) { a.Feed? && a.w == w }

  ghost predicate Stops(acts: seq<Action>, w: Watcher) { exists i :: 0 <= i < |acts| && Clears(acts[i], w) }

  ghost predicate Feeds(acts: seq<Action>, w: Watcher) { exists i :: 0 <= i < |acts| && FeedsOne(acts[i], w) }

  /** One of the first n callbacks stopped the watcher. */
  ghost predicate StoppedBy(log: seq<Call>, n: nat, w: Watcher) {
    exists l :: 0 <= l < n && l < |log| && Stops(log[l].acts, w)
  }

  /** One of the first n callbacks, called for a priority below the bound, fed the watcher. */
  ghost predicate FedBy(log: seq<Call>, n: nat, bound: nat, w: Watcher) {
    exists l :: 0 <= l < n && l < |log| && log[l].pri < bound && Feeds(log[l].acts, w)
  }

  // ---------- what callbacks do to the queues ----------

  /** What is queued stays at its place with its events, but for the watchers that were stopped; what is new was fed. */
  ghost predicate Follows(dummy: Watcher, q: seq<seq<Pending>>, q': seq<seq<Pending>>, acts: seq<Action>) {
    && |q'| == |q|
    && (forall p :: 0 <= p < |q| ==> |q[p]| <= |q'[p]| <= |q[p]| + |acts|)
    && (forall p, i :: 0 <= p < |q| && 0 <= i < |q[p]| ==>
          q'[p][i].w == (if Stops(acts, q[p][i].w) then dummy else q[p][i].w) && Has(q'[p][i].events, q[p][i].events))
    && (forall p, i :: 0 <= p < |q| && |q[p]| <= i < |q'[p]| ==> q'[p][i].w == dummy || Feeds(acts, q'[p][i].w))
  }

  lemma FollowsNone(dummy: Watcher, q: seq<seq<Pending>>)
    ensures Follows(dummy, q, q, [])
  {
  }

  lemma HasTrans(a: bv32, b: bv32, c: bv32)
    requires Has(a, b) && Has(b, c)
    ensures Has(a, c)
  {
    assert a & c == a & (b & c) == (a & b) & c == b & c == c;
  }

  lemma ActsMore(acts: seq<Action>, a: Action)
    ensures forall w :: Stops(acts + [a], w) <==> Stops(acts, w) || Clears(a, w)
    ensures forall w :: Feeds(acts + [a], w) <==> Feeds(acts, w) || FeedsOne(a, w)
    ensures forall w :: Stops([a], w) <==> Clears(a, w)
    ensures forall w :: Feeds([a], w) <==> FeedsOne(a, w)
  {
    var more := acts + [a];
    assert forall i :: 0 <= i < |acts| ==> more[i] == acts[i];
    assert more[|acts|] == a && [a][0] == a;
  }

  lemma FollowsMore(dummy: Watcher, q: seq<seq<Pending>>, q1: seq<seq<Pending>>, q2: seq<seq<Pending>>,
      acts: seq<Action>, a: Action)
    requires Follows(dummy, q, q1, acts) && Follows(dummy, q1, q2, [a])
    ensures Follows(dummy, q, q2, acts + [a])
  {
    ActsMore(acts, a);
    hide Stops, Feeds, Has, Clears, FeedsOne;
    forall p, i | 0 <= p < |q| && 0 <= i < |q[p]| ensures Has(q2[p][i].events, q[p][i].events) {
      HasTrans(q2[p][i].events, q1[p][i].events, q[p][i].events);
    }
  }

  // ---------- a pass over the queues ----------

  /** A pass in progress: the queues it began with, the calls made, when each of the entries it began with was called,
      the queues now, the queue in hand, and how many of its first entries are left of those it began with. Lower
      queues have not been visited. */
  datatype Pass = Pass(dummy: Watcher, q0: seq<seq<Pending>>, log: seq<Call>, turn: map<(nat, nat), nat>,
                       q: seq<seq<Pending>>, pri: nat, left: nat)
  {
    ghost function LeftIn(p: nat): nat
      requires p < |q0|
    {
      if p < pri then |q0[p]| else if p == pri then left else 0
    }
  }

  /** What has become of the watcher of an entry after n calls. */
  ghost function Now(dummy: Watcher, log: seq<Call>, n: nat, w: Watcher): Watcher {
    if StoppedBy(log, n, w) then dummy else w
  }

  /** The entries not called yet are at their places, cleared exactly if a callback stopped their watcher. */
  ghost predicate Waiting(s: Pass) {
    && s.pri <= |s.q0| == |s.q|
    && (forall p :: 0 <= p < |s.q0| ==> s.LeftIn(p) <= |s.q[p]| && s.LeftIn(p) <= |s.q0[p]|)
    && (forall p, i :: 0 <= p < |s.q0| && 0 <= i < s.LeftIn(p) && i < |s.q[p]| && i < |s.q0[p]| ==>
          s.q[p][i].w == Now(s.dummy, s.log, |s.log|, s.q0[p][i].w) && Has(s.q[p][i].events, s.q0[p][i].events))
  }

  /** Every other entry was fed by a callback; in a queue that has been left, by a callback of lower priority. */
  ghost predicate Added(s: Pass) {
    && s.pri <= |s.q0| == |s.q|
    && (forall p, i :: 0 <= p < |s.q0| && s.LeftIn(p) <= i < |s.q[p]| ==>
          s.q[p][i].w == s.dummy || FedBy(s.log, |s.log|, if p > s.pri then p else |s.q0|, s.q[p][i].w))
  }

  /** Call k is that of the entry that was at place i of queue p when the pass began. */
  ghost predicate Met(dummy: Watcher, q0: seq<seq<Pending>>, log: seq<Call>, k: nat, p: nat, i: nat) {
    && p < |q0| && i < |q0[p]| && k < |log| && log[k].pri == p && log[k].pos == i
    && log[k].entry.w == Now(dummy, log, k, q0[p][i].w) && Has(log[k].entry.events, q0[p][i].events)
  }

  /** The entries called so far are those that are not left. */
  ghost predicate Called(s: Pass) {
    && (forall p: nat, i: nat :: (p, i) in s.turn <==> p < |s.q0| && s.LeftIn(p) <= i < |s.q0[p]|)
    && (forall p: nat, i: nat :: (p, i) in s.turn ==> Met(s.dummy, s.q0, s.log, s.turn[(p, i)], p, i))
  }

  predicate Before(a: (nat, nat), b: (nat, nat)) { a.0 > b.0 || (a.0 == b.0 && a.1 > b.1) }

  /** Higher priorities first, and in a queue later entries before earlier ones. */
  ghost predicate InCallOrder(turn: map<(nat, nat), nat>) {
    forall a, b :: a in turn && b in turn ==> (turn[a] < turn[b] <==> Before(a, b))
  }

  /** Priorities never rise during a pass. */
  ghost predicate Descending(log: seq<Call>, pri: nat) {
    && (forall k :: 0 <= k < |log| ==> log[k].pri >= pri)
    && (forall k, l :: 0 <= k < l < |log| ==> log[k].pri >= log[l].pri)
  }

  ghost predicate IsTurn(turn: map<(nat, nat), nat>, log: seq<Call>, k: nat)
    requires k < |log|
  {
    (log[k].pri, log[k].pos) in turn && turn[(log[k].pri, log[k].pos)] == k
  }

  /** Nothing is called but what was queued when the pass began, or has been fed by an earlier callback. */
  ghost predicate Accounted(dummy: Watcher, n: nat, log: seq<Call>, turn: map<(nat, nat), nat>) {
    forall k :: 0 <= k < |log| ==> IsTurn(turn, log, k) || log[k].entry.w == dummy || FedBy(log, k, n, log[k].entry.w)
  }

  ghost predicate PassOK(s: Pass) {
    && Waiting(s) && Added(s) && Called(s) && InCallOrder(s.turn) && Descending(s.log, s.pri)
    && Accounted(s.dummy, |s.q0|, s.log, s.turn)
    && forall a :: a in s.turn ==> s.turn[a] < |s.log|
  }

  lemma PassBegins(dummy: Watcher, q: seq<seq<Pending>>)
    ensures PassOK(Pass(dummy, q, [], map[], q, |q|, 0))
  {
    forall b: bv32 ensures Has(b, b) { HasSelf(b); }
  }

  /** From one queue to the next. */
  lemma PassDown(s: Pass)
    requires PassOK(s) && 0 < s.pri && s.left == 0 && (s.pri < |s.q| ==> s.q[s.pri] == [])
    ensures PassOK(s.(pri := s.pri - 1, left := |s.q0[s.pri - 1]|))
  {
    var s' := s.(pri := s.pri - 1, left := |s.q0[s.pri - 1]|);
    assert forall p :: 0 <= p < |s.q0| ==> s'.LeftIn(p) == s.LeftIn(p);
    hide Met, IsTurn, FedBy, Has, Now;
  }

  /** After the next call of the queue in hand. */
  ghost function After(s: Pass, acts: seq<Action>, q2: seq<seq<Pending>>): Pass
    requires s.pri < |s.q| && s.q[s.pri] != []
  {
    var n := |s.q[s.pri]| - 1;
    s.(log := s.log + [Call(s.pri, n, s.q[s.pri][n], acts)],
       turn := if s.left == n + 1 then s.turn[(s.pri, n) := |s.log|] else s.turn,
       q := q2,
       left := if s.left == n + 1 then n else s.left)
  }

  /** The queue in hand without its last entry. */
  function Popped(q: seq<seq<Pending>>, pri: nat): seq<seq<Pending>>
    requires pri < |q| && q[pri] != []
  {
    q[pri := q[pri][..|q[pri]| - 1]]
  }

  ghost predicate Steps(s: Pass, acts: seq<Action>, q2: seq<seq<Pending>>) {
    && s.pri < |s.q| == |s.q0| && s.q[s.pri] != []
    && Follows(s.dummy, Popped(s.q, s.pri), q2, acts)
  }

  lemma LogMore(log: seq<Call>, c: Call)
    ensures forall w :: StoppedBy(log + [c], |log| + 1, w) <==> StoppedBy(log, |log|, w) || Stops(c.acts, w)
    ensures forall b: nat, w :: FedBy(log + [c], |log| + 1, b, w) <==>
      FedBy(log, |log|, b, w) || (c.pri < b && Feeds(c.acts, w))
    ensures forall k: nat, w :: k <= |log| ==> (StoppedBy(log + [c], k, w) <==> StoppedBy(log, k, w))
    ensures forall k: nat, b: nat, w :: k <= |log| ==> (FedBy(log + [c], k, b, w) <==> FedBy(log, k, b, w))
  {
    hide StoppedBy, FedBy;
    forall w ensures StoppedBy(log + [c], |log| + 1, w) <==> StoppedBy(log, |log|, w) || Stops(c.acts, w) {
      LogNext(log, c, 0, w);
    }
    forall b: nat, w ensures FedBy(log + [c], |log| + 1, b, w) <==>
      FedBy(log, |log|, b, w) || (c.pri < b && Feeds(c.acts, w)) {
      LogNext(log, c, b, w);
    }
    forall k: nat, w | k <= |log| ensures StoppedBy(log + [c], k, w) <==> StoppedBy(log, k, w) {
      LogSame(log, c, k, 0, w);
    }
    forall k: nat, b: nat, w | k <= |log| ensures FedBy(log + [c], k, b, w) <==> FedBy(log, k, b, w) {
      LogSame(log, c, k, b, w);
    }
  }

  lemma LogSame(log: seq<Call>, c: Call, k: nat, b: nat, w: Watcher)
    requires k <= |log|
    ensures StoppedBy(log + [c], k, w) <==> StoppedBy(log, k, w)
    ensures FedBy(log + [c], k, b, w) <==> FedBy(log, k, b, w)
  {
    hide Stops, Feeds;
    var more := log + [c];
    assert forall l :: 0 <= l < |log| ==> more[l] == log[l];
  }

  lemma LogNext(log: seq<Call>, c: Call, b: nat, w: Watcher)
    ensures StoppedBy(log + [c], |log| + 1, w) <==> StoppedBy(log, |log|, w) || Stops(c.acts, w)
    ensures FedBy(log + [c], |log| + 1, b, w) <==> FedBy(log, |log|, b, w) || (c.pri < b && Feeds(c.acts, w))
  {
    hide Stops, Feeds;
    var more := log + [c];
    assert more[|log|] == c;
    if StoppedBy(log, |log|, w) {
      var l :| 0 <= l < |log| && Stops(log[l].acts, w);
      assert Stops(more[l].acts, w);
    }
    if FedBy(log, |log|, b, w) {
      var l :| 0 <= l < |log| && log[l].pri < b && Feeds(log[l].acts, w);
      assert Feeds(more[l].acts, w);
    }
  }

  lemma StepWaiting(s: Pass, acts: seq<Action>, q2: seq<seq<Pending>>)
    requires PassOK(s) && Steps(s, acts, q2)
    ensures Waiting(After(s, acts, q2))
  {
    var s', q1 := After(s, acts, q2), Popped(s.q, s.pri);
    LogMore(s.log, s'.log[|s.log|]);
    hide StoppedBy, FedBy, Has, Stops, Feeds, Added, Called, InCallOrder, Descending, Accounted;
    forall p, i | 0 <= p < |s.q0| && 0 <= i < s'.LeftIn(p)
      ensures i < |q1[p]| && i < s.LeftIn(p) && q1[p][i] == s.q[p][i]
    {
    }
    forall p, i | 0 <= p < |s.q0| && 0 <= i < s'.LeftIn(p) ensures Has(q2[p][i].events, s.q0[p][i].events) {
      HasTrans(q2[p][i].events, q1[p][i].events, s.q0[p][i].events);
    }
  }

  lemma StepAdded(s: Pass, acts: seq<Action>, q2: seq<seq<Pending>>)
    requires PassOK(s) && Steps(s, acts, q2)
    ensures Added(After(s, acts, q2))
  {
    var s', q1 := After(s, acts, q2), Popped(s.q, s.pri);
    LogMore(s.log, s'.log[|s.log|]);
    hide StoppedBy, FedBy, Has, Stops, Feeds, Called, InCallOrder, Descending, Accounted;
  }

  lemma StepCalled(s: Pass, acts: seq<Action>, q2: seq<seq<Pending>>)
    requires PassOK(s) && Steps(s, acts, q2)
    ensures Called(After(s, acts, q2)) && InCallOrder(After(s, acts, q2).turn)
    ensures forall a :: a in After(s, acts, q2).turn ==> After(s, acts, q2).turn[a] < |s.log| + 1
  {
    StepTurn(s, acts, q2);
    hide *;
    var s' := After(s, acts, q2);
    forall p: nat, i: nat | (p, i) in s'.turn ensures Met(s'.dummy, s'.q0, s'.log, s'.turn[(p, i)], p, i) {
      StepMet(s, acts, q2, p, i);
    }
    CalledIs(s');
  }

  lemma CalledIs(s: Pass)
    requires forall p: nat, i: nat :: (p, i) in s.turn <==> p < |s.q0| && s.LeftIn(p) <= i < |s.q0[p]|
    requires forall p: nat, i: nat :: (p, i) in s.turn ==> Met(s.dummy, s.q0, s.log, s.turn[(p, i)], p, i)
    ensures Called(s)
  {
    hide Met;
  }

  lemma StepTurn(s: Pass, acts: seq<Action>, q2: seq<seq<Pending>>)
    requires PassOK(s) && Steps(s, acts, q2)
    ensures var s' := After(s, acts, q2);
      && (forall p: nat, i: nat :: (p, i) in s'.turn <==> p < |s'.q0| && s'.LeftIn(p) <= i < |s'.q0[p]|)
      && (forall a :: a in s'.turn ==> s'.turn[a] < |s.log| + 1) && InCallOrder(s'.turn)
  {
    hide Met, Added, Descending, Accounted, Follows, FedBy, Has, Now;
  }

  lemma StepMet(s: Pass, acts: seq<Action>, q2: seq<seq<Pending>>, p: nat, i: nat)
    requires PassOK(s) && Steps(s, acts, q2) && (p, i) in After(s, acts, q2).turn
    ensures var s' := After(s, acts, q2); Met(s'.dummy, s'.q0, s'.log, s'.turn[(p, i)], p, i)
  {
    hide Added, Descending, Accounted, Follows, InCallOrder, FedBy, StoppedBy, Has;
    var c := After(s, acts, q2).log[|s.log|];
    if (p, i) in s.turn && s.turn[(p, i)] == After(s, acts, q2).turn[(p, i)] {
      LogSame(s.log, c, s.turn[(p, i)], 0, s.q0[p][i].w);
    } else {
      LogSame(s.log, c, |s.log|, 0, s.q0[p][i].w);
    }
  }

  lemma StepAccounted(s: Pass, acts: seq<Action>, q2: seq<seq<Pending>>)
    requires PassOK(s) && Steps(s, acts, q2)
    ensures var s' := After(s, acts, q2); Descending(s'.log, s.pri) && Accounted(s.dummy, |s.q0|, s'.log, s'.turn)
  {
    var s' := After(s, acts, q2);
    LogMore(s.log, s'.log[|s.log|]);
    hide StoppedBy, FedBy, Has, Stops, Feeds, Waiting, InCallOrder, Follows;
  }

  lemma PassStep(s: Pass, acts: seq<Action>, q2: seq<seq<Pending>>)
    requires PassOK(s) && Steps(s, acts, q2)
    ensures PassOK(After(s, acts, q2))
  {
    StepWaiting(s, acts, q2);
    StepAdded(s, acts, q2);
    StepCalled(s, acts, q2);
    StepAccounted(s, acts, q2);
    hide Waiting, Added, Called, InCallOrder, Descending, Accounted, Steps;
  }

  // ---------- which callback does what ----------

  function Entries(log: seq<Call>): seq<Pending> {
    seq(|log|, k requires 0 <= k < |log| => log[k].entry)
  }

  function Actions(script: seq<seq<Action>>): nat {
    if script == [] then 0 else |script[0]| + Actions(script[1..])
  }

  lemma {:induction false} NoActions(script: seq<seq<Action>>)
    requires Actions(script) == 0
    ensures forall k :: 0 <= k < |script| ==> script[k] == []
  {
    if script != [] { NoActions(script[1..]); }
  }

  /** What the next call does: its callback is that of a watcher in use, or the one that does nothing. */
  function Scripted(script: seq<seq<Action>>, dummy: Watcher, entry: Pending): seq<Action> {
    if entry.w == dummy || script == [] then [] else script[0]
  }

  function Onward(script: seq<seq<Action>>, dummy: Watcher, entry: Pending): seq<seq<Action>> {
    if entry.w == dummy || script == [] then script else script[1..]
  }

  /** The callbacks have done what the script says, in its order. */
  ghost predicate Performed(script: seq<seq<Action>>, dummy: Watcher, log: seq<Call>) {
    log == [] ||
    (log[0].acts == Scripted(script, dummy, log[0].entry) &&
      Performed(Onward(script, dummy, log[0].entry), dummy, log[1..]))
  }

  /** What is left of the script. */
  ghost function Remaining(script: seq<seq<Action>>, dummy: Watcher, log: seq<Call>): seq<seq<Action>> {
    if log == [] then script else Remaining(Onward(script, dummy, log[0].entry), dummy, log[1..])
  }

  lemma {:induction false} PerformedMore(script: seq<seq<Action>>, dummy: Watcher, log: seq<Call>, c: Call)
    requires Performed(script, dummy, log) && c.acts == Scripted(Remaining(script, dummy, log), dummy, c.entry)
    ensures Performed(script, dummy, log + [c])
    ensures Remaining(script, dummy, log + [c]) == Onward(Remaining(script, dummy, log), dummy, c.entry)
    decreases |log|
  {
    if log != [] {
      PerformedMore(Onward(script, dummy, log[0].entry), dummy, log[1..], c);
      assert (log + [c])[1..] == log[1..] + [c];
    } else {
      assert ([c])[1..] == [] && log + [c] == [c];
    }
  }

  lemma ScriptedLess(script: seq<seq<Action>>, dummy: Watcher, entry: Pending)
    ensures Actions(Onward(script, dummy, entry)) + |Scripted(script, dummy, entry)| == Actions(script)
  {
  }

  lemma {:induction false} PerformedJoined(script: seq<seq<Action>>, dummy: Watcher, log: seq<Call>, calls: seq<Call>)
    requires Performed(script, dummy, log) && Performed(Remaining(script, dummy, log), dummy, calls)
    ensures Performed(script, dummy, log + calls)
    ensures Remaining(script, dummy, log + calls) == Remaining(Remaining(script, dummy, log), dummy, calls)
    decreases |log|
  {
    if log != [] {
      PerformedJoined(Onward(script, dummy, log[0].entry), dummy, log[1..], calls);
      assert (log + calls)[1..] == log[1..] + calls;
    } else {
      assert log + calls == calls;
    }
  }

  lemma EntriesJoined(a: seq<Call>, b: seq<Call>)
    ensures Entries(a + b) == Entries(a) + Entries(b) && Entries([]) == []
  {
  }

  lemma EntriesOne(c: Call)
    ensures Entries([c]) == [c.entry]
  {
  }

  // ---------- a pass from the methods' side ----------

  lemma StepsIs(s: Pass, acts: seq<Action>, q2: seq<seq<Pending>>)
    requires PassOK(s) && s.pri < |s.q| && s.q[s.pri] != [] && Follows(s.dummy, Popped(s.q, s.pri), q2, acts)
    ensures Steps(s, acts, q2) && |q2| == |s.q| && |q2[s.pri]| <= |s.q[s.pri]| - 1 + |acts|
  {
    hide Added, Called, InCallOrder, Descending, Accounted;
  }

  lemma NoneLeft(s: Pass)
    requires PassOK(s) && s.pri < |s.q| && s.q[s.pri] == []
    ensures s.left == 0
  {
    hide Added, Called, InCallOrder, Descending, Accounted;
    assert s.LeftIn(s.pri) == s.left;
  }

  lemma PassEnds(s: Pass)
    requires PassOK(s) && s.pri == 0 && s.left == 0 && s.q != [] && s.q[0] == []
    ensures forall p: nat, i: nat :: (p, i) in s.turn <==> p < |s.q0| && i < |s.q0[p]|
    ensures forall p: nat, i: nat :: (p, i) in s.turn ==> Met(s.dummy, s.q0, s.log, s.turn[(p, i)], p, i)
    ensures InCallOrder(s.turn) && Descending(s.log, 0) && Accounted(s.dummy, |s.q0|, s.log, s.turn)
    ensures |s.q| == |s.q0| && forall p, i :: 0 <= p < |s.q| && 0 <= i < |s.q[p]| ==>
              s.q[p][i].w == s.dummy || FedBy(s.log, |s.log|, p, s.q[p][i].w)
  {
    hide Met, FedBy, InCallOrder, Descending, Accounted;
    assert forall p :: 0 <= p < |s.q0| ==> s.LeftIn(p) == 0;
  }

  lemma NonePerformed(script: seq<seq<Action>>, dummy: Watcher)
    ensures Performed(script, dummy, []) && Remaining(script, dummy, []) == script && Entries([]) == []
  {
  }

  lemma AfterIs(s: Pass, acts: seq<Action>, q2: seq<seq<Pending>>)
    requires s.pri < |s.q| && s.q[s.pri] != []
    ensures var n, s' := |s.q[s.pri]| - 1, After(s, acts, q2);
      s' == s.(log := s.log + [Call(s.pri, n, s.q[s.pri][n], acts)], turn := s'.turn, q := q2, left := s'.left)
  {
  }

  // ---------- callbacks that leave the loop alone ----------

  /** The queue in hand has been called down to what is left of it, and nothing else has happened. */
  ghost predicate Quiet(q0: seq<seq<Pending>>, pri: nat, q: seq<seq<Pending>>, calls: seq<Call>)
    requires pri < |q0| == |q|
  {
    && q == q0[pri := q[pri]] && |q[pri]| <= |q0[pri]| && q[pri] == q0[pri][..|q[pri]|]
    && Entries(calls) == Reversed(q0[pri][|q[pri]|..])
  }

  lemma QuietStep(q0: seq<seq<Pending>>, pri: nat, q: seq<seq<Pending>>, calls: seq<Call>, c: Call)
    requires pri < |q0| == |q| && Quiet(q0, pri, q, calls) && q[pri] != [] && c.entry == q[pri][|q[pri]| - 1]
    ensures Quiet(q0, pri, Popped(q, pri), calls + [c])
  {
    ReversedStep(q0[pri], |q[pri]| - 1);
    EntriesJoined(calls, [c]);
    EntriesOne(c);
    hide Reversed, Entries;
  }

  lemma QuietEnd(q0: seq<seq<Pending>>, pri: nat, q: seq<seq<Pending>>, calls: seq<Call>)
    requires pri < |q0| == |q| && q[pri] == []
    ensures Quiet(q0, pri, q, calls) ==> q == q0[pri := []] && Entries(calls) == Reversed(q0[pri])
  {
    assert q0[pri][0..] == q0[pri];
  }

  lemma QuietBegin(q: seq<seq<Pending>>, pri: nat)
    requires pri < |q|
    ensures Quiet(q, pri, q, [])
  {
    ReversedEmpty(q[pri]);
  }

  /** The queues from pri on have been called, and nothing else has happened. */
  ghost predicate QuietPass(q0: seq<seq<Pending>>, pri: nat, q: seq<seq<Pending>>, log: seq<Call>) {
    pri <= |q0| && q == Drained(q0, pri) && Entries(log) + Calls(q0, pri) == Calls(q0, |q0|)
  }

  lemma QuietPassBegins(q: seq<seq<Pending>>)
    ensures QuietPass(q, |q|, q, [])
  {
    DrainedAll(q);
    EntriesJoined([], []);
  }

  lemma QuietPassNext(q0: seq<seq<Pending>>, pri: nat, q: seq<seq<Pending>>, log: seq<Call>, calls: seq<Call>)
    requires pri < |q| && QuietPass(q0, pri + 1, q, log) && Entries(calls) == Reversed(q[pri])
    ensures QuietPass(q0, pri, q[pri := []], log + calls)
  {
    DrainedStep(q0, pri);
    CallsStep(q0, pri);
    EntriesJoined(log, calls);
    hide Drained, Calls, Entries, Reversed;
    assert Entries(log) + Entries(calls) + Calls(q0, pri) == Entries(log) + (Entries(calls) + Calls(q0, pri));
  }

  lemma QuietPassEnds(q0: seq<seq<Pending>>, q: seq<seq<Pending>>, log: seq<Call>)
    requires QuietPass(q0, 0, q, log)
    ensures Entries(log) == Calls(q0, |q0|) && |q| == |q0| && forall p :: 0 <= p < |q| ==> q[p] == []
  {
    assert Entries(log) + [] == Entries(log);
  }
}
