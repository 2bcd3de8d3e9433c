/** The exchange protocol (action.c:49-139, 270-344, 347-544) as a state machine over the steps of the event loop and of
    the exchange threads: each read or write of a shared record by either side is a step of its own. */
module Exchange {
  import opened Basics
  import opened Resp
  import opened DownServers

  // ---------- wait statuses ----------

  function ExitByte(err: int): int { err / 256 % 256 }

  /** How system() can end: it cannot start a shell, or the shell exits with a code or is killed by a signal. */
  datatype Ending = NoShell | Exited(code: int) | Killed(signal: int, core: bool)

  predicate Possible(e: Ending) {
    match e
    case NoShell => true
    case Exited(code) => 0 <= code < 256
    case Killed(signal, _) => 0 < signal < 127
  }

  /** The result of system(): -1, or the wait status of the shell. */
  function Status(e: Ending): (err: int)
    requires Possible(e)
    ensures err == -1 <==> e == NoShell
  {
    match e
    case NoShell => -1
    case Exited(code) => code * 256
    case Killed(signal, core) => signal + if core then 128 else 0
  }

  /** What actionThread takes for success. */
  predicate Succeeds(e: Ending) { Possible(e) && Status(e) != -1 && ExitByte(Status(e)) == 0 }

  /** Only an exit code of zero is meant, but the code also takes every death by signal for success. */
  lemma SuccessExactly(e: Ending)
    requires Possible(e)
    ensures Succeeds(e) <==> e == Exited(0) || e.Killed?
  {
    match e
    case NoShell =>
    case Exited(code) => assert code * 256 / 256 == code;
    case Killed(_, _) =>
  }

  // ---------- the state ----------

  /** Where an exchange thread stands: running the script, back from system(), between its two writes, ended. */
  datatype Pc = Running | Returned(how: Ending) | Marked(how: Ending) | Ended(how: Ending)

  /** `overtook`: the thread wrote its result before the loop had written EXCHANGING. */
  datatype Thread = Thread(rec: nat, property: Property, pc: Pc, overtook: bool)

  /** Records live in `recs` by identity, `list` is the down list by key. `starting` is the record for which the loop
      has created a thread but not yet written EXCHANGING. `queries` and `execs` are the property fetches and
      transactions without a reply yet, `smoves` the SMOVE commands issued so far. */
  datatype World = World(
    next: nat, recs: map<nat, Record>, list: map<string, nat>, threads: seq<Thread>, starting: Option<nat>,
    queries: multiset<nat>, execs: multiset<nat>, smoves: seq<nat>)

  const INIT := World(0, map[], map[], [], None, multiset{}, multiset{}, [])

  datatype Event =
    | AddDown(key: string)
    | RmDown(key: string)
    | DoAction(id: nat, created: bool, accepted: nat)
    | WriteExchanging
    | FetchDone(id: nat, fields: Option<seq<Reply>>)
    | ExecDone(id: nat, success: Option<bool>)
    | ScriptReturns(t: nat, how: Ending)
    | ThreadWrites(t: nat)

  // ---------- the steps ----------

  function SetRecord(w: World, id: nat, r: Record): World { w.(recs := w.recs[id := r]) }

  /** addServerToDownList */
  function AddStep(w: World, key: string): World {
    if key in w.list || |Split(key)| != 3 then w
    else w.(next := w.next + 1, recs := w.recs[w.next := Record(key, EXCHANGE, true, BLANK)],
      list := w.list[key := w.next])
  }

  /** rmServerFromDownList */
  function RmStep(w: World, key: string): World {
    if key in w.list && w.list[key] in w.recs && w.recs[w.list[key]].phase == EXCHANGE then
      w.(recs := w.recs - {w.list[key]}, list := w.list - {key})
    else w
  }

  /** doActionToDownServer: a fetch; or the creation of a thread; or MULTI, SMOVE and EXEC, of which the connection
      accepts the first few. */
  function ActStep(w: World, id: nat, created: bool, accepted: nat): World
    requires id in w.recs
  {
    var r := w.recs[id];
    if r.phase == EXCHANGE && r.toBeUpdated then
      if accepted > 0 then w.(queries := w.queries + multiset{id}) else w
    else if r.phase == EXCHANGE && r.property.role == MASTER then
      if created then w.(threads := w.threads + [Thread(id, r.property, Running, false)], starting := Some(id)) else w
    else if r.phase == EXCHANGED && r.toBeUpdated then
      var w1 := if accepted > 1 then w.(smoves := w.smoves + [id]) else w;
      if accepted > 2 then SetRecord(w1.(execs := w1.execs + multiset{id}), id, r.(toBeUpdated := false)) else w1
    else w
  }

  /** updateExchangeStateDone: anything but a non-empty array changes nothing. */
  function FetchStep(w: World, id: nat, fields: Option<seq<Reply>>): World
    requires id in w.recs
  {
    var w1 := w.(queries := w.queries - multiset{id});
    if fields.Some? && Flat(fields.value) then
      SetRecord(w1, id, Updated(w.recs[id], fields.value, w.list.Keys).0)
    else w1
  }

  /** updateExchangedStateDone: a reply that is not a success asks for another try; no reply does not. */
  function ExecStep(w: World, id: nat, success: Option<bool>): World
    requires id in w.recs
  {
    var w1 := w.(execs := w.execs - multiset{id});
    if success == Some(false) then SetRecord(w1, id, w.recs[id].(toBeUpdated := true)) else w1
  }

  /** The writes of actionThread: the phase, and after a success toBeUpdated as a second write. */
  function ThreadStep(w: World, t: nat): World
    requires t < |w.threads| && w.threads[t].rec in w.recs
  {
    var th := w.threads[t];
    var id := th.rec;
    var r := w.recs[id];
    match th.pc
    case Returned(how) =>
      var late := w.starting == Some(id);
      if Succeeds(how) then
        SetRecord(w, id, r.(phase := EXCHANGED)).(threads := w.threads[t := th.(pc := Marked(how), overtook := late)])
      else SetRecord(w, id, r.(phase := EXCHANGE)).(threads := w.threads[t := th.(pc := Ended(how), overtook := late)])
    case Marked(how) =>
      SetRecord(w, id, r.(toBeUpdated := true)).(threads := w.threads[t := th.(pc := Ended(how))])
    case _ => w
  }

  /** An event that is not possible changes nothing. Between the creation of a thread and the write of EXCHANGING the
      loop does nothing else. Replies reach live records. */
  function Step(w: World, e: Event): World {
    match e
    case AddDown(key) => if w.starting.None? then AddStep(w, key) else w
    case RmDown(key) => if w.starting.None? then RmStep(w, key) else w
    case DoAction(id, created, accepted) => if w.starting.None? && id in w.recs then ActStep(w, id, created, accepted)
      else w
    case WriteExchanging =>
      if w.starting.Some? && w.starting.value in w.recs then
        SetRecord(w, w.starting.value, w.recs[w.starting.value].(phase := EXCHANGING)).(starting := None)
      else w
    case FetchDone(id, fields) =>
      if w.starting.None? && id in w.recs && id in w.queries then FetchStep(w, id, fields) else w
    case ExecDone(id, success) =>
      if w.starting.None? && id in w.recs && id in w.execs then ExecStep(w, id, success) else w
    case ScriptReturns(t, how) =>
      if t < |w.threads| && w.threads[t].pc == Running && Possible(how) then
        w.(threads := w.threads[t := w.threads[t].(pc := Returned(how))])
      else w
    case ThreadWrites(t) =>
      if t < |w.threads| && w.threads[t].rec in w.recs then ThreadStep(w, t) else w
  }

  function After(w: World, es: seq<Event>): World
    decreases |es|
  {
    if es == [] then w else Step(After(w, es[..|es| - 1]), es[|es| - 1])
  }

  // ---------- the invariant ----------

  /** The thread still has a script or a write before it. */
  predicate Busy(th: Thread) { !th.pc.Ended? }

  predicate Scripting(th: Thread) { th.pc.Running? || th.pc.Returned? }

  predicate Won(th: Thread) { (th.pc.Marked? || th.pc.Ended?) && Succeeds(th.pc.how) }

  ghost predicate Listed(w: World) {
    && (forall k :: k in w.list ==> w.list[k] in w.recs && w.recs[w.list[k]].key == k)
    && (forall id :: id in w.recs ==> id < w.next && w.recs[id].key in w.list && w.list[w.recs[id].key] == id)
    && (w.starting.Some? ==> w.starting.value in w.recs)
  }

  /** What is known of the record of a thread. */
  ghost predicate ThreadFits(w: World, th: Thread) {
    && th.rec < w.next
    && (Busy(th) || Won(th) ==> th.rec in w.recs)
    && (Scripting(th) ==>
          var r := w.recs[th.rec];
          && !r.toBeUpdated && r.property == th.property && th.property.role == MASTER && !th.overtook
          && (r.phase == EXCHANGING || (r.phase == EXCHANGE && w.starting == Some(th.rec))))
    && (th.pc.Marked? ==> Won(th))
    && (Won(th) ==>
      w.recs[th.rec].phase == (if th.overtook && w.starting != Some(th.rec) then EXCHANGING else EXCHANGED))
    && (Won(th) && w.starting == Some(th.rec) ==> th.overtook)
  }

  /** A thread is created for a record only after its earlier threads have ended without success. */
  ghost predicate LastOnly(w: World) {
    forall t, u :: 0 <= t < u < |w.threads| && w.threads[t].rec == w.threads[u].rec ==>
      !Won(w.threads[t]) && !Busy(w.threads[t])
  }

  ghost predicate HasWon(w: World, id: nat) {
    exists t :: 0 <= t < |w.threads| && w.threads[t].rec == id && Won(w.threads[t])
  }

  ghost predicate AllFit(w: World) {
    forall t :: 0 <= t < |w.threads| ==> ThreadFits(w, w.threads[t])
  }

  /** What counts as exchanged rests on a script that succeeded. */
  ghost predicate Earned(w: World) {
    && (forall id :: id in w.recs && w.recs[id].phase == EXCHANGED ==> HasWon(w, id))
    && (forall id :: id in w.smoves ==> HasWon(w, id))
    && (forall id :: id in w.execs ==> HasWon(w, id))
  }

  ghost predicate Inv(w: World) {
    Listed(w) && AllFit(w) && LastOnly(w) && Earned(w)
  }

  lemma WonKept(w: World, w': World)
    requires |w.threads| <= |w'.threads|
    requires forall t :: 0 <= t < |w.threads| && Won(w.threads[t]) ==>
      w'.threads[t].rec == w.threads[t].rec && Won(w'.threads[t])
    ensures forall id :: HasWon(w, id) ==> HasWon(w', id)
  {
    forall id | HasWon(w, id) ensures HasWon(w', id) {
      var t :| 0 <= t < |w.threads| && w.threads[t].rec == id && Won(w.threads[t]);
      assert w'.threads[t].rec == id && Won(w'.threads[t]);
    }
  }

  /** The record of a thread, as far as the thread matters to it, is the same in both. */
  ghost predicate Undisturbed(w: World, w': World, th: Thread) {
    && (Busy(th) || Won(th) ==> th.rec in w.recs && th.rec in w'.recs && w'.recs[th.rec].phase == w.recs[th.rec].phase)
    && (Scripting(th) ==> w'.recs[th.rec] == w.recs[th.rec])
  }

  lemma FitKept(w: World, w': World, th: Thread)
    requires ThreadFits(w, th) && Undisturbed(w, w', th) && w'.starting == w.starting && w.next <= w'.next
    ensures ThreadFits(w', th)
  {
  }

  lemma AllFitKept(w: World, w': World)
    requires AllFit(w) && w'.threads == w.threads && w'.starting == w.starting && w.next <= w'.next
    requires forall t :: 0 <= t < |w.threads| ==> Undisturbed(w, w', w.threads[t])
    ensures AllFit(w')
  {
    hide Undisturbed, ThreadFits;
    forall t | 0 <= t < |w'.threads| ensures ThreadFits(w', w'.threads[t]) {
      assert ThreadFits(w, w.threads[t]) && Undisturbed(w, w', w.threads[t]);
      FitKept(w, w', w.threads[t]);
    }
  }

  lemma EarnedKept(w: World, w': World)
    requires Earned(w) && forall id :: HasWon(w, id) ==> HasWon(w', id)
    requires forall id :: id in w'.recs && w'.recs[id].phase == EXCHANGED && !HasWon(w', id) ==>
      id in w.recs && w.recs[id].phase == EXCHANGED
    requires forall id :: id in w'.smoves && !HasWon(w', id) ==> id in w.smoves
    requires forall id :: id in w'.execs && !HasWon(w', id) ==> id in w.execs
    ensures Earned(w')
  {
    hide HasWon;
  }

  lemma LastOnlyKept(w: World, w': World)
    requires LastOnly(w) && w'.threads == w.threads
    ensures LastOnly(w')
  {
  }

  /** A step that leaves the threads alone. */
  lemma Framed(w: World, w': World)
    requires Inv(w) && Listed(w') && w'.threads == w.threads && w'.starting == w.starting && w.next <= w'.next
    requires forall t :: 0 <= t < |w.threads| ==> Undisturbed(w, w', w.threads[t])
    requires forall id :: id in w'.recs && w'.recs[id].phase == EXCHANGED && !HasWon(w', id) ==>
      id in w.recs && w.recs[id].phase == EXCHANGED
    requires forall id :: id in w'.smoves && !HasWon(w', id) ==> id in w.smoves
    requires forall id :: id in w'.execs && !HasWon(w', id) ==> id in w.execs
    ensures Inv(w')
  {
    hide Listed, AllFit, LastOnly, Earned, HasWon, Undisturbed, Won;
    WonKept(w, w');
    AllFitKept(w, w');
    EarnedKept(w, w');
    LastOnlyKept(w, w');
  }

  /** What the invariant says of one thread, on its own. */
  lemma ThreadFacts(w: World, t: nat)
    requires Inv(w) && t < |w.threads|
    ensures var th := w.threads[t];
      && ThreadFits(w, th)
      && th.rec < w.next
      && (Busy(th) || Won(th) ==> th.rec in w.recs)
      && (Scripting(th) ==> !w.recs[th.rec].toBeUpdated)
      && ((Busy(th) || Won(th)) && w.starting != Some(th.rec) ==> w.recs[th.rec].phase != EXCHANGE)
  {
    hide LastOnly, Earned, Listed;
    assert ThreadFits(w, w.threads[t]);
  }

  lemma AddKeeps(w: World, key: string)
    requires Inv(w)
    ensures Inv(AddStep(w, key))
  {
    hide Inv, Earned, LastOnly, AllFit, HasWon, ThreadFits, Split, Won, Busy, Scripting;
    var w' := AddStep(w, key);
    assert Listed(w') by { InvParts(w); }
    hide Listed;
    forall t | 0 <= t < |w.threads| ensures Undisturbed(w, w', w.threads[t]) { ThreadFacts(w, t); }
    Framed(w, w');
  }

  lemma InvParts(w: World)
    requires Inv(w)
    ensures Listed(w) && AllFit(w) && LastOnly(w) && Earned(w)
  {
  }

  lemma RmKeeps(w: World, key: string)
    requires Inv(w) && w.starting.None?
    ensures Inv(RmStep(w, key))
  {
    hide Inv, Earned, LastOnly, AllFit, HasWon, ThreadFits, Won, Busy, Scripting;
    var w' := RmStep(w, key);
    assert Listed(w') by { InvParts(w); }
    hide Listed;
    forall t | 0 <= t < |w.threads| ensures Undisturbed(w, w', w.threads[t]) {
      ThreadFacts(w, t);
      ScriptingBusy(w.threads[t]);
    }
    Framed(w, w');
  }

  lemma ScriptingBusy(th: Thread)
    ensures Scripting(th) ==> Busy(th)
  {
  }

  lemma ActKeeps(w: World, id: nat, created: bool, accepted: nat)
    requires Inv(w) && w.starting.None? && id in w.recs
    ensures Inv(ActStep(w, id, created, accepted))
  {
    hide Inv, Earned, LastOnly, AllFit, HasWon, ThreadFits, Won, Busy, Scripting;
    var w' := ActStep(w, id, created, accepted);
    var r := w.recs[id];
    if r.phase == EXCHANGE && !r.toBeUpdated && r.property.role == MASTER && created {
      CreateKeeps(w, id, accepted);
    } else {
      ActIs(w, id, created, accepted);
      hide ActStep;
      assert Listed(w') by { InvParts(w); }
      hide Listed;
      forall t | 0 <= t < |w.threads| ensures Undisturbed(w, w', w.threads[t]) {
        ThreadFacts(w, t);
        ScriptingBusy(w.threads[t]);
      }
      if r.phase == EXCHANGED { EarnedAt(w, id); SameWon(w, w', id); }
      Framed(w, w');
    }
  }

  /** An action that creates no thread. */
  lemma ActIs(w: World, id: nat, created: bool, accepted: nat)
    requires id in w.recs
    requires var r := w.recs[id]; !(r.phase == EXCHANGE && !r.toBeUpdated && r.property.role == MASTER && created)
    ensures var r, w' := w.recs[id], ActStep(w, id, created, accepted);
      && w'.recs.Keys == w.recs.Keys && (forall k :: k in w.recs && k != id ==> w'.recs[k] == w.recs[k])
      && w'.recs[id].key == r.key && w'.recs[id].phase == r.phase && (r.phase != EXCHANGED ==> w'.recs[id] == r)
      && (forall k :: k in w'.smoves ==> k in w.smoves || (k == id && r.phase == EXCHANGED))
      && (forall k :: k in w'.execs ==> k in w.execs || (k == id && r.phase == EXCHANGED))
      && w' == w.(recs := w'.recs, queries := w'.queries, smoves := w'.smoves, execs := w'.execs)
  {
  }

  lemma EarnedAt(w: World, id: nat)
    requires Inv(w) && id in w.recs && w.recs[id].phase == EXCHANGED
    ensures HasWon(w, id)
  {
    hide HasWon;
  }

  lemma SameWon(w: World, w': World, id: nat)
    requires w'.threads == w.threads
    ensures HasWon(w', id) == HasWon(w, id)
  {
  }

  /** A thread is created only for a record that has none that is busy and none that won. */
  lemma CreateKeeps(w: World, id: nat, accepted: nat)
    requires Inv(w) && w.starting.None? && id in w.recs
    requires var r := w.recs[id]; r.phase == EXCHANGE && !r.toBeUpdated && r.property.role == MASTER
    ensures Inv(ActStep(w, id, true, accepted))
    ensures forall t :: 0 <= t < |w.threads| && w.threads[t].rec == id ==> !Busy(w.threads[t]) && !Won(w.threads[t])
  {
    var w' := ActStep(w, id, true, accepted);
    hide Inv, Earned, AllFit, HasWon, ThreadFits, LastOnly, Won, Busy, Listed;
    forall t | 0 <= t < |w.threads|
      ensures w.threads[t].rec == id ==> !Busy(w.threads[t]) && !Won(w.threads[t])
      ensures ThreadFits(w', w.threads[t])
    {
      ThreadFacts(w, t);
      CreateFit(w, id, accepted, t);
    }
    NewThreadFits(w, id, accepted);
    InvParts(w);
    WonKept(w, w');
    EarnedKept(w, w');
    assert Listed(w') by { ListedSame(w, w'); }
    assert AllFit(w') by { AllOf(w', w.threads, w'.threads[|w.threads|]); }
    assert LastOnly(w') by { LastOnlySnoc(w, w'); }
    hide ActStep;
    InvOf(w');
  }

  lemma InvOf(w: World)
    requires Listed(w) && AllFit(w) && LastOnly(w) && Earned(w)
    ensures Inv(w)
  {
  }

  lemma ListedSame(w: World, w': World)
    requires Listed(w) && w'.recs == w.recs && w'.list == w.list && w'.next == w.next
    requires w'.starting.Some? ==> w'.starting.value in w'.recs
    ensures Listed(w')
  {
  }

  lemma AllOf(w: World, threads: seq<Thread>, th: Thread)
    requires w.threads == threads + [th] && (forall t :: 0 <= t < |threads| ==> ThreadFits(w, threads[t])) &&
      ThreadFits(w, th)
    ensures AllFit(w)
  {
    hide ThreadFits;
  }

  lemma LastOnlySnoc(w: World, w': World)
    requires LastOnly(w) && |w'.threads| == |w.threads| + 1 && w'.threads[..|w.threads|] == w.threads
    requires forall t :: 0 <= t < |w.threads| && w.threads[t].rec == w'.threads[|w.threads|].rec ==>
      !Busy(w.threads[t]) && !Won(w.threads[t])
    ensures LastOnly(w')
  {
    forall t | 0 <= t < |w.threads| ensures w'.threads[t] == w.threads[t] {
      assert w'.threads[..|w.threads|][t] == w'.threads[t];
    }
    hide Busy, Won;
  }

  lemma CreateFit(w: World, id: nat, accepted: nat, t: nat)
    requires t < |w.threads| && ThreadFits(w, w.threads[t]) && w.starting.None? && id in w.recs
    requires var r := w.recs[id]; r.phase == EXCHANGE && !r.toBeUpdated && r.property.role == MASTER
    ensures ThreadFits(ActStep(w, id, true, accepted), w.threads[t])
  {
  }

  lemma NewThreadFits(w: World, id: nat, accepted: nat)
    requires Inv(w) && id in w.recs
    requires var r := w.recs[id]; r.phase == EXCHANGE && !r.toBeUpdated && r.property.role == MASTER
    ensures var w' := ActStep(w, id, true, accepted);
      |w'.threads| == |w.threads| + 1 && ThreadFits(w', w'.threads[|w.threads|])
  {
    InvParts(w);
    hide Inv, Earned, AllFit, LastOnly;
  }

  lemma StartedKeeps(w: World)
    requires Inv(w)
    ensures Inv(Step(w, WriteExchanging))
  {
    hide Inv, Earned, AllFit, HasWon, ThreadFits, LastOnly, Won, Listed;
    var w' := Step(w, WriteExchanging);
    InvParts(w);
    if w.starting.Some? && w.starting.value in w.recs {
      forall t | 0 <= t < |w.threads| ensures ThreadFits(w', w'.threads[t]) {
        ThreadFacts(w, t);
        StartedFit(w, t);
      }
      assert AllFit(w') by { AllFitOf(w'); }
      WonKept(w, w');
      EarnedKept(w, w');
      assert Listed(w') by { ListedUpdate(w, w.starting.value, EXCHANGING, None); }
      LastOnlyKept(w, w');
      InvOf(w');
    }
  }

  lemma ListedUpdate(w: World, id: nat, phase: Phase, starting: Option<nat>)
    requires Listed(w) && id in w.recs && (starting.Some? ==> starting.value in w.recs)
    ensures Listed(SetRecord(w, id, w.recs[id].(phase := phase)).(starting := starting))
  {
  }

  lemma AllFitOf(w: World)
    requires forall t :: 0 <= t < |w.threads| ==> ThreadFits(w, w.threads[t])
    ensures AllFit(w)
  {
  }

  lemma StartedFit(w: World, t: nat)
    requires t < |w.threads| && ThreadFits(w, w.threads[t]) && w.starting.Some? && w.starting.value in w.recs
    ensures ThreadFits(Step(w, WriteExchanging), w.threads[t])
  {
  }

  lemma FetchKeeps(w: World, id: nat, fields: Option<seq<Reply>>)
    requires Inv(w) && w.starting.None? && id in w.recs
    ensures Inv(FetchStep(w, id, fields))
  {
    hide Inv, Earned, LastOnly, AllFit, HasWon, ThreadFits, Won, Busy, Scripting;
    var w' := FetchStep(w, id, fields);
    FetchRecord(w, id, fields);
    hide FetchStep;
    assert Listed(w') by { InvParts(w); }
    hide Listed;
    forall t | 0 <= t < |w.threads| ensures Undisturbed(w, w', w.threads[t]) {
      ThreadFacts(w, t);
      ScriptingBusy(w.threads[t]);
    }
    Framed(w, w');
  }

  lemma FetchRecord(w: World, id: nat, fields: Option<seq<Reply>>)
    requires id in w.recs
    ensures var w' := FetchStep(w, id, fields);
      && w'.recs.Keys == w.recs.Keys && (forall k :: k in w.recs && k != id ==> w'.recs[k] == w.recs[k])
      && w'.recs[id].key == w.recs[id].key && w'.recs[id].phase == w.recs[id].phase
      && (!w.recs[id].toBeUpdated ==> w'.recs[id] == w.recs[id])
      && w' == w.(recs := w'.recs, queries := w'.queries)
  {
    if fields.Some? && Flat(fields.value) && w.recs[id].toBeUpdated {
      ReadyExactlyWhenMaster(w.recs[id], fields.value, w.list.Keys);
      hide Updated;
    }
  }

  lemma ExecKeeps(w: World, id: nat, success: Option<bool>)
    requires Inv(w) && w.starting.None? && id in w.recs && id in w.execs
    ensures Inv(ExecStep(w, id, success))
  {
    hide Inv, Earned, LastOnly, AllFit, HasWon, ThreadFits, Won, Busy, Scripting;
    var w' := ExecStep(w, id, success);
    assert Listed(w') by { InvParts(w); }
    hide Listed;
    forall t | 0 <= t < |w.threads| ensures Undisturbed(w, w', w.threads[t]) {
      ThreadFacts(w, t);
      ScriptingBusy(w.threads[t]);
      NoScriptNow(w, id, t);
    }
    Framed(w, w');
  }

  /** While a transaction is on its way, no script of its record runs. */
  lemma NoScriptNow(w: World, id: nat, t: nat)
    requires Inv(w) && id in w.execs && t < |w.threads|
    ensures w.threads[t].rec == id ==> !Scripting(w.threads[t])
  {
    InvParts(w);
    assert HasWon(w, id);
    var u :| 0 <= u < |w.threads| && w.threads[u].rec == id && Won(w.threads[u]);
    NotBoth(w, t, u);
  }

  /** A thread that won and one whose script runs do not share a record. */
  lemma NotBoth(w: World, t: nat, u: nat)
    requires LastOnly(w) && t < |w.threads| && u < |w.threads| && Won(w.threads[u])
    ensures w.threads[t].rec == w.threads[u].rec ==> !Scripting(w.threads[t])
  {
    ScriptingBusy(w.threads[t]);
    if t != u && w.threads[t].rec == w.threads[u].rec {
      var a, b := if t < u then t else u, if t < u then u else t;
      assert !Won(w.threads[a]) && !Busy(w.threads[a]) by { assert 0 <= a < b < |w.threads|; }
    }
  }

  lemma ReturnKeeps(w: World, t: nat, how: Ending)
    requires Inv(w)
    ensures Inv(Step(w, ScriptReturns(t, how)))
  {
    hide Inv, Earned, AllFit, HasWon, LastOnly, Listed, ThreadFits;
    var w' := Step(w, ScriptReturns(t, how));
    InvParts(w);
    if w' != w {
      ThreadFacts(w, t);
      assert ThreadFits(w', w'.threads[t]) by { ReturnFit(w, t, how); }
      assert Listed(w') by { ListedSame(w, w'); }
      WonKept(w, w');
      EarnedKept(w, w');
      ThreadsKeep(w, w', t);
    }
  }

  lemma ReturnFit(w: World, t: nat, how: Ending)
    requires t < |w.threads| && ThreadFits(w, w.threads[t]) && w.threads[t].pc == Running
    ensures var w' := Step(w, ScriptReturns(t, how)); ThreadFits(w', w'.threads[t])
  {
  }

  /** A step of the busy thread t keeps what is known of the other threads. */
  lemma ThreadsKeep(w: World, w': World, t: nat)
    requires Inv(w) && Listed(w') && Earned(w') && t < |w.threads| == |w'.threads|
    requires forall u :: 0 <= u < |w.threads| && u != t ==> w'.threads[u] == w.threads[u]
    requires w'.threads[t].rec == w.threads[t].rec && Busy(w.threads[t]) && ThreadFits(w', w'.threads[t])
    requires w'.starting == w.starting && w.next <= w'.next
    requires forall id :: id in w.recs && id != w.threads[t].rec ==> id in w'.recs && w'.recs[id] == w.recs[id]
    ensures Inv(w')
  {
    hide Inv, Earned, AllFit, HasWon, Listed, ThreadFits;
    InvParts(w);
    forall u | 0 <= u < |w.threads| ensures ThreadFits(w', w'.threads[u]) {
      if u != t {
        ThreadFacts(w, u);
        ScriptingBusy(w.threads[u]);
        OtherIdle(w, t, u);
        FitKept(w, w', w.threads[u]);
      }
    }
    AllFitOf(w');
    LastOnlyStep(w, w', t);
    InvOf(w');
  }

  lemma OtherIdle(w: World, t: nat, u: nat)
    requires LastOnly(w) && t < |w.threads| && u < |w.threads| && t != u && Busy(w.threads[t])
    ensures w.threads[u].rec == w.threads[t].rec ==> u < t && !Busy(w.threads[u]) && !Won(w.threads[u])
  {
    hide Busy, Won;
  }

  lemma LastOnlyStep(w: World, w': World, t: nat)
    requires LastOnly(w) && t < |w.threads| == |w'.threads| && Busy(w.threads[t])
    requires forall u :: 0 <= u < |w.threads| && u != t ==> w'.threads[u] == w.threads[u]
    requires w'.threads[t].rec == w.threads[t].rec
    ensures LastOnly(w')
  {
    hide Busy, Won;
    forall a, b | 0 <= a < b < |w'.threads| && w'.threads[a].rec == w'.threads[b].rec
      ensures !Won(w'.threads[a]) && !Busy(w'.threads[a])
    {
      assert w.threads[a].rec == w.threads[b].rec;
    }
  }

  lemma WriteKeeps(w: World, t: nat)
    requires Inv(w) && t < |w.threads| && w.threads[t].rec in w.recs
    ensures Inv(ThreadStep(w, t))
  {
    hide Inv, Earned, AllFit, HasWon, LastOnly, Listed, ThreadFits;
    var w' := ThreadStep(w, t);
    if w.threads[t].pc.Returned? || w.threads[t].pc.Marked? {
      InvParts(w);
      ThreadFacts(w, t);
      assert ThreadFits(w', w'.threads[t]) by { WriteFit(w, t); }
      assert Listed(w') by { WriteListed(w, t); }
      assert Earned(w') by { WriteEarned(w, t); }
      ThreadsKeep(w, w', t);
    }
  }

  lemma WriteFit(w: World, t: nat)
    requires t < |w.threads| && w.threads[t].rec in w.recs && ThreadFits(w, w.threads[t])
    ensures var w' := ThreadStep(w, t); |w'.threads| == |w.threads| && ThreadFits(w', w'.threads[t])
  {
  }

  lemma WriteListed(w: World, t: nat)
    requires Listed(w) && t < |w.threads| && w.threads[t].rec in w.recs
    ensures Listed(ThreadStep(w, t))
  {
  }

  lemma WriteEarned(w: World, t: nat)
    requires Earned(w) && t < |w.threads| && w.threads[t].rec in w.recs
    ensures Earned(ThreadStep(w, t))
  {
    var w', id := ThreadStep(w, t), w.threads[t].rec;
    WriteFacts(w, t);
    hide Earned, HasWon, Won, ThreadStep;
    WonKept(w, w');
    if w'.recs[id].phase == EXCHANGED && w.recs[id].phase != EXCHANGED { WonNow(w', t); }
    EarnedKept(w, w');
  }

  lemma WriteFacts(w: World, t: nat)
    requires t < |w.threads| && w.threads[t].rec in w.recs
    ensures var w', id := ThreadStep(w, t), w.threads[t].rec;
      && |w'.threads| == |w.threads| && (forall u :: 0 <= u < |w.threads| && u != t ==> w'.threads[u] == w.threads[u])
      && w'.threads[t].rec == id && (Won(w.threads[t]) ==> Won(w'.threads[t]))
      && w'.recs.Keys == w.recs.Keys && (forall k :: k in w.recs && k != id ==> w'.recs[k] == w.recs[k])
      && w'.smoves == w.smoves && w'.execs == w.execs
      && (w'.recs[id].phase == EXCHANGED && w.recs[id].phase != EXCHANGED ==> Won(w'.threads[t]))
  {
  }

  lemma WonNow(w: World, t: nat)
    requires t < |w.threads| && Won(w.threads[t])
    ensures HasWon(w, w.threads[t].rec)
  {
  }

  lemma StepKeeps(w: World, e: Event)
    requires Inv(w)
    ensures Inv(Step(w, e))
  {
    hide Inv, AddStep, RmStep, ActStep, FetchStep, ExecStep, ThreadStep;
    match e
    case AddDown(key) => AddKeeps(w, key);
    case RmDown(key) => if w.starting.None? { RmKeeps(w, key); }
    case DoAction(id, created, accepted) =>
      if w.starting.None? && id in w.recs { ActKeeps(w, id, created, accepted); }
    case WriteExchanging => StartedKeeps(w);
    case FetchDone(id, fields) => if w.starting.None? && id in w.recs { FetchKeeps(w, id, fields); }
    case ExecDone(id, success) =>
      if w.starting.None? && id in w.recs && id in w.execs { ExecKeeps(w, id, success); }
    case ScriptReturns(t, how) => ReturnKeeps(w, t, how);
    case ThreadWrites(t) => if t < |w.threads| && w.threads[t].rec in w.recs { WriteKeeps(w, t); }
  }

  lemma {:induction false} AfterKeeps(w: World, es: seq<Event>)
    requires Inv(w)
    ensures Inv(After(w, es))
    decreases |es|
  {
    if es != [] {
      AfterKeeps(w, es[..|es| - 1]);
      StepKeeps(After(w, es[..|es| - 1]), es[|es| - 1]);
    }
  }

  // ---------- what holds in every interleaving ----------

  lemma Reachable(es: seq<Event>)
    ensures Inv(After(INIT, es))
  {
    AfterKeeps(INIT, es);
  }

  /** At most one exchange script runs for a down server. */
  lemma OneScript(es: seq<Event>, t: nat, u: nat)
    requires var w := After(INIT, es);
      t < |w.threads| && u < |w.threads| && w.threads[t].rec == w.threads[u].rec && Busy(w.threads[t]) &&
        Busy(w.threads[u])
    ensures t == u
  {
    Reachable(es);
    var w := After(INIT, es);
    hide After;
    InvParts(w);
    if t != u { OtherIdle(w, t, u); }
  }

  /** Nor for two records of one down server: a busy thread's record is the one on the down list. */
  lemma OneScriptByKey(es: seq<Event>, t: nat, u: nat)
    requires var w := After(INIT, es);
      && t < |w.threads| && u < |w.threads| && Busy(w.threads[t]) && Busy(w.threads[u])
      && w.threads[t].rec in w.recs && w.threads[u].rec in w.recs
      && w.recs[w.threads[t].rec].key == w.recs[w.threads[u].rec].key
    ensures t == u
  {
    NotFreedUnderThread(es, t);
    NotFreedUnderThread(es, u);
    OneScript(es, t, u);
  }

  /** A record is on the down list, and not freed, while a thread can still write it. */
  lemma NotFreedUnderThread(es: seq<Event>, t: nat)
    requires t < |After(INIT, es).threads| && Busy(After(INIT, es).threads[t])
    ensures var w := After(INIT, es); var id := w.threads[t].rec;
      id in w.recs && w.recs[id].key in w.list && w.list[w.recs[id].key] == id
  {
    Reachable(es);
    var w := After(INIT, es);
    hide After;
    InvParts(w);
    ThreadFacts(w, t);
  }

  /** SMOVE is issued only for a record one of whose scripts ended with exit code 0 or by a signal. */
  lemma SmoveAfterSuccess(es: seq<Event>, id: nat)
    requires id in After(INIT, es).smoves
    ensures var w := After(INIT, es);
      exists t :: 0 <= t < |w.threads| && w.threads[t].rec == id && EndedWell(w.threads[t])
  {
    Reachable(es);
    var w := After(INIT, es);
    hide After;
    InvParts(w);
    assert HasWon(w, id);
    hide Succeeds;
    var t :| 0 <= t < |w.threads| && w.threads[t].rec == id && Won(w.threads[t]);
    WonEnding(w.threads[t]);
  }

  /** The script of the thread is over; it exited with code 0, or was killed. */
  predicate EndedWell(th: Thread) {
    !th.pc.Running? && (th.pc.how == Exited(0) || th.pc.how.Killed?)
  }

  lemma WonEnding(th: Thread)
    requires Won(th)
    ensures EndedWell(th)
  {
    SuccessExactly(th.pc.how);
  }

  /** The fetch of es at i was complete and said master, and gave these properties. */
  ghost predicate MasterFetch(es: seq<Event>, i: nat, id: nat, p: Property) {
    && i < |es| && es[i].FetchDone? && es[i].id == id && es[i].fields.Some? && Flat(es[i].fields.value)
    && SaysMaster(es[i].fields.value, After(INIT, es[..i]).list.Keys)
    && PropertyFrom(p, es[i].fields.value)
  }

  ghost predicate Fetched(es: seq<Event>, id: nat, p: Property) {
    exists i: nat :: MasterFetch(es, i, id, p)
  }

  lemma FetchedMore(es: seq<Event>, e: Event, id: nat, p: Property)
    requires Fetched(es, id, p)
    ensures Fetched(es + [e], id, p)
  {
    var i: nat :| MasterFetch(es, i, id, p);
    assert (es + [e])[..i] == es[..i] && (es + [e])[i] == es[i];
    assert MasterFetch(es + [e], i, id, p);
  }

  /** The next visit starts the exchange. */
  predicate Ready(r: Record) { r.phase == EXCHANGE && !r.toBeUpdated && r.property.role == MASTER }

  ghost predicate Grounded(es: seq<Event>, w: World) {
    && (forall id :: id in w.recs && Ready(w.recs[id]) ==> Fetched(es, id, w.recs[id].property))
    && (forall t :: 0 <= t < |w.threads| ==> Fetched(es, w.threads[t].rec, w.threads[t].property))
  }

  /** Every script ran for a record of which a complete fetch had said master, with the properties of that fetch. */
  lemma {:induction false} StartedAfterMaster(es: seq<Event>)
    ensures Grounded(es, After(INIT, es))
    decreases |es|
  {
    hide *;
    if es == [] {
      NothingYet();
    } else {
      var pre, e := es[..|es| - 1], es[|es| - 1];
      var w := After(INIT, pre);
      StartedAfterMaster(pre);
      Reachable(pre);
      assert pre + [e] == es;
      forall id, p | Fetched(pre, id, p) ensures Fetched(es, id, p) { FetchedMore(pre, e, id, p); }
      AfterSnoc(pre, e);
      if e.FetchDone? && w.starting.None? && e.id in w.recs && e.id in w.queries {
        FetchGrounds(pre, e, w);
      } else {
        GroundedStep(pre, e, w);
      }
    }
  }

  lemma NothingYet()
    ensures Grounded([], After(INIT, []))
  {
  }

  lemma AfterSnoc(es: seq<Event>, e: Event)
    ensures After(INIT, es + [e]) == Step(After(INIT, es), e)
  {
    assert (es + [e])[..|es|] == es;
  }

  lemma FetchGrounds(es: seq<Event>, e: Event, w: World)
    requires w == After(INIT, es) && Grounded(es, w) &&
      (forall id, p :: Fetched(es, id, p) ==> Fetched(es + [e], id, p))
    requires e.FetchDone? && w.starting.None? && e.id in w.recs && e.id in w.queries
    ensures Grounded(es + [e], Step(w, e))
  {
    hide After, Fetched, Updated;
    var w' := Step(w, e);
    var id := e.id;
    FetchRecord(w, id, e.fields);
    if Ready(w'.recs[id]) && w.recs[id].toBeUpdated {
      ReadyExactlyWhenMaster(w.recs[id], e.fields.value, w.list.Keys);
      assert (es + [e])[..|es|] == es;
      NowFetched(es + [e], |es|, id, w'.recs[id].property);
    }
  }

  lemma NowFetched(es: seq<Event>, i: nat, id: nat, p: Property)
    requires MasterFetch(es, i, id, p)
    ensures Fetched(es, id, p)
  {
  }

  lemma GroundedStep(es: seq<Event>, e: Event, w: World)
    requires Inv(w) && Grounded(es, w) && (forall id, p :: Fetched(es, id, p) ==> Fetched(es + [e], id, p))
    requires e.FetchDone? ==> !(w.starting.None? && e.id in w.recs && e.id in w.queries)
    ensures Grounded(es + [e], Step(w, e))
  {
    hide Inv, Fetched, Scripting, Ready, Step;
    var w' := Step(w, e);
    forall id | id in w'.recs && Ready(w'.recs[id]) ensures Fetched(es + [e], id, w'.recs[id].property) {
      ReadySource(w, e, id);
    }
    forall t | 0 <= t < |w'.threads| ensures Fetched(es + [e], w'.threads[t].rec, w'.threads[t].property) {
      ThreadSource(w, e, t);
    }
  }

  /** A record is ready because it was before, or because its script failed. */
  lemma ReadySource(w: World, e: Event, id: nat)
    requires Inv(w) && id in Step(w, e).recs && Ready(Step(w, e).recs[id])
    requires e.FetchDone? ==> !(w.starting.None? && e.id in w.recs && e.id in w.queries)
    ensures
      || (id in w.recs && Ready(w.recs[id]) && w.recs[id].property == Step(w, e).recs[id].property)
      || exists t ::
           0 <= t < |w.threads| && w.threads[t].rec == id && w.threads[t].property == Step(w, e).recs[id].property
  {
    hide Split, Updated, Inv;
    match e
    case ThreadWrites(t) => WriteSource(w, t, id);
    case _ => hide ThreadFits;
  }

  lemma WriteSource(w: World, t: nat, id: nat)
    requires Inv(w)
    ensures var w' := Step(w, ThreadWrites(t));
      id in w'.recs && Ready(w'.recs[id]) ==>
        || (id in w.recs && Ready(w.recs[id]) && w.recs[id].property == w'.recs[id].property)
        || (t < |w.threads| && w.threads[t].rec == id && w.threads[t].property == w'.recs[id].property)
  {
    hide Inv, Succeeds;
    if t < |w.threads| { ThreadFacts(w, t); }
  }

  lemma ThreadSource(w: World, e: Event, t: nat)
    requires t < |Step(w, e).threads|
    ensures var th := Step(w, e).threads[t];
      || (t < |w.threads| && w.threads[t].rec == th.rec && w.threads[t].property == th.property)
      || (th.rec in w.recs && Ready(w.recs[th.rec]) && w.recs[th.rec].property == th.property)
  {
    hide Split, Updated;
  }

  // ---------- where an exchange gets lost ----------

  /** Once the loop has written EXCHANGING, a record whose script succeeded is EXCHANGED exactly if that write did not
      come after the thread's. */
  lemma ExchangedExactly(es: seq<Event>, t: nat)
    requires var w := After(INIT, es); t < |w.threads| && Won(w.threads[t]) && w.starting != Some(w.threads[t].rec)
    ensures var w := After(INIT, es);
      && w.threads[t].rec in w.recs
      && (w.recs[w.threads[t].rec].phase == EXCHANGED <==> !w.threads[t].overtook)
  {
    Reachable(es);
    hide After;
    ThreadFacts(After(INIT, es), t);
  }

  // ---------- scripts that failed ----------

  /** No later thread was created for the record. */
  predicate Latest(w: World, t: nat)
    requires t < |w.threads|
  {
    forall u :: t < u < |w.threads| ==> w.threads[u].rec != w.threads[t].rec
  }

  predicate Failed(th: Thread) { th.pc.Ended? && !Succeeds(th.pc.how) }

  /** What a failed script has left of its record. */
  ghost predicate FailureFits(w: World, t: nat)
    requires t < |w.threads|
  {
    var th := w.threads[t];
    Failed(th) && Latest(w, t) && th.rec in w.recs ==>
      var phase := w.recs[th.rec].phase;
      if w.starting == Some(th.rec) then th.overtook && phase == EXCHANGE
        else phase == (if th.overtook then EXCHANGING else EXCHANGE)
  }

  ghost predicate FailuresFit(w: World) {
    forall t :: 0 <= t < |w.threads| ==> FailureFits(w, t)
  }

  lemma FailuresKept(w: World, e: Event)
    requires Inv(w) && FailuresFit(w)
    ensures FailuresFit(Step(w, e))
  {
    var w' := Step(w, e);
    InvParts(w);
    forall t | 0 <= t < |w'.threads| ensures FailureFits(w', t) {
      hide Inv, FailureFits, Succeeds, Possible, ExitByte, Status, Listed, AllFit, Earned, Split, Updated;
      if t < |w.threads| {
        ThreadFacts(w, t);
        hide ThreadFits;
        FailureKept(w, e, t);
      } else {
        NewThread(w, e, t);
      }
    }
  }

  lemma NewThread(w: World, e: Event, t: nat)
    requires |w.threads| <= t < |Step(w, e).threads|
    ensures FailureFits(Step(w, e), t)
  {
    hide Succeeds, Split, Updated;
  }

  /** A step that leaves the thread and the phase of its record alone. */
  lemma FailureSame(w: World, w': World, t: nat)
    requires t < |w.threads| <= |w'.threads| && FailureFits(w, t) && w'.threads[t] == w.threads[t]
    requires forall u :: 0 <= u < |w.threads| ==> w'.threads[u].rec == w.threads[u].rec
    requires var id := w.threads[t].rec;
      && (w'.starting == Some(id) <==> w.starting == Some(id))
      && (id in w'.recs ==> id in w.recs && w'.recs[id].phase == w.recs[id].phase)
    ensures FailureFits(w', t)
  {
    hide Succeeds;
  }

  lemma FailureKept(w: World, e: Event, t: nat)
    requires t < |w.threads| && FailureFits(w, t) && LastOnly(w) && w.threads[t].rec < w.next
    requires w.threads[t].pc.Marked? ==> Won(w.threads[t])
    ensures t < |Step(w, e).threads| && FailureFits(Step(w, e), t)
  {
    var w' := Step(w, e);
    match e
    case WriteExchanging =>
      hide Succeeds;
    case ThreadWrites(u) =>
      if u < |w.threads| && w.threads[u].rec in w.recs {
        hide *;
        FailureWrite(w, u, t);
        WritesIs(w, u);
      }
    case DoAction(id, created, accepted) =>
      FailureAction(w, id, created, accepted, t);
    case FetchDone(id, fields) =>
      FailureFetch(w, id, fields, t);
    case ScriptReturns(v, how) =>
      FailureReturn(w, v, how, t);
    case _ =>
      hide Succeeds, FailureFits, Split;
      FailureSame(w, w', t);
  }

  lemma FailureAction(w: World, id: nat, created: bool, accepted: nat, t: nat)
    requires t < |w.threads| && FailureFits(w, t)
    ensures var w' := Step(w, DoAction(id, created, accepted)); t < |w'.threads| && FailureFits(w', t)
  {
    hide Succeeds, FailureFits;
    var w' := Step(w, DoAction(id, created, accepted));
    if w'.starting == w.starting { FailureSame(w, w', t); } else { FailureAct(w, id, t, w'); }
  }

  lemma FailureFetch(w: World, id: nat, fields: Option<seq<Reply>>, t: nat)
    requires t < |w.threads| && FailureFits(w, t)
    ensures var w' := Step(w, FetchDone(id, fields)); t < |w'.threads| && FailureFits(w', t)
  {
    if id in w.recs { FetchRecord(w, id, fields); }
    hide Succeeds, FailureFits, FetchStep;
    FailureSame(w, Step(w, FetchDone(id, fields)), t);
  }

  lemma FailureReturn(w: World, v: nat, how: Ending, t: nat)
    requires t < |w.threads| && FailureFits(w, t)
    ensures var w' := Step(w, ScriptReturns(v, how)); t < |w'.threads| && FailureFits(w', t)
  {
    var w' := Step(w, ScriptReturns(v, how));
    hide Succeeds, Possible;
    if v == t && w' != w {
    } else {
      FailureSame(w, w', t);
    }
  }

  /** A thread has been created. */
  lemma FailureAct(w: World, id: nat, t: nat, w': World)
    requires t < |w.threads| && FailureFits(w, t) && w.starting.None? && w'.starting == Some(id)
    requires |w'.threads| == |w.threads| + 1 && w'.threads[|w.threads|].rec == id && w'.recs == w.recs
    requires forall u :: 0 <= u < |w.threads| ==> w'.threads[u] == w.threads[u]
    ensures FailureFits(w', t)
  {
    hide Succeeds;
    assert w.threads[t].rec != id && Latest(w', t) ==> Latest(w, t);
  }

  lemma WritesIs(w: World, u: nat)
    requires u < |w.threads| && w.threads[u].rec in w.recs
    ensures Step(w, ThreadWrites(u)) == ThreadStep(w, u)
  {
  }

  lemma FailureWrite(w: World, u: nat, t: nat)
    requires t < |w.threads| && FailureFits(w, t) && LastOnly(w) && (w.threads[t].pc.Marked? ==> Won(w.threads[t]))
    requires u < |w.threads| && w.threads[u].rec in w.recs
    ensures t < |ThreadStep(w, u).threads| && FailureFits(ThreadStep(w, u), t)
  {
    hide Succeeds;
    WriteFacts(w, u);
    if u == t {
      assert forall v :: 0 <= v < |w.threads| && v != u ==> ThreadStep(w, u).threads[v] == w.threads[v];
    } else if w.threads[u].rec == w.threads[t].rec {
      assert u < t ==> !Busy(w.threads[u]);
    } else {
      hide ThreadStep;
    }
  }

  lemma {:induction false} FailuresReachable(es: seq<Event>)
    ensures FailuresFit(After(INIT, es))
    decreases |es|
  {
    if es != [] {
      var pre := es[..|es| - 1];
      FailuresReachable(pre);
      Reachable(pre);
      FailuresKept(After(INIT, pre), es[|es| - 1]);
    }
  }

  /** A record whose last script failed is left EXCHANGING, for ever, exactly if the thread's write came before the
      loop's; else it is left EXCHANGE, to be tried again. */
  lemma FailedExactly(es: seq<Event>, t: nat)
    requires var w := After(INIT, es);
      && t < |w.threads| && Failed(w.threads[t]) && Latest(w, t) && w.starting != Some(w.threads[t].rec)
      && w.threads[t].rec in w.recs
    ensures var w := After(INIT, es); var id := w.threads[t].rec;
      && (w.recs[id].phase == EXCHANGING <==> w.threads[t].overtook)
      && (w.recs[id].phase == EXCHANGE <==> !w.threads[t].overtook)
      && (w.threads[t].overtook ==> Stuck(w, id))
  {
    FailuresReachable(es);
    Reachable(es);
    var w := After(INIT, es);
    InvParts(w);
    hide *;
    FailureIs(w, t);
  }

  lemma FailureIs(w: World, t: nat)
    requires LastOnly(w) && FailuresFit(w)
    requires t < |w.threads| && Failed(w.threads[t]) && Latest(w, t) && w.starting != Some(w.threads[t].rec) &&
      w.threads[t].rec in w.recs
    ensures var id := w.threads[t].rec;
      && (w.recs[id].phase == EXCHANGING <==> w.threads[t].overtook)
      && (w.recs[id].phase == EXCHANGE <==> !w.threads[t].overtook)
      && (w.threads[t].overtook ==> Stuck(w, id))
  {
    hide Succeeds;
    assert FailureFits(w, t);
    hide FailuresFit;
    forall u | 0 <= u < |w.threads| && w.threads[u].rec == w.threads[t].rec ensures !Busy(w.threads[u]) {
      assert u <= t;
    }
  }

  // ---------- records that are stuck ----------

  /** Nothing but a thread could make the loop issue SMOVE for the record. */
  predicate Dead(w: World, id: nat)
    requires id in w.recs
  {
    || w.recs[id].phase == EXCHANGING
    || (w.recs[id].phase == EXCHANGED && !w.recs[id].toBeUpdated && id !in w.execs)
  }

  /** And there is no thread left that could. */
  ghost predicate Stuck(w: World, id: nat) {
    && id in w.recs && Dead(w, id) && w.starting != Some(id)
    && forall t :: 0 <= t < |w.threads| && w.threads[t].rec == id ==> !Busy(w.threads[t])
  }

  function Count(s: seq<nat>, id: nat): nat {
    if s == [] then 0 else (if s[|s| - 1] == id then 1 else 0) + Count(s[..|s| - 1], id)
  }

  /** The step leaves the record, and the part of the threads that concerns it, as they are. */
  ghost predicate LeavesStuck(w: World, w': World, id: nat) {
    && id in w'.recs && Dead(w', id) && w'.starting != Some(id)
    && |w.threads| <= |w'.threads|
    && (forall t :: 0 <= t < |w'.threads| && w'.threads[t].rec == id && Busy(w'.threads[t]) ==>
          t < |w.threads| && w.threads[t].rec == id && Busy(w.threads[t]))
    && (w'.smoves == w.smoves || exists k: nat :: k != id && w'.smoves == w.smoves + [k])
  }

  lemma StuckCount(w: World, w': World, id: nat)
    requires Stuck(w, id) && LeavesStuck(w, w', id)
    ensures Stuck(w', id) && Count(w'.smoves, id) == Count(w.smoves, id)
  {
    if w'.smoves != w.smoves {
      var k: nat :| k != id && w'.smoves == w.smoves + [k];
      assert w'.smoves[..|w'.smoves| - 1] == w.smoves;
    }
  }

  lemma StuckAct(w: World, k: nat, created: bool, accepted: nat, id: nat)
    requires Stuck(w, id) && k in w.recs && w.starting.None?
    ensures LeavesStuck(w, ActStep(w, k, created, accepted), id)
  {
  }

  lemma StuckFetch(w: World, k: nat, fields: Option<seq<Reply>>, id: nat)
    requires Stuck(w, id) && k in w.recs
    ensures LeavesStuck(w, FetchStep(w, k, fields), id)
  {
    FetchRecord(w, k, fields);
    hide FetchStep;
  }

  lemma StuckThread(w: World, t: nat, id: nat)
    requires Stuck(w, id) && t < |w.threads| && w.threads[t].rec in w.recs
    ensures LeavesStuck(w, ThreadStep(w, t), id)
  {
  }

  lemma StuckBig(w: World, e: Event, id: nat)
    requires Stuck(w, id) && (e.DoAction? || e.FetchDone? || e.ThreadWrites?)
    ensures LeavesStuck(w, Step(w, e), id)
  {
    hide ActStep, FetchStep, ThreadStep;
    if e.DoAction? && w.starting.None? && e.id in w.recs {
      StuckAct(w, e.id, e.created, e.accepted, id);
    } else if e.FetchDone? && e.id in w.recs {
      StuckFetch(w, e.id, e.fields, id);
    } else if e.ThreadWrites? && e.t < |w.threads| && w.threads[e.t].rec in w.recs {
      StuckThread(w, e.t, id);
    }
  }

  lemma StuckSmall(w: World, e: Event, id: nat)
    requires Inv(w) && Stuck(w, id) && !e.DoAction? && !e.FetchDone? && !e.ThreadWrites?
    ensures LeavesStuck(w, Step(w, e), id)
  {
    hide *;
    IdBound(w, id) by { StuckIn(w, id); }
    if e.AddDown? || e.RmDown? {
      StuckList(w, e, id);
    } else if e.ExecDone? {
      StuckExec(w, e, id);
    } else {
      StuckRest(w, e, id);
    }
  }

  lemma StuckIn(w: World, id: nat)
    requires Stuck(w, id)
    ensures id in w.recs
  {
  }

  lemma StuckExec(w: World, e: Event, id: nat)
    requires Stuck(w, id) && e.ExecDone?
    ensures LeavesStuck(w, Step(w, e), id)
  {
  }

  lemma StuckRest(w: World, e: Event, id: nat)
    requires Stuck(w, id) && (e.WriteExchanging? || e.ScriptReturns?)
    ensures LeavesStuck(w, Step(w, e), id)
  {
  }

  lemma StuckList(w: World, e: Event, id: nat)
    requires Stuck(w, id) && id < w.next && (e.AddDown? || e.RmDown?)
    ensures LeavesStuck(w, Step(w, e), id)
  {
    hide Split;
  }

  lemma IdBound(w: World, id: nat)
    requires Inv(w) && id in w.recs
    ensures id < w.next
  {
    InvParts(w);
    hide Inv;
  }

  lemma StuckStep(w: World, e: Event, id: nat)
    requires Inv(w) && Stuck(w, id)
    ensures Stuck(Step(w, e), id) && Count(Step(w, e).smoves, id) == Count(w.smoves, id)
  {
    hide *;
    if e.DoAction? || e.FetchDone? || e.ThreadWrites? {
      StuckBig(w, e, id);
    } else {
      StuckSmall(w, e, id);
    }
    StuckCount(w, Step(w, e), id);
  }

  /** Such a record stays so whatever happens: its SMOVE is never issued and it is never removed. */
  lemma {:induction false} StuckForever(w: World, es: seq<Event>, id: nat)
    requires Inv(w) && Stuck(w, id)
    ensures var w' := After(w, es);
      Stuck(w', id) && Count(w'.smoves, id) == Count(w.smoves, id) && w'.recs[id].key in w'.list
    decreases |es|
  {
    AfterKeeps(w, es);
    InvParts(After(w, es));
    if es != [] {
      StuckForever(w, es[..|es| - 1], id);
      AfterKeeps(w, es[..|es| - 1]);
      StuckStep(After(w, es[..|es| - 1]), es[|es| - 1], id);
    }
  }

  const KEY := "a_b_c"

  function MasterFields(): seq<Reply> {
    [Text("pid"), Text("1"), Text("role"), Text("master"), Text("backup_machine"), Text("d_e_f")]
  }

  const READY := Property(MASTER, "1", "", ["d", "e", "f"])

  /** A down server, two fetches on their way of which one is answered, and the creation of the thread. */
  function Start(): seq<Event> {
    [AddDown(KEY), DoAction(0, true, 1), DoAction(0, true, 1), FetchDone(0, Some(MasterFields())), DoAction(0, true, 3)]
  }

  lemma SplitThree(s: string)
    requires |s| == 5 && s[1] == s[3] == '_' && s[0] != '_' && s[2] != '_' && s[4] != '_'
    ensures Split(s) == [[s[0]], [s[2]], [s[4]]]
  {
    assert s[1..][1..] == s[2..] && s[2..][1..] == s[3..] && s[3..][1..] == s[4..] && s[4..][1..] == "";
    assert "" + [s[0]] == [s[0]] && "" + [s[2]] == [s[2]] && "" + [s[4]] == [s[4]];
    assert SplitRest("", [s[4]]) == [[s[4]]];
    assert SplitRest(s[4..], "") == [[s[4]]];
    assert SplitRest(s[3..], [s[2]]) == [[s[2]], [s[4]]];
    assert SplitRest(s[2..], "") == SplitRest(s[3..], [s[2]]);
    assert SplitRest(s[1..], [s[0]]) == [[s[0]]] + SplitRest(s[2..], "");
    assert SplitRest(s, "") == SplitRest(s[1..], [s[0]]);
  }

  function Sample(phase: Phase, toBeUpdated: bool, p: Property, threads: seq<Thread>, starting: Option<nat>,
      queries: multiset<nat>): World {
    World(1, map[0 := Record(KEY, phase, toBeUpdated, p)], map[KEY := 0], threads, starting, queries, multiset{}, [])
  }

  lemma Answered()
    ensures Step(Sample(EXCHANGE, true, BLANK, [], None, multiset{0, 0}), FetchDone(0, Some(MasterFields())))
         == Sample(EXCHANGE, false, READY, [], None, multiset{0})
  {
    MasterUpdates();
    hide Updated, MasterFields, Flat;
    assert map[KEY := 0].Keys == {KEY};
  }

  lemma MasterUpdates()
    ensures Flat(MasterFields())
    ensures Updated(Record(KEY, EXCHANGE, true, BLANK), MasterFields(), {KEY}).0 == Record(KEY, EXCHANGE, false, READY)
  {
    SplitThree("d_e_f");
    MasterRead();
    hide Lookup, Split, Flat;
  }

  lemma MasterRead()
    ensures var f := MasterFields();
      && Flat(f) && Lookup(f, "pid") == Some(f[1]) && Lookup(f, "role") == Some(f[3])
      && Lookup(f, "backup_machine") == Some(f[5]) && Lookup(f, "cluster") == None
  {
  }

  lemma Opening()
    ensures Step(INIT, AddDown(KEY)) == Sample(EXCHANGE, true, BLANK, [], None, multiset{})
    ensures Step(Sample(EXCHANGE, true, BLANK, [], None, multiset{}), DoAction(0, true, 1)) ==
      Sample(EXCHANGE, true, BLANK, [], None, multiset{0})
    ensures Step(Sample(EXCHANGE, true, BLANK, [], None, multiset{0}), DoAction(0, true, 1)) ==
      Sample(EXCHANGE, true, BLANK, [], None, multiset{0, 0})
    ensures Step(Sample(EXCHANGE, false, READY, [], None, multiset{0}), DoAction(0, true, 3))
         == Sample(EXCHANGE, false, READY, [Thread(0, READY, Running, false)], Some(0), multiset{0})
  {
    SplitThree(KEY);
    hide Split;
    assert INIT.recs[0 := Record(KEY, EXCHANGE, true, BLANK)] == map[0 := Record(KEY, EXCHANGE, true, BLANK)];
    assert INIT.list[KEY := 0] == map[KEY := 0];
    var none: seq<Thread> := [];
    assert none + [Thread(0, READY, Running, false)] == [Thread(0, READY, Running, false)];
  }

  lemma StartedAt(k: nat)
    requires k < 5
    ensures |Start()| == 5 && After(INIT, Start()[..k + 1]) == Step(After(INIT, Start()[..k]), Start()[k])
  {
    var es := Start();
    hide After, Step;
    AfterSnoc(es[..k], es[k]);
    assert es[..k] + [es[k]] == es[..k + 1];
  }

  lemma AfterNothing(w: World)
    ensures After(w, []) == w
  {
  }

  lemma Started()
    ensures After(INIT, Start()) ==
      Sample(EXCHANGE, false, READY, [Thread(0, READY, Running, false)], Some(0), multiset{0})
  {
    var es := Start();
    hide After, Step, MasterFields;
    assert es[0] == AddDown(KEY) && es[1] == es[2] == DoAction(0, true, 1) &&
      es[3] == FetchDone(0, Some(MasterFields()))
        && es[4] == DoAction(0, true, 3);
    AfterNothing(INIT);
    assert es[..0] == [] && es[..5] == es;
    hide *;
    Opening();
    Answered();
    StartedAt(0);
    StartedAt(1);
    StartedAt(2);
    StartedAt(3);
    StartedAt(4);
  }

  /** The last steps of an overtaken exchange. */
  lemma Closing(how: Ending, q: multiset<nat>)
    requires Succeeds(how)
    ensures Step(Sample(EXCHANGE, false, READY, [Thread(0, READY, Running, false)], Some(0), q), ScriptReturns(0, how))
         == Sample(EXCHANGE, false, READY, [Thread(0, READY, Returned(how), false)], Some(0), q)
    ensures Step(Sample(EXCHANGE, false, READY, [Thread(0, READY, Returned(how), false)], Some(0), q), ThreadWrites(0))
         == Sample(EXCHANGED, false, READY, [Thread(0, READY, Marked(how), true)], Some(0), q)
    ensures Step(Sample(EXCHANGED, false, READY, [Thread(0, READY, Marked(how), true)], Some(0), q), WriteExchanging)
         == Sample(EXCHANGING, false, READY, [Thread(0, READY, Marked(how), true)], None, q)
    ensures Step(Sample(EXCHANGING, false, READY, [Thread(0, READY, Marked(how), true)], None, q), ThreadWrites(0))
         == Sample(EXCHANGING, true, READY, [Thread(0, READY, Ended(how), true)], None, q)
  {
    assert Possible(how);
    hide Succeeds;
  }

  /** The thread wins before the loop has written EXCHANGING: the script succeeded, but the record is stuck. */
  lemma Overtaken(how: Ending)
    requires Succeeds(how)
    ensures var es := Start() + [ScriptReturns(0, how)] + [ThreadWrites(0)] + [WriteExchanging] + [ThreadWrites(0)];
      var w := After(INIT, es);
      Inv(w) && w.threads == [Thread(0, READY, Ended(how), true)] && Stuck(w, 0) && w.smoves == []
  {
    hide *;
    Started();
    var es1 := Start() + [ScriptReturns(0, how)];
    var es2 := es1 + [ThreadWrites(0)];
    var es3 := es2 + [WriteExchanging];
    Reachable(es3 + [ThreadWrites(0)]);
    AfterSnoc(Start(), ScriptReturns(0, how));
    AfterSnoc(es1, ThreadWrites(0));
    AfterSnoc(es2, WriteExchanging);
    AfterSnoc(es3, ThreadWrites(0));
    Closing(how, multiset{0});
    StuckSample(how, multiset{0});
  }

  lemma StuckSample(how: Ending, q: multiset<nat>)
    ensures var w := Sample(EXCHANGING, true, READY, [Thread(0, READY, Ended(how), true)], None, q);
      w.threads == [Thread(0, READY, Ended(how), true)] && Stuck(w, 0) && w.smoves == []
  {
  }

  /** A script that fails that fast leaves its record stuck too: it is not tried again. */
  lemma OvertakenFailure(how: Ending)
    requires Possible(how) && !Succeeds(how)
    ensures var w := After(INIT, Start() + [ScriptReturns(0, how)] + [ThreadWrites(0)] + [WriteExchanging]);
      Inv(w) && w.threads == [Thread(0, READY, Ended(how), true)] && Stuck(w, 0)
  {
    hide *;
    Started();
    var es1 := Start() + [ScriptReturns(0, how)];
    var es2 := es1 + [ThreadWrites(0)];
    Reachable(es2 + [WriteExchanging]);
    AfterSnoc(Start(), ScriptReturns(0, how));
    AfterSnoc(es1, ThreadWrites(0));
    AfterSnoc(es2, WriteExchanging);
    Failing(how, multiset{0});
  }

  lemma Failing(how: Ending, q: multiset<nat>)
    requires Possible(how) && !Succeeds(how)
    ensures Step(Sample(EXCHANGE, false, READY, [Thread(0, READY, Running, false)], Some(0), q), ScriptReturns(0, how))
         == Sample(EXCHANGE, false, READY, [Thread(0, READY, Returned(how), false)], Some(0), q)
    ensures Step(Sample(EXCHANGE, false, READY, [Thread(0, READY, Returned(how), false)], Some(0), q), ThreadWrites(0))
         == Sample(EXCHANGE, false, READY, [Thread(0, READY, Ended(how), true)], Some(0), q)
    ensures var w := Sample(EXCHANGING, false, READY, [Thread(0, READY, Ended(how), true)], None, q);
      && Step(Sample(EXCHANGE, false, READY, [Thread(0, READY, Ended(how), true)], Some(0), q), WriteExchanging) == w
      && w.threads == [Thread(0, READY, Ended(how), true)] && Stuck(w, 0)
  {
    hide Succeeds;
  }

  // ---------- runs that reach the SMOVE ----------

  /** The loop writes EXCHANGING, the script succeeds and the thread makes its two writes. */
  function Exchanged(how: Ending): seq<Event> {
    Start() + [WriteExchanging] + [ScriptReturns(0, how)] + [ThreadWrites(0)] + [ThreadWrites(0)]
  }

  function DueWorld(how: Ending): World {
    Sample(EXCHANGED, true, READY, [Thread(0, READY, Ended(how), false)], None, multiset{0})
  }

  lemma ExchangedRun(how: Ending)
    requires Succeeds(how)
    ensures After(INIT, Exchanged(how)) == DueWorld(how)
  {
    hide *;
    Started();
    var es1 := Start() + [WriteExchanging];
    var es2 := es1 + [ScriptReturns(0, how)];
    var es3 := es2 + [ThreadWrites(0)];
    AfterSnoc(Start(), WriteExchanging);
    AfterSnoc(es1, ScriptReturns(0, how));
    AfterSnoc(es2, ThreadWrites(0));
    AfterSnoc(es3, ThreadWrites(0));
    Succeeding(how, multiset{0});
    ExchangedIs(how);
  }

  lemma ExchangedIs(how: Ending)
    ensures Exchanged(how) ==
      Start() + [WriteExchanging] + [ScriptReturns(0, how)] + [ThreadWrites(0)] + [ThreadWrites(0)]
    ensures DueWorld(how) == Sample(EXCHANGED, true, READY, [Thread(0, READY, Ended(how), false)], None, multiset{0})
  {
  }

  lemma Succeeding(how: Ending, q: multiset<nat>)
    requires Succeeds(how)
    ensures Step(Sample(EXCHANGE, false, READY, [Thread(0, READY, Running, false)], Some(0), q), WriteExchanging)
         == Sample(EXCHANGING, false, READY, [Thread(0, READY, Running, false)], None, q)
    ensures Step(Sample(EXCHANGING, false, READY, [Thread(0, READY, Running, false)], None, q), ScriptReturns(0, how))
         == Sample(EXCHANGING, false, READY, [Thread(0, READY, Returned(how), false)], None, q)
    ensures Step(Sample(EXCHANGING, false, READY, [Thread(0, READY, Returned(how), false)], None, q), ThreadWrites(0))
         == Sample(EXCHANGED, false, READY, [Thread(0, READY, Marked(how), false)], None, q)
    ensures Step(Sample(EXCHANGED, false, READY, [Thread(0, READY, Marked(how), false)], None, q), ThreadWrites(0))
         == Sample(EXCHANGED, true, READY, [Thread(0, READY, Ended(how), false)], None, q)
  {
    assert Possible(how);
    hide Succeeds;
  }

  /** A run in which SMOVE is issued although the script was killed. */
  lemma SmoveAfterKilled(signal: int, core: bool)
    requires 0 < signal < 127
    ensures var how := Killed(signal, core); var w := After(INIT, Exchanged(how) + [DoAction(0, true, 3)]);
      w.smoves == [0] && w.threads == [Thread(0, READY, Ended(how), false)]
  {
    var how := Killed(signal, core);
    SuccessExactly(how);
    ExchangedRun(how);
    AfterSnoc(Exchanged(how), DoAction(0, true, 3));
    hide After, Exchanged, Succeeds, Sample;
    Moved(how);
  }

  lemma Moved(how: Ending)
    ensures var w := Step(DueWorld(how), DoAction(0, true, 3));
      w.smoves == [0] && w.threads == [Thread(0, READY, Ended(how), false)]
  {
  }

  /** Exchanged and waiting for its SMOVE. */
  predicate Due(w: World, id: nat) {
    id in w.recs && w.recs[id].phase == EXCHANGED && w.recs[id].toBeUpdated
  }

  /** The event makes the record wait no longer, although no SMOVE was issued. */
  predicate Loses(w: World, e: Event, id: nat) {
    Due(w, id) && !Due(Step(w, e), id) && Step(w, e).smoves == w.smoves
  }

  /** A pending SMOVE can be lost exactly when a property fetch for the record is still on its way. */
  lemma LossExactly(w: World, id: nat)
    requires Inv(w) && Due(w, id) && w.starting.None?
    ensures (exists e :: Loses(w, e, id)) <==> id in w.queries
  {
    hide *;
    if id in w.queries {
      SlaveLoses(w, id);
    } else {
      forall e ensures !Loses(w, e, id) {
        NoLoss(w, e, id);
      }
    }
  }

  /** With no thread and no transaction left for the record, what is lost is lost for good. */
  lemma LostForGood(w: World, e: Event, id: nat, es: seq<Event>)
    requires Inv(w) && Loses(w, e, id) && w.starting.None? && id !in w.execs
    requires forall t :: 0 <= t < |w.threads| && w.threads[t].rec == id ==> !Busy(w.threads[t])
    ensures var w' := After(Step(w, e), es);
      Stuck(w', id) && Count(w'.smoves, id) == Count(w.smoves, id) && w'.recs[id].key in w'.list
  {
    StepKeeps(w, e);
    LossSticks(w, e, id);
    StuckForever(Step(w, e), es, id);
  }

  /** A run that loses its SMOVE for good: the fetch still on its way when the thread was created is answered, with
      another role, before the loop visits the exchanged record. */
  lemma LossRun(how: Ending, es: seq<Event>)
    requires Succeeds(how)
    ensures var w := After(INIT, Exchanged(how)); var e := FetchDone(0, Some(SlaveFields()));
      && Due(w, 0) && 0 in w.queries && 0 !in w.execs && Loses(w, e, 0)
      && var w' := After(After(INIT, Exchanged(how) + [e]), es);
         Stuck(w', 0) && Count(w'.smoves, 0) == 0 && w'.recs[0].key in w'.list
  {
    var w, e := After(INIT, Exchanged(how)), FetchDone(0, Some(SlaveFields()));
    ExchangedRun(how);
    Reachable(Exchanged(how));
    AfterSnoc(Exchanged(how), e);
    hide After, Exchanged, Succeeds, Inv;
    DueThere(how);
    assert Loses(w, e, 0) by { SlaveLoses(w, 0); }
    hide DueWorld, Step, Loses;
    LostForGood(w, e, 0, es);
  }

  function SlaveFields(): seq<Reply> { [Text("pid"), Text("1"), Text("role"), Text("slave")] }

  lemma DueThere(how: Ending)
    ensures var w := DueWorld(how);
      && Due(w, 0) && 0 in w.queries && 0 !in w.execs && w.starting.None? && w.smoves == [] && Count(w.smoves, 0) == 0
      && forall t :: 0 <= t < |w.threads| && w.threads[t].rec == 0 ==> !Busy(w.threads[t])
  {
  }

  /** An answer that names another role. */
  lemma SlaveLoses(w: World, id: nat)
    requires Due(w, id) && w.starting.None? && id in w.queries
    ensures Loses(w, FetchDone(id, Some(SlaveFields())), id)
  {
    SlaveRead();
    hide SlaveFields, Flat, Lookup, Split;
  }

  lemma SlaveRead()
    ensures var fields := SlaveFields();
      && Flat(fields) && |fields| > 0 && Lookup(fields, "pid") == Some(Text("1"))
      && Lookup(fields, "role") == Some(Text("slave")) && Lookup(fields, "cluster") == None
  {
  }

  lemma LossSticks(w: World, e: Event, id: nat)
    requires Inv(w) && Loses(w, e, id) && w.starting.None? && id !in w.execs
    requires forall t :: 0 <= t < |w.threads| && w.threads[t].rec == id ==> !Busy(w.threads[t])
    ensures Stuck(Step(w, e), id)
  {
    hide Inv, Split, Updated;
    if !(e.FetchDone? && e.id == id && id in w.queries) {
      NoLoss(w, e, id);
    } else {
      FetchRecord(w, id, e.fields);
      hide FetchStep;
    }
  }

  lemma NoLoss(w: World, e: Event, id: nat)
    requires Inv(w) && Due(w, id) && w.starting.None? && !(e.FetchDone? && e.id == id && id in w.queries)
    ensures !Loses(w, e, id)
  {
    hide Split, Updated, Inv, Succeeds, Possible;
    match e
    case ThreadWrites(t) =>
      hide Step;
      if t < |w.threads| && w.threads[t].rec in w.recs {
        WritesIs(w, t);
        if w.threads[t].rec == id {
          ThreadFacts(w, t);
          hide ThreadFits;
          DueThread(w, t, id);
        } else {
          OtherThread(w, t, id);
        }
      } else {
        NoWrite(w, t);
      }
    case FetchDone(k, fields) =>
      if k in w.recs { FetchRecord(w, k, fields); }
      hide FetchStep;
    case AddDown(_) =>
      IdBound(w, id);
    case _ =>
  }

  lemma OtherThread(w: World, t: nat, id: nat)
    requires Due(w, id) && t < |w.threads| && w.threads[t].rec != id && w.threads[t].rec in w.recs
    ensures Due(ThreadStep(w, t), id)
  {
    hide Succeeds;
  }

  lemma NoWrite(w: World, t: nat)
    requires t >= |w.threads| || w.threads[t].rec !in w.recs
    ensures Step(w, ThreadWrites(t)) == w
  {
  }

  lemma DueThread(w: World, t: nat, id: nat)
    requires Due(w, id) && t < |w.threads| && w.threads[t].rec == id && !Scripting(w.threads[t])
    ensures Due(ThreadStep(w, t), id)
  {
  }

  // ---------- a transaction without a reply ----------

  /** The transaction that moves the record is on its way. */
  predicate InTransit(w: World, id: nat) {
    id in w.recs && w.recs[id].phase == EXCHANGED && !w.recs[id].toBeUpdated && id in w.execs
  }

  /** Nothing else asks for SMOVE. */
  ghost predicate Moving(w: World, id: nat) {
    && w.starting.None? && InTransit(w, id)
    && forall t :: 0 <= t < |w.threads| && w.threads[t].rec == id ==> !Busy(w.threads[t])
  }

  /** After the event nothing will ask for SMOVE again, although no reply said that it was carried out. */
  ghost predicate GivesUp(w: World, e: Event, id: nat) {
    Stuck(Step(w, e), id) && !(e.ExecDone? && e.id == id && e.success == Some(true))
  }

  /** An SMOVE is tried again exactly if EXEC is answered with anything but success, and given up exactly if the last
      transaction gets no reply. */
  lemma GivesUpExactly(w: World, e: Event, id: nat)
    requires Inv(w) && Moving(w, id)
    ensures GivesUp(w, e, id) <==> e == ExecDone(id, None) && w.execs[id] == 1
    ensures Due(Step(w, e), id) <==> e == ExecDone(id, Some(false))
  {
    hide Inv, Step;
    if e.ExecDone? && e.id == id {
      MovingDone(w, id, e.success);
    } else {
      StillMoving(w, e, id);
    }
  }

  lemma MovingDone(w: World, id: nat, success: Option<bool>)
    requires Moving(w, id)
    ensures Due(Step(w, ExecDone(id, success)), id) <==> success == Some(false)
    ensures Stuck(Step(w, ExecDone(id, success)), id) <==> success != Some(false) && w.execs[id] == 1
    ensures success == None || success == Some(true) || success == Some(false)
  {
    match success
    case None =>
    case Some(b) => assert b == true || b == false;
  }

  lemma StillMoving(w: World, e: Event, id: nat)
    requires Inv(w) && Moving(w, id) && !(e.ExecDone? && e.id == id)
    ensures InTransit(Step(w, e), id)
  {
    hide *;
    IdBound(w, id) by { MovingIs(w, id); }
    if e.DoAction? {
      MovingAct(w, e, id);
    } else if e.FetchDone? {
      MovingFetch(w, e, id);
    } else if e.ThreadWrites? {
      MovingThread(w, e, id);
    } else {
      MovingRest(w, e, id);
    }
  }

  lemma MovingIs(w: World, id: nat)
    requires Moving(w, id)
    ensures id in w.recs
  {
  }

  lemma MovingAct(w: World, e: Event, id: nat)
    requires Moving(w, id) && e.DoAction?
    ensures InTransit(Step(w, e), id)
  {
  }

  lemma MovingFetch(w: World, e: Event, id: nat)
    requires Moving(w, id) && e.FetchDone?
    ensures InTransit(Step(w, e), id)
  {
    if e.id in w.recs { FetchRecord(w, e.id, e.fields); }
    hide FetchStep;
  }

  lemma MovingThread(w: World, e: Event, id: nat)
    requires Moving(w, id) && e.ThreadWrites?
    ensures InTransit(Step(w, e), id)
  {
    hide Succeeds;
  }

  lemma MovingRest(w: World, e: Event, id: nat)
    requires Moving(w, id) && id < w.next && !(e.ExecDone? && e.id == id)
    requires !e.DoAction? && !e.FetchDone? && !e.ThreadWrites?
    ensures InTransit(Step(w, e), id)
  {
    hide Split, Possible;
  }

  /** What is given up is never taken up again: no further SMOVE, and the record never leaves the down list. */
  lemma GivenUpForGood(w: World, id: nat, es: seq<Event>)
    requires Inv(w) && Moving(w, id) && w.execs[id] == 1
    ensures var w' := After(Step(w, ExecDone(id, None)), es);
      Stuck(w', id) && Count(w'.smoves, id) == Count(w.smoves, id) && w'.recs[id].key in w'.list
  {
    GivesUpExactly(w, ExecDone(id, None), id);
    StepKeeps(w, ExecDone(id, None));
    StuckForever(Step(w, ExecDone(id, None)), es, id);
    hide After, Stuck, Inv;
  }

  /** A run in which that happens: the thread succeeds, SMOVE is issued once, and the connection is lost before EXEC is
      answered. */
  lemma GivesUpRun(how: Ending, es: seq<Event>)
    requires Succeeds(how)
    ensures var sent := Exchanged(how) + [DoAction(0, true, 3)]; var w := After(INIT, sent);
      && Moving(w, 0) && GivesUp(w, ExecDone(0, None), 0)
      && var w' := After(After(INIT, sent + [ExecDone(0, None)]), es);
         Stuck(w', 0) && Count(w'.smoves, 0) == 1 && w'.recs[0].key in w'.list
  {
    var sent := Exchanged(how) + [DoAction(0, true, 3)];
    ExchangedRun(how);
    AfterSnoc(Exchanged(how), DoAction(0, true, 3));
    AfterSnoc(sent, ExecDone(0, None));
    Reachable(sent);
    hide After, Exchanged, Succeeds, Inv;
    MovingThere(how);
    hide DueWorld, Step, Moving;
    GivesUpExactly(After(INIT, sent), ExecDone(0, None), 0);
    GivenUpForGood(After(INIT, sent), 0, es);
  }

  lemma MovingThere(how: Ending)
    ensures var w := Step(DueWorld(how), DoAction(0, true, 3));
      Moving(w, 0) && w.execs[0] == 1 && w.smoves == [0] && Count(w.smoves, 0) == 1
  {
    assert Count([0], 0) == 1 + Count([], 0);
  }

  // ---------- what each event changes, and nothing else does ----------

  /** A key comes onto the down list exactly by addServerToDownList for a well-formed key, as a new record that waits
      for its properties; it leaves exactly by rmServerFromDownList before its exchange has started. */
  lemma ListedExactly(w: World, e: Event, k: string)
    requires Inv(w)
    ensures var w' := Step(w, e);
      && (k in w'.list <==>
        if k in w.list then !(e == RmDown(k) && w.starting.None? && w.recs[w.list[k]].phase == EXCHANGE)
        else e == AddDown(k) && w.starting.None? && |Split(k)| == 3)
      && (k in w.list && k in w'.list ==> w'.list[k] == w.list[k])
      && (k !in w.list && k in w'.list ==>
        w'.list[k] == w.next && w.next in w'.recs && w'.recs[w.next] == Record(k, EXCHANGE, true, BLANK))
  {
    hide *;
    if e.AddDown? || e.RmDown? {
      ListedChange(w, e, k);
    } else {
      ListSame(w, e);
    }
  }

  lemma ListedChange(w: World, e: Event, k: string)
    requires Inv(w) && (e.AddDown? || e.RmDown?)
    ensures var w' := Step(w, e);
      && (k in w'.list <==>
        if k in w.list then !(e == RmDown(k) && w.starting.None? && w.recs[w.list[k]].phase == EXCHANGE)
        else e == AddDown(k) && w.starting.None? && |Split(k)| == 3)
      && (k in w.list && k in w'.list ==> w'.list[k] == w.list[k])
      && (k !in w.list && k in w'.list ==>
        w'.list[k] == w.next && w.next in w'.recs && w'.recs[w.next] == Record(k, EXCHANGE, true, BLANK))
  {
    InvParts(w);
    hide Inv, AllFit, LastOnly, Earned, Split;
  }

  lemma ListSame(w: World, e: Event)
    requires !e.AddDown? && !e.RmDown?
    ensures Step(w, e).list == w.list
  {
    hide *;
    match e
    case ThreadWrites(t) => ThreadRest(w, t);
    case FetchDone(id, fields) => FetchRest(w, id, fields);
    case DoAction(id, created, accepted) => ActionRest(w, id, created, accepted);
    case _ => OtherRest(w, e);
  }

  lemma ThreadRest(w: World, t: nat)
    ensures var w' := Step(w, ThreadWrites(t)); w'.list == w.list && w'.queries == w.queries && w'.execs == w.execs
  {
    hide Succeeds;
  }

  lemma FetchRest(w: World, id: nat, fields: Option<seq<Reply>>)
    ensures var w' := Step(w, FetchDone(id, fields));
      && w'.list == w.list && w'.execs == w.execs
      && w'.queries == if w.starting.None? && id in w.recs then w.queries - multiset{id} else w.queries
  {
    hide Updated, Flat;
  }

  lemma ActionRest(w: World, id: nat, created: bool, accepted: nat)
    ensures var w' := Step(w, DoAction(id, created, accepted)); var idle := w.starting.None? && id in w.recs;
      && w'.list == w.list
      && w'.queries == (if idle && w.recs[id].phase == EXCHANGE && w.recs[id].toBeUpdated && accepted > 0
          then w.queries + multiset{id} else w.queries)
      && w'.execs == (if idle && w.recs[id].phase == EXCHANGED && w.recs[id].toBeUpdated && accepted > 2
          then w.execs + multiset{id} else w.execs)
  {
  }

  lemma OtherRest(w: World, e: Event)
    requires !e.ThreadWrites? && !e.FetchDone? && !e.DoAction?
    ensures var w' := Step(w, e);
      && (!e.AddDown? && !e.RmDown? ==> w'.list == w.list) && w'.queries == w.queries
      && w'.execs == (if e.ExecDone? && w.starting.None? && e.id in w.recs then w.execs - multiset{e.id} else w.execs)
  {
    hide Split, Possible;
  }

  /** A fetch is sent exactly by the action on a record that waits for its properties, and each is answered once; a
      transaction exactly by the action on an exchanged record that waits, and each is answered once. */
  lemma RequestsExactly(w: World, e: Event)
    requires Inv(w)
    ensures var w' := Step(w, e); var idle := w.starting.None?;
      && w'.queries == (
          if e.DoAction? && idle && e.id in w.recs && w.recs[e.id].phase == EXCHANGE && w.recs[e.id].toBeUpdated
             && e.accepted > 0 then w.queries + multiset{e.id}
          else if e.FetchDone? && idle && e.id in w.recs then w.queries - multiset{e.id}
          else w.queries)
      && w'.execs == (
          if e.DoAction? && idle && Due(w, e.id) && e.accepted > 2 then w.execs + multiset{e.id}
          else if e.ExecDone? && idle && e.id in w.recs then w.execs - multiset{e.id}
          else w.execs)
  {
    hide Inv, Step, Split, Possible;
    match e
    case ThreadWrites(t) => ThreadRest(w, t);
    case FetchDone(id, fields) => FetchRest(w, id, fields);
    case DoAction(id, created, accepted) => ActionRest(w, id, created, accepted);
    case _ => OtherRest(w, e);
  }

  /** A server that recovers before its exchange: its record is gone, everything else is as it was. */
  lemma RemovedOnly(w: World, k: string)
    requires Inv(w) && w.starting.None? && k in w.list && w.recs[w.list[k]].phase == EXCHANGE
    ensures var w', id := Step(w, RmDown(k)), w.list[k];
      && k !in w'.list && id !in w'.recs
      && (forall j :: j != k ==> (j in w'.list <==> j in w.list) && (j in w.list ==> w'.list[j] == w.list[j]))
      && (forall i :: i != id ==> (i in w'.recs <==> i in w.recs) && (i in w.recs ==> w'.recs[i] == w.recs[i]))
      && w'.threads == w.threads && w'.next == w.next && w'.queries == w.queries && w'.execs == w.execs
      && w'.smoves == w.smoves && w'.starting == None
  {
    InvParts(w);
    hide Inv, AllFit, LastOnly, Earned;
  }

  /** The record does not exist, and never will. */
  predicate Gone(w: World, id: nat) { id < w.next && id !in w.recs }

  lemma GoneStep(w: World, e: Event, id: nat)
    requires Inv(w) && Gone(w, id)
    ensures var w' := Step(w, e);
      && Gone(w', id) && |w.threads| <= |w'.threads|
      && (forall t :: |w.threads| <= t < |w'.threads| ==> w'.threads[t].rec != id)
      && (forall t :: 0 <= t < |w.threads| ==> w'.threads[t].rec == w.threads[t].rec)
      && Count(w'.smoves, id) == Count(w.smoves, id)
  {
    hide Inv, Split, Updated, Succeeds, Possible;
    match e
    case FetchDone(k, fields) =>
      if k in w.recs { FetchRecord(w, k, fields); }
      hide FetchStep;
    case DoAction(k, created, accepted) =>
      if w.starting.None? && k in w.recs {
        hide *;
        GoneAction(w, k, created, accepted, id);
        ActionIs(w, k, created, accepted);
      }
    case _ =>
  }

  lemma ActionIs(w: World, k: nat, created: bool, accepted: nat)
    requires w.starting.None? && k in w.recs
    ensures Step(w, DoAction(k, created, accepted)) == ActStep(w, k, created, accepted)
  {
  }

  lemma GoneAction(w: World, k: nat, created: bool, accepted: nat, id: nat)
    requires Gone(w, id) && k in w.recs
    ensures var w' := ActStep(w, k, created, accepted);
      && Gone(w', id) && |w.threads| <= |w'.threads|
      && (forall t :: |w.threads| <= t < |w'.threads| ==> w'.threads[t].rec != id)
      && (forall t :: 0 <= t < |w.threads| ==> w'.threads[t].rec == w.threads[t].rec)
      && Count(w'.smoves, id) == Count(w.smoves, id)
  {
    var more := w.smoves + [k];
    assert more[..|more| - 1] == w.smoves;
  }

  /** In no continuation a thread is created, or SMOVE issued, for a record that was taken off the list: its threads are
      those it had. */
  lemma {:induction false} GoneForGood(w: World, id: nat, es: seq<Event>)
    requires Inv(w) && Gone(w, id)
    ensures var w' := After(w, es);
      && Gone(w', id) && |w.threads| <= |w'.threads|
      && (forall t :: |w.threads| <= t < |w'.threads| ==> w'.threads[t].rec != id)
      && (forall t :: 0 <= t < |w.threads| ==> w'.threads[t].rec == w.threads[t].rec)
      && Count(w'.smoves, id) == Count(w.smoves, id)
    decreases |es|
  {
    if es != [] {
      var before := es[..|es| - 1];
      hide Inv, Step, Gone, Count;
      GoneForGood(w, id, before);
      AfterKeeps(w, before);
      GoneStep(After(w, before), es[|es| - 1], id);
    }
  }

  /** Nor for any other record of that key, unless the key is put on the list again. */
  lemma {:induction false} KeyStaysOff(w: World, k: string, es: seq<Event>)
    requires Inv(w) && k !in w.list && forall i :: 0 <= i < |es| ==> es[i] != AddDown(k)
    ensures var w' := After(w, es); k !in w'.list && forall id :: id in w'.recs ==> w'.recs[id].key != k
    decreases |es|
  {
    AfterKeeps(w, es);
    InvParts(After(w, es));
    if es != [] {
      var before := es[..|es| - 1];
      hide Inv, Step;
      KeyStaysOff(w, k, before);
      AfterKeeps(w, before);
      ListedExactly(After(w, before), es[|es| - 1], k);
    }
  }

  /** A run from the start in which a server recovers while the fetch of its properties is on its way: its record leaves
      the list, and no script is ever started for it. */
  lemma RecoveredRun(es: seq<Event>)
    ensures var w := After(INIT, [AddDown(KEY), DoAction(0, true, 1)]); var w' := Step(w, RmDown(KEY));
      && KEY in w.list && 0 in w.recs && w.recs[0].phase == EXCHANGE
      && KEY !in w'.list && 0 !in w'.recs
      && forall t :: 0 <= t < |After(w', es).threads| ==> After(w', es).threads[t].rec != 0
  {
    var start := [AddDown(KEY), DoAction(0, true, 1)];
    assert start == [] + [AddDown(KEY)] + [DoAction(0, true, 1)];
    AfterSnoc([], AddDown(KEY));
    AfterSnoc([] + [AddDown(KEY)], DoAction(0, true, 1));
    Opening();
    Reachable(start);
    var w := After(INIT, start);
    assert w == Sample(EXCHANGE, true, BLANK, [], None, multiset{0});
    hide After, Inv;
    RemovedOnly(w, KEY);
    StepKeeps(w, RmDown(KEY));
    GoneForGood(Step(w, RmDown(KEY)), 0, es);
  }

  /** A thread is created exactly by the action on a record that is ready for its exchange. */
  lemma CreatedExactly(w: World, e: Event)
    requires Inv(w)
    ensures var w' := Step(w, e);
      |w'.threads| != |w.threads| <==>
        && e.DoAction? && e.created && w.starting.None? && e.id in w.recs
        && w.recs[e.id].phase == EXCHANGE && !w.recs[e.id].toBeUpdated && w.recs[e.id].property.role == MASTER
    ensures var w' := Step(w, e);
      |w'.threads| != |w.threads| ==>
        w'.threads == w.threads + [Thread(e.id, w.recs[e.id].property, Running, false)] && w'.starting == Some(e.id)
  {
    hide Inv, Split, Updated, Succeeds, Possible;
    match e
    case FetchDone(k, fields) =>
      if k in w.recs { FetchRecord(w, k, fields); }
      hide FetchStep;
    case _ =>
  }

  /** SMOVE is issued exactly by the action on an exchanged record that waits for it, if the connection accepts it. */
  lemma SmoveExactly(w: World, e: Event)
    requires Inv(w)
    ensures var w' := Step(w, e);
      w'.smoves != w.smoves <==> e.DoAction? && e.accepted > 1 && w.starting.None? && Due(w, e.id)
    ensures Step(w, e).smoves != w.smoves ==> Step(w, e).smoves == w.smoves + [e.id]
  {
    hide Inv, Split, Updated, Succeeds, Possible;
    match e
    case FetchDone(k, fields) =>
      if k in w.recs { FetchRecord(w, k, fields); }
      hide FetchStep;
    case DoAction(id, created, accepted) =>
      assert |w.smoves + [id]| > |w.smoves|;
    case _ =>
  }

  /** The phase of a record changes only by the loop's write after it created a thread, and by what the thread writes
      when its script is over. */
  lemma PhaseExactly(w: World, e: Event, id: nat)
    requires Inv(w) && id in w.recs && id in Step(w, e).recs
    ensures Step(w, e).recs[id].phase ==
      if e == WriteExchanging && w.starting == Some(id) then EXCHANGING
      else if e.ThreadWrites? && e.t < |w.threads| && w.threads[e.t].rec == id && w.threads[e.t].pc.Returned? then
        if Succeeds(w.threads[e.t].pc.how) then EXCHANGED else EXCHANGE
      else w.recs[id].phase
    ensures Step(w, e).recs[id].key == w.recs[id].key
  {
    hide *;
    IdBound(w, id);
    if e.ThreadWrites? {
      ThreadChanges(w, e.t, id);
    } else if e.FetchDone? {
      FetchChanges(w, e.id, e.fields, id);
    } else if e.DoAction? {
      ActionChanges(w, e.id, e.created, e.accepted, id);
    } else {
      OtherChanges(w, e, id);
    }
    EventIs(e);
  }

  lemma EventIs(e: Event)
    ensures e.ThreadWrites? ==> e == ThreadWrites(e.t)
    ensures e.FetchDone? ==> e == FetchDone(e.id, e.fields)
    ensures e.DoAction? ==> e == DoAction(e.id, e.created, e.accepted)
  {
  }

  lemma ThreadChanges(w: World, t: nat, id: nat)
    requires id in w.recs
    ensures var w' := Step(w, ThreadWrites(t)); var r := w.recs[id];
      && id in w'.recs && w'.recs[id].key == r.key
      && w'.recs[id].phase == (
          if t < |w.threads| && w.threads[t].rec == id && w.threads[t].pc.Returned? then
            if Succeeds(w.threads[t].pc.how) then EXCHANGED else EXCHANGE
          else r.phase)
      && w'.recs[id].toBeUpdated ==
          (r.toBeUpdated || (t < |w.threads| && w.threads[t].rec == id && w.threads[t].pc.Marked?))
  {
    hide Succeeds;
  }

  lemma FetchChanges(w: World, k: nat, fields: Option<seq<Reply>>, id: nat)
    requires id in w.recs
    ensures var w' := Step(w, FetchDone(k, fields)); var r := w.recs[id];
      && id in w'.recs && w'.recs[id].key == r.key && w'.recs[id].phase == r.phase
      && (w'.recs[id].toBeUpdated <==>
        r.toBeUpdated && !(k == id && w.starting.None? && id in w.queries && Answers(fields, w.list.Keys)))
  {
    if w.starting.None? && k in w.recs && k in w.queries {
      FetchRecord(w, k, fields);
      if fields.Some? && Flat(fields.value) { UpdatedExactly(w.recs[k], fields.value, w.list.Keys); }
    }
    hide Updated, SaysMaster, SaysSlave;
  }

  lemma ActionChanges(w: World, k: nat, created: bool, accepted: nat, id: nat)
    requires id in w.recs
    ensures var w' := Step(w, DoAction(k, created, accepted)); var r := w.recs[id];
      && id in w'.recs && w'.recs[id].key == r.key && w'.recs[id].phase == r.phase
      && (w'.recs[id].toBeUpdated <==>
        r.toBeUpdated && !(k == id && w.starting.None? && r.phase == EXCHANGED && accepted > 2))
  {
  }

  lemma OtherChanges(w: World, e: Event, id: nat)
    requires id in w.recs && id < w.next && !e.ThreadWrites? && !e.FetchDone? && !e.DoAction?
    ensures var w' := Step(w, e); id in w'.recs ==> var r := w.recs[id];
      && w'.recs[id].key == r.key
      && w'.recs[id].phase == (if e == WriteExchanging && w.starting == Some(id) then EXCHANGING else r.phase)
      && (w'.recs[id].toBeUpdated <==>
        r.toBeUpdated || (e == ExecDone(id, Some(false)) && w.starting.None? && id in w.execs))
  {
    hide Split, Possible;
    if e.ExecDone? { ExecChanges(w, e.id, e.success, id); }
    hide ExecStep;
  }

  lemma ExecChanges(w: World, k: nat, success: Option<bool>, id: nat)
    requires id in w.recs
    ensures var w' := Step(w, ExecDone(k, success)); var r := w.recs[id];
      && id in w'.recs && w'.recs[id].key == r.key && w'.recs[id].phase == r.phase
      && (w'.recs[id].toBeUpdated <==>
        r.toBeUpdated || (k == id && success == Some(false) && w.starting.None? && id in w.execs))
  {
  }

  /** A record begins to wait exactly when a transaction is answered with a failure or the thread of a successful script
      makes its second write; it waits no longer exactly when a fetch gave its properties or EXEC has been sent. */
  lemma WaitsExactly(w: World, e: Event, id: nat)
    requires Inv(w) && id in w.recs && id in Step(w, e).recs
    ensures var r, r' := w.recs[id], Step(w, e).recs[id];
      && (!r.toBeUpdated ==> (r'.toBeUpdated <==>
        || (e == ExecDone(id, Some(false)) && w.starting.None? && id in w.execs)
        || (e.ThreadWrites? && e.t < |w.threads| && w.threads[e.t].rec == id && w.threads[e.t].pc.Marked?)))
      && (r.toBeUpdated ==> (!r'.toBeUpdated <==>
        || (e.FetchDone? && e.id == id && w.starting.None? && id in w.queries && Answers(e.fields, w.list.Keys))
        || (e.DoAction? && e.id == id && w.starting.None? && r.phase == EXCHANGED && e.accepted > 2)))
  {
    hide *;
    IdBound(w, id);
    if e.ThreadWrites? {
      ThreadChanges(w, e.t, id);
    } else if e.FetchDone? {
      FetchChanges(w, e.id, e.fields, id);
    } else if e.DoAction? {
      ActionChanges(w, e.id, e.created, e.accepted, id);
    } else {
      OtherChanges(w, e, id);
    }
    EventIs(e);
  }

  /** The reply is a complete property fetch that says master or slave. */
  predicate Answers(fields: Option<seq<Reply>>, down: set<string>) {
    fields.Some? && Flat(fields.value) && (SaysMaster(fields.value, down) || SaysSlave(fields.value))
  }
}
