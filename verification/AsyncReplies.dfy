/** The reply callbacks of a non-subscribed asynchronous context (async.c:180-278, 361-423, 517-575): a linked queue of
    callbacks, served in order by replies and drained with NULL when the context is torn down. */
module AsyncReplies {
  import opened Basics
  import opened Resp

  /** redisCallback: `fn` is false for a command issued without a callback. The id tells commands apart. */
  datatype Callback = Callback(id: nat, fn: bool)

  class Node {
    const cb: Callback
    var next: Node?

    constructor (cb: Callback)
      ensures this.cb == cb && next == null
    {
      this.cb, next := cb, null;
    }
  }

  /** What a callback may do to its context. */
  datatype Action = Issue(fn: bool) | Free

  /** A call of a callback; a reply of None is NULL. */
  datatype Call = Call(cb: Callback, reply: Option<Reply>)

  /** The commands issued by these actions before the first Free, numbered from n. */
  function Issued(acts: seq<Action>, n: nat): seq<Callback> {
    if acts == [] || acts[0].Free? then [] else [Callback(n, acts[0].fn)] + Issued(acts[1..], n + 1)
  }

  lemma NothingIssued(n: nat)
    ensures Issued([], n) == []
  {
  }

  lemma {:induction false} IssuedMore(acts: seq<Action>, i: nat, n: nat)
    requires i < |acts|
    ensures Free in acts[..i + 1] <==> Free in acts[..i] || acts[i] == Free
    ensures Free !in acts[..i] ==> |Issued(acts[..i], n)| == i
    ensures Issued(acts[..i + 1], n) == Issued(acts[..i], n) +
      if acts[i].Issue? && Free !in acts[..i] then [Callback(n + i, acts[i].fn)] else []
    decreases i
  {
    assert acts[..i + 1] == acts[..i] + [acts[i]];
    if i > 0 {
      assert acts[..i + 1][1..] == acts[1..][..i] && acts[..i][1..] == acts[1..][..i - 1];
      assert acts[..i] == [acts[0]] + acts[1..][..i - 1];
      IssuedMore(acts[1..], i - 1, n + 1);
    }
  }

  function At(s: seq<Node>, i: int): Node? {
    if 0 <= i < |s| then s[i] else null
  }

  function Callbacks(s: seq<Node>): (r: seq<Callback>)
    ensures |r| == |s|
  {
    seq(|s|, i requires 0 <= i < |s| => s[i].cb)
  }

  /** Commands without a callback are served too, only nothing is called. */
  function Served(calls: seq<Call>): (r: seq<Callback>)
    ensures |r| == |calls|
  {
    seq(|calls|, i requires 0 <= i < |calls| => calls[i].cb)
  }

  /** Served commands and waiting ones are the accepted ones, in issue order. */
  ghost predicate InOrder(accepted: seq<Callback>, served: seq<Call>, waiting: seq<Callback>, nextId: nat) {
    && accepted == Served(served) + waiting
    && |accepted| == nextId && forall i :: 0 <= i < |accepted| ==> accepted[i].id == i
  }

  /** The k-th command got the k-th reply; those served without one were served after all replies. */
  ghost predicate Answered(served: seq<Call>, got: seq<Reply>) {
    && |got| <= |served|
    && (forall k :: 0 <= k < |got| ==> served[k].reply == Some(got[k]))
    && (forall k :: |got| <= k < |served| ==> served[k].reply == None)
  }

  /** The callbacks that serving these commands calls: a command without one calls nothing. */
  function Called(served: seq<Call>): seq<Call>
    decreases |served|
  {
    if served == [] then []
    else Called(served[..|served| - 1]) + if served[|served| - 1].cb.fn then [served[|served| - 1]] else []
  }

  /** What the k-th command is answered with. */
  function ReplyTo(k: nat, got: seq<Reply>): Option<Reply> { if k < |got| then Some(got[k]) else None }

  /** The calls to be made for the accepted commands: each that has a callback once, in issue order, with its own reply,
      or with NULL if there was none. */
  function Expected(accepted: seq<Callback>, got: seq<Reply>): seq<Call>
    decreases |accepted|
  {
    if accepted == [] then []
    else
      var n := |accepted| - 1;
      Expected(accepted[..n], got) + if accepted[n].fn then [Call(accepted[n], ReplyTo(n, got))] else []
  }

  lemma {:induction false} CalledIsExpected(served: seq<Call>, accepted: seq<Callback>, got: seq<Reply>)
    requires |served| == |accepted|
    requires forall k :: 0 <= k < |accepted| ==> served[k] == Call(accepted[k], ReplyTo(k, got))
    ensures Called(served) == Expected(accepted, got)
    decreases |served|
  {
    if served != [] {
      var n := |served| - 1;
      CalledIsExpected(served[..n], accepted[..n], got);
    }
  }

  lemma CalledSnoc(served: seq<Call>, c: Call)
    ensures Called(served + [c]) == Called(served) + if c.cb.fn then [c] else []
  {
    assert (served + [c])[..|served|] == served;
  }

  lemma InOrderPush(accepted: seq<Callback>, served: seq<Call>, waiting: seq<Callback>, nextId: nat, cb: Callback)
    requires InOrder(accepted, served, waiting, nextId) && cb.id == nextId
    ensures InOrder(accepted + [cb], served, waiting + [cb], nextId + 1)
  {
  }

  lemma InOrderShift(accepted: seq<Callback>, served: seq<Call>, nodes: seq<Node>, nextId: nat, reply: Option<Reply>)
    requires nodes != [] && InOrder(accepted, served, Callbacks(nodes), nextId)
    ensures InOrder(accepted, served + [Call(nodes[0].cb, reply)], Callbacks(nodes[1..]), nextId)
  {
    assert Callbacks(nodes) == [nodes[0].cb] + Callbacks(nodes[1..]);
    assert Served(served + [Call(nodes[0].cb, reply)]) == Served(served) + [nodes[0].cb];
  }

  lemma AnsweredSnoc(served: seq<Call>, got: seq<Reply>, cb: Callback, reply: Option<Reply>)
    requires Answered(served, got) && (reply.Some? ==> |served| == |got|)
    ensures Answered(served + [Call(cb, reply)], got + if reply.Some? then [reply.value] else [])
  {
  }

  class Context {
    // the list of callbacks
    var head: Node?
    var tail: Node?
    // the flags
    var inCallback: bool
    var freeing: bool
    var disconnecting: bool
    var freed: bool
    var nextId: nat

    ghost var nodes: seq<Node>
    /** The commands accepted so far, in issue order. */
    ghost var accepted: seq<Callback>
    /** The commands served so far, and with what. */
    ghost var served: seq<Call>
    /** The replies taken from the reader so far. */
    ghost var got: seq<Reply>
    /** The calls of callback functions so far. */
    ghost var calls: seq<Call>

    ghost function Nodes(): set<Node>
      reads this`nodes
    {
      set n | n in nodes
    }

    ghost predicate ListOK()
      reads this`head, this`tail, this`nodes, Nodes()`next
    {
      && (forall i, j :: 0 <= i < j < |nodes| ==> nodes[i] != nodes[j])
      && head == At(nodes, 0) && tail == At(nodes, |nodes| - 1)
      && forall i :: 0 <= i < |nodes| ==> nodes[i].next == At(nodes, i + 1)
    }

    ghost predicate Valid()
      reads this, Nodes()`next
    {
      && ListOK() && InOrder(accepted, served, Callbacks(nodes), nextId) && Answered(served, got)
      && (!TearingDown() ==> |served| == |got|)
      && (freed ==> nodes == [] && TearingDown())
    }

    /** Every command served so far has had its callback called. */
    ghost predicate CallsOK()
      reads this`served, this`calls
    {
      calls == Called(served)
    }

    /** All but the last one served have, and that one is in hand. */
    ghost predicate InHand(cb: Callback, reply: Option<Reply>)
      reads this`served, this`calls
    {
      Called(served) == calls + if cb.fn then [Call(cb, reply)] else []
    }

    /** Teardown has begun. */
    predicate TearingDown()
      reads this`freeing, this`disconnecting
    {
      freeing || disconnecting
    }

    constructor ()
      ensures Valid() && CallsOK() && !freed && !TearingDown() && accepted == [] && !inCallback
    {
      head, tail, inCallback, freeing, disconnecting, freed, nextId := null, null, false, false, false, false, 0;
      nodes, accepted, served, got, calls := [], [], [], [], [];
    }

    /** __redisPushCallback */
    method Push(cb: Callback)
      requires ListOK()
      modifies this`head, this`tail, this`nodes, (if tail != null then {tail} else {})`next
      ensures ListOK() && Callbacks(nodes) == Callbacks(old(nodes)) + [cb]
      ensures |nodes| == |old(nodes)| + 1 && fresh(Nodes() - old(Nodes()))
    {
      var node := new Node(cb);
      if head == null {
        head := node;
      }
      if tail != null {
        tail.next := node;
      }
      tail := node;
      nodes := nodes + [node];
    }

    /** __redisShiftCallback */
    method Shift() returns (cb: Option<Callback>)
      requires ListOK()
      modifies this`head, this`tail, this`nodes
      ensures ListOK()
      ensures if old(nodes) == [] then cb == None && nodes == []
        else cb == Some(old(nodes)[0].cb) && nodes == old(nodes)[1..]
    {
      var node := head;
      if node != null {
        head := node.next;
        if node == tail {
          tail := null;
        }
        nodes := nodes[1..];
        return Some(node.cb);
      }
      return None;
    }

    /** __redisAsyncCommand, for a command that is neither (P)SUBSCRIBE nor (P)UNSUBSCRIBE */
    method Command(fn: bool) returns (ok: bool)
      requires Valid()
      modifies this`head, this`tail, this`nodes, this`nextId, this`accepted, Nodes()`next
      ensures Valid() && |nodes| >= |old(nodes)| && fresh(Nodes() - old(Nodes()))
      // nothing is accepted once teardown has begun
      ensures ok == !TearingDown() && (!ok ==> nodes == old(nodes))
      ensures accepted == old(accepted) + if ok then [Callback(old(nextId), fn)] else []
    {
      if disconnecting || freeing {
        return false;
      }
      Accept(Callback(nextId, fn));
      return true;
    }

    method Accept(cb: Callback)
      requires Valid() && !TearingDown() && cb.id == nextId
      modifies this`head, this`tail, this`nodes, this`nextId, this`accepted, Nodes()`next
      ensures Valid() && accepted == old(accepted) + [cb]
      ensures |nodes| == |old(nodes)| + 1 && fresh(Nodes() - old(Nodes()))
    {
      hide *;
      ValidIs();
      FreeIs();
      TailIn();
      InOrderPush(accepted, served, Callbacks(nodes), nextId, cb);
      Push(cb);
      nextId := nextId + 1;
      accepted := accepted + [cb];
      ValidIs();
    }

    /** The context is freed only during teardown. */
    lemma FreeIs()
      ensures Valid() && !TearingDown() ==> ListOK() && !freed
    {
    }

    lemma NodesLess()
      ensures nodes != [] ==> forall n :: n in nodes[1..] ==> n in Nodes()
    {
    }

    lemma TailIn()
      requires ListOK()
      ensures (if tail != null then {tail} else {}) <= Nodes()
    {
    }

    /** Take the next callback off the queue to serve it. */
    method Next(reply: Option<Reply>) returns (cb: Option<Callback>)
      requires Valid() && (reply == None ==> TearingDown()) && (reply.Some? ==> |served| == |got|)
      modifies this`head, this`tail, this`nodes, this`served, this`got
      ensures Valid()
      ensures if old(nodes) == [] then cb == None && nodes == [] && served == old(served) && got == old(got)
              else && cb == Some(old(nodes)[0].cb) && nodes == old(nodes)[1..]
                   && served == old(served) + [Call(cb.value, reply)]
                   && got == old(got) + if reply.Some? then [reply.value] else []
      ensures old(CallsOK()) ==> if cb == None then CallsOK() else InHand(cb.value, reply)
    {
      hide *;
      ValidIs();
      CallsIs();
      if nodes != [] {
        InOrderShift(accepted, served, nodes, nextId, reply);
        AnsweredSnoc(served, got, nodes[0].cb, reply);
        CalledSnoc(served, Call(nodes[0].cb, reply));
      }
      cb := Shift();
      if cb.Some? {
        served := served + [Call(cb.value, reply)];
        got := got + if reply.Some? then [reply.value] else [];
        HandIs(cb.value, reply);
      }
      ValidIs();
      CallsIs();
    }

    lemma ValidIs()
      ensures Valid() <==>
        && ListOK() && InOrder(accepted, served, Callbacks(nodes), nextId) && Answered(served, got)
        && (!TearingDown() ==> |served| == |got|) && (freed ==> nodes == [] && TearingDown())
    {
      hide ListOK, InOrder, Callbacks, Answered, TearingDown;
    }

    lemma CallsIs()
      ensures CallsOK() <==> calls == Called(served)
    {
    }

    lemma HandIs(cb: Callback, reply: Option<Reply>)
      ensures InHand(cb, reply) <==> Called(served) == calls + if cb.fn then [Call(cb, reply)] else []
    {
      hide Called;
    }

    /** All that a callback does. */
    method ActAll(actions: seq<Action>)
      requires Valid() && inCallback && !freed
      modifies this`head, this`tail, this`nodes, this`nextId, this`accepted, this`freeing, Nodes()`next
      ensures Valid() && |nodes| >= |old(nodes)| && fresh(Nodes() - old(Nodes()))
      ensures old(TearingDown()) ==> nodes == old(nodes)
      ensures freeing == (old(freeing) || Free in actions)
      ensures accepted == old(accepted) + if old(TearingDown()) then [] else Issued(actions, |old(accepted)|)
    {
      hide ListOK, InOrder, Answered, Called, Issued;
      ghost var before, n := accepted, |accepted|;
      NothingIssued(n);
      for i := 0 to |actions|
        invariant Valid() && inCallback && |nodes| >= |old(nodes)| && fresh(Nodes() - old(Nodes()))
        invariant old(TearingDown()) ==> nodes == old(nodes)
        invariant freeing == (old(freeing) || Free in actions[..i])
        invariant accepted == before + if old(TearingDown()) then [] else Issued(actions[..i], n)
      {
        IssuedMore(actions, i, n);
        Act(actions[i]);
      }
      assert actions[..|actions|] == actions;
    }

    /** __redisRunCallback: the callback may issue commands and free the context. */
    method RunCallback(cb: Callback, reply: Option<Reply>, does: nat -> seq<Action>)
      requires Valid() && !freed && !inCallback && InHand(cb, reply)
      modifies this`head, this`tail, this`nodes, this`nextId, this`accepted, this`freeing, this`inCallback, this`calls,
        Nodes()`next
      ensures CallsOK() && calls == old(calls) + if cb.fn then [Call(cb, reply)] else []
      ensures Valid() && !inCallback && |nodes| >= |old(nodes)| && fresh(Nodes() - old(Nodes()))
      ensures old(TearingDown()) ==> nodes == old(nodes)
      // what the callback does is done; commands are refused from the first Free on
      ensures var acts := if cb.fn then does(cb.id) else [];
        && freeing == (old(freeing) || Free in acts)
        && accepted == old(accepted) + if old(TearingDown()) then [] else Issued(acts, |old(accepted)|)
    {
      hide ListOK, InOrder, Answered, Called, Issued;
      NothingIssued(|accepted|);
      assert calls + [] == calls;
      if cb.fn {
        inCallback := true;
        calls := calls + [Call(cb, reply)];
        ActAll(does(cb.id));
        inCallback := false;
      }
    }

    lemma Numbered()
      requires Valid()
      ensures |accepted| == nextId
    {
    }

    /** One thing a callback does. redisAsyncFree only leaves a mark while a callback runs. */
    method Act(action: Action)
      requires Valid() && inCallback && !freed
      modifies this`head, this`tail, this`nodes, this`nextId, this`accepted, this`freeing, Nodes()`next
      ensures Valid() && |nodes| >= |old(nodes)| && fresh(Nodes() - old(Nodes())) && old(accepted) <= accepted
      ensures old(TearingDown()) ==> nodes == old(nodes)
      ensures freeing == (old(freeing) || action.Free?)
      ensures accepted == old(accepted) +
        if action.Issue? && !old(TearingDown()) then [Callback(|old(accepted)|, action.fn)] else []
    {
      Numbered();
      hide ListOK, InOrder, Answered;
      match action
      case Issue(fn) =>
        var ok := Command(fn);
      case Free =>
        freeing := true;
    }

    /** __redisAsyncFree: every callback still waiting is run with NULL. */
    method Teardown(does: nat -> seq<Action>)
      requires Valid() && CallsOK() && !freed && !inCallback && TearingDown()
      modifies this, Nodes()
      ensures Valid() && CallsOK() && freed && !inCallback && got == old(got) && accepted == old(accepted) &&
        (old(freeing) ==> freeing)
    {
      hide ListOK, InOrder, Answered, CallsOK, InHand;
      NodesLess();
      var cb := Next(None);
      while cb.Some?
        invariant if cb == None then CallsOK() else InHand(cb.value, None)
        invariant Valid() && !freed && !inCallback && TearingDown() && got == old(got) && accepted == old(accepted)
        invariant cb == None ==> nodes == []
        invariant Nodes() <= old(Nodes()) && (old(freeing) ==> freeing)
        decreases |nodes|, cb.Some?
      {
        RunCallback(cb.value, None, does);
        NodesLess();
        cb := Next(None);
      }
      freed := true;
    }

    /** redisAsyncFree: at once, or left to redisProcessCallbacks when a callback is running. */
    method AsyncFree(does: nat -> seq<Action>)
      requires Valid() && CallsOK() && !freed
      modifies this, Nodes()
      ensures Valid() && CallsOK() && freeing && inCallback == old(inCallback) && accepted == old(accepted) &&
        got == old(got)
      ensures if old(inCallback) then !freed && nodes == old(nodes) && served == old(served) && calls == old(calls)
        else freed
    {
      hide ListOK, InOrder, Answered, CallsOK;
      freeing := true;
      if !inCallback {
        Teardown(does);
      }
    }

    /** __redisAsyncDisconnect after an error */
    method Disconnect(does: nat -> seq<Action>)
      requires Valid() && CallsOK() && !freed && !inCallback
      modifies this, Nodes()
      ensures Valid() && CallsOK() && freed && !inCallback && accepted == old(accepted) && got == old(got)
    {
      hide ListOK, InOrder, Answered, CallsOK;
      disconnecting := true;
      Teardown(does);
    }

    /** redisProcessCallbacks, when the reader has these replies ready, and then either no more or an error. The server
        sends one reply per command. */
    method ProcessCallbacks(replies: seq<Reply>, fails: bool, does: nat -> seq<Action>)
      requires Valid() && CallsOK() && !freed && !inCallback && !TearingDown() && |replies| <= |nodes|
      modifies this, Nodes()
      ensures Valid() && CallsOK() && !inCallback && (fails ==> freed) && (TearingDown() ==> freed)
      // the replies are taken in order; all of them unless a callback has freed the context
      ensures exists n :: 0 <= n <= |replies| && got == old(got) + replies[..n] && (!freed || n == |replies| || freeing)
      ensures old(accepted) <= accepted && (!fails && !freeing ==> !freed)
    {
      hide ListOK, InOrder, Answered, CallsOK, InHand;
      var i := 0;
      while i < |replies|
        invariant 0 <= i <= |replies| && Valid() && CallsOK() && !freed && !inCallback && !TearingDown()
        invariant got == old(got) + replies[..i] && |nodes| >= |replies| - i
        invariant old(accepted) <= accepted && fresh(Nodes() - old(Nodes()))
      {
        NodesLess();
        var cb := Next(Some(replies[i]));
        assert replies[..i + 1] == replies[..i] + [replies[i]];
        RunCallback(cb.value, Some(replies[i]), does);
        i := i + 1;
        if freeing {
          Teardown(does);
          return;
        }
      }
      if fails {
        Disconnect(does);
      }
    }

    /** After teardown the calls made are exactly those to be made: for each accepted command that has a callback one,
        in issue order, with its own reply, or with NULL if there was none. */
    lemma EachCalledOnce()
      requires Valid() && CallsOK() && freed
      ensures calls == Expected(accepted, got)
    {
      EachServedOnce();
      hide ListOK, InOrder;
      CalledIsExpected(served, accepted, got);
    }

    /** After teardown every accepted command has been served exactly once, in issue order: the k-th with the k-th
        reply, or with NULL if there was none. */
    lemma EachServedOnce()
      requires Valid() && freed
      ensures |served| == |accepted|
      ensures forall k :: 0 <= k < |accepted| ==>
        served[k].cb == accepted[k] && accepted[k].id == k && served[k].reply == if k < |got| then Some(got[k])
          else None
      ensures forall i, j :: 0 <= i < j < |served| ==> served[i].cb.id != served[j].cb.id
    {
      hide ListOK;
      assert Callbacks(nodes) == [];
      assert accepted == Served(served);
      forall k | 0 <= k < |accepted| ensures served[k].cb == accepted[k] {
        assert Served(served)[k] == served[k].cb;
      }
    }
  }
}
