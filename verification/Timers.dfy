/** The timers of the event loop (ev.c:1414-1444, 1661-1788, 2671-2748, 3262-3341). */
module Timers {
  import opened Invocation
  import opened Queues
  import opened TimerHeap

  ghost function Ws(h: seq<Anhe>): set<Watcher> {
    set j | 0 <= j < |h| :: h[j].w
  }

  ghost predicate Indexed(h: seq<Anhe>, but: int)
    reads Ws(h)
  {
    forall j :: 0 <= j < |h| && j != but ==> h[j].w.active == j + HEAP0
  }

  lemma SameWs(a: seq<Anhe>, b: seq<Anhe>)
    requires multiset(a) == multiset(b)
    ensures Ws(a) == Ws(b) && |a| == |b|
  {
    forall w ensures w in Ws(a) <==> w in Ws(b) {
      forall j | 0 <= j < |a| && a[j].w == w ensures w in Ws(b) {
        assert a[j] in multiset(b);
      }
      forall j | 0 <= j < |b| && b[j].w == w ensures w in Ws(a) {
        assert b[j] in multiset(a);
      }
    }
    assert |multiset(a)| == |multiset(b)|;
  }

  /** The heap indices, as they were before a write. */
  ghost function Indices(h: seq<Anhe>): (s: seq<int>)
    reads Ws(h)
    ensures |s| == |h|
  {
    seq(|h|, j requires 0 <= j < |h| reads Ws(h) => h[j].w.active)
  }

  /** The element at p has moved into the hole at k, and its index with it. */
  lemma Reindexed(v: seq<Anhe>, k: nat, p: nat, was: seq<int>)
    requires k < |v| == |was| && p < |v| && k != p && Distinct(v)
    requires forall j :: 0 <= j < |v| && j != k ==> was[j] == j + HEAP0
    requires v[p].w.active == k + HEAP0 && forall j :: 0 <= j < |v| && v[j].w != v[p].w ==> v[j].w.active == was[j]
    ensures Indexed(Swap(v, k, p), p)
  {
    var h := Swap(v, k, p);
    forall j | 0 <= j < |h| && j != p ensures h[j].w.active == j + HEAP0 {
      if j != k { assert v[j].w != v[p].w; }
    }
  }

  /** The element that was held back has been put into the hole. */
  lemma Filled(v: seq<Anhe>, k: nat, was: seq<int>)
    requires k < |v| == |was| && Distinct(v) && v[k].w.active == k + HEAP0
    requires forall j :: 0 <= j < |v| && j != k ==> was[j] == j + HEAP0
    requires forall j :: 0 <= j < |v| && v[j].w != v[k].w ==> v[j].w.active == was[j]
    ensures Indexed(v, -1)
  {
    forall j | 0 <= j < |v| ensures v[j].w.active == j + HEAP0 {
      if j != k { assert v[j].w != v[k].w; }
    }
  }

  lemma MoveHole(h: seq<Anhe>, k: nat, p: nat, he: Anhe)
    requires k < |h| && p < |h| && k != p
    ensures h[k := h[p]][p := he] == Swap(h[k := he], k, p)
  {
  }

  lemma InWs(h: seq<Anhe>, j: nat)
    requires j < |h|
    ensures h[j].w in Ws(h)
  {
  }

  /** When a repeating timer that was due at `at` is due again. */
  function NextTime(at: real, repeat: real, now: real): (next: real)
    ensures next >= now && next >= at + repeat && (next == now || next == at + repeat)
  {
    if at + repeat < now then now else at + repeat
  }

  // ---------- the entries that timers_reify takes ----------

  datatype Snap = Snap(active: bool, at: real, pending: int)

  /** Exactly the entries of h that are due, each once, in order of time. */
  ghost predicate Due(h: seq<Anhe>, taken: seq<Anhe>, now: real) {
    && (forall e :: e in multiset(h) + multiset(taken) ==>
      multiset(taken)[e] == if e.at < now then multiset(h)[e] else 0)
    && (forall i, j :: 0 <= i < j < |taken| ==> taken[i].at <= taken[j].at && taken[i].w != taken[j].w)
  }

  lemma WsSnoc(taken: seq<Anhe>, e: Anhe)
    ensures Ws(taken + [e]) == Ws(taken) + {e.w}
  {
    var h := taken + [e];
    forall w ensures w in Ws(h) <==> w in Ws(taken) || w == e.w {
      if w in Ws(taken) { var j :| 0 <= j < |taken| && taken[j].w == w; assert h[j].w == w; }
      if w == e.w { assert h[|taken|].w == w; }
    }
  }

  lemma WsNone()
    ensures Ws([]) == {}
  {
  }

  lemma RfWs(taken: seq<Anhe>, rf: seq<Watcher>)
    requires |rf| == |taken| && forall i :: 0 <= i < |taken| ==> rf[i] == taken[i].w
    ensures forall w :: w in rf <==> w in Ws(taken)
  {
    forall w | w in Ws(taken) ensures w in rf {
      var j :| 0 <= j < |taken| && taken[j].w == w;
      assert rf[j] == w;
    }
  }

  /** How far the loop of timers_reify has come: `left` are the entries of the first heap h that it has not touched,
      `moved` those it has given a new time. */
  ghost predicate Progress(ts: seq<Anhe>, rf: seq<Watcher>, now: real, h: seq<Anhe>, taken: seq<Anhe>,
                           left: multiset<Anhe>, moved: multiset<Anhe>)
  {
    Shares(ts, h, taken, left, moved) && Timely(rf, now, taken, left, moved)
  }

  ghost predicate Shares(ts: seq<Anhe>, h: seq<Anhe>, taken: seq<Anhe>, left: multiset<Anhe>, moved: multiset<Anhe>) {
    Distinct(h) && multiset(ts) == left + moved && multiset(h) == left + multiset(taken)
  }

  ghost predicate Timely(rf: seq<Watcher>, now: real, taken: seq<Anhe>, left: multiset<Anhe>, moved: multiset<Anhe>) {
    && (forall e :: e in moved ==> e.at >= now)
    && (forall i :: 0 <= i < |taken| ==> taken[i].at < now)
    && (forall i, j :: 0 <= i < j < |taken| ==> taken[i].at <= taken[j].at)
    && (forall i, e :: 0 <= i < |taken| && e in left ==> taken[i].at <= e.at)
    && |rf| == |taken| && (forall i :: 0 <= i < |taken| ==> rf[i] == taken[i].w)
  }

  lemma {:induction false} Single(h: seq<Anhe>, a: Anhe)
    requires Distinct(h)
    ensures multiset(h)[a] <= 1
    decreases |h|
  {
    if h != [] {
      var n := |h| - 1;
      assert h == h[..n] + [h[n]];
      Single(h[..n], a);
    }
  }

  /** An entry is determined by its watcher. */
  lemma Once(h: seq<Anhe>, a: Anhe, b: Anhe)
    requires Distinct(h) && a in multiset(h) && b in multiset(h) && a.w == b.w
    ensures a == b
  {
    var i :| 0 <= i < |h| && h[i] == a;
    var j :| 0 <= j < |h| && h[j] == b;
  }

  lemma Twice(s: seq<Anhe>, i: nat, j: nat)
    requires i < j < |s| && s[i] == s[j]
    ensures multiset(s)[s[i]] >= 2
  {
    assert s == s[..j] + [s[j]] + s[j + 1..];
    assert s[..j][i] == s[i];
    assert s[i] in multiset(s[..j]);
  }

  lemma RootInLeft(ts: seq<Anhe>, rf: seq<Watcher>, now: real, h: seq<Anhe>, taken: seq<Anhe>,
                   left: multiset<Anhe>, moved: multiset<Anhe>)
    requires Progress(ts, rf, now, h, taken, left, moved) && Ordered(ts) && ts != [] && ts[0].at < now
    ensures ts[0] in left && |left - multiset{ts[0]}| < |left|
    ensures forall e :: e in left ==> ts[0].at <= e.at
    ensures ts[0].w !in Ws(taken)
  {
    hide Distinct, Ordered;
    var a := ts[0];
    assert a in multiset(ts);
    forall e | e in left ensures a.at <= e.at {
      assert e in multiset(ts);
      var j :| 0 <= j < |ts| && ts[j] == e;
      RootIsLeast(ts, j);
    }
    forall i | 0 <= i < |taken| ensures taken[i].w != a.w {
      if taken[i].w == a.w {
        assert taken[i] in multiset(taken);
        Once(h, taken[i], a);
        Single(h, a);
      }
    }
  }

  lemma Advance(ts: seq<Anhe>, rf: seq<Watcher>, now: real, h: seq<Anhe>, taken: seq<Anhe>,
                left: multiset<Anhe>, moved: multiset<Anhe>, ts': seq<Anhe>, again: multiset<Anhe>)
    requires Progress(ts, rf, now, h, taken, left, moved) && ts != [] && ts[0] in left && ts[0].at < now
    requires forall e :: e in left ==> ts[0].at <= e.at
    requires multiset(ts') == multiset(ts) - multiset{ts[0]} + again && forall e :: e in again ==> e.at >= now
    ensures Progress(ts', rf + [ts[0].w], now, h, taken + [ts[0]], left - multiset{ts[0]}, moved + again)
  {
    hide Distinct;
    AdvanceShares(ts, h, taken, left, moved, ts', again);
    hide Shares;
    AdvanceTimely(rf, now, taken, ts[0], left, moved, again);
  }

  lemma AdvanceShares(ts: seq<Anhe>, h: seq<Anhe>, taken: seq<Anhe>, left: multiset<Anhe>, moved: multiset<Anhe>,
                      ts': seq<Anhe>, again: multiset<Anhe>)
    requires Shares(ts, h, taken, left, moved) && ts != [] && ts[0] in left
    requires multiset(ts') == multiset(ts) - multiset{ts[0]} + again
    ensures Shares(ts', h, taken + [ts[0]], left - multiset{ts[0]}, moved + again)
  {
    hide Distinct;
    assert multiset(taken + [ts[0]]) == multiset(taken) + multiset{ts[0]};
  }

  lemma AdvanceTimely(rf: seq<Watcher>, now: real, taken: seq<Anhe>, e: Anhe, left: multiset<Anhe>,
      moved: multiset<Anhe>, again: multiset<Anhe>)
    requires Timely(rf, now, taken, left, moved) && e in left && e.at < now
    requires (forall a :: a in left ==> e.at <= a.at) && forall a :: a in again ==> a.at >= now
    ensures Timely(rf + [e.w], now, taken + [e], left - multiset{e}, moved + again)
  {
  }

  lemma Beginning(ts: seq<Anhe>, now: real)
    requires Distinct(ts)
    ensures Progress(ts, [], now, ts, [], multiset(ts), multiset{})
  {
  }

  lemma DueDistinct(h: seq<Anhe>, taken: seq<Anhe>, now: real)
    requires Due(h, taken, now)
    ensures forall i, j :: 0 <= i < j < |taken| ==> taken[i].w != taken[j].w
  {
  }

  lemma TakenAll(ts: seq<Anhe>, rf: seq<Watcher>, now: real, h: seq<Anhe>, taken: seq<Anhe>,
                 left: multiset<Anhe>, moved: multiset<Anhe>)
    requires Progress(ts, rf, now, h, taken, left, moved) && Ordered(ts) && (ts != [] ==> ts[0].at >= now)
    ensures Due(h, taken, now)
    ensures forall j :: 0 <= j < |ts| ==> ts[j].at >= now
    ensures |rf| == |taken| && forall i :: 0 <= i < |taken| ==> rf[i] == taken[i].w
  {
    hide Distinct, Ordered;
    forall j: nat | j < |ts| ensures ts[j].at >= now { RootIsLeast(ts, j); }
    forall e ensures multiset(taken)[e] == if e.at < now then multiset(h)[e] else 0 {
      if e in left {
        assert e in multiset(ts);
      }
      if e in multiset(taken) {
        assert e in taken;
      }
    }
    forall i, j | 0 <= i < j < |taken| ensures taken[i].w != taken[j].w {
      if taken[i].w == taken[j].w {
        assert taken[i] in multiset(taken) && taken[j] in multiset(taken);
        Once(h, taken[i], taken[j]);
        Twice(taken, i, j);
        Single(h, taken[i]);
      }
    }
  }

  class Loop {
    /** timercnt is |timers|. */
    var timers: seq<Anhe>
    var mnNow: real
    var pendings: seq<seq<Pending>>
    var rfeeds: seq<Watcher>
    /** The watcher that stands for a cleared pending entry. */
    const pendingW: Watcher

    /** The timer watchers that are in use with this loop. */
    ghost var watchers: set<Watcher>

    constructor (now: real)
      ensures Valid() && mnNow == now && watchers == {} && timers == []
    {
      timers, mnNow, rfeeds := [], now, [];
      pendings := seq(NUMPRI, i => []);
      pendingW := new Watcher(0.0, 0.0);
      watchers := {};
    }

    /** A timer comes into use: an initialized watcher that is neither active nor pending. */
    ghost method Adopt(w: Watcher)
      requires Valid() && w != pendingW && w.active == 0 && w.pending == 0
      modifies this`watchers
      ensures Valid() && watchers == old(watchers) + {w}
    {
      watchers := watchers + {w};
      forall v | v in watchers && v.pending != 0 ensures AtPlace(v) {
        assert v in old(watchers) && old(AtPlace(v));
      }
    }

    /** What libev checks in verify_heap (ev.c:2511-2523): order, back-indices, cached times. And an active timer is on
        the heap. */
    ghost predicate HeapOK()
      reads this`timers, this`watchers, watchers`active, watchers`at
    {
      && Ordered(timers)
      && Distinct(timers)
      && (forall j :: 0 <= j < |timers| ==> timers[j].w in watchers)
      && (forall j :: 0 <= j < |timers| ==> timers[j].w.active == j + HEAP0 && timers[j].w.at == timers[j].at)
      && (forall w :: w in watchers && w.active != 0 ==> w in Ws(timers))
    }

    ghost predicate AtPlace(w: Watcher)
      reads this`pendings, w`pending, w`priority
    {
      && InRange(w.priority) && |pendings| == NUMPRI && 1 <= w.pending <= |pendings[Pri(w.priority)]|
      && pendings[Pri(w.priority)][w.pending - 1].w == w
    }

    ghost function PlaceOf(w: Watcher): (nat, nat)
      requires AtPlace(w)
      reads this`pendings, w`pending, w`priority
    {
      (Pri(w.priority), w.pending - 1)
    }

    /** A pending watcher is at its place in the queue of its priority, and a queue holds nothing else but cleared
        entries. */
    ghost predicate QueueOK()
      reads this`pendings, this`watchers, watchers`pending, watchers`priority
    {
      && |pendings| == NUMPRI
      && (forall w {:trigger AtPlace(w)} :: w in watchers && w.pending != 0 ==> AtPlace(w))
      && (forall p, i :: 0 <= p < NUMPRI && 0 <= i < |pendings[p]| ==>
            var w := pendings[p][i].w;
              w == pendingW || (w in watchers && w.pending == i + 1 && w.priority == p + MINPRI))
    }

    ghost predicate RangeOK()
      reads this`watchers, watchers`active, watchers`priority, watchers`repeat
    {
      pendingW !in watchers && forall w :: w in watchers && w.active != 0 ==> InRange(w.priority) && w.repeat >= 0.0
    }

    ghost predicate Valid()
      reads this, watchers
    {
      Parts() && rfeeds == []
    }

    ghost predicate Parts()
      reads this, watchers
    {
      HeapOK() && QueueOK() && RangeOK()
    }

    /** Move the entry at p into the hole at k; `v` is the heap with the entry held back in the hole. */
    method Move(k: nat, p: nat, ghost he: Anhe)
      requires k < |timers| && p < |timers| && k != p
      requires var v := timers[k := he]; Distinct(v) && Indexed(v, k)
      modifies this`timers, timers[p].w`active
      ensures timers == old(timers)[k := old(timers)[p]]
      ensures var v' := timers[p := he]; v' == Swap(old(timers)[k := he], k, p) && Distinct(v') && Indexed(v', p)
    {
      ghost var v := timers[k := he];
      ghost var was := Indices(v);
      SwapKeeps(v, k, p);
      MoveHole(timers, k, p, he);
      timers := timers[k := timers[p]];
      timers[k].w.active := k + HEAP0;
      Reindexed(v, k, p, was);
    }

    /** Put the entry that was held back into the hole at k. */
    method Fill(k: nat, he: Anhe)
      requires k < |timers|
      requires var v := timers[k := he]; Distinct(v) && Indexed(v, k)
      modifies this`timers, he.w`active
      ensures timers == old(timers)[k := he] && Indexed(timers, -1)
    {
      ghost var v := timers[k := he];
      ghost var was := Indices(v);
      timers := timers[k := he];
      he.w.active := k + HEAP0;
      Filled(v, k, was);
    }

    /** upheap: toward the root. Only the first n entries matter. */
    method Upheap(k0: nat, ghost n: nat)
      requires k0 < n <= |timers| && OrderedAbove(timers[..n], k0) && Distinct(timers) && Indexed(timers, k0)
      modifies this`timers, Ws(timers)`active
      ensures multiset(timers) == multiset(old(timers)) && |timers| == |old(timers)| && timers[n..] == old(timers)[n..]
      ensures Ordered(timers[..n]) && Distinct(timers) && Indexed(timers, -1)
    {
      hide *;
      var k := k0;
      var he := timers[k];
      assert timers[k := he] == timers;
      while true
        invariant k < n <= |timers| == |old(timers)| && timers[n..] == old(timers)[n..]
        invariant OrderedAbove(timers[k := he][..n], k) && Distinct(timers[k := he]) && Indexed(timers[k := he], k)
        invariant multiset(timers[k := he]) == multiset(old(timers))
        decreases k
      {
        ghost var v := timers[k := he];
        SameWs(v, old(timers));
        var p := Parent(k);
        ParentSelf(k);
        if p == k || timers[p].at <= he.at {
          UpDone(v[..n], k);
          break;
        }
        UpStep(v[..n], k);
        SwapPrefix(v, k, p, n);
        SwapKeeps(v, k, p);
        InWs(v, p);
        Move(k, p, he);
        k := p;
      }
      SameWs(timers[k := he], old(timers));
      InWs(timers[k := he], k);
      Fill(k, he);
    }

    /** The smallest child of k, the first of equals; the fast path is for four children. */
    method FindMinChild(k: nat) returns (minpos: nat)
      requires 4 * k + 1 < |timers|
      ensures MinChild(timers, k, minpos)
    {
      var pos := DHEAP * k + 1;
      minpos := pos;
      var minat := timers[pos].at;
      if pos + DHEAP - 1 < |timers| {
        if timers[pos + 1].at < minat { minpos, minat := pos + 1, timers[pos + 1].at; }
        if timers[pos + 2].at < minat { minpos, minat := pos + 2, timers[pos + 2].at; }
        if timers[pos + 3].at < minat { minpos, minat := pos + 3, timers[pos + 3].at; }
      } else {
        if pos + 1 < |timers| && timers[pos + 1].at < minat { minpos, minat := pos + 1, timers[pos + 1].at; }
        if pos + 2 < |timers| && timers[pos + 2].at < minat { minpos, minat := pos + 2, timers[pos + 2].at; }
        // a fourth child takes the fast path
      }
    }

    /** downheap: away from the root */
    method Downheap(k0: nat)
      requires k0 < |timers| && OrderedBelow(timers, k0) && Distinct(timers) && Indexed(timers, k0)
      modifies this`timers, Ws(timers)`active
      ensures Ordered(timers) && Distinct(timers) && Indexed(timers, -1) && multiset(timers) == multiset(old(timers))
    {
      hide OrderedBelow, Ordered, Distinct, Indexed, MinChild, Swap, Parent, Quotient;
      var k := k0;
      var he := timers[k];
      assert timers[k := he] == timers;
      while true
        invariant k < |timers| == |old(timers)|
        invariant OrderedBelow(timers[k := he], k) && Distinct(timers[k := he]) && Indexed(timers[k := he], k)
        invariant multiset(timers[k := he]) == multiset(old(timers))
        decreases |timers| - k
      {
        ghost var v := timers[k := he];
        SameWs(v, old(timers));
        if 4 * k + 1 >= |timers| {
          DownDone(v, k);
          break;
        }
        var m := FindMinChild(k);
        MinChildIn(timers, v, k, m);
        if he.at <= timers[m].at {
          DownDone(v, k);
          break;
        }
        DownStep(v, k, m);
        SwapKeeps(v, k, m);
        InWs(v, m);
        Move(k, m, he);
        k := m;
      }
      SameWs(timers[k := he], old(timers));
      InWs(timers[k := he], k);
      Fill(k, he);
    }

    /** reheap: order a heap whose times are arbitrary */
    method Reheap()
      requires Distinct(timers) && Indexed(timers, -1)
      modifies this`timers, Ws(timers)`active
      ensures Ordered(timers) && Distinct(timers) && Indexed(timers, -1) && multiset(timers) == multiset(old(timers))
    {
      hide Ordered, OrderedAbove, Distinct, Indexed;
      NothingOrdered();
      assert timers[..0] == [];
      for i := 0 to |timers|
        invariant |timers| == |old(timers)| && Ordered(timers[..i]) && Distinct(timers) && Indexed(timers, -1)
        invariant multiset(timers) == multiset(old(timers))
      {
        SameWs(timers, old(timers));
        assert timers[..i + 1] == timers[..i] + [timers[i]];
        Append(timers[..i], timers[i]);
        IndexedWeaker(timers, i);
        Upheap(i, i + 1);
      }
      assert timers[..|timers|] == timers;
    }

    /** adjustheap, after a new entry has been put at k */
    method Adjustheap(k: nat, ghost was: seq<Anhe>)
      requires k < |timers| == |was| && Ordered(was) && timers == was[k := timers[k]]
      requires Distinct(timers) && Indexed(timers, k)
      modifies this`timers, Ws(timers)`active
      ensures Ordered(timers) && Distinct(timers) && Indexed(timers, -1) && multiset(timers) == multiset(old(timers))
    {
      hide *;
      Adjust(was, k, timers[k]);
      ParentSmaller(k);
      if k > 0 && timers[k].at <= timers[Parent(k)].at {
        assert timers[..|timers|] == timers;
        Upheap(k, |timers|);
        assert timers[..|timers|] == timers;
      } else {
        Downheap(k);
      }
    }

    /** The heap predicate from what the heap methods leave. */
    lemma HeapBack(h: seq<Anhe>)
      requires Ordered(timers) && Distinct(timers) && Indexed(timers, -1) && multiset(timers) == multiset(h)
      requires forall j :: 0 <= j < |h| ==> h[j].w in watchers && h[j].w.at == h[j].at
      requires forall w :: w in watchers && w !in Ws(h) ==> w.active == 0
      ensures HeapOK()
    {
      SameWs(timers, h);
      forall j | 0 <= j < |timers| ensures timers[j].w in watchers && timers[j].w.at == timers[j].at {
        assert timers[j] in multiset(h);
      }
    }

    /** Put an inactive watcher on the heap. */
    method Insert(w: Watcher)
      requires HeapOK() && w in watchers && w.active == 0
      modifies this`timers, watchers`active
      ensures HeapOK() && multiset(timers) == multiset(old(timers)) + multiset{Anhe(w.at, w)}
      ensures w.active != 0 && forall v :: v in watchers && v != w ==> (v.active != 0 <==> old(v.active) != 0)
    {
      hide Ordered, OrderedAbove, Distinct, QueueOK;
      ghost var h := timers + [Anhe(w.at, w)];
      NewEntry(w, h);
      w.active := |timers| + HEAP0;
      timers := timers + [Anhe(w.at, w)];
      assert Indexed(timers, |timers| - 1);
      hide HeapOK;
      assert h[..|h|] == h;
      Upheap(|timers| - 1, |timers|);
      assert timers[..|timers|] == timers;
      HeapBack(h);
      SameWs(timers, h);
      ActiveIsOnHeap();
    }

    lemma WsMore(a: seq<Anhe>, h: seq<Anhe>)
      requires |a| <= |h| && h[..|a|] == a
      ensures Ws(a) <= Ws(h)
    {
      forall w | w in Ws(a) ensures w in Ws(h) {
        var j :| 0 <= j < |a| && a[j].w == w;
        assert h[..|a|][j] == h[j];
      }
    }

    lemma NewEntry(w: Watcher, h: seq<Anhe>)
      requires HeapOK() && w in watchers && w.active == 0 && h == timers + [Anhe(w.at, w)]
      ensures OrderedAbove(h, |timers|) && Distinct(h) && w in Ws(h) && Ws(h) <= watchers &&
        h[|timers|] == Anhe(w.at, w)
      ensures multiset(h) == multiset(timers) + multiset{Anhe(w.at, w)}
      ensures forall j :: 0 <= j < |h| ==> h[j].w in watchers && h[j].w.at == h[j].at
      ensures forall v :: v in watchers ==> (v !in Ws(h) <==> v.active == 0 && v != w)
    {
      Append(timers, Anhe(w.at, w));
      NewDistinct(timers, Anhe(w.at, w));
      hide Ordered, OrderedAbove, Distinct;
      InWs(h, |timers|);
      WsMore(timers, h);
    }

    lemma NewDistinct(h: seq<Anhe>, e: Anhe)
      requires Distinct(h) && forall j :: 0 <= j < |h| ==> h[j].w != e.w
      ensures Distinct(h + [e])
    {
    }

    lemma ActiveIsOnHeap()
      requires HeapOK()
      ensures forall w :: w in watchers ==> (w.active != 0 <==> w in Ws(timers))
    {
    }

    /** The priority of a watcher that is not pending is free to change. */
    method AdjustPriority(w: Watcher)
      requires QueueOK() && w in watchers
      modifies w`priority
      ensures QueueOK() && InRange(w.priority) && w.priority == Clamped(old(w.priority))
    {
      w.priority := if w.priority < MINPRI then MINPRI else w.priority;
      w.priority := if w.priority > MAXPRI then MAXPRI else w.priority;
      forall v | v in watchers && v.pending != 0 ensures AtPlace(v) {
        assert old(AtPlace(v));
      }
    }

    /** ev_timer_start */
    method TimerStart(w: Watcher)
      requires Valid() && w in watchers && w.repeat >= 0.0
      modifies this`timers, watchers`active, w`at, w`priority
      ensures Valid() && w.active != 0
      ensures old(w.active) != 0 ==> timers == old(timers) && w.at == old(w.at) && w.priority == old(w.priority)
      ensures old(w.active) == 0 ==>
        && w.at == old(w.at) + mnNow && multiset(timers) == multiset(old(timers)) + multiset{Anhe(w.at, w)}
        && w.priority == Clamped(old(w.priority))
      ensures forall v :: v in watchers && v != w ==> (v.active != 0 <==> old(v.active) != 0)
    {
      if w.active != 0 {
        return;
      }
      Arm(w);
      hide HeapOK, QueueOK;
      Insert(w);
    }

    /** The first half of ev_timer_start. */
    method Arm(w: Watcher)
      requires HeapOK() && QueueOK() && w in watchers && w.active == 0
      modifies w`at, w`priority
      ensures HeapOK() && QueueOK() && w.at == old(w.at) + mnNow && InRange(w.priority) &&
        w.priority == Clamped(old(w.priority))
    {
      hide Ordered, Distinct, QueueOK;
      SetIdleTime(w, w.at + mnNow);
      AdjustPriority(w);
    }

    /** clear_pending */
    method ClearPending(w: Watcher)
      requires QueueOK() && w in watchers && pendingW !in watchers
      modifies this`pendings, w`pending
      ensures QueueOK() && w.pending == 0
      ensures pendings == Cleared(old(pendings), old(w.pending), w.priority)
    {
      if w.pending != 0 {
        assert AtPlace(w);
        var p, i := Pri(w.priority), w.pending - 1;
        pendings := pendings[p := pendings[p][i := pendings[p][i].(w := pendingW)]];
        w.pending := 0;
        forall v | v in watchers && v.pending != 0 ensures AtPlace(v) {
          assert old(AtPlace(v));
          assert !(v.priority == w.priority && v.pending == old(w.pending));
        }
      }
    }

    /** The queues after the entry of a watcher has been cleared. */
    ghost function Cleared(q: seq<seq<Pending>>, pending: int, priority: int): seq<seq<Pending>>
    {
      if InRange(priority) && |q| == NUMPRI && 1 <= pending <= |q[Pri(priority)]| then
        var p, i := Pri(priority), pending - 1;
        q[p := q[p][i := q[p][i].(w := pendingW)]]
      else q
    }

    /** The heap without the entry at k, which the last entry replaces. */
    ghost function Without(h: seq<Anhe>, k: nat): seq<Anhe>
      requires k < |h|
    {
      if k < |h| - 1 then h[k := h[|h| - 1]][..|h| - 1] else h[..|h| - 1]
    }

    lemma WithoutFacts(h: seq<Anhe>, k: nat)
      requires Ordered(h) && Distinct(h) && k < |h|
      ensures var h' := Without(h, k); var n := |h| - 1;
        && |h'| == n && Distinct(h') && Ordered(h[..n])
        && (if k < n then h' == h[..n][k := h[n]] == h[k := h[n]][..n] && h'[k] == h[n] else h' == h[..n])
        && multiset(h') == multiset(h) - multiset{h[k]}
        && (forall j :: 0 <= j < n ==> h'[j] == if j == k then h[n] else h[j])
        && Ws(h') == Ws(h) - {h[k].w}
    {
      hide Ordered, Distinct, Ws;
      WithoutMultiset(h, k);
      WithoutDistinct(h, k);
      PrefixOrdered(h, |h| - 1);
      WithoutWs(h, k);
    }

    lemma WithoutMultiset(h: seq<Anhe>, k: nat)
      requires k < |h|
      ensures multiset(Without(h, k)) == multiset(h) - multiset{h[k]}
    {
      var n := |h| - 1;
      assert h == h[..n] + [h[n]];
      if k < n {
        assert Without(h, k) == h[..n][k := h[n]];
      }
    }

    lemma WithoutDistinct(h: seq<Anhe>, k: nat)
      requires Distinct(h) && k < |h|
      ensures Distinct(Without(h, k))
    {
    }

    lemma PrefixOrdered(h: seq<Anhe>, n: nat)
      requires Ordered(h) && n <= |h|
      ensures Ordered(h[..n])
    {
      forall j: nat | j < n ensures Edge(h[..n], j) {
        assert Edge(h, j);
      }
    }

    lemma WithoutWs(h: seq<Anhe>, k: nat)
      requires Distinct(h) && k < |h|
      ensures Ws(Without(h, k)) == Ws(h) - {h[k].w}
    {
      var h', n := Without(h, k), |h| - 1;
      assert forall j :: 0 <= j < n ==> h'[j] == if j == k then h[n] else h[j];
      forall w ensures w in Ws(h') <==> w in Ws(h) && w != h[k].w {
        if w in Ws(h) && w != h[k].w {
          var j :| 0 <= j < |h| && h[j].w == w;
          assert h'[if j == n then k else j].w == w;
        }
        if w in Ws(h') {
          var j :| 0 <= j < |h'| && h'[j].w == w;
          assert h[if j == k then n else j].w == w;
        }
      }
    }

    /** Take the entry of an active timer off the heap: the last entry takes its place. */
    method RemoveAt(k: nat)
      requires HeapOK() && k < |timers|
      modifies this`timers, watchers`active
      ensures HeapOK() && old(timers)[k].w.active == 0
      ensures multiset(timers) == multiset(old(timers)) - multiset{old(timers)[k]}
      ensures forall v :: v in watchers && v != old(timers)[k].w ==> (v.active != 0 <==> old(v.active) != 0)
    {
      var w := timers[k].w;
      ghost var h := Without(timers, k);
      WithoutFacts(timers, k);
      WithoutIndexed(k);
      ActiveIsOnHeap();
      InWs(timers, k);
      assert w in watchers && Ordered(timers) && Distinct(timers);
      hide Ordered, Distinct, HeapOK, Indexed, Without;
      CloseGap(k);
      RemoveDone(w, h);
    }

    method CloseGap(k: nat)
      requires k < |timers| && Ordered(timers) && Distinct(timers)
      requires var h := Without(timers, k); Indexed(h, if k == |timers| - 1 then -1 else k)
      modifies this`timers, Ws(Without(timers, k))`active
      ensures Ordered(timers) && Distinct(timers) && Indexed(timers, -1)
      ensures multiset(timers) == multiset(Without(old(timers), k))
    {
      var n := |timers| - 1;
      ghost var was := timers[..n];
      WithoutFacts(timers, k);
      hide Ordered, Distinct, Indexed;
      if k < n {
        timers := timers[k := timers[n]][..n];
        Adjustheap(k, was);
      } else {
        timers := timers[..n];
      }
    }

    /** The watcher becomes inactive once it is off the heap. */
    method RemoveDone(w: Watcher, ghost h: seq<Anhe>)
      requires Ordered(timers) && Distinct(timers) && Indexed(timers, -1) && multiset(timers) == multiset(h) &&
        w !in Ws(h)
      requires forall j :: 0 <= j < |h| ==> h[j].w in watchers && h[j].w.at == h[j].at
      requires forall v :: v in watchers && v !in Ws(h) ==> v.active == 0 || v == w
      modifies w`active
      ensures HeapOK() && w.active == 0 && forall v :: v in watchers ==> (v.active != 0 <==> v in Ws(h))
    {
      hide Ordered, Distinct;
      SameWs(timers, h);
      w.active := 0;
      HeapBack(h);
      ActiveIsOnHeap();
    }

    lemma WithoutIndexed(k: nat)
      requires HeapOK() && k < |timers|
      ensures var h := Without(timers, k);
        && Indexed(h, if k == |timers| - 1 then -1 else k) && Ws(h) <= watchers
        && (forall j :: 0 <= j < |h| ==> h[j].w in watchers && h[j].w.at == h[j].at)
    {
      WithoutFacts(timers, k);
      hide Ordered, Distinct, Without;
    }

    /** ev_timer_stop */
    method TimerStop(w: Watcher)
      requires Parts() && w in watchers
      modifies this`timers, this`pendings, watchers`active, w`at, w`pending
      ensures Parts() && w.active == 0 && w.pending == 0
      ensures pendings == Cleared(old(pendings), old(w.pending), w.priority)
      ensures old(w.active) == 0 ==> timers == old(timers) && w.at == old(w.at)
      ensures old(w.active) != 0 ==>
        w.at == old(w.at) - mnNow && multiset(timers) == multiset(old(timers)) - multiset{Anhe(old(w.at), w)}
      ensures forall v :: v in watchers && v != w ==> (v.active != 0 <==> old(v.active) != 0)
    {
      hide HeapOK, QueueOK, Cleared;
      ClearPending(w);
      if w.active == 0 {
        return;
      }
      EntryOf(w);
      StopActive(w);
    }

    /** Take an active timer off the heap and keep its remaining time. */
    method StopActive(w: Watcher)
      requires HeapOK() && w in watchers && w.active != 0
      requires var k := w.active - HEAP0; 0 <= k < |timers| && timers[k] == Anhe(w.at, w)
      modifies this`timers, watchers`active, w`at
      ensures HeapOK() && w.active == 0 && w.at == old(w.at) - mnNow
      ensures multiset(timers) == multiset(old(timers)) - multiset{Anhe(old(w.at), w)}
      ensures forall v :: v in watchers && v != w ==> (v.active != 0 <==> old(v.active) != 0)
    {
      hide *;
      RemoveAt(w.active - HEAP0);
      SetIdleTime(w, w.at - mnNow);
    }

    lemma EntryOf(w: Watcher)
      requires HeapOK() && w in watchers && w.active != 0
      ensures var k := w.active - HEAP0; 0 <= k < |timers| && timers[k] == Anhe(w.at, w)
    {
      assert w in Ws(timers);
    }

    /** Give an active timer a new time: its entry is moved to a fitting place. */
    method SetTime(w: Watcher, at: real)
      requires HeapOK() && w in watchers && w.active != 0
      modifies this`timers, watchers`active, w`at
      ensures HeapOK() && w.at == at
      ensures multiset(timers) == multiset(old(timers)) - multiset{Anhe(old(w.at), w)} + multiset{Anhe(at, w)}
      ensures forall v :: v in watchers ==> (v.active != 0 <==> old(v.active) != 0)
    {
      hide Ordered, HeapOK, Distinct;
      var k := w.active - HEAP0;
      ghost var was := timers;
      EntryOf(w);
      HeapParts();
      ActiveIsOnHeap();
      assert Indexed(timers, k);
      ReplaceFacts(timers, k, at);
      OnlyAt(timers, k);
      w.at := at;
      timers := timers[k := timers[k].(at := w.at)];
      Rearrange(k, was);
    }

    lemma HeapParts()
      requires HeapOK()
      ensures Ordered(timers) && Distinct(timers) && forall j :: Indexed(timers, j)
      ensures forall j :: 0 <= j < |timers| ==> timers[j].w in watchers && timers[j].w.at == timers[j].at
    {
      hide Ordered, Distinct, Ws;
    }

    lemma OnlyAt(h: seq<Anhe>, k: nat)
      requires Distinct(h) && k < |h|
      ensures forall j :: 0 <= j < |h| && j != k ==> h[j].w != h[k].w
    {
    }

    /** Move the entry at k, whose time has changed, to a fitting place. */
    method Rearrange(k: nat, ghost was: seq<Anhe>)
      requires k < |timers| == |was| && Ordered(was) && timers == was[k := timers[k]]
      requires Distinct(timers) && Indexed(timers, k) && Ws(timers) <= watchers
      requires forall j :: 0 <= j < |timers| ==> timers[j].w in watchers && timers[j].w.at == timers[j].at
      requires forall v :: v in watchers ==> (v.active != 0 <==> v in Ws(timers))
      modifies this`timers, watchers`active
      ensures HeapOK() && multiset(timers) == multiset(old(timers))
      ensures forall v :: v in watchers ==> (v.active != 0 <==> old(v.active) != 0)
    {
      ghost var h := timers;
      hide Ordered, Distinct, HeapOK, Indexed;
      Adjustheap(k, was);
      HeapBack(h);
      SameWs(timers, h);
      ActiveIsOnHeap();
    }

    lemma ReplaceFacts(h: seq<Anhe>, k: nat, at: real)
      requires Distinct(h) && k < |h|
      ensures var h' := h[k := h[k].(at := at)];
        Distinct(h') && Ws(h') == Ws(h) && multiset(h') == multiset(h) - multiset{h[k]} + multiset{Anhe(at, h[k].w)}
    {
      var h' := h[k := h[k].(at := at)];
      assert forall j :: 0 <= j < |h| ==> h'[j].w == h[j].w;
      forall w ensures w in Ws(h') <==> w in Ws(h) {
        if w in Ws(h) { var j :| 0 <= j < |h| && h[j].w == w; InWs(h', j); }
        if w in Ws(h') { var j :| 0 <= j < |h'| && h'[j].w == w; InWs(h, j); }
      }
    }

    method SetIdleTime(w: Watcher, at: real)
      requires HeapOK() && w in watchers && w.active == 0
      modifies w`at
      ensures HeapOK() && w.at == at
    {
      hide Ordered, Distinct;
      w.at := at;
    }

    lemma ClearedNone(q: seq<seq<Pending>>, priority: int)
      ensures Cleared(q, 0, priority) == q
    {
    }

    /** ev_timer_again */
    method TimerAgain(w: Watcher)
      requires Valid() && w in watchers && w.repeat >= 0.0
      modifies this`timers, this`pendings, watchers`active, w`at, w`pending, w`priority
      ensures Valid() && w.pending == 0
      ensures pendings == Cleared(old(pendings), old(w.pending), old(w.priority))
      ensures w.active != 0 <==> w.repeat != 0.0
      ensures w.active != 0 ==> w.at == mnNow + w.repeat
      ensures w.priority == if old(w.active) == 0 && w.repeat != 0.0 then Clamped(old(w.priority)) else old(w.priority)
      ensures multiset(timers) ==
        (if old(w.active) != 0 then multiset(old(timers)) - multiset{Anhe(old(w.at), w)} else multiset(old(timers)))
        + (if w.repeat != 0.0 then multiset{Anhe(w.at, w)} else multiset{})
      ensures forall v :: v in watchers && v != w ==> (v.active != 0 <==> old(v.active) != 0)
    {
      hide QueueOK, HeapOK, Cleared;
      ClearPending(w);
      if w.active != 0 {
        if w.repeat != 0.0 {
          SetTime(w, mnNow + w.repeat);
        } else {
          ClearedNone(pendings, w.priority);
          TimerStop(w);
        }
      } else if w.repeat != 0.0 {
        SetIdleTime(w, w.repeat);
        TimerStart(w);
      }
    }

    // ---------- pending events ----------

    /** ev_feed_event */
    method FeedEvent(w: Watcher, revents: bv32)
      requires QueueOK() && w in watchers && InRange(w.priority) && pendingW !in watchers
      modifies this`pendings, w`pending
      ensures QueueOK() && w.pending != 0
      ensures old(w.pending) != 0 ==>
        w.pending == old(w.pending) && pendings == WithEvents(old(pendings), Pri(w.priority), w.pending - 1, revents)
      ensures old(w.pending) == 0 ==>
        var p := Pri(w.priority);
        pendings == old(pendings)[p := old(pendings)[p] + [Pending(w, revents)]] && w.pending == |pendings[p]|
    {
      if w.pending != 0 {
        AddEvents(w, revents);
      } else {
        Enqueue(w, revents);
      }
    }

    method AddEvents(w: Watcher, revents: bv32)
      requires QueueOK() && w in watchers && w.pending != 0 && pendingW !in watchers
      modifies this`pendings
      ensures QueueOK() && AtPlace(w) && pendings == WithEvents(old(pendings), Pri(w.priority), w.pending - 1, revents)
    {
      hide Or;
      assert AtPlace(w);
      var pri, i := Pri(w.priority), w.pending - 1;
      pendings := pendings[pri :=
        pendings[pri][i := pendings[pri][i].(events := Or(pendings[pri][i].events, revents))]];
      forall v | v in watchers && v.pending != 0 ensures AtPlace(v) {
        if v != w { assert old(AtPlace(v)); }
      }
    }

    method Enqueue(w: Watcher, revents: bv32)
      requires QueueOK() && w in watchers && w.pending == 0 && InRange(w.priority) && pendingW !in watchers
      modifies this`pendings, w`pending
      ensures QueueOK()
      ensures var p := Pri(w.priority);
        pendings == old(pendings)[p := old(pendings)[p] + [Pending(w, revents)]] && w.pending == |pendings[p]|
    {
      var pri := Pri(w.priority);
      w.pending := |pendings[pri]| + 1;
      pendings := pendings[pri := pendings[pri] + [Pending(w, revents)]];
      forall v | v in watchers && v.pending != 0 ensures AtPlace(v) {
        if v != w { assert old(AtPlace(v)); }
      }
    }

    /** feed_reverse */
    method FeedReverse(w: Watcher)
      modifies this`rfeeds
      ensures rfeeds == old(rfeeds) + [w]
    {
      rfeeds := rfeeds + [w];
    }

    /** The watcher waits to be called with at least these events. */
    ghost predicate Waits(w: Watcher, revents: bv32)
      reads this`pendings, w`pending, w`priority
    {
      WaitsIn(pendings, w.pending, w.priority, revents)
    }

    /** One turn of feed_reverse_done. */
    method FeedLast(revents: bv32)
      requires QueueOK() && pendingW !in watchers && rfeeds != []
      requires var w := rfeeds[|rfeeds| - 1]; w in watchers && InRange(w.priority)
      modifies this`rfeeds, this`pendings, watchers`pending
      ensures QueueOK() && rfeeds == old(rfeeds)[..|old(rfeeds)| - 1] && Grows(old(pendings), pendings)
      ensures forall v :: v in watchers && v != old(rfeeds)[|old(rfeeds)| - 1] ==> v.pending == old(v.pending)
      ensures var w := old(rfeeds)[|old(rfeeds)| - 1];
        Waits(w, revents) && |old(pendings)| == NUMPRI
        && w.pending == if old(w.pending) != 0 then old(w.pending) else |old(pendings)[Pri(w.priority)]| + 1
    {
      hide QueueOK, WaitsIn, WithEvents, Grows;
      var c := |rfeeds| - 1;
      var w := rfeeds[c];
      rfeeds := rfeeds[..c];
      QueueBound();
      if w.pending == 0 { WaitsAppend(pendings, Pri(w.priority), w, revents); }
      else { WaitsMore(pendings, Pri(w.priority), w.pending - 1, revents); }
      FeedEvent(w, revents);
    }

    /** feed_reverse_done: the watchers are fed last to first, so that the first one ends up nearest to the end of its
        queue, from where ev_invoke_pending takes. */
    method FeedReverseDone(revents: bv32)
      requires QueueOK() && pendingW !in watchers && rfeeds != []
      requires forall i :: 0 <= i < |rfeeds| ==> rfeeds[i] in watchers && InRange(rfeeds[i].priority)
      requires forall i, j :: 0 <= i < j < |rfeeds| ==> rfeeds[i] != rfeeds[j]
      modifies this`rfeeds, this`pendings, watchers`pending
      ensures QueueOK() && rfeeds == [] && Grows(old(pendings), pendings)
      ensures forall i :: 0 <= i < |old(rfeeds)| ==> Waits(old(rfeeds)[i], revents)
      ensures forall w :: w in watchers && (w !in old(rfeeds) || old(w.pending) != 0) ==> w.pending == old(w.pending)
      ensures forall i, j :: 0 <= i < j < |old(rfeeds)| && old(rfeeds)[i].priority == old(rfeeds)[j].priority ==>
        old(rfeeds[i].pending) == 0 && old(rfeeds[j].pending) == 0 ==> old(rfeeds)[i].pending > old(rfeeds)[j].pending
    {
      ghost var ws := rfeeds;
      hide QueueOK, Waits, WaitsIn, AtPlace, Grows;
      SameGrows(pendings);
      while rfeeds != []
        invariant QueueOK() && |rfeeds| <= |ws| && rfeeds == ws[..|rfeeds|] && Grows(old(pendings), pendings)
        invariant forall i :: |rfeeds| <= i < |ws| ==> Waits(ws[i], revents)
        invariant forall i :: 0 <= i < |rfeeds| ==> ws[i].pending == old(ws[i].pending)
        invariant forall w :: w in watchers && (w !in ws || old(w.pending) != 0) ==> w.pending == old(w.pending)
        invariant forall i, j :: |rfeeds| <= i < j < |ws| && ws[i].priority == ws[j].priority ==>
          old(ws[i].pending) == 0 && old(ws[j].pending) == 0 ==> ws[i].pending > ws[j].pending
        decreases |rfeeds|
      {
        ghost var was, c := pendings, |rfeeds| - 1;
        assert rfeeds[c] == ws[c];
        forall i | c < i < |ws|
          ensures 0 < ws[i].pending && (|was| == NUMPRI ==> ws[i].pending <= |was[Pri(ws[i].priority)]|)
          ensures WaitsIn(was, ws[i].pending, ws[i].priority, revents)
        {
          WaitsPending(ws[i], revents);
        }
        FeedLast(revents);
        GrowsTrans(old(pendings), was, pendings);
        forall i | c < i < |ws| ensures Waits(ws[i], revents) {
          WaitsKept(was, ws[i], revents);
        }
      }
    }

    lemma WaitsKept(was: seq<seq<Pending>>, w: Watcher, revents: bv32)
      requires WaitsIn(was, w.pending, w.priority, revents) && Grows(was, pendings)
      ensures Waits(w, revents)
    {
    }

    lemma WaitsPending(w: Watcher, revents: bv32)
      requires Waits(w, revents) && InRange(w.priority)
      ensures WaitsIn(pendings, w.pending, w.priority, revents) && |pendings| == NUMPRI
      ensures 0 < w.pending <= |pendings[Pri(w.priority)]|
    {
    }

    lemma QueueBound()
      requires QueueOK()
      ensures |pendings| == NUMPRI
      ensures forall w :: w in watchers && w.pending != 0 ==> AtPlace(w) && w.pending <= |pendings[Pri(w.priority)]|
    {
      forall w | w in watchers && w.pending != 0 ensures AtPlace(w) {}
    }


    // ---------- expiry ----------

    /** One turn of the loop of timers_reify. */
    method TakeRoot() returns (w: Watcher)
      requires HeapOK() && QueueOK() && RangeOK() && timers != []
      modifies this`timers, this`pendings, this`rfeeds, watchers`active, watchers`at, watchers`pending
      ensures HeapOK() && QueueOK() && RangeOK()
      ensures w == old(timers)[0].w && w in watchers && rfeeds == old(rfeeds) + [w]
      ensures w.repeat != 0.0 ==>
        && w.at == NextTime(old(timers)[0].at, w.repeat, mnNow) && w.active != 0 && w.pending == old(w.pending)
        && multiset(timers) == multiset(old(timers)) - multiset{old(timers)[0]} + multiset{Anhe(w.at, w)}
      ensures w.repeat == 0.0 ==>
        && w.active == 0 && w.pending == 0 && multiset(timers) == multiset(old(timers)) - multiset{old(timers)[0]}
      ensures forall v :: v in watchers && v != w ==>
        (v.active != 0 <==> old(v.active) != 0) && v.at == old(v.at) && v.pending == old(v.pending)
    {
      hide QueueOK, HeapOK, Cleared;
      RootEntry();
      w := timers[0].w;
      if w.repeat != 0.0 {
        var at := w.at + w.repeat;
        if at < mnNow {
          at := mnNow;
        }
        // adjustheap is downheap at the root
        SetTime(w, at);
      } else {
        TimerStop(w);
      }
      FeedReverse(w);
    }

    lemma RootEntry()
      requires HeapOK() && timers != []
      ensures var w := timers[0].w; w in watchers && w.active != 0 && timers[0] == Anhe(w.at, w)
    {
    }

    /** What the loop has done to the watchers it has taken. */
    ghost predicate Handled(e: Anhe)
      reads this`watchers, this`mnNow, e.w`active, e.w`at, e.w`repeat, e.w`priority
    {
      e.w in watchers && InRange(e.w.priority)
      && if e.w.repeat != 0.0 then e.w.active != 0 && e.w.at == NextTime(e.at, e.w.repeat, mnNow) else e.w.active == 0
    }

    ghost predicate AllHandled(taken: seq<Anhe>)
      reads this`watchers, this`mnNow, Ws(taken)`active, Ws(taken)`at, Ws(taken)`repeat, Ws(taken)`priority
    {
      forall i :: 0 <= i < |taken| ==> Handled(taken[i])
    }

    /** What the watchers were like before timers_reify. */
    ghost function Snapshot(): map<Watcher, Snap>
      reads this`watchers, watchers`active, watchers`at, watchers`pending
    {
      map w | w in watchers :: Snap(w.active != 0, w.at, w.pending)
    }

    /** Stopping has cleared the pending ones among the timers taken, and the other watchers are as they were. */
    ghost predicate Untouched(was: map<Watcher, Snap>, taken: seq<Anhe>)
      reads this`watchers, watchers`active, watchers`at, watchers`pending, watchers`repeat
    {
      watchers <= was.Keys && forall w :: w in watchers ==>
        if w in Ws(taken) then w.pending == if w.repeat == 0.0 then 0 else was[w].pending
        else Snap(w.active != 0, w.at, w.pending) == was[w]
    }

    method TakeKnown(ghost was: map<Watcher, Snap>, ghost taken: seq<Anhe>) returns (w: Watcher)
      requires Parts() && timers != [] && Untouched(was, taken) && AllHandled(taken) && timers[0].w !in Ws(taken)
      modifies this`timers, this`pendings, this`rfeeds, watchers`active, watchers`at, watchers`pending
      ensures Parts() && w == old(timers)[0].w && rfeeds == old(rfeeds) + [w]
      ensures w.repeat != 0.0 ==> w.at >= mnNow
      ensures multiset(timers) == multiset(old(timers)) - multiset{old(timers)[0]}
        + if w.repeat != 0.0 then multiset{Anhe(w.at, w)} else multiset{}
      ensures var taken' := taken + [old(timers)[0]]; Untouched(was, taken') && AllHandled(taken')
    {
      hide HeapOK, QueueOK, RangeOK, NextTime, InRange;
      RootInRange();
      WsSnoc(taken, timers[0]);
      forall i | 0 <= i < |taken| ensures taken[i].w in Ws(taken) {}
      w := TakeRoot();
    }

    /** One turn of the loop of timers_reify, and how far it comes with that. */
    method TakeNext(ghost h: seq<Anhe>, ghost was: map<Watcher, Snap>, ghost taken: seq<Anhe>,
                    ghost left: multiset<Anhe>, ghost moved: multiset<Anhe>)
      returns (w: Watcher, ghost left': multiset<Anhe>, ghost moved': multiset<Anhe>)
      requires Parts() && timers != [] && timers[0].at < mnNow
      requires Progress(timers, rfeeds, mnNow, h, taken, left, moved) && AllHandled(taken) && Untouched(was, taken)
      modifies this`timers, this`pendings, this`rfeeds, watchers`active, watchers`at, watchers`pending
      ensures Parts() && |left'| < |left|
      ensures var taken' := taken + [old(timers)[0]];
        Progress(timers, rfeeds, mnNow, h, taken', left', moved') && AllHandled(taken') && Untouched(was, taken')
    {
      hide Parts, Progress, Untouched, AllHandled, Ordered, Distinct;
      ghost var e, ts, rf := timers[0], timers, rfeeds;
      RootOrdered();
      RootInLeft(timers, rfeeds, mnNow, h, taken, left, moved);
      w := TakeKnown(was, taken);
      ghost var again := if w.repeat != 0.0 then multiset{Anhe(w.at, w)} else multiset{};
      Advance(ts, rf, mnNow, h, taken, left, moved, timers, again);
      left', moved' := left - multiset{e}, moved + again;
    }

    lemma RootInRange()
      requires Parts() && timers != []
      ensures timers[0].w in watchers && InRange(timers[0].w.priority)
    {
      hide Ordered, Distinct, QueueOK;
    }

    /** The loop of timers_reify. */
    method TakeDue(ghost was: map<Watcher, Snap>) returns (ghost taken: seq<Anhe>)
      requires Valid() && was == Snapshot()
      modifies this`timers, this`pendings, this`rfeeds, watchers`active, watchers`at, watchers`pending
      ensures Parts() && |rfeeds| == |taken| && forall i :: 0 <= i < |taken| ==> rfeeds[i] == taken[i].w
      ensures Due(old(timers), taken, mnNow) && (forall j :: 0 <= j < |timers| ==> timers[j].at >= mnNow)
      ensures AllHandled(taken) && Untouched(was, taken)
    {
      ghost var h, left, moved := timers, multiset(timers), multiset{};
      taken := [];
      WsNone();
      assert Untouched(was, taken);
      hide Parts, Progress, Untouched, AllHandled, Ordered, Distinct, Due;
      RootOrdered();
      Beginning(timers, mnNow);
      NoneHandled();
      while timers != [] && timers[0].at < mnNow
        invariant Parts() && Progress(timers, rfeeds, mnNow, h, taken, left, moved) && AllHandled(taken) &&
          Untouched(was, taken)
        decreases |left|
      {
        ghost var e := timers[0];
        var w;
        w, left, moved := TakeNext(h, was, taken, left, moved);
        taken := taken + [e];
      }
      RootOrdered();
      TakenAll(timers, rfeeds, mnNow, h, taken, left, moved);
    }

    lemma NoneHandled()
      ensures AllHandled([])
    {
    }

    lemma RootOrdered()
      requires Parts()
      ensures Ordered(timers) && Distinct(timers)
    {
    }

    /** Each of the timers taken waits to be called; of two with the same priority that were not waiting before, the one
        due first is nearer to the end of the queue. */
    ghost predicate InOrder(was: map<Watcher, Snap>, taken: seq<Anhe>)
      reads this`pendings, this`watchers, watchers`pending, watchers`priority, watchers`repeat
    {
      && (forall i :: 0 <= i < |taken| ==> taken[i].w in watchers && taken[i].w in was && Waits(taken[i].w, EV_TIMER))
      && (forall i, j :: 0 <= i < j < |taken| && taken[i].w.priority == taken[j].w.priority ==>
            NotWaiting(was, taken[i].w) && NotWaiting(was, taken[j].w) ==> taken[i].w.pending > taken[j].w.pending)
    }

    ghost predicate NotWaiting(was: map<Watcher, Snap>, w: Watcher)
      reads this`watchers, watchers`repeat
    {
      w in watchers && w in was && (w.repeat == 0.0 || was[w].pending == 0)
    }

    /** The other timers are as they were. */
    ghost predicate OthersSame(was: map<Watcher, Snap>, taken: seq<Anhe>)
      reads this`watchers, watchers`active, watchers`at, watchers`pending
    {
      forall w :: w in watchers && w !in Ws(taken) ==> w in was && Snap(w.active != 0, w.at, w.pending) == was[w]
    }

    /** The end of timers_reify. */
    method FeedTaken(ghost was: map<Watcher, Snap>, ghost taken: seq<Anhe>)
      requires QueueOK() && pendingW !in watchers && rfeeds != [] && |rfeeds| == |taken| && Untouched(was, taken)
      requires forall i :: 0 <= i < |taken| ==>
        rfeeds[i] == taken[i].w && taken[i].w in watchers && InRange(taken[i].w.priority)
      requires forall i, j :: 0 <= i < j < |taken| ==> taken[i].w != taken[j].w
      modifies this`rfeeds, this`pendings, watchers`pending
      ensures QueueOK() && rfeeds == [] && InOrder(was, taken) && OthersSame(was, taken)
    {
      hide QueueOK, WaitsIn, Grows, InRange, Ws;
      RfWs(taken, rfeeds);
      FeedReverseDone(EV_TIMER);
    }

    /** timers_reify. `taken` lists the entries of the timers in the order they are taken: each that was due once, in
        order of its due time, so that none is due afterwards. A repeating one goes on, any other stops. */
    method TimersReify() returns (ghost taken: seq<Anhe>)
      requires Valid()
      modifies this`timers, this`pendings, this`rfeeds, watchers`active, watchers`at, watchers`pending
      ensures Valid()
      ensures Due(old(timers), taken, mnNow) && forall j :: 0 <= j < |timers| ==> timers[j].at >= mnNow
      ensures AllHandled(taken) && InOrder(old(Snapshot()), taken) && OthersSame(old(Snapshot()), taken)
      // due times of a repeating timer are at least its interval apart, exactly that unless the next one has passed
      ensures forall i :: 0 <= i < |taken| && taken[i].w.repeat != 0.0 ==>
        var e := taken[i];
        && e.w.active != 0 && e.w.at >= e.at + e.w.repeat && e.w.at >= mnNow
        && (if e.at + e.w.repeat >= mnNow then e.w.at == e.at + e.w.repeat else e.w.at == mnNow)
      ensures forall i :: 0 <= i < |taken| && taken[i].w.repeat == 0.0 ==> taken[i].w.active == 0
    {
      ghost var was := Snapshot();
      hide HeapOK, QueueOK, Due, Untouched, InOrder, OthersSame, Ws, NextTime;
      taken := TakeDue(was);
      HandledTimes(taken);
      HandledRange(taken);
      DueDistinct(old(timers), taken, mnNow);
      if rfeeds != [] {
        FeedTaken(was, taken);
      } else {
        NoneTaken(was, taken);
      }
    }

    lemma HandledTimes(taken: seq<Anhe>)
      requires AllHandled(taken)
      ensures forall i :: 0 <= i < |taken| && taken[i].w.repeat != 0.0 ==>
        var e := taken[i];
        && e.w.active != 0 && e.w.at >= e.at + e.w.repeat && e.w.at >= mnNow
        && (if e.at + e.w.repeat >= mnNow then e.w.at == e.at + e.w.repeat else e.w.at == mnNow)
      ensures forall i :: 0 <= i < |taken| && taken[i].w.repeat == 0.0 ==> taken[i].w.active == 0
    {
      forall i | 0 <= i < |taken| ensures Handled(taken[i]) {}
      hide AllHandled;
    }

    lemma HandledRange(taken: seq<Anhe>)
      requires AllHandled(taken)
      ensures forall i :: 0 <= i < |taken| ==> taken[i].w in watchers && InRange(taken[i].w.priority)
    {
      forall i | 0 <= i < |taken| ensures taken[i].w in watchers && InRange(taken[i].w.priority) {
        assert Handled(taken[i]);
      }
    }

    /** After timers_reify, of two timers taken that have the same priority and were not waiting before, the one that
        was due first is called first by ev_invoke_pending. */
    lemma CalledInDueOrder(h: seq<Anhe>, was: map<Watcher, Snap>, taken: seq<Anhe>, i: nat, j: nat,
        turn: map<(nat, nat), nat>)
      requires QueueOK() && InOrder(was, taken) && Due(h, taken, mnNow)
      requires i < |taken| && j < |taken| && taken[i].at < taken[j].at && taken[i].w.priority == taken[j].w.priority
      requires NotWaiting(was, taken[i].w) && NotWaiting(was, taken[j].w)
      ensures var a, b := taken[i].w, taken[j].w;
        && AtPlace(a) && AtPlace(b)
        && CallTime(pendings, NUMPRI, Pri(a.priority), a.pending - 1)
           < CallTime(pendings, NUMPRI, Pri(b.priority), b.pending - 1)
        // whatever the callbacks do
        && (InCallOrder(turn) && PlaceOf(a) in turn && PlaceOf(b) in turn ==> turn[PlaceOf(a)] < turn[PlaceOf(b)])
    {
      assert i < j;
      var a, b := taken[i].w, taken[j].w;
      assert Waits(a, EV_TIMER) && Waits(b, EV_TIMER);
      assert AtPlace(a) && AtPlace(b);
      CallOrder(pendings, NUMPRI, Pri(a.priority), a.pending - 1, Pri(b.priority), b.pending - 1);
    }

    /** Of two pending watchers the one with the higher priority is called first, and among equals the one that has been
        fed last. */
    lemma HigherPriorityFirst(a: Watcher, b: Watcher, turn: map<(nat, nat), nat>)
      requires QueueOK() && a in watchers && b in watchers && a.pending != 0 && b.pending != 0
      ensures AtPlace(a) && AtPlace(b)
      ensures CallTime(pendings, NUMPRI, PlaceOf(a).0, PlaceOf(a).1)
              < CallTime(pendings, NUMPRI, PlaceOf(b).0, PlaceOf(b).1)
              <==> a.priority > b.priority || (a.priority == b.priority && a.pending > b.pending)
      // whatever the callbacks do
      ensures InCallOrder(turn) && PlaceOf(a) in turn && PlaceOf(b) in turn && a.priority > b.priority ==>
        turn[PlaceOf(a)] < turn[PlaceOf(b)]
    {
      assert AtPlace(a) && AtPlace(b);
      CallOrder(pendings, NUMPRI, Pri(a.priority), a.pending - 1, Pri(b.priority), b.pending - 1);
    }

    lemma NoneTaken(was: map<Watcher, Snap>, taken: seq<Anhe>)
      requires taken == [] && Untouched(was, taken)
      ensures InOrder(was, taken) && OthersSame(was, taken)
    {
    }

    // ---------- invocation ----------

    /** A callback may do this: the watcher is in use, with its priority in range. */
    ghost predicate Allowed(a: Action)
      reads this`watchers, a.w`priority, a.w`repeat
    {
      a.w in watchers && InRange(a.w.priority) && a.w.repeat >= 0.0
    }

    ghost predicate AllAllowed(acts: seq<Action>)
      reads this`watchers, watchers`priority, watchers`repeat
    {
      forall i :: 0 <= i < |acts| ==> acts[i].w in watchers && Allowed(acts[i])
    }

    ghost predicate ScriptOK(script: seq<seq<Action>>)
      reads this`watchers, watchers`priority, watchers`repeat
    {
      forall k :: 0 <= k < |script| ==> AllAllowed(script[k])
    }

    /** A watcher is found only at its place. */
    lemma OnlyPlace(w: Watcher)
      requires QueueOK() && w in watchers && pendingW !in watchers
      ensures forall p, i :: 0 <= p < NUMPRI && 0 <= i < |pendings[p]| ==>
                (pendings[p][i].w == w <==> w.pending == i + 1 && w.priority == p + MINPRI)
    {
      assert w.pending != 0 ==> AtPlace(w);
    }

    lemma ClearedFollows(a: Action)
      requires QueueOK() && a.w in watchers && pendingW !in watchers && (a.Stop? || a.Again?)
      ensures Follows(pendingW, pendings, Cleared(pendings, a.w.pending, a.w.priority), [a])
    {
      OnlyPlace(a.w);
      ActsMore([], a);
      forall b: bv32 ensures Has(b, b) { HasSelf(b); }
      assert a.w.pending != 0 ==> AtPlace(a.w);
      hide Stops, Feeds, Has, QueueOK;
    }

    lemma SameFollows(a: Action)
      requires a.Start?
      ensures Follows(pendingW, pendings, pendings, [a])
    {
      ActsMore([], a);
      forall b: bv32 ensures Has(b, b) { HasSelf(b); }
      hide Stops, Feeds, Has;
    }

    lemma FedFollows(a: Action, q': seq<seq<Pending>>)
      requires QueueOK() && a.Feed? && a.w in watchers && InRange(a.w.priority) && pendingW !in watchers
      requires var p := Pri(a.w.priority);
        q' == if a.w.pending != 0 then WithEvents(pendings, p, a.w.pending - 1, a.revents)
              else pendings[p := pendings[p] + [Pending(a.w, a.revents)]]
      ensures Follows(pendingW, pendings, q', [a])
    {
      ActsMore([], a);
      forall b: bv32 ensures Has(b, b) { HasSelf(b); }
      forall b: bv32, e: bv32 ensures Has(Or(b, e), b) { HasSelf(b); OrKeeps(b, e, b); }
      hide Stops, Feeds, Has, Or, QueueOK;
      assert |pendings| == NUMPRI by { QueueBound(); }
    }

    /** One action of a callback. */
    method Act(a: Action)
      requires Valid() && a.w in watchers && Allowed(a)
      modifies this`timers, this`pendings, watchers`active, watchers`at, watchers`pending, watchers`priority
      ensures Valid() && Follows(pendingW, old(pendings), pendings, [a])
      ensures forall v :: v in watchers && InRange(old(v.priority)) ==> v.priority == old(v.priority)
      ensures match a
        case Feed(w, _) => w.pending != 0
        case Start(w) => w.active != 0
        case Stop(w) => w.active == 0 && w.pending == 0
        case Again(w) => w.pending == 0 && (w.active != 0 <==> w.repeat != 0.0)
    {
      hide QueueOK, HeapOK, Follows, Cleared, WithEvents;
      match a
      case Feed(w, revents) =>
        QueueBound();
        ghost var q: seq<seq<Pending>> := if w.pending != 0
          then WithEvents(pendings, Pri(w.priority), w.pending - 1, revents)
          else pendings[Pri(w.priority) := pendings[Pri(w.priority)] + [Pending(w, revents)]];
        FedFollows(a, q);
        FeedEvent(w, revents);
      case Start(w) =>
        SameFollows(a);
        TimerStart(w);
      case Stop(w) =>
        ClearedFollows(a);
        TimerStop(w);
      case Again(w) =>
        ClearedFollows(a);
        TimerAgain(w);
    }

    /** A callback. */
    method Callback(acts: seq<Action>)
      requires Valid() && AllAllowed(acts)
      modifies this`timers, this`pendings, watchers`active, watchers`at, watchers`pending, watchers`priority
      ensures Valid() && Follows(pendingW, old(pendings), pendings, acts) && (acts == [] ==> pendings == old(pendings))
      ensures forall v :: v in watchers && InRange(old(v.priority)) ==> v.priority == old(v.priority)
    {
      hide HeapOK, QueueOK, RangeOK, Follows;
      FollowsNone(pendingW, pendings);
      for i := 0 to |acts|
        invariant Valid() && Follows(pendingW, old(pendings), pendings, acts[..i]) &&
          (i == 0 ==> pendings == old(pendings))
        invariant forall v :: v in watchers && InRange(old(v.priority)) ==> v.priority == old(v.priority)
      {
        ghost var q1 := pendings;
        Act(acts[i]);
        FollowsMore(pendingW, old(pendings), q1, pendings, acts[..i], acts[i]);
        assert acts[..i] + [acts[i]] == acts[..i + 1];
      }
      assert acts[..|acts|] == acts;
    }

    /** One turn of the inner loop of ev_invoke_pending. */
    method InvokeNext(pri: nat, script: seq<seq<Action>>) returns (c: Call, rest: seq<seq<Action>>)
      requires Valid() && ScriptOK(script) && pri < |pendings| == NUMPRI && pendings[pri] != []
      modifies this`timers, this`pendings, watchers`active, watchers`at, watchers`pending, watchers`priority,
        pendingW`pending
      ensures Valid() && ScriptOK(rest)
      ensures var n := |old(pendings)[pri]| - 1; var entry := old(pendings)[pri][n];
        c == Call(pri, n, entry, Scripted(script, pendingW, entry)) && rest == Onward(script, pendingW, entry)
      ensures Follows(pendingW, Popped(old(pendings), pri), pendings, c.acts)
      ensures c.acts == [] ==> pendings == Popped(old(pendings), pri)
    {
      hide HeapOK, QueueOK, Follows, InRange;
      var n := |pendings[pri]| - 1;
      var p := Pop(pri);
      c, rest := Call(pri, n, p, Scripted(script, pendingW, p)), Onward(script, pendingW, p);
      label Popped:
      hide RangeOK;
      Callback(c.acts);
      forall k | 0 <= k < |rest| ensures AllAllowed(rest[k]) {
        assert old@Popped(AllAllowed(rest[k]));
      }
    }

    /** The inner loop of ev_invoke_pending. */
    method InvokeQueue(pri: nat, script: seq<seq<Action>>, ghost s: Pass)
      returns (calls: seq<Call>, rest: seq<seq<Action>>, ghost s': Pass)
      requires Valid() && ScriptOK(script) && pri < NUMPRI == |pendings|
      requires PassOK(s) && s.q == pendings && s.dummy == pendingW && s.pri == pri
      modifies this`timers, this`pendings, watchers`active, watchers`at, watchers`pending, watchers`priority,
        pendingW`pending
      ensures Valid() && ScriptOK(rest) && PassOK(s')
      ensures s' == s.(log := s.log + calls, turn := s'.turn, q := pendings, left := 0) && |pendings| == NUMPRI &&
        pendings[pri] == []
      ensures Performed(script, pendingW, calls) && rest == Remaining(script, pendingW, calls)
      ensures Actions(script) == 0 ==>
        Actions(rest) == 0 && pendings == old(pendings)[pri := []] && Entries(calls) == Reversed(old(pendings)[pri])
    {
      hide *;
      calls, rest, s' := [], script, s;
      QuietBegin(pendings, pri);
      NonePerformed(script, pendingW);
      assert s.log + calls == s.log;
      while pendings[pri] != []
        invariant Valid() && ScriptOK(rest) && |pendings| == NUMPRI && PassOK(s')
        invariant s' == s.(log := s.log + calls, turn := s'.turn, q := pendings, left := s'.left)
        invariant Performed(script, pendingW, calls) && rest == Remaining(script, pendingW, calls)
        invariant Actions(script) == 0 ==> Actions(rest) == 0 && Quiet(old(pendings), pri, pendings, calls)
        decreases Actions(rest) + |pendings[pri]|
      {
        ghost var before, s1, calls1 := pendings, s', calls;
        var c, more := InvokeNext(pri, rest);
        StepsIs(s1, c.acts, pendings);
        PassStep(s1, c.acts, pendings);
        AfterIs(s1, c.acts, pendings);
        PerformedMore(script, pendingW, calls, c);
        ScriptedLess(rest, pendingW, c.entry);
        s' := After(s1, c.acts, pendings);
        calls, rest := calls + [c], more;
        assert s.log + calls1 + [c] == s.log + calls;
        if Actions(script) == 0 {
          QuietStep(old(pendings), pri, before, calls1, c);
        }
      }
      NoneLeft(s');
      QuietEnd(old(pendings), pri, pendings, calls);
    }

    /** ev_invoke_pending. The k-th callback called does what `script[k]` says, later ones leave the loop alone; the
        callback of the watcher that stands for cleared entries does nothing. `log` lists the calls, and `turn` says
        which of them is that of the entry that was at a place when the pass began. */
    method InvokePending(script: seq<seq<Action>>) returns (log: seq<Call>, ghost turn: map<(nat, nat), nat>)
      requires Valid() && ScriptOK(script)
      modifies this`timers, this`pendings, watchers`active, watchers`at, watchers`pending, watchers`priority,
        pendingW`pending
      ensures Valid() && |pendings| == NUMPRI == |old(pendings)| && Performed(script, pendingW, log)
      // each entry is called once, as what it was but for events fed meanwhile; cleared exactly if its watcher was
      // stopped
      ensures forall p: nat, i: nat :: (p, i) in turn <==> p < NUMPRI && i < |old(pendings)[p]|
      ensures forall p: nat, i: nat :: (p, i) in turn ==> Met(pendingW, old(pendings), log, turn[(p, i)], p, i)
      // highest priority first, and from the end of each queue; priorities never rise
      ensures InCallOrder(turn) && Descending(log, 0)
      // nothing else is called but what an earlier callback fed
      ensures Accounted(pendingW, NUMPRI, log, turn)
      // what is queued afterwards was fed from a callback of lower priority
      ensures forall p, i :: 0 <= p < NUMPRI && 0 <= i < |pendings[p]| ==>
        pendings[p][i].w == pendingW || FedBy(log, |log|, p, pendings[p][i].w)
      // with callbacks that leave the loop alone
      ensures Actions(script) == 0 ==>
        && Entries(log) == Calls(old(pendings), NUMPRI)
        && (forall p :: 0 <= p < NUMPRI ==> pendings[p] == []) && forall w :: w in watchers ==> w.pending == 0
    {
      ValidIs();
      assert NUMPRI > 0;
      hide *;
      var rest, pri := script, NUMPRI;
      log := [];
      ghost var s := Pass(pendingW, pendings, [], map[], pendings, NUMPRI, 0);
      PassBegins(pendingW, pendings);
      NonePerformed(script, pendingW);
      QuietPassBegins(pendings);
      while pri > 0
        invariant 0 <= pri <= NUMPRI == |pendings| == |old(pendings)| && Valid() && ScriptOK(rest) && PassOK(s)
        invariant s == Pass(pendingW, old(pendings), log, s.turn, pendings, pri, 0) &&
          (pri < NUMPRI ==> pendings[pri] == [])
        invariant Performed(script, pendingW, log) && rest == Remaining(script, pendingW, log)
        invariant Actions(script) == 0 ==> Actions(rest) == 0 && QuietPass(old(pendings), pri, pendings, log)
      {
        ghost var log1, q1 := log, pendings;
        PassDown(s);
        pri := pri - 1;
        var calls;
        calls, rest, s := InvokeQueue(pri, rest, s.(pri := pri, left := |old(pendings)[pri]|));
        log := log + calls;
        PerformedJoined(script, pendingW, log1, calls);
        if Actions(script) == 0 { QuietPassNext(old(pendings), pri, q1, log1, calls); }
      }
      PassEnds(s);
      turn := s.turn;
      if Actions(script) == 0 { QuietPassEnds(old(pendings), pendings, log); }
      ValidIs();
      NoneWaiting();
    }

    lemma ValidIs()
      requires Valid()
      ensures QueueOK() && |pendings| == NUMPRI
    {
    }

    lemma NoneWaiting()
      requires QueueOK() && |pendings| == NUMPRI
      ensures (forall p :: 0 <= p < NUMPRI ==> pendings[p] == []) ==> forall w :: w in watchers ==> w.pending == 0
    {
      QueueBound();
      hide QueueOK;
    }

    /** Take the last entry of a queue. */
    method Pop(pri: nat) returns (p: Pending)
      requires QueueOK() && pendingW !in watchers && pri < NUMPRI && pendings[pri] != []
      modifies this`pendings, watchers`pending, pendingW`pending
      ensures QueueOK() && p == old(pendings)[pri][|old(pendings)[pri]| - 1]
      ensures pendings == old(pendings)[pri := old(pendings)[pri][..|old(pendings)[pri]| - 1]]
    {
      var n := |pendings[pri]| - 1;
      p := pendings[pri][n];
      pendings := pendings[pri := pendings[pri][..n]];
      p.w.pending := 0;
      forall v | v in watchers && v.pending != 0 ensures AtPlace(v) {
        assert old(AtPlace(v));
      }
    }
  }

  lemma NothingOrdered()
    ensures Ordered([])
  {
  }

  lemma IndexedWeaker(h: seq<Anhe>, but: int)
    requires Indexed(h, -1)
    ensures Indexed(h, but)
  {
  }

  lemma SwapPrefix(v: seq<Anhe>, k: nat, p: nat, n: nat)
    requires k < n <= |v| && p < n
    ensures Swap(v, k, p)[..n] == Swap(v[..n], k, p)
  {
  }

  lemma ParentSmaller(k: nat)
    ensures k > 0 ==> Parent(k) < k
  {
  }

  lemma MinChildIn(h: seq<Anhe>, v: seq<Anhe>, k: nat, m: nat)
    requires k < |h| && |v| == |h| && v == h[k := v[k]] && MinChild(h, k, m)
    ensures MinChild(v, k, m) && k < m && v[m] == h[m]
  {
  }

  /** UPHEAP_DONE: only the root is its own parent. */
  lemma ParentSelf(k: nat)
    ensures Parent(k) == k <==> k == 0
  {
  }
}
