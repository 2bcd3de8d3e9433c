/** File-descriptor interest in libev (ev.c:1491-1564, 3144-3164, 3220-3260) and the poll backend (ev_poll.c:51-86): the
    poll array is brought up to date lazily, and then is exactly what the active watchers ask for. */
module IoWatch {
  import opened Basics

  /** The bits of an event mask; IOFDSET marks a watcher whose descriptor was set anew. */
  datatype Ev = READ | WRITE | IOFDSET

  /** The flags of anfd->reify. */
  datatype Flag = Fdset | Reify

  class Watcher {
    const fd: nat
    var events: set<Ev>
    var active: bool

    /** ev_io_init */
    constructor (fd: nat, events: set<Ev>)
      requires events <= {READ, WRITE}
      ensures this.fd == fd && this.events == events + {IOFDSET} && !active
    {
      this.fd, this.events, active := fd, events + {IOFDSET}, false;
    }
  }

  /** ANFD: the watchers of a descriptor, the interest the backend knows of, and pending changes. */
  datatype Anfd = Anfd(head: seq<Watcher>, events: set<Ev>, reify: set<Flag>)

  const NONE := Anfd([], {}, {})

  datatype Pollfd = Pollfd(fd: nat, events: set<Ev>)

  function AsSet(s: seq<Watcher>): set<Watcher> { set x | x in s }

  /** The masks of the watchers, or-ed together. */
  ghost function Mask(ws: seq<Watcher>): set<Ev>
    reads AsSet(ws)`events
  {
    set w, e | w in ws && e in w.events :: e
  }

  ghost predicate Right(a: Anfd)
    reads AsSet(a.head)`events
  {
    a.events == Mask(a.head)
  }

  // ---------- the poll backend ----------

  /** polls and pollidxs are inverse to each other. */
  predicate Inverse(polls: seq<Pollfd>, pollidxs: seq<int>) {
    && (forall i :: 0 <= i < |polls| ==> polls[i].fd < |pollidxs| && pollidxs[polls[i].fd] == i)
    && (forall fd :: 0 <= fd < |pollidxs| ==>
      pollidxs[fd] == -1 || (0 <= pollidxs[fd] < |polls| && polls[pollidxs[fd]].fd == fd))
  }

  /** What the poll array says about a descriptor. */
  function Polled(polls: seq<Pollfd>, pollidxs: seq<int>, fd: nat): set<Ev> {
    if fd < |pollidxs| && 0 <= pollidxs[fd] < |polls| then polls[pollidxs[fd]].events else {}
  }

  /** No entry asks for nothing. */
  predicate Busy(polls: seq<Pollfd>) {
    forall i :: 0 <= i < |polls| ==> polls[i].events != {}
  }

  class Backend {
    var polls: seq<Pollfd>
    var pollidxs: seq<int>

    constructor ()
      ensures Inverse(polls, pollidxs) && Busy(polls) && polls == []
    {
      polls, pollidxs := [], [];
    }

    /** poll_modify */
    method Modify(fd: nat, oev: set<Ev>, nev: set<Ev>)
      requires Inverse(polls, pollidxs) && Busy(polls) && Polled(polls, pollidxs, fd) == oev
      modifies this
      ensures Inverse(polls, pollidxs) && Busy(polls) && Polled(polls, pollidxs, fd) == nev
      ensures forall f: nat :: f != fd ==> Polled(polls, pollidxs, f) == Polled(old(polls), old(pollidxs), f)
    {
      if oev == nev {
        return;
      }
      Allocate(fd);
      var idx := pollidxs[fd];
      assert polls[idx].fd == fd;
      if nev != {} {
        polls := polls[idx := polls[idx].(events := nev)];
      } else {
        Remove(fd, idx);
      }
    }

    /** Make sure the descriptor has an entry; a new one asks for nothing yet. */
    method Allocate(fd: nat)
      requires Inverse(polls, pollidxs) && Busy(polls)
      modifies this
      ensures Inverse(polls, pollidxs) && fd < |pollidxs| && pollidxs[fd] >= 0
      ensures forall i :: 0 <= i < |polls| && i != pollidxs[fd] ==> polls[i].events != {}
      ensures forall f: nat :: Polled(polls, pollidxs, f) == Polled(old(polls), old(pollidxs), f)
    {
      if fd >= |pollidxs| {
        pollidxs := pollidxs + seq(fd + 1 - |pollidxs|, _ => -1);
      }
      var idx := pollidxs[fd];
      if idx < 0 {
        idx := |polls|;
        pollidxs := pollidxs[fd := idx];
        polls := polls + [Pollfd(fd, {})];
      }
    }

    /** Remove an entry: the last one takes its place. */
    method Remove(fd: nat, idx: nat)
      requires Inverse(polls, pollidxs) && fd < |pollidxs| && pollidxs[fd] == idx < |polls|
      requires forall i :: 0 <= i < |polls| && i != idx ==> polls[i].events != {}
      modifies this
      ensures Inverse(polls, pollidxs) && Busy(polls) && Polled(polls, pollidxs, fd) == {}
      ensures forall f: nat :: f != fd ==> Polled(polls, pollidxs, f) == Polled(old(polls), old(pollidxs), f)
    {
      var last := |polls| - 1;
      if idx < last {
        var moved := polls[last];
        assert moved.fd != fd;
        pollidxs := pollidxs[fd := -1];
        polls := polls[idx := moved][..last];
        pollidxs := pollidxs[polls[idx].fd := idx];
      } else {
        pollidxs := pollidxs[fd := -1];
        polls := polls[..last];
      }
    }
  }

  // ---------- the event loop ----------

  /** The flags ev_io_start passes on. */
  function Flags(events: set<Ev>): set<Flag> { (if IOFDSET in events then {Fdset} else {}) + {Reify} }

  /** An entry with other watchers and more flags. */
  function Marked(a: Anfd, head: seq<Watcher>, flags: set<Flag>): Anfd { a.(head := head, reify := a.reify + flags) }

  /** The list without the first w in it. */
  function WithoutFirst(s: seq<Watcher>, w: Watcher): seq<Watcher> {
    if s == [] then [] else if s[0] == w then s[1..] else [s[0]] + WithoutFirst(s[1..], w)
  }

  lemma {:induction false} FirstAt(s: seq<Watcher>, i: nat)
    requires i < |s| && s[i] !in s[..i]
    ensures WithoutFirst(s, s[i]) == s[..i] + s[i + 1..]
    decreases i
  {
    if i > 0 {
      assert s[..i] == [s[0]] + s[1..][..i - 1];
      FirstAt(s[1..], i - 1);
      assert s[i + 1..] == s[1..][i..];
    }
  }

  class Loop {
    var anfds: seq<Anfd>
    var fdchanges: seq<nat>
    const backend: Backend

    /** The watchers in use and the active ones. */
    ghost var active: set<Watcher>

    constructor ()
      ensures Valid() && active == {} && fresh(backend)
    {
      anfds, fdchanges, active := [], [], {};
      backend := new Backend();
    }

    function Entry(fd: nat): Anfd
      reads this`anfds
    {
      if fd < |anfds| then anfds[fd] else NONE
    }

    /** A descriptor is listed as changed once, if it has a flag set. */
    ghost predicate ChangesOK()
      reads this`anfds, this`fdchanges
    {
      && (forall i, j :: 0 <= i < j < |fdchanges| ==> fdchanges[i] != fdchanges[j])
      && (forall i :: 0 <= i < |fdchanges| ==> fdchanges[i] < |anfds|)
      && (forall fd :: 0 <= fd < |anfds| ==> (anfds[fd].reify != {} <==> fd in fdchanges))
    }

    /** Each list holds exactly the active watchers of its descriptor. */
    ghost predicate ListsOK()
      reads this`anfds, this`active, active
    {
      && (forall fd, w :: 0 <= fd < |anfds| && w in anfds[fd].head ==> w in active && w.fd == fd)
      && (forall w :: w in active ==> w.fd < |anfds| && w in anfds[w.fd].head && w.active && w.events <= {READ, WRITE})
      && (forall fd :: 0 <= fd < |anfds| ==> NoDup(anfds[fd].head))
    }

    /** The backend knows the recorded interest. */
    ghost predicate KnownOK()
      reads this`anfds, backend
    {
      && Inverse(backend.polls, backend.pollidxs) && Busy(backend.polls)
      && forall fd: nat :: Polled(backend.polls, backend.pollidxs, fd) == Entry(fd).events
    }

    /** The recorded interest is right for every descriptor that is not listed as changed, except perhaps one. */
    ghost predicate InterestOK(but: int)
      reads this`anfds, this`fdchanges, this`active, active`events
    {
      forall fd: nat :: fd < |anfds| && fd !in fdchanges && fd != but ==>
        AsSet(anfds[fd].head) <= active && Right(anfds[fd])
    }

    ghost predicate Valid()
      reads this, active, backend
    {
      ChangesOK() && ListsOK() && KnownOK() && InterestOK(-1)
    }

    /** fd_change */
    method FdChange(fd: nat, flags: set<Flag>)
      requires fd < |anfds| && flags != {} && ChangesOK() && ListsOK() && KnownOK() && InterestOK(fd)
      modifies this`anfds, this`fdchanges
      ensures ChangesOK() && ListsOK() && KnownOK() && InterestOK(-1)
      ensures anfds == old(anfds)[fd := old(anfds)[fd].(reify := old(anfds)[fd].reify + flags)]
      ensures fdchanges == if fd in old(fdchanges) then old(fdchanges) else old(fdchanges) + [fd]
    {
      hide Inverse, Busy, Polled, Right, Mask;
      var reify := anfds[fd].reify;
      anfds := anfds[fd := anfds[fd].(reify := reify + flags)];
      if reify == {} {
        fdchanges := fdchanges + [fd];
      }
    }

    /** ev_io_start */
    method IoStart(w: Watcher)
      requires Valid() && (w.active <==> w in active) && w.events <= {READ, WRITE, IOFDSET}
      modifies this`anfds, this`fdchanges, this`active, w
      ensures Valid() && active == old(active) + {w} && w.active
      ensures w.events == if old(w.active) then old(w.events) else old(w.events) - {IOFDSET}
      // the watcher comes first in the list of its descriptor, which is marked for reconciliation
      ensures if old(w.active) then anfds == old(anfds) && fdchanges == old(fdchanges)
              else Entry(w.fd) == Marked(old(Entry(w.fd)), [w] + old(Entry(w.fd)).head, Flags(old(w.events)))
      // and even if nothing changes for the descriptor, the backend is told when the watcher has just been given it
      ensures !old(w.active) ==>
        && Reify in Entry(w.fd).reify
        && (Fdset in Entry(w.fd).reify <==> Fdset in old(Entry(w.fd)).reify || IOFDSET in old(w.events))
      ensures forall f: nat :: f != w.fd ==> Entry(f) == old(Entry(f))
    {
      if w.active {
        return;
      }
      var flags := Flags(w.events);
      Attach(w);
      hide ListsOK, KnownOK, InterestOK, ChangesOK;
      FdChange(w.fd, flags);
    }

    /** array_needsize for anfds */
    method Grow(fd: nat)
      requires Valid()
      modifies this`anfds
      ensures Valid() && fd < |anfds| && forall f: nat :: Entry(f) == old(Entry(f))
    {
      hide Right, Mask, Inverse, Busy, Polled;
      if fd >= |anfds| {
        anfds := anfds + seq(fd + 1 - |anfds|, _ => NONE);
        NothingWanted();
        assert ChangesOK();
        hide ChangesOK;
        assert ListsOK();
        hide ListsOK;
        assert KnownOK();
        hide KnownOK;
      }
    }

    lemma NothingWanted()
      ensures Right(NONE)
    {
    }

    /** The watcher is put into the list of its descriptor. */
    method Attach(w: Watcher)
      requires Valid() && !w.active && w !in active && w.events <= {READ, WRITE, IOFDSET}
      modifies this`anfds, this`active, w
      ensures ChangesOK() && ListsOK() && KnownOK() && InterestOK(w.fd) && w.fd < |anfds|
      ensures active == old(active) + {w} && w.active && w.events == old(w.events) - {IOFDSET}
      ensures Entry(w.fd) == old(Entry(w.fd)).(head := [w] + old(Entry(w.fd)).head)
      ensures forall f: nat :: f != w.fd ==> Entry(f) == old(Entry(f))
    {
      hide ChangesOK, ListsOK, KnownOK, InterestOK;
      Grow(w.fd);
      Activate(w);
      Insert(w);
    }

    /** ev_start */
    method Activate(w: Watcher)
      requires Valid() && w !in active
      modifies w
      ensures Valid() && w.active && w.events == old(w.events) - {IOFDSET}
    {
      hide ChangesOK, KnownOK, Right, Mask;
      assert forall f, v :: 0 <= f < |anfds| && v in anfds[f].head ==> v != w;
      w.active, w.events := true, w.events - {IOFDSET};
    }

    /** wlist_add */
    method Insert(w: Watcher)
      requires Valid() && w !in active && w.active && w.events <= {READ, WRITE} && w.fd < |anfds|
      modifies this`anfds, this`active
      ensures ChangesOK() && ListsOK() && KnownOK() && InterestOK(w.fd) && active == old(active) + {w}
      ensures w.fd < |anfds| && anfds == old(anfds)[w.fd := old(anfds)[w.fd].(head := [w] + old(anfds)[w.fd].head)]
    {
      hide Right, Mask, Inverse, Busy, Polled;
      anfds := anfds[w.fd := anfds[w.fd].(head := [w] + anfds[w.fd].head)];
      active := active + {w};
    }

    /** ev_io_stop */
    method IoStop(w: Watcher)
      requires Valid() && (w.active <==> w in active)
      modifies this`anfds, this`fdchanges, this`active, w`active
      ensures Valid() && active == old(active) - {w} && !w.active
      ensures if !old(w.active) then anfds == old(anfds) && fdchanges == old(fdchanges)
              else Entry(w.fd) == Marked(old(Entry(w.fd)), WithoutFirst(old(Entry(w.fd)).head, w), {Reify})
      ensures forall f: nat :: f != w.fd ==> Entry(f) == old(Entry(f))
    {
      if !w.active {
        return;
      }
      Detach(w);
      hide ListsOK, KnownOK, InterestOK, ChangesOK;
      FdChange(w.fd, {Reify});
    }

    /** wlist_del and ev_stop */
    method Detach(w: Watcher)
      requires Valid() && w.active && w in active
      modifies this`anfds, this`active, w`active
      ensures ChangesOK() && ListsOK() && KnownOK() && InterestOK(w.fd) && w.fd < |anfds|
      ensures active == old(active) - {w} && !w.active
      ensures Entry(w.fd) == old(Entry(w.fd)).(head := WithoutFirst(old(Entry(w.fd)).head, w))
      ensures forall f: nat :: f != w.fd ==> Entry(f) == old(Entry(f))
    {
      var i := Find(anfds[w.fd].head, w);
      WithoutAt(anfds[w.fd].head, i);
      FirstAt(anfds[w.fd].head, i);
      assert w.fd < |anfds| && w in anfds[w.fd].head;
      hide *;
      SetHead(w, anfds[w.fd].head[..i] + anfds[w.fd].head[i + 1..]);
      assert forall f: nat :: f != w.fd ==> Entry(f) == old(Entry(f)) by { EntryIs(); }
      assert Entry(w.fd) == anfds[w.fd] by { EntryIs(); }
      assert old(Entry(w.fd)) == old(anfds[w.fd]);
    }

    lemma EntryIs()
      ensures forall f: nat :: Entry(f) == if f < |anfds| then anfds[f] else NONE
    {
    }

    /** The watcher leaves the list of its descriptor. */
    method SetHead(w: Watcher, rest: seq<Watcher>)
      requires Valid() && w.active && w in active && w.fd < |anfds| && NoDup(rest)
      requires forall x :: x in rest <==> x in anfds[w.fd].head && x != w
      modifies this`anfds, this`active, w`active
      ensures ChangesOK() && ListsOK() && KnownOK() && InterestOK(w.fd) && w.fd < |anfds|
      ensures active == old(active) - {w} && !w.active
      ensures anfds == old(anfds)[w.fd := old(anfds)[w.fd].(head := rest)]
    {
      hide Right, Mask, Inverse, Busy, Polled;
      anfds := anfds[w.fd := anfds[w.fd].(head := rest)];
      w.active := false;
      active := active - {w};
    }

    /** What the active watchers of a descriptor ask for. */
    ghost function Wanted(fd: nat): set<Ev>
      reads this`active, active
    {
      set w, e | w in active && w.fd == fd && e in w.events :: e
    }

    /** The backend knows the recorded interest, but for fd it knows the interest oev. */
    ghost predicate KnownBut(fd: nat, oev: set<Ev>)
      reads this`anfds, backend
    {
      && Inverse(backend.polls, backend.pollidxs) && Busy(backend.polls)
      && Polled(backend.polls, backend.pollidxs, fd) == oev
      && forall f: nat :: f != fd ==> Polled(backend.polls, backend.pollidxs, f) == Entry(f).events
    }

    /** The entries in view of the changes still to be handled. */
    ghost predicate PendingOK(rest: seq<nat>)
      reads this`anfds, this`active, active`events
    {
      && (forall fd :: 0 <= fd < |anfds| ==> (anfds[fd].reify != {} <==> fd in rest))
      && (forall fd: nat :: fd < |anfds| && fd !in rest ==> AsSet(anfds[fd].head) <= active && Right(anfds[fd]))
    }

    /** fd_reify has handled the first i changes. */
    ghost predicate Reifying(i: nat)
      reads this, active, backend
    {
      && i <= |fdchanges| && ListsOK() && KnownOK() && PendingOK(fdchanges[i..])
      && (forall j, k :: 0 <= j < k < |fdchanges| ==> fdchanges[j] != fdchanges[k])
      && (forall j :: 0 <= j < |fdchanges| ==> fdchanges[j] < |anfds|)
    }

    /** Record the interest of a descriptor. */
    method Refresh(fd: nat, events: set<Ev>, ghost rest: seq<nat>)
      requires fd < |anfds| && events == Mask(anfds[fd].head) && fd !in rest
      requires ListsOK() && KnownOK() && PendingOK([fd] + rest)
      modifies this`anfds
      ensures |anfds| == old(|anfds|) && ListsOK() && KnownBut(fd, old(anfds[fd].events)) && PendingOK(rest)
      ensures anfds[fd].events == events && forall f: nat :: Entry(f).head == old(Entry(f)).head
    {
      hide Inverse, Busy, Polled, Mask;
      assert forall w :: w in anfds[fd].head ==> w in active;
      ghost var before := anfds;
      anfds := anfds[fd := anfds[fd].(reify := {}, events := events)];
      assert Right(anfds[fd]);
      assert forall f :: 0 <= f < |anfds| ==> anfds[f].head == before[f].head;
      assert forall f :: 0 <= f < |anfds| && f != fd ==> anfds[f] == before[f] && (f in [fd] + rest <==> f in rest);
    }

    /** Tell the backend if it matters. */
    method Tell(fd: nat, oReify: set<Flag>, oEvents: set<Ev>, events: set<Ev>)
      requires KnownBut(fd, oEvents) && Entry(fd).events == events && (oEvents != events ==> Fdset in oReify)
      modifies backend
      ensures KnownOK()
    {
      hide Inverse, Busy, Polled;
      if Fdset in oReify {
        backend.Modify(fd, oEvents, events);
      }
    }

    /** One turn of the loop of fd_reify. */
    method ReifyOne(i: nat)
      requires i < |fdchanges| && Reifying(i)
      modifies this`anfds, backend
      ensures Reifying(i + 1) && forall f: nat :: Entry(f).head == old(Entry(f)).head
    {
      hide ListsOK, KnownOK, PendingOK, KnownBut;
      var fd := fdchanges[i];
      var oEvents, oReify := anfds[fd].events, anfds[fd].reify;
      var events := OrAll(anfds[fd].head);
      assert [fd] + fdchanges[i + 1..] == fdchanges[i..];
      Refresh(fd, events, fdchanges[i + 1..]);
      if oEvents != events {
        oReify := {Fdset};
      }
      Tell(fd, oReify, oEvents, events);
    }

    /** fd_reify */
    method FdReify()
      requires Valid()
      modifies this`anfds, this`fdchanges, backend
      ensures Valid() && fdchanges == [] && forall f: nat :: Entry(f).head == old(Entry(f)).head
      // the poll array holds exactly the descriptors that some active watcher is interested in, each once, with its
      // interest
      ensures forall fd: nat :: Polled(backend.polls, backend.pollidxs, fd) == Wanted(fd)
      ensures forall i :: 0 <= i < |backend.polls| ==> backend.polls[i].events == Wanted(backend.polls[i].fd) != {}
      ensures forall i, j :: 0 <= i < j < |backend.polls| ==> backend.polls[i].fd != backend.polls[j].fd
      ensures Inverse(backend.polls, backend.pollidxs)
    {
      hide *;
      ReifyStart();
      var i := 0;
      while i < |fdchanges|
        invariant 0 <= i <= |fdchanges| && fdchanges == old(fdchanges) && Reifying(i)
        invariant forall f: nat :: Entry(f).head == old(Entry(f)).head
      {
        ReifyOne(i);
        i := i + 1;
      }
      ReifyDone();
      ForgetChanges();
    }

    lemma ReifyStart()
      requires Valid()
      ensures Reifying(0)
    {
      assert fdchanges[0..] == fdchanges;
      hide Inverse, Busy, Polled, Right, Mask, NoDup;
    }

    /** fdchangecnt = 0 */
    method ForgetChanges()
      requires Reifying(|fdchanges|)
      modifies this`fdchanges
      ensures Valid() && fdchanges == []
    {
      hide Inverse, Busy, Polled, Right, Mask, NoDup;
      fdchanges := [];
    }

    lemma ReifyDone()
      requires Reifying(|fdchanges|)
      ensures forall fd: nat :: Polled(backend.polls, backend.pollidxs, fd) == Wanted(fd)
      ensures forall i :: 0 <= i < |backend.polls| ==> backend.polls[i].events == Wanted(backend.polls[i].fd) != {}
      ensures forall i, j :: 0 <= i < j < |backend.polls| ==> backend.polls[i].fd != backend.polls[j].fd
      ensures Inverse(backend.polls, backend.pollidxs)
    {
    }
  }

  /** The inner loop of fd_reify. */
  method OrAll(ws: seq<Watcher>) returns (events: set<Ev>)
    ensures events == Mask(ws)
  {
    events := {};
    for i := 0 to |ws|
      invariant events == Mask(ws[..i])
    {
      events := events + ws[i].events;
      assert ws[..i + 1] == ws[..i] + [ws[i]];
    }
    assert ws[..|ws|] == ws;
  }

  lemma WithoutAt(s: seq<Watcher>, i: nat)
    requires NoDup(s) && i < |s|
    ensures var r := s[..i] + s[i + 1..];
      NoDup(r) && AsSet(r) == AsSet(s) - {s[i]} && forall x :: x in s && x != s[i] ==> x in r
    ensures forall x :: x in s[..i] + s[i + 1..] ==> x in s && x != s[i]
  {
    var r := s[..i] + s[i + 1..];
    forall x | x in s && x != s[i] ensures x in r {
      var k :| 0 <= k < |s| && s[k] == x;
      assert r[if k < i then k else k - 1] == x;
    }
    forall x | x in r ensures x in s && x != s[i] {
      var k :| 0 <= k < |r| && r[k] == x;
      assert x == s[if k < i then k else k + 1];
    }
  }

  method Find(s: seq<Watcher>, w: Watcher) returns (i: nat)
    requires w in s
    ensures i < |s| && s[i] == w && w !in s[..i]
  {
    i := 0;
    while s[i] != w
      invariant i < |s| && w !in s[..i] && w in s[i..]
      decreases |s| - i
    {
      i := i + 1;
    }
  }
}
