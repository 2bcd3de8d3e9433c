/** Many threads on one arena: what happens to it while a thread does not hold its lock (arena.c:373-376, 453-455,
    676-698), and what a thread may do to the runs of others while it does. */
module ArenaThreads {
  import opened Basics
  import opened PageMap
  import opened ArenaChunk
  import opened Avail
  import opened ArenaInv
  import opened LiveRuns
  import opened ChunkSteps
  import opened AllocSteps
  import opened Purge
  import opened Relabel

  const SPACE: nat := 0x1_0000_0000_0000_0000

  /** size_t */
  type Word = x: nat | x < 0x1_0000_0000_0000_0000

  /** The chunk and first page of a run. */
  type Place = (nat, nat)

  /** The fields of an arena that its lock guards. */
  datatype State = State(chunks: map<nat, Chunk>, spare: Option<nat>, dirtyTree: set<Node>, cleanTree: set<Node>,
                         dirtyList: seq<nat>, nactive: nat, ndirty: nat, npurgatory: Word)

  /** How every thread leaves the arena whenever it drops the lock. */
  ghost predicate GoodState(c: Config, s: State) {
    && InvOf(c, s.chunks, s.spare, s.dirtyTree, s.cleanTree, s.dirtyList, s.nactive, s.ndirty)
    && Resting(c, s.chunks, s.spare, None)
  }

  /** An allocated run starts at page s of chunk x. */
  ghost predicate LiveAt(c: Config, m: map<nat, Chunk>, x: nat, s: nat) {
    x in m && s < |m[x].own| && m[x].own[s].start == s && Live(c, m, x, m[x].own[s])
  }

  /** It is still there, with the same pages and map elements. */
  ghost predicate KeptAt(c: Config, m: map<nat, Chunk>, m': map<nat, Chunk>, x: nat, s: nat) {
    x in m && s < |m[x].own| && Live(c, m', x, m[x].own[s]) && SameRun(m[x], m'[x], m[x].own[s])
  }

  ghost predicate OwnedIn(c: Config, m: map<nat, Chunk>, mine: set<Place>) {
    forall x: nat, s: nat :: (x, s) in mine ==> LiveAt(c, m, x, s)
  }

  /** What a thread relies on: while it does not hold the lock nobody touches its runs. */
  ghost predicate Relied(c: Config, m: map<nat, Chunk>, m': map<nat, Chunk>, mine: set<Place>) {
    forall x: nat, s: nat :: (x, s) in mine && LiveAt(c, m, x, s) ==> KeptAt(c, m, m', x, s)
  }

  /** What it guarantees: while it held the lock it did not touch the runs of others, whatever it did to those it had,
      and the runs it made are its own. */
  ghost predicate Guaranteed(c: Config, m: map<nat, Chunk>, had: set<Place>, m': map<nat, Chunk>, mine: set<Place>) {
    && (forall x: nat, s: nat :: LiveAt(c, m, x, s) && (x, s) !in had ==> (x, s) !in mine && KeptAt(c, m, m', x, s))
    && (forall x: nat, s: nat :: LiveAt(c, m', x, s) && (x, s) !in mine ==> (x, s) !in had && LiveAt(c, m, x, s))
  }

  /** What the arena is when a thread takes the lock again: anything the other threads may have made of it. The number
      counts the occasions. */
  ghost predicate Respectful(c: Config, others: (nat, State, set<Place>) -> State) {
    forall n: nat, s: State, mine: set<Place> :: GoodState(c, s) && OwnedIn(c, s.chunks, mine) ==>
      GoodState(c, others(n, s, mine)) && Relied(c, s.chunks, others(n, s, mine).chunks, mine)
  }

  /** chunk_alloc: any chunk the arena does not have, or none. */
  ghost predicate Lawful(c: Config, system: (nat, State) -> Option<NewChunk>) {
    forall n: nat, s: State :: system(n, s).Some? ==> NewOK(c, s.chunks, system(n, s).value)
  }

  // ---------- relying ----------

  lemma KeptSame(c: Config, m: map<nat, Chunk>, x: nat, s: nat)
    requires LiveAt(c, m, x, s)
    ensures KeptAt(c, m, m, x, s)
  {
  }

  /** A run that is kept is the same run, and what is kept twice is kept. */
  lemma KeptIs(c: Config, m: map<nat, Chunk>, m': map<nat, Chunk>, x: nat, s: nat)
    requires LiveAt(c, m, x, s) && KeptAt(c, m, m', x, s)
    ensures LiveAt(c, m', x, s) && m'[x].own[s] == m[x].own[s] && SameRun(m[x], m'[x], m[x].own[s])
  {
  }

  lemma KeptTrans(c: Config, m: map<nat, Chunk>, m1: map<nat, Chunk>, m': map<nat, Chunk>, x: nat, s: nat)
    requires LiveAt(c, m, x, s) && KeptAt(c, m, m1, x, s) && KeptAt(c, m1, m', x, s)
    ensures KeptAt(c, m, m', x, s)
  {
    KeptIs(c, m, m1, x, s);
    hide Live;
  }

  lemma ReliedSame(c: Config, m: map<nat, Chunk>, mine: set<Place>)
    ensures Relied(c, m, m, mine)
  {
    hide LiveAt, KeptAt;
    forall x: nat, s: nat | (x, s) in mine && LiveAt(c, m, x, s) ensures KeptAt(c, m, m, x, s) {
      KeptSame(c, m, x, s);
    }
  }

  lemma ReliedTrans(c: Config, m: map<nat, Chunk>, m1: map<nat, Chunk>, m': map<nat, Chunk>, mine: set<Place>,
                    mine1: set<Place>)
    requires Relied(c, m, m1, mine) && Relied(c, m1, m', mine1)
    ensures Relied(c, m, m', mine * mine1)
  {
    hide LiveAt, KeptAt;
    forall x: nat, s: nat | (x, s) in mine * mine1 && LiveAt(c, m, x, s) ensures KeptAt(c, m, m', x, s) {
      KeptIs(c, m, m1, x, s);
      KeptTrans(c, m, m1, m', x, s);
    }
  }

  lemma ReliedLess(c: Config, m: map<nat, Chunk>, m': map<nat, Chunk>, mine: set<Place>, fewer: set<Place>)
    requires Relied(c, m, m', mine) && fewer <= mine
    ensures Relied(c, m, m', fewer)
  {
    hide LiveAt, KeptAt;
  }

  lemma ReliedOwned(c: Config, m: map<nat, Chunk>, m': map<nat, Chunk>, mine: set<Place>)
    requires OwnedIn(c, m, mine) && Relied(c, m, m', mine)
    ensures OwnedIn(c, m', mine)
  {
    hide LiveAt, KeptAt;
    forall x: nat, s: nat | (x, s) in mine ensures LiveAt(c, m', x, s) {
      KeptIs(c, m, m', x, s);
    }
  }

  // ---------- guaranteeing ----------

  lemma GuaranteedSame(c: Config, m: map<nat, Chunk>, mine: set<Place>)
    ensures Guaranteed(c, m, mine, m, mine)
  {
    hide LiveAt, KeptAt;
    forall x: nat, s: nat | LiveAt(c, m, x, s) ensures KeptAt(c, m, m, x, s) {
      KeptSame(c, m, x, s);
    }
  }

  lemma UndisturbedAt(c: Config, m: map<nat, Chunk>, m': map<nat, Chunk>, gone: set<Place>, made: set<Place>, x: nat,
                      s: nat)
    requires Undisturbed(c, m, m', gone, made)
    ensures LiveAt(c, m, x, s) && (x, s) !in gone ==> KeptAt(c, m, m', x, s)
    ensures LiveAt(c, m', x, s) && (x, s) !in made ==> LiveAt(c, m, x, s) && (x, s) !in gone
  {
    hide SameRun;
  }

  /** A step of the thread that holds the lock: runs it owns go, runs it will own are made. */
  lemma Moved(c: Config, since: map<nat, Chunk>, had: set<Place>, m: map<nat, Chunk>, mine: set<Place>,
              m': map<nat, Chunk>, gone: set<Place>, made: set<Place>)
    requires OwnedIn(c, m, mine) && Guaranteed(c, since, had, m, mine) && Undisturbed(c, m, m', gone, made)
    requires gone <= mine && OwnedIn(c, m', made)
    requires forall x: nat, s: nat :: (x, s) in made ==> (x, s) in gone || !LiveAt(c, m, x, s)
    ensures OwnedIn(c, m', mine - gone + made) && Guaranteed(c, since, had, m', mine - gone + made)
    ensures Relied(c, m, m', mine - gone)
  {
    hide Undisturbed, LiveAt, KeptAt;
    var after := mine - gone + made;
    forall x: nat, s: nat | (x, s) in mine - gone ensures KeptAt(c, m, m', x, s) {
      UndisturbedAt(c, m, m', gone, made, x, s);
    }
    assert Relied(c, m, m', mine - gone);
    forall x: nat, s: nat | (x, s) in after ensures LiveAt(c, m', x, s) {
      if (x, s) !in made { KeptIs(c, m, m', x, s); }
    }
    forall x: nat, s: nat | LiveAt(c, since, x, s) && (x, s) !in had
      ensures (x, s) !in after && KeptAt(c, since, m', x, s)
    {
      KeptIs(c, since, m, x, s);
      UndisturbedAt(c, m, m', gone, made, x, s);
      KeptTrans(c, since, m, m', x, s);
    }
    forall x: nat, s: nat | LiveAt(c, m', x, s) && (x, s) !in after
      ensures (x, s) !in had && LiveAt(c, since, x, s)
    {
      UndisturbedAt(c, m, m', gone, made, x, s);
    }
  }

  // ---------- interleavings ----------

  /** What one thread guarantees is what another one relies on. */
  lemma GuaranteeIsRely(c: Config, m: map<nat, Chunk>, had: set<Place>, m': map<nat, Chunk>, mine: set<Place>,
                        theirs: set<Place>)
    requires Guaranteed(c, m, had, m', mine) && OwnedIn(c, m, theirs) && theirs !! had
    ensures Relied(c, m, m', theirs) && OwnedIn(c, m', theirs) && theirs !! mine
  {
    hide LiveAt, KeptAt;
    forall x: nat, s: nat | (x, s) in theirs ensures (x, s) !in mine && KeptAt(c, m, m', x, s) {}
    assert forall at :: at in theirs ==> (at.0, at.1) !in mine;
    ReliedOwned(c, m, m', theirs);
  }

  /** What a thread does from taking the lock to dropping it: how it leaves the arena, and which runs it owns then. */
  datatype Section = Section(thread: nat, after: State, owned: set<Place>)

  ghost function Has(o: map<nat, set<Place>>, t: nat): set<Place> { if t in o then o[t] else {} }

  /** What the contracts of the operations say of each of their sections. */
  ghost predicate Fair(c: Config, s: State, o: map<nat, set<Place>>, e: Section) {
    && GoodState(c, e.after) && OwnedIn(c, e.after.chunks, e.owned)
    && Guaranteed(c, s.chunks, Has(o, e.thread), e.after.chunks, e.owned)
  }

  lemma FairIs(c: Config, s: State, o: map<nat, set<Place>>, e: Section)
    ensures Fair(c, s, o, e) <==>
      && GoodState(c, e.after) && OwnedIn(c, e.after.chunks, e.owned)
      && Guaranteed(c, s.chunks, Has(o, e.thread), e.after.chunks, e.owned)
  {
  }

  ghost function StateAfter(s: State, run: seq<Section>): State {
    if run == [] then s else run[|run| - 1].after
  }

  ghost function OwnersAfter(o: map<nat, set<Place>>, run: seq<Section>): map<nat, set<Place>> {
    if run == [] then o else OwnersAfter(o, run[..|run| - 1])[run[|run| - 1].thread := run[|run| - 1].owned]
  }

  ghost predicate FairRun(c: Config, s: State, o: map<nat, set<Place>>, run: seq<Section>) {
    run == [] ||
    var before := run[..|run| - 1];
    FairRun(c, s, o, before) && Fair(c, StateAfter(s, before), OwnersAfter(o, before), run[|run| - 1])
  }

  /** Every live run has exactly one owner. */
  ghost predicate Divided(c: Config, m: map<nat, Chunk>, o: map<nat, set<Place>>) {
    && (forall t: nat :: OwnedIn(c, m, Has(o, t)))
    && (forall t: nat, u: nat :: t != u ==> Has(o, t) !! Has(o, u))
    && (forall x: nat, s: nat :: LiveAt(c, m, x, s) ==> SomeOwner(o, (x, s)))
  }

  ghost predicate SomeOwner(o: map<nat, set<Place>>, at: Place) { exists t: nat :: at in Has(o, t) }

  lemma FairKeeps(c: Config, s: State, o: map<nat, set<Place>>, e: Section)
    requires Divided(c, s.chunks, o) && Fair(c, s, o, e)
    ensures Divided(c, e.after.chunks, o[e.thread := e.owned])
    ensures forall t: nat :: t != e.thread ==> Relied(c, s.chunks, e.after.chunks, Has(o, t))
  {
    hide LiveAt, KeptAt, GoodState;
    var o', t0 := o[e.thread := e.owned], e.thread;
    assert Has(o', t0) == e.owned && forall t: nat :: t != t0 ==> Has(o', t) == Has(o, t);
    forall t: nat | t != t0
      ensures Relied(c, s.chunks, e.after.chunks, Has(o, t)) && OwnedIn(c, e.after.chunks, Has(o, t)) &&
        Has(o, t) !! e.owned
    {
      GuaranteeIsRely(c, s.chunks, Has(o, t0), e.after.chunks, e.owned, Has(o, t));
    }
    forall x: nat, p: nat | LiveAt(c, e.after.chunks, x, p) ensures SomeOwner(o', (x, p)) {
      if (x, p) in e.owned {
        assert (x, p) in Has(o', t0);
      } else {
        assert SomeOwner(o, (x, p));
        var t: nat :| (x, p) in Has(o, t);
        assert (x, p) in Has(o', t);
      }
    }
  }

  /** In every interleaving of the sections of any number of threads the arena invariant holds whenever the lock is
      free, and every live run has exactly one owner. */
  lemma {:induction false} EveryInterleaving(c: Config, s: State, o: map<nat, set<Place>>, run: seq<Section>)
    requires GoodState(c, s) && Divided(c, s.chunks, o) && FairRun(c, s, o, run)
    ensures GoodState(c, StateAfter(s, run)) && Divided(c, StateAfter(s, run).chunks, OwnersAfter(o, run))
    decreases |run|
  {
    hide GoodState, Divided, Guaranteed;
    if run != [] {
      var before := run[..|run| - 1];
      EveryInterleaving(c, s, o, before);
      FairKeeps(c, StateAfter(s, before), OwnersAfter(o, before), run[|run| - 1]);
    }
  }

  /** And whatever the others do in the meantime, a thread finds its runs as it left them. */
  lemma {:induction false} OthersRespect(c: Config, s: State, o: map<nat, set<Place>>, run: seq<Section>, t: nat)
    requires GoodState(c, s) && Divided(c, s.chunks, o) && FairRun(c, s, o, run)
    requires forall i :: 0 <= i < |run| ==> run[i].thread != t
    ensures Relied(c, s.chunks, StateAfter(s, run).chunks, Has(o, t)) && Has(OwnersAfter(o, run), t) == Has(o, t)
    decreases |run|
  {
    hide GoodState, Divided, Guaranteed, Relied;
    if run == [] {
      ReliedSame(c, s.chunks, Has(o, t));
    } else {
      var before, e := run[..|run| - 1], run[|run| - 1];
      OthersRespect(c, s, o, before, t);
      EveryInterleaving(c, s, o, before);
      FairKeeps(c, StateAfter(s, before), OwnersAfter(o, before), e);
      ReliedTrans(c, s.chunks, StateAfter(s, before).chunks, e.after.chunks, Has(o, t), Has(o, t));
      assert Has(o, t) * Has(o, t) == Has(o, t);
    }
  }

  /** Sections of other threads than t, which owns `mine`, lead from s to s'. */
  ghost predicate ByOthers(c: Config, t: nat, mine: set<Place>, s: State, s': State) {
    exists o: map<nat, set<Place>>, run: seq<Section> :: RunOfOthers(c, t, mine, s, s', o, run)
  }

  ghost predicate RunOfOthers(c: Config, t: nat, mine: set<Place>, s: State, s': State, o: map<nat, set<Place>>,
                              run: seq<Section>) {
    && Divided(c, s.chunks, o) && Has(o, t) == mine && FairRun(c, s, o, run) && s' == StateAfter(s, run)
    && forall i :: 0 <= i < |run| ==> run[i].thread != t
  }

  /** Others that run sections of the operations are respectful. */
  lemma SectionsAreRespectful(c: Config, t: nat, others: (nat, State, set<Place>) -> State)
    requires forall n: nat, s: State, mine: set<Place> :: GoodState(c, s) && OwnedIn(c, s.chunks, mine) ==>
      ByOthers(c, t, mine, s, others(n, s, mine))
    ensures Respectful(c, others)
  {
    hide GoodState, OwnedIn, Relied, Divided, FairRun;
    forall n: nat, s: State, mine: set<Place> | GoodState(c, s) && OwnedIn(c, s.chunks, mine)
      ensures GoodState(c, others(n, s, mine)) && Relied(c, s.chunks, others(n, s, mine).chunks, mine)
    {
      assert ByOthers(c, t, mine, s, others(n, s, mine));
      var o, run :| RunOfOthers(c, t, mine, s, others(n, s, mine), o, run);
      EveryInterleaving(c, s, o, run);
      OthersRespect(c, s, o, run, t);
    }
  }

  // ---------- what an operation comes to, with other threads in between ----------

  /** npurgatory counts the pages that threads intend to purge, modulo the word size. What one thread has added to it is
      what remains without the contribution of the others. */
  function Share(npurgatory: Word, theirs: int): Word { (npurgatory - theirs) % SPACE }

  /** `share` is what this thread has in npurgatory, `theirs` what others have put there, `interruptions` how often
      others have changed the arena. */
  datatype Snap = Snap(chunks: map<nat, Chunk>, mine: set<Place>, share: Word, theirs: int, interruptions: nat)

  /** The thread gave up the runs in `gone` and got those in `made`; it finds its other runs untouched, it has in
      npurgatory what it had before. */
  ghost predicate Between(c: Config, a: Snap, b: Snap, gone: set<Place>, made: set<Place>) {
    && b.mine == a.mine - gone + made && Relied(c, a.chunks, b.chunks, a.mine - gone)
    && b.share == a.share && a.interruptions <= b.interruptions
    && (a.interruptions == b.interruptions ==> a.theirs == b.theirs)
  }

  lemma BetweenTrans(c: Config, a: Snap, b: Snap, d: Snap, gone1: set<Place>, made1: set<Place>, gone2: set<Place>,
                     made2: set<Place>, gone: set<Place>, made: set<Place>)
    requires Between(c, a, b, gone1, made1) && Between(c, b, d, gone2, made2)
    requires gone1 <= gone && a.mine * gone2 <= gone && d.mine == a.mine - gone + made
    ensures Between(c, a, d, gone, made)
  {
    hide Relied;
    ReliedTrans(c, a.chunks, b.chunks, d.chunks, a.mine - gone1, b.mine - gone2);
    ReliedLess(c, a.chunks, d.chunks, (a.mine - gone1) * (b.mine - gone2), a.mine - gone);
  }

  /** Steps that give up and get nothing. */
  lemma BetweenThen(c: Config, a: Snap, b: Snap, d: Snap, gone: set<Place>, made: set<Place>)
    requires Between(c, a, b, gone, made) && Between(c, b, d, {}, {})
    ensures Between(c, a, d, gone, made)
  {
    assert b.mine - {} + {} == b.mine && a.mine * {} == {};
    BetweenTrans(c, a, b, d, gone, made, {}, {}, gone, made);
  }

  lemma BetweenFirst(c: Config, a: Snap, b: Snap, d: Snap, gone: set<Place>, made: set<Place>)
    requires Between(c, a, b, {}, {}) && Between(c, b, d, gone, made)
    ensures Between(c, a, d, gone, made)
  {
    assert a.mine - {} + {} == a.mine;
    BetweenTrans(c, a, b, d, {}, {}, gone, made, gone, made);
  }

  lemma BetweenIs(c: Config, a: Snap, b: Snap, gone: set<Place>, made: set<Place>)
    requires Between(c, a, b, gone, made)
    ensures b.mine == a.mine - gone + made && Relied(c, a.chunks, b.chunks, a.mine - gone) && b.share == a.share
    ensures a.interruptions <= b.interruptions && (a.interruptions == b.interruptions ==> a.theirs == b.theirs)
  {
  }

  /** A further step that gives up and gets nothing, while the share is not yet settled. */
  lemma BetweenMore(c: Config, a: Snap, b: Snap, d: Snap)
    requires Between(c, a, b.(share := a.share), {}, {}) && Between(c, b, d, {}, {})
    ensures Between(c, a, d.(share := a.share), {}, {})
  {
    assert Between(c, b.(share := a.share), d.(share := a.share), {}, {});
    hide Between;
    BetweenThen(c, a, b.(share := a.share), d.(share := a.share), {}, {});
  }

  lemma BetweenSame(c: Config, a: Snap)
    ensures Between(c, a, a, {}, {})
  {
    ReliedSame(c, a.chunks, a.mine - {});
    hide Relied;
  }

  /** A step of this thread while it holds the lock. */
  lemma BetweenOwn(c: Config, a: Snap, b: Snap, gone: set<Place>, made: set<Place>)
    requires Relied(c, a.chunks, b.chunks, a.mine - gone) && b == a.(chunks := b.chunks, mine := a.mine - gone + made)
    ensures Between(c, a, b, gone, made)
  {
    hide Relied;
  }

  /** The step of the others. */
  lemma BetweenOthers(c: Config, a: Snap, b: Snap)
    requires Relied(c, a.chunks, b.chunks, a.mine) &&
      b == a.(chunks := b.chunks, theirs := b.theirs, interruptions := b.interruptions)
    requires b.interruptions == a.interruptions + 1 || (b.interruptions == a.interruptions && b.theirs == a.theirs)
    ensures Between(c, a, b, {}, {})
  {
    hide Relied;
    assert a.mine - {} == a.mine && a.mine - {} + {} == a.mine;
  }

  /** Conversion to size_t. */
  function Wrap(x: int): Word { x % SPACE }

  /** The difference of two words. */
  function Unsigned(a: nat, b: Word): nat { if a >= b then a - b else a + SPACE - b }

  lemma UnsignedIs(a: nat, b: Word)
    ensures a >= b ==> Unsigned(a, b) == a - b
    ensures a <= b + Unsigned(a, b)
    ensures a < SPACE ==> Unsigned(a, b) < SPACE && Wrap(b + Unsigned(a, b)) == a
  {
  }

  /** The share of this thread when it intends to purge np pages more. */
  ghost function Owing(npurgatory: Word, theirs: int, np: int): Word { (npurgatory - np - theirs) % SPACE }

  lemma OwingMore(p: Word, theirs: int, np: int, k: int)
    ensures Owing(Wrap(p + k), theirs, np + k) == Owing(p, theirs, np)
  {
  }

  lemma OwingLess(p: Word, theirs: int, np: int, k: int)
    ensures Owing(Wrap(p - k), theirs, np - k) == Owing(p, theirs, np)
  {
    OwingMore(p, theirs, np, -k);
    assert np + -k == np - k && p + -k == p - k;
  }

  lemma OwingAll(p: Word, theirs: int, np: int)
    ensures Share(Wrap(p - np), theirs) == Owing(p, theirs, np)
  {
  }

  lemma OwingNone(p: Word, theirs: int)
    ensures Owing(p, theirs, 0) == Share(p, theirs)
  {
  }

  lemma OwingSame(p: Word, theirs: int, p': Word, theirs': int, np: int)
    requires Share(p, theirs) == Share(p', theirs')
    ensures Owing(p, theirs, np) == Owing(p', theirs', np)
  {
  }

  lemma ShareSame(p: Word, theirs: int, p': Word)
    requires Share(p, theirs) == Share(p', theirs)
    ensures p == p'
  {
  }

  lemma ShareOthers(p: Word, theirs: int, p': Word)
    ensures Share(p', theirs + (p' - p)) == Share(p, theirs)
  {
  }

  // ---------- runs held for a purge ----------

  lemma HeldPlaces(x: nat, runs: seq<nat>)
    ensures forall y: nat, s: nat :: (y, s) in Places(x, runs) <==> y == x && s in runs
  {
  }

  lemma HeldKept(c: Config, m: map<nat, Chunk>, m': map<nat, Chunk>, x: nat, s: nat, len: nat)
    requires Held(c, m, x, s, len) && (LiveAt(c, m, x, s) ==> KeptAt(c, m, m', x, s))
    ensures Held(c, m', x, s, len) && x in m && SameRun(m[x], m'[x], Run(s, len, Large, false))
  {
  }

  /** While others step in, held runs stay held. */
  lemma HoldingKept(c: Config, m: map<nat, Chunk>, m': map<nat, Chunk>, mine: set<Place>, x: nat, own: seq<Run>,
                    runs: seq<nat>, unzeroed: bool)
    requires Holding(c, m, x, own, runs, unzeroed) && Relied(c, m, m', mine) && Places(x, runs) <= mine
    ensures Holding(c, m', x, own, runs, unzeroed)
  {
    HeldPlaces(x, runs);
    hide Held, LiveAt, KeptAt, Places;
    forall s | s in runs ensures Held(c, m', x, s, LenAt(own, s)) && Flagged(m', x, s, LenAt(own, s), unzeroed) {
      assert (x, s) in mine;
      HeldKept(c, m, m', x, s, LenAt(own, s));
      HeldLive(c, m', x, s, LenAt(own, s));
    }
  }

  lemma HeldLive(c: Config, m: map<nat, Chunk>, x: nat, s: nat, len: nat)
    requires Held(c, m, x, s, len)
    ensures x in m && LiveAt(c, m, x, s)
  {
  }

  lemma AllHeldKept(c: Config, m: map<nat, Chunk>, m': map<nat, Chunk>, mine: set<Place>, x: nat, own: seq<Run>,
                    runs: seq<nat>)
    requires runs != [] && AllHeld(c, m, x, own, runs) && Relied(c, m, m', mine) && Places(x, runs[1..]) <= mine
    ensures AllHeld(c, m', x, own, runs[1..])
  {
    HeldPlaces(x, runs[1..]);
    hide Held, LiveAt, KeptAt, Places;
    forall s | s in runs[1..] ensures Held(c, m', x, s, LenAt(own, s)) && Pristine(m', x, s, LenAt(own, s)) {
      assert (x, s) in mine && s in runs;
      HeldKept(c, m, m', x, s, LenAt(own, s));
      HeldLive(c, m', x, s, LenAt(own, s));
    }
  }

  lemma PristineStays(c: Config, m: map<nat, Chunk>, m': map<nat, Chunk>, mine: set<Place>, x: nat, own: seq<Run>,
                      runs: seq<nat>, unzeroed: bool, k: nat)
    requires Holding(c, m, x, own, runs, unzeroed) && PristineUpTo(m, x, own, runs, k)
    requires Relied(c, m, m', mine) && Places(x, runs) <= mine
    ensures PristineUpTo(m', x, own, runs, k)
  {
    HeldPlaces(x, runs);
    hide Held, LiveAt, KeptAt, Places, Flagged;
    forall j | 0 <= j < k ensures Pristine(m', x, runs[j], LenAt(own, runs[j])) {
      assert runs[j] in runs && (x, runs[j]) in mine;
      HeldKept(c, m, m', x, runs[j], LenAt(own, runs[j]));
      HeldLive(c, m', x, runs[j], LenAt(own, runs[j]));
      PristineOf(m, m', x, runs[j], LenAt(own, runs[j]));
    }
  }

  lemma PristineOf(m: map<nat, Chunk>, m': map<nat, Chunk>, x: nat, s: nat, len: nat)
    requires Pristine(m, x, s, len) && x in m' && SameRun(m[x], m'[x], Run(s, len, Large, false))
    ensures Pristine(m', x, s, len)
  {
  }

  lemma HoldingOne(c: Config, m: map<nat, Chunk>, x: nat, own: seq<Run>, runs: seq<nat>, unzeroed: bool, i: nat)
    requires Holding(c, m, x, own, runs, unzeroed) && i < |runs|
    ensures OwnedIn(c, m, {(x, runs[i])})
  {
    assert runs[i] in runs;
    HeldLive(c, m, x, runs[i], LenAt(own, runs[i]));
  }

  lemma BetweenHeld(c: Config, a: Snap, held: set<Place>)
    requires held <= a.mine
    ensures Between(c, a, a, held, held)
  {
    ReliedSame(c, a.chunks, a.mine - held);
    hide Relied;
  }

  /** A further step on one of the held runs. */
  lemma BetweenWithin(c: Config, a: Snap, b: Snap, d: Snap, held: set<Place>, at: Place)
    requires Between(c, a, b, held, held) && Between(c, b, d, {at}, {at}) && at in held && held <= a.mine
    ensures Between(c, a, d, held, held) && held <= d.mine
  {
    hide Relied;
    assert d.mine == a.mine - held + held;
    BetweenTrans(c, a, b, d, held, held, {at}, {at}, held, held);
  }

  lemma HoldingOwned(c: Config, m: map<nat, Chunk>, x: nat, own: seq<Run>, runs: seq<nat>, unzeroed: bool)
    requires Holding(c, m, x, own, runs, unzeroed)
    ensures OwnedIn(c, m, Places(x, runs))
  {
    HeldPlaces(x, runs);
    hide Held, Places, LiveAt, Flagged;
    forall s | s in runs ensures LiveAt(c, m, x, s) {
      HeldLive(c, m, x, s, LenAt(own, s));
    }
  }

  lemma NotLiveIs(c: Config, m: map<nat, Chunk>, x: nat, runs: seq<nat>)
    requires NotLiveAt(c, m, x, runs)
    ensures forall y: nat, s: nat :: (y, s) in Places(x, runs) ==> !LiveAt(c, m, y, s)
  {
  }

  /** A new run where there was none. */
  lemma MadeIs(c: Config, m: map<nat, Chunk>, m': map<nat, Chunk>, x: nat, s: nat, r: Run)
    requires Live(c, m', x, r) && r.start == s
    ensures OwnedIn(c, m', {(x, s)})
    ensures Vacant(c, m, (x, s)) ==> !LiveAt(c, m, x, s)
  {
  }

  /** Runs may be replaced where they are. */
  lemma UndisturbedMore(c: Config, m: map<nat, Chunk>, m1: map<nat, Chunk>, m': map<nat, Chunk>, at: Place,
      all: set<Place>)
    requires Undisturbed(c, m, m1, all, all) && Undisturbed(c, m1, m', {at}, {at}) && at in all
    ensures Undisturbed(c, m, m', all, all)
  {
  }

  lemma UndisturbedAll(c: Config, m: map<nat, Chunk>, all: set<Place>)
    requires OwnedIn(c, m, all)
    ensures Undisturbed(c, m, m, all, all)
  {
  }

  lemma RunPlace(x: nat, runs: seq<nat>, i: nat)
    requires i < |runs|
    ensures (x, runs[i]) in Places(x, runs)
  {
  }

  lemma NextPlaces(c: Config, m: map<nat, Chunk>, x: nat, own: seq<Run>, runs: seq<nat>)
    requires runs != [] && AllHeld(c, m, x, own, runs)
    ensures Places(x, runs) == {(x, runs[0])} + Places(x, runs[1..]) && (x, runs[0]) !in Places(x, runs[1..])
  {
    assert forall s :: s in runs <==> s == runs[0] || s in runs[1..];
  }

  lemma NewPlaces(c: Config, m: map<nat, Chunk>, mine: set<Place>, held: set<Place>)
    requires OwnedIn(c, m, mine) && forall x: nat, s: nat :: (x, s) in held ==> !LiveAt(c, m, x, s)
    ensures held !! mine
  {
    assert forall at :: at in held ==> (at.0, at.1) !in mine;
  }

  /** The sections of a purge together. */
  lemma PurgeBetween(c: Config, a: Snap, b: Snap, b2: Snap, b3: Snap, d: Snap, held: set<Place>)
    requires Between(c, a, b, {}, held) && Between(c, b, b2, {}, {}) && Between(c, b2, b3, held, held)
    requires Between(c, b3, d, held, {}) && held !! a.mine
    ensures Between(c, a, d, {}, {})
  {
    hide Relied;
    BetweenThen(c, a, b, b2, {}, held);
    assert b2.mine == a.mine + held;
    BetweenTrans(c, a, b2, b3, {}, held, held, held, {}, held);
    BetweenTrans(c, a, b3, d, {}, held, held, {}, {}, {});
  }

  lemma PurgeQuiet(c: Config, m0: map<nat, Chunk>, m1: map<nat, Chunk>, m2: map<nat, Chunk>, m3: map<nat, Chunk>,
                   x: nat, runs: seq<nat>)
    requires Undisturbed(c, m0, m1, {}, Places(x, runs)) && NotLiveAt(c, m0, x, runs)
    requires Undisturbed(c, m1, m2, Places(x, runs), Places(x, runs)) && Undisturbed(c, m2, m3, Places(x, runs), {})
    ensures Undisturbed(c, m0, m3, {}, {})
  {
    AdvisedQuiet(c, m0, m1, m2, x, runs);
    forall y: nat, r: Run | Live(c, m0, y, r)
      ensures Live(c, m3, y, r) && SameRun(m0[y], m3[y], r)
    {
      assert (y, r.start) !in Places(x, runs);
    }
  }

  lemma GivenBackIs(ch: Chunk, s: nat, n: nat, zero: seq<bool>)
    ensures GivenBack(ch, s, n, zero) == ch.(zero := zero, touched := Untouched(ch.touched, s, n))
  {
  }

  // ---------- allocating ----------

  function MadeOf(r: Option<Place>): set<Place> { if r.Some? then {r.value} else {} }

  lemma MadeIsOf(r: Option<Place>)
    ensures MadeOf(r) == if r.Some? then {r.value} else {}
  {
  }

  lemma VacantMine(c: Config, m: map<nat, Chunk>, mine: set<Place>, x: nat, s: nat)
    requires OwnedIn(c, m, mine) && Vacant(c, m, (x, s))
    ensures (x, s) !in mine
  {
  }

  lemma GivenIs(c: Config, m0: map<nat, Chunk>, m: map<nat, Chunk>, at: Place, need: nat, kind: Kind, zero: bool)
    requires AllocatedIn(c, m0, m, at, need, kind, zero)
    ensures Given(c, m, at, need, kind, zero)
  {
  }

  lemma MaxPagesIs(c: Config)
    requires c.bias <= c.npages
    ensures c.MaxPages() == c.npages - c.bias
  {
  }

  // ---------- trimming ----------

  /** The two runs of a run that was cut. */
  lemma CutPlaces(c: Config, m: map<nat, Chunk>, m': map<nat, Chunk>, mine: set<Place>, x: nat, ind: nat, head: nat)
    requires x in m' && LargeAt(c, m'[x], ind) && LargeAt(c, m'[x], ind + head) && Vacant(c, m, (x, ind + head))
    requires (x, ind) in mine && (x, ind + head) !in mine
    ensures OwnedIn(c, m', Pair(x, ind, ind + head)) && !LiveAt(c, m, x, ind + head)
    ensures forall y: nat, s: nat :: (y, s) in Pair(x, ind, ind + head) ==> (y, s) in {(x, ind)} || !LiveAt(c, m, y, s)
    ensures mine + {(x, ind + head)} == mine - {(x, ind)} + Pair(x, ind, ind + head)
  {
    PairHas(x, ind, ind + head);
    LargeLive(c, m', x, ind);
    LargeLive(c, m', x, ind + head);
  }

  lemma CutMine(mine: set<Place>, mine': set<Place>, x: nat, ind: nat, other: nat)
    requires mine' == mine - {(x, ind)} + Pair(x, ind, other)
    ensures (x, ind) in mine' && (x, other) in mine'
  {
  }

  lemma TrimMine(c: Config, a: Snap, b: Snap, d: Snap, x: nat, ind: nat, other: nat, kept: nat, freed: nat)
    requires Between(c, a, b, {(x, ind)}, Pair(x, ind, other)) && Between(c, b, d, {(x, freed)}, {})
    requires (kept == ind && freed == other) || (kept == other && freed == ind)
    requires ind != other && (x, other) !in a.mine
    ensures Between(c, a, d, {(x, ind)}, {(x, kept)}) && (x, kept) in d.mine
  {
    hide Relied;
    PairHas(x, ind, other);
    assert d.mine == a.mine - {(x, ind)} + {(x, kept)};
    BetweenTrans(c, a, b, d, {(x, ind)}, Pair(x, ind, other), {(x, freed)}, {}, {(x, ind)}, {(x, kept)});
  }

  /** Whatever others do, the run that is kept holds what it held. */
  lemma TrimKept(c: Config, m0: map<nat, Chunk>, m1: map<nat, Chunk>, m2: map<nat, Chunk>, mine: set<Place>, x: nat,
                 ind: nat, kept: nat, len: nat, d: bool)
    requires x in m0 && x in m1 && ind < |m0[x].own| && m0[x].own[ind].dirty == d && kept < |m1[x].own|
    requires LargeAt(c, m1[x], kept) && m1[x].own[kept] == Run(kept, len, Large, d)
    requires m1[x].zero == m0[x].zero && m1[x].touched == m0[x].touched
    requires Relied(c, m1, m2, mine) && (x, kept) in mine
    ensures KeptPart(c, m0, m2, x, ind, kept, len)
  {
    LargeLive(c, m1, x, kept);
    assert LiveAt(c, m1, x, kept);
    KeptIs(c, m1, m2, x, kept);
  }

  /** Part of a run that was just allocated. */
  lemma GivenPart(c: Config, m1: map<nat, Chunk>, m2: map<nat, Chunk>, x: nat, ind: nat, need: nat, kept: nat, len: nat,
                  zero: bool)
    requires Given(c, m1, (x, ind), need, Large, zero) && KeptPart(c, m1, m2, x, ind, kept, len)
    requires ind <= kept && kept + len <= ind + need
    ensures Given(c, m2, (x, kept), len, Large, zero)
  {
    var d := m1[x].own[ind].dirty;
    assert Live(c, m2, (x, kept).0, Run((x, kept).1, len, Large, d));
    assert Run(kept, len, Large, d).End() == kept + len;
  }

  /** The run just allocated is a large run of the arena. */
  lemma GivenLarge(c: Config, chunks: map<nat, Chunk>, spare: Option<nat>, dt: set<Node>, ct: set<Node>, dl: seq<nat>,
                   na: nat, nd: nat, x: nat, ind: nat, need: nat, zero: bool) returns (d: bool)
    requires InvOf(c, chunks, spare, dt, ct, dl, na, nd) && Given(c, chunks, (x, ind), need, Large, zero)
    ensures x in chunks && LargeAt(c, chunks[x], ind) && ind < |chunks[x].own|
    ensures chunks[x].own[ind] == Run(ind, need, Large, d) && Pristine(chunks, x, ind, need)
  {
    d :| Live(c, chunks, (x, ind).0, Run((x, ind).1, need, Large, d));
  }

  lemma OwnPlace(mine: set<Place>, x: nat, s: nat)
    ensures (x, s) in mine - {} + {(x, s)}
  {
  }

  lemma GivenDirty(c: Config, m: map<nat, Chunk>, x: nat, ind: nat, len: nat, zero: bool) returns (d: bool)
    requires Given(c, m, (x, ind), len, Large, zero)
    ensures Live(c, m, x, Run(ind, len, Large, d))
  {
    d :| Live(c, m, (x, ind).0, Run((x, ind).1, len, Large, d));
  }

  lemma GivenLive(c: Config, chunks: map<nat, Chunk>, spare: Option<nat>, dt: set<Node>, ct: set<Node>, dl: seq<nat>,
                  na: nat, nd: nat, x: nat, ind: nat, len: nat, zero: bool, d: bool)
    requires InvOf(c, chunks, spare, dt, ct, dl, na, nd) && Given(c, chunks, (x, ind), len, Large, zero)
    requires Live(c, chunks, x, Run(ind, len, Large, d))
    ensures x in chunks && ind < |chunks[x].own| && LargeAt(c, chunks[x], ind)
    ensures chunks[x].own[ind] == Run(ind, len, Large, d) && Pristine(chunks, x, ind, len)
  {
  }

  /** Nothing is trimmed. */
  lemma TrimNone(c: Config, m: map<nat, Chunk>, x: nat, ind: nat, len: nat, d: bool)
    requires x in m && ind < |m[x].own| && m[x].own[ind].dirty == d && Live(c, m, x, Run(ind, len, Large, d))
    ensures Trimmed(c, m, m, x, ind, ind, len)
  {
  }

  /** The run that is kept of one just allocated. */
  lemma KeptGiven(c: Config, m: map<nat, Chunk>, m': map<nat, Chunk>, x: nat, ind: nat, len: nat, kept: nat, size: nat,
                  zero: bool, d: bool)
    requires Given(c, m, (x, ind), len, Large, zero) && KeptPart(c, m, m', x, ind, kept, size)
    requires x in m && ind < |m[x].own| && m[x].own[ind].dirty == d && ind <= kept && kept + size <= ind + len
    ensures Given(c, m', (x, kept), size, Large, zero) && Live(c, m', x, Run(kept, size, Large, d))
  {
    GivenPart(c, m, m', x, ind, len, kept, size, zero);
  }

  /** Both trims, by a thread that did not have the run before. */
  lemma PallocBetween(c: Config, a: Snap, b: Snap, b2: Snap, d: Snap, m1: map<nat, Chunk>, x: nat, ind: nat, kept: nat)
    requires Between(c, a, b, {}, {(x, ind)}) && Between(c, b, b2, {(x, ind)}, {(x, kept)})
    requires Between(c, b2, d, {(x, kept)}, {(x, kept)}) && (x, ind) !in a.mine && OwnedIn(c, m1, b.mine)
    requires x in m1 && ind < |m1[x].own| && LargeAt(c, m1[x], ind) && ind <= kept < ind + m1[x].own[ind].len
    ensures Between(c, a, d, {}, {(x, kept)}) && (x, kept) !in a.mine
  {
    if kept != ind {
      InsideVacant(c, m1, x, ind, kept);
      VacantMine(c, m1, b.mine, x, kept);
    }
    hide Relied, OwnedIn, LargeAt, Vacant;
    assert b.mine == a.mine + {(x, ind)};
    assert b2.mine == a.mine - {} + {(x, kept)};
    BetweenTrans(c, a, b, b2, {}, {(x, ind)}, {(x, ind)}, {(x, kept)}, {}, {(x, kept)});
    assert d.mine == a.mine - {} + {(x, kept)};
    BetweenTrans(c, a, b2, d, {}, {(x, kept)}, {(x, kept)}, {(x, kept)}, {}, {(x, kept)});
  }

  // ---------- freeing a small run, growing a large one ----------

  lemma SameMine(mine: set<Place>, at: Place)
    requires at in mine
    ensures mine == mine - {at} + {at}
  {
  }

  lemma LargeOwned(c: Config, m: map<nat, Chunk>, x: nat, s: nat)
    requires x in m && LargeAt(c, m[x], s)
    ensures OwnedIn(c, m, {(x, s)})
  {
    LargeLive(c, m, x, s);
  }

  lemma BetweenNone(c: Config, a: Snap, at: Place)
    requires at in a.mine
    ensures Between(c, a, a, {at}, {at})
  {
    ReliedSame(c, a.chunks, a.mine - {at});
    hide Relied;
  }

  lemma ReMine(c: Config, a: Snap, b: Snap, d: Snap, at: Place)
    requires Between(c, a, b, {at}, {at}) && Between(c, b, d, {at}, {at}) && at in a.mine
    ensures Between(c, a, d, {at}, {at}) && at in d.mine
  {
    hide Relied;
    assert d.mine == a.mine - {at} + {at};
    BetweenTrans(c, a, b, d, {at}, {at}, {at}, {at}, {at}, {at});
  }

  lemma DropMine(c: Config, a: Snap, b: Snap, d: Snap, at: Place)
    requires Between(c, a, b, {at}, {at}) && Between(c, b, d, {at}, {})
    ensures Between(c, a, d, {at}, {})
  {
    hide Relied;
    assert d.mine == a.mine - {at} + {};
    BetweenTrans(c, a, b, d, {at}, {at}, {at}, {}, {at}, {});
  }

  lemma JoinPlaces(c: Config, m: map<nat, Chunk>, m': map<nat, Chunk>, mine: set<Place>, x: nat, ind: nat, e: nat,
      r: Run)
    requires Live(c, m', x, r) && r.start == ind && (x, ind) in mine && (x, e) in mine && ind != e
    ensures Pair(x, ind, e) <= mine && mine - {(x, e)} == mine - Pair(x, ind, e) + {(x, ind)}
    ensures OwnedIn(c, m', {(x, ind)}) && (x, ind) in Pair(x, ind, e)
  {
    MadeIs(c, m, m', x, ind, r);
  }

  lemma JoinBetween(c: Config, a: Snap, b: Snap, d: Snap, x: nat, ind: nat, e: nat)
    requires Between(c, a, b, {}, {(x, e)}) && Between(c, b, d, Pair(x, ind, e), {(x, ind)})
    requires (x, e) !in a.mine && (x, ind) in a.mine
    ensures Between(c, a, d, {(x, ind)}, {(x, ind)})
  {
    hide Relied;
    assert d.mine == a.mine - {(x, ind)} + {(x, ind)};
    BetweenTrans(c, a, b, d, {}, {(x, e)}, Pair(x, ind, e), {(x, ind)}, {(x, ind)}, {(x, ind)});
  }
}
