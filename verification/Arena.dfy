/** The page-run allocator of a jemalloc arena (arena.c). Sizes are in pages. The methods are run by one thread; others
    step in wherever it drops the lock of the arena. */
module ArenaRuns {
  import opened Basics
  import opened PageMap
  import opened ArenaChunk
  import opened Avail
  import opened ArenaInv
  import opened FreeSteps
  import opened LiveRuns
  import opened ChunkSteps
  import opened Relabel
  import opened Purge
  import opened AllocSteps
  import opened ArenaThreads

  class Arena {
    const cfg: Config
    /** JEMALLOC_PURGE_MADVISE_DONTNEED: purged pages read as zero */
    const purgeZeroes: bool
    /** opt_lg_dirty_mult */
    const lgDirtyMult: int
    /** What other threads make of the arena while this one does not hold its lock, and what chunk_alloc returns. */
    const others: (nat, State, set<Place>) -> State
    const system: (nat, State) -> Option<NewChunk>

    var chunks: map<nat, Chunk>
    var spare: Option<nat>
    var dirtyTree: set<Node>
    var cleanTree: set<Node>
    var dirtyList: seq<nat>
    var nactive: nat
    var ndirty: nat
    var npurgatory: Word

    /** The runs that belong to this thread, and how often it has dropped the lock. */
    var mine: set<Place>
    var drops: nat

    /** The chunks and its runs when it last took the lock. */
    ghost var since: map<nat, Chunk>
    ghost var had: set<Place>
    /** What others have added to npurgatory, how often they have changed the arena, how often chunk_alloc has
        failed. */
    ghost var theirs: int
    ghost var interruptions: nat
    ghost var refusals: nat
    /** The dirty pages it has purged, its part of stats.purged, and those of the last chunk it purged. */
    ghost var purged: nat
    ghost var latest: nat

    ghost predicate Inv()
      reads `chunks, `spare, `dirtyTree, `cleanTree, `dirtyList, `nactive, `ndirty
    {
      InvOf(cfg, chunks, spare, dirtyTree, cleanTree, dirtyList, nactive, ndirty)
    }

    /** Inv is InvOf of the fields. */
    lemma HasInv()
      ensures Inv() <==> InvOf(cfg, chunks, spare, dirtyTree, cleanTree, dirtyList, nactive, ndirty)
    {
    }

    /** The others respect the runs of this thread. */
    ghost predicate Env() { Respectful(cfg, others) && Lawful(cfg, system) }

    /** Since it took the lock this thread has respected the runs of the others. */
    ghost predicate Mine()
      reads `chunks, `mine, `since, `had
    {
      Env() && OwnedIn(cfg, chunks, mine) && Guaranteed(cfg, since, had, chunks, mine)
    }

    lemma MineIs()
      ensures Mine() <==> Env() && OwnedIn(cfg, chunks, mine) && Guaranteed(cfg, since, had, chunks, mine)
    {
    }

    function Now(): State
      reads `chunks, `spare, `dirtyTree, `cleanTree, `dirtyList, `nactive, `ndirty, `npurgatory
    {
      State(chunks, spare, dirtyTree, cleanTree, dirtyList, nactive, ndirty, npurgatory)
    }

    ghost function Snapshot(): Snap
      reads `chunks, `mine, `npurgatory, `theirs, `interruptions
    {
      Snap(chunks, mine, Share(npurgatory, theirs), theirs, interruptions)
    }

    lemma SnapshotIs()
      ensures Snapshot() == Snap(chunks, mine, Share(npurgatory, theirs), theirs, interruptions)
    {
    }

    lemma NowIs()
      ensures Now() == State(chunks, spare, dirtyTree, cleanTree, dirtyList, nactive, ndirty, npurgatory)
      ensures GoodState(cfg, Now()) <==> Inv() && Resting(cfg, chunks, spare, None)
    {
    }

    /** What becomes of a good state while the lock is free. */
    lemma OthersAre(n: nat)
      requires Env() && Inv() && Resting(cfg, chunks, spare, None) && OwnedIn(cfg, chunks, mine)
      ensures var s := others(n, Now(), mine); GoodState(cfg, s) && Relied(cfg, chunks, s.chunks, mine)
    {
      hide InvOf, Resting, OwnedIn, Relied;
    }

    /** Wherever it drops the lock, what it has done since it took it is a section of a fair run. */
    lemma SectionIsFair(s: State, o: map<nat, set<Place>>, t: nat)
      requires Inv() && Resting(cfg, chunks, spare, None) && Mine() && s.chunks == since && Has(o, t) == had
      ensures Fair(cfg, s, o, Section(t, Now(), mine))
    {
      NowIs();
      MineIs();
      hide *;
      FairIs(cfg, s, o, Section(t, Now(), mine));
    }

    /** The lock is dropped and taken again. */
    method Drop()
      requires Inv() && Resting(cfg, chunks, spare, None) && Mine()
      modifies this
      ensures Inv() && Resting(cfg, chunks, spare, None) && Mine()
      ensures Between(cfg, old(Snapshot()), Snapshot(), {}, {}) && mine == old(mine)
      ensures since == chunks && had == mine && refusals == old(refusals) && drops == old(drops) + 1
      ensures purged == old(purged) && latest == old(latest)
      ensures Now() == others(old(drops), old(Now()), old(mine))
      ensures interruptions == old(interruptions) <==> Now() == old(Now())
    {
      hide *;
      MineIs();
      SnapshotIs();
      NowIs();
      OthersAre(drops);
      ghost var before, a, p := Now(), Snapshot(), npurgatory;
      var s := others(drops, Now(), mine);
      ReliedOwned(cfg, chunks, s.chunks, mine);
      GuaranteedSame(cfg, s.chunks, mine);
      Load(s);
      NowIs();
      ShareOthers(p, theirs, npurgatory);
      Resumed(s == before, npurgatory - p);
      NowIs();
      SnapshotIs();
      MineIs();
      BetweenOthers(cfg, a, Snapshot());
    }

    /** The thread has the lock again. */
    method Resumed(ghost same: bool, ghost added: int)
      modifies `drops, `since, `had, `theirs, `interruptions
      ensures drops == old(drops) + 1 && since == chunks && had == mine
      ensures theirs == old(theirs) + added && interruptions == old(interruptions) + if same then 0 else 1
    {
      drops := drops + 1;
      since := chunks;
      had := mine;
      theirs := theirs + added;
      interruptions := interruptions + if same then 0 else 1;
    }

    method Load(s: State)
      modifies `chunks, `spare, `dirtyTree, `cleanTree, `dirtyList, `nactive, `ndirty, `npurgatory
      ensures Now() == s
    {
      chunks, spare, dirtyTree, cleanTree := s.chunks, s.spare, s.dirtyTree, s.cleanTree;
      dirtyList, nactive, ndirty, npurgatory := s.dirtyList, s.nactive, s.ndirty, s.npurgatory;
    }

    /** The thread has taken the lock. */
    ghost method Begin()
      requires Env() && OwnedIn(cfg, chunks, mine)
      modifies `since, `had
      ensures Mine() && since == chunks && had == mine
    {
      hide *;
      since, had := chunks, mine;
      GuaranteedSame(cfg, chunks, mine);
      MineIs();
    }

    /** A step of this thread, from the chunks m0 and the runs mine0. */
    lemma Stepped(m0: map<nat, Chunk>, mine0: set<Place>, gone: set<Place>, made: set<Place>)
      requires Env() && OwnedIn(cfg, m0, mine0) && Guaranteed(cfg, since, had, m0, mine0)
      requires Undisturbed(cfg, m0, chunks, gone, made) && gone <= mine0 && OwnedIn(cfg, chunks, made)
      requires forall x: nat, s: nat :: (x, s) in made ==> (x, s) in gone || !LiveAt(cfg, m0, x, s)
      requires mine == mine0 - gone + made
      ensures Mine() && Between(cfg, Snapshot().(chunks := m0, mine := mine0), Snapshot(), gone, made)
    {
      hide *;
      Moved(cfg, since, had, m0, mine0, chunks, gone, made);
      MineIs();
      SnapshotIs();
      BetweenOwn(cfg, Snapshot().(chunks := m0, mine := mine0), Snapshot(), gone, made);
    }

    /** A step in which no run changes hands. */
    lemma SteppedAside(m0: map<nat, Chunk>)
      requires Env() && OwnedIn(cfg, m0, mine) && Guaranteed(cfg, since, had, m0, mine) &&
        Undisturbed(cfg, m0, chunks, {}, {})
      ensures Mine() && Between(cfg, Snapshot().(chunks := m0), Snapshot(), {}, {})
    {
      hide *;
      assert mine == mine - {} + {};
      NoneOwned();
      SnapshotIs();
      Stepped(m0, mine, {}, {});
    }

    lemma NothingMore()
      ensures forall s: set<Place> :: s + {} == s && s - {} == s
    {
    }

    lemma NoneOwned()
      ensures OwnedIn(cfg, chunks, {})
    {
    }

    /** memset, when the caller wants zeroed memory, of the pages of a run that may hold data (arena.c:262-298). */
    static method ZeroRun(bits: seq<Bits>, zero: seq<bool>, ind: nat, need: nat, dirty: bool, wanted: bool)
      returns (z: seq<bool>)
      requires ind + need <= |bits| == |zero|
      requires !dirty ==> ReallyZero(bits, zero, ind, need)
      ensures Zeroed(zero, z, ind, need, wanted)
    {
      z := zero;
      if !wanted { return; }
      for i := 0 to need
        invariant SameOutside(zero, z, ind, ind + need)
        invariant AllZero(z, ind, i)
        invariant forall p :: ind + i <= p < ind + need ==> z[p] == zero[p]
      {
        if dirty || bits[ind + i].unzeroed { z := z[ind + i := true]; }
      }
    }

    /** The map elements of a new small run (arena.c:306-337). */
    static method MarkSmall(bits: seq<Bits>, ind: nat, need: nat, bin: nat, dirty: bool) returns (b: seq<Bits>)
      requires 0 < need && ind + need <= |bits|
      ensures SameOutside(bits, b, ind, ind + need)
      ensures b[ind].dirty == b[ind + need - 1].dirty == dirty
      ensures forall p :: ind <= p < ind + need ==>
                b[p].inUse && !b[p].large && b[p].num == p - ind && b[p].bin == bin && b[p].unzeroed == bits[p].unzeroed
    {
      b := bits[ind := SmallSet(bits[ind], 0, bin, dirty)];
      var i := 1;
      while i < need - 1
        invariant 1 <= i && (i < need || need == 1)
        invariant SameOutside(bits, b, ind, ind + need)
        invariant b[ind].dirty == dirty
        invariant forall p :: ind <= p < ind + i && p < ind + need ==>
                    b[p].inUse && !b[p].large && b[p].num == p - ind && b[p].bin == bin &&
                      b[p].unzeroed == bits[p].unzeroed
        invariant forall p :: ind + i <= p < ind + need ==> b[p] == bits[p]
      {
        b := b[ind + i := SmallSet(b[ind + i], i, bin, false)];
        i := i + 1;
      }
      b := b[ind + need - 1 := SmallSet(b[ind + need - 1], need - 1, bin, dirty)];
    }

    /** The map elements written by arena_run_split: the tags of the remainder, then those of the new run. */
    static method SplitMap(bits: seq<Bits>, ind: nat, total: nat, need: nat, kind: Kind, d: bool) returns (b: seq<Bits>)
      requires 0 < need <= total && ind + total <= |bits| && !kind.Free?
      ensures |b| == |bits| && SplitMapped(bits, b, ind, total, need, kind, d)
      ensures need < total ==> b[ind + need].num == total - need
    {
      var rem := total - need;
      b := bits;
      if rem > 0 {
        if d {
          b := b[ind + need := Unallocated(rem, true, false)];
          b := b[ind + total - 1 := Unallocated(rem, true, false)];
        } else {
          b := b[ind + need := Unallocated(rem, false, b[ind + need].unzeroed)];
          b := b[ind + total - 1 := Unallocated(rem, false, b[ind + total - 1].unzeroed)];
        }
      }
      if kind.Large? {
        b := b[ind + need - 1 := LargeSet(b[ind + need - 1], 0, d)];
        b := b[ind := LargeSet(b[ind], need, d)];
      } else {
        b := MarkSmall(b, ind, need, kind.bin, d);
      }
    }

    /** arena_run_split */
    method RunSplit(c: nat, ind: nat, need: nat, kind: Kind, zero: bool)
      requires Inv() && c in chunks && spare != Some(c)
      requires Splittable(cfg, chunks[c], ind, need, kind) && (zero ==> kind.Large?)
      modifies `chunks, `dirtyTree, `cleanTree, `nactive, `ndirty
      ensures Inv()
      ensures c in chunks && chunks == old(chunks)[c := chunks[c]] && spare == old(spare)
      ensures chunks[c].own == SplitOwn(old(chunks[c].own), ind, need, kind)
      ensures SplitMemory(old(chunks[c]), chunks[c].zero, chunks[c].touched, ind, need)
      ensures zero ==> AllZero(chunks[c].zero, ind, need)
      ensures SplitBits(cfg, old(chunks[c]), chunks[c].bits, ind, need, kind)
      ensures nactive == old(nactive) + need
      ensures ndirty + (if old(chunks[c].own[ind].dirty) then need else 0) == old(ndirty)
    {
      hide *;
      HasInv();
      SplitFacts(cfg, chunks[c], ind, need, kind);
      InvParts(cfg, chunks, spare, dirtyTree, cleanTree, dirtyList, nactive, ndirty);
      TotalDirtyOf(chunks, c);
      var ch := chunks[c];
      var d, total := ch.bits[ind].dirty, ch.bits[ind].num;
      var bits := SplitMap(ch.bits, ind, total, need, kind, d);
      var rem := if need < total then {Node(bits[ind + need].num, c, ind + need)} else {};
      var nd := ch.ndirty;
      if d {
        dirtyTree := dirtyTree - {Node(total, c, ind)} + rem;
        nd, ndirty := nd - need, ndirty - need;
      } else {
        cleanTree := cleanTree - {Node(total, c, ind)} + rem;
      }
      nactive := nactive + need;
      var z := ZeroRun(ch.bits, ch.zero, ind, need, d, zero);
      MappedIsSplit(cfg, ch, bits, ind, need, kind);
      ghost var touched := Untouched(ch.touched, ind, need);
      SplitMemoryOf(ch, z, touched, ind, need, zero);
      var ch' := Chunk(bits, nd, ch.dirtied, z, SplitOwn(ch.own, ind, need, kind), touched);
      SameShape(cfg, ch, ch');
      SplitInv(cfg, chunks, spare, old(dirtyTree), old(cleanTree), dirtyList, old(nactive), old(ndirty), c, ch', ind,
        need, kind);
      chunks := chunks[c := ch'];
      SplitTreeIs(old(dirtyTree), c, ind, total, need);
      SplitTreeIs(old(cleanTree), c, ind, total, need);
      HasInv();
    }

    /** arena_chunk_dealloc: an entirely free chunk becomes the spare, and the old spare is returned to the system
        without the lock. */
    method ChunkDealloc(c: nat)
      requires Inv() && Mine() && c in chunks && spare != Some(c) && cfg.Idle(chunks[c].own)
      requires Resting(cfg, chunks, spare, Some(c))
      modifies this
      ensures Inv() && Resting(cfg, chunks, spare, None) && Mine()
      ensures Between(cfg, old(Snapshot()), Snapshot(), {}, {}) && refusals == old(refusals)
      ensures purged == old(purged) && latest == old(latest)
      ensures drops == old(drops) + if old(spare).Some? then 1 else 0
      ensures interruptions == old(interruptions) ==>
        && spare == Some(c) && c in chunks && chunks[c] == old(chunks[c]) &&
          Undisturbed(cfg, old(chunks), chunks, {}, {})
        && nactive == old(nactive) && ndirty <= old(ndirty) && npurgatory == old(npurgatory)
        && |dirtyList| <= |old(dirtyList)|
    {
      hide *;
      var was := spare;
      Retire(c);
      if was.Some? {
        ghost var a, b := old(Snapshot()), Snapshot();
        NowIs();
        Drop();
        NowIs();
        BetweenThen(cfg, a, b, Snapshot(), {}, {});
      }
    }

    /** Its changes to the arena. */
    method Retire(c: nat)
      requires Inv() && Mine() && c in chunks && spare != Some(c) && cfg.Idle(chunks[c].own)
      requires Resting(cfg, chunks, spare, Some(c))
      modifies `chunks, `spare, `dirtyTree, `cleanTree, `dirtyList, `ndirty
      ensures Inv() && Resting(cfg, chunks, spare, None) && Mine() && spare == Some(c) && c in chunks
      ensures Between(cfg, old(Snapshot()), Snapshot(), {}, {}) && chunks[c] == old(chunks[c])
      ensures Undisturbed(cfg, old(chunks), chunks, {}, {})
      ensures ndirty <= old(ndirty) && |dirtyList| <= |old(dirtyList)|
    {
      hide *;
      HasInv();
      MineIs();
      SnapshotIs();
      InvChunk(cfg, chunks, spare, dirtyTree, cleanTree, dirtyList, nactive, ndirty, c);
      IdleChunk(cfg, chunks[c]);
      var ch := chunks[c];
      if ch.bits[cfg.bias].dirty {
        dirtyTree := dirtyTree - {Node(ch.bits[cfg.bias].num, c, cfg.bias)};
      } else {
        cleanTree := cleanTree - {Node(ch.bits[cfg.bias].num, c, cfg.bias)};
      }
      ReplaceSpare(c, old(dirtyTree), old(cleanTree));
      RetireInv(cfg, chunks, c, old(dirtyTree), old(cleanTree), dirtyList, nactive, ndirty);
      RetireRests(cfg, old(chunks), chunks, old(spare), c);
      WholeNodeIs(cfg, c);
      HasInv();
      SnapshotIs();
      SteppedAside(old(chunks));
    }

    /** The chunk becomes the spare, and the old one leaves the arena; neither is in a tree. */
    method ReplaceSpare(c: nat, ghost dt: set<Node>, ghost ct: set<Node>)
      requires InvOf(cfg, chunks, spare, dt, ct, dirtyList, nactive, ndirty) && c in chunks && spare != Some(c)
      modifies `chunks, `spare, `dirtyList, `ndirty
      ensures InvOf(cfg, chunks, None, dt, ct, dirtyList, nactive, ndirty) && spare == Some(c)
      ensures chunks == if old(spare).Some? then old(chunks) - {old(spare).value} else old(chunks)
      ensures Undisturbed(cfg, old(chunks), chunks, {}, {})
      ensures ndirty <= old(ndirty) && |dirtyList| <= |old(dirtyList)|
    {
      hide *;
      UndisturbedSame(cfg, chunks);
      if spare.Some? {
        var sp := spare.value;
        SpareParts(cfg, chunks, sp, dt, ct, dirtyList, nactive, ndirty);
        DiscardInv(cfg, chunks, sp, dt, ct, dirtyList, nactive, ndirty);
        NoLiveInIdle(cfg, chunks, sp);
        spare := Some(c);
        if chunks[sp].dirtied {
          dirtyList := Without(dirtyList, sp);
          ndirty := ndirty - chunks[sp].ndirty;
        }
        chunks := chunks - {sp};
      } else {
        spare := Some(c);
      }
    }

    /** arena_run_dalloc up to its purge check: the run is marked free, coalesced and made available, and its
        chunk is retired if nothing in it is allocated any more. Tells whether the freed run is dirty. */
    method FreeRun(c: nat, ind: nat, dirty: bool) returns (d: bool)
      requires Inv() && Resting(cfg, chunks, spare, None) && Mine()
      requires c in chunks && spare != Some(c) && ind < |chunks[c].own| && (c, ind) in mine
      requires FreeableAs(cfg, chunks[c], ind, dirty || chunks[c].own[ind].dirty)
      modifies this
      ensures Inv() && Resting(cfg, chunks, spare, None) && Mine()
      ensures d == (dirty || old(chunks[c].own[ind].dirty))
      ensures Between(cfg, old(Snapshot()), Snapshot(), {(c, ind)}, {}) && refusals == old(refusals)
      ensures purged == old(purged) && latest == old(latest)
      ensures interruptions == old(interruptions) ==>
        && c in chunks && Undisturbed(cfg, old(chunks), chunks, {(c, ind)}, {})
        && nactive + old(chunks[c].own[ind].len) == old(nactive) && npurgatory == old(npurgatory)
        && ndirty <= old(ndirty) + (if d then old(chunks[c].own[ind].len) else 0)
        && (!d ==> |dirtyList| <= |old(dirtyList)|)
    {
      hide *;
      var idle: bool;
      d, idle := MarkFree(c, ind, dirty);
      if idle {
        ghost var a, b, m1 := old(Snapshot()), Snapshot(), chunks;
        ChunkDealloc(c);
        BetweenThen(cfg, a, b, Snapshot(), {(c, ind)}, {});
        if interruptions == old(interruptions) { UndisturbedThen(cfg, old(chunks), m1, chunks, {(c, ind)}, {}); }
      }
    }

    /** Its changes to the arena while it holds the lock; `idle` tells whether the chunk is entirely free now. */
    method MarkFree(c: nat, ind: nat, dirty: bool) returns (d: bool, idle: bool)
      requires Inv() && Resting(cfg, chunks, spare, None) && Mine()
      requires c in chunks && spare != Some(c) && ind < |chunks[c].own| && (c, ind) in mine
      requires FreeableAs(cfg, chunks[c], ind, dirty || chunks[c].own[ind].dirty)
      modifies `chunks, `dirtyTree, `cleanTree, `dirtyList, `nactive, `ndirty, `mine
      ensures Inv() && Mine() && c in chunks && d == (dirty || old(chunks[c].own[ind].dirty))
      ensures idle ==> cfg.Idle(chunks[c].own) && Resting(cfg, chunks, spare, Some(c))
      ensures !idle ==> Resting(cfg, chunks, spare, None)
      ensures Between(cfg, old(Snapshot()), Snapshot(), {(c, ind)}, {})
      ensures Undisturbed(cfg, old(chunks), chunks, {(c, ind)}, {})
      ensures nactive + old(chunks[c].own[ind].len) == old(nactive)
      ensures ndirty <= old(ndirty) + (if d then old(chunks[c].own[ind].len) else 0)
      ensures !d ==> |dirtyList| <= |old(dirtyList)|
    {
      hide *;
      MineIs();
      SnapshotIs();
      d, idle := Unallocate(c, ind, dirty);
      mine := mine - {(c, ind)};
      NoneOwned();
      SnapshotIs();
      Stepped(old(chunks), old(mine), {(c, ind)}, {});
    }

    method Unallocate(c: nat, ind: nat, dirty: bool) returns (d: bool, idle: bool)
      requires Inv() && Resting(cfg, chunks, spare, None) && c in chunks && spare != Some(c) && ind < |chunks[c].own|
      requires FreeableAs(cfg, chunks[c], ind, dirty || chunks[c].own[ind].dirty)
      modifies `chunks, `dirtyTree, `cleanTree, `dirtyList, `nactive, `ndirty
      ensures Inv() && c in chunks && d == (dirty || old(chunks[c].own[ind].dirty))
      ensures idle ==> cfg.Idle(chunks[c].own) && Resting(cfg, chunks, spare, Some(c))
      ensures !idle ==> Resting(cfg, chunks, spare, None)
      ensures Undisturbed(cfg, old(chunks), chunks, {(c, ind)}, {})
      ensures nactive + old(chunks[c].own[ind].len) == old(nactive)
      ensures ndirty <= old(ndirty) + (if d then old(chunks[c].own[ind].len) else 0)
      ensures !d ==> |dirtyList| <= |old(dirtyList)|
    {
      hide *;
      HasInv();
      var ch := chunks[c];
      InvParts(cfg, chunks, spare, dirtyTree, cleanTree, dirtyList, nactive, ndirty);
      FreeFacts(cfg, ch, ind, dirty || ch.own[ind].dirty);
      AllocTagged(cfg, ch.bits, ch.own[ind]);
      var pages := if ch.bits[ind].large then ch.bits[ind].num else cfg.runPages[ch.bits[ind].bin];
      d := dirty || ch.bits[ind].dirty;
      var bits, total, next, prev := FreeMap(cfg, ch, ind, pages, d);
      var ch' := Chunk(bits, if d then ch.ndirty + pages else ch.ndirty, ch.dirtied || d, ch.zero,
                       FreedOwn(cfg, ch, ind, d), ch.touched);
      MappedFacts(cfg, ch, bits, ind, d, total, next, prev);
      SameShape(cfg, ch, ch');
      FreeInv(cfg, chunks, spare, dirtyTree, cleanTree, dirtyList, nactive, ndirty, c, ch', ind, d, total, next, prev);
      FreeUndisturbed(cfg, chunks, c, ch', ind, d);
      FreeRests(cfg, chunks, spare, c, ch', ind, d, total, next, prev);
      nactive := nactive - pages;
      if d {
        dirtyTree := FreeTree(dirtyTree, c, ind, pages, total, next, prev);
        ndirty := ndirty + pages;
      } else {
        cleanTree := FreeTree(cleanTree, c, ind, pages, total, next, prev);
      }
      ListedIs(dirtyList, ch.dirtied, d, c);
      dirtyList := Listed(dirtyList, ch.dirtied, d, c);
      chunks := chunks[c := ch'];
      idle := total == cfg.MaxPages();
      HasInv();
    }

    /** arena_chunk_alloc when there is a spare: it is put back to use. */
    method TakeSpare() returns (c: nat)
      requires Inv() && spare.Some? && Resting(cfg, chunks, spare, None)
      modifies `spare, `dirtyTree, `cleanTree
      ensures Inv() && spare == None && old(spare) == Some(c) && c in chunks && Resting(cfg, chunks, None, Some(c))
    {
      hide *;
      HasInv();
      c := spare.value;
      SpareParts(cfg, chunks, c, dirtyTree, cleanTree, dirtyList, nactive, ndirty);
      InvChunk(cfg, chunks, spare, dirtyTree, cleanTree, dirtyList, nactive, ndirty, c);
      IdleChunk(cfg, chunks[c]);
      ReviveInv(cfg, chunks, c, dirtyTree, cleanTree, dirtyList, nactive, ndirty);
      ReviveRests(cfg, chunks, c);
      WholeNodeIs(cfg, c);
      var b := chunks[c].bits[cfg.bias];
      spare := None;
      if b.dirty {
        dirtyTree := dirtyTree + {Node(b.num, c, cfg.bias)};
      } else {
        cleanTree := cleanTree + {Node(b.num, c, cfg.bias)};
      }
      HasInv();
    }

    /** pages_purge of a held run. What the system leaves in the pages is unknown unless it promises zeroes. */
    method GiveBackOne(c: nat, runs: seq<nat>, i: nat, ghost own: seq<Run>)
      requires Inv() && Resting(cfg, chunks, spare, None) && Mine() && i < |runs|
      requires Holding(cfg, chunks, c, own, runs, !purgeZeroes) && Places(c, runs) <= mine
      requires PristineUpTo(chunks, c, own, runs, i)
      modifies `chunks
      ensures Inv() && Resting(cfg, chunks, spare, None) && Mine()
      ensures Holding(cfg, chunks, c, own, runs, !purgeZeroes) && PristineUpTo(chunks, c, own, runs, i + 1)
      ensures Between(cfg, old(Snapshot()), Snapshot(), {(c, runs[i])}, {(c, runs[i])})
      ensures Undisturbed(cfg, old(chunks), chunks, {(c, runs[i])}, {(c, runs[i])})
    {
      hide *;
      MineIs();
      SnapshotIs();
      HasInv();
      HeldTag(cfg, chunks, spare, dirtyTree, cleanTree, dirtyList, nactive, ndirty, c, own, runs, !purgeZeroes, i);
      RunPlace(c, runs, i);
      var s := runs[i];
      var n := chunks[c].bits[s].num;
      var junk: seq<bool> := *;
      var zero := PageFill(chunks[c].zero, s, n, purgeZeroes, junk);
      ghost var ch' := GivenBack(chunks[c], s, n, zero);
      AdvisedOK(cfg, chunks[c], s, n, purgeZeroes, junk);
      AdvisedUndisturbed(cfg, chunks, c, s, n, purgeZeroes, junk);
      AdvisedHolding(cfg, chunks, c, own, runs, !purgeZeroes, i, zero);
      GivenBackIs(chunks[c], s, n, zero);
      MemoryInv(cfg, chunks, spare, dirtyTree, cleanTree, dirtyList, nactive, ndirty, c, ch');
      WriteRests(cfg, chunks, spare, c, ch');
      chunks := chunks[c := chunks[c].(zero := zero, touched := Untouched(chunks[c].touched, s, n))];
      HasInv();
      HoldingOne(cfg, chunks, c, own, runs, !purgeZeroes, i);
      SameMine(mine, (c, s));
      SnapshotIs();
      Stepped(old(chunks), mine, {(c, s)}, {(c, s)});
    }

    /** The same, after which others step in. */
    method GiveBackNext(c: nat, runs: seq<nat>, i: nat, ghost own: seq<Run>)
      requires Inv() && Resting(cfg, chunks, spare, None) && Mine() && i < |runs|
      requires Holding(cfg, chunks, c, own, runs, !purgeZeroes) && Places(c, runs) <= mine
      requires PristineUpTo(chunks, c, own, runs, i)
      modifies this
      ensures Inv() && Resting(cfg, chunks, spare, None) && Mine()
      ensures Holding(cfg, chunks, c, own, runs, !purgeZeroes) && PristineUpTo(chunks, c, own, runs, i + 1)
      ensures Between(cfg, old(Snapshot()), Snapshot(), {(c, runs[i])}, {(c, runs[i])}) && refusals == old(refusals)
      ensures purged == old(purged) && latest == old(latest)
      ensures interruptions == old(interruptions) ==>
        && Undisturbed(cfg, old(chunks), chunks, {(c, runs[i])}, {(c, runs[i])}) && nactive == old(nactive)
        && npurgatory == old(npurgatory) && ndirty == old(ndirty) && dirtyList == old(dirtyList)
    {
      hide *;
      ghost var a := Snapshot();
      SnapshotIs();
      GiveBackOne(c, runs, i, own);
      ghost var b, m1 := Snapshot(), chunks;
      SnapshotIs();
      NowIs();
      Drop();
      SnapshotIs();
      NowIs();
      BetweenIs(cfg, b, Snapshot(), {}, {});
      assert b.mine - {} == mine;
      HoldingKept(cfg, m1, chunks, mine, c, own, runs, !purgeZeroes);
      PristineStays(cfg, m1, chunks, mine, c, own, runs, !purgeZeroes, i + 1);
      BetweenThen(cfg, a, b, Snapshot(), {(c, runs[i])}, {(c, runs[i])});
    }

    /** The madvise loop of arena_chunk_purge over the held runs, without the lock: others may step in before, between
        and after the calls. */
    method GiveBack(c: nat, runs: seq<nat>, ghost own: seq<Run>)
      requires Inv() && Resting(cfg, chunks, spare, None) && Mine()
      requires Holding(cfg, chunks, c, own, runs, !purgeZeroes) && Places(c, runs) <= mine
      modifies this
      ensures Inv() && Resting(cfg, chunks, spare, None) && Mine() && AllHeld(cfg, chunks, c, own, runs)
      ensures Between(cfg, old(Snapshot()), Snapshot(), Places(c, runs), Places(c, runs)) && refusals == old(refusals)
      ensures purged == old(purged) && latest == old(latest)
      ensures interruptions == old(interruptions) ==>
        && Undisturbed(cfg, old(chunks), chunks, Places(c, runs), Places(c, runs)) && nactive == old(nactive)
        && npurgatory == old(npurgatory) && ndirty == old(ndirty) && dirtyList == old(dirtyList)
    {
      hide *;
      SnapshotIs();
      ghost var a, m0, held := Snapshot(), chunks, Places(c, runs);
      HoldingOwned(cfg, chunks, c, own, runs, !purgeZeroes);
      UndisturbedAll(cfg, chunks, held);
      BetweenHeld(cfg, a, held);
      NonePristine(chunks, c, own, runs);
      for i := 0 to |runs|
        invariant Inv() && Resting(cfg, chunks, spare, None) && Mine() && refusals == old(refusals)
        invariant purged == old(purged) && latest == old(latest)
        invariant Holding(cfg, chunks, c, own, runs, !purgeZeroes) && PristineUpTo(chunks, c, own, runs, i)
        invariant held <= mine && Between(cfg, a, Snapshot(), held, held) && a.interruptions <= interruptions
        invariant interruptions == old(interruptions) ==>
          && Undisturbed(cfg, old(chunks), chunks, held, held) && nactive == old(nactive)
          && npurgatory == old(npurgatory) && ndirty == old(ndirty) && dirtyList == old(dirtyList)
      {
        ghost var b, m1 := Snapshot(), chunks;
        SnapshotIs();
        RunPlace(c, runs, i);
        GiveBackNext(c, runs, i, own);
        SnapshotIs();
        BetweenIs(cfg, a, b, held, held);
        BetweenIs(cfg, b, Snapshot(), {(c, runs[i])}, {(c, runs[i])});
        BetweenWithin(cfg, a, b, Snapshot(), held, (c, runs[i]));
        if interruptions == old(interruptions) { UndisturbedMore(cfg, m0, m1, chunks, (c, runs[i]), held); }
      }
      AllGivenBack(cfg, chunks, c, own, runs, !purgeZeroes);
    }

    /** The first section of arena_chunk_purge: all dirty runs of the chunk become runs of this thread. */
    method Hold(c: nat) returns (runs: seq<nat>)
      requires Inv() && Resting(cfg, chunks, spare, None) && Mine() && c in chunks && chunks[c].ndirty > 0
      modifies `chunks, `spare, `dirtyTree, `cleanTree, `dirtyList, `nactive, `ndirty, `mine, `purged, `latest
      ensures Inv() && Resting(cfg, chunks, spare, None) && Mine()
      ensures Holding(cfg, chunks, c, old(chunks[c].own), runs, !purgeZeroes) && NotLiveAt(cfg, old(chunks), c, runs)
      ensures Undisturbed(cfg, old(chunks), chunks, {}, Places(c, runs))
      ensures Between(cfg, old(Snapshot()), Snapshot(), {}, Places(c, runs)) && Places(c, runs) !! old(mine)
      ensures nactive == old(nactive) + Pages(old(chunks[c].own), runs)
      ensures ndirty + old(chunks[c].ndirty) == old(ndirty) && |dirtyList| < |old(dirtyList)|
      ensures latest == old(chunks[c].ndirty) == Pages(old(chunks[c].own), runs) < cfg.npages
      ensures purged == old(purged) + latest
    {
      hide *;
      ghost var m0, own0 := chunks, chunks[c].own;
      MineIs();
      SnapshotIs();
      latest := chunks[c].ndirty;
      purged := purged + latest;
      runs := MarkHeld(c);
      HoldingOwned(cfg, chunks, c, own0, runs, !purgeZeroes);
      NotLiveIs(cfg, m0, c, runs);
      NewPlaces(cfg, m0, mine, Places(c, runs));
      mine := mine + Places(c, runs);
      SnapshotIs();
      Stepped(m0, old(mine), {}, Places(c, runs));
    }

    /** They are allocated in the page map. */
    method MarkHeld(c: nat) returns (runs: seq<nat>)
      requires Inv() && Resting(cfg, chunks, spare, None) && c in chunks && chunks[c].ndirty > 0
      modifies `chunks, `spare, `dirtyTree, `cleanTree, `dirtyList, `nactive, `ndirty
      ensures Inv() && Resting(cfg, chunks, spare, None)
      ensures Holding(cfg, chunks, c, old(chunks[c].own), runs, !purgeZeroes) && NotLiveAt(cfg, old(chunks), c, runs)
      ensures Undisturbed(cfg, old(chunks), chunks, {}, Places(c, runs))
      ensures nactive == old(nactive) + Pages(old(chunks[c].own), runs)
      ensures ndirty + old(chunks[c].ndirty) == old(ndirty) && |dirtyList| < |old(dirtyList)|
      ensures old(chunks[c].ndirty) == Pages(old(chunks[c].own), runs) < cfg.npages
    {
      hide *;
      HasInv();
      InvChunk(cfg, chunks, spare, dirtyTree, cleanTree, dirtyList, nactive, ndirty, c);
      PurgeStart(cfg, chunks, spare, dirtyTree, cleanTree, dirtyList, nactive, ndirty, c);
      if spare == Some(c) {
        var _ := TakeSpare();
      } else {
        RestingExcept(cfg, chunks, spare, c);
      }
      HasInv();
      var ch := chunks[c];
      DirtyAtMost(cfg, ch);
      var unzeroed := !purgeZeroes;
      var bits, nodes, pages;
      bits, nodes, runs, pages := MarkDirty(cfg, ch, c, unzeroed);
      MarkedShape(cfg, ch, bits, unzeroed);
      ghost var ch' := Chunk(bits, 0, false, ch.zero, PurgedOwn(cfg, ch.own), PurgedTouched(ch.own, ch.touched));
      MarkedIs(cfg, ch, ch', unzeroed);
      MarkedInv(cfg, chunks, spare, dirtyTree, cleanTree, dirtyList, nactive, ndirty, c, ch', unzeroed, runs);
      StartHolding(cfg, chunks, c, ch', unzeroed, runs);
      MarkedRests(cfg, chunks, spare, c, ch', unzeroed);
      dirtyTree := dirtyTree - nodes;
      nactive := nactive + pages;
      ndirty := ndirty - ch.ndirty;
      dirtyList := Without(dirtyList, c);
      chunks := chunks[c := Chunk(bits, 0, false, ch.zero, PurgedOwn(cfg, ch.own), PurgedTouched(ch.own, ch.touched))];
      HasInv();
    }

    /** Its last section, which may be interrupted by others when a chunk is given back: the held runs are freed. */
    method ReleaseHeld(c: nat, runs: seq<nat>, ghost own: seq<Run>)
      requires Inv() && Resting(cfg, chunks, spare, None) && Mine()
      requires AllHeld(cfg, chunks, c, own, runs) && Places(c, runs) <= mine
      modifies this
      ensures Inv() && Resting(cfg, chunks, spare, None) && Mine()
      ensures Between(cfg, old(Snapshot()), Snapshot(), Places(c, runs), {}) && refusals == old(refusals)
      ensures purged == old(purged) && latest == old(latest)
      ensures interruptions == old(interruptions) ==>
        && Undisturbed(cfg, old(chunks), chunks, Places(c, runs), {})
        && nactive + Pages(own, runs) == old(nactive) && npurgatory == old(npurgatory)
        && ndirty <= old(ndirty) && |dirtyList| <= |old(dirtyList)|
    {
      hide *;
      ghost var a, gone: set<Place> := Snapshot(), {};
      var rest := runs;
      BetweenSame(cfg, a);
      UndisturbedSame(cfg, chunks);
      SnapshotIs();
      while rest != []
        invariant Inv() && Resting(cfg, chunks, spare, None) && Mine() && refusals == old(refusals)
        invariant purged == old(purged) && latest == old(latest)
        invariant AllHeld(cfg, chunks, c, own, rest) && Places(c, rest) <= mine
        invariant gone + Places(c, rest) == Places(c, runs) && Between(cfg, a, Snapshot(), gone, {})
        invariant a.interruptions == old(interruptions) <= interruptions
        invariant interruptions == old(interruptions) ==>
          && Undisturbed(cfg, old(chunks), chunks, gone, {})
          && nactive + Pages(own, runs) == old(nactive) + Pages(own, rest) && npurgatory == old(npurgatory)
          && ndirty <= old(ndirty) && |dirtyList| <= |old(dirtyList)|
        decreases |rest|
      {
        HasInv();
        HeldIsFreeable(cfg, chunks, spare, dirtyTree, cleanTree, dirtyList, nactive, ndirty, c, own, rest);
        RunPlace(c, rest, 0);
        ghost var b, m1, i1 := Snapshot(), chunks, interruptions;
        SnapshotIs();
        var dirty := FreeRun(c, rest[0], false);
        assert !dirty;
        SnapshotIs();
        BetweenIs(cfg, a, b, gone, {});
        BetweenIs(cfg, b, Snapshot(), {(c, rest[0])}, {});
        NextPlaces(cfg, m1, c, own, rest);
        AllHeldKept(cfg, m1, chunks, b.mine - {(c, rest[0])}, c, own, rest);
        BetweenTrans(cfg, a, b, Snapshot(), gone, {}, {(c, rest[0])}, {}, gone + {(c, rest[0])}, {});
        if interruptions == old(interruptions) {
          UndisturbedTrans(cfg, old(chunks), m1, chunks, gone, {}, {(c, rest[0])}, {});
          NothingMore();
        }
        PagesStep(own, rest);
        gone, rest := gone + {(c, rest[0])}, rest[1..];
      }
      NoPlaces(own, c);
      assert gone == Places(c, runs);
    }

    /** arena_chunk_purge. While the system takes the pages back the lock is free; the runs are allocated meanwhile. */
    method ChunkPurge(c: nat)
      requires Inv() && Resting(cfg, chunks, spare, None) && Mine() && c in chunks && chunks[c].ndirty > 0
      modifies this
      ensures Inv() && Resting(cfg, chunks, spare, None) && Mine()
      ensures Between(cfg, old(Snapshot()), Snapshot(), {}, {}) && refusals == old(refusals)
      ensures latest == old(chunks[c].ndirty) < cfg.npages && purged == old(purged) + latest
      ensures interruptions == old(interruptions) ==>
        && Undisturbed(cfg, old(chunks), chunks, {}, {})
        && nactive == old(nactive) && npurgatory == old(npurgatory)
        && ndirty + old(chunks[c].ndirty) <= old(ndirty) && |dirtyList| < |old(dirtyList)|
    {
      hide *;
      ghost var own0, a := chunks[c].own, Snapshot();
      SnapshotIs();
      var runs := Hold(c);
      ghost var held := Places(c, runs);
      SnapshotIs();
      BetweenIs(cfg, a, Snapshot(), {}, held);
      ghost var b, m1 := Snapshot(), chunks;
      NowIs();
      Drop();
      NowIs();
      SnapshotIs();
      BetweenIs(cfg, b, Snapshot(), {}, {});
      assert b.mine - {} == mine;
      HoldingKept(cfg, m1, chunks, mine, c, own0, runs, !purgeZeroes);
      ghost var b2 := Snapshot();
      GiveBack(c, runs, own0);
      SnapshotIs();
      BetweenIs(cfg, b2, Snapshot(), held, held);
      ghost var b3, m3 := Snapshot(), chunks;
      ReleaseHeld(c, runs, own0);
      SnapshotIs();
      BetweenIs(cfg, b3, Snapshot(), held, {});
      PurgeBetween(cfg, a, b, b2, b3, Snapshot(), held);
      if interruptions == old(interruptions) { PurgeQuiet(cfg, old(chunks), m1, m3, chunks, c, runs); }
    }

    /** The first chunk of chunks_dirty that does have dirty pages; those before it leave the list (arena.c:750-771). */
    method NextDirty() returns (c: nat, found: bool)
      requires Inv() && Resting(cfg, chunks, spare, None)
      modifies `chunks, `dirtyList
      ensures Inv() && Resting(cfg, chunks, spare, None)
      ensures Undisturbed(cfg, old(chunks), chunks, {}, {})
      ensures |dirtyList| <= |old(dirtyList)|
      ensures if found then c in chunks && 0 < chunks[c].ndirty <= ndirty else ndirty == 0
    {
      hide *;
      ghost var m0 := chunks;
      UndisturbedSame(cfg, chunks);
      c, found := 0, false;
      while dirtyList != []
        invariant Inv() && Resting(cfg, chunks, spare, None) && Undisturbed(cfg, m0, chunks, {}, {})
        invariant |dirtyList| <= |old(dirtyList)|
        decreases |dirtyList|
      {
        HasInv();
        ListHead(cfg, chunks, spare, dirtyTree, cleanTree, dirtyList, nactive, ndirty);
        c := dirtyList[0];
        if chunks[c].ndirty != 0 {
          found := true;
          return;
        }
        UnlistInv(cfg, chunks, spare, dirtyTree, cleanTree, dirtyList, nactive, ndirty, c);
        UnlistRests(cfg, chunks, spare, c);
        ghost var m1 := chunks;
        dirtyList := Without(dirtyList, c);
        chunks := chunks[c := chunks[c].(dirtied := false)];
        UndisturbedThen(cfg, m0, m1, chunks, {}, {});
        HasInv();
      }
      HasInv();
      ListHead(cfg, chunks, spare, dirtyTree, cleanTree, dirtyList, nactive, ndirty);
    }

    /** A chunk of n dirty pages is taken off the np pages the thread has announced, or n are announced if these are
        fewer (arena.c:775-799). */
    method Claim(np: int, n: nat) returns (rest: int)
      requires 0 < np && 0 < n
      modifies `npurgatory
      ensures rest == if n > np then 0 else np - n
      ensures Owing(npurgatory, theirs, rest) == old(Owing(npurgatory, theirs, np))
    {
      hide *;
      rest := np;
      if n > rest {
        OwingMore(npurgatory, theirs, rest, n - rest);
        npurgatory := Wrap(npurgatory + (n - rest));
        rest := n;
      }
      OwingLess(npurgatory, theirs, rest, n);
      npurgatory := Wrap(npurgatory - n);
      rest := rest - n;
    }

    /** arena_purge. npurgatory counts modulo the word size, and the number of pages a thread intends to purge is
        unsigned: if others intend to purge more than there is, the difference wraps around. */
    method PurgeArena(all: bool)
      requires Inv() && Resting(cfg, chunks, spare, None) && Mine()
      requires !all ==> lgDirtyMult >= 0 && npurgatory <= ndirty && Shift(nactive, lgDirtyMult) < ndirty - npurgatory
      modifies this
      ensures Inv() && Resting(cfg, chunks, spare, None) && Mine()
      // what it added to npurgatory is taken back, whatever others do
      ensures Between(cfg, old(Snapshot()), Snapshot(), {}, {}) && refusals == old(refusals)
      // before the last chunk, of at most so many pages, it had purged less than it was to purge; whatever others do
      ensures purged > old(purged) ==>
        && 0 < latest < cfg.npages
        && purged - latest - old(purged) < (if all then Unsigned(old(ndirty), old(npurgatory))
                                            else old(ndirty) - old(npurgatory) - Shift(old(nactive), lgDirtyMult))
      ensures interruptions == old(interruptions) ==>
        && Undisturbed(cfg, old(chunks), chunks, {}, {})
        && nactive == old(nactive) && npurgatory == old(npurgatory) && ndirty <= old(ndirty)
        && ndirty <= npurgatory + (if all then 0 else Shift(nactive, lgDirtyMult))
    {
      hide *;
      ghost var a := Snapshot();
      ghost var keep := npurgatory + if all then 0 else Shift(nactive, lgDirtyMult);
      var np := Unsigned(ndirty, npurgatory);
      UnsignedIs(ndirty, npurgatory);
      if !all { np := np - Shift(nactive, lgDirtyMult); }
      ghost var goal := np;
      SparingStart(cfg, goal, latest);
      SnapshotIs();
      BetweenSame(cfg, a);
      UndisturbedSame(cfg, chunks);
      OwingNone(npurgatory, theirs);
      OwingMore(npurgatory, theirs, 0, np);
      npurgatory := Wrap(npurgatory + np);
      SnapshotIs();
      while np > 0
        invariant Inv() && Resting(cfg, chunks, spare, None) && Mine() && refusals == old(refusals)
        invariant np >= 0 && Owing(npurgatory, theirs, np) == a.share &&
          a.interruptions == old(interruptions) <= interruptions
        invariant Between(cfg, a, Snapshot().(share := a.share), {}, {})
        invariant Sparing(cfg, goal, purged - old(purged), latest, np)
        invariant interruptions == old(interruptions) ==>
          && Undisturbed(cfg, old(chunks), chunks, {}, {}) && nactive == old(nactive)
          && ndirty <= keep + np && ndirty <= old(ndirty)
        decreases np
      {
        ghost var b, mb := Snapshot(), chunks;
        SnapshotIs();
        MineIs();
        var c, found := NextDirty();
        SteppedAside(mb);
        SnapshotIs();
        ghost var d, m1 := Snapshot(), chunks;
        BetweenMore(cfg, a, b, d);
        if interruptions == old(interruptions) { UndisturbedThen(cfg, old(chunks), mb, chunks, {}, {}); }
        if !found {
          SparingEnd(cfg, goal, purged - old(purged), latest, np);
          OwingAll(npurgatory, theirs, np);
          OwingNone(Wrap(npurgatory - np), theirs);
          npurgatory := Wrap(npurgatory - np);
          np := 0;
          SnapshotIs();
          assert Snapshot().(share := a.share) == d.(share := a.share);
          break;
        }
        var n := chunks[c].ndirty;
        ghost var done, last, goes := purged - old(purged), latest, np;
        np := Claim(np, n);
        SnapshotIs();
        ghost var e, p1, t1 := Snapshot(), npurgatory, theirs;
        ChunkPurge(c);
        SnapshotIs();
        BetweenIs(cfg, e, Snapshot(), {}, {});
        BetweenMore(cfg, a, e, Snapshot());
        OwingSame(p1, t1, npurgatory, theirs, np);
        SparingStep(cfg, goal, done, last, goes, n, np);
        if interruptions == old(interruptions) { UndisturbedThen(cfg, old(chunks), m1, chunks, {}, {}); }
      }
      OwingNone(npurgatory, theirs);
      SnapshotIs();
      assert Snapshot() == Snapshot().(share := a.share);
      BetweenIs(cfg, a, Snapshot(), {}, {});
      SparingEnd(cfg, goal, purged - old(purged), latest, np);
      if interruptions == old(interruptions) { ShareSame(npurgatory, theirs, old(npurgatory)); }
    }

    // ---------- allocating runs ----------

    /** arena_chunk_alloc. Without a spare the lock is dropped while the system is asked for a chunk. */
    method ChunkAlloc() returns (r: Option<nat>)
      requires Inv() && Resting(cfg, chunks, spare, None) && Mine()
      modifies this
      ensures Inv() && Mine() && Between(cfg, old(Snapshot()), Snapshot(), {}, {})
      ensures r.None? ==> Resting(cfg, chunks, spare, None)
      ensures r.Some? ==>
        r.value in chunks && spare != r && cfg.Idle(chunks[r.value].own) && Resting(cfg, chunks, spare, r)
      ensures refusals == old(refusals) + if r.None? then 1 else 0
      // it fails exactly if there is no spare and the system has no chunk either
      ensures var s := others(old(drops), old(Now()), old(mine));
        && (r.None? <==> old(spare).None? && system(old(drops), s).None?)
        && (r.None? ==> Now() == s)
        && (s == old(Now()) ==> interruptions == old(interruptions))
      ensures interruptions == old(interruptions) ==>
        && Undisturbed(cfg, old(chunks), chunks, {}, {})
        && nactive == old(nactive) && ndirty == old(ndirty) && npurgatory == old(npurgatory)
        && (r.None? ==> Now() == old(Now()))
    {
      hide *;
      SnapshotIs();
      NowIs();
      UndisturbedSame(cfg, chunks);
      if spare.Some? {
        BetweenSame(cfg, Snapshot());
        HasInv();
        SpareParts(cfg, chunks, spare.value, dirtyTree, cleanTree, dirtyList, nactive, ndirty);
        var c := TakeSpare();
        return Some(c);
      }
      var n := drops;
      Drop();
      NowIs();
      SnapshotIs();
      var sys := system(n, Now());
      if sys.None? {
        refusals := refusals + 1;
        return None;
      }
      ghost var a, m0 := Snapshot(), chunks;
      MineIs();
      SystemIs(n);
      AddChunk(sys.value);
      SteppedAside(m0);
      SnapshotIs();
      BetweenThen(cfg, old(Snapshot()), a, Snapshot(), {}, {});
      if interruptions == old(interruptions) { UndisturbedThen(cfg, old(chunks), m0, chunks, {}, {}); }
      r := Some(sys.value.id);
    }

    lemma SystemIs(n: nat)
      requires Env()
      ensures system(n, Now()).Some? ==> NewOK(cfg, chunks, system(n, Now()).value)
    {
    }

    /** The chunk is made part of the arena. */
    method AddChunk(n: NewChunk)
      requires Inv() && Resting(cfg, chunks, spare, None) && NewOK(cfg, chunks, n)
      modifies `chunks, `cleanTree
      ensures Inv() && Undisturbed(cfg, old(chunks), chunks, {}, {})
      ensures n.id in chunks && spare != Some(n.id) && cfg.Idle(chunks[n.id].own) &&
        Resting(cfg, chunks, spare, Some(n.id))
    {
      hide *;
      HasInv();
      InvParts(cfg, chunks, spare, dirtyTree, cleanTree, dirtyList, nactive, ndirty);
      InvChunks(cfg, chunks, spare, dirtyTree, cleanTree, dirtyList, nactive, ndirty);
      NewFacts(cfg, chunks, n);
      var bits := InitMap(cfg, n);
      FreshIs(cfg, chunks, n, bits);
      ghost var ch := Chunk(bits, 0, false, n.zero, FreshOwn(cfg), AllFalse(cfg.npages));
      AddRests(cfg, chunks, spare, n.id, ch);
      AddUndisturbed(cfg, chunks, n.id, ch);
      AddInv(cfg, chunks, spare, n.id, ch, dirtyTree, cleanTree, dirtyList, nactive, ndirty);
      WholeNodeIs(cfg, n.id);
      chunks := chunks[n.id := Chunk(bits, 0, false, n.zero, FreshOwn(cfg), AllFalse(cfg.npages))];
      cleanTree := cleanTree + {Node(cfg.MaxPages(), n.id, cfg.bias)};
      MaxPagesIs(cfg);
      HasInv();
    }

    /** Split the free run at (c, ind), as arena_run_alloc does with the run it picked. */
    method Carve(c: nat, ind: nat, need: nat, kind: Kind, zero: bool)
      requires Inv() && c in chunks && spare != Some(c) && Resting(cfg, chunks, spare, Some(c)) && Mine()
      requires ind < |chunks[c].own| && Splittable(cfg, chunks[c], ind, need, kind) && (zero ==> kind.Large?)
      modifies `chunks, `dirtyTree, `cleanTree, `nactive, `ndirty, `mine
      ensures Inv() && Resting(cfg, chunks, spare, None) && c in chunks && Mine()
      ensures Between(cfg, old(Snapshot()), Snapshot(), {}, {(c, ind)}) && (c, ind) !in old(mine)
      ensures Undisturbed(cfg, old(chunks), chunks, {}, {(c, ind)}) && Vacant(cfg, old(chunks), (c, ind))
      ensures Live(cfg, chunks, c, Run(ind, need, kind, old(chunks[c].own[ind].dirty))) &&
        Pristine(chunks, c, ind, need)
      ensures zero ==> AllZero(chunks[c].zero, ind, need)
      ensures nactive == old(nactive) + need && ndirty <= old(ndirty)
    {
      hide *;
      MineIs();
      SnapshotIs();
      ghost var m0 := chunks;
      RunSplit(c, ind, need, kind, zero);
      HasInv();
      InvChunk(cfg, chunks, spare, dirtyTree, cleanTree, dirtyList, nactive, ndirty, c);
      SplitUndisturbed(cfg, m0, c, chunks[c], ind, need, kind);
      SplitRests(cfg, m0, spare, c, chunks[c], ind, need, kind);
      mine := mine + {(c, ind)};
      SnapshotIs();
      MadeIs(cfg, m0, chunks, c, ind, Run(ind, need, kind, m0[c].own[ind].dirty));
      VacantMine(cfg, m0, old(mine), c, ind);
      Stepped(m0, old(mine), {}, {(c, ind)});
    }

    /** arena_run_alloc_helper */
    method RunAllocHelper(need: nat, kind: Kind, zero: bool) returns (r: Option<(nat, nat)>)
      requires Inv() && Resting(cfg, chunks, spare, None) && Requestable(cfg, need, kind) && (zero ==> kind.Large?) &&
        Mine()
      modifies `chunks, `dirtyTree, `cleanTree, `nactive, `ndirty, `mine
      ensures Inv() && Resting(cfg, chunks, spare, None) && Mine() && ndirty <= old(ndirty)
      ensures Between(cfg, old(Snapshot()), Snapshot(), {}, MadeOf(r)) && MadeOf(r) !! old(mine)
      ensures BestFit(old(dirtyTree), old(cleanTree), need, r)
      ensures r.Some? <==> old(Fits(dirtyTree, cleanTree, need))
      ensures r.None? ==> Now() == old(Now()) && mine == old(mine)
      ensures r.Some? ==>
        AllocatedIn(cfg, old(chunks), chunks, r.value, need, kind, zero) && nactive == old(nactive) + need
    {
      hide *;
      HasInv();
      NowIs();
      MadeIsOf(None);
      var n := NSearch(dirtyTree, need);
      if n.None? { n := NSearch(cleanTree, need); }
      if n.None? {
        NoFit(dirtyTree, cleanTree, need);
        NoneFits(dirtyTree, cleanTree, need);
        BetweenSame(cfg, Snapshot());
        return None;
      }
      var node := n.value;
      BestIs(dirtyTree, cleanTree, need, node);
      FitIs(dirtyTree, cleanTree, need, node);
      SomeFits(dirtyTree, cleanTree, need, node);
      NodeSplittable(cfg, chunks, spare, dirtyTree, cleanTree, dirtyList, nactive, ndirty, node, need, kind);
      RestingExcept(cfg, chunks, spare, node.chunk);
      Carve(node.chunk, node.page, need, kind, zero);
      r := Some((node.chunk, node.page));
      MadeIsOf(r);
      IsAllocated(cfg, old(chunks), chunks, node.chunk, node.page, need, kind, zero);
    }

    /** arena_run_alloc. `last` is the arena in which the last search is made, if the system has refused a chunk:
        others may have changed it meanwhile. */
    method RunAlloc(need: nat, kind: Kind, zero: bool) returns (r: Option<(nat, nat)>, ghost last: Option<State>)
      requires Inv() && Resting(cfg, chunks, spare, None) && Requestable(cfg, need, kind) && (zero ==> kind.Large?) &&
        Mine()
      modifies this
      ensures Inv() && Resting(cfg, chunks, spare, None) && Mine()
      // the run belongs to this thread alone, and is zero if that was asked for, whatever others have done
      ensures Between(cfg, old(Snapshot()), Snapshot(), {}, MadeOf(r)) && MadeOf(r) !! old(mine)
      ensures r.Some? ==> Given(cfg, chunks, r.value, need, kind, zero)
      // the best fit if there is one at first
      ensures old(Fits(dirtyTree, cleanTree, need)) ==> BestFit(old(dirtyTree), old(cleanTree), need, r) && r.Some?
      // there is a last search exactly if nothing fits, there is no spare and the system refuses a chunk: of what the
      // others have made available meanwhile the best fit, and if nothing fits then, no run
      ensures var s := others(old(drops), old(Now()), old(mine));
        && last == (if old(Fits(dirtyTree, cleanTree, need)) || old(spare).Some? || system(old(drops), s).Some?
                    then None else Some(s))
        && (s == old(Now()) ==> interruptions == old(interruptions))
      ensures last.Some? ==> BestFit(last.value.dirtyTree, last.value.cleanTree, need, r)
      ensures r.None? <==> last.Some? && !Fits(last.value.dirtyTree, last.value.cleanTree, need)
      ensures refusals == old(refusals) + if last.Some? then 1 else 0
      ensures interruptions == old(interruptions) ==>
        && npurgatory == old(npurgatory) && ndirty <= old(ndirty) &&
          last == (if last.Some? then Some(old(Now())) else None)
        && (if r.Some? then
              && AllocatedIn(cfg, old(chunks), chunks, r.value, need, kind, zero) && nactive == old(nactive) + need
            else Undisturbed(cfg, old(chunks), chunks, {}, {}) && nactive == old(nactive))
    {
      hide *;
      last := None;
      ghost var a, m0 := Snapshot(), chunks;
      UndisturbedSame(cfg, chunks);
      SnapshotIs();
      NowIs();
      r := RunAllocHelper(need, kind, zero);
      if r.Some? {
        GivenIs(cfg, m0, chunks, r.value, need, kind, zero);
        return;
      }
      MadeIsOf(None);
      NowIs();
      ghost var a1 := Snapshot();
      var c := ChunkAlloc();
      ghost var b, m1 := Snapshot(), chunks;
      SnapshotIs();
      BetweenThen(cfg, a, a1, b, {}, {});
      if c.Some? {
        HasInv();
        InvChunk(cfg, chunks, spare, dirtyTree, cleanTree, dirtyList, nactive, ndirty, c.value);
        WholeSplittable(cfg, chunks[c.value], need, kind);
        Carve(c.value, cfg.bias, need, kind, zero);
        IsAllocated(cfg, m1, chunks, c.value, cfg.bias, need, kind, zero);
        r := Some((c.value, cfg.bias));
      } else {
        last := Some(Now());
        NowIs();
        r := RunAllocHelper(need, kind, zero);
        NowIs();
      }
      MadeIsOf(r);
      SnapshotIs();
      BetweenFirst(cfg, a, b, Snapshot(), {}, MadeOf(r));
      if r.Some? {
        GivenIs(cfg, m1, chunks, r.value, need, kind, zero);
        if interruptions == old(interruptions) { AllocatedSince(cfg, m0, m1, chunks, r.value, need, kind, zero); }
      }
    }

    // ---------- the operations ----------

    /** Nobody has the lock. */
    ghost predicate Valid()
      reads this
    {
      Inv() && Resting(cfg, chunks, spare, None) && Env() && OwnedIn(cfg, chunks, mine)
    }

    /** Nobody is purging and the dirty pages are bounded. */
    ghost predicate Calm()
      reads `npurgatory, `nactive, `ndirty
    {
      npurgatory == 0 && Bound()
    }

    /** The bound of opt_lg_dirty_mult: few dirty pages in all, or few for each active page. */
    ghost predicate Bound()
      reads `nactive, `ndirty
    {
      BoundOf(cfg, lgDirtyMult, nactive, ndirty)
    }

    lemma ValidIs()
      ensures Bound() <==> BoundOf(cfg, lgDirtyMult, nactive, ndirty)
      ensures Calm() <==> npurgatory == 0 && Bound()
      ensures Valid() <==> Inv() && Resting(cfg, chunks, spare, None) && Env() && OwnedIn(cfg, chunks, mine)
      ensures Mine() ==> Env() && OwnedIn(cfg, chunks, mine)
    {
    }

    /** Dirty pages nobody is purging yet exceed a chunk and the ratio. */
    predicate TooDirty()
      reads `npurgatory, `nactive, `ndirty
    {
      && lgDirtyMult >= 0 && ndirty > npurgatory && ndirty - npurgatory > cfg.npages
      && Shift(nactive, lgDirtyMult) < ndirty - npurgatory
    }

    lemma TooDirtyIs()
      ensures TooDirty() <==>
        && lgDirtyMult >= 0 && ndirty > npurgatory && ndirty - npurgatory > cfg.npages
        && Shift(nactive, lgDirtyMult) < ndirty - npurgatory
      ensures BoundOf(cfg, lgDirtyMult, nactive, ndirty) <==>
        (lgDirtyMult >= 0 ==> ndirty <= cfg.npages || ndirty <= Shift(nactive, lgDirtyMult))
    {
    }

    /** arena_maybe_purge */
    method MaybePurge()
      requires Inv() && Resting(cfg, chunks, spare, None) && Mine()
      modifies this
      ensures Inv() && Resting(cfg, chunks, spare, None) && Mine()
      ensures Between(cfg, old(Snapshot()), Snapshot(), {}, {}) && refusals == old(refusals)
      ensures interruptions == old(interruptions) ==>
        && Undisturbed(cfg, old(chunks), chunks, {}, {})
        && nactive == old(nactive) && npurgatory == old(npurgatory) && ndirty <= old(ndirty)
        && (npurgatory == 0 ==> Bound())
      ensures !old(TooDirty()) ==> Now() == old(Now())
    {
      hide *;
      UndisturbedSame(cfg, chunks);
      BetweenSame(cfg, Snapshot());
      TooDirtyIs();
      ValidIs();
      if lgDirtyMult >= 0 && ndirty > npurgatory && ndirty - npurgatory > cfg.npages
         && Shift(nactive, lgDirtyMult) < ndirty - npurgatory {
        PurgeArena(false);
      }
      TooDirtyIs();
      ValidIs();
    }

    /** arena_run_dalloc */
    method RunDalloc(c: nat, ind: nat, dirty: bool)
      requires Inv() && Resting(cfg, chunks, spare, None) && Mine()
      requires c in chunks && spare != Some(c) && ind < |chunks[c].own| && (c, ind) in mine
      requires FreeableAs(cfg, chunks[c], ind, dirty || chunks[c].own[ind].dirty)
      modifies this
      ensures Inv() && Resting(cfg, chunks, spare, None) && Mine()
      ensures Between(cfg, old(Snapshot()), Snapshot(), {(c, ind)}, {}) && refusals == old(refusals)
      // only the pages of a dirty run become dirty, and only then pages are purged
      ensures !(dirty || old(chunks[c].own[ind].dirty)) ==> purged == old(purged)
      ensures interruptions == old(interruptions) ==>
        && Undisturbed(cfg, old(chunks), chunks, {(c, ind)}, {})
        && nactive + old(chunks[c].own[ind].len) == old(nactive) && npurgatory == old(npurgatory)
        && (if dirty || old(chunks[c].own[ind].dirty)
            then ndirty <= old(ndirty) + old(chunks[c].own[ind].len) && (npurgatory == 0 ==> Bound())
            else ndirty <= old(ndirty))
    {
      hide *;
      ghost var a := Snapshot();
      SnapshotIs();
      var d := FreeRun(c, ind, dirty);
      SnapshotIs();
      if d {
        ghost var b, m1 := Snapshot(), chunks;
        MaybePurge();
        SnapshotIs();
        BetweenIs(cfg, a, b, {(c, ind)}, {});
        BetweenIs(cfg, b, Snapshot(), {}, {});
        BetweenThen(cfg, a, b, Snapshot(), {(c, ind)}, {});
        if interruptions == old(interruptions) { UndisturbedThen(cfg, old(chunks), m1, chunks, {(c, ind)}, {}); }
      }
    }

    /** arena_purge_all */
    method PurgeAll()
      requires Valid()
      modifies this
      ensures Valid() && Mine() && Between(cfg, old(Snapshot()), Snapshot(), {}, {})
      ensures interruptions == old(interruptions) ==>
        && Undisturbed(cfg, old(chunks), chunks, {}, {}) && nactive == old(nactive) && npurgatory == old(npurgatory)
        && ndirty <= npurgatory && (old(Calm()) ==> Calm() && ndirty == 0)
    {
      hide *;
      ValidIs();
      SnapshotIs();
      Begin();
      SnapshotIs();
      PurgeArena(true);
      ValidIs();
      TooDirtyIs();
    }

    /** arena_malloc_large */
    method MallocLarge(need: nat, zero: bool) returns (r: Option<(nat, nat)>)
      requires Valid() && Requestable(cfg, need, Large)
      modifies this
      ensures Valid() && Mine()
      // the run is this thread's, and zero if that was asked for, whatever others do meanwhile
      ensures Between(cfg, old(Snapshot()), Snapshot(), {}, MadeOf(r)) && MadeOf(r) !! old(mine)
      ensures r.Some? ==> Given(cfg, chunks, r.value, need, Large, zero)
      ensures r.None? ==> refusals > old(refusals)
      ensures old(Fits(dirtyTree, cleanTree, need)) ==> BestFit(old(dirtyTree), old(cleanTree), need, r)
      ensures interruptions == old(interruptions) ==>
        && (old(Calm()) ==> Calm())
        && (if r.Some? then
              && AllocatedIn(cfg, old(chunks), chunks, r.value, need, Large, zero) && nactive == old(nactive) + need
            else Undisturbed(cfg, old(chunks), chunks, {}, {}) && nactive == old(nactive))
    {
      hide *;
      ValidIs();
      SnapshotIs();
      LargeIs();
      Begin();
      SnapshotIs();
      ghost var last;
      r, last := RunAlloc(need, Large, zero);
      if interruptions == old(interruptions) && old(Calm()) {
        BoundKept(cfg, lgDirtyMult, old(nactive), old(ndirty), nactive, ndirty);
      }
      ValidIs();
    }

    lemma LargeIs()
      ensures Large.Large?
    {
    }

    /** The run allocation of arena_bin_nonfull_run_get. */
    method AllocBinRun(bin: nat) returns (r: Option<(nat, nat)>)
      requires Valid() && bin < |cfg.runPages| && Requestable(cfg, cfg.runPages[bin], Small(bin))
      modifies this
      ensures Valid() && Mine()
      ensures Between(cfg, old(Snapshot()), Snapshot(), {}, MadeOf(r)) && MadeOf(r) !! old(mine)
      ensures r.Some? ==> Given(cfg, chunks, r.value, cfg.runPages[bin], Small(bin), false)
      ensures r.None? ==> refusals > old(refusals)
      ensures old(Fits(dirtyTree, cleanTree, cfg.runPages[bin])) ==>
        BestFit(old(dirtyTree), old(cleanTree), cfg.runPages[bin], r)
      ensures interruptions == old(interruptions) ==>
        && (old(Calm()) ==> Calm())
        && (if r.Some? then
              && AllocatedIn(cfg, old(chunks), chunks, r.value, cfg.runPages[bin], Small(bin), false)
              && nactive == old(nactive) + cfg.runPages[bin]
            else Undisturbed(cfg, old(chunks), chunks, {}, {}) && nactive == old(nactive))
    {
      hide *;
      ValidIs();
      SnapshotIs();
      Begin();
      SnapshotIs();
      ghost var last;
      r, last := RunAlloc(cfg.runPages[bin], Small(bin), false);
      if interruptions == old(interruptions) && old(Calm()) {
        BoundKept(cfg, lgDirtyMult, old(nactive), old(ndirty), nactive, ndirty);
      }
      ValidIs();
    }

    /** arena_dalloc_large */
    method DallocLarge(c: nat, ind: nat)
      requires c in chunks && ind < |chunks[c].own| && Valid() && LargeAt(cfg, chunks[c], ind) && (c, ind) in mine
      modifies this
      ensures Valid() && Mine() && Between(cfg, old(Snapshot()), Snapshot(), {(c, ind)}, {})
      ensures interruptions == old(interruptions) ==>
        && (old(Calm()) ==> Calm()) && Undisturbed(cfg, old(chunks), chunks, {(c, ind)}, {})
        && nactive + old(chunks[c].own[ind].len) == old(nactive)
    {
      hide *;
      HasInv();
      ValidIs();
      SnapshotIs();
      LargeFreeable(cfg, chunks, spare, dirtyTree, cleanTree, dirtyList, nactive, ndirty, c, ind);
      Begin();
      SnapshotIs();
      RunDalloc(c, ind, true);
      ValidIs();
    }

    /** The page map writes by which the trims make two allocated runs of one (arena.c:979-995, 1011-1026). */
    method Cut(c: nat, ind: nat, len: nat, head: nat)
      requires c in chunks && ind < |chunks[c].own| && 0 < head < len == chunks[c].own[ind].len
      requires Inv() && Resting(cfg, chunks, spare, None) && LargeAt(cfg, chunks[c], ind) && Mine() && (c, ind) in mine
      modifies `chunks, `mine
      ensures Inv() && Resting(cfg, chunks, spare, None) && spare == old(spare) && c in chunks
      ensures chunks == old(chunks)[c := chunks[c]] && LargeAt(cfg, chunks[c], ind) &&
        LargeAt(cfg, chunks[c], ind + head)
      ensures chunks[c].own[ind] == Run(ind, head, Large, old(chunks[c].own[ind].dirty))
      ensures chunks[c].own[ind + head] == Run(ind + head, len - head, Large, old(chunks[c].own[ind].dirty))
      ensures chunks[c].zero == old(chunks[c].zero) && chunks[c].touched == old(chunks[c].touched)
      ensures Undisturbed(cfg, old(chunks), chunks, {(c, ind)}, Pair(c, ind, ind + head))
      ensures Vacant(cfg, old(chunks), (c, ind + head))
      ensures Mine() && Between(cfg, old(Snapshot()), Snapshot(), {(c, ind)}, Pair(c, ind, ind + head))
      ensures (c, ind + head) !in old(mine)
    {
      hide *;
      HasInv();
      var ch := chunks[c];
      LargeFacts(cfg, ch, ind);
      LargeFreeable(cfg, chunks, spare, dirtyTree, cleanTree, dirtyList, nactive, ndirty, c, ind);
      var d := ch.bits[ind].dirty;
      var bits := CutBits(ch.bits, ind, len, head, d);
      ghost var ch' := ch.(bits := bits, own := CutOwn(ch.own, ind, head));
      InvChunk(cfg, chunks, spare, dirtyTree, cleanTree, dirtyList, nactive, ndirty, c);
      CutRecut(cfg, ch, ch', ind, head);
      RecutInv(cfg, chunks, spare, dirtyTree, cleanTree, dirtyList, nactive, ndirty, c, ch', ind, ind + len);
      CutDone(cfg, chunks, spare, c, ch', ind, head);
      MineIs();
      SnapshotIs();
      chunks := chunks[c := ch.(bits := bits, own := CutOwn(ch.own, ind, head))];
      HasInv();
      VacantMine(cfg, old(chunks), mine, c, ind + head);
      CutPlaces(cfg, old(chunks), chunks, old(mine), c, ind, head);
      mine := mine + {(c, ind + head)};
      SnapshotIs();
      Stepped(old(chunks), old(mine), {(c, ind)}, Pair(c, ind, ind + head));
    }

    /** arena_run_trim_head */
    method TrimHead(c: nat, ind: nat, oldsize: nat, newsize: nat)
      requires Inv() && Resting(cfg, chunks, spare, None) && Mine() && (c, ind) in mine
      requires c in chunks && ind < |chunks[c].own| && 0 < newsize < oldsize == chunks[c].own[ind].len
      requires LargeAt(cfg, chunks[c], ind)
      requires !chunks[c].own[ind].dirty ==> Pristine(chunks, c, ind, oldsize - newsize)
      modifies this
      ensures Inv() && Resting(cfg, chunks, spare, None) && Mine()
      ensures var kept: nat := ind + (oldsize - newsize);
        && Between(cfg, old(Snapshot()), Snapshot(), {(c, ind)}, {(c, kept)}) && refusals == old(refusals)
        && KeptPart(cfg, old(chunks), chunks, c, ind, kept, newsize)
        && (interruptions == old(interruptions) ==> Trimmed(cfg, old(chunks), chunks, c, ind, kept, newsize))
      ensures interruptions == old(interruptions) ==>
        && nactive + (oldsize - newsize) == old(nactive) && npurgatory == old(npurgatory)
        && (if old(chunks[c].own[ind].dirty) then npurgatory == 0 ==> Bound() else ndirty <= old(ndirty))
    {
      hide *;
      LargeFacts(cfg, chunks[c], ind);
      ghost var a, m0, d := Snapshot(), chunks, chunks[c].own[ind].dirty;
      SnapshotIs();
      var head := oldsize - newsize;
      Cut(c, ind, oldsize, head);
      LargeFacts(cfg, chunks[c], ind + head);
      ghost var b, m1 := Snapshot(), chunks;
      SnapshotIs();
      HasInv();
      BetweenIs(cfg, a, b, {(c, ind)}, Pair(c, ind, ind + head));
      CutMine(a.mine, b.mine, c, ind, ind + head);
      TrimFreeable(cfg, m0, chunks, spare, dirtyTree, cleanTree, dirtyList, nactive, ndirty, c, ind, head, false);
      RunDalloc(c, ind, false);
      SnapshotIs();
      BetweenIs(cfg, b, Snapshot(), {(c, ind)}, {});
      TrimMine(cfg, a, b, Snapshot(), c, ind, ind + head, ind + head, ind);
      TrimKept(cfg, m0, m1, chunks, b.mine - {(c, ind)}, c, ind, ind + head, newsize, d);
      if interruptions == old(interruptions) {
        TrimDone(cfg, m0, m1, chunks, c, ind, ind + head, ind + head, ind, newsize, d);
      }
    }

    /** arena_run_trim_tail */
    method TrimTail(c: nat, ind: nat, oldsize: nat, newsize: nat, dirty: bool)
      requires Inv() && Resting(cfg, chunks, spare, None) && Mine() && (c, ind) in mine
      requires c in chunks && ind < |chunks[c].own| && 0 < newsize < oldsize == chunks[c].own[ind].len
      requires LargeAt(cfg, chunks[c], ind)
      requires !dirty && !chunks[c].own[ind].dirty ==> Pristine(chunks, c, ind + newsize, oldsize - newsize)
      modifies this
      ensures Inv() && Resting(cfg, chunks, spare, None) && Mine()
      ensures Between(cfg, old(Snapshot()), Snapshot(), {(c, ind)}, {(c, ind)}) && refusals == old(refusals)
      ensures KeptPart(cfg, old(chunks), chunks, c, ind, ind, newsize)
      ensures interruptions == old(interruptions) ==>
        && Trimmed(cfg, old(chunks), chunks, c, ind, ind, newsize)
        && nactive + (oldsize - newsize) == old(nactive) && npurgatory == old(npurgatory)
        && (if dirty || old(chunks[c].own[ind].dirty) then npurgatory == 0 ==> Bound() else ndirty <= old(ndirty))
    {
      hide *;
      LargeFacts(cfg, chunks[c], ind);
      ghost var a, m0, d := Snapshot(), chunks, chunks[c].own[ind].dirty;
      SnapshotIs();
      var head := newsize;
      Cut(c, ind, oldsize, head);
      LargeFacts(cfg, chunks[c], ind);
      ghost var b, m1 := Snapshot(), chunks;
      SnapshotIs();
      HasInv();
      BetweenIs(cfg, a, b, {(c, ind)}, Pair(c, ind, ind + head));
      CutMine(a.mine, b.mine, c, ind, ind + head);
      TrimFreeable(cfg, m0, chunks, spare, dirtyTree, cleanTree, dirtyList, nactive, ndirty, c, ind + head,
        oldsize - newsize, dirty);
      RunDalloc(c, ind + head, dirty);
      SnapshotIs();
      BetweenIs(cfg, b, Snapshot(), {(c, ind + head)}, {});
      TrimMine(cfg, a, b, Snapshot(), c, ind, ind + head, ind, ind + head);
      TrimKept(cfg, m0, m1, chunks, b.mine - {(c, ind + head)}, c, ind, ind, newsize, d);
      if interruptions == old(interruptions) {
        TrimDone(cfg, m0, m1, chunks, c, ind, ind + head, ind, ind + head, newsize, d);
      }
    }

    /** arena_ralloc_large_shrink */
    method RallocLargeShrink(c: nat, ind: nat, oldsize: nat, size: nat)
      requires c in chunks && ind < |chunks[c].own| && 0 < size < oldsize == chunks[c].own[ind].len
      requires Valid() && LargeAt(cfg, chunks[c], ind) && (c, ind) in mine
      modifies this
      ensures Valid() && Mine() && Between(cfg, old(Snapshot()), Snapshot(), {(c, ind)}, {(c, ind)})
      ensures KeptPart(cfg, old(chunks), chunks, c, ind, ind, size)
      ensures interruptions == old(interruptions) ==>
        && (old(Calm()) ==> Calm()) && Trimmed(cfg, old(chunks), chunks, c, ind, ind, size)
        && nactive + (oldsize - size) == old(nactive)
    {
      hide *;
      ValidIs();
      SnapshotIs();
      Begin();
      SnapshotIs();
      TrimTail(c, ind, oldsize, size, true);
      ValidIs();
    }

    /** The run at ind is large, belongs to this thread and holds what an allocation gives. */
    ghost predicate HasRun(c: nat, ind: nat, len: nat, zero: bool, d: bool)
      reads `chunks, `mine
    {
      Live(cfg, chunks, c, Run(ind, len, Large, d)) && Given(cfg, chunks, (c, ind), len, Large, zero) &&
        (c, ind) in mine
    }

    lemma HasRunIs(c: nat, ind: nat, len: nat, zero: bool, d: bool)
      ensures HasRun(c, ind, len, zero, d) <==>
        && Live(cfg, chunks, c, Run(ind, len, Large, d)) && Given(cfg, chunks, (c, ind), len, Large, zero)
        && (c, ind) in mine
    {
    }

    /** The first trim of arena_palloc, if there is anything before the aligned address. */
    method DropLead(c: nat, ind: nat, len: nat, lead: nat, zero: bool, ghost d: bool)
      requires Inv() && Resting(cfg, chunks, spare, None) && Mine() && HasRun(c, ind, len, zero, d) && lead < len
      modifies this
      ensures Inv() && Resting(cfg, chunks, spare, None) && Mine() && refusals == old(refusals)
      ensures var kept: nat, rest: nat := ind + lead, len - lead;
        && HasRun(c, kept, rest, zero, d) && Between(cfg, old(Snapshot()), Snapshot(), {(c, ind)}, {(c, kept)})
        && (interruptions == old(interruptions) ==> Trimmed(cfg, old(chunks), chunks, c, ind, kept, rest))
      ensures interruptions == old(interruptions) ==>
        && nactive + lead == old(nactive) && npurgatory == old(npurgatory)
        && (if d && lead != 0 then npurgatory == 0 ==> Bound() else ndirty <= old(ndirty))
    {
      hide *;
      HasRunIs(c, ind, len, zero, d);
      SnapshotIs();
      HasInv();
      GivenLive(cfg, chunks, spare, dirtyTree, cleanTree, dirtyList, nactive, ndirty, c, ind, len, zero, d);
      if lead == 0 {
        BetweenNone(cfg, Snapshot(), (c, ind));
        TrimNone(cfg, chunks, c, ind, len, d);
        return;
      }
      ghost var a, m0 := Snapshot(), chunks;
      ghost var kept: nat, rest: nat := ind + lead, len - lead;
      PristinePart(chunks, c, ind, len, ind, lead);
      TrimHead(c, ind, len, len - lead);
      assert kept == ind + (len - (len - lead));
      SnapshotIs();
      KeptGiven(cfg, m0, chunks, c, ind, len, kept, rest, zero, d);
      BetweenIs(cfg, a, Snapshot(), {(c, ind)}, {(c, kept)});
      HasRunIs(c, kept, rest, zero, d);
    }

    /** The second, if there is anything behind the size asked for. */
    method DropTrail(c: nat, ind: nat, len: nat, size: nat, zero: bool, ghost d: bool)
      requires Inv() && Resting(cfg, chunks, spare, None) && Mine() && HasRun(c, ind, len, zero, d) && 0 < size <= len
      modifies this
      ensures Inv() && Resting(cfg, chunks, spare, None) && Mine() && HasRun(c, ind, size, zero, d)
      ensures Between(cfg, old(Snapshot()), Snapshot(), {(c, ind)}, {(c, ind)}) && refusals == old(refusals)
      ensures interruptions == old(interruptions) ==>
        && Trimmed(cfg, old(chunks), chunks, c, ind, ind, size)
        && nactive + (len - size) == old(nactive) && npurgatory == old(npurgatory)
        && (if d && size < len then npurgatory == 0 ==> Bound() else ndirty <= old(ndirty))
    {
      hide *;
      HasRunIs(c, ind, len, zero, d);
      SnapshotIs();
      HasInv();
      GivenLive(cfg, chunks, spare, dirtyTree, cleanTree, dirtyList, nactive, ndirty, c, ind, len, zero, d);
      if size == len {
        BetweenNone(cfg, Snapshot(), (c, ind));
        TrimNone(cfg, chunks, c, ind, len, d);
        return;
      }
      ghost var a, m0 := Snapshot(), chunks;
      PristinePart(chunks, c, ind, len, ind + size, len - size);
      TrimTail(c, ind, len, size, false);
      SnapshotIs();
      KeptGiven(cfg, m0, chunks, c, ind, len, ind, size, zero, d);
      BetweenIs(cfg, a, Snapshot(), {(c, ind)}, {(c, ind)});
      HasRunIs(c, ind, size, zero, d);
    }

    /** arena_palloc: over-allocate, then trim the ends so that the run is aligned. */
    method Palloc(size: nat, alignment: nat, zero: bool) returns (r: Option<(nat, nat)>)
      requires Valid() && 0 < size && 0 < alignment && Requestable(cfg, size + alignment - 1, Large)
      modifies this
      ensures Valid() && Mine()
      ensures Between(cfg, old(Snapshot()), Snapshot(), {}, MadeOf(r)) && MadeOf(r) !! old(mine)
      ensures r.Some? ==> Given(cfg, chunks, r.value, size, Large, zero) && Address(cfg, r.value) % alignment == 0
      ensures r.None? ==> refusals > old(refusals)
      ensures interruptions == old(interruptions) ==>
        && (old(Calm()) ==> Calm())
        && (if r.Some? then
              && AllocatedIn(cfg, old(chunks), chunks, r.value, size, Large, zero) && nactive == old(nactive) + size
            else Undisturbed(cfg, old(chunks), chunks, {}, {}) && nactive == old(nactive))
    {
      hide *;
      ValidIs();
      SnapshotIs();
      LargeIs();
      ghost var a, m0, na0, nd0 := Snapshot(), chunks, nactive, ndirty;
      var allocSize := size + alignment - 1;
      Begin();
      SnapshotIs();
      ghost var last;
      r, last := RunAlloc(allocSize, Large, zero);
      MadeIsOf(r);
      SnapshotIs();
      if r.None? {
        if interruptions == old(interruptions) && old(Calm()) {
          BoundKept(cfg, lgDirtyMult, na0, nd0, nactive, ndirty);
        }
        ValidIs();
        return;
      }
      var (c, ind) := r.value;
      var lead := Lead(Address(cfg, r.value), alignment);
      LeadAligned(cfg, c, ind, alignment);
      ValidIs();
      ghost var b, m1 := Snapshot(), chunks;
      ghost var d := Obtained(c, ind, allocSize, zero, a);
      ghost var kept: nat, rest: nat := ind + lead, allocSize - lead;
      HasRunIs(c, ind, allocSize, zero, d);
      HasInv();
      GivenLive(cfg, chunks, spare, dirtyTree, cleanTree, dirtyList, nactive, ndirty, c, ind, allocSize, zero, d);
      DropLead(c, ind, allocSize, lead, zero, d);
      SnapshotIs();
      ghost var b2, m2, na2, nd2 := Snapshot(), chunks, nactive, ndirty;
      ValidIs();
      HasRunIs(c, kept, rest, zero, d);
      HasInv();
      GivenLive(cfg, chunks, spare, dirtyTree, cleanTree, dirtyList, nactive, ndirty, c, kept, rest, zero, d);
      DropTrail(c, ind + lead, allocSize - lead, size, zero, d);
      SnapshotIs();
      HasRunIs(c, ind + lead, size, zero, d);
      r := Some((c, ind + lead));
      MadeIsOf(r);
      PallocBetween(cfg, a, b, b2, Snapshot(), m1, c, ind, kept);
      if interruptions == old(interruptions) {
        BetweenIs(cfg, a, b, {}, {(c, ind)});
        BetweenIs(cfg, b, b2, {(c, ind)}, {(c, kept)});
        BetweenIs(cfg, b2, Snapshot(), {(c, kept)}, {(c, kept)});
        TrimAllocated(cfg, m0, m1, m2, c, ind, allocSize, kept, rest, zero, d);
        TrimAllocated(cfg, m0, m2, chunks, c, kept, rest, kept, size, zero, d);
        PallocBound(na0, nd0, na2, nd2, allocSize, lead, size, d);
      }
      ValidIs();
    }

    /** The run just allocated, before it is trimmed. */
    lemma Obtained(c: nat, ind: nat, len: nat, zero: bool, a: Snap) returns (d: bool)
      requires Given(cfg, chunks, (c, ind), len, Large, zero) && Between(cfg, a, Snapshot(), {}, {(c, ind)})
      ensures HasRun(c, ind, len, zero, d)
    {
      SnapshotIs();
      BetweenIs(cfg, a, Snapshot(), {}, {(c, ind)});
      d := GivenDirty(cfg, chunks, c, ind, len, zero);
      HasRunIs(c, ind, len, zero, d);
      hide *;
      OwnPlace(a.mine, c, ind);
    }

    /** The bound after the trims, if nobody else stepped in. */
    lemma PallocBound(na: nat, nd: nat, na2: nat, nd2: nat, len: nat, lead: nat, size: nat, d: bool)
      requires lead + size <= len && na2 + lead == na + len && nactive == na + size
      requires if d && lead != 0 then npurgatory == 0 ==> BoundOf(cfg, lgDirtyMult, na2, nd2) else nd2 <= nd
      requires if d && lead + size < len then npurgatory == 0 ==> Bound() else ndirty <= nd2
      ensures npurgatory == 0 && BoundOf(cfg, lgDirtyMult, na, nd) ==> Bound()
    {
      ValidIs();
      hide *;
      if npurgatory == 0 && BoundOf(cfg, lgDirtyMult, na, nd) && !(d && lead + size < len) {
        if d && lead != 0 {
          BoundKept(cfg, lgDirtyMult, na2, nd2, nactive, ndirty);
        } else {
          BoundKept(cfg, lgDirtyMult, na, nd, nactive, ndirty);
        }
      }
    }

    /** A clean small run becomes a large run of the same pages (arena.c:1424-1436). */
    method Enlarge(c: nat, ind: nat)
      requires Inv() && Resting(cfg, chunks, spare, None) && Mine() && (c, ind) in mine
      requires c in chunks && SmallAt(cfg, chunks[c], ind) && ind < |chunks[c].own|
      requires !chunks[c].own[ind].dirty && chunks[c].own[ind].len > 1
      modifies `chunks
      ensures Inv() && Resting(cfg, chunks, spare, None) && Mine() && c in chunks
      ensures LargeAt(cfg, chunks[c], ind) && ind < |chunks[c].own|
      ensures chunks[c].own[ind] == old(chunks[c].own[ind]).(kind := Large) &&
        chunks[c].touched == old(chunks[c].touched)
      ensures Undisturbed(cfg, old(chunks), chunks, {(c, ind)}, {(c, ind)})
      ensures Between(cfg, old(Snapshot()), Snapshot(), {(c, ind)}, {(c, ind)})
    {
      hide *;
      MineIs();
      SnapshotIs();
      HasInv();
      SmallFacts(cfg, chunks, spare, dirtyTree, cleanTree, dirtyList, nactive, ndirty, c, ind);
      var ch := chunks[c];
      var npages := cfg.runPages[ch.bits[ind].bin];
      LargerShape(cfg, ch, ind);
      ghost var own := Paint(ch.own, ind, ind + npages, ch.own[ind].(kind := Large));
      var bits := JoinBits(ch.bits, ind, npages, false);
      ghost var ch' := ch.(bits := bits, own := own);
      LargerRecut(cfg, ch, ch', ind);
      RecutInv(cfg, chunks, spare, dirtyTree, cleanTree, dirtyList, nactive, ndirty, c, ch', ind, ind + npages);
      LargerDone(cfg, chunks, spare, c, ch', ind);
      chunks := chunks[c := ch.(bits := bits, own := own)];
      HasInv();
      LargeOwned(cfg, chunks, c, ind);
      SameMine(mine, (c, ind));
      SnapshotIs();
      Stepped(old(chunks), mine, {(c, ind)}, {(c, ind)});
    }

    /** arena_dalloc_bin_run: the pages from `past` on were never handed out, so if the run was clean they are trimmed
        off as clean before the rest is freed as dirty. */
    method DallocBinRun(c: nat, ind: nat, past: nat)
      requires Valid() && c in chunks && SmallAt(cfg, chunks[c], ind) && ind < |chunks[c].own| && (c, ind) in mine
      requires ind < past <= ind + chunks[c].own[ind].len
      requires Pristine(chunks, c, past, ind + chunks[c].own[ind].len - past)
      modifies this
      ensures Valid() && Mine() && Between(cfg, old(Snapshot()), Snapshot(), {(c, ind)}, {})
      ensures interruptions == old(interruptions) ==>
        && (old(Calm()) ==> Calm()) && Undisturbed(cfg, old(chunks), chunks, {(c, ind)}, {})
        && nactive + old(chunks[c].own[ind].len) == old(nactive)
        // only pages that were handed out become dirty
        && ndirty <= old(ndirty) + if old(chunks[c].own[ind].dirty) then old(chunks[c].own[ind].len) else past - ind
    {
      hide *;
      ValidIs();
      HasInv();
      SnapshotIs();
      ghost var a, m0 := Snapshot(), chunks;
      SmallFacts(cfg, chunks, spare, dirtyTree, cleanTree, dirtyList, nactive, ndirty, c, ind);
      Begin();
      SnapshotIs();
      var npages := cfg.runPages[chunks[c].bits[ind].bin];
      if !chunks[c].bits[ind].dirty && past - ind < npages {
        Enlarge(c, ind);
        SnapshotIs();
        ghost var b, m1 := Snapshot(), chunks;
        PristineKept(m0, chunks, c, past, ind + npages - past);
        TrimTail(c, ind, npages, past - ind, false);
        SnapshotIs();
        HasInv();
        ghost var e, m2 := Snapshot(), chunks;
        TrimLarge(cfg, m1, chunks, spare, dirtyTree, cleanTree, dirtyList, nactive, ndirty, c, ind, ind, past - ind);
        LargeFreeable(cfg, chunks, spare, dirtyTree, cleanTree, dirtyList, nactive, ndirty, c, ind);
        ReMine(cfg, a, b, e, (c, ind));
        RunDalloc(c, ind, true);
        SnapshotIs();
        BetweenIs(cfg, a, e, {(c, ind)}, {(c, ind)});
        BetweenIs(cfg, e, Snapshot(), {(c, ind)}, {});
        DropMine(cfg, a, e, Snapshot(), (c, ind));
        if interruptions == old(interruptions) {
          TrimmedIs(cfg, m1, m2, c, ind, ind, past - ind);
          ReMade(cfg, m0, m1, m2, (c, ind));
          DropMade(cfg, m0, m2, chunks, (c, ind));
        }
      } else {
        RunDalloc(c, ind, true);
      }
      ValidIs();
    }

    /** The large run at ind absorbs the one behind it (arena.c:1766-1779). */
    method Join(c: nat, ind: nat, len: nat, ghost e: nat) returns (ghost d: bool)
      requires Inv() && Resting(cfg, chunks, spare, None) && Mine() && c in chunks && spare != Some(c)
      requires Mergeable(cfg, chunks[c], ind) && ind < |chunks[c].own| && e == ind + chunks[c].own[ind].len
      requires len == JoinedRun(cfg, chunks[c], ind).len && (c, ind) in mine && (c, e) in mine
      modifies `chunks, `mine
      ensures Inv() && Resting(cfg, chunks, spare, None) && Mine() && c in chunks
      ensures old(JoinedRun(cfg, chunks[c], ind)) == Run(ind, len, Large, d) &&
        Live(cfg, chunks, c, Run(ind, len, Large, d))
      ensures chunks[c].zero == old(chunks[c].zero) && chunks[c].touched == old(chunks[c].touched)
      ensures Undisturbed(cfg, old(chunks), chunks, Pair(c, ind, e), {(c, ind)})
      ensures Between(cfg, old(Snapshot()), Snapshot(), Pair(c, ind, e), {(c, ind)})
    {
      hide *;
      MineIs();
      SnapshotIs();
      HasInv();
      JoinTagFacts(cfg, chunks[c], ind);
      JoinedIs(cfg, chunks[c], ind);
      var ch := chunks[c];
      var dirty := ch.bits[ind].dirty || ch.bits[ind + len - 1].dirty;
      var bits := JoinBits(ch.bits, ind, len, dirty);
      d := dirty;
      RunEnd(ind, len, d);
      ghost var ch' := ch.(bits := bits, own := Paint(ch.own, ind, ind + len, Run(ind, len, Large, d)));
      JoinRecut(cfg, ch, ch', ind);
      MergeableOK(cfg, ch, ind);
      RecutInv(cfg, chunks, spare, dirtyTree, cleanTree, dirtyList, nactive, ndirty, c, ch', ind, ind + len);
      JoinDone(cfg, chunks, spare, c, ch', ind, e);
      chunks := chunks[c := ch.(bits := bits, own := Paint(ch.own, ind, ind + len, Run(ind, len, Large, d)))];
      HasInv();
      mine := mine - {(c, ind + ch.bits[ind].num)};
      JoinPlaces(cfg, old(chunks), chunks, old(mine), c, ind, e, Run(ind, len, Large, d));
      SnapshotIs();
      Stepped(old(chunks), old(mine), Pair(c, ind, e), {(c, ind)});
    }

    /** The first pages of the free run behind a large run are split off and joined to it. */
    method Extend(c: nat, ind: nat, oldsize: nat, ghost lo: nat, ghost hi: nat, split: nat, zero: bool)
      requires c in chunks && ind < |chunks[c].own| && Mine() && (c, ind) in mine && oldsize == chunks[c].own[ind].len
      requires Inv() && Resting(cfg, chunks, spare, None) && LargeAt(cfg, chunks[c], ind)
      requires 0 < split <= FollowLen(chunks[c], ind) && lo <= oldsize + split <= hi
      modifies `chunks, `dirtyTree, `cleanTree, `nactive, `ndirty, `mine
      ensures Inv() && Resting(cfg, chunks, spare, None) && Mine()
      ensures Between(cfg, old(Snapshot()), Snapshot(), {(c, ind)}, {(c, ind)})
      ensures Grown(cfg, old(chunks), chunks, c, ind, oldsize, lo, hi, zero) &&
        GrownLen(chunks, c, ind) == oldsize + split
      ensures nactive == old(nactive) + split && ndirty <= old(ndirty)
    {
      hide *;
      SnapshotIs();
      HasInv();
      ghost var a, m0 := Snapshot(), chunks;
      var e := ind + oldsize;
      LargeFacts(cfg, chunks[c], ind);
      LargeFreeable(cfg, chunks, spare, dirtyTree, cleanTree, dirtyList, nactive, ndirty, c, ind);
      FollowFacts(cfg, chunks[c], ind);
      FollowsIs(cfg, chunks[c], ind);
      FollowLenIs(chunks[c], ind);
      ghost var d2 := chunks[c].own[e].dirty;
      FollowSplittable(cfg, chunks[c], ind, e, split);
      RestingExcept(cfg, chunks, spare, c);
      LargeIs();
      Carve(c, e, split, Large, zero);
      HasInv();
      ghost var b, m1 := Snapshot(), chunks;
      InvChunk(cfg, chunks, spare, dirtyTree, cleanTree, dirtyList, nactive, ndirty, c);
      GrowMergeable(cfg, m0, m1, c, ind, e, split, d2);
      SnapshotIs();
      BetweenIs(cfg, a, b, {}, {(c, e)});
      ghost var d := Join(c, ind, oldsize + split, e);
      SnapshotIs();
      JoinBetween(cfg, a, b, Snapshot(), c, ind, e);
      JoinMoves(cfg, m0, m1, chunks, c, ind, e);
      GrownIs(cfg, m0, m1, chunks, c, ind, oldsize, lo, hi, zero, oldsize + split, d);
    }

    /** arena_ralloc_large_grow, true when it fails; it never drops the lock. `size - oldsize` is unsigned, so a size
        below oldsize asks for more than any run has. */
    method RallocLargeGrow(c: nat, ind: nat, oldsize: nat, size: nat, extra: nat, zero: bool) returns (failed: bool)
      requires c in chunks && ind < |chunks[c].own| && Valid() && LargeAt(cfg, chunks[c], ind) && (c, ind) in mine
      requires oldsize == chunks[c].own[ind].len && oldsize < size + extra
      modifies `chunks, `dirtyTree, `cleanTree, `nactive, `ndirty, `mine, `since, `had
      ensures Valid() && Mine() && (old(Calm()) ==> Calm())
      ensures Between(cfg, old(Snapshot()), Snapshot(), {(c, ind)}, {(c, ind)})
      ensures failed ==> Now() == old(Now())
      // it fails exactly if the free space behind the run is too small, and takes all of that up to size + extra
      ensures var follow := old(FollowLen(chunks[c], ind));
        && (failed <==> size < oldsize || follow == 0 || follow < size - oldsize)
        && (!failed ==>
          GrownLen(chunks, c, ind) == if oldsize + follow <= size + extra then oldsize + follow else size + extra)
      ensures !failed ==> Grown(cfg, old(chunks), chunks, c, ind, oldsize, size, size + extra, zero)
      ensures !failed ==> oldsize < size + extra && nactive + oldsize == old(nactive) + GrownLen(chunks, c, ind)
    {
      hide *;
      ValidIs();
      HasInv();
      NowIs();
      SnapshotIs();
      Begin();
      SnapshotIs();
      LargeFacts(cfg, chunks[c], ind);
      FollowFacts(cfg, chunks[c], ind);
      FollowsIs(cfg, chunks[c], ind);
      var ch := chunks[c];
      var e := ind + oldsize;
      if e < cfg.npages && !ch.bits[e].inUse && size >= oldsize && ch.bits[e].num >= size - oldsize {
        var follow := ch.bits[e].num;
        var split := if oldsize + follow <= size + extra then follow else size + extra - oldsize;
        Extend(c, ind, oldsize, size, size + extra, split, zero);
        if old(Calm()) { BoundKept(cfg, lgDirtyMult, old(nactive), old(ndirty), nactive, ndirty); }
        ValidIs();
        return false;
      }
      failed := true;
      SameMine(mine, (c, ind));
      BetweenNone(cfg, Snapshot(), (c, ind));
      ValidIs();
    }

    /** The owner of a live run writes one of its pages; `z` tells whether the page is all zero afterwards. It needs no
        lock. */
    method Write(c: nat, ghost r: Run, p: nat, z: bool)
      requires Valid() && Live(cfg, chunks, c, r) && r.start <= p < r.End() && (c, r.start) in mine
      modifies `chunks, `since, `had
      ensures Valid() && Mine() && c in chunks && old(c in chunks)
      ensures p < |old(chunks[c].zero)| && p < |old(chunks[c].touched)|
      ensures chunks == old(chunks)[c :=
        old(chunks[c]).(zero := old(chunks[c].zero)[p := z], touched := old(chunks[c].touched)[p := true])]
      ensures Between(cfg, old(Snapshot()), Snapshot(), {(c, r.start)}, {(c, r.start)})
    {
      hide *;
      ValidIs();
      SnapshotIs();
      Begin();
      MineIs();
      HasInv();
      LiveChunk(cfg, chunks, c, r);
      WriteOK(cfg, chunks, spare, dirtyTree, cleanTree, dirtyList, nactive, ndirty, c, r, p, z);
      ghost var touched := chunks[c].touched[p := true];
      ghost var ch' := chunks[c].(zero := chunks[c].zero[p := z], touched := touched);
      MemoryInv(cfg, chunks, spare, dirtyTree, cleanTree, dirtyList, nactive, ndirty, c, ch');
      WriteRests(cfg, chunks, spare, c, ch');
      WriteUndisturbed(cfg, chunks, c, r, p, ch');
      chunks := chunks[c := chunks[c].(zero := chunks[c].zero[p := z], touched := touched)];
      HasInv();
      MadeIs(cfg, old(chunks), chunks, c, r.start, r);
      SameMine(mine, (c, r.start));
      SnapshotIs();
      Stepped(old(chunks), mine, {(c, r.start)}, {(c, r.start)});
      ValidIs();
    }

    /** arena_new, as far as runs are concerned */
    constructor (cfg: Config, purgeZeroes: bool, lgDirtyMult: int, others: (nat, State, set<Place>) -> State,
                 system: (nat, State) -> Option<NewChunk>)
      requires cfg.Valid() && Respectful(cfg, others) && Lawful(cfg, system)
      ensures Valid() && Calm() && mine == {} && refusals == drops == interruptions == purged == 0
      ensures Now() == State(map[], None, {}, {}, [], 0, 0, 0)
      ensures this.cfg == cfg && this.purgeZeroes == purgeZeroes && this.lgDirtyMult == lgDirtyMult
      ensures this.others == others && this.system == system
    {
      this.cfg, this.purgeZeroes, this.lgDirtyMult := cfg, purgeZeroes, lgDirtyMult;
      this.others, this.system := others, system;
      chunks, spare, dirtyTree, cleanTree, dirtyList := map[], None, {}, {}, [];
      nactive, ndirty, npurgatory := 0, 0, 0;
      mine, drops, had, theirs, interruptions, refusals := {}, 0, {}, 0, 0, 0;
      purged, latest := 0, 0;
    }
  }

  // ---------- the last search of arena_run_alloc can succeed ----------

  /** If one page is active in an arena with two usable pages a chunk, there is a run for one page. */
  lemma OneLeft(c: Config, chunks: map<nat, Chunk>, spare: Option<nat>, dt: set<Node>, ct: set<Node>, dl: seq<nat>,
                nd: nat, x: nat, ind: nat, d: bool)
    requires InvOf(c, chunks, spare, dt, ct, dl, 1, nd) && c.bias == 1 && c.npages == 3
    requires Live(c, chunks, x, Run(ind, 1, Large, d))
    ensures Fits(dt, ct, 1)
  {
    var ch, q := chunks[x], 3 - ind;
    TotalActiveOf(c, chunks, x);
    if spare == Some(x) { NoLiveInIdle(c, chunks, x); }
    hide ListOK, TotalDirty, TotalActive, ZeroOK, Config.Tagged, PageZeroOK;
    OnePage(c, ch, ind, d);
    var n := Node(1, x, q);
    assert IsFree(c, ch, q, chunks[x].own[q].len, ch.own[q].dirty);
    assert n in dt || n in ct;
    SomeFits(dt, ct, 1, n);
  }

  lemma OnePage(c: Config, ch: Chunk, ind: nat, d: bool)
    requires ChunkOK(c, ch) && c.bias == 1 && c.npages == 3 && ActivePages(c, ch) <= 1
    requires Starts(c, ch, ind) && ch.own[ind] == Run(ind, 1, Large, d)
    ensures ind == 1 || ind == 2
    ensures ch.own[3 - ind] == Run(3 - ind, 1, Free, ch.own[3 - ind].dirty)
  {
    hide ZeroOK, Config.Tagged, PageZeroOK;
    var r := ch.own[3 - ind];
    assert Count(ch.own, Active, 1, 1) == 0;
    assert Count(ch.own, Active, 1, 2) == if ClassOf(ch.own[1]) == Active then 1 else 0;
    assert Count(ch.own, Active, 1, 3) == Count(ch.own, Active, 1, 2) + if ClassOf(ch.own[2]) == Active then 1 else 0;
  }

  /** What an arena can look like: one chunk, of which one page is taken. */
  method OnePageTaken(cfg: Config) returns (s: State)
    requires cfg == Config(1, 3, [])
    ensures GoodState(cfg, s) && Fits(s.dirtyTree, s.cleanTree, 1)
  {
    hide *;
    var others := (n: nat, s: State, mine: set<Place>) => s;
    var system := (n: nat, s: State) =>
      if |s.chunks| == 0 then Some(NewChunk(0, false, seq(3, p => Unallocated(0, false, false)), seq(3, p => false)))
      else None;
    ValidConfig(cfg);
    StillLawful(cfg, others, system);
    var a := new Arena(cfg, false, 3, others, system);
    a.ValidIs();
    a.Begin();
    a.NowIs();
    PageRequestable(cfg);
    var r, _ := a.RunAlloc(1, Large, false);
    a.HasInv();
    ghost var d := GivenLarge(cfg, a.chunks, a.spare, a.dirtyTree, a.cleanTree, a.dirtyList, a.nactive, a.ndirty,
      r.value.0, r.value.1, 1, false);
    LargeLive(cfg, a.chunks, r.value.0, r.value.1);
    OneLeft(cfg, a.chunks, a.spare, a.dirtyTree, a.cleanTree, a.dirtyList, a.ndirty, r.value.0, r.value.1, d);
    s := a.Now();
    a.NowIs();
  }

  lemma ValidConfig(c: Config)
    requires c == Config(1, 3, [])
    ensures c.Valid() && c.bias == 1 && c.npages == 3
  {
  }

  lemma PageRequestable(c: Config)
    requires c == Config(1, 3, [])
    ensures Requestable(c, 1, Large) && Large.Large?
  {
  }

  /** Others that do nothing, and a system that has one chunk. */
  lemma StillLawful(c: Config, others: (nat, State, set<Place>) -> State, system: (nat, State) -> Option<NewChunk>)
    requires c == Config(1, 3, []) && forall n, s, mine :: others(n, s, mine) == s
    requires forall n, s :: system(n, s).Some? ==>
      var chunk := system(n, s).value; |s.chunks| == 0 && !chunk.zeroed && |chunk.bits| == |chunk.zero| == 3
    ensures Respectful(c, others) && Lawful(c, system)
  {
    hide GoodState, OwnedIn, Relied;
    forall n: nat, s: State, mine: set<Place> | GoodState(c, s) && OwnedIn(c, s.chunks, mine)
      ensures GoodState(c, others(n, s, mine)) && Relied(c, s.chunks, others(n, s, mine).chunks, mine)
    {
      ReliedSame(c, s.chunks, mine);
    }
  }

  /** Others that put a run into an empty arena. */
  lemma HelpLawful(c: Config, others: (nat, State, set<Place>) -> State, system: (nat, State) -> Option<NewChunk>,
                   t: State)
    requires GoodState(c, t)
    requires forall n, s, mine :: others(n, s, mine) == if |s.chunks| == 0 then t else s
    requires forall n, s :: system(n, s) == None
    ensures Respectful(c, others) && Lawful(c, system)
  {
    hide GoodState;
    forall n: nat, s: State, mine: set<Place> | GoodState(c, s) && OwnedIn(c, s.chunks, mine)
      ensures GoodState(c, others(n, s, mine)) && Relied(c, s.chunks, others(n, s, mine).chunks, mine)
    {
      ReliedSame(c, s.chunks, mine);
    }
  }

  /** An arena without a chunk, which the system gives none, still hands out a run: another thread has put one there
      while this one was asking the system. */
  method HelpedByOthers() returns (a: Arena, r: Option<Place>, ghost last: Option<State>)
    ensures fresh(a) && a.Valid() && a.Mine() && a.refusals == 1 && forall n, s :: a.system(n, s) == None
    ensures last.Some? && r.Some? && Given(a.cfg, a.chunks, r.value, 1, Large, false) && r.value in a.mine
  {
    hide *;
    var cfg := Config(1, 3, []);
    var t := OnePageTaken(cfg);
    var others := (n: nat, s: State, mine: set<Place>) => if |s.chunks| == 0 then t else s;
    var system: (nat, State) -> Option<NewChunk> := (n: nat, s: State) => None;
    ValidConfig(cfg);
    HelpLawful(cfg, others, system, t);
    a := new Arena(cfg, false, 3, others, system);
    a.ValidIs();
    a.Begin();
    a.NowIs();
    a.SnapshotIs();
    PageRequestable(cfg);
    NothingFits();
    ghost var b := a.Snapshot();
    r, last := a.RunAlloc(1, Large, false);
    a.SnapshotIs();
    MadeIsOf(r);
    BetweenIs(cfg, b, a.Snapshot(), {}, MadeOf(r));
    a.ValidIs();
  }

  lemma NothingFits()
    ensures !Fits({}, {}, 1)
  {
  }
}
