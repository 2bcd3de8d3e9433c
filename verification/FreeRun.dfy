/** Value-level steps of arena_run_dalloc and of taking and giving back whole chunks (arena.c:359-464, 813-964). */
module FreeSteps {
  import opened Basics
  import opened PageMap
  import opened ArenaChunk
  import opened Avail
  import opened ArenaInv
  import opened LiveRuns
  import opened ChunkSteps

  function SizeSet(b: Bits, num: nat): Bits { b.(num := num) }

  /** What arena_run_dalloc reads from the page map about the run at `ind` and its neighbours. */
  ghost predicate Neighbours(c: Config, ch: Chunk, ind: nat, d: bool)
    requires FreeableAs(c, ch, ind, d)
  {
    NextIs(c, ch, ind, d) && PrevIs(c, ch, ind, d)
  }

  ghost predicate NextIs(c: Config, ch: Chunk, ind: nat, d: bool)
    requires FreeableAs(c, ch, ind, d)
  {
    var e, fe := ch.own[ind].End(), FreeEnd(c, ch, ind, d);
    && (e < c.npages && !ch.bits[e].inUse && ch.bits[e].dirty == d <==> e < fe)
    && (e < fe ==> TagPair(ch.bits, e, fe, d))
  }

  ghost predicate PrevIs(c: Config, ch: Chunk, ind: nat, d: bool)
    requires FreeableAs(c, ch, ind, d)
  {
    var fs := FreeStart(c, ch, ind, d);
    && (c.bias < ind && !ch.bits[ind - 1].inUse && ch.bits[ind - 1].dirty == d <==> fs < ind)
    && (fs < ind ==> TagPair(ch.bits, fs, ind, d))
  }

  /** Both ends of the free run [s,e) are tagged with its size and dirtiness d. */
  ghost predicate TagPair(bits: seq<Bits>, s: nat, e: nat, d: bool) {
    && s < e <= |bits| && bits[s].num == bits[e - 1].num == e - s
    && !bits[s].inUse && !bits[e - 1].inUse && !bits[s].large && !bits[e - 1].large
    && bits[s].dirty == bits[e - 1].dirty == d
  }

  lemma NeighboursOK(c: Config, ch: Chunk, ind: nat, d: bool)
    requires FreeableAs(c, ch, ind, d)
    ensures Neighbours(c, ch, ind, d)
  {
    NextNeighbour(c, ch, ind, d);
    PrevNeighbour(c, ch, ind, d);
    hide *;
    NeighboursIs(c, ch, ind, d);
  }

  lemma NeighboursIs(c: Config, ch: Chunk, ind: nat, d: bool)
    requires FreeableAs(c, ch, ind, d) && NextIs(c, ch, ind, d) && PrevIs(c, ch, ind, d)
    ensures Neighbours(c, ch, ind, d)
  {
    hide FreeableAs, FreeStart, FreeEnd;
  }

  lemma NextNeighbour(c: Config, ch: Chunk, ind: nat, d: bool)
    requires FreeableAs(c, ch, ind, d)
    ensures NextIs(c, ch, ind, d)
  {
    var e := ch.own[ind].End();
    EndIsBoundary(c, ch.own, ind);
    if e < c.npages {
      assert c.Tagged(ch.bits, ch.own[e]);
      EndIsBoundary(c, ch.own, e);
    }
    hide Config.Tiled, Config.Coalesced, ZeroOK, Count;
  }

  lemma PrevNeighbour(c: Config, ch: Chunk, ind: nat, d: bool)
    requires FreeableAs(c, ch, ind, d)
    ensures PrevIs(c, ch, ind, d)
  {
    if c.bias < ind {
      PrevEndsHere(c, ch.own, ind);
      assert c.Tagged(ch.bits, ch.own[ind - 1]);
    }
    hide Config.Coalesced, ZeroOK, Count;
  }

  ghost predicate FreeMapped(c: Config, ch: Chunk, b: seq<Bits>, ind: nat, d: bool, total: nat, next: nat, prev: nat)
    requires FreeableAs(c, ch, ind, d)
  {
    && FreeBits(c, ch, b, ind, d) && |b| == |ch.bits|
    && prev <= ind && FreedRun(c, ch, ind, d) == Run(ind - prev, total, Free, d)
    && total == prev + ch.own[ind].len + next
  }

  ghost predicate KeepsUnzeroed(bits: seq<Bits>, b: seq<Bits>, s: nat, e: nat) {
    e <= |bits| == |b| && forall p :: s <= p < e ==> b[p].unzeroed == bits[p].unzeroed
  }

  /** b differs from bits only in [s,e), which it tags as one free run. */
  ghost predicate FreeTo(bits: seq<Bits>, b: seq<Bits>, s: nat, e: nat, d: bool) {
    TagPair(b, s, e, d) && SameOutside(bits, b, s, e) && (!d ==> KeepsUnzeroed(bits, b, s, e))
  }

  /** The new size is written at both ends of the run that starts at s. */
  function Widen(b: seq<Bits>, s: nat, total: nat): (w: seq<Bits>)
    requires 0 < total && s + total <= |b|
    ensures |w| == |b|
    ensures forall p {:trigger w[p]} :: 0 <= p < |b| ==>
      w[p] == if p == s || p == s + total - 1 then b[p].(num := total) else b[p]
  {
    b[s := SizeSet(b[s], total)][s + total - 1 := SizeSet(b[s + total - 1], total)]
  }

  method MarkFree(bits: seq<Bits>, ind: nat, pages: nat, d: bool) returns (b: seq<Bits>)
    requires 0 < pages && ind + pages <= |bits|
    ensures FreeTo(bits, b, ind, ind + pages, d)
  {
    if d {
      b := bits[ind := Unallocated(pages, true, false)];
      b := b[ind + pages - 1 := Unallocated(pages, true, false)];
    } else {
      b := bits[ind := Unallocated(pages, false, bits[ind].unzeroed)];
      b := b[ind + pages - 1 := Unallocated(pages, false, b[ind + pages - 1].unzeroed)];
    }
  }

  lemma WidenForward(bits: seq<Bits>, b: seq<Bits>, s: nat, m: nat, e: nat, d: bool)
    requires FreeTo(bits, b, s, m, d) && TagPair(bits, m, e, d)
    ensures FreeTo(bits, Widen(b, s, e - s), s, e, d)
  {
    assert b[e - 1] == bits[e - 1];
  }

  lemma WidenBackward(bits: seq<Bits>, b: seq<Bits>, s: nat, m: nat, e: nat, d: bool)
    requires FreeTo(bits, b, m, e, d) && TagPair(bits, s, m, d)
    ensures FreeTo(bits, Widen(b, s, e - s), s, e, d)
  {
    assert b[s] == bits[s];
  }

  lemma FreeToBits(c: Config, ch: Chunk, b: seq<Bits>, ind: nat, d: bool, total: nat, next: nat, prev: nat)
    requires FreeableAs(c, ch, ind, d) && prev <= ind
    requires FreeTo(ch.bits, b, ind - prev, ind - prev + total, d) && total == prev + ch.own[ind].len + next
    requires FreeStart(c, ch, ind, d) == ind - prev && FreeEnd(c, ch, ind, d) == ind - prev + total
    ensures FreeMapped(c, ch, b, ind, d, total, next, prev)
  {
    hide ChunkOK, Starts, FreeStart, FreeEnd;
  }

  /** Mark the run free and coalesce it with its free neighbours (arena.c:853-929). Returns the size of the
      coalesced run and of the neighbours merged into it (0 where there was none). */
  method FreeMap(c: Config, ch: Chunk, ind: nat, pages: nat, d: bool)
    returns (b: seq<Bits>, total: nat, next: nat, prev: nat)
    requires FreeableAs(c, ch, ind, d) && pages == ch.own[ind].len
    ensures FreeMapped(c, ch, b, ind, d, total, next, prev)
  {
    hide *;
    ghost var fs, fe := SideFacts(c, ch, ind, d);
    b := MarkFree(ch.bits, ind, pages, d);
    total, next, prev := pages, 0, 0;
    FreeToKeeps(ch.bits, b, ind, ind + total, d);
    if ind + pages < c.npages && !b[ind + pages].inUse && b[ind + pages].dirty == d {
      next := b[ind + pages].num;
      WidenForward(ch.bits, b, ind, ind + pages, fe, d);
      total := total + next;
      b := Widen(b, ind, total);
    }
    FreeToKeeps(ch.bits, b, ind, ind + total, d);
    if c.bias < ind && !b[ind - 1].inUse && b[ind - 1].dirty == d {
      prev := b[ind - 1].num;
      WidenBackward(ch.bits, b, fs, ind, fe, d);
      total := total + prev;
      b := Widen(b, ind - prev, total);
    }
    FreeToBits(c, ch, b, ind, d, total, next, prev);
  }

  /** The same, as plain facts about the map. */
  lemma SideFacts(c: Config, ch: Chunk, ind: nat, d: bool) returns (fs: nat, fe: nat)
    requires FreeableAs(c, ch, ind, d)
    ensures |ch.bits| == c.npages && 0 < ch.own[ind].len
    ensures fs == FreeStart(c, ch, ind, d) && fe == FreeEnd(c, ch, ind, d)
    ensures fs <= ind && ind + ch.own[ind].len <= fe <= c.npages
    ensures var e := ind + ch.own[ind].len;
      && (e < c.npages && !ch.bits[e].inUse && ch.bits[e].dirty == d <==> e < fe)
      && (e < fe ==> TagPair(ch.bits, e, fe, d) && ch.bits[e].num == fe - e)
      && (c.bias < ind && !ch.bits[ind - 1].inUse && ch.bits[ind - 1].dirty == d <==> fs < ind)
      && (fs < ind ==> TagPair(ch.bits, fs, ind, d) && ch.bits[ind - 1].num == ind - fs)
  {
    NeighboursOK(c, ch, ind, d);
    fs, fe := FreeStart(c, ch, ind, d), FreeEnd(c, ch, ind, d);
  }

  lemma FreeToKeeps(bits: seq<Bits>, b: seq<Bits>, s: nat, e: nat, d: bool)
    requires FreeTo(bits, b, s, e, d)
    ensures |b| == |bits| && e <= |b|
    ensures e < |b| ==> b[e] == bits[e]
    ensures 0 < s ==> b[s - 1] == bits[s - 1]
  {
  }

  lemma FreeFacts(c: Config, ch: Chunk, ind: nat, d: bool)
    requires FreeableAs(c, ch, ind, d)
    ensures Shaped(c, ch) && 0 < ch.own[ind].len && c.bias <= ind && ind + ch.own[ind].len <= c.npages
    ensures ch.own[ind].start == ind && !ch.own[ind].kind.Free?
    ensures Neighbours(c, ch, ind, d)
    ensures c.Tagged(ch.bits, ch.own[ind]) && OneRun(ch.own, ind)
  {
    NeighboursOK(c, ch, ind, d);
  }

  // ---------- the arena invariant ----------

  /** What arena_run_dalloc does to the tree of the freed run's dirtiness. */
  function FreeTree(t: set<Node>, x: nat, ind: nat, len: nat, total: nat, next: nat, prev: nat): set<Node>
    requires prev <= ind
  {
    t - (if next > 0 then {Node(next, x, ind + len)} else {})
      - (if prev > 0 then {Node(prev, x, ind - prev)} else {})
      + {Node(total, x, ind - prev)}
  }

  lemma FreedPages(c: Config, ch: Chunk, ind: nat, d: bool, total: nat, next: nat, prev: nat)
    requires FreeableAs(c, ch, ind, d) && prev <= ind && total == prev + ch.own[ind].len + next
    requires FreedRun(c, ch, ind, d) == Run(ind - prev, total, Free, d)
    ensures c.bias <= ind - prev && ind - prev + total <= c.npages && Shaped(c, ch) && 0 < ch.own[ind].len
    ensures SameOutside(ch.own, FreedOwn(c, ch, ind, d), ind - prev, ind - prev + total)
    ensures forall p :: ind - prev <= p < ind - prev + total ==>
              FreedOwn(c, ch, ind, d)[p] == Run(ind - prev, total, Free, d)
    ensures forall p :: ind - prev <= p < ind ==> ch.own[p] == Run(ind - prev, prev, Free, d)
    ensures forall p :: ind <= p < ind + ch.own[ind].len ==> ch.own[p] == ch.own[ind]
    ensures ch.own[ind].start == ind && !ch.own[ind].kind.Free?
    ensures forall p :: ind + ch.own[ind].len <= p < ind - prev + total ==>
              ch.own[p] == Run(ind + ch.own[ind].len, next, Free, d)
  {
    hide Config.Tagged;
    var e := ch.own[ind].End();
    assert FreeStart(c, ch, ind, d) == ind - prev;
    assert FreeEnd(c, ch, ind, d) == ind - prev + total;
    assert forall p :: ind <= p < e ==> ch.own[p] == ch.own[ind];
  }

  lemma FreeTreeOK(c: Config, t: set<Node>, chunks: map<nat, Chunk>, spare: Option<nat>, x: nat, ch': Chunk,
                   ind: nat, d: bool, total: nat, next: nat, prev: nat)
    requires x in chunks && spare != Some(x) && FreeableAs(c, chunks[x], ind, d) && Shaped(c, ch')
    requires prev <= ind && total == prev + chunks[x].own[ind].len + next
    requires FreedRun(c, chunks[x], ind, d) == Run(ind - prev, total, Free, d)
    requires TreeOK(c, t, chunks, spare, d) && ch'.own == FreedOwn(c, chunks[x], ind, d)
    ensures TreeOK(c, FreeTree(t, x, ind, chunks[x].own[ind].len, total, next, prev), chunks[x := ch'], spare, d)
  {
    hide FreeableAs, ChunkOK, FreedOwn, FreedRun;
    FreedPages(c, chunks[x], ind, d, total, next, prev);
    var own, len := chunks[x].own, chunks[x].own[ind].len;
    var t' := FreeTree(t, x, ind, len, total, next, prev);
    var s, e := ind - prev, ind - prev + total;
    forall n: Node
      ensures n in t' <==>
               if n.chunk == x && s <= n.page < e then ch'.own[n.page] == Run(n.page, n.size, Free, d) else n in t
    {
      if n.chunk == x && s <= n.page < e {
        if n in t { assert own[n.page] == Run(n.page, n.size, Free, d); }
      }
    }
    TreeStep(c, t, t', chunks, ch', x, spare, d, s, e);
  }

  lemma FreeOtherTree(c: Config, t: set<Node>, chunks: map<nat, Chunk>, spare: Option<nat>, x: nat, ch': Chunk,
                      ind: nat, d: bool, total: nat, next: nat, prev: nat)
    requires x in chunks && spare != Some(x) && FreeableAs(c, chunks[x], ind, d) && Shaped(c, ch')
    requires prev <= ind && total == prev + chunks[x].own[ind].len + next
    requires FreedRun(c, chunks[x], ind, d) == Run(ind - prev, total, Free, d)
    requires TreeOK(c, t, chunks, spare, !d) && ch'.own == FreedOwn(c, chunks[x], ind, d)
    ensures TreeOK(c, t, chunks[x := ch'], spare, !d)
  {
    hide FreeableAs, ChunkOK, FreedOwn, FreedRun, TreeOK;
    FreedPages(c, chunks[x], ind, d, total, next, prev);
    TreeKept(c, t, chunks, ch', x, spare, !d, ind - prev, ind - prev + total);
  }

  /** chunks_dirty after dirty pages were freed in chunk x. */
  function Listed(dl: seq<nat>, dirtied: bool, d: bool, x: nat): seq<nat> {
    if d && !dirtied then dl + [x] else dl
  }

  lemma ListedOK(chunks: map<nat, Chunk>, dl: seq<nat>, x: nat, ch': Chunk, d: bool)
    requires ListOK(chunks, dl) && x in chunks && ch'.dirtied == (chunks[x].dirtied || d)
    ensures ListOK(chunks[x := ch'], Listed(dl, chunks[x].dirtied, d, x))
  {
  }

  lemma FreeInv(c: Config, chunks: map<nat, Chunk>, spare: Option<nat>, dt: set<Node>, ct: set<Node>, dl: seq<nat>,
                na: nat, nd: nat, x: nat, ch': Chunk, ind: nat, d: bool, total: nat, next: nat, prev: nat)
    requires InvOf(c, chunks, spare, dt, ct, dl, na, nd) && x in chunks && spare != Some(x) && Shaped(c, ch')
    requires FreeableAs(c, chunks[x], ind, d) && FreeMapped(c, chunks[x], ch'.bits, ind, d, total, next, prev)
    requires ch'.own == FreedOwn(c, chunks[x], ind, d) && ch'.zero == chunks[x].zero && ch'.touched == chunks[x].touched
    requires ch'.ndirty == chunks[x].ndirty + (if d then chunks[x].own[ind].len else 0)
    requires ch'.dirtied == (chunks[x].dirtied || d)
    ensures var len := chunks[x].own[ind].len;
            prev <= ind && len <= na &&
            InvOf(c, chunks[x := ch'], spare,
                  if d then FreeTree(dt, x, ind, len, total, next, prev) else dt,
                  if d then ct else FreeTree(ct, x, ind, len, total, next, prev),
                  Listed(dl, chunks[x].dirtied, d, x), na - len, nd + if d then len else 0)
  {
    hide *;
    var ch := chunks[x];
    FreeFacts(c, ch, ind, d);
    MappedFacts(c, ch, ch'.bits, ind, d, total, next, prev);
    InvParts(c, chunks, spare, dt, ct, dl, na, nd);
    ListedOK(chunks, dl, x, ch', d);
    FreeOK(c, ch, ch', ind, d);
    ActiveOf(c, ch, ch');
    TotalActiveOf(c, chunks, x);
    var len, dl' := ch.own[ind].len, Listed(dl, ch.dirtied, d, x);
    if d {
      FreeTreeOK(c, dt, chunks, spare, x, ch', ind, d, total, next, prev);
      FreeOtherTree(c, ct, chunks, spare, x, ch', ind, d, total, next, prev);
      ChunkStep(c, chunks, spare, dt, ct, dl, na, nd, x, ch',
                FreeTree(dt, x, ind, len, total, next, prev), ct, dl', na - len, nd + len);
    } else {
      FreeTreeOK(c, ct, chunks, spare, x, ch', ind, d, total, next, prev);
      FreeOtherTree(c, dt, chunks, spare, x, ch', ind, d, total, next, prev);
      ChunkStep(c, chunks, spare, dt, ct, dl, na, nd, x, ch',
                dt, FreeTree(ct, x, ind, len, total, next, prev), dl', na - len, nd);
    }
  }

  lemma MappedFacts(c: Config, ch: Chunk, b: seq<Bits>, ind: nat, d: bool, total: nat, next: nat, prev: nat)
    requires FreeableAs(c, ch, ind, d) && FreeMapped(c, ch, b, ind, d, total, next, prev)
    ensures prev <= ind && FreedRun(c, ch, ind, d) == Run(ind - prev, total, Free, d)
    ensures total == prev + ch.own[ind].len + next && FreeBits(c, ch, b, ind, d)
    ensures |b| == |ch.bits| && |FreedOwn(c, ch, ind, d)| == |ch.own|
  {
  }

  /** The size of an allocated run can be read off its first map element. */
  lemma AllocTagged(c: Config, bits: seq<Bits>, r: Run)
    requires 0 < r.len && r.start + r.len <= |bits| && c.Tagged(bits, r) && !r.kind.Free?
    ensures bits[r.start].dirty == r.dirty
    ensures bits[r.start].large ==> bits[r.start].num == r.len
    ensures !bits[r.start].large ==> 0 <= bits[r.start].bin < |c.runPages| && c.runPages[bits[r.start].bin] == r.len
  {
  }

  lemma ListedIs(dl: seq<nat>, dirtied: bool, d: bool, x: nat)
    ensures !d ==> Listed(dl, dirtied, d, x) == dl
  {
  }

  lemma FreeUndisturbed(c: Config, m: map<nat, Chunk>, x: nat, ch': Chunk, ind: nat, d: bool)
    requires x in m && FreeableAs(c, m[x], ind, d) && Shaped(c, ch')
    requires ch'.own == FreedOwn(c, m[x], ind, d) && ch'.zero == m[x].zero && ch'.touched == m[x].touched
    requires FreeBits(c, m[x], ch'.bits, ind, d)
    ensures Undisturbed(c, m, m[x := ch'], {(x, ind)}, {})
  {
    hide *;
    var s, e, len := FreedBounds(c, m[x], ind, d);
    FreedPages(c, m[x], ind, d, e - s, e - ind - len, ind - s);
    FreedTiled(c, m[x], ind, d);
    FreedBits(c, m[x], ch'.bits, ind, d);
    UndisturbedStep(c, m, x, ch', s, e, {(x, ind)}, {});
  }

  lemma FreedBits(c: Config, ch: Chunk, bits: seq<Bits>, ind: nat, d: bool)
    requires FreeableAs(c, ch, ind, d) && FreeBits(c, ch, bits, ind, d)
    ensures var r := FreedRun(c, ch, ind, d); SameOutside(ch.bits, bits, r.start, r.start + r.len)
  {
  }

  lemma FreedBounds(c: Config, ch: Chunk, ind: nat, d: bool) returns (s: nat, e: nat, len: nat)
    requires FreeableAs(c, ch, ind, d)
    ensures ind < |ch.own| && len == ch.own[ind].len && c.bias <= s <= ind < ind + len <= e
    ensures c.Boundary(ch.own, s) && c.Boundary(ch.own, e) && FreedRun(c, ch, ind, d) == Run(s, e - s, Free, d)
  {
    hide Config.Tagged;
    s, e, len := FreeStart(c, ch, ind, d), FreeEnd(c, ch, ind, d), ch.own[ind].len;
  }

  lemma FreedTiled(c: Config, ch: Chunk, ind: nat, d: bool)
    requires FreeableAs(c, ch, ind, d)
    ensures c.Tiled(ch.own) && c.Tiled(FreedOwn(c, ch, ind, d))
  {
    hide *;
    var r := FreedRun(c, ch, ind, d);
    FreedEnds(c, ch, ind, d);
    PaintWithin(ch.own, r);
    FreedOwnIs(c, ch, ind, d);
    Retile(c, ch.own, FreedOwn(c, ch, ind, d), r.start, r.start + r.len);
  }

  lemma FreedOwnIs(c: Config, ch: Chunk, ind: nat, d: bool)
    requires FreeableAs(c, ch, ind, d)
    ensures var r := FreedRun(c, ch, ind, d);
      r.End() == r.start + r.len <= |ch.own| && FreedOwn(c, ch, ind, d) == Paint(ch.own, r.start, r.start + r.len, r)
  {
    hide Config.Tagged, Paint;
  }

  lemma FreedEnds(c: Config, ch: Chunk, ind: nat, d: bool)
    requires FreeableAs(c, ch, ind, d)
    ensures var r := FreedRun(c, ch, ind, d);
      && c.Tiled(ch.own) && 0 < r.len && r.End() == r.start + r.len <= |ch.own| && c.bias <= r.start
      && c.Boundary(ch.own, r.start) && c.Boundary(ch.own, r.start + r.len)
  {
    hide Config.Tagged;
  }

  /** Freeing leaves no entirely free chunk but possibly x, which is one exactly if the coalesced run fills it. */
  lemma FreeRests(c: Config, m: map<nat, Chunk>, spare: Option<nat>, x: nat, ch': Chunk, ind: nat, d: bool,
                  total: nat, next: nat, prev: nat)
    requires Resting(c, m, spare, None) && x in m && FreeableAs(c, m[x], ind, d)
    requires prev <= ind && total == prev + m[x].own[ind].len + next
    requires FreedRun(c, m[x], ind, d) == Run(ind - prev, total, Free, d) && ch'.own == FreedOwn(c, m[x], ind, d)
    ensures Resting(c, m[x := ch'], spare, Some(x))
    ensures c.bias <= c.npages && (c.Idle(ch'.own) <==> total == c.MaxPages())
    ensures !c.Idle(ch'.own) ==> Resting(c, m[x := ch'], spare, None)
  {
    FreedPages(c, m[x], ind, d, total, next, prev);
    FreedTiledHead(c, m[x], ind, d);
    hide FreedOwn, FreedRun, FreeableAs;
    IdleInside(c, m[x].own, ch'.own, ind - prev, ind - prev + total);
  }

  /** Only a change at the first page makes a chunk entirely free. */
  lemma IdleInside(c: Config, own: seq<Run>, own': seq<Run>, lo: nat, hi: nat)
    requires SameOutside(own, own', lo, hi) && c.bias < |own| && !c.Idle(own)
    ensures c.Idle(own') ==> lo <= c.bias < hi
  {
  }

  lemma FreedTiledHead(c: Config, ch: Chunk, ind: nat, d: bool)
    requires FreeableAs(c, ch, ind, d)
    ensures !c.Idle(ch.own)
  {
    assert ch.own[ind].start == ind;
  }
}
