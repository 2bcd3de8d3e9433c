/** Value-level steps of arena_chunk_purge (arena.c:549-715): all dirty free runs of a chunk are allocated for
    the duration of the purge, their pages are given back to the system, and the runs are freed as clean. */
module Purge {
  import opened Basics
  import opened PageMap
  import opened ArenaChunk
  import opened Avail
  import opened ArenaInv
  import opened LiveRuns
  import opened ChunkSteps

  predicate DirtyRun(r: Run) { r.kind.Free? && r.dirty }

  function PurgedRun(r: Run): Run {
    if DirtyRun(r) then Run(r.start, r.len, Large, false) else r
  }

  ghost function PurgedOwn(c: Config, own: seq<Run>): (o: seq<Run>)
    ensures |o| == |own|
    ensures forall p {:trigger o[p]} :: 0 <= p < |own| ==> o[p] == if c.bias <= p then PurgedRun(own[p]) else own[p]
  {
    seq(|own|, p requires 0 <= p < |own| => if c.bias <= p then PurgedRun(own[p]) else own[p])
  }

  /** The map elements of one dirty run that is temporarily allocated (arena.c:604-628). */
  method MarkPurged(bits: seq<Bits>, s: nat, n: nat, unzeroed: bool) returns (b: seq<Bits>)
    requires 0 < n && s + n <= |bits|
    ensures SameOutside(bits, b, s, s + n)
    ensures forall p :: s <= p < s + n ==> b[p].unzeroed == unzeroed
    ensures b[s] == LargeSet(b[s], n, false)
    ensures n > 1 ==> b[s + n - 1] == LargeSet(b[s + n - 1], 0, false)
  {
    b := bits[s := bits[s].(unzeroed := unzeroed)];
    b := b[s := LargeSet(b[s], n, false)];
    var i := 1;
    while i < n - 1
      invariant 1 <= i && (i < n || n == 1)
      invariant SameOutside(bits, b, s, s + n)
      invariant forall p :: s <= p < s + i && p < s + n ==> b[p].unzeroed == unzeroed
      invariant b[s] == LargeSet(b[s], n, false)
    {
      b := b[s + i := b[s + i].(unzeroed := unzeroed)];
      i := i + 1;
    }
    if n > 1 {
      b := b[s + n - 1 := b[s + n - 1].(unzeroed := unzeroed)];
      b := b[s + n - 1 := LargeSet(b[s + n - 1], 0, false)];
    }
  }

  /** The pages below k have been visited. */
  ghost predicate VisitedBits(c: Config, ch: Chunk, bits: seq<Bits>, k: nat, unzeroed: bool) {
    && Shaped(c, ch) && |bits| == c.npages && c.bias <= k <= c.npages && c.Tiled(ch.own)
    && c.Boundary(ch.own, k)
    && (forall p :: 0 <= p < c.npages && (p < c.bias || k <= p) ==> bits[p] == ch.bits[p])
    && (forall p :: c.bias <= p < k ==> ch.own[p].End() <= k && c.Tagged(bits, PurgedRun(ch.own[p])))
    && (forall p :: c.bias <= p < k ==>
      if DirtyRun(ch.own[p]) then bits[p].unzeroed == unzeroed else bits[p] == ch.bits[p])
  }

  /** `runs` are the dirty free runs that start below k. */
  ghost predicate VisitedRuns(c: Config, own: seq<Run>, runs: seq<nat>, k: nat) {
    && k <= |own|
    && (forall i, j :: 0 <= i < j < |runs| ==> runs[i] != runs[j])
    && (forall s :: s in runs <==> c.bias <= s < k && own[s].start == s && DirtyRun(own[s]))
  }

  ghost function LenAt(own: seq<Run>, s: nat): nat { if s < |own| then own[s].len else 0 }

  ghost function Pages(own: seq<Run>, runs: seq<nat>): nat {
    if runs == [] then 0 else LenAt(own, runs[0]) + Pages(own, runs[1..])
  }

  lemma {:induction false} PagesAppend(own: seq<Run>, runs: seq<nat>, s: nat)
    ensures Pages(own, runs + [s]) == Pages(own, runs) + LenAt(own, s)
  {
    if runs == [] {
      assert [s][1..] == [];
    } else {
      PagesAppend(own, runs[1..], s);
      assert (runs + [s])[1..] == runs[1..] + [s];
    }
  }

  ghost function NodesOf(own: seq<Run>, x: nat, runs: seq<nat>): set<Node> {
    set s | s in runs :: Node(LenAt(own, s), x, s)
  }

  lemma NodesAppend(own: seq<Run>, x: nat, runs: seq<nat>, s: nat)
    ensures NodesOf(own, x, runs + [s]) == NodesOf(own, x, runs) + {Node(LenAt(own, s), x, s)}
    ensures NodesOf(own, x, []) == {} && Pages(own, []) == 0
  {
  }

  lemma VisitDirty(c: Config, ch: Chunk, bits: seq<Bits>, b: seq<Bits>, k: nat, unzeroed: bool)
    requires VisitedBits(c, ch, bits, k, unzeroed) && k < c.npages && DirtyRun(ch.own[k])
    requires SameOutside(bits, b, k, k + ch.own[k].len)
    requires forall p :: k <= p < k + ch.own[k].len && p < |b| ==> b[p].unzeroed == unzeroed
    requires k + ch.own[k].len <= |b| && 0 < ch.own[k].len
    requires b[k] == LargeSet(b[k], ch.own[k].len, false)
    requires ch.own[k].len > 1 ==> b[k + ch.own[k].len - 1] == LargeSet(b[k + ch.own[k].len - 1], 0, false)
    ensures VisitedBits(c, ch, b, k + ch.own[k].len, unzeroed) && |b| == c.npages
  {
    hide *;
    VisitRange(c, ch, bits, k, unzeroed);
    PurgedTagged(c, b, ch.own[k]);
    EarlierTags(c, ch, bits, b, k, k + ch.own[k].len, unzeroed);
    NowVisited(c, ch, bits, b, k, k + ch.own[k].len, unzeroed);
  }

  lemma VisitRange(c: Config, ch: Chunk, bits: seq<Bits>, k: nat, unzeroed: bool)
    requires VisitedBits(c, ch, bits, k, unzeroed) && k < c.npages
    ensures |ch.own| == |bits| == c.npages && ch.own[k].start == k && c.Boundary(ch.own, k + ch.own[k].len)
    ensures ch.own[k].End() == k + ch.own[k].len <= c.npages
    ensures forall p :: k <= p < k + ch.own[k].len ==> ch.own[p] == ch.own[k]
  {
    EndIsBoundary(c, ch.own, k);
    hide Config.Tagged;
  }

  lemma PurgedTagged(c: Config, b: seq<Bits>, r: Run)
    requires DirtyRun(r) && 0 < r.len && r.End() == r.start + r.len <= |b|
    requires b[r.start] == LargeSet(b[r.start], r.len, false)
    requires r.len > 1 ==> b[r.start + r.len - 1] == LargeSet(b[r.start + r.len - 1], 0, false)
    ensures PurgedRun(r).start < PurgedRun(r).End() <= |b| && c.Tagged(b, PurgedRun(r))
  {
  }

  /** The run that ends at e has been visited as well. */
  lemma NowVisited(c: Config, ch: Chunk, bits: seq<Bits>, b: seq<Bits>, k: nat, e: nat, unzeroed: bool)
    requires VisitedBits(c, ch, bits, k, unzeroed) && k < e <= |ch.own| && e <= c.npages && c.Boundary(ch.own, e)
    requires SameOutside(bits, b, k, e) && forall p :: k <= p < e ==> b[p].unzeroed == unzeroed
    requires DirtyRun(ch.own[k]) && ch.own[k].End() == e && forall p :: k <= p < e ==> ch.own[p] == ch.own[k]
    requires PurgedRun(ch.own[k]).start < PurgedRun(ch.own[k]).End() <= |b| && c.Tagged(b, PurgedRun(ch.own[k]))
    requires forall p :: c.bias <= p < k ==>
      PurgedRun(ch.own[p]).start < PurgedRun(ch.own[p]).End() <= |b| && c.Tagged(b, PurgedRun(ch.own[p]))
    ensures VisitedBits(c, ch, b, e, unzeroed) && |b| == c.npages
  {
    hide Config.Tagged, Config.Tiled, Config.Boundary, PurgedRun;
  }

  /** The tags of the runs visited before stay. */
  lemma EarlierTags(c: Config, ch: Chunk, bits: seq<Bits>, b: seq<Bits>, k: nat, e: nat, unzeroed: bool)
    requires VisitedBits(c, ch, bits, k, unzeroed) && SameOutside(bits, b, k, e)
    ensures forall p :: c.bias <= p < k ==>
      PurgedRun(ch.own[p]).start < PurgedRun(ch.own[p]).End() <= |b| && c.Tagged(b, PurgedRun(ch.own[p]))
  {
    hide Config.Tagged;
    forall p | c.bias <= p < k
      ensures PurgedRun(ch.own[p]).start < PurgedRun(ch.own[p]).End() <= |b| && c.Tagged(b, PurgedRun(ch.own[p]))
    {
      TagKept(c, bits, b, PurgedRun(ch.own[p]), k, e);
    }
  }

  lemma VisitOther(c: Config, ch: Chunk, bits: seq<Bits>, k: nat, unzeroed: bool)
    requires VisitedBits(c, ch, bits, k, unzeroed) && k < c.npages && !DirtyRun(ch.own[k]) &&
      c.Tagged(ch.bits, ch.own[k])
    ensures VisitedBits(c, ch, bits, k + ch.own[k].len, unzeroed)
  {
    var r := ch.own[k];
    EndIsBoundary(c, ch.own, k);
    assert forall p :: k <= p < r.End() ==> ch.own[p] == r;
    TagKept(c, ch.bits, bits, r, c.bias, k);
  }

  lemma VisitRuns(c: Config, own: seq<Run>, runs: seq<nat>, k: nat)
    requires VisitedRuns(c, own, runs, k) && c.Tiled(own) && c.bias <= k < c.npages && own[k].start == k
    ensures !DirtyRun(own[k]) ==> VisitedRuns(c, own, runs, k + own[k].len)
    ensures DirtyRun(own[k]) ==> VisitedRuns(c, own, runs + [k], k + own[k].len)
  {
    assert forall p :: k <= p < k + own[k].len ==> own[p] == own[k];
  }

  lemma VisitFacts(c: Config, ch: Chunk, bits: seq<Bits>, k: nat, unzeroed: bool)
    requires ChunkOK(c, ch) && VisitedBits(c, ch, bits, k, unzeroed) && k < c.npages
    ensures var r := ch.own[k];
      && r.start == k && 0 < r.len && k + r.len <= c.npages == |bits| == |ch.own| && bits[k].dirty == r.dirty
      && (bits[k].inUse <==> !r.kind.Free?)
      && (r.kind.Free? || r.kind.Large? ==> bits[k].num == r.len)
      && (bits[k].inUse ==> (bits[k].large <==> r.kind.Large?))
      && (DirtyRun(r) <==> !bits[k].inUse && bits[k].dirty) && LenAt(ch.own, k) == r.len && c.Tiled(ch.own)
      && (r.kind.Small? ==> 0 <= bits[k].bin < |c.runPages| && c.runPages[bits[k].bin] == r.len)
      && c.Tagged(ch.bits, r)
  {
    assert c.Tagged(ch.bits, ch.own[k]);
  }

  /** The first loop of arena_chunk_purge: visit every run, allocate the dirty free ones. */
  method MarkDirty(c: Config, ch: Chunk, x: nat, unzeroed: bool)
    returns (bits: seq<Bits>, nodes: set<Node>, runs: seq<nat>, pages: nat)
    requires ChunkOK(c, ch)
    ensures VisitedBits(c, ch, bits, c.npages, unzeroed) && VisitedRuns(c, ch.own, runs, c.npages)
    ensures nodes == NodesOf(ch.own, x, runs) && pages == Pages(ch.own, runs)
  {
    hide *;
    MarkStart(c, ch, unzeroed);
    bits, nodes, runs, pages := ch.bits, {}, [], 0;
    NodesAppend(ch.own, x, [], 0);
    var pageind := c.bias;
    while pageind < c.npages
      invariant c.bias <= pageind <= c.npages == |bits|
      invariant VisitedBits(c, ch, bits, pageind, unzeroed) && VisitedRuns(c, ch.own, runs, pageind)
      invariant nodes == NodesOf(ch.own, x, runs) && pages == Pages(ch.own, runs)
    {
      VisitFacts(c, ch, bits, pageind, unzeroed);
      VisitRuns(c, ch.own, runs, pageind);
      ghost var r := ch.own[pageind];
      var b := bits[pageind];
      if !b.inUse {
        var npages := b.num;
        if b.dirty {
          var marked := MarkPurged(bits, pageind, npages, unzeroed);
          VisitDirty(c, ch, bits, marked, pageind, unzeroed);
          PagesAppend(ch.own, runs, pageind);
          NodesAppend(ch.own, x, runs, pageind);
          bits, nodes, runs, pages := marked, nodes + {Node(npages, x, pageind)}, runs + [pageind], pages + npages;
        } else {
          VisitOther(c, ch, bits, pageind, unzeroed);
        }
        pageind := pageind + npages;
      } else {
        VisitOther(c, ch, bits, pageind, unzeroed);
        if b.large {
          pageind := pageind + b.num;
        } else {
          pageind := pageind + c.runPages[b.bin];
        }
      }
    }
  }

  lemma MarkStart(c: Config, ch: Chunk, unzeroed: bool)
    requires ChunkOK(c, ch)
    ensures VisitedBits(c, ch, ch.bits, c.bias, unzeroed) && VisitedRuns(c, ch.own, [], c.bias)
    ensures c.bias <= c.npages == |ch.bits|
  {
    hide Config.Tagged;
    assert ch.own[c.bias].start == c.bias;
  }

  // ---------- the marked chunk ----------

  /** The page of a marked run may hold anything until the system has taken its pages back. */
  ghost function PurgedTouched(own: seq<Run>, touched: seq<bool>): (t: seq<bool>)
    requires |own| == |touched|
    ensures |t| == |own|
    ensures forall p {:trigger t[p]} :: 0 <= p < |own| ==> t[p] == (touched[p] || DirtyRun(own[p]))
  {
    seq(|own|, p requires 0 <= p < |own| => touched[p] || DirtyRun(own[p]))
  }

  ghost predicate Marked(c: Config, ch: Chunk, ch': Chunk, unzeroed: bool) {
    && ChunkOK(c, ch) && VisitedBits(c, ch, ch'.bits, c.npages, unzeroed)
    && ch'.own == PurgedOwn(c, ch.own) && ch'.zero == ch.zero && ch'.touched == PurgedTouched(ch.own, ch.touched)
    && ch'.ndirty == 0 && !ch'.dirtied
  }

  lemma MarkedTagged(c: Config, ch: Chunk, ch': Chunk, unzeroed: bool)
    requires Marked(c, ch, ch', unzeroed)
    ensures c.WellTagged(ch'.bits, ch'.own) && c.Coalesced(ch'.own) && Shaped(c, ch')
  {
    hide Config.Tagged, ZeroOK, Count;
    PurgedTiled(c, ch.own);
  }

  lemma PurgedTiled(c: Config, own: seq<Run>)
    requires c.Tiled(own) && c.Coalesced(own)
    ensures c.Tiled(PurgedOwn(c, own)) && c.Coalesced(PurgedOwn(c, own))
  {
    var own' := PurgedOwn(c, own);
    forall p | c.bias < p < |own'| && own'[p].start == p && own'[p].kind.Free? && own'[p - 1].kind.Free?
      ensures own'[p].dirty != own'[p - 1].dirty
    {
      assert own[p] == own'[p] && own[p - 1] == own'[p - 1];
    }
  }

  lemma MarkedZero(c: Config, ch: Chunk, ch': Chunk, unzeroed: bool)
    requires Marked(c, ch, ch', unzeroed) && Shaped(c, ch')
    ensures ZeroOK(c, ch')
  {
    hide Config.Tagged;
    forall p | c.bias <= p < c.npages ensures PageZeroOK(ch', p) {
      assert PageZeroOK(ch, p);
    }
  }

  lemma {:induction false} MarkedCounts(c: Config, own: seq<Run>, lo: nat, hi: nat)
    requires c.bias <= lo <= hi <= |own|
    ensures Count(PurgedOwn(c, own), DirtyFree, lo, hi) == 0
    ensures Count(PurgedOwn(c, own), Active, lo, hi) == Count(own, Active, lo, hi) + Count(own, DirtyFree, lo, hi)
    decreases hi - lo
  {
    if lo < hi { MarkedCounts(c, own, lo, hi - 1); }
  }

  lemma MarkedOK(c: Config, ch: Chunk, ch': Chunk, unzeroed: bool)
    requires Marked(c, ch, ch', unzeroed)
    ensures ChunkOK(c, ch') && ActivePages(c, ch') == ActivePages(c, ch) + ch.ndirty
    ensures Shaped(c, ch) && Shaped(c, ch')
  {
    MarkedTagged(c, ch, ch', unzeroed);
    MarkedZero(c, ch, ch', unzeroed);
    MarkedCounts(c, ch.own, c.bias, c.npages);
  }

  /** The number of dirty pages is the number of pages in the visited runs. */
  lemma {:induction false} PagesAreDirty(c: Config, own: seq<Run>, runs: seq<nat>, k: nat)
    requires c.Tiled(own) && VisitedRuns(c, own, runs, k) && c.Boundary(own, k) && c.bias <= k
    ensures Pages(own, runs) == Count(own, DirtyFree, c.bias, k)
    decreases k
  {
    if k == c.bias {
      if runs != [] { HasMember(runs); }
    } else {
      var r := own[k - 1];
      assert own[r.start] == r && r.End() == k by { if k < c.npages { PrevEndsHere(c, own, k); } }
      CountSplit(own, DirtyFree, c.bias, r.start, k);
      CountUniform(own, DirtyFree, ClassOf(r), r.start, k);
      if DirtyRun(r) {
        var i :| 0 <= i < |runs| && runs[i] == r.start;
        var rest := runs[..i] + runs[i + 1..];
        PagesRemove(own, runs, i);
        VisitedShrink(c, own, runs, k, i);
        PagesAreDirty(c, own, rest, r.start);
      } else {
        VisitedShrinkOther(c, own, runs, k);
        PagesAreDirty(c, own, runs, r.start);
      }
    }
  }

  lemma HasMember(runs: seq<nat>)
    requires runs != []
    ensures exists s :: s in runs
  {
    assert runs[0] in runs;
  }

  lemma {:induction false} PagesRemove(own: seq<Run>, runs: seq<nat>, i: nat)
    requires i < |runs|
    ensures Pages(own, runs) == Pages(own, runs[..i] + runs[i + 1..]) + LenAt(own, runs[i])
  {
    if i == 0 {
      assert runs[..0] + runs[1..] == runs[1..];
    } else {
      PagesRemove(own, runs[1..], i - 1);
      assert (runs[..i] + runs[i + 1..])[1..] == runs[1..][..i - 1] + runs[1..][i..];
    }
  }

  lemma VisitedShrink(c: Config, own: seq<Run>, runs: seq<nat>, k: nat, i: nat)
    requires c.Tiled(own) && VisitedRuns(c, own, runs, k) && c.bias < k <= c.npages && own[k - 1].End() == k
    requires i < |runs| && runs[i] == own[k - 1].start
    ensures VisitedRuns(c, own, runs[..i] + runs[i + 1..], own[k - 1].start)
  {
    var r := own[k - 1];
    var rest := runs[..i] + runs[i + 1..];
    assert forall j :: 0 <= j < |rest| ==> rest[j] == if j < i then runs[j] else runs[j + 1];
    forall s ensures s in rest <==> s in runs && s != r.start {
      if s in runs && s != r.start {
        var j :| 0 <= j < |runs| && runs[j] == s;
        assert rest[if j < i then j else j - 1] == s;
      }
    }
    forall s | c.bias <= s < k && own[s].start == s && DirtyRun(own[s]) && s != r.start ensures s < r.start {
      assert own[s].End() > s;
    }
  }

  lemma VisitedShrinkOther(c: Config, own: seq<Run>, runs: seq<nat>, k: nat)
    requires c.Tiled(own) && VisitedRuns(c, own, runs, k) && c.bias < k <= c.npages && own[k - 1].End() == k
    requires !DirtyRun(own[k - 1])
    ensures VisitedRuns(c, own, runs, own[k - 1].start)
  {
    var r := own[k - 1];
    forall s | c.bias <= s < k && own[s].start == s && DirtyRun(own[s]) ensures s < r.start {
      assert own[s].End() > s;
    }
  }

  // ---------- the arena after the marking ----------

  lemma MarkedDirtyTree(c: Config, t: set<Node>, chunks: map<nat, Chunk>, spare: Option<nat>, x: nat,
                        ch': Chunk, runs: seq<nat>)
    requires x in chunks && spare != Some(x) && Shaped(c, chunks[x]) && Shaped(c, ch')
    requires ch'.own == PurgedOwn(c, chunks[x].own) && VisitedRuns(c, chunks[x].own, runs, c.npages)
    requires TreeOK(c, t, chunks, spare, true)
    ensures TreeOK(c, t - NodesOf(chunks[x].own, x, runs), chunks[x := ch'], spare, true)
  {
    var own := chunks[x].own;
    var t' := t - NodesOf(own, x, runs);
    forall n: Node
      ensures n in t' <==>
               if n.chunk == x && c.bias <= n.page < c.npages then ch'.own[n.page] == Run(n.page, n.size, Free, true)
                 else n in t
    {
      if n.chunk == x && n in t {
        assert IsFree(c, chunks[x], n.page, n.size, true);
        assert n.page in runs;
      }
    }
    TreeStep(c, t, t', chunks, ch', x, spare, true, c.bias, c.npages);
  }

  lemma MarkedCleanTree(c: Config, t: set<Node>, chunks: map<nat, Chunk>, spare: Option<nat>, x: nat, ch': Chunk)
    requires x in chunks && spare != Some(x) && Shaped(c, chunks[x]) && Shaped(c, ch')
    requires ch'.own == PurgedOwn(c, chunks[x].own) && TreeOK(c, t, chunks, spare, false)
    ensures TreeOK(c, t, chunks[x := ch'], spare, false)
  {
    forall n: Node
      ensures n in t <==>
               if n.chunk == x && c.bias <= n.page < c.npages then ch'.own[n.page] == Run(n.page, n.size, Free, false)
                 else n in t
    {
      if n.chunk == x && n in t { assert IsFree(c, chunks[x], n.page, n.size, false); }
      if n.chunk == x && c.bias <= n.page < c.npages && ch'.own[n.page] == Run(n.page, n.size, Free, false) {
        assert chunks[x].own[n.page] == ch'.own[n.page];
      }
    }
    TreeStep(c, t, t, chunks, ch', x, spare, false, c.bias, c.npages);
  }

  /** Once its dirty runs are allocated a chunk leaves chunks_dirty. */
  lemma MarkedList(chunks: map<nat, Chunk>, dl: seq<nat>, x: nat, ch': Chunk)
    requires ListOK(chunks, dl) && x in chunks && !ch'.dirtied
    ensures ListOK(chunks[x := ch'], Without(dl, x))
  {
    hide Without;
    WithoutDistinct(dl, x);
  }

  lemma MarkedInv(c: Config, chunks: map<nat, Chunk>, spare: Option<nat>, dt: set<Node>, ct: set<Node>, dl: seq<nat>,
                  na: nat, nd: nat, x: nat, ch': Chunk, unzeroed: bool, runs: seq<nat>)
    requires InvOf(c, chunks, spare, dt, ct, dl, na, nd) && x in chunks && spare != Some(x)
    requires Marked(c, chunks[x], ch', unzeroed) && VisitedRuns(c, chunks[x].own, runs, c.npages)
    ensures chunks[x].ndirty == Pages(chunks[x].own, runs) <= nd
    ensures InvOf(c, chunks[x := ch'], spare, dt - NodesOf(chunks[x].own, x, runs), ct, Without(dl, x),
                  na + chunks[x].ndirty, nd - chunks[x].ndirty)
    ensures ChunkOK(c, ch')
  {
    hide *;
    MarkedParts(c, chunks[x], ch', unzeroed, runs);
    MarkedOK(c, chunks[x], ch', unzeroed);
    InvParts(c, chunks, spare, dt, ct, dl, na, nd);
    TotalDirtyOf(chunks, x);
    MarkedDirtyTree(c, dt, chunks, spare, x, ch', runs);
    MarkedCleanTree(c, ct, chunks, spare, x, ch');
    MarkedList(chunks, dl, x, ch');
    ChunkStep(c, chunks, spare, dt, ct, dl, na, nd, x, ch',
              dt - NodesOf(chunks[x].own, x, runs), ct, Without(dl, x), na + chunks[x].ndirty, nd - chunks[x].ndirty);
  }

  lemma MarkedParts(c: Config, ch: Chunk, ch': Chunk, unzeroed: bool, runs: seq<nat>)
    requires Marked(c, ch, ch', unzeroed) && VisitedRuns(c, ch.own, runs, c.npages)
    ensures ch.ndirty == Pages(ch.own, runs) && ch'.ndirty == 0 && !ch'.dirtied
    ensures Shaped(c, ch) && Shaped(c, ch') && ch'.own == PurgedOwn(c, ch.own)
  {
    PagesAreDirty(c, ch.own, runs, c.npages);
  }

  // ---------- the held runs ----------

  /** The run at s is allocated for the purge. */
  ghost predicate Held(c: Config, m: map<nat, Chunk>, x: nat, s: nat, len: nat) {
    Live(c, m, x, Run(s, len, Large, false))
  }

  /** The unzeroed bits of the run say what the system will leave in it. */
  ghost predicate Flagged(m: map<nat, Chunk>, x: nat, s: nat, len: nat, unzeroed: bool) {
    x in m && s + len <= |m[x].bits| && forall p :: s <= p < s + len ==> m[x].bits[p].unzeroed == unzeroed
  }

  /** Nobody can have written the pages of the run since they were last known. */
  ghost predicate Pristine(m: map<nat, Chunk>, x: nat, s: nat, len: nat) {
    x in m && s + len <= |m[x].touched| && forall p :: s <= p < s + len ==> !m[x].touched[p]
  }

  /** The first k of the held runs have been given back. */
  ghost predicate PristineUpTo(m: map<nat, Chunk>, x: nat, own: seq<Run>, runs: seq<nat>, k: nat) {
    k <= |runs| && forall j :: 0 <= j < k ==> Pristine(m, x, runs[j], LenAt(own, runs[j]))
  }

  lemma NonePristine(m: map<nat, Chunk>, x: nat, own: seq<Run>, runs: seq<nat>)
    ensures PristineUpTo(m, x, own, runs, 0)
  {
  }

  ghost predicate Distinct(runs: seq<nat>) { forall i, j :: 0 <= i < j < |runs| ==> runs[i] != runs[j] }

  /** The dirty runs of the chunk, `own` as it was, are allocated for the purge. */
  ghost predicate Holding(c: Config, m: map<nat, Chunk>, x: nat, own: seq<Run>, runs: seq<nat>, unzeroed: bool) {
    && Distinct(runs)
    && forall s :: s in runs ==> Held(c, m, x, s, LenAt(own, s)) && Flagged(m, x, s, LenAt(own, s), unzeroed)
  }

  ghost predicate NotLiveAt(c: Config, m: map<nat, Chunk>, x: nat, runs: seq<nat>) {
    forall r :: Live(c, m, x, r) ==> r.start !in runs
  }

  /** The places the purge allocates runs at. */
  function Places(x: nat, runs: seq<nat>): set<(nat, nat)> {
    set s | s in runs :: (x, s)
  }

  lemma MarkedUndisturbed(c: Config, m: map<nat, Chunk>, x: nat, ch': Chunk, unzeroed: bool, runs: seq<nat>)
    requires x in m && Marked(c, m[x], ch', unzeroed) && VisitedRuns(c, m[x].own, runs, c.npages) && Shaped(c, ch')
    ensures Undisturbed(c, m, m[x := ch'], {}, Places(x, runs))
  {
    hide Config.Tagged;
    var m' := m[x := ch'];
    forall y: nat, r: Run | Live(c, m, y, r)
      ensures Live(c, m', y, r) && SameRun(m[y], m'[y], r)
    {
      if y == x { assert forall p :: r.start <= p < r.End() ==> m[x].own[p] == r; }
    }
    forall y: nat, r: Run | Live(c, m', y, r) && (y, r.start) !in Places(x, runs)
      ensures Live(c, m, y, r)
    {
      assert y == x ==> r.start !in runs;
    }
  }

  lemma MarkedHeld(c: Config, m: map<nat, Chunk>, x: nat, ch': Chunk, unzeroed: bool, runs: seq<nat>, s: nat)
    requires x in m && Marked(c, m[x], ch', unzeroed) && VisitedRuns(c, m[x].own, runs, c.npages) && Shaped(c, ch')
    requires s in runs
    ensures Held(c, m[x := ch'], x, s, LenAt(m[x].own, s)) && Flagged(m[x := ch'], x, s, LenAt(m[x].own, s), unzeroed)
    ensures forall r :: Live(c, m, x, r) ==> r.start != s
  {
    hide Config.Tagged;
    assert forall p :: s <= p < m[x].own[s].End() ==> m[x].own[p] == m[x].own[s];
  }

  lemma StartHolding(c: Config, m: map<nat, Chunk>, x: nat, ch': Chunk, unzeroed: bool, runs: seq<nat>)
    requires x in m && Marked(c, m[x], ch', unzeroed) && VisitedRuns(c, m[x].own, runs, c.npages) && Shaped(c, ch')
    ensures Holding(c, m[x := ch'], x, m[x].own, runs, unzeroed) && NotLiveAt(c, m, x, runs)
    ensures Undisturbed(c, m, m[x := ch'], {}, Places(x, runs))
  {
    MarkedUndisturbed(c, m, x, ch', unzeroed, runs);
    VisitedDistinct(c, m[x].own, runs);
    hide *;
    forall s | s in runs
      ensures Held(c, m[x := ch'], x, s, LenAt(m[x].own, s))
      ensures Flagged(m[x := ch'], x, s, LenAt(m[x].own, s), unzeroed)
    {
      MarkedHeld(c, m, x, ch', unzeroed, runs, s);
    }
    forall r | Live(c, m, x, r) ensures r.start !in runs {
      if r.start in runs { MarkedHeld(c, m, x, ch', unzeroed, runs, r.start); }
    }
    HoldingIs(c, m[x := ch'], x, m[x].own, runs, unzeroed);
    NotLiveMeans(c, m, x, runs);
  }

  lemma VisitedDistinct(c: Config, own: seq<Run>, runs: seq<nat>)
    requires VisitedRuns(c, own, runs, c.npages)
    ensures Distinct(runs)
  {
  }

  lemma HoldingIs(c: Config, m: map<nat, Chunk>, x: nat, own: seq<Run>, runs: seq<nat>, unzeroed: bool)
    requires Distinct(runs)
    requires forall s :: s in runs ==> Held(c, m, x, s, LenAt(own, s)) && Flagged(m, x, s, LenAt(own, s), unzeroed)
    ensures Holding(c, m, x, own, runs, unzeroed)
  {
  }

  lemma NotLiveMeans(c: Config, m: map<nat, Chunk>, x: nat, runs: seq<nat>)
    requires forall r :: Live(c, m, x, r) ==> r.start !in runs
    ensures NotLiveAt(c, m, x, runs)
  {
  }

  /** Marking leaves no entirely free chunk. */
  lemma MarkedRests(c: Config, m: map<nat, Chunk>, spare: Option<nat>, x: nat, ch': Chunk, unzeroed: bool)
    requires x in m && Marked(c, m[x], ch', unzeroed) && Resting(c, m, spare, Some(x))
    requires c.Idle(m[x].own) ==> m[x].own[c.bias].dirty
    ensures Resting(c, m[x := ch'], spare, None)
  {
    hide Config.Tagged, VisitedBits;
  }

  // ---------- giving the pages back ----------

  /** What pages_purge leaves in n pages from s on: zeroes if that is promised, else anything. */
  function PageFill(zero: seq<bool>, s: nat, n: nat, zeroes: bool, junk: seq<bool>): (z: seq<bool>)
    ensures |z| == |zero|
    ensures forall p {:trigger z[p]} :: 0 <= p < |zero| && !(s <= p < s + n) ==> z[p] == zero[p]
    ensures zeroes ==> forall p {:trigger z[p]} :: s <= p < s + n && p < |zero| ==> z[p]
  {
    seq(|zero|, p requires 0 <= p < |zero| =>
      if s <= p < s + n then zeroes || (p < |junk| && junk[p]) else zero[p])
  }

  /** What may have been in the pages is gone. */
  ghost function GivenBack(ch: Chunk, s: nat, n: nat, zero: seq<bool>): Chunk {
    ch.(zero := zero, touched := Untouched(ch.touched, s, n))
  }

  /** After pages_purge of a held run the chunk is as good as before, whatever the system has left in the pages. */
  lemma AdvisedOK(c: Config, ch: Chunk, s: nat, len: nat, zeroes: bool, junk: seq<bool>)
    requires ChunkOK(c, ch) && Starts(c, ch, s) && ch.own[s] == Run(s, len, Large, false)
    requires s + len <= |ch.bits| && forall p :: s <= p < s + len ==> ch.bits[p].unzeroed == !zeroes
    ensures var ch' := GivenBack(ch, s, len, PageFill(ch.zero, s, len, zeroes, junk));
      ChunkOK(c, ch') && Shaped(c, ch) && Shaped(c, ch') && ActivePages(c, ch') == ActivePages(c, ch)
  {
    var ch' := GivenBack(ch, s, len, PageFill(ch.zero, s, len, zeroes, junk));
    hide PageFill, Untouched, Config.Tagged;
    assert forall p :: s <= p < s + len ==> ch.own[p] == ch.own[s];
    forall p | c.bias <= p < c.npages ensures PageZeroOK(ch', p) {
      assert PageZeroOK(ch, p);
    }
  }

  lemma AdvisedUndisturbed(c: Config, m: map<nat, Chunk>, x: nat, s: nat, len: nat, zeroes: bool, junk: seq<bool>)
    requires Held(c, m, x, s, len) && ChunkOK(c, m[x])
    ensures var ch' := GivenBack(m[x], s, len, PageFill(m[x].zero, s, len, zeroes, junk));
      Undisturbed(c, m, m[x := ch'], {(x, s)}, {(x, s)})
  {
    var ch' := GivenBack(m[x], s, len, PageFill(m[x].zero, s, len, zeroes, junk));
    hide PageFill, Untouched, Config.Tagged;
    assert forall p :: s <= p < s + len ==> m[x].own[p] == m[x].own[s];
    EndIsBoundary(c, m[x].own, s);
    hide ChunkOK, Undisturbed;
    UndisturbedStep(c, m, x, ch', s, s + len, {(x, s)}, {(x, s)});
  }

  /** The held runs stay held, and those given back are pristine. */
  lemma AdvisedHolding(c: Config, m: map<nat, Chunk>, x: nat, own: seq<Run>, runs: seq<nat>, unzeroed: bool, i: nat,
                       zero: seq<bool>)
    requires Holding(c, m, x, own, runs, unzeroed) && x in m && |zero| == |m[x].zero| && i < |runs|
    requires PristineUpTo(m, x, own, runs, i)
    ensures var m' := m[x := GivenBack(m[x], runs[i], LenAt(own, runs[i]), zero)];
      Holding(c, m', x, own, runs, unzeroed) && PristineUpTo(m', x, own, runs, i + 1)
  {
    hide Config.Tagged, Untouched;
    assert runs[i] in runs;
    assert Held(c, m, x, runs[i], LenAt(own, runs[i]));
  }

  lemma AdvisedQuiet(c: Config, m0: map<nat, Chunk>, m1: map<nat, Chunk>, m2: map<nat, Chunk>, x: nat, runs: seq<nat>)
    requires Undisturbed(c, m0, m1, {}, Places(x, runs)) && Undisturbed(c, m1, m2, Places(x, runs), Places(x, runs))
    requires NotLiveAt(c, m0, x, runs)
    ensures Undisturbed(c, m0, m2, {}, Places(x, runs))
  {
    forall y: nat, r: Run | Live(c, m0, y, r)
      ensures Live(c, m2, y, r) && SameRun(m0[y], m2[y], r)
    {
      assert (y, r.start) !in Places(x, runs);
    }
  }

  /** What is read off the map about a held run. */
  lemma HeldTag(c: Config, chunks: map<nat, Chunk>, spare: Option<nat>, dt: set<Node>, ct: set<Node>, dl: seq<nat>,
                na: nat, nd: nat, x: nat, own: seq<Run>, runs: seq<nat>, unzeroed: bool, i: nat)
    requires InvOf(c, chunks, spare, dt, ct, dl, na, nd) && Holding(c, chunks, x, own, runs, unzeroed) && i < |runs|
    ensures x in chunks && spare != Some(x) && ChunkOK(c, chunks[x]) && c.bias <= c.npages
    ensures var s := runs[i]; var len := LenAt(own, s);
      && Held(c, chunks, x, s, len) && s < |chunks[x].bits| && chunks[x].bits[s].num == len
      && Starts(c, chunks[x], s) && chunks[x].own[s] == Run(s, len, Large, false) && s + len <= |chunks[x].bits|
      && forall p :: s <= p < s + len ==> chunks[x].bits[p].unzeroed == unzeroed
  {
    var s := runs[i];
    assert s in runs;
    assert Held(c, chunks, x, s, LenAt(own, s)) && Flagged(chunks, x, s, LenAt(own, s), unzeroed);
    assert Live(c, chunks, x, chunks[x].own[s]);
    if spare == Some(x) { NoLiveInIdle(c, chunks, x); }
    assert ChunkOK(c, chunks[x]);
    assert c.Tagged(chunks[x].bits, chunks[x].own[s]);
  }

  /** Only the memory of chunk x changed. */
  lemma MemoryInv(c: Config, chunks: map<nat, Chunk>, spare: Option<nat>, dt: set<Node>, ct: set<Node>, dl: seq<nat>,
                  na: nat, nd: nat, x: nat, ch': Chunk)
    requires InvOf(c, chunks, spare, dt, ct, dl, na, nd) && x in chunks && spare != Some(x)
    requires ch' == chunks[x].(zero := ch'.zero, touched := ch'.touched)
    requires ChunkOK(c, ch') && ActivePages(c, ch') == ActivePages(c, chunks[x])
    requires Shaped(c, chunks[x]) && Shaped(c, ch') && c.bias <= c.npages
    ensures InvOf(c, chunks[x := ch'], spare, dt, ct, dl, na, nd)
  {
    hide *;
    InvParts(c, chunks, spare, dt, ct, dl, na, nd);
    SameOwn(c, chunks[x], ch');
    ListKept(chunks, dl, x, ch');
    TreeKept(c, dt, chunks, ch', x, spare, true, c.bias, c.bias);
    TreeKept(c, ct, chunks, ch', x, spare, false, c.bias, c.bias);
    ChunkStep(c, chunks, spare, dt, ct, dl, na, nd, x, ch', dt, ct, dl, na, nd);
  }

  lemma SameOwn(c: Config, ch: Chunk, ch': Chunk)
    requires ch'.own == ch.own
    ensures SameOutside(ch.own, ch'.own, c.bias, c.bias)
  {
  }

  // ---------- freeing the held runs ----------

  ghost predicate AllHeld(c: Config, m: map<nat, Chunk>, x: nat, own: seq<Run>, runs: seq<nat>) {
    && Distinct(runs)
    && (forall s :: s in runs ==> Held(c, m, x, s, LenAt(own, s)) && Pristine(m, x, s, LenAt(own, s)))
  }

  lemma AllGivenBack(c: Config, m: map<nat, Chunk>, x: nat, own: seq<Run>, runs: seq<nat>, unzeroed: bool)
    requires Holding(c, m, x, own, runs, unzeroed)
    requires PristineUpTo(m, x, own, runs, |runs|)
    ensures AllHeld(c, m, x, own, runs)
  {
  }

  lemma HeldIsFreeable(c: Config, chunks: map<nat, Chunk>, spare: Option<nat>, dt: set<Node>, ct: set<Node>,
                       dl: seq<nat>, na: nat, nd: nat, x: nat, own: seq<Run>, runs: seq<nat>)
    requires InvOf(c, chunks, spare, dt, ct, dl, na, nd) && AllHeld(c, chunks, x, own, runs) && runs != []
    ensures x in chunks && spare != Some(x) && runs[0] < |chunks[x].own|
    ensures chunks[x].own[runs[0]].len == LenAt(own, runs[0]) && !chunks[x].own[runs[0]].dirty
    ensures FreeableAs(c, chunks[x], runs[0], false)
  {
    assert runs[0] in runs;
    var r := Run(runs[0], LenAt(own, runs[0]), Large, false);
    assert Live(c, chunks, x, r);
    if spare == Some(x) { NoLiveInIdle(c, chunks, x); }
  }

  lemma PurgeStart(c: Config, chunks: map<nat, Chunk>, spare: Option<nat>, dt: set<Node>, ct: set<Node>, dl: seq<nat>,
                   na: nat, nd: nat, x: nat)
    requires InvOf(c, chunks, spare, dt, ct, dl, na, nd) && x in chunks && chunks[x].ndirty > 0
    ensures x in dl
    ensures c.bias < c.npages == |chunks[x].own|
    ensures c.Idle(chunks[x].own) ==> chunks[x].own[c.bias].dirty
  {
    if c.Idle(chunks[x].own) { IdleChunk(c, chunks[x]); }
  }

  lemma MarkedShape(c: Config, ch: Chunk, bits: seq<Bits>, unzeroed: bool)
    requires VisitedBits(c, ch, bits, c.npages, unzeroed)
    ensures |ch.own| == |ch.touched| == c.npages == |bits|
  {
  }

  lemma MarkedIs(c: Config, ch: Chunk, ch1: Chunk, unzeroed: bool)
    requires ChunkOK(c, ch) && VisitedBits(c, ch, ch1.bits, c.npages, unzeroed)
    requires |ch.own| == |ch.touched| &&
      ch1 == Chunk(ch1.bits, 0, false, ch.zero, PurgedOwn(c, ch.own), PurgedTouched(ch.own, ch.touched))
    ensures Marked(c, ch, ch1, unzeroed) && Shaped(c, ch) && Shaped(c, ch1)
    ensures |ch1.touched| == |ch.own| && c.bias <= c.npages
  {
    hide Config.Tagged;
  }

  lemma PagesStep(own: seq<Run>, runs: seq<nat>)
    requires runs != []
    ensures Pages(own, runs) == LenAt(own, runs[0]) + Pages(own, runs[1..])
  {
  }

  lemma NoPlaces(own: seq<Run>, x: nat)
    ensures Pages(own, []) == 0 && Places(x, []) == {}
  {
  }

  // ---------- the purge loop over chunks_dirty (arena.c:717-802) ----------

  /** n >> k */
  function Shift(n: nat, k: nat): nat
    decreases k
  {
    if k == 0 then n else Shift(n / 2, k - 1)
  }

  lemma Doubled(q: nat, p: nat, n: nat)
    requires q * p <= n / 2 < (q + 1) * p
    ensures q * (2 * p) <= n < (q + 1) * (2 * p)
  {
    assert q * (2 * p) == 2 * (q * p) && (q + 1) * (2 * p) == 2 * ((q + 1) * p);
  }

  /** 2^k * Shift(n, k) is the part of n that the shift keeps. */
  lemma {:induction false} ShiftExactly(n: nat, k: nat)
    ensures Shift(n, k) * Pow2(k) <= n < (Shift(n, k) + 1) * Pow2(k)
    decreases k
  {
    if k > 0 {
      ShiftExactly(n / 2, k - 1);
      Doubled(Shift(n, k), Pow2(k - 1), n);
    }
  }

  lemma {:induction false} ShiftMonotone(m: nat, n: nat, k: nat)
    requires m <= n
    ensures Shift(m, k) <= Shift(n, k)
    decreases k
  {
    if k > 0 { ShiftMonotone(m / 2, n / 2, k - 1); }
  }

  /** A purge that sets out for `goal` pages has purged `done`, `latest` of them in the last chunk, and goes on for np:
      it was still short of its goal before the last chunk. */
  ghost predicate Sparing(c: Config, goal: int, done: int, latest: nat, np: int) {
    && (np > 0 ==> done + np <= goal)
    && (done > 0 ==> 0 < latest < c.npages && done - latest < goal)
  }

  lemma SparingStep(c: Config, goal: int, done: int, latest: nat, np: int, n: nat, rest: int)
    requires Sparing(c, goal, done, latest, np) && 0 < np && 0 < n < c.npages && rest == if n > np then 0 else np - n
    ensures Sparing(c, goal, done + n, n, rest)
  {
  }

  lemma SparingStart(c: Config, goal: int, latest: nat)
    ensures Sparing(c, goal, 0, latest, goal)
  {
  }

  lemma SparingEnd(c: Config, goal: int, done: int, latest: nat, np: int)
    requires Sparing(c, goal, done, latest, np)
    ensures done > 0 ==> 0 < latest < c.npages && done - latest < goal
  {
  }

  lemma TreeSameOwn(c: Config, t: set<Node>, chunks: map<nat, Chunk>, ch': Chunk, x: nat, spare: Option<nat>, d: bool)
    requires TreeOK(c, t, chunks, spare, d) && x in chunks && Shaped(c, chunks[x]) && Shaped(c, ch')
    requires ch'.own == chunks[x].own
    ensures TreeOK(c, t, chunks[x := ch'], spare, d)
  {
    var m := chunks[x := ch'];
    forall n | n in t ensures IsFree(c, m[n.chunk], n.page, n.size, d) {
      assert IsFree(c, chunks[n.chunk], n.page, n.size, d);
    }
    forall y, p {:trigger m[y].own[p]} | y in m && spare != Some(y) && c.bias <= p < |m[y].own|
          && IsFree(c, m[y], p, m[y].own[p].len, d)
      ensures Node(m[y].own[p].len, y, p) in t
    {
      assert chunks[y].own[p] == m[y].own[p];
    }
  }

  /** A chunk without dirty pages leaves chunks_dirty. */
  lemma UnlistInv(c: Config, chunks: map<nat, Chunk>, spare: Option<nat>, dt: set<Node>, ct: set<Node>, dl: seq<nat>,
                  na: nat, nd: nat, x: nat)
    requires InvOf(c, chunks, spare, dt, ct, dl, na, nd) && x in chunks && chunks[x].ndirty == 0
    ensures InvOf(c, chunks[x := chunks[x].(dirtied := false)], spare, dt, ct, Without(dl, x), na, nd)
  {
    hide *;
    var ch' := chunks[x].(dirtied := false);
    InvParts(c, chunks, spare, dt, ct, dl, na, nd);
    InvChunks(c, chunks, spare, dt, ct, dl, na, nd);
    UnlistParts(c, chunks, spare, x);
    TreeSameOwn(c, dt, chunks, ch', x, spare, true);
    TreeSameOwn(c, ct, chunks, ch', x, spare, false);
    MarkedList(chunks, dl, x, ch');
    TotalsStep(c, chunks, x, ch');
    InvIntro(c, chunks[x := ch'], spare, dt, ct, Without(dl, x), na, nd);
  }

  lemma UnlistParts(c: Config, chunks: map<nat, Chunk>, spare: Option<nat>, x: nat)
    requires x in chunks && AllOK(c, chunks) && chunks[x].ndirty == 0
    requires spare.Some? ==> spare.value in chunks && c.Idle(chunks[spare.value].own)
    ensures var m := chunks[x := chunks[x].(dirtied := false)];
      && AllOK(c, m) && Shaped(c, chunks[x]) && Shaped(c, m[x]) && ActivePages(c, m[x]) == ActivePages(c, chunks[x])
      && (spare.Some? ==> spare.value in m && c.Idle(m[spare.value].own))
  {
    hide *;
    var m := chunks[x := chunks[x].(dirtied := false)];
    UnlistChunk(c, chunks, x);
    assert forall y :: y in m ==> m[y].own == chunks[y].own;
  }

  lemma UnlistChunk(c: Config, chunks: map<nat, Chunk>, x: nat)
    requires AllOK(c, chunks) && x in chunks && chunks[x].ndirty == 0
    ensures var ch' := chunks[x].(dirtied := false);
      && AllOK(c, chunks[x := ch']) && Shaped(c, chunks[x]) && Shaped(c, ch')
      && ActivePages(c, ch') == ActivePages(c, chunks[x])
  {
    var m := chunks[x := chunks[x].(dirtied := false)];
    assert ChunkOK(c, chunks[x]);
    forall p | c.bias <= p < c.npages ensures PageZeroOK(m[x], p) {
      assert PageZeroOK(chunks[x], p);
    }
    assert ChunkOK(c, m[x]);
    hide ChunkOK;
  }

  lemma UnlistRests(c: Config, m: map<nat, Chunk>, spare: Option<nat>, x: nat)
    requires Resting(c, m, spare, None) && x in m
    ensures Resting(c, m[x := m[x].(dirtied := false)], spare, None)
    ensures Undisturbed(c, m, m[x := m[x].(dirtied := false)], {}, {})
  {
    var m' := m[x := m[x].(dirtied := false)];
    assert forall y :: y in m ==> m'[y].own == m[y].own;
    hide SameRun;
    forall y: nat, r: Run | Live(c, m, y, r) ensures Live(c, m', y, r) && SameRun(m[y], m'[y], r) {
      SameRunOf(m[y], m'[y], r);
    }
  }

  lemma SameRunOf(ch: Chunk, ch': Chunk, r: Run)
    requires ch'.bits == ch.bits && ch'.zero == ch.zero && ch'.touched == ch.touched
    ensures SameRun(ch, ch', r)
  {
  }

  lemma ListHead(c: Config, chunks: map<nat, Chunk>, spare: Option<nat>, dt: set<Node>, ct: set<Node>, dl: seq<nat>,
                 na: nat, nd: nat)
    requires InvOf(c, chunks, spare, dt, ct, dl, na, nd)
    ensures dl != [] ==> dl[0] in chunks && dl[0] in dl && chunks[dl[0]].ndirty <= nd
    ensures dl == [] ==> nd == 0
  {
    if dl == [] {
      assert forall x :: x in chunks ==> chunks[x].ndirty == 0;
      NoDirtyChunks(chunks);
    } else {
      assert dl[0] in dl;
      TotalDirtyOf(chunks, dl[0]);
    }
  }
}
