/** Value-level facts about allocating runs (arena.c:341-535). */
module AllocSteps {
  import opened Basics
  import opened PageMap
  import opened ArenaChunk
  import opened Avail
  import opened ArenaInv
  import opened LiveRuns
  import opened ChunkSteps
  import opened Purge
  import opened Relabel

  /** A chunk as chunk_alloc hands it over: its base, whether the memory is known to be zero, and what the bytes
      of its page map and its pages happen to be. */
  datatype NewChunk = NewChunk(id: nat, zeroed: bool, bits: seq<Bits>, zero: seq<bool>)

  ghost predicate NewOK(c: Config, chunks: map<nat, Chunk>, n: NewChunk) {
    && n.id !in chunks && |n.bits| == |n.zero| == c.npages
    && (n.zeroed ==> forall p :: 0 <= p < c.npages ==> n.zero[p] && !n.bits[p].unzeroed)
  }

  /** The page map of a new chunk: one maximal free run, marked zeroed iff the chunk is (arena.c:394-418). */
  method InitMap(c: Config, n: NewChunk) returns (bits: seq<Bits>)
    requires c.Valid() && |n.bits| == c.npages
    requires n.zeroed ==> forall p :: 0 <= p < c.npages ==> !n.bits[p].unzeroed
    ensures |bits| == c.npages
    ensures bits[c.bias] == bits[c.npages - 1] == Unallocated(c.npages - c.bias, false, !n.zeroed)
    ensures forall p :: c.bias <= p < c.npages ==> bits[p].unzeroed == !n.zeroed
  {
    bits := n.bits[c.bias := Unallocated(c.MaxPages(), false, !n.zeroed)];
    if !n.zeroed {
      var i := c.bias + 1;
      while i < c.npages - 1
        invariant c.bias < i && |bits| == c.npages
        invariant bits[c.bias] == Unallocated(c.MaxPages(), false, !n.zeroed)
        invariant forall p :: c.bias <= p < i && p < c.npages - 1 ==> bits[p].unzeroed
      {
        bits := bits[i := bits[i].(unzeroed := true)];
        i := i + 1;
      }
    }
    bits := bits[c.npages - 1 := Unallocated(c.MaxPages(), false, !n.zeroed)];
  }

  ghost function FreshOwn(c: Config): (o: seq<Run>)
    requires c.Valid()
    ensures |o| == c.npages && forall p {:trigger o[p]} :: 0 <= p < c.npages ==>
      o[p] == Run(c.bias, c.npages - c.bias, Free, false)
  {
    seq(c.npages, p => Run(c.bias, c.npages - c.bias, Free, false))
  }

  ghost function AllFalse(n: nat): (s: seq<bool>)
    ensures |s| == n && forall p {:trigger s[p]} :: 0 <= p < n ==> !s[p]
  {
    seq(n, p => false)
  }

  lemma FreshIs(c: Config, chunks: map<nat, Chunk>, n: NewChunk, bits: seq<Bits>)
    requires c.Valid() && NewOK(c, chunks, n) && |bits| == c.npages
    requires bits[c.bias] == bits[c.npages - 1] == Unallocated(c.npages - c.bias, false, !n.zeroed)
    requires forall p :: c.bias <= p < c.npages ==> bits[p].unzeroed == !n.zeroed
    ensures var ch := Chunk(bits, 0, false, n.zero, FreshOwn(c), AllFalse(c.npages));
      ChunkOK(c, ch) && c.Idle(ch.own) && !ch.own[c.bias].dirty
  {
    FreshOK(c, Chunk(bits, 0, false, n.zero, FreshOwn(c), AllFalse(c.npages)), n.zeroed);
  }

  lemma AddRests(c: Config, m: map<nat, Chunk>, spare: Option<nat>, x: nat, ch: Chunk)
    requires Resting(c, m, spare, None) && x !in m
    ensures Resting(c, m[x := ch], spare, Some(x))
  {
  }

  lemma AddUndisturbed(c: Config, m: map<nat, Chunk>, x: nat, ch: Chunk)
    requires x !in m && ChunkOK(c, ch) && c.Idle(ch.own)
    ensures Undisturbed(c, m, m[x := ch], {}, {})
  {
    NoLiveInIdle(c, m[x := ch], x);
    assert m[x := ch] - {x} == m;
  }

  // ---------- a run found in a tree can be split ----------

  lemma NodeSplittable(c: Config, chunks: map<nat, Chunk>, spare: Option<nat>, dt: set<Node>, ct: set<Node>,
                       dl: seq<nat>, na: nat, nd: nat, n: Node, need: nat, kind: Kind)
    requires InvOf(c, chunks, spare, dt, ct, dl, na, nd) && (n in dt || n in ct) && need <= n.size
    requires Requestable(c, need, kind)
    ensures n.chunk in chunks && spare != Some(n.chunk) && n.page < |chunks[n.chunk].own|
    ensures Splittable(c, chunks[n.chunk], n.page, need, kind)
    ensures chunks[n.chunk].own[n.page].dirty <==> n in dt
  {
    assert n in dt ==> IsFree(c, chunks[n.chunk], n.page, n.size, true);
    assert n in ct ==> IsFree(c, chunks[n.chunk], n.page, n.size, false);
  }

  /** What arena_run_alloc may be asked for. */
  ghost predicate Requestable(c: Config, need: nat, kind: Kind) {
    && c.bias <= c.npages && 0 < need <= c.MaxPages() && !kind.Free?
    && (kind.Small? ==> kind.bin < |c.runPages| && need == c.runPages[kind.bin])
  }

  lemma WholeSplittable(c: Config, ch: Chunk, need: nat, kind: Kind)
    requires ChunkOK(c, ch) && c.Idle(ch.own) && Requestable(c, need, kind)
    ensures c.bias < |ch.own| && Splittable(c, ch, c.bias, need, kind)
  {
    IdleChunk(c, ch);
  }

  lemma SplitUndisturbed(c: Config, m: map<nat, Chunk>, x: nat, ch': Chunk, ind: nat, need: nat, kind: Kind)
    requires x in m && Splittable(c, m[x], ind, need, kind) && Shaped(c, ch')
    requires ch'.own == SplitOwn(m[x].own, ind, need, kind) && SplitMemory(m[x], ch'.zero, ch'.touched, ind, need)
    requires SplitBits(c, m[x], ch'.bits, ind, need, kind)
    ensures Undisturbed(c, m, m[x := ch'], {}, {(x, ind)}) && Vacant(c, m, (x, ind))
    ensures Live(c, m[x := ch'], x, Run(ind, need, kind, m[x].own[ind].dirty))
    ensures Pristine(m[x := ch'], x, ind, need)
  {
    hide *;
    SplitFacts(c, m[x], ind, need, kind);
    OneRunPages(m[x].own, ind);
    SplitPages(m[x].own, ind, need, kind);
    SplitShape(c, m[x], ch', ind, need, kind);
    SplitLive(c, m, x, ch', ind, need, kind);
    UndisturbedStep(c, m, x, ch', ind, ind + m[x].own[ind].len, {}, {(x, ind)});
  }

  lemma SplitLive(c: Config, m: map<nat, Chunk>, x: nat, ch': Chunk, ind: nat, need: nat, kind: Kind)
    requires x in m && Splittable(c, m[x], ind, need, kind) && Shaped(c, ch')
    requires ch'.own == SplitOwn(m[x].own, ind, need, kind) && SplitMemory(m[x], ch'.zero, ch'.touched, ind, need)
    ensures Live(c, m[x := ch'], x, Run(ind, need, kind, m[x].own[ind].dirty))
    ensures Pristine(m[x := ch'], x, ind, need) && Vacant(c, m, (x, ind))
  {
    SplitPages(m[x].own, ind, need, kind);
  }

  lemma SplitUntouched(c: Config, ch: Chunk, ch': Chunk, ind: nat, need: nat, kind: Kind)
    requires Splittable(c, ch, ind, need, kind) && SplitMemory(ch, ch'.zero, ch'.touched, ind, need)
    ensures SameOutside(ch.zero, ch'.zero, ind, ind + ch.own[ind].len)
    ensures SameOutside(ch.touched, ch'.touched, ind, ind + ch.own[ind].len)
  {
    hide Config.Tagged, Config.Tiled;
  }

  lemma SplitShape(c: Config, ch: Chunk, ch': Chunk, ind: nat, need: nat, kind: Kind)
    requires Splittable(c, ch, ind, need, kind) && Shaped(c, ch') && SplitBits(c, ch, ch'.bits, ind, need, kind)
    requires ch'.own == SplitOwn(ch.own, ind, need, kind) && SplitMemory(ch, ch'.zero, ch'.touched, ind, need)
    ensures SameOutside(ch.bits, ch'.bits, ind, ind + ch.own[ind].len)
    ensures c.Tiled(ch.own) && c.Tiled(ch'.own)
    ensures c.Boundary(ch.own, ind) && c.Boundary(ch.own, ind + ch.own[ind].len)
    ensures SameOutside(ch.zero, ch'.zero, ind, ind + ch.own[ind].len)
    ensures SameOutside(ch.touched, ch'.touched, ind, ind + ch.own[ind].len)
  {
    hide *;
    SplitUntouched(c, ch, ch', ind, need, kind);
    SplitFacts(c, ch, ind, need, kind);
    SplitBounds(c, ch, ind, need, kind);
    SplitTags(c, ch, ch'.bits, ind, need, kind);
    SplitPages(ch.own, ind, need, kind);
    Retile(c, ch.own, ch'.own, ind, ch.own[ind].End());
  }

  lemma SplitRests(c: Config, m: map<nat, Chunk>, spare: Option<nat>, x: nat, ch': Chunk, ind: nat, need: nat,
      kind: Kind)
    requires x in m && Splittable(c, m[x], ind, need, kind) && ch'.own == SplitOwn(m[x].own, ind, need, kind)
    requires Resting(c, m, spare, Some(x))
    ensures Resting(c, m[x := ch'], spare, None)
  {
    SplitPages(m[x].own, ind, need, kind);
  }

  /** arena_run_alloc_helper takes the lowest best fit, preferring dirty runs. */
  ghost predicate BestFit(dt: set<Node>, ct: set<Node>, need: nat, r: Option<(nat, nat)>) {
    match r
    case None => (forall n :: n in dt ==> n.size < need) && (forall n :: n in ct ==> n.size < need)
    case Some((x, p)) =>
      || (exists size :: LeastFit(dt, need, Node(size, x, p)))
      || ((forall n :: n in dt ==> n.size < need) && exists size :: LeastFit(ct, need, Node(size, x, p)))
  }

  /** Some available run is large enough. */
  ghost predicate Fits(dt: set<Node>, ct: set<Node>, need: nat) {
    exists n :: (n in dt || n in ct) && n.size >= need
  }

  lemma NoneFits(dt: set<Node>, ct: set<Node>, need: nat)
    requires BestFit(dt, ct, need, None)
    ensures !Fits(dt, ct, need)
  {
  }

  lemma BestIs(dt: set<Node>, ct: set<Node>, need: nat, n: Node)
    requires LeastFit(dt, need, n) || ((forall m :: m in dt ==> m.size < need) && LeastFit(ct, need, n))
    ensures BestFit(dt, ct, need, Some((n.chunk, n.page)))
  {
    assert n == Node(n.size, n.chunk, n.page);
  }

  lemma NewFacts(c: Config, chunks: map<nat, Chunk>, n: NewChunk)
    requires NewOK(c, chunks, n)
    ensures n.id !in chunks && |n.bits| == c.npages
    ensures n.zeroed ==> forall p :: 0 <= p < c.npages ==> !n.bits[p].unzeroed
  {
  }

  lemma SomeFits(dt: set<Node>, ct: set<Node>, need: nat, n: Node)
    requires (n in dt || n in ct) && need <= n.size
    ensures Fits(dt, ct, need)
  {
  }

  lemma NoFit(dt: set<Node>, ct: set<Node>, need: nat)
    requires (forall n :: n in dt ==> n.size < need) && (forall n :: n in ct ==> n.size < need)
    ensures BestFit(dt, ct, need, None)
  {
  }

  lemma FitIs(dt: set<Node>, ct: set<Node>, need: nat, n: Node)
    requires LeastFit(dt, need, n) || LeastFit(ct, need, n)
    ensures (n in dt || n in ct) && need <= n.size
  {
  }

  // ---------- the bound on dirty pages ----------

  ghost predicate BoundOf(c: Config, lg: int, na: nat, nd: nat) {
    lg >= 0 ==> nd <= c.npages || nd <= Shift(na, lg)
  }

  lemma BoundKept(c: Config, lg: int, na: nat, nd: nat, na': nat, nd': nat)
    requires BoundOf(c, lg, na, nd) && na <= na' && nd' <= nd
    ensures BoundOf(c, lg, na', nd')
  {
    hide Shift;
    if lg >= 0 { ShiftMonotone(na, na', lg); }
  }

  lemma LargeFreeable(c: Config, chunks: map<nat, Chunk>, spare: Option<nat>, dt: set<Node>, ct: set<Node>,
                      dl: seq<nat>, na: nat, nd: nat, x: nat, ind: nat)
    requires InvOf(c, chunks, spare, dt, ct, dl, na, nd) && x in chunks && LargeAt(c, chunks[x], ind)
    ensures spare != Some(x) && ind < |chunks[x].own|
    ensures FreeableAs(c, chunks[x], ind, true)
  {
    if spare == Some(x) {
      NoLiveInIdle(c, chunks, x);
      assert Live(c, chunks, x, chunks[x].own[ind]);
    }
  }

  // ---------- trimming ----------

  lemma CutDone(c: Config, m: map<nat, Chunk>, spare: Option<nat>, x: nat, ch': Chunk, ind: nat, head: nat)
    requires x in m && LargeAt(c, m[x], ind) && 0 < head < m[x].own[ind].len && Resting(c, m, spare, None)
    requires Recut(c, m[x], ch', ind, ind + m[x].own[ind].len) && ch'.own == CutOwn(m[x].own, ind, head)
    ensures Resting(c, m[x := ch'], spare, None) && LargeAt(c, ch', ind) && LargeAt(c, ch', ind + head)
    ensures ch'.own[ind] == Run(ind, head, Large, m[x].own[ind].dirty)
    ensures ch'.own[ind + head] == Run(ind + head, m[x].own[ind].len - head, Large, m[x].own[ind].dirty)
    ensures Undisturbed(c, m, m[x := ch'], {(x, ind)}, Pair(x, ind, ind + head)) && Vacant(c, m, (x, ind + head))
  {
    hide *;
    LargeFacts(c, m[x], ind);
    InsideVacant(c, m, x, ind, ind + head);
    CutPages(m[x].own, ind, head);
    CutRests(c, m, spare, x, ch', ind, head);
    CutStep(c, m, x, ch', ind, head);
  }

  lemma CutRests(c: Config, m: map<nat, Chunk>, spare: Option<nat>, x: nat, ch': Chunk, ind: nat, head: nat)
    requires x in m && LargeAt(c, m[x], ind) && 0 < head < m[x].own[ind].len && Resting(c, m, spare, None)
    requires Recut(c, m[x], ch', ind, ind + m[x].own[ind].len) && ch'.own == CutOwn(m[x].own, ind, head)
    ensures Resting(c, m[x := ch'], spare, None)
    ensures LargeAt(c, ch', ind) && LargeAt(c, ch', ind + head)
  {
    hide *;
    LargeFacts(c, m[x], ind);
    LargeIs(c, m[x], ind);
    RecutOK(c, m[x], ch', ind, ind + m[x].own[ind].len);
    CutPages(m[x].own, ind, head);
    OKShape(c, ch');
    IsLarge(c, ch', ind);
    IsLarge(c, ch', ind + head);
    BusyRests(c, m, spare, x, ch', ind);
  }

  lemma LargeIs(c: Config, ch: Chunk, ind: nat)
    requires LargeAt(c, ch, ind)
    ensures ChunkOK(c, ch)
  {
  }

  lemma IsLarge(c: Config, ch: Chunk, ind: nat)
    requires ChunkOK(c, ch) && c.bias <= ind < c.npages && ch.own[ind].start == ind && ch.own[ind].kind.Large?
    ensures LargeAt(c, ch, ind)
  {
  }

  lemma OKShape(c: Config, ch: Chunk)
    requires ChunkOK(c, ch)
    ensures |ch.own| == c.npages
  {
  }

  /** A chunk with an allocated page is not entirely free. */
  lemma BusyRests(c: Config, m: map<nat, Chunk>, spare: Option<nat>, x: nat, ch': Chunk, p: nat)
    requires Resting(c, m, spare, None) && x in m && ChunkOK(c, ch') && c.bias <= p < c.npages && !ch'.own[p].kind.Free?
    ensures Resting(c, m[x := ch'], spare, None)
  {
    if c.Idle(ch'.own) { IdleChunk(c, ch'); }
    hide ChunkOK, Config.Idle;
  }

  /** No run starts inside another. */
  lemma InsideVacant(c: Config, m: map<nat, Chunk>, x: nat, ind: nat, p: nat)
    requires x in m && LargeAt(c, m[x], ind) && ind < p < ind + m[x].own[ind].len
    ensures Vacant(c, m, (x, p))
  {
  }

  lemma CutStep(c: Config, m: map<nat, Chunk>, x: nat, ch': Chunk, ind: nat, head: nat)
    requires x in m && LargeAt(c, m[x], ind) && 0 < head < m[x].own[ind].len
    requires Recut(c, m[x], ch', ind, ind + m[x].own[ind].len) && ch'.own == CutOwn(m[x].own, ind, head)
    ensures Undisturbed(c, m, m[x := ch'], {(x, ind)}, Pair(x, ind, ind + head))
  {
    hide *;
    LargeFacts(c, m[x], ind);
    CutPages(m[x].own, ind, head);
    RecutShape(c, m[x], ch', ind, ind + m[x].own[ind].len);
    PairHas(x, ind, ind + head);
    UndisturbedStep(c, m, x, ch', ind, ind + m[x].own[ind].len, {(x, ind)}, Pair(x, ind, ind + head));
  }

  lemma PairHas(x: nat, p: nat, q: nat)
    ensures forall y: nat, s: nat :: (y, s) in Pair(x, p, q) <==> y == x && (s == p || s == q)
  {
  }

  lemma RecutShape(c: Config, ch: Chunk, ch': Chunk, s: nat, e: nat)
    requires c.Tiled(ch.own) && Recut(c, ch, ch', s, e)
    ensures Shaped(c, ch) && Shaped(c, ch') && c.Tiled(ch'.own) && c.bias <= s <= e
    ensures c.Boundary(ch.own, s) && c.Boundary(ch.own, e) && SameOutside(ch.own, ch'.own, s, e)
    ensures SameOutside(ch.zero, ch'.zero, s, e) && SameOutside(ch.touched, ch'.touched, s, e)
    ensures SameOutside(ch.bits, ch'.bits, s, e)
  {
    hide Config.Tagged;
    Retile(c, ch.own, ch'.own, s, e);
  }

  /** Of the run at `ind`, the pages from `kept` on, `len` of them, remain as one large run; nothing else changed
      hands. */
  ghost predicate Trimmed(c: Config, m: map<nat, Chunk>, m': map<nat, Chunk>, x: nat, ind: nat, kept: nat, len: nat) {
    KeptPart(c, m, m', x, ind, kept, len) && Undisturbed(c, m, m', {(x, ind)}, {(x, kept)})
  }

  /** The pages that remain are a large run and hold what they held. */
  ghost predicate KeptPart(c: Config, m: map<nat, Chunk>, m': map<nat, Chunk>, x: nat, ind: nat, kept: nat, len: nat) {
    && x in m && ind < |m[x].own|
    && Live(c, m', x, Run(kept, len, Large, m[x].own[ind].dirty))
    && SameMemory(m[x], m'[x], Run(kept, len, Large, m[x].own[ind].dirty))
  }

  lemma TrimFreeable(c: Config, m0: map<nat, Chunk>, chunks: map<nat, Chunk>, spare: Option<nat>, dt: set<Node>,
                     ct: set<Node>, dl: seq<nat>, na: nat, nd: nat, x: nat, s: nat, len: nat, dirty: bool)
    requires InvOf(c, chunks, spare, dt, ct, dl, na, nd) && x in chunks && x in m0 && LargeAt(c, chunks[x], s)
    requires chunks[x].own[s] == Run(s, len, Large, chunks[x].own[s].dirty) && chunks[x].touched == m0[x].touched
    requires !dirty && !chunks[x].own[s].dirty ==> Pristine(m0, x, s, len)
    ensures spare != Some(x) && s < |chunks[x].own|
    ensures FreeableAs(c, chunks[x], s, dirty || chunks[x].own[s].dirty)
  {
    LargeFreeable(c, chunks, spare, dt, ct, dl, na, nd, x, s);
  }

  lemma TrimDone(c: Config, m0: map<nat, Chunk>, m1: map<nat, Chunk>, m2: map<nat, Chunk>, x: nat, ind: nat,
                 other: nat, kept: nat, freed: nat, len: nat, d: bool)
    requires x in m0 && x in m1 && ind < |m0[x].own| && m0[x].own[ind].dirty == d && kept != freed
    requires (kept == ind && freed == other) || (kept == other && freed == ind)
    requires kept < |m1[x].own| && LargeAt(c, m1[x], kept) && m1[x].own[kept] == Run(kept, len, Large, d)
    requires m1[x].zero == m0[x].zero && m1[x].touched == m0[x].touched
    requires Undisturbed(c, m0, m1, {(x, ind)}, Pair(x, ind, other)) && Vacant(c, m0, (x, other))
    requires Undisturbed(c, m1, m2, {(x, freed)}, {})
    ensures Trimmed(c, m0, m2, x, ind, kept, len)
  {
    var r := Run(kept, len, Large, d);
    LargeLive(c, m1, x, kept);
    TrimKeeps(c, m0, m1, m2, x, r, freed);
    TrimMoves(c, m0, m1, m2, x, ind, other, kept, freed);
    hide LargeAt, Live, SameMemory, SameRun, Undisturbed;
  }

  lemma LargeLive(c: Config, m: map<nat, Chunk>, x: nat, s: nat)
    requires x in m && LargeAt(c, m[x], s)
    ensures s < |m[x].own| && Live(c, m, x, m[x].own[s])
  {
  }

  lemma TrimKeeps(c: Config, m0: map<nat, Chunk>, m1: map<nat, Chunk>, m2: map<nat, Chunk>, x: nat, r: Run, freed: nat)
    requires x in m0 && x in m1 && Live(c, m1, x, r) && r.start != freed && Undisturbed(c, m1, m2, {(x, freed)}, {})
    requires m1[x].zero == m0[x].zero && m1[x].touched == m0[x].touched
    ensures Live(c, m2, x, r) && SameMemory(m0[x], m2[x], r)
  {
    assert SameRun(m1[x], m2[x], r);
  }

  lemma TrimMoves(c: Config, m0: map<nat, Chunk>, m1: map<nat, Chunk>, m2: map<nat, Chunk>, x: nat, ind: nat,
                  other: nat, kept: nat, freed: nat)
    requires (kept == ind && freed == other) || (kept == other && freed == ind)
    requires Undisturbed(c, m0, m1, {(x, ind)}, Pair(x, ind, other)) && Vacant(c, m0, (x, other))
    requires Undisturbed(c, m1, m2, {(x, freed)}, {})
    ensures Undisturbed(c, m0, m2, {(x, ind)}, {(x, kept)})
  {
    PairHas(x, ind, other);
    hide Pair;
    forall y: nat, r: Run | Live(c, m0, y, r) && (y, r.start) !in {(x, ind)}
      ensures Live(c, m2, y, r) && SameRun(m0[y], m2[y], r)
    {
      assert Live(c, m1, y, r) && SameRun(m0[y], m1[y], r);
      assert (y, r.start) !in {(x, freed)};
      assert Live(c, m2, y, r) && SameRun(m1[y], m2[y], r);
    }
  }

  // ---------- what an allocation gives ----------

  /** Going from m0 to m a run was allocated at `at`, a place that was vacant, and nobody was disturbed. Its memory
      is pristine, and zero if that was asked for. */
  ghost predicate AllocatedIn(c: Config, m0: map<nat, Chunk>, m: map<nat, Chunk>, at: (nat, nat), need: nat,
      kind: Kind, zero: bool) {
    Undisturbed(c, m0, m, {}, {at}) && Vacant(c, m0, at) && Given(c, m, at, need, kind, zero)
  }

  /** What the owner of a new run is given. */
  ghost predicate Given(c: Config, m: map<nat, Chunk>, at: (nat, nat), need: nat, kind: Kind, zero: bool) {
    && (exists d :: Live(c, m, at.0, Run(at.1, need, kind, d)))
    && Pristine(m, at.0, at.1, need)
    && (zero ==> AllZero(m[at.0].zero, at.1, need))
  }

  lemma IsAllocated(c: Config, m0: map<nat, Chunk>, m: map<nat, Chunk>, x: nat, ind: nat, need: nat, kind: Kind,
      zero: bool)
    requires Undisturbed(c, m0, m, {}, {(x, ind)}) && Pristine(m, x, ind, need) && x in m
    requires Vacant(c, m0, (x, ind))
    requires exists d :: Live(c, m, x, Run(ind, need, kind, d))
    requires zero ==> AllZero(m[x].zero, ind, need)
    ensures AllocatedIn(c, m0, m, (x, ind), need, kind, zero)
  {
  }

  /** A step that disturbs nobody, taken before the allocation, can be left out of account. */
  lemma AllocatedSince(c: Config, m0: map<nat, Chunk>, m1: map<nat, Chunk>, m: map<nat, Chunk>, at: (nat, nat),
      need: nat, kind: Kind, zero: bool)
    requires Undisturbed(c, m0, m1, {}, {}) && AllocatedIn(c, m1, m, at, need, kind, zero)
    ensures AllocatedIn(c, m0, m, at, need, kind, zero)
  {
    VacantSince(c, m0, m1, at);
    hide Live, SameRun, Pristine, AllZero, Vacant;
    UndisturbedTrans(c, m0, m1, m, {}, {}, {}, {at});
    assert {} + {at} == {at};
  }

  lemma VacantSince(c: Config, m0: map<nat, Chunk>, m1: map<nat, Chunk>, at: (nat, nat))
    requires Undisturbed(c, m0, m1, {}, {}) && Vacant(c, m1, at)
    ensures Vacant(c, m0, at)
  {
  }

  /** The address of a run, in pages: chunks are aligned to their size. */
  function Address(c: Config, at: (nat, nat)): nat { at.0 * c.npages + at.1 }

  /** ALIGNMENT_CEILING(addr, alignment) - addr */
  function Lead(addr: nat, alignment: nat): (l: nat)
    requires alignment > 0
    ensures l < alignment
  {
    (alignment - addr % alignment) % alignment
  }

  lemma LeadAligned(c: Config, x: nat, ind: nat, alignment: nat)
    requires alignment > 0
    ensures Address(c, (x, ind + Lead(Address(c, (x, ind)), alignment))) % alignment == 0
  {
    var addr := Address(c, (x, ind));
    CeilingAligned(addr, alignment);
  }

  lemma CeilingAligned(addr: nat, alignment: nat)
    requires alignment > 0
    ensures (addr + Lead(addr, alignment)) % alignment == 0
  {
    var q, m := addr / alignment, addr % alignment;
    LeadIs(addr, alignment);
    hide Lead;
    assert addr == alignment * q + m;
    if m != 0 {
      assert alignment * q + alignment == (q + 1) * alignment;
      MultipleAligned(q + 1, alignment);
    }
  }

  lemma LeadIs(addr: nat, alignment: nat)
    requires alignment > 0
    ensures Lead(addr, alignment) == if addr % alignment == 0 then 0 else alignment - addr % alignment
  {
    var m := addr % alignment;
    if m != 0 { SmallMod(alignment - m, alignment); }
  }

  lemma SmallMod(x: nat, a: nat)
    requires x < a
    ensures x % a == x
  {
  }

  lemma MultipleAligned(q: nat, a: nat)
    requires a > 0
    ensures (q * a) % a == 0
  {
    var q', r' := (q * a) / a, (q * a) % a;
    assert q * a == a * q' + r';
    assert (q - q') * a == r' && (q' - q) * a == -r';
    if q - q' >= 1 { MulAtLeast(q - q', a); }
    if q' - q >= 1 { MulAtLeast(q' - q, a); }
  }

  lemma MulAtLeast(x: int, a: int)
    requires x >= 1 && a > 0
    ensures x * a >= a
  {
  }

  lemma PristinePart(m: map<nat, Chunk>, x: nat, s: nat, len: nat, s': nat, len': nat)
    requires Pristine(m, x, s, len) && s <= s' && s' + len' <= s + len
    ensures Pristine(m, x, s', len')
  {
  }

  lemma TrimLarge(c: Config, m: map<nat, Chunk>, chunks: map<nat, Chunk>, spare: Option<nat>, dt: set<Node>,
                  ct: set<Node>, dl: seq<nat>, na: nat, nd: nat, x: nat, ind: nat, kept: nat, len: nat)
    requires InvOf(c, chunks, spare, dt, ct, dl, na, nd) && KeptPart(c, m, chunks, x, ind, kept, len)
    ensures x in chunks && LargeAt(c, chunks[x], kept) && kept < |chunks[x].own|
    ensures x in m && ind < |m[x].own| && chunks[x].own[kept] == Run(kept, len, Large, m[x].own[ind].dirty)
  {
  }

  /** Trimming a run just allocated leaves an allocated run. */
  lemma TrimAllocated(c: Config, m0: map<nat, Chunk>, m1: map<nat, Chunk>, m2: map<nat, Chunk>, x: nat, ind: nat,
                      need: nat, kept: nat, len: nat, zero: bool, d: bool)
    requires AllocatedIn(c, m0, m1, (x, ind), need, Large, zero) && Trimmed(c, m1, m2, x, ind, kept, len)
    requires x in m1 && LargeAt(c, m1[x], ind) && ind < |m1[x].own| && m1[x].own[ind] == Run(ind, need, Large, d)
    requires ind <= kept && 0 < len && kept + len <= ind + need
    ensures AllocatedIn(c, m0, m2, (x, kept), len, Large, zero)
  {
    hide *;
    TrimUndisturbed(c, m0, m1, m2, x, ind, kept, need, zero, len);
    TrimMemory(c, m0, m1, m2, x, ind, kept, need, zero, len, d);
    TrimVacant(c, m0, m1, x, ind, kept, need, zero);
    IsAllocated(c, m0, m2, x, kept, len, Large, zero);
  }

  lemma TrimUndisturbed(c: Config, m0: map<nat, Chunk>, m1: map<nat, Chunk>, m2: map<nat, Chunk>, x: nat, ind: nat,
                        kept: nat, need: nat, zero: bool, len: nat)
    requires AllocatedIn(c, m0, m1, (x, ind), need, Large, zero) && Trimmed(c, m1, m2, x, ind, kept, len)
    ensures Undisturbed(c, m0, m2, {}, {(x, kept)})
  {
    assert Vacant(c, m0, (x, ind));
  }

  lemma TrimVacant(c: Config, m0: map<nat, Chunk>, m1: map<nat, Chunk>, x: nat, ind: nat, kept: nat, need: nat,
      zero: bool)
    requires AllocatedIn(c, m0, m1, (x, ind), need, Large, zero)
    requires x in m1 && LargeAt(c, m1[x], ind) && ind < |m1[x].own| && m1[x].own[ind].len == need &&
      ind <= kept < ind + need
    ensures Vacant(c, m0, (x, kept))
  {
    if ind < kept { InsideVacant(c, m1, x, ind, kept); }
  }

  lemma TrimMemory(c: Config, m0: map<nat, Chunk>, m1: map<nat, Chunk>, m2: map<nat, Chunk>, x: nat, ind: nat,
                   kept: nat, need: nat, zero: bool, len: nat, d: bool)
    requires AllocatedIn(c, m0, m1, (x, ind), need, Large, zero) && Trimmed(c, m1, m2, x, ind, kept, len)
    requires ind <= kept && kept + len <= ind + need
    requires x in m1 && ind < |m1[x].own| && m1[x].own[ind].dirty == d
    ensures x in m2 && Pristine(m2, x, kept, len) && (zero ==> AllZero(m2[x].zero, kept, len))
    ensures Live(c, m2, x, Run(kept, len, Large, d))
  {
    hide Undisturbed;
    assert Run(kept, len, Large, d).End() == kept + len;
  }

  // ---------- freeing a small run, growing a large one, writing to memory ----------

  ghost predicate SmallAt(c: Config, ch: Chunk, ind: nat) {
    ChunkOK(c, ch) && Starts(c, ch, ind) && ch.own[ind].kind.Small?
  }

  lemma SmallFacts(c: Config, chunks: map<nat, Chunk>, spare: Option<nat>, dt: set<Node>, ct: set<Node>, dl: seq<nat>,
                   na: nat, nd: nat, x: nat, ind: nat)
    requires InvOf(c, chunks, spare, dt, ct, dl, na, nd) && x in chunks && SmallAt(c, chunks[x], ind)
    ensures spare != Some(x) && ind < |chunks[x].own| == |chunks[x].bits| && c.bias <= ind
    ensures 0 < chunks[x].own[ind].len && ind + chunks[x].own[ind].len <= c.npages == |chunks[x].own|
    ensures chunks[x].bits[ind].dirty == chunks[x].own[ind].dirty
    ensures 0 <= chunks[x].bits[ind].bin < |c.runPages| && c.runPages[chunks[x].bits[ind].bin] == chunks[x].own[ind].len
    ensures FreeableAs(c, chunks[x], ind, true)
  {
    if spare == Some(x) {
      NoLiveInIdle(c, chunks, x);
      assert Live(c, chunks, x, chunks[x].own[ind]);
    }
    assert c.Tagged(chunks[x].bits, chunks[x].own[ind]);
  }

  /** The small run became a large run of the same pages. */
  lemma LargerDone(c: Config, m: map<nat, Chunk>, spare: Option<nat>, x: nat, ch': Chunk, ind: nat)
    requires x in m && SmallAt(c, m[x], ind) && Resting(c, m, spare, None) && !m[x].own[ind].dirty
    requires ind < |m[x].own| && Recut(c, m[x], ch', ind, ind + m[x].own[ind].len)
    requires var r := m[x].own[ind].(kind := Large);
      r.End() <= |m[x].own| && ch'.own == Paint(m[x].own, ind, r.End(), r)
    ensures Resting(c, m[x := ch'], spare, None) && LargeAt(c, ch', ind) && ind < |ch'.own|
    ensures ch'.own[ind] == m[x].own[ind].(kind := Large)
    ensures Undisturbed(c, m, m[x := ch'], {(x, ind)}, {(x, ind)})
  {
    hide *;
    LargerShape(c, m[x], ind);
    SmallPages(c, m[x], ind);
    RecutOK(c, m[x], ch', ind, ind + m[x].own[ind].len);
    LargerStep(c, m, x, ch', ind);
    LargerIs(m[x].own[ind]);
    OKShape(c, ch');
    IsLarge(c, ch', ind);
    BusyRests(c, m, spare, x, ch', ind);
  }

  lemma LargerIs(r: Run)
    ensures r.(kind := Large).kind.Large? && !r.(kind := Large).kind.Free?
  {
  }

  lemma LargerStep(c: Config, m: map<nat, Chunk>, x: nat, ch': Chunk, ind: nat)
    requires x in m && SmallAt(c, m[x], ind) && ChunkOK(c, ch')
    requires ind < |m[x].own| && Recut(c, m[x], ch', ind, ind + m[x].own[ind].len)
    requires var r := m[x].own[ind].(kind := Large);
      r.End() == ind + r.len <= |m[x].own| && ch'.own == Paint(m[x].own, ind, ind + r.len, r)
    ensures Undisturbed(c, m, m[x := ch'], {(x, ind)}, {(x, ind)})
  {
    hide *;
    LargerShape(c, m[x], ind);
    SmallPages(c, m[x], ind);
    RecutShape(c, m[x], ch', ind, ind + m[x].own[ind].len);
    UndisturbedStep(c, m, x, ch', ind, ind + m[x].own[ind].len, {(x, ind)}, {(x, ind)});
  }

  /** What was made in between and then freed is gone. */
  lemma DropMade(c: Config, m0: map<nat, Chunk>, m1: map<nat, Chunk>, m2: map<nat, Chunk>, at: (nat, nat))
    requires Undisturbed(c, m0, m1, {at}, {at}) && Undisturbed(c, m1, m2, {at}, {})
    ensures Undisturbed(c, m0, m2, {at}, {})
  {
  }

  lemma ReMade(c: Config, m0: map<nat, Chunk>, m1: map<nat, Chunk>, m2: map<nat, Chunk>, at: (nat, nat))
    requires Undisturbed(c, m0, m1, {at}, {at}) && Undisturbed(c, m1, m2, {at}, {at})
    ensures Undisturbed(c, m0, m2, {at}, {at})
  {
    UndisturbedTrans(c, m0, m1, m2, {at}, {at}, {at}, {at});
    assert {at} + {at} == {at};
  }

  /** Pages of the tail that nobody wrote stay pristine when the run is relabelled. */
  lemma PristineKept(m: map<nat, Chunk>, m': map<nat, Chunk>, x: nat, s: nat, len: nat)
    requires Pristine(m, x, s, len) && x in m && x in m' && m'[x].touched == m[x].touched
    ensures Pristine(m', x, s, len)
  {
  }

  /** What arena_ralloc_large_grow reads about the run that follows. */
  ghost predicate Follows(c: Config, ch: Chunk, ind: nat, e: nat) {
    && |ch.own| == |ch.bits| == c.npages && ind < |ch.own| && e == ind + ch.own[ind].len
    && (e < c.npages ==>
          && ch.own[e].start == e && 0 < ch.own[e].len
          && (ch.bits[e].inUse <==> !ch.own[e].kind.Free?)
          && (ch.own[e].kind.Free? ==> ch.bits[e].num == ch.own[e].len))
  }

  lemma FollowFacts(c: Config, ch: Chunk, ind: nat)
    requires LargeAt(c, ch, ind) && ind < |ch.own|
    ensures Follows(c, ch, ind, ind + ch.own[ind].len)
  {
    LargeFacts(c, ch, ind);
    var e := ind + ch.own[ind].len;
    if e < c.npages { assert c.Tagged(ch.bits, ch.own[e]); }
  }

  lemma FollowSplittable(c: Config, ch: Chunk, ind: nat, e: nat, need: nat)
    requires LargeAt(c, ch, ind) && Follows(c, ch, ind, e) && e < c.npages && ch.own[e].kind.Free? &&
      0 < need <= ch.own[e].len
    ensures Splittable(c, ch, e, need, Large)
  {
  }

  lemma GrowMergeable(c: Config, m0: map<nat, Chunk>, m: map<nat, Chunk>, x: nat, ind: nat, e: nat, split: nat,
      d2: bool)
    requires x in m0 && LargeAt(c, m0[x], ind) && ind < |m0[x].own|
    requires e == ind + m0[x].own[ind].len && Undisturbed(c, m0, m, {}, {(x, e)})
    requires Live(c, m, x, Run(e, split, Large, d2)) && ChunkOK(c, m[x])
    ensures x in m && Mergeable(c, m[x], ind) && ind < |m[x].own| && m[x].own[ind] == m0[x].own[ind]
    ensures JoinedRun(c, m[x], ind) == Run(ind, m0[x].own[ind].len + split, Large, m0[x].own[ind].dirty || d2)
    ensures SameMemory(m0[x], m[x], m0[x].own[ind])
    ensures e < |m[x].own| && m[x].own[e] == Run(e, split, Large, d2)
  {
    var r := m0[x].own[ind];
    assert Live(c, m0, x, r) && r.start == ind && r.kind.Large?;
    assert Live(c, m, x, r);
    assert r.End() == e;
  }

  lemma JoinTagFacts(c: Config, ch: Chunk, ind: nat)
    requires Mergeable(c, ch, ind)
    ensures var e := ind + ch.own[ind].len;
      && |ch.own| == |ch.bits| == c.npages && 0 < ch.own[ind].len && 0 < ch.own[e].len && e + ch.own[e].len <= c.npages
      && ch.own[ind].End() == e && ch.own[e].start == e && ch.own[ind].start == ind &&
        ch.bits[ind].num == ch.own[ind].len
      && ch.bits[ind].dirty == ch.own[ind].dirty && ch.bits[e + ch.own[e].len - 1].dirty == ch.own[e].dirty
  {
    LargeFacts(c, ch, ind);
    LargeFacts(c, ch, ch.own[ind].End());
  }

  lemma JoinDone(c: Config, m: map<nat, Chunk>, spare: Option<nat>, x: nat, ch': Chunk, ind: nat, e: nat)
    requires x in m && Mergeable(c, m[x], ind) && Resting(c, m, spare, None) && e == m[x].own[ind].End()
    requires JoinedRun(c, m[x], ind).End() <= |m[x].own| && Recut(c, m[x], ch', ind, JoinedRun(c, m[x], ind).End())
    requires ch'.own == Paint(m[x].own, ind, JoinedRun(c, m[x], ind).End(), JoinedRun(c, m[x], ind))
    ensures Resting(c, m[x := ch'], spare, None)
    ensures Live(c, m[x := ch'], x, JoinedRun(c, m[x], ind))
    ensures Undisturbed(c, m, m[x := ch'], Pair(x, ind, e), {(x, ind)})
  {
    hide *;
    MergeableOK(c, m[x], ind);
    JoinedIs(c, m[x], ind);
    RecutOK(c, m[x], ch', ind, JoinedRun(c, m[x], ind).End());
    JoinStep(c, m, x, ch', ind, e);
    JoinLive(c, m, x, ch', ind);
    BusyRests(c, m, spare, x, ch', ind);
  }

  lemma JoinLive(c: Config, m: map<nat, Chunk>, x: nat, ch': Chunk, ind: nat)
    requires x in m && Mergeable(c, m[x], ind) && ChunkOK(c, ch')
    requires JoinedRun(c, m[x], ind).End() <= |m[x].own|
    requires ch'.own == Paint(m[x].own, ind, JoinedRun(c, m[x], ind).End(), JoinedRun(c, m[x], ind))
    ensures Live(c, m[x := ch'], x, JoinedRun(c, m[x], ind))
    ensures c.bias <= ind < c.npages == |ch'.own| && !ch'.own[ind].kind.Free?
  {
    hide Config.Tagged, ZeroOK, Config.Coalesced;
  }

  lemma JoinedIs(c: Config, ch: Chunk, ind: nat)
    requires Mergeable(c, ch, ind)
    ensures ind < |ch.own| && ind + ch.own[ind].len < |ch.own| && var e := ind + ch.own[ind].len;
      JoinedRun(c, ch, ind) ==
        Run(ind, ch.own[ind].len + ch.own[e].len, Large, ch.own[ind].dirty || ch.own[e].dirty)
  {
  }

  lemma MergeableOK(c: Config, ch: Chunk, ind: nat)
    requires Mergeable(c, ch, ind)
    ensures ChunkOK(c, ch)
  {
  }

  lemma JoinStep(c: Config, m: map<nat, Chunk>, x: nat, ch': Chunk, ind: nat, e: nat)
    requires x in m && Mergeable(c, m[x], ind) && ChunkOK(c, ch')
    requires JoinedRun(c, m[x], ind).End() <= |m[x].own| && Recut(c, m[x], ch', ind, JoinedRun(c, m[x], ind).End())
    requires ch'.own == Paint(m[x].own, ind, JoinedRun(c, m[x], ind).End(), JoinedRun(c, m[x], ind))
    requires e == m[x].own[ind].End()
    ensures Undisturbed(c, m, m[x := ch'], Pair(x, ind, e), {(x, ind)})
  {
    hide *;
    var k := JoinShape(c, m[x], ch', ind, e);
    PairHas(x, ind, e);
    UndisturbedStep(c, m, x, ch', ind, k, Pair(x, ind, e), {(x, ind)});
  }

  lemma JoinShape(c: Config, ch: Chunk, ch': Chunk, ind: nat, e: nat) returns (k: nat)
    requires Mergeable(c, ch, ind) && ChunkOK(c, ch')
    requires JoinedRun(c, ch, ind).End() <= |ch.own| && Recut(c, ch, ch', ind, JoinedRun(c, ch, ind).End())
    requires ch'.own == Paint(ch.own, ind, JoinedRun(c, ch, ind).End(), JoinedRun(c, ch, ind))
    requires e == ch.own[ind].End()
    ensures Shaped(c, ch) && Shaped(c, ch') && c.Tiled(ch.own) && c.Tiled(ch'.own) && c.bias <= ind < e < k <= c.npages
    ensures c.Boundary(ch.own, ind) && c.Boundary(ch.own, k) && SameOutside(ch.own, ch'.own, ind, k)
    ensures SameOutside(ch.zero, ch'.zero, ind, k) && SameOutside(ch.touched, ch'.touched, ind, k)
    ensures SameOutside(ch.bits, ch'.bits, ind, k)
    ensures forall p :: ind <= p < k ==> ch.own[p].start == (if p < e then ind else e) && ch'.own[p].start == ind
  {
    hide Config.Tagged;
    k := JoinedRun(c, ch, ind).End();
    assert forall p :: ind <= p < e ==> ch.own[p] == ch.own[ind];
    assert forall p :: e <= p < k ==> ch.own[p] == ch.own[e];
  }

  lemma JoinMoves(c: Config, m0: map<nat, Chunk>, m1: map<nat, Chunk>, m2: map<nat, Chunk>, x: nat, ind: nat, e: nat)
    requires Undisturbed(c, m0, m1, {}, {(x, e)}) && Vacant(c, m0, (x, e))
    requires Undisturbed(c, m1, m2, Pair(x, ind, e), {(x, ind)})
    ensures Undisturbed(c, m0, m2, {(x, ind)}, {(x, ind)})
  {
    PairHas(x, ind, e);
    hide Pair;
    forall y: nat, r: Run | Live(c, m0, y, r) && (y, r.start) !in {(x, ind)}
      ensures Live(c, m2, y, r) && SameRun(m0[y], m2[y], r)
    {
      assert Live(c, m1, y, r) && SameRun(m0[y], m1[y], r);
      assert (y, r.start) !in Pair(x, ind, e);
    }
  }

  /** The owner of a live run writes one of its pages. */
  lemma WriteOK(c: Config, chunks: map<nat, Chunk>, spare: Option<nat>, dt: set<Node>, ct: set<Node>, dl: seq<nat>,
                na: nat, nd: nat, x: nat, r: Run, p: nat, z: bool)
    requires InvOf(c, chunks, spare, dt, ct, dl, na, nd) && Live(c, chunks, x, r) && r.start <= p < r.End()
    ensures p < |chunks[x].zero| == |chunks[x].touched| && spare != Some(x)
    ensures var ch' := chunks[x].(zero := chunks[x].zero[p := z], touched := chunks[x].touched[p := true]);
      && ChunkOK(c, ch') && ActivePages(c, ch') == ActivePages(c, chunks[x]) && ch'.own == chunks[x].own
      && Shaped(c, chunks[x]) && Shaped(c, ch') && c.bias <= c.npages && c.Tiled(chunks[x].own)
      && SameOutside(chunks[x].zero, ch'.zero, p, p + 1) && SameOutside(chunks[x].touched, ch'.touched, p, p + 1)
  {
    hide *;
    LiveOwns(c, chunks, spare, dt, ct, dl, na, nd, x, r, p);
    WriteChunk(c, chunks[x], p, z);
  }

  lemma LiveOwns(c: Config, chunks: map<nat, Chunk>, spare: Option<nat>, dt: set<Node>, ct: set<Node>, dl: seq<nat>,
                 na: nat, nd: nat, x: nat, r: Run, p: nat)
    requires InvOf(c, chunks, spare, dt, ct, dl, na, nd) && Live(c, chunks, x, r) && r.start <= p < r.End()
    ensures x in chunks && spare != Some(x) && ChunkOK(c, chunks[x]) && c.bias <= p < c.npages &&
      |chunks[x].own| == c.npages
    ensures !chunks[x].own[p].kind.Free?
  {
    if spare == Some(x) { NoLiveInIdle(c, chunks, x); }
    assert chunks[x].own[p] == r;
  }

  lemma WriteChunk(c: Config, ch: Chunk, p: nat, z: bool)
    requires ChunkOK(c, ch) && c.bias <= p < c.npages && !ch.own[p].kind.Free?
    ensures p < |ch.zero| == |ch.touched| && c.bias <= c.npages && Shaped(c, ch) && c.Tiled(ch.own)
    ensures var ch' := ch.(zero := ch.zero[p := z], touched := ch.touched[p := true]);
      && ChunkOK(c, ch') && Shaped(c, ch') && ActivePages(c, ch') == ActivePages(c, ch)
      && SameOutside(ch.zero, ch'.zero, p, p + 1) && SameOutside(ch.touched, ch'.touched, p, p + 1)
  {
    var ch' := ch.(zero := ch.zero[p := z], touched := ch.touched[p := true]);
    forall q | c.bias <= q < c.npages ensures PageZeroOK(ch', q) {
      assert PageZeroOK(ch, q);
    }
  }

  /** The pages of the free run that follows the run at ind, 0 if there is none. */
  ghost function FollowLen(ch: Chunk, ind: nat): nat {
    if ind < |ch.own| && ind + ch.own[ind].len < |ch.own| && ch.own[ind + ch.own[ind].len].kind.Free?
    then ch.own[ind + ch.own[ind].len].len else 0
  }

  lemma FollowLenIs(ch: Chunk, ind: nat)
    requires FollowLen(ch, ind) > 0
    ensures ind < |ch.own| && ind + ch.own[ind].len < |ch.own| && var e := ind + ch.own[ind].len;
      ch.own[e].kind.Free? && ch.own[e].len == FollowLen(ch, ind)
  {
  }

  lemma FollowsIs(c: Config, ch: Chunk, ind: nat)
    requires ind < |ch.own| && Follows(c, ch, ind, ind + ch.own[ind].len)
    ensures FollowLen(ch, ind) == (var e := ind + ch.own[ind].len;
      if e < c.npages && e < |ch.bits| && !ch.bits[e].inUse then ch.bits[e].num else 0)
    ensures var e := ind + ch.own[ind].len;
      && |ch.own| == |ch.bits| == c.npages
      && (e < c.npages ==>
            && 0 < ch.own[e].len && (ch.bits[e].inUse <==> !ch.own[e].kind.Free?)
            && (ch.own[e].kind.Free? ==> ch.bits[e].num == ch.own[e].len))
  {
  }

  lemma LargerShape(c: Config, ch: Chunk, ind: nat)
    requires SmallAt(c, ch, ind)
    ensures ChunkOK(c, ch) && Starts(c, ch, ind) && ind < |ch.own| && ch.own[ind].kind.Small?
    ensures ch.own[ind].(kind := Large).End() == ind + ch.own[ind].len
  {
  }

  lemma TrimmedIs(c: Config, m: map<nat, Chunk>, m': map<nat, Chunk>, x: nat, ind: nat, kept: nat, len: nat)
    requires Trimmed(c, m, m', x, ind, kept, len)
    ensures Undisturbed(c, m, m', {(x, ind)}, {(x, kept)})
  {
  }

  lemma RunEnd(ind: nat, len: nat, d: bool)
    ensures Run(ind, len, Large, d).End() == ind + len
  {
  }

  ghost function GrownLen(m: map<nat, Chunk>, x: nat, ind: nat): nat {
    if x in m && ind < |m[x].own| then m[x].own[ind].len else 0
  }

  /** The large run at ind has grown in place to between lo and hi pages: the old pages hold what they held, the
      new ones are pristine, and zero if that was asked for. */
  ghost predicate Grown(c: Config, m0: map<nat, Chunk>, m: map<nat, Chunk>, x: nat, ind: nat, oldsize: nat, lo: nat,
      hi: nat, zero: bool) {
    && Undisturbed(c, m0, m, {(x, ind)}, {(x, ind)})
    && (exists len, d :: lo <= len <= hi && oldsize < len && Live(c, m, x, Run(ind, len, Large, d))
          && Pristine(m, x, ind + oldsize, len - oldsize) &&
            (zero ==> AllZero(m[x].zero, ind + oldsize, len - oldsize)))
    && x in m0 && x in m && SameMemory(m0[x], m[x], Run(ind, oldsize, Large, false))
  }

  lemma GrownIs(c: Config, m0: map<nat, Chunk>, m1: map<nat, Chunk>, m: map<nat, Chunk>, x: nat, ind: nat, oldsize: nat,
                lo: nat, hi: nat, zero: bool, len: nat, d: bool)
    requires Undisturbed(c, m0, m, {(x, ind)}, {(x, ind)}) && Live(c, m, x, Run(ind, len, Large, d))
    requires lo <= len <= hi && oldsize < len && x in m0 && x in m1 && x in m
    requires m[x].zero == m1[x].zero && m[x].touched == m1[x].touched
    requires ind < |m0[x].own| && m0[x].own[ind].len == oldsize && m0[x].own[ind].start == ind
    requires SameMemory(m0[x], m1[x], m0[x].own[ind])
    requires Pristine(m1, x, ind + oldsize, len - oldsize) &&
      (zero ==> AllZero(m1[x].zero, ind + oldsize, len - oldsize))
    ensures Grown(c, m0, m, x, ind, oldsize, lo, hi, zero) && GrownLen(m, x, ind) == len
  {
    assert Pristine(m, x, ind + oldsize, len - oldsize);
  }

  lemma LiveChunk(c: Config, m: map<nat, Chunk>, x: nat, r: Run)
    requires Live(c, m, x, r)
    ensures x in m
  {
  }

  lemma WriteUndisturbed(c: Config, m: map<nat, Chunk>, x: nat, r: Run, p: nat, ch': Chunk)
    requires x in m && Live(c, m, x, r) && r.start <= p < r.End() && Shaped(c, m[x]) && Shaped(c, ch') &&
      c.Tiled(m[x].own)
    requires p < |m[x].zero| && p < |m[x].touched| && ch'.own == m[x].own && ch'.bits == m[x].bits
    requires SameOutside(m[x].zero, ch'.zero, p, p + 1) && SameOutside(m[x].touched, ch'.touched, p, p + 1)
    ensures Undisturbed(c, m, m[x := ch'], {(x, r.start)}, {(x, r.start)}) && Live(c, m[x := ch'], x, r)
  {
    EndIsBoundary(c, m[x].own, r.start);
    hide Undisturbed, Shaped;
    assert forall q :: r.start <= q < r.End() ==> m[x].own[q] == r;
    UndisturbedStep(c, m, x, ch', r.start, r.End(), {(x, r.start)}, {(x, r.start)});
  }

  lemma WriteRests(c: Config, m: map<nat, Chunk>, spare: Option<nat>, x: nat, ch': Chunk)
    requires Resting(c, m, spare, None) && x in m && ch'.own == m[x].own
    ensures Resting(c, m[x := ch'], spare, None)
  {
  }
}
