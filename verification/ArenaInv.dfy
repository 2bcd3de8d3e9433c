/** The arena invariant on values, and the value-level step of arena_run_split (arena.c:189-338). */
module ArenaInv {
  import opened Basics
  import opened PageMap
  import opened ArenaChunk
  import opened Avail

  /** The arena invariant, on values. */
  ghost predicate InvOf(c: Config, chunks: map<nat, Chunk>, spare: Option<nat>, dirtyTree: set<Node>,
                        cleanTree: set<Node>, dirtyList: seq<nat>, nactive: nat, ndirty: nat)
  {
    && c.Valid()
    && (forall x :: x in chunks ==> ChunkOK(c, chunks[x]))
    && TreeOK(c, dirtyTree, chunks, spare, true)
    && TreeOK(c, cleanTree, chunks, spare, false)
    && (spare.Some? ==> spare.value in chunks && c.Idle(chunks[spare.value].own))
    && ListOK(chunks, dirtyList)
    && nactive == TotalActive(c, chunks) && ndirty == TotalDirty(chunks)
  }

  /** chunks_dirty holds each dirtied chunk once. */
  ghost predicate ListOK(chunks: map<nat, Chunk>, dirtyList: seq<nat>) {
    && (forall i, j :: 0 <= i < j < |dirtyList| ==> dirtyList[i] != dirtyList[j])
    && (forall x :: x in dirtyList <==> x in chunks && chunks[x].dirtied)
  }

  /** One chunk other than the spare took a step. */
  lemma ChunkStep(c: Config, chunks: map<nat, Chunk>, spare: Option<nat>, dt: set<Node>, ct: set<Node>,
                  dl: seq<nat>, na: nat, nd: nat, x: nat, ch': Chunk,
                  dt': set<Node>, ct': set<Node>, dl': seq<nat>, na': nat, nd': nat)
    requires InvOf(c, chunks, spare, dt, ct, dl, na, nd)
    requires x in chunks && spare != Some(x) && ChunkOK(c, ch')
    requires TreeOK(c, dt', chunks[x := ch'], spare, true) && TreeOK(c, ct', chunks[x := ch'], spare, false)
    requires na' + ActivePages(c, chunks[x]) == na + ActivePages(c, ch')
    requires nd' + chunks[x].ndirty == nd + ch'.ndirty
    requires ListOK(chunks[x := ch'], dl')
    ensures InvOf(c, chunks[x := ch'], spare, dt', ct', dl', na', nd')
  {
    hide *;
    var chunks' := chunks[x := ch'];
    InvChunks(c, chunks, spare, dt, ct, dl, na, nd);
    InvParts(c, chunks, spare, dt, ct, dl, na, nd);
    AllOKStep(c, chunks, x, ch');
    TotalsStep(c, chunks, x, ch');
    InvIntro(c, chunks', spare, dt', ct', dl', na', nd');
  }

  ghost predicate AllOK(c: Config, m: map<nat, Chunk>) {
    forall x :: x in m ==> ChunkOK(c, m[x])
  }

  lemma AllOKStep(c: Config, m: map<nat, Chunk>, x: nat, ch': Chunk)
    requires AllOK(c, m) && ChunkOK(c, ch')
    ensures AllOK(c, m[x := ch'])
  {
    hide ChunkOK;
  }

  lemma InvChunks(c: Config, chunks: map<nat, Chunk>, spare: Option<nat>, dt: set<Node>, ct: set<Node>, dl: seq<nat>,
                  na: nat, nd: nat)
    requires InvOf(c, chunks, spare, dt, ct, dl, na, nd)
    ensures AllOK(c, chunks) && (spare.Some? ==> spare.value in chunks && c.Idle(chunks[spare.value].own))
  {
    hide ChunkOK, TreeOK, ListOK, TotalActive, TotalDirty;
  }

  lemma InvIntro(c: Config, m: map<nat, Chunk>, spare: Option<nat>, dt: set<Node>, ct: set<Node>, dl: seq<nat>,
      na: nat, nd: nat)
    requires c.Valid() && AllOK(c, m)
    requires TreeOK(c, dt, m, spare, true) && TreeOK(c, ct, m, spare, false)
    requires spare.Some? ==> spare.value in m && c.Idle(m[spare.value].own)
    requires ListOK(m, dl) && na == TotalActive(c, m) && nd == TotalDirty(m)
    ensures InvOf(c, m, spare, dt, ct, dl, na, nd)
  {
    hide TreeOK, ListOK, ChunkOK, TotalActive, TotalDirty;
  }

  lemma ListKept(chunks: map<nat, Chunk>, dl: seq<nat>, x: nat, ch': Chunk)
    requires ListOK(chunks, dl) && x in chunks && ch'.dirtied == chunks[x].dirtied
    ensures ListOK(chunks[x := ch'], dl)
  {
  }

  lemma ActiveOf(c: Config, ch: Chunk, ch': Chunk)
    requires Shaped(c, ch) && Shaped(c, ch')
    ensures ActivePages(c, ch) == Count(ch.own, Active, c.bias, c.npages)
    ensures ActivePages(c, ch') == Count(ch'.own, Active, c.bias, c.npages)
  {
  }

  /** The run that starts at s owns all its pages. */
  ghost predicate OneRun(own: seq<Run>, s: nat) {
    s < |own| && own[s].start == s && own[s].End() <= |own| && forall p :: s <= p < own[s].End() ==> own[p] == own[s]
  }

  lemma OneRunPages(own: seq<Run>, s: nat)
    requires OneRun(own, s)
    ensures own[s].End() <= |own| && forall p :: s <= p < s + own[s].len ==> own[p] == own[s]
  {
  }

  lemma InvParts(c: Config, chunks: map<nat, Chunk>, spare: Option<nat>, dt: set<Node>, ct: set<Node>,
                 dl: seq<nat>, na: nat, nd: nat)
    requires InvOf(c, chunks, spare, dt, ct, dl, na, nd)
    ensures c.Valid()
    ensures TreeOK(c, dt, chunks, spare, true) && TreeOK(c, ct, chunks, spare, false)
    ensures ListOK(chunks, dl) && na == TotalActive(c, chunks) && nd == TotalDirty(chunks)
  {
  }

  /** What arena_run_split does to a tree that held the run at `ind` of chunk x. */
  function SplitTree(t: set<Node>, x: nat, ind: nat, total: nat, need: nat): set<Node> {
    t - {Node(total, x, ind)} + if need < total then {Node(total - need, x, ind + need)} else {}
  }

  lemma SplitTreeIs(t: set<Node>, x: nat, ind: nat, total: nat, need: nat)
    ensures SplitTree(t, x, ind, total, need)
         == t - {Node(total, x, ind)} + if need < total then {Node(total - need, x, ind + need)} else {}
  {
  }

  lemma SplitInv(c: Config, chunks: map<nat, Chunk>, spare: Option<nat>, dt: set<Node>, ct: set<Node>,
                 dl: seq<nat>, na: nat, nd: nat, x: nat, ch': Chunk, ind: nat, need: nat, kind: Kind)
    requires InvOf(c, chunks, spare, dt, ct, dl, na, nd) && x in chunks && spare != Some(x)
    requires Splittable(c, chunks[x], ind, need, kind) && SplitBits(c, chunks[x], ch'.bits, ind, need, kind)
    requires ch'.own == SplitOwn(chunks[x].own, ind, need, kind)
    requires SplitMemory(chunks[x], ch'.zero, ch'.touched, ind, need) && ch'.dirtied == chunks[x].dirtied
    requires ch'.ndirty + (if chunks[x].own[ind].dirty then need else 0) == chunks[x].ndirty && Shaped(c, ch')
    ensures var r := chunks[x].own[ind];
            var nd' := nd - if r.dirty then need else 0;
            nd' >= 0 &&
            InvOf(c, chunks[x := ch'], spare,
                  if r.dirty then SplitTree(dt, x, ind, r.len, need) else dt,
                  if r.dirty then ct else SplitTree(ct, x, ind, r.len, need), dl, na + need, nd')
  {
    hide *;
    var ch := chunks[x];
    SplitFacts(c, ch, ind, need, kind);
    var r := ch.own[ind];
    InvParts(c, chunks, spare, dt, ct, dl, na, nd);
    ListKept(chunks, dl, x, ch');
    SplitOK(c, ch, ch', ind, need, kind);
    ActiveOf(c, ch, ch');
    TotalDirtyOf(chunks, x);
    assert forall p :: ind <= p < ind + r.len ==> ch.own[p] == r by { OneRunPages(ch.own, ind); }
    SplitPages(ch.own, ind, need, kind);
    if r.dirty {
      SplitTreeOK(c, dt, chunks, spare, x, ch', ind, need, kind);
      TreeKept(c, ct, chunks, ch', x, spare, false, ind, r.End());
      ChunkStep(c, chunks, spare, dt, ct, dl, na, nd, x, ch',
                SplitTree(dt, x, ind, r.len, need), ct, dl, na + need, nd - need);
    } else {
      SplitTreeOK(c, ct, chunks, spare, x, ch', ind, need, kind);
      TreeKept(c, dt, chunks, ch', x, spare, true, ind, r.End());
      ChunkStep(c, chunks, spare, dt, ct, dl, na, nd, x, ch',
                dt, SplitTree(ct, x, ind, r.len, need), dl, na + need, nd);
    }
  }

  lemma SplitTreeOK(c: Config, t: set<Node>, chunks: map<nat, Chunk>, spare: Option<nat>, x: nat, ch': Chunk,
                    ind: nat, need: nat, kind: Kind)
    requires x in chunks && spare != Some(x) && Splittable(c, chunks[x], ind, need, kind) && Shaped(c, ch')
    requires TreeOK(c, t, chunks, spare, chunks[x].own[ind].dirty)
    requires ch'.own == SplitOwn(chunks[x].own, ind, need, kind)
    ensures TreeOK(c, SplitTree(t, x, ind, chunks[x].own[ind].len, need), chunks[x := ch'], spare,
      chunks[x].own[ind].dirty)
  {
    hide *;
    SplitFacts(c, chunks[x], ind, need, kind);
    var r := chunks[x].own[ind];
    OneRunPages(chunks[x].own, ind);
    SplitPages(chunks[x].own, ind, need, kind);
    forall n: Node
      ensures n in SplitTree(t, x, ind, r.len, need) <==>
               if n.chunk == x && ind <= n.page < r.End() then ch'.own[n.page] == Run(n.page, n.size, Free, r.dirty)
                 else n in t
    {
      if n in t { TreeHas(c, t, chunks, spare, r.dirty, n); }
      SplitTreeHas(t, x, ind, r.len, need, n);
    }
    TreeStep(c, t, SplitTree(t, x, ind, r.len, need), chunks, ch', x, spare, r.dirty, ind, r.End());
  }

  lemma TreeHas(c: Config, t: set<Node>, chunks: map<nat, Chunk>, spare: Option<nat>, d: bool, n: Node)
    requires TreeOK(c, t, chunks, spare, d) && n in t
    ensures n.chunk in chunks && n.page < |chunks[n.chunk].own|
    ensures chunks[n.chunk].own[n.page] == Run(n.page, n.size, Free, d)
  {
    assert IsFree(c, chunks[n.chunk], n.page, n.size, d);
  }

  lemma SplitTreeHas(t: set<Node>, x: nat, ind: nat, len: nat, need: nat, n: Node)
    requires need <= len
    ensures n in SplitTree(t, x, ind, len, need) <==>
      (n in t && n != Node(len, x, ind)) || (need < len && n == Node(len - need, x, ind + need))
  {
  }

  /** The map elements arena_run_split leaves behind. */
  ghost predicate SplitMapped(bits: seq<Bits>, b: seq<Bits>, ind: nat, total: nat, need: nat, kind: Kind, d: bool)
    requires 0 < need <= total && ind + total <= |bits| && !kind.Free?
  {
    && SameOutside(bits, b, ind, ind + total)
    && (forall p :: ind <= p < ind + total ==> b[p].unzeroed == bits[p].unzeroed || d)
    && (need < total ==>
          && b[ind + need] == Unallocated(total - need, d, b[ind + need].unzeroed)
          && b[ind + total - 1] == Unallocated(total - need, d, b[ind + total - 1].unzeroed))
    && (kind.Large? ==>
          && b[ind] == LargeSet(b[ind], need, d)
          && (need > 1 ==> b[ind + need - 1] == LargeSet(b[ind + need - 1], 0, d)))
    && (kind.Small? ==>
          && b[ind].dirty == b[ind + need - 1].dirty == d
          && forall p :: ind <= p < ind + need ==>
               b[p].inUse && !b[p].large && b[p].num == p - ind && b[p].bin == kind.bin)
  }

  ghost function Untouched(touched: seq<bool>, ind: nat, need: nat): (t: seq<bool>)
    ensures |t| == |touched|
    ensures forall p {:trigger t[p]} :: 0 <= p < |t| ==> t[p] == (touched[p] && !(ind <= p < ind + need))
  {
    seq(|touched|, p requires 0 <= p < |touched| => touched[p] && !(ind <= p < ind + need))
  }

  /** Every page of [ind, ind+need) is zero. */
  ghost predicate AllZero(zero: seq<bool>, ind: nat, need: nat) {
    ind + need <= |zero| && forall p :: ind <= p < ind + need ==> zero[p]
  }

  /** The pages of [ind, ind+need) whose unzeroed bit is clear are zero. */
  ghost predicate ReallyZero(bits: seq<Bits>, zero: seq<bool>, ind: nat, need: nat) {
    ind + need <= |bits| == |zero| && forall p :: ind <= p < ind + need && !bits[p].unzeroed ==> zero[p]
  }

  ghost predicate Zeroed(zero: seq<bool>, z: seq<bool>, ind: nat, need: nat, wanted: bool) {
    if wanted then SameOutside(zero, z, ind, ind + need) && AllZero(z, ind, need) else z == zero
  }

  lemma SplitMemoryOf(ch: Chunk, zero: seq<bool>, touched: seq<bool>, ind: nat, need: nat, wanted: bool)
    requires |ch.zero| == |ch.touched| && ind + need <= |ch.zero| && touched == Untouched(ch.touched, ind, need)
    requires Zeroed(ch.zero, zero, ind, need, wanted)
    ensures SplitMemory(ch, zero, touched, ind, need) && |zero| == |ch.zero|
    ensures wanted ==> AllZero(zero, ind, need)
  {
  }

  lemma MappedIsSplit(c: Config, ch: Chunk, b: seq<Bits>, ind: nat, need: nat, kind: Kind)
    requires Splittable(c, ch, ind, need, kind)
    requires SplitMapped(ch.bits, b, ind, ch.own[ind].len, need, kind, ch.own[ind].dirty)
    ensures SplitBits(c, ch, b, ind, need, kind) && |b| == c.npages
  {
    SplitFacts(c, ch, ind, need, kind);
    hide Splittable, ChunkOK;
  }

  /** What arena_run_split may rely on about the run it splits. */
  lemma SplitFacts(c: Config, ch: Chunk, ind: nat, need: nat, kind: Kind)
    requires Splittable(c, ch, ind, need, kind)
    ensures Shaped(c, ch) && c.bias <= ind < ind + need <= ch.own[ind].End() <= c.npages
    ensures ch.own[ind].start == ind && ch.own[ind].kind.Free? && ch.own[ind].End() == ind + ch.own[ind].len
    ensures OneRun(ch.own, ind)
    ensures ch.bits[ind].dirty == ch.own[ind].dirty && ch.bits[ind].num == ch.own[ind].len
    ensures ch.own[ind].dirty ==> need <= ch.ndirty
    ensures !ch.own[ind].dirty ==> ReallyZero(ch.bits, ch.zero, ind, need)
    ensures kind.Small? ==> kind.bin < |c.runPages| && need == c.runPages[kind.bin]
    ensures kind.Large? || kind.Small?
  {
    SplitCounts(c, ch, ind, need, kind);
    assert c.Tagged(ch.bits, ch.own[ind]);
    forall p | ind <= p < ind + need && !ch.own[ind].dirty && !ch.bits[p].unzeroed
      ensures ch.zero[p]
    {
      assert PageZeroOK(ch, p) && ch.own[p] == ch.own[ind];
    }
  }
}
