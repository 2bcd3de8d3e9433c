/** Allocated runs are recut and merged in place (arena.c:966-1029, 1396-1448, 1739-1803). */
module Relabel {
  import opened Basics
  import opened PageMap
  import opened ArenaChunk
  import opened Avail
  import opened ArenaInv
  import opened LiveRuns

  /** ch' differs from ch only between the run boundaries s and e, where both hold allocated runs. */
  ghost predicate Recut(c: Config, ch: Chunk, ch': Chunk, s: nat, e: nat) {
    && Shaped(c, ch) && Shaped(c, ch')
    && c.bias <= s <= e && c.Boundary(ch.own, s) && c.Boundary(ch.own, e)
    && SameOutside(ch.own, ch'.own, s, e) && SameOutside(ch.bits, ch'.bits, s, e)
    && TiledWithin(ch'.own, s, e)
    && (forall p :: s <= p < e ==> !ch.own[p].kind.Free? && !ch'.own[p].kind.Free?)
    && (forall p :: s <= p < e ==> c.Tagged(ch'.bits, ch'.own[p]) && PageZeroOK(ch', p))
    && ch'.zero == ch.zero && ch'.touched == ch.touched
    && ch'.ndirty == ch.ndirty && ch'.dirtied == ch.dirtied
  }

  lemma RecutCounts(c: Config, ch: Chunk, ch': Chunk, s: nat, e: nat, k: Class)
    requires Recut(c, ch, ch', s, e)
    ensures Count(ch'.own, k, c.bias, c.npages) == Count(ch.own, k, c.bias, c.npages)
  {
    CountSame(ch.own, ch'.own, k, c.bias, c.npages);
  }

  lemma RecutOK(c: Config, ch: Chunk, ch': Chunk, s: nat, e: nat)
    requires ChunkOK(c, ch) && Recut(c, ch, ch', s, e)
    ensures ChunkOK(c, ch')
  {
    RecutCounts(c, ch, ch', s, e, DirtyFree);
    RelabelOK(c, ch, ch', s, e);
  }

  lemma RecutFacts(c: Config, ch: Chunk, ch': Chunk, s: nat, e: nat)
    requires Recut(c, ch, ch', s, e)
    ensures Shaped(c, ch) && Shaped(c, ch') && c.bias <= s <= e <= c.npages
    ensures SameOutside(ch.own, ch'.own, s, e) && ch'.ndirty == ch.ndirty && ch'.dirtied == ch.dirtied
    ensures forall p :: s <= p < e ==> !ch.own[p].kind.Free? && !ch'.own[p].kind.Free?
  {
  }

  lemma RecutInv(c: Config, chunks: map<nat, Chunk>, spare: Option<nat>, dt: set<Node>, ct: set<Node>, dl: seq<nat>,
                 na: nat, nd: nat, x: nat, ch': Chunk, s: nat, e: nat)
    requires InvOf(c, chunks, spare, dt, ct, dl, na, nd) && x in chunks && spare != Some(x)
    requires ChunkOK(c, chunks[x]) && Recut(c, chunks[x], ch', s, e)
    ensures InvOf(c, chunks[x := ch'], spare, dt, ct, dl, na, nd)
  {
    hide *;
    var ch := chunks[x];
    RecutFacts(c, ch, ch', s, e);
    RecutOK(c, ch, ch', s, e);
    RecutCounts(c, ch, ch', s, e, Active);
    ActiveOf(c, ch, ch');
    InvParts(c, chunks, spare, dt, ct, dl, na, nd);
    ListKept(chunks, dl, x, ch');
    TreeKept(c, dt, chunks, ch', x, spare, true, s, e);
    TreeKept(c, ct, chunks, ch', x, spare, false, s, e);
    ChunkStep(c, chunks, spare, dt, ct, dl, na, nd, x, ch', dt, ct, dl, na, nd);
  }

  // ---------- cutting a large run in two ----------

  ghost predicate LargeAt(c: Config, ch: Chunk, ind: nat) {
    ChunkOK(c, ch) && Starts(c, ch, ind) && ch.own[ind].kind.Large?
  }

  /** The large run at ind becomes two large runs, the first of `head` pages. */
  ghost function CutOwn(own: seq<Run>, ind: nat, head: nat): (o: seq<Run>)
    requires ind < |own| && own[ind].start == ind && 0 < head < own[ind].len && own[ind].End() <= |own|
    ensures |o| == |own|
  {
    var r := own[ind];
    Paint(Paint(own, ind, ind + head, Run(ind, head, Large, r.dirty)),
          ind + head, r.End(), Run(ind + head, r.len - head, Large, r.dirty))
  }

  function CutBits(bits: seq<Bits>, ind: nat, len: nat, head: nat, d: bool): (b: seq<Bits>)
    requires 0 < head < len && ind + len <= |bits|
    ensures |b| == |bits|
  {
    var b1 := bits[ind + head - 1 := LargeSet(bits[ind + head - 1], 0, d)];
    var b2 := b1[ind := LargeSet(b1[ind], head, d)];
    b2[ind + head := LargeSet(b2[ind + head], len - head, d)]
  }

  lemma CutRecut(c: Config, ch: Chunk, ch': Chunk, ind: nat, head: nat)
    requires LargeAt(c, ch, ind) && 0 < head < ch.own[ind].len
    requires ch' == ch.(bits := CutBits(ch.bits, ind, ch.own[ind].len, head, ch.own[ind].dirty),
                        own := CutOwn(ch.own, ind, head))
    ensures Recut(c, ch, ch', ind, ind + ch.own[ind].len)
  {
    hide *;
    LargeFacts(c, ch, ind);
    var r := ch.own[ind];
    CutTags(c, ch.bits, ind, r.len, head, r.dirty);
    CutPages(ch.own, ind, head);
    CutZero(c, ch, ch', ind, head);
    IntoRecut(c, ch, ch', ind, ind + r.len);
  }

  /** What is known of a large run. */
  lemma LargeFacts(c: Config, ch: Chunk, ind: nat)
    requires LargeAt(c, ch, ind)
    ensures Shaped(c, ch) && c.Tiled(ch.own) && c.bias <= ind && 0 < ch.own[ind].len &&
      ch.own[ind].End() == ind + ch.own[ind].len <= c.npages
    ensures c.Boundary(ch.own, ind) && c.Boundary(ch.own, ind + ch.own[ind].len)
    ensures c.Tagged(ch.bits, ch.own[ind]) && ch.own[ind] == Run(ind, ch.own[ind].len, Large, ch.own[ind].dirty)
    ensures forall p :: ind <= p < ind + ch.own[ind].len ==> ch.own[p] == ch.own[ind]
    ensures ch.bits[ind].dirty == ch.own[ind].dirty && ch.bits[ind].num == ch.own[ind].len
  {
    EndIsBoundary(c, ch.own, ind);
  }

  lemma CutPages(own: seq<Run>, ind: nat, head: nat)
    requires ind < |own| && own[ind].start == ind && 0 < head < own[ind].len && own[ind].End() <= |own|
    ensures own[ind].End() == ind + own[ind].len
    ensures SameOutside(own, CutOwn(own, ind, head), ind, ind + own[ind].len)
    ensures TiledWithin(CutOwn(own, ind, head), ind, ind + own[ind].len)
    ensures forall p :: ind <= p < ind + head ==> CutOwn(own, ind, head)[p] == Run(ind, head, Large, own[ind].dirty)
    ensures forall p :: ind + head <= p < ind + own[ind].len ==>
              CutOwn(own, ind, head)[p] == Run(ind + head, own[ind].len - head, Large, own[ind].dirty)
  {
  }

  lemma CutZero(c: Config, ch: Chunk, ch': Chunk, ind: nat, head: nat)
    requires LargeAt(c, ch, ind) && 0 < head < ch.own[ind].len && Shaped(c, ch')
    requires ch'.own == CutOwn(ch.own, ind, head) && ch'.zero == ch.zero && ch'.touched == ch.touched
    requires forall p :: 0 <= p < |ch.bits| ==> ch'.bits[p].unzeroed == ch.bits[p].unzeroed
    ensures forall p :: ind <= p < ind + ch.own[ind].len ==> PageZeroOK(ch', p)
  {
    forall p | ind <= p < ind + ch.own[ind].len
      ensures PageZeroOK(ch', p)
    {
      assert PageZeroOK(ch, p) && ch.own[p] == ch.own[ind];
    }
  }

  lemma IntoRecut(c: Config, ch: Chunk, ch': Chunk, s: nat, e: nat)
    requires Shaped(c, ch) && |ch'.bits| == |ch.bits|
    requires c.bias <= s <= e && c.Boundary(ch.own, s) && c.Boundary(ch.own, e)
    requires SameOutside(ch.own, ch'.own, s, e) && SameOutside(ch.bits, ch'.bits, s, e)
    requires TiledWithin(ch'.own, s, e) && e <= |ch.own|
    requires forall p :: s <= p < e ==> !ch.own[p].kind.Free?
    requires forall p :: s <= p < e ==> !ch'.own[p].kind.Free? && c.Tagged(ch'.bits, ch'.own[p])
    requires ch' == ch.(bits := ch'.bits, own := ch'.own)
    requires forall p :: s <= p < e ==> PageZeroOK(ch', p)
    ensures Recut(c, ch, ch', s, e)
  {
  }

  lemma CutTags(c: Config, bits: seq<Bits>, ind: nat, len: nat, head: nat, d: bool)
    requires 0 < head < len && ind + len <= |bits|
    requires c.Tagged(bits, Run(ind, len, Large, d))
    ensures var b := CutBits(bits, ind, len, head, d);
      && c.Tagged(b, Run(ind, head, Large, d)) && c.Tagged(b, Run(ind + head, len - head, Large, d))
      && SameOutside(bits, b, ind, ind + len)
      && forall p :: 0 <= p < |bits| ==> b[p].unzeroed == bits[p].unzeroed
  {
  }

  // ---------- merging the large run that follows into a large run ----------

  ghost predicate Mergeable(c: Config, ch: Chunk, ind: nat) {
    LargeAt(c, ch, ind) && ch.own[ind].End() < c.npages && LargeAt(c, ch, ch.own[ind].End())
  }

  ghost function JoinedRun(c: Config, ch: Chunk, ind: nat): Run
    requires Mergeable(c, ch, ind)
  {
    var r, r2 := ch.own[ind], ch.own[ch.own[ind].End()];
    Run(ind, r.len + r2.len, Large, r.dirty || r2.dirty)
  }

  function JoinBits(bits: seq<Bits>, ind: nat, len: nat, d: bool): (b: seq<Bits>)
    requires 0 < len && ind + len <= |bits|
    ensures |b| == |bits|
  {
    var b := bits[ind := LargeSet(bits[ind], len, d)];
    b[ind + len - 1 := LargeSet(b[ind + len - 1], 0, d)]
  }

  lemma JoinRecut(c: Config, ch: Chunk, ch': Chunk, ind: nat)
    requires Mergeable(c, ch, ind)
    requires var r := JoinedRun(c, ch, ind);
      r.End() <= |ch.own| == |ch.bits| &&
      ch' == ch.(bits := JoinBits(ch.bits, ind, r.len, r.dirty), own := Paint(ch.own, ind, r.End(), r))
    ensures Recut(c, ch, ch', ind, JoinedRun(c, ch, ind).End())
  {
    hide *;
    var r := JoinFacts(c, ch, ind);
    JoinTags(c, ch.bits, r);
    JoinZero(c, ch, ch', ind, r);
    IntoRecut(c, ch, ch', ind, r.start + r.len);
  }

  lemma JoinFacts(c: Config, ch: Chunk, ind: nat) returns (r: Run)
    requires Mergeable(c, ch, ind)
    ensures r == JoinedRun(c, ch, ind) && r.End() == r.start + r.len <= c.npages && 1 < r.len && r.kind.Large? &&
      r.start == ind
    ensures Shaped(c, ch) && c.bias <= ind && c.Boundary(ch.own, ind) && c.Boundary(ch.own, r.start + r.len)
    ensures forall p :: ind <= p < r.start + r.len ==> !ch.own[p].kind.Free?
    ensures forall p :: ind <= p < r.start + r.len ==> ch.own[p].dirty ==> r.dirty
    ensures forall p :: ind <= p < r.start + r.len ==> PageZeroOK(ch, p)
  {
    r := JoinedRun(c, ch, ind);
    LargeFacts(c, ch, ind);
    LargeFacts(c, ch, ch.own[ind].End());
  }

  lemma JoinZero(c: Config, ch: Chunk, ch': Chunk, ind: nat, r: Run)
    requires Shaped(c, ch) && r.start == ind && 0 < r.len && r.start + r.len <= c.npages && r.kind.Large?
    requires forall p :: ind <= p < r.start + r.len ==> !ch.own[p].kind.Free?
    requires forall p :: ind <= p < r.start + r.len ==> ch.own[p].dirty ==> r.dirty
    requires forall p :: ind <= p < r.start + r.len ==> PageZeroOK(ch, p)
    requires ch' == ch.(bits := JoinBits(ch.bits, ind, r.len, r.dirty), own := Paint(ch.own, ind, r.start + r.len, r))
    ensures forall p :: ind <= p < r.start + r.len ==> PageZeroOK(ch', p)
    ensures TiledWithin(ch'.own, ind, r.start + r.len) && SameOutside(ch.own, ch'.own, ind, r.start + r.len)
    ensures forall p :: ind <= p < r.start + r.len ==> ch'.own[p] == r
  {
    forall p | ind <= p < r.start + r.len ensures PageZeroOK(ch', p) {
      assert PageZeroOK(ch, p);
    }
  }

  // ---------- a small run relabelled as a large one ----------

  lemma LargerRecut(c: Config, ch: Chunk, ch': Chunk, ind: nat)
    requires ChunkOK(c, ch) && Starts(c, ch, ind) && ch.own[ind].kind.Small? && !ch.own[ind].dirty
    requires ch.own[ind].len > 1
    requires var r := ch.own[ind].(kind := Large);
      ind + r.len <= |ch.own| == |ch.bits| &&
      ch' == ch.(bits := JoinBits(ch.bits, ind, r.len, false), own := Paint(ch.own, ind, ind + r.len, r))
    ensures Recut(c, ch, ch', ind, ind + ch.own[ind].len)
  {
    hide *;
    SmallPages(c, ch, ind);
    var r := ch.own[ind].(kind := Large);
    SmallZero(c, ch, ch', ind);
    JoinTags(c, ch.bits, r);
    PaintWithin(ch.own, r);
    IntoRecut(c, ch, ch', ind, ind + r.len);
  }

  lemma SmallPages(c: Config, ch: Chunk, ind: nat)
    requires ChunkOK(c, ch) && Starts(c, ch, ind) && ch.own[ind].kind.Small?
    ensures Shaped(c, ch) && c.bias <= ind && ch.own[ind].start == ind && 0 < ch.own[ind].len &&
      ind + ch.own[ind].len <= c.npages
    ensures c.Boundary(ch.own, ind) && c.Boundary(ch.own, ind + ch.own[ind].len)
    ensures ch.own[ind].(kind := Large).End() == ind + ch.own[ind].len && |ch.own| == |ch.bits| == c.npages
    ensures c.Tiled(ch.own) && forall p :: ind <= p < ind + ch.own[ind].len ==> ch.own[p] == ch.own[ind]
  {
    hide Config.Tagged;
    EndIsBoundary(c, ch.own, ind);
  }

  lemma JoinTags(c: Config, bits: seq<Bits>, r: Run)
    requires 1 < r.len && r.kind.Large? && r.End() <= |bits|
    ensures c.Tagged(JoinBits(bits, r.start, r.len, r.dirty), r)
    ensures SameOutside(bits, JoinBits(bits, r.start, r.len, r.dirty), r.start, r.start + r.len)
  {
  }

  lemma SmallZero(c: Config, ch: Chunk, ch': Chunk, ind: nat)
    requires ChunkOK(c, ch) && Starts(c, ch, ind) && ch.own[ind].kind.Small? && !ch.own[ind].dirty
    requires var r := ch.own[ind].(kind := Large);
      ind + r.len <= |ch.own| == |ch.bits| && 0 < r.len &&
      ch' == ch.(bits := JoinBits(ch.bits, ind, r.len, false), own := Paint(ch.own, ind, ind + r.len, r))
    ensures forall p :: ind <= p < ind + ch.own[ind].len ==> PageZeroOK(ch', p)
  {
    forall p | ind <= p < ind + ch.own[ind].len
      ensures PageZeroOK(ch', p)
    {
      assert PageZeroOK(ch, p) && ch.own[p] == ch.own[ind];
    }
  }
}
