/** One arena chunk as arena.c keeps it, with the facts every arena operation preserves about it. */
module ArenaChunk {
  import opened PageMap

  /** `zero[p]`: page p is all zero bytes. `touched[p]`: page p may have been written since its run
      was allocated. `own` is the run that owns each page. */
  datatype Chunk = Chunk(bits: seq<Bits>, ndirty: nat, dirtied: bool, zero: seq<bool>,
                         ghost own: seq<Run>, ghost touched: seq<bool>)

  /** A page whose run is clean, that nobody wrote, and whose unzeroed bit is clear is zero. */
  ghost predicate PageZeroOK(ch: Chunk, p: nat)
    requires p < |ch.own| == |ch.bits| == |ch.zero| == |ch.touched|
  {
    !ch.own[p].dirty ==>
      && (ch.own[p].kind.Free? ==> !ch.touched[p])
      && (!ch.touched[p] && !ch.bits[p].unzeroed ==> ch.zero[p])
  }

  ghost predicate ZeroOK(c: Config, ch: Chunk)
    requires |ch.own| == |ch.bits| == |ch.zero| == |ch.touched| == c.npages
  {
    forall p :: c.bias <= p < c.npages ==> PageZeroOK(ch, p)
  }

  ghost predicate Shaped(c: Config, ch: Chunk) {
    c.Valid() && |ch.own| == |ch.bits| == |ch.zero| == |ch.touched| == c.npages
  }

  lemma SameShape(c: Config, ch: Chunk, ch': Chunk)
    requires Shaped(c, ch) && |ch.own| == |ch'.own| && |ch.bits| == |ch'.bits|
    requires |ch.zero| == |ch'.zero| && |ch.touched| == |ch'.touched|
    ensures Shaped(c, ch')
  {
  }

  ghost predicate ChunkOK(c: Config, ch: Chunk) {
    && Shaped(c, ch)
    && c.WellTagged(ch.bits, ch.own) && c.Coalesced(ch.own) && ZeroOK(c, ch)
    && ch.ndirty == Count(ch.own, DirtyFree, c.bias, c.npages)
    && (ch.ndirty > 0 ==> ch.dirtied)
  }

  /** Page p starts a run of the chunk. */
  ghost predicate Starts(c: Config, ch: Chunk, p: nat) {
    Shaped(c, ch) && c.bias <= p < c.npages && ch.own[p].start == p
  }

  // ---------- splitting a free run ----------

  /** The run at `ind` becomes an allocated run of `need` pages followed by what remains free. */
  ghost function SplitOwn(own: seq<Run>, ind: nat, need: nat, kind: Kind): (o: seq<Run>)
    requires ind < |own| && own[ind].start == ind && 0 < need <= own[ind].len && own[ind].End() <= |own|
    ensures |o| == |own|
  {
    var r := own[ind];
    Paint(Paint(own, ind, ind + need, Run(ind, need, kind, r.dirty)),
          ind + need, r.End(), Run(ind + need, r.len - need, Free, r.dirty))
  }

  lemma SplitPages(own: seq<Run>, ind: nat, need: nat, kind: Kind)
    requires ind < |own| && own[ind].start == ind && 0 < need <= own[ind].len && own[ind].End() <= |own|
    ensures SameOutside(own, SplitOwn(own, ind, need, kind), ind, own[ind].End())
    ensures forall p :: ind <= p < ind + need ==>
      SplitOwn(own, ind, need, kind)[p] == Run(ind, need, kind, own[ind].dirty)
    ensures forall p :: ind + need <= p < own[ind].End() ==>
              SplitOwn(own, ind, need, kind)[p] == Run(ind + need, own[ind].len - need, Free, own[ind].dirty)
  {
  }

  ghost predicate Splittable(c: Config, ch: Chunk, ind: nat, need: nat, kind: Kind) {
    && ChunkOK(c, ch) && Starts(c, ch, ind) && ch.own[ind].kind.Free? && !kind.Free?
    && 0 < need <= ch.own[ind].len
    && (kind.Small? ==> kind.bin < |c.runPages| && need == c.runPages[kind.bin])
  }

  /** The map elements written by arena_run_split: the tags of both parts, unzeroed bits of a clean run kept. */
  ghost predicate SplitBits(c: Config, ch: Chunk, bits: seq<Bits>, ind: nat, need: nat, kind: Kind)
    requires Splittable(c, ch, ind, need, kind)
  {
    var r := ch.own[ind];
    && SameOutside(ch.bits, bits, ind, r.End())
    && c.Tagged(bits, Run(ind, need, kind, r.dirty))
    && (need < r.len ==> c.Tagged(bits, Run(ind + need, r.len - need, Free, r.dirty)))
    && (!r.dirty ==> forall p :: ind <= p < r.End() ==> bits[p].unzeroed == ch.bits[p].unzeroed)
  }

  lemma SplitTagged(c: Config, ch: Chunk, bits: seq<Bits>, ind: nat, need: nat, kind: Kind)
    requires Splittable(c, ch, ind, need, kind) && SplitBits(c, ch, bits, ind, need, kind)
    ensures c.WellTagged(bits, SplitOwn(ch.own, ind, need, kind))
  {
    hide *;
    SplitBounds(c, ch, ind, need, kind);
    SplitPages(ch.own, ind, need, kind);
    SplitTags(c, ch, bits, ind, need, kind);
    Retag(c, ch.bits, ch.own, bits, SplitOwn(ch.own, ind, need, kind), ind, ch.own[ind].End());
  }

  lemma SplitBounds(c: Config, ch: Chunk, ind: nat, need: nat, kind: Kind)
    requires Splittable(c, ch, ind, need, kind)
    ensures c.WellTagged(ch.bits, ch.own) && c.Tiled(ch.own) && c.bias <= ind < |ch.own| && ch.own[ind].start == ind
    ensures 0 < need <= ch.own[ind].len && ch.own[ind].End() <= |ch.own| == |ch.bits|
    ensures c.Boundary(ch.own, ind) && c.Boundary(ch.own, ch.own[ind].End())
  {
    EndIsBoundary(c, ch.own, ind);
  }

  lemma SplitTags(c: Config, ch: Chunk, bits: seq<Bits>, ind: nat, need: nat, kind: Kind)
    requires Splittable(c, ch, ind, need, kind) && SplitBits(c, ch, bits, ind, need, kind)
    requires ch.own[ind].End() <= |ch.own| == |ch.bits| && ch.own[ind].start == ind
    ensures var own', e := SplitOwn(ch.own, ind, need, kind), ch.own[ind].End();
      && |bits| == |ch.bits| == |own'| && SameOutside(ch.bits, bits, ind, e) && TiledWithin(own', ind, e)
      && forall p :: ind <= p < e ==> own'[p].start < own'[p].End() <= |bits| && c.Tagged(bits, own'[p])
  {
    hide ChunkOK, Starts;
    SplitPages(ch.own, ind, need, kind);
    hide SplitOwn, Config.Tagged;
  }

  lemma EndIsBoundary(c: Config, own: seq<Run>, p: nat)
    requires c.Tiled(own) && c.bias <= p < c.npages
    ensures c.Boundary(own, own[p].End()) && c.Boundary(own, own[p].start)
  {
    var e := own[p].End();
    assert own[own[p].start] == own[p];
    assert own[e - 1] == own[p];
    assert e < c.npages ==> e < own[e].End();
  }

  lemma SplitCoalesced(c: Config, ch: Chunk, ind: nat, need: nat, kind: Kind)
    requires Splittable(c, ch, ind, need, kind)
    ensures c.Coalesced(SplitOwn(ch.own, ind, need, kind))
  {
    var own, own' := ch.own, SplitOwn(ch.own, ind, need, kind);
    var e := own[ind].End();
    EndIsBoundary(c, own, ind);
    forall p | c.bias < p < |own'| && own'[p].start == p && own'[p].kind.Free? && own'[p - 1].kind.Free?
      ensures own'[p].dirty != own'[p - 1].dirty
    {
      if p == e {
        assert own[e - 1] == own[ind];
      }
    }
  }

  ghost predicate SplitMemory(ch: Chunk, zero: seq<bool>, touched: seq<bool>, ind: nat, need: nat) {
    && |zero| == |ch.zero| == |touched| == |ch.touched|
    && (forall p :: 0 <= p < |zero| && !(ind <= p < ind + need) ==>
      zero[p] == ch.zero[p] && touched[p] == ch.touched[p])
    && (forall p :: ind <= p < ind + need && p < |zero| ==> ch.zero[p] ==> zero[p])
    && (forall p :: ind <= p < ind + need && p < |touched| ==> !touched[p])
  }

  /** arena_run_split keeps every chunk fact. */
  lemma SplitOK(c: Config, ch: Chunk, ch': Chunk, ind: nat, need: nat, kind: Kind)
    requires Splittable(c, ch, ind, need, kind) && SplitBits(c, ch, ch'.bits, ind, need, kind)
    requires ch'.own == SplitOwn(ch.own, ind, need, kind) && SplitMemory(ch, ch'.zero, ch'.touched, ind, need)
    requires ch'.dirtied == ch.dirtied
    requires ch'.ndirty + (if ch.own[ind].dirty then need else 0) == ch.ndirty
    ensures ChunkOK(c, ch')
    ensures Count(ch'.own, Active, c.bias, c.npages) == Count(ch.own, Active, c.bias, c.npages) + need
  {
    SplitTagged(c, ch, ch'.bits, ind, need, kind);
    SplitCoalesced(c, ch, ind, need, kind);
    SplitCounts(c, ch, ind, need, kind);
    assert ZeroOK(c, ch') by { SplitZero(c, ch, ch', ind, need, kind); }
  }

  lemma SplitZero(c: Config, ch: Chunk, ch': Chunk, ind: nat, need: nat, kind: Kind)
    requires Splittable(c, ch, ind, need, kind) && SplitBits(c, ch, ch'.bits, ind, need, kind)
    requires ch'.own == SplitOwn(ch.own, ind, need, kind) && SplitMemory(ch, ch'.zero, ch'.touched, ind, need)
    ensures ZeroOK(c, ch')
  {
    forall p | c.bias <= p < c.npages
      ensures PageZeroOK(ch', p)
    {
      assert PageZeroOK(ch, p);
      if ind <= p < ch.own[ind].End() { assert ch.own[p] == ch.own[ind]; }
    }
  }

  lemma SplitCounts(c: Config, ch: Chunk, ind: nat, need: nat, kind: Kind)
    requires Splittable(c, ch, ind, need, kind)
    ensures forall k :: Count(SplitOwn(ch.own, ind, need, kind), k, c.bias, c.npages)
                + (if k == ClassOf(ch.own[ind]) then need else 0)
              == Count(ch.own, k, c.bias, c.npages) + (if k == Active then need else 0)
  {
    var own' := SplitOwn(ch.own, ind, need, kind);
    forall k ensures Count(own', k, c.bias, c.npages) + (if k == ClassOf(ch.own[ind]) then need else 0)
                  == Count(ch.own, k, c.bias, c.npages) + (if k == Active then need else 0)
    {
      assert forall p :: ind <= p < ch.own[ind].End() ==> ch.own[p] == ch.own[ind];
      Recount(ch.own, own', k, ClassOf(ch.own[ind]), Active, c.bias, ind, ind + need, c.npages);
    }
  }

  // ---------- freeing a run, coalescing with its free neighbours ----------

  ghost predicate FreeableAs(c: Config, ch: Chunk, ind: nat, d: bool) {
    && ChunkOK(c, ch) && Starts(c, ch, ind) && !ch.own[ind].kind.Free? && (ch.own[ind].dirty ==> d)
    && (!d ==> forall p :: ind <= p < ch.own[ind].End() ==> !ch.touched[p])
  }

  ghost function FreeStart(c: Config, ch: Chunk, ind: nat, d: bool): (s: nat)
    requires FreeableAs(c, ch, ind, d)
    ensures c.bias <= s <= ind && c.Boundary(ch.own, s)
    ensures forall p :: s <= p < ind ==> ch.own[p] == Run(s, ind - s, Free, d)
  {
    var own := ch.own;
    if ind > c.bias && own[ind - 1].kind.Free? && own[ind - 1].dirty == d then
      EndIsBoundary(c, own, ind - 1);
      PrevEndsHere(c, own, ind);
      own[ind - 1].start
    else ind
  }

  lemma PrevEndsHere(c: Config, own: seq<Run>, ind: nat)
    requires c.Tiled(own) && c.bias < ind < c.npages && own[ind].start == ind
    ensures own[ind - 1].End() == ind
  {
    assert own[ind].start != own[ind - 1].start;
  }

  ghost function FreeEnd(c: Config, ch: Chunk, ind: nat, d: bool): (e: nat)
    requires FreeableAs(c, ch, ind, d)
    ensures ch.own[ind].End() <= e <= c.npages && c.Boundary(ch.own, e)
    ensures forall p :: ch.own[ind].End() <= p < e ==>
              ch.own[p] == Run(ch.own[ind].End(), e - ch.own[ind].End(), Free, d)
  {
    var own := ch.own;
    var e := own[ind].End();
    EndIsBoundary(c, own, ind);
    if e < c.npages && own[e].kind.Free? && own[e].dirty == d then
      EndIsBoundary(c, own, e);
      own[e].End()
    else e
  }

  ghost function FreedRun(c: Config, ch: Chunk, ind: nat, d: bool): (r: Run)
    requires FreeableAs(c, ch, ind, d)
    ensures c.bias <= r.start <= ind && ch.own[ind].End() <= r.End() <= c.npages && r.kind.Free?
  {
    var s, e := FreeStart(c, ch, ind, d), FreeEnd(c, ch, ind, d);
    Run(s, e - s, Free, d)
  }

  ghost function FreedOwn(c: Config, ch: Chunk, ind: nat, d: bool): (o: seq<Run>)
    requires FreeableAs(c, ch, ind, d)
    ensures |o| == |ch.own|
  {
    var r := FreedRun(c, ch, ind, d);
    Paint(ch.own, r.start, r.End(), r)
  }

  /** The map elements after arena_run_dalloc: the coalesced run is tagged at both ends and, when it is
      clean, no unzeroed bit was lost. */
  ghost predicate FreeBits(c: Config, ch: Chunk, bits: seq<Bits>, ind: nat, d: bool)
    requires FreeableAs(c, ch, ind, d)
  {
    var r := FreedRun(c, ch, ind, d);
    && SameOutside(ch.bits, bits, r.start, r.End())
    && c.Tagged(bits, r)
    && (!d ==> forall p :: r.start <= p < r.End() ==> bits[p].unzeroed == ch.bits[p].unzeroed)
  }

  lemma FreeCoalesced(c: Config, ch: Chunk, ind: nat, d: bool)
    requires FreeableAs(c, ch, ind, d)
    ensures c.Coalesced(FreedOwn(c, ch, ind, d))
  {
    var own, r, own' := ch.own, FreedRun(c, ch, ind, d), FreedOwn(c, ch, ind, d);
    EndIsBoundary(c, own, ind);
    forall p | c.bias < p < |own'| && own'[p].start == p && own'[p].kind.Free? && own'[p - 1].kind.Free?
      ensures own'[p].dirty != own'[p - 1].dirty
    {
      if p == r.start {
        assert p < ind ==> own[p].start == p && own[p].kind.Free?;
      } else if p == r.End() {
        assert own[p].start == p;
        if p - 1 >= own[ind].End() { assert own[p - 1].kind.Free?; }
      }
    }
  }

  lemma FreeCounts(c: Config, ch: Chunk, ind: nat, d: bool)
    requires FreeableAs(c, ch, ind, d)
    ensures forall k :: Count(FreedOwn(c, ch, ind, d), k, c.bias, c.npages) + (if k == Active then ch.own[ind].len
      else 0)
              == Count(ch.own, k, c.bias, c.npages)
                 + (if k == (if d then DirtyFree else CleanFree) then ch.own[ind].len else 0)
  {
    hide *;
    FreeablePages(c, ch, ind, d);
    FreedClasses(c, ch, ind, d);
    forall k ensures Count(FreedOwn(c, ch, ind, d), k, c.bias, c.npages) + (if k == Active then ch.own[ind].len else 0)
              == Count(ch.own, k, c.bias, c.npages)
                 + (if k == (if d then DirtyFree else CleanFree) then ch.own[ind].len else 0)
    {
      Recount(ch.own, FreedOwn(c, ch, ind, d), k, Active, if d then DirtyFree else CleanFree, c.bias, ind,
        ind + ch.own[ind].len, c.npages);
    }
  }

  /** Only the pages of the freed run change their class. */
  lemma FreedClasses(c: Config, ch: Chunk, ind: nat, d: bool)
    requires FreeableAs(c, ch, ind, d)
    ensures var own', e := FreedOwn(c, ch, ind, d), ind + ch.own[ind].len;
      && c.bias <= ind <= e <= c.npages <= |ch.own| == |own'|
      && (forall p :: c.bias <= p < c.npages && !(ind <= p < e) ==> ClassOf(ch.own[p]) == ClassOf(own'[p]))
      && forall p :: ind <= p < e ==>
        ClassOf(ch.own[p]) == Active && ClassOf(own'[p]) == if d then DirtyFree else CleanFree
  {
    FreeablePages(c, ch, ind, d);
    hide FreeableAs, FreeStart, FreeEnd;
    var s, e := FreeStart(c, ch, ind, d), FreeEnd(c, ch, ind, d);
    assert FreedRun(c, ch, ind, d) == Run(s, e - s, Free, d);
  }

  lemma FreeablePages(c: Config, ch: Chunk, ind: nat, d: bool)
    requires FreeableAs(c, ch, ind, d)
    ensures c.bias <= ind < |ch.own| == c.npages && ind < ch.own[ind].End() == ind + ch.own[ind].len <= c.npages
    ensures !ch.own[ind].kind.Free? && forall p :: ind <= p < ind + ch.own[ind].len ==> ch.own[p] == ch.own[ind]
  {
    hide ZeroOK, Config.Coalesced, Config.Tagged, Count;
  }

  lemma FreeZero(c: Config, ch: Chunk, ch': Chunk, ind: nat, d: bool)
    requires FreeableAs(c, ch, ind, d) && FreeBits(c, ch, ch'.bits, ind, d)
    requires ch'.own == FreedOwn(c, ch, ind, d) && ch'.zero == ch.zero && ch'.touched == ch.touched
    ensures ZeroOK(c, ch')
  {
    forall p | c.bias <= p < c.npages
      ensures PageZeroOK(ch', p)
    {
      assert PageZeroOK(ch, p);
      if ind <= p < ch.own[ind].End() { assert ch.own[p] == ch.own[ind]; }
    }
  }

  lemma FreeTagged(c: Config, ch: Chunk, bits: seq<Bits>, ind: nat, d: bool)
    requires FreeableAs(c, ch, ind, d) && FreeBits(c, ch, bits, ind, d)
    ensures c.WellTagged(bits, FreedOwn(c, ch, ind, d))
  {
    var r := FreedRun(c, ch, ind, d);
    PaintTiled(c, ch.bits, ch.own, bits, r);
  }

  lemma PaintTiled(c: Config, bits: seq<Bits>, own: seq<Run>, bits': seq<Bits>, r: Run)
    requires c.WellTagged(bits, own) && c.bias <= r.start < r.End() <= c.npages
    requires c.Boundary(own, r.start) && c.Boundary(own, r.End())
    requires SameOutside(bits, bits', r.start, r.End()) && c.Tagged(bits', r)
    ensures c.WellTagged(bits', Paint(own, r.start, r.End(), r))
  {
    Retag(c, bits, own, bits', Paint(own, r.start, r.End(), r), r.start, r.End());
  }

  /** arena_run_dalloc keeps every chunk fact. */
  lemma FreeOK(c: Config, ch: Chunk, ch': Chunk, ind: nat, d: bool)
    requires FreeableAs(c, ch, ind, d) && FreeBits(c, ch, ch'.bits, ind, d)
    requires ch'.own == FreedOwn(c, ch, ind, d) && ch'.zero == ch.zero && ch'.touched == ch.touched
    requires ch'.ndirty == ch.ndirty + (if d then ch.own[ind].len else 0)
    requires ch'.dirtied == (ch.dirtied || d)
    ensures ChunkOK(c, ch')
    ensures Count(ch'.own, Active, c.bias, c.npages) + ch.own[ind].len == Count(ch.own, Active, c.bias, c.npages)
  {
    FreeTagged(c, ch, ch'.bits, ind, d);
    FreeCoalesced(c, ch, ind, d);
    FreeCounts(c, ch, ind, d);
    FreeZero(c, ch, ch', ind, d);
  }

  // ---------- relabelling pages as allocated runs ----------

  /** Between two run boundaries only allocated runs are put, correctly tagged (trim, grow, the temporary
      allocation made by a purge). */
  lemma RelabelOK(c: Config, ch: Chunk, ch': Chunk, s: nat, e: nat)
    requires ChunkOK(c, ch) && Shaped(c, ch')
    requires c.bias <= s <= e && c.Boundary(ch.own, s) && c.Boundary(ch.own, e)
    requires SameOutside(ch.own, ch'.own, s, e) && SameOutside(ch.bits, ch'.bits, s, e)
    requires SameOutside(ch.zero, ch'.zero, s, e) && SameOutside(ch.touched, ch'.touched, s, e)
    requires TiledWithin(ch'.own, s, e)
    requires forall p :: s <= p < e ==> c.Tagged(ch'.bits, ch'.own[p]) && !ch'.own[p].kind.Free?
    requires forall p :: s <= p < e ==> PageZeroOK(ch', p)
    requires ch'.ndirty == Count(ch'.own, DirtyFree, c.bias, c.npages) && (ch'.ndirty > 0 ==> ch'.dirtied)
    ensures ChunkOK(c, ch')
  {
    Retag(c, ch.bits, ch.own, ch'.bits, ch'.own, s, e);
    forall p | c.bias < p < |ch'.own| && ch'.own[p].start == p && ch'.own[p].kind.Free? && ch'.own[p - 1].kind.Free?
      ensures ch'.own[p].dirty != ch'.own[p - 1].dirty
    {
      assert ch'.own[p] == ch.own[p] && ch'.own[p - 1] == ch.own[p - 1];
    }
    forall p | c.bias <= p < c.npages
      ensures PageZeroOK(ch', p)
    {
      assert PageZeroOK(ch, p);
    }
  }
}
