/** The page map of one jemalloc arena chunk (arena.c, arena.h): every page has a map element,
    and a run is recognised only by the elements of its first and last page (boundary tags).
    The abstract counterpart is `own`, which gives each page the run that owns it. */
module PageMap {

  datatype Kind = Free | Large | Small(bin: nat)

  /** A run of `len` pages starting at page `start`; `dirty` is the flag of its end tags. */
  datatype Run = Run(start: nat, len: nat, kind: Kind, dirty: bool) {
    function End(): nat { start + len }
  }

  /** One map element. `num` is the size field, in pages: the run size for the ends of a free run
      and the first page of a large run, the page offset within the run for a small run. */
  datatype Bits = Bits(num: nat, bin: int, dirty: bool, unzeroed: bool, large: bool, inUse: bool)

  const BININD_INVALID := 255

  /** arena_mapbits_unallocated_set */
  function Unallocated(num: nat, dirty: bool, unzeroed: bool): Bits {
    Bits(num, BININD_INVALID, dirty, unzeroed, false, false)
  }

  /** arena_mapbits_large_set: keeps the unzeroed bit */
  function LargeSet(b: Bits, num: nat, dirty: bool): Bits {
    Bits(num, BININD_INVALID, dirty, b.unzeroed, true, true)
  }

  /** arena_mapbits_small_set: keeps the unzeroed bit */
  function SmallSet(b: Bits, runind: nat, bin: nat, dirty: bool): Bits {
    Bits(runind, bin, dirty, b.unzeroed, false, true)
  }

  datatype Config = Config(bias: nat, npages: nat, runPages: seq<nat>) {
    ghost predicate Valid() {
      0 < bias < npages && forall b :: 0 <= b < |runPages| ==> runPages[b] > 0
    }

    /** arena_maxclass, in pages */
    function MaxPages(): nat requires bias <= npages { npages - bias }

    // ---------- the runs tile the chunk ----------

    ghost predicate Boundary(own: seq<Run>, s: nat) {
      s == |own| || (bias <= s < |own| && own[s].start == s)
    }

    ghost predicate Tiled(own: seq<Run>) {
      && |own| == npages
      && (forall p :: bias <= p < npages ==> bias <= own[p].start <= p < own[p].End() <= npages)
      && (forall p, q {:trigger own[p], own[q]} ::
            bias <= p < npages && own[p].start <= q < own[p].End() ==> own[q] == own[p])
    }

    // ---------- the map elements tag the runs ----------

    ghost predicate Tagged(bits: seq<Bits>, r: Run)
      requires r.start < r.End() <= |bits|
    {
      var first, last := bits[r.start], bits[r.End() - 1];
      match r.kind
      case Free =>
        && !first.inUse && !last.inUse && !first.large && !last.large
        && first.num == last.num == r.len && first.dirty == last.dirty == r.dirty
      case Large =>
        && first.inUse && last.inUse && first.large && last.large
        && first.num == r.len && (r.len > 1 ==> last.num == 0) && first.dirty == last.dirty == r.dirty
      case Small(bin) =>
        && bin < |runPages| && r.len == runPages[bin]
        && first.dirty == last.dirty == r.dirty
        && forall p {:trigger bits[p]} :: r.start <= p < r.End() ==>
             bits[p].inUse && !bits[p].large && bits[p].num == p - r.start && bits[p].bin == bin
    }

    ghost predicate WellTagged(bits: seq<Bits>, own: seq<Run>) {
      && Tiled(own) && |bits| == npages
      && forall p :: bias <= p < npages ==> Tagged(bits, own[p])
    }

    /** No free run is followed by a free run of the same dirtiness. */
    ghost predicate Coalesced(own: seq<Run>) {
      forall p :: bias < p < |own| && own[p].start == p && own[p].kind.Free? && own[p - 1].kind.Free? ==>
        own[p].dirty != own[p - 1].dirty
    }

    ghost predicate Idle(own: seq<Run>) {
      bias < npages == |own| && own[bias].kind.Free? && own[bias].len == npages - bias
    }
  }

  /** `own` with the pages [s,e) handed to the run r. */
  ghost function Paint(own: seq<Run>, s: nat, e: nat, r: Run): (o: seq<Run>)
    requires s <= e <= |own|
    ensures |o| == |own|
    ensures forall p {:trigger o[p]} :: 0 <= p < |own| ==> o[p] == if s <= p < e then r else own[p]
  {
    seq(|own|, p requires 0 <= p < |own| => if s <= p < e then r else own[p])
  }

  /** A run that owns a page outside [s,e) lies wholly outside, when s and e are run boundaries. */
  lemma RunOutside(c: Config, own: seq<Run>, s: nat, e: nat, p: nat)
    requires c.Tiled(own) && c.bias <= s <= e && c.Boundary(own, s) && c.Boundary(own, e)
    requires c.bias <= p < c.npages && !(s <= p < e)
    ensures own[p].End() <= s || e <= own[p].start
  {
    if p < s {
      assert s < c.npages ==> own[s].start == s;
    } else {
      assert own[e].start == e;
    }
  }

  ghost predicate SameOutside<T(!new)>(a: seq<T>, b: seq<T>, s: nat, e: nat) {
    |a| == |b| && forall p :: 0 <= p < |a| && !(s <= p < e) ==> a[p] == b[p]
  }

  ghost predicate TiledWithin(own: seq<Run>, s: nat, e: nat) {
    && e <= |own|
    && (forall p :: s <= p < e ==> s <= own[p].start <= p < own[p].End() <= e)
    && (forall p, q {:trigger own[p], own[q]} ::
          s <= p < e && own[p].start <= q < own[p].End() ==> own[q] == own[p])
  }

  lemma PaintWithin(own: seq<Run>, r: Run)
    requires 0 < r.len && r.start + r.len <= |own|
    ensures SameOutside(own, Paint(own, r.start, r.start + r.len, r), r.start, r.start + r.len)
    ensures TiledWithin(Paint(own, r.start, r.start + r.len, r), r.start, r.start + r.len)
  {
  }

  /** Replacing what lies between two run boundaries by a local tiling gives a tiling again. */
  lemma Retile(c: Config, own: seq<Run>, own': seq<Run>, s: nat, e: nat)
    requires c.Tiled(own) && c.bias <= s <= e && c.Boundary(own, s) && c.Boundary(own, e)
    requires SameOutside(own, own', s, e) && TiledWithin(own', s, e)
    ensures c.Tiled(own')
  {
    forall p | c.bias <= p < c.npages
      ensures c.bias <= own'[p].start <= p < own'[p].End() <= c.npages
      ensures forall q :: own'[p].start <= q < own'[p].End() ==> own'[q] == own'[p]
    {
      if !(s <= p < e) { RunOutside(c, own, s, e, p); }
    }
  }

  /** ... and the tags of the runs outside stay right. */
  lemma Retag(c: Config, bits: seq<Bits>, own: seq<Run>, bits': seq<Bits>, own': seq<Run>, s: nat, e: nat)
    requires c.WellTagged(bits, own)
    requires c.bias <= s <= e && c.Boundary(own, s) && c.Boundary(own, e)
    requires SameOutside(own, own', s, e) && TiledWithin(own', s, e) && SameOutside(bits, bits', s, e)
    requires forall p :: s <= p < e ==> c.Tagged(bits', own'[p])
    ensures c.WellTagged(bits', own')
  {
    Retile(c, own, own', s, e);
    forall p | c.bias <= p < c.npages
      ensures c.Tagged(bits', own'[p])
    {
      if !(s <= p < e) {
        RunOutside(c, own, s, e, p);
        TagKept(c, bits, bits', own[p], s, e);
      }
    }
  }

  lemma TagKept(c: Config, bits: seq<Bits>, bits': seq<Bits>, r: Run, s: nat, e: nat)
    requires r.start < r.End() <= |bits| && SameOutside(bits, bits', s, e)
    requires c.Tagged(bits, r) && (r.End() <= s || e <= r.start)
    ensures c.Tagged(bits', r)
  {
  }

  // ---------- counting pages ----------

  datatype Class = Active | DirtyFree | CleanFree

  function ClassOf(r: Run): Class {
    if !r.kind.Free? then Active else if r.dirty then DirtyFree else CleanFree
  }

  /** The number of pages in [lo,hi) whose run is of class k. */
  ghost function Count(own: seq<Run>, k: Class, lo: nat, hi: nat): nat
    requires lo <= hi <= |own|
    decreases hi - lo
  {
    if lo == hi then 0 else (if ClassOf(own[hi - 1]) == k then 1 else 0) + Count(own, k, lo, hi - 1)
  }

  lemma {:induction false} CountAtMost(own: seq<Run>, k: Class, lo: nat, hi: nat)
    requires lo <= hi <= |own|
    ensures Count(own, k, lo, hi) <= hi - lo
    decreases hi - lo
  {
    if lo < hi { CountAtMost(own, k, lo, hi - 1); }
  }

  lemma {:induction false} CountSplit(own: seq<Run>, k: Class, lo: nat, mid: nat, hi: nat)
    requires lo <= mid <= hi <= |own|
    ensures Count(own, k, lo, hi) == Count(own, k, lo, mid) + Count(own, k, mid, hi)
    decreases hi - mid
  {
    if mid < hi { CountSplit(own, k, lo, mid, hi - 1); }
  }

  lemma {:induction false} CountSame(own: seq<Run>, own': seq<Run>, k: Class, lo: nat, hi: nat)
    requires lo <= hi <= |own| && |own| == |own'|
    requires forall p :: lo <= p < hi ==> ClassOf(own[p]) == ClassOf(own'[p])
    ensures Count(own, k, lo, hi) == Count(own', k, lo, hi)
    decreases hi - lo
  {
    if lo < hi { CountSame(own, own', k, lo, hi - 1); }
  }

  lemma {:induction false} CountUniform(own: seq<Run>, k: Class, x: Class, lo: nat, hi: nat)
    requires lo <= hi <= |own|
    requires forall p :: lo <= p < hi ==> ClassOf(own[p]) == x
    ensures Count(own, k, lo, hi) == if k == x then hi - lo else 0
    decreases hi - lo
  {
    if lo < hi { CountUniform(own, k, x, lo, hi - 1); }
  }

  /** Moving the pages [s,e) from class x to class y. */
  lemma Recount(own: seq<Run>, own': seq<Run>, k: Class, x: Class, y: Class, lo: nat, s: nat, e: nat, hi: nat)
    requires lo <= s <= e <= hi <= |own| == |own'|
    requires forall p :: lo <= p < hi && !(s <= p < e) ==> ClassOf(own[p]) == ClassOf(own'[p])
    requires forall p :: s <= p < e ==> ClassOf(own[p]) == x && ClassOf(own'[p]) == y
    ensures Count(own', k, lo, hi) + (if k == x then e - s else 0)
         == Count(own, k, lo, hi) + (if k == y then e - s else 0)
  {
    CountSplit(own, k, lo, s, hi);
    CountSplit(own, k, s, e, hi);
    CountSplit(own', k, lo, s, hi);
    CountSplit(own', k, s, e, hi);
    CountSame(own, own', k, lo, s);
    CountSame(own, own', k, e, hi);
    CountUniform(own, k, x, s, e);
    CountUniform(own', k, y, s, e);
  }
}
