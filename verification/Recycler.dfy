/** The chunk recycler (chunk.c:39-122, 130-189, 191-285) in place: the two trees, and its sections under chunks_mtx,
    each of which is a step of RecycleRuns. */
module Recycler {
  import opened Basics
  import opened Division
  import opened Extents
  import opened RecycleRuns

  /** The size chunk_recycle looks for, in 64 bits. */
  function AllocSize(c: nat, size: nat, alignment: nat): nat
    requires 0 < c <= alignment
  {
    (size + alignment - c) % SPACE
  }

  /** The wrap-around check of chunk_recycle: the sum is smaller than the size exactly when it overflowed. */
  lemma WrapExactly(c: nat, size: nat, alignment: nat)
    requires 0 < c <= alignment < SPACE && size < SPACE
    ensures var sum := AllocSize(c, size, alignment);
      (sum < size <==> size + alignment - c >= SPACE) && (sum >= size ==> sum == size + alignment - c)
  {
  }

  /** The request can be served only by an extent that leaves both a lead and a trail, and there is no node for the
      trail. */
  ghost predicate NodeFails(c: nat, tree: set<Extent>, size: nat, alignment: nat, base: bool, nodeOk: bool)
    requires 0 < c <= alignment
  {
    && !base && !nodeOk && size + alignment - c < SPACE
    && exists e ::
         && BestFit(tree, size + alignment - c, e)
         && e.addr < Ceiling(e.addr, alignment) && Ceiling(e.addr, alignment) + size < e.End()
  }

  /** The request is served from the trees. */
  ghost predicate FromTrees(c: nat, tree: set<Extent>, size: nat, alignment: nat, base: bool, nodeOk: bool)
    requires 0 < c <= alignment
  {
    && !base && size + alignment - c < SPACE && !NoFit(tree, size + alignment - c)
    && !NodeFails(c, tree, size, alignment, base, nodeOk)
  }

  lemma FromTreesIs(c: nat, tree: set<Extent>, size: nat, alignment: nat, base: bool, nodeOk: bool)
    requires 0 < c <= alignment
    ensures FromTrees(c, tree, size, alignment, base, nodeOk) <==>
      && !base && size + alignment - c < SPACE && !NoFit(tree, size + alignment - c)
      && !NodeFails(c, tree, size, alignment, base, nodeOk)
  {
  }

  /** Whether the node allocation fails is decided by the best fit. */
  lemma NodeFailsAt(c: nat, tree: set<Extent>, size: nat, alignment: nat, base: bool, nodeOk: bool, e: Extent)
    requires 0 < c <= alignment && BestFit(tree, size + alignment - c, e) && !base && size + alignment - c < SPACE
    ensures var r := Ceiling(e.addr, alignment);
      NodeFails(c, tree, size, alignment, base, nodeOk) <==> !nodeOk && e.addr < r && r + size < e.End()
  {
    hide Ceiling;
    var need: nat := size + alignment - c;
    forall f | BestFit(tree, need, f) ensures f == e {
      BestUnique(tree, need, e, f);
    }
  }

  lemma NoneFails(c: nat, tree: set<Extent>, size: nat, alignment: nat, base: bool, nodeOk: bool)
    requires 0 < c <= alignment && (base || size + alignment - c >= SPACE || NoFit(tree, size + alignment - c))
    ensures !NodeFails(c, tree, size, alignment, base, nodeOk)
  {
  }

  lemma BestUnique(tree: set<Extent>, size: nat, e: Extent, f: Extent)
    requires BestFit(tree, size, e) && BestFit(tree, size, f)
    ensures e == f
  {
  }

  // ---------- the steps and what the code computes ----------

  lemma RequestIs(c: nat, size: nat, alignment: nat)
    requires Request(c, size, alignment)
    ensures 0 < c <= alignment < SPACE && 0 < size < SPACE && Aligned(c, size) && Aligned(c, alignment)
  {
  }

  lemma NothingServed(c: nat, tree: set<Extent>, size: nat, alignment: nat)
    requires Request(c, size, alignment)
    ensures size + alignment - c >= SPACE || NoFit(tree, size + alignment - c) ==>
      Served(c, tree, size, alignment) == None
  {
  }

  lemma NothingStep(c: nat, w: Space, size: nat, alignment: nat)
    requires c > 0 && SpaceOK(c, w) && Served(c, TreeOf(w), size, alignment) == None
    ensures Step(c, w, First(size, alignment)) == w
  {
    hide Served, SpaceOK;
  }

  lemma ServedIs(c: nat, tree: set<Extent>, size: nat, alignment: nat, e: Extent)
    requires Request(c, size, alignment) && size + alignment - c < SPACE && BestFit(tree, size + alignment - c, e)
    ensures Serves(c, tree, size, alignment, e) && Served(c, tree, size, alignment) == Some(e)
    ensures !NoFit(tree, size + alignment - c) && e in tree
  {
    RequestIs(c, size, alignment);
    hide Request;
    forall f | Serves(c, tree, size, alignment, f) ensures f == e {
      BestUnique(tree, size + alignment - c, e, f);
    }
    hide BestFit;
    assert Serves(c, tree, size, alignment, e);
  }

  lemma FirstIs(c: nat, w: Space, size: nat, alignment: nat, e: Extent)
    requires c > 0 && SpaceOK(c, w) && Serves(c, TreeOf(w), size, alignment, e) &&
      Served(c, TreeOf(w), size, alignment) == Some(e)
    ensures alignment > 0 && var r := Ceiling(e.addr, alignment);
      e.addr <= r && r + size <= e.End() && Step(c, w, First(size, alignment)) == Take(w, e, r, size)
  {
    ServedFits(c, w, size, alignment, e);
    hide Served, SpaceOK, TreeOf, Take, Ceiling;
  }

  lemma TakenIs(tree: set<Extent>, e: Extent, r: nat, size: nat)
    requires e.addr <= r && r + size <= e.End()
    ensures var lead, trail := r - e.addr, e.End() - (r + size);
      TakenTree(tree, e, r, size) == tree - {e} + (if lead != 0 then {Extent(e.addr, lead)} else {})
        + (if trail != 0 && lead == 0 then {Extent(r + size, trail)} else {})
  {
  }

  /** The extent that chunk_record finds behind the block. */
  lemma NextIs(c: nat, tree: set<Extent>, x: nat, found: Option<Extent>)
    requires c > 0 && Sound(c, tree)
    requires if found.Some? && found.value.addr == x then found.value in tree else forall f :: f in tree ==> f.addr != x
    ensures BeginningAt(tree, x) == if found.Some? && found.value.addr == x then found else None
    ensures Begins(tree, x) <==> found.Some? && found.value.addr == x
  {
    hide Aligned;
    assert forall e, f :: e in tree && f in tree && e.addr == f.addr ==> e == f by { OneStart(c, tree); }
    hide Sound;
  }

  lemma OneStart(c: nat, tree: set<Extent>)
    requires c > 0 && Sound(c, tree)
    ensures forall e, f :: e in tree && f in tree && e.addr == f.addr ==> e == f
    ensures forall e, f :: e in tree && f in tree && e.End() == f.End() ==> e == f
  {
    Sizes(c, tree);
    hide Fine;
  }

  /** And the one before it. */
  lemma PrevIs(c: nat, tree: set<Extent>, b: Extent, prev: Option<Extent>)
    requires c > 0 && Sound(c, tree)
    requires if prev.Some? then prev.value in tree && prev.value.End() == b.addr else forall f :: f in tree ==>
      f.End() != b.addr
    ensures EndingAt(tree, b.addr) == prev
  {
    OneStart(c, tree);
    hide Sound;
  }

  lemma RecordDone(c: nat, w: Space, b: Extent, xnode: bool)
    requires c > 0 && SpaceOK(c, w) && b in w && w[b] == Owned
    ensures var tree, w' := TreeOf(w), Step(c, w, RecycleRuns.Record(b, xnode));
      && SpaceOK(c, w') && (forall x: nat :: Seam(TreeOf(w'), x) <==> Seam(tree, x))
      && (if xnode || Begins(tree, b.End()) then
            TreeOf(w') == Recorded(tree, b, BeginningAt(tree, b.End()), EndingAt(tree, b.addr)) &&
              Added(tree, TreeOf(w'), b)
          else TreeOf(w') == tree)
  {
    var tree := TreeOf(w);
    StepKeeps(c, w, RecycleRuns.Record(b, xnode));
    TreeAfter(c, w, RecycleRuns.Record(b, xnode));
    NeighboursTouch(c, w, b);
    hide SpaceOK, TreeOf, Sound, Fine, Outside, Touching, BeginningAt, EndingAt, Recorded, Added, Begins, Step;
    var next, prev := BeginningAt(tree, b.End()), EndingAt(tree, b.addr);
    RecordedFree(c, tree, b, next, prev);
    forall x: nat ensures Seam(Recorded(tree, b, next, prev), x) <==> Seam(tree, x) {
      RecordedSeams(c, tree, b, next, prev, x);
    }
  }

  lemma Unmapped(c: nat, w: Space, b: Extent)
    requires c > 0 && SpaceOK(c, w) && b in w && w[b] == Owned
    ensures var w' := Step(c, w, Unmap(b)); SpaceOK(c, w') && TreeOf(w') == TreeOf(w)
  {
    StepKeeps(c, w, Unmap(b));
    hide SpaceOK;
  }

  lemma EndIs(e: Extent)
    ensures e.End() == e.addr + e.size
  {
  }

  lemma PendsIs(w: Space, g: Extent)
    ensures Pends(w, g) <==> g in w && w[g].Pending?
  {
  }

  lemma FromSystemKeeps(c: nat, w: Space, b: Extent)
    requires c > 0 && SpaceOK(c, w)
    ensures SpaceOK(c, Step(c, w, FromSystem(b))) && TreeOf(Step(c, w, FromSystem(b))) == TreeOf(w)
  {
    StepKeeps(c, w, FromSystem(b));
    TreeAfter(c, w, FromSystem(b));
    hide SpaceOK, TreeOf, Step;
  }

  lemma NothingTaken(c: nat, w: Space, size: nat, alignment: nat)
    requires c > 0 && SpaceOK(c, w) && Request(c, size, alignment)
    ensures size + alignment - c >= SPACE || NoFit(TreeOf(w), size + alignment - c) ==>
      Step(c, w, First(size, alignment)) == w
  {
    NothingServed(c, TreeOf(w), size, alignment);
    hide Served, SpaceOK, TreeOf, NoFit;
    if Served(c, TreeOf(w), size, alignment) == None { NothingStep(c, w, size, alignment); }
  }

  /** What the first section makes of the extent in the tree, and what becomes of the block. */
  ghost predicate Divided(tree: set<Extent>, e: Extent, r: nat, size: nat, tree': set<Extent>, w': Space)
    requires e.addr <= r && r + size <= e.End()
  {
    var lead, trail := r - e.addr, e.End() - (r + size);
    && tree' == Divide(tree, e, lead, r + size, trail)
    && (if lead > 0 && trail > 0 then Extent(r, size + trail) in w' && w'[Extent(r, size + trail)] == Pending(size)
        else Extent(r, size) in w' && w'[Extent(r, size)] == Owned)
  }

  function Divide(tree: set<Extent>, e: Extent, lead: nat, behind: nat, trail: nat): set<Extent> {
    tree - {e} + (if lead != 0 then {Extent(e.addr, lead)} else {})
      + (if trail != 0 && lead == 0 then {Extent(behind, trail)} else {})
  }

  lemma DividedIs(tree: set<Extent>, e: Extent, r: nat, size: nat, tree': set<Extent>, w': Space)
    requires e.addr <= r && r + size <= e.End() && Divided(tree, e, r, size, tree', w')
    ensures var lead, trail := r - e.addr, e.End() - (r + size);
      && tree' == Divide(tree, e, lead, r + size, trail)
      && (if lead > 0 && trail > 0 then Extent(r, size + trail) in w' && w'[Extent(r, size + trail)] == Pending(size)
          else Extent(r, size) in w' && w'[Extent(r, size)] == Owned)
  {
  }

  /** The first section when an extent has been found. */
  lemma FirstDone(c: nat, w: Space, size: nat, alignment: nat, e: Extent)
    requires c > 0 && SpaceOK(c, w) && Request(c, size, alignment)
    requires size + alignment - c < SPACE && BestFit(TreeOf(w), size + alignment - c, e)
    ensures alignment > 0 && SpaceOK(c, Step(c, w, First(size, alignment)))
    ensures Serves(c, TreeOf(w), size, alignment, e) && !NoFit(TreeOf(w), size + alignment - c) && e in TreeOf(w)
    ensures var r, w' := Ceiling(e.addr, alignment), Step(c, w, First(size, alignment));
      e.addr <= r && r + size <= e.End() && Divided(TreeOf(w), e, r, size, TreeOf(w'), w')
  {
    var r := Ceiling(e.addr, alignment);
    RequestIs(c, size, alignment);
    ServedIs(c, TreeOf(w), size, alignment, e);
    ServedFits(c, w, size, alignment, e);
    FirstIs(c, w, size, alignment, e);
    StepKeeps(c, w, First(size, alignment));
    hide *;
    TakeDone(c, w, e, r, size);
  }

  lemma TakeDone(c: nat, w: Space, e: Extent, r: nat, size: nat)
    requires c > 0 && SpaceOK(c, w) && e in w && w[e] == Tree && e.addr <= r && r + size <= e.End() && size > 0
    ensures Divided(TreeOf(w), e, r, size, TreeOf(Take(w, e, r, size)), Take(w, e, r, size))
  {
    hide TreeOf, Take, SpaceOK;
    TreeTake(c, w, e, r, size);
    TakeIs(w, e, r, size);
    TakenIs(TreeOf(w), e, r, size);
  }

  // ---------- what a request comes to ----------

  /** The aligned block at ret lies in e, as near to its beginning as the alignment allows. */
  predicate Placed(e: Extent, size: nat, alignment: nat, ret: nat) {
    alignment > 0 && ret % alignment == 0 && e.addr <= ret < e.addr + alignment && ret + size <= e.End()
  }

  ghost predicate NoNewSeam(before: set<Extent>, after: set<Extent>) {
    forall x: nat :: Seam(after, x) ==> Seam(before, x)
  }

  lemma NoNewSeamIs(before: set<Extent>, after: set<Extent>)
    ensures NoNewSeam(before, after) <==> forall x: nat :: Seam(after, x) ==> Seam(before, x)
  {
  }

  /** The tree after the first section, and what it would be with the trail put back at once. */
  lemma Granted(c: nat, w: Space, size: nat, alignment: nat, e: Extent)
    requires c > 0 && SpaceOK(c, w) && Request(c, size, alignment)
    requires Serves(c, TreeOf(w), size, alignment, e)
    ensures alignment > 0 && size + alignment - c < SPACE && BestFit(TreeOf(w), size + alignment - c, e)
    ensures var r := Ceiling(e.addr, alignment); Placed(e, size, alignment, r) && e.addr <= r && r + size <= e.End()
    ensures var tree, r := TreeOf(w), Ceiling(e.addr, alignment);
      var after, trail := TreeOf(Step(c, w, First(size, alignment))), e.End() - (r + size);
      && NoNewSeam(tree, after) && (forall x: nat :: In(Extent(r, size), x) ==> Free(tree, x))
      && (if e.addr < r && trail > 0 then
            && Removed(tree, after, Extent(r, size + trail))
            && Removed(tree, after + {Extent(r + size, trail)}, Extent(r, size)) &&
              NoNewSeam(tree, after + {Extent(r + size, trail)})
          else Removed(tree, after, Extent(r, size)))
  {
    hide *;
    var tree := TreeOf(w);
    ServesIs(c, tree, size, alignment, e);
    ServedIs(c, tree, size, alignment, e);
    ServedFits(c, w, size, alignment, e);
    var r := Ceiling(e.addr, alignment);
    var lead, trail := r - e.addr, e.End() - (r + size);
    FirstIs(c, w, size, alignment, e);
    TreeTake(c, w, e, r, size);
    TreeSound(c, w);
    PlacedIs(e, size, alignment, r);
    CarvesIs(e, r, size);
    CarvedFree(c, tree, e, lead, Extent(r, size), trail);
    Carvings(c, tree, e, r, size);
    InFree(tree, e, r, size);
  }

  lemma PlacedIs(e: Extent, size: nat, alignment: nat, r: nat)
    ensures Placed(e, size, alignment, r) <==>
      alignment > 0 && r % alignment == 0 && e.addr <= r < e.addr + alignment && r + size <= e.End()
  {
  }

  lemma CarvesIs(e: Extent, r: nat, size: nat)
    requires e.addr <= r && r + size <= e.End() && size > 0
    ensures Carves(e, r - e.addr, Extent(r, size), e.End() - (r + size))
  {
  }

  lemma InFree(tree: set<Extent>, e: Extent, r: nat, size: nat)
    requires e in tree && e.addr <= r && r + size <= e.End()
    ensures forall x: nat :: In(Extent(r, size), x) ==> Free(tree, x)
  {
    forall x: nat | In(Extent(r, size), x) ensures Free(tree, x) {
      assert In(e, x);
    }
  }

  lemma ServesIs(c: nat, tree: set<Extent>, size: nat, alignment: nat, e: Extent)
    requires Serves(c, tree, size, alignment, e)
    ensures size > 0 && alignment > 0 && 0 <= size + alignment - c < SPACE && BestFit(tree, size + alignment - c, e) &&
      e in tree
  {
  }

  lemma Carvings(c: nat, tree: set<Extent>, e: Extent, r: nat, size: nat)
    requires c > 0 && Sound(c, tree) && e in tree && e.addr <= r && r + size <= e.End() && size > 0
    ensures var lead, trail, after := r - e.addr, e.End() - (r + size), TakenTree(tree, e, r, size);
      && NoNewSeam(tree, after)
      && (if lead > 0 && trail > 0 then
            && after == tree - {e} + Piece(e.addr, lead)
            && after + {Extent(r + size, trail)} == Carved(tree, e, lead, Extent(r, size), trail)
            && NoNewSeam(tree, after + {Extent(r + size, trail)})
          else after == Carved(tree, e, lead, Extent(r, size), trail))
  {
    hide Sound, Seam;
    forall x: nat {
      CarvedSeams(c, tree, e, r - e.addr, Extent(r, size), e.End() - (r + size), x);
    }
  }

  // ---------- the recycler ----------

  /** What the first section of chunk_recycle comes to. */
  datatype Got = Nothing | Block(addr: nat) | Gap(g: Extent)

  /** The block at r is this thread's, or will be once what lies behind it has been put back or given up. */
  ghost predicate Obtained(got: Got, e: Extent, r: nat, size: nat, w: Space) {
    && (got.Block? ==>
      got.addr == r && Extent(r, size) in w && w[Extent(r, size)] == Owned && (r == e.addr || r + size == e.End()))
    && (got.Gap? ==>
          && e.addr < r && r + size < e.End() && got.g == Extent(r, e.End() - r)
          && got.g in w && w[got.g] == Pending(size))
  }

  lemma ObtainedIs(got: Got, e: Extent, r: nat, size: nat, w: Space)
    ensures Obtained(got, e, r, size, w) <==>
      && (got.Block? ==>
        got.addr == r && Extent(r, size) in w && w[Extent(r, size)] == Owned && (r == e.addr || r + size == e.End()))
      && (got.Gap? ==>
            && e.addr < r && r + size < e.End() && got.g == Extent(r, e.End() - r)
            && got.g in w && w[got.g] == Pending(size))
  {
  }

  class Chunks {
    const chunksize: nat
    /** The two trees. */
    var szad: set<Extent>
    var ad: set<Extent>
    /** stats_chunks.curchunks */
    var curchunks: int

    /** What every extent of the address space is. */
    ghost var space: Space

    constructor (chunksize: nat)
      requires chunksize > 0
      ensures Valid() && ad == {} && space == map[] && curchunks == 0 && this.chunksize == chunksize
    {
      this.chunksize, szad, ad, curchunks, space := chunksize, {}, {}, 0, map[];
    }

    /** The trees agree, and hold the free extents of the space. */
    ghost predicate Valid()
      reads `szad, `ad, `space
    {
      chunksize > 0 && szad == ad == TreeOf(space) && SpaceOK(chunksize, space)
    }

    lemma ValidIs()
      ensures Valid() <==> chunksize > 0 && szad == ad == TreeOf(space) && SpaceOK(chunksize, space)
    {
    }

    // ---------- the locked sections ----------

    /** The extent leaves the trees; its lead comes back, or its trail when there is no lead. */
    method TakeOut(node: Extent, leadsize: nat, trail: nat, trailsize: nat)
      modifies this`szad, this`ad
      ensures ad == Divide(old(ad), node, leadsize, trail, trailsize)
      ensures old(szad == ad) ==> szad == ad
    {
      szad := szad - {node};
      ad := ad - {node};
      if leadsize != 0 {
        szad := szad + {Extent(node.addr, leadsize)};
        ad := ad + {Extent(node.addr, leadsize)};
      }
      if trailsize != 0 && leadsize == 0 {
        szad := szad + {Extent(trail, trailsize)};
        ad := ad + {Extent(trail, trailsize)};
      }
    }

    /** The extent has been found. */
    method TakeFrom(e: Extent, size: nat, alignment: nat) returns (got: Got)
      requires Valid() && Request(chunksize, size, alignment)
      requires size + alignment - chunksize < SPACE && BestFit(ad, size + alignment - chunksize, e)
      modifies this`szad, this`ad, this`space
      ensures Valid() && space == Step(chunksize, old(space), First(size, alignment))
      ensures Serves(chunksize, old(ad), size, alignment, e) && e in old(ad) &&
        !NoFit(old(ad), size + alignment - chunksize)
      ensures got != Nothing && Obtained(got, e, Ceiling(e.addr, alignment), size, space)
    {
      hide *;
      ValidIs();
      RequestIs(chunksize, size, alignment);
      ghost var w := space;
      FirstDone(chunksize, w, size, alignment, e);
      var r := Ceiling(e.addr, alignment);
      DividedIs(ad, e, r, size, TreeOf(Step(chunksize, w, First(size, alignment))),
        Step(chunksize, w, First(size, alignment)));
      var leadsize, trailsize := r - e.addr, e.End() - (r + size);
      TakeOut(e, leadsize, r + size, trailsize);
      space := Step(chunksize, w, First(size, alignment));
      ValidIs();
      got := if trailsize != 0 && leadsize != 0 then Gap(Extent(r, size + trailsize)) else Block(r);
      ObtainedIs(got, e, r, size, space);
    }

    /** The first section of chunk_recycle; `base` requests do not come to it. */
    method FirstSection(size: nat, alignment: nat, base: bool) returns (got: Got, ghost e: Extent)
      requires Valid() && Request(chunksize, size, alignment)
      modifies this`szad, this`ad, this`space
      ensures Valid() && space == if base then old(space) else Step(chunksize, old(space), First(size, alignment))
      ensures got == Nothing <==>
        base || size + alignment - chunksize >= SPACE || NoFit(old(ad), size + alignment - chunksize)
      ensures got == Nothing ==> space == old(space)
      // an aligned block of the best-fitting extent
      ensures got != Nothing ==> Serves(chunksize, old(ad), size, alignment, e) && e in old(ad)
      ensures got != Nothing ==> alignment > 0 && Obtained(got, e, Ceiling(e.addr, alignment), size, space)
    {
      e := Extent(0, 0);
      hide *;
      ValidIs();
      RequestIs(chunksize, size, alignment);
      NothingTaken(chunksize, space, size, alignment);
      if base {
        return Nothing, e;
      }
      var allocSize := AllocSize(chunksize, size, alignment);
      WrapExactly(chunksize, size, alignment);
      if allocSize < size {
        return Nothing, e;
      }
      var node := SearchSize(szad, allocSize);
      if node == None {
        return Nothing, e;
      }
      e := node.value;
      got := TakeFrom(node.value, size, alignment);
    }

    /** The second section of chunk_recycle: there is a node, and the trail is put back. */
    method SecondSection(g: Extent, block: nat)
      requires Valid() && g in space && space[g] == Pending(block) && block < g.size
      modifies this`szad, this`ad, this`space
      ensures Valid() && space == Step(chunksize, old(space), Second(g))
      ensures Extent(g.addr, block) in space && space[Extent(g.addr, block)] == Owned
      ensures ad == old(ad) + {Extent(g.addr + block, g.size - block)}
    {
      hide Sound, Fine, Aligned;
      ghost var w := space;
      TreeClose(chunksize, w, g);
      StepKeeps(chunksize, w, Second(g));
      hide SpaceOK, TreeOf;
      szad := szad + {Extent(g.addr + block, g.size - block)};
      ad := ad + {Extent(g.addr + block, g.size - block)};
      space := Step(chunksize, w, Second(g));
    }

    /** There is no node: the trail is lost, and the block is this thread's. */
    ghost method Abandon(g: Extent, block: nat)
      requires Valid() && g in space && space[g] == Pending(block)
      modifies this`space
      ensures Valid() && space == Step(chunksize, old(space), GiveUp(g))
      ensures Extent(g.addr, block) in space && space[Extent(g.addr, block)] == Owned
    {
      hide Sound, Fine, Aligned;
      ghost var w := space;
      TreeClose(chunksize, w, g);
      StepKeeps(chunksize, w, GiveUp(g));
      hide SpaceOK, TreeOf;
      space := Step(chunksize, w, GiveUp(g));
    }

    /** chunk_record. `xnode` says whether base_node_alloc succeeds. */
    method Record(chunk: nat, size: nat, xnode: bool)
      requires Valid() && Extent(chunk, size) in space && space[Extent(chunk, size)] == Owned
      modifies this`szad, this`ad, this`space
      ensures Valid() && space == Step(chunksize, old(space), RecycleRuns.Record(Extent(chunk, size), xnode))
      // the block becomes free space, unless a node is needed and there is none
      ensures if xnode || Begins(old(ad), chunk + size) then Added(old(ad), ad, Extent(chunk, size)) else ad == old(ad)
      ensures forall x: nat :: Seam(ad, x) <==> Seam(old(ad), x)
    {
      ghost var b, tree, w := Extent(chunk, size), ad, space;
      hide *;
      ValidIs();
      NeighboursTouch(chunksize, w, b);
      EndIs(b);
      RecordDone(chunksize, w, b, xnode);
      var key := chunk + size;
      var found := SearchFrom(ad, key);
      var node;
      ghost var next := None;
      FirstTouches(tree, key, found);
      NextIs(chunksize, tree, key, found);
      if found.Some? && found.value.addr == key {
        next := found;
        node := Extent(chunk, found.value.size + size);
        szad := szad - {found.value} + {node};
        ad := ad - {found.value} + {node};
      } else {
        if !xnode {
          space := Step(chunksize, w, RecycleRuns.Record(b, xnode));
          ValidIs();
          return;
        }
        node := Extent(chunk, size);
        ad := ad + {node};
        szad := szad + {node};
      }
      var before := SearchBefore(ad, node.addr);
      LastTouches(chunksize, tree, b, next, ad, before);
      ghost var prev := None;
      if before.Some? && before.value.End() == chunk {
        prev := before;
        szad := szad - {before.value};
        ad := ad - {before.value};
        szad := szad - {node};
        ad := ad - {node};
        node := Extent(before.value.addr, node.size + before.value.size);
        szad := szad + {node};
        ad := ad + {node};
      }
      PrevIs(chunksize, tree, b, prev);
      RecordedIs(chunksize, tree, b, next, prev, ad, node);
      space := Step(chunksize, w, RecycleRuns.Record(b, xnode));
      ValidIs();
    }

    // ---------- the operations, run by one thread without interruption ----------

    /** chunk_dealloc with unmap: statistics, and the block is recorded if it cannot be unmapped (`keep`). */
    method Dealloc(chunk: nat, size: nat, keep: bool, xnode: bool)
      requires Valid() && Extent(chunk, size) in space && space[Extent(chunk, size)] == Owned
      modifies this`szad, this`ad, this`curchunks, this`space
      ensures Valid() && curchunks == old(curchunks) - size / chunksize
      ensures space == Step(chunksize, old(space), if keep then RecycleRuns.Record(Extent(chunk, size), xnode)
        else Unmap(Extent(chunk, size)))
      ensures if keep && (xnode || Begins(old(ad), chunk + size)) then Added(old(ad), ad, Extent(chunk, size))
        else ad == old(ad)
      ensures forall x: nat :: Seam(ad, x) <==> Seam(old(ad), x)
    {
      hide *;
      ValidIs();
      curchunks := curchunks - size / chunksize;
      if keep {
        Record(chunk, size, xnode);
      } else {
        ghost var w := space;
        Unmapped(chunksize, w, Extent(chunk, size));
        space := Step(chunksize, w, Unmap(Extent(chunk, size)));
        ValidIs();
      }
    }

    /** chunk_recycle. `nodeOk` says whether the additional node can be allocated; `keep` and `xnode` matter only if
        not. */
    method Recycle(size: nat, alignment: nat, base: bool, nodeOk: bool, keep: bool, xnode: bool)
      returns (ret: Option<nat>, ghost e: Extent)
      requires Valid() && Request(chunksize, size, alignment)
      modifies this`szad, this`ad, this`curchunks, this`space
      ensures Valid()
      // success: an aligned block inside the best-fitting extent; exactly the block is no longer free
      ensures ret.Some? ==>
        && !base && Serves(chunksize, old(ad), size, alignment, e) && Placed(e, size, alignment, ret.value)
        && Removed(old(ad), ad, Extent(ret.value, size)) && curchunks == old(curchunks)
        && Extent(ret.value, size) in space && space[Extent(ret.value, size)] == Owned
      // failure without effect: exactly when the request comes from the base allocator, overflows, or fits nowhere
      ensures (base || size + alignment - chunksize >= SPACE || NoFit(old(ad), size + alignment - chunksize)) ==>
        ret == None && ad == old(ad) && space == old(space) && curchunks == old(curchunks)
      // failure of the node allocation: the space behind the block is lost, and the block unless it can be recorded
      ensures NodeFails(chunksize, old(ad), size, alignment, base, nodeOk) <==>
        ret == None && !base && size + alignment - chunksize < SPACE && !NoFit(old(ad), size + alignment - chunksize)
      ensures NodeFails(chunksize, old(ad), size, alignment, base, nodeOk) ==>
        && Serves(chunksize, old(ad), size, alignment, e) && curchunks == old(curchunks) - size / chunksize
        && var r := Ceiling(e.addr, alignment);
           && r + size < e.End()
           && Removed(old(ad), ad, if keep && xnode then Extent(r + size, e.End() - (r + size))
             else Extent(r, e.End() - r))
      // no extents come to meet
      ensures forall x: nat :: Seam(ad, x) ==> Seam(old(ad), x)
    {
      hide *;
      ValidIs();
      RequestIs(chunksize, size, alignment);
      if base || size + alignment - chunksize >= SPACE || NoFit(ad, size + alignment - chunksize) {
        NoneFails(chunksize, ad, size, alignment, base, nodeOk);
      }
      ghost var tree, w := ad, space;
      var got;
      got, e := FirstSection(size, alignment, base);
      ValidIs();
      ghost var rest := ad;
      NoNewSeamIs(tree, rest);
      match got
      case Nothing =>
        ret := None;
      case Block(addr) =>
        ObtainedIs(got, e, Ceiling(e.addr, alignment), size, space);
        Granted(chunksize, w, size, alignment, e);
        NodeFailsAt(chunksize, tree, size, alignment, base, nodeOk, e);
        ret := Some(addr);
      case Gap(g) =>
        ObtainedIs(got, e, Ceiling(e.addr, alignment), size, space);
        Granted(chunksize, w, size, alignment, e);
        NodeFailsAt(chunksize, tree, size, alignment, base, nodeOk, e);
        if nodeOk {
          SecondSection(g, size);
          NoNewSeamIs(tree, ad);
          ret := Some(g.addr);
        } else {
          PendsIs(space, g);
          HeldApart(chunksize, space, g);
          Abandon(g, size);
          Dealloc(g.addr, size, keep, xnode);
          EndIs(Extent(g.addr, size));
          if keep && xnode { TrailLost(tree, rest, ad, Extent(g.addr, size), g.size - size); }
          ret := None;
        }
    }

    /** chunk_alloc without the reserved-address tree: a recycled block, or one from the operating system. */
    method Alloc(size: nat, alignment: nat, base: bool, nodeOk: bool, keep: bool, xnode: bool, fromSystem: Option<nat>)
      returns (ret: Option<nat>, ghost e: Extent)
      requires Valid() && Request(chunksize, size, alignment)
      modifies this`szad, this`ad, this`curchunks, this`space
      ensures Valid()
      // the system is asked exactly if the request comes from the base allocator, overflows, fits nowhere, or a node is
      // missing
      ensures if FromTrees(chunksize, old(ad), size, alignment, base, nodeOk) then ret.Some? else ret == fromSystem
      ensures FromTrees(chunksize, old(ad), size, alignment, base, nodeOk) ==>
        && Serves(chunksize, old(ad), size, alignment, e) && Placed(e, size, alignment, ret.value)
        && Removed(old(ad), ad, Extent(ret.value, size))
        && Extent(ret.value, size) in space && space[Extent(ret.value, size)] == Owned
      ensures !(FromTrees(chunksize, old(ad), size, alignment, base, nodeOk)
                || NodeFails(chunksize, old(ad), size, alignment, base, nodeOk)) ==>
        && ad == old(ad)
        && space == if ret == None then old(space)
                    else Step(chunksize, old(space), FromSystem(Extent(ret.value, size)))
      ensures forall x: nat :: Seam(ad, x) ==> Seam(old(ad), x)
      // the statistics count the block, but for the block that a failed node allocation gave back uncounted
      ensures curchunks == old(curchunks) + (if ret.Some? then size / chunksize else 0)
        - (if NodeFails(chunksize, old(ad), size, alignment, base, nodeOk) then size / chunksize else 0)
    {
      FromTreesIs(chunksize, ad, size, alignment, base, nodeOk);
      hide *;
      RequestIs(chunksize, size, alignment);
      ValidIs();
      ret, e := Recycle(size, alignment, base, nodeOk, keep, xnode);
      ValidIs();
      if ret == None {
        ret := fromSystem;
        if ret.Some? {
          ghost var w := space;
          FromSystemKeeps(chunksize, w, Extent(ret.value, size));
          space := Step(chunksize, w, FromSystem(Extent(ret.value, size)));
          ValidIs();
        }
      }
      if ret.Some? {
        curchunks := curchunks + size / chunksize;
        ValidIs();
      }
    }
  }
}
