/** The chunk recycler between threads (chunk.c:39-122, 130-189, 191-285): every section that runs under chunks_mtx is a
    step, and any steps may come between the two sections of a chunk_recycle. */
module RecycleRuns {
  import opened Basics
  import opened Division
  import opened Extents

  /** What an extent of the address space is: free and in the two trees; owned by whoever it was given to; held by a
      chunk_recycle between its two sections, which will hand out the first `block` bytes and put the rest back; or
      lost, because there was no node for it. */
  datatype Place = Tree | Owned | Pending(block: nat) | Lost

  type Space = map<Extent, Place>

  function TreeOf(w: Space): set<Extent> { set e | e in w && w[e].Tree? }

  ghost predicate SpaceOK(c: nat, w: Space)
    requires c > 0
  {
    && Sound(c, w.Keys)
    && forall g :: g in w && w[g].Pending? ==> 0 < w[g].block < g.size && Aligned(c, w[g].block)
  }

  datatype Event =
    | FromSystem(b: Extent)
    | Unmap(b: Extent)
    | First(size: nat, alignment: nat)
    | Second(g: Extent)
    | GiveUp(g: Extent)
    | Record(b: Extent, xnode: bool)

  // ---------- the steps ----------

  /** What chunk_alloc demands of a request. */
  predicate Request(c: nat, size: nat, alignment: nat) {
    0 < c <= alignment < SPACE && 0 < size < SPACE && Aligned(c, size) && Aligned(c, alignment)
  }

  function Put(w: Space, addr: nat, size: nat, p: Place): Space {
    if size == 0 then w else w[Extent(addr, size) := p]
  }

  /** The first section with the extent it has found: the lead goes back; so does the trail, unless a node is needed for
      it and there is none at hand. */
  function Take(w: Space, e: Extent, r: nat, size: nat): Space
    requires e.addr <= r && r + size <= e.End()
  {
    var lead, trail := r - e.addr, e.End() - (r + size);
    var w1 := Put(w - {e}, e.addr, lead, Tree);
    if lead > 0 && trail > 0 then w1[Extent(r, size + trail) := Pending(size)]
    else Put(w1[Extent(r, size) := Owned], r + size, trail, Tree)
  }

  /** The extent from which a request is served. */
  ghost predicate Serves(c: nat, tree: set<Extent>, size: nat, alignment: nat, e: Extent) {
    Request(c, size, alignment) && size + alignment - c < SPACE && BestFit(tree, size + alignment - c, e)
  }

  ghost function Served(c: nat, tree: set<Extent>, size: nat, alignment: nat): Option<Extent> {
    if exists e :: Serves(c, tree, size, alignment, e) then
      var e :| Serves(c, tree, size, alignment, e);
      Some(e)
    else None
  }

  ghost function FirstStep(c: nat, w: Space, size: nat, alignment: nat): Space
    requires c > 0 && SpaceOK(c, w)
  {
    var s := Served(c, TreeOf(w), size, alignment);
    if s.Some? then
      ServedFits(c, w, size, alignment, s.value);
      Take(w, s.value, Ceiling(s.value.addr, alignment), size)
    else w
  }

  lemma ServedFits(c: nat, w: Space, size: nat, alignment: nat, e: Extent)
    requires c > 0 && SpaceOK(c, w) && Serves(c, TreeOf(w), size, alignment, e)
    ensures var r := Ceiling(e.addr, alignment);
      && e in w && w[e] == Tree && Fine(c, e) && e.addr <= r && r + size <= e.End() && r % alignment == 0 &&
        r < e.addr + alignment
      && Aligned(c, r) && Aligned(c, r - e.addr) && Aligned(c, r + size) && Aligned(c, e.End() - (r + size))
  {
    LeadFacts(c, e, size, alignment);
    CeilingFacts(e.addr, alignment);
  }

  /** What becomes of a pending extent: the block is handed out, and the rest is put back or lost. */
  function Close(w: Space, g: Extent, rest: Place): Space
    requires g in w && w[g].Pending? && w[g].block < g.size
  {
    var n := w[g].block;
    (w - {g})[Extent(g.addr, n) := Owned][Extent(g.addr + n, g.size - n) := rest]
  }

  ghost function BeginningAt(tree: set<Extent>, x: nat): Option<Extent> {
    if Begins(tree, x) then
      var e :| e in tree && e.addr == x;
      Some(e)
    else None
  }

  ghost function EndingAt(tree: set<Extent>, x: nat): Option<Extent> {
    if Ends(tree, x) then
      var e :| e in tree && e.End() == x;
      Some(e)
    else None
  }

  function Keys(o: Option<Extent>): set<Extent> { if o.Some? then {o.value} else {} }

  /** chunk_record: merged with what touches the block, or lost without a node. */
  ghost function RecordStep(w: Space, b: Extent, xnode: bool): Space {
    var next, prev := BeginningAt(TreeOf(w), b.End()), EndingAt(TreeOf(w), b.addr);
    if next == None && !xnode then w[b := Lost]
    else (w - {b} - Keys(next) - Keys(prev))[Merged(b, next, prev) := Tree]
  }

  /** An event that is not possible changes nothing. */
  ghost function Step(c: nat, w: Space, e: Event): Space
    requires c > 0 && SpaceOK(c, w)
  {
    match e
    case FromSystem(b) => if Fine(c, b) && Outside(w.Keys, b) then w[b := Owned] else w
    case Unmap(b) => if b in w && w[b].Owned? then w - {b} else w
    case First(size, alignment) => FirstStep(c, w, size, alignment)
    case Second(g) => if g in w && w[g].Pending? then Close(w, g, Tree) else w
    case GiveUp(g) => if g in w && w[g].Pending? then Close(w, g, Lost) else w
    case Record(b, xnode) => if b in w && w[b].Owned? then RecordStep(w, b, xnode) else w
  }

  // ---------- every step keeps the extents aligned and disjoint ----------

  lemma TreeSound(c: nat, w: Space)
    requires c > 0 && SpaceOK(c, w)
    ensures Sound(c, TreeOf(w)) && TreeOf(w) <= w.Keys
  {
    hide Fine;
  }

  lemma TakeIs(w: Space, e: Extent, r: nat, size: nat)
    requires e.addr <= r && r + size <= e.End() && e in w && w[e] == Tree && size > 0
    ensures var lead, trail, w' := r - e.addr, e.End() - (r + size), Take(w, e, r, size);
      && (if lead > 0 && trail > 0 then w'.Keys == w.Keys - {e} + Piece(e.addr, lead) + {Extent(r, size + trail)}
          else w'.Keys == w.Keys - {e} + Piece(e.addr, lead) + {Extent(r, size)} + Piece(r + size, trail))
      && (forall x :: x in w && x != e && x in w' && (x.End() <= e.addr || e.End() <= x.addr) && x.size > 0 ==>
        w'[x] == w[x])
      && (lead > 0 ==> w'[Extent(e.addr, lead)] == Tree)
      && (if lead > 0 && trail > 0 then w'[Extent(r, size + trail)] == Pending(size)
          else w'[Extent(r, size)] == Owned && (trail > 0 ==> w'[Extent(r + size, trail)] == Tree))
  {
  }

  /** The pieces that Take makes of the extent. */
  function Pieces(e: Extent, r: nat, size: nat): set<Extent>
    requires e.addr <= r && r + size <= e.End()
  {
    var lead, trail := r - e.addr, e.End() - (r + size);
    Piece(e.addr, lead) + if lead > 0 && trail > 0 then {Extent(r, size + trail)}
      else {Extent(r, size)} + Piece(r + size, trail)
  }

  lemma PiecesOK(c: nat, e: Extent, r: nat, size: nat)
    requires c > 0 && Fine(c, e) && e.addr <= r && r + size <= e.End() && size > 0
    requires Aligned(c, r) && Aligned(c, size) && Aligned(c, r - e.addr) && Aligned(c, r + size) &&
      Aligned(c, e.End() - (r + size))
    ensures Sound(c, Pieces(e, r, size))
    ensures forall p :: p in Pieces(e, r, size) ==> e.addr <= p.addr && p.End() <= e.End()
  {
    ModAdd(size, e.End() - (r + size), c);
    hide Aligned;
  }

  lemma TakeOK(c: nat, w: Space, e: Extent, r: nat, size: nat)
    requires c > 0 && SpaceOK(c, w) && e in w && w[e] == Tree && e.addr <= r && r + size <= e.End() && size > 0
    requires Aligned(c, r) && Aligned(c, size) && Aligned(c, r - e.addr) && Aligned(c, r + size) &&
      Aligned(c, e.End() - (r + size))
    ensures SpaceOK(c, Take(w, e, r, size))
  {
    var w' := Take(w, e, r, size);
    assert Fine(c, e);
    PiecesOK(c, e, r, size);
    assert w'.Keys == w.Keys - {e} + Pieces(e, r, size);
    hide Aligned, Fine, Pieces;
    PiecesSound(c, w.Keys, e, Pieces(e, r, size));
    forall g | g in w' && w'[g].Pending? ensures 0 < w'[g].block < g.size && Aligned(c, w'[g].block) {
      TakenPlace(w, e, r, size, g);
    }
  }

  lemma TakenPlace(w: Space, e: Extent, r: nat, size: nat, g: Extent)
    requires e in w && e.addr <= r && r + size <= e.End() && size > 0
    requires g in Take(w, e, r, size) && Take(w, e, r, size)[g].Pending?
    ensures (g in w && w[g] == Take(w, e, r, size)[g]) || (Take(w, e, r, size)[g] == Pending(size) && size < g.size)
  {
  }

  lemma CloseOK(c: nat, w: Space, g: Extent, rest: Place)
    requires c > 0 && SpaceOK(c, w) && g in w && w[g].Pending? && !rest.Pending?
    ensures SpaceOK(c, Close(w, g, rest))
  {
    var n, w' := w[g].block, Close(w, g, rest);
    var pieces := {Extent(g.addr, n), Extent(g.addr + n, g.size - n)};
    assert Fine(c, g);
    ModAdd(g.addr, n, c);
    ModSub(g.size, n, c);
    assert Sound(c, pieces);
    assert w'.Keys == w.Keys - {g} + pieces;
    PiecesSound(c, w.Keys, g, pieces);
  }

  /** The neighbours that chunk_record finds. */
  lemma NeighboursTouch(c: nat, w: Space, b: Extent)
    requires c > 0 && SpaceOK(c, w) && b in w && w[b].Owned?
    ensures var tree := TreeOf(w); var next, prev := BeginningAt(tree, b.End()), EndingAt(tree, b.addr);
      && Touching(tree, b, next, prev) && Outside(tree, b) && Fine(c, b) && Sound(c, tree) && b !in tree
      && Keys(next) <= tree && Keys(prev) <= tree
      && (next.Some? ==> next.value in w.Keys && next.value.addr == b.End())
      && (prev.Some? ==> prev.value in w.Keys && prev.value.End() == b.addr)
  {
    TreeSound(c, w);
    hide Fine, Aligned;
    assert Fine(c, b);
  }

  lemma RecordIs(c: nat, w: Space, b: Extent, xnode: bool)
    requires c > 0 && SpaceOK(c, w) && b in w && w[b].Owned?
    ensures var tree, w' := TreeOf(w), RecordStep(w, b, xnode);
      var next, prev := BeginningAt(tree, b.End()), EndingAt(tree, b.addr);
      if next == None && !xnode then w'.Keys == w.Keys && TreeOf(w') == tree
      else
        && w'.Keys == w.Keys - {b} - Keys(next) - Keys(prev) + {Merged(b, next, prev)}
        && TreeOf(w') == Recorded(tree, b, next, prev)
  {
    NeighboursTouch(c, w, b);
    hide Fine, Aligned, Sound, Touching, Outside;
    hide BeginningAt, EndingAt;
  }

  lemma RecordOK(c: nat, w: Space, b: Extent, xnode: bool)
    requires c > 0 && SpaceOK(c, w) && b in w && w[b].Owned?
    ensures SpaceOK(c, RecordStep(w, b, xnode))
  {
    var tree, w' := TreeOf(w), RecordStep(w, b, xnode);
    var next, prev := BeginningAt(tree, b.End()), EndingAt(tree, b.addr);
    RecordIs(c, w, b, xnode);
    NeighboursTouch(c, w, b);
    RecordedSound(c, tree, b, next, prev);
    hide Fine, Aligned, Merged, BeginningAt, EndingAt, Touching, Recorded;
    if !(next == None && !xnode) {
      MergedSound(c, w.Keys, b, next, prev);
    }
  }

  /** A block and what touches it may be replaced by the merged extent. */
  lemma MergedSound(c: nat, s: set<Extent>, b: Extent, next: Option<Extent>, prev: Option<Extent>)
    requires c > 0 && Sound(c, s) && b in s && Fine(c, Merged(b, next, prev))
    requires (next.Some? ==> next.value in s && next.value.addr == b.End()) &&
      (prev.Some? ==> prev.value in s && prev.value.End() == b.addr)
    ensures Sound(c, s - {b} - Keys(next) - Keys(prev) + {Merged(b, next, prev)})
  {
    var m := Merged(b, next, prev);
    FineSizes(c, s);
    hide Fine, Aligned;
    forall x | x in s - {b} - Keys(next) - Keys(prev) ensures Disjoint(x, m) {
      assert Disjoint(x, b);
      assert next.Some? ==> Disjoint(x, next.value);
      assert prev.Some? ==> Disjoint(x, prev.value);
    }
  }

  lemma FineSizes(c: nat, s: set<Extent>)
    requires c > 0 && Sound(c, s)
    ensures forall x :: x in s ==> x.size > 0
  {
  }

  lemma StepKeeps(c: nat, w: Space, e: Event)
    requires c > 0 && SpaceOK(c, w)
    ensures SpaceOK(c, Step(c, w, e))
  {
    match e
    case FromSystem(b) =>
      hide Fine;
    case Unmap(_) =>
    case First(size, alignment) =>
      var s := Served(c, TreeOf(w), size, alignment);
      if s.Some? {
        ServedFits(c, w, size, alignment, s.value);
        TakeOK(c, w, s.value, Ceiling(s.value.addr, alignment), size);
      }
    case Second(g) => if g in w && w[g].Pending? { CloseOK(c, w, g, Tree); }
    case GiveUp(g) => if g in w && w[g].Pending? { CloseOK(c, w, g, Lost); }
    case Record(b, xnode) => if b in w && w[b].Owned? { RecordOK(c, w, b, xnode); }
  }

  // ---------- where free extents meet ----------

  /** What a request makes of the tree. */
  ghost function TakenTree(tree: set<Extent>, e: Extent, r: nat, size: nat): set<Extent>
    requires e.addr <= r && r + size <= e.End()
  {
    var lead, trail := r - e.addr, e.End() - (r + size);
    if lead > 0 && trail > 0 then tree - {e} + Piece(e.addr, lead) else Carved(tree, e, lead, Extent(r, size), trail)
  }

  /** The tree after each step. */
  ghost predicate TreeFollows(c: nat, w: Space, e: Event, tree': set<Extent>)
    requires c > 0 && SpaceOK(c, w)
  {
    var tree := TreeOf(w);
    match e
    case First(size, alignment) =>
      var s := Served(c, tree, size, alignment);
      if s == None then tree' == tree
      else
        && alignment > 0 && size > 0 && s.value in tree
        && var r := Ceiling(s.value.addr, alignment);
           s.value.addr <= r && r + size <= s.value.End() && tree' == TakenTree(tree, s.value, r, size)
    case Second(g) => tree' == if Pends(w, g) then tree + {Trail(w, g)} else tree
    case Record(b, xnode) =>
      if b in w && w[b].Owned? && (xnode || Begins(tree, b.End())) then
        tree' == Recorded(tree, b, BeginningAt(tree, b.End()), EndingAt(tree, b.addr))
      else tree' == tree
    case _ => tree' == tree
  }

  lemma TreeAfter(c: nat, w: Space, e: Event)
    requires c > 0 && SpaceOK(c, w)
    ensures TreeFollows(c, w, e, TreeOf(Step(c, w, e)))
  {
    match e
    case First(size, alignment) => TreeFirst(c, w, size, alignment);
    case Record(b, xnode) =>
      if b in w && w[b].Owned? { RecordIs(c, w, b, xnode); }
      hide SpaceOK, Recorded, RecordStep;
    case FromSystem(b) =>
    case Second(g) =>
      if Pends(w, g) { TreeClose(c, w, g); }
      hide SpaceOK, TreeOf, Close;
    case GiveUp(g) =>
      if Pends(w, g) { TreeClose(c, w, g); }
      hide SpaceOK, TreeOf, Close;
    case Unmap(_) =>
  }

  lemma TreeFirst(c: nat, w: Space, size: nat, alignment: nat)
    requires c > 0 && SpaceOK(c, w)
    ensures TreeFollows(c, w, First(size, alignment), TreeOf(Step(c, w, First(size, alignment))))
  {
    var s := Served(c, TreeOf(w), size, alignment);
    if s.Some? {
      assert Serves(c, TreeOf(w), size, alignment, s.value) && size > 0 && alignment > 0;
      ServedFits(c, w, size, alignment, s.value);
      hide Served, Serves, Ceiling, Aligned;
      TreeTake(c, w, s.value, Ceiling(s.value.addr, alignment), size);
      hide SpaceOK, TreeOf, Take, TakenTree;
    }
  }

  predicate Pends(w: Space, g: Extent) { g in w && w[g].Pending? }

  /** What will be put back. */
  function Trail(w: Space, g: Extent): Extent
    requires Pends(w, g)
  {
    Extent(g.addr + w[g].block, if w[g].block < g.size then g.size - w[g].block else 0)
  }

  lemma TreeTake(c: nat, w: Space, e: Extent, r: nat, size: nat)
    requires c > 0 && SpaceOK(c, w) && e in w && w[e] == Tree && e.addr <= r && r + size <= e.End() && size > 0
    ensures TreeOf(Take(w, e, r, size)) == TakenTree(TreeOf(w), e, r, size)
  {
    hide Aligned;
    assert forall x :: x in w && x != e ==> Fine(c, x) && Disjoint(x, e);
    var w' := Take(w, e, r, size);
    var span := Extent(r, size + (e.End() - (r + size)));
    assert Extent(r, size) in w ==> Extent(r, size) == e;
    assert span in w ==> span == e;
    hide SpaceOK;
  }

  lemma TreeClose(c: nat, w: Space, g: Extent)
    requires c > 0 && SpaceOK(c, w) && Pends(w, g)
    ensures TreeOf(Close(w, g, Tree)) == TreeOf(w) + {Trail(w, g)}
    ensures TreeOf(Close(w, g, Lost)) == TreeOf(w)
  {
    hide Aligned;
    assert forall x :: x in w && x != g ==> Fine(c, x) && Disjoint(x, g);
    assert Trail(w, g) !in w && Extent(g.addr, w[g].block) !in w;
  }

  /** The step frees a block that begins at x. */
  ghost predicate FreesAt(w: Space, e: Event, x: nat) {
    e.Record? && e.b in w && w[e.b].Owned? && e.b.addr == x && (e.xnode || Begins(TreeOf(w), e.b.End()))
  }

  /** The step hands out the free space from x on. */
  ghost predicate TakesAt(c: nat, w: Space, e: Event, x: nat) {
    && e.First?
    && var s := Served(c, TreeOf(w), e.size, e.alignment);
       s.Some? && e.alignment > 0 && s.value.addr == x == Ceiling(x, e.alignment)
  }

  lemma BehindTaken(c: nat, tree: set<Extent>, e: Extent, r: nat, size: nat, x: nat)
    requires c > 0 && Sound(c, tree) && e in tree && e.addr <= r && r + size <= e.End() && size > 0 && !Ends(tree, x)
    requires !(e.addr < x < e.End())
    ensures Begins(TakenTree(tree, e, r, size), x) <==> Begins(tree, x) && !(e.addr == x == r)
  {
    var lead, trail := r - e.addr, e.End() - (r + size);
    CarvedEnds(c, tree, e, lead, Extent(r, size), trail, x);
    CarvedEnds(c, tree, e, lead, Extent(r, size + trail), 0, x);
    assert Carved(tree, e, lead, Extent(r, size + trail), 0) == tree - {e} + Piece(e.addr, lead);
  }

  /** While an extent is held in the gap, whether free space begins right behind it is changed only by these two. */
  lemma BehindStep(c: nat, w: Space, e: Event, g: Extent)
    requires c > 0 && SpaceOK(c, w) && Pends(w, g) && Pends(Step(c, w, e), g)
    ensures Begins(TreeOf(Step(c, w, e)), g.End()) <==>
      FreesAt(w, e, g.End()) || (Begins(TreeOf(w), g.End()) && !TakesAt(c, w, e, g.End()))
  {
    var tree := TreeOf(w);
    TreeAfter(c, w, e);
    TreeSound(c, w);
    HeldApart(c, w, g);
    StepKeeps(c, w, e);
    match e
    case First(size, alignment) =>
      var s := Served(c, tree, size, alignment);
      hide Served, SpaceOK, Sound, Step, Ends, Ceiling, Aligned;
      if s.Some? {
        assert s.value in w && s.value != g && Disjoint(g, s.value);
        BehindTaken(c, tree, s.value, Ceiling(s.value.addr, alignment), size, g.End());
      }
    case Record(b, xnode) =>
      if b in w && w[b].Owned? {
        NeighboursTouch(c, w, b);
        RecordedEnds(c, tree, b, BeginningAt(tree, b.End()), EndingAt(tree, b.addr), g.End());
      }
    case Second(h) =>
      if Pends(w, h) {
        assert Disjoint(g, h);
      }
    case _ =>
  }

  /** Nothing in the tree reaches into the held extent; nothing else begins in it or ends where it ends. */
  lemma HeldApart(c: nat, w: Space, g: Extent)
    requires c > 0 && SpaceOK(c, w) && Pends(w, g)
    ensures !Ends(TreeOf(w), g.End()) && !Ends(TreeOf(w), g.addr + w[g].block) &&
      !Begins(TreeOf(w), g.addr + w[g].block)
    ensures forall h :: h in w && h != g ==> h.size > 0 && Disjoint(g, h)
  {
    hide Aligned;
  }

  /** Extents come to meet in one way only: a chunk_recycle puts its trail back, and by then free space begins right
      behind it. */
  lemma SeamBorn(c: nat, w: Space, e: Event, x: nat)
    requires c > 0 && SpaceOK(c, w)
    ensures Seam(TreeOf(Step(c, w, e)), x) && !Seam(TreeOf(w), x) <==>
      e.Second? && Pends(w, e.g) && x == e.g.End() && Begins(TreeOf(w), x)
  {
    var tree := TreeOf(w);
    TreeAfter(c, w, e);
    TreeSound(c, w);
    match e
    case First(size, alignment) =>
      var s := Served(c, tree, size, alignment);
      if s.Some? {
        var r := Ceiling(s.value.addr, alignment);
        CarvedSeams(c, tree, s.value, r - s.value.addr, Extent(r, size), s.value.End() - (r + size), x);
      }
    case Record(b, xnode) =>
      if b in w && w[b].Owned? {
        NeighboursTouch(c, w, b);
        RecordedSeams(c, tree, b, BeginningAt(tree, b.End()), EndingAt(tree, b.addr), x);
      }
    case Second(g) =>
      if Pends(w, g) {
        HeldApart(c, w, g);
        InsertedEnds(tree, Trail(w, g), x);
        hide Begins, Ends;
      }
    case _ =>
  }

  lemma InsertedEnds(tree: set<Extent>, e: Extent, x: nat)
    ensures Begins(tree + {e}, x) <==> Begins(tree, x) || x == e.addr
    ensures Ends(tree + {e}, x) <==> Ends(tree, x) || x == e.End()
  {
    assert e in tree + {e};
    if Begins(tree, x) {
      var f :| f in tree && f.addr == x;
      assert f in tree + {e};
    }
    if Ends(tree, x) {
      var f :| f in tree && f.End() == x;
      assert f in tree + {e};
    }
  }

  /** What an extent in the gap has been cut from ended where it ends. */
  lemma HeldFrom(c: nat, w: Space, e: Event, g: Extent)
    requires c > 0 && SpaceOK(c, w) && !Pends(w, g) && Pends(Step(c, w, e), g)
    ensures Ends(TreeOf(w), g.End())
    ensures Begins(TreeOf(Step(c, w, e)), g.End()) ==> Begins(TreeOf(w), g.End())
  {
    var tree := TreeOf(w);
    TreeAfter(c, w, e);
    TreeSound(c, w);
    OpenedBy(c, w, e, g);
    var s := Served(c, tree, e.size, e.alignment);
    var r := Ceiling(s.value.addr, e.alignment);
    var lead, trail := r - s.value.addr, s.value.End() - (r + e.size);
    CarvedEnds(c, tree, s.value, lead, Extent(r, e.size + trail), 0, g.End());
    assert Carved(tree, s.value, lead, Extent(r, e.size + trail), 0) == tree - {s.value} + Piece(s.value.addr, lead);
  }

  lemma OpenedBy(c: nat, w: Space, e: Event, g: Extent)
    requires c > 0 && SpaceOK(c, w) && !Pends(w, g) && Pends(Step(c, w, e), g)
    ensures e.First? && var s := Served(c, TreeOf(w), e.size, e.alignment);
      && s.Some? && e.alignment > 0 && e.size > 0 && g.End() == s.value.End() && s.value in TreeOf(w)
      && var r := Ceiling(s.value.addr, e.alignment); s.value.addr < r && r + e.size < s.value.End()
  {
    match e
    case First(size, alignment) =>
      var s := Served(c, TreeOf(w), size, alignment);
      if s.Some? {
        assert Serves(c, TreeOf(w), size, alignment, s.value) && size > 0 && alignment > 0;
        ServedFits(c, w, size, alignment, s.value);
        hide Served, Serves, Ceiling, Aligned, SpaceOK;
        OpenedTake(w, s.value, Ceiling(s.value.addr, alignment), size, g);
      }
    case Record(b, xnode) =>
      hide SpaceOK, Merged, BeginningAt, EndingAt;
    case _ =>
      hide SpaceOK;
  }

  lemma OpenedTake(w: Space, e: Extent, r: nat, size: nat, g: Extent)
    requires e in w && e.addr <= r && r + size <= e.End() && size > 0 && !Pends(w, g) && Pends(Take(w, e, r, size), g)
    ensures e.addr < r && r + size < e.End() && g.End() == e.End()
  {
  }

  // ---------- runs ----------

  /** The state after n of the events. */
  ghost function At(c: nat, es: seq<Event>, n: nat): (w: Space)
    requires c > 0 && n <= |es|
    ensures SpaceOK(c, w)
  {
    if n == 0 then map[]
    else
      var w := At(c, es, n - 1);
      StepKeeps(c, w, es[n - 1]);
      Step(c, w, es[n - 1])
  }

  /** In every interleaving the free extents, the blocks given out, those in a gap and those lost are aligned and
      disjoint. */
  lemma AlwaysSound(c: nat, es: seq<Event>)
    requires c > 0
    ensures var w := At(c, es, |es|); Sound(c, w.Keys) && Sound(c, TreeOf(w))
    ensures var w := At(c, es, |es|); forall g, e :: Pends(w, g) && e in TreeOf(w) ==> Disjoint(e, g)
  {
    TreeSound(c, At(c, es, |es|));
    hide At, Fine;
  }

  /** Event i puts back the trail of a gap during which event k freed the block right behind it, and that space was not
      handed out again from its beginning. */
  ghost predicate MissedAt(c: nat, es: seq<Event>, k: nat, i: nat)
    requires c > 0 && k < i < |es|
  {
    && es[i].Second?
    && (forall n :: k <= n <= i ==> Pends(At(c, es, n), es[i].g))
    && FreesAt(At(c, es, k), es[k], es[i].g.End())
    && (forall n :: k < n < i ==> !TakesAt(c, At(c, es, n), es[n], es[i].g.End()))
  }

  ghost predicate Missed(c: nat, es: seq<Event>)
    requires c > 0
  {
    exists k: nat, i: nat :: k < i < |es| && MissedAt(c, es, k, i)
  }

  ghost predicate AlwaysCoalesced(c: nat, es: seq<Event>)
    requires c > 0
  {
    forall n: nat :: n <= |es| ==> Coalesced(TreeOf(At(c, es, n)))
  }

  /** No two free extents ever meet, exactly if there is no such pair of events. */
  lemma NeverAdjacentExactly(c: nat, es: seq<Event>)
    requires c > 0
    ensures AlwaysCoalesced(c, es) <==> !Missed(c, es)
  {
    if Missed(c, es) {
      var k: nat, i: nat :| k < i < |es| && MissedAt(c, es, k, i);
      FreedStays(c, es, k, i, i);
      SeamBorn(c, At(c, es, i), es[i], es[i].g.End());
      assert Seam(TreeOf(At(c, es, i + 1)), es[i].g.End());
    } else {
      forall n: nat | n <= |es| ensures Coalesced(TreeOf(At(c, es, n))) {
        CoalescedUpTo(c, es, n);
      }
    }
  }

  lemma AtNext(c: nat, es: seq<Event>, n: nat)
    requires c > 0 && n < |es|
    ensures At(c, es, n + 1) == Step(c, At(c, es, n), es[n])
  {
  }

  lemma AtNone(c: nat, es: seq<Event>)
    requires c > 0
    ensures TreeOf(At(c, es, 0)) == {} && Coalesced(TreeOf(At(c, es, 0)))
    ensures forall g :: !Pends(At(c, es, 0), g)
  {
  }

  /** The freed space is still there. */
  lemma {:induction false} FreedStays(c: nat, es: seq<Event>, k: nat, i: nat, n: nat)
    requires c > 0 && k < n <= i < |es| && MissedAt(c, es, k, i)
    ensures Begins(TreeOf(At(c, es, n)), es[i].g.End())
    decreases n
  {
    hide At, Step, SpaceOK, Begins, TreeOf, Pends, FreesAt, TakesAt;
    if k < n - 1 { FreedStays(c, es, k, i, n - 1); }
    AtNext(c, es, n - 1);
    BehindStep(c, At(c, es, n - 1), es[n - 1], es[i].g);
  }

  lemma {:induction false} CoalescedUpTo(c: nat, es: seq<Event>, n: nat)
    requires c > 0 && n <= |es| && !Missed(c, es)
    ensures forall m: nat :: m <= n ==> Coalesced(TreeOf(At(c, es, m)))
    decreases n
  {
    hide At, Step, SpaceOK, Begins, Seam, TreeOf, Pends, MissedAt, FreesAt, TakesAt;
    if n == 0 {
      AtNone(c, es);
    } else {
      CoalescedUpTo(c, es, n - 1);
      AtNext(c, es, n - 1);
      forall x: nat ensures !Seam(TreeOf(At(c, es, n)), x) {
        NoSeamBorn(c, es, n - 1, x);
      }
    }
  }

  lemma NoSeamBorn(c: nat, es: seq<Event>, n: nat, x: nat)
    requires c > 0 && n < |es| && !Missed(c, es) && forall m: nat :: m <= n ==> Coalesced(TreeOf(At(c, es, m)))
    ensures !Seam(TreeOf(At(c, es, n + 1)), x)
  {
    var w, e := At(c, es, n), es[n];
    assert Coalesced(TreeOf(w));
    assert !Seam(TreeOf(w), x);
    AtNext(c, es, n);
    hide At, Step, SpaceOK, Begins, Seam, TreeOf, Pends, FreesAt, TakesAt, Coalesced;
    SeamBorn(c, w, e, x);
    if Seam(TreeOf(At(c, es, n + 1)), x) {
      MissedHere(c, es, n);
    }
  }

  lemma MissedHere(c: nat, es: seq<Event>, n: nat)
    requires c > 0 && n < |es| && forall m: nat :: m <= n ==> Coalesced(TreeOf(At(c, es, m)))
    requires es[n].Second? && Pends(At(c, es, n), es[n].g) && Begins(TreeOf(At(c, es, n)), es[n].g.End())
    ensures Missed(c, es)
  {
    hide At, Step, SpaceOK, Begins, TreeOf, Pends, FreesAt, TakesAt, Coalesced;
    var k := FreedBy(c, es, n, es[n].g);
    assert MissedAt(c, es, k, n);
  }

  /** If free space begins behind an extent in the gap, it was freed in the gap. */
  lemma {:induction false} FreedBy(c: nat, es: seq<Event>, n: nat, g: Extent) returns (k: nat)
    requires c > 0 && n <= |es| && Pends(At(c, es, n), g) && Begins(TreeOf(At(c, es, n)), g.End())
    requires forall m: nat :: m <= n ==> Coalesced(TreeOf(At(c, es, m)))
    ensures k < n && FreesAt(At(c, es, k), es[k], g.End()) && forall m :: k <= m <= n ==> Pends(At(c, es, m), g)
    ensures forall m :: k < m < n ==> !TakesAt(c, At(c, es, m), es[m], g.End())
    decreases n
  {
    hide At, Step, SpaceOK, Begins, TreeOf, Pends, FreesAt, TakesAt, Coalesced;
    AtNone(c, es);
    var w, e := At(c, es, n - 1), es[n - 1];
    AtNext(c, es, n - 1);
    if Pends(w, g) {
      BehindStep(c, w, e, g);
      if FreesAt(w, e, g.End()) {
        return n - 1;
      }
      k := FreedBy(c, es, n - 1, g);
    } else {
      OpenedCoalesced(c, w, e, g);
      assert false;
    }
  }

  lemma OpenedCoalesced(c: nat, w: Space, e: Event, g: Extent)
    requires c > 0 && SpaceOK(c, w) && !Pends(w, g) && Pends(Step(c, w, e), g) && Coalesced(TreeOf(w))
    ensures !Begins(TreeOf(Step(c, w, e)), g.End())
  {
    HeldFrom(c, w, e, g);
    assert !Seam(TreeOf(w), g.End());
  }

  // ---------- no byte is lost or gained ----------

  ghost predicate Known(w: Space, x: nat) { exists e :: e in w && In(e, x) }

  /** Every byte the system has given stays in exactly one extent, as free, owned, in a gap or lost, until it is
      unmapped. */
  lemma BytesKept(c: nat, w: Space, e: Event, x: nat)
    requires c > 0 && SpaceOK(c, w)
    ensures Known(Step(c, w, e), x) <==>
      match e
      case FromSystem(b) => Known(w, x) || (Fine(c, b) && Outside(w.Keys, b) && In(b, x))
      case Unmap(b) => Known(w, x) && !(b in w && w[b].Owned? && In(b, x))
      case _ => Known(w, x)
    ensures forall f, g :: f in w && g in w && In(f, x) && In(g, x) ==> f == g
  {
    hide Aligned;
    assert forall f, g :: f in w && g in w && f != g ==> Disjoint(f, g);
    match e
    case First(size, alignment) =>
      var s := Served(c, TreeOf(w), size, alignment);
      if s.Some? {
        assert Serves(c, TreeOf(w), size, alignment, s.value) && size > 0 && alignment > 0;
        ServedFits(c, w, size, alignment, s.value);
        hide Served, Serves, Ceiling, SpaceOK;
        TakeKeeps(w, s.value, Ceiling(s.value.addr, alignment), size, x);
      }
    case Second(g) => if Pends(w, g) { CloseKeeps(w, g, Tree, x); }
    case GiveUp(g) => if Pends(w, g) { CloseKeeps(w, g, Lost, x); }
    case Record(b, xnode) =>
      if b in w && w[b].Owned? {
        RecordIs(c, w, b, xnode);
        NeighboursTouch(c, w, b);
        RecordKeeps(c, w, b, xnode, x);
      }
    case FromSystem(b) =>
      if Fine(c, b) && Outside(w.Keys, b) { PutKeeps(w, b, Owned, x); }
    case Unmap(b) =>
  }

  lemma PutKeeps(w: Space, b: Extent, p: Place, x: nat)
    ensures Known(w[b := p], x) <==> Known(w - {b}, x) || In(b, x)
    ensures b !in w ==> w - {b} == w
  {
    assert b in w[b := p];
    if Known(w - {b}, x) {
      var e :| e in w - {b} && In(e, x);
      assert e in w[b := p];
    }
  }

  lemma WithoutKeeps(w: Space, e: Extent, x: nat)
    requires e in w
    ensures Known(w, x) <==> Known(w - {e}, x) || In(e, x)
  {
    if Known(w, x) && !In(e, x) {
      var f :| f in w && In(f, x);
      assert f in w - {e};
    }
  }

  lemma TakeKeeps(w: Space, e: Extent, r: nat, size: nat, x: nat)
    requires e in w && e.addr <= r && r + size <= e.End() && size > 0
    requires forall f :: f in w && f != e && f.size > 0 ==> Disjoint(f, e)
    requires forall f :: f in w ==> f.size > 0
    ensures Known(Take(w, e, r, size), x) <==> Known(w, x)
  {
    WithoutKeeps(w, e, x);
    var w' := Take(w, e, r, size);
    var ps := Pieces(e, r, size);
    assert w'.Keys == (w - {e}).Keys + ps;
    if In(e, x) {
      var p := if x < r then Extent(e.addr, r - e.addr)
        else if r - e.addr > 0 && e.End() - (r + size) > 0 then Extent(r, e.End() - r)
        else if x < r + size then Extent(r, size) else Extent(r + size, e.End() - (r + size));
      assert p in ps && In(p, x);
      assert p in w';
    } else if Known(w - {e}, x) {
      var f :| f in w - {e} && In(f, x);
      assert f in w';
    }
  }

  lemma CloseKeeps(w: Space, g: Extent, rest: Place, x: nat)
    requires Pends(w, g) && 0 < w[g].block < g.size
    ensures Known(Close(w, g, rest), x) <==> Known(w, x)
  {
    WithoutKeeps(w, g, x);
    var w', n := Close(w, g, rest), w[g].block;
    var a, b := Extent(g.addr, n), Extent(g.addr + n, g.size - n);
    assert a in w' && b in w' && w'.Keys == (w - {g}).Keys + {a, b};
    if Known(w - {g}, x) {
      var f :| f in w - {g} && In(f, x);
      assert f in w';
    }
  }

  lemma RecordKeeps(c: nat, w: Space, b: Extent, xnode: bool, x: nat)
    requires c > 0 && SpaceOK(c, w) && b in w && w[b].Owned?
    ensures Known(RecordStep(w, b, xnode), x) <==> Known(w, x)
  {
    var tree, w' := TreeOf(w), RecordStep(w, b, xnode);
    var next, prev := BeginningAt(tree, b.End()), EndingAt(tree, b.addr);
    RecordIs(c, w, b, xnode);
    NeighboursTouch(c, w, b);
    FineSizes(c, w.Keys);
    hide SpaceOK, Sound, Touching, Outside, Recorded, RecordStep, BeginningAt, EndingAt, Fine;
    var m := Merged(b, next, prev);
    if !(next == None && !xnode) {
      if Known(w, x) {
        var f :| f in w && In(f, x);
        if f == b || next == Some(f) || prev == Some(f) { assert m in w' && In(m, x); } else { assert f in w'; }
      }
      if In(m, x) {
        assert In(b, x) || (next.Some? && In(next.value, x)) || (prev.Some? && In(prev.value, x));
      }
    }
  }

  // ---------- a missed merge ----------

  /** The system gives three chunks and the one behind them; the three are freed. A request for one chunk at an even
      address takes the one in the middle. Before its trail is back, the fourth chunk is freed. */
  function MissedEvents(): seq<Event> {
    [FromSystem(Extent(1, 3)), FromSystem(Extent(4, 1)), Record(Extent(1, 3), true), First(1, 2),
     Record(Extent(4, 1), true), Second(Extent(2, 2))]
  }

  lemma MissedMerge()
    ensures var w := At(1, MissedEvents(), 6);
      && TreeOf(w) == {Extent(1, 1), Extent(3, 1), Extent(4, 1)} && Seam(TreeOf(w), 4)
      && !AlwaysCoalesced(1, MissedEvents())
  {
    var es := MissedEvents();
    MissedStart();
    hide MissedEvents;
    MissedRequest(At(1, es, 3));
    MissedFree(At(1, es, 4));
    MissedEnd(At(1, es, 5));
    NextThree(es);
    hide *;
    assert At(1, es, 6) == map[Extent(1, 1) := Tree, Extent(2, 1) := Owned, Extent(3, 1) := Tree, Extent(4, 1) := Tree];
    SeamThere(At(1, es, 6));
    NotCoalesced(es);
  }

  lemma NextThree(es: seq<Event>)
    requires |es| == 6
    ensures At(1, es, 4) == Step(1, At(1, es, 3), es[3]) && At(1, es, 5) == Step(1, At(1, es, 4), es[4])
    ensures At(1, es, 6) == Step(1, At(1, es, 5), es[5])
  {
    hide Step, SpaceOK;
  }

  lemma MissedStart()
    ensures var es := MissedEvents();
      && |es| == 6 && es[3] == First(1, 2) && es[4] == Record(Extent(4, 1), true) && es[5] == Second(Extent(2, 2))
      && At(1, es, 3) == map[Extent(1, 3) := Tree, Extent(4, 1) := Owned]
  {
    var es := MissedEvents();
    assert es[0] == FromSystem(Extent(1, 3)) && es[1] == FromSystem(Extent(4, 1)) &&
      es[2] == Record(Extent(1, 3), true);
    hide MissedEvents;
    AtNext(1, es, 0);
    AtNext(1, es, 1);
    AtNext(1, es, 2);
    AtZero(es);
    hide *;
    MissedGiven(At(1, es, 0), At(1, es, 1));
    MissedGiven2(At(1, es, 2));
  }

  lemma MissedGiven(w: Space, w': Space)
    requires SpaceOK(1, w) && w == map[] && SpaceOK(1, w') && w' == Step(1, w, FromSystem(Extent(1, 3)))
    ensures w' == map[Extent(1, 3) := Owned]
    ensures Step(1, w', FromSystem(Extent(4, 1))) == map[Extent(1, 3) := Owned, Extent(4, 1) := Owned]
  {
    FineOne(Extent(1, 3));
    FineOne(Extent(4, 1));
    hide Fine, SpaceOK;
  }

  lemma MissedGiven2(w: Space)
    requires SpaceOK(1, w) && w == map[Extent(1, 3) := Owned, Extent(4, 1) := Owned]
    ensures Step(1, w, Record(Extent(1, 3), true)) == map[Extent(1, 3) := Tree, Extent(4, 1) := Owned]
  {
    assert TreeOf(w) == {};
    assert w - {Extent(1, 3)} == map[Extent(4, 1) := Owned];
    hide SpaceOK, TreeOf;
  }

  lemma AtZero(es: seq<Event>)
    ensures At(1, es, 0) == map[]
  {
  }

  lemma FineOne(e: Extent)
    requires e.size > 0 && e.End() <= SPACE
    ensures Fine(1, e)
  {
  }

  lemma MissedRequest(w: Space)
    requires SpaceOK(1, w) && w == map[Extent(1, 3) := Tree, Extent(4, 1) := Owned]
    ensures Step(1, w, First(1, 2)) == map[Extent(1, 1) := Tree, Extent(2, 2) := Pending(1), Extent(4, 1) := Owned]
  {
    assert TreeOf(w) == {Extent(1, 3)};
    assert Serves(1, TreeOf(w), 1, 2, Extent(1, 3));
    assert forall e :: Serves(1, TreeOf(w), 1, 2, e) ==> e == Extent(1, 3);
    assert Served(1, TreeOf(w), 1, 2) == Some(Extent(1, 3));
    assert Ceiling(1, 2) == 2;
    assert w - {Extent(1, 3)} == map[Extent(4, 1) := Owned];
    hide Served, Serves, SpaceOK;
    assert Take(w, Extent(1, 3), 2, 1) == map[Extent(1, 1) := Tree, Extent(2, 2) := Pending(1), Extent(4, 1) := Owned];
  }

  lemma MissedFree(w: Space)
    requires SpaceOK(1, w) && w == map[Extent(1, 1) := Tree, Extent(2, 2) := Pending(1), Extent(4, 1) := Owned]
    ensures Step(1, w, Record(Extent(4, 1), true))
         == map[Extent(1, 1) := Tree, Extent(2, 2) := Pending(1), Extent(4, 1) := Tree]
  {
    assert TreeOf(w) == {Extent(1, 1)};
    assert !Begins(TreeOf(w), 5) && !Ends(TreeOf(w), 4);
    assert w - {Extent(4, 1)} == map[Extent(1, 1) := Tree, Extent(2, 2) := Pending(1)];
    hide SpaceOK, TreeOf;
  }

  lemma MissedEnd(w: Space)
    requires SpaceOK(1, w) && w == map[Extent(1, 1) := Tree, Extent(2, 2) := Pending(1), Extent(4, 1) := Tree]
    ensures Step(1, w, Second(Extent(2, 2)))
         == map[Extent(1, 1) := Tree, Extent(2, 1) := Owned, Extent(3, 1) := Tree, Extent(4, 1) := Tree]
  {
    assert w - {Extent(2, 2)} == map[Extent(1, 1) := Tree, Extent(4, 1) := Tree];
    hide SpaceOK;
  }

  lemma SeamThere(w: Space)
    requires w == map[Extent(1, 1) := Tree, Extent(2, 1) := Owned, Extent(3, 1) := Tree, Extent(4, 1) := Tree]
    ensures TreeOf(w) == {Extent(1, 1), Extent(3, 1), Extent(4, 1)} && Seam(TreeOf(w), 4) && !Coalesced(TreeOf(w))
  {
    assert Extent(4, 1) in TreeOf(w) && Extent(3, 1) in TreeOf(w);
    assert Seam(TreeOf(w), 4);
  }

  lemma NotCoalesced(es: seq<Event>)
    requires |es| == 6 && !Coalesced(TreeOf(At(1, es, 6)))
    ensures !AlwaysCoalesced(1, es)
  {
  }
}
