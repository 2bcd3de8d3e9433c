/** The availability trees of an arena (arena.c:97-126) as ordered sets, and sums over its chunks. */
module Avail {
  import opened Basics
  import opened PageMap
  import opened ArenaChunk

  /** A tree element: the key is the size recorded when the element was inserted, then the address. */
  datatype Node = Node(size: nat, chunk: nat, page: nat)

  /** arena_avail_comp(a, b) < 0 */
  predicate Less(a: Node, b: Node) {
    a.size < b.size || (a.size == b.size && (a.chunk < b.chunk || (a.chunk == b.chunk && a.page < b.page)))
  }

  /** Of the elements that are large enough the smallest, and of these the one at the lowest address. */
  ghost predicate LeastFit(t: set<Node>, need: nat, n: Node) {
    n in t && need <= n.size && forall m :: m in t && need <= m.size ==>
      n.size < m.size || (n.size == m.size && (n.chunk < m.chunk || (n.chunk == m.chunk && n.page <= m.page)))
  }

  /** arena_avail_tree_nsearch with a size key: the first element that is at least as large. */
  method NSearch(t: set<Node>, need: nat) returns (r: Option<Node>)
    ensures r.None? <==> forall m :: m in t ==> m.size < need
    ensures r.Some? ==> LeastFit(t, need, r.value)
  {
    r := None;
    var rest := t;
    while rest != {}
      invariant rest <= t
      invariant r.None? <==> forall m :: m in t - rest ==> m.size < need
      invariant r.Some? ==> LeastFit(t - rest, need, r.value)
      decreases rest
    {
      var n :| n in rest;
      if need <= n.size && (r.None? || Less(n, r.value)) { r := Some(n); }
      rest := rest - {n};
    }
  }

  ghost predicate IsFree(c: Config, ch: Chunk, p: nat, len: nat, d: bool) {
    Starts(c, ch, p) && ch.own[p] == Run(p, len, Free, d)
  }

  /** The tree holds exactly the free runs of dirtiness d of the chunks other than the spare. */
  ghost predicate TreeOK(c: Config, t: set<Node>, chunks: map<nat, Chunk>, spare: Option<nat>, d: bool) {
    && (forall n :: n in t ==>
          n.chunk in chunks && spare != Some(n.chunk) && IsFree(c, chunks[n.chunk], n.page, n.size, d))
    && (forall x, p {:trigger chunks[x].own[p]} ::
          x in chunks && spare != Some(x) && c.bias <= p < |chunks[x].own|
          && IsFree(c, chunks[x], p, chunks[x].own[p].len, d) ==>
          Node(chunks[x].own[p].len, x, p) in t)
  }

  /** The pages [s,e) of chunk x changed, and the tree changed exactly there. */
  lemma TreeStep(c: Config, t: set<Node>, t': set<Node>, chunks: map<nat, Chunk>, ch': Chunk, x: nat,
                 spare: Option<nat>, d: bool, s: nat, e: nat)
    requires TreeOK(c, t, chunks, spare, d) && x in chunks && spare != Some(x)
    requires Shaped(c, chunks[x]) && Shaped(c, ch')
    requires c.bias <= s <= e <= c.npages && SameOutside(chunks[x].own, ch'.own, s, e)
    requires forall n :: n in t' <==>
               if n.chunk == x && s <= n.page < e then ch'.own[n.page] == Run(n.page, n.size, Free, d) else n in t
    ensures TreeOK(c, t', chunks[x := ch'], spare, d)
  {
  }

  /** The pages [s,e) of chunk x changed, but hold no free run of dirtiness d before or after. */
  lemma TreeKept(c: Config, t: set<Node>, chunks: map<nat, Chunk>, ch': Chunk, x: nat,
                 spare: Option<nat>, d: bool, s: nat, e: nat)
    requires TreeOK(c, t, chunks, spare, d) && x in chunks && spare != Some(x)
    requires Shaped(c, chunks[x]) && Shaped(c, ch')
    requires c.bias <= s <= e <= c.npages && SameOutside(chunks[x].own, ch'.own, s, e)
    requires forall p :: s <= p < e ==> !(chunks[x].own[p].kind.Free? && chunks[x].own[p].dirty == d)
    requires forall p :: s <= p < e ==> !(ch'.own[p].kind.Free? && ch'.own[p].dirty == d)
    ensures TreeOK(c, t, chunks[x := ch'], spare, d)
  {
    TreeStep(c, t, t, chunks, ch', x, spare, d, s, e);
  }

  // ---------- sums over the chunks ----------

  ghost function ActivePages(c: Config, ch: Chunk): nat {
    if Shaped(c, ch) then Count(ch.own, Active, c.bias, c.npages) else 0
  }

  ghost function TotalActive(c: Config, m: map<nat, Chunk>): nat
    decreases |m|
  {
    if m == map[] then 0 else
      var x :| x in m;
      ActivePages(c, m[x]) + TotalActive(c, m - {x})
  }

  ghost function TotalDirty(m: map<nat, Chunk>): nat
    decreases |m|
  {
    if m == map[] then 0 else
      var x :| x in m;
      m[x].ndirty + TotalDirty(m - {x})
  }

  lemma {:induction false} TotalActiveOf(c: Config, m: map<nat, Chunk>, x: nat)
    requires x in m
    ensures TotalActive(c, m) == ActivePages(c, m[x]) + TotalActive(c, m - {x})
    decreases |m|
  {
    var y :| y in m && TotalActive(c, m) == ActivePages(c, m[y]) + TotalActive(c, m - {y});
    if y != x {
      TotalActiveOf(c, m - {y}, x);
      assert (m - {y}) - {x} == (m - {x}) - {y};
      TotalActiveOf(c, m - {x}, y);
    }
  }

  lemma {:induction false} TotalDirtyOf(m: map<nat, Chunk>, x: nat)
    requires x in m
    ensures TotalDirty(m) == m[x].ndirty + TotalDirty(m - {x})
    decreases |m|
  {
    var y :| y in m && TotalDirty(m) == m[y].ndirty + TotalDirty(m - {y});
    if y != x {
      TotalDirtyOf(m - {y}, x);
      assert (m - {y}) - {x} == (m - {x}) - {y};
      TotalDirtyOf(m - {x}, y);
    }
  }

  lemma TotalsStep(c: Config, m: map<nat, Chunk>, x: nat, ch': Chunk)
    requires x in m
    ensures TotalActive(c, m[x := ch']) + ActivePages(c, m[x]) == TotalActive(c, m) + ActivePages(c, ch')
    ensures TotalDirty(m[x := ch']) + m[x].ndirty == TotalDirty(m) + ch'.ndirty
  {
    var m' := m[x := ch'];
    TotalActiveOf(c, m, x);
    TotalActiveOf(c, m', x);
    TotalDirtyOf(m, x);
    TotalDirtyOf(m', x);
    assert m' - {x} == m - {x};
  }

  lemma {:induction false} NoDirtyChunks(m: map<nat, Chunk>)
    requires forall x :: x in m ==> m[x].ndirty == 0
    ensures TotalDirty(m) == 0
    decreases |m|
  {
    if m != map[] {
      var x :| x in m && TotalDirty(m) == m[x].ndirty + TotalDirty(m - {x});
      NoDirtyChunks(m - {x});
    }
  }
}
