/** Free extents (extent.c:6-39) and what the chunk recycler (chunk.c:39-122, 191-261) does with a tree of them. Sizes
    and addresses are bytes of a 64-bit address space. */
module Extents {
  import opened Basics
  import opened Division

  /** extent_node_t */
  datatype Extent = Extent(addr: nat, size: nat) {
    function End(): nat { addr + size }
  }

  const SPACE: nat := 0x1_0000_0000_0000_0000

  // ---------- the trees ----------

  /** extent_szad_comp: by size, then by address */
  predicate SizeOrder(a: Extent, b: Extent) { a.size < b.size || (a.size == b.size && a.addr <= b.addr) }

  /** extent_tree_szad_nsearch with a key of address NULL: the first extent of at least this size. */
  predicate BestFit(tree: set<Extent>, size: nat, e: Extent) {
    e in tree && e.size >= size && forall f :: f in tree && f.size >= size ==> SizeOrder(e, f)
  }

  predicate NoFit(tree: set<Extent>, size: nat) {
    forall f :: f in tree ==> f.size < size
  }

  lemma {:induction false} BestExists(tree: set<Extent>, size: nat)
    requires !NoFit(tree, size)
    ensures exists e :: BestFit(tree, size, e)
    decreases |tree|
  {
    var a :| a in tree && a.size >= size;
    var rest := tree - {a};
    assert tree == rest + {a};
    if NoFit(rest, size) {
      assert BestFit(tree, size, a);
    } else {
      BestExists(rest, size);
      var e :| BestFit(rest, size, e);
      assert BestFit(tree, size, if SizeOrder(a, e) then a else e);
    }
  }

  method SearchSize(tree: set<Extent>, size: nat) returns (node: Option<Extent>)
    ensures node == None <==> NoFit(tree, size)
    ensures node.Some? ==> BestFit(tree, size, node.value)
  {
    if NoFit(tree, size) {
      return None;
    }
    BestExists(tree, size);
    var e :| e in tree && BestFit(tree, size, e);
    return Some(e);
  }

  /** extent_tree_ad_nsearch: the first extent at or after this address. */
  predicate FirstFrom(tree: set<Extent>, addr: nat, e: Extent) {
    e in tree && e.addr >= addr && forall f :: f in tree && f.addr >= addr ==> e.addr <= f.addr
  }

  lemma {:induction false} FirstExists(tree: set<Extent>, addr: nat)
    requires exists f :: f in tree && f.addr >= addr
    ensures exists e :: FirstFrom(tree, addr, e)
    decreases |tree|
  {
    var a :| a in tree && a.addr >= addr;
    var rest := tree - {a};
    assert tree == rest + {a};
    if exists f :: f in rest && f.addr >= addr {
      FirstExists(rest, addr);
      var e :| FirstFrom(rest, addr, e);
      assert FirstFrom(tree, addr, if a.addr <= e.addr then a else e);
    } else {
      assert FirstFrom(tree, addr, a);
    }
  }

  method SearchFrom(tree: set<Extent>, addr: nat) returns (node: Option<Extent>)
    ensures node == None ==> forall f :: f in tree ==> f.addr < addr
    ensures node.Some? ==> FirstFrom(tree, addr, node.value)
  {
    if forall f :: f in tree ==> f.addr < addr {
      return None;
    }
    FirstExists(tree, addr);
    var e :| e in tree && FirstFrom(tree, addr, e);
    return Some(e);
  }

  /** extent_tree_ad_prev */
  predicate LastBefore(tree: set<Extent>, addr: nat, e: Extent) {
    e in tree && e.addr < addr && forall f :: f in tree && f.addr < addr ==> f.addr <= e.addr
  }

  lemma {:induction false} LastExists(tree: set<Extent>, addr: nat)
    requires exists f :: f in tree && f.addr < addr
    ensures exists e :: LastBefore(tree, addr, e)
    decreases |tree|
  {
    var a :| a in tree && a.addr < addr;
    var rest := tree - {a};
    assert tree == rest + {a};
    if exists f :: f in rest && f.addr < addr {
      LastExists(rest, addr);
      var e :| LastBefore(rest, addr, e);
      assert LastBefore(tree, addr, if a.addr >= e.addr then a else e);
    } else {
      assert LastBefore(tree, addr, a);
    }
  }

  method SearchBefore(tree: set<Extent>, addr: nat) returns (node: Option<Extent>)
    ensures node == None ==> forall f :: f in tree ==> f.addr >= addr
    ensures node.Some? ==> LastBefore(tree, addr, node.value)
  {
    if forall f :: f in tree ==> f.addr >= addr {
      return None;
    }
    LastExists(tree, addr);
    var e :| e in tree && LastBefore(tree, addr, e);
    return Some(e);
  }

  // ---------- the invariant ----------

  predicate Aligned(c: nat, x: nat) requires c > 0 { x % c == 0 }

  ghost predicate Fine(c: nat, e: Extent)
    requires c > 0
  {
    e.size > 0 && Aligned(c, e.addr) && Aligned(c, e.size) && e.End() <= SPACE
  }

  ghost predicate Disjoint(e: Extent, f: Extent) { e.End() <= f.addr || f.End() <= e.addr }

  /** The extents are aligned and do not overlap. */
  ghost predicate Sound(c: nat, s: set<Extent>)
    requires c > 0
  {
    && (forall e :: e in s ==> Fine(c, e))
    && (forall e, f :: e in s && f in s && e != f ==> Disjoint(e, f))
  }

  ghost predicate Begins(s: set<Extent>, x: nat) { exists e :: e in s && e.addr == x }

  ghost predicate Ends(s: set<Extent>, x: nat) { exists e :: e in s && e.End() == x }

  /** Two extents meet at x. */
  ghost predicate Seam(s: set<Extent>, x: nat) { Begins(s, x) && Ends(s, x) }

  /** No two extents meet. */
  ghost predicate Coalesced(s: set<Extent>) { forall x: nat :: !Seam(s, x) }

  /** No extent reaches into the block. */
  ghost predicate Outside(s: set<Extent>, b: Extent) { forall f :: f in s ==> Disjoint(f, b) }

  predicate In(e: Extent, x: nat) { e.addr <= x < e.End() }

  /** The byte x is free. */
  ghost predicate Free(tree: set<Extent>, x: nat) {
    exists e :: e in tree && In(e, x)
  }

  /** Free space after is free space before without, or with, a block. */
  ghost predicate Removed(before: set<Extent>, after: set<Extent>, b: Extent) {
    forall x: nat :: Free(after, x) <==> Free(before, x) && !In(b, x)
  }

  ghost predicate Added(before: set<Extent>, after: set<Extent>, b: Extent) {
    forall x: nat :: Free(after, x) <==> Free(before, x) || In(b, x)
  }

  // ---------- arithmetic ----------

  /** ALIGNMENT_CEILING */
  function Ceiling(s: nat, alignment: nat): nat
    requires alignment > 0
  {
    (s + (alignment - 1)) / alignment * alignment
  }

  lemma ModTimes(q: nat, d: nat)
    requires d > 0
    ensures (q * d) % d == 0 && (q * d) / d == q
  {
    DivUnique(q * d, d, q, 0);
  }

  lemma ModAdd(x: nat, y: nat, c: nat)
    requires c > 0 && x % c == 0 && y % c == 0
    ensures (x + y) % c == 0
  {
    var p, q := x / c, y / c;
    assert x == p * c && y == q * c;
    assert (p + q) * c == p * c + q * c;
    ModTimes(p + q, c);
  }

  lemma ModSub(x: nat, y: nat, c: nat)
    requires c > 0 && x % c == 0 && y % c == 0 && y <= x
    ensures (x - y) % c == 0
  {
    var p, q := x / c, y / c;
    assert x == p * c && y == q * c;
    Multiple(p - q, c);
    Distribute(p, q, c);
    ModTimes(p - q, c);
  }

  /** A multiple of a multiple. */
  lemma ModMod(x: nat, a: nat, c: nat)
    requires c > 0 && a > 0 && a % c == 0 && x % a == 0
    ensures x % c == 0
  {
    var p, q := a / c, x / a;
    assert a == p * c && x == q * a;
    assert q * (p * c) == (q * p) * c;
    ModTimes(q * p, c);
  }

  /** Multiples that differ, differ by at least the modulus. */
  lemma ModGap(x: nat, y: nat, c: nat)
    requires c > 0 && x % c == 0 && y % c == 0 && x < y
    ensures x + c <= y
  {
    ModSub(y, x, c);
    Multiple((y - x) / c, c);
  }

  lemma CeilingFacts(s: nat, a: nat)
    requires a > 0
    ensures s <= Ceiling(s, a) < s + a && Ceiling(s, a) % a == 0
  {
    var n := s + (a - 1);
    assert n == n / a * a + n % a;
    ModTimes(n / a, a);
  }

  /** The lead left before an aligned block is a multiple of the chunk size and leaves room for the block. */
  lemma LeadFacts(c: nat, e: Extent, size: nat, alignment: nat)
    requires c > 0 && Fine(c, e) && size > 0 && alignment > 0 && Aligned(c, size) && Aligned(c, alignment)
    requires e.size >= size + alignment - c
    ensures var ret := Ceiling(e.addr, alignment);
      && e.addr <= ret && ret + size <= e.End() && ret % alignment == 0 && Aligned(c, ret)
      && Aligned(c, ret - e.addr) && Aligned(c, e.End() - (ret + size)) && Aligned(c, ret + size)
      && e.addr + (alignment - 1) < SPACE
  {
    var ret := Ceiling(e.addr, alignment);
    CeilingFacts(e.addr, alignment);
    ModMod(ret, alignment, c);
    ModAdd(e.addr, alignment, c);
    ModGap(ret, e.addr + alignment, c);
    ModSub(ret, e.addr, c);
    ModAdd(ret, size, c);
    ModAdd(e.addr, e.size, c);
    ModSub(e.End(), ret + size, c);
    ModGap(0, size, c);
  }

  // ---------- taking a block out of an extent ----------

  function Piece(addr: nat, size: nat): set<Extent> {
    if size == 0 then {} else {Extent(addr, size)}
  }

  ghost predicate Carves(e: Extent, lead: nat, b: Extent, trail: nat) {
    b.size > 0 && e.addr + lead == b.addr && b.End() + trail == e.End()
  }

  /** What remains of the tree when the block is taken out of e: its lead and its trail. */
  function Carved(tree: set<Extent>, e: Extent, lead: nat, b: Extent, trail: nat): set<Extent> {
    tree - {e} + Piece(e.addr, lead) + Piece(b.End(), trail)
  }

  /** Extents may be replaced by pieces of one of them. */
  lemma PiecesSound(c: nat, s: set<Extent>, e: Extent, pieces: set<Extent>)
    requires c > 0 && Sound(c, s) && e in s && Sound(c, pieces)
    requires forall p :: p in pieces ==> e.addr <= p.addr && p.End() <= e.End()
    ensures Sound(c, s - {e} + pieces)
  {
    hide Fine;
    forall x, y | x in s - {e} + pieces && y in s - {e} + pieces && x != y ensures Disjoint(x, y) {
      assert x in s && x != e ==> Disjoint(x, e);
      assert y in s && y != e ==> Disjoint(y, e);
    }
  }

  /** Where extents begin and end afterwards. */
  lemma CarvedEnds(c: nat, tree: set<Extent>, e: Extent, lead: nat, b: Extent, trail: nat, x: nat)
    requires c > 0 && Sound(c, tree) && e in tree && Carves(e, lead, b, trail)
    ensures Begins(Carved(tree, e, lead, b, trail), x) <==>
      (Begins(tree, x) && (x != e.addr || lead > 0)) || (trail > 0 && x == b.End())
    ensures Ends(Carved(tree, e, lead, b, trail), x) <==>
      (Ends(tree, x) && (x != e.End() || trail > 0)) || (lead > 0 && x == b.addr)
  {
    assert Fine(c, e) && forall f :: f in tree && f != e ==> Fine(c, f) && Disjoint(e, f);
    hide *;
    CarvedBegins(c, tree, e, lead, b, trail, x);
    CarvedStops(c, tree, e, lead, b, trail, x);
  }

  lemma CarvedBegins(c: nat, tree: set<Extent>, e: Extent, lead: nat, b: Extent, trail: nat, x: nat)
    requires c > 0 && e in tree && Carves(e, lead, b, trail)
    requires Fine(c, e) && forall f :: f in tree && f != e ==> Fine(c, f) && Disjoint(e, f)
    ensures Begins(Carved(tree, e, lead, b, trail), x) <==>
      (Begins(tree, x) && (x != e.addr || lead > 0)) || (trail > 0 && x == b.End())
  {
    hide Aligned;
    var t := Carved(tree, e, lead, b, trail);
    assert lead > 0 ==> Extent(e.addr, lead) in t;
    assert trail > 0 ==> Extent(b.End(), trail) in t;
    if Begins(tree, x) && x != e.addr {
      var f :| f in tree && f.addr == x;
      assert f in t;
    }
  }

  lemma CarvedStops(c: nat, tree: set<Extent>, e: Extent, lead: nat, b: Extent, trail: nat, x: nat)
    requires c > 0 && e in tree && Carves(e, lead, b, trail)
    requires Fine(c, e) && forall f :: f in tree && f != e ==> Fine(c, f) && Disjoint(e, f)
    ensures Ends(Carved(tree, e, lead, b, trail), x) <==>
      (Ends(tree, x) && (x != e.End() || trail > 0)) || (lead > 0 && x == b.addr)
  {
    hide Aligned;
    var t := Carved(tree, e, lead, b, trail);
    assert lead > 0 ==> Extent(e.addr, lead) in t;
    assert trail > 0 ==> Extent(b.End(), trail) in t;
    if Ends(tree, x) && x != e.End() {
      var f :| f in tree && f.End() == x;
      assert f in t;
    }
  }

  /** Taking a block out makes no extents meet, with or without its trail. */
  lemma CarvedSeams(c: nat, tree: set<Extent>, e: Extent, lead: nat, b: Extent, trail: nat, x: nat)
    requires c > 0 && Sound(c, tree) && e in tree && Carves(e, lead, b, trail)
    ensures Seam(Carved(tree, e, lead, b, trail), x) ==> Seam(tree, x)
    ensures Seam(tree - {e} + Piece(e.addr, lead), x) ==> Seam(tree, x)
  {
    assert Carved(tree, e, lead, Extent(b.addr, b.size + trail), 0) == tree - {e} + Piece(e.addr, lead);
    CarvedEnds(c, tree, e, lead, b, trail, x);
    CarvedEnds(c, tree, e, lead, Extent(b.addr, b.size + trail), 0, x);
    assert Begins(tree, x) && e.addr < x ==> x >= e.End() by { NotInside(c, tree, e, x); }
    assert Ends(tree, x) && x < e.End() ==> x <= e.addr by { NotInside(c, tree, e, x); }
    hide Begins, Ends;
  }

  /** No extent begins or ends inside another one. */
  lemma NotInside(c: nat, tree: set<Extent>, e: Extent, x: nat)
    requires c > 0 && Sound(c, tree) && e in tree
    ensures (Begins(tree, x) || Ends(tree, x)) && e.addr < x ==> x >= e.End()
  {
    hide Aligned;
    assert forall f :: f in tree ==> Fine(c, f) && (f != e ==> Disjoint(e, f));
  }

  lemma CarvedFree(c: nat, tree: set<Extent>, e: Extent, lead: nat, b: Extent, trail: nat)
    requires c > 0 && Sound(c, tree) && e in tree && Carves(e, lead, b, trail)
    ensures Removed(tree, Carved(tree, e, lead, b, trail), b)
    ensures Removed(tree, tree - {e} + Piece(e.addr, lead), Extent(b.addr, b.size + trail))
  {
    CarvedPieces(c, tree, e, lead, b, trail);
    CarvedPieces(c, tree, e, lead, Extent(b.addr, b.size + trail), 0);
    hide Removed, Sound;
    assert Carved(tree, e, lead, Extent(b.addr, b.size + trail), 0) == tree - {e} + Piece(e.addr, lead);
  }

  lemma CarvedPieces(c: nat, tree: set<Extent>, e: Extent, lead: nat, b: Extent, trail: nat)
    requires c > 0 && Sound(c, tree) && e in tree && Carves(e, lead, b, trail)
    ensures Removed(tree, Carved(tree, e, lead, b, trail), b)
  {
    hide Fine, Aligned;
  }

  /** The block is free again, the space behind it is not. */
  lemma TrailLost(tree: set<Extent>, rest: set<Extent>, after: set<Extent>, b: Extent, trail: nat)
    requires Removed(tree, rest, Extent(b.addr, b.size + trail)) && Added(rest, after, b)
    requires forall x: nat :: In(b, x) ==> Free(tree, x)
    ensures Removed(tree, after, Extent(b.End(), trail))
  {
    hide Free;
  }

  // ---------- putting a block back ----------

  /** The block with the extents that touch it. */
  function Merged(b: Extent, next: Option<Extent>, prev: Option<Extent>): Extent {
    var lo := if prev.Some? then prev.value.addr else b.addr;
    var hi := if next.Some? then next.value.End() else b.End();
    Extent(lo, if lo <= hi then hi - lo else 0)
  }

  /** After the block has been merged with the extents that touch it, if any. */
  function Recorded(tree: set<Extent>, b: Extent, next: Option<Extent>, prev: Option<Extent>): set<Extent> {
    (if next.Some? then tree - {next.value} else tree) - (if prev.Some? then {prev.value}
      else {}) + {Merged(b, next, prev)}
  }

  ghost predicate Touching(tree: set<Extent>, b: Extent, next: Option<Extent>, prev: Option<Extent>) {
    && (if next.Some? then next.value in tree && next.value.addr == b.End() else forall f :: f in tree ==>
      f.addr != b.End())
    && (if prev.Some? then prev.value in tree && prev.value.End() == b.addr else forall f :: f in tree ==>
      f.End() != b.addr)
  }

  lemma FirstTouches(tree: set<Extent>, key: nat, found: Option<Extent>)
    requires found == None ==> forall f :: f in tree ==> f.addr < key
    requires found.Some? ==> FirstFrom(tree, key, found.value)
    ensures if found.Some? && found.value.addr == key then found.value in tree else forall f :: f in tree ==>
      f.addr != key
  {
  }

  /** The last extent before the block is the only one that can touch it there. */
  lemma LastTouches(c: nat, tree: set<Extent>, b: Extent, next: Option<Extent>, tree': set<Extent>,
      before: Option<Extent>)
    requires c > 0 && Sound(c, tree) && Fine(c, b) && Outside(tree, b)
    requires if next.Some? then next.value in tree && next.value.addr == b.End() &&
      tree' == tree - {next.value} + {Extent(b.addr, next.value.size + b.size)}
             else tree' == tree + {b}
    requires before == None ==> forall f :: f in tree' ==> f.addr >= b.addr
    requires before.Some? ==> LastBefore(tree', b.addr, before.value)
    ensures if before.Some? && before.value.End() == b.addr then before.value in tree &&
      before.value != (if next.Some? then next.value else b)
            else forall f :: f in tree ==> f.End() != b.addr
  {
    hide Aligned;
    forall f | f in tree && f.End() == b.addr ensures before.Some? && before.value == f {
      assert f in tree';
      assert before.Some? && before.value in tree;
      assert before.value != f ==> Disjoint(before.value, f);
    }
  }

  lemma RecordedIs(c: nat, tree: set<Extent>, b: Extent, next: Option<Extent>, prev: Option<Extent>,
      after: set<Extent>, node: Extent)
    requires c > 0 && Sound(c, tree) && Fine(c, b) && Outside(tree, b) && Touching(tree, b, next, prev)
    requires var mid := Extent(b.addr, b.size + if next.Some? then next.value.size else 0);
      var t1 := (if next.Some? then tree - {next.value} else tree) + {mid};
      && (if prev.Some? then node == Extent(prev.value.addr, mid.size + prev.value.size) &&
        after == t1 - {prev.value} - {mid} + {node}
          else node == mid && after == t1)
    ensures after == Recorded(tree, b, next, prev)
  {
    hide Aligned;
    assert b !in tree;
    assert next.Some? ==> Extent(b.addr, b.size + next.value.size) !in tree;
  }

  lemma RecordedSound(c: nat, tree: set<Extent>, b: Extent, next: Option<Extent>, prev: Option<Extent>)
    requires c > 0 && Sound(c, tree) && Fine(c, b) && Outside(tree, b) && Touching(tree, b, next, prev)
    ensures Sound(c, Recorded(tree, b, next, prev)) && Fine(c, Merged(b, next, prev))
  {
    var m := Merged(b, next, prev);
    var t := Recorded(tree, b, next, prev);
    assert Fine(c, m) by {
      if prev.Some? {
        assert Fine(c, prev.value);
        ModAdd(b.size, prev.value.size, c);
      }
      if next.Some? {
        assert Fine(c, next.value);
        ModAdd(b.size + (if prev.Some? then prev.value.size else 0), next.value.size, c);
      }
    }
    hide Aligned;
    forall x | x in t && x != m ensures x in tree && Disjoint(x, m) {
      assert x in tree && Disjoint(x, b);
      assert prev.Some? ==> Disjoint(x, prev.value);
      assert next.Some? ==> Disjoint(x, next.value);
      assert Fine(c, x);
    }
    hide Fine, Touching, Merged, Recorded, Outside, Disjoint;
    DisjointMirror();
  }

  lemma DisjointMirror()
    ensures forall e, f :: Disjoint(e, f) ==> Disjoint(f, e)
  {
  }

  lemma RecordedFree(c: nat, tree: set<Extent>, b: Extent, next: Option<Extent>, prev: Option<Extent>)
    requires c > 0 && Sound(c, tree) && Fine(c, b) && Touching(tree, b, next, prev)
    ensures Added(tree, Recorded(tree, b, next, prev), b)
  {
  }

  /** Where extents begin and end afterwards. */
  lemma RecordedEnds(c: nat, tree: set<Extent>, b: Extent, next: Option<Extent>, prev: Option<Extent>, x: nat)
    requires c > 0 && Sound(c, tree) && Fine(c, b) && Outside(tree, b) && Touching(tree, b, next, prev)
    ensures Begins(Recorded(tree, b, next, prev), x) <==>
      (Begins(tree, x) && x != b.End()) || (x == b.addr && prev == None)
    ensures Ends(Recorded(tree, b, next, prev), x) <==> (Ends(tree, x) && x != b.addr) || (x == b.End() && next == None)
  {
    OneNeighbour(c, tree, b, next, prev);
    Sizes(c, tree);
    assert b.size > 0;
    hide Sound, Fine, Touching;
    RecordedBegins(tree, b, next, prev, x);
    RecordedFinish(tree, b, next, prev, x);
  }

  lemma Sizes(c: nat, tree: set<Extent>)
    requires c > 0 && Sound(c, tree)
    ensures forall f :: f in tree ==> f.size > 0
  {
  }

  /** At most one extent touches the block on each side. */
  lemma OneNeighbour(c: nat, tree: set<Extent>, b: Extent, next: Option<Extent>, prev: Option<Extent>)
    requires c > 0 && Sound(c, tree) && Fine(c, b) && Outside(tree, b) && Touching(tree, b, next, prev)
    ensures forall f :: f in tree ==>
      (f.addr == b.End() <==> next == Some(f)) && (f.End() == b.addr <==> prev == Some(f))
    ensures Keep(tree, next) && Keep(tree, prev)
  {
    hide Aligned;
    assert forall f :: f in tree ==> Fine(c, f);
    assert forall f :: f in tree && next.Some? && f != next.value ==> Disjoint(f, next.value);
    assert forall f :: f in tree && prev.Some? && f != prev.value ==> Disjoint(f, prev.value);
  }

  predicate Keep(tree: set<Extent>, o: Option<Extent>) { o.Some? ==> o.value in tree }

  lemma RecordedBegins(tree: set<Extent>, b: Extent, next: Option<Extent>, prev: Option<Extent>, x: nat)
    requires b.size > 0 && Keep(tree, next) && Keep(tree, prev) && forall f :: f in tree ==> f.size > 0
    requires forall f :: f in tree ==>
      (f.addr == b.End() <==> next == Some(f)) && (f.End() == b.addr <==> prev == Some(f))
    ensures Begins(Recorded(tree, b, next, prev), x) <==>
      (Begins(tree, x) && x != b.End()) || (x == b.addr && prev == None)
  {
    var t, m := Recorded(tree, b, next, prev), Merged(b, next, prev);
    assert m in t && m.addr == if prev.Some? then prev.value.addr else b.addr;
    if Begins(tree, x) && x != b.End() {
      var f :| f in tree && f.addr == x;
      assert f in t || m.addr == x;
    }
    if Begins(t, x) {
      var f :| f in t && f.addr == x;
      if f == m && prev.Some? { assert prev.value in tree; }
    }
  }

  lemma RecordedFinish(tree: set<Extent>, b: Extent, next: Option<Extent>, prev: Option<Extent>, x: nat)
    requires b.size > 0 && Keep(tree, next) && Keep(tree, prev) && forall f :: f in tree ==> f.size > 0
    requires forall f :: f in tree ==>
      (f.addr == b.End() <==> next == Some(f)) && (f.End() == b.addr <==> prev == Some(f))
    ensures Ends(Recorded(tree, b, next, prev), x) <==> (Ends(tree, x) && x != b.addr) || (x == b.End() && next == None)
  {
    var t, m := Recorded(tree, b, next, prev), Merged(b, next, prev);
    assert m in t && m.End() == if next.Some? then next.value.End() else b.End();
    if Ends(tree, x) && x != b.addr {
      var f :| f in tree && f.End() == x;
      assert f in t || m.End() == x;
    }
    if Ends(t, x) {
      var f :| f in t && f.End() == x;
      if f == m && next.Some? { assert next.value in tree; }
    }
  }

  /** Recording a block changes nothing about where extents meet. */
  lemma RecordedSeams(c: nat, tree: set<Extent>, b: Extent, next: Option<Extent>, prev: Option<Extent>, x: nat)
    requires c > 0 && Sound(c, tree) && Fine(c, b) && Outside(tree, b) && Touching(tree, b, next, prev)
    ensures Seam(Recorded(tree, b, next, prev), x) <==> Seam(tree, x)
  {
    hide Recorded;
    RecordedEnds(c, tree, b, next, prev, x);
    assert !Begins(tree, b.addr) && !Ends(tree, b.End());
  }
}
