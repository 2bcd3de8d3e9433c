/** Allocated runs as their owners see them: which runs are live and what an arena step may disturb. */
module LiveRuns {
  import opened PageMap
  import opened ArenaChunk
  import opened Avail

  /** r is an allocated run of chunk x. */
  ghost predicate Live(c: Config, m: map<nat, Chunk>, x: nat, r: Run) {
    x in m && Starts(c, m[x], r.start) && m[x].own[r.start] == r && !r.kind.Free?
  }

  /** The memory of the pages of r is the same in both chunks. */
  ghost predicate SameMemory(ch: Chunk, ch': Chunk, r: Run) {
    && |ch.zero| == |ch'.zero| && |ch.touched| == |ch'.touched|
    && (forall p :: r.start <= p < r.End() && p < |ch.zero| ==> ch'.zero[p] == ch.zero[p])
    && (forall p :: r.start <= p < r.End() && p < |ch.touched| ==> ch'.touched[p] == ch.touched[p])
  }

  /** So are their map elements. */
  ghost predicate SameRun(ch: Chunk, ch': Chunk, r: Run) {
    && SameMemory(ch, ch', r) && |ch.bits| == |ch'.bits|
    && forall p :: r.start <= p < r.End() && p < |ch.bits| ==> ch'.bits[p] == ch.bits[p]
  }

  /** Every live run stays live with its pages and map elements untouched, except those that start at a place in `gone`;
      every run now live was live before, except those that start at a place in `made`. */
  ghost predicate Undisturbed(c: Config, m: map<nat, Chunk>, m': map<nat, Chunk>, gone: set<(nat, nat)>,
      made: set<(nat, nat)>) {
    && (forall x: nat, r: Run :: Live(c, m, x, r) && (x, r.start) !in gone ==>
      Live(c, m', x, r) && SameRun(m[x], m'[x], r))
    && (forall x: nat, r: Run :: Live(c, m', x, r) && (x, r.start) !in made ==>
      Live(c, m, x, r) && (x, r.start) !in gone)
  }

  lemma UndisturbedTrans(c: Config, m: map<nat, Chunk>, m1: map<nat, Chunk>, m': map<nat, Chunk>,
                         gone: set<(nat, nat)>, made: set<(nat, nat)>, gone': set<(nat, nat)>, made': set<(nat, nat)>)
    requires Undisturbed(c, m, m1, gone, made) && Undisturbed(c, m1, m', gone', made')
    ensures Undisturbed(c, m, m', gone + gone', made + made')
  {
  }

  /** One chunk changed, between two run boundaries, and only in memory of pages in [s,e). */
  lemma UndisturbedStep(c: Config, m: map<nat, Chunk>, x: nat, ch': Chunk, s: nat, e: nat,
                        gone: set<(nat, nat)>, made: set<(nat, nat)>)
    requires x in m && Shaped(c, m[x]) && Shaped(c, ch') && c.Tiled(m[x].own) && c.Tiled(ch'.own)
    requires c.bias <= s <= e && c.Boundary(m[x].own, s) && c.Boundary(m[x].own, e)
    requires SameOutside(m[x].own, ch'.own, s, e)
    requires SameOutside(m[x].zero, ch'.zero, s, e) && SameOutside(m[x].touched, ch'.touched, s, e)
    requires SameOutside(m[x].bits, ch'.bits, s, e)
    requires forall p :: s <= p < e && m[x].own[p].start == p && !m[x].own[p].kind.Free? ==> (x, p) in gone
    requires forall p :: s <= p < e && ch'.own[p].start == p && !ch'.own[p].kind.Free? ==> (x, p) in made
    requires forall p :: !(s <= p < e) ==> (x, p) !in gone && (x, p) !in made
    requires forall y, p :: y != x ==> (y, p) !in gone && (y, p) !in made
    ensures Undisturbed(c, m, m[x := ch'], gone, made)
  {
    var m' := m[x := ch'];
    forall y: nat, r: Run | Live(c, m, y, r) && (y, r.start) !in gone
      ensures Live(c, m', y, r) && SameRun(m[y], m'[y], r)
    {
      if y == x {
        RunOutside(c, m[x].own, s, e, r.start);
      }
      assert m[y].own[r.start] == r;
    }
    forall y: nat, r: Run | Live(c, m', y, r) && (y, r.start) !in made
      ensures Live(c, m, y, r) && (y, r.start) !in gone
    {
      assert m'[y].own[r.start] == r;
    }
  }

  /** A chunk without live runs came or went. */
  lemma UndisturbedChunk(c: Config, m: map<nat, Chunk>, x: nat)
    requires x in m && Shaped(c, m[x]) && c.Tiled(m[x].own) && c.Idle(m[x].own)
    ensures Undisturbed(c, m, m - {x}, {}, {}) && Undisturbed(c, m - {x}, m, {}, {})
  {
    forall r: Run ensures !Live(c, m, x, r) {
      assert c.bias <= r.start < c.npages ==> m[x].own[r.start] == m[x].own[c.bias];
    }
    forall y: nat, r: Run | Live(c, m, y, r) ensures Live(c, m - {x}, y, r) && SameRun(m[y], m[y], r) {
      assert m[y].own[r.start] == r;
    }
    forall y: nat, r: Run | Live(c, m - {x}, y, r) ensures Live(c, m, y, r) && SameRun(m[y], m[y], r) {
      assert m[y].own[r.start] == r;
    }
  }

  lemma UndisturbedThen(c: Config, m: map<nat, Chunk>, m1: map<nat, Chunk>, m': map<nat, Chunk>,
                        gone: set<(nat, nat)>, made: set<(nat, nat)>)
    requires Undisturbed(c, m, m1, gone, made) && Undisturbed(c, m1, m', {}, {})
    ensures Undisturbed(c, m, m', gone, made)
  {
    UndisturbedTrans(c, m, m1, m', gone, made, {}, {});
    assert gone + {} == gone && made + {} == made;
  }

  lemma UndisturbedSame(c: Config, m: map<nat, Chunk>)
    ensures Undisturbed(c, m, m, {}, {})
  {
  }

  /** No live run starts at the place. */
  ghost predicate Vacant(c: Config, m: map<nat, Chunk>, at: (nat, nat)) {
    forall r :: Live(c, m, at.0, r) ==> r.start != at.1
  }

  ghost function Pair(x: nat, p: nat, q: nat): set<(nat, nat)> {
    {(x, p), (x, q)}
  }
}
