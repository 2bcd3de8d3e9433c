/** The cuckoo hash table of jemalloc (ckh.c): two buckets for each key, several cells to a bucket.
    It refines a finite map, whatever the hash function and whatever the random choices. */
module CuckooHash {
  import opened Basics

  /** A cell whose key is NULL is empty. */
  datatype Cell<K, V> = Empty | Item(key: K, data: V)

  // ---------- a table of cells represents a map ----------

  ghost predicate HasKey<K, V>(cells: seq<Cell<K, V>>, i: int, k: K) {
    0 <= i < |cells| && cells[i].Item? && cells[i].key == k
  }

  ghost predicate Stored<K, V>(cells: seq<Cell<K, V>>, k: K) {
    exists i :: HasKey(cells, i, k)
  }

  ghost predicate Represents<K(!new), V>(cells: seq<Cell<K, V>>, m: map<K, V>) {
    && (forall i :: 0 <= i < |cells| && cells[i].Item? ==> cells[i].key in m && m[cells[i].key] == cells[i].data)
    && (forall i, j :: 0 <= i < j < |cells| && cells[i].Item? && cells[j].Item? ==> cells[i].key != cells[j].key)
    && (forall k :: k in m ==> Stored(cells, k))
  }

  lemma PutCell<K(!new), V>(cells: seq<Cell<K, V>>, m: map<K, V>, j: nat, k: K, v: V)
    requires Represents(cells, m) && j < |cells| && cells[j].Empty? && k !in m
    ensures Represents(cells[j := Item(k, v)], m[k := v])
  {
    var cells' := cells[j := Item(k, v)];
    forall x | x in m[k := v] ensures Stored(cells', x) {
      if x == k {
        assert HasKey(cells', j, k);
      } else {
        var i :| HasKey(cells, i, x);
        assert HasKey(cells', i, x);
      }
    }
  }

  /** Evicting: the cell takes the item in hand, and its old item is in hand instead. */
  lemma SwapCell<K(!new), V>(cells: seq<Cell<K, V>>, all: map<K, V>, j: nat, k: K)
    requires k in all && Represents(cells, all - {k}) && j < |cells| && cells[j].Item?
    ensures cells[j].key in all && all[cells[j].key] == cells[j].data
    ensures Represents(cells[j := Item(k, all[k])], all - {cells[j].key})
  {
    var cells', m := cells[j := Item(k, all[k])], all - {k};
    assert cells[j].key in m;
    forall x | x in all - {cells[j].key} ensures Stored(cells', x) {
      if x == k {
        assert HasKey(cells', j, k);
      } else {
        assert x in m;
        var i :| HasKey(cells, i, x);
        assert HasKey(cells', i, x);
      }
    }
  }

  lemma ClearCell<K(!new), V>(cells: seq<Cell<K, V>>, m: map<K, V>, j: nat)
    requires Represents(cells, m) && j < |cells| && cells[j].Item?
    ensures Represents(cells[j := Empty], m - {cells[j].key})
  {
    var cells' := cells[j := Empty];
    forall x | x in m - {cells[j].key} ensures Stored(cells', x) {
      var i :| HasKey(cells, i, x);
      assert HasKey(cells', i, x);
    }
  }

  /** The number of occupied cells. */
  function Occupied<K, V>(cells: seq<Cell<K, V>>): nat {
    if cells == [] then 0 else Occupied(cells[..|cells| - 1]) + if cells[|cells| - 1].Item? then 1 else 0
  }

  lemma {:induction false} OccupiedIsSize<K(!new), V>(cells: seq<Cell<K, V>>, m: map<K, V>)
    requires Represents(cells, m)
    ensures Occupied(cells) == |m|
  {
    if cells == [] {
      assert forall k :: !Stored(cells, k);
      assert m.Keys == {};
    } else {
      var n := |cells| - 1;
      if cells[n].Item? {
        ClearCell(cells, m, n);
        ShorterRepresents(cells[n := Empty], m - {cells[n].key});
        assert cells[n := Empty][..n] == cells[..n];
        OccupiedIsSize(cells[..n], m - {cells[n].key});
      } else {
        ShorterRepresents(cells, m);
        OccupiedIsSize(cells[..n], m);
      }
    }
  }

  lemma ShorterRepresents<K(!new), V>(cells: seq<Cell<K, V>>, m: map<K, V>)
    requires Represents(cells, m) && |cells| > 0 && cells[|cells| - 1].Empty?
    ensures Represents(cells[..|cells| - 1], m)
  {
    forall x | x in m ensures Stored(cells[..|cells| - 1], x) {
      var i :| HasKey(cells, i, x);
      assert HasKey(cells[..|cells| - 1], i, x);
    }
  }

  /** The map is determined by the cells. */
  lemma RepresentsOne<K(!new), V>(cells: seq<Cell<K, V>>, m: map<K, V>, m': map<K, V>)
    requires Represents(cells, m) && Represents(cells, m')
    ensures m == m'
  {
    forall k | k in m ensures k in m' && m'[k] == m[k] {
      var i :| HasKey(cells, i, k);
    }
    forall k | k in m' ensures k in m {
      var i :| HasKey(cells, i, k);
    }
  }

  // ---------- buckets ----------

  ghost predicate InBucket(j: int, b: nat, per: nat) { b * per <= j < b * per + per }

  /** The bucket of cell j, with `per` cells to a bucket. */
  function Bucket(j: nat, per: nat): nat
    requires per > 0
  {
    j / per
  }

  lemma CellOfBucket(b: nat, i: nat, per: nat, buckets: nat)
    requires i < per && b < buckets
    ensures 0 <= b * per + i < buckets * per && Bucket(b * per + i, per) == b
  {
    assert b * per + per == (b + 1) * per;
    MulLe(b + 1, buckets, per);
    DivExact(b, i, per);
  }

  lemma MulLe(a: nat, b: nat, c: nat)
    requires a <= b
    ensures a * c <= b * c
  {
    assert b * c == a * c + (b - a) * c;
  }

  lemma MulCancel(a: nat, b: nat, c: nat)
    requires a * c < b * c
    ensures a < b
  {
    if b <= a { MulLe(b, a, c); }
  }

  lemma DivExact(b: nat, i: nat, per: nat)
    requires i < per
    ensures (b * per + i) / per == b
  {
    var q := (b * per + i) / per;
    assert per * q <= b * per + i < per * q + per;
    MulCancel(q, b + 1, per);
    MulCancel(b, q + 1, per);
  }

  lemma BucketOfCell(j: nat, per: nat, buckets: nat)
    requires per > 0 && j < buckets * per
    ensures Bucket(j, per) < buckets && InBucket(j, Bucket(j, per), per)
  {
    var b := j / per;
    assert j == per * b + j % per;
    MulCancel(b, buckets, per);
  }

  /** Items are only in one of their two buckets. `hash` is any function; it may depend on the table size. */
  ghost predicate InPlace<K(!new), V>(cells: seq<Cell<K, V>>, per: nat, lg: nat, hash: (K, nat) -> (nat, nat))
    requires per > 0
  {
    forall j :: 0 <= j < |cells| && cells[j].Item? ==> Candidate(hash, lg, cells[j].key, Bucket(j, per))
  }

  function Primary<K>(hash: (K, nat) -> (nat, nat), lg: nat, k: K): (b: nat)
    ensures b < Pow2(lg)
  {
    hash(k, lg).0 % Pow2(lg)
  }

  function Secondary<K>(hash: (K, nat) -> (nat, nat), lg: nat, k: K): (b: nat)
    ensures b < Pow2(lg)
  {
    hash(k, lg).1 % Pow2(lg)
  }

  predicate Candidate<K>(hash: (K, nat) -> (nat, nat), lg: nat, k: K, b: nat) {
    b == Primary(hash, lg, k) || b == Secondary(hash, lg, k)
  }

  ghost predicate TableOK<K(!new), V>(cells: seq<Cell<K, V>>, per: nat, lg: nat, hash: (K, nat) -> (nat, nat),
      m: map<K, V>) {
    per > 0 && |cells| == Pow2(lg) * per && InPlace(cells, per, lg, hash) && Represents(cells, m)
  }

  lemma TablePut<K(!new), V>(cells: seq<Cell<K, V>>, per: nat, lg: nat, hash: (K, nat) -> (nat, nat), m: map<K, V>,
                             b: nat, i: nat, k: K, v: V)
    requires TableOK(cells, per, lg, hash, m) && Candidate(hash, lg, k, b) && b < Pow2(lg) && i < per && k !in m
    ensures var j := b * per + i;
      j < |cells| && (cells[j].Empty? ==> TableOK(cells[j := Item(k, v)], per, lg, hash, m[k := v]))
  {
    CellOfBucket(b, i, per, Pow2(lg));
    var j := b * per + i;
    if cells[j].Empty? { PutCell(cells, m, j, k, v); }
    hide Represents, Bucket, Pow2;
  }

  lemma TableSwap<K(!new), V>(cells: seq<Cell<K, V>>, per: nat, lg: nat, hash: (K, nat) -> (nat, nat), m: map<K, V>,
                              b: nat, i: nat, k: K, v: V)
    requires TableOK(cells, per, lg, hash, m) && Candidate(hash, lg, k, b) && b < Pow2(lg) && i < per && k !in m
    ensures var j := b * per + i; j < |cells| && (cells[j].Item? ==>
      && cells[j].key in m && m[cells[j].key] == cells[j].data && Candidate(hash, lg, cells[j].key, b)
      && TableOK(cells[j := Item(k, v)], per, lg, hash, (m - {cells[j].key})[k := v])
      && cells[j].key !in (m - {cells[j].key})[k := v]
      && (m - {cells[j].key})[k := v][cells[j].key := cells[j].data] == m[k := v])
  {
    CellOfBucket(b, i, per, Pow2(lg));
    var j := b * per + i;
    if cells[j].Item? {
      var all := m[k := v];
      assert all - {k} == m;
      SwapCell(cells, all, j, k);
      assert all - {cells[j].key} == (m - {cells[j].key})[k := v];
      assert (m - {cells[j].key})[k := v][cells[j].key := cells[j].data] == all;
    }
    hide Represents, Bucket, Pow2;
  }

  lemma {:induction false} EmptyTable<K(!new), V>(cells: seq<Cell<K, V>>, per: nat, lg: nat,
      hash: (K, nat) -> (nat, nat))
    requires per > 0 && |cells| == Pow2(lg) * per && forall j :: 0 <= j < |cells| ==> cells[j].Empty?
    ensures TableOK(cells, per, lg, hash, map[])
  {
  }

  /** The cells of a bucket. */
  ghost predicate Full<K, V>(cells: seq<Cell<K, V>>, per: nat, b: nat) {
    b * per + per <= |cells| && forall j :: b * per <= j < b * per + per ==> cells[j].Item?
  }

  ghost predicate NotIn<K, V>(cells: seq<Cell<K, V>>, per: nat, b: nat, n: nat, k: K) {
    b * per + n <= |cells| && forall j :: b * per <= j < b * per + n ==> !HasKey(cells, j, k)
  }

  lemma WhereStored<K(!new), V>(cells: seq<Cell<K, V>>, per: nat, lg: nat, hash: (K, nat) -> (nat, nat), m: map<K, V>,
      k: K)
    requires TableOK(cells, per, lg, hash, m) && k in m
    ensures exists b: nat, j :: Candidate(hash, lg, k, b) && InBucket(j, b, per) && HasKey(cells, j, k)
  {
    assert Stored(cells, k);
    var j :| HasKey(cells, j, k);
    assert j < Pow2(lg) * per && Candidate(hash, lg, k, Bucket(j, per));
    hide *;
    BucketOfCell(j, per, Pow2(lg));
  }

  /** A key that is in neither of its buckets is not in the map. */
  lemma NotStored<K(!new), V>(cells: seq<Cell<K, V>>, per: nat, lg: nat, hash: (K, nat) -> (nat, nat), m: map<K, V>,
      k: K)
    requires TableOK(cells, per, lg, hash, m)
    requires NotIn(cells, per, Primary(hash, lg, k), per, k) && NotIn(cells, per, Secondary(hash, lg, k), per, k)
    ensures k !in m
  {
    hide TableOK, HasKey;
    if k in m { WhereStored(cells, per, lg, hash, m, k); }
  }

  // ---------- copying a table item by item ----------

  lemma PrefixNext<K(!new), V>(cells: seq<Cell<K, V>>, all: map<K, V>, m: map<K, V>, i: nat)
    requires Represents(cells, all) && i < |cells| && Represents(cells[..i], m)
    ensures cells[i].Empty? ==> Represents(cells[..i + 1], m)
    ensures cells[i].Item? ==> cells[i].key !in m && Represents(cells[..i + 1], m[cells[i].key := cells[i].data])
  {
    var next := if cells[i].Item? then m[cells[i].key := cells[i].data] else m;
    forall k | k in m ensures cells[i].Item? ==> cells[i].key != k {
      assert Stored(cells[..i], k);
      var j :| HasKey(cells[..i], j, k);
      assert cells[j] == cells[..i][j];
    }
    assert forall j :: 0 <= j < i ==> cells[..i + 1][j] == cells[..i][j];
    forall x | x in next ensures Stored(cells[..i + 1], x) {
      if x in m {
        assert Stored(cells[..i], x);
        var j :| HasKey(cells[..i], j, x);
        assert HasKey(cells[..i + 1], j, x);
      } else {
        assert HasKey(cells[..i + 1], i, x);
      }
    }
  }

  /** A map represented by part of the cells that is as large as the whole is the whole. */
  lemma PrefixAll<K(!new), V>(cells: seq<Cell<K, V>>, all: map<K, V>, m: map<K, V>, i: nat)
    requires Represents(cells, all) && i <= |cells| && Represents(cells[..i], m)
    ensures |m| <= |all| && (|m| == |all| ==> m == all)
    ensures i == |cells| ==> m == all
  {
    forall k | k in m ensures k in all && all[k] == m[k] {
      assert Stored(cells[..i], k);
      var j :| HasKey(cells[..i], j, k);
      assert cells[j] == cells[..i][j];
    }
    assert m.Keys <= all.Keys;
    SubsetSize(m.Keys, all.Keys);
    if i == |cells| {
      assert cells[..i] == cells;
      RepresentsOne(cells, all, m);
    }
  }

  lemma {:induction false} SubsetSize<T>(a: set<T>, b: set<T>)
    requires a <= b
    ensures |a| <= |b| && (|a| == |b| ==> a == b)
    decreases a
  {
    if a != {} {
      var x :| x in a;
      SubsetSize(a - {x}, b - {x});
    }
  }

  /** With 2^lg cells, minitems items fill at most three quarters of them. */
  predicate Roomy(minitems: nat, lg: nat) { 4 * minitems <= 3 * Pow2(lg) }

  /** The items would fill exactly three quarters of a table of at least one bucket, or it is one item for two cells. */
  ghost predicate Snug(minitems: nat, lgPer: nat) {
    (exists j: nat :: minitems == 3 * Pow2(j) && j + 2 >= lgPer) || (minitems == 1 && lgPer == 1)
  }

  /** The bound on the cells that ckh_new computes. */
  function MinCells(minitems: nat): nat { (minitems + (3 - minitems % 3)) / 3 * 4 }

  /** The sizing loop of ckh_new. The table is the smallest one that is roomy exactly if the items are not snug in one;
      then it is twice as large as that. */
  method InitialCells(minitems: nat, lgPer: nat) returns (lg: nat)
    requires minitems > 0 && lgPer > 0
    ensures lgPer <= lg && Roomy(minitems, lg)
    ensures (forall l :: lgPer <= l < lg ==> !Roomy(minitems, l)) <==> !Snug(minitems, lgPer)
    ensures Snug(minitems, lgPer) ==>
      lgPer < lg && Roomy(minitems, lg - 1) && forall l :: lgPer <= l < lg - 1 ==> !Roomy(minitems, l)
  {
    var mincells := (minitems + (3 - minitems % 3)) / 3 * 4;
    lg := lgPer;
    Pow2Above(lgPer, mincells);
    while Pow2(lg) < mincells
      invariant lgPer <= lg <= lgPer + mincells
      invariant forall l :: lgPer <= l < lg ==> Pow2(l) < mincells
      decreases lgPer + mincells - lg
    {
      Pow2Above(lg, lgPer + mincells - lg);
      lg := lg + 1;
    }
    Sized(minitems, lgPer, lg);
  }

  /** A table is roomy but below the bound exactly if the items are snug in it. */
  lemma BoundGap(minitems: nat, l: nat)
    requires minitems > 0 && l > 0
    ensures Pow2(l) >= MinCells(minitems) ==> Roomy(minitems, l)
    ensures Roomy(minitems, l) && Pow2(l) < MinCells(minitems) <==>
      (l >= 2 && minitems == 3 * Pow2(l - 2)) || (minitems == 1 && l == 1)
  {
    assert MinCells(minitems) == 4 * (minitems / 3 + 1);
    if l >= 2 {
      assert Pow2(l) == 2 * Pow2(l - 1) == 4 * Pow2(l - 2);
    } else {
      assert Pow2(1) == 2 * Pow2(0) == 2;
    }
  }

  lemma {:induction false} Pow2Grows(a: nat, b: nat)
    requires a < b
    ensures 2 * Pow2(a) <= Pow2(b)
    decreases b
  {
    if a + 1 < b { Pow2Grows(a, b - 1); }
  }

  lemma Sized(minitems: nat, lgPer: nat, lg: nat)
    requires minitems > 0 && 0 < lgPer <= lg && Pow2(lg) >= MinCells(minitems)
    requires forall l :: lgPer <= l < lg ==> Pow2(l) < MinCells(minitems)
    ensures Roomy(minitems, lg)
    ensures (forall l :: lgPer <= l < lg ==> !Roomy(minitems, l)) <==> !Snug(minitems, lgPer)
    ensures Snug(minitems, lgPer) ==>
      lgPer < lg && Roomy(minitems, lg - 1) && forall l :: lgPer <= l < lg - 1 ==> !Roomy(minitems, l)
  {
    BoundGap(minitems, lg);
    if Snug(minitems, lgPer) {
      var s: nat :| s >= lgPer && Roomy(minitems, s) && Pow2(s) < MinCells(minitems) by { SnugAt(minitems, lgPer); }
      OnlyGap(minitems, lgPer, lg, s);
    } else {
      forall l | lgPer <= l < lg ensures !Roomy(minitems, l) {
        BoundGap(minitems, l);
        assert l >= 2 && minitems == 3 * Pow2(l - 2) ==> (l - 2) + 2 >= lgPer;
      }
    }
  }

  lemma SnugAt(minitems: nat, lgPer: nat)
    requires minitems > 0 && lgPer > 0 && Snug(minitems, lgPer)
    ensures exists s: nat :: s >= lgPer && Roomy(minitems, s) && Pow2(s) < MinCells(minitems)
  {
    if minitems == 1 && lgPer == 1 {
      BoundGap(1, 1);
    } else {
      var j: nat :| minitems == 3 * Pow2(j) && j + 2 >= lgPer;
      BoundGap(minitems, j + 2);
    }
  }

  /** There is only one such table, the one before the first that reaches the bound. */
  lemma OnlyGap(minitems: nat, lgPer: nat, lg: nat, s: nat)
    requires minitems > 0 && 0 < lgPer <= lg && Pow2(lg) >= MinCells(minitems)
    requires forall l :: lgPer <= l < lg ==> Pow2(l) < MinCells(minitems)
    requires s >= lgPer && Roomy(minitems, s) && Pow2(s) < MinCells(minitems)
    ensures lg == s + 1 && forall l :: lgPer <= l < s ==> !Roomy(minitems, l)
  {
    BoundGap(minitems, s);
    if s > lg { Pow2Grows(lg, s); }
    if s + 1 < lg {
      BoundGap(minitems, s + 1);
      Pow2Grows(s, s + 1);
    }
    forall l | lgPer <= l < s ensures !Roomy(minitems, l) {
      BoundGap(minitems, l);
      if l >= 2 { Pow2Grows(l - 2, s - 2); }
      Pow2Grows(l, s);
    }
  }

  /** Three items do not get the table of four cells, although they fill just three quarters of it. */
  lemma ThreeItems()
    ensures Snug(3, 2) && Roomy(3, 2) && Pow2(2) < MinCells(3)
  {
    assert Pow2(0) == 1 && Pow2(1) == 2 && Pow2(2) == 4 && 3 == 3 * Pow2(0);
  }

  lemma {:induction false} Pow2Above(lg: nat, n: nat)
    ensures Pow2(lg + n) >= n
    ensures Pow2(lg + n) >= Pow2(lg)
  {
    if n > 0 { Pow2Above(lg, n - 1); }
  }

  /** How an attempt to insert ended. Termination of the eviction loop rests on the random choices; a run that
      has not ended within the given number of evictions reports OutOfSteps. */
  datatype Tried = Placed | Cycle | OutOfSteps

  datatype Outcome = Done | NoMemory | Unfinished

  class Ckh<K(==, !new), V> {
    /** Cells to a bucket, 1 << LG_CKH_BUCKET_CELLS */
    const per: nat
    const hash: (K, nat) -> (nat, nat)
    const lgMin: nat
    /** Tables of more than 2^lgMax buckets have a size that overflows. */
    const lgMax: nat

    var tab: array<Cell<K, V>>
    var count: nat
    var lgCur: nat
    /** The map the table stands for. */
    ghost var M: map<K, V>
    /** How many tables it has asked the system for since it was made. */
    ghost var asked: nat

    ghost predicate Valid()
      reads this, tab
    {
      TableOK(tab[..], per, lgCur, hash, M) && count == |M| && lgMin <= lgCur
    }

    lemma CountIsOccupied()
      requires Valid()
      ensures count == Occupied(tab[..])
    {
      OccupiedIsSize(tab[..], M);
    }

    /** ckh_bucket_search */
    method BucketSearch(bucket: nat, key: K) returns (cell: Option<nat>)
      requires Valid() && bucket < Pow2(lgCur)
      ensures cell.Some? ==> HasKey(tab[..], cell.value, key)
      ensures cell.None? ==> NotIn(tab[..], per, bucket, per, key)
    {
      BucketInside(bucket);
      hide TableOK;
      for i := 0 to per
        invariant NotIn(tab[..], per, bucket, i, key)
      {
        var c := tab[bucket * per + i];
        if c.Item? && c.key == key { return Some(bucket * per + i); }
      }
      cell := None;
    }

    lemma BucketInside(bucket: nat)
      requires Valid() && bucket < Pow2(lgCur)
      ensures per > 0 && bucket * per + per <= tab.Length
    {
      hide Pow2, InPlace, Represents;
      CellOfBucket(bucket, per - 1, per, Pow2(lgCur));
    }

    /** ckh_isearch */
    method ISearch(key: K) returns (cell: Option<nat>)
      requires Valid()
      ensures cell.Some? <==> key in M
      ensures cell.Some? ==> HasKey(tab[..], cell.value, key) && tab[cell.value] == Item(key, M[key])
    {
      cell := BucketSearch(Primary(hash, lgCur, key), key);
      if cell.None? {
        cell := BucketSearch(Secondary(hash, lgCur, key), key);
        if cell.None? { NotStored(tab[..], per, lgCur, hash, M, key); }
      }
    }

    /** ckh_search */
    method Search(key: K) returns (r: Option<V>)
      requires Valid()
      ensures r == if key in M then Some(M[key]) else None
    {
      var cell := ISearch(key);
      if cell.None? { return None; }
      r := Some(tab[cell.value].data);
    }

    /** Put an item in an empty cell. */
    method Fill(bucket: nat, o: nat, key: K, data: V)
      requires Valid() && key !in M && Candidate(hash, lgCur, key, bucket) && bucket < Pow2(lgCur) && o < per
      requires bucket * per + o < tab.Length ==> tab[bucket * per + o].Empty?
      modifies this`count, this`M, tab
      ensures Valid() && M == old(M)[key := data]
    {
      TablePut(tab[..], per, lgCur, hash, M, bucket, o, key, data);
      hide TableOK, Pow2, Candidate;
      ghost var cells := tab[..];
      var j := bucket * per + o;
      tab[j] := Item(key, data);
      assert tab[..] == cells[j := Item(key, data)];
      count := count + 1;
      M := M[key := data];
    }

    /** Put an item in an occupied cell and take out the item that was there. */
    method Evict(bucket: nat, o: nat, key: K, data: V) returns (k: K, d: V)
      requires Valid() && key !in M && Candidate(hash, lgCur, key, bucket) && bucket < Pow2(lgCur) && o < per
      requires Full(tab[..], per, bucket)
      modifies this`M, tab
      ensures Valid() && k !in M && M[k := d] == old(M)[key := data] && Candidate(hash, lgCur, k, bucket)
    {
      FullCells(tab[..], per, bucket);
      TableSwap(tab[..], per, lgCur, hash, M, bucket, o, key, data);
      hide TableOK, Pow2, Candidate, Full;
      ghost var cells := tab[..];
      var j := bucket * per + o;
      k, d := tab[j].key, tab[j].data;
      SwapSize(M, k, key, data);
      tab[j] := Item(key, data);
      assert tab[..] == cells[j := Item(key, data)];
      M := (M - {k})[key := data];
    }

    /** ckh_try_bucket_insert: true when the bucket is full. The scan starts at a random cell. */
    method TryBucketInsert(bucket: nat, key: K, data: V) returns (full: bool)
      requires Valid() && key !in M && Candidate(hash, lgCur, key, bucket) && bucket < Pow2(lgCur)
      modifies this`count, this`M, tab
      ensures Valid() && tab == old(tab)
      ensures !full ==> M == old(M)[key := data]
      ensures full ==> M == old(M) && tab[..] == old(tab[..])
      ensures full <==> Full(old(tab[..]), per, bucket)
    {
      BucketInside(bucket);
      hide TableOK, Pow2, Candidate, Full;
      var base := bucket * per;
      var offset :| 0 <= offset < per;
      for i := 0 to per
        invariant tab[..] == old(tab[..]) && M == old(M) && count == old(count)
        invariant Scanned(tab[..], base, per, offset, i)
      {
        var o := Wrap(i + offset, per);
        if tab[base + o].Empty? {
          NotFull(tab[..], per, bucket, o);
          Fill(bucket, o, key, data);
          return false;
        }
        ScannedMore(tab[..], base, per, offset, i);
      }
      ScannedAll(tab[..], per, bucket, offset);
      full := true;
    }

    /** The other bucket of a key, which is the same if both hashes lead to it (ckh.c:157-178). */
    method Alternate(key: K, bucket: nat) returns (t: nat)
      ensures Candidate(hash, lgCur, key, t) && t < Pow2(lgCur)
      ensures t == bucket ==> forall b: nat :: Candidate(hash, lgCur, key, b) ==> b == bucket
    {
      t := Secondary(hash, lgCur, key);
      if t == bucket { t := Primary(hash, lgCur, key); }
      CandidateIs(hash, lgCur, key, t);
    }

    /** ckh_evict_reloc_insert. The item in hand is swapped with a random one of the full bucket, over and over.
        Nothing is ever lost: the table and the item in hand together are the old table and the new item. */
    method EvictRelocInsert(argbucket: nat, argkey: K, argdata: V, steps: nat) returns (t: Tried, key: K, data: V)
      requires Valid() && argkey !in M && argbucket < Pow2(lgCur) && Candidate(hash, lgCur, argkey, argbucket)
      requires Full(tab[..], per, argbucket)
      modifies this`count, this`M, tab
      ensures Valid() && tab == old(tab)
      ensures t == Placed ==> M == old(M)[argkey := argdata]
      ensures t != Placed ==> key !in M && M[key := data] == old(M)[argkey := argdata]
      // it gives up only where the other bucket of the item in hand is the first one
      ensures t == Cycle ==> Candidate(hash, lgCur, key, argbucket)
    {
      hide TableOK, Pow2, Candidate;
      key, data := argkey, argdata;
      var bucket: nat, n: nat := argbucket, steps;
      while n > 0
        invariant Valid() && bucket < Pow2(lgCur) && Candidate(hash, lgCur, key, bucket)
        invariant key !in M && M[key := data] == old(M)[argkey := argdata]
        invariant Full(tab[..], per, bucket)
        decreases n
      {
        n := n - 1;
        BucketInside(bucket);
        var i :| 0 <= i < per;
        key, data := Evict(bucket, i, key, data);
        var tbucket := Alternate(key, bucket);
        if tbucket == argbucket { return Cycle, key, data; }
        bucket := tbucket;
        var full := TryBucketInsert(bucket, key, data);
        if !full { return Placed, key, data; }
      }
      t := OutOfSteps;
    }

    /** Both buckets of the key are full. */
    ghost predicate BothFull(k: K)
      reads this`tab, this`lgCur, tab
    {
      Full(tab[..], per, Primary(hash, lgCur, k)) && Full(tab[..], per, Secondary(hash, lgCur, k))
    }

    /** ckh_try_insert */
    method TryInsert(argkey: K, argdata: V, steps: nat) returns (t: Tried, key: K, data: V)
      requires Valid() && argkey !in M
      modifies this`count, this`M, tab
      ensures Valid() && tab == old(tab)
      // items are displaced only if both buckets of the key are full
      ensures !old(BothFull(argkey)) ==> t == Placed
      ensures t == Placed ==> M == old(M)[argkey := argdata]
      ensures t != Placed ==> key !in M && M[key := data] == old(M)[argkey := argdata]
    {
      hide TableOK, Pow2, Candidate, Full;
      var bucket := Primary(hash, lgCur, argkey);
      CandidateIs(hash, lgCur, argkey, bucket);
      var full := TryBucketInsert(bucket, argkey, argdata);
      if !full { return Placed, argkey, argdata; }
      bucket := Secondary(hash, lgCur, argkey);
      CandidateIs(hash, lgCur, argkey, bucket);
      full := TryBucketInsert(bucket, argkey, argdata);
      if !full { return Placed, argkey, argdata; }
      t, key, data := EvictRelocInsert(bucket, argkey, argdata, steps);
    }

    /** ckh_rebuild: insert every item of the old table into the (empty) new one. */
    method Rebuild(aTab: array<Cell<K, V>>, ghost all: map<K, V>, steps: nat) returns (t: Tried)
      requires aTab != tab && Represents(aTab[..], all) && count == |all|
      requires lgMin <= lgCur && TableOK(tab[..], per, lgCur, hash, map[])
      modifies this`count, this`M, tab
      ensures tab == old(tab) && aTab[..] == old(aTab[..])
      ensures t == Placed ==> Valid() && M == all
      ensures t != OutOfSteps ==> count == |all|
    {
      hide TableOK, Represents;
      var total := count;
      count, M := 0, map[];
      EmptyPrefix(aTab[..]);
      var i, nins := 0, 0;
      while nins < total
        invariant Valid() && i <= aTab.Length && nins == count && total == |all|
        invariant aTab[..] == old(aTab[..]) && Represents(aTab[..], all) && Represents(aTab[..i], M)
        decreases aTab.Length - i
      {
        PrefixAll(aTab[..], all, M, i);
        assert i < aTab.Length;
        PrefixNext(aTab[..], all, M, i);
        assert aTab[..][..i] == aTab[..i] && aTab[..][..i + 1] == aTab[..i + 1];
        if aTab[i].Item? {
          var key, data := aTab[i].key, aTab[i].data;
          var k, d;
          t, k, d := TryInsert(key, data, steps);
          if t != Placed {
            count := total;
            return;
          }
          nins := nins + 1;
        }
        i := i + 1;
      }
      PrefixAll(aTab[..], all, M, i);
      assert aTab[..][..i] == aTab[..i];
      t := Placed;
    }

    /** A zeroed table of 2^lg buckets, if the system has the memory. */
    method NewTable(lg: nat) returns (ok: bool, t: array<Cell<K, V>>)
      requires per > 0
      modifies this`asked
      ensures fresh(t) && (ok ==> TableOK(t[..], per, lg, hash, map[])) && asked == old(asked) + 1
    {
      asked := asked + 1;
      ok := *;
      t := new Cell<K, V>[if ok then Pow2(lg) * per else 0](_ => Empty);
      if ok { EmptyTable(t[..], per, lg, hash); }
    }

    /** ckh_grow: double the table until everything fits, or memory runs out. */
    method Grow(steps: nat) returns (r: Outcome)
      requires Valid()
      modifies this, tab
      ensures r != Unfinished ==> Valid() && M == old(M)
      // every size has been tried before the next
      ensures r == Done ==> old(lgCur) < lgCur <= lgMax && lgCur - old(lgCur) == asked - old(asked)
      ensures tab == old(tab) || fresh(tab)
      ensures r == NoMemory ==> tab == old(tab) && lgCur == old(lgCur)
    {
      hide TableOK, Represents;
      TableIs();
      var lgPrev, old_tab := lgCur, tab;
      ghost var all := M;
      var lg := lgCur;
      while true
        invariant Valid() && M == all && lgCur == lgPrev && tab == old_tab && lgPrev <= lg && Represents(tab[..], all)
        invariant lg - lgPrev == asked - old(asked)
        decreases lgMax + 1 - lg
      {
        lg := lg + 1;
        if lg > lgMax { return NoMemory; }
        var ok, t := NewTable(lg);
        if !ok { return NoMemory; }
        tab, lgCur := t, lg;
        var done := Rebuild(old_tab, all, steps);
        if done == OutOfSteps { return Unfinished; }
        if done == Placed { return Done; }
        // rebuilding failed: back out
        tab, lgCur, M := old_tab, lgPrev, all;
      }
    }

    lemma TableIs()
      requires Valid()
      ensures per > 0 && Represents(tab[..], M)
    {
    }

    /** ckh_shrink: halve the table if everything still fits; errors do not matter. */
    method Shrink(steps: nat) returns (r: Outcome)
      requires Valid() && lgMin < lgCur
      modifies this, tab
      ensures r != Unfinished ==> Valid() && M == old(M)
      ensures tab == old(tab) || fresh(tab)
      ensures r != Unfinished ==> if tab == old(tab) then lgCur == old(lgCur) else lgCur == old(lgCur) - 1
      ensures asked == old(asked) + 1
    {
      hide TableOK, Represents;
      TableIs();
      var lgPrev, old_tab := lgCur, tab;
      ghost var all := M;
      var ok, t := NewTable(lgCur - 1);
      if !ok { return NoMemory; }
      tab, lgCur := t, lgCur - 1;
      var done := Rebuild(old_tab, all, steps);
      if done == OutOfSteps { return Unfinished; }
      if done == Placed { return Done; }
      tab, lgCur, M := old_tab, lgPrev, all;
      r := Done;
    }

    /** ckh_insert. When memory runs out the table lacks exactly one item, `lost`: the new one, or one it displaced. */
    method Insert(argkey: K, argdata: V, steps: nat) returns (r: Outcome, lost: (K, V))
      requires Valid() && argkey !in M
      modifies this, tab
      ensures r != Unfinished ==> Valid()
      ensures r == Done ==> M == old(M)[argkey := argdata]
      ensures r == NoMemory ==> lost.0 !in M && M[lost.0 := lost.1] == old(M)[argkey := argdata]
      // the table grows only if both buckets of the key are full
      ensures !old(BothFull(argkey)) ==> r == Done && tab == old(tab)
      ensures r == Done ==> lgCur - old(lgCur) == asked - old(asked) >= 0
      ensures r != Unfinished ==> lgCur >= old(lgCur)
    {
      hide TableOK;
      lost := (argkey, argdata);
      ghost var all := M[argkey := argdata];
      while true
        invariant Valid() && (tab == old(tab) || fresh(tab))
        invariant lost.0 !in M && M[lost.0 := lost.1] == all
        invariant lgCur >= old(lgCur) && lgCur - old(lgCur) == asked - old(asked)
        invariant !old(BothFull(argkey)) ==>
          lost == (argkey, argdata) && tab == old(tab) && tab[..] == old(tab[..]) && lgCur == old(lgCur)
        decreases lgMax + 1 - lgCur
      {
        var t, key, data := TryInsert(lost.0, lost.1, steps);
        if t == Placed { return Done, lost; }
        if t == OutOfSteps { return Unfinished, lost; }
        lost := (key, data);
        var g := Grow(steps);
        if g != Done { return g, lost; }
      }
    }

    /** ckh_remove */
    method Remove(searchkey: K, steps: nat) returns (r: Option<(K, V)>, shrunk: Outcome)
      requires Valid()
      modifies this, tab
      ensures r == if searchkey in old(M) then Some((searchkey, old(M)[searchkey])) else None
      ensures shrunk != Unfinished ==> Valid() && M == old(M) - {searchkey}
      ensures searchkey !in old(M) ==> shrunk == Done && tab == old(tab) && tab[..] == old(tab[..])
      // a table of half the size is tried exactly if less than a quarter of the cells are left occupied, and not below
      // the first size
      ensures asked == old(asked) +
        if searchkey in old(M) && 4 * (|old(M)| - 1) < old(Pow2(lgCur)) * per && old(lgCur) > lgMin then 1 else 0
      ensures shrunk != Unfinished && tab != old(tab) ==>
        && lgCur == old(lgCur) - 1 >= lgMin
        && 4 * |M| < old(Pow2(lgCur)) * per
    {
      var cell := ISearch(searchkey);
      if cell.None? {
        assert M == M - {searchkey};
        return None, Done;
      }
      var j := cell.value;
      r := Some((tab[j].key, tab[j].data));
      TableClear(tab[..], per, lgCur, hash, M, j);
      hide TableOK, HasKey, Pow2;
      ghost var cells := tab[..];
      tab[j] := Empty;
      assert tab[..] == cells[j := Empty];
      RemoveSize(M, searchkey);
      M := M - {searchkey};
      count := count - 1;
      shrunk := Done;
      if 4 * count < Pow2(lgCur) * per && lgCur > lgMin {
        shrunk := Shrink(steps);
      }
    }

    /** ckh_new, once the number of cells is known */
    constructor (per: nat, hash: (K, nat) -> (nat, nat), lgMin: nat, lgMax: nat)
      requires per > 0
      ensures Valid() && M == map[] && fresh(tab)
      ensures this.per == per && this.hash == hash && this.lgMin == lgMin && this.lgMax == lgMax
    {
      this.per, this.hash, this.lgMin, this.lgMax := per, hash, lgMin, lgMax;
      tab := new Cell<K, V>[Pow2(lgMin) * per](_ => Empty);
      count, lgCur, M, asked := 0, lgMin, map[], 0;
      new;
      EmptyTable(tab[..], per, lgMin, hash);
    }
  }

  /** x & (per - 1) for x < 2 * per */
  function Wrap(x: nat, per: nat): (o: nat)
    requires x < 2 * per
    ensures o < per
  {
    if x < per then x else x - per
  }

  /** The first n cells of the bucket at `base`, counted from `offset` around, are occupied. */
  ghost predicate Scanned<K, V>(cells: seq<Cell<K, V>>, base: nat, per: nat, offset: nat, n: nat) {
    && base + per <= |cells| && offset < per && n <= per
    && forall j :: base <= j < base + per && Within(j - base, per, offset, n) ==> cells[j].Item?
  }

  predicate Within(o: nat, per: nat, offset: nat, n: nat) {
    (offset <= o < offset + n) || (offset <= o + per < offset + n)
  }

  lemma ScannedMore<K, V>(cells: seq<Cell<K, V>>, base: nat, per: nat, offset: nat, n: nat)
    requires Scanned(cells, base, per, offset, n) && n < per && cells[base + Wrap(n + offset, per)].Item?
    ensures Scanned(cells, base, per, offset, n + 1)
  {
  }

  lemma NotFull<K, V>(cells: seq<Cell<K, V>>, per: nat, b: nat, o: nat)
    requires o < per && b * per + per <= |cells| && cells[b * per + o].Empty?
    ensures !Full(cells, per, b)
  {
    assert InBucket(b * per + o, b, per);
  }

  lemma ScannedAll<K, V>(cells: seq<Cell<K, V>>, per: nat, b: nat, offset: nat)
    requires Scanned(cells, b * per, per, offset, per)
    ensures Full(cells, per, b)
  {
  }

  lemma FullCells<K, V>(cells: seq<Cell<K, V>>, per: nat, b: nat)
    requires Full(cells, per, b)
    ensures forall i {:trigger b * per + i} :: 0 <= i < per ==> 0 <= b * per + i < |cells| && cells[b * per + i].Item?
  {
  }

  lemma CandidateIs<K>(hash: (K, nat) -> (nat, nat), lg: nat, k: K, b: nat)
    requires b == Primary(hash, lg, k) || b == Secondary(hash, lg, k)
    ensures Candidate(hash, lg, k, b) && b < Pow2(lg)
  {
  }

  lemma SwapSize<K, V>(m: map<K, V>, out: K, k: K, v: V)
    requires out in m && k !in m
    ensures |(m - {out})[k := v]| == |m|
  {
    assert (m - {out})[k := v].Keys == m.Keys - {out} + {k};
    assert |m.Keys - {out} + {k}| == |m.Keys|;
  }

  lemma RemoveSize<K, V>(m: map<K, V>, k: K)
    requires k in m
    ensures |m - {k}| == |m| - 1
  {
    assert (m - {k}).Keys == m.Keys - {k};
  }

  lemma EmptyPrefix<K(!new), V>(cells: seq<Cell<K, V>>)
    ensures Represents(cells[..0], map[])
  {
  }

  lemma TableClear<K(!new), V>(cells: seq<Cell<K, V>>, per: nat, lg: nat, hash: (K, nat) -> (nat, nat), m: map<K, V>,
      j: nat)
    requires TableOK(cells, per, lg, hash, m) && j < |cells| && cells[j].Item?
    ensures TableOK(cells[j := Empty], per, lg, hash, m - {cells[j].key})
  {
    ClearCell(cells, m, j);
    hide Represents, Pow2, Bucket;
  }
}