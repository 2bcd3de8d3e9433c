/** The hash table of uthash (uthash.h:139-237, 580-695): bucket chains and the application-order list over the same
    nodes, add, delete, find, bucket doubling and sort. */
module HashTable {
  import opened Basics
  import opened Division
  import opened HashNode
  import opened HashSort
  import SortSpec

  /** UT_hash_bucket */
  datatype Bucket = Bucket(head: Node?, count: nat, expandMult: nat)

  const INITIAL_BUCKETS := 32
  const INITIAL_LOG2 := 5
  const CAPACITY_THRESH := 10

  // ---------- chains ----------

  /** The nodes are linked in this order by their bucket links. */
  ghost predicate Chained(c: seq<Node>)
    reads AsSet(c)`hhNext, AsSet(c)`hhPrev
  {
    forall i :: 0 <= i < |c| ==> c[i].hhNext == At(c, i + 1) && c[i].hhPrev == At(c, i - 1)
  }

  /** x & y */
  function BitAnd(x: nat, y: nat): nat {
    if x == 0 || y == 0 then 0 else (x % 2) * (y % 2) + 2 * BitAnd(x / 2, y / 2)
  }

  /** HASH_TO_BKT masks the hash value with num_buckets - 1; for a power of 2 that is the remainder, as used below. */
  lemma {:induction false} MaskIsRemainder(hashv: nat, lg: nat)
    ensures Pow2(lg) > 0 && BitAnd(hashv, Pow2(lg) - 1) == hashv % Pow2(lg)
    decreases lg
  {
    if lg == 0 {
      assert Pow2(0) == 1 && hashv % 1 == 0;
    } else {
      hide BitAnd;
      var n := Pow2(lg - 1);
      MaskIsRemainder(hashv / 2, lg - 1);
      HalfRemainder(hashv, n);
      AndHalf(hashv, n - 1);
      assert Pow2(lg) == 2 * n;
      hide *;
    }
  }

  lemma AndHalf(x: nat, m: nat)
    ensures BitAnd(x, 2 * m + 1) == x % 2 + 2 * BitAnd(x / 2, m)
  {
    assert (2 * m + 1) / 2 == m && (2 * m + 1) % 2 == 1;
  }

  lemma HalfRemainder(x: nat, n: nat)
    requires n > 0
    ensures x % (2 * n) == x % 2 + 2 * ((x / 2) % n)
  {
    var q, r := x / 2 / n, x / 2 % n;
    assert x == 2 * (x / 2) + x % 2 && x / 2 == q * n + r;
    assert x == q * (2 * n) + (2 * r + x % 2);
    DivUnique(x, 2 * n, q, 2 * r + x % 2);
  }

  /** A bucket describes its chain. */
  ghost predicate Describes(b: Bucket, c: seq<Node>)
    reads AsSet(c)`hhNext, AsSet(c)`hhPrev
  {
    b.head == At(c, 0) && b.count == |c| && NoDup(c) && Chained(c)
  }

  /** The chains hold exactly the nodes of m, each in the bucket of its hash value (hashv & (num_buckets - 1), which is
      the remainder because num_buckets is a power of 2). */
  ghost predicate Placed(chains: seq<seq<Node>>, m: set<Node>)
    reads m`hashv
  {
    && (forall b, x :: 0 <= b < |chains| && x in chains[b] ==> x in m && x.hashv % |chains| == b)
    && (forall x :: x in m ==> Home(chains, x))
  }

  ghost predicate Home(chains: seq<seq<Node>>, x: Node)
    reads x`hashv
  {
    |chains| > 0 && x in chains[x.hashv % |chains|]
  }

  ghost predicate Full(bs: seq<Bucket>, chains: seq<seq<Node>>, m: set<Node>)
    reads m`hhNext, m`hhPrev, m`hashv
  {
    && |bs| == |chains| && Placed(chains, m)
    && (forall b :: 0 <= b < |chains| ==> AsSet(chains[b]) <= m && Describes(bs[b], chains[b]))
  }

  // ---------- one bucket and the others ----------

  /** The buckets other than b hold exactly the nodes of m. */
  ghost predicate OthersOK(bs: seq<Bucket>, chains: seq<seq<Node>>, b: nat, m: set<Node>)
    reads m`hhNext, m`hhPrev, m`hashv
  {
    && |bs| == |chains|
    && (forall a, x :: 0 <= a < |chains| && a != b && x in chains[a] ==> x in m && x.hashv % |chains| == a)
    && (forall x :: x in m ==> Home(chains, x) && x.hashv % |chains| != b)
    && (forall a :: 0 <= a < |chains| && a != b ==> AsSet(chains[a]) <= m && Describes(bs[a], chains[a]))
  }

  lemma Split(bs: seq<Bucket>, chains: seq<seq<Node>>, m: set<Node>, b: nat)
    requires Full(bs, chains, m) && b < |chains|
    ensures |bs| == |chains| && AsSet(chains[b]) <= m
    ensures OthersOK(bs, chains, b, m - AsSet(chains[b])) && Describes(bs[b], chains[b])
    ensures forall x :: x in chains[b] ==> x.hashv % |chains| == b
  {
    hide Describes;
  }

  lemma Join(bs: seq<Bucket>, chains: seq<seq<Node>>, b: nat, others: set<Node>, bk: Bucket, c: seq<Node>)
    requires b < |chains| && OthersOK(bs, chains, b, others) && Describes(bk, c) && forall x :: x in c ==>
      x.hashv % |chains| == b
    ensures Full(bs[b := bk], chains[b := c], others + AsSet(c))
  {
    hide Describes;
    var nc := chains[b := c];
    assert nc[b] == c && forall a :: 0 <= a < |nc| && a != b ==> nc[a] == chains[a];
  }

  // ---------- adding to a chain ----------

  /** Put a node at the front of a chain. */
  method LinkFront(bk: Bucket, x: Node, ghost c: seq<Node>) returns (bk': Bucket)
    requires Describes(bk, c) && x !in c
    modifies x`hhNext, x`hhPrev, AsSet(c)`hhPrev
    ensures Describes(bk', [x] + c) && bk'.expandMult == bk.expandMult && bk'.count == bk.count + 1
  {
    x.hhNext := bk.head;
    x.hhPrev := null;
    if bk.head != null {
      bk.head.hhPrev := x;
    }
    bk' := bk.(head := x, count := bk.count + 1);
  }

  method PushFront(bs: array<Bucket>, b: nat, x: Node, ghost chains: seq<seq<Node>>, ghost m: set<Node>)
    returns (ghost nc: seq<seq<Node>>)
    requires b < bs.Length && Full(bs[..], chains, m) && x !in m && x.hashv % bs.Length == b
    modifies bs, x`hhNext, x`hhPrev, m`hhPrev
    ensures Full(bs[..], nc, m + {x})
    ensures b < |chains| == |bs[..]| && nc == chains[b := [x] + chains[b]] && bs[..] == old(bs[..])[b := bs[b]]
    ensures bs[b].count == |nc[b]| == old(bs[b]).count + 1 && bs[b].expandMult == old(bs[b]).expandMult
  {
    SameLength(bs[..], chains, m);
    CountIs(bs[..], chains, m, b);
    ghost var was, c := bs[..], chains[b];
    Split(was, chains, m, b);
    assert x !in c && m - AsSet(c) + AsSet([x] + c) == m + {x};
    hide Describes, Full, OthersOK;
    var bk := LinkFront(bs[b], x, c);
    bs[b] := bk;
    assert bs[..] == was[b := bk];
    Join(was, chains, b, m - AsSet(c), bk, [x] + c);
    nc := chains[b := [x] + c];
  }

  lemma SameLength(bs: seq<Bucket>, chains: seq<seq<Node>>, m: set<Node>)
    requires Full(bs, chains, m)
    ensures |bs| == |chains|
  {
  }

  lemma CountIs(bs: seq<Bucket>, chains: seq<seq<Node>>, m: set<Node>, b: nat)
    requires Full(bs, chains, m) && b < |bs|
    ensures |bs| == |chains| && bs[b].count == |chains[b]|
  {
    hide Placed, NoDup, Chained;
  }

  // ---------- bucket doubling ----------

  /** The elements of a chain beyond the ideal length. */
  function Over(n: nat, ideal: nat): nat { if n > ideal then n - ideal else 0 }

  /** The elements that are not in the ideal part of a chain. */
  function Excess(chains: seq<seq<Node>>, ideal: nat): nat {
    if chains == [] then 0 else Over(|chains[0]|, ideal) + Excess(chains[1..], ideal)
  }

  lemma {:induction false} ExcessStep(chains: seq<seq<Node>>, b: nat, x: Node, ideal: nat)
    requires b < |chains|
    ensures Excess(chains[b := [x] + chains[b]], ideal) == Excess(chains, ideal) + if |chains[b]| >= ideal then 1 else 0
    decreases |chains|
  {
    var c := chains[b := [x] + chains[b]];
    if b == 0 {
      assert c[1..] == chains[1..];
    } else {
      ExcessStep(chains[1..], b - 1, x, ideal);
      assert c[1..] == chains[1..][b - 1 := [x] + chains[1..][b - 1]];
    }
  }

  lemma {:induction false} NoExcess(chains: seq<seq<Node>>, ideal: nat)
    requires forall b :: 0 <= b < |chains| ==> chains[b] == []
    ensures Excess(chains, ideal) == 0
  {
    if chains != [] {
      NoExcess(chains[1..], ideal);
    }
  }

  /** A bucket with more than the ideal number of elements tolerates that many times more before the next doubling. */
  ghost predicate Tolerant(bs: seq<Bucket>, ideal: nat)
    requires ideal > 0
  {
    forall b :: 0 <= b < |bs| ==> bs[b].expandMult == if bs[b].count > ideal then bs[b].count / ideal else 0
  }

  /** The statistics that a doubling gathers are right. */
  ghost predicate Counted(bs: seq<Bucket>, chains: seq<seq<Node>>, ideal: nat, nonideal: nat)
    requires ideal > 0
  {
    nonideal == Excess(chains, ideal) && Tolerant(bs, ideal)
  }

  ghost predicate Forward(c: seq<Node>)
    reads AsSet(c)`hhNext
  {
    forall i :: 0 <= i < |c| ==> c[i].hhNext == At(c, i + 1)
  }

  /** The buckets from i on, which hold exactly the nodes of m, have not been emptied yet. */
  ghost predicate Remaining(bs: seq<Bucket>, chains: seq<seq<Node>>, i: nat, m: set<Node>)
    reads m`hhNext, m`hashv
  {
    && |bs| == |chains|
    && (forall x :: x in m ==> Home(chains, x) && x.hashv % |chains| >= i)
    && (forall j, x :: i <= j < |chains| && x in chains[j] ==> x in m && x.hashv % |chains| == j)
    && (forall j :: i <= j < |chains| ==>
      AsSet(chains[j]) <= m && Forward(chains[j]) && NoDup(chains[j]) && bs[j].head == At(chains[j], 0))
  }

  lemma RemainingAll(bs: seq<Bucket>, chains: seq<seq<Node>>, m: set<Node>)
    requires Full(bs, chains, m)
    ensures Remaining(bs, chains, 0, m)
  {
    forall j | 0 <= j < |chains| ensures Forward(chains[j]) {
      assert Describes(bs[j], chains[j]);
    }
  }

  lemma RemainingStep(bs: seq<Bucket>, chains: seq<seq<Node>>, i: nat, m: set<Node>)
    requires Remaining(bs, chains, i, m) && i < |chains|
    ensures var c := chains[i];
      && Remaining(bs, chains, i + 1, m - AsSet(c)) && AsSet(c) <= m
      && Forward(c) && NoDup(c) && bs[i].head == At(c, 0)
  {
    hide Forward, NoDup;
  }

  lemma RemainingNone(bs: seq<Bucket>, chains: seq<seq<Node>>, m: set<Node>)
    requires Remaining(bs, chains, |chains|, m)
    ensures m == {}
  {
    hide NoDup, Forward;
    assert forall x :: x in m ==> x.hashv % |chains| >= |chains| && |chains| > 0;
  }

  lemma NothingFull(bs: seq<Bucket>, chains: seq<seq<Node>>)
    requires |bs| == |chains| && forall b :: 0 <= b < |bs| ==> bs[b] == Bucket(null, 0, 0) && chains[b] == []
    ensures Full(bs, chains, {})
  {
  }

  /** Move one node to its new bucket. */
  method MoveNode(bs: array<Bucket>, x: Node, ideal: nat, nonideal0: nat, ghost nc: seq<seq<Node>>, ghost m: set<Node>)
    returns (nonideal: nat, ghost nc': seq<seq<Node>>)
    requires bs.Length > 0 && Full(bs[..], nc, m) && x !in m && ideal > 0 && Counted(bs[..], nc, ideal, nonideal0)
    modifies bs, x`hhNext, x`hhPrev, m`hhPrev
    ensures Full(bs[..], nc', m + {x}) && Counted(bs[..], nc', ideal, nonideal)
  {
    hide Full, Excess;
    var bkt := x.hashv % bs.Length;
    nonideal := nonideal0;
    nc' := PushFront(bs, bkt, x, nc, m);
    hide Counted;
    ghost var was, mid := old(bs[..]), bs[..];
    if bs[bkt].count > ideal {
      nonideal := nonideal + 1;
      SetMultiplier(bs, bkt, bs[bkt].count / ideal, nc', m + {x});
    }
    CountedStep(was, nc, bkt, x, ideal, nonideal0, mid[bkt], bs[..]);
  }

  /** The statistics after one more element. */
  lemma CountedStep(was: seq<Bucket>, chains: seq<seq<Node>>, b: nat, x: Node, ideal: nat, nonideal: nat, bk: Bucket,
      bs: seq<Bucket>)
    requires ideal > 0 && Counted(was, chains, ideal, nonideal) && b < |was| == |chains|
    requires bk.count == was[b].count + 1 == |chains[b]| + 1 && bk.expandMult == was[b].expandMult
    requires bs == was[b := if bk.count > ideal then bk.(expandMult := bk.count / ideal) else bk]
    ensures Counted(bs, chains[b := [x] + chains[b]], ideal, nonideal + if bk.count > ideal then 1 else 0)
  {
    ExcessStep(chains, b, x, ideal);
    hide Excess;
    assert forall a :: 0 <= a < |was| && a != b ==> bs[a] == was[a];
    assert was[b].expandMult == if was[b].count > ideal then was[b].count / ideal else 0;
  }

  lemma NothingCounted(bs: seq<Bucket>, chains: seq<seq<Node>>, ideal: nat)
    requires ideal > 0 && |bs| == |chains| && forall b :: 0 <= b < |bs| ==>
      bs[b] == Bucket(null, 0, 0) && chains[b] == []
    ensures Counted(bs, chains, ideal, 0)
  {
    NoExcess(chains, ideal);
  }

  method SetMultiplier(bs: array<Bucket>, b: nat, mult: nat, ghost chains: seq<seq<Node>>, ghost m: set<Node>)
    requires b < bs.Length && Full(bs[..], chains, m)
    modifies bs
    ensures Full(bs[..], chains, m) && bs[..] == old(bs[..])[b := old(bs[b]).(expandMult := mult)]
  {
    Multiplied(bs[..], b, mult, chains, m);
    hide Full;
    ghost var was := bs[..];
    bs[b] := bs[b].(expandMult := mult);
    assert bs[..] == was[b := was[b].(expandMult := mult)];
  }

  lemma Multiplied(bs: seq<Bucket>, b: nat, mult: nat, chains: seq<seq<Node>>, m: set<Node>)
    requires b < |bs| && Full(bs, chains, m)
    ensures Full(bs[b := bs[b].(expandMult := mult)], chains, m)
  {
    hide Chained, NoDup, Placed;
  }

  lemma FirstOut(s: seq<Node>)
    requires s != [] && NoDup(s)
    ensures s[0] in AsSet(s) && s[0] !in AsSet(s[1..]) && AsSet(s) == AsSet(s[1..]) + {s[0]}
  {
  }

  /** Move the nodes of a chain. */
  method MoveChain(bs: array<Bucket>, thh0: Node?, ideal: nat, nonideal0: nat, ghost rest0: seq<Node>,
      ghost nc0: seq<seq<Node>>, ghost m0: set<Node>)
    returns (nonideal: nat, ghost nc: seq<seq<Node>>)
    requires bs.Length > 0 && Full(bs[..], nc0, m0) && Forward(rest0) && NoDup(rest0) && thh0 == At(rest0, 0) &&
      AsSet(rest0) !! m0
    requires ideal > 0 && Counted(bs[..], nc0, ideal, nonideal0)
    modifies bs, AsSet(rest0)`hhNext, AsSet(rest0)`hhPrev, m0`hhPrev
    ensures Full(bs[..], nc, m0 + AsSet(rest0)) && Counted(bs[..], nc, ideal, nonideal)
  {
    var thh := thh0;
    nonideal, nc := nonideal0, nc0;
    ghost var rest: seq<Node>, m: set<Node> := rest0, m0;
    hide Full, Counted;
    while thh != null
      invariant Counted(bs[..], nc, ideal, nonideal)
      invariant Full(bs[..], nc, m) && Forward(rest) && NoDup(rest) && thh == At(rest, 0)
      invariant AsSet(rest) <= AsSet(rest0) && AsSet(rest) !! m && m + AsSet(rest) == m0 + AsSet(rest0)
      decreases |rest|
    {
      var nxt := thh.hhNext;
      FirstOut(rest);
      nonideal, nc := MoveNode(bs, thh, ideal, nonideal, nc, m);
      ghost var moved: Node := thh;
      rest, m := rest[1..], m + {moved};
      thh := nxt;
    }
    assert m == m0 + AsSet(rest0);
  }

  /** The loop of HASH_EXPAND_BUCKETS. */
  method Redistribute(buckets: array<Bucket>, newBuckets: array<Bucket>, ideal: nat, ghost chains: seq<seq<Node>>,
      ghost all: set<Node>)
    returns (nonideal: nat, ghost nc: seq<seq<Node>>)
    requires newBuckets != buckets && newBuckets.Length == 2 * buckets.Length > 0 && ideal > 0 &&
      Full(buckets[..], chains, all)
    requires forall b :: 0 <= b < newBuckets.Length ==> newBuckets[b] == Bucket(null, 0, 0)
    modifies newBuckets, all`hhNext, all`hhPrev
    ensures Full(newBuckets[..], nc, all) && Counted(newBuckets[..], nc, ideal, nonideal)
  {
    hide Full, Remaining, Forward, NoDup, Counted;
    ghost var bs, m: set<Node> := buckets[..], {};
    nc, nonideal := seq(2 * buckets.Length, _ => []), 0;
    NothingFull(newBuckets[..], nc);
    NothingCounted(newBuckets[..], nc, ideal);
    RemainingAll(bs, chains, all);
    SameLength(bs, chains, all);
    assert all - m == all;
    for i := 0 to buckets.Length
      invariant Counted(newBuckets[..], nc, ideal, nonideal)
      invariant Full(newBuckets[..], nc, m) && Remaining(bs, chains, i, all - m) && m <= all && buckets[..] == bs
    {
      RemainingStep(bs, chains, i, all - m);
      ghost var c := chains[i];
      assert all - m - AsSet(c) == all - (m + AsSet(c));
      assert buckets[i] == bs[i];
      nonideal, nc := MoveChain(newBuckets, buckets[i].head, ideal, nonideal, c, nc, m);
      m := m + AsSet(c);
    }
    RemainingNone(bs, chains, all - m);
    assert m == all;
  }

  // ---------- unlinking ----------

  function Without<T>(s: seq<T>, j: nat): (r: seq<T>)
    requires j < |s|
    ensures |r| == |s| - 1 && forall i :: 0 <= i < |r| ==> r[i] == if i < j then s[i] else s[i + 1]
  {
    s[..j] + s[j + 1..]
  }

  /** HASH_DEL_IN_BKT */
  method UnlinkFrom(bk: Bucket, del: Node, ghost c: seq<Node>, ghost j: nat) returns (bk': Bucket)
    requires Describes(bk, c) && j < |c| && c[j] == del
    modifies AsSet(c)`hhNext, AsSet(c)`hhPrev
    ensures Describes(bk', Without(c, j))
  {
    bk' := bk.(count := bk.count - 1);
    if bk'.head == del {
      bk' := bk'.(head := del.hhNext);
    }
    WithoutHead(c, j);
    WithoutNodes(c, j);
    hide Chained, Without, NoDup, AsSet;
    LinkAround(del, c, j);
  }

  method LinkAround(del: Node, ghost c: seq<Node>, ghost j: nat)
    requires NoDup(c) && Chained(c) && j < |c| && c[j] == del
    modifies AsSet(c)`hhNext, AsSet(c)`hhPrev
    ensures Chained(Without(c, j))
  {
    assert j > 0 ==> c[j - 1] in AsSet(c);
    assert j + 1 < |c| ==> c[j + 1] in AsSet(c);
    if del.hhPrev != null {
      del.hhPrev.hhNext := del.hhNext;
    }
    if del.hhNext != null {
      del.hhNext.hhPrev := del.hhPrev;
    }
    Relinked(c, j);
    hide Without;
  }

  lemma WithoutHead(c: seq<Node>, j: nat)
    requires j < |c| && NoDup(c)
    ensures At(Without(c, j), 0) == if c[j] == At(c, 0) then At(c, 1) else At(c, 0)
  {
  }

  /** The links of a chain from which node j has been unlinked. */
  lemma Relinked(c: seq<Node>, j: nat)
    requires NoDup(c) && j < |c|
    requires forall k :: 0 <= k < |c| ==> k != j - 1 ==> c[k].hhNext == At(c, k + 1)
    requires forall k :: 0 <= k < |c| ==> k != j + 1 ==> c[k].hhPrev == At(c, k - 1)
    requires (j > 0 ==> c[j - 1].hhNext == At(c, j + 1)) && (j + 1 < |c| ==> c[j + 1].hhPrev == At(c, j - 1))
    ensures Chained(Without(c, j))
  {
    hide NoDup;
    var r := Without(c, j);
    forall i | 0 <= i < |r| ensures r[i].hhNext == At(r, i + 1) && r[i].hhPrev == At(r, i - 1) {
      var k := if i < j then i else i + 1;
      assert r[i] == c[k];
      assert k != j - 1 ==> c[k].hhNext == At(c, k + 1);
      assert k != j + 1 ==> c[k].hhPrev == At(c, k - 1);
    }
  }

  lemma WithoutNodes(c: seq<Node>, j: nat)
    requires NoDup(c) && j < |c|
    ensures NoDup(Without(c, j)) && AsSet(Without(c, j)) == AsSet(c) - {c[j]}
  {
    var r := Without(c, j);
    forall x ensures x in r <==> x in c && x != c[j] {
      if x in c && x != c[j] {
        var i :| 0 <= i < |c| && c[i] == x;
        assert r[if i < j then i else i - 1] == x;
      }
    }
  }

  method UnlinkAt(bs: array<Bucket>, b: nat, del: Node, ghost j: nat, ghost chains: seq<seq<Node>>, ghost m: set<Node>)
    returns (ghost nc: seq<seq<Node>>)
    requires b < bs.Length == |chains| && Full(bs[..], chains, m) && j < |chains[b]| && chains[b][j] == del
    modifies bs, m`hhNext, m`hhPrev
    ensures Full(bs[..], nc, m - {del})
  {
    ghost var was, c := bs[..], chains[b];
    hide Describes, Full, OthersOK, Without;
    Split(was, chains, m, b);
    WithoutMembers(bs[b], c, j, m);
    var bk := UnlinkFrom(bs[b], del, c, j);
    bs[b] := bk;
    assert bs[..] == was[b := bk];
    Join(was, chains, b, m - AsSet(c), bk, Without(c, j));
    nc := chains[b := Without(c, j)];
  }

  lemma WithoutMembers(bk: Bucket, c: seq<Node>, j: nat, m: set<Node>)
    requires Describes(bk, c) && j < |c| && AsSet(c) <= m
    ensures m - AsSet(c) + AsSet(Without(c, j)) == m - {c[j]} && forall x :: x in Without(c, j) ==> x in c
  {
    WithoutNodes(c, j);
    assert forall x :: x in Without(c, j) ==> x in AsSet(Without(c, j));
    assert c[j] in AsSet(c);
  }

  // ---------- the application-order list ----------

  /** Append a node to the list (the tail's link and the node's). */
  method Append(tail: Node, add: Node, ghost items: seq<Node>)
    requires items != [] && Listed(items) && NoDup(items) && tail == Last(items) && add !in items
    modifies tail`next, add`next, add`prev
    ensures Listed(items + [add]) && NoDup(items + [add])
  {
    ghost var n := |items|;
    assert forall i :: 0 <= i < n ==> items[i] != add && (items[i] == tail ==> i == n - 1);
    hide NoDup, At;
    add.next := null;
    tail.next := add;
    add.prev := tail;
    LastAppended(items, add);
    forall i | 0 <= i < n + 1
      ensures (items + [add])[i].next == At(items + [add], i + 1) && (items + [add])[i].prev == At(items + [add], i - 1)
    {
      AtAppended(items, add, i - 1);
      if i < n - 1 { AtAppended(items, add, i + 1); }
    }
  }

  lemma AtAppended(items: seq<Node>, add: Node, i: int)
    requires i < |items|
    ensures At(items + [add], i) == At(items, i)
  {
  }

  lemma LastAppended(items: seq<Node>, add: Node)
    requires items != [] && NoDup(items) && add !in items
    ensures NoDup(items + [add]) && At(items + [add], |items|) == add && At(items + [add], |items| + 1) == null
    ensures At(items, |items| - 1) == Last(items)
  {
  }

  /** Take node j out of the list; the new head and tail. */
  method TakeOut(head: Node, tail: Node, del: Node, ghost items: seq<Node>, ghost j: nat)
    returns (head': Node?, tail': Node?)
    requires Listed(items) && NoDup(items) && j < |items| && items[j] == del && |items| > 1
    requires head == items[0] && tail == Last(items)
    modifies AsSet(items)`next, AsSet(items)`prev
    ensures Listed(Without(items, j)) && head' == At(Without(items, j), 0) && tail' == Last(Without(items, j))
  {
    head', tail' := head, tail;
    assert j > 0 ==> items[j - 1] in AsSet(items);
    assert j + 1 < |items| ==> items[j + 1] in AsSet(items);
    if del == tail {
      tail' := del.prev;
    }
    if del.prev != null {
      del.prev.next := del.next;
    } else {
      head' := del.next;
    }
    if del.next != null {
      del.next.prev := del.prev;
    }
    RelinkedOrder(items, j);
  }

  lemma RelinkedOrder(c: seq<Node>, j: nat)
    requires NoDup(c) && j < |c|
    requires forall k :: 0 <= k < |c| ==> k != j - 1 ==> c[k].next == At(c, k + 1)
    requires forall k :: 0 <= k < |c| ==> k != j + 1 ==> c[k].prev == At(c, k - 1)
    requires (j > 0 ==> c[j - 1].next == At(c, j + 1)) && (j + 1 < |c| ==> c[j + 1].prev == At(c, j - 1))
    ensures Listed(Without(c, j))
  {
    hide NoDup;
    var r := Without(c, j);
    forall i | 0 <= i < |r| ensures r[i].next == At(r, i + 1) && r[i].prev == At(r, i - 1) {
      var k := if i < j then i else i + 1;
      assert r[i] == c[k];
      assert k != j - 1 ==> c[k].next == At(c, k + 1);
      assert k != j + 1 ==> c[k].prev == At(c, k - 1);
    }
  }

  ghost predicate DistinctKeys(items: seq<Node>) {
    forall i, j :: 0 <= i < j < |items| ==> items[i].key != items[j].key
  }

  lemma WithoutKeys(items: seq<Node>, j: nat)
    requires j < |items| && DistinctKeys(items)
    ensures DistinctKeys(Without(items, j))
  {
  }

  lemma SortFacts(cmp: SortSpec.Compare, rank: map<Node, nat>, items: seq<Node>)
    requires SortSpec.Identity(rank, items) && SortSpec.Preorder(cmp, AsSet(items)) && DistinctKeys(items)
    ensures var s := SortSpec.Sort(cmp, items, 1);
      SortSpec.Sorted(cmp, rank, s) && multiset(s) == multiset(items) && |s| == |items| &&
        (NoDup(s) ==> DistinctKeys(s))
    ensures items == [] ==> SortSpec.Sort(cmp, items, 1) == items
  {
    assert rank.Keys == AsSet(items);
    SortSpec.SortIsStable(cmp, rank, items);
    var s := SortSpec.Sort(cmp, items, 1);
    hide SortSpec.Sorted, SortSpec.Preorder, SortSpec.Sort, SortSpec.Identity;
    if NoDup(s) { KeysPermuted(items, s); }
  }

  lemma KeysPermuted(items: seq<Node>, s: seq<Node>)
    requires multiset(s) == multiset(items) && DistinctKeys(items) && NoDup(s)
    ensures DistinctKeys(s)
  {
    forall i, j | 0 <= i < j < |s| ensures s[i].key != s[j].key {
      assert s[i] in multiset(items) && s[j] in multiset(items);
      var a :| 0 <= a < |items| && items[a] == s[i];
      var b :| 0 <= b < |items| && items[b] == s[j];
    }
  }

  method NewBuckets(n: nat) returns (bs: array<Bucket>)
    ensures fresh(bs) && bs.Length == n && forall b :: 0 <= b < n ==> bs[b] == Bucket(null, 0, 0)
  {
    bs := new Bucket[n](_ => Bucket(null, 0, 0));
  }

  /** The least k with k * b >= a. */
  function Ceiling(a: nat, b: nat): (k: nat)
    requires b > 0
    ensures k * b >= a && (k > 0 ==> (k - 1) * b < a)
  {
    assert a == a / b * b + a % b;
    if a % b == 0 then a / b else a / b + 1
  }

  /** UT_hash_table and the head pointer. With no items there is no table: it is made anew by the next add. */
  class Table {
    const hash: string -> nat
    var head: Node?
    var tail: Node?
    var buckets: array<Bucket>
    var numBuckets: nat
    var log2NumBuckets: nat
    var numItems: nat
    var idealChainMaxlen: nat
    var nonidealItems: nat
    var ineffExpands: nat
    var noexpand: bool

    /** The elements in application order. */
    ghost var items: seq<Node>
    ghost var chains: seq<seq<Node>>

    constructor (hash: string -> nat)
      ensures Valid() && items == [] && this.hash == hash
    {
      this.hash, head, tail, items, chains := hash, null, null, [], [];
      buckets := new Bucket[0];
      numBuckets, log2NumBuckets, numItems, idealChainMaxlen := 0, 0, 0, 0;
      nonidealItems, ineffExpands, noexpand := 0, 0, false;
    }

    ghost predicate OrderOK()
      reads this`head, this`tail, this`items, AsSet(items)`next, AsSet(items)`prev
    {
      NoDup(items) && head == At(items, 0) && (items != [] ==> tail == Last(items) && Listed(items))
    }

    ghost predicate TableOK()
      reads this, buckets, AsSet(items)`hhNext, AsSet(items)`hhPrev, AsSet(items)`hashv
    {
      numItems == |items| && TableFor(AsSet(items))
    }

    /** The table holds the nodes of m. */
    ghost predicate TableFor(m: set<Node>)
      reads this`buckets, this`numBuckets, this`log2NumBuckets, this`chains, buckets, m`hhNext, m`hhPrev, m`hashv
    {
      numBuckets == buckets.Length == Pow2(log2NumBuckets) && Full(buckets[..], chains, m) && HashesOK(m)
    }

    ghost predicate HashesOK(m: set<Node>)
      reads m`hashv
    {
      forall x :: x in m ==> x.hashv == hash(x.key)
    }

    ghost predicate KeysOK()
      reads this`items
    {
      DistinctKeys(items)
    }

    ghost predicate Valid()
      reads this, buckets, AsSet(items)
    {
      OrderOK() && KeysOK() && (items != [] ==> TableOK())
    }

    /** HASH_FIND: the element with that key, if there is one. */
    method Find(key: string) returns (out: Node?)
      requires Valid()
      ensures out == null ==> forall x :: x in items ==> x.key != key
      ensures out != null ==> out in items && out.key == key
    {
      out := null;
      if head != null {
        var b := hash(key) % numBuckets;
        out := FindInBucket(b, key);
        ghost var o := out;
        forall x | x in items && o == null ensures x.key != key {
          assert x in AsSet(items) && Home(chains, x);
        }
      }
    }

    /** HASH_FIND_IN_BKT */
    method FindInBucket(b: nat, key: string) returns (out: Node?)
      requires TableOK() && b < buckets.Length
      ensures |chains| == buckets.Length
      ensures out == null ==> forall x :: x in chains[b] ==> x.key != key
      ensures out != null ==> out in items && out.key == key
    {
      ghost var c, i := chains[b], 0;
      assert Describes(buckets[..][b], c) && AsSet(c) <= AsSet(items);
      out := buckets[b].head;
      while out != null
        invariant 0 <= i <= |c| && out == At(c, i) && forall k :: 0 <= k < i ==> c[k].key != key
        decreases |c| - i
      {
        assert out in AsSet(c);
        if |out.key| == |key| && out.key == key {
          break;
        }
        out := out.hhNext;
        i := i + 1;
      }
    }

    /** HASH_EXPAND_BUCKETS */
    method Expand(ghost m: set<Node>)
      requires TableFor(m) && numItems > 0
      modifies this`buckets, this`numBuckets, this`log2NumBuckets, this`idealChainMaxlen, this`nonidealItems,
        this`ineffExpands, this`noexpand, this`chains, m`hhNext, m`hhPrev
      ensures TableFor(m) && fresh(buckets) && numBuckets == 2 * old(numBuckets)
      ensures Doubled(old(ineffExpands), old(noexpand))
    {
      hide Full, HashesOK, Pow2, Ceiling, Counted;
      var newBuckets := NewBuckets(2 * numBuckets);
      SetIdeal();
      ghost var nc;
      nonidealItems, nc := Redistribute(buckets, newBuckets, idealChainMaxlen, chains, m);
      Install(newBuckets, nc, m);
      ineffExpands := if nonidealItems > numItems / 2 then ineffExpands + 1 else 0;
      if ineffExpands > 1 {
        noexpand := true;
      }
    }

    /** The statistics after a doubling: further ones are given up once two in a row have left more than half of the
        elements beyond the ideal chain length. */
    ghost predicate Doubled(ineff: nat, no: bool)
      reads this`numItems, this`numBuckets, this`buckets, this`chains, this`idealChainMaxlen, this`nonidealItems,
        this`ineffExpands, this`noexpand, buckets
    {
      && numBuckets > 0 && idealChainMaxlen > 0 && idealChainMaxlen == Ceiling(numItems, numBuckets)
      && Counted(buckets[..], chains, idealChainMaxlen, nonidealItems)
      && ineffExpands == (if nonidealItems > numItems / 2 then ineff + 1 else 0)
      && noexpand == (no || ineffExpands > 1)
    }

    /** Adding an element with this hash value makes its bucket grow past what it tolerates. */
    ghost predicate Overflows(hashv: nat)
      reads this`buckets, this`numBuckets, this`noexpand, buckets
    {
      && 0 < numBuckets == buckets.Length && !noexpand
      && var bk := buckets[hashv % numBuckets]; bk.count + 1 >= (bk.expandMult + 1) * CAPACITY_THRESH
    }

    method Install(newBuckets: array<Bucket>, ghost nc: seq<seq<Node>>, ghost m: set<Node>)
      requires HashesOK(m) && numBuckets == Pow2(log2NumBuckets)
      requires newBuckets.Length == 2 * numBuckets && Full(newBuckets[..], nc, m)
      modifies this`buckets, this`numBuckets, this`log2NumBuckets, this`chains
      ensures TableFor(m) && buckets == newBuckets && numBuckets == 2 * old(numBuckets) && chains == nc
      ensures numBuckets == Pow2(old(log2NumBuckets) + 1)
    {
      hide Full, HashesOK;
      numBuckets, log2NumBuckets, buckets, chains := numBuckets * 2, log2NumBuckets + 1, newBuckets, nc;
    }

    /** The ideal chain length after the doubling: num_items over the new number of buckets, rounded up. */
    method SetIdeal()
      requires numItems > 0
      modifies this`idealChainMaxlen
      ensures idealChainMaxlen == Ceiling(numItems, Pow2(log2NumBuckets + 1)) > 0
    {
      var size := Pow2(log2NumBuckets + 1);
      idealChainMaxlen := numItems / size + if numItems % size != 0 then 1 else 0;
    }

    /** HASH_MAKE_TABLE */
    method MakeTable()
      modifies this`numItems, this`buckets, this`numBuckets, this`log2NumBuckets, this`idealChainMaxlen,
        this`nonidealItems, this`ineffExpands, this`noexpand, this`chains
      ensures TableFor({}) && fresh(buckets) && numItems == 0
      ensures idealChainMaxlen == nonidealItems == ineffExpands == 0 && !noexpand
      ensures numBuckets == INITIAL_BUCKETS && forall b :: 0 <= b < buckets.Length ==> buckets[b] == Bucket(null, 0, 0)
    {
      numBuckets, log2NumBuckets, numItems := INITIAL_BUCKETS, INITIAL_LOG2, 0;
      idealChainMaxlen, nonidealItems, ineffExpands, noexpand := 0, 0, 0, false;
      var bs := NewBuckets(INITIAL_BUCKETS);
      ghost var nc: seq<seq<Node>> := seq(INITIAL_BUCKETS, _ => []);
      NothingFull(bs[..], nc);
      hide Full;
      buckets, chains := bs, nc;
      assert Pow2(INITIAL_LOG2) == 32;
    }

    /** Hash the node and put it into its bucket. */
    method Put(add: Node, ghost m: set<Node>) returns (bkt: nat)
      requires TableFor(m) && add !in m
      modifies this`chains, buckets, m`hhPrev, add`hhNext, add`hhPrev, add`hashv
      ensures TableFor(m + {add}) && bkt < buckets.Length == numBuckets && bkt == hash(add.key) % numBuckets
      ensures buckets[bkt].count == old(buckets[bkt].count) + 1 &&
        buckets[bkt].expandMult == old(buckets[bkt].expandMult)
    {
      hide Full, Pow2;
      add.hashv := hash(add.key);
      assert HashesOK(m + {add});
      hide HashesOK;
      bkt := add.hashv % numBuckets;
      chains := PushFront(buckets, bkt, add, chains, m);
    }

    /** The second half of HASH_ADD_KEYPTR, and HASH_ADD_TO_BKT. */
    method AddToBucket(add: Node, ghost m: set<Node>)
      requires TableFor(m) && add !in m
      modifies this`numItems, this`buckets, this`numBuckets, this`log2NumBuckets, this`idealChainMaxlen,
        this`nonidealItems, this`ineffExpands, this`noexpand, this`chains, buckets, m`hhNext, m`hhPrev, add`hhNext,
          add`hhPrev, add`hashv
      ensures TableFor(m + {add}) && numItems == old(numItems) + 1 && (buckets == old(buckets) || fresh(buckets))
      // the buckets are doubled exactly if the bucket of the element overflows
      ensures if old(Overflows(hash(add.key))) then numBuckets == 2 * old(numBuckets) &&
        Doubled(old(ineffExpands), old(noexpand))
              else numBuckets == old(numBuckets) && buckets == old(buckets) && noexpand == old(noexpand)
    {
      hide TableFor, Doubled;
      numItems := numItems + 1;
      var bkt := Put(add, m);
      if buckets[bkt].count >= (buckets[bkt].expandMult + 1) * CAPACITY_THRESH && !noexpand {
        Expand(m + {add});
      }
    }

    /** The first half of HASH_ADD_KEYPTR. */
    method AddToOrder(add: Node)
      requires OrderOK() && add !in items
      modifies this`head, this`tail, this`items, add`next, add`prev, AsSet(items)`next
      ensures OrderOK() && items == old(items) + [add]
    {
      hide Listed, NoDup;
      if head == null {
        head, tail, add.next, add.prev := add, add, null, null;
        SingleListed(add);
        items := [add];
      } else {
        assert tail in AsSet(items);
        Append(tail, add, items);
        tail := add;
        items := items + [add];
      }
    }

    lemma SingleListed(x: Node)
      requires x.next == null && x.prev == null
      ensures Listed([x]) && NoDup([x])
    {
    }

    /** HASH_ADD_KEYPTR, for a key that is not in the table */
    method Add(add: Node)
      requires Valid() && add !in items && forall x :: x in items ==> x.key != add.key
      modifies this, buckets, add, AsSet(items)
      ensures Valid() && items == old(items) + [add]
      // the first element makes the table; later the buckets are doubled exactly if the element's bucket overflows
      ensures old(items) == [] ==> numBuckets == INITIAL_BUCKETS
      ensures old(items) != [] && !old(Overflows(hash(add.key))) ==>
        numBuckets == old(numBuckets) && noexpand == old(noexpand)
      ensures old(items) != [] && old(Overflows(hash(add.key))) ==>
        numBuckets == 2 * old(numBuckets) && Doubled(old(ineffExpands), old(noexpand))
    {
      hide OrderOK, TableFor, DistinctKeys, Doubled, Overflows;
      AddFacts(add);
      AddParts(add, AsSet(items));
    }

    lemma AddFacts(add: Node)
      requires Valid() && forall x :: x in items ==> x.key != add.key
      ensures DistinctKeys(items + [add]) && AsSet(items + [add]) == AsSet(items) + {add}
      ensures (head == null ==> AsSet(items) == {}) && (head != null ==> TableFor(AsSet(items)) && numItems == |items|)
      ensures head == null <==> items == []
    {
      hide TableFor;
    }

    method AddParts(add: Node, ghost m: set<Node>)
      requires OrderOK() && add !in items && add !in m && m == AsSet(items) && DistinctKeys(items + [add]) &&
        AsSet(items + [add]) == m + {add}
      requires if head == null then items == [] && m == {} else TableFor(m) && numItems == |items|
      modifies this, buckets, add, m
      ensures Valid() && items == old(items) + [add]
      ensures old(head) == null ==> numBuckets == INITIAL_BUCKETS
      ensures old(head) != null && !old(Overflows(hash(add.key))) ==>
        numBuckets == old(numBuckets) && noexpand == old(noexpand)
      ensures old(head) != null && old(Overflows(hash(add.key))) ==>
        numBuckets == 2 * old(numBuckets) && Doubled(old(ineffExpands), old(noexpand))
    {
      hide OrderOK, TableFor, DistinctKeys, AsSet, Doubled, Overflows;
      var first := head == null;
      AddToOrder(add);
      if first {
        MakeTable();
        NoOverflow(hash(add.key));
      }
      AddToBucket(add, m);
    }

    lemma NoOverflow(hashv: nat)
      requires numBuckets == INITIAL_BUCKETS && forall b :: 0 <= b < buckets.Length ==> buckets[b] == Bucket(null, 0, 0)
      ensures !Overflows(hashv)
    {
    }

    /** HASH_DELETE: an element of the table. With the last one the table goes. */
    method Delete(del: Node, ghost j: nat)
      requires Valid() && j < |items| && items[j] == del
      modifies this, buckets, AsSet(items)
      ensures Valid() && items == Without(old(items), j)
      ensures items != [] ==> buckets == old(buckets) && numBuckets == old(numBuckets) && noexpand == old(noexpand)
    {
      hide OrderOK, TableFor, DistinctKeys;
      DeleteFacts(j);
      if del.prev == null && del.next == null {
        head, items := null, [];
        NothingLeft();
      } else {
        DeleteParts(del, j, AsSet(items));
      }
    }

    lemma DeleteFacts(j: nat)
      requires Valid() && j < |items|
      ensures head != null && TableFor(AsSet(items)) && numItems == |items| && DistinctKeys(Without(items, j))
      ensures AsSet(Without(items, j)) == AsSet(items) - {items[j]}
      ensures items[j].prev == null && items[j].next == null <==> |items| == 1
      ensures |items| == 1 ==> Without(items, j) == []
    {
      hide TableFor;
      WithoutNodes(items, j);
      WithoutKeys(items, j);
      hide DistinctKeys, AsSet;
      assert items[0].prev == null && items[j].next == At(items, j + 1) && items[j].prev == At(items, j - 1);
    }

    lemma NothingLeft()
      requires head == null && items == []
      ensures Valid()
    {
    }

    method DeleteParts(del: Node, ghost j: nat, ghost m: set<Node>)
      requires OrderOK() && j < |items| && items[j] == del && |items| > 1 && m == AsSet(items) &&
        DistinctKeys(Without(items, j))
      requires TableFor(m) && numItems == |items| && del in m && AsSet(Without(items, j)) == m - {del}
      modifies this, buckets, m
      ensures Valid() && items == Without(old(items), j)
      ensures buckets == old(buckets) && numBuckets == old(numBuckets) && noexpand == old(noexpand)
    {
      hide OrderOK, TableFor, DistinctKeys, AsSet, Without;
      RemoveFromOrder(del, j);
      RemoveFromBucket(del, m);
      numItems := numItems - 1;
    }

    method RemoveFromOrder(del: Node, ghost j: nat)
      requires OrderOK() && j < |items| && items[j] == del && |items| > 1
      modifies this`head, this`tail, this`items, AsSet(items)`next, AsSet(items)`prev
      ensures OrderOK() && items == Without(old(items), j)
    {
      hide OrderOK, Listed, NoDup, Without;
      OrderParts();
      WithoutNodes(items, j);
      head, tail := TakeOut(head, tail, del, items, j);
      items := Without(items, j);
      OrderFrom();
    }

    lemma OrderParts()
      requires OrderOK() && items != []
      ensures NoDup(items) && head != null && tail != null && head == items[0] && tail == Last(items) && Listed(items)
    {
    }

    lemma OrderFrom()
      requires NoDup(items) && head == At(items, 0) && tail == Last(items) && Listed(items)
      ensures OrderOK()
    {
    }

    method RemoveFromBucket(del: Node, ghost m: set<Node>)
      requires TableFor(m) && del in m
      modifies this`chains, buckets, m`hhNext, m`hhPrev
      ensures TableFor(m - {del})
    {
      var b := del.hashv % numBuckets;
      ghost var j := PlaceOf(del, b, m);
      hide Full, HashesOK;
      chains := UnlinkAt(buckets, b, del, j, chains, m);
    }

    lemma PlaceOf(del: Node, b: nat, m: set<Node>) returns (j: nat)
      requires TableFor(m) && del in m && b == del.hashv % numBuckets
      ensures |chains| == buckets.Length && b < buckets.Length && j < |chains[b]| && chains[b][j] == del
    {
      assert Home(chains, del);
      j :| 0 <= j < |chains[b]| && chains[b][j] == del;
    }

    /** HASH_SRT: the elements end up in the one arrangement that is sorted and keeps equal ones in their order. */
    method Sort(cmp: SortSpec.Compare, ghost rank: map<Node, nat>)
      requires Valid() && SortSpec.Identity(rank, items) && SortSpec.Preorder(cmp, AsSet(items))
      modifies this`head, this`tail, this`items, AsSet(items)`next, AsSet(items)`prev
      ensures Valid() && SortSpec.Sorted(cmp, rank, items) && multiset(items) == multiset(old(items))
    {
      ValidIs();
      hide Valid, OrderOK, TableFor, DistinctKeys, SortSpec.Sorted, SortSpec.Preorder, SortSpec.Identity, Listed, NoDup,
        SortSpec.Sort, Chain;
      SortFacts(cmp, rank, items);
      HeadOf();
      if head != null {
        OrderParts();
        ListedChain(items);
        SortInto(cmp);
      }
      ValidIs();
    }

    lemma ValidIs()
      ensures Valid() <==>
        && OrderOK() && DistinctKeys(items) && (items != [] ==> numItems == |items| && TableFor(AsSet(items)))
    {
      hide OrderOK, DistinctKeys, TableFor, AsSet;
    }

    method SortInto(cmp: SortSpec.Compare)
      requires OrderOK() && items != [] && head != null && head == items[0] && Chain(items) && NoDup(items)
      modifies this`head, this`tail, this`items, AsSet(items)`next, AsSet(items)`prev
      ensures OrderOK() && items == SortSpec.Sort(cmp, old(items), 1) && AsSet(items) == AsSet(old(items)) &&
        NoDup(items)
    {
      hide OrderOK, Chain, NoDup, Listed, SortSpec.Sort;
      head, tail := SortList(cmp, head, items);
      items := SortSpec.Sort(cmp, items, 1);
      OrderFrom();
    }

    lemma HeadOf()
      requires OrderOK()
      ensures head == null <==> items == []
    {
    }
  }
}
