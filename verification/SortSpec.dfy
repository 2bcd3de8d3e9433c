/** The bottom-up merge sort of uthash (uthash.h:702-779) on values: the passes it makes, and that they end in the one
    stable sorted arrangement. */
module SortSpec {
  import opened Basics
  import opened HashNode

  type Compare = (Node, Node) -> int

  predicate Le(cmp: Compare, a: Node, b: Node) { cmp(a, b) <= 0 }

  /** The comparison is a total preorder on these nodes. */
  ghost predicate Preorder(cmp: Compare, s: set<Node>) {
    && (forall a, b :: a in s && b in s ==> Le(cmp, a, b) || Le(cmp, b, a))
    && (forall a, b, c :: a in s && b in s && c in s && Le(cmp, a, b) && Le(cmp, b, c) ==> Le(cmp, a, c))
  }

  /** a belongs before b: it is smaller, or equal and earlier in the original list. */
  ghost predicate Precedes(cmp: Compare, rank: map<Node, nat>, a: Node, b: Node) {
    a in rank && b in rank && Le(cmp, a, b) && (!Le(cmp, b, a) || rank[a] < rank[b])
  }

  ghost predicate Sorted(cmp: Compare, rank: map<Node, nat>, s: seq<Node>) {
    forall i, j :: 0 <= i < j < |s| ==> Precedes(cmp, rank, s[i], s[j])
  }

  // ---------- the passes ----------

  function Merge(cmp: Compare, p: seq<Node>, q: seq<Node>): (r: seq<Node>)
    ensures |r| == |p| + |q|
    decreases |p| + |q|
  {
    if p == [] then q
    else if q == [] then p
    else if Le(cmp, p[0], q[0]) then [p[0]] + Merge(cmp, p[1..], q)
    else [q[0]] + Merge(cmp, p, q[1..])
  }

  function Min(a: nat, b: nat): nat { if a < b then a else b }

  function Front(s: seq<Node>, k: nat): seq<Node> { s[..Min(k, |s|)] }

  function Back(s: seq<Node>, k: nat): seq<Node> { s[Min(k, |s|)..] }

  lemma FrontBack(s: seq<Node>, k: nat)
    ensures s == Front(s, k) + Back(s, k) && multiset(s) == multiset(Front(s, k)) + multiset(Back(s, k))
    ensures |Front(s, k)| == Min(k, |s|)
  {
    assert s == Front(s, k) + Back(s, k);
  }

  /** One pass: runs of k are merged two by two. */
  function Pass(cmp: Compare, s: seq<Node>, k: nat): (r: seq<Node>)
    requires k > 0
    ensures |r| == |s|
    decreases |s|
  {
    if s == [] then []
    else Merge(cmp, Front(s, k), Front(Back(s, k), k)) + Pass(cmp, Back(Back(s, k), k), k)
  }

  /** The passes until one has made at most one merge. */
  function Sort(cmp: Compare, s: seq<Node>, k: nat): (r: seq<Node>)
    requires k > 0
    ensures |r| == |s|
    decreases if |s| > 2 * k then |s| - 2 * k else 0
  {
    if |s| <= 2 * k then Pass(cmp, s, k) else Sort(cmp, Pass(cmp, s, k), 2 * k)
  }

  // ---------- what they keep ----------

  lemma {:induction false} MergeElements(cmp: Compare, p: seq<Node>, q: seq<Node>)
    ensures multiset(Merge(cmp, p, q)) == multiset(p) + multiset(q)
    decreases |p| + |q|
  {
    if p != [] && q != [] {
      if Le(cmp, p[0], q[0]) {
        MergeElements(cmp, p[1..], q);
        assert p == [p[0]] + p[1..] && Merge(cmp, p, q) == [p[0]] + Merge(cmp, p[1..], q);
        hide *;
      } else {
        MergeElements(cmp, p, q[1..]);
        assert q == [q[0]] + q[1..] && Merge(cmp, p, q) == [q[0]] + Merge(cmp, p, q[1..]);
        hide *;
      }
    }
  }

  lemma {:induction false} PassElements(cmp: Compare, s: seq<Node>, k: nat)
    requires k > 0
    ensures multiset(Pass(cmp, s, k)) == multiset(s)
    decreases |s|
  {
    if s != [] {
      var p, r := Front(s, k), Back(s, k);
      var q, r2 := Front(r, k), Back(r, k);
      MergeElements(cmp, p, q);
      PassElements(cmp, r2, k);
      hide Merge, Front, Back;
      FrontBack(s, k);
      FrontBack(r, k);
    }
  }

  // ---------- why they sort ----------

  /** A sorted block that consists of the nodes with original places base, base + 1, ... */
  ghost predicate Block(cmp: Compare, rank: map<Node, nat>, b: seq<Node>, base: nat) {
    Sorted(cmp, rank, b) && forall i :: 0 <= i < |b| ==> b[i] in rank && base <= rank[b[i]] < base + |b|
  }

  /** The list consists of such blocks of length k; the last may be shorter. */
  ghost predicate Blocks(cmp: Compare, rank: map<Node, nat>, s: seq<Node>, k: nat, base: nat)
    requires k > 0
    decreases |s|
  {
    s == [] || (Block(cmp, rank, Front(s, k), base) && Blocks(cmp, rank, Back(s, k), k, base + k))
  }

  lemma MergeFirst(cmp: Compare, p: seq<Node>, q: seq<Node>, x: Node)
    requires x in Merge(cmp, p, q)
    ensures x in p || x in q
  {
    MergeElements(cmp, p, q);
    assert x in multiset(Merge(cmp, p, q));
    assert x in multiset(p) || x in multiset(q);
  }

  /** Merging two sorted lists of which the first is the earlier one. */
  lemma {:induction false} MergeSorted(cmp: Compare, rank: map<Node, nat>, p: seq<Node>, q: seq<Node>)
    requires Preorder(cmp, rank.Keys) && Sorted(cmp, rank, p) && Sorted(cmp, rank, q)
    requires forall x :: x in p || x in q ==> x in rank
    requires forall x, y :: x in p && y in q ==> rank[x] < rank[y]
    ensures Sorted(cmp, rank, Merge(cmp, p, q))
    decreases |p| + |q|
  {
    if p != [] && q != [] {
      hide Precedes, Preorder;
      if Le(cmp, p[0], q[0]) {
        SortedTail(cmp, rank, p);
        MergeSorted(cmp, rank, p[1..], q);
        var r := Merge(cmp, p[1..], q);
        forall z | z in r ensures Precedes(cmp, rank, p[0], z) {
          MergeFirst(cmp, p[1..], q, z);
          if z in q { AfterLeft(cmp, rank, p, q, z); }
        }
        SortedCons(cmp, rank, p[0], r);
      } else {
        SortedTail(cmp, rank, q);
        MergeSorted(cmp, rank, p, q[1..]);
        var r := Merge(cmp, p, q[1..]);
        forall z | z in r ensures Precedes(cmp, rank, q[0], z) {
          MergeFirst(cmp, p, q[1..], z);
          if z in p { AfterRight(cmp, rank, p, q, z); }
        }
        SortedCons(cmp, rank, q[0], r);
      }
    }
  }

  lemma SortedTail(cmp: Compare, rank: map<Node, nat>, p: seq<Node>)
    requires Sorted(cmp, rank, p) && p != []
    ensures Sorted(cmp, rank, p[1..]) && forall z :: z in p[1..] ==> Precedes(cmp, rank, p[0], z)
  {
  }

  lemma AfterLeft(cmp: Compare, rank: map<Node, nat>, p: seq<Node>, q: seq<Node>, z: Node)
    requires Preorder(cmp, rank.Keys) && Sorted(cmp, rank, q) && p != [] && q != [] && Le(cmp, p[0], q[0])
    requires p[0] in rank && z in q && z in rank && q[0] in rank && rank[p[0]] < rank[z]
    ensures Precedes(cmp, rank, p[0], z)
  {
    var i :| 0 <= i < |q| && q[i] == z;
    assert Le(cmp, q[0], z) by {
      if i > 0 { assert Precedes(cmp, rank, q[0], q[i]); }
    }
  }

  lemma AfterRight(cmp: Compare, rank: map<Node, nat>, p: seq<Node>, q: seq<Node>, z: Node)
    requires Preorder(cmp, rank.Keys) && Sorted(cmp, rank, p) && p != [] && q != [] && !Le(cmp, p[0], q[0])
    requires p[0] in rank && z in p && z in rank && q[0] in rank
    ensures Precedes(cmp, rank, q[0], z)
  {
    var i :| 0 <= i < |p| && p[i] == z;
    assert Le(cmp, p[0], z) by {
      if i > 0 { assert Precedes(cmp, rank, p[0], p[i]); }
    }
  }

  lemma SortedCons(cmp: Compare, rank: map<Node, nat>, x: Node, r: seq<Node>)
    requires Sorted(cmp, rank, r) && forall z :: z in r ==> Precedes(cmp, rank, x, z)
    ensures Sorted(cmp, rank, [x] + r)
  {
    hide Precedes;
  }

  /** Merging two neighbouring blocks gives one block. */
  lemma MergeBlocks(cmp: Compare, rank: map<Node, nat>, p: seq<Node>, q: seq<Node>, base: nat)
    requires Preorder(cmp, rank.Keys) && Block(cmp, rank, p, base) && Block(cmp, rank, q, base + |p|)
    ensures Block(cmp, rank, Merge(cmp, p, q), base)
  {
    hide Sorted, Preorder;
    MergeSorted(cmp, rank, p, q);
    var m := Merge(cmp, p, q);
    forall i | 0 <= i < |m| ensures m[i] in rank && base <= rank[m[i]] < base + |m| {
      MergeFirst(cmp, p, q, m[i]);
    }
  }

  /** A pass over blocks of length k leaves blocks of length 2k. */
  lemma {:induction false} PassBlocks(cmp: Compare, rank: map<Node, nat>, s: seq<Node>, k: nat, base: nat)
    requires k > 0 && Preorder(cmp, rank.Keys) && Blocks(cmp, rank, s, k, base)
    ensures Blocks(cmp, rank, Pass(cmp, s, k), 2 * k, base)
    decreases |s|
  {
    hide *;
    if s == [] {
      NoBlocks(cmp, rank, k, base);
    } else {
      var p, r := Front(s, k), Back(s, k);
      var q, r2 := Front(r, k), Back(r, k);
      var m, rest := Merge(cmp, p, q), Pass(cmp, r2, k);
      TwoBlocks(cmp, rank, s, k, base);
      PassUnfold(cmp, s, k);
      MergeBlocks(cmp, rank, p, q, base);
      PassBlocks(cmp, rank, r2, k, base + 2 * k);
      BlocksCons(cmp, rank, m, rest, 2 * k, base);
    }
  }

  lemma NoBlocks(cmp: Compare, rank: map<Node, nat>, k: nat, base: nat)
    requires k > 0
    ensures Blocks(cmp, rank, Pass(cmp, [], k), 2 * k, base)
  {
  }

  lemma PassUnfold(cmp: Compare, s: seq<Node>, k: nat)
    requires k > 0 && s != []
    ensures var p, r := Front(s, k), Back(s, k); var q, r2 := Front(r, k), Back(r, k);
      Pass(cmp, s, k) == Merge(cmp, p, q) + Pass(cmp, r2, k) && |r2| < |s|
  {
    hide Merge;
  }

  lemma TwoBlocks(cmp: Compare, rank: map<Node, nat>, s: seq<Node>, k: nat, base: nat)
    requires k > 0 && Blocks(cmp, rank, s, k, base) && s != []
    ensures var p, r := Front(s, k), Back(s, k); var q, r2 := Front(r, k), Back(r, k);
      && Block(cmp, rank, p, base) && Block(cmp, rank, q, base + |p|) && Blocks(cmp, rank, r2, k, base + 2 * k)
      && 0 < |p| + |q| <= 2 * k && (|p| + |q| < 2 * k ==> r2 == [])
  {
    NextBlock(cmp, rank, s, k, base);
    hide Block;
  }

  lemma BlocksCons(cmp: Compare, rank: map<Node, nat>, m: seq<Node>, rest: seq<Node>, k: nat, base: nat)
    requires k > 0 && Block(cmp, rank, m, base) && Blocks(cmp, rank, rest, k, base + k)
    requires 0 < |m| <= k && (|m| < k ==> rest == [])
    ensures Blocks(cmp, rank, m + rest, k, base)
  {
    hide Block;
    assert Front(m + rest, k) == m && Back(m + rest, k) == rest;
  }

  /** The second block of a list begins where the first one ends. */
  lemma NextBlock(cmp: Compare, rank: map<Node, nat>, s: seq<Node>, k: nat, base: nat)
    requires k > 0 && Blocks(cmp, rank, s, k, base) && s != []
    ensures var r := Back(s, k); Block(cmp, rank, Front(r, k), base + |Front(s, k)|) && (r != [] ==> |Front(s, k)| == k)
  {
    if Back(s, k) == [] { assert Front(Back(s, k), k) == []; }
  }

  ghost predicate Identity(rank: map<Node, nat>, s: seq<Node>) {
    NoDup(s) && rank.Keys == (set x | x in s) && forall i :: 0 <= i < |s| ==> rank[s[i]] == i
  }

  lemma {:induction false} SingleBlocks(cmp: Compare, rank: map<Node, nat>, s: seq<Node>, base: nat)
    requires forall i :: 0 <= i < |s| ==> s[i] in rank && rank[s[i]] == base + i
    ensures Blocks(cmp, rank, s, 1, base)
    decreases |s|
  {
    if s != [] {
      assert Front(s, 1) == [s[0]] && Back(s, 1) == s[1..];
      SingleBlocks(cmp, rank, s[1..], base + 1);
    }
  }

  lemma {:induction false} SortBlocks(cmp: Compare, rank: map<Node, nat>, s: seq<Node>, k: nat)
    requires k > 0 && Preorder(cmp, rank.Keys) && Blocks(cmp, rank, s, k, 0)
    ensures Sorted(cmp, rank, Sort(cmp, s, k)) && multiset(Sort(cmp, s, k)) == multiset(s)
    decreases if |s| > 2 * k then |s| - 2 * k else 0
  {
    hide Preorder, Sorted, Blocks, Pass;
    PassBlocks(cmp, rank, s, k, 0);
    PassElements(cmp, s, k);
    if |s| <= 2 * k {
      OneBlock(cmp, rank, Pass(cmp, s, k), 2 * k);
    } else {
      SortBlocks(cmp, rank, Pass(cmp, s, k), 2 * k);
    }
  }

  lemma OneBlock(cmp: Compare, rank: map<Node, nat>, s: seq<Node>, k: nat)
    requires k > 0 && Blocks(cmp, rank, s, k, 0) && |s| <= k
    ensures Sorted(cmp, rank, s)
  {
    if s != [] { assert Front(s, k) == s; }
  }

  /** The sort yields a permutation of the list in which every node precedes those after it: sorted, and equal nodes in
      their original order. */
  lemma SortIsStable(cmp: Compare, rank: map<Node, nat>, s: seq<Node>)
    requires Identity(rank, s) && Preorder(cmp, rank.Keys)
    ensures Sorted(cmp, rank, Sort(cmp, s, 1)) && multiset(Sort(cmp, s, 1)) == multiset(s)
  {
    hide Preorder, Sorted, Blocks;
    SingleBlocks(cmp, rank, s, 0);
    SortBlocks(cmp, rank, s, 1);
  }

  /** There is only one such arrangement. */
  lemma {:induction false} ArrangementUnique(cmp: Compare, rank: map<Node, nat>, a: seq<Node>, b: seq<Node>)
    requires Sorted(cmp, rank, a) && Sorted(cmp, rank, b) && multiset(a) == multiset(b)
    ensures a == b
    decreases |a|
  {
    assert |multiset(a)| == |multiset(b)|;
    if a != [] {
      assert a[0] in multiset(b) && b[0] in multiset(a);
      SameFirst(cmp, rank, a, b);
      SortedTail(cmp, rank, a);
      SortedTail(cmp, rank, b);
      hide *;
      TailElements(a);
      TailElements(b);
      ArrangementUnique(cmp, rank, a[1..], b[1..]);
    }
  }

  lemma TailElements(a: seq<Node>)
    requires a != []
    ensures a == [a[0]] + a[1..] && multiset(a[1..]) == multiset(a) - multiset{a[0]}
  {
    assert a == [a[0]] + a[1..];
  }

  lemma SameFirst(cmp: Compare, rank: map<Node, nat>, a: seq<Node>, b: seq<Node>)
    requires a != [] && b != [] && a[0] in b && b[0] in a
    requires Sorted(cmp, rank, a) && Sorted(cmp, rank, b)
    ensures a[0] == b[0]
  {
    var i :| 0 <= i < |b| && b[i] == a[0];
    var j :| 0 <= j < |a| && a[j] == b[0];
    assert j > 0 ==> Precedes(cmp, rank, a[0], a[j]);
    assert i > 0 ==> Precedes(cmp, rank, b[0], b[i]);
  }
}
