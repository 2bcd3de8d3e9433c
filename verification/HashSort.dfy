/** HASH_SRT (uthash.h:702-779): the merge sort that relinks the application-order list in place. */
module HashSort {
  import opened Basics
  import opened HashNode
  import opened SortSpec

  /** Consecutive nodes are linked forward; the last link is free. */
  ghost predicate Run(s: seq<Node>)
    reads set i | 0 <= i < |s| :: s[i]`next
  {
    forall i :: 0 <= i < |s| - 1 ==> s[i].next == s[i + 1]
  }

  /** A forward list that ends in null. */
  ghost predicate Chain(s: seq<Node>)
    reads set i | 0 <= i < |s| :: s[i]`next
  {
    forall i :: 0 <= i < |s| ==> s[i].next == At(s, i + 1)
  }

  /** The list built so far; the link of its last node is not set yet. */
  ghost predicate Built(s: seq<Node>)
    reads set i | 0 <= i < |s| :: s[i]`next, set i | 0 <= i < |s| :: s[i]`prev
  {
    Run(s) && forall i :: 0 <= i < |s| ==> s[i].prev == At(s, i - 1)
  }

  function Last(s: seq<Node>): Node? { At(s, |s| - 1) }

  /** Append a node to the list built so far. */
  method Emit(e: Node, list: Node?, tail: Node?, ghost out: seq<Node>) returns (list': Node?, tail': Node?)
    requires Built(out) && NoDup(out) && e !in out && list == At(out, 0) && tail == Last(out)
    modifies (if tail != null then {tail} else {})`next, e`prev
    ensures Built(out + [e]) && list' == At(out + [e], 0) && tail' == e
  {
    list' := list;
    if tail != null {
      tail.next := e;
    } else {
      list' := e;
    }
    e.prev := tail;
    tail' := e;
  }

  function AsSet(s: seq<Node>): set<Node> { set x | x in s }

  /** No node occurs twice in the three lists. */
  ghost predicate Apart(a: seq<Node>, b: seq<Node>, c: seq<Node>) {
    && NoDup(a) && NoDup(b) && NoDup(c)
    && (forall x :: x in a ==> x !in b && x !in c) && (forall x :: x in b ==> x !in c)
  }

  /** Where a merge stands: `out` is built, p heads the run P, q heads the run Q that is followed by R. */
  ghost predicate Merging(out: seq<Node>, P: seq<Node>, Q: seq<Node>, R: seq<Node>, p: Node?, q: Node?, list: Node?,
      tail: Node?)
    reads AsSet(out)`next, AsSet(out)`prev, AsSet(P)`next, AsSet(Q + R)`next
  {
    && Built(out) && list == At(out, 0) && tail == Last(out)
    && Run(P) && (P != [] ==> p == P[0])
    && Chain(Q + R) && q == At(Q + R, 0)
    && Apart(out, P, Q + R)
  }

  /** Move the first node of P to the end of the list built. */
  method TakeLeft(p: Node, ghost q: Node?, list: Node?, tail: Node?, ghost out: seq<Node>, ghost P: seq<Node>,
      ghost Q: seq<Node>, ghost R: seq<Node>)
    returns (p': Node?, list': Node?, tail': Node?)
    requires P != [] && Merging(out, P, Q, R, p, q, list, tail)
    modifies (if tail != null then {tail} else {})`next, p`prev
    ensures Merging(out + [P[0]], P[1..], Q, R, p', q, list', tail')
  {
    LeftParts(out, P, Q + R);
    p' := p.next;
    list', tail' := Emit(p, list, tail, out);
  }

  lemma LeftParts(out: seq<Node>, b: seq<Node>, c: seq<Node>)
    requires b != [] && Apart(out, b, c)
    ensures b[0] !in out && b[0] !in b[1..] && b[0] !in c && Apart(out + [b[0]], b[1..], c)
    ensures out != [] ==> Last(out) !in b && Last(out) !in c
  {
    assert out != [] ==> out[|out| - 1] in out;
    assert b[0] in b;
  }

  /** Move the first node of Q. */
  method TakeRight(ghost p: Node?, q: Node, list: Node?, tail: Node?, ghost out: seq<Node>, ghost P: seq<Node>,
      ghost Q: seq<Node>, ghost R: seq<Node>)
    returns (q': Node?, list': Node?, tail': Node?)
    requires Q != [] && Merging(out, P, Q, R, p, q, list, tail)
    modifies (if tail != null then {tail} else {})`next, q`prev
    ensures Merging(out + [Q[0]], P, Q[1..], R, p, q', list', tail')
  {
    RightParts(out, P, Q, R);
    q' := q.next;
    list', tail' := Emit(q, list, tail, out);
  }

  lemma RightParts(out: seq<Node>, b: seq<Node>, Q: seq<Node>, R: seq<Node>)
    requires Q != [] && Apart(out, b, Q + R)
    ensures (Q + R)[1..] == Q[1..] + R && (Q + R)[0] == Q[0]
    ensures Q[0] !in out && Q[0] !in b && Q[0] !in Q[1..] + R && Apart(out + [Q[0]], b, Q[1..] + R)
    ensures out != [] ==> Last(out) !in b && Last(out) !in Q + R
  {
    var c := Q + R;
    assert c[1..] == Q[1..] + R;
    assert c[0] in c;
    assert out != [] ==> out[|out| - 1] in out;
  }

  lemma MergingFacts(out: seq<Node>, P: seq<Node>, Q: seq<Node>, R: seq<Node>, p: Node?, q: Node?, list: Node?,
      tail: Node?)
    requires Merging(out, P, Q, R, p, q, list, tail)
    ensures (P != [] ==> p == P[0]) && q == At(Q + R, 0) && (Q != [] ==> q == Q[0])
    ensures (if tail != null then {tail} else {}) <= AsSet(out)
  {
    if tail != null { assert out[|out| - 1] in out; }
  }

  lemma Regroup(out: seq<Node>, x: Node, m: seq<Node>)
    ensures out + [x] + m == out + ([x] + m)
  {
  }

  lemma MergeLeft(cmp: Compare, out: seq<Node>, P: seq<Node>, Q: seq<Node>)
    requires P != [] && (Q == [] || Le(cmp, P[0], Q[0]))
    ensures out + [P[0]] + Merge(cmp, P[1..], Q) == out + Merge(cmp, P, Q)
  {
    assert Merge(cmp, P, Q) == [P[0]] + Merge(cmp, P[1..], Q);
    hide *;
    Regroup(out, P[0], Merge(cmp, P[1..], Q));
  }

  lemma MergeRight(cmp: Compare, out: seq<Node>, P: seq<Node>, Q: seq<Node>)
    requires Q != [] && (P == [] || !Le(cmp, P[0], Q[0]))
    ensures out + [Q[0]] + Merge(cmp, P, Q[1..]) == out + Merge(cmp, P, Q)
  {
    assert Merge(cmp, P, Q) == [Q[0]] + Merge(cmp, P, Q[1..]);
    hide *;
    Regroup(out, Q[0], Merge(cmp, P, Q[1..]));
  }

  lemma SetLeft(out: seq<Node>, P: seq<Node>, S: seq<Node>)
    requires P != []
    ensures AsSet(out + [P[0]] + P[1..] + S) == AsSet(out + P + S)
  {
    assert out + [P[0]] + P[1..] + S == out + P + S;
  }

  lemma SetRight(out: seq<Node>, P: seq<Node>, Q: seq<Node>, R: seq<Node>)
    requires Q != []
    ensures AsSet(out + [Q[0]] + P + (Q[1..] + R)) == AsSet(out + P + (Q + R))
  {
    assert Q == [Q[0]] + Q[1..];
    hide AsSet;
    SetOf(out + [Q[0]] + P + (Q[1..] + R), out + P + (Q + R));
  }

  lemma SetOf(a: seq<Node>, b: seq<Node>)
    requires forall x :: x in a <==> x in b
    ensures AsSet(a) == AsSet(b)
  {
  }

  /** Merge the run of psize nodes at p with the run of at most qsize nodes at q. */
  method MergeRuns(cmp: Compare, p0: Node?, psize0: nat, q0: Node?, qsize0: nat, list0: Node?, tail0: Node?,
                   ghost out0: seq<Node>, ghost P0: seq<Node>, ghost Q0: seq<Node>, ghost R: seq<Node>)
    returns (q: Node?, list: Node?, tail: Node?, ghost out: seq<Node>)
    requires Merging(out0, P0, Q0, R, p0, q0, list0, tail0)
    requires psize0 == |P0| && |Q0| <= qsize0 && (|Q0| < qsize0 ==> R == [])
    modifies AsSet(out0 + P0 + (Q0 + R))`next, AsSet(out0 + P0 + (Q0 + R))`prev
    ensures out == out0 + Merge(cmp, P0, Q0) && Merging(out, [], [], R, null, q, list, tail)
  {
    var p, psize, qsize := p0, psize0, qsize0;
    q, list, tail, out := q0, list0, tail0, out0;
    ghost var P, Q := P0, Q0;
    ghost var all := AsSet(out0 + P0 + (Q0 + R));
    hide Merging, Merge, AsSet;
    while psize > 0 || (qsize > 0 && q != null)
      invariant Merging(out, P, Q, R, p, q, list, tail)
      invariant psize == |P| && |Q| <= qsize && (|Q| < qsize ==> R == [])
      invariant out + Merge(cmp, P, Q) == out0 + Merge(cmp, P0, Q0)
      invariant AsSet(out + P + (Q + R)) == all
      decreases |P| + |Q|
    {
      MergingFacts(out, P, Q, R, p, q, list, tail);
      SetParts(out, P, Q, R);
      var fromQ := true;
      if psize == 0 {
      } else if qsize == 0 || q == null {
        fromQ := false;
      } else if cmp(p, q) <= 0 {
        fromQ := false;
      }
      if fromQ {
        MergeRight(cmp, out, P, Q);
        SetRight(out, P, Q, R);
        ghost var e := Q[0];
        q, list, tail := TakeRight(p, q, list, tail, out, P, Q, R);
        qsize := qsize - 1;
        out, Q := out + [e], Q[1..];
      } else {
        MergeLeft(cmp, out, P, Q);
        SetLeft(out, P, Q + R);
        ghost var e := P[0];
        p, list, tail := TakeLeft(p, q, list, tail, out, P, Q, R);
        psize := psize - 1;
        out, P := out + [e], P[1..];
      }
    }
    MergingFacts(out, P, Q, R, p, q, list, tail);
    MergingEnd(cmp, out, R, p, q, list, tail);
  }

  lemma SetParts(out: seq<Node>, P: seq<Node>, Q: seq<Node>, R: seq<Node>)
    ensures var all := AsSet(out + P + (Q + R));
      AsSet(out) <= all && (P != [] ==> P[0] in all) && (Q != [] ==> Q[0] in all)
  {
  }

  lemma MergingEnd(cmp: Compare, out: seq<Node>, R: seq<Node>, p: Node?, q: Node?, list: Node?, tail: Node?)
    requires Merging(out, [], [], R, p, q, list, tail)
    ensures Merging(out, [], [], R, null, q, list, tail) && out + Merge(cmp, [], []) == out
  {
  }

  /** The for loop that steps over at most insize nodes from p. */
  method SkipRun(p: Node, insize: nat, ghost L: seq<Node>) returns (q: Node?, psize: nat)
    requires insize > 0 && L != [] && Chain(L) && p == L[0]
    ensures psize == Min(insize, |L|) && q == At(L, psize)
  {
    q, psize := p, 0;
    for i := 0 to insize
      invariant psize == i && psize < |L| && q == L[psize]
    {
      psize := psize + 1;
      q := q.next;
      if q == null {
        break;
      }
    }
  }

  /** Between two merges of a pass: out is built, the nodes of S are left. */
  ghost predicate Between(out: seq<Node>, S: seq<Node>, p: Node?, list: Node?, tail: Node?)
    reads AsSet(out)`next, AsSet(out)`prev, AsSet(S)`next
  {
    Built(out) && list == At(out, 0) && tail == Last(out) && Chain(S) && p == At(S, 0) && Apart(out, [], S)
  }

  lemma TwoRuns(out: seq<Node>, S: seq<Node>, k: nat)
    requires k > 0 && S != []
    ensures var P, r := Front(S, k), Back(S, k); var Q, R := Front(r, k), Back(r, k);
      && |P| == Min(k, |S|) && |Q| <= k && (|Q| < k ==> R == []) && P != [] && S == P + r == P + (Q + R)
      && out + P + (Q + R) == out + S
  {
    FrontBack(S, k);
    FrontBack(Back(S, k), k);
  }

  lemma SplitRuns(out: seq<Node>, S: seq<Node>, k: nat, p: Node?, q: Node?, list: Node?, tail: Node?)
    requires k > 0 && S != [] && Between(out, S, p, list, tail) && q == At(S, Min(k, |S|))
    ensures var P, r := Front(S, k), Back(S, k); var Q, R := Front(r, k), Back(r, k);
      && Merging(out, P, Q, R, p, q, list, tail) && |P| == Min(k, |S|) && |Q| <= k && (|Q| < k ==> R == []) && P != []
      && S == P + (Q + R) && AsSet(out + P + (Q + R)) == AsSet(out + S)
  {
    var P, r := Front(S, k), Back(S, k);
    var Q, R := Front(r, k), Back(r, k);
    assert S[0] == At(S, 0) && Built(out) && list == At(out, 0) && tail == Last(out) && Chain(S) && Apart(out, [], S);
    TwoRuns(out, S, k);
    RunParts(S, k);
    ApartSplit(out, P, r);
    hide Built, Apart, Chain, Run, AsSet;
  }

  lemma RunParts(S: seq<Node>, k: nat)
    requires k > 0 && S != [] && Chain(S)
    ensures Run(Front(S, k)) && Chain(Back(S, k)) && Front(S, k)[0] == S[0] && At(Back(S, k), 0) == At(S, Min(k, |S|))
    ensures |Front(S, k)| == Min(k, |S|) && |Front(Back(S, k), k)| <= k &&
      (|Front(Back(S, k), k)| < k ==> Back(Back(S, k), k) == [])
  {
    var P, r := Front(S, k), Back(S, k);
    forall i | 0 <= i < |r| ensures r[i].next == At(r, i + 1) { assert r[i] == S[|P| + i]; }
    forall i | 0 <= i < |P| - 1 ensures P[i].next == P[i + 1] { assert P[i] == S[i] && P[i + 1] == S[i + 1]; }
  }

  lemma ApartSplit(out: seq<Node>, P: seq<Node>, r: seq<Node>)
    requires Apart(out, [], P + r)
    ensures Apart(out, P, r)
  {
    var S := P + r;
    assert forall i :: 0 <= i < |P| ==> S[i] == P[i];
    assert forall i :: 0 <= i < |r| ==> S[|P| + i] == r[i];
    forall x | x in P ensures x !in r {
      var i :| 0 <= i < |P| && P[i] == x;
    }
  }

  lemma MergedRuns(out: seq<Node>, R: seq<Node>, q: Node?, list: Node?, tail: Node?)
    requires Merging(out, [], [], R, null, q, list, tail)
    ensures Between(out, R, q, list, tail)
  {
    assert [] + R == R;
  }

  lemma PassStep(cmp: Compare, out: seq<Node>, S: seq<Node>, k: nat)
    requires k > 0 && S != []
    ensures var P, r := Front(S, k), Back(S, k); var Q, R := Front(r, k), Back(r, k);
      && out + Merge(cmp, P, Q) + Pass(cmp, R, k) == out + Pass(cmp, S, k)
      && AsSet(out + Merge(cmp, P, Q) + R) == AsSet(out + S) && |R| < |S| && Merge(cmp, P, Q) != []
  {
    hide *;
    PassUnfold(cmp, S, k);
    var P, r := Front(S, k), Back(S, k);
    var Q, R := Front(r, k), Back(r, k);
    FrontBack(S, k);
    FrontBack(r, k);
    MergeNotEmpty(cmp, S, k);
    assert out + Merge(cmp, P, Q) + Pass(cmp, R, k) == out + (Merge(cmp, P, Q) + Pass(cmp, R, k));
    forall x ensures x in out + Merge(cmp, P, Q) + R <==> x in out + S {
      MergeMembers(cmp, P, Q, x);
    }
    SetOf(out + Merge(cmp, P, Q) + R, out + S);
  }

  lemma MergeNotEmpty(cmp: Compare, S: seq<Node>, k: nat)
    requires k > 0 && S != []
    ensures Merge(cmp, Front(S, k), Front(Back(S, k), k)) != []
  {
  }

  lemma MergeMembers(cmp: Compare, P: seq<Node>, Q: seq<Node>, x: Node)
    ensures x in Merge(cmp, P, Q) <==> x in P || x in Q
  {
    MergeElements(cmp, P, Q);
    assert x in Merge(cmp, P, Q) <==> x in multiset(Merge(cmp, P, Q));
  }

  /** One pass over the list. */
  method OnePass(cmp: Compare, list0: Node, insize: nat, ghost L: seq<Node>)
    returns (list: Node, tail: Node, nmerges: nat)
    requires insize > 0 && L != [] && Chain(L) && NoDup(L) && list0 == L[0]
    modifies AsSet(L)`next, AsSet(L)`prev
    ensures var s := Pass(cmp, L, insize);
      s != [] && Listed(s) && NoDup(s) && AsSet(s) == AsSet(L) && list == s[0] && tail == Last(s)
    ensures nmerges <= 1 <==> |L| <= 2 * insize
  {
    hide Merge, Pass, Front, Back, Built, Chain, Apart, AsSet, NoDup;
    var p: Node?, l: Node?, t: Node? := list0, null, null;
    nmerges := 0;
    ghost var out: seq<Node>, S := [], L;
    Starting(cmp, L, insize);
    while p != null
      invariant Between(out, S, p, l, t) && out + Pass(cmp, S, insize) == Pass(cmp, L, insize) &&
        AsSet(out + S) == AsSet(L)
      invariant nmerges == 0 ==> S == L
      invariant nmerges > 0 ==> out != []
      invariant nmerges == 1 ==> S == Back(Back(L, insize), insize)
      invariant nmerges > 1 ==> Back(Back(L, insize), insize) != []
      decreases |S|
    {
      nmerges := nmerges + 1;
      var q, psize := SkipRun(p, insize, S);
      SplitRuns(out, S, insize, p, q, l, t);
      PassStep(cmp, out, S, insize);
      ghost var P, r := Front(S, insize), Back(S, insize);
      ghost var Q, R := Front(r, insize), Back(r, insize);
      q, l, t, out := MergeRuns(cmp, p, psize, q, insize, l, t, out, P, Q, R);
      MergedRuns(out, R, q, l, t);
      p := q;
      S := R;
    }
    PassDone(cmp, L, insize, out);
    LastIn(out, l, t);
    list, tail := l, t;
    Close(tail, out);
  }

  /** The last node gets its link. */
  method Close(t: Node, ghost out: seq<Node>)
    requires Built(out) && NoDup(out) && t == Last(out)
    modifies t`next
    ensures Listed(out)
  {
    t.next := null;
  }

  lemma LastIn(out: seq<Node>, l: Node?, t: Node?)
    requires out != [] && Between(out, [], null, l, t)
    ensures Built(out) && NoDup(out) && t != null && l != null && t == Last(out) && l == out[0] && t in AsSet(out)
  {
    assert out[|out| - 1] in out;
  }

  lemma Starting(cmp: Compare, L: seq<Node>, k: nat)
    requires k > 0 && L != [] && Chain(L) && NoDup(L)
    ensures Between([], L, L[0], null, null) && [] + Pass(cmp, L, k) == Pass(cmp, L, k) && [] + L == L
    ensures Back(Back(L, k), k) == [] <==> |L| <= 2 * k
  {
  }

  lemma PassDone(cmp: Compare, L: seq<Node>, k: nat, out: seq<Node>)
    requires k > 0 && out + Pass(cmp, [], k) == Pass(cmp, L, k) && AsSet(out + []) == AsSet(L)
    ensures out == Pass(cmp, L, k) && AsSet(out) == AsSet(L)
  {
    assert out + [] == out;
  }

  /** HASH_SRT, for a list that is not empty: passes over longer and longer runs until one has made a single merge. */
  method SortList(cmp: Compare, head: Node, ghost L: seq<Node>) returns (head': Node, tail: Node)
    requires L != [] && Chain(L) && NoDup(L) && head == L[0]
    modifies AsSet(L)`next, AsSet(L)`prev
    ensures var s := Sort(cmp, L, 1);
      Listed(s) && NoDup(s) && s != [] && AsSet(s) == AsSet(L) && head' == s[0] && tail == Last(s)
  {
    hide Pass, Chain, NoDup, AsSet, Listed;
    var insize, looping := 1, true;
    ghost var S := L;
    head', tail := head, head;
    while looping
      invariant insize > 0 && S != [] && NoDup(S) && AsSet(S) == AsSet(L) && head' == S[0]
      invariant looping ==> Chain(S) && Sort(cmp, S, insize) == Sort(cmp, L, 1)
      invariant !looping ==> S == Sort(cmp, L, 1) && Listed(S) && tail == Last(S)
      decreases looping, if |S| > 2 * insize then |S| - 2 * insize else 0
    {
      var nmerges;
      SortUnfold(cmp, S, insize);
      head', tail, nmerges := OnePass(cmp, head', insize, S);
      S := Pass(cmp, S, insize);
      if nmerges <= 1 {
        looping := false;
      }
      ListedChain(S);
      insize := insize * 2;
    }
  }

  lemma SortUnfold(cmp: Compare, S: seq<Node>, k: nat)
    requires k > 0
    ensures Sort(cmp, S, k) == if |S| <= 2 * k then Pass(cmp, S, k) else Sort(cmp, Pass(cmp, S, k), 2 * k)
  {
  }

  lemma ListedChain(S: seq<Node>)
    requires Listed(S)
    ensures Chain(S)
  {
  }
}
