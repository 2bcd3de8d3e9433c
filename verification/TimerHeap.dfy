/** The 4-ary timer heap of libev (ev.c:1661-1708, 1747-1788) on values: order, and how one move changes it. The first
    heap entry, at index HEAP0 of the source's array, is element 0 here. */
module TimerHeap {

  /** ev_timer; `active` is its heap index (0 when inactive), `pending` its index in its pending queue, plus one. */
  class Watcher {
    var active: int
    var pending: int
    var priority: int
    var at: real
    var repeat: real

    /** ev_timer_init */
    constructor (after: real, repeat: real)
      ensures active == 0 && pending == 0 && priority == 0 && at == after && this.repeat == repeat
    {
      active, pending, priority, at, this.repeat := 0, 0, 0, after, repeat;
    }
  }

  /** A heap entry: a watcher and the cached time at which it is due. */
  datatype Anhe = Anhe(at: real, w: Watcher)

  const DHEAP := 4
  const HEAP0 := DHEAP - 1

  /** Division that truncates toward zero, as in C. */
  function Quotient(a: int, b: nat): int
    requires b > 0
  {
    if a < 0 then -((-a) / b) else a / b
  }

  /** HPARENT, for element numbers: the root is its own parent because -1 / 4 is 0 in C. */
  function Parent(k: nat): (p: nat)
    ensures k == 0 ==> p == 0
    ensures k > 0 ==> p < k && 4 * p + 1 <= k <= 4 * p + 4
  {
    Quotient(k - 1, DHEAP)
  }

  lemma ParentOfChild(k: nat, c: nat)
    requires 4 * k + 1 <= c <= 4 * k + 4
    ensures Parent(c) == k
  {
  }

  /** The edge above element j is in order. */
  predicate Edge(h: seq<Anhe>, j: nat)
    requires j < |h|
  {
    h[Parent(j)].at <= h[j].at
  }

  ghost predicate Ordered(h: seq<Anhe>) {
    forall j: nat :: j < |h| ==> Edge(h, j)
  }

  /** In order but for the edge above k, and the children of k are not below its parent. */
  ghost predicate OrderedAbove(h: seq<Anhe>, k: nat) {
    && (forall j: nat :: j < |h| && j != k ==> Edge(h, j))
    && (forall c: nat :: 0 < c < |h| && Parent(c) == k && 0 < k < |h| ==> h[Parent(k)].at <= h[c].at)
  }

  /** In order but for the edges below k, and the children of k are not below its parent. */
  ghost predicate OrderedBelow(h: seq<Anhe>, k: nat) {
    && (forall j: nat :: 0 < j < |h| && Parent(j) != k ==> Edge(h, j))
    && (forall c: nat :: 0 < c < |h| && Parent(c) == k && 0 < k < |h| ==> h[Parent(k)].at <= h[c].at)
  }

  function Swap(h: seq<Anhe>, a: nat, b: nat): (h': seq<Anhe>)
    requires a < |h| && b < |h|
    ensures |h'| == |h|
  {
    h[a := h[b]][b := h[a]]
  }

  ghost predicate Distinct(h: seq<Anhe>) {
    forall i, j :: 0 <= i < j < |h| ==> h[i].w != h[j].w
  }

  lemma SwapKeeps(h: seq<Anhe>, a: nat, b: nat)
    requires a < |h| && b < |h|
    ensures multiset(Swap(h, a, b)) == multiset(h)
    ensures Distinct(h) ==> Distinct(Swap(h, a, b))
  {
  }

  /** Moving a smaller element one level up. */
  lemma UpStep(h: seq<Anhe>, k: nat)
    requires k < |h| && k > 0 && OrderedAbove(h, k) && h[k].at < h[Parent(k)].at
    ensures OrderedAbove(Swap(h, k, Parent(k)), Parent(k))
  {
    var p := Parent(k);
    var h' := Swap(h, k, p);
    forall j: nat | j < |h| && j != p ensures Edge(h', j) {
      assert j != k ==> Edge(h, j);
      if p > 0 { assert Edge(h, p); }
    }
    forall c: nat | 0 < c < |h| && Parent(c) == p ensures h'[Parent(p)].at <= h'[c].at {
      assert Edge(h, p);
      assert c != k ==> Edge(h, c);
    }
  }

  lemma UpDone(h: seq<Anhe>, k: nat)
    requires k < |h| && OrderedAbove(h, k) && (k == 0 || h[Parent(k)].at <= h[k].at)
    ensures Ordered(h)
  {
    forall j: nat | j < |h| ensures Edge(h, j) {
    }
  }

  /** The first of the smallest children of k. */
  predicate MinChild(h: seq<Anhe>, k: nat, m: nat) {
    4 * k + 1 <= m <= 4 * k + 4 && m < |h| && forall c: nat :: 4 * k + 1 <= c <= 4 * k + 4 && c < |h| ==>
      h[m].at <= h[c].at
  }

  /** Moving a larger element one level down, in place of its smallest child. */
  lemma DownStep(h: seq<Anhe>, k: nat, m: nat)
    requires k < |h| && OrderedBelow(h, k) && MinChild(h, k, m) && h[m].at < h[k].at
    ensures OrderedBelow(Swap(h, k, m), m)
  {
    ParentOfChild(k, m);
    var h' := Swap(h, k, m);
    forall j: nat | 0 < j < |h| && Parent(j) != m ensures Edge(h', j) {
      if Parent(j) != k { assert Edge(h, j); }
    }
    forall c: nat | 0 < c < |h| && Parent(c) == m ensures h'[Parent(m)].at <= h'[c].at {
      assert Edge(h, c);
    }
  }

  lemma DownDone(h: seq<Anhe>, k: nat)
    requires k < |h| && OrderedBelow(h, k)
    requires 4 * k + 1 >= |h| || exists m: nat :: MinChild(h, k, m) && h[k].at <= h[m].at
    ensures Ordered(h)
  {
    forall j: nat | j < |h| ensures Edge(h, j) {
    }
  }

  /** The first element is the smallest. */
  lemma {:induction false} RootIsLeast(h: seq<Anhe>, j: nat)
    requires Ordered(h) && j < |h|
    ensures h[0].at <= h[j].at
    decreases j
  {
    if j > 0 {
      assert Edge(h, j);
      RootIsLeast(h, Parent(j));
    }
  }

  /** Only the time of element k has changed: it has to move up, or else down. */
  lemma Adjust(h: seq<Anhe>, k: nat, e: Anhe)
    requires Ordered(h) && k < |h|
    ensures var h' := h[k := e];
      if k > 0 && e.at <= h[Parent(k)].at then OrderedAbove(h', k) else OrderedBelow(h', k)
  {
    var h' := h[k := e];
    assert Edge(h, k);
    forall c: nat | 0 < c < |h| && Parent(c) == k && k > 0 ensures h'[Parent(k)].at <= h'[c].at {
      assert Edge(h, c);
    }
    forall j: nat | 0 < j < |h| && j != k && Parent(j) != k ensures Edge(h', j) {
      assert Edge(h, j);
    }
    forall j: nat | 0 < j < |h| && Parent(j) == k && k > 0 && e.at <= h[Parent(k)].at ensures Edge(h', j) {
      assert Edge(h, j);
    }
  }

  /** A new last element has only the edge above it to mend. */
  lemma Append(h: seq<Anhe>, e: Anhe)
    requires Ordered(h)
    ensures OrderedAbove(h + [e], |h|)
  {
    forall j: nat | j < |h| ensures Edge(h + [e], j) {
      assert Edge(h, j);
    }
  }
}
