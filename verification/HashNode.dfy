/** The hash handle of uthash (uthash.h) and the two kinds of links it carries. */
module HashNode {

  /** UT_hash_handle, together with the element it is part of. */
  class Node {
    const key: string
    var hashv: nat
    /** application order */
    var next: Node?
    var prev: Node?
    /** bucket order */
    var hhNext: Node?
    var hhPrev: Node?

    constructor (key: string)
      ensures this.key == key
    {
      this.key := key;
      hashv, next, prev, hhNext, hhPrev := 0, null, null, null, null;
    }
  }

  /** The node at i, or null past either end. */
  function At(s: seq<Node>, i: int): Node? {
    if 0 <= i < |s| then s[i] else null
  }

  /** The nodes are linked in this order, both ways. */
  ghost predicate Listed(s: seq<Node>)
    reads set i | 0 <= i < |s| :: s[i]`next, set i | 0 <= i < |s| :: s[i]`prev
  {
    forall i :: 0 <= i < |s| ==> s[i].next == At(s, i + 1) && s[i].prev == At(s, i - 1)
  }
}
