/** Value-level steps of arena_chunk_alloc and arena_chunk_dealloc (arena.c:341-464). */
module ChunkSteps {
  import opened Basics
  import opened PageMap
  import opened ArenaChunk
  import opened Avail
  import opened ArenaInv
  import opened LiveRuns

  /** ql_remove */
  function Without(dl: seq<nat>, x: nat): (r: seq<nat>)
    ensures |r| <= |dl|
    ensures forall y :: y in r <==> y in dl && y != x
    ensures x in dl ==> |r| < |dl|
  {
    if dl == [] then [] else if dl[0] == x then Without(dl[1..], x) else [dl[0]] + Without(dl[1..], x)
  }

  lemma {:induction false} WithoutDistinct(dl: seq<nat>, x: nat)
    requires forall i, j :: 0 <= i < j < |dl| ==> dl[i] != dl[j]
    ensures var r := Without(dl, x); forall i, j :: 0 <= i < j < |r| ==> r[i] != r[j]
  {
    if dl != [] {
      WithoutDistinct(dl[1..], x);
      assert forall j :: 0 < j < |dl| ==> dl[j] in dl[1..];
      assert dl[0] !in dl[1..];
      assert dl[0] !in Without(dl[1..], x);
    }
  }

  /** No chunk but the spare, and possibly `except`, is entirely free. */
  ghost predicate Resting(c: Config, chunks: map<nat, Chunk>, spare: Option<nat>, except: Option<nat>) {
    forall x :: x in chunks && spare != Some(x) && except != Some(x) ==> !c.Idle(chunks[x].own)
  }

  /** The only run of an entirely free chunk. */
  lemma IdleChunk(c: Config, ch: Chunk)
    requires ChunkOK(c, ch) && c.Idle(ch.own)
    ensures forall p :: c.bias <= p < c.npages ==>
      ch.own[p] == Run(c.bias, c.npages - c.bias, Free, ch.own[c.bias].dirty)
    ensures ch.bits[c.bias].num == c.npages - c.bias && ch.bits[c.bias].dirty == ch.own[c.bias].dirty
    ensures ActivePages(c, ch) == 0
    ensures ch.ndirty == if ch.own[c.bias].dirty then c.npages - c.bias else 0
  {
    var r := ch.own[c.bias];
    assert forall p :: c.bias <= p < c.npages ==> ch.own[p] == r;
    assert c.Tagged(ch.bits, r);
    CountUniform(ch.own, Active, ClassOf(r), c.bias, c.npages);
    CountUniform(ch.own, DirtyFree, ClassOf(r), c.bias, c.npages);
  }

  function WholeNode(c: Config, x: nat): Node
    requires c.bias <= c.npages
  {
    Node(c.npages - c.bias, x, c.bias)
  }

  /** Chunk x becomes the spare. */
  lemma RetireTree(c: Config, t: set<Node>, chunks: map<nat, Chunk>, x: nat, d: bool)
    requires x in chunks && ChunkOK(c, chunks[x]) && c.Idle(chunks[x].own)
    requires TreeOK(c, t, chunks, None, d)
    ensures TreeOK(c, if chunks[x].own[c.bias].dirty == d then t - {WholeNode(c, x)} else t, chunks, Some(x), d)
    ensures chunks[x].own[c.bias].dirty == d ==> WholeNode(c, x) in t
  {
    IdleChunk(c, chunks[x]);
    assert chunks[x].own[c.bias].dirty == d ==> IsFree(c, chunks[x], c.bias, c.npages - c.bias, d);
  }

  /** The spare x is put back to use. */
  lemma ReviveTree(c: Config, t: set<Node>, chunks: map<nat, Chunk>, x: nat, d: bool)
    requires x in chunks && ChunkOK(c, chunks[x]) && c.Idle(chunks[x].own)
    requires TreeOK(c, t, chunks, Some(x), d)
    ensures TreeOK(c, if chunks[x].own[c.bias].dirty == d then t + {WholeNode(c, x)} else t, chunks, None, d)
  {
    IdleChunk(c, chunks[x]);
  }

  /** The old spare is discarded: no tree mentions it. */
  lemma DiscardTree(c: Config, t: set<Node>, chunks: map<nat, Chunk>, sp: nat, d: bool)
    requires TreeOK(c, t, chunks, Some(sp), d)
    ensures TreeOK(c, t, chunks - {sp}, None, d)
  {
    forall n | n in t ensures IsFree(c, (chunks - {sp})[n.chunk], n.page, n.size, d) {
      assert IsFree(c, chunks[n.chunk], n.page, n.size, d);
    }
    forall x, p {:trigger (chunks - {sp})[x].own[p]} | x in chunks - {sp} && c.bias <= p < |(chunks - {sp})[x].own|
          && IsFree(c, (chunks - {sp})[x], p, (chunks - {sp})[x].own[p].len, d)
      ensures Node((chunks - {sp})[x].own[p].len, x, p) in t
    {
      assert chunks[x].own[p] == (chunks - {sp})[x].own[p];
    }
  }

  /** Discarding the spare keeps the arena invariant (arena.c:451-461). */
  lemma DiscardInv(c: Config, chunks: map<nat, Chunk>, sp: nat, dt: set<Node>, ct: set<Node>, dl: seq<nat>, na: nat,
      nd: nat)
    requires InvOf(c, chunks, Some(sp), dt, ct, dl, na, nd)
    ensures sp in chunks && chunks[sp].ndirty <= nd
    ensures InvOf(c, chunks - {sp}, None, dt, ct,
                  if chunks[sp].dirtied then Without(dl, sp) else dl, na,
                  if chunks[sp].dirtied then nd - chunks[sp].ndirty else nd)
  {
    hide *;
    InvParts(c, chunks, Some(sp), dt, ct, dl, na, nd);
    SpareParts(c, chunks, sp, dt, ct, dl, na, nd);
    DiscardTree(c, dt, chunks, sp, true);
    DiscardTree(c, ct, chunks, sp, false);
    TotalActiveOf(c, chunks, sp);
    TotalDirtyOf(chunks, sp);
    IdleChunk(c, chunks[sp]);
    DiscardList(chunks, dl, sp);
    InvIntro(c, chunks - {sp}, None, dt, ct, if chunks[sp].dirtied then Without(dl, sp) else dl, na,
             if chunks[sp].dirtied then nd - chunks[sp].ndirty else nd);
  }

  lemma SpareParts(c: Config, chunks: map<nat, Chunk>, sp: nat, dt: set<Node>, ct: set<Node>, dl: seq<nat>, na: nat,
      nd: nat)
    requires InvOf(c, chunks, Some(sp), dt, ct, dl, na, nd)
    ensures sp in chunks && ChunkOK(c, chunks[sp]) && c.Idle(chunks[sp].own)
    ensures chunks[sp].ndirty > 0 ==> chunks[sp].dirtied
    ensures AllOK(c, chunks - {sp})
  {
  }

  lemma DiscardList(chunks: map<nat, Chunk>, dl: seq<nat>, sp: nat)
    requires ListOK(chunks, dl) && sp in chunks
    ensures chunks[sp].dirtied ==> ListOK(chunks - {sp}, Without(dl, sp))
    ensures !chunks[sp].dirtied ==> ListOK(chunks - {sp}, dl)
  {
    hide Without;
    WithoutDistinct(dl, sp);
    var m := chunks - {sp};
    forall y ensures y in m && m[y].dirtied <==> y in dl && y != sp {
      if y in m { assert m[y] == chunks[y]; }
    }
  }

  /** An entirely free chunk becomes the spare. */
  lemma RetireInv(c: Config, chunks: map<nat, Chunk>, x: nat, dt: set<Node>, ct: set<Node>, dl: seq<nat>, na: nat,
      nd: nat)
    requires InvOf(c, chunks, None, dt, ct, dl, na, nd) && x in chunks && c.Idle(chunks[x].own)
    ensures var d := chunks[x].own[c.bias].dirty;
      InvOf(c, chunks, Some(x), if d then dt - {WholeNode(c, x)} else dt, if d then ct
        else ct - {WholeNode(c, x)}, dl, na, nd)
  {
    RetireTree(c, dt, chunks, x, true);
    RetireTree(c, ct, chunks, x, false);
    hide TreeOK, TotalActive, TotalDirty, ListOK;
  }

  lemma ReviveInv(c: Config, chunks: map<nat, Chunk>, x: nat, dt: set<Node>, ct: set<Node>, dl: seq<nat>, na: nat,
      nd: nat)
    requires InvOf(c, chunks, Some(x), dt, ct, dl, na, nd)
    ensures x in chunks && |chunks[x].own| == c.npages && c.bias < c.npages
    ensures var d := chunks[x].own[c.bias].dirty;
      InvOf(c, chunks, None, if d then dt + {WholeNode(c, x)} else dt, if d then ct
        else ct + {WholeNode(c, x)}, dl, na, nd)
  {
    ReviveTree(c, dt, chunks, x, true);
    ReviveTree(c, ct, chunks, x, false);
    hide TreeOK, TotalActive, TotalDirty, ListOK;
  }

  /** The page map of a chunk fresh from chunk_alloc: one maximal free run, zeroed iff the chunk was
      (arena.c:381-423). `noise` is whatever the uninitialised map entries hold; a zeroed chunk has a zeroed map. */
  ghost predicate FreshChunk(c: Config, ch: Chunk, zeroed: bool) {
    && Shaped(c, ch) && ch.ndirty == 0 && !ch.dirtied
    && (forall p :: c.bias <= p < c.npages ==> ch.own[p] == Run(c.bias, c.npages - c.bias, Free, false))
    && ch.bits[c.bias] == Unallocated(c.npages - c.bias, false, !zeroed)
    && ch.bits[c.npages - 1] == Unallocated(c.npages - c.bias, false, !zeroed)
    && (forall p :: c.bias <= p < c.npages ==> ch.bits[p].unzeroed == !zeroed && !ch.touched[p])
    && (zeroed ==> forall p :: c.bias <= p < c.npages ==> ch.zero[p])
  }

  lemma FreshOK(c: Config, ch: Chunk, zeroed: bool)
    requires FreshChunk(c, ch, zeroed)
    ensures ChunkOK(c, ch) && c.Idle(ch.own) && !ch.own[c.bias].dirty
  {
    CountUniform(ch.own, DirtyFree, CleanFree, c.bias, c.npages);
  }

  /** A new chunk from the system is put to use, whatever the spare is by now. */
  lemma AddInv(c: Config, chunks: map<nat, Chunk>, spare: Option<nat>, x: nat, ch: Chunk, dt: set<Node>, ct: set<Node>,
      dl: seq<nat>, na: nat, nd: nat)
    requires InvOf(c, chunks, spare, dt, ct, dl, na, nd) && x !in chunks
    requires ChunkOK(c, ch) && c.Idle(ch.own) && !ch.dirtied && !ch.own[c.bias].dirty
    ensures c.bias <= c.npages && InvOf(c, chunks[x := ch], spare, dt, ct + {WholeNode(c, x)}, dl, na, nd)
  {
    var m := chunks[x := ch];
    hide *;
    InvParts(c, chunks, spare, dt, ct, dl, na, nd);
    IdleChunk(c, ch);
    AddShape(c, ch);
    InvChunks(c, chunks, spare, dt, ct, dl, na, nd);
    AddTree(c, dt, chunks, spare, x, ch, true);
    AddTree(c, ct, chunks, spare, x, ch, false);
    AddParts(c, chunks, spare, x, ch, dl);
    assert m - {x} == chunks;
    TotalActiveOf(c, m, x);
    TotalDirtyOf(m, x);
    InvIntro(c, m, spare, dt, ct + {WholeNode(c, x)}, dl, na, nd);
  }

  lemma AddShape(c: Config, ch: Chunk)
    requires ChunkOK(c, ch) && c.Idle(ch.own)
    ensures c.bias < c.npages == |ch.own| && (!ch.dirtied ==> ch.ndirty == 0)
  {
  }

  lemma AddParts(c: Config, chunks: map<nat, Chunk>, spare: Option<nat>, x: nat, ch: Chunk, dl: seq<nat>)
    requires AllOK(c, chunks) && ListOK(chunks, dl) && x !in chunks && ChunkOK(c, ch) && !ch.dirtied
    requires spare.Some? ==> spare.value in chunks && c.Idle(chunks[spare.value].own)
    ensures var m := chunks[x := ch];
      AllOK(c, m) && ListOK(m, dl) && (spare.Some? ==> spare.value in m && c.Idle(m[spare.value].own))
  {
    hide ChunkOK;
    var m := chunks[x := ch];
    assert forall y :: y in m ==> m[y] == if y == x then ch else chunks[y];
  }

  lemma AddTree(c: Config, t: set<Node>, chunks: map<nat, Chunk>, spare: Option<nat>, x: nat, ch: Chunk, d: bool)
    requires TreeOK(c, t, chunks, spare, d) && x !in chunks && spare != Some(x)
    requires ChunkOK(c, ch) && c.Idle(ch.own) && !ch.own[c.bias].dirty
    ensures c.bias <= c.npages && TreeOK(c, if d then t else t + {WholeNode(c, x)}, chunks[x := ch], spare, d)
  {
    IdleChunk(c, ch);
    hide ChunkOK;
    AddShape(c, ch);
    var m := chunks[x := ch];
    var t' := if d then t else t + {WholeNode(c, x)};
    forall n | n in t ensures n.chunk in m && spare != Some(n.chunk) && IsFree(c, m[n.chunk], n.page, n.size, d) {
      assert IsFree(c, chunks[n.chunk], n.page, n.size, d);
    }
    if !d { assert IsFree(c, ch, c.bias, c.npages - c.bias, false); }
    forall y, p {:trigger m[y].own[p]} | y in m && spare != Some(y) && c.bias <= p < |m[y].own|
          && IsFree(c, m[y], p, m[y].own[p].len, d)
      ensures Node(m[y].own[p].len, y, p) in t'
    {
      if y != x { assert chunks[y].own[p] == m[y].own[p]; }
    }
  }

  lemma InvChunk(c: Config, chunks: map<nat, Chunk>, spare: Option<nat>, dt: set<Node>, ct: set<Node>, dl: seq<nat>,
                 na: nat, nd: nat, x: nat)
    requires InvOf(c, chunks, spare, dt, ct, dl, na, nd) && x in chunks
    ensures ChunkOK(c, chunks[x]) && Shaped(c, chunks[x]) && c.Tiled(chunks[x].own)
    ensures 0 < c.bias < c.npages == |chunks[x].own| == |chunks[x].bits|
  {
  }

  lemma DirtyAtMost(c: Config, ch: Chunk)
    requires ChunkOK(c, ch)
    ensures ch.ndirty < c.npages
  {
    CountAtMost(ch.own, DirtyFree, c.bias, c.npages);
  }

  /** An entirely free chunk can be dropped without disturbing anyone. */
  lemma NoLiveInIdle(c: Config, m: map<nat, Chunk>, x: nat)
    requires x in m && ChunkOK(c, m[x]) && c.Idle(m[x].own)
    ensures Undisturbed(c, m, m - {x}, {}, {}) && Undisturbed(c, m - {x}, m, {}, {})
    ensures forall r :: !Live(c, m, x, r)
  {
    UndisturbedChunk(c, m, x);
  }

  lemma RetireRests(c: Config, m: map<nat, Chunk>, m': map<nat, Chunk>, spare: Option<nat>, x: nat)
    requires Resting(c, m, spare, Some(x)) && x in m && spare != Some(x)
    requires m' == if spare.Some? then m - {spare.value} else m
    ensures Resting(c, m', Some(x), None)
  {
  }

  lemma WholeNodeIs(c: Config, x: nat)
    requires c.bias <= c.npages
    ensures WholeNode(c, x) == Node(c.npages - c.bias, x, c.bias)
  {
  }

  lemma ReviveRests(c: Config, m: map<nat, Chunk>, x: nat)
    requires Resting(c, m, Some(x), None)
    ensures Resting(c, m, None, Some(x))
  {
  }

  lemma RestingExcept(c: Config, m: map<nat, Chunk>, spare: Option<nat>, x: nat)
    requires Resting(c, m, spare, None)
    ensures Resting(c, m, spare, Some(x))
    ensures x in m && spare != Some(x) ==> !c.Idle(m[x].own)
  {
  }
}
