/** The analyzer's gather rounds (gather.c:24-330) and the refresh of its targets (meta.c:57-71). */
module Gather {
  import opened Basics
  import opened Resp
  import DownServers
  import RespEncoding

  /** stTargetServer */
  class TargetServer {
    const key: string
    var gatherSeqId: int
    var failCount: int
    var inDownList: bool

    constructor (key: string)
      ensures this.key == key && gatherSeqId == 0 && failCount == 0 && !inDownList
    {
      this.key, gatherSeqId, failCount, inDownList := key, 0, 0, false;
    }
  }

  /** stGatherData, which travels with a query */
  datatype GatherData = GatherData(seqId: int, listId: int)

  /** A reply that counted: what the store had been asked, and what it said. */
  datatype Ballot = Ballot(data: GatherData, query: seq<string>, reply: Reply)

  function Keys(s: seq<TargetServer>): (ks: seq<string>)
    ensures |ks| == |s|
  {
    seq(|s|, i requires 0 <= i < |s| => s[i].key)
  }

  function AsSet(s: seq<TargetServer>): set<TargetServer> { set x | x in s }

  ghost predicate DistinctKeys(s: seq<TargetServer>) {
    forall i, j :: 0 <= i < j < |s| ==> s[i].key != s[j].key
  }

  function Lengths(s: seq<string>): (n: seq<nat>)
    ensures |n| == |s|
  {
    seq(|s|, i requires 0 <= i < |s| => |s[i]|)
  }

  // ---------- replies ----------

  /** isspace in the C locale */
  predicate Blank(c: char): (b: bool)
    ensures b <==> c in [' ', '\t', '\n', '\U{0B}', '\U{0C}', '\r']
  {
    c == ' ' || '\t' <= c <= '\r'
  }

  function Digits(s: string, v: int): int {
    if s == "" || !Digit(s[0]) then v else Digits(s[1..], v * 10 + DigitValue(s[0]))
  }

  /** atoi */
  function Atoi(s: string): int {
    if s == "" then 0
    else if Blank(s[0]) then Atoi(s[1..])
    else if s[0] == '-' then -Digits(s[1..], 0)
    else if s[0] == '+' then Digits(s[1..], 0)
    else Digits(s, 0)
  }

  const ALIVE_STATE_UP := 1

  predicate Up(r: Reply) { r.Text? && Atoi(r.s) == ALIVE_STATE_UP }

  /** From p on: zeros, a one at z, and no digit after it. */
  predicate OneAt(s: string, p: nat, z: nat) {
    p <= z < |s| && (forall i :: p <= i < z ==> s[i] == '0') && s[z] == '1' && (z + 1 < |s| ==> !Digit(s[z + 1]))
  }

  /** Blanks, perhaps a plus, zeros, a one, and no digit after it. */
  ghost predicate SaysOne(s: string) {
    exists p: nat, z: nat :: SignedOne(s, p, z)
  }

  predicate SignedOne(s: string, p: nat, z: nat) {
    p < |s| && (forall i :: 0 <= i < p ==> Blank(s[i])) && OneAt(s, if s[p] == '+' then p + 1 else p, z)
  }

  lemma {:induction false} DigitsGrow(s: string, v: int)
    requires v >= 0
    ensures Digits(s, v) >= v && (s != "" && Digit(s[0]) ==> Digits(s, v) >= v * 10 + DigitValue(s[0]))
    decreases |s|
  {
    if s != "" && Digit(s[0]) { DigitsGrow(s[1..], v * 10 + DigitValue(s[0])); }
  }

  lemma {:induction false} DigitsOne(s: string, p: nat)
    requires p <= |s|
    ensures Digits(s[p..], 0) == 1 <==> exists z: nat :: OneAt(s, p, z)
    decreases |s| - p
  {
    if p < |s| && Digit(s[p]) {
      assert s[p..][1..] == s[p + 1..];
      if s[p] == '0' {
        DigitsOne(s, p + 1);
        assert Digits(s[p..], 0) == Digits(s[p + 1..], 0);
        var q := p + 1;
        if z: nat :| OneAt(s, q, z) { assert OneAt(s, p, z); }
        if z: nat :| OneAt(s, p, z) { assert OneAt(s, q, z); }
      } else {
        DigitsGrow(s[p + 1..], DigitValue(s[p]));
        if s[p] == '1' && (p + 1 < |s| ==> !Digit(s[p + 1])) { assert OneAt(s, p, p); }
        assert forall z: nat :: OneAt(s, p, z) ==> z == p;
      }
    }
  }

  lemma {:induction false} AtoiOne(s: string, p: nat)
    requires p <= |s| && forall i :: 0 <= i < p ==> Blank(s[i])
    ensures Atoi(s[p..]) == 1 <==> SaysOne(s)
    decreases |s| - p
  {
    if p < |s| && Blank(s[p]) {
      assert s[p..][1..] == s[p + 1..];
      AtoiOne(s, p + 1);
    } else {
      assert forall q: nat, z: nat :: SignedOne(s, q, z) ==> q == p;
      if p < |s| {
        assert s[p..][1..] == s[p + 1..];
        var q := if s[p] == '+' then p + 1 else p;
        DigitsOne(s, q);
        DigitsGrow(s[p + 1..], 0);
        assert forall z: nat :: SignedOne(s, p, z) <==> OneAt(s, q, z);
      }
    }
  }

  /** A store reports a server up exactly by a string that says one: nil, an integer, an error or an array does not. */
  lemma UpExactly(r: Reply)
    ensures Up(r) <==> r.Text? && SaysOne(r.s)
  {
    if r.Text? {
      assert r.s[0..] == r.s;
      AtoiOne(r.s, 0);
    }
  }

  lemma {:induction false} DigitsDecimal(n: nat, y: string)
    ensures Digits(RespEncoding.DecimalNat(n) + y, 0) == Digits(y, n)
    decreases n
  {
    hide *;
    RespEncoding.DecimalStep(n);
    var d := RespEncoding.DigitChar(n % 10);
    DigitFirst(d, y, if n < 10 then 0 else n / 10);
    if n >= 10 {
      DigitsDecimal(n / 10, [d] + y);
      assert RespEncoding.DecimalNat(n) + y == RespEncoding.DecimalNat(n / 10) + ([d] + y);
    }
  }

  lemma DigitFirst(c: char, y: string, v: int)
    requires Digit(c)
    ensures Digits([c] + y, v) == Digits(y, v * 10 + DigitValue(c))
  {
    assert ([c] + y)[1..] == y;
  }

  /** atoi reads what %d prints, whatever follows that is no digit: a state that was stored is up exactly if it is 1. */
  lemma UpDecimal(n: int, tail: string)
    requires tail == "" || !Digit(tail[0])
    ensures Atoi(RespEncoding.Decimal(n) + tail) == n
    ensures Up(Text(RespEncoding.Decimal(n) + tail)) <==> n == 1
  {
    var m: nat := if n < 0 then -n else n;
    DigitsDecimal(m, tail);
    DigitsStop(tail, m);
    var d := RespEncoding.DecimalNat(m);
    hide Digits, RespEncoding.DecimalNat;
    assert (d + tail)[0] == d[0] && d[0] in d;
    if n < 0 {
      SignRead("-" + d + tail, d + tail);
    }
  }

  lemma DigitsStop(tail: string, v: int)
    requires tail == "" || !Digit(tail[0])
    ensures Digits(tail, v) == v
  {
  }

  lemma SignRead(s: string, t: string)
    requires s == "-" + t
    ensures Atoi(s) == -Digits(t, 0)
  {
    hide Digits;
    assert s[1..] == t;
  }

  /** The store says that the server is not up: the value at the position that the key had in its MGET. */
  predicate Against(b: Ballot, key: string) {
    b.reply.Arr?
    && exists p :: 2 <= p < |b.query| && p - 1 < |b.reply.element| && b.query[p] == key && !Up(b.reply.element[p - 1])
  }

  /** The stores that say so. */
  function Accusers(ballots: map<int, Ballot>, key: string): set<int> {
    set st | st in ballots && Against(ballots[st], key)
  }

  class Analyzer {
    const quota: int
    var cur: seq<TargetServer>
    var tmp: seq<TargetServer>
    var list: seq<TargetServer>
    var argv: seq<string>
    var argvLen: seq<nat>
    var listId: int
    var toBeUpdated: bool
    var curSeqId: int
    /** The down list, with the exchange state of each record. */
    var down: map<string, DownServers.Phase>
    /** The gather queries without a reply, by store. */
    var outstanding: map<int, GatherData>

    /** The query that each outstanding gather has sent. */
    ghost var asked: map<int, seq<string>>
    /** The replies that counted in this round, by store. */
    ghost var ballots: map<int, Ballot>
    /** The list id, the servers and the query that this round began with. */
    ghost var roundList: int
    ghost var roundServers: set<TargetServer>
    ghost var roundQuery: seq<string>

    constructor (quota: int)
      ensures Valid() && cur == [] && listId == 0 && this.quota == quota && down == map[] && outstanding == map[]
    {
      this.quota, cur, tmp, list, argv, argvLen := quota, [], [], [], [], [];
      listId, toBeUpdated, curSeqId, down, outstanding, asked := 0, false, 0, map[], map[], map[];
      ballots, roundList, roundServers, roundQuery := map[], 0, {}, [];
    }

    /** The gather list and the query name exactly the live targets, in one order. */
    ghost predicate ListOK()
      reads this`cur, this`list, this`listId, this`argv, this`argvLen
    {
      ListFor(cur)
    }

    ghost predicate ListFor(targets: seq<TargetServer>)
      reads this`list, this`listId, this`argv, this`argvLen
    {
      && DistinctKeys(targets) && DistinctKeys(list) && (forall s :: s in list ==> s in targets) &&
        (forall s :: s in targets ==> s in list)
      && (if listId == 0 then targets == [] && argv == [] && argvLen == []
        else argv == ["MGET", "monitor_state"] + Keys(list) && argvLen == Lengths(argv))
      && listId >= 0
    }

    /** The stores that reported the target not up in this round; a target that came later has been reported by none. */
    ghost function VotesFor(s: TargetServer): set<int>
      reads this`ballots, this`roundServers
    {
      if s in roundServers then Accusers(ballots, s.key) else {}
    }

    ghost predicate VotesOK(targets: seq<TargetServer>)
      reads this`ballots, this`roundServers, targets
    {
      forall s :: s in targets ==> s.failCount == |VotesFor(s)|
    }

    /** A query of this round asked what the round began with, and its store has not answered yet. */
    ghost predicate QueriesOK()
      reads this`outstanding, this`asked, this`curSeqId, this`ballots, this`roundList, this`roundQuery
    {
      && asked.Keys == outstanding.Keys
      && forall st :: st in outstanding ==>
           && outstanding[st].seqId <= curSeqId
           && (outstanding[st].seqId == curSeqId ==>
                st !in ballots && outstanding[st].listId == roundList > 0 && asked[st] == roundQuery)
    }

    /** What counted was gathered in this round for the list it began with; as long as the list keeps that id, it is
        that list. */
    ghost predicate RoundOK()
      reads this`ballots, this`curSeqId, this`roundList, this`roundServers, this`roundQuery, this`listId, this`list,
        this`argv
    {
      && roundList <= listId
      && (roundList == listId ==> argv == roundQuery && forall s :: s in list ==> s in roundServers)
      && forall st :: st in ballots ==>
           ballots[st].data == GatherData(curSeqId, roundList) && ballots[st].query == roundQuery && Fits(ballots[st])
    }

    /** The reply has a value for each key that was asked for, and comes from a monitor that is up. */
    ghost predicate Fits(b: Ballot) {
      b.reply.Arr? && |b.query| == |b.reply.element| + 1 >= 2 && Up(b.reply.element[0])
    }

    ghost predicate CountOK()
      reads this, cur
    {
      VotesOK(cur) && QueriesOK() && RoundOK()
    }

    ghost predicate Valid()
      reads this, cur
    {
      ListOK() && CountOK() && tmp == [] && !toBeUpdated
    }

    /** failCount is the number of stores whose counted reply of this round has, at the position of the target's key in
        the query, a value that is not UP. Counted replies are of this round and of the list it began with. */
    lemma FailCountMeans(s: TargetServer)
      requires Valid() && s in cur
      ensures s.failCount == if s in roundServers then |Accusers(ballots, s.key)| else 0
      ensures forall st :: st in ballots ==>
        ballots[st].data == GatherData(curSeqId, roundList) && ballots[st].query == roundQuery
    {
      hide Accusers, Fits;
    }

    /** addServerToDownList */
    method AddToDownList(key: string) returns (ret: int)
      modifies this`down
      ensures if key in old(down) then ret == 0 && down == old(down)
              else if |DownServers.Split(key)| == 3 then ret == 0 && down == old(down)[key := DownServers.EXCHANGE]
              else ret == -1 && down == old(down)
    {
      if key in down {
        return 0;
      }
      if |DownServers.Split(key)| != 3 {
        return -1;
      }
      down := down[key := DownServers.EXCHANGE];
      return 0;
    }

    /** rmServerFromDownList */
    method RmFromDownList(key: string) returns (ret: int)
      modifies this`down
      ensures if key in old(down) && old(down)[key] != DownServers.EXCHANGE then ret == -1 && down == old(down)
              else ret == 0 && down == old(down) - {key}
    {
      if key in down {
        if down[key] != DownServers.EXCHANGE {
          return -1;
        }
        down := down - {key};
      } else {
        assert down == down - {key};
      }
      return 0;
    }

    // ---------- the refresh of the targets ----------

    /** A refresh has come as far as `done`: the targets still in cur are the old ones that are not named yet. */
    ghost predicate Refreshing(was: seq<TargetServer>, done: seq<string>)
      reads this, was, tmp
    {
      && DistinctKeys(was) && DistinctKeys(cur) && (forall s :: s in cur ==> s in was && s.key !in done)
      && (forall s :: s in was && s.key !in done ==> s in cur)
      && Keys(tmp) == done && NoDup(done)
      && (forall s :: s in tmp ==>
        s in was || (s.failCount == 0 && !s.inDownList && (forall o :: o in was ==> o.key != s.key)))
      && (toBeUpdated <==> exists s :: s in tmp && s !in was)
    }

    /** gatherUpdateLocalMetaForServer */
    method UpdateForServer(key: string, ghost was: seq<TargetServer>, ghost done: seq<string>)
      requires Refreshing(was, done) && key !in done
      modifies this`cur, this`tmp, this`toBeUpdated
      ensures Refreshing(was, done + [key])
      ensures forall s :: s in tmp ==> s in old(tmp) || s in was || fresh(s)
    {
      var i := Find(cur, key);
      if i < |cur| {
        var s := cur[i];
        cur := cur[..i] + cur[i + 1..];
        tmp := tmp + [s];
      } else {
        toBeUpdated := true;
        var s := new TargetServer(key);
        tmp := tmp + [s];
      }
    }

    /** The loop of gatherClearOldLocalMeta over the targets that were not named. */
    method DropOld(ghost was: seq<TargetServer>, ghost done: seq<string>)
      requires Refreshing(was, done)
      modifies this`cur, this`tmp, this`toBeUpdated, this`down
      ensures cur == old(tmp) && tmp == []
      ensures toBeUpdated <==> old(toBeUpdated) || old(cur) != []
      ensures down == Dropped(old(down), old(cur))
    {
      var i := 0;
      assert cur[..0] == [];
      while i < |cur|
        invariant i <= |cur| && cur == old(cur) && tmp == old(tmp)
        invariant toBeUpdated <==> old(toBeUpdated) || i > 0
        invariant down == Dropped(old(down), cur[..i])
      {
        toBeUpdated := true;
        DroppedSnoc(old(down), cur[..i], cur[i]);
        assert cur[..i + 1] == cur[..i] + [cur[i]];
        var ret := RmFromDownList(cur[i].key);
        i := i + 1;
      }
      assert cur[..i] == cur;
      cur := tmp;
      tmp := [];
    }

    /** Building the gather list and the query anew. */
    method Rebuild()
      requires DistinctKeys(cur) && listId >= 0 && RoundOK()
      modifies this`list, this`argv, this`argvLen, this`listId, this`toBeUpdated
      ensures ListOK() && RoundOK() && list == cur && listId == old(listId) + 1 && !toBeUpdated
    {
      argv, argvLen := ["MGET", "monitor_state"], [4, 13];
      list := [];
      for i := 0 to |cur|
        invariant listId == old(listId) && list == cur[..i] && argv == ["MGET", "monitor_state"] + Keys(list) &&
          argvLen == Lengths(argv)
      {
        var s := cur[i];
        list := list + [s];
        argvLen := argvLen + [|s.key|];
        argv := argv + [s.key];
      }
      assert cur[..|cur|] == cur;
      listId := listId + 1;
      toBeUpdated := false;
    }

    /** updateLocalMeta for an array of members (SMEMBERS: no member twice), which ends in gatherClearOldLocalMeta. */
    method Refresh(members: seq<string>)
      requires Valid() && NoDup(members)
      modifies this`cur, this`tmp, this`list, this`argv, this`argvLen, this`listId, this`toBeUpdated, this`down
      ensures Valid()
      // exactly the members are targets; those that were targets before are the same objects, others are new
      ensures Keys(cur) == members
      ensures forall s :: s in cur ==>
        s in old(cur) || (fresh(s) && s.failCount == 0 && !s.inDownList && forall o :: o in old(cur) ==> o.key != s.key)
      ensures forall o :: o in old(cur) && o.key in members ==> o in cur
      // the list gets a new id exactly if the membership has changed
      ensures listId == old(listId) + if SameMembers(members, old(Keys(cur))) then 0 else 1
      // and a list with the same id is the same list, with the same query
      ensures listId == old(listId) ==> list == old(list) && argv == old(argv)
      // a target that is no longer one leaves the down list unless its exchange has started
      ensures forall k :: k in down <==>
        k in old(down) && (k in members || k !in old(Keys(cur)) || old(down)[k] != DownServers.EXCHANGE)
      ensures forall k :: k in down ==> down[k] == old(down)[k]
    {
      ghost var was := cur;
      hide ListFor, VotesOK, QueriesOK, RoundOK, Refreshing, DistinctKeys, Dropped, SameMembers, Keys;
      StartRefresh();
      UpdateForAll(members, was);
      RefreshDone(was, members);
      DroppedMeans(down, cur);
      DropOld(was, members);
      StillCounted(was);
      if toBeUpdated {
        Rebuild();
      } else {
        NothingChanged(was);
      }
    }

    method UpdateForAll(members: seq<string>, ghost was: seq<TargetServer>)
      requires NoDup(members) && Refreshing(was, []) && ListFor(was) && VotesOK(was) && RoundOK() && QueriesOK()
      requires forall s :: s in tmp ==> s in was
      modifies this`cur, this`tmp, this`toBeUpdated
      ensures Refreshing(was, members) && ListFor(was) && VotesOK(was) && RoundOK() && QueriesOK()
      ensures forall s :: s in tmp ==> s in was || fresh(s)
    {
      hide ListFor, VotesOK, QueriesOK, RoundOK, Refreshing;
      for i := 0 to |members|
        invariant Refreshing(was, members[..i]) && ListFor(was) && VotesOK(was) && RoundOK() && QueriesOK()
        invariant forall s :: s in tmp ==> s in was || fresh(s)
      {
        assert members[..i + 1] == members[..i] + [members[i]];
        UpdateForServer(members[i], was, members[..i]);
      }
      assert members[..|members|] == members;
    }

    lemma StartRefresh()
      requires Valid()
      ensures Refreshing(cur, []) && listId >= 0
    {
    }

    lemma RefreshDone(was: seq<TargetServer>, members: seq<string>)
      requires Refreshing(was, members)
      ensures Keys(tmp) == members && DistinctKeys(tmp)
      ensures toBeUpdated || cur != [] <==> !SameMembers(members, Keys(was))
      ensures forall k :: k in Keys(cur) <==> k in Keys(was) && k !in members
      ensures forall s :: s in tmp ==>
        s in was || (s.failCount == 0 && !s.inDownList && forall o :: o in was ==> o.key != s.key)
      ensures forall o :: o in was && o.key in members ==> o in tmp
      ensures !toBeUpdated && cur == [] ==> (forall s :: s in tmp ==> s in was) && (forall s :: s in was ==> s in tmp)
    {
      forall i, j | 0 <= i < j < |tmp| ensures tmp[i].key != tmp[j].key {
        assert Keys(tmp)[i] != Keys(tmp)[j];
      }
      KeysOf(was);
      KeysOf(cur);
      KeysOf(tmp);
      hide Keys, DistinctKeys;
      forall k | k in Keys(was) && k !in members ensures k in Keys(cur) {
        var o :| o in was && o.key == k;
        assert o in cur;
      }
      forall k | k in Keys(cur) ensures k in Keys(was) && k !in members {
        var o :| o in cur && o.key == k;
      }
      assert cur != [] ==> cur[0] in was && cur[0].key in Keys(was) && cur[0].key !in members;
      if toBeUpdated {
        var s :| s in tmp && s !in was;
        assert s.key in members && s.key !in Keys(was);
      }
      if !toBeUpdated && cur == [] {
        forall k | k in members ensures k in Keys(was) {
          var s :| s in tmp && s.key == k;
          assert s in was;
        }
      }
    }

    lemma NothingChanged(was: seq<TargetServer>)
      requires ListFor(was) && DistinctKeys(cur) && (forall s :: s in cur ==> s in was) &&
        (forall s :: s in was ==> s in cur)
      ensures ListFor(cur)
    {
      assert cur != [] ==> cur[0] in was;
    }

    /** New targets have no votes yet; the others keep theirs. */
    lemma StillCounted(was: seq<TargetServer>)
      requires VotesOK(was) && forall s :: s in cur ==> s in was || (s.failCount == 0 && s !in roundServers)
      ensures VotesOK(cur)
    {
      hide Accusers;
    }

    // ---------- a gather round ----------

    /** Whether the reply counts: gathered for this round and this list, of the right length, from a monitor that is
        up. */
    predicate Counts(data: GatherData, r: Reply)
      reads this`list, this`curSeqId, this`listId
    {
      && r.Arr? && r.count == |r.element| == |list| + 1
      && data.seqId == curSeqId && data.listId == listId && Up(r.element[0])
    }

    /** processTargetState, for an array reply; `query` is what the store had been asked. */
    method ProcessTargetState(store: int, data: GatherData, ghost query: seq<string>, r: Reply) returns (ret: int)
      requires Valid() && r.Arr? && r.count == |r.element| && store !in outstanding
      requires data.seqId == curSeqId ==> store !in ballots && data.listId == roundList > 0 && query == roundQuery
      modifies this`down, this`ballots, list
      ensures Valid() && ret == if old(Counts(data, r)) then 0 else -1
      ensures !old(Counts(data, r)) ==> down == old(down) && ballots == old(ballots) && forall s :: s in list ==>
        unchanged(s)
      // each value of the reply is charged to the server whose key was at that position of the query sent
      ensures old(Counts(data, r)) ==>
        && ballots == old(ballots)[store := Ballot(data, query, r)] && |query| == |list| + 2
        && forall i :: 0 <= i < |list| ==>
             && list[i].key == query[i + 2]
             && list[i].failCount == old(list[i].failCount) + (if Up(r.element[i + 1]) then 0 else 1)
             && (!r.element[i + 1].Text? ==> list[i].failCount == old(list[i].failCount) + 1)
             && (list[i].inDownList <==>
               old(list[i].inDownList) || (!Up(r.element[i + 1]) && list[i].failCount >= quota))
      // only a server that enough stores reported not up in this round comes onto the down list
      ensures forall k :: k in down && k !in old(down) ==> Convicted(k, store) && NewRecord(down, k)
      // and every such server with a well-formed key is on it
      ensures old(Counts(data, r)) ==> AllListed(|list|, r)
      ensures forall k :: k in old(down) ==> k in down && down[k] == old(down)[k]
    {
      if r.count == 0 || r.count - 1 != |list| {
        return -1;
      }
      if data.seqId != curSeqId {
        return -1;
      }
      if data.listId != listId {
        return -1;
      }
      if !Up(r.element[0]) {
        return -1;
      }
      AskedThis(query);
      assert forall i :: 0 <= i < |r.element| && !r.element[i].Text? ==> !Up(r.element[i]);
      hide ListFor, VotesOK, QueriesOK, RoundOK, Up, Convicted, AllListed;
      ChargeAll(store, data, query, r);
      return 0;
    }

    /** A query of this round for the current list asked for the keys of the list, in its order. */
    lemma AskedThis(query: seq<string>)
      requires ListOK() && RoundOK() && roundList == listId > 0 && query == roundQuery
      ensures |query| == |list| + 2 && forall i :: 0 <= i < |list| ==> list[i].key == query[i + 2]
    {
    }

    /** The loop of processTargetState. */
    method ChargeAll(store: int, data: GatherData, ghost query: seq<string>, r: Reply)
      requires ListOK() && CountOK() && store !in ballots && store !in outstanding && r.Arr? &&
        |r.element| == |list| + 1
      requires data == GatherData(curSeqId, listId) && listId == roundList > 0 && query == roundQuery &&
        Up(r.element[0])
      modifies this`down, this`ballots, list
      ensures ListOK() && CountOK() && ballots == old(ballots)[store := Ballot(data, query, r)]
      ensures forall j :: 0 <= j < |list| ==>
        Charged(list[j], old(list[j].failCount), old(list[j].inDownList), !Up(r.element[j + 1]))
      ensures forall k :: k in down && k !in old(down) ==> Convicted(k, store) && NewRecord(down, k)
      ensures AllListed(|list|, r)
      ensures forall k :: k in old(down) ==> k in down && down[k] == old(down)[k]
    {
      hide *;
      ghost var was, down0, b := Standing(), down, Ballot(data, query, r);
      StandingIs();
      VotesNow();
      StartCharging(r);
      assert forall j :: 0 <= j < |list| ==> was[j].1 == |Accusers(ballots, list[j].key)|;
      var i := 0;
      while i < |list|
        invariant 0 <= i <= |list| && Charging(i, r, was, down0) && ballots == old(ballots)
      {
        i := i + 1;
        ChargeSlot(i, r, was, down0);
      }
      EndCharging(r, was, down0);
      ChargedCounts(r, was);
      Recounted(store, b);
      Cast(store, b);
      Convictions(store, r, down0);
    }

    lemma VotesNow()
      requires ListOK() && CountOK() && roundList == listId
      ensures RoundOK() && QueriesOK()
      ensures forall j :: 0 <= j < |list| ==> list[j].failCount == |Accusers(ballots, list[j].key)|
    {
      hide Accusers, Fits;
      assert forall j :: 0 <= j < |list| ==> list[j] in cur;
    }

    lemma ChargedCounts(r: Reply, was: seq<(bool, int)>)
      requires |was| == |list| && r.Arr? && |r.element| == |list| + 1
      requires forall j :: 0 <= j < |list| ==> Charged(list[j], was[j].1, was[j].0, !Up(r.element[j + 1]))
      requires forall j :: 0 <= j < |list| ==> was[j].1 == |Accusers(ballots, list[j].key)|
      ensures forall j :: 0 <= j < |list| ==>
        list[j].failCount == |Accusers(ballots, list[j].key)| + if Up(r.element[j + 1]) then 0 else 1
    {
      hide Accusers, Up;
    }

    /** With the ballot, the accusers of each server are again as many as its failCount says. */
    lemma Recounted(store: int, b: Ballot)
      requires ListOK() && RoundOK() && roundList == listId > 0 && store !in ballots && b.query == roundQuery
      requires b.reply.Arr? && |b.reply.element| == |list| + 1
      requires forall j :: 0 <= j < |list| ==>
        list[j].failCount == |Accusers(ballots, list[j].key)| + if Up(b.reply.element[j + 1]) then 0 else 1
      ensures var bs := ballots[store := b];
        && (forall s :: s in cur ==> s in roundServers && s.failCount == |Accusers(bs, s.key)|)
        && (forall j :: 0 <= j < |list| ==> list[j].failCount == |Accusers(bs, list[j].key)|)
        && (forall j :: 0 <= j < |list| && !Up(b.reply.element[j + 1]) ==> store in Accusers(bs, list[j].key))
    {
      forall j | 0 <= j < |list|
        ensures list[j].failCount == |Accusers(ballots[store := b], list[j].key)|
        ensures !Up(b.reply.element[j + 1]) ==> store in Accusers(ballots[store := b], list[j].key)
      {
        AgainstAt(b, list, j);
        OneMore(ballots, store, b, list[j].key);
      }
      hide Accusers;
      assert forall s :: s in cur ==> s in list;
    }

    /** The ballot is cast. */
    ghost method Cast(store: int, b: Ballot)
      requires ListOK() && RoundOK() && QueriesOK() && roundList == listId > 0 && store !in outstanding
      requires b.data == GatherData(curSeqId, roundList) && b.query == roundQuery
      requires b.reply.Arr? && |b.reply.element| == |list| + 1 && Up(b.reply.element[0])
      requires forall s :: s in cur ==> s in roundServers && s.failCount == |Accusers(ballots[store := b], s.key)|
      modifies this`ballots
      ensures CountOK() && ballots == old(ballots)[store := b]
    {
      hide Accusers;
      assert Fits(b);
      hide Fits;
      ballots := ballots[store := b];
    }

    lemma Convictions(store: int, r: Reply, down0: map<string, DownServers.Phase>)
      requires r.Arr? && |r.element| == |list| + 1
      requires forall k :: k in down && k !in down0 ==> Blamed(k, |list|, r) && NewRecord(down, k)
      requires forall j :: 0 <= j < |list| ==> list[j].failCount == |Accusers(ballots, list[j].key)|
      requires forall j :: 0 <= j < |list| && !Up(r.element[j + 1]) ==> store in Accusers(ballots, list[j].key)
      ensures forall k :: k in down && k !in down0 ==> Convicted(k, store) && NewRecord(down, k)
    {
      hide Accusers, Up;
    }

    /** At least as many stores as the quota, this one among them, reported the key not up in this round. */
    ghost predicate Convicted(k: string, store: int)
      reads this`ballots
    {
      |Accusers(ballots, k)| >= quota && store in Accusers(ballots, k)
    }

    /** Of the first n servers, those reported not up that have reached the quota are on the down list. */
    ghost predicate AllListed(n: nat, r: Reply)
      requires r.Arr?
      reads this`list, this`down, list
    {
      n <= |list| && n < |r.element|
      && forall j :: 0 <= j < n && !Up(r.element[j + 1]) && list[j].failCount >= quota ==>
           |DownServers.Split(list[j].key)| == 3 ==> list[j].key in down
    }

    /** One of the first n servers, with key k, was reported not up and has reached the quota. */
    ghost predicate Blamed(k: string, n: nat, r: Reply)
      requires r.Arr?
      reads this`list, list
    {
      n <= |list| && n < |r.element|
      && exists j :: 0 <= j < n && list[j].key == k && !Up(r.element[j + 1]) && list[j].failCount >= quota
    }

    /** The first n slots have been charged. */
    ghost predicate Charging(n: nat, r: Reply, was: seq<(bool, int)>, down0: map<string, DownServers.Phase>)
      reads this`list, this`down, list
    {
      DistinctKeys(list) && ChargingOf(quota, Keys(list), Standing(), down, n, r, was, down0)
    }

    lemma StartCharging(r: Reply)
      requires ListOK() && r.Arr? && |r.element| == |list| + 1
      ensures Charging(0, r, Standing(), down)
    {
    }

    lemma EndCharging(r: Reply, was: seq<(bool, int)>, down0: map<string, DownServers.Phase>)
      requires Charging(|list|, r, was, down0)
      ensures |was| == |list| && DistinctKeys(list) && r.Arr? && |r.element| == |list| + 1
      ensures forall j :: 0 <= j < |list| ==> Charged(list[j], was[j].1, was[j].0, !Up(r.element[j + 1]))
      ensures forall k :: k in down && k !in down0 ==> Blamed(k, |list|, r) && NewRecord(down, k)
      ensures forall k :: k in down0 ==> k in down && down[k] == down0[k]
      ensures AllListed(|list|, r)
    {
    }

    /** One turn of the loop: element i of the reply is charged to server i - 1 of the list. */
    method ChargeSlot(i: nat, r: Reply, ghost was: seq<(bool, int)>, ghost down0: map<string, DownServers.Phase>)
      requires 0 < i <= |list| && Charging(i - 1, r, was, down0)
      modifies this`down, list
      ensures Charging(i, r, was, down0)
    {
      hide Up, DistinctKeys, ChargingOf;
      ghost var keys, now, before := Keys(list), Standing(), down;
      ChargingShape(quota, keys, now, down, i - 1, r, was, down0);
      var s := list[i - 1];
      Others(i - 1);
      if !Up(r.element[i]) {
        Charge(s);
      }
      ghost var e := (s.inDownList, s.failCount);
      assert Standing() == now[i - 1 := e];
      ChargeStep(quota, keys, now, before, i, r, was, down0, e, down);
    }

    lemma Others(i: nat)
      requires DistinctKeys(list) && i < |list|
      ensures forall j :: 0 <= j < |list| && j != i ==> list[j] != list[i]
    {
      forall j | 0 <= j < |list| && j != i ensures list[j] != list[i] {
        assert list[j].key != list[i].key;
      }
    }

    lemma StandingIs()
      ensures forall j :: 0 <= j < |list| ==> Standing()[j] == (list[j].inDownList, list[j].failCount)
    {
    }

    /** gatherTargetStateDoneFromStoreServer, on a connection that is still up: the store's query is answered. A reply
        that is not an array, an error or a closed connection changes nothing else. */
    method GatherDone(store: int, reply: Option<Reply>)
      requires Valid() && store in outstanding
      requires reply.Some? && reply.value.Arr? ==> reply.value.count == |reply.value.element|
      modifies this`down, this`ballots, this`outstanding, this`asked, list
      ensures Valid() && outstanding == old(outstanding) - {store} && asked == old(asked) - {store}
      ensures var counts := reply.Some? && old(Counts(outstanding[store], reply.value));
        if counts then store !in old(ballots) &&
          ballots == old(ballots)[store := Ballot(old(outstanding[store]), old(asked[store]), reply.value)]
        else ballots == old(ballots)
      // each value is charged to the server whose key was at that position of the query this store was sent
      ensures reply.Some? && old(Counts(outstanding[store], reply.value)) ==>
        && |old(asked[store])| == |list| + 2
        && forall i :: 0 <= i < |list| ==>
             && list[i].key == old(asked[store])[i + 2]
             && list[i].failCount == old(list[i].failCount) + (if Up(reply.value.element[i + 1]) then 0 else 1)
             && (!reply.value.element[i + 1].Text? ==> list[i].failCount == old(list[i].failCount) + 1)
             && (list[i].inDownList <==>
               old(list[i].inDownList) || (!Up(reply.value.element[i + 1]) && list[i].failCount >= quota))
      ensures !(reply.Some? && old(Counts(outstanding[store], reply.value))) ==>
        down == old(down) && forall s :: s in list ==> unchanged(s)
      ensures forall k :: k in down && k !in old(down) ==> Convicted(k, store) && NewRecord(down, k)
      ensures reply.Some? && old(Counts(outstanding[store], reply.value)) ==> AllListed(|list|, reply.value)
      ensures forall k :: k in old(down) ==> k in down && down[k] == old(down)[k]
    {
      var data := outstanding[store];
      ghost var query := asked[store];
      Forget(store);
      hide ListFor, VotesOK, QueriesOK, RoundOK, Convicted, AllListed, Up;
      if reply.Some? && reply.value.Arr? {
        var ret := ProcessTargetState(store, data, query, reply.value);
      }
    }

    /** The query of the store is no longer outstanding. */
    method Forget(store: int)
      requires Valid()
      modifies this`outstanding, this`asked
      ensures Valid() && outstanding == old(outstanding) - {store} && asked == old(asked) - {store}
      ensures store in old(outstanding) && old(outstanding)[store].seqId == curSeqId ==>
        store !in ballots && old(outstanding)[store].listId == roundList > 0 && store in old(asked) &&
          old(asked)[store] == roundQuery
    {
      hide ListFor, VotesOK, RoundOK;
      outstanding, asked := outstanding - {store}, asked - {store};
    }

    /** gatherTargetStateTimeoutFromStoreServer: the query is given up. */
    method GatherTimeout(store: int)
      requires Valid()
      modifies this`outstanding, this`asked
      ensures Valid() && outstanding == old(outstanding) - {store}
    {
      hide ListFor, VotesOK, QueriesOK, RoundOK;
      Forget(store);
    }

    /** gatherTimerCb: a new round. `conns` lists the connection chosen for each store; by assumption none of them
        still has a query without reply, and none is chosen twice. */
    method GatherTimer(conns: seq<Option<int>>)
      requires Valid()
      requires forall i :: 0 <= i < |conns| && conns[i].Some? ==> conns[i].value !in outstanding
      requires forall i, j :: 0 <= i < j < |conns| && conns[i].Some? ==> conns[i] != conns[j]
      modifies this`curSeqId, this`down, this`outstanding, this`asked, this`ballots, this`roundList, this`roundServers,
        this`roundQuery, list
      ensures Valid()
      ensures cur == [] ==> outstanding == old(outstanding) && curSeqId == old(curSeqId) && down == old(down)
      ensures cur != [] ==> curSeqId == old(curSeqId) + 1 && RoundBegun(old(outstanding), conns)
      // a flagged server leaves the down list, and loses its flag, exactly if the last round did not convict it and its
      // exchange has not started
      ensures cur != [] ==> AllReset(old(Standing()), old(down))
      ensures cur != [] ==> forall j :: 0 <= j < |list| ==>
        var started := list[j].key in old(down) && old(down)[list[j].key] != DownServers.EXCHANGE;
        (list[j].inDownList <==> old(list[j].inDownList) && (old(list[j].failCount) >= quota || started))
      ensures cur != [] ==> forall k :: k in old(down) ==>
        var idle := old(down)[k] == DownServers.EXCHANGE;
        (k !in down <==>
          exists j :: 0 <= j < |list| && list[j].key == k && old(list[j].inDownList) &&
            old(list[j].failCount) < quota && idle)
    {
      hide *;
      if cur == [] {
        return;
      }
      StandingIs();
      BeforeRound();
      NewRound();
      ResetTargets();
      ResetMeans(old(Standing()), old(down));
      StartQueries(old(outstanding), old(asked), conns);
      IsValid();
    }

    lemma ResetMeans(was: seq<(bool, int)>, down0: map<string, DownServers.Phase>)
      requires AllReset(was, down0)
      ensures |was| == |list|
      ensures forall j :: 0 <= j < |list| ==>
        var started := list[j].key in down0 && down0[list[j].key] != DownServers.EXCHANGE;
        (list[j].inDownList <==> was[j].0 && (was[j].1 >= quota || started))
      ensures forall k :: k in down0 ==>
        var idle := down0[k] == DownServers.EXCHANGE;
        (k !in down <==> exists j :: 0 <= j < |list| && list[j].key == k && was[j].0 && was[j].1 < quota && idle)
    {
    }

    /** Nobody has voted, what is asked is the current list, and each chosen store has been asked it. */
    ghost predicate RoundBegun(was: map<int, GatherData>, conns: seq<Option<int>>)
      reads this, list
    {
      && ballots == map[] && roundList == listId && roundQuery == argv && roundServers == AsSet(list)
      && (forall s :: s in list ==> s.failCount == 0 && s.gatherSeqId == curSeqId)
      && (forall st :: st in outstanding <==> st in was || Some(st) in conns)
      && (forall st :: Some(st) in conns ==>
        outstanding[st] == GatherData(curSeqId, listId) && st in asked && asked[st] == argv)
    }

    /** The servers and the down list after the last round has been taken into account. */
    ghost predicate AllReset(was: seq<(bool, int)>, down0: map<string, DownServers.Phase>)
      reads this`list, this`down, list
    {
      && |was| == |list|
      && (forall k :: k in down <==> k in down0 && !Cleared(k, was, |list|, down0))
      && (forall k :: k in down ==> down[k] == down0[k])
      && (forall j :: 0 <= j < |list| ==> (list[j].inDownList <==> was[j].0 && !Clears(list[j].key, was[j], down0)))
    }

    /** The queries of the round that has just begun. */
    method StartQueries(ghost was: map<int, GatherData>, ghost query: map<int, seq<string>>, conns: seq<Option<int>>)
      requires ListOK() && listId > 0 && ballots == map[] && roundList == listId && roundQuery == argv
      requires roundServers == AsSet(list) && forall s :: s in list ==> s.failCount == 0 && s.gatherSeqId == curSeqId
      requires outstanding == was && asked == query && query.Keys == was.Keys && forall st :: st in was ==>
        was[st].seqId < curSeqId
      modifies this`outstanding, this`asked
      ensures CountOK() && RoundBegun(was, conns)
    {
      hide ListOK, CountOK;
      SendQueries(conns);
      RoundStarted(was, query, conns);
    }

    lemma IsValid()
      requires ListOK() && CountOK() && tmp == [] && !toBeUpdated
      ensures Valid()
    {
      hide ListOK, CountOK;
    }

    /** What is known when a round begins. */
    lemma BeforeRound()
      requires Valid()
      ensures ListOK() && tmp == [] && !toBeUpdated && DistinctKeys(list) && (cur != [] ==> listId > 0)
      ensures asked.Keys == outstanding.Keys && forall st :: st in outstanding ==> outstanding[st].seqId < curSeqId + 1
    {
      hide DistinctKeys, VotesOK, Keys;
    }

    lemma RoundStarted(was: map<int, GatherData>, query: map<int, seq<string>>, conns: seq<Option<int>>)
      requires ListOK() && ballots == map[] && (forall s :: s in list ==> s.failCount == 0)
      requires roundList == listId > 0 && roundQuery == argv && roundServers == AsSet(list)
      requires query.Keys == was.Keys && forall st :: st in was ==> was[st].seqId < curSeqId
      requires asked.Keys == outstanding.Keys && forall st :: st in outstanding <==> st in was || Some(st) in conns
      requires forall st :: Some(st) in conns ==>
        st in asked && outstanding[st] == GatherData(curSeqId, listId) && asked[st] == argv
      requires forall st :: st in was && Some(st) !in conns ==> outstanding[st] == was[st]
      ensures CountOK()
    {
      forall s | s in cur ensures s.failCount == |VotesFor(s)| {
        assert s in list && Accusers(ballots, s.key) == {};
      }
    }

    /** The round begins; nobody has voted in it. */
    method NewRound()
      modifies this`curSeqId, this`ballots, this`roundList, this`roundServers, this`roundQuery
      ensures curSeqId == old(curSeqId) + 1 && ballots == map[]
      ensures roundList == listId && roundQuery == argv && roundServers == AsSet(list)
    {
      curSeqId := curSeqId + 1;
      ballots, roundList, roundServers, roundQuery := map[], listId, AsSet(list), argv;
    }

    /** The flags and counts of the servers of the list. */
    ghost function Standing(): (s: seq<(bool, int)>)
      reads this`list, list
      ensures |s| == |list|
    {
      var l := list;
      seq(|l|, i requires 0 <= i < |l| reads l => (l[i].inDownList, l[i].failCount))
    }

    /** A server that is flagged as down, was not convicted by the last round and is not being exchanged. */
    predicate Clears(key: string, was: (bool, int), down0: map<string, DownServers.Phase>) {
      was.0 && was.1 < quota && (key in down0 ==> down0[key] == DownServers.EXCHANGE)
    }

    /** The key is that of such a server among the first n of the list. */
    ghost predicate Cleared(k: string, was: seq<(bool, int)>, n: nat, down0: map<string, DownServers.Phase>)
      reads this`list
    {
      n <= |list| && n <= |was| && exists j :: 0 <= j < n && list[j].key == k && Clears(k, was[j], down0)
    }

    /** The first loop of gatherTimerCb. */
    method ResetTargets()
      requires DistinctKeys(list)
      modifies this`down, list
      ensures forall s :: s in list ==> s.failCount == 0 && s.gatherSeqId == curSeqId
      ensures AllReset(old(Standing()), old(down))
    {
      ghost var was, down0 := Standing(), down;
      assert Resetting(0, was, down0);
      hide Resetting;
      for i := 0 to |list|
        invariant Resetting(i, was, down0)
      {
        ResetOne(i, was, down0);
      }
      ResetDone(was, down0);
    }

    /** The first n servers of the list have been reset. */
    ghost predicate Resetting(n: nat, was: seq<(bool, int)>, down0: map<string, DownServers.Phase>)
      reads this`list, this`curSeqId, this`down, list
    {
      && n <= |list| == |was| && DistinctKeys(list)
      && (forall j :: n <= j < |list| ==> was[j] == (list[j].inDownList, list[j].failCount))
      && (forall j :: 0 <= j < n ==> ResetTo(list[j], was[j], down0))
      && (forall k :: k in down <==> k in down0 && !Cleared(k, was, n, down0))
      && (forall k :: k in down ==> down[k] == down0[k])
    }

    lemma ResetDone(was: seq<(bool, int)>, down0: map<string, DownServers.Phase>)
      requires Resetting(|list|, was, down0)
      ensures forall s :: s in list ==> s.failCount == 0 && s.gatherSeqId == curSeqId
      ensures AllReset(was, down0)
    {
      hide Cleared, Clears;
    }

    method ResetOne(i: nat, ghost was: seq<(bool, int)>, ghost down0: map<string, DownServers.Phase>)
      requires i < |list| && Resetting(i, was, down0)
      modifies this`down, list[i]
      ensures Resetting(i + 1, was, down0)
    {
      ClearedNext(was, i, down0);
      Others(i);
      hide Cleared, DistinctKeys, Clears;
      ClearsSame(list[i].key, was[i], down, down0);
      ResetServer(list[i]);
    }

    lemma ClearsSame(key: string, was: (bool, int), d: map<string, DownServers.Phase>,
        d0: map<string, DownServers.Phase>)
      requires (key in d <==> key in d0) && (key in d ==> d[key] == d0[key])
      ensures Clears(key, was, d) == Clears(key, was, d0)
    {
    }

    method ResetServer(s: TargetServer)
      modifies this`down, s
      ensures var clears := Clears(s.key, (old(s.inDownList), old(s.failCount)), old(down));
        && (s.inDownList <==> old(s.inDownList) && !clears) && s.failCount == 0 && s.gatherSeqId == curSeqId
        && down == if clears then old(down) - {s.key} else old(down)
    {
      if s.inDownList && s.failCount < quota {
        var ret := RmFromDownList(s.key);
        if ret == 0 {
          s.inDownList := false;
        }
      }
      s.gatherSeqId := curSeqId;
      s.failCount := 0;
    }

    ghost predicate ResetTo(s: TargetServer, was: (bool, int), down0: map<string, DownServers.Phase>)
      reads s, this`curSeqId
    {
      s.failCount == 0 && s.gatherSeqId == curSeqId && (s.inDownList <==> was.0 && !Clears(s.key, was, down0))
    }

    /** One more server of the list; its key is not that of an earlier one. */
    lemma ClearedNext(was: seq<(bool, int)>, i: nat, down0: map<string, DownServers.Phase>)
      requires DistinctKeys(list) && i < |list| == |was|
      ensures forall k :: Cleared(k, was, i + 1, down0) <==>
        Cleared(k, was, i, down0) || (k == list[i].key && Clears(k, was[i], down0))
      ensures !Cleared(list[i].key, was, i, down0)
    {
    }

    /** The second loop of gatherTimerCb: a query to the connection chosen for each store. */
    method SendQueries(conns: seq<Option<int>>)
      requires asked.Keys == outstanding.Keys
      modifies this`outstanding, this`asked
      ensures asked.Keys == outstanding.Keys && forall st :: st in outstanding <==>
        st in old(outstanding) || Some(st) in conns
      // the data that travel with a query are of the list whose keys it asks for
      ensures forall st :: Some(st) in conns ==>
        st in asked && outstanding[st] == GatherData(curSeqId, listId) && asked[st] == argv
      ensures forall st :: st in old(outstanding) && Some(st) !in conns ==>
        outstanding[st] == old(outstanding)[st] && st in asked && asked[st] == old(asked)[st]
    {
      for i := 0 to |conns|
        invariant asked.Keys == outstanding.Keys && forall st :: st in outstanding <==>
          st in old(outstanding) || Some(st) in conns[..i]
        invariant forall st :: Some(st) in conns[..i] ==>
          st in asked && outstanding[st] == GatherData(curSeqId, listId) && asked[st] == argv
        invariant forall st :: st in old(outstanding) && Some(st) !in conns[..i] ==>
          outstanding[st] == old(outstanding)[st] && st in asked && asked[st] == old(asked)[st]
      {
        assert conns[..i + 1] == conns[..i] + [conns[i]];
        assert forall st :: Some(st) in conns[..i + 1] <==> Some(st) in conns[..i] || conns[i] == Some(st);
        if conns[i].Some? {
          outstanding, asked := outstanding[conns[i].value := GatherData(curSeqId, listId)],
            asked[conns[i].value := argv];
        }
      }
      assert conns[..|conns|] == conns;
    }

    ghost predicate Charged(s: TargetServer, failCount: int, inDownList: bool, fails: bool)
      reads s
    {
      s.failCount == failCount + (if fails then 1 else 0) &&
        (s.inDownList <==> inDownList || (fails && s.failCount >= quota))
    }

    /** One count against a server. */
    method Charge(s: TargetServer)
      modifies this`down, s
      ensures s.failCount == old(s.failCount) + 1 && (s.inDownList <==> old(s.inDownList) || s.failCount >= quota)
      ensures forall k :: k in down && k !in old(down) ==> k == s.key && s.failCount >= quota && NewRecord(down, k)
      // the flag is set even when the key is malformed and no record is made
      ensures s.failCount >= quota ==> (s.key in down <==> s.key in old(down) || |DownServers.Split(s.key)| == 3)
      ensures forall k :: k in old(down) ==> k in down && down[k] == old(down)[k]
    {
      s.failCount := s.failCount + 1;
      if s.failCount >= quota {
        var added := AddToDownList(s.key);
        s.inDownList := true;
      }
    }
  }

  // ---------- charging, on values ----------

  /** A record as addServerToDownList makes it; the key has three parts. */
  predicate NewRecord(down: map<string, DownServers.Phase>, k: string) {
    k in down && down[k] == DownServers.EXCHANGE && |DownServers.Split(k)| == 3
  }

  /** What a charge makes of a server's flag and count. */
  ghost predicate ChargedOf(quota: int, now: (bool, int), was: (bool, int), fails: bool) {
    now.1 == was.1 + (if fails then 1 else 0) && (now.0 <==> was.0 || (fails && now.1 >= quota))
  }

  ghost predicate BlamedOf(quota: int, keys: seq<string>, now: seq<(bool, int)>, k: string, n: nat, r: Reply)
    requires r.Arr? && n <= |keys| == |now| && n < |r.element|
  {
    exists j :: 0 <= j < n && keys[j] == k && !Up(r.element[j + 1]) && now[j].1 >= quota
  }

  ghost predicate ChargingOf(quota: int, keys: seq<string>, now: seq<(bool, int)>,
                             down: map<string, DownServers.Phase>, n: nat, r: Reply, was: seq<(bool, int)>,
                               down0: map<string, DownServers.Phase>)
  {
    && n <= |keys| == |now| == |was| && r.Arr? && |r.element| == |was| + 1
    && (forall j :: 0 <= j < n ==> ChargedOf(quota, now[j], was[j], !Up(r.element[j + 1])))
    && (forall j :: n <= j < |was| ==> now[j] == was[j])
    && (forall k :: k in down && k !in down0 ==> BlamedOf(quota, keys, now, k, n, r) && NewRecord(down, k))
    && (forall k :: k in down0 ==> k in down && down[k] == down0[k])
    && (forall j :: 0 <= j < n && !Up(r.element[j + 1]) && now[j].1 >= quota && |DownServers.Split(keys[j])| == 3 ==>
      keys[j] in down)
  }

  lemma ChargingShape(quota: int, keys: seq<string>, now: seq<(bool, int)>, down: map<string, DownServers.Phase>,
                      n: nat, r: Reply, was: seq<(bool, int)>, down0: map<string, DownServers.Phase>)
    requires ChargingOf(quota, keys, now, down, n, r, was, down0)
    ensures n <= |keys| == |now| == |was| && r.Arr? && |r.element| == |was| + 1 && (n < |was| ==> now[n] == was[n])
  {
  }

  lemma ChargeStep(quota: int, keys: seq<string>, now: seq<(bool, int)>, down: map<string, DownServers.Phase>, i: nat,
                   r: Reply, was: seq<(bool, int)>, down0: map<string, DownServers.Phase>, e: (bool, int),
                     down': map<string, DownServers.Phase>)
    requires 0 < i <= |keys| && ChargingOf(quota, keys, now, down, i - 1, r, was, down0) && i < |r.element|
    requires ChargedOf(quota, e, now[i - 1], !Up(r.element[i]))
    requires forall k :: k in down ==> k in down' && down'[k] == down[k]
    requires forall k :: k in down' && k !in down ==>
      k == keys[i - 1] && !Up(r.element[i]) && e.1 >= quota && NewRecord(down', k)
    requires !Up(r.element[i]) && e.1 >= quota && |DownServers.Split(keys[i - 1])| == 3 ==> keys[i - 1] in down'
    ensures ChargingOf(quota, keys, now[i - 1 := e], down', i, r, was, down0)
  {
    hide Up, ChargedOf, DownServers.Split;
    var now' := now[i - 1 := e];
    assert forall j :: 0 <= j < |now| && j != i - 1 ==> now'[j] == now[j];
    forall k | k in down' && k !in down0 ensures BlamedOf(quota, keys, now', k, i, r) {
      if k in down {
        var j :| 0 <= j < i - 1 && keys[j] == k && !Up(r.element[j + 1]) && now[j].1 >= quota;
        assert now'[j] == now[j];
      } else {
        assert now'[i - 1] == e;
      }
    }
  }

  /** An analyzer with one target, which store 0 has just been asked about. */
  method Asked(key: string) returns (a: Analyzer)
    ensures fresh(a) && a.Valid() && a.quota == 1 && a.down == map[] && |a.list| == 1
    ensures a.list[0].key == key && a.list[0] in a.cur && fresh(a.list[0]) && a.list[0].failCount == 0
    ensures 0 in a.outstanding && a.outstanding[0] == GatherData(a.curSeqId, a.listId)
  {
    a := new Analyzer(1);
    hide Analyzer.Valid, DistinctKeys;
    a.Refresh([key]);
    OneTarget(a, key);
    var conns := [Some(0)];
    assert conns[0] == Some(0) && Some(0) in conns;
    a.GatherTimer(conns);
  }

  lemma OneTarget(a: Analyzer, key: string)
    requires a.Valid() && Keys(a.cur) == [key]
    ensures a.cur != [] && |a.list| == 1 && a.list[0] == a.cur[0] && a.list[0].key == key
  {
    assert a.cur[0].key == Keys(a.cur)[0];
    assert |a.list| > 1 ==> a.list[0].key != a.list[1].key;
    assert a.cur == [a.cur[0]] && a.cur[0] in a.list;
    hide *;
    forall i | 0 <= i < |a.list| ensures a.list[i].key == key {
      assert a.list[i] in a.cur;
    }
  }

  /** A string without separators is one part. */
  lemma {:induction false} OnePart(s: string, token: string)
    requires '_' !in s
    ensures DownServers.SplitRest(s, token) == [token + s]
    decreases |s|
  {
    if s == "" {
      assert token + s == token;
    } else {
      OnePart(s[1..], token + [s[0]]);
      assert token + [s[0]] + s[1..] == token + s;
    }
  }

  /** A server with a malformed key that has reached the quota is flagged as down, and no record is made for it. */
  method FlaggedWithoutRecord(key: string) returns (a: Analyzer, s: TargetServer)
    requires key != "" && '_' !in key
    ensures a.Valid() && s in a.cur && s.key == key && s.failCount >= a.quota && s.inDownList && key !in a.down
  {
    a := Asked(key);
    hide Analyzer.Valid;
    s := a.list[0];
    OnePart(key, "");
    var r := Arr(2, [Text("1"), Text("0")]);
    assert Atoi("1") == 1 && Atoi("0") == 0;
    a.GatherDone(0, Some(r));
  }

  lemma OneMore(ballots: map<int, Ballot>, store: int, b: Ballot, key: string)
    requires store !in ballots
    ensures var more := Accusers(ballots[store := b], key);
      && |more| == |Accusers(ballots, key)| + (if Against(b, key) then 1 else 0)
      && (Against(b, key) ==> store in more)
  {
    var was, more := Accusers(ballots, key), Accusers(ballots[store := b], key);
    hide Against;
    assert more == if Against(b, key) then was + {store} else was;
  }

  /** The ballot is against a server of the list exactly if the value at its place is not UP. */
  lemma AgainstAt(b: Ballot, list: seq<TargetServer>, j: nat)
    requires DistinctKeys(list) && j < |list| && b.query == ["MGET", "monitor_state"] + Keys(list)
    requires b.reply.Arr? && |b.reply.element| == |list| + 1
    ensures Against(b, list[j].key) <==> !Up(b.reply.element[j + 1])
  {
    assert b.query[j + 2] == list[j].key;
    forall p | 2 <= p < |b.query| && b.query[p] == list[j].key ensures p == j + 2 {
      assert b.query[p] == list[p - 2].key;
    }
  }

  lemma KeysOf(s: seq<TargetServer>)
    ensures forall k :: k in Keys(s) <==> exists x :: x in s && x.key == k
  {
    forall x | x in s ensures x.key in Keys(s) {
      var i :| 0 <= i < |s| && s[i] == x;
      assert Keys(s)[i] == x.key;
    }
  }

  ghost predicate SameMembers(a: seq<string>, b: seq<string>) {
    (forall k :: k in a ==> k in b) && forall k :: k in b ==> k in a
  }

  /** The down list after the removal of these servers: one whose exchange has started stays. */
  function Dropped(down: map<string, DownServers.Phase>, s: seq<TargetServer>): map<string, DownServers.Phase> {
    if s == [] then down
    else
      var d := Dropped(down, s[..|s| - 1]);
      var key := s[|s| - 1].key;
      if key in d && d[key] != DownServers.EXCHANGE then d else d - {key}
  }

  lemma {:induction false} DroppedMeans(down: map<string, DownServers.Phase>, s: seq<TargetServer>)
    ensures forall k :: k in Dropped(down, s) <==> k in down && (k !in Keys(s) || down[k] != DownServers.EXCHANGE)
    ensures forall k :: k in Dropped(down, s) ==> Dropped(down, s)[k] == down[k]
    decreases |s|
  {
    if s != [] {
      DroppedMeans(down, s[..|s| - 1]);
      assert Keys(s) == Keys(s[..|s| - 1]) + [s[|s| - 1].key];
    }
  }

  lemma DroppedSnoc(down: map<string, DownServers.Phase>, s: seq<TargetServer>, x: TargetServer)
    ensures var d := Dropped(down, s);
      Dropped(down, s + [x]) == if x.key in d && d[x.key] != DownServers.EXCHANGE then d else d - {x.key}
  {
    assert (s + [x])[..|s|] == s;
  }

  method Find(s: seq<TargetServer>, key: string) returns (i: nat)
    ensures i <= |s| && (i < |s| ==> s[i].key == key) && (i == |s| ==> forall x :: x in s ==> x.key != key)
  {
    i := 0;
    while i < |s| && s[i].key != key
      invariant i <= |s| && forall j :: 0 <= j < i ==> s[j].key != key
    {
      i := i + 1;
    }
  }
}
