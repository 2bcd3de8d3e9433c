/** The down-server record and what a property fetch makes of it (action.c:49-101, 141-268). */
module DownServers {
  import opened Basics
  import opened Resp

  datatype Phase = EXCHANGE | EXCHANGING | EXCHANGED

  datatype Role = MASTER | SLAVE

  /** pid, cluster, role and the three parts (address, port, type) of the backup machine. A calloc'ed property has the
      role MASTER, which is 0. */
  datatype Property = Property(role: Role, pid: string, cluster: string, backup: seq<string>)

  const BLANK := Property(MASTER, "", "", [])

  datatype Record = Record(key: string, phase: Phase, toBeUpdated: bool, property: Property)

  // ---------- names ----------

  /** sdssplitlen with the separator "_". */
  function Split(s: string): seq<string> {
    if s == "" then [] else SplitRest(s, "")
  }

  function SplitRest(s: string, token: string): (parts: seq<string>)
    ensures parts != []
  {
    if s == "" then [token]
    else if s[0] == '_' then [token] + SplitRest(s[1..], "")
    else SplitRest(s[1..], token + [s[0]])
  }

  /** Strings joined by "_". */
  function Join(parts: seq<string>): string
    requires parts != []
  {
    if |parts| == 1 then parts[0] else parts[0] + "_" + Join(parts[1..])
  }

  /** The parts of a non-empty string contain no separator, and joined they are the string; the empty string has none.
      */
  lemma SplitExactly(s: string, parts: seq<string>)
    ensures Split(s) == parts <==>
      if s == "" then parts == []
      else parts != [] && Join(parts) == s && forall i :: 0 <= i < |parts| ==> '_' !in parts[i]
  {
    if s == "" { return; }
    SplitRestJoins(s, "");
    if parts != [] && Join(parts) == s && forall i :: 0 <= i < |parts| ==> '_' !in parts[i] {
      JoinSplits(parts, s, "");
      assert "" + parts[0] == parts[0];
      assert [parts[0]] + parts[1..] == parts;
    }
    assert "" + s == s;
  }

  lemma {:induction false} SplitRestJoins(s: string, token: string)
    requires '_' !in token
    ensures Join(SplitRest(s, token)) == token + s
    ensures forall i :: 0 <= i < |SplitRest(s, token)| ==> '_' !in SplitRest(s, token)[i]
  {
    if s == "" {
    } else if s[0] == '_' {
      SplitRestJoins(s[1..], "");
      var rest := SplitRest(s[1..], "");
      assert ([token] + rest)[1..] == rest;
      assert token + "_" + ("" + s[1..]) == token + s;
    } else {
      SplitRestJoins(s[1..], token + [s[0]]);
      assert token + [s[0]] + s[1..] == token + s;
    }
  }

  lemma {:induction false} JoinSplits(parts: seq<string>, s: string, token: string)
    requires parts != [] && Join(parts) == s && forall i :: 0 <= i < |parts| ==> '_' !in parts[i]
    ensures SplitRest(s, token) == [token + parts[0]] + parts[1..]
    decreases |parts|, |s|
  {
    var p := parts[0];
    if p == "" {
      if |parts| == 1 {
        assert token + "" == token;
      } else {
        assert s == "_" + Join(parts[1..]);
        assert s[1..] == Join(parts[1..]);
        JoinSplits(parts[1..], s[1..], "");
        assert "" + parts[1] == parts[1] && [parts[1]] + parts[1..][1..] == parts[1..];
        assert token + "" == token;
      }
    } else {
      var parts' := [p[1..]] + parts[1..];
      assert s[0] == p[0] && p[0] in p;
      assert parts'[1..] == parts[1..];
      assert s[1..] == Join(parts');
      JoinSplits(parts', s[1..], token + [p[0]]);
      assert token + [p[0]] + p[1..] == token + p;
    }
  }

  // ---------- properties ----------

  /** A non-empty HGETALL reply: names and values alternate, and names are strings. */
  predicate Flat(fields: seq<Reply>) {
    |fields| > 0 && |fields| % 2 == 0 && forall i :: 0 <= i < |fields| && i % 2 == 0 ==> fields[i].Text?
  }

  /** The value of the first field of that name. */
  function Lookup(fields: seq<Reply>, name: string): Option<Reply>
    requires Flat(fields)
  {
    Find(fields, name, 0)
  }

  function Find(fields: seq<Reply>, name: string, i: nat): Option<Reply>
    requires Flat(fields) && i % 2 == 0
    decreases |fields| - i
  {
    if i >= |fields| then None
    else if fields[i].s == name then Some(fields[i + 1])
    else Find(fields, name, i + 2)
  }

  /** The first of the fields with that name, or none if there is none. */
  lemma {:induction false} FindFirst(fields: seq<Reply>, name: string, i: nat, j: nat)
    requires Flat(fields) && i % 2 == 0 && j % 2 == 0 && i <= j < |fields| && fields[j].s == name
    requires forall k :: i <= k < j && k % 2 == 0 ==> fields[k].s != name
    ensures Find(fields, name, i) == Some(fields[j + 1])
    decreases j - i
  {
    if i < j { FindFirst(fields, name, i + 2, j); }
  }

  lemma {:induction false} FindNone(fields: seq<Reply>, name: string, i: nat)
    requires Flat(fields) && i % 2 == 0 && forall k :: i <= k < |fields| && k % 2 == 0 ==> fields[k].s != name
    ensures Find(fields, name, i) == None
    decreases |fields| - i
  {
    if i < |fields| { FindNone(fields, name, i + 2); }
  }

  ghost predicate FirstAt(fields: seq<Reply>, name: string, j: nat)
    requires Flat(fields)
  {
    j < |fields| && j % 2 == 0 && fields[j].s == name && forall k :: 0 <= k < j && k % 2 == 0 ==> fields[k].s != name
  }

  lemma LookupExactly(fields: seq<Reply>, name: string, j: nat)
    requires Flat(fields)
    ensures FirstAt(fields, name, j) ==> Lookup(fields, name) == Some(fields[j + 1])
    ensures Lookup(fields, name) == None <==> forall k :: 0 <= k < |fields| && k % 2 == 0 ==> fields[k].s != name
  {
    if FirstAt(fields, name, j) { FindFirst(fields, name, 0, j); }
    if forall k :: 0 <= k < |fields| && k % 2 == 0 ==> fields[k].s != name {
      FindNone(fields, name, 0);
    } else {
      var k :| 0 <= k < |fields| && k % 2 == 0 && fields[k].s == name;
      var f := Least(fields, name, k);
      FindFirst(fields, name, 0, f);
    }
  }

  lemma {:induction false} Least(fields: seq<Reply>, name: string, k: nat) returns (f: nat)
    requires Flat(fields) && k < |fields| && k % 2 == 0 && fields[k].s == name
    ensures FirstAt(fields, name, f)
    decreases k
  {
    f := k;
    if !FirstAt(fields, name, k) {
      var l :| 0 <= l < k && l % 2 == 0 && fields[l].s == name;
      f := Least(fields, name, l);
    }
  }

  predicate IsText(v: Option<Reply>) { v.Some? && v.value.Text? }

  /** The fetch is complete and says master, and the backup machine is well named and not down itself. */
  predicate SaysMaster(fields: seq<Reply>, down: set<string>)
    requires Flat(fields)
  {
    var backup := Lookup(fields, "backup_machine");
    && IsText(Lookup(fields, "pid"))
    && (Lookup(fields, "cluster").Some? ==> Lookup(fields, "cluster").value.Text?)
    && Lookup(fields, "role") == Some(Text("master"))
    && IsText(backup) && backup.value.s !in down && |Split(backup.value.s)| == 3
  }

  /** The properties are those of the fetch. */
  predicate PropertyFrom(p: Property, fields: seq<Reply>)
    requires Flat(fields)
  {
    && p.role == MASTER
    && Lookup(fields, "pid") == Some(Text(p.pid))
    && (Lookup(fields, "cluster").Some? ==> Lookup(fields, "cluster") == Some(Text(p.cluster)))
    && IsText(Lookup(fields, "backup_machine"))
    && p.backup == Split(Lookup(fields, "backup_machine").value.s)
  }

  /** updateDownServerInfo: the record afterwards, and whether it returns 0. Properties already set stay set when a
      later one is refused. */
  function Updated(r: Record, fields: seq<Reply>, down: set<string>): (Record, bool)
    requires Flat(fields)
  {
    var pid, cluster, role := Lookup(fields, "pid"), Lookup(fields, "cluster"), Lookup(fields, "role");
    if !r.toBeUpdated then (r, true)
    else if !IsText(pid) then (r, false)
    else
      var r1 := r.(property := r.property.(pid := pid.value.s));
      if cluster.Some? && !cluster.value.Text? then (r1, false)
      else
        var r2 := if cluster.None? then r1 else r1.(property := r1.property.(cluster := cluster.value.s));
        if !IsText(role) then (r2, false)
        else if role.value.s == "master" then WithBackup(r2.(property := r2.property.(role := MASTER)), fields, down)
        else if role.value.s == "slave" then (r2.(property := r2.property.(role := SLAVE), toBeUpdated := false), true)
        else (r2, false)
  }

  function WithBackup(r: Record, fields: seq<Reply>, down: set<string>): (Record, bool)
    requires Flat(fields)
  {
    var backup := Lookup(fields, "backup_machine");
    if !IsText(backup) || backup.value.s in down || |Split(backup.value.s)| != 3 then (r, false)
    else (r.(property := r.property.(backup := Split(backup.value.s)), toBeUpdated := false), true)
  }

  /** A record that waited for its properties becomes ready for an exchange exactly when the fetch is complete and says
      master; the properties then are those of this fetch. */
  lemma ReadyExactlyWhenMaster(r: Record, fields: seq<Reply>, down: set<string>)
    requires Flat(fields) && r.toBeUpdated
    ensures var r' := Updated(r, fields, down).0;
      && (!r'.toBeUpdated && r'.property.role == MASTER <==> SaysMaster(fields, down))
      && (SaysMaster(fields, down) ==> Updated(r, fields, down).1 && PropertyFrom(r'.property, fields))
      && r'.phase == r.phase && r'.key == r.key
      && (!r'.toBeUpdated <==> Updated(r, fields, down).1)
  {
    hide Lookup, Split;
  }

  /** The fetch is complete and says slave. */
  predicate SaysSlave(fields: seq<Reply>)
    requires Flat(fields)
  {
    && IsText(Lookup(fields, "pid"))
    && (Lookup(fields, "cluster").Some? ==> Lookup(fields, "cluster").value.Text?)
    && Lookup(fields, "role") == Some(Text("slave"))
  }

  /** The record waits no longer exactly if a fetch was complete and said master or slave. What it has then is what the
      fetch says, and nothing else ever comes into it. */
  lemma UpdatedExactly(r: Record, fields: seq<Reply>, down: set<string>)
    requires Flat(fields)
    ensures var r' := Updated(r, fields, down).0; var p, p' := r.property, r'.property;
      && (!r.toBeUpdated ==> r' == r)
      && (r.toBeUpdated ==> (!r'.toBeUpdated <==> SaysMaster(fields, down) || SaysSlave(fields)))
      && (r.toBeUpdated && SaysSlave(fields) ==> p'.role == SLAVE && Lookup(fields, "pid") == Some(Text(p'.pid)))
      && (p'.pid == p.pid || Lookup(fields, "pid") == Some(Text(p'.pid)))
      && (p'.cluster == p.cluster || Lookup(fields, "cluster") == Some(Text(p'.cluster)))
      && (p'.role == p.role || Lookup(fields, "role") == Some(Text(if p'.role == MASTER then "master" else "slave")))
      && (p'.backup == p.backup || SaysMaster(fields, down))
  {
    hide Lookup, Split;
  }

  /** stDownServer */
  class DownServer {
    const key: string
    var phase: Phase
    var toBeUpdated: bool
    var property: Property

    constructor (key: string)
      ensures Value() == Record(key, EXCHANGE, true, BLANK)
    {
      this.key, phase, toBeUpdated, property := key, EXCHANGE, true, BLANK;
    }

    ghost function Value(): Record
      reads this
    {
      Record(key, phase, toBeUpdated, property)
    }

    static method FindField(fields: seq<Reply>, name: string) returns (i: nat)
      requires Flat(fields)
      ensures i % 2 == 0
      ensures Lookup(fields, name) == if i < |fields| then Some(fields[i + 1]) else None
    {
      i := 0;
      while fields[i].s != name
        invariant i % 2 == 0 && i < |fields| && Lookup(fields, name) == Find(fields, name, i)
        decreases |fields| - i
      {
        i := i + 2;
        if i >= |fields| { break; }
      }
    }

    /** updateDownServerInfo */
    method UpdateInfo(fields: seq<Reply>, down: set<string>) returns (ret: int)
      requires Flat(fields)
      modifies this
      ensures Value() == Updated(old(Value()), fields, down).0
      ensures ret == if Updated(old(Value()), fields, down).1 then 0 else -1
    {
      hide Lookup, Split;
      if !toBeUpdated {
        return 0;
      }
      var i := FindField(fields, "pid");
      if i >= |fields| || !fields[i + 1].Text? {
        return -1;
      }
      property := property.(pid := fields[i + 1].s);
      i := FindField(fields, "cluster");
      if i < |fields| {
        if !fields[i + 1].Text? {
          return -1;
        }
        property := property.(cluster := fields[i + 1].s);
      }
      i := FindField(fields, "role");
      if i >= |fields| || !fields[i + 1].Text? {
        return -1;
      }
      if fields[i + 1].s == "master" {
        property := property.(role := MASTER);
      } else if fields[i + 1].s == "slave" {
        property := property.(role := SLAVE);
      } else {
        return -1;
      }
      if property.role != MASTER {
        toBeUpdated := false;
        return 0;
      }
      i := FindField(fields, "backup_machine");
      if i >= |fields| || !fields[i + 1].Text? {
        return -1;
      }
      if fields[i + 1].s in down {
        return -1;
      }
      var tokens := Split(fields[i + 1].s);
      if |tokens| != 3 {
        return -1;
      }
      property := property.(backup := tokens);
      toBeUpdated := false;
      return 0;
    }
  }
}
