/** The resumable reader does not depend on how its input is cut into pieces, and agrees with a recursive parser. */
module RespReading {
  import opened Basics
  import opened Resp

  // ---------- more input ----------

  lemma TypedMore(st: State, kind: char, b: string, x: string)
    requires st.stack != []
    ensures TypedStep(st, kind, b).Waiting? || TypedStep(st, kind, b + x) == TypedStep(st, kind, b)
    ensures TypedStep(st, kind, b).Waiting? ==> TypedStep(st, kind, b) == Waiting(st, 0)
  {
    if HasLine(b) {
      CrlfMore(b, x);
      ReadLongLongMore(b, x);
      var used, n := Crlf(b, 0) + 2, ReadLongLong(b);
      assert (b + x)[..Crlf(b, 0)] == b[..Crlf(b, 0)];
      if kind == '$' && n >= 0 && used + n + 2 <= |b| {
        assert (b + x)[used..used + n] == b[used..used + n];
      }
    }
  }

  lemma StepMore(st: State, b: string, x: string)
    requires st.stack != []
    ensures var s := ItemStep(st, b);
      if s.Waiting? then s.used <= |b| && s.st.stack != [] &&
        ItemStep(st, b + x) == Shift(s.used, ItemStep(s.st, b[s.used..] + x))
      else ItemStep(st, b + x) == s
  {
    match Top(st).kind
    case Some(c) =>
      TypedMore(st, c, b, x);
      assert b[0..] == b;
    case None =>
      if b == "" {
        assert b + x == x && b[0..] + x == x;
      } else {
        assert (b + x)[1..] == b[1..] + x && (b + x)[0] == b[0];
        TypedMore(SetKind(st, b[0]), b[0], b[1..], x);
      }
  }

  /** Reading on after more input has arrived is the same as having had it all from the start. */
  lemma {:induction false} RunMore(st: State, b: string, x: string)
    requires st.stack != []
    ensures match Run(st, b)
      case Complete(r, used) => Run(st, b + x) == Complete(r, used)
      case Failed => Run(st, b + x) == Failed
      case Pending(st', used) =>
        used <= |b| && st'.stack != [] && Run(st, b + x) == Later(used, Run(st', b[used..] + x))
    decreases |b|
  {
    hide ItemStep;
    StepUses(st, b);
    StepMore(st, b, x);
    StepUses(st, b + x);
    match ItemStep(st, b)
    case Broken =>
    case Waiting(st', used) =>
      StepUses(st', b[used..] + x);
      ShiftRun(st, b + x, used, st', b[used..] + x);
    case Advanced(st', used) =>
      if st'.stack != [] {
        RunMore(st', b[used..], x);
        assert (b + x)[used..] == b[used..] + x;
        assert Run(st, b) == Later(used, Run(st', b[used..])) && Run(st, b + x) == Later(used, Run(st', b[used..] + x));
        hide Run;
        match Run(st', b[used..])
        case Pending(st2, used2) =>
          assert b[used..][used2..] == b[used + used2..];
        case _ =>
      }
  }

  /** A step that starts with bytes already consumed. */
  lemma ShiftRun(st: State, input: string, n: nat, st': State, input': string)
    requires st.stack != [] && st'.stack != [] && n <= |input| && input' == input[n..]
    requires ItemStep(st, input) == Shift(n, ItemStep(st', input'))
    ensures Run(st, input) == Later(n, Run(st', input'))
  {
    hide ItemStep;
    StepUses(st, input);
    StepUses(st', input');
    match ItemStep(st', input')
    case Advanced(st2, used) =>
      assert input[n + used..] == input'[used..];
    case _ =>
  }

  // ---------- the one-shot recursive parser ----------

  datatype Parsed = Read(reply: Reply, used: nat) | More | Bad

  datatype ParsedMany = ReadMany(replies: seq<Reply>, used: nat) | MoreMany | BadMany

  /** Parse one reply at nesting level lvl. */
  function Parse(bs: string, lvl: nat): (p: Parsed)
    ensures p.Read? ==> 0 < p.used <= |bs|
    decreases |bs|, 0
  {
    if bs == "" then More
    else if !TypeByte(bs[0]) then Bad
    else
      var kind, rest := bs[0], bs[1..];
      if kind == '*' && lvl >= MAX_DEPTH then Bad
      else if !HasLine(rest) then More
      else
        var used, n := 1 + Crlf(rest, 0) + 2, ReadLongLong(rest);
        if kind == '$' then
          if n < 0 then Read(Nil, used)
          else if used + n + 2 <= |bs| then Read(Text(bs[used..used + n]), used + n + 2)
          else More
        else if kind == '*' then
          if n == -1 then Read(Nil, used)
          else if n <= 0 then Read(Arr(n, []), used)
          else
            ArrayOf(n, used, ParseMany(bs[used..], lvl + 1, n))
        else Read(LineObject(kind, rest), used)
  }

  /** Parse k replies, one after the other. */
  function ParseMany(bs: string, lvl: nat, k: nat): (p: ParsedMany)
    ensures p.ReadMany? ==> p.used <= |bs| && |p.replies| == k
    decreases |bs|, 1, k
  {
    if k == 0 then ReadMany([], 0)
    else
      match Parse(bs, lvl)
      case More => MoreMany
      case Bad => BadMany
      case Read(r, used) =>
        match ParseMany(bs[used..], lvl, k - 1)
        case ReadMany(rs, more) => ReadMany([r] + rs, used + more)
        case MoreMany => MoreMany
        case BadMany => BadMany
  }

  // ---------- storing objects in the reply under construction ----------

  lemma {:induction false} ShapeInit(reply: Reply, tasks: seq<Task>, obj: Reply)
    requires Shape(reply, tasks) && |tasks| > 1
    ensures var ps := tasks[..|tasks| - 1]; var i := tasks[|tasks| - 1].idx;
      && Shape(reply, ps)
      && Get(reply, ps).Arr? && Get(reply, ps).count == ps[|ps| - 1].elements == |Get(reply, ps).element|
      && 0 <= i < ps[|ps| - 1].elements
      && Put(reply, tasks, obj) == Put(reply, ps, Get(reply, ps).(element := Get(reply, ps).element[i := obj]))
    decreases |tasks|
  {
    var ps := tasks[..|tasks| - 1];
    if |tasks| > 2 {
      var j := tasks[1].idx;
      ShapeInit(reply.element[j], tasks[1..], obj);
      assert tasks[1..][..|tasks| - 2] == ps[1..];
      assert ps[0] == tasks[0] && ps[1] == tasks[1];
    }
  }

  lemma {:induction false} ShapePut(reply: Reply, tasks: seq<Task>, obj: Reply)
    requires Shape(reply, tasks)
    ensures Shape(Put(reply, tasks, obj), tasks) && Get(Put(reply, tasks, obj), tasks) == obj
    decreases |tasks|
  {
    if |tasks| > 1 { ShapePut(reply.element[tasks[1].idx], tasks[1..], obj); }
  }

  lemma {:induction false} PutPut(reply: Reply, tasks: seq<Task>, a: Reply, b: Reply)
    requires Shape(reply, tasks)
    ensures Put(Put(reply, tasks, a), tasks, b) == Put(reply, tasks, b)
    decreases |tasks|
  {
    if |tasks| > 1 { PutPut(reply.element[tasks[1].idx], tasks[1..], a, b); }
  }

  /** What Shape, Put and Get see of the last task is only its slot. */
  lemma {:induction false} ShapeTop(reply: Reply, tasks: seq<Task>, t: Task, obj: Reply)
    requires Shape(reply, tasks) && t.idx == tasks[|tasks| - 1].idx
    ensures var tasks' := tasks[|tasks| - 1 := t];
      Shape(reply, tasks') && Put(reply, tasks', obj) == Put(reply, tasks, obj) &&
        Get(reply, tasks') == Get(reply, tasks)
    decreases |tasks|
  {
    if |tasks| > 1 {
      var tasks' := tasks[|tasks| - 1 := t];
      ShapeTop(reply.element[tasks[1].idx], tasks[1..], t, obj);
      assert tasks'[1..] == tasks[1..][|tasks| - 2 := t];
      assert tasks'[1].idx == tasks[1].idx && tasks'[0] == tasks[0];
    }
  }

  /** A slot can be opened under an array task. */
  lemma {:induction false} ShapePush(reply: Reply, ps: seq<Task>, i: nat)
    requires Shape(reply, ps) && ps[|ps| - 1].kind == Some('*') && 0 <= i < ps[|ps| - 1].elements
    requires Get(reply, ps).Arr? && Get(reply, ps).count == ps[|ps| - 1].elements == |Get(reply, ps).element|
    ensures Shape(reply, ps + [Task(None, -1, i)])
    decreases |ps|
  {
    var tasks := ps + [Task(None, -1, i)];
    if |ps| > 1 {
      ShapePush(reply.element[ps[1].idx], ps[1..], i);
      assert tasks[1..] == ps[1..] + [Task(None, -1, i)];
    } else {
      assert tasks[1..] == [Task(None, -1, i)];
    }
  }

  // ---------- the reader agrees with the recursive parser ----------

  /** Where an item begins: nothing of it has been read. */
  ghost predicate AtItem(st: State) {
    OK(st) && Top(st).kind == None
  }

  /** Finishing the current item keeps the stack fit. */
  lemma {:induction false} FinishOK(st: State, obj: Reply)
    requires OK(st)
    ensures var st' := Finish(st, obj); st'.stack != [] ==> AtItem(st')
    decreases |st.stack|
  {
    var n := |st.stack|;
    if n > 1 {
      ShapeInit(st.reply, st.stack, obj);
      var ps, cur := st.stack[..n - 1], st.stack[n - 1];
      var node := Get(st.reply, ps).(element := Get(st.reply, ps).element[cur.idx := obj]);
      var reply' := Put(st.reply, ps, node);
      ShapePut(st.reply, ps, node);
      if cur.idx == ps[n - 2].elements - 1 {
        FinishOK(State(ps, reply'), node);
        PutSame(reply', ps);
        assert Finish(st, obj) == Finish(State(ps, reply'), node);
      } else {
        ArrayTask(st.reply, st.stack);
        ShapePush(reply', ps, cur.idx + 1);
      }
    }
  }

  lemma {:induction false} PutSame(reply: Reply, tasks: seq<Task>)
    requires Shape(reply, tasks)
    ensures Put(reply, tasks, Get(reply, tasks)) == reply
    decreases |tasks|
  {
    if |tasks| > 1 { PutSame(reply.element[tasks[1].idx], tasks[1..]); }
  }

  lemma {:induction false} ArrayTask(reply: Reply, tasks: seq<Task>)
    requires Shape(reply, tasks) && |tasks| > 1
    ensures tasks[|tasks| - 2].kind == Some('*')
    decreases |tasks|
  {
    if |tasks| > 2 { ArrayTask(reply.element[tasks[1].idx], tasks[1..]); }
  }

  lemma AfterLater(st: State, n: nat, m: nat, bs: string)
    requires 0 < m && n + m <= |bs|
    ensures Later(n, After(st, m, bs[n..])) == After(st, n + m, bs)
  {
    assert bs[n..][m..] == bs[n + m..];
  }

  /** The step that opens an array with n > 0 elements. */
  lemma OpenOK(st: State, n: int)
    requires AtItem(st) && n > 0 && |st.stack| <= MAX_DEPTH
    ensures var st1 := Open(SetKind(st, '*'), n); var ps := st1.stack[..|st1.stack| - 1];
      && AtItem(st1) && |st1.stack| == |st.stack| + 1
      && ps[|ps| - 1].elements == n && Top(st1).idx == 0 && Get(st1.reply, ps) == Arr(n, Holes(n))
      && forall rs :: Finish(State(ps, st1.reply), Arr(n, rs)) == Finish(st, Arr(n, rs))
  {
    var top := |st.stack| - 1;
    var k := SetKind(st, '*');
    var st1 := Open(k, n);
    var t := Task(Some('*'), n, st.stack[top].idx);
    var ps := st.stack[top := t];
    assert st1.stack == ps + [Task(None, -1, 0)] && st1.stack[..|ps|] == ps;
    var a := Arr(n, Holes(n));
    ShapeTop(st.reply, st.stack, k.stack[top], a);
    ShapePut(st.reply, st.stack, a);
    ShapeTop(Put(st.reply, st.stack, a), st.stack, t, a);
    assert st1.reply == Put(st.reply, st.stack, a);
    ShapePush(st1.reply, ps, 0);
    forall rs ensures Finish(State(ps, st1.reply), Arr(n, rs)) == Finish(st, Arr(n, rs)) {
      PutPut(st.reply, st.stack, a, Arr(n, rs));
      ShapeTop(st1.reply, st.stack, t, Arr(n, rs));
      NextTop(st.stack, t);
    }
  }

  lemma NextTop(stack: seq<Task>, t: Task)
    requires stack != [] && t.idx == stack[|stack| - 1].idx
    ensures Next(stack[|stack| - 1 := t]) == Next(stack)
  {
    var stack' := stack[|stack| - 1 := t];
    assert stack'[..|stack| - 1] == stack[..|stack| - 1];
  }

  /** Running the reader from st has the outcome that the recursive parser reports for the current item. */
  ghost predicate Agrees(st: State, bs: string, p: Parsed)
    requires st.stack != []
  {
    match p
    case Read(r, used) => 0 < used <= |bs| && Run(st, bs) == After(Finish(st, r), used, bs)
    case More => Run(st, bs).Pending?
    case Bad => Run(st, bs) == Failed
  }

  /** The state once the array that is open below the current task is complete, with rs its elements from the
      current one on. */
  ghost function Filled(st: State, rs: seq<Reply>): State
    requires |st.stack| > 1
  {
    var ps := st.stack[..|st.stack| - 1];
    var node, i := Get(st.reply, ps), Top(st).idx;
    if node.Arr? && 0 <= i <= |node.element| then
      Finish(State(ps, st.reply), node.(element := node.element[..i] + rs))
    else st
  }

  /** The same for the remaining elements of the array that is open below the current task. */
  ghost predicate AgreesMany(st: State, bs: string, p: ParsedMany) {
    |st.stack| > 1 &&
    match p
    case ReadMany(rs, used) => 0 < used <= |bs| && Run(st, bs) == After(Filled(st, rs), used, bs)
    case MoreMany => Run(st, bs).Pending?
    case BadMany => Run(st, bs) == Failed
  }

  /** Reading one item, from where it begins, is what the recursive parser does. */
  lemma {:induction false} ItemAgrees(st: State, bs: string)
    requires AtItem(st)
    ensures Agrees(st, bs, Parse(bs, |st.stack| - 1))
    decreases |bs|, 0
  {
    StepUses(st, bs);
    if bs != "" && TypeByte(bs[0]) {
      var kind, rest := bs[0], bs[1..];
      var k := SetKind(st, kind);
      SetKindFinish(st, kind);
      if HasLine(rest) && kind == '*' && |st.stack| <= MAX_DEPTH && ReadLongLong(rest) > 0 {
        var used, n := 1 + Crlf(rest, 0) + 2, ReadLongLong(rest);
        var st1 := Open(k, n);
        ArrayStep(st, bs);
        hide Agrees, Run, Finish, Parse, ParseMany, ItemStep;
        OpenOK(st, n);
        ManyAgree(st1, bs[used..], n);
        ArrayAgrees(st, bs, used, n);
      } else {
        hide Agrees, Run, Finish, Parse, ParseMany, ItemStep;
        ScalarAgrees(st, bs);
      }
    }
  }

  /** An item that opens an array. */
  lemma ArrayStep(st: State, bs: string)
    requires AtItem(st) && bs != "" && bs[0] == '*' && |st.stack| <= MAX_DEPTH
    requires HasLine(bs[1..]) && ReadLongLong(bs[1..]) > 0
    ensures ItemStep(st, bs) ==
      Advanced(Open(SetKind(st, '*'), ReadLongLong(bs[1..])), 1 + Crlf(bs[1..], 0) + 2)
  {
    hide Shape, ReadLongLong, Crlf, Open;
  }

  lemma SetKindFinish(st: State, c: char)
    requires st.stack != []
    ensures forall r :: Shape(st.reply, st.stack) ==> Finish(SetKind(st, c), r) == Finish(st, r)
  {
    var top := |st.stack| - 1;
    forall r | Shape(st.reply, st.stack) ensures Finish(SetKind(st, c), r) == Finish(st, r) {
      ShapeTop(st.reply, st.stack, st.stack[top].(kind := Some(c)), r);
      NextTop(st.stack, st.stack[top].(kind := Some(c)));
    }
  }

  lemma ScalarAgrees(st: State, bs: string)
    requires AtItem(st) && bs != "" && TypeByte(bs[0])
    requires !(HasLine(bs[1..]) && bs[0] == '*' && |st.stack| <= MAX_DEPTH && ReadLongLong(bs[1..]) > 0)
    ensures Agrees(st, bs, Parse(bs, |st.stack| - 1))
  {
    hide ItemStep, Finish, Shape, HasLine, ReadLongLong, Parse;
    StepUses(st, bs);
    ScalarStep(st, bs);
  }

  /** An item that opens no array takes one step. */
  lemma ScalarStep(st: State, bs: string)
    requires AtItem(st) && bs != "" && TypeByte(bs[0])
    requires !(HasLine(bs[1..]) && bs[0] == '*' && |st.stack| <= MAX_DEPTH && ReadLongLong(bs[1..]) > 0)
    ensures ScalarDone(st, ItemStep(st, bs), Parse(bs, |st.stack| - 1))
  {
    var rest, k := bs[1..], SetKind(st, bs[0]);
    assert Top(st).kind == None;
    assert ItemStep(st, bs) == Shift(1, TypedStep(k, bs[0], rest));
    SetKindFinish(st, bs[0]);
    assert Shape(st.reply, st.stack);
    if HasLine(rest) && !(bs[0] == '*' && |st.stack| > MAX_DEPTH) {
      ScalarTyped(st, k, bs);
    } else {
      hide ReadLongLong, Crlf, AtItem, Shape, Finish;
    }
  }

  ghost predicate ScalarDone(st: State, s: Step, p: Parsed) {
    match p
    case Read(r, u) => s == Advanced(Finish(st, r), u)
    case More => s.Waiting?
    case Bad => s == Broken
  }

  lemma ScalarTyped(st: State, k: State, bs: string)
    requires k.stack != [] && |k.stack| == |st.stack| && forall r :: Finish(k, r) == Finish(st, r)
    requires bs != "" && TypeByte(bs[0]) && HasLine(bs[1..]) && !(bs[0] == '*' && |st.stack| > MAX_DEPTH)
    requires !(bs[0] == '*' && ReadLongLong(bs[1..]) > 0)
    ensures ScalarDone(st, Shift(1, TypedStep(k, bs[0], bs[1..])), Parse(bs, |st.stack| - 1))
  {
    hide Finish, ReadLongLong, Crlf, LineObject;
    var rest := bs[1..];
    if bs[0] == '$' && ReadLongLong(rest) >= 0 {
      var u, n := Crlf(rest, 0) + 2, ReadLongLong(rest);
      if u + n + 2 <= |rest| { assert rest[u..u + n] == bs[1 + u..1 + u + n]; }
    }
  }

  lemma ArrayAgrees(st: State, bs: string, used: nat, n: int)
    requires AtItem(st) && |st.stack| <= MAX_DEPTH && n > 0 && bs != "" && bs[0] == '*' && HasLine(bs[1..])
    requires n == ReadLongLong(bs[1..]) && used == 1 + Crlf(bs[1..], 0) + 2 <= |bs|
    requires AgreesMany(Open(SetKind(st, '*'), n), bs[used..], ParseMany(bs[used..], |st.stack|, n))
    requires ItemStep(st, bs) == Advanced(Open(SetKind(st, '*'), n), used)
    ensures Agrees(st, bs, Parse(bs, |st.stack| - 1))
  {
    hide *;
    NonEmpty(st, n);
    ArrayParse(bs, |st.stack| - 1, used, n);
    var st1 := Open(SetKind(st, '*'), n);
    StepUses(st, bs);
    OpenRun(st, bs, st1, used);
    var p := ParseMany(bs[used..], |st.stack|, n);
    if p.ReadMany? {
      OpenFilled(st, n, p.replies);
      AgreesRead(st1, bs[used..], p.replies, p.used);
      AfterLater(Finish(st, Arr(n, p.replies)), used, p.used, bs);
    }
    AgreesArray(st, bs, st1, n, used, p);
  }

  lemma NonEmpty(st: State, n: int)
    requires AtItem(st)
    ensures st.stack != [] && SetKind(st, '*').stack != [] && Open(SetKind(st, '*'), n).stack != []
  {
  }

  lemma ArrayParse(bs: string, lvl: nat, used: nat, n: int)
    requires lvl < MAX_DEPTH && n > 0 && bs != "" && bs[0] == '*' && HasLine(bs[1..])
    requires n == ReadLongLong(bs[1..]) && used == 1 + Crlf(bs[1..], 0) + 2 <= |bs|
    ensures Parse(bs, lvl) == ArrayOf(n, used, ParseMany(bs[used..], lvl + 1, n))
  {
  }

  lemma OpenRun(st: State, bs: string, st1: State, used: nat)
    requires st.stack != [] && st1.stack != [] && 0 < used <= |bs| && ItemStep(st, bs) == Advanced(st1, used)
    ensures Run(st, bs) == Later(used, Run(st1, bs[used..]))
  {
    hide ItemStep;
  }

  lemma OpenFilled(st: State, n: int, rs: seq<Reply>)
    requires AtItem(st) && |st.stack| <= MAX_DEPTH && n > 0
    ensures |Open(SetKind(st, '*'), n).stack| > 1 && Filled(Open(SetKind(st, '*'), n), rs) == Finish(st, Arr(n, rs))
  {
    OpenOK(st, n);
    hide AtItem, Shape, OK, Get, Put, Finish, Open;
    assert Holes(n)[..0] + rs == rs;
  }

  lemma AgreesRead(st: State, bs: string, rs: seq<Reply>, used: nat)
    requires AgreesMany(st, bs, ReadMany(rs, used))
    ensures |st.stack| > 1 && 0 < used <= |bs| && Run(st, bs) == After(Filled(st, rs), used, bs)
  {
  }

  lemma AgreesArray(st: State, bs: string, st1: State, n: int, used: nat, p: ParsedMany)
    requires st.stack != [] && 0 < used <= |bs| && AgreesMany(st1, bs[used..], p)
    requires Run(st, bs) == Later(used, Run(st1, bs[used..]))
    requires p.ReadMany? ==>
      && 0 < p.used <= |bs| - used
      && Later(used, After(Filled(st1, p.replies), p.used, bs[used..]))
         == After(Finish(st, Arr(n, p.replies)), used + p.used, bs)
    ensures Agrees(st, bs, ArrayOf(n, used, p))
  {
    hide Run, After, Filled, Finish;
  }

  /** An array from its elements. */
  function ArrayOf(n: int, used: nat, p: ParsedMany): Parsed {
    match p
    case ReadMany(rs, more) => Read(Arr(n, rs), used + more)
    case MoreMany => More
    case BadMany => Bad
  }

  /** Reading the remaining k elements of the array that is open below the current task. */
  lemma {:induction false} ManyAgree(st: State, bs: string, k: nat)
    requires AtItem(st) && |st.stack| > 1 && k > 0
    requires Top(st).idx + k == st.stack[|st.stack| - 2].elements
    ensures AgreesMany(st, bs, ParseMany(bs, |st.stack| - 1, k))
    decreases |bs|, 1, k
  {
    hide Parse, Run, Shape, Finish, Get, Put, Filled, AtItem;
    ItemAgrees(st, bs);
    var p := Parse(bs, |st.stack| - 1);
    if p.Read? {
      if k == 1 {
        LastFilled(st, p.reply);
        assert ParseMany(bs[p.used..], |st.stack| - 1, 0) == ReadMany([], 0) && [p.reply] + [] == [p.reply];
      } else {
        NextElement(st, p.reply);
        ManyAgree(Finish(st, p.reply), bs[p.used..], k - 1);
        ManyStep(st, bs, k, p.reply, p.used);
      }
    }
  }

  /** One element of the open array is complete. */
  lemma ElementDone(st: State, r: Reply)
    requires AtItem(st) && |st.stack| > 1
    ensures var ps := st.stack[..|st.stack| - 1]; var node := Get(st.reply, ps); var i := Top(st).idx;
      var st1 := Finish(st, r);
      && node.Arr? && 0 <= i < |node.element| == ps[|ps| - 1].elements
      && (i + 1 == |node.element| ==> st1 == Finish(State(ps, st.reply), node.(element := node.element[..i] + [r])))
      && (i + 1 < |node.element| ==>
            && AtItem(st1) && st1.stack == ps + [Task(None, -1, i + 1)] && st1.stack[..|ps|] == ps
            && Get(st1.reply, ps) == node.(element := node.element[i := r])
            && forall obj :: Put(st1.reply, ps, obj) == Put(st.reply, ps, obj))
  {
    var ps, i := st.stack[..|st.stack| - 1], Top(st).idx;
    var node := Get(st.reply, ps);
    ShapeInit(st.reply, st.stack, r);
    FinishOK(st, r);
    var node' := node.(element := node.element[i := r]);
    ShapePut(st.reply, ps, node');
    if i + 1 == |node.element| {
      assert node.element[..i] + [r] == node.element[i := r];
    } else {
      forall obj ensures Put(Put(st.reply, ps, node'), ps, obj) == Put(st.reply, ps, obj) {
        PutPut(st.reply, ps, node', obj);
      }
    }
  }

  lemma LastFilled(st: State, r: Reply)
    requires AtItem(st) && |st.stack| > 1 && Top(st).idx + 1 == st.stack[|st.stack| - 2].elements
    ensures Filled(st, [r]) == Finish(st, r)
  {
    ElementDone(st, r);
  }

  lemma NextElement(st: State, r: Reply)
    requires AtItem(st) && |st.stack| > 1 && Top(st).idx + 1 < st.stack[|st.stack| - 2].elements
    ensures var st1 := Finish(st, r);
      && AtItem(st1) && |st1.stack| == |st.stack| && Top(st1).idx == Top(st).idx + 1
      && st1.stack[|st1.stack| - 2].elements == st.stack[|st.stack| - 2].elements
  {
    ElementDone(st, r);
  }

  lemma FilledStep(st: State, r: Reply, rs: seq<Reply>)
    requires AtItem(st) && |st.stack| > 1
    requires Top(st).idx + 1 < st.stack[|st.stack| - 2].elements
    ensures |Finish(st, r).stack| > 1 && Filled(Finish(st, r), rs) == Filled(st, [r] + rs)
  {
    ElementDone(st, r);
    hide Shape, AtItem, Get, Put, OK, Next;
    var ps, i := st.stack[..|st.stack| - 1], Top(st).idx;
    var node, st1 := Get(st.reply, ps), Finish(st, r);
    assert node.element[i := r][..i + 1] + rs == node.element[..i] + ([r] + rs);
  }

  lemma ManyStep(st: State, bs: string, k: nat, r: Reply, used: nat)
    requires AtItem(st) && |st.stack| > 1 && k > 1
    requires Top(st).idx + k == st.stack[|st.stack| - 2].elements
    requires Parse(bs, |st.stack| - 1) == Read(r, used) && Run(st, bs) == After(Finish(st, r), used, bs)
    requires AgreesMany(Finish(st, r), bs[used..], ParseMany(bs[used..], |st.stack| - 1, k - 1))
    ensures AgreesMany(st, bs, ParseMany(bs, |st.stack| - 1, k))
  {
    hide Parse, Run, After, Shape, AtItem, Finish, Filled, Get, Put, Later;
    var st1 := Finish(st, r);
    AfterOpen(st1, used, bs) by { NextElement(st, r); }
    var p := ParseMany(bs[used..], |st.stack| - 1, k - 1);
    if p.ReadMany? {
      FilledStep(st, r, p.replies);
      AfterLater(Filled(st, [r] + p.replies), used, p.used, bs);
    }
    LaterKind(used, Run(st1, bs[used..]));
  }

  lemma AfterOpen(st: State, used: nat, bs: string)
    requires 0 < used <= |bs| && st.stack != []
    ensures After(st, used, bs) == Later(used, Run(st, bs[used..]))
  {
  }

  lemma LaterKind(used: nat, o: Outcome)
    ensures o.Pending? ==> Later(used, o).Pending?
    ensures o == Failed ==> Later(used, o) == Failed
  {
  }
}
