/** The resumable reply reader (hiredis.c:260-666): a growing buffer with a cursor and a fixed array of nine read
    tasks, proved to hand out exactly the replies that the one-shot parser finds in the whole input. */
module ReplyReader {
  import opened Basics
  import opened Resp
  import opened RespReading
  import opened RespEncoding

  // ---------- lines and numbers ----------

  /** The byte after the last one of an sds string is a terminating NUL. */
  function ByteAt(s: string, i: nat): char
    requires i <= |s|
  {
    if i < |s| then s[i] else '\0'
  }

  method SeekNewline(s: string) returns (at: Option<nat>)
    ensures at == if HasLine(s) then Some(Crlf(s, 0)) else None
    ensures at.Some? ==> at.value + 2 <= |s|
  {
    var pos, len := 0, |s| - 1;
    while pos < len
      invariant 0 <= pos <= |s| && Crlf(s, 0) == Crlf(s, pos)
    {
      while pos < len && s[pos] != '\r'
        invariant 0 <= pos <= len && Crlf(s, 0) == Crlf(s, pos)
      {
        pos := pos + 1;
      }
      if s[pos] != '\r' {
        return None;
      } else if ByteAt(s, pos + 1) == '\n' {
        return Some(pos);
      } else {
        pos := pos + 1;
      }
    }
    return None;
  }

  method ReadNumber(s: string) returns (n: int)
    requires HasLine(s)
    ensures n == ReadLongLong(s)
  {
    var v, mult, i := 0, 1, 0;
    ghost var cr := Crlf(s, 0);
    if s[0] == '-' {
      mult, i := -1, 1;
    } else if s[0] == '+' {
      i := 1;
    }
    ghost var start := i;
    while s[i] != '\r'
      invariant start <= i <= cr
      invariant ReadDigits(s[start..], 0) == ReadDigits(s[i..], v) && Numeric(s[start..]) == Numeric(s[i..])
      decreases cr - i
    {
      assert s[i..][1..] == s[i + 1..];
      if Digit(s[i]) {
        v := v * 10 + DigitValue(s[i]);
      } else {
        return -1;
      }
      i := i + 1;
    }
    assert s[0..] == s;
    return mult * v;
  }

  // ---------- the reader ----------

  ghost predicate Nested(stack: seq<Task>) {
    forall i :: 0 <= i < |stack| - 1 ==> stack[i].kind == Some('*') && stack[i + 1].idx < stack[i].elements
  }

  lemma NextEmpty()
    ensures Next([]) == []
  {
  }

  lemma NextCases(s: seq<Task>)
    requires s != [] && Nested(s)
    ensures |s| == 1 ==> Next(s) == []
    ensures |s| > 1 ==>
      var cur, prv := s[|s| - 1], s[|s| - 2];
      && prv.kind == Some('*') && cur.idx < prv.elements && Nested(s[..|s| - 1])
      && Next(s) == if cur.idx == prv.elements - 1 then Next(s[..|s| - 1])
        else s[..|s| - 1] + [Task(None, -1, cur.idx + 1)]
  {
  }

  lemma {:induction false} ShapeNested(reply: Reply, tasks: seq<Task>)
    requires Shape(reply, tasks)
    ensures Nested(tasks)
    decreases |tasks|
  {
    if |tasks| > 1 {
      ShapeNested(reply.element[tasks[1].idx], tasks[1..]);
      forall i | 0 <= i < |tasks| - 1
        ensures tasks[i].kind == Some('*') && tasks[i + 1].idx < tasks[i].elements
      {
        if i > 0 { assert tasks[1..][i - 1] == tasks[i] && tasks[1..][i] == tasks[i + 1]; }
      }
    }
  }

  /** A task that would be refused is never left on the stack. */
  predicate Calm(st: State) {
    st.stack != [] && (Top(st).kind == Some('*') ==> |st.stack| <= MAX_DEPTH)
    && (Top(st).kind.Some? ==> TypeByte(Top(st).kind.value))
  }

  ghost predicate Ends(input: string, rest: string) {
    |rest| <= |input| && input[|input| - |rest|..] == rest
  }

  /** Of the input `input`, all but `rest` has been turned into the state st, whatever input follows. */
  ghost predicate Reads(input: string, st: State, rest: string) {
    OK(st) && Calm(st) && Ends(input, rest)
    && forall x: string :: Run(FRESH, input + x) == Later(|input| - |rest|, Run(st, rest + x))
  }

  lemma ReadsFresh(input: string)
    ensures Reads(input, FRESH, input)
  {
    forall x: string ensures Run(FRESH, input + x) == Later(0, Run(FRESH, input + x)) {
      match Run(FRESH, input + x) case _ =>
    }
  }

  lemma SuffixMore(s: string, pos: nat, x: string)
    requires pos <= |s|
    ensures (s + x)[pos..] == s[pos..] + x
  {
  }

  lemma ReadsMore(input: string, st: State, rest: string, x: string)
    requires Reads(input, st, rest)
    ensures Reads(input + x, st, rest + x)
  {
    assert st.stack != [];
    hide OK, Calm, Run, Later;
    assert (input + x)[|input| - |rest|..] == input[|input| - |rest|..] + x;
    forall y: string ensures Run(FRESH, input + x + y) == Later(|input| - |rest|, Run(st, rest + x + y)) {
      ReadsOn(input, st, rest, x, y);
    }
  }

  lemma ReadsOn(input: string, st: State, rest: string, x: string, y: string)
    requires Reads(input, st, rest)
    ensures Run(FRESH, input + x + y) == Later(|input| - |rest|, Run(st, rest + x + y))
  {
    hide *;
    ReadsFrom(input, st, rest, x + y);
    assert input + x + y == input + (x + y) && rest + x + y == rest + (x + y);
  }

  lemma ReadsFrom(input: string, st: State, rest: string, x: string)
    requires Reads(input, st, rest)
    ensures st.stack != [] && |rest| <= |input|
    ensures Run(FRESH, input + x) == Later(|input| - |rest|, Run(st, rest + x))
  {
    assert st.stack != [];
    hide OK, Calm, Run, Later;
  }

  ghost predicate Sound(s: Step) {
    match s
    case Advanced(st', _) => st'.stack != [] ==> OK(st') && Calm(st')
    case Waiting(st', _) => OK(st') && Calm(st')
    case Broken => true
  }

  lemma StepKeeps(st: State, input: string)
    requires OK(st) && Calm(st)
    ensures Sound(ItemStep(st, input))
  {
    match Top(st).kind
    case Some(c) => TypedKeeps(st, c, input);
    case None =>
      if input != "" && TypeByte(input[0]) {
        KindKeeps(st, input[0]);
        TypedKeeps(SetKind(st, input[0]), input[0], input[1..]);
      }
  }

  lemma KindKeeps(st: State, c: char)
    requires OK(st)
    ensures OK(SetKind(st, c)) && Top(SetKind(st, c)).kind == Some(c)
  {
    var top := |st.stack| - 1;
    ShapeTop(st.reply, st.stack, st.stack[top].(kind := Some(c)), Hole);
  }

  lemma TypedKeeps(st: State, kind: char, input: string)
    requires OK(st) && Top(st).kind == Some(kind) && TypeByte(kind)
    ensures Sound(TypedStep(st, kind, input))
  {
    forall obj ensures var st' := Finish(st, obj); st'.stack != [] ==> OK(st') && Calm(st') {
      FinishOK(st, obj);
    }
    if kind == '*' && |st.stack| <= MAX_DEPTH && HasLine(input) && ReadLongLong(input) > 0 {
      OpenKeeps(st, ReadLongLong(input));
    }
    hide Shape, HasLine, ReadLongLong, Finish;
  }

  lemma OpenKeeps(st: State, n: int)
    requires OK(st) && Top(st).kind == Some('*') && |st.stack| <= MAX_DEPTH && n > 0
    ensures OK(Open(st, n)) && Calm(Open(st, n))
  {
    var top := |st.stack| - 1;
    var t := st.stack[top].(elements := n);
    var a := Arr(n, Holes(n));
    ShapePut(st.reply, st.stack, a);
    ShapeTop(Put(st.reply, st.stack, a), st.stack, t, a);
    ShapePush(Put(st.reply, st.stack, a), st.stack[top := t], 0);
  }

  /** What the step s, taken where `rest` is still unread, says about the whole input. */
  ghost predicate Explains(input: string, rest: string, s: Step) {
    |rest| <= |input| &&
    match s
    case Broken => Run(FRESH, input) == Failed
    case Waiting(st', used) =>
      used <= |rest| && Reads(input, st', rest[used..]) && Run(FRESH, input).Pending?
    case Advanced(st', used) =>
      && 0 < used <= |rest|
      && if st'.stack == [] then Run(FRESH, input) == Complete(st'.reply, |input| - |rest| + used)
         else Reads(input, st', rest[used..])
  }

  ghost predicate Goes(input: string, rest: string, s: Step, x: string) {
    |rest| <= |input| &&
    match s
    case Broken => Run(FRESH, input + x) == Failed
    case Waiting(st', used) =>
      used <= |rest| && st'.stack != []
      && Run(FRESH, input + x) == Later(|input| - |rest| + used, Run(st', rest[used..] + x))
    case Advanced(st', used) =>
      0 < used <= |rest|
      && if st'.stack == [] then Run(FRESH, input + x) == Complete(st'.reply, |input| - |rest| + used)
         else Run(FRESH, input + x) == Later(|input| - |rest| + used, Run(st', rest[used..] + x))
  }

  lemma StepGoes(input: string, st: State, rest: string, x: string)
    requires Reads(input, st, rest)
    ensures Goes(input, rest, ItemStep(st, rest), x)
  {
    assert st.stack != [];
    assert Run(FRESH, input + x) == Later(|input| - |rest|, Run(st, rest + x));
    hide ItemStep, OK, Calm, Reads;
    StepUses(st, rest);
    StepMore(st, rest, x);
    var s := ItemStep(st, rest);
    if s.Waiting? {
      WaitingGoes(st, rest, x);
      hide Run;
    } else if s.Advanced? {
      AdvancedGoes(st, rest, x);
      hide Run;
    }
  }

  lemma WaitingGoes(st: State, rest: string, x: string)
    requires st.stack != [] && ItemStep(st, rest).Waiting?
    ensures var s := ItemStep(st, rest);
      s.used <= |rest| && s.st.stack != [] && Run(st, rest + x) == Later(s.used, Run(s.st, rest[s.used..] + x))
  {
    hide ItemStep, Run;
    StepMore(st, rest, x);
    var s := ItemStep(st, rest);
    assert (rest + x)[s.used..] == rest[s.used..] + x;
    ShiftRun(st, rest + x, s.used, s.st, rest[s.used..] + x);
  }

  lemma AdvancedGoes(st: State, rest: string, x: string)
    requires st.stack != [] && ItemStep(st, rest).Advanced?
    ensures var s := ItemStep(st, rest);
      && 0 < s.used <= |rest|
      && Run(st, rest + x) == if s.st.stack == [] then Complete(s.st.reply, s.used)
        else Later(s.used, Run(s.st, rest[s.used..] + x))
  {
    hide ItemStep;
    StepUses(st, rest);
    StepMore(st, rest, x);
    var s := ItemStep(st, rest);
    assert (rest + x)[s.used..] == rest[s.used..] + x;
    assert Run(st, rest + x) == After(s.st, s.used, rest + x);
  }

  lemma GoesReads(input: string, rest: string, s: Step)
    requires forall x: string :: Goes(input, rest, s, x)
    requires Sound(s) && !s.Broken? && s.st.stack != [] && Ends(input, rest)
    ensures s.used <= |rest| && Reads(input, s.st, rest[s.used..])
  {
    hide OK, Calm, Run;
    assert Goes(input, rest, s, "");
    assert input[|input| - |rest|..][s.used..] == input[|input| - |rest| + s.used..];
    forall x: string
      ensures Run(FRESH, input + x) == Later(|input| - |rest[s.used..]|, Run(s.st, rest[s.used..] + x))
    {
      assert Goes(input, rest, s, x);
    }
  }

  /** One step of the reader loop. */
  lemma ReadsStep(input: string, st: State, rest: string)
    requires Reads(input, st, rest)
    ensures Explains(input, rest, ItemStep(st, rest))
  {
    assert st.stack != [];
    hide ItemStep, OK, Calm, Run, Reads;
    var s := ItemStep(st, rest);
    ReadsParts(input, st, rest);
    StepKeeps(st, rest);
    forall x: string ensures Goes(input, rest, s, x) { StepGoes(input, st, rest, x); }
    assert Goes(input, rest, s, "") && input + "" == input && rest + "" == rest;
    if s.Waiting? { WaitingPends(st, rest); }
    if !s.Broken? && s.st.stack != [] { GoesReads(input, rest, s); }
  }

  lemma ReadsParts(input: string, st: State, rest: string)
    requires Reads(input, st, rest)
    ensures OK(st) && Calm(st) && Ends(input, rest) && Run(FRESH, input) == Later(|input| - |rest|, Run(st, rest))
  {
    assert input + "" == input && rest + "" == rest;
  }

  lemma WaitingPends(st: State, rest: string)
    requires st.stack != [] && ItemStep(st, rest).Waiting?
    ensures Run(st, rest).Pending?
  {
  }

  class Reader {
    var err: bool
    var buf: string
    var pos: nat
    const rstack: array<Task>
    var ridx: int
    var reply: Reply

    /** The bytes fed since the last reply was handed out, less those that reply took. */
    ghost var input: string

    ghost predicate Valid()
      reads this, rstack
    {
      && rstack.Length == MAX_DEPTH + 1
      && (err ==> ridx == -1 && buf == "" && pos == 0 && Parse(input, 0) == Bad)
      && (!err ==> Fits() && Reads(input, Current(), buf[pos..]))
      && (!err && ridx == -1 ==> reply == Hole && input == buf[pos..])
    }

    ghost predicate Fits()
      reads this, rstack
    {
      rstack.Length == MAX_DEPTH + 1 && -1 <= ridx <= MAX_DEPTH && pos <= |buf|
    }

    ghost function Stack(): seq<Task>
      requires Fits()
      reads this, rstack
    {
      rstack[..ridx + 1]
    }

    ghost function Here(): State
      requires Fits()
      reads this, rstack
    {
      State(Stack(), reply)
    }

    /** The state from which reading goes on: a fresh one between replies. */
    ghost function Current(): State
      requires Fits()
      reads this, rstack
    {
      if ridx == -1 then FRESH else Here()
    }

    /** redisReaderCreate */
    constructor ()
      ensures Valid() && !err && input == "" && fresh(rstack)
    {
      err, buf, pos, ridx, reply := false, "", 0, -1, Hole;
      rstack := new Task[MAX_DEPTH + 1](_ => ROOT);
      input := "";
      new;
      ReadsFresh("");
    }

    /** redisReaderFeed */
    method Feed(bytes: string) returns (ok: bool)
      requires Valid()
      modifies this`buf, this`input
      ensures Valid() && ok == !err
      ensures input == if err then old(input) else old(input) + bytes
    {
      if err {
        return false;
      }
      if |bytes| >= 1 {
        ReadsMore(input, Current(), buf[pos..], bytes);
        hide Reads, Parse;
        SuffixMore(buf, pos, bytes);
        buf := buf + bytes;
        input := input + bytes;
      } else {
        assert input + bytes == input;
      }
      return true;
    }

    method MoveToNextTask()
      requires Fits() && Nested(Stack())
      modifies this`ridx, rstack
      ensures Fits() && Stack() == Next(old(Stack()))
    {
      hide Next, Nested;
      while ridx >= 0
        invariant Fits() && Nested(Stack()) && Next(Stack()) == Next(old(Stack()))
      {
        ghost var s := Stack();
        NextCases(s);
        if ridx == 0 {
          ridx := ridx - 1;
          return;
        }
        var cur, prv := rstack[ridx], rstack[ridx - 1];
        assert cur == s[ridx] && prv == s[ridx - 1];
        assert prv.kind == Some('*') && cur.idx < prv.elements;
        if cur.idx == prv.elements - 1 {
          ridx := ridx - 1;
          assert Stack() == s[..|s| - 1];
        } else {
          rstack[ridx] := Task(None, -1, cur.idx + 1);
          assert Stack() == s[..|s| - 1] + [Task(None, -1, cur.idx + 1)];
          return;
        }
      }
      NextEmpty();
    }

    /** The object of the current task is stored in its slot, and the next task becomes current. */
    method Complete(obj: Reply)
      requires Fits() && ridx >= 0 && OK(Here())
      modifies this`ridx, this`reply, rstack
      ensures Fits() && Here() == Finish(old(Here()), obj)
    {
      ShapeNested(reply, Stack());
      reply := Put(reply, rstack[..ridx + 1], obj);
      MoveToNextTask();
    }

    /** The reader has taken the step s from the bytes `rest` it had not consumed. */
    ghost predicate Did(rest: string, s: Step, ok: bool)
      reads this, rstack
    {
      && Fits()
      && match s
         case Advanced(st', used) => !err && ok && Here() == st' && used <= |rest| && buf[pos..] == rest[used..]
         case Waiting(st', used) => !err && !ok && Here() == st' && used <= |rest| && buf[pos..] == rest[used..]
         case Broken => err && !ok && ridx == -1 && buf == "" && pos == 0
    }

    method ProcessLineItem() returns (ok: bool)
      requires Fits() && !err && ridx >= 0 && OK(Here())
      requires rstack[ridx].kind in {Some('-'), Some('+'), Some(':')}
      modifies this`pos, this`ridx, this`reply, rstack
      ensures Did(old(buf[pos..]), TypedStep(old(Here()), old(rstack[ridx].kind.value), old(buf[pos..])), ok)
    {
      hide OK, Finish, Open, HasLine, Crlf, ReadLongLong;
      var p := buf[pos..];
      var line := SeekNewline(p);
      if line == None {
        return false;
      }
      var len := line.value;
      pos := pos + len + 2;
      var kind := rstack[ridx].kind.value;
      if kind == ':' {
        var n := ReadNumber(p);
        Complete(Integer(n));
      } else if kind == '+' {
        Complete(Status(p[..len]));
      } else {
        Complete(Failure(p[..len]));
      }
      return true;
    }

    method ProcessBulkItem() returns (ok: bool)
      requires Fits() && !err && ridx >= 0 && OK(Here())
      requires rstack[ridx].kind == Some('$')
      modifies this`pos, this`ridx, this`reply, rstack
      ensures Did(old(buf[pos..]), TypedStep(old(Here()), '$', old(buf[pos..])), ok)
    {
      hide OK, Finish, Open, HasLine, Crlf, ReadLongLong;
      var p := buf[pos..];
      var s := SeekNewline(p);
      if s == None {
        return false;
      }
      var len := ReadNumber(p);
      var bytelen := s.value + 2;
      var obj := Nil;
      if len >= 0 {
        bytelen := bytelen + len + 2;
        if pos + bytelen > |buf| {
          return false;
        }
        obj := Text(p[s.value + 2..][..len]);
        assert p[s.value + 2..][..len] == p[s.value + 2..s.value + 2 + len];
      }
      pos := pos + bytelen;
      Complete(obj);
      assert buf[pos..] == p[bytelen..];
      return true;
    }

    /** An array is stored in the slot of the current task, and the task of its first element becomes current. */
    method OpenElements(elements: int)
      requires Fits() && 0 <= ridx < MAX_DEPTH && elements > 0
      modifies this`ridx, this`reply, rstack
      ensures Fits() && Here() == Open(old(Here()), elements)
    {
      hide Put, Holes;
      reply := Put(reply, rstack[..ridx + 1], Arr(elements, Holes(elements)));
      rstack[ridx] := rstack[ridx].(elements := elements);
      ridx := ridx + 1;
      rstack[ridx] := Task(None, -1, 0);
    }

    method ProcessMultiBulkItem() returns (ok: bool)
      requires Fits() && !err && ridx >= 0 && OK(Here())
      requires rstack[ridx].kind == Some('*')
      modifies this, rstack
      ensures input == old(input)
      ensures Did(old(buf[pos..]), TypedStep(old(Here()), '*', old(buf[pos..])), ok)
    {
      hide OK, Finish, Open, HasLine, Crlf, ReadLongLong;
      if ridx == MAX_DEPTH {
        SetError();
        return false;
      }
      var p := buf[pos..];
      var line := SeekNewline(p);
      if line == None {
        return false;
      }
      pos := pos + line.value + 2;
      var elements := ReadNumber(p);
      if elements == -1 {
        Complete(Nil);
      } else if elements > 0 {
        OpenElements(elements);
      } else {
        Complete(Arr(elements, []));
      }
      return true;
    }

    /** __redisReaderSetError */
    method SetError()
      requires rstack.Length == MAX_DEPTH + 1
      modifies this
      ensures err && ridx == -1 && buf == "" && pos == 0 && reply == Hole && input == old(input)
    {
      reply, buf, pos, ridx, err := Hole, "", 0, -1, true;
    }

    /** processItem, once the type byte is known */
    method ProcessTyped() returns (ok: bool)
      requires Fits() && !err && ridx >= 0 && OK(Here())
      requires rstack[ridx].kind.Some? && TypeByte(rstack[ridx].kind.value)
      modifies this, rstack
      ensures input == old(input)
      ensures Did(old(buf[pos..]), TypedStep(old(Here()), old(rstack[ridx].kind.value), old(buf[pos..])), ok)
    {
      var kind := rstack[ridx].kind.value;
      if kind == '$' {
        ok := ProcessBulkItem();
      } else if kind == '*' {
        ok := ProcessMultiBulkItem();
      } else {
        ok := ProcessLineItem();
      }
    }

    method ProcessItem() returns (ok: bool)
      requires Fits() && !err && ridx >= 0 && OK(Here()) && Calm(Here())
      modifies this, rstack
      ensures input == old(input)
      ensures Did(old(buf[pos..]), ItemStep(old(Here()), old(buf[pos..])), ok)
    {
      hide TypedStep, Shape;
      if rstack[ridx].kind == None {
        if |buf| - pos < 1 {
          return false;
        }
        var c := buf[pos];
        ghost var rest, st := buf[pos..], Here();
        pos := pos + 1;
        if !TypeByte(c) {
          SetError();
          return false;
        }
        KindKeeps(st, c);
        rstack[ridx] := rstack[ridx].(kind := Some(c));
        assert Here() == SetKind(st, c) && buf[pos..] == rest[1..];
        ok := ProcessTyped();
      } else {
        ok := ProcessTyped();
      }
    }

    /** What polling the input `was` must give: the first reply in it, if it is all there. */
    ghost predicate Answered(was: string, ok: bool, out: Option<Reply>)
      reads this
    {
      match Parse(was, 0)
      case Read(r, used) => ok && !err && out == Some(r) && input == was[used..]
      case More => ok && !err && out == None && input == was
      case Bad => !ok && err && out == None && input == was
    }

    /** redisReaderGetReply */
    method GetReply() returns (ok: bool, out: Option<Reply>)
      requires Valid()
      modifies this, rstack
      ensures Valid()
      ensures if old(err) then err && !ok && out == None && input == old(input) else Answered(old(input), ok, out)
    {
      out := None;
      if err {
        return false, None;
      }
      if |buf| == 0 {
        Starved(input, Current());
        return true, None;
      }
      if ridx == -1 {
        rstack[0] := ROOT;
        ridx := 0;
      }
      assert Here() == old(Current());
      ok := ProcessItems();
      if err {
        return false, None;
      }
      if pos >= 1024 {
        buf, pos := buf[pos..], 0;
      }
      if ridx == -1 {
        out := Some(reply);
        input := buf[pos..];
        reply := Hole;
        ReadsFresh(input);
      }
      return true, out;
    }

    /** The loop that processes items until the reply is complete or the input runs out. */
    method ProcessItems() returns (ok: bool)
      requires Fits() && !err && ridx >= 0 && Reads(input, Here(), buf[pos..])
      modifies this, rstack
      ensures input == old(input) && Fits()
      ensures err ==> Parse(input, 0) == Bad && ridx == -1 && buf == "" && pos == 0
      ensures !err && ridx >= 0 ==> Parse(input, 0) == More && Reads(input, Here(), buf[pos..])
      ensures !err && ridx == -1 ==> Ends(input, buf[pos..]) && Parse(input, 0) == Read(reply, |input| - |buf[pos..]|)
    {
      hide OK, Calm, Parse, Run, ItemStep, Reads;
      RootAgrees(input);
      ok := true;
      while ridx >= 0
        invariant input == old(input) && Fits() && !err
        invariant ridx >= 0 ==> Reads(input, Here(), buf[pos..])
        invariant ridx == -1 ==> Ends(input, buf[pos..]) && Parse(input, 0) == Read(reply, |input| - |buf[pos..]|)
        decreases if ridx >= 0 then |buf| - pos + 1 else 0
      {
        ghost var rest, st := buf[pos..], Here();
        ReadsParts(input, st, rest);
        ReadsStep(input, st, rest);
        StepUses(st, rest);
        ok := ProcessItem();
        if !ok {
          return;
        }
        ghost var s := ItemStep(st, rest);
        if ridx == -1 {
          assert input[|input| - |rest|..][s.used..] == input[|input| - |rest| + s.used..];
        }
      }
    }

    /** Polling until there is no reply left, as redisProcessCallbacks does. */
    method Drain() returns (out: seq<Reply>)
      requires Valid()
      modifies this, rstack
      ensures Valid()
      ensures old(err) ==> err && out == [] && input == old(input)
      ensures !old(err) ==>
        out == Replies(old(input)) && input == Leftover(old(input)) && (err <==> Parse(input, 0) == Bad)
    {
      out := [];
      hide Parse, Valid;
      var ok, reply := true, None;
      var more := true;
      while more
        invariant Valid()
        invariant old(err) ==> err && out == [] && input == old(input)
        invariant !old(err) && more ==>
            !err && out + Replies(input) == Replies(old(input)) && Leftover(input) == Leftover(old(input))
        invariant !old(err) && !more ==>
            out == Replies(old(input)) && input == Leftover(old(input)) && (err <==> Parse(input, 0) == Bad)
        decreases more, |input|
      {
        ok, reply := GetReply();
        more := ok && reply.Some?;
        if more {
          out := out + [reply.value];
        }
      }
    }
  }

  /** With nothing left to read, the reader waits. */
  lemma Starved(input: string, st: State)
    requires Reads(input, st, "")
    ensures Parse(input, 0) == More
  {
    ReadsParts(input, st, "");
    RootAgrees(input);
    WaitingPends(st, "");
    hide Parse;
  }

  function Joined(pieces: seq<string>): string {
    if pieces == [] then "" else pieces[0] + Joined(pieces[1..])
  }

  lemma {:induction false} JoinedSnoc(pieces: seq<string>, i: nat)
    requires i < |pieces|
    ensures Joined(pieces[..i + 1]) == Joined(pieces[..i]) + pieces[i]
    decreases i
  {
    if i > 0 {
      JoinedSnoc(pieces[1..], i - 1);
      assert pieces[..i + 1][1..] == pieces[1..][..i] && pieces[..i][1..] == pieces[1..][..i - 1];
    }
  }

  /** Feed the input piece by piece and poll after each: whatever the pieces, the replies that come out are those the
      one-shot parser finds in the whole input. */
  method FeedAndPoll(pieces: seq<string>) returns (out: seq<Reply>, failed: bool)
    ensures out == Replies(Joined(pieces)) && (failed <==> Parse(Leftover(Joined(pieces)), 0) == Bad)
  {
    assert Parse("", 0) == More;
    hide Parse;
    var r := new Reader();
    out := [];
    assert pieces[..|pieces|] == pieces;
    for i := 0 to |pieces|
      invariant r.Valid() && fresh(r) && fresh(r.rstack)
      invariant var whole := Joined(pieces[..i]);
        out == Replies(whole) && r.err == (Parse(Leftover(whole), 0) == Bad)
        && (!r.err ==> r.input == Leftover(whole))
    {
      ghost var whole := Joined(pieces[..i]);
      JoinedSnoc(pieces, i);
      RepliesMore(whole, pieces[i]);
      ShiftParse(Leftover(whole), pieces[i]);
      var ok := r.Feed(pieces[i]);
      var more := r.Drain();
      out := out + more;
    }
    failed := r.err;
  }

  /** What a server encodes comes out of the reader, in order, and nothing else. */
  lemma EncodedStream(ts: seq<Reply>, pieces: seq<string>)
    requires forall i :: 0 <= i < |ts| ==> Encodable(ts[i], 0)
    requires Joined(pieces) == EncodeAll(ts)
    ensures Replies(Joined(pieces)) == ts && Leftover(Joined(pieces)) == ""
  {
    RepliesOfEncoding(ts);
  }
}
