/** The reply protocol as hiredis reads it (hiredis.c:260-554, 618-666): the resumable task-stack reader as a
    function on values, a one-shot recursive parser, and the encoding of a reply. */
module Resp {
  import opened Basics

  /** A reply object. Hole is an element of an array that has not been read yet (a NULL pointer). A negative element
      count other than -1 is accepted by the reader and gives an array with that count and no elements. */
  datatype Reply =
    | Hole
    | Text(s: string)
    | Status(s: string)
    | Failure(s: string)
    | Integer(n: int)
    | Nil
    | Arr(count: int, element: seq<Reply>)

  // ---------- lines and numbers ----------

  /** The position of the first CR LF at or after i, or |s| if there is none. */
  function Crlf(s: string, i: nat): (r: nat)
    requires i <= |s|
    ensures i <= r <= |s|
    ensures r < |s| ==> r + 1 < |s| && s[r] == '\r' && s[r + 1] == '\n'
    decreases |s| - i
  {
    if i + 1 >= |s| then |s| else if s[i] == '\r' && s[i + 1] == '\n' then i else Crlf(s, i + 1)
  }

  predicate HasLine(s: string) { Crlf(s, 0) < |s| }

  lemma {:induction false} CrlfFirst(s: string, i: nat, r: nat)
    requires i <= r && r + 1 < |s| && s[r] == '\r' && s[r + 1] == '\n'
    requires forall j :: i <= j < r ==> !(s[j] == '\r' && s[j + 1] == '\n')
    ensures Crlf(s, i) == r
    decreases r - i
  {
    if i < r { CrlfFirst(s, i + 1, r); }
  }

  lemma {:induction false} CrlfIsFirst(s: string, i: nat)
    requires i <= |s|
    ensures forall j :: i <= j < Crlf(s, i) && j + 1 < |s| ==> !(s[j] == '\r' && s[j + 1] == '\n')
    decreases |s| - i
  {
    if i + 1 < |s| && !(s[i] == '\r' && s[i + 1] == '\n') { CrlfIsFirst(s, i + 1); }
  }

  lemma CrlfMore(s: string, x: string)
    requires HasLine(s)
    ensures HasLine(s + x) && Crlf(s + x, 0) == Crlf(s, 0)
  {
    CrlfIsFirst(s, 0);
    CrlfFirst(s + x, 0, Crlf(s, 0));
  }

  predicate Digit(c: char) { '0' <= c <= '9' }

  function DigitValue(c: char): int requires Digit(c) { c as int - '0' as int }

  /** readLongLong: digits up to the first CR; anything else there gives -1. */
  function ReadDigits(s: string, v: int): int {
    if s == "" || s[0] == '\r' then v
    else if Digit(s[0]) then ReadDigits(s[1..], v * 10 + DigitValue(s[0]))
    else -1
  }

  /** The sign and the digits before the first CR; -1 (without the sign applied) if another character is met. */
  function ReadLongLong(s: string): int {
    if s == "" then 0
    else if s[0] == '-' then
      if Numeric(s[1..]) then -ReadDigits(s[1..], 0) else -1
    else if s[0] == '+' then ReadDigits(s[1..], 0)
    else ReadDigits(s, 0)
  }

  predicate Numeric(s: string) {
    s == "" || s[0] == '\r' || (Digit(s[0]) && Numeric(s[1..]))
  }

  lemma {:induction false} ReadDigitsMore(s: string, x: string, v: int)
    requires '\r' in s
    ensures ReadDigits(s + x, v) == ReadDigits(s, v) && Numeric(s + x) == Numeric(s)
  {
    if s[0] != '\r' && Digit(s[0]) {
      assert (s + x)[1..] == s[1..] + x;
      ReadDigitsMore(s[1..], x, v * 10 + DigitValue(s[0]));
    } else if s[0] != '\r' {
      assert (s + x)[0] == s[0];
    }
  }

  lemma ReadLongLongMore(s: string, x: string)
    requires HasLine(s)
    ensures ReadLongLong(s + x) == ReadLongLong(s)
  {
    assert s[Crlf(s, 0)] == '\r';
    if s[0] == '-' || s[0] == '+' {
      assert (s + x)[1..] == s[1..] + x;
      assert '\r' in s[1..] by { assert s[1..][Crlf(s, 0) - 1] == '\r'; }
      ReadDigitsMore(s[1..], x, 0);
    } else {
      ReadDigitsMore(s, x, 0);
    }
  }

  // ---------- the task stack ----------

  /** redisReadTask: `kind` is the type byte, None before it has been read. */
  datatype Task = Task(kind: Option<char>, elements: int, idx: int)

  /** The stack of read tasks (empty when ridx is -1) and the reply under construction. */
  datatype State = State(stack: seq<Task>, reply: Reply)

  const ROOT := Task(None, -1, -1)

  const FRESH := State([ROOT], Hole)

  const MAX_DEPTH := 8

  function Holes(n: int): (e: seq<Reply>)
    ensures |e| == if n > 0 then n else 0
  {
    seq(if n > 0 then n else 0, i => Hole)
  }

  /** moveToNextTask */
  function Next(stack: seq<Task>): (s: seq<Task>)
    ensures |s| <= |stack|
  {
    if |stack| <= 1 then [] else
      var cur, prv := stack[|stack| - 1], stack[|stack| - 2];
      if cur.idx == prv.elements - 1 then Next(stack[..|stack| - 1])
      else stack[..|stack| - 1] + [Task(None, -1, cur.idx + 1)]
  }

  /** The open tasks fit the reply built so far: every task but the last is an array with a slot for the next task. */
  ghost predicate Shape(reply: Reply, tasks: seq<Task>) {
    && tasks != []
    && (|tasks| > 1 ==>
          && tasks[0].kind == Some('*') && tasks[0].elements > 0
          && reply.Arr? && reply.count == tasks[0].elements == |reply.element|
          && 0 <= tasks[1].idx < tasks[0].elements
          && Shape(reply.element[tasks[1].idx], tasks[1..]))
  }

  /** Store an object in the slot of the last task (parent->element[idx] = obj, or r->reply for the root). */
  function Put(reply: Reply, tasks: seq<Task>, obj: Reply): Reply {
    if |tasks| <= 1 || !reply.Arr? || !(0 <= tasks[1].idx < |reply.element|) then obj
    else reply.(element := reply.element[tasks[1].idx := Put(reply.element[tasks[1].idx], tasks[1..], obj)])
  }

  ghost function Get(reply: Reply, tasks: seq<Task>): Reply {
    if |tasks| <= 1 || !reply.Arr? || !(0 <= tasks[1].idx < |reply.element|) then reply
    else Get(reply.element[tasks[1].idx], tasks[1..])
  }

  ghost predicate OK(st: State) {
    0 < |st.stack| <= MAX_DEPTH + 1 && Shape(st.reply, st.stack)
  }

  function Top(st: State): Task requires st.stack != [] { st.stack[|st.stack| - 1] }

  /** The object of the current task is complete. */
  function Finish(st: State, obj: Reply): State {
    State(Next(st.stack), Put(st.reply, st.stack, obj))
  }

  function Open(st: State, n: int): State
    requires st.stack != []
  {
    var top := |st.stack| - 1;
    State(st.stack[top := st.stack[top].(elements := n)] + [Task(None, -1, 0)],
          Put(st.reply, st.stack, Arr(n, Holes(n))))
  }

  datatype Step = Advanced(st: State, used: nat) | Waiting(st: State, used: nat) | Broken

  function LineObject(kind: char, s: string): Reply
    requires HasLine(s)
  {
    var line := s[..Crlf(s, 0)];
    if kind == ':' then Integer(ReadLongLong(s)) else if kind == '+' then Status(line) else Failure(line)
  }

  /** processLineItem, processBulkItem and processMultiBulkItem, once the type byte is known. */
  function TypedStep(st: State, kind: char, input: string): Step
    requires st.stack != []
  {
    if kind == '*' && |st.stack| > MAX_DEPTH then Broken
    else if !HasLine(input) then Waiting(st, 0)
    else
      var used := Crlf(input, 0) + 2;
      var n := ReadLongLong(input);
      if kind == '$' then
        if n < 0 then Advanced(Finish(st, Nil), used)
        else if used + n + 2 <= |input| then Advanced(Finish(st, Text(input[used..used + n])), used + n + 2)
        else Waiting(st, 0)
      else if kind == '*' then
        if n == -1 then Advanced(Finish(st, Nil), used)
        else if n > 0 then Advanced(Open(st, n), used)
        else Advanced(Finish(st, Arr(n, [])), used)
      else Advanced(Finish(st, LineObject(kind, input)), used)
  }

  predicate TypeByte(c: char) { c == '-' || c == '+' || c == ':' || c == '$' || c == '*' }

  function Shift(n: nat, s: Step): Step {
    match s
    case Advanced(st, used) => Advanced(st, n + used)
    case Waiting(st, used) => Waiting(st, n + used)
    case Broken => Broken
  }

  function SetKind(st: State, c: char): State
    requires st.stack != []
  {
    var top := |st.stack| - 1;
    st.(stack := st.stack[top := st.stack[top].(kind := Some(c))])
  }

  /** processItem */
  function ItemStep(st: State, input: string): (s: Step)
    requires st.stack != []
  {
    match Top(st).kind
    case Some(c) => TypedStep(st, c, input)
    case None =>
      if input == "" then Waiting(st, 0)
      else if TypeByte(input[0]) then Shift(1, TypedStep(SetKind(st, input[0]), input[0], input[1..]))
      else Broken
  }

  /** The outcome of reading on from a state: a whole reply, not enough input, or a protocol error. */
  datatype Outcome = Complete(reply: Reply, used: nat) | Pending(st: State, used: nat) | Failed

  function Later(n: nat, o: Outcome): Outcome {
    match o
    case Complete(r, used) => Complete(r, n + used)
    case Pending(st, used) => Pending(st, n + used)
    case Failed => Failed
  }

  lemma StepUses(st: State, input: string)
    requires st.stack != []
    ensures ItemStep(st, input).Advanced? ==> 0 < ItemStep(st, input).used <= |input|
    ensures ItemStep(st, input).Waiting? ==> ItemStep(st, input).used <= |input| && ItemStep(st, input).st.stack != []
  {
  }

  /** The loop of redisReaderGetReply. */
  function Run(st: State, input: string): Outcome
    requires st.stack != []
    decreases |input|
  {
    StepUses(st, input);
    match ItemStep(st, input)
    case Broken => Failed
    case Waiting(st', used) => Pending(st', used)
    case Advanced(st', used) => After(st', used, input)
  }

  function After(st: State, used: nat, input: string): Outcome
    requires 0 < used <= |input|
    decreases |input|, 0
  {
    if st.stack == [] then Complete(st.reply, used) else Later(used, Run(st, input[used..]))
  }
}
