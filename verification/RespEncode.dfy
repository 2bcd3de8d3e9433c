/** The encoding of replies and commands (RESP specification, sections "Bulk strings" and "Arrays"), and the
    round trip through the parser. */
module RespEncoding {
  import opened Resp
  import opened RespReading

  const CRLF := "\r\n"

  // ---------- decimal numbers ----------

  function DigitChar(d: int): (c: char)
    requires 0 <= d < 10
    ensures Digit(c) && DigitValue(c) == d
  {
    ['0', '1', '2', '3', '4', '5', '6', '7', '8', '9'][d]
  }

  function DecimalNat(n: nat): (s: string)
    ensures s != "" && forall c :: c in s ==> Digit(c)
  {
    if n < 10 then [DigitChar(n)] else DecimalNat(n / 10) + [DigitChar(n % 10)]
  }

  function Decimal(n: int): string {
    if n < 0 then "-" + DecimalNat(-n) else DecimalNat(n)
  }

  lemma {:induction false} ReadDecimalNat(n: nat, y: string)
    ensures ReadDigits(DecimalNat(n) + y, 0) == ReadDigits(y, n)
    ensures Numeric(DecimalNat(n) + y) == Numeric(y)
    decreases n
  {
    hide *;
    DecimalStep(n);
    var d := DigitChar(n % 10);
    ReadDigit(d, y, if n < 10 then 0 else n / 10);
    if n >= 10 {
      ReadDecimalNat(n / 10, [d] + y);
      assert DecimalNat(n) + y == DecimalNat(n / 10) + ([d] + y);
    }
  }

  lemma DecimalStep(n: nat)
    ensures n < 10 ==> n % 10 == n && DecimalNat(n) == [DigitChar(n % 10)]
    ensures n >= 10 ==> DecimalNat(n) == DecimalNat(n / 10) + [DigitChar(n % 10)]
    ensures n == n / 10 * 10 + n % 10
  {
    hide DigitChar;
  }

  /** One digit is read. */
  lemma ReadDigit(c: char, y: string, v: int)
    requires Digit(c)
    ensures ReadDigits([c] + y, v) == ReadDigits(y, v * 10 + DigitValue(c)) && Numeric([c] + y) == Numeric(y)
  {
    assert ([c] + y)[1..] == y;
  }

  lemma ReadDecimal(n: int, x: string)
    ensures var s := Decimal(n) + CRLF + x;
      HasLine(s) && Crlf(s, 0) == |Decimal(n)| && ReadLongLong(s) == n
  {
    hide Crlf, HasLine, ReadDigits, Numeric, DecimalNat;
    var d, m: nat, y := Decimal(n), if n < 0 then -n else n, CRLF + x;
    var s := d + CRLF + x;
    DecimalNoLine(n);
    LineEnd(d, x);
    ReadDecimalNat(m, y);
    ReadsNothing(x, m);
    if n < 0 {
      assert s[1..] == DecimalNat(m) + y && s[0] == '-';
    } else {
      assert s == DecimalNat(m) + y && s[0] == d[0] && d[0] in d;
    }
  }

  lemma ReadsNothing(x: string, v: int)
    ensures ReadDigits(CRLF + x, v) == v && Numeric(CRLF + x)
  {
  }

  lemma LineEnd(d: string, x: string)
    requires !HasLine(d)
    ensures var s := d + CRLF + x; HasLine(s) && Crlf(s, 0) == |d| && s[..|d|] == d && s[|d| + 2..] == x
  {
    var s := d + CRLF + x;
    CrlfIsFirst(d, 0);
    assert s[|d|] == '\r' && s[|d| + 1] == '\n';
    forall j | 0 <= j < |d| ensures !(s[j] == '\r' && s[j + 1] == '\n') {
      assert s[j] == d[j];
      if j + 1 < |d| { assert s[j + 1] == d[j + 1]; }
    }
    CrlfFirst(s, 0, |d|);
  }

  lemma {:induction false} NoReturnNoLine(s: string, i: nat)
    requires i <= |s| && '\r' !in s
    ensures Crlf(s, i) == |s|
    decreases |s| - i
  {
    if i + 1 < |s| {
      assert s[i] in s;
      NoReturnNoLine(s, i + 1);
    }
  }

  lemma DecimalNoLine(n: int)
    ensures !HasLine(Decimal(n))
  {
    NoReturnNoLine(Decimal(n), 0);
  }

  // ---------- encoding ----------

  /** What a server can send and the reader can represent: lines hold no line end, counts are right, and no array
      lies below stack index 7. */
  predicate Encodable(t: Reply, lvl: nat)
    decreases t
  {
    match t
    case Hole => false
    case Text(_) => true
    case Nil => true
    case Integer(_) => true
    case Status(s) => !HasLine(s)
    case Failure(s) => !HasLine(s)
    case Arr(n, e) => lvl < MAX_DEPTH && n == |e| && forall i :: 0 <= i < |e| ==> Encodable(e[i], lvl + 1)
  }

  function Encode(t: Reply): string
    decreases t
  {
    match t
    case Hole => ""
    case Text(s) => "$" + Decimal(|s|) + CRLF + s + CRLF
    case Nil => "$-1" + CRLF
    case Integer(n) => ":" + Decimal(n) + CRLF
    case Status(s) => "+" + s + CRLF
    case Failure(s) => "-" + s + CRLF
    case Arr(n, e) => "*" + Decimal(n) + CRLF + EncodeAll(e)
  }

  function EncodeAll(e: seq<Reply>): string
    decreases e
  {
    if e == [] then "" else Encode(e[0]) + EncodeAll(e[1..])
  }

  /** A type byte, a number and a line end: what the parser sees of them. */
  lemma NumberLine(kind: char, n: int, rest: string)
    ensures var bs := [kind] + Decimal(n) + CRLF + rest; var d := |Decimal(n)|;
      && bs != "" && bs[0] == kind && HasLine(bs[1..]) && Crlf(bs[1..], 0) == d && ReadLongLong(bs[1..]) == n
      && |bs| == d + 3 + |rest| && bs[d + 3..] == rest
  {
    hide Decimal, HasLine, Crlf, ReadLongLong;
    ReadDecimal(n, rest);
    assert ([kind] + Decimal(n) + CRLF + rest)[1..] == Decimal(n) + CRLF + rest;
  }

  /** Parsing the encoding of a reply gives the reply back, and consumes nothing beyond it. */
  lemma {:induction false} ParseEncode(t: Reply, lvl: nat, x: string)
    requires Encodable(t, lvl)
    ensures Parse(Encode(t) + x, lvl) == Read(t, |Encode(t)|)
    decreases t
  {
    hide Parse, HasLine;
    match t
    case Text(s) => ParseText(s, lvl, x);
    case Nil => ParseNil(lvl, x);
    case Integer(n) => ParseInteger(n, lvl, x);
    case Status(s) => ParseLine('+', s, lvl, x);
    case Failure(s) => ParseLine('-', s, lvl, x);
    case Arr(n, e) =>
      if n > 0 { ParseEncodeAll(e, lvl + 1, x); }
      ParseArray(e, lvl, x);
  }

  lemma ParseNil(lvl: nat, x: string)
    ensures Parse(Encode(Nil) + x, lvl) == Read(Nil, |Encode(Nil)|)
  {
    assert Decimal(-1) == "-1";
    NumberLine('$', -1, x);
    hide Decimal, HasLine, Crlf, ReadLongLong;
    assert Encode(Nil) + x == ['$'] + Decimal(-1) + CRLF + x;
  }

  lemma ParseInteger(n: int, lvl: nat, x: string)
    ensures Parse(Encode(Integer(n)) + x, lvl) == Read(Integer(n), |Encode(Integer(n))|)
  {
    hide Decimal, HasLine, Crlf, ReadLongLong;
    NumberLine(':', n, x);
    assert Encode(Integer(n)) + x == [':'] + Decimal(n) + CRLF + x;
  }

  lemma ParseArray(e: seq<Reply>, lvl: nat, x: string)
    requires lvl < MAX_DEPTH
    requires e != [] ==> ParseMany(EncodeAll(e) + x, lvl + 1, |e|) == ReadMany(e, |EncodeAll(e)|)
    ensures Parse(Encode(Arr(|e|, e)) + x, lvl) == Read(Arr(|e|, e), |Encode(Arr(|e|, e))|)
  {
    hide Decimal, HasLine, Crlf, ReadLongLong, ParseMany;
    var rest := EncodeAll(e) + x;
    NumberLine('*', |e|, rest);
    assert Encode(Arr(|e|, e)) + x == ['*'] + Decimal(|e|) + CRLF + rest;
  }

  // ---------- what no server should send ----------

  /** A negative length is nil. A negative count other than -1 gives an array with this count and no elements. */
  lemma NegativeLength(n: int, lvl: nat, x: string)
    requires n < 0
    ensures var len := |Decimal(n)| + 3;
      && Parse("$" + Decimal(n) + CRLF + x, lvl) == Read(Nil, len)
      && (lvl < MAX_DEPTH ==>
        Parse("*" + Decimal(n) + CRLF + x, lvl) == Read(if n == -1 then Nil else Arr(n, []), len))
  {
    NumberLine('$', n, x);
    NumberLine('*', n, x);
    hide Decimal, HasLine, Crlf, ReadLongLong;
  }

  /** A line that is not a number, where there should be one, reads as -1: such a length or count is nil. */
  lemma NotNumber(kind: char, line: string, i: nat, lvl: nat, x: string)
    requires (kind == '$' || kind == ':' || (kind == '*' && lvl < MAX_DEPTH)) && '\r' !in line
    requires i < |line| && !Digit(line[i]) && (i == 0 ==> line[0] != '-' && line[0] != '+')
    ensures Parse([kind] + line + CRLF + x, lvl) == Read(if kind == ':' then Integer(-1) else Nil, |line| + 3)
  {
    var bs, s := [kind] + line + CRLF + x, line + CRLF + x;
    NoReturnNoLine(line, 0);
    LineEnd(line, x);
    assert bs[0] == kind && bs[1..] == s && s[i] == line[i];
    forall j | 0 <= j <= i ensures s[j] != '\r' { assert s[j] == line[j] && line[j] in line; }
    if s[0] == '-' || s[0] == '+' {
      ReadNotDigit(s[1..], 0, i - 1);
    } else {
      ReadNotDigit(s, 0, i);
    }
    hide HasLine, Crlf, ReadDigits, Numeric;
  }

  lemma {:induction false} ReadNotDigit(s: string, v: int, i: nat)
    requires i < |s| && !Digit(s[i]) && forall j :: 0 <= j <= i ==> s[j] != '\r'
    ensures ReadDigits(s, v) == -1 && !Numeric(s)
    decreases i
  {
    if Digit(s[0]) { ReadNotDigit(s[1..], v * 10 + DigitValue(s[0]), i - 1); }
  }

  lemma ParseLine(c: char, s: string, lvl: nat, x: string)
    requires (c == '+' || c == '-') && !HasLine(s)
    ensures Parse([c] + s + CRLF + x, lvl) == Read(if c == '+' then Status(s) else Failure(s), |s| + 3)
  {
    var bs := [c] + s + CRLF + x;
    LineEnd(s, x);
    assert bs[1..] == s + CRLF + x;
  }

  lemma ParseText(s: string, lvl: nat, x: string)
    ensures Parse(Encode(Text(s)) + x, lvl) == Read(Text(s), |Encode(Text(s))|)
  {
    hide Decimal, HasLine, Crlf, ReadLongLong;
    var rest := s + CRLF + x;
    NumberLine('$', |s|, rest);
    var bs, used := ['$'] + Decimal(|s|) + CRLF + rest, |Decimal(|s|)| + 3;
    assert Encode(Text(s)) + x == bs;
    assert bs[used..used + |s|] == bs[used..][..|s|];
    assert rest[..|s|] == s;
  }

  lemma {:induction false} ParseEncodeAll(e: seq<Reply>, lvl: nat, x: string)
    requires forall i :: 0 <= i < |e| ==> Encodable(e[i], lvl)
    ensures ParseMany(EncodeAll(e) + x, lvl, |e|) == ReadMany(e, |EncodeAll(e)|)
    decreases e
  {
    hide Parse, Encode, Encodable;
    if e == [] {
    } else {
      var rest := EncodeAll(e[1..]) + x;
      ParseEncode(e[0], lvl, rest);
      var bs := EncodeAll(e) + x;
      assert bs == Encode(e[0]) + rest && bs[|Encode(e[0])|..] == rest;
      ParseEncodeAll(e[1..], lvl, x);
      assert [e[0]] + e[1..] == e;
    }
  }

  // ---------- streams ----------

  /** All the replies at the front of a byte stream, by the one-shot parser. */
  function Replies(bs: string): seq<Reply>
    decreases |bs|
  {
    match Parse(bs, 0)
    case Read(r, used) => [r] + Replies(bs[used..])
    case _ => []
  }

  /** What is left after them. */
  function Leftover(bs: string): string
    decreases |bs|
  {
    match Parse(bs, 0)
    case Read(_, used) => Leftover(bs[used..])
    case _ => bs
  }

  lemma {:induction false} RepliesOfEncoding(ts: seq<Reply>)
    requires forall i :: 0 <= i < |ts| ==> Encodable(ts[i], 0)
    ensures Replies(EncodeAll(ts)) == ts && Leftover(EncodeAll(ts)) == ""
  {
    if ts != [] {
      var rest := EncodeAll(ts[1..]);
      ParseEncode(ts[0], 0, rest);
      assert EncodeAll(ts)[|Encode(ts[0])|..] == rest;
      RepliesOfEncoding(ts[1..]);
    }
  }

  lemma ShiftParse(bs: string, x: string)
    ensures match Parse(bs, 0)
      case Read(r, used) => Parse(bs + x, 0) == Read(r, used)
      case Bad => Parse(bs + x, 0) == Bad
      case More => true
  {
    RootAgrees(bs);
    RootAgrees(bs + x);
    RunMore(FRESH, bs, x);
  }

  /** Reading from the start of a reply is what the one-shot parser does. */
  lemma RootAgrees(bs: string)
    ensures match Parse(bs, 0)
      case Read(r, used) => Run(FRESH, bs) == Complete(r, used)
      case More => Run(FRESH, bs).Pending?
      case Bad => Run(FRESH, bs) == Failed
  {
    ItemAgrees(FRESH, bs);
  }

  /** More input only adds replies. */
  lemma {:induction false} RepliesMore(bs: string, x: string)
    ensures Replies(bs + x) == Replies(bs) + Replies(Leftover(bs) + x)
    ensures Leftover(bs + x) == Leftover(Leftover(bs) + x)
    decreases |bs|
  {
    hide Parse;
    ShiftParse(bs, x);
    match Parse(bs, 0)
    case Read(r, used) =>
      assert (bs + x)[used..] == bs[used..] + x;
      RepliesMore(bs[used..], x);
      assert [r] + (Replies(bs[used..]) + Replies(Leftover(bs) + x)) == Replies(bs) + Replies(Leftover(bs) + x);
    case _ =>
  }
}
