/** The command formatters (hiredis.c:669-972): the precomputed length is exact, the buffer is never overrun, and the
    bytes written are the encoding of the array of arguments. */
module CommandFormat {
  import opened Basics
  import opened Resp
  import opened RespReading
  import opened RespEncoding

  // ---------- specification ----------

  function Texts(args: seq<string>): (ts: seq<Reply>)
    ensures |ts| == |args|
  {
    seq(|args|, i requires 0 <= i < |args| => Text(args[i]))
  }

  /** The bytes of a command: an array of bulk strings. */
  function Command(args: seq<string>): string {
    Encode(Arr(|args|, Texts(args)))
  }

  /** The reader turns a command back into an array of exactly the given byte strings, whatever follows it. */
  lemma CommandRoundTrip(args: seq<string>, x: string)
    ensures Parse(Command(args) + x, 0) == Read(Arr(|args|, Texts(args)), |Command(args)|)
    ensures Texts(args) == seq(|args|, i requires 0 <= i < |args| => Text(args[i]))
  {
    ParseEncode(Arr(|args|, Texts(args)), 0, x);
  }

  /** The reader takes these strings, in order, from exactly these bytes. */
  predicate ReadsAs(bs: string, args: seq<string>) {
    && Parse(bs, 0).Read? && Parse(bs, 0).used == |bs|
    && var r := Parse(bs, 0).reply;
      r.Arr? && r.count == |r.element| == |args| && forall j :: 0 <= j < |args| ==> r.element[j] == Text(args[j])
  }

  lemma CommandReads(args: seq<string>)
    ensures ReadsAs(Command(args), args)
  {
    CommandRoundTrip(args, "");
    assert Command(args) + "" == Command(args);
    hide Parse, Command;
  }

  lemma CommandInjective(a: seq<string>, b: seq<string>)
    requires Command(a) == Command(b)
    ensures a == b
  {
    hide Parse, Command;
    CommandRoundTrip(a, "");
    CommandRoundTrip(b, "");
    assert |a| == |b| && Texts(a) == Texts(b);
    forall i | 0 <= i < |a| ensures a[i] == b[i] {
      assert Texts(a)[i] == Texts(b)[i];
    }
  }

  function Header(kind: char, n: int): string { [kind] + Decimal(n) + CRLF }

  function Bulk(s: string): string { Header('$', |s|) + s + CRLF }

  function BulkLength(n: nat): nat { 1 + |Decimal(n)| + 2 + n + 2 }

  function TotalBulk(args: seq<string>): nat {
    if args == [] then 0 else BulkLength(|args[0]|) + TotalBulk(args[1..])
  }

  lemma {:induction false} TotalBulkSnoc(args: seq<string>, s: string)
    ensures TotalBulk(args + [s]) == TotalBulk(args) + BulkLength(|s|)
  {
    if args == [] {
      assert TotalBulk([s]) == BulkLength(|s|) + TotalBulk([]);
    } else {
      assert (args + [s])[1..] == args[1..] + [s];
      TotalBulkSnoc(args[1..], s);
    }
  }

  lemma BulkIsText(s: string)
    ensures Bulk(s) == Encode(Text(s))
  {
  }

  lemma {:induction false} EncodeAllSnoc(args: seq<string>, s: string)
    ensures EncodeAll(Texts(args + [s])) == EncodeAll(Texts(args)) + Bulk(s)
  {
    hide Encode, Bulk;
    if args == [] {
      BulkIsText(s);
      assert args + [s] == [s] && Texts([s]) == [Text(s)];
      assert EncodeAll([Text(s)]) == Encode(Text(s)) + EncodeAll([]);
    } else {
      EncodeAllSnoc(args[1..], s);
      assert Texts(args + [s])[1..] == Texts(args[1..] + [s]) && (args + [s])[1..] == args[1..] + [s];
      assert Texts(args)[1..] == Texts(args[1..]);
    }
  }

  // ---------- lengths ----------

  /** intlen */
  method IntLen(n: int) returns (len: nat)
    ensures len == |Decimal(n)|
  {
    var i := n;
    len := 0;
    if i < 0 {
      len := len + 1;
      i := -i;
    }
    ghost var m: nat := i;
    len := len + 1;
    i := i / 10;
    while i != 0
      invariant i >= 0 && len + (if i == 0 then 0 else |DecimalNat(i)|) == |DecimalNat(m)| + (if n < 0 then 1 else 0)
    {
      len := len + 1;
      i := i / 10;
    }
  }

  /** bulklen */
  method BulkLen(len: nat) returns (n: nat)
    ensures n == BulkLength(len)
  {
    var d := IntLen(len);
    return 1 + d + 2 + len + 2;
  }

  // ---------- writing ----------

  /** sprintf or memcpy to a position of the buffer: there is room for the bytes and for the NUL of sprintf. */
  method Write(cmd: array<char>, pos: nat, s: string) returns (end: nat)
    requires pos + |s| < cmd.Length
    modifies cmd
    ensures end == pos + |s| && cmd[..end] == old(cmd[..pos]) + s
  {
    forall i | 0 <= i < |s| { cmd[pos + i] := s[i]; }
    end := pos + |s|;
  }

  /** The second half of both formatters. */
  method Build(args: seq<string>, totlen: nat) returns (cmd: array<char>)
    requires totlen == 1 + |Decimal(|args|)| + 2 + TotalBulk(args)
    ensures fresh(cmd) && cmd.Length == totlen + 1 && cmd[..totlen] == Command(args) && cmd[totlen] == '\0'
  {
    hide Decimal, Encode, EncodeAll, TotalBulk;
    cmd := new char[totlen + 1];
    NoArgs();
    var pos := Write(cmd, 0, Header('*', |args|));
    for j := 0 to |args|
      invariant fresh(cmd) && cmd.Length == totlen + 1
      invariant pos == 1 + |Decimal(|args|)| + 2 + TotalBulk(args[..j])
      invariant pos <= totlen && cmd[..pos] == Header('*', |args|) + EncodeAll(Texts(args[..j]))
    {
      TotalBulkPrefix(args, j + 1);
      NextArg(args, j);
      pos := Write(cmd, pos, Header('$', |args[j]|));
      pos := Write(cmd, pos, args[j]);
      pos := Write(cmd, pos, CRLF);
      assert Header('*', |args|) + EncodeAll(Texts(args[..j])) + Header('$', |args[j]|) + args[j] + CRLF
          == Header('*', |args|) + (EncodeAll(Texts(args[..j])) + Bulk(args[j]));
    }
    assert args[..|args|] == args;
    assert pos == totlen;
    cmd[pos] := '\0';
    CommandParts(args);
  }

  lemma NoArgs()
    ensures EncodeAll(Texts([])) == "" && TotalBulk([]) == 0
  {
  }

  lemma CommandParts(args: seq<string>)
    ensures Command(args) == Header('*', |args|) + EncodeAll(Texts(args))
  {
    hide Decimal;
  }

  lemma NextArg(args: seq<string>, j: nat)
    requires j < |args|
    ensures TotalBulk(args[..j + 1]) == TotalBulk(args[..j]) + BulkLength(|args[j]|)
    ensures EncodeAll(Texts(args[..j + 1])) == EncodeAll(Texts(args[..j])) + Bulk(args[j])
  {
    assert args[..j + 1] == args[..j] + [args[j]];
    TotalBulkSnoc(args[..j], args[j]);
    EncodeAllSnoc(args[..j], args[j]);
  }

  lemma {:induction false} TotalBulkPrefix(args: seq<string>, j: nat)
    requires j <= |args|
    ensures TotalBulk(args[..j]) <= TotalBulk(args)
    decreases j
  {
    if j > 0 {
      TotalBulkPrefix(args[1..], j - 1);
      assert args[..j][1..] == args[1..][..j - 1];
    }
  }

  // ---------- the argument-vector form ----------

  /** s is what comes before the first NUL of p. */
  predicate BeforeNul(p: string, s: string) {
    |s| <= |p| && s == p[..|s|] && '\0' !in s && (|s| < |p| ==> p[|s|] == '\0')
  }

  /** The C string that starts at p: up to the first NUL. */
  function CString(p: string): (s: string)
    ensures BeforeNul(p, s)
  {
    if p == "" || p[0] == '\0' then "" else [p[0]] + CString(p[1..])
  }

  /** The argument bytes: by the given lengths, or as C strings when there are none. */
  function Arguments(argv: seq<string>, argvlen: Option<seq<nat>>): (args: seq<string>)
    requires argvlen.Some? ==> |argvlen.value| == |argv| && forall j :: 0 <= j < |argv| ==>
      argvlen.value[j] <= |argv[j]|
    ensures |args| == |argv|
  {
    seq(|argv|, j requires 0 <= j < |argv| => if argvlen.Some? then argv[j][..argvlen.value[j]] else CString(argv[j]))
  }

  /** redisFormatCommandArgv */
  method FormatCommandArgv(argv: seq<string>, argvlen: Option<seq<nat>>) returns (cmd: array<char>, totlen: nat)
    requires argvlen.Some? ==> |argvlen.value| == |argv| && forall j :: 0 <= j < |argv| ==>
      argvlen.value[j] <= |argv[j]|
    ensures cmd.Length == totlen + 1 && cmd[..totlen] == Command(Arguments(argv, argvlen)) && cmd[totlen] == '\0'
    // the reader takes exactly the given strings, in order, from exactly these bytes
    ensures Parse(cmd[..totlen], 0).Read? && Parse(cmd[..totlen], 0).used == totlen
    ensures var r := Parse(cmd[..totlen], 0).reply;
      && r.Arr? && r.count == |r.element| == |argv|
      && forall j :: 0 <= j < |argv| ==>
        && r.element[j].Text?
        && if argvlen.Some? then r.element[j].s == argv[j][..argvlen.value[j]] else BeforeNul(argv[j], r.element[j].s)
  {
    var args := Arguments(argv, argvlen);
    CommandRoundTrip(args, "");
    assert Command(args) + "" == Command(args);
    hide Parse, Command;
    var d := IntLen(|argv|);
    totlen := 1 + d + 2;
    for j := 0 to |argv|
      invariant totlen == 1 + |Decimal(|argv|)| + 2 + TotalBulk(args[..j])
    {
      var n := BulkLen(|args[j]|);
      NextArg(args, j);
      totlen := totlen + n;
    }
    assert args[..|argv|] == args;
    cmd := Build(args, totlen);
  }

  // ---------- the printf-like form ----------

  /** An argument of the command after the format: for %s a string in memory, for %b a string and a size. */
  datatype VaArg = StringArg(p: string) | BinaryArg(p: string, size: nat)

  /** What one place of the format contributes: a separator, or bytes of the current argument. */
  datatype Item = Space | Bytes(s: string)

  /** The format uses no directive but %s, %b and %% (a lone % at its end stands for itself), and the arguments fit. */
  predicate Accepts(format: string, ap: seq<VaArg>) {
    if format == "" then true
    else if format[0] != '%' || |format| == 1 then format[0] != '\0' && Accepts(format[1..], ap)
    else if format[1] == 's' then ap != [] && ap[0].StringArg? && Accepts(format[2..], ap[1..])
    else if format[1] == 'b' then ap != [] && ap[0].BinaryArg? && ap[0].size <= |ap[0].p| &&
      Accepts(format[2..], ap[1..])
    else format[1] == '%' && Accepts(format[2..], ap)
  }

  function Items(format: string, ap: seq<VaArg>): seq<Item>
    requires Accepts(format, ap)
  {
    if format == "" then []
    else if format[0] != '%' || |format| == 1 then
      [if format[0] == ' ' then Space else Bytes([format[0]])] + Items(format[1..], ap)
    else if format[1] == 's' then [Bytes(CString(ap[0].p))] + Items(format[2..], ap[1..])
    else if format[1] == 'b' then [Bytes(ap[0].p[..ap[0].size])] + Items(format[2..], ap[1..])
    else [Bytes("%")] + Items(format[2..], ap)
  }

  /** The length of the longest run of bytes at the front. */
  function RunLength(items: seq<Item>): (n: nat)
    ensures n <= |items| && (forall i :: 0 <= i < n ==> items[i].Bytes?) && (n < |items| ==> items[n].Space?)
  {
    if items == [] || items[0].Space? then 0 else 1 + RunLength(items[1..])
  }

  function Glue(items: seq<Item>): string {
    if items == [] then "" else (if items[0].Bytes? then items[0].s else "") + Glue(items[1..])
  }

  /** The arguments: the longest runs of bytes between separators. */
  function Words(items: seq<Item>): seq<string>
    decreases |items|
  {
    if items == [] then []
    else if items[0].Space? then Words(items[1..])
    else [Glue(items[..RunLength(items)])] + Words(items[RunLength(items)..])
  }

  /** What the loop makes of the remaining items when `cur` has been collected. */
  function Rest(cur: string, touched: bool, items: seq<Item>): seq<string>
    decreases |items|
  {
    if items == [] then if touched then [cur] else []
    else if items[0].Space? then
      if touched then [cur] + Rest("", false, items[1..]) else Rest(cur, false, items[1..])
    else Rest(cur + items[0].s, true, items[1..])
  }

  lemma {:induction false} RestTouched(cur: string, items: seq<Item>)
    ensures var n := RunLength(items); Rest(cur, true, items) == [cur + Glue(items[..n])] + Words(items[n..])
    decreases |items|
  {
    if items == [] {
      assert cur + "" == cur;
    } else if items[0].Space? {
      RestUntouched(items[1..]);
      assert cur + "" == cur;
    } else {
      RestTouched(cur + items[0].s, items[1..]);
      var n := RunLength(items);
      assert items[..n][1..] == items[1..][..n - 1] && items[n..] == items[1..][n - 1..];
      assert cur + items[0].s + Glue(items[1..][..n - 1]) == cur + Glue(items[..n]);
    }
  }

  lemma {:induction false} RestUntouched(items: seq<Item>)
    ensures Rest("", false, items) == Words(items)
    decreases |items|, 1
  {
    if items != [] {
      if items[0].Space? {
        RestUntouched(items[1..]);
      } else {
        RestTouched("" + items[0].s, items[1..]);
        var n := RunLength(items);
        assert items[..n][1..] == items[1..][..n - 1] && items[n..] == items[1..][n - 1..];
        assert "" + items[0].s + Glue(items[1..][..n - 1]) == Glue(items[..n]);
      }
    }
  }

  lemma ItemCases(f: string, ap: seq<VaArg>)
    requires Accepts(f, ap) && f != ""
    ensures Items(f, ap) != []
    ensures f[0] != '%' || |f| == 1 ==>
      && Accepts(f[1..], ap) && Items(f, ap)[0] == (if f[0] == ' ' then Space else Bytes([f[0]]))
      && Items(f, ap)[1..] == Items(f[1..], ap)
    ensures f[0] == '%' && |f| > 1 ==>
      if f[1] == '%' then Accepts(f[2..], ap) && Items(f, ap)[0] == Bytes("%") && Items(f, ap)[1..] == Items(f[2..], ap)
      else
        && ap != [] && Accepts(f[2..], ap[1..]) && Items(f, ap)[1..] == Items(f[2..], ap[1..])
        && if f[1] == 's' then ap[0].StringArg? && Items(f, ap)[0] == Bytes(CString(ap[0].p))
           else
             f[1] == 'b' && ap[0].BinaryArg? && ap[0].size <= |ap[0].p| &&
             Items(f, ap)[0] == Bytes(ap[0].p[..ap[0].size])
  {
  }

  lemma RestCases(cur: string, touched: bool, items: seq<Item>)
    requires items != []
    ensures Rest(cur, touched, items) ==
      if items[0].Bytes? then Rest(cur + items[0].s, true, items[1..])
      else if touched then [cur] + Rest("", false, items[1..]) else Rest(cur, false, items[1..])
  {
  }

  lemma RestEnd(cur: string, touched: bool, f: string, ap: seq<VaArg>)
    requires Accepts(f, ap) && f == ""
    ensures Rest(cur, touched, Items(f, ap)) == if touched then [cur] else []
  {
  }

  /** redisvFormatCommand on formats of literals, %s, %b and %%: the same bytes as the argument-vector form. */
  method FormatCommand(format: string, ap: seq<VaArg>) returns (cmd: array<char>, totlen: nat)
    requires Accepts(format, ap)
    ensures cmd.Length == totlen + 1 && cmd[..totlen] == Command(Words(Items(format, ap))) && cmd[totlen] == '\0'
    // the reader takes the arguments from exactly these bytes
    ensures ReadsAs(cmd[..totlen], Words(Items(format, ap)))
  {
    hide Accepts, Items, Words, Rest, TotalBulk, Decimal, BulkLength, Command, ReadsAs;
    ghost var words := Words(Items(format, ap));
    RestUntouched(Items(format, ap));
    NoArgs();
    var c, ap' := 0, ap;
    var curarg, touched := "", false;
    var argv: seq<string> := [];
    totlen := 0;
    assert format[0..] == format;
    while c < |format|
      invariant c <= |format| && Accepts(format[c..], ap')
      invariant argv + Rest(curarg, touched, Items(format[c..], ap')) == words
      invariant totlen == TotalBulk(argv)
      invariant !touched ==> curarg == ""
    {
      ghost var f := format[c..];
      ItemCases(f, ap');
      ghost var items := Items(f, ap');
      RestCases(curarg, touched, items);
      assert f[1..] == format[c + 1..];
      if format[c] != '%' || c + 1 == |format| {
        if format[c] == ' ' {
          if touched {
            var n := BulkLen(|curarg|);
            TotalBulkSnoc(argv, curarg);
            assert argv + ([curarg] + Rest("", false, items[1..])) == argv + [curarg] + Rest("", false, items[1..]);
            argv, totlen := argv + [curarg], totlen + n;
            curarg, touched := "", false;
          }
        } else {
          curarg, touched := curarg + [format[c]], true;
        }
      } else {
        assert f[2..] == format[c + 2..];
        var newarg := curarg;
        if format[c + 1] == 's' {
          var arg := CString(ap'[0].p);
          if |arg| > 0 {
            newarg := curarg + arg;
          }
          assert newarg == curarg + arg;
          ap' := ap'[1..];
        } else if format[c + 1] == 'b' {
          var arg, size := ap'[0].p, ap'[0].size;
          if size > 0 {
            newarg := curarg + arg[..size];
          }
          assert newarg == curarg + arg[..size];
          ap' := ap'[1..];
        } else {
          newarg := curarg + "%";
        }
        curarg, touched := newarg, true;
        c := c + 1;
      }
      c := c + 1;
    }
    RestEnd(curarg, touched, format[c..], ap');
    assert argv + [] == argv;
    if touched {
      var n := BulkLen(|curarg|);
      TotalBulkSnoc(argv, curarg);
      argv, totlen := argv + [curarg], totlen + n;
    }
    var d := IntLen(|argv|);
    totlen := totlen + (1 + d + 2);
    cmd := Build(argv, totlen);
    CommandReads(argv);
  }

  // ---------- what a format means ----------

  /** A piece of an argument in a format: a character that stands for itself, %%, %s or %b with its value. */
  datatype Piece = Literal(c: char) | Percent | Str(p: string) | Bin(p: string, size: nat)

  predicate Proper(x: Piece) {
    match x
    case Literal(c) => c != ' ' && c != '%' && c != '\0'
    case Bin(p, size) => size <= |p|
    case _ => true
  }

  predicate ProperWord(w: seq<Piece>) { w != [] && forall i :: 0 <= i < |w| ==> Proper(w[i]) }

  function PieceFormat(x: Piece): string {
    match x
    case Literal(c) => [c]
    case Percent => "%%"
    case Str(_) => "%s"
    case Bin(_, _) => "%b"
  }

  function PieceArgs(x: Piece): seq<VaArg> {
    match x
    case Str(p) => [StringArg(p)]
    case Bin(p, size) => [BinaryArg(p, size)]
    case _ => []
  }

  function PieceText(x: Piece): string
    requires Proper(x)
  {
    match x
    case Literal(c) => [c]
    case Percent => "%"
    case Str(p) => CString(p)
    case Bin(p, size) => p[..size]
  }

  function WordFormat(w: seq<Piece>): string { if w == [] then "" else PieceFormat(w[0]) + WordFormat(w[1..]) }

  function WordArgs(w: seq<Piece>): seq<VaArg> { if w == [] then [] else PieceArgs(w[0]) + WordArgs(w[1..]) }

  function WordText(w: seq<Piece>): string
    requires w == [] || ProperWord(w)
  {
    if w == [] then "" else PieceText(w[0]) + WordText(w[1..])
  }

  function Spaces(n: nat): string { if n == 0 then "" else " " + Spaces(n - 1) }

  /** Words with gaps[0] spaces before the first, gaps[i] before word i, and the last gap at the end. */
  function LineFormat(words: seq<seq<Piece>>, gaps: seq<nat>): string
    requires |gaps| == |words| + 1
  {
    Spaces(gaps[0]) + if words == [] then "" else WordFormat(words[0]) + LineFormat(words[1..], gaps[1..])
  }

  function LineArgs(words: seq<seq<Piece>>): seq<VaArg> {
    if words == [] then [] else WordArgs(words[0]) + LineArgs(words[1..])
  }

  lemma PieceItems(x: Piece, f: string, ap: seq<VaArg>)
    requires Proper(x) && Accepts(f, ap)
    ensures Accepts(PieceFormat(x) + f, PieceArgs(x) + ap)
    ensures Items(PieceFormat(x) + f, PieceArgs(x) + ap) == [Bytes(PieceText(x))] + Items(f, ap)
  {
    var n := |PieceFormat(x)|;
    var g, aq := PieceFormat(x) + f, PieceArgs(x) + ap;
    assert g[n..] == f && aq[|PieceArgs(x)|..] == ap;
    assert x.Literal? ==> n == 1 && g[1..] == f;
    assert !x.Literal? ==> n == 2 && g[2..] == f;
  }

  lemma {:induction false} WordItems(w: seq<Piece>, f: string, ap: seq<VaArg>) returns (items: seq<Item>)
    requires (w == [] || ProperWord(w)) && Accepts(f, ap)
    ensures Accepts(WordFormat(w) + f, WordArgs(w) + ap)
    ensures Items(WordFormat(w) + f, WordArgs(w) + ap) == items + Items(f, ap)
    ensures |items| == |w| && (forall i :: 0 <= i < |items| ==> items[i].Bytes?) && Glue(items) == WordText(w)
    decreases |w|
  {
    hide *;
    if w == [] {
      items := [];
      EmptyWord();
      assert "" + f == f && [] + ap == ap && [] + Items(f, ap) == Items(f, ap);
    } else {
      WordIs(w);
      var rest := WordItems(w[1..], f, ap);
      PieceItems(w[0], WordFormat(w[1..]) + f, WordArgs(w[1..]) + ap);
      items := [Bytes(PieceText(w[0]))] + rest;
      GlueFirst(PieceText(w[0]), rest);
      assert WordFormat(w) + f == PieceFormat(w[0]) + (WordFormat(w[1..]) + f);
      assert WordArgs(w) + ap == PieceArgs(w[0]) + (WordArgs(w[1..]) + ap);
      assert items + Items(f, ap) == [Bytes(PieceText(w[0]))] + (rest + Items(f, ap));
    }
  }

  lemma EmptyWord()
    ensures WordFormat([]) == "" && WordArgs([]) == [] && WordText([]) == "" && Glue([]) == ""
  {
  }

  lemma WordIs(w: seq<Piece>)
    requires ProperWord(w)
    ensures Proper(w[0]) && (w[1..] == [] || ProperWord(w[1..]))
    ensures WordFormat(w) == PieceFormat(w[0]) + WordFormat(w[1..]) && WordArgs(w) == PieceArgs(w[0]) + WordArgs(w[1..])
    ensures WordText(w) == PieceText(w[0]) + WordText(w[1..])
  {
    hide PieceFormat, PieceArgs, PieceText;
  }

  lemma GlueFirst(text: string, rest: seq<Item>)
    ensures Glue([Bytes(text)] + rest) == text + Glue(rest)
    ensures (forall i :: 0 <= i < |rest| ==> rest[i].Bytes?) ==>
      forall i :: 0 <= i < |rest| + 1 ==> ([Bytes(text)] + rest)[i].Bytes?
  {
    assert ([Bytes(text)] + rest)[1..] == rest;
  }

  lemma {:induction false} SpacesSkipped(n: nat, f: string, ap: seq<VaArg>)
    requires Accepts(f, ap)
    ensures Accepts(Spaces(n) + f, ap) && Words(Items(Spaces(n) + f, ap)) == Words(Items(f, ap))
    ensures n > 0 ==> Items(Spaces(n) + f, ap) != [] && Items(Spaces(n) + f, ap)[0].Space?
  {
    hide *;
    SpacesIs(n);
    if n == 0 {
      assert "" + f == f;
    } else {
      SpacesSkipped(n - 1, f, ap);
      assert Spaces(n) + f == " " + (Spaces(n - 1) + f);
      SpaceItem(Spaces(n - 1) + f, ap);
    }
  }

  lemma SpacesIs(n: nat)
    ensures Spaces(n) == if n == 0 then "" else " " + Spaces(n - 1)
  {
  }

  lemma SpaceItem(f: string, ap: seq<VaArg>)
    requires Accepts(f, ap)
    ensures Accepts(" " + f, ap) && Items(" " + f, ap) == [Space] + Items(f, ap)
    ensures Words([Space] + Items(f, ap)) == Words(Items(f, ap))
  {
    assert (" " + f)[1..] == f;
    assert ([Space] + Items(f, ap))[1..] == Items(f, ap);
    hide RunLength, Glue;
  }

  /** A run of bytes in front of a space or the end is one word. */
  lemma RunIsWord(items: seq<Item>, rest: seq<Item>)
    requires items != [] && (forall i :: 0 <= i < |items| ==> items[i].Bytes?) && (rest == [] || rest[0].Space?)
    ensures Words(items + rest) == [Glue(items)] + Words(rest)
  {
    var all := items + rest;
    var n := RunLength(all);
    assert all[|items|..] == rest && all[..|items|] == items;
    assert n == |items|;
  }

  /** In any format made of words, with spaces between them and perhaps around them, word i gives argument i: the
      literal characters and the values in their order. */
  lemma {:induction false} FormatMeans(words: seq<seq<Piece>>, gaps: seq<nat>)
    requires |gaps| == |words| + 1 && forall i :: 0 <= i < |words| ==> ProperWord(words[i])
    requires forall i :: 0 < i < |words| ==> gaps[i] > 0
    ensures Accepts(LineFormat(words, gaps), LineArgs(words))
    ensures var args := Words(Items(LineFormat(words, gaps), LineArgs(words)));
      |args| == |words| && forall i :: 0 <= i < |words| ==> args[i] == WordText(words[i])
    decreases |words|
  {
    hide *;
    LineIs(words, gaps);
    if words == [] {
      SpacesSkipped(gaps[0], "", []);
    } else {
      var rest, more := words[1..], gaps[1..];
      FormatMeans(rest, more);
      var f, ap := LineFormat(rest, more), LineArgs(rest);
      LineStarts(rest, more);
      WordProper(words[0]);
      var items := WordItems(words[0], f, ap);
      RunIsWord(items, Items(f, ap));
      SpacesSkipped(gaps[0], WordFormat(words[0]) + f, WordArgs(words[0]) + ap);
    }
  }

  lemma LineIs(words: seq<seq<Piece>>, gaps: seq<nat>)
    requires |gaps| == |words| + 1
    ensures words == [] ==>
      && LineFormat(words, gaps) == Spaces(gaps[0]) + "" && LineArgs(words) == []
      && Accepts("", []) && Words(Items("", [])) == []
    ensures words != [] ==>
      && LineFormat(words, gaps) == Spaces(gaps[0]) + (WordFormat(words[0]) + LineFormat(words[1..], gaps[1..]))
      && LineArgs(words) == WordArgs(words[0]) + LineArgs(words[1..])
  {
    hide Spaces, WordFormat, WordArgs;
  }

  lemma WordProper(w: seq<Piece>)
    requires ProperWord(w)
    ensures w != []
  {
  }

  /** What follows a word is a space or nothing. */
  lemma LineStarts(words: seq<seq<Piece>>, gaps: seq<nat>)
    requires |gaps| == |words| + 1 && (words != [] ==> gaps[0] > 0) && Accepts(LineFormat(words, gaps), LineArgs(words))
    ensures var items := Items(LineFormat(words, gaps), LineArgs(words)); items == [] || items[0].Space?
  {
    if gaps[0] > 0 {
      assert Spaces(gaps[0])[0] == ' ';
      assert LineFormat(words, gaps)[0] == ' ';
    }
  }

  // ---------- splitting ----------

  ghost predicate SameSpaces(a: seq<Item>, b: seq<Item>) {
    |a| == |b| && forall i :: 0 <= i < |a| ==> (a[i].Space? <==> b[i].Space?)
  }

  /** Only spaces of the format split arguments: their number does not depend on the values put in. */
  lemma SplitAtFormatSpaces(format: string, ap: seq<VaArg>, ap': seq<VaArg>)
    requires Accepts(format, ap) && Accepts(format, ap')
    ensures SameSpaces(Items(format, ap), Items(format, ap'))
    ensures |Words(Items(format, ap))| == |Words(Items(format, ap'))|
  {
    ItemSpaces(format, ap, ap');
    WordCount(Items(format, ap), Items(format, ap'));
  }

  lemma {:induction false} ItemSpaces(format: string, ap: seq<VaArg>, ap': seq<VaArg>)
    requires Accepts(format, ap) && Accepts(format, ap')
    ensures SameSpaces(Items(format, ap), Items(format, ap'))
    decreases |format|
  {
    if format == "" {
    } else if format[0] != '%' || |format| == 1 {
      ItemSpaces(format[1..], ap, ap');
    } else if format[1] == '%' {
      ItemSpaces(format[2..], ap, ap');
    } else {
      ItemSpaces(format[2..], ap[1..], ap'[1..]);
    }
  }

  lemma {:induction false} WordCount(a: seq<Item>, b: seq<Item>)
    requires SameSpaces(a, b)
    ensures RunLength(a) == RunLength(b) && |Words(a)| == |Words(b)|
    decreases |a|
  {
    if a != [] {
      WordCount(a[1..], b[1..]);
      if a[0].Bytes? {
        var n := RunLength(a);
        WordCount(a[n..], b[n..]);
      }
    }
  }
}
