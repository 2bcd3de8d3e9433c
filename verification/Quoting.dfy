/** The quoting of sds.c: sdscatrepr (379-405) writes a string in quotes, sdssplitargs (419-494) splits a line into
    arguments. What the splitter reads back from quoted strings is said for every list of byte strings. */
module Quoting {
  import opened Basics

  type Byte = c: char | c as int < 256 witness 'a'
  type Bytes = seq<Byte>

  const QUOTE: Byte := '"'
  const BACKSLASH: Byte := '\\'
  const NUL: Byte := '\0'
  const BELL: Byte := '\U{07}'
  const BACKSPACE: Byte := '\U{08}'

  /** isspace and isprint in the C locale */
  predicate IsSpace(c: Byte): (b: bool)
    ensures b <==> c in [' ', '\t', '\n', '\U{0B}', '\U{0C}', '\r']
  {
    c == ' ' || 9 <= c as int <= 13
  }

  predicate IsPrint(c: Byte): (b: bool)
    ensures b <==> ' ' <= c <= '~'
  {
    32 <= c as int <= 126
  }

  /** The characters that end a bare word; vertical tab and form feed are not among them. */
  predicate EndsWord(c: Byte) { c == ' ' || c == '\n' || c == '\r' || c == '\t' || c == NUL }

  // ---------- sdscatrepr ----------

  function Hex(d: nat): Byte
    requires d < 16
  {
    if d < 10 then (48 + d) as char else (87 + d) as char
  }

  /** What sdscatrepr writes for one byte. */
  function Escaped(c: Byte): Bytes {
    if c == BACKSLASH || c == QUOTE then [BACKSLASH, c]
    else if c == '\n' then [BACKSLASH, 'n']
    else if c == '\r' then [BACKSLASH, 'r']
    else if c == '\t' then [BACKSLASH, 't']
    else if c == BELL then [BACKSLASH, 'a']
    else if c == BACKSPACE then [BACKSLASH, 'b']
    else if IsPrint(c) then [c]
    else [BACKSLASH, 'x', Hex(c as int / 16), Hex(c as int % 16)]
  }

  function Body(p: Bytes): Bytes {
    if p == [] then [] else Escaped(p[0]) + Body(p[1..])
  }

  function Quoted(p: Bytes): Bytes { [QUOTE] + Body(p) + [QUOTE] }

  lemma BodyStep(c: Byte, p: Bytes)
    ensures Body([c] + p) == Escaped(c) + Body(p)
  {
    hide Escaped;
    assert ([c] + p)[1..] == p;
  }

  lemma {:induction false} BodyAppend(p: Bytes, c: Byte)
    ensures Body(p + [c]) == Body(p) + Escaped(c)
  {
    hide Escaped;
    if p == [] {
      BodyStep(c, []);
      assert [] + [c] == [c] + [];
    } else {
      BodyAppend(p[1..], c);
      BodyStep(p[0], p[1..] + [c]);
      BodyStep(p[0], p[1..]);
      hide Body;
      assert [p[0]] + p[1..] == p;
      assert [p[0]] + (p[1..] + [c]) == p + [c];
    }
  }

  /** One turn of the loop of sdscatrepr. */
  method CatByte(s: Bytes, c: Byte) returns (r: Bytes)
    ensures r == s + Escaped(c)
  {
    if c == BACKSLASH || c == QUOTE {
      r := s + [BACKSLASH, c];
    } else if c == '\n' {
      r := s + [BACKSLASH, 'n'];
    } else if c == '\r' {
      r := s + [BACKSLASH, 'r'];
    } else if c == '\t' {
      r := s + [BACKSLASH, 't'];
    } else if c == BELL {
      r := s + [BACKSLASH, 'a'];
    } else if c == BACKSPACE {
      r := s + [BACKSLASH, 'b'];
    } else if IsPrint(c) {
      r := s + [c];
    } else {
      r := s + [BACKSLASH, 'x', Hex(c as int / 16), Hex(c as int % 16)];
    }
  }

  /** sdscatrepr */
  method CatRepr(s: Bytes, p: Bytes) returns (r: Bytes)
    ensures r == s + Quoted(p)
  {
    hide Escaped;
    r := s + [QUOTE];
    for i := 0 to |p|
      invariant r == s + [QUOTE] + Body(p[..i])
    {
      BodyAppend(p[..i], p[i]);
      assert p[..i + 1] == p[..i] + [p[i]];
      r := CatByte(r, p[i]);
    }
    assert p[..|p|] == p;
    r := r + [QUOTE];
  }

  // ---------- sdssplitargs ----------

  /** The byte of a C string; its end reads as NUL. */
  function At(line: Bytes, p: nat): Byte { if p < |line| then line[p] else NUL }

  function Unescaped(c: Byte): (u: Byte)
    ensures c !in ['n', 'r', 't', 'b', 'a'] ==> u == c
  {
    if c == 'n' then '\n'
    else if c == 'r' then '\r'
    else if c == 't' then '\t'
    else if c == 'b' then BACKSPACE
    else if c == 'a' then BELL
    else c
  }

  datatype Scan = Done(text: Bytes, next: nat) | Bad

  /** Reading a token from position p on, `cur` being read already. */
  function Token(line: Bytes, p: nat, inq: bool, cur: Bytes): (r: Scan)
    requires p <= |line|
    ensures r.Done? ==> p <= r.next <= |line| && (At(line, p) != NUL ==> p < r.next)
    decreases |line| - p
  {
    var c := At(line, p);
    if inq then
      if c == BACKSLASH && At(line, p + 1) != NUL then Token(line, p + 2, true, cur + [Unescaped(At(line, p + 1))])
      else if c == QUOTE then
        if At(line, p + 1) != NUL && !IsSpace(At(line, p + 1)) then Bad else Done(cur, p + 1)
      else if c == NUL then Bad
      else Token(line, p + 1, true, cur + [c])
    else
      if EndsWord(c) then Done(cur, if c == NUL then p else p + 1)
      else if c == QUOTE then Token(line, p + 1, true, cur)
      else Token(line, p + 1, false, cur + [c])
  }

  function SkipBlanks(line: Bytes, p: nat): (q: nat)
    requires p <= |line|
    ensures p <= q <= |line| && !IsSpace(At(line, q))
    decreases |line| - p
  {
    if At(line, p) != NUL && IsSpace(At(line, p)) then SkipBlanks(line, p + 1) else p
  }

  function Prepend(v: seq<Bytes>, r: Option<seq<Bytes>>): Option<seq<Bytes>> {
    if r.None? then None else Some(v + r.value)
  }

  /** The arguments of the line from position p on; None for unbalanced quotes. */
  function Split(line: Bytes, p: nat): Option<seq<Bytes>>
    requires p <= |line|
    decreases |line| - p
  {
    var q := SkipBlanks(line, p);
    if At(line, q) == NUL then Some([])
    else
      var t := Token(line, q, false, []);
      if t.Bad? then None else Prepend([t.text], Split(line, t.next))
  }

  /** One turn of the inner loop of sdssplitargs; `ok` is false at its goto err. */
  method TokenStep(line: Bytes, p0: nat, inq0: bool, cur: Bytes)
    returns (ok: bool, p: nat, inq: bool, done: bool, current: Bytes)
    requires p0 <= |line|
    ensures !ok ==> Token(line, p0, inq0, cur).Bad?
    ensures ok && done ==> Token(line, p0, inq0, cur) == Done(current, p)
    ensures ok && !done ==> p0 < p <= |line| && Token(line, p0, inq0, cur) == Token(line, p, inq, current)
  {
    ok, p, inq, done, current := true, p0, inq0, false, cur;
    if inq {
      if At(line, p) == BACKSLASH && At(line, p + 1) != NUL {
        p := p + 1;
        current := current + [Unescaped(At(line, p))];
      } else if At(line, p) == QUOTE {
        if At(line, p + 1) != NUL && !IsSpace(At(line, p + 1)) {
          ok := false;
          return;
        }
        done := true;
      } else if At(line, p) == NUL {
        ok := false;
        return;
      } else {
        current := current + [At(line, p)];
      }
    } else {
      if EndsWord(At(line, p)) {
        done := true;
      } else if At(line, p) == QUOTE {
        inq := true;
      } else {
        current := current + [At(line, p)];
      }
    }
    if At(line, p) != NUL {
      p := p + 1;
    }
  }

  /** The token loop of sdssplitargs. */
  method ReadToken(line: Bytes, q: nat) returns (ok: bool, p: nat, current: Bytes)
    requires q <= |line|
    ensures Token(line, q, false, []) == if ok then Done(current, p) else Bad
  {
    var inq, done := false, false;
    ok, p, current := true, q, [];
    while !done
      invariant ok && p <= |line|
      invariant Token(line, q, false, []) == if done then Done(current, p) else Token(line, p, inq, current)
      decreases !done, |line| - p
    {
      ok, p, inq, done, current := TokenStep(line, p, inq, current);
      if !ok {
        return;
      }
    }
  }

  /** sdssplitargs; None is its NULL result. */
  method SplitArgs(line: Bytes) returns (r: Option<seq<Bytes>>)
    ensures r == Split(line, 0)
  {
    var vector: seq<Bytes>, p := [], 0;
    assert forall v: seq<Bytes> :: [] + v == v;
    while true
      invariant p <= |line| && Split(line, 0) == Prepend(vector, Split(line, p))
      decreases |line| - p
    {
      var q := p;
      while At(line, q) != NUL && IsSpace(At(line, q))
        invariant p <= q <= |line| && SkipBlanks(line, p) == SkipBlanks(line, q)
        decreases |line| - q
      {
        q := q + 1;
      }
      if At(line, q) == NUL {
        assert vector + [] == vector;
        return Some(vector);
      }
      var ok, next, current := ReadToken(line, q);
      if !ok {
        return None;
      }
      ghost var rest := Split(line, next);
      assert rest.Some? ==> vector + ([current] + rest.value) == vector + [current] + rest.value;
      vector, p := vector + [current], next;
    }
  }

  // ---------- quoting, joining and splitting ----------

  /** The quoted strings joined by spaces. */
  function Joined(args: seq<Bytes>): Bytes {
    if args == [] then [] else if |args| == 1 then Quoted(args[0]) else Quoted(args[0]) + [' '] + Joined(args[1..])
  }

  /** A byte that survives: printable, or one of newline, return, tab, bell and backspace. */
  predicate Safe(c: Byte) { IsPrint(c) || c == '\n' || c == '\r' || c == '\t' || c == BELL || c == BACKSPACE }

  /** What the splitter makes of a quoted byte: the hexadecimal form loses its backslash only. */
  function Survives(c: Byte): Bytes {
    if Safe(c) then [c] else ['x', Hex(c as int / 16), Hex(c as int % 16)]
  }

  function Mangled(p: Bytes): Bytes {
    if p == [] then [] else Survives(p[0]) + Mangled(p[1..])
  }

  function MangledAll(args: seq<Bytes>): seq<Bytes> { seq(|args|, i requires 0 <= i < |args| => Mangled(args[i])) }

  /** The bytes of the line from p on begin with s. */
  ghost predicate HasAt(line: Bytes, p: nat, s: Bytes) {
    p + |s| <= |line| && line[p..p + |s|] == s
  }

  lemma HasParts(line: Bytes, p: nat, s: Bytes, t: Bytes)
    requires HasAt(line, p, s + t)
    ensures HasAt(line, p, s) && HasAt(line, p + |s|, t)
  {
    assert line[p..p + |s + t|][..|s|] == line[p..p + |s|];
    assert line[p..p + |s + t|][|s|..] == line[p + |s|..p + |s + t|];
  }

  lemma BytesAt(line: Bytes, p: nat, s: Bytes)
    requires HasAt(line, p, s)
    ensures forall k :: 0 <= k < |s| ==> At(line, p + k) == s[k]
  {
    forall k | 0 <= k < |s| ensures At(line, p + k) == s[k] {
      assert line[p..p + |s|][k] == line[p + k];
    }
  }

  /** Inside quotes, the bytes of one escaped byte are read as what survives of it. */
  lemma OneByte(line: Bytes, p: nat, cur: Bytes, c: Byte)
    requires HasAt(line, p, Escaped(c))
    ensures p + |Escaped(c)| <= |line| &&
      Token(line, p, true, cur) == Token(line, p + |Escaped(c)|, true, cur + Survives(c))
  {
    BytesAt(line, p, Escaped(c));
    assert forall k :: 0 <= k < |Escaped(c)| ==> At(line, p + k) == Escaped(c)[k];
    assert At(line, p + 0) == Escaped(c)[0];
    if |Escaped(c)| > 1 {
      assert At(line, p + 1) == Escaped(c)[1];
    }
    if Safe(c) {
    } else {
      var h, l := Hex(c as int / 16), Hex(c as int % 16);
      assert At(line, p + 2) == Escaped(c)[2] && At(line, p + 3) == Escaped(c)[3];
      assert At(line, p + 1) == 'x' && At(line, p + 2) == h && At(line, p + 3) == l;
      assert Token(line, p, true, cur) == Token(line, p + 2, true, cur + ['x']);
      assert Token(line, p + 2, true, cur + ['x']) == Token(line, p + 3, true, cur + ['x'] + [h]);
      assert Token(line, p + 3, true, cur + ['x'] + [h]) == Token(line, p + 4, true, cur + ['x'] + [h] + [l]);
      assert cur + ['x'] + [h] + [l] == cur + Survives(c);
    }
  }

  lemma {:induction false} InQuotes(line: Bytes, p: nat, cur: Bytes, s: Bytes)
    requires HasAt(line, p, Body(s))
    ensures p + |Body(s)| <= |line| && Token(line, p, true, cur) == Token(line, p + |Body(s)|, true, cur + Mangled(s))
    decreases |s|
  {
    hide Token, Escaped, Survives;
    if s == [] {
      assert cur + Mangled(s) == cur;
    } else {
      var n := |Escaped(s[0])|;
      HasParts(line, p, Escaped(s[0]), Body(s[1..]));
      OneByte(line, p, cur, s[0]);
      InQuotes(line, p + n, cur + Survives(s[0]), s[1..]);
      assert cur + Survives(s[0]) + Mangled(s[1..]) == cur + Mangled(s);
    }
  }

  lemma QuotedParts(line: Bytes, p: nat, s: Bytes)
    requires HasAt(line, p, Quoted(s))
    ensures p + |Body(s)| + 2 <= |line| && At(line, p) == QUOTE && HasAt(line, p + 1, Body(s))
    ensures At(line, p + 1 + |Body(s)|) == QUOTE
  {
    hide Body;
    var n := |Body(s)|;
    assert Quoted(s) == [QUOTE] + (Body(s) + [QUOTE]);
    HasParts(line, p, [QUOTE], Body(s) + [QUOTE]);
    HasParts(line, p + 1, Body(s), [QUOTE]);
    BytesAt(line, p, [QUOTE]);
    assert At(line, p + 0) == QUOTE;
    BytesAt(line, p + 1 + n, [QUOTE]);
    assert At(line, p + 1 + n + 0) == QUOTE;
  }

  /** A quoted string followed by a space or the end is read as one token. */
  lemma QuotedToken(line: Bytes, p: nat, s: Bytes)
    requires HasAt(line, p, Quoted(s))
    requires p + |Quoted(s)| < |line| ==> line[p + |Quoted(s)|] == ' '
    ensures At(line, p) == QUOTE && Token(line, p, false, []) == Done(Mangled(s), p + |Quoted(s)|)
  {
    hide HasAt, Body, Mangled;
    QuotedParts(line, p, s);
    InQuotes(line, p + 1, [], s);
    assert [] + Mangled(s) == Mangled(s);
  }

  lemma QuotedTokenEnd(line: Bytes, p: nat, s: Bytes, rest: seq<Bytes>)
    requires p <= |line| && line[p..] == Joined([s] + rest)
    ensures HasAt(line, p, Quoted(s)) && p + |Quoted(s)| <= |line|
    ensures rest != [] ==> p + |Quoted(s)| < |line| && line[p + |Quoted(s)| + 1..] == Joined(rest)
    ensures if rest == [] then p + |Quoted(s)| == |line| else p + |Quoted(s)| < |line| && line[p + |Quoted(s)|] == ' '
  {
    hide Quoted;
    var n := |Quoted(s)|;
    assert ([s] + rest)[1..] == rest;
    assert line[p..][..n] == Quoted(s) && line[p..][..n] == line[p..p + n];
    if rest != [] {
      assert line[p..][n] == ' ';
      assert line[p + n + 1..] == line[p..][n + 1..] == Joined(rest);
    }
  }

  lemma QuotedStart(line: Bytes, p: nat, args: seq<Bytes>)
    requires p <= |line| && args != [] && line[p..] == Joined(args)
    ensures At(line, p) == QUOTE
  {
    assert line[p..][0] == QUOTE;
  }

  /** Where the remaining arguments begin. */
  function After(p: nat, s: Bytes, rest: seq<Bytes>): nat { p + |Quoted(s)| + if rest == [] then 0 else 1 }

  /** The first argument is split off. */
  lemma JoinedStep(line: Bytes, p: nat, s: Bytes, rest: seq<Bytes>)
    requires p <= |line| && line[p..] == Joined([s] + rest)
    ensures After(p, s, rest) <= |line| && line[After(p, s, rest)..] == Joined(rest)
    ensures Split(line, p) == Prepend([Mangled(s)], Split(line, After(p, s, rest)))
  {
    hide Token, Quoted, Mangled, Joined, HasAt, Split;
    QuotedTokenEnd(line, p, s, rest);
    QuotedToken(line, p, s);
    var n := |Quoted(s)|;
    TokenSplit(line, p, Mangled(s), p + n);
    if rest == [] {
      assert Joined(rest) == line[p + n..] by { EmptyJoined(); }
    } else {
      QuotedStart(line, p + n + 1, rest);
      SpaceSkipped(line, p + n);
    }
  }

  lemma TokenSplit(line: Bytes, p: nat, text: Bytes, next: nat)
    requires p <= |line| && At(line, p) == QUOTE && Token(line, p, false, []) == Done(text, next)
    ensures next <= |line| && Split(line, p) == Prepend([text], Split(line, next))
  {
    hide Token;
    assert SkipBlanks(line, p) == p;
  }

  lemma SpaceSkipped(line: Bytes, p: nat)
    requires p < |line| && line[p] == ' ' && At(line, p + 1) == QUOTE
    ensures Split(line, p) == Split(line, p + 1)
  {
    hide Token;
    assert SkipBlanks(line, p) == SkipBlanks(line, p + 1) == p + 1;
  }

  lemma EmptyJoined()
    ensures Joined([]) == []
  {
  }

  lemma {:induction false} SplitJoinedFrom(line: Bytes, p: nat, args: seq<Bytes>)
    requires p <= |line| && line[p..] == Joined(args)
    ensures Split(line, p) == Some(MangledAll(args))
    decreases |args|
  {
    hide Quoted, Mangled, After, Token;
    if args == [] {
      assert MangledAll(args) == [];
    } else {
      var s, rest := args[0], args[1..];
      assert args == [s] + rest;
      assert MangledAll(args) == [Mangled(s)] + MangledAll(rest);
      JoinedStep(line, p, s, rest);
      SplitJoinedFrom(line, After(p, s, rest), rest);
    }
  }

  /** Splitting what was quoted and joined gives every string back with its unsafe bytes mangled. */
  lemma SplitJoined(args: seq<Bytes>)
    ensures Split(Joined(args), 0) == Some(MangledAll(args))
  {
    assert Joined(args)[0..] == Joined(args);
    SplitJoinedFrom(Joined(args), 0, args);
  }

  lemma {:induction false} MangledExactly(p: Bytes)
    ensures |Mangled(p)| >= |p| && (Mangled(p) == p <==> forall c :: c in p ==> Safe(c))
    ensures |Mangled(p)| == |p| <==> forall c :: c in p ==> Safe(c)
  {
    if p != [] {
      MangledExactly(p[1..]);
      assert p == [p[0]] + p[1..];
      assert forall c :: c in p[1..] ==> c in p;
    }
  }

  /** The round trip gives the list back exactly when all its bytes are safe; an escape \xHH is printed but not read. */
  lemma RoundTripExactly(args: seq<Bytes>)
    ensures Split(Joined(args), 0) == Some(args) <==> forall i, c :: 0 <= i < |args| && c in args[i] ==> Safe(c)
  {
    SplitJoined(args);
    forall i | 0 <= i < |args|
      ensures Mangled(args[i]) == args[i] <==> forall c :: c in args[i] ==> Safe(c)
    {
      MangledExactly(args[i]);
    }
    if MangledAll(args) == args {
      forall i | 0 <= i < |args| ensures Mangled(args[i]) == args[i] {
        assert MangledAll(args)[i] == args[i];
      }
    } else {
      assert exists i :: 0 <= i < |args| && Mangled(args[i]) != args[i];
    }
  }

  // ---------- which lines split into what ----------

  /** Between quotes: a byte that stands for itself, or a backslash and a byte. */
  datatype Atom = Plain(c: Byte) | Escape(c: Byte)

  predicate ProperAtom(a: Atom) {
    a.c != NUL && (a.Plain? ==> a.c != BACKSLASH && a.c != QUOTE)
  }

  predicate ProperAtoms(s: seq<Atom>) { forall i :: 0 <= i < |s| ==> ProperAtom(s[i]) }

  function AtomSource(a: Atom): Bytes { if a.Plain? then [a.c] else [BACKSLASH, a.c] }

  function AtomValue(a: Atom): Byte { if a.Plain? then a.c else Unescaped(a.c) }

  function AtomsSource(s: seq<Atom>): Bytes {
    if s == [] then [] else AtomSource(s[0]) + AtomsSource(s[1..])
  }

  function AtomsValue(s: seq<Atom>): Bytes {
    if s == [] then [] else [AtomValue(s[0])] + AtomsValue(s[1..])
  }

  /** An argument as it is written: bare bytes, then perhaps a quoted part. */
  datatype Word = Word(bare: Bytes, quoted: Option<seq<Atom>>)

  predicate BareByte(c: Byte) { !EndsWord(c) && c != QUOTE }

  predicate ProperBare(b: Bytes) { forall i :: 0 <= i < |b| ==> BareByte(b[i]) }

  predicate ProperParts(w: Word) { ProperBare(w.bare) && (w.quoted.Some? ==> ProperAtoms(w.quoted.value)) }

  predicate ProperWord(w: Word) {
    ProperParts(w) && (w.bare == [] ==> w.quoted.Some?) && (w.bare != [] ==> !IsSpace(w.bare[0]))
  }

  function Source(w: Word): Bytes {
    w.bare + if w.quoted.None? then [] else [QUOTE] + AtomsSource(w.quoted.value) + [QUOTE]
  }

  function Value(w: Word): Bytes { w.bare + if w.quoted.None? then [] else AtomsValue(w.quoted.value) }

  predicate Blanks(g: Bytes) { forall i :: 0 <= i < |g| ==> IsSpace(g[i]) }

  /** What may follow the word, if anything does: any blank after a quote; after a bare byte a blank that ends words. */
  predicate MayFollow(w: Word, g: Bytes) {
    g != [] ==> if w.quoted.Some? then IsSpace(g[0]) else EndsWord(g[0]) && g[0] != NUL
  }

  /** gaps[0] before the first word, gaps[i] between two words, the last gap at the end. */
  function Written(words: seq<Word>, gaps: seq<Bytes>): Bytes
    requires |gaps| == |words| + 1
  {
    gaps[0] + if words == [] then [] else Source(words[0]) + Written(words[1..], gaps[1..])
  }

  predicate ProperLine(words: seq<Word>, gaps: seq<Bytes>) {
    && |gaps| == |words| + 1 && (forall i :: 0 <= i < |gaps| ==> Blanks(gaps[i]))
    && (forall i :: 0 <= i < |words| ==> ProperWord(words[i]) && MayFollow(words[i], gaps[i + 1]))
    && (forall i :: 0 < i < |words| ==> gaps[i] != [])
  }

  function Values(words: seq<Word>): seq<Bytes> { seq(|words|, i requires 0 <= i < |words| => Value(words[i])) }

  lemma {:induction false} BareRun(line: Bytes, p: nat, bare: Bytes, cur: Bytes)
    requires HasAt(line, p, bare) && ProperBare(bare)
    ensures Token(line, p, false, cur) == Token(line, p + |bare|, false, cur + bare)
    decreases |bare|
  {
    if bare == [] {
      assert cur + bare == cur;
    } else {
      assert bare == [bare[0]] + bare[1..];
      HasParts(line, p, [bare[0]], bare[1..]);
      BytesAt(line, p, bare);
      assert At(line, p + 0) == bare[0];
      hide HasAt;
      BareRun(line, p + 1, bare[1..], cur + [bare[0]]);
      assert cur + [bare[0]] + bare[1..] == cur + bare;
    }
  }

  lemma {:induction false} AtomsRun(line: Bytes, p: nat, s: seq<Atom>, cur: Bytes)
    requires HasAt(line, p, AtomsSource(s)) && ProperAtoms(s)
    ensures p + |AtomsSource(s)| <= |line|
    ensures Token(line, p, true, cur) == Token(line, p + |AtomsSource(s)|, true, cur + AtomsValue(s))
    decreases |s|
  {
    hide *;
    HasIs(line, p, AtomsSource(s));
    AtomsIs(s);
    if s == [] {
      assert cur + [] == cur;
    } else {
      var first, value := AtomSource(s[0]), AtomValue(s[0]);
      HasParts(line, p, first, AtomsSource(s[1..]));
      AtomRead(line, p, s[0], cur);
      AtomsRun(line, p + |first|, s[1..], cur + [value]);
      assert cur + [value] + AtomsValue(s[1..]) == cur + AtomsValue(s);
    }
  }

  lemma AtomsIs(s: seq<Atom>)
    ensures s == [] ==> AtomsSource(s) == [] && AtomsValue(s) == []
    ensures s != [] ==>
      && AtomsSource(s) == AtomSource(s[0]) + AtomsSource(s[1..])
      && AtomsValue(s) == [AtomValue(s[0])] + AtomsValue(s[1..])
      && (ProperAtoms(s) <==> ProperAtom(s[0]) && ProperAtoms(s[1..]))
  {
    hide AtomSource, AtomValue, ProperAtom;
    if s != [] { assert forall i :: 0 < i < |s| ==> s[i] == s[1..][i - 1]; }
  }

  lemma HasIs(line: Bytes, p: nat, s: Bytes)
    requires HasAt(line, p, s)
    ensures p + |s| <= |line|
  {
  }

  lemma AtomRead(line: Bytes, p: nat, a: Atom, cur: Bytes)
    requires ProperAtom(a) && HasAt(line, p, AtomSource(a))
    ensures var n := p + |AtomSource(a)|;
      n <= |line| && Token(line, p, true, cur) == Token(line, n, true, cur + [AtomValue(a)])
  {
    var s := AtomSource(a);
    BytesAt(line, p, s);
    assert At(line, p + 0) == s[0];
    if a.Escape? { assert At(line, p + 1) == s[1]; }
  }

  /** Where reading goes on after a word that ends at n. */
  function Onward(line: Bytes, w: Word, n: nat): nat { if w.quoted.Some? || n >= |line| then n else n + 1 }

  lemma WordToken(line: Bytes, p: nat, w: Word)
    requires HasAt(line, p, Source(w)) && ProperParts(w) && p + |Source(w)| <= |line|
    requires MayFollow(w, line[p + |Source(w)|..])
    ensures Token(line, p, false, []) == Done(Value(w), Onward(line, w, p + |Source(w)|))
  {
    hide *;
    WordParts(line, p, w);
    var m := p + |w.bare|;
    BareRun(line, p, w.bare, []);
    assert [] + w.bare == w.bare;
    if w.quoted.None? {
      BareEnd(line, m, w, w.bare);
    } else {
      var atoms := w.quoted.value;
      OpenQuote(line, m, w.bare);
      AtomsRun(line, m + 1, atoms, w.bare);
      CloseQuote(line, m + 1 + |AtomsSource(atoms)|, w, w.bare + AtomsValue(atoms));
    }
  }

  lemma WordParts(line: Bytes, p: nat, w: Word)
    requires HasAt(line, p, Source(w)) && ProperParts(w)
    ensures HasAt(line, p, w.bare) && ProperBare(w.bare) && (w.quoted.None? ==> Source(w) == w.bare == Value(w))
    ensures w.quoted.Some? ==>
      var src, m := AtomsSource(w.quoted.value), p + |w.bare|;
      && ProperAtoms(w.quoted.value) && |Source(w)| == |w.bare| + 2 + |src| && HasAt(line, m + 1, src)
      && At(line, m) == QUOTE && At(line, m + 1 + |src|) == QUOTE && Value(w) == w.bare + AtomsValue(w.quoted.value)
  {
    hide AtomsSource, AtomsValue, ProperBare, ProperAtoms;
    if w.quoted.None? {
      assert w.bare + [] == w.bare;
    } else {
      var src, m := AtomsSource(w.quoted.value), p + |w.bare|;
      assert Source(w) == w.bare + ([QUOTE] + (src + [QUOTE]));
      HasParts(line, p, w.bare, [QUOTE] + (src + [QUOTE]));
      HasParts(line, m, [QUOTE], src + [QUOTE]);
      HasParts(line, m + 1, src, [QUOTE]);
      BytesAt(line, m, [QUOTE]);
      BytesAt(line, m + 1 + |src|, [QUOTE]);
      assert At(line, m + 0) == QUOTE && At(line, m + 1 + |src| + 0) == QUOTE;
    }
  }

  lemma BareEnd(line: Bytes, n: nat, w: Word, cur: Bytes)
    requires n <= |line| && w.quoted.None? && MayFollow(w, line[n..])
    ensures Token(line, n, false, cur) == Done(cur, Onward(line, w, n))
  {
    assert n < |line| ==> line[n..][0] == line[n];
  }

  lemma OpenQuote(line: Bytes, p: nat, cur: Bytes)
    requires p <= |line| && At(line, p) == QUOTE
    ensures p < |line| && Token(line, p, false, cur) == Token(line, p + 1, true, cur)
  {
  }

  lemma CloseQuote(line: Bytes, p: nat, w: Word, cur: Bytes)
    requires p < |line| && At(line, p) == QUOTE && w.quoted.Some? && MayFollow(w, line[p + 1..])
    ensures Token(line, p, true, cur) == Done(cur, Onward(line, w, p + 1))
  {
    assert p + 1 < |line| ==> line[p + 1..][0] == line[p + 1];
  }

  lemma {:induction false} BlanksSkipped(line: Bytes, p: nat, g: Bytes)
    requires HasAt(line, p, g) && Blanks(g)
    ensures SkipBlanks(line, p) == SkipBlanks(line, p + |g|)
    decreases |g|
  {
    if g != [] {
      assert g == [g[0]] + g[1..];
      HasParts(line, p, [g[0]], g[1..]);
      BytesAt(line, p, g);
      assert At(line, p + 0) == g[0];
      hide HasAt;
      BlanksSkipped(line, p + 1, g[1..]);
    }
  }

  lemma SplitAfterBlanks(line: Bytes, p: nat, g: Bytes)
    requires HasAt(line, p, g) && Blanks(g)
    ensures p + |g| <= |line| && Split(line, p) == Split(line, p + |g|)
  {
    BlanksSkipped(line, p, g);
    hide Token, SkipBlanks;
  }

  /** A word at the current position is the next argument. */
  lemma WordSplit(line: Bytes, p: nat, w: Word)
    requires HasAt(line, p, Source(w)) && ProperWord(w) && p + |Source(w)| <= |line|
    requires MayFollow(w, line[p + |Source(w)|..])
    ensures Split(line, p) == Prepend([Value(w)], Split(line, p + |Source(w)|))
  {
    var n := p + |Source(w)|;
    WordToken(line, p, w);
    BytesAt(line, p, Source(w));
    assert At(line, p + 0) == Source(w)[0];
    assert SkipBlanks(line, p) == p;
    hide Token;
    if Onward(line, w, n) != n {
      assert line[n..][0] == line[n];
      assert SkipBlanks(line, n) == SkipBlanks(line, n + 1);
    }
  }

  lemma LineParts(words: seq<Word>, gaps: seq<Bytes>)
    requires ProperLine(words, gaps)
    ensures |gaps| == |words| + 1 && Blanks(gaps[0])
    ensures words == [] ==> Written(words, gaps) == gaps[0] && Values(words) == []
    ensures words != [] ==>
      && ProperWord(words[0]) && ProperLine(words[1..], gaps[1..])
      && Written(words, gaps) == gaps[0] + (Source(words[0]) + Written(words[1..], gaps[1..]))
      && Values(words) == [Value(words[0])] + Values(words[1..])
  {
    hide ProperWord, Source, Value, Blanks, MayFollow;
    if words == [] {
      assert gaps[0] + [] == gaps[0];
    } else {
      assert forall i :: 0 <= i < |words| - 1 ==> words[1..][i] == words[i + 1] && gaps[1..][i + 1] == gaps[i + 2];
    }
  }

  lemma LineFollows(words: seq<Word>, gaps: seq<Bytes>)
    requires ProperLine(words, gaps) && words != []
    ensures MayFollow(words[0], Written(words[1..], gaps[1..]))
  {
    hide ProperWord, Source, Blanks;
    var rest := Written(words[1..], gaps[1..]);
    assert gaps[1..][0] == gaps[1] && MayFollow(words[0], gaps[0 + 1]);
    if |words| > 1 {
      assert gaps[1] != [];
    } else {
      assert rest == gaps[1] + [];
    }
    assert gaps[1] != [] ==> rest[0] == gaps[1][0];
  }

  lemma SuffixAt(line: Bytes, p: nat, s: Bytes, t: Bytes)
    requires p <= |line| && line[p..] == s + t
    ensures HasAt(line, p, s) && p + |s| <= |line| && line[p + |s|..] == t
  {
    assert line[p..][..|s|] == line[p..p + |s|];
    assert line[p..][|s|..] == line[p + |s|..];
  }

  lemma {:induction false} WrittenSplits(line: Bytes, p: nat, words: seq<Word>, gaps: seq<Bytes>)
    requires p <= |line| && ProperLine(words, gaps) && line[p..] == Written(words, gaps)
    ensures Split(line, p) == Some(Values(words))
    decreases |words|
  {
    hide *;
    LineParts(words, gaps);
    if words == [] {
      assert gaps[0] + [] == gaps[0];
      SuffixAt(line, p, gaps[0], []);
      SplitAfterBlanks(line, p, gaps[0]);
      SplitEnd(line);
    } else {
      var rest := Written(words[1..], gaps[1..]);
      SuffixAt(line, p, gaps[0], Source(words[0]) + rest);
      SplitAfterBlanks(line, p, gaps[0]);
      var q := p + |gaps[0]|;
      SuffixAt(line, q, Source(words[0]), rest);
      LineFollows(words, gaps);
      WordSplit(line, q, words[0]);
      WrittenSplits(line, q + |Source(words[0])|, words[1..], gaps[1..]);
      PrependSome([Value(words[0])], Values(words[1..]));
    }
  }

  lemma SplitEnd(line: Bytes)
    ensures Split(line, |line|) == Some([])
  {
  }

  lemma PrependSome(v: seq<Bytes>, r: seq<Bytes>)
    ensures Prepend(v, Some(r)) == Some(v + r)
  {
  }

  /** A quoted part that was read is one that was written. */
  lemma {:induction false} QuotedInverse(line: Bytes, p: nat, cur: Bytes) returns (s: seq<Atom>)
    requires p <= |line| && NUL !in line && Token(line, p, true, cur).Done?
    ensures ProperAtoms(s) && HasAt(line, p, AtomsSource(s) + [QUOTE])
    ensures var n := p + |AtomsSource(s)| + 1;
      && n <= |line| && (n < |line| ==> IsSpace(line[n])) && Token(line, p, true, cur) == Done(cur + AtomsValue(s), n)
    decreases |line| - p
  {
    hide *;
    QuotedCases(line, p, cur);
    if At(line, p) == QUOTE {
      s := [];
      NoAtoms(line, p, cur);
    } else {
      var a := if At(line, p) == BACKSLASH && At(line, p + 1) != NUL then Escape(line[p + 1]) else Plain(line[p]);
      var n, value := |AtomSource(a)|, AtomValue(a);
      var rest := QuotedInverse(line, p + n, cur + [value]);
      s := [a] + rest;
      assert s[1..] == rest;
      AtomsIs(s);
      HasMore(line, p, AtomSource(a), AtomsSource(rest) + [QUOTE]);
      assert AtomsSource(s) + [QUOTE] == AtomSource(a) + (AtomsSource(rest) + [QUOTE]);
      assert cur + AtomsValue(s) == cur + [value] + AtomsValue(rest);
    }
  }

  lemma NoAtoms(line: Bytes, p: nat, cur: Bytes)
    requires p < |line| && At(line, p) == QUOTE
    ensures ProperAtoms([]) && AtomsSource([]) == [] && HasAt(line, p, AtomsSource([]) + [QUOTE]) &&
      cur + AtomsValue([]) == cur
  {
    HasOne(line, p, QUOTE);
    assert AtomsSource([]) + [QUOTE] == [QUOTE];
  }

  lemma QuotedCases(line: Bytes, p: nat, cur: Bytes)
    requires p <= |line| && NUL !in line && Token(line, p, true, cur).Done?
    ensures p < |line| && line[p] != NUL
    ensures At(line, p) == QUOTE ==>
      (p + 1 < |line| ==> IsSpace(line[p + 1])) && Token(line, p, true, cur) == Done(cur, p + 1)
    ensures At(line, p) != QUOTE ==>
      var escape := At(line, p) == BACKSLASH && At(line, p + 1) != NUL;
      && (escape ==> p + 1 < |line|)
      && var a := if escape then Escape(line[p + 1]) else Plain(line[p]); var n := |AtomSource(a)|;
         && ProperAtom(a) && HasAt(line, p, AtomSource(a)) && 0 < n && p + n <= |line|
         && Token(line, p, true, cur) == Token(line, p + n, true, cur + [AtomValue(a)])
  {
    if At(line, p) == BACKSLASH && At(line, p + 1) == NUL {
      LoneBackslash(line, p, cur);
    }
  }

  lemma LoneBackslash(line: Bytes, p: nat, cur: Bytes)
    requires p < |line| && NUL !in line && line[p] == BACKSLASH && At(line, p + 1) == NUL
    ensures Token(line, p, true, cur).Bad?
  {
    assert Token(line, p, true, cur) == Token(line, p + 1, true, cur + [BACKSLASH]);
  }

  lemma HasOne(line: Bytes, p: nat, c: Byte)
    requires p < |line| && line[p] == c
    ensures HasAt(line, p, [c])
  {
  }

  lemma HasMore(line: Bytes, p: nat, s: Bytes, t: Bytes)
    requires HasAt(line, p, s) && HasAt(line, p + |s|, t)
    ensures HasAt(line, p, s + t)
  {
    assert line[p..p + |s + t|] == line[p..p + |s|] + line[p + |s|..p + |s| + |t|];
  }

  /** A token that was read is a word that was written. */
  lemma {:induction false} TokenInverse(line: Bytes, p: nat, cur: Bytes) returns (w: Word)
    requires p <= |line| && NUL !in line && Token(line, p, false, cur).Done?
    ensures ProperParts(w) && HasAt(line, p, Source(w)) && p + |Source(w)| <= |line|
    ensures MayFollow(w, line[p + |Source(w)|..])
    ensures Token(line, p, false, cur) == Done(cur + Value(w), Onward(line, w, p + |Source(w)|))
    decreases |line| - p
  {
    hide *;
    BareCases(line, p, cur);
    if p == |line| || EndsWord(line[p]) {
      w := Word([], None);
      NoWord(line, p, cur);
    } else if line[p] == QUOTE {
      var atoms := QuotedInverse(line, p + 1, cur);
      w := Word([], Some(atoms));
      QuotedWord(line, p, cur, atoms);
    } else {
      var rest := TokenInverse(line, p + 1, cur + [line[p]]);
      w := Word([line[p]] + rest.bare, rest.quoted);
      LongerWord(line, p, cur, rest);
    }
  }

  lemma BareCases(line: Bytes, p: nat, cur: Bytes)
    requires p <= |line| && NUL !in line
    ensures p < |line| && line[p] == QUOTE ==> Token(line, p, false, cur) == Token(line, p + 1, true, cur)
    ensures p < |line| && BareByte(line[p]) ==> Token(line, p, false, cur) == Token(line, p + 1, false, cur + [line[p]])
    ensures p < |line| ==> (BareByte(line[p]) <==> !EndsWord(line[p]) && line[p] != QUOTE)
  {
    assert p < |line| ==> line[p] in line;
  }

  lemma NoWord(line: Bytes, p: nat, cur: Bytes)
    requires p <= |line| && NUL !in line && (p == |line| || EndsWord(line[p]))
    ensures var w := Word([], None);
      && ProperParts(w) && HasAt(line, p, Source(w)) && Source(w) == [] && MayFollow(w, line[p..])
      && Token(line, p, false, cur) == Done(cur + Value(w), Onward(line, w, p))
  {
    var w := Word([], None);
    assert p < |line| ==> line[p] in line && line[p..][0] == line[p];
    assert cur + Value(w) == cur && Source(w) == [];
  }

  lemma QuotedWord(line: Bytes, p: nat, cur: Bytes, atoms: seq<Atom>)
    requires p < |line| && line[p] == QUOTE && ProperAtoms(atoms) && HasAt(line, p + 1, AtomsSource(atoms) + [QUOTE])
    requires var n := p + 1 + |AtomsSource(atoms)| + 1; n <= |line| && (n < |line| ==> IsSpace(line[n]))
    ensures var w := Word([], Some(atoms));
      && ProperParts(w) && HasAt(line, p, Source(w)) && |Source(w)| == |AtomsSource(atoms)| + 2
      && MayFollow(w, line[p + |Source(w)|..]) && cur + Value(w) == cur + AtomsValue(atoms)
      && Onward(line, w, p + |Source(w)|) == p + |Source(w)|
  {
    hide AtomsSource, AtomsValue, HasAt, ProperAtoms;
    var w := Word([], Some(atoms));
    HasOne(line, p, QUOTE);
    HasMore(line, p, [QUOTE], AtomsSource(atoms) + [QUOTE]);
    assert Source(w) == [QUOTE] + (AtomsSource(atoms) + [QUOTE]);
    var n := p + |Source(w)|;
    assert n < |line| ==> line[n..][0] == line[n];
  }

  lemma LongerWord(line: Bytes, p: nat, cur: Bytes, rest: Word)
    requires p < |line| && BareByte(line[p]) && ProperParts(rest) && HasAt(line, p + 1, Source(rest))
    requires p + 1 + |Source(rest)| <= |line| && MayFollow(rest, line[p + 1 + |Source(rest)|..])
    ensures var w := Word([line[p]] + rest.bare, rest.quoted);
      && ProperParts(w) && HasAt(line, p, Source(w)) && |Source(w)| == |Source(rest)| + 1
      && MayFollow(w, line[p + |Source(w)|..]) && cur + Value(w) == cur + [line[p]] + Value(rest)
      && Onward(line, w, p + |Source(w)|) == Onward(line, rest, p + 1 + |Source(rest)|)
  {
    hide AtomsSource, AtomsValue, HasAt, ProperAtoms;
    var w := Word([line[p]] + rest.bare, rest.quoted);
    HasOne(line, p, line[p]);
    HasMore(line, p, [line[p]], Source(rest));
    assert Source(w) == [line[p]] + Source(rest);
    assert cur + Value(w) == cur + [line[p]] + Value(rest);
  }

  /** The word that begins where blanks have been skipped. */
  lemma FirstWord(line: Bytes, q: nat, w: Word)
    requires q < |line| && NUL !in line && !IsSpace(line[q]) && ProperParts(w) && HasAt(line, q, Source(w))
    requires q + |Source(w)| <= |line| && MayFollow(w, line[q + |Source(w)|..])
    ensures ProperWord(w) && Source(w) != []
  {
    assert line[q] in line;
    assert line[q..][0] == line[q];
    BytesAt(line, q, Source(w));
    if w.bare != [] {
      assert At(line, q + 0) == Source(w)[0] == w.bare[0];
    }
  }

  lemma LineCons(w: Word, g: Bytes, words: seq<Word>, gaps: seq<Bytes>)
    requires ProperLine(words, gaps) && Blanks(g) && ProperWord(w) && MayFollow(w, gaps[0])
    requires words != [] ==> gaps[0] != []
    ensures ProperLine([w] + words, [g] + gaps)
    ensures Written([w] + words, [g] + gaps) == g + (Source(w) + Written(words, gaps))
  {
    hide ProperWord, Source, Value, Blanks, MayFollow;
    var ws, gs := [w] + words, [g] + gaps;
    assert ws[1..] == words && gs[1..] == gaps;
    assert forall i :: 0 < i < |gs| ==> gs[i] == gaps[i - 1];
    assert forall i :: 0 < i < |ws| ==> ws[i] == words[i - 1];
  }

  lemma WiderGap(g: Bytes, words: seq<Word>, gaps: seq<Bytes>)
    requires ProperLine(words, gaps) && Blanks(g)
    ensures var gs := [g + gaps[0]] + gaps[1..]; ProperLine(words, gs) && Written(words, gs) == g + Written(words, gaps)
  {
    hide ProperWord, Source, MayFollow;
    var gs := [g + gaps[0]] + gaps[1..];
    assert gs[1..] == gaps[1..];
    assert forall i :: 0 < i < |gs| ==> gs[i] == gaps[i];
    var rest := if words == [] then [] else Source(words[0]) + Written(words[1..], gaps[1..]);
    assert Written(words, gs) == g + gaps[0] + rest && Written(words, gaps) == gaps[0] + rest;
  }

  lemma {:induction false} BlanksBefore(line: Bytes, p: nat)
    requires p <= |line|
    ensures Blanks(line[p..SkipBlanks(line, p)])
    decreases |line| - p
  {
    if p < |line| && At(line, p) != NUL && IsSpace(At(line, p)) {
      BlanksBefore(line, p + 1);
      var q := SkipBlanks(line, p);
      assert line[p..q] == [line[p]] + line[p + 1..q];
    }
  }

  /** A line that splits is written as words and blanks. */
  lemma {:induction false} SplitInverse(line: Bytes, p: nat) returns (words: seq<Word>, gaps: seq<Bytes>)
    requires p <= |line| && NUL !in line && Split(line, p).Some?
    ensures ProperLine(words, gaps) && line[p..] == Written(words, gaps) && gaps[0] == line[p..SkipBlanks(line, p)]
    decreases |line| - p
  {
    hide *;
    BlanksBefore(line, p);
    var q := SkipBlanks(line, p);
    var g := line[p..q];
    SplitCases(line, p);
    if q == |line| {
      words, gaps := [], [g];
      OnlyBlanks(g);
    } else {
      var w := TokenInverse(line, q, []);
      FirstWord(line, q, w);
      var n := q + |Source(w)|;
      OnwardIs(line, w, n);
      var next := Onward(line, w, n);
      var ws, gs := SplitInverse(line, next);
      LineParts(ws, gs);
      if next > n {
        assert line[n..] == [line[n]] + line[n + 1..];
        WiderGap([line[n]], ws, gs);
        gs := [[line[n]] + gs[0]] + gs[1..];
      } else {
        GapThere(line, n, w, ws, gs);
      }
      NextGap(w, ws, gs);
      HasSource(line, q, w);
      LineCons(w, g, ws, gs);
      assert line[p..] == g + line[q..];
      words, gaps := [w] + ws, [g] + gs;
    }
  }

  lemma HasSource(line: Bytes, q: nat, w: Word)
    requires HasAt(line, q, Source(w))
    ensures q + |Source(w)| <= |line| && line[q..] == Source(w) + line[q + |Source(w)|..]
  {
    hide Source;
    var n := q + |Source(w)|;
    assert line[q..] == line[q..n] + line[n..];
  }

  lemma NextGap(w: Word, words: seq<Word>, gaps: seq<Bytes>)
    requires ProperLine(words, gaps) && MayFollow(w, Written(words, gaps)) && (words != [] ==> gaps[0] != [])
    ensures MayFollow(w, gaps[0])
  {
    hide ProperWord, Source, Blanks;
    assert gaps[0] != [] ==> Written(words, gaps)[0] == gaps[0][0];
  }

  lemma OnlyBlanks(g: Bytes)
    requires Blanks(g)
    ensures ProperLine([], [g]) && Written([], [g]) == g
  {
    assert g + [] == g;
  }

  lemma SplitCases(line: Bytes, p: nat)
    requires p <= |line| && NUL !in line && Split(line, p).Some?
    ensures var q := SkipBlanks(line, p);
      q < |line| ==>
        && !IsSpace(line[q]) && Token(line, q, false, []).Done? && q < Token(line, q, false, []).next
        && Split(line, Token(line, q, false, []).next).Some?
  {
    var q := SkipBlanks(line, p);
    assert q < |line| ==> line[q] in line;
    hide Token;
  }

  lemma OnwardIs(line: Bytes, w: Word, n: nat)
    requires n <= |line| && MayFollow(w, line[n..])
    ensures n <= Onward(line, w, n) <= |line| &&
      (Onward(line, w, n) > n ==> Onward(line, w, n) == n + 1 && Blanks([line[n]]))
  {
    assert n < |line| ==> line[n..][0] == line[n];
  }

  /** Words are kept apart by blanks. */
  lemma GapThere(line: Bytes, n: nat, w: Word, words: seq<Word>, gaps: seq<Bytes>)
    requires n <= |line| && NUL !in line && MayFollow(w, line[n..]) && Onward(line, w, n) == n
    requires ProperLine(words, gaps) && line[n..] == Written(words, gaps) && gaps[0] == line[n..SkipBlanks(line, n)]
    ensures words != [] ==> gaps[0] != []
  {
    if words != [] {
      LineParts(words, gaps);
      WordNotEmpty(words[0]);
      assert n < |line|;
      assert line[n] in line && line[n..][0] == line[n];
      assert SkipBlanks(line, n) == SkipBlanks(line, n + 1);
    }
  }

  lemma WordNotEmpty(w: Word)
    requires ProperWord(w)
    ensures Source(w) != []
  {
  }

  /** Exactly the lines made of words and blanks split, and each word gives one argument: its bare bytes, and those of
      its quoted part with the escapes read. */
  lemma SplitExactly(line: Bytes, v: seq<Bytes>)
    requires NUL !in line
    ensures Split(line, 0) == Some(v) <==>
      exists words, gaps :: ProperLine(words, gaps) && line == Written(words, gaps) && v == Values(words)
  {
    hide Split, Token, ProperWord, Source, Value, Blanks, MayFollow;
    assert line[0..] == line;
    if words, gaps :| ProperLine(words, gaps) && line == Written(words, gaps) && v == Values(words) {
      WrittenSplits(line, 0, words, gaps);
    }
    if Split(line, 0) == Some(v) {
      var words, gaps := SplitInverse(line, 0);
      WrittenSplits(line, 0, words, gaps);
      assert ProperLine(words, gaps) && line == Written(words, gaps) && v == Values(words);
    }
  }

  lemma {:induction false} TokenToNul(line: Bytes, n: nat, p: nat, inq: bool, cur: Bytes)
    requires p <= n < |line| && line[n] == NUL
    ensures Token(line, p, inq, cur) == Token(line[..n], p, inq, cur)
    decreases n - p
  {
    var c := At(line, p);
    assert At(line[..n], p) == c;
    assert c != NUL ==> p < n && At(line[..n], p + 1) == At(line, p + 1);
    if c != NUL {
      if inq && c == BACKSLASH && At(line, p + 1) != NUL {
        TokenToNul(line, n, p + 2, true, cur + [Unescaped(At(line, p + 1))]);
      } else if !inq && c == QUOTE {
        TokenToNul(line, n, p + 1, true, cur);
      } else {
        TokenToNul(line, n, p + 1, inq, cur + [c]);
      }
    }
  }

  lemma {:induction false} SkipToNul(line: Bytes, n: nat, p: nat)
    requires p <= n < |line| && line[n] == NUL
    ensures SkipBlanks(line, p) == SkipBlanks(line[..n], p)
    decreases n - p
  {
    if p < n && IsSpace(line[p]) { SkipToNul(line, n, p + 1); }
  }

  /** A line is read up to its first NUL. */
  lemma {:induction false} SplitToNul(line: Bytes, n: nat, p: nat)
    requires p <= n < |line| && line[n] == NUL
    ensures Split(line, p) == Split(line[..n], p)
    decreases n - p
  {
    SkipToNul(line, n, p);
    var q := SkipBlanks(line, p);
    assert At(line[..n], q) == At(line, q);
    if At(line, q) != NUL {
      TokenToNul(line, n, q, false, []);
      var t := Token(line, q, false, []);
      hide Token;
      if t.Done? { SplitToNul(line, n, t.next); }
    }
  }

  // ---------- what sdscatrepr writes ----------

  /** The value of a hexadecimal digit as C reads it. */
  function HexValue(c: Byte): int {
    if '0' <= c <= '9' then c as int - '0' as int else if 'a' <= c <= 'f' then c as int - 'a' as int + 10 else -1
  }

  /** One byte is written in printable characters only: itself, its escape, or a backslash, an x and its two digits. */
  lemma EscapedMeans(c: Byte)
    ensures forall d :: d in Escaped(c) ==> IsPrint(d)
    ensures Safe(c) ==>
      Escaped(c) == [c] || (|Escaped(c)| == 2 && Escaped(c)[0] == BACKSLASH && Unescaped(Escaped(c)[1]) == c)
    ensures !Safe(c) ==>
      && |Escaped(c)| == 4 && Escaped(c)[..2] == [BACKSLASH, 'x']
      && HexValue(Escaped(c)[2]) * 16 + HexValue(Escaped(c)[3]) == c as int
  {
  }

  /** What is quoted is written in printable characters only. */
  lemma {:induction false} QuotedPrints(p: Bytes)
    ensures forall d :: d in Quoted(p) ==> IsPrint(d)
  {
    BodyPrints(p);
    hide Body;
  }

  lemma {:induction false} BodyPrints(p: Bytes)
    ensures forall d :: d in Body(p) ==> IsPrint(d)
  {
    if p != [] {
      EscapedMeans(p[0]);
      BodyPrints(p[1..]);
    }
  }
}
