/**
 SQL as text: the quoting the printers share (delimited identifiers and character literals of
 ISO/IEC 9075:1992, sections 5.2 and 5.3), decimal numbers, and a small lexer that reads
 printed statements back.

 `Open` and `Closed` are a calculus for what a piece of text lexes to inside a larger text, so
 that a printer built from format strings is read back piece by piece.
 */
module SqlText {
  import opened Prelude

  // ---- decimal numbers --------------------------------------------------------------------

  predicate IsDigit(c: char) { '0' <= c <= '9' }

  function DigitChar(d: nat): char
    requires d < 10
  {
    ((d + '0' as int) as char)
  }

  function DigitValue(c: char): nat
    requires IsDigit(c)
  {
    c as int - '0' as int
  }

  function Dec(n: nat): string {
    if n < 10 then [DigitChar(n)] else Dec(n / 10) + [DigitChar(n % 10)]
  }

  function SignedDec(i: int): string {
    if i < 0 then "-" + Dec(-i) else Dec(i)
  }

  /** The number a run of digits stands for; other characters are not expected in `s`. */
  function DecValue(s: string): nat
    requires forall i :: 0 <= i < |s| ==> IsDigit(s[i])
  {
    if s == "" then 0 else DecValue(s[..|s| - 1]) * 10 + DigitValue(s[|s| - 1])
  }

  lemma {:induction false} DecReadBack(n: nat)
    ensures |Dec(n)| > 0 && forall i :: 0 <= i < |Dec(n)| ==> IsDigit(Dec(n)[i])
    ensures DecValue(Dec(n)) == n
  {
    if n >= 10 {
      DecReadBack(n / 10);
      assert Dec(n)[..|Dec(n)| - 1] == Dec(n / 10);
    } else {
      assert Dec(n)[..0] == "";
    }
  }

  /** A whole text read as an optionally negative decimal number. */
  function ReadInt(s: string): Option<int> {
    if |s| > 0 && s[0] == '-' then
      if |s| > 1 && DigitRun(s[1..]) == |s| - 1 then Some(0 - DecValue(s[1..])) else None
    else if |s| > 0 && DigitRun(s) == |s| then Some(DecValue(s))
    else None
  }

  lemma ReadIntSignedDec(i: int)
    ensures ReadInt(SignedDec(i)) == Some(i)
  {
    DecReadBack(if i < 0 then -i else i);
    if i < 0 {
      assert SignedDec(i)[1..] == Dec(-i);
      DigitRunAll(Dec(-i));
    } else {
      DigitRunAll(Dec(i));
    }
  }

  // ---- quoting ----------------------------------------------------------------------------

  /** Every `q` in `s` written twice. */
  function Doubled(s: string, q: char): string {
    if s == "" then "" else (if s[0] == q then [q, q] else [s[0]]) + Doubled(s[1..], q)
  }

  function QuoteIdent(name: string): string {
    "\"" + Doubled(name, '"') + "\""
  }

  function QuoteLiteral(text: string): string {
    "'" + Doubled(text, '\'') + "'"
  }

  /** `Vec::join`. */
  function Join(parts: seq<string>, sep: string): string {
    if parts == [] then ""
    else if |parts| == 1 then parts[0]
    else parts[0] + sep + Join(parts[1..], sep)
  }

  // ---- lexer ------------------------------------------------------------------------------

  datatype Tok =
    | Ident(name: string)
    | Str(text: string)
    | Param(index: nat)
    | Num(digits: string)
    | Word(word: string)
    | Sym(c: char)

  datatype Lexed = Done | Bad | Next(tok: Tok, rest: string)

  predicate IsSpace(c: char) {
    c == ' ' || c == '\t' || c == '\n' || c == '\r' || c == '\U{000C}'
  }

  /** White space to the server; its lexer also skips the vertical tab. */
  predicate IsBlank(c: char) { IsSpace(c) || c == '\U{000B}' }

  predicate IsAlpha(c: char) { 'a' <= c <= 'z' || 'A' <= c <= 'Z' }

  predicate IsWordChar(c: char) { IsAlpha(c) || IsDigit(c) || c == '_' }

  /** The characters of words, and white space, one by one. */
  lemma CharactersAre(c: char)
    ensures IsAlpha(c) <==> c in "abcdefghijklmnopqrstuvwxyz" || c in "ABCDEFGHIJKLMNOPQRSTUVWXYZ"
    ensures IsDigit(c) <==> c in "0123456789"
    ensures IsWordChar(c) <==> IsAlpha(c) || IsDigit(c) || c in "_"
    ensures IsSpace(c) <==> c in " \t\n\U{000C}\r"
  {
    InRow("abcdefghijklmnopqrstuvwxyz", c);
    InRow("ABCDEFGHIJKLMNOPQRSTUVWXYZ", c);
    InRow("0123456789", c);
  }

  /** Characters that follow one another. */
  lemma InRow(row: string, c: char)
    requires row != "" && forall k :: 0 <= k < |row| ==> row[k] as int == row[0] as int + k
    ensures c in row <==> row[0] as int <= c as int < row[0] as int + |row|
  {
    if row[0] as int <= c as int < row[0] as int + |row| {
      assert row[c as int - row[0] as int] == c;
    }
  }

  /** The text after the `*` `/` that closes `depth` open comments, or None when none does. */
  function AfterComment(s: string, depth: nat): (r: Option<string>)
    ensures r.Some? ==> |r.value| <= |s|
  {
    if depth == 0 then Some(s)
    else if |s| < 2 then None
    else if s[0] == '*' && s[1] == '/' then AfterComment(s[2..], depth - 1)
    else if s[0] == '/' && s[1] == '*' then AfterComment(s[2..], depth + 1)
    else AfterComment(s[1..], depth)
  }

  /** The text from the end of the line on; a carriage return ends it too. */
  function AfterLine(s: string): (r: string)
    ensures |r| <= |s|
  {
    if s == "" || s[0] == '\n' || s[0] == '\r' then s else AfterLine(s[1..])
  }

  /** `s` without leading white space and comments; a comment that never ends stays. */
  function Skip(s: string): (r: string)
    ensures |r| <= |s|
    decreases |s|
  {
    if s == "" then s
    else if IsBlank(s[0]) then Skip(s[1..])
    else if |s| > 1 && s[0] == '-' && s[1] == '-' then Skip(AfterLine(s[2..]))
    else if |s| > 1 && s[0] == '/' && s[1] == '*' then
      var r := AfterComment(s[2..], 1);
      if r.Some? then Skip(r.value) else s
    else s
  }

  function DigitRun(s: string): (k: nat)
    ensures k <= |s| && forall i :: 0 <= i < k ==> IsDigit(s[i])
  {
    if s != "" && IsDigit(s[0]) then 1 + DigitRun(s[1..]) else 0
  }

  function WordRun(s: string): (k: nat)
    ensures k <= |s| && forall i :: 0 <= i < k ==> IsWordChar(s[i])
  {
    if s != "" && IsWordChar(s[0]) then 1 + WordRun(s[1..]) else 0
  }

  /** The content of a quoted text after its opening `q`, and what follows the closing one. */
  function ReadQuoted(s: string, q: char): (r: Option<(string, string)>)
    ensures r.Some? ==> |r.value.1| < |s|
    decreases |s|
  {
    if s == "" then None
    else if s[0] == q then
      if |s| > 1 && s[1] == q then
        var r := ReadQuoted(s[2..], q);
        if r.None? then None else Some(([q] + r.value.0, r.value.1))
      else Some(("", s[1..]))
    else
      var r := ReadQuoted(s[1..], q);
      if r.None? then None else Some(([s[0]] + r.value.0, r.value.1))
  }

  /** One token of a text that starts with neither white space nor a comment. */
  function TokenAt(t: string): (r: Lexed)
    requires t != ""
    ensures r.Next? ==> |r.rest| < |t|
  {
    if t[0] == '"' then
      var r := ReadQuoted(t[1..], '"');
      if r.None? then Bad else Next(Ident(r.value.0), r.value.1)
    else if t[0] == '\'' then
      var r := ReadQuoted(t[1..], '\'');
      if r.None? then Bad else Next(Str(r.value.0), r.value.1)
    else if t[0] == '$' && |t| > 1 && IsDigit(t[1]) then
      var k := DigitRun(t[1..]);
      Next(Param(DecValue(t[1..][..k])), t[1..][k..])
    else if IsDigit(t[0]) then
      var k := DigitRun(t);
      Next(Num(t[..k]), t[k..])
    else if IsAlpha(t[0]) || t[0] == '_' then
      var k := WordRun(t);
      Next(Word(t[..k]), t[k..])
    else Next(Sym(t[0]), t[1..])
  }

  function NextTok(s: string): (r: Lexed)
    ensures r.Next? ==> |r.rest| < |s|
  {
    var t := Skip(s);
    if t == "" then Done else TokenAt(t)
  }

  function Cons(tok: Tok, r: Option<seq<Tok>>): Option<seq<Tok>> {
    if r.None? then None else Some([tok] + r.value)
  }

  /** The tokens of a text, or None when a quoted text in it never ends. */
  function Lex(s: string): Option<seq<Tok>>
    decreases |s|
  {
    match NextTok(s)
    case Done => Some([])
    case Bad => None
    case Next(tok, rest) => Cons(tok, Lex(rest))
  }

  // ---- what a piece of text lexes to ------------------------------------------------------

  function Prepend(ts: seq<Tok>, r: Option<seq<Tok>>): Option<seq<Tok>> {
    if r.None? then None else Some(ts + r.value)
  }

  /** `rest` does not go on with a word, a number or a quoted text. */
  predicate Delim(rest: string) {
    rest == "" || !(IsWordChar(rest[0]) || rest[0] == '"' || rest[0] == '\'')
  }

  /** `a` lexes to `ts` when `rest` follows it. */
  ghost predicate Before(a: string, ts: seq<Tok>, rest: string) {
    Lex(a + rest) == Prepend(ts, Lex(rest))
  }

  /** `a` lexes to `ts` whatever follows. */
  ghost predicate Open(a: string, ts: seq<Tok>) {
    forall rest: string :: Before(a, ts, rest)
  }

  /** `a` lexes to `ts` when a delimiter follows. */
  ghost predicate Closed(a: string, ts: seq<Tok>) {
    forall rest: string :: Delim(rest) ==> Before(a, ts, rest)
  }

  lemma LexWhole(a: string, ts: seq<Tok>)
    requires Closed(a, ts)
    ensures Lex(a) == Some(ts)
  {
    assert a + "" == a;
    assert Before(a, ts, "");
    assert Lex("") == Some([]) && ts + [] == ts;
  }

  lemma BeforeTwice(a: string, ts: seq<Tok>, b: string, us: seq<Tok>, rest: string)
    requires Before(a, ts, b + rest) && Before(b, us, rest)
    ensures Before(a + b, ts + us, rest)
  {
    assert a + b + rest == a + (b + rest);
    if Lex(rest).Some? {
      assert ts + (us + Lex(rest).value) == ts + us + Lex(rest).value;
    }
  }

  lemma OpenOpen(a: string, ts: seq<Tok>, b: string, us: seq<Tok>)
    requires Open(a, ts) && Open(b, us)
    ensures Open(a + b, ts + us)
  {
    forall rest: string ensures Before(a + b, ts + us, rest) {
      BeforeTwice(a, ts, b, us, rest);
    }
  }

  lemma OpenClosed(a: string, ts: seq<Tok>, b: string, us: seq<Tok>)
    requires Open(a, ts) && Closed(b, us)
    ensures Closed(a + b, ts + us)
  {
    forall rest: string | Delim(rest) ensures Before(a + b, ts + us, rest) {
      BeforeTwice(a, ts, b, us, rest);
    }
  }

  lemma ClosedOpen(a: string, ts: seq<Tok>, b: string, us: seq<Tok>)
    requires Closed(a, ts) && Open(b, us) && b != "" && Delim(b)
    ensures Open(a + b, ts + us)
  {
    forall rest: string ensures Before(a + b, ts + us, rest) {
      assert Delim(b + rest);
      BeforeTwice(a, ts, b, us, rest);
    }
  }

  lemma ClosedClosed(a: string, ts: seq<Tok>, b: string, us: seq<Tok>)
    requires Closed(a, ts) && Closed(b, us) && b != "" && Delim(b)
    ensures Closed(a + b, ts + us)
  {
    forall rest: string | Delim(rest) ensures Before(a + b, ts + us, rest) {
      assert Delim(b + rest);
      BeforeTwice(a, ts, b, us, rest);
    }
  }

  // ---- the pieces -------------------------------------------------------------------------

  lemma {:induction false} DigitRunAll(d: string)
    requires forall i :: 0 <= i < |d| ==> IsDigit(d[i])
    ensures DigitRun(d) == |d|
  {
    if d != "" { DigitRunAll(d[1..]); }
  }

  lemma {:induction false} DigitRunStops(d: string, rest: string)
    requires forall i :: 0 <= i < |d| ==> IsDigit(d[i])
    requires rest == "" || !IsDigit(rest[0])
    ensures DigitRun(d + rest) == |d|
  {
    if d == "" {
      assert d + rest == rest;
    } else {
      assert (d + rest)[1..] == d[1..] + rest;
      DigitRunStops(d[1..], rest);
    }
  }

  lemma {:induction false} WordRunStops(w: string, rest: string)
    requires forall i :: 0 <= i < |w| ==> IsWordChar(w[i])
    requires rest == "" || !IsWordChar(rest[0])
    ensures WordRun(w + rest) == |w|
  {
    if w == "" {
      assert w + rest == rest;
    } else {
      assert (w + rest)[1..] == w[1..] + rest;
      WordRunStops(w[1..], rest);
    }
  }

  /** Quoting undoes itself: the reader gives back the content, for every content. */
  lemma {:induction false} ReadQuotedBack(s: string, q: char, rest: string)
    requires rest == "" || rest[0] != q
    ensures ReadQuoted(Doubled(s, q) + [q] + rest, q) == Some((s, rest))
  {
    var t := Doubled(s, q) + [q] + rest;
    if s == "" {
      assert t == [q] + rest && t[1..] == rest;
    } else {
      var u := Doubled(s[1..], q) + [q] + rest;
      ReadQuotedBack(s[1..], q, rest);
      if s[0] == q {
        assert t == [q, q] + u && t[2..] == u;
      } else {
        assert t == [s[0]] + u && t[0] != q && t[1..] == u;
      }
      assert [s[0]] + s[1..] == s;
    }
  }

  lemma IdentPiece(name: string)
    ensures Closed(QuoteIdent(name), [Ident(name)])
  {
    forall rest: string | Delim(rest)
      ensures Before(QuoteIdent(name), [Ident(name)], rest)
    {
      var t := QuoteIdent(name) + rest;
      assert t[1..] == Doubled(name, '"') + ['"'] + rest;
      ReadQuotedBack(name, '"', rest);
      assert Skip(t) == t;
    }
  }

  lemma LiteralPiece(text: string)
    ensures Closed(QuoteLiteral(text), [Str(text)])
  {
    forall rest: string | Delim(rest)
      ensures Before(QuoteLiteral(text), [Str(text)], rest)
    {
      var t := QuoteLiteral(text) + rest;
      assert t[1..] == Doubled(text, '\'') + ['\''] + rest;
      ReadQuotedBack(text, '\'', rest);
      assert Skip(t) == t;
    }
  }

  predicate Digits(d: string) {
    d != "" && forall i :: 0 <= i < |d| ==> IsDigit(d[i])
  }

  /** Digits are a number, whatever other than a digit follows. */
  lemma NumBefore(d: string, rest: string)
    requires Digits(d) && (rest == "" || !IsDigit(rest[0]))
    ensures Before(d, [Num(d)], rest)
  {
    var t := d + rest;
    DigitRunStops(d, rest);
    assert IsDigit(t[0]) && Skip(t) == t;
    assert t[..|d|] == d && t[|d|..] == rest;
  }

  lemma ParamPiece(n: nat)
    ensures Closed("$" + Dec(n), [Param(n)])
  {
    DecReadBack(n);
    forall rest: string | Delim(rest)
      ensures Before("$" + Dec(n), [Param(n)], rest)
    {
      ParamBefore(Dec(n), n, rest);
    }
  }

  lemma ParamBefore(digits: string, n: nat, rest: string)
    requires digits != "" && (forall i :: 0 <= i < |digits| ==> IsDigit(digits[i])) && DecValue(digits) == n
    requires Delim(rest)
    ensures Before("$" + digits, [Param(n)], rest)
  {
    hide Lex, DigitRun, DecValue;
    var u := digits + rest;
    DigitRunStops(digits, rest);
    assert u[..|digits|] == digits && u[|digits|..] == rest && u[0] == digits[0];
    ParamToken(u);
    assert "$" + digits + rest == "$" + u;
  }

  lemma ParamToken(u: string)
    requires u != "" && IsDigit(u[0])
    ensures Lex("$" + u) == Prepend([Param(DecValue(u[..DigitRun(u)]))], Lex(u[DigitRun(u)..]))
  {
    var t := "$" + u;
    assert t[1..] == u && Skip(t) == t;
    LexToken(t, Param(DecValue(u[..DigitRun(u)])), u[DigitRun(u)..]);
  }

  lemma LexToken(t: string, tok: Tok, rest: string)
    requires t != "" && Skip(t) == t && TokenAt(t) == Next(tok, rest)
    ensures Lex(t) == Prepend([tok], Lex(rest))
  {
    hide TokenAt, Skip;
  }

  predicate IsWord(w: string) {
    w != "" && (IsAlpha(w[0]) || w[0] == '_') && forall i :: 0 <= i < |w| ==> IsWordChar(w[i])
  }

  lemma WordPiece(w: string)
    requires IsWord(w)
    ensures Closed(w, [Word(w)])
  {
    forall rest: string | Delim(rest)
      ensures Before(w, [Word(w)], rest)
    {
      var t := w + rest;
      WordRunStops(w, rest);
      assert Skip(t) == t;
      assert t[..|w|] == w && t[|w|..] == rest;
    }
  }

  /** Characters that are a token of their own wherever they stand. */
  predicate IsSym(c: char) {
    c == ',' || c == '(' || c == ')' || c == '=' || c == '>' || c == '.' || c == ';' || c == '*'
  }

  lemma SymPiece(c: char)
    requires IsSym(c)
    ensures Open([c], [Sym(c)])
  {
    forall rest: string
      ensures Before([c], [Sym(c)], rest)
    {
      var t := [c] + rest;
      assert t[0] == c && t[1..] == rest;
      assert Skip(t) == t;
      assert TokenAt(t) == Next(Sym(c), rest);
    }
  }

  lemma SpacePiece(c: char)
    requires IsBlank(c)
    ensures Open([c], [])
  {
    forall rest: string
      ensures Before([c], [], rest)
    {
      var t := [c] + rest;
      assert t[1..] == rest && Skip(t) == Skip(rest);
      assert Lex(t) == Lex(rest);
      if Lex(rest).Some? { assert [] + Lex(rest).value == Lex(rest).value; }
    }
  }

  /** A word with a space on each side. */
  lemma SpacedWordPiece(w: string)
    requires IsWord(w)
    ensures Open(" " + w + " ", [Word(w)])
  {
    SpacePiece(' ');
    WordPiece(w);
    OpenClosed(" ", [], w, [Word(w)]);
    ClosedOpen(" " + w, [] + [Word(w)], " ", []);
    assert [] + [Word(w)] + [] == [Word(w)];
  }

  /** A word that begins a statement, with the space after it. */
  lemma LeadingWordPiece(w: string)
    requires IsWord(w)
    ensures Open(w + " ", [Word(w)])
  {
    SpacePiece(' ');
    WordPiece(w);
    ClosedOpen(w, [Word(w)], " ", []);
    assert [Word(w)] + [] == [Word(w)];
  }

  lemma CommaPiece()
    ensures Open(", ", [Sym(',')])
  {
    SymPiece(',');
    SpacePiece(' ');
    OpenOpen(",", [Sym(',')], " ", []);
    assert [Sym(',')] + [] == [Sym(',')];
    assert "," + " " == ", ";
  }

  /** Token lists with a separator between them. */
  function JoinToks(parts: seq<seq<Tok>>, sep: seq<Tok>): seq<Tok> {
    if parts == [] then []
    else if |parts| == 1 then parts[0]
    else parts[0] + sep + JoinToks(parts[1..], sep)
  }

  /** A joined list lexes to the joined tokens of its parts. */
  lemma {:induction false} JoinPiece(parts: seq<string>, toks: seq<seq<Tok>>, sep: string, sepToks: seq<Tok>)
    requires |parts| == |toks| > 0
    requires forall i :: 0 <= i < |parts| ==> Closed(parts[i], toks[i])
    requires Open(sep, sepToks) && sep != "" && Delim(sep)
    ensures Closed(Join(parts, sep), JoinToks(toks, sepToks))
  {
    if |parts| > 1 {
      JoinPiece(parts[1..], toks[1..], sep, sepToks);
      ClosedOpen(parts[0], toks[0], sep, sepToks);
      OpenClosed(parts[0] + sep, toks[0] + sepToks, Join(parts[1..], sep), JoinToks(toks[1..], sepToks));
    }
  }
}
