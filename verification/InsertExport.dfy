/**
 The exported `INSERT INTO ... VALUES ...;` and a reader for it: what is read back is the table,
 the columns and every row, whatever quotes the names and texts contain.
 */
module InsertExport {
  import opened Prelude
  import opened SqlText
  import opened SqlStatements
  import opened Values
  import Utf8
  import opened TableBrowser

  datatype Literal = NullLit | BoolLit(b: bool) | NumLit(shown: string) | TextLit(s: string)

  datatype InsertStmt = Insert(table: string, columns: seq<string>, rows: seq<seq<Literal>>)

  // ---- the printer ------------------------------------------------------------------------

  /** `sql_literal`. */
  function CellText(c: CellValue): string {
    match c
    case Null => "NULL"
    case Bool(b) => if b then "true" else "false"
    case SmallInt(i) => SignedDec(i)
    case Int(i) => SignedDec(i)
    case BigInt(i) => SignedDec(i)
    case Float(t) => t
    case Double(t) => t
    case Numeric(t) => t
    case _ => QuoteLiteral(DisplayString(c))
  }

  function CellTexts(cells: seq<CellValue>): (ts: seq<string>)
    ensures |ts| == |cells| && forall i :: 0 <= i < |cells| ==> ts[i] == CellText(cells[i])
  {
    seq(|cells|, i requires 0 <= i < |cells| => CellText(cells[i]))
  }

  function RowText(r: Row): string {
    "(" + Join(CellTexts(r.cells), ", ") + ")"
  }

  function RowTexts(rows: seq<Row>): (ts: seq<string>)
    ensures |ts| == |rows| && forall i :: 0 <= i < |rows| ==> ts[i] == RowText(rows[i])
  {
    seq(|rows|, i requires 0 <= i < |rows| => RowText(rows[i]))
  }

  function HeadText(table: string, columns: seq<string>): string {
    "INSERT INTO " + QuoteIdent(table) + " (" + Join(QuoteAll(columns), ", ") + ") VALUES\n"
  }

  const NO_ROWS: string := "-- no rows to export"

  lemma {:induction false} JoinLast(parts: seq<string>, last: string, sep: string)
    ensures Join(parts + [last], sep) == if parts == [] then last else Join(parts, sep) + sep + last
  {
    if parts == [] {
      assert parts + [last] == [last];
    } else {
      assert (parts + [last])[0] == parts[0] && (parts + [last])[1..] == parts[1..] + [last];
      JoinLast(parts[1..], last, sep);
      if |parts| == 1 { assert parts[1..] + [last] == [last]; }
    }
  }

  method ExportSqlInsert(table: string, columns: seq<string>, rows: seq<Row>) returns (sql: string)
    ensures rows == [] ==> sql == NO_ROWS
    ensures rows != [] ==> sql == HeadText(table, columns) + Join(RowTexts(rows), ",\n") + ";"
  {
    hide RowText, HeadText;
    if rows == [] {
      return NO_ROWS;
    }
    var out := HeadText(table, columns);
    ghost var head := out;
    assert head + "" == head && RowTexts(rows)[..0] == [];
    for i := 0 to |rows|
      invariant out == head + Join(RowTexts(rows)[..i], ",\n")
    {
      assert RowTexts(rows)[..i + 1] == RowTexts(rows)[..i] + [RowText(rows[i])];
      JoinLast(RowTexts(rows)[..i], RowText(rows[i]), ",\n");
      if i > 0 {
        out := out + ",\n";
      }
      out := out + RowText(rows[i]);
    }
    assert RowTexts(rows)[..|rows|] == RowTexts(rows);
    return out + ";";
  }

  // ---- the reader -------------------------------------------------------------------------

  /** Digits behind the letter of an exponent. */
  predicate ExponentWord(w: string) {
    |w| > 1 && (w[0] == 'e' || w[0] == 'E') && Digits(w[1..])
  }

  function ParseExponent(ts: seq<Tok>): (r: (string, seq<Tok>))
    ensures |r.1| <= |ts|
  {
    if ts == [] || !ts[0].Word? then ("", ts)
    else if ExponentWord(ts[0].word) then (ts[0].word, ts[1..])
    else if
      (ts[0].word == "e" || ts[0].word == "E") &&
      |ts| > 2 && (ts[1] == Sym('-') || ts[1] == Sym('+')) && ts[2].Num?
    then
      (ts[0].word + [ts[1].c] + ts[2].digits, ts[3..])
    else ("", ts)
  }

  function ParseFraction(ts: seq<Tok>): (r: (string, seq<Tok>))
    ensures |r.1| <= |ts|
  {
    if |ts| > 1 && ts[0] == Sym('.') && ts[1].Num? then ("." + ts[1].digits, ts[2..]) else ("", ts)
  }

  /** A number without a sign, as it is written. */
  function ParseNumber(ts: seq<Tok>): (r: Option<(string, seq<Tok>)>)
    ensures r.Some? ==> |r.value.1| < |ts|
  {
    if ts == [] || !ts[0].Num? then None
    else
      var (fraction, r1) := ParseFraction(ts[1..]);
      var (exponent, r2) := ParseExponent(r1);
      Some((ts[0].digits + (fraction + exponent), r2))
  }

  /** Words to be read as numbers, with or without a sign, and whether lists may be empty. */
  datatype Leniency = Lenient(words: set<string>, empty: bool)

  /** The server knows no such words, and no empty lists. */
  const STRICT: Leniency := Lenient({}, false)

  /** The words are those a library writes for floats that are no numbers. */
  const LAX: Leniency := Lenient({"NaN", "inf"}, true)

  predicate IsBareWord(w: string, lax: Leniency) {
    w in lax.words && IsWord(w) && w != "NULL" && w != "true" && w != "false"
  }

  function ParseLiteral(ts: seq<Tok>, lax: Leniency): (r: Option<(Literal, seq<Tok>)>)
    ensures r.Some? ==> |r.value.1| < |ts|
  {
    if ts == [] then None
    else if ts[0] == Word("NULL") then Some((NullLit, ts[1..]))
    else if ts[0] == Word("true") then Some((BoolLit(true), ts[1..]))
    else if ts[0] == Word("false") then Some((BoolLit(false), ts[1..]))
    else if ts[0].Str? then Some((TextLit(ts[0].text), ts[1..]))
    else if ts[0].Word? && IsBareWord(ts[0].word, lax) then Some((NumLit(ts[0].word), ts[1..]))
    else if ts[0] == Sym('-') && |ts| > 1 && ts[1].Word? && IsBareWord(ts[1].word, lax) then
      Some((NumLit("-" + ts[1].word), ts[2..]))
    else if ts[0] == Sym('-') then
      var (number, rest) :- ParseNumber(ts[1..]);
      Some((NumLit("-" + number), rest))
    else
      var (number, rest) :- ParseNumber(ts);
      Some((NumLit(number), rest))
  }

  function ParseLiterals(ts: seq<Tok>, lax: Leniency): (r: Option<(seq<Literal>, seq<Tok>)>)
    ensures r.Some? ==> |r.value.1| < |ts|
    decreases |ts|
  {
    var (lit, rest) :- ParseLiteral(ts, lax);
    if rest != [] && rest[0] == Sym(',') then
      var (more, r2) :- ParseLiterals(rest[1..], lax);
      Some(([lit] + more, r2))
    else Some(([lit], rest))
  }

  function ParseRow(ts: seq<Tok>, lax: Leniency): (r: Option<(seq<Literal>, seq<Tok>)>)
    ensures r.Some? ==> |r.value.1| < |ts|
  {
    var r0 :- Expect(ts, Sym('('));
    if lax.empty && r0 != [] && r0[0] == Sym(')') then Some(([], r0[1..]))
    else
      var (lits, r1) :- ParseLiterals(r0, lax);
      var r2 :- Expect(r1, Sym(')'));
      Some((lits, r2))
  }

  function ParseRows(ts: seq<Tok>, lax: Leniency): Option<(seq<seq<Literal>>, seq<Tok>)>
    decreases |ts|
  {
    var (row, rest) :- ParseRow(ts, lax);
    if rest != [] && rest[0] == Sym(',') then
      var (more, r2) :- ParseRows(rest[1..], lax);
      Some(([row] + more, r2))
    else Some(([row], rest))
  }

  function ParseNames(ts: seq<Tok>, lax: Leniency): Option<(seq<string>, seq<Tok>)> {
    var r0 :- Expect(ts, Sym('('));
    if lax.empty && r0 != [] && r0[0] == Sym(')') then Some(([], r0[1..]))
    else
      var (names, r1) :- ParseIdents(r0, ',');
      var r2 :- Expect(r1, Sym(')'));
      Some((names, r2))
  }

  function ParseInsert(ts: seq<Tok>, lax: Leniency): Option<InsertStmt> {
    if |ts| < 3 || ts[0] != Word("INSERT") || ts[1] != Word("INTO") || !ts[2].Ident? then None
    else
      var (columns, r1) :- ParseNames(ts[3..], lax);
      var r2 :- Expect(r1, Word("VALUES"));
      var (rows, r3) :- ParseRows(r2, lax);
      if r3 == [Sym(';')] then Some(Insert(ts[2].name, columns, rows)) else None
  }

  function ReadInsert(sql: string, lax: Leniency): Option<InsertStmt> {
    var ts :- Lex(sql);
    ParseInsert(ts, lax)
  }

  // ---- tokens -----------------------------------------------------------------------------

  datatype Exponent = NoExponent | Plain(e: char, digits: string) | Signed(e: char, sign: char, digits: string)

  datatype Number = Number(negative: bool, whole: string, fraction: Option<string>, exponent: Exponent)

  /** A number as PostgreSQL reads one. */
  predicate NumberOk(n: Number) {
    && Digits(n.whole)
    && (n.fraction.Some? ==> Digits(n.fraction.value))
    && (!n.exponent.NoExponent? ==> (n.exponent.e == 'e' || n.exponent.e == 'E') && Digits(n.exponent.digits))
    && (n.exponent.Signed? ==> n.exponent.sign == '-' || n.exponent.sign == '+')
  }

  function ExponentText(x: Exponent): string {
    match x
    case NoExponent => ""
    case Plain(e, digits) => [e] + digits
    case Signed(e, sign, digits) => [e] + [sign] + digits
  }

  function FractionText(f: Option<string>): string {
    if f.None? then "" else "." + f.value
  }

  function UnsignedText(n: Number): string {
    n.whole + (FractionText(n.fraction) + ExponentText(n.exponent))
  }

  function NumberText(n: Number): string {
    (if n.negative then "-" else "") + UnsignedText(n)
  }

  function ExponentToks(x: Exponent): seq<Tok> {
    match x
    case NoExponent => []
    case Plain(e, digits) => [Word([e] + digits)]
    case Signed(e, sign, digits) => [Word([e]), Sym(sign), Num(digits)]
  }

  function FractionToks(f: Option<string>): seq<Tok> {
    if f.None? then [] else [Sym('.'), Num(f.value)]
  }

  function UnsignedToks(n: Number): seq<Tok> {
    [Num(n.whole)] + (FractionToks(n.fraction) + ExponentToks(n.exponent))
  }

  function NumberToks(n: Number): seq<Tok> {
    (if n.negative then [Sym('-')] else []) + UnsignedToks(n)
  }

  ghost predicate Shows(n: Number, s: string) { NumberOk(n) && NumberText(n) == s }

  ghost predicate IsNumber(s: string) {
    exists n :: Shows(n, s)
  }

  ghost function NumberOf(s: string): (n: Number)
    requires IsNumber(s)
    ensures Shows(n, s)
  {
    var n :| Shows(n, s);
    n
  }

  predicate IsBare(s: string, lax: Leniency) {
    IsBareWord(s, lax) || (|s| > 1 && s[0] == '-' && IsBareWord(s[1..], lax))
  }

  ghost predicate LiteralOk(l: Literal, lax: Leniency) {
    l.NumLit? ==> IsNumber(l.shown) || IsBare(l.shown, lax)
  }

  ghost function LitToks(l: Literal, lax: Leniency): (ts: seq<Tok>)
    requires LiteralOk(l, lax)
    ensures ts != [] && ts[0] != Sym(')')
  {
    match l
    case NullLit => [Word("NULL")]
    case BoolLit(b) => [Word(if b then "true" else "false")]
    case NumLit(s) =>
      if IsBareWord(s, lax) then [Word(s)]
      else if IsBare(s, lax) then [Sym('-'), Word(s[1..])]
      else NumberToks(NumberOf(s))
    case TextLit(s) => [Str(s)]
  }

  ghost predicate LiteralsOk(ls: seq<Literal>, lax: Leniency) {
    forall i :: 0 <= i < |ls| ==> LiteralOk(ls[i], lax)
  }

  ghost predicate RowOk(ls: seq<Literal>, lax: Leniency) {
    (ls == [] ==> lax.empty) && LiteralsOk(ls, lax)
  }

  ghost predicate RowsOk(rows: seq<seq<Literal>>, lax: Leniency) {
    forall i :: 0 <= i < |rows| ==> RowOk(rows[i], lax)
  }

  ghost function AllLitToks(ls: seq<Literal>, lax: Leniency): (ts: seq<seq<Tok>>)
    requires LiteralsOk(ls, lax)
    ensures |ts| == |ls| && forall i :: 0 <= i < |ls| ==> ts[i] == LitToks(ls[i], lax)
  {
    seq(|ls|, i requires 0 <= i < |ls| => LitToks(ls[i], lax))
  }

  function Parenthesised(ts: seq<Tok>): seq<Tok> { [Sym('(')] + (ts + [Sym(')')]) }

  ghost function RowToks(ls: seq<Literal>, lax: Leniency): seq<Tok>
    requires RowOk(ls, lax)
  {
    Parenthesised(JoinToks(AllLitToks(ls, lax), [Sym(',')]))
  }

  ghost function AllRowToks(rows: seq<seq<Literal>>, lax: Leniency): (ts: seq<seq<Tok>>)
    requires RowsOk(rows, lax)
    ensures |ts| == |rows| && forall i :: 0 <= i < |rows| ==> ts[i] == RowToks(rows[i], lax)
  {
    seq(|rows|, i requires 0 <= i < |rows| => RowToks(rows[i], lax))
  }

  ghost function InsertToks(q: InsertStmt, lax: Leniency): seq<Tok>
    requires RowsOk(q.rows, lax)
  {
    [Word("INSERT"), Word("INTO"), Ident(q.table)] +
    (Parenthesised(JoinToks(IdentToks(q.columns), [Sym(',')])) +
    ([Word("VALUES")] + (JoinToks(AllRowToks(q.rows, lax), [Sym(',')]) + [Sym(';')])))
  }

  // ---- the reader on the tokens -----------------------------------------------------------

  /** What stands behind a literal in a row. */
  predicate Stops(rest: seq<Tok>) {
    rest == [] || rest[0] == Sym(',') || rest[0] == Sym(')')
  }

  lemma ExponentBack(x: Exponent, rest: seq<Tok>)
    requires Stops(rest) && NumberOk(Number(false, "0", None, x))
    ensures ParseExponent(ExponentToks(x) + rest) == (ExponentText(x), rest)
  {
    var ts := ExponentToks(x) + rest;
    match x
    case NoExponent => assert ts == rest;
    case Plain(e, digits) =>
      assert ([e] + digits)[1..] == digits && ts[1..] == rest;
    case Signed(e, sign, digits) =>
      assert ts[0] == Word([e]) && ts[1] == Sym(sign) && ts[2] == Num(digits) && ts[3..] == rest;
  }

  lemma FractionBack(f: Option<string>, rest: seq<Tok>)
    requires rest == [] || rest[0] != Sym('.')
    ensures ParseFraction(FractionToks(f) + rest) == (FractionText(f), rest)
  {
    var ts := FractionToks(f) + rest;
    if f.None? { assert ts == rest; } else { assert ts[2..] == rest; }
  }

  lemma NumberStep(d: string, body: seq<Tok>, f: string, r1: seq<Tok>, x: string, r2: seq<Tok>)
    requires ParseFraction(body) == (f, r1) && ParseExponent(r1) == (x, r2)
    ensures ParseNumber([Num(d)] + body) == Some((d + (f + x), r2))
  {
    hide ParseFraction, ParseExponent;
    assert ([Num(d)] + body)[1..] == body;
  }

  lemma UnsignedBack(n: Number, rest: seq<Tok>)
    requires NumberOk(n) && Stops(rest)
    ensures ParseNumber(UnsignedToks(n) + rest) == Some((UnsignedText(n), rest))
  {
    var tail := ExponentToks(n.exponent) + rest;
    var body := FractionToks(n.fraction) + tail;
    ExponentBack(n.exponent, rest);
    NoDotAhead(n.exponent, rest);
    FractionBack(n.fraction, tail);
    NumberStep(n.whole, body, FractionText(n.fraction), tail, ExponentText(n.exponent), rest);
    hide ParseNumber, ParseExponent, ParseFraction, ExponentToks, FractionToks, ExponentText, FractionText;
    assert UnsignedToks(n) + rest == [Num(n.whole)] + body;
  }

  lemma NoDotAhead(x: Exponent, rest: seq<Tok>)
    requires Stops(rest)
    ensures var tail := ExponentToks(x) + rest; tail == [] || tail[0] != Sym('.')
  {
  }

  lemma NumberLiteral(ts: seq<Tok>, d: string, text: string, rest: seq<Tok>, lax: Leniency)
    requires ts != [] && ts[0] == Num(d) && ParseNumber(ts) == Some((text, rest))
    ensures ParseLiteral(ts, lax) == Some((NumLit(text), rest))
    ensures ParseLiteral([Sym('-')] + ts, lax) == Some((NumLit("-" + text), rest))
  {
    hide ParseNumber;
    assert ([Sym('-')] + ts)[1..] == ts;
  }

  lemma NumberBack(n: Number, rest: seq<Tok>, lax: Leniency)
    requires NumberOk(n) && Stops(rest)
    ensures ParseLiteral(NumberToks(n) + rest, lax) == Some((NumLit(NumberText(n)), rest))
  {
    UnsignedBack(n, rest);
    var ts := UnsignedToks(n) + rest;
    assert ts[0] == Num(n.whole);
    NumberLiteral(ts, n.whole, UnsignedText(n), rest, lax);
    hide ParseNumber, ParseLiteral, UnsignedToks, UnsignedText, NumberOk, Stops;
    SignAhead(UnsignedToks(n), rest, UnsignedText(n));
  }

  lemma SignAhead(toks: seq<Tok>, rest: seq<Tok>, text: string)
    ensures [Sym('-')] + toks + rest == [Sym('-')] + (toks + rest)
    ensures [] + toks + rest == toks + rest && "" + text == text
  {
  }

  lemma ParseLiteralBack(l: Literal, rest: seq<Tok>, lax: Leniency)
    requires LiteralOk(l, lax) && Stops(rest)
    ensures ParseLiteral(LitToks(l, lax) + rest, lax) == Some((l, rest))
  {
    if l.NumLit? && !IsBare(l.shown, lax) {
      NumberBack(NumberOf(l.shown), rest, lax);
    } else if l.NumLit? {
      BareBack(l.shown, rest, lax);
    } else {
      var ts := LitToks(l, lax) + rest;
      assert ts[1..] == rest;
    }
  }

  lemma BareBack(s: string, rest: seq<Tok>, lax: Leniency)
    requires IsBare(s, lax)
    ensures ParseLiteral(LitToks(NumLit(s), lax) + rest, lax) == Some((NumLit(s), rest))
  {
    var ts := LitToks(NumLit(s), lax) + rest;
    if IsBareWord(s, lax) {
      assert ts[1..] == rest;
    } else {
      assert ts[2..] == rest && s == "-" + s[1..];
    }
  }

  lemma JoinToksStep(x: seq<Tok>, more: seq<seq<Tok>>, sep: Tok, rest: seq<Tok>)
    ensures JoinToks([x] + more, [sep]) + rest ==
      if more == [] then x + rest else x + ([sep] + (JoinToks(more, [sep]) + rest))
  {
    assert ([x] + more)[1..] == more;
    if more == [] {
      assert [x] + more == [x];
    } else {
      hide JoinToks;
      var j := JoinToks(more, [sep]);
      assert x + [sep] + j + rest == x + ([sep] + (j + rest));
      JoinToksCons(x, more, [sep]);
    }
  }

  lemma JoinToksCons(x: seq<Tok>, more: seq<seq<Tok>>, sep: seq<Tok>)
    requires more != []
    ensures JoinToks([x] + more, sep) == x + sep + JoinToks(more, sep)
  {
    assert ([x] + more)[1..] == more;
  }

  lemma LiteralsStep(first: seq<Tok>, l: Literal, later: seq<Tok>, lax: Leniency)
    requires ParseLiteral(first + later, lax) == Some((l, later))
    ensures later == [] || later[0] != Sym(',') ==> ParseLiterals(first + later, lax) == Some(([l], later))
    ensures later != [] && later[0] == Sym(',') && ParseLiterals(later[1..], lax).Some? ==>
      ParseLiterals(first + later, lax) ==
        Some(([l] + ParseLiterals(later[1..], lax).value.0, ParseLiterals(later[1..], lax).value.1))
  {
    hide ParseLiteral;
  }

  lemma LiteralsSplit(ls: seq<Literal>, lax: Leniency)
    requires ls != [] && LiteralsOk(ls, lax)
    ensures LiteralOk(ls[0], lax) && LiteralsOk(ls[1..], lax)
  {
  }

  lemma RowsSplit(rows: seq<seq<Literal>>, lax: Leniency)
    requires rows != [] && RowsOk(rows, lax)
    ensures RowOk(rows[0], lax) && RowsOk(rows[1..], lax)
  {
    hide RowOk;
  }

  lemma CommaStops(rest: seq<Tok>)
    ensures Stops([Sym(',')] + rest)
    ensures rest == [] || rest[0] == Sym(')') ==> Stops(rest)
  {
  }

  lemma {:induction false} ParseLiteralsBack(ls: seq<Literal>, rest: seq<Tok>, lax: Leniency)
    requires |ls| > 0 && LiteralsOk(ls, lax) && (rest == [] || rest[0] == Sym(')'))
    ensures ParseLiterals(JoinToks(AllLitToks(ls, lax), [Sym(',')]) + rest, lax) == Some((ls, rest))
    decreases |ls|
  {
    hide *;
    var l, more := ls[0], ls[1..];
    LiteralsSplit(ls, lax);
    assert ls == [l] + more;
    assert AllLitToks(ls, lax) == [LitToks(l, lax)] + AllLitToks(more, lax);
    JoinToksStep(LitToks(l, lax), AllLitToks(more, lax), Sym(','), rest);
    if more == [] {
      assert AllLitToks(more, lax) == [] && [l] == ls;
      CommaStops(rest);
      ParseLiteralBack(l, rest, lax);
      LiteralsStep(LitToks(l, lax), l, rest, lax);
    } else {
      var later := JoinToks(AllLitToks(more, lax), [Sym(',')]) + rest;
      CommaStops(later);
      ParseLiteralBack(l, [Sym(',')] + later, lax);
      LiteralsStep(LitToks(l, lax), l, [Sym(',')] + later, lax);
      assert ([Sym(',')] + later)[1..] == later;
      ParseLiteralsBack(more, rest, lax);
    }
  }

  lemma ParseRowBack(ls: seq<Literal>, rest: seq<Tok>, lax: Leniency)
    requires RowOk(ls, lax)
    ensures ParseRow(RowToks(ls, lax) + rest, lax) == Some((ls, rest))
  {
    hide ParseLiterals, JoinToks;
    var inner := JoinToks(AllLitToks(ls, lax), [Sym(',')]);
    var after := [Sym(')')] + rest;
    assert RowToks(ls, lax) + rest == [Sym('(')] + (inner + after);
    assert ([Sym('(')] + (inner + after))[1..] == inner + after;
    assert after[1..] == rest;
    if ls == [] {
      JoinToksEmpty();
      assert AllLitToks(ls, lax) == [] && inner + after == after;
    } else {
      ParseLiteralsBack(ls, after, lax);
      JoinToksStarts(AllLitToks(ls, lax));
      assert (inner + after)[0] == inner[0];
    }
  }

  lemma JoinToksEmpty()
    ensures JoinToks([], [Sym(',')]) == []
  {
  }

  lemma JoinToksStarts(parts: seq<seq<Tok>>)
    requires |parts| > 0 && parts[0] != []
    ensures JoinToks(parts, [Sym(',')]) != [] && JoinToks(parts, [Sym(',')])[0] == parts[0][0]
  {
  }

  lemma RowsStep(first: seq<Tok>, r: seq<Literal>, later: seq<Tok>, lax: Leniency)
    requires ParseRow(first + later, lax) == Some((r, later))
    ensures later == [] || later[0] != Sym(',') ==> ParseRows(first + later, lax) == Some(([r], later))
    ensures later != [] && later[0] == Sym(',') && ParseRows(later[1..], lax).Some? ==>
      ParseRows(first + later, lax) ==
        Some(([r] + ParseRows(later[1..], lax).value.0, ParseRows(later[1..], lax).value.1))
  {
    hide ParseRow;
  }

  lemma {:induction false} ParseRowsBack(rows: seq<seq<Literal>>, rest: seq<Tok>, lax: Leniency)
    requires |rows| > 0 && RowsOk(rows, lax) && (rest == [] || rest[0] != Sym(','))
    ensures ParseRows(JoinToks(AllRowToks(rows, lax), [Sym(',')]) + rest, lax) == Some((rows, rest))
    decreases |rows|
  {
    hide *;
    var r, more := rows[0], rows[1..];
    RowsSplit(rows, lax);
    assert rows == [r] + more;
    assert AllRowToks(rows, lax) == [RowToks(r, lax)] + AllRowToks(more, lax);
    JoinToksStep(RowToks(r, lax), AllRowToks(more, lax), Sym(','), rest);
    if more == [] {
      assert AllRowToks(more, lax) == [] && [r] == rows;
      ParseRowBack(r, rest, lax);
      RowsStep(RowToks(r, lax), r, rest, lax);
    } else {
      var later := JoinToks(AllRowToks(more, lax), [Sym(',')]) + rest;
      ParseRowBack(r, [Sym(',')] + later, lax);
      RowsStep(RowToks(r, lax), r, [Sym(',')] + later, lax);
      assert ([Sym(',')] + later)[1..] == later;
      ParseRowsBack(more, rest, lax);
    }
  }

  lemma ParseNamesBack(names: seq<string>, rest: seq<Tok>, lax: Leniency)
    requires names == [] ==> lax.empty
    ensures ParseNames(Parenthesised(JoinToks(IdentToks(names), [Sym(',')])) + rest, lax) == Some((names, rest))
  {
    hide ParseIdents, JoinToks;
    var inner := JoinToks(IdentToks(names), [Sym(',')]);
    var after := [Sym(')')] + rest;
    assert Parenthesised(inner) + rest == [Sym('(')] + (inner + after);
    assert ([Sym('(')] + (inner + after))[1..] == inner + after;
    assert after[1..] == rest;
    if names == [] {
      JoinToksEmpty();
      assert IdentToks(names) == [] && inner + after == after;
    } else {
      ParseIdentsBack(names, ',', after);
      JoinToksStarts(IdentToks(names));
      assert (inner + after)[0] == inner[0];
    }
  }

  lemma ParseInsertBack(q: InsertStmt, lax: Leniency)
    requires |q.rows| > 0 && RowsOk(q.rows, lax) && (q.columns == [] ==> lax.empty)
    ensures ParseInsert(InsertToks(q, lax), lax) == Some(q)
  {
    hide ParseNames, ParseRows, JoinToks, Parenthesised;
    var r3 := [Sym(';')];
    var r2 := JoinToks(AllRowToks(q.rows, lax), [Sym(',')]) + r3;
    var r1 := [Word("VALUES")] + r2;
    var r0 := Parenthesised(JoinToks(IdentToks(q.columns), [Sym(',')])) + r1;
    assert InsertToks(q, lax)[3..] == r0;
    ParseNamesBack(q.columns, r1, lax);
    ExpectBack(Word("VALUES"), r2);
    ParseRowsBack(q.rows, r3, lax);
  }

  // ---- the text ---------------------------------------------------------------------------

  /** A cell a library writes as a number is one, or a word that is read as one. */
  ghost predicate Exportable(c: CellValue, lax: Leniency) {
    c.Float? || c.Double? || c.Numeric? ==> IsNumber(c.shown) || IsBare(c.shown, lax)
  }

  ghost predicate RowExportable(r: Row, lax: Leniency) {
    && (r.cells == [] ==> lax.empty)
    && forall k :: 0 <= k < |r.cells| ==> Exportable(r.cells[k], lax)
  }

  ghost predicate AllExportable(columns: seq<string>, rows: seq<Row>, lax: Leniency) {
    (columns == [] ==> lax.empty) && forall i :: 0 <= i < |rows| ==> RowExportable(rows[i], lax)
  }

  function LiteralOf(c: CellValue): Literal {
    match c
    case Null => NullLit
    case Bool(b) => BoolLit(b)
    case SmallInt(i) => NumLit(SignedDec(i))
    case Int(i) => NumLit(SignedDec(i))
    case BigInt(i) => NumLit(SignedDec(i))
    case Float(s) => NumLit(s)
    case Double(s) => NumLit(s)
    case Numeric(s) => NumLit(s)
    case _ => TextLit(DisplayString(c))
  }

  function LiteralsOf(cells: seq<CellValue>): (ls: seq<Literal>)
    ensures |ls| == |cells| && forall i :: 0 <= i < |cells| ==> ls[i] == LiteralOf(cells[i])
  {
    seq(|cells|, i requires 0 <= i < |cells| => LiteralOf(cells[i]))
  }

  function AllLiteralsOf(rows: seq<Row>): (ls: seq<seq<Literal>>)
    ensures |ls| == |rows| && forall i :: 0 <= i < |rows| ==> ls[i] == LiteralsOf(rows[i].cells)
  {
    seq(|rows|, i requires 0 <= i < |rows| => LiteralsOf(rows[i].cells))
  }

  lemma MinusTok(d: string)
    requires d == "" || d[0] != '-'
    ensures Before("-", [Sym('-')], d)
  {
    var t := "-" + d;
    assert t[1..] == d && Skip(t) == t;
    hide Skip;
    assert NextTok(t) == Next(Sym('-'), d);
  }

  lemma PlusTok(d: string)
    ensures Before("+", [Sym('+')], d)
  {
    var t := "+" + d;
    assert t[1..] == d && Skip(t) == t;
    hide Skip;
    assert NextTok(t) == Next(Sym('+'), d);
  }

  lemma NothingBefore(rest: string)
    ensures Before("", [], rest)
  {
    assert "" + rest == rest;
    if Lex(rest).Some? { assert [] + Lex(rest).value == Lex(rest).value; }
  }

  lemma ExponentBefore(x: Exponent, rest: string)
    requires NumberOk(Number(false, "0", None, x)) && Delim(rest)
    ensures Before(ExponentText(x), ExponentToks(x), rest)
    ensures ExponentText(x) + rest == "" || !IsDigit((ExponentText(x) + rest)[0])
  {
    hide Lex;
    match x
    case NoExponent => NothingBefore(rest);
    case Plain(e, digits) =>
      assert IsWord([e] + digits);
      WordPiece([e] + digits);
    case Signed(e, sign, digits) =>
      var tail := [sign] + digits;
      NumBefore(digits, rest);
      assert (digits + rest)[0] == digits[0];
      if sign == '-' { MinusTok(digits + rest); } else { PlusTok(digits + rest); }
      assert "-" == ['-'] && "+" == ['+'];
      BeforeTwice([sign], [Sym(sign)], digits, [Num(digits)], rest);
      WordPiece([e]);
      assert Before([e], [Word([e])], tail + rest);
      BeforeTwice([e], [Word([e])], tail, [Sym(sign)] + [Num(digits)], rest);
      assert [e] + tail == ExponentText(x);
      assert [Word([e])] + ([Sym(sign)] + [Num(digits)]) == ExponentToks(x);
  }

  lemma FractionBefore(f: Option<string>, rest: string)
    requires (f.Some? ==> Digits(f.value)) && (rest == "" || !IsDigit(rest[0]))
    ensures Before(FractionText(f), FractionToks(f), rest)
    ensures FractionText(f) + rest == "" || !IsDigit((FractionText(f) + rest)[0])
  {
    hide Lex, DigitRun;
    if f.None? {
      NothingBefore(rest);
      assert "" + rest == rest;
    } else {
      NumBefore(f.value, rest);
      SymPiece('.');
      assert "." == ['.'] && Before(".", [Sym('.')], f.value + rest);
      BeforeTwice(".", [Sym('.')], f.value, [Num(f.value)], rest);
      assert [Sym('.')] + [Num(f.value)] == FractionToks(f);
    }
  }

  lemma UnsignedBefore(n: Number, rest: string)
    requires NumberOk(n) && Delim(rest)
    ensures Before(UnsignedText(n), UnsignedToks(n), rest)
  {
    hide Lex, Before, FractionText, ExponentText, FractionToks, ExponentToks, DigitRun, Delim;
    var f, x := FractionText(n.fraction), ExponentText(n.exponent);
    ExponentBefore(n.exponent, rest);
    FractionBefore(n.fraction, x + rest);
    BeforeTwice(f, FractionToks(n.fraction), x, ExponentToks(n.exponent), rest);
    assert f + (x + rest) == f + x + rest;
    NumBefore(n.whole, f + x + rest);
    BeforeTwice(n.whole, [Num(n.whole)], f + x, FractionToks(n.fraction) + ExponentToks(n.exponent), rest);
  }

  lemma NumberPiece(n: Number)
    requires NumberOk(n)
    ensures Closed(NumberText(n), NumberToks(n))
  {
    hide Lex, FractionText, ExponentText, FractionToks, ExponentToks;
    var text, toks := UnsignedText(n), UnsignedToks(n);
    forall rest: string | Delim(rest) ensures Before(NumberText(n), NumberToks(n), rest) {
      UnsignedBefore(n, rest);
      if n.negative {
        assert (text + rest)[0] == n.whole[0];
        MinusTok(text + rest);
        BeforeTwice("-", [Sym('-')], text, toks, rest);
      } else {
        assert "" + text == text && [] + toks == toks;
      }
    }
  }

  /** Integers are numbers. */
  lemma IntIsNumber(i: int)
    ensures IsNumber(SignedDec(i))
  {
    var n := Number(i < 0, Dec(if i < 0 then -i else i), None, NoExponent);
    DecReadBack(if i < 0 then -i else i);
    assert "" + "" == "" && n.whole + "" == n.whole;
    assert Shows(n, SignedDec(i));
  }

  lemma AlwaysOk(c: CellValue, lax: Leniency)
    requires Exportable(c, lax)
    ensures LiteralOk(LiteralOf(c), lax)
  {
    match c
    case SmallInt(i) => IntIsNumber(i);
    case Int(i) => IntIsNumber(i);
    case BigInt(i) => IntIsNumber(i);
    case _ =>
  }

  lemma CellPiece(c: CellValue, lax: Leniency)
    requires Exportable(c, lax)
    ensures LiteralOk(LiteralOf(c), lax) && Closed(CellText(c), LitToks(LiteralOf(c), lax))
  {
    AlwaysOk(c, lax);
    hide Closed, Dec, IsNumber, NumberText, NumberToks, NumberOk, QuoteLiteral, DisplayString, SignedDec, IsBare;
    hide IsBareWord;
    var l := LiteralOf(c);
    if l.NumLit? {
      assert CellText(c) == l.shown;
      NumLitPiece(l.shown, lax);
    } else if l.TextLit? {
      LiteralPiece(DisplayString(c));
    } else {
      BareWords();
    }
  }

  lemma NumLitPiece(s: string, lax: Leniency)
    requires IsNumber(s) || IsBare(s, lax)
    ensures Closed(s, LitToks(NumLit(s), lax))
  {
    if IsBareWord(s, lax) {
      WordPiece(s);
    } else if IsBare(s, lax) {
      SignedWordPiece(s[1..]);
      assert s == "-" + s[1..];
    } else {
      NumberPiece(NumberOf(s));
    }
  }

  lemma SignedWordPiece(w: string)
    requires IsWord(w)
    ensures Closed("-" + w, [Sym('-'), Word(w)])
  {
    WordPiece(w);
    forall rest: string | Delim(rest) ensures Before("-" + w, [Sym('-'), Word(w)], rest) {
      assert (w + rest)[0] == w[0];
      MinusTok(w + rest);
      BeforeTwice("-", [Sym('-')], w, [Word(w)], rest);
      assert [Sym('-')] + [Word(w)] == [Sym('-'), Word(w)];
    }
  }

  lemma BareWords()
    ensures Closed("NULL", [Word("NULL")]) && Closed("true", [Word("true")]) && Closed("false", [Word("false")])
  {
    hide Closed;
    WordPiece("NULL");
    WordPiece("true");
    WordPiece("false");
  }

  lemma Parens()
    ensures Open("(", [Sym('(')]) && Open(")", [Sym(')')])
  {
    SymPiece('(');
    SymPiece(')');
    assert "(" == ['('] && ")" == [')'];
  }

  lemma InParens(inner: string, toks: seq<Tok>)
    requires Closed(inner, toks)
    ensures Open("(" + inner + ")", Parenthesised(toks))
  {
    hide Open, Closed;
    Parens();
    OpenClosed("(", [Sym('(')], inner, toks);
    ClosedOpen("(" + inner, [Sym('(')] + toks, ")", [Sym(')')]);
    assert [Sym('(')] + toks + [Sym(')')] == Parenthesised(toks);
  }

  lemma NothingPiece()
    ensures Closed("", [])
  {
    forall rest: string | Delim(rest) ensures Before("", [], rest) {
      assert "" + rest == rest;
      if Lex(rest).Some? { assert [] + Lex(rest).value == Lex(rest).value; }
    }
  }

  lemma OpenIsClosed(a: string, ts: seq<Tok>)
    requires Open(a, ts)
    ensures Closed(a, ts)
  {
    hide Before;
  }

  lemma RowPiece(r: Row, lax: Leniency)
    requires RowExportable(r, lax)
    ensures RowOk(LiteralsOf(r.cells), lax) && Closed(RowText(r), RowToks(LiteralsOf(r.cells), lax))
  {
    hide Closed, Open, CellText, LitToks, Delim, Parenthesised, LiteralOk, Exportable, LiteralOf;
    forall i | 0 <= i < |r.cells| ensures LiteralOk(LiteralsOf(r.cells)[i], lax) {
      AlwaysOk(r.cells[i], lax);
    }
    var texts, toks := CellTexts(r.cells), AllLitToks(LiteralsOf(r.cells), lax);
    if r.cells == [] {
      NothingPiece();
      JoinToksEmpty();
      assert texts == [] && toks == [];
    } else {
      forall i | 0 <= i < |texts| ensures Closed(texts[i], toks[i]) {
        CellPiece(r.cells[i], lax);
      }
      CommaPiece();
      assert Delim(", ") by { CommaDelim(); }
      JoinPiece(texts, toks, ", ", [Sym(',')]);
    }
    InParens(Join(texts, ", "), JoinToks(toks, [Sym(',')]));
    OpenIsClosed(RowText(r), RowToks(LiteralsOf(r.cells), lax));
  }

  lemma CommaDelim()
    ensures Delim(", ") && Delim(",\n") && Delim(" (") && Delim(";")
  {
  }

  lemma LinePiece()
    ensures Open(",\n", [Sym(',')])
  {
    SymPiece(',');
    SpacePiece('\n');
    OpenOpen(",", [Sym(',')], "\n", []);
    assert [Sym(',')] + [] == [Sym(',')] && "," + "\n" == ",\n";
  }

  lemma BodyPiece(rows: seq<Row>, lax: Leniency)
    requires |rows| > 0
    requires forall i :: 0 <= i < |rows| ==> RowExportable(rows[i], lax)
    ensures RowsOk(AllLiteralsOf(rows), lax)
    ensures Closed(Join(RowTexts(rows), ",\n"), JoinToks(AllRowToks(AllLiteralsOf(rows), lax), [Sym(',')]))
  {
    hide Closed, Open, RowText, RowToks, Delim, RowOk, RowExportable;
    forall i | 0 <= i < |rows| ensures RowOk(AllLiteralsOf(rows)[i], lax) {
      RowPiece(rows[i], lax);
    }
    var texts, toks := RowTexts(rows), AllRowToks(AllLiteralsOf(rows), lax);
    forall i | 0 <= i < |texts| ensures Closed(texts[i], toks[i]) {
      RowPiece(rows[i], lax);
    }
    LinePiece();
    CommaDelim();
    JoinPiece(texts, toks, ",\n", [Sym(',')]);
  }

  lemma NamesPiece(columns: seq<string>)
    ensures Closed(Join(QuoteAll(columns), ", "), JoinToks(IdentToks(columns), [Sym(',')]))
  {
    hide Closed, Open, Delim;
    if columns == [] {
      NothingPiece();
      JoinToksEmpty();
      assert QuoteAll(columns) == [] && IdentToks(columns) == [];
    } else {
      CommaPiece();
      CommaDelim();
      IdentListPiece(columns, ", ", [Sym(',')]);
    }
  }

  lemma ValuesPiece()
    ensures Open(" VALUES\n", [Word("VALUES")])
  {
    SpacePiece(' ');
    WordPiece("VALUES");
    SpacePiece('\n');
    OpenClosed(" ", [], "VALUES", [Word("VALUES")]);
    assert Delim("\n");
    ClosedOpen(" " + "VALUES", [] + [Word("VALUES")], "\n", []);
    assert " " + "VALUES" + "\n" == " VALUES\n" && [] + [Word("VALUES")] + [] == [Word("VALUES")];
  }

  lemma InsertPiece(table: string)
    ensures Closed("INSERT INTO " + QuoteIdent(table), [Word("INSERT"), Word("INTO"), Ident(table)])
  {
    hide Open, Closed, QuoteIdent;
    LeadingWordPiece("INSERT");
    LeadingWordPiece("INTO");
    OpenOpen("INSERT" + " ", [Word("INSERT")], "INTO" + " ", [Word("INTO")]);
    assert "INSERT" + " " + ("INTO" + " ") == "INSERT INTO ";
    IdentPiece(table);
    OpenClosed("INSERT INTO ", [Word("INSERT")] + [Word("INTO")], QuoteIdent(table), [Ident(table)]);
    assert [Word("INSERT")] + [Word("INTO")] + [Ident(table)] == [Word("INSERT"), Word("INTO"), Ident(table)];
  }

  lemma HeadPieceOf(table: string, columns: seq<string>)
    ensures Open(HeadText(table, columns),
                 [Word("INSERT"), Word("INTO"), Ident(table)] +
                 (Parenthesised(JoinToks(IdentToks(columns), [Sym(',')])) + [Word("VALUES")]))
  {
    hide Open, Closed, QuoteIdent, Join, JoinToks, Parenthesised, Delim;
    var names, toks := Join(QuoteAll(columns), ", "), JoinToks(IdentToks(columns), [Sym(',')]);
    InsertPiece(table);
    NamesPiece(columns);
    InParens(names, toks);
    SpacePiece(' ');
    ValuesPiece();
    var list := "(" + names + ")";
    OpenOpen(list, Parenthesised(toks), " VALUES\n", [Word("VALUES")]);
    OpenOpen(" ", [], list + " VALUES\n", Parenthesised(toks) + [Word("VALUES")]);
    var back := " " + (list + " VALUES\n");
    SpaceStarts(list + " VALUES\n");
    ClosedOpen("INSERT INTO " + QuoteIdent(table), [Word("INSERT"), Word("INTO"), Ident(table)],
               back, [] + (Parenthesised(toks) + [Word("VALUES")]));
    HeadGroups("INSERT INTO " + QuoteIdent(table), names);
    assert [] + (Parenthesised(toks) + [Word("VALUES")]) == Parenthesised(toks) + [Word("VALUES")];
  }

  lemma SpaceStarts(s: string)
    ensures " " + s != "" && Delim(" " + s)
  {
  }

  lemma HeadGroups(a: string, names: string)
    ensures a + " (" + names + ") VALUES\n" == a + (" " + ("(" + names + ")" + " VALUES\n"))
  {
    assert " (" == " " + "(" && ") VALUES\n" == ")" + " VALUES\n";
  }

  lemma RegroupInsert(a: seq<Tok>, b: seq<Tok>, c: seq<Tok>, d: seq<Tok>, e: seq<Tok>)
    ensures a + (b + c) + d + e == a + (b + (c + (d + e)))
  {
  }

  lemma InsertTextPiece(table: string, columns: seq<string>, rows: seq<Row>, lax: Leniency)
    requires |rows| > 0
    requires AllExportable(columns, rows, lax)
    ensures RowsOk(AllLiteralsOf(rows), lax)
    ensures Closed(HeadText(table, columns) + Join(RowTexts(rows), ",\n") + ";",
                   InsertToks(Insert(table, columns, AllLiteralsOf(rows)), lax))
  {
    hide Open, Closed, HeadText, Join, JoinToks, Parenthesised, Delim, AllRowToks, RowTexts, RowsOk, RowExportable;
    BodyPiece(rows, lax);
    var ids := [Word("INSERT"), Word("INTO"), Ident(table)];
    var list := Parenthesised(JoinToks(IdentToks(columns), [Sym(',')]));
    var body, bodyToks := Join(RowTexts(rows), ",\n"), JoinToks(AllRowToks(AllLiteralsOf(rows), lax), [Sym(',')]);
    HeadPieceOf(table, columns);
    OpenClosed(HeadText(table, columns), ids + (list + [Word("VALUES")]), body, bodyToks);
    SymPiece(';');
    assert ";" == [';'];
    CommaDelim();
    ClosedOpen(HeadText(table, columns) + body, ids + (list + [Word("VALUES")]) + bodyToks, ";", [Sym(';')]);
    RegroupInsert(ids, list, [Word("VALUES")], bodyToks, [Sym(';')]);
    OpenIsClosed(HeadText(table, columns) + body + ";", ids + (list + [Word("VALUES")]) + bodyToks + [Sym(';')]);
  }

  // ---- the round trip ---------------------------------------------------------------------

  function ExportText(table: string, columns: seq<string>, rows: seq<Row>): string {
    HeadText(table, columns) + Join(RowTexts(rows), ",\n") + ";"
  }

  lemma ExportReadsBack(table: string, columns: seq<string>, rows: seq<Row>, lax: Leniency)
    requires |rows| > 0 && AllExportable(columns, rows, lax)
    ensures ReadInsert(ExportText(table, columns, rows), lax) == Some(Insert(table, columns, AllLiteralsOf(rows)))
  {
    hide Lex, HeadText, Join, RowTexts, InsertToks, ParseInsert, RowExportable, RowsOk;
    var q := Insert(table, columns, AllLiteralsOf(rows));
    InsertTextPiece(table, columns, rows, lax);
    LexWhole(ExportText(table, columns, rows), InsertToks(q, lax));
    ParseInsertBack(q, lax);
  }

  // ---- only what is well written is read --------------------------------------------------

  /** Numbers among the tokens are digits. */
  predicate NumsOk(ts: seq<Tok>) {
    forall i :: 0 <= i < |ts| && ts[i].Num? ==> Digits(ts[i].digits)
  }

  lemma {:induction false} LexNums(s: string)
    requires Lex(s).Some?
    ensures NumsOk(Lex(s).value)
    decreases |s|
  {
    var t := NextTok(s);
    if t.Next? {
      LexNums(t.rest);
      if t.tok.Num? { NextNum(s); }
      hide NextTok;
    }
  }

  lemma NextNum(s: string)
    requires NextTok(s).Next? && NextTok(s).tok.Num?
    ensures Digits(NextTok(s).tok.digits)
  {
    hide Skip;
    var t := Skip(s);
    assert t[..DigitRun(t)] != "";
  }

  lemma FractionNums(ts: seq<Tok>) returns (f: Option<string>)
    requires NumsOk(ts)
    ensures FractionText(f) == ParseFraction(ts).0 && (f.Some? ==> Digits(f.value)) && NumsOk(ParseFraction(ts).1)
  {
    f := if |ts| > 1 && ts[0] == Sym('.') && ts[1].Num? then Some(ts[1].digits) else None;
  }

  lemma ExponentNums(ts: seq<Tok>) returns (x: Exponent)
    requires NumsOk(ts)
    ensures NumberOk(Number(false, "0", None, x)) && ExponentText(x) == ParseExponent(ts).0
    ensures NumsOk(ParseExponent(ts).1)
  {
    if ts == [] || !ts[0].Word? {
      x := NoExponent;
    } else if ExponentWord(ts[0].word) {
      x := Plain(ts[0].word[0], ts[0].word[1..]);
    } else if ParseExponent(ts).0 != "" {
      x := Signed(ts[0].word[0], ts[1].c, ts[2].digits);
    } else {
      x := NoExponent;
    }
  }

  lemma NumberNums(ts: seq<Tok>, negative: bool)
    requires NumsOk(ts) && ParseNumber(ts).Some?
    ensures IsNumber((if negative then "-" else "") + ParseNumber(ts).value.0) && NumsOk(ParseNumber(ts).value.1)
  {
    var f := FractionNums(ts[1..]);
    var x := ExponentNums(ParseFraction(ts[1..]).1);
    hide ParseFraction, ParseExponent;
    assert Shows(Number(negative, ts[0].digits, f, x), (if negative then "-" else "") + ParseNumber(ts).value.0);
  }

  lemma LiteralNums(ts: seq<Tok>, lax: Leniency)
    requires NumsOk(ts) && ParseLiteral(ts, lax).Some?
    ensures LiteralOk(ParseLiteral(ts, lax).value.0, lax) && NumsOk(ParseLiteral(ts, lax).value.1)
  {
    if ts[0] == Sym('-') && |ts| > 1 && ts[1].Word? && IsBareWord(ts[1].word, lax) {
      assert ("-" + ts[1].word)[1..] == ts[1].word;
    } else if ts[0] == Sym('-') {
      if ParseNumber(ts[1..]).Some? { NumberNums(ts[1..], true); }
    } else if ParseNumber(ts).Some? {
      NumberNums(ts, false);
      assert "" + ParseNumber(ts).value.0 == ParseNumber(ts).value.0;
    }
    hide IsNumber, ParseNumber, IsBareWord, Digits;
  }

  lemma {:induction false} LiteralsNums(ts: seq<Tok>, lax: Leniency)
    requires NumsOk(ts) && ParseLiterals(ts, lax).Some?
    ensures RowOk(ParseLiterals(ts, lax).value.0, lax) && ParseLiterals(ts, lax).value.0 != [] &&
      NumsOk(ParseLiterals(ts, lax).value.1)
    decreases |ts|
  {
    hide LiteralOk, ParseLiteral, Digits;
    LiteralNums(ts, lax);
    var rest := ParseLiteral(ts, lax).value.1;
    if rest != [] && rest[0] == Sym(',') { LiteralsNums(rest[1..], lax); }
  }

  lemma RowNums(ts: seq<Tok>, lax: Leniency)
    requires NumsOk(ts) && ParseRow(ts, lax).Some?
    ensures RowOk(ParseRow(ts, lax).value.0, lax) && NumsOk(ParseRow(ts, lax).value.1)
  {
    hide LiteralOk, ParseLiterals, Digits;
    var r0 := ts[1..];
    if ParseLiterals(r0, lax).Some? { LiteralsNums(r0, lax); }
  }

  lemma {:induction false} RowsNums(ts: seq<Tok>, lax: Leniency)
    requires NumsOk(ts) && ParseRows(ts, lax).Some?
    ensures RowsOk(ParseRows(ts, lax).value.0, lax)
    decreases |ts|
  {
    hide RowOk, ParseRow, Digits;
    RowNums(ts, lax);
    var rest := ParseRow(ts, lax).value.1;
    if rest != [] && rest[0] == Sym(',') { RowsNums(rest[1..], lax); }
  }

  lemma {:induction false} IdentsNums(ts: seq<Tok>)
    requires NumsOk(ts) && ParseIdents(ts, ',').Some?
    ensures NumsOk(ParseIdents(ts, ',').value.1) && ParseIdents(ts, ',').value.0 != []
    decreases |ts|
  {
    hide Digits;
    if |ts| > 1 && ts[1] == Sym(',') && ParseIdents(ts[2..], ',').Some? { IdentsNums(ts[2..]); }
  }

  lemma NamesNums(ts: seq<Tok>, lax: Leniency)
    requires NumsOk(ts) && ParseNames(ts, lax).Some?
    ensures NumsOk(ParseNames(ts, lax).value.1) && (ParseNames(ts, lax).value.0 == [] ==> lax.empty)
  {
    hide ParseIdents, Digits;
    if ParseIdents(ts[1..], ',').Some? { IdentsNums(ts[1..]); }
  }

  /** Whatever is read has numbers where literals are no texts. */
  lemma ReadIsOk(sql: string, lax: Leniency)
    requires ReadInsert(sql, lax).Some?
    ensures RowsOk(ReadInsert(sql, lax).value.rows, lax) && (ReadInsert(sql, lax).value.columns == [] ==> lax.empty)
  {
    LexNums(sql);
    hide Lex, RowsOk, ParseNames, ParseRows, Digits;
    var ts := Lex(sql).value;
    NamesNums(ts[3..], lax);
    var r1 := ParseNames(ts[3..], lax).value.1;
    RowsNums(r1[1..], lax);
  }

  /** Whatever reads back as what was exported could be exported. */
  lemma ReadIsExportable(table: string, columns: seq<string>, rows: seq<Row>, lax: Leniency)
    requires ReadInsert(ExportText(table, columns, rows), lax) == Some(Insert(table, columns, AllLiteralsOf(rows)))
    ensures AllExportable(columns, rows, lax)
  {
    hide ReadInsert, ExportText;
    ReadIsOk(ExportText(table, columns, rows), lax);
    hide IsNumber, IsBare;
    forall i | 0 <= i < |rows| ensures RowExportable(rows[i], lax) {
      assert RowOk(AllLiteralsOf(rows)[i], lax);
      forall k | 0 <= k < |rows[i].cells| ensures Exportable(rows[i].cells[k], lax) {
        assert LiteralOk(LiteralsOf(rows[i].cells)[k], lax);
      }
    }
  }

  /**
   An exported statement reads back as the table, the columns and the rows it was made from exactly
   when every cell a library writes as a number is one, and there are columns and cells.
   */
  lemma ExportReadsBackIff(table: string, columns: seq<string>, rows: seq<Row>, lax: Leniency)
    requires |rows| > 0
    ensures ReadInsert(ExportText(table, columns, rows), lax) == Some(Insert(table, columns, AllLiteralsOf(rows))) <==>
      AllExportable(columns, rows, lax)
  {
    hide ReadInsert, ExportText, AllExportable;
    if AllExportable(columns, rows, lax) {
      ExportReadsBack(table, columns, rows, lax);
    }
    if ReadInsert(ExportText(table, columns, rows), lax) == Some(Insert(table, columns, AllLiteralsOf(rows))) {
      ReadIsExportable(table, columns, rows, lax);
    }
  }

  /** No statement is exported for no rows. */
  lemma NoRowsNoStatement()
    ensures Lex(NO_ROWS) == Some([])
  {
    assert NO_ROWS[0] == '-' && NO_ROWS[1] == '-' && '\n' !in NO_ROWS && '\r' !in NO_ROWS;
    CommentOnly(NO_ROWS);
  }

  lemma CommentOnly(s: string)
    requires |s| >= 2 && s[0] == '-' && s[1] == '-' && '\n' !in s && '\r' !in s
    ensures Lex(s) == Some([])
  {
    NoNewline(s[2..]);
    assert Skip("") == "";
  }

  lemma {:induction false} NoNewline(s: string)
    requires '\n' !in s && '\r' !in s
    ensures AfterLine(s) == ""
  {
    if s != "" {
      assert s == [s[0]] + s[1..];
      NoNewline(s[1..]);
    }
  }

  // ---- what the server refuses ------------------------------------------------------------

  lemma LiteralAlike(ts: seq<Tok>, lax: Leniency)
    requires ParseLiteral(ts, STRICT).Some?
    ensures ParseLiteral(ts, lax) == ParseLiteral(ts, STRICT)
    ensures ts != [] && ts[0] != Sym(')')
  {
    hide ParseFraction, ParseExponent;
  }

  lemma {:induction false} LiteralsAlike(ts: seq<Tok>, lax: Leniency)
    requires ParseLiterals(ts, STRICT).Some?
    ensures ParseLiterals(ts, lax) == ParseLiterals(ts, STRICT)
    ensures ts != [] && ts[0] != Sym(')')
    decreases |ts|
  {
    hide ParseLiteral;
    LiteralAlike(ts, lax);
    var rest := ParseLiteral(ts, STRICT).value.1;
    if rest != [] && rest[0] == Sym(',') { LiteralsAlike(rest[1..], lax); }
  }

  lemma RowAlike(ts: seq<Tok>, lax: Leniency)
    requires ParseRow(ts, STRICT).Some?
    ensures ParseRow(ts, lax) == ParseRow(ts, STRICT)
  {
    hide ParseLiterals;
    LiteralsAlike(ts[1..], lax);
  }

  lemma {:induction false} RowsAlike(ts: seq<Tok>, lax: Leniency)
    requires ParseRows(ts, STRICT).Some?
    ensures ParseRows(ts, lax) == ParseRows(ts, STRICT)
    decreases |ts|
  {
    hide ParseRow;
    RowAlike(ts, lax);
    var rest := ParseRow(ts, STRICT).value.1;
    if rest != [] && rest[0] == Sym(',') { RowsAlike(rest[1..], lax); }
  }

  lemma NamesAlike(ts: seq<Tok>, lax: Leniency)
    requires ParseNames(ts, STRICT).Some?
    ensures ParseNames(ts, lax) == ParseNames(ts, STRICT)
  {
  }

  /** What the server reads, a lenient reader reads in the same way. */
  lemma ReadAlike(sql: string, lax: Leniency)
    requires ReadInsert(sql, STRICT).Some?
    ensures ReadInsert(sql, lax) == ReadInsert(sql, STRICT)
  {
    hide Lex, ParseNames, ParseRows;
    var ts := Lex(sql).value;
    NamesAlike(ts[3..], lax);
    RowsAlike(ParseNames(ts[3..], STRICT).value.1[1..], lax);
  }

  /**
   Of rows whose floats are numbers, NaN or infinite the server reads the exported statement as it
   was meant, or not at all.
   */
  lemma ReadOrRefused(table: string, columns: seq<string>, rows: seq<Row>)
    requires |rows| > 0 && AllExportable(columns, rows, LAX)
    ensures ReadInsert(ExportText(table, columns, rows), STRICT) ==
      if AllExportable(columns, rows, STRICT) then Some(Insert(table, columns, AllLiteralsOf(rows))) else None
  {
    hide ReadInsert, ExportText, AllExportable;
    ExportReadsBack(table, columns, rows, LAX);
    ExportReadsBackIff(table, columns, rows, STRICT);
    if ReadInsert(ExportText(table, columns, rows), STRICT).Some? {
      ReadAlike(ExportText(table, columns, rows), LAX);
    }
  }

  lemma FloatWords()
    ensures IsBare("NaN", LAX) && IsBare("inf", LAX) && IsBare("-inf", LAX)
    ensures forall s :: !IsBare(s, STRICT)
    ensures !IsNumber("NaN") && !IsNumber("inf") && !IsNumber("-inf")
  {
    assert "-inf"[1..] == "inf";
    NotADigit("NaN");
    NotADigit("inf");
    NotADigit("-inf");
  }

  /** A number begins with a digit, behind its sign. */
  lemma NotADigit(s: string)
    requires s == "" || (!IsDigit(s[0]) && (s[0] == '-' ==> |s| > 1 && !IsDigit(s[1])))
    ensures !IsNumber(s)
  {
    forall n | NumberOk(n) ensures NumberText(n) != s {
      FirstDigit(n);
      hide NumberOk, NumberText;
    }
  }

  lemma FirstDigit(n: Number)
    requires NumberOk(n)
    ensures var t := NumberText(n); t != "" && (IsDigit(t[0]) || (|t| > 1 && t[0] == '-' && IsDigit(t[1])))
  {
    assert NumberText(n)[if n.negative then 1 else 0] == n.whole[0];
  }

  /** A NaN and an infinity, of either sign, are exported as statements that cannot be read. */
  lemma NotANumber(table: string, columns: seq<string>)
    ensures ReadInsert(ExportText(table, columns, [Row(None, [Float("NaN")])]), STRICT) == None
    ensures ReadInsert(ExportText(table, columns, [Row(None, [Float("inf")])]), STRICT) == None
    ensures ReadInsert(ExportText(table, columns, [Row(None, [Float("-inf")])]), STRICT) == None
  {
    FloatWords();
    hide ReadInsert, ExportText, IsBare, IsNumber;
    forall s | s in ["NaN", "inf", "-inf"]
      ensures ReadInsert(ExportText(table, columns, [Row(None, [Float(s)])]), STRICT) == None
    {
      var row := Row(None, [Float(s)]);
      assert !Exportable(row.cells[0], STRICT) && Exportable(row.cells[0], LAX);
      assert [row][0] == row;
      ReadOrRefused(table, columns, [row]);
    }
  }

  /** So are rows of a result without columns. */
  lemma NoColumns(table: string, rows: seq<Row>)
    requires |rows| > 0 && forall i :: 0 <= i < |rows| ==> rows[i].cells == []
    ensures ReadInsert(ExportText(table, [], rows), STRICT) == None
  {
    hide ReadInsert, ExportText;
    ReadOrRefused(table, [], rows);
  }

  /** Which cells are written as what: NULL, truth values and numbers bare, everything else quoted. */
  lemma LiteralKinds(c: CellValue)
    ensures LiteralOf(c).NullLit? <==> c.Null?
    ensures LiteralOf(c).BoolLit? <==> c.Bool?
    ensures c.Bool? ==> LiteralOf(c) == BoolLit(c.b)
    ensures LiteralOf(c).NumLit? <==>
      c.SmallInt? || c.Int? || c.BigInt? || c.Float? || c.Double? || c.Numeric?
    ensures c.Float? || c.Double? || c.Numeric? ==> LiteralOf(c) == NumLit(c.shown)
    ensures c.Date? || c.Time? || c.Timestamp? || c.TimestampTz? || c.Uuid? ==> LiteralOf(c) == TextLit(c.shown)
    ensures Payload(c).Some? && !c.Bytea? ==> LiteralOf(c) == TextLit(Utf8.Decode(c.payload))
  {
  }

  /** An integer is recovered from the text of its number. */
  lemma IntSurvives(i: int)
    ensures LiteralOf(BigInt(i)).NumLit? && ReadInt(LiteralOf(BigInt(i)).shown) == Some(i)
    ensures LiteralOf(Int(i)) == LiteralOf(SmallInt(i)) == LiteralOf(BigInt(i))
  {
    ReadIntSignedDec(i);
  }

  /** The octets of a text cell are among what is read back. */
  lemma TextSurvives(p: Utf8.bytes)
    requires Utf8.Valid(p)
    ensures LiteralOf(Text(p)).TextLit? && Utf8.Encode(LiteralOf(Text(p)).s) == p
  {
    Utf8.EncodeDecode(p);
  }

  /**
   Two exports with the same text come from rows with the same literals, so no quote in a text
   can make one set of rows look like another: for all rows whose floats are numbers, NaN or infinite.
   */
  lemma ExportIsInjective(t1: string, c1: seq<string>, r1: seq<Row>, t2: string, c2: seq<string>, r2: seq<Row>)
    requires |r1| > 0 && |r2| > 0 && AllExportable(c1, r1, LAX) && AllExportable(c2, r2, LAX)
    requires ExportText(t1, c1, r1) == ExportText(t2, c2, r2)
    ensures t1 == t2 && c1 == c2 && AllLiteralsOf(r1) == AllLiteralsOf(r2)
  {
    hide ReadInsert, ExportText, AllExportable;
    ExportReadsBack(t1, c1, r1, LAX);
    ExportReadsBack(t2, c2, r2, LAX);
  }
}
