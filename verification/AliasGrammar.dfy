/**
 SQL written out from its FROM and JOIN clauses, and what the alias scanner makes of it: exactly
 the clauses, in order, where an alias overwrites and a table's own name only fills a gap.
 */
module AliasGrammar {
  import opened Prelude
  import opened SqlText
  import opened AliasScan

  datatype Name = Bare(word: string) | Quoted(content: string)

  /** An alias behind the table, behind AS, or missing behind AS. */
  datatype Alias =
    | Plain(gap: string, name: Name)
    | WithAs(gap: string, asWord: string, gap2: string, name: Name)
    | OnlyAs(gap: string, asWord: string)

  /** `filler` is what stands before the clause; `parts` is the table name, split at its dots. */
  datatype Clause = Clause(filler: string, keyword: string, gap: string, parts: seq<Name>, alias: Option<Alias>)

  function NameText(n: Name): string {
    match n
    case Bare(word) => word
    case Quoted(content) => "\"" + content + "\""
  }

  function PartTexts(parts: seq<Name>): (ts: seq<string>)
    ensures |ts| == |parts| && forall i :: 0 <= i < |ts| ==> ts[i] == NameText(parts[i])
  {
    seq(|parts|, i requires 0 <= i < |parts| => NameText(parts[i]))
  }

  function TableText(c: Clause): string { Join(PartTexts(c.parts), ".") }

  function AliasText(c: Clause): string {
    match c.alias
    case None => ""
    case Some(Plain(gap, name)) => gap + NameText(name)
    case Some(WithAs(gap, asWord, gap2, name)) => gap + (asWord + (gap2 + NameText(name)))
    case Some(OnlyAs(gap, asWord)) => gap + asWord
  }

  /** A clause and the text after it. */
  function ClauseText(c: Clause, rest: string): string {
    c.filler + (c.keyword + (c.gap + (TableText(c) + (AliasText(c) + rest))))
  }

  function Render(cs: seq<Clause>, tail: string): string {
    if cs == [] then tail else ClauseText(cs[0], Render(cs[1..], tail))
  }

  // ---- which clauses ----------------------------------------------------------------------

  predicate Spaces(g: string) {
    g != "" && forall i :: 0 <= i < |g| ==> IsSpace(g[i])
  }

  predicate PlainWord(w: string) {
    w != "" && forall i :: 0 <= i < |w| ==> IsWordChar(w[i])
  }

  /** FROM or JOIN stands at `i`, with no character of an identifier on either side. */
  predicate ClauseWordAt(before: bool, t: string, i: nat) {
    && i + 4 <= |t| && (Lower(t[i..i + 4]) == "from" || Lower(t[i..i + 4]) == "join")
    && (if i == 0 then !before else !IsIdentChar(t[i - 1]))
    && (i + 4 < |t| ==> !IsIdentChar(t[i + 4]))
  }

  /** No FROM and no JOIN in the text. */
  ghost predicate Silent(before: bool, t: string) {
    forall i: nat :: !ClauseWordAt(before, t, i)
  }

  /** The words that end a clause, and cannot be an alias. */
  predicate IsClauseWord(w: string) {
    Lower(w) in {
      "where", "join", "left", "right", "inner", "outer", "full", "cross", "on", "group", "having", "order", "limit",
      "offset", "union", "select", "from", "fetch", "window", "values", "set", "insert", "update", "delete",
      "returning", "with", "as", "and", "or", "not", "in", "is", "null", "like", "ilike", "between", "exists", "case",
      "when", "then", "else", "end", "by", "asc", "desc"}
  }

  lemma ReservedIs(w: string)
    ensures IsReserved(w) <==> IsClauseWord(w)
  {
    hide Lower;
  }

  /** A quoted name with a quote or a dot in it is read as something else. */
  predicate NameOk(n: Name) {
    match n
    case Bare(word) => PlainWord(word)
    case Quoted(content) => content != "" && '"' !in content && '.' !in content
  }

  /** The parts of a table: a quoted one behind a plain one is not read as a part of it. */
  predicate PartsOk(parts: seq<Name>) {
    && parts != [] && NameOk(parts[0])
    && (|parts| > 1 ==> PartsOk(parts[1..]) && (parts[0].Bare? ==> parts[1].Bare?))
  }

  predicate AliasOk(a: Alias) {
    && Spaces(a.gap) && (!a.Plain? ==> Lower(a.asWord) == "as") && (a.WithAs? ==> Spaces(a.gap2))
    && (!a.OnlyAs? ==> NameOk(a.name) && (a.name.Bare? ==> !IsClauseWord(a.name.word)))
  }

  ghost predicate ClauseOk(c: Clause) {
    && Silent(false, c.filler) && (c.filler == "" || !IsIdentChar(c.filler[|c.filler| - 1]))
    && (Lower(c.keyword) == "from" || Lower(c.keyword) == "join")
    && Spaces(c.gap)
    && PartsOk(c.parts)
    && (c.alias.Some? ==> AliasOk(c.alias.value))
  }

  function NextWord(rest: string): string {
    var after := SkipWs(rest);
    after[..WordLen(after)]
  }

  /** The clause ends where `rest` begins: no more of its name, and nothing that would be its alias. */
  predicate EndsAt(c: Clause, rest: string) {
    && (rest != "" ==> !IsIdentChar(rest[0]))
    && (c.alias.None? ==>
          && (rest != "" ==> rest[0] != '.')
          && (NextWord(rest) == "" || (IsClauseWord(NextWord(rest)) && Lower(NextWord(rest)) != "as")))
    && (c.alias.Some? && c.alias.value.OnlyAs? ==> NextWord(rest) == "" || IsClauseWord(NextWord(rest)))
  }

  ghost predicate WellFormed(cs: seq<Clause>, tail: string) {
    if cs == [] then Silent(false, tail)
    else ClauseOk(cs[0]) && EndsAt(cs[0], Render(cs[1..], tail)) && WellFormed(cs[1..], tail)
  }

  // ---- what the clauses mean --------------------------------------------------------------

  function Content(n: Name): string {
    match n
    case Bare(word) => word
    case Quoted(content) => content
  }

  function ShortName(c: Clause): string
    requires |c.parts| > 0
  {
    Lower(Content(c.parts[|c.parts| - 1]))
  }

  /** The whole name as it is written, but for quotes at its two ends. */
  function FullName(c: Clause): string
    requires |c.parts| > 0
  {
    var t := TableText(c);
    var first, last := if c.parts[0].Quoted? then 1 else 0, if c.parts[|c.parts| - 1].Quoted? then 1 else 0;
    if first + last <= |t| then Lower(t[first..|t| - last]) else ""
  }

  /** The key an alias is entered under; a quoted one keeps its quotes. */
  function AliasKey(c: Clause): Option<string> {
    if c.alias.None? || c.alias.value.OnlyAs? then None else Some(Lower(NameText(c.alias.value.name)))
  }

  /** A clause whose qualified name is not entered: punctuation ends it, or AS without an alias. */
  predicate CutShort(c: Clause, rest: string) {
    if c.alias.None? then SkipWs(rest) != "" && NextWord(rest) == "" else c.alias.value.OnlyAs?
  }

  function Entered(out: Aliases, c: Clause, rest: string): Aliases
    requires |c.parts| > 0
  {
    var out' := if AliasKey(c).Some? then out[AliasKey(c).value := ShortName(c)] else out;
    if CutShort(c, rest) then OrInsert(out', ShortName(c), ShortName(c)) else WithTable(out', ShortName(c), FullName(c))
  }

  /** The clauses entered one after the other. */
  ghost function Fold(cs: seq<Clause>, tail: string, out: Aliases): Aliases
    requires WellFormed(cs, tail)
  {
    if cs == [] then out else Fold(cs[1..], tail, Entered(out, cs[0], Render(cs[1..], tail)))
  }

  // ---- white space, names and words -------------------------------------------------------

  lemma {:induction false} SkipSpacesText(g: string, t: string)
    requires Spaces(g) && (t == "" || !IsSpace(t[0]))
    ensures SkipWs(g + t) == t
  {
    assert (g + t)[1..] == g[1..] + t;
    if |g| == 1 {
      assert g[1..] + t == t;
    } else {
      SkipSpacesText(g[1..], t);
    }
  }

  lemma {:induction false} NameRunStops(d: string, rest: string)
    requires forall i :: 0 <= i < |d| ==> IsNameChar(d[i])
    requires rest == "" || !IsNameChar(rest[0])
    ensures NameRun(d + rest) == |d|
  {
    if d == "" {
      assert d + rest == rest;
    } else {
      assert (d + rest)[1..] == d[1..] + rest;
      NameRunStops(d[1..], rest);
    }
  }

  lemma {:induction false} WordLenStops(w: string, rest: string)
    requires forall i :: 0 <= i < |w| ==> IsWordChar(w[i])
    requires rest == "" || !IsIdentChar(rest[0])
    ensures WordLen(w + rest) == |w|
  {
    if w == "" {
      assert w + rest == rest;
    } else {
      assert (w + rest)[1..] == w[1..] + rest;
      WordLenStops(w[1..], rest);
    }
  }

  predicate NameLike(t: string) {
    && t != "" && IsWordChar(t[0]) && IsWordChar(t[|t| - 1])
    && forall i :: 0 <= i < |t| ==> IsNameChar(t[i])
  }

  lemma NameStep(w: string, u: string)
    requires PlainWord(w) && NameLike(u)
    ensures NameLike(w + "." + u)
  {
  }

  /** A plain dotted name is read whole. */
  lemma {:induction false} PlainNames(parts: seq<Name>)
    requires PartsOk(parts) && parts[0].Bare?
    ensures NameLike(Join(PartTexts(parts), "."))
  {
    hide NameLike;
    if |parts| == 1 {
      OneName(parts[0].word);
    } else {
      PlainNames(parts[1..]);
      PartsStep(parts);
      NameStep(parts[0].word, Join(PartTexts(parts[1..]), "."));
    }
  }

  lemma OneName(w: string)
    requires PlainWord(w)
    ensures NameLike(w)
  {
  }

  lemma PartsStep(parts: seq<Name>)
    requires |parts| > 1
    ensures Join(PartTexts(parts), ".") == NameText(parts[0]) + "." + Join(PartTexts(parts[1..]), ".")
  {
    assert PartTexts(parts)[1..] == PartTexts(parts[1..]);
  }

  lemma {:induction false} UntilQuoteIs(content: string, rest: string)
    requires '"' !in content
    ensures UntilQuote(content + "\"" + rest) == |content|
  {
    var t := content + "\"" + rest;
    if content != "" {
      assert t[0] == content[0] && t[1..] == content[1..] + "\"" + rest;
      UntilQuoteIs(content[1..], rest);
    }
  }

  lemma QuotedText(content: string, rest: string)
    requires '"' !in content
    ensures var t := "\"" + content + "\"" + rest; t[0] == '"' && QuotedLen(t) == |content| + 2
  {
    var t := "\"" + content + "\"" + rest;
    assert t[1..] == content + "\"" + rest;
    UntilQuoteIs(content, rest);
  }

  /** The whole name is read, and nothing behind it. */
  lemma {:induction false} NamesRead(parts: seq<Name>, v: string)
    requires PartsOk(parts) && (v == "" || !IsNameChar(v[0]))
    ensures var t := Join(PartTexts(parts), "."); t != "" && IdentLen(t + v) == |t|
  {
    hide UntilQuote, QuotedLen, NameLike, IsNameChar, IdentLen, Join, PartTexts;
    var t := Join(PartTexts(parts), ".");
    if parts[0].Bare? {
      PlainNames(parts);
      PlainRead(t, v);
    } else if |parts| > 1 {
      var more := Join(PartTexts(parts[1..]), ".");
      PartsStep(parts);
      NamesRead(parts[1..], v);
      QuotedRead(parts[0].content, more + v);
      assert t + v == NameText(parts[0]) + ("." + (more + v));
    } else {
      QuotedLast(parts[0].content, v);
      OnePart(parts[0]);
      assert parts == [parts[0]];
    }
  }

  lemma OnePart(n: Name)
    ensures Join(PartTexts([n]), ".") == NameText(n)
  {
  }

  lemma QuotedLast(content: string, v: string)
    requires '"' !in content && (v == "" || !IsNameChar(v[0]))
    ensures IdentLen("\"" + content + "\"" + v) == |content| + 2
  {
    hide UntilQuote, QuotedLen;
    QuotedText(content, v);
  }

  /** A quoted part and a dot are read, and what follows the dot. */
  lemma QuotedRead(content: string, u: string)
    requires '"' !in content
    ensures IdentLen("\"" + content + "\"" + ("." + u)) == |content| + 3 + IdentLen(u)
  {
    hide UntilQuote, QuotedLen;
    var t := "\"" + content + "\"" + ("." + u);
    QuotedText(content, "." + u);
    assert t[|content| + 2] == '.' && t[|content| + 3..] == u;
  }

  lemma PlainRead(t: string, v: string)
    requires NameLike(t) && (v == "" || !IsNameChar(v[0]))
    ensures t != "" && IdentLen(t + v) == |t|
  {
    NameRunStops(t, v);
    assert (t + v)[|t| - 1] == t[|t| - 1] != '.';
  }

  /** A quoted part behind a plain one is not read: the name ends at the dot. */
  lemma PlainThenQuoted(w: string, u: string)
    requires PlainWord(w)
    ensures IdentLen(w + "." + ("\"" + u)) == |w|
  {
    var t, n := w + "." + ("\"" + u), w + ".";
    assert forall i :: 0 <= i < |n| ==> IsNameChar(n[i]);
    NameRunStops(n, "\"" + u);
    assert t[|w|] == '.' && t[|w| - 1] == w[|w| - 1] != '.';
    assert TrimDots(t, |w| + 1) == TrimDots(t, |w|) == |w|;
  }

  /** What stands behind the last dot is the last part. */
  lemma {:induction false} LastPart(parts: seq<Name>)
    requires PartsOk(parts)
    ensures AfterLastDot(Join(PartTexts(parts), ".")) == NameText(parts[|parts| - 1])
  {
    hide AfterLastDot, NameText;
    if |parts| == 1 {
      NoDots(parts[0]);
      AfterLastDotOf("", NameText(parts[0]));
      assert "" + NameText(parts[0]) == NameText(parts[0]);
    } else {
      LastPart(parts[1..]);
      PartsStep(parts);
      AfterLastDotBehind(NameText(parts[0]) + ".", Join(PartTexts(parts[1..]), "."));
    }
  }

  lemma NoDots(n: Name)
    requires NameOk(n)
    ensures '.' !in NameText(n)
  {
  }

  lemma {:induction false} NamesOk(parts: seq<Name>)
    requires PartsOk(parts)
    ensures forall i :: 0 <= i < |parts| ==> NameOk(parts[i])
  {
    if |parts| > 1 {
      NamesOk(parts[1..]);
      assert forall i :: 0 < i < |parts| ==> parts[i] == parts[1..][i - 1];
    }
  }

  lemma Unquoted(n: Name)
    requires NameOk(n)
    ensures TrimQuotes(NameText(n)) == Content(n)
  {
    match n
    case Bare(word) => NoQuotes(word);
    case Quoted(content) =>
      var t, u := NameText(n), content + "\"";
      assert content[0] in content && content[|content| - 1] in content;
      assert t[0] == '"' && t[1..] == u && u[0] == content[0] != '"';
      assert TrimLeft(t) == TrimLeft(u) == u;
      assert u[|u| - 1] == '"' && u[..|u| - 1] == content;
      assert TrimRight(u) == TrimRight(content) == content;
  }

  /** A word behind nothing, or behind a dot, is what stands after the last dot. */
  lemma {:induction false} AfterLastDotOf(a: string, w: string)
    requires a == "" || a[|a| - 1] == '.'
    requires '.' !in w
    ensures AfterLastDot(a + w) == w
  {
    if w == "" {
      assert a + w == a;
    } else {
      var n := |w| - 1;
      assert (a + w)[..|a + w| - 1] == a + w[..n];
      AfterLastDotOf(a, w[..n]);
      assert w == w[..n] + [w[n]];
    }
  }

  lemma {:induction false} AfterLastDotBehind(a: string, u: string)
    requires a != "" && a[|a| - 1] == '.'
    ensures AfterLastDot(a + u) == AfterLastDot(u)
  {
    if u == "" {
      assert a + u == a;
    } else {
      var n := |u| - 1;
      assert (a + u)[..|a + u| - 1] == a + u[..n];
      AfterLastDotBehind(a, u[..n]);
    }
  }

  /** What the scanner reads as the table, and the two names it makes of it. */
  lemma TableRead(c: Clause, v: string)
    requires ClauseOk(c) && (v == "" || !IsNameChar(v[0]))
    ensures IdentLen(TableText(c) + v) == |TableText(c)| > 0
    ensures Short(TableText(c)) == ShortName(c) && Full(TableText(c)) == FullName(c)
  {
    hide KeywordAt, IsReserved, Silent, NameText, NameOk, IdentLen, AfterLastDot, TrimQuotes;
    NamesRead(c.parts, v);
    LastPart(c.parts);
    NamesOk(c.parts);
    Unquoted(c.parts[|c.parts| - 1]);
    FullIs(c);
  }

  /** Of a name's text just the quotes at its two ends are trimmed. */
  lemma FullIs(c: Clause)
    requires ClauseOk(c)
    ensures Full(TableText(c)) == FullName(c)
  {
    NamesOk(c.parts);
    var t, n := TableText(c), |c.parts| - 1;
    TextEnds(c.parts);
    hide ClauseOk, TableText;
    var first, last := if c.parts[0].Quoted? then 1 else 0, if c.parts[n].Quoted? then 1 else 0;
    TrimBoth(t, first, last);
  }

  lemma TrimBoth(t: string, first: nat, last: nat)
    requires first <= 1 && last <= 1 && first + last < |t|
    requires (first == 1 ==> t[0] == '"') && t[first] != '"'
    requires (last == 1 ==> t[|t| - 1] == '"') && t[|t| - 1 - last] != '"'
    ensures TrimQuotes(t) == t[first..|t| - last]
  {
    var u := t[first..];
    assert TrimLeft(t) == u;
    if last == 1 {
      assert u[..|u| - 1] == t[first..|t| - 1];
      assert TrimRight(u) == TrimRight(u[..|u| - 1]) == u[..|u| - 1];
    } else {
      assert t[first..|t|] == u;
    }
  }

  /** The ends of a name's text are its quotes, and what is inside of them is no quote. */
  lemma {:induction false} TextEnds(parts: seq<Name>)
    requires PartsOk(parts)
    ensures
      var t := Join(PartTexts(parts), ".");
      var first, last := if parts[0].Quoted? then 1 else 0, if parts[|parts| - 1].Quoted? then 1 else 0;
      && first + last < |t| && (first == 1 ==> t[0] == '"') && t[first] != '"'
      && (last == 1 ==> t[|t| - 1] == '"') && t[|t| - 1 - last] != '"'
  {
    PartEnds(parts[0]);
    hide NameText, NameOk;
    if |parts| > 1 {
      TextEnds(parts[1..]);
      PartsStep(parts);
      assert parts[1..][|parts| - 2] == parts[|parts| - 1];
      hide Join, PartTexts;
      JoinEnds(NameText(parts[0]), Join(PartTexts(parts[1..]), "."));
    } else {
      OnePart(parts[0]);
      assert parts == [parts[0]];
    }
  }

  /** The ends of a text are those of its pieces. */
  lemma JoinEnds(a: string, b: string)
    ensures
      var t := a + "." + b;
      && (forall k :: 0 <= k < |a| ==> t[k] == a[k])
      && (b != "" ==> t[|t| - 1] == b[|b| - 1]) && (|b| > 1 ==> t[|t| - 2] == b[|b| - 2])
  {
  }

  lemma PartEnds(n: Name)
    requires NameOk(n)
    ensures
      var t, q := NameText(n), if n.Quoted? then 1 else 0;
      && 2 * q < |t| && (q == 1 ==> t[0] == '"' && t[|t| - 1] == '"')
      && t[q] != '"' && t[|t| - 1 - q] != '"'
  {
    if n.Quoted? { assert n.content[0] in n.content && n.content[|n.content| - 1] in n.content; }
  }

  lemma NoQuotes(s: string)
    requires s != "" && s[0] != '"' && s[|s| - 1] != '"'
    ensures TrimQuotes(s) == s
  {
  }

  // ---- scanning what means nothing --------------------------------------------------------

  /** Text before a word that ends in no identifier character cannot become a keyword with it. */
  lemma NoKeywordAcross(before: bool, f: string, rest: string)
    requires f != "" && !KeywordAt(before, f) && !IsIdentChar(f[|f| - 1])
    ensures !KeywordAt(before, f + rest)
  {
    var t := f + rest;
    if |f| >= 4 {
      assert t[..4] == f[..4];
    } else if |t| >= 4 {
      assert Lower(t[..4])[|f| - 1] == LowerChar(f[|f| - 1]);
    }
  }

  /** Reading on, the text behind the first character says what is left to say. */
  lemma SilentStep(before: bool, t: string)
    requires t != "" && Silent(before, t)
    ensures !KeywordAt(before, t) && Silent(IsIdentChar(t[0]), t[1..])
  {
    assert !ClauseWordAt(before, t, 0);
    if |t| >= 4 { assert t[0..4] == t[..4]; }
    forall i: nat ensures !ClauseWordAt(IsIdentChar(t[0]), t[1..], i) {
      if i + 4 < |t| { assert t[1..][i..i + 4] == t[i + 1..i + 5]; }
      assert !ClauseWordAt(before, t, i + 1);
    }
  }

  lemma {:induction false} ScanSilent(before: bool, f: string, rest: string, out: Aliases)
    requires Silent(before, f) && (f == "" || !IsIdentChar(f[|f| - 1]))
    ensures Scan(before, f + rest, out) == Scan(before && f == "", rest, out)
    decreases |f|
  {
    if f == "" {
      assert f + rest == rest;
    } else {
      SilentStep(before, f);
      NoKeywordAcross(before, f, rest);
      hide KeywordAt, Enter, SkipWs, IdentLen, Silent;
      assert (f + rest)[1..] == f[1..] + rest;
      ScanSilent(IsIdentChar(f[0]), f[1..], rest, out);
    }
  }

  lemma {:induction false} ScanSilentEnd(before: bool, t: string, out: Aliases)
    requires Silent(before, t)
    ensures Scan(before, t, out) == out
    decreases |t|
  {
    hide KeywordAt, Enter, SkipWs, IdentLen, Silent;
    if t != "" {
      SilentStep(before, t);
      ScanSilentEnd(IsIdentChar(t[0]), t[1..], out);
    }
  }

  lemma SpaceIsNoKeyword(before: bool, t: string)
    requires t != "" && !IsAlpha(t[0])
    ensures !KeywordAt(before, t)
  {
    if |t| >= 4 {
      assert Lower(t[..4])[0] == LowerChar(t[0]);
    }
  }

  lemma ScanOne(before: bool, t: string, out: Aliases)
    requires t != "" && !KeywordAt(before, t)
    ensures Scan(before, t, out) == Scan(IsIdentChar(t[0]), t[1..], out)
  {
    hide KeywordAt, Enter, IdentLen, SkipWs;
  }

  /** White space is passed over. */
  lemma {:induction false} ScanSpaces(before: bool, t: string, out: Aliases)
    ensures Scan(before, t, out) == Scan(before && !(t != "" && IsSpace(t[0])), SkipWs(t), out)
    decreases |t|
  {
    hide Scan, KeywordAt;
    if t != "" && IsSpace(t[0]) {
      SpaceIsNoKeyword(before, t);
      ScanOne(before, t, out);
      ScanSpaces(false, t[1..], out);
    }
  }

  /** At a character that is no identifier character it does not matter what stands before it. */
  lemma ScanBefore(t: string, out: Aliases)
    requires t == "" || !IsIdentChar(t[0])
    ensures Scan(true, t, out) == Scan(false, t, out)
  {
    if t != "" {
      SpaceIsNoKeyword(true, t);
      SpaceIsNoKeyword(false, t);
    }
  }

  // ---- one clause -------------------------------------------------------------------------

  /** Behind a table name: what is entered, and that the scan goes on at the end of the clause. */
  lemma EnterClause(c: Clause, rest: string, out: Aliases)
    requires ClauseOk(c) && EndsAt(c, rest)
    ensures
      var next := if AliasKey(c).None? then SkipWs(rest) else rest;
      Enter(TableText(c), SkipWs(AliasText(c) + rest), out) == (Entered(out, c, rest), next)
  {
    TableNames(c);
    ReservedIs(NextWord(rest));
    hide Short, Full, ShortName, FullName, TableText, WithTable, OrInsert, IsReserved, IsClauseWord, Lower, SkipWs;
    hide WordLen;
    hide NameText, NameOk, PartsOk, IsIdentChar, IsSpace, KeywordAt, Silent;
    match c.alias
    case None =>
      assert AliasText(c) + rest == rest;
    case Some(Plain(gap, name)) =>
      PlainText(gap, name, rest);
      PlainEnters(TableText(c), NameText(name), rest, out);
    case Some(WithAs(gap, asWord, gap2, name)) =>
      AsText(gap, asWord, gap2, name, rest);
      AsEnters(TableText(c), asWord, gap2 + (NameText(name) + rest), out);
    case Some(OnlyAs(gap, asWord)) =>
      AsWord(asWord, rest);
      assert gap + asWord + rest == gap + (asWord + rest);
      SkipAs(gap, asWord, rest);
      AsEnters(TableText(c), asWord, rest, out);
  }

  lemma SkipAs(gap: string, asWord: string, rest: string)
    requires Spaces(gap) && ReadAsWord(asWord, rest)
    ensures SkipWs(gap + (asWord + rest)) == asWord + rest
  {
    SkipSpacesText(gap, asWord + rest);
  }

  /** The text of an alias, from the end of the table name on. */
  lemma PlainText(gap: string, name: Name, rest: string)
    requires AliasOk(Plain(gap, name)) && (rest == "" || !IsIdentChar(rest[0]))
    ensures SkipWs(gap + NameText(name) + rest) == NameText(name) + rest
    ensures ReadAsWord(NameText(name), rest) && NameText(name) != ""
    ensures !IsReserved(NameText(name)) && Lower(NameText(name)) != "as"
  {
    hide NameText, NameOk, IsReserved, IsClauseWord, Lower;
    var word := NameText(name);
    AliasWord(name, rest);
    assert gap + word + rest == gap + (word + rest);
    SkipSpacesText(gap, word + rest);
  }

  lemma AsText(gap: string, asWord: string, gap2: string, name: Name, rest: string)
    requires AliasOk(WithAs(gap, asWord, gap2, name)) && (rest == "" || !IsIdentChar(rest[0]))
    ensures
      var word := NameText(name);
      var after := gap2 + (word + rest);
      && SkipWs(gap + (asWord + (gap2 + word)) + rest) == asWord + after && ReadAsWord(asWord, after)
      && SkipWs(after) == word + rest && ReadAsWord(word, rest) && word != "" && !IsReserved(word)
  {
    hide NameText, NameOk, IsReserved, IsClauseWord, Lower;
    var word := NameText(name);
    var after := gap2 + (word + rest);
    AliasWord(name, rest);
    SpaceAhead(gap2, word + rest);
    AsWord(asWord, after);
    assert gap + (asWord + (gap2 + word)) + rest == gap + (asWord + after);
    SkipSpacesText(gap, asWord + after);
    SkipSpacesText(gap2, word + rest);
  }

  lemma SpaceAhead(gap: string, t: string)
    requires Spaces(gap)
    ensures gap + t != "" && !IsIdentChar((gap + t)[0])
  {
  }

  /** A word that is neither AS nor reserved is entered as the alias. */
  lemma PlainEnters(table: string, word: string, rest: string, out: Aliases)
    requires ReadAsWord(word, rest) && word != "" && !IsReserved(word) && Lower(word) != "as"
    ensures Enter(table, word + rest, out) ==
      (WithTable(out[Lower(word) := Short(table)], Short(table), Full(table)), rest)
  {
    hide Short, Full, WithTable, OrInsert, IsReserved, Lower, SkipWs, WordLen, IsSpace;
  }

  /** Behind AS the next word counts, if it is an alias. */
  lemma AsEnters(table: string, asWord: string, rest: string, out: Aliases)
    requires ReadAsWord(asWord, rest) && Lower(asWord) == "as"
    ensures
      var after := SkipWs(rest);
      var word := after[..WordLen(after)];
      Enter(table, asWord + rest, out) ==
        if word != "" && !IsReserved(word)
        then (WithTable(out[Lower(word) := Short(table)], Short(table), Full(table)), after[|word|..])
        else (OrInsert(out, Short(table), Short(table)), after)
  {
    assert |asWord| == |Lower(asWord)| == 2;
    hide Short, Full, WithTable, OrInsert, IsReserved, Lower, SkipWs, WordLen, IsSpace;
  }

  lemma TableNames(c: Clause)
    requires ClauseOk(c)
    ensures Short(TableText(c)) == ShortName(c) && Full(TableText(c)) == FullName(c)
  {
    TableRead(c, "");
  }

  lemma NotAs(word: string)
    requires !IsReserved(word)
    ensures Lower(word) != "as"
  {
  }

  predicate ReadAsWord(w: string, rest: string) {
    var t := w + rest;
    t != "" && !IsSpace(t[0]) && WordLen(t) == |w| && t[..|w|] == w && t[|w|..] == rest
  }

  lemma AsWord(w: string, rest: string)
    requires Lower(w) == "as" && (rest == "" || !IsIdentChar(rest[0]))
    ensures ReadAsWord(w, rest)
  {
    assert |w| == 2 && Lower(w)[0] == LowerChar(w[0]) && Lower(w)[1] == LowerChar(w[1]);
    WordLenStops(w, rest);
  }

  /** No reserved word has a quote in it. */
  lemma QuotedNotReserved(w: string)
    requires w != "" && w[0] == '"'
    ensures !IsReserved(w)
  {
    assert Lower(w)[0] == '"';
  }

  lemma AliasWord(n: Name, rest: string)
    requires NameOk(n) && (n.Bare? ==> !IsClauseWord(n.word)) && (rest == "" || !IsIdentChar(rest[0]))
    ensures ReadAsWord(NameText(n), rest) && NameText(n) != ""
    ensures !IsReserved(NameText(n)) && Lower(NameText(n)) != "as"
  {
    hide IsReserved, IsClauseWord;
    if n.Bare? {
      ReservedIs(n.word);
      WordLenStops(n.word, rest);
    } else {
      QuotedText(n.content, rest);
      QuotedNotReserved(NameText(n));
    }
    NotAs(NameText(n));
  }

  lemma KeywordThere(keyword: string, rest: string)
    requires Lower(keyword) == "from" || Lower(keyword) == "join"
    requires rest != "" && IsSpace(rest[0])
    ensures KeywordAt(false, keyword + rest) && |keyword| == 4 && (keyword + rest)[4..] == rest
  {
    assert (keyword + rest)[..4] == keyword;
  }

  lemma LastBefore(pre: string, rest: string, n: nat)
    requires pre != "" && n <= |rest|
    ensures (pre + rest)[|pre + rest| - n - 1] == if n == |rest| then pre[|pre| - 1] else rest[|rest| - n - 1]
  {
  }

  /** The last character before the end, or before the end and white space at its start. */
  lemma BeforeEnd(pre: string, rest: string)
    requires pre != "" && IsIdentChar(pre[|pre| - 1])
    ensures IdentBefore(pre + rest, rest)
    ensures IdentBefore(pre + rest, SkipWs(rest)) == !(rest != "" && IsSpace(rest[0]))
  {
    hide SkipWs;
    LastBefore(pre, rest, |rest|);
    LastBefore(pre, rest, |SkipWs(rest)|);
    SkippedSpace(rest);
  }

  lemma {:induction false} SkippedSpace(rest: string)
    ensures !(rest != "" && IsSpace(rest[0])) ==> SkipWs(rest) == rest
    ensures rest != "" && IsSpace(rest[0]) ==> |SkipWs(rest)| < |rest| && IsSpace(rest[|rest| - |SkipWs(rest)| - 1])
  {
    if rest != "" && IsSpace(rest[0]) {
      SkippedSpace(rest[1..]);
    }
  }

  lemma NameEnds(n: Name)
    requires NameOk(n)
    ensures var t := NameText(n); t != "" && IsIdentChar(t[|t| - 1]) && !IsSpace(t[0])
  {
  }

  lemma {:induction false} NamesEnd(parts: seq<Name>)
    requires PartsOk(parts)
    ensures var t := Join(PartTexts(parts), "."); t != "" && IsIdentChar(t[|t| - 1]) && !IsSpace(t[0])
  {
    hide NameOk, IsSpace, IsIdentChar, NameText;
    NameEnds(parts[0]);
    if |parts| > 1 {
      NamesEnd(parts[1..]);
      PartsStep(parts);
    }
  }

  lemma AliasTextIs(c: Clause)
    requires ClauseOk(c)
    ensures
      var pre := TableText(c) + AliasText(c);
      pre != "" && IsIdentChar(pre[|pre| - 1])
    ensures c.alias.Some? ==> AliasText(c) != "" && IsSpace(AliasText(c)[0])
  {
    hide KeywordAt, Silent, IsReserved, NameText, NameOk;
    NamesEnd(c.parts);
    if c.alias.Some? {
      if c.alias.value.OnlyAs? {
        assert |c.alias.value.asWord| == 2 && Lower(c.alias.value.asWord)[1] == LowerChar(c.alias.value.asWord[1]);
      } else {
        NameEnds(c.alias.value.name);
      }
    }
  }

  /** The keyword and the table of a clause are read as such. */
  lemma ClauseHead(c: Clause, rest: string)
    requires ClauseOk(c) && EndsAt(c, rest)
    ensures
      var v := AliasText(c) + rest;
      var u := TableText(c) + v;
      var t := c.keyword + (c.gap + u);
      && |t| >= 4 && KeywordAt(false, t) && SkipWs(t[4..]) == u && u != ""
      && IdentLen(u) == |TableText(c)| > 0
      && u[..|TableText(c)|] == TableText(c) && u[|TableText(c)|..] == v
  {
    AliasTextIs(c);
    NamesEnd(c.parts);
    hide KeywordAt, SkipWs, IdentLen, AliasText, IsReserved, Silent;
    var v := AliasText(c) + rest;
    var u := TableText(c) + v;
    assert v == "" || !IsNameChar(v[0]);
    assert u[0] == TableText(c)[0];
    KeywordThere(c.keyword, c.gap + u);
    SkipSpacesText(c.gap, u);
    TableRead(c, v);
  }

  /** The scan over the text of a clause, from its keyword on. */
  lemma ClauseScan(c: Clause, rest: string, out: Aliases)
    requires ClauseOk(c) && EndsAt(c, rest)
    ensures
      Scan(false, c.keyword + (c.gap + (TableText(c) + (AliasText(c) + rest))), out) ==
        Scan(true, rest, Entered(out, c, rest))
  {
    ClauseParts(c);
    hide *;
    var u := TableText(c) + (AliasText(c) + rest);
    ClauseHead(c, rest);
    EnterClause(c, rest, out);
    ClauseGoesOn(c, rest);
    ScanSpaces(true, rest, Entered(out, c, rest));
    ScanKeyword(c.keyword + (c.gap + u), u, |TableText(c)|, out);
  }

  lemma ClauseParts(c: Clause)
    requires ClauseOk(c)
    ensures |c.parts| > 0
  {
  }

  lemma ClauseGoesOn(c: Clause, rest: string)
    requires ClauseOk(c)
    ensures
      var t := c.keyword + (c.gap + (TableText(c) + (AliasText(c) + rest)));
      && |rest| < |t| && |SkipWs(rest)| < |t|
      && IdentBefore(t, rest)
      && IdentBefore(t, SkipWs(rest)) == !(rest != "" && IsSpace(rest[0]))
  {
    AliasTextIs(c);
    hide ClauseOk, AliasText, TableText, SkipWs, IsIdentChar, IsSpace;
    var pre := c.keyword + (c.gap + (TableText(c) + AliasText(c)));
    assert c.keyword + (c.gap + (TableText(c) + (AliasText(c) + rest))) == pre + rest;
    assert pre[|pre| - 1] == (TableText(c) + AliasText(c))[|TableText(c) + AliasText(c)| - 1];
    BeforeEnd(pre, rest);
  }

  lemma ScanKeyword(t: string, u: string, n: nat, out: Aliases)
    requires KeywordAt(false, t) && |t| >= 4 && SkipWs(t[4..]) == u && u != "" && IdentLen(u) == n > 0
    ensures
      var (out', next) := Enter(u[..n], SkipWs(u[n..]), out);
      |next| < |t| && Scan(false, t, out) == Scan(IdentBefore(t, next), next, out')
  {
    hide KeywordAt, Enter, IdentLen, IdentBefore;
  }

  // ---- all clauses ------------------------------------------------------------------------

  lemma {:induction false} ScanClauses(before: bool, cs: seq<Clause>, tail: string, out: Aliases)
    requires WellFormed(cs, tail)
    requires before ==> Render(cs, tail) == "" || !IsIdentChar(Render(cs, tail)[0])
    ensures Scan(before, Render(cs, tail), out) == Fold(cs, tail, out)
    decreases |cs|
  {
    hide Scan, ClauseOk, EndsAt, KeywordAt, Entered, Silent, TableText, AliasText;
    if before { ScanBefore(Render(cs, tail), out); }
    if cs == [] {
      ScanSilentEnd(false, tail, out);
    } else {
      var c, rest := cs[0], Render(cs[1..], tail);
      ClauseFiller(c, rest);
      ScanSilent(false, c.filler, c.keyword + (c.gap + (TableText(c) + (AliasText(c) + rest))), out);
      ClauseScan(c, rest, out);
      ScanClauses(true, cs[1..], tail, Entered(out, c, rest));
    }
  }

  lemma ClauseFiller(c: Clause, rest: string)
    requires ClauseOk(c) && EndsAt(c, rest)
    ensures Silent(false, c.filler) && (c.filler == "" || !IsIdentChar(c.filler[|c.filler| - 1]))
    ensures (rest == "" || !IsIdentChar(rest[0])) && |c.parts| > 0
  {
  }

  /** Scanning a text written from clauses gives back the clauses. */
  lemma ScanIsFold(cs: seq<Clause>, tail: string, cursor: nat)
    requires WellFormed(cs, tail) && cursor >= |Render(cs, tail)|
    ensures AliasMap(Render(cs, tail), cursor) == Fold(cs, tail, map[])
  {
    hide Scan, WellFormed, Render, Fold;
    var sql := Render(cs, tail);
    assert sql[..|sql|] == sql;
    ScanClauses(false, cs, tail, map[]);
  }

  // ---- the words that end a clause --------------------------------------------------------

  /** FROM `t` */
  function FromClause(t: string): Clause { Clause("", "FROM", " ", [Bare(t)], None) }

  /** JOIN `t` `a` */
  function JoinClause(t: string, a: string): Clause {
    Clause(" ", "JOIN", " ", [Bare(t)], Some(Plain(" ", Bare(a))))
  }

  /** The next word behind white space: words end where no character of one follows. */
  lemma NextWordIs(gap: string, w: string, after: string)
    requires gap == "" || Spaces(gap)
    requires w == "" || PlainWord(w)
    requires after == "" || (!IsIdentChar(after[0]) && (w == "" ==> !IsSpace(after[0])))
    ensures NextWord(gap + (w + after)) == w
  {
    var t := w + after;
    assert t != "" ==> !IsSpace(t[0]);
    if gap == "" { assert gap + t == t; } else { SkipSpacesText(gap, t); }
    WordLenStops(w, after);
    assert t[..|w|] == w;
  }

  /**
   A word of the grammar's list behind a table ends the clause: whatever follows, unless it brings
   another clause, the table is entered and nothing else.
   */
  lemma ClauseWordEnds(t: string, w: string, after: string)
    requires PlainWord(t) && IsClauseWord(w) && PlainWord(w) && Lower(w) != "as"
    requires after == "" || !IsIdentChar(after[0])
    requires Silent(false, " " + (w + after))
    ensures
      var sql := "FROM " + t + " " + w + after;
      AliasMap(sql, |sql|) == map[Lower(t) := Lower(t)]
  {
    var c, tail := FromClause(t), " " + (w + after);
    NextWordIs(" ", w, after);
    SpaceGap();
    assert NextWord(tail) == w;
    hide Silent, IsClauseWord, NextWord, Lower, SkipWs, PlainWord;
    FromText(t, tail);
    assert "FROM " + t + " " + w + after == "FROM " + t + tail;
    FromIsOk(t);
    assert EndsAt(c, tail);
    assert [c][1..] == [];
    assert Render([], tail) == tail && WellFormed([], tail) && WellFormed([c], tail);
    ScanIsFold([c], tail, |Render([c], tail)|);
    EnteredPlain(c, tail, t, map[]);
    NoAliasKey(c);
    hide Entered, ClauseOk, EndsAt;
  }

  lemma SpaceGap()
    ensures Spaces(" ") && !IsIdentChar(' ') && Lower("FROM") == "from" && Lower("JOIN") == "join"
    ensures Silent(false, "") && Silent(false, " ")
  {
  }

  lemma FromText(t: string, tail: string)
    ensures Render([FromClause(t)], tail) == "FROM " + t + tail
  {
    assert [FromClause(t)][1..] == [];
    OnePart(Bare(t));
    assert "" + ("FROM" + (" " + (t + ("" + tail)))) == "FROM " + t + tail;
  }

  lemma FromIsOk(t: string)
    requires PlainWord(t)
    ensures ClauseOk(FromClause(t)) && ShortName(FromClause(t)) == FullName(FromClause(t)) == Lower(t)
  {
    SpaceGap();
    OnePart(Bare(t));
    assert t[0..|t|] == t;
    hide Lower, Spaces, Silent;
  }

  /** A clause of an unqualified table. */
  lemma EnteredPlain(c: Clause, rest: string, t: string, out: Aliases)
    requires |c.parts| > 0 && ShortName(c) == FullName(c) == Lower(t)
    ensures
      var out' := if AliasKey(c).Some? then out[AliasKey(c).value := Lower(t)] else out;
      Entered(out, c, rest) == if Lower(t) in out' then out' else out'[Lower(t) := Lower(t)]
  {
    hide ShortName, FullName, CutShort, Lower, AliasKey;
  }

  /** FROM a table and JOIN another with an alias: both are entered, and the alias for the second. */
  lemma FromJoin(t1: string, t2: string, a: string)
    requires PlainWord(t1) && PlainWord(t2) && PlainWord(a) && !IsClauseWord(a)
    ensures
      var sql, out := "FROM " + t1 + " JOIN " + t2 + " " + a, map[Lower(t1) := Lower(t1)][Lower(a) := Lower(t2)];
      AliasMap(sql, |sql|) == if Lower(t2) in out then out else out[Lower(t2) := Lower(t2)]
  {
    var c, d := FromClause(t1), JoinClause(t2, a);
    hide Silent, Lower, NextWord, PlainWord, IsClauseWord;
    SpaceGap();
    FromIsOk(t1);
    JoinText(t2, a);
    JoinIsOk(t2, a);
    var rest := " JOIN " + t2 + " " + a;
    JoinAhead(rest, " " + t2 + " " + a);
    assert [c, d][1..] == [d] && [d][1..] == [];
    assert Render([d], "") == rest && WellFormed([], "") && WellFormed([d], "");
    assert EndsAt(c, rest) && WellFormed([c, d], "");
    FromRender(c, d, t1, rest);
    assert "FROM " + t1 + rest == "FROM " + t1 + " JOIN " + t2 + " " + a;
    ScanIsFold([c, d], "", |Render([c, d], "")|);
    FoldTwo(c, d, t1, t2, a);
  }

  lemma JoinAhead(rest: string, after: string)
    requires rest == " JOIN" + after && after != "" && after[0] == ' '
    ensures NextWord(rest) == "JOIN" && IsClauseWord("JOIN") && Lower("JOIN") != "as" && rest[0] == ' '
  {
    assert Lower("JOIN") == "join";
    assert PlainWord("JOIN");
    assert rest == " " + ("JOIN" + after);
    NextWordIs(" ", "JOIN", after);
  }

  lemma JoinText(t: string, a: string)
    ensures Render([JoinClause(t, a)], "") == " JOIN " + t + " " + a
  {
    assert [JoinClause(t, a)][1..] == [];
    OnePart(Bare(t));
    assert " " + ("JOIN" + (" " + (t + (" " + a + "")))) == " JOIN " + t + " " + a;
  }

  lemma FromRender(c: Clause, d: Clause, t: string, rest: string)
    requires c == FromClause(t) && Render([d], "") == rest
    ensures Render([c, d], "") == "FROM " + t + rest
  {
    assert [c, d][1..] == [d];
    OnePart(Bare(t));
    hide Render;
    assert ClauseText(c, rest) == "" + ("FROM" + (" " + (t + ("" + rest))));
    RenderStep(c, d);
  }

  lemma RenderStep(c: Clause, d: Clause)
    ensures Render([c, d], "") == ClauseText(c, Render([d], ""))
  {
    assert [c, d][1..] == [d];
    hide ClauseText;
  }

  lemma JoinIsOk(t: string, a: string)
    requires PlainWord(t) && PlainWord(a) && !IsClauseWord(a)
    ensures
      var d := JoinClause(t, a);
      ClauseOk(d) && EndsAt(d, "") && ShortName(d) == FullName(d) == Lower(t) && AliasKey(d) == Some(Lower(a))
  {
    SpaceGap();
    OnePart(Bare(t));
    assert t[0..|t|] == t;
    hide Lower, Spaces, Silent, IsClauseWord;
  }

  lemma FoldTwo(c: Clause, d: Clause, t1: string, t2: string, a: string)
    requires |c.parts| > 0 && |d.parts| > 0 && WellFormed([c, d], "")
    requires c.alias.None? && ShortName(c) == FullName(c) == Lower(t1)
    requires AliasKey(d) == Some(Lower(a)) && ShortName(d) == FullName(d) == Lower(t2)
    ensures
      var out := map[Lower(t1) := Lower(t1)][Lower(a) := Lower(t2)];
      Fold([c, d], "", map[]) == if Lower(t2) in out then out else out[Lower(t2) := Lower(t2)]
  {
    hide ShortName, FullName, CutShort, Lower, ClauseOk, EndsAt, Silent, AliasKey, Entered;
    assert [c, d][1..] == [d] && [d][1..] == [];
    EnteredPlain(c, Render([d], ""), t1, map[]);
    EnteredPlain(d, "", t2, map[Lower(t1) := Lower(t1)]);
    assert Render([], "") == "";
    NoAliasKey(c);
    var out := Entered(map[], c, Render([d], ""));
    assert Fold([c, d], "", map[]) == Fold([d], "", out) == Entered(out, d, "");
  }

  lemma NoAliasKey(c: Clause)
    requires c.alias.None?
    ensures AliasKey(c) == None
  {
  }

  // ---- lookups ----------------------------------------------------------------------------

  function LookupIn(out: Aliases, k: string): Option<string> {
    if k in out then Some(out[k]) else None
  }

  /** The table of the last clause that gives the alias. */
  function LastAliasOf(cs: seq<Clause>, k: string): Option<string>
    requires forall i :: 0 <= i < |cs| ==> |cs[i].parts| > 0
  {
    if cs == [] then None
    else
      var later := LastAliasOf(cs[1..], k);
      if later.Some? then later
      else if AliasKey(cs[0]) == Some(k) then Some(ShortName(cs[0]))
      else None
  }

  /** The table of the first clause that names a table `k`, short or, unless cut short, in full. */
  function FirstTableOf(cs: seq<Clause>, tail: string, k: string): Option<string>
    requires forall i :: 0 <= i < |cs| ==> |cs[i].parts| > 0
  {
    if cs == [] then None
    else if ShortName(cs[0]) == k || (FullName(cs[0]) == k && !CutShort(cs[0], Render(cs[1..], tail))) then
      Some(ShortName(cs[0]))
    else FirstTableOf(cs[1..], tail, k)
  }

  lemma {:induction false} PartsGiven(cs: seq<Clause>, tail: string)
    requires WellFormed(cs, tail)
    ensures forall i :: 0 <= i < |cs| ==> |cs[i].parts| > 0
  {
    if cs != [] {
      PartsGiven(cs[1..], tail);
      assert forall i :: 0 < i < |cs| ==> cs[i] == cs[1..][i - 1];
    }
  }

  lemma EnteredLookup(out: Aliases, c: Clause, rest: string, k: string)
    requires |c.parts| > 0
    ensures LookupIn(Entered(out, c, rest), k) ==
      if AliasKey(c) == Some(k) then Some(ShortName(c))
      else if k in out then Some(out[k])
      else if ShortName(c) == k || (FullName(c) == k && !CutShort(c, rest)) then Some(ShortName(c))
      else None
  {
    hide Lower, ShortName, FullName, CutShort;
  }

  /** The last clause with an alias decides it; without one, the first clause that names the table does. */
  lemma {:induction false} FoldLookup(cs: seq<Clause>, tail: string, out: Aliases, k: string)
    requires WellFormed(cs, tail)
    ensures forall i :: 0 <= i < |cs| ==> |cs[i].parts| > 0
    ensures LookupIn(Fold(cs, tail, out), k) ==
      if LastAliasOf(cs, k).Some? then LastAliasOf(cs, k)
      else if k in out then Some(out[k])
      else FirstTableOf(cs, tail, k)
    decreases |cs|
  {
    PartsGiven(cs, tail);
    if cs != [] {
      hide Entered, Lower, ShortName, FullName, CutShort, ClauseOk, EndsAt, Render;
      var out' := Entered(out, cs[0], Render(cs[1..], tail));
      EnteredLookup(out, cs[0], Render(cs[1..], tail), k);
      FoldLookup(cs[1..], tail, out', k);
    }
  }
}
