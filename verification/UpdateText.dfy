/**
 `UPDATE ... SET ... WHERE ... RETURNING *` as structure, its reader, and its text seen as a
 ladder of identifiers with short gaps between them.
 */
module UpdateText {
  import opened Prelude
  import opened SqlText
  import opened SqlStatements

  /** `column = $place`. */
  datatype Term = Term(column: string, place: nat)

  datatype UpdateStmt = Update(table: string, sets: seq<Term>, wheres: seq<Term>)

  // ---- reader -----------------------------------------------------------------------------

  function ParseTerms(ts: seq<Tok>, sep: Tok): Option<(seq<Term>, seq<Tok>)> {
    if |ts| < 3 || !ts[0].Ident? || ts[1] != Sym('=') || !ts[2].Param? then None
    else
      var term := Term(ts[0].name, ts[2].index);
      if |ts| > 3 && ts[3] == sep then
        var (terms, rest) :- ParseTerms(ts[4..], sep);
        Some(([term] + terms, rest))
      else Some(([term], ts[3..]))
  }

  function ParseUpdate(ts: seq<Tok>): Option<UpdateStmt> {
    if |ts| < 3 || ts[0] != Word("UPDATE") || !ts[1].Ident? || ts[2] != Word("SET") then None
    else
      var (sets, r1) :- ParseTerms(ts[3..], Sym(','));
      var r2 :- Expect(r1, Word("WHERE"));
      var (wheres, r3) :- ParseTerms(r2, Word("AND"));
      if r3 == [Word("RETURNING"), Sym('*')] then Some(Update(ts[1].name, sets, wheres)) else None
  }

  function ReadUpdate(sql: string): Option<UpdateStmt> {
    var ts :- Lex(sql);
    ParseUpdate(ts)
  }

  function TermToks(terms: seq<Term>, sep: Tok): seq<Tok> {
    if terms == [] then []
    else
      var head := [Ident(terms[0].column), Sym('='), Param(terms[0].place)];
      if |terms| == 1 then head else head + ([sep] + TermToks(terms[1..], sep))
  }

  function UpdateToks(q: UpdateStmt): seq<Tok> {
    [Word("UPDATE"), Ident(q.table), Word("SET")] + (TermToks(q.sets, Sym(',')) +
    ([Word("WHERE")] + (TermToks(q.wheres, Word("AND")) + [Word("RETURNING"), Sym('*')])))
  }

  lemma {:induction false} ParseTermsBack(terms: seq<Term>, sep: Tok, rest: seq<Tok>)
    requires |terms| > 0
    requires rest == [] || rest[0] != sep
    ensures ParseTerms(TermToks(terms, sep) + rest, sep) == Some((terms, rest))
  {
    var ts := TermToks(terms, sep) + rest;
    if |terms| == 1 {
      assert ts[3..] == rest && terms == [Term(ts[0].name, ts[2].index)];
    } else {
      ParseTermsBack(terms[1..], sep, rest);
      assert ts[4..] == TermToks(terms[1..], sep) + rest;
      assert terms == [Term(ts[0].name, ts[2].index)] + terms[1..];
    }
  }

  lemma {:induction false} ParseTermsExact(ts: seq<Tok>, sep: Tok)
    requires ParseTerms(ts, sep).Some?
    ensures var (terms, rest) := ParseTerms(ts, sep).value;
      |terms| > 0 && ts == TermToks(terms, sep) + rest
  {
    if |ts| > 3 && ts[3] == sep {
      ParseTermsExact(ts[4..], sep);
      var (terms, rest) := ParseTerms(ts[4..], sep).value;
      assert ([Term(ts[0].name, ts[2].index)] + terms)[1..] == terms;
      assert ts == ts[..3] + [ts[3]] + ts[4..];
    } else {
      assert ts == ts[..3] + ts[3..];
    }
  }

  lemma ParseUpdateBack(q: UpdateStmt)
    requires |q.sets| > 0 && |q.wheres| > 0
    ensures ParseUpdate(UpdateToks(q)) == Some(q)
  {
    hide TermToks, ParseTerms;
    var ts := UpdateToks(q);
    var r3 := [Word("RETURNING"), Sym('*')];
    var r2 := TermToks(q.wheres, Word("AND")) + r3;
    var r1 := [Word("WHERE")] + r2;
    ParseTermsBack(q.sets, Sym(','), r1);
    ParseTermsBack(q.wheres, Word("AND"), r3);
    assert ts[3..] == TermToks(q.sets, Sym(',')) + r1;
    ExpectBack(Word("WHERE"), r2);
  }

  lemma ParseUpdateExact(ts: seq<Tok>)
    requires ParseUpdate(ts).Some?
    ensures ts == UpdateToks(ParseUpdate(ts).value)
  {
    hide TermToks, ParseTerms;
    var (sets, r1) := ParseTerms(ts[3..], Sym(',')).value;
    ParseTermsExact(ts[3..], Sym(','));
    var r2 := r1[1..];
    ParseTermsExact(r2, Word("AND"));
    assert ts == ts[..3] + ts[3..] && r1 == [r1[0]] + r2;
  }

  /** The reader accepts the tokens of a statement, and for that statement nothing else. */
  lemma ParseUpdateIff(ts: seq<Tok>, q: UpdateStmt)
    requires |q.sets| > 0 && |q.wheres| > 0
    ensures ParseUpdate(ts) == Some(q) <==> ts == UpdateToks(q)
  {
    ParseUpdateBack(q);
    if ParseUpdate(ts) == Some(q) {
      ParseUpdateExact(ts);
    }
  }

  // ---- the text as a ladder ---------------------------------------------------------------

  datatype Sep = Head | SetSep | Comma | WhereSep | AndSep

  /** An identifier and what separates it from the term before it. */
  datatype Rung = Rung(sep: Sep, name: string)

  function SepText(sep: Sep): string {
    match sep
    case Head => "UPDATE "
    case SetSep => " SET "
    case Comma => ", "
    case WhereSep => " WHERE "
    case AndSep => " AND "
  }

  function SepTok(sep: Sep): Tok {
    match sep
    case Head => Word("UPDATE")
    case SetSep => Word("SET")
    case Comma => Sym(',')
    case WhereSep => Word("WHERE")
    case AndSep => Word("AND")
  }

  /** What stands before an identifier: the placeholder of the term before it, and the separator. */
  function Gap(sep: Sep, k: nat): string {
    if sep.Head? || sep.SetSep? then SepText(sep) else "=$" + Dec(k) + SepText(sep)
  }

  function GapToks(sep: Sep, k: nat): seq<Tok> {
    if sep.Head? || sep.SetSep? then [SepTok(sep)] else [Sym('='), Param(k), SepTok(sep)]
  }

  /** The rungs as text; the term before the first of them has placeholder `k`. */
  function Ladder(rungs: seq<Rung>, k: nat): string {
    if rungs == [] then ""
    else Gap(rungs[0].sep, k) + QuoteIdent(rungs[0].name) + Ladder(rungs[1..], if rungs[0].sep.Head? then k else k + 1)
  }

  function LadderToks(rungs: seq<Rung>, k: nat): seq<Tok> {
    if rungs == [] then []
    else
      GapToks(rungs[0].sep, k) + [Ident(rungs[0].name)] +
      LadderToks(rungs[1..], if rungs[0].sep.Head? then k else k + 1)
  }

  lemma SepPiece(sep: Sep)
    ensures Open(SepText(sep), [SepTok(sep)])
    ensures !sep.Head? ==> Delim(SepText(sep)) && SepText(sep) != ""
  {
    match sep
    case Head => LeadingWordPiece("UPDATE"); assert "UPDATE" + " " == "UPDATE ";
    case SetSep => SpacedWordPiece("SET"); assert " " + "SET" + " " == " SET ";
    case Comma => CommaPiece();
    case WhereSep => SpacedWordPiece("WHERE"); assert " " + "WHERE" + " " == " WHERE ";
    case AndSep => SpacedWordPiece("AND"); assert " " + "AND" + " " == " AND ";
  }

  /** `=$k`. */
  lemma PlacePiece(k: nat)
    ensures Closed("=$" + Dec(k), [Sym('='), Param(k)])
  {
    SymPiece('=');
    ParamPiece(k);
    OpenClosed("=", [Sym('=')], "$" + Dec(k), [Param(k)]);
    assert "=" + ("$" + Dec(k)) == "=$" + Dec(k);
    assert [Sym('=')] + [Param(k)] == [Sym('='), Param(k)];
  }

  lemma GapPiece(sep: Sep, k: nat)
    ensures Open(Gap(sep, k), GapToks(sep, k))
    ensures !sep.Head? ==> Delim(Gap(sep, k)) && Gap(sep, k) != ""
  {
    SepPiece(sep);
    if !sep.Head? && !sep.SetSep? {
      PlacePiece(k);
      ClosedOpen("=$" + Dec(k), [Sym('='), Param(k)], SepText(sep), [SepTok(sep)]);
      assert [Sym('='), Param(k)] + [SepTok(sep)] == GapToks(sep, k);
    }
  }

  /** Only the first rung may be the head of the statement. */
  predicate HeadFirst(rungs: seq<Rung>) {
    forall i :: 0 < i < |rungs| ==> !rungs[i].sep.Head?
  }

  lemma RungPiece(rung: Rung, k: nat)
    ensures Closed(Gap(rung.sep, k) + QuoteIdent(rung.name), GapToks(rung.sep, k) + [Ident(rung.name)])
  {
    GapPiece(rung.sep, k);
    IdentPiece(rung.name);
    OpenClosed(Gap(rung.sep, k), GapToks(rung.sep, k), QuoteIdent(rung.name), [Ident(rung.name)]);
  }

  /** A ladder lexes to its tokens when a delimiter follows. */
  lemma {:induction false} LadderPiece(rungs: seq<Rung>, k: nat)
    requires |rungs| > 0 && HeadFirst(rungs)
    ensures Closed(Ladder(rungs, k), LadderToks(rungs, k))
    ensures !rungs[0].sep.Head? ==> Delim(Ladder(rungs, k)) && Ladder(rungs, k) != ""
  {
    hide Closed, Open, Delim, Lex, QuoteIdent, Gap, GapToks;
    var k' := if rungs[0].sep.Head? then k else k + 1;
    var first := Gap(rungs[0].sep, k) + QuoteIdent(rungs[0].name);
    var firstToks := GapToks(rungs[0].sep, k) + [Ident(rungs[0].name)];
    RungPiece(rungs[0], k);
    if |rungs| == 1 {
      assert first + "" == first && firstToks + [] == firstToks;
      assert Ladder(rungs[1..], k') == "" && LadderToks(rungs[1..], k') == [];
    } else {
      LadderPiece(rungs[1..], k');
      ClosedClosed(first, firstToks, Ladder(rungs[1..], k'), LadderToks(rungs[1..], k'));
    }
    LadderStarts(rungs, k);
  }

  lemma LadderStarts(rungs: seq<Rung>, k: nat)
    requires |rungs| > 0
    ensures !rungs[0].sep.Head? ==> Delim(Ladder(rungs, k)) && Ladder(rungs, k) != ""
  {
    GapPiece(rungs[0].sep, k);
    if !rungs[0].sep.Head? {
      assert Ladder(rungs, k)[0] == Gap(rungs[0].sep, k)[0];
    }
  }

  // ---- the mark -----------------------------------------------------------------------------

  const MARK: string := " RETURNING *"

  predicate MarkAt(s: string, i: nat) {
    i + |MARK| <= |s| && s[i..i + |MARK|] == MARK
  }

  ghost predicate HasMark(s: string) {
    exists i: nat :: MarkAt(s, i)
  }

  /** No mark crosses a quote. */
  lemma MarkSide(a: string, b: string, j: nat)
    ensures MarkAt(a + "\"" + b, j) <==> MarkAt(a, j) || (j > |a| && MarkAt(b, j - |a| - 1))
  {
    var s := a + "\"" + b;
    if j + |MARK| <= |a| {
      assert a[j..j + |MARK|] == s[j..j + |MARK|];
    } else if j <= |a| && j + |MARK| <= |s| {
      assert s[j..j + |MARK|][|a| - j] == '"';
      assert forall k :: 0 <= k < |MARK| ==> MARK[k] != '"';
    } else if j + |MARK| <= |s| {
      assert b[j - |a| - 1..j - |a| - 1 + |MARK|] == s[j..j + |MARK|];
    }
  }

  lemma MarkSplitsAtQuote(a: string, b: string)
    ensures HasMark(a + "\"" + b) <==> HasMark(a) || HasMark(b)
  {
    hide MarkAt;
    var s := a + "\"" + b;
    if HasMark(s) {
      var i: nat :| MarkAt(s, i);
      MarkSide(a, b, i);
    }
    if HasMark(a) {
      var i: nat :| MarkAt(a, i);
      MarkSide(a, b, i);
    }
    if HasMark(b) {
      var i: nat :| MarkAt(b, i);
      MarkSide(a, b, |a| + 1 + i);
      assert MarkAt(s, |a| + 1 + i);
    }
  }

  lemma NoStarNoMark(s: string)
    requires '*' !in s
    ensures !HasMark(s)
  {
    forall i: nat ensures !MarkAt(s, i) {
      if i + |MARK| <= |s| {
        assert s[i..i + |MARK|][|MARK| - 1] == s[i + |MARK| - 1];
        assert MARK[|MARK| - 1] == '*';
      }
    }
  }

  /** Where the mark stands first. */
  function FirstMark(s: string): (r: Option<nat>)
    ensures r.Some? ==> MarkAt(s, r.value) && forall j: nat :: j < r.value ==> !MarkAt(s, j)
    ensures r.None? ==> !HasMark(s)
  {
    if |s| < |MARK| then None
    else if MarkAt(s, 0) then Some(0)
    else
      var r := FirstMark(s[1..]);
      MarkShift(s);
      if r.None? then None else Some(r.value + 1)
  }

  lemma SliceShift(s: string, a: nat, b: nat)
    requires a <= b < |s|
    ensures s[1..][a..b] == s[a + 1..b + 1]
  {
  }

  lemma MarkShift(s: string)
    requires s != ""
    ensures forall j: nat :: j > 0 ==> (MarkAt(s, j) <==> MarkAt(s[1..], j - 1))
  {
    forall j: nat | j > 0 ensures MarkAt(s, j) <==> MarkAt(s[1..], j - 1) {
      if j + |MARK| <= |s| {
        SliceShift(s, j - 1, j - 1 + |MARK|);
      }
    }
  }

  lemma FirstMarkIs(s: string, i: nat)
    requires MarkAt(s, i) && forall j: nat :: j < i ==> !MarkAt(s, j)
    ensures FirstMark(s) == Some(i)
  {
    hide MarkAt;
    assert HasMark(s);
  }

  lemma FirstMarkInFront(a: string, b: string)
    requires HasMark(a)
    ensures FirstMark(a + "\"" + b) == FirstMark(a)
  {
    var s, i := a + "\"" + b, FirstMark(a).value;
    assert i < |a|;
    hide MarkAt, HasMark, FirstMark;
    forall j: nat | j <= i ensures MarkAt(s, j) <==> j == i {
      MarkSide(a, b, j);
    }
    FirstMarkIs(s, i);
  }

  lemma NoMarkBefore(a: string, b: string, j: nat)
    requires !HasMark(a) && FirstMark(b).Some?
    requires j < |a| + 1 + FirstMark(b).value
    ensures !MarkAt(a + "\"" + b, j)
  {
    hide MarkAt, FirstMark;
    MarkSide(a, b, j);
    if j > |a| {
      var i: nat := j - |a| - 1;
      assert !MarkAt(b, i);
    }
  }

  lemma FirstMarkBehind(a: string, b: string)
    requires !HasMark(a) && HasMark(b)
    ensures FirstMark(a + "\"" + b) == Some(|a| + 1 + FirstMark(b).value)
  {
    hide *;
    var s, f := a + "\"" + b, FirstMark(b).value;
    assert |s| == |a| + 1 + |b|;
    MarkSide(a, b, |a| + 1 + f);
    assert MarkAt(s, |a| + 1 + f);
    forall j: nat | j < |a| + 1 + f ensures !MarkAt(s, j) {
      NoMarkBefore(a, b, j);
    }
    FirstMarkIs(s, |a| + 1 + f);
  }

  // ---- the mark in quoted names -------------------------------------------------------------

  lemma DoubledCons(c: char, s: string, q: char)
    ensures Doubled([c] + s, q) == (if c == q then [q, q] else [c]) + Doubled(s, q)
  {
    assert ([c] + s)[1..] == s;
  }

  lemma {:induction false} DoubledAppend(a: string, b: string, q: char)
    ensures Doubled(a + b, q) == Doubled(a, q) + Doubled(b, q)
  {
    if a == "" {
      assert a + b == b;
    } else {
      var rest := a[1..];
      assert a == [a[0]] + rest && a + b == [a[0]] + (rest + b);
      hide Doubled;
      DoubledCons(a[0], rest, q);
      DoubledCons(a[0], rest + b, q);
      DoubledAppend(rest, b, q);
    }
  }

  lemma {:induction false} DoubledPlain(a: string, q: char)
    requires q !in a
    ensures Doubled(a, q) == a
  {
    if a != "" { DoubledPlain(a[1..], q); }
  }

  function FirstQuote(s: string): (i: nat)
    ensures i <= |s| && '"' !in s[..i] && (i < |s| ==> s[i] == '"')
  {
    if s == "" || s[0] == '"' then 0
    else
      var i := FirstQuote(s[1..]) + 1;
      assert s[..i] == [s[0]] + s[1..][..i - 1];
      i
  }

  /** Quoting a name neither makes nor breaks a mark in it. */
  lemma {:induction false} MarkInQuoted(name: string)
    ensures HasMark(Doubled(name, '"')) <==> HasMark(name)
    decreases |name|
  {
    var i := FirstQuote(name);
    if i == |name| {
      assert name[..i] == name;
      DoubledPlain(name, '"');
    } else {
      var a, b := name[..i], name[i + 1..];
      assert name == a + "\"" + b && name == a + ("\"" + b);
      DoubledAppend(a, "\"" + b, '"');
      DoubledPlain(a, '"');
      assert ("\"" + b)[1..] == b;
      var d := Doubled(b, '"');
      assert Doubled(name, '"') == a + "\"" + ("" + "\"" + d);
      MarkSplitsAtQuote(a, b);
      MarkSplitsAtQuote(a, "" + "\"" + d);
      MarkSplitsAtQuote("", d);
      NoStarNoMark("");
      MarkInQuoted(b);
    }
  }

  lemma GapHasNoMark(sep: Sep, k: nat)
    ensures !HasMark(Gap(sep, k))
  {
    hide HasMark, Dec;
    DecReadBack(k);
    var d, t := Dec(k), SepText(sep);
    assert '*' !in d && '*' !in t;
    assert '*' !in "=$" + d + t;
    NoStarNoMark(Gap(sep, k));
  }

  ghost predicate AnyMarked(rungs: seq<Rung>) {
    exists i :: 0 <= i < |rungs| && HasMark(rungs[i].name)
  }

  function NextPlace(rung: Rung, k: nat): nat {
    if rung.sep.Head? then k else k + 1
  }

  /** The first rung with its quotes taken apart. */
  lemma LadderUnfold(rungs: seq<Rung>, k: nat, tail: string)
    requires |rungs| > 0
    ensures Ladder(rungs, k) + tail ==
      Gap(rungs[0].sep, k) + "\"" +
        (Doubled(rungs[0].name, '"') + "\"" + (Ladder(rungs[1..], NextPlace(rungs[0], k)) + tail))
  {
  }

  /** A ladder holds a mark just when one of its names does. */
  lemma {:induction false} LadderMark(rungs: seq<Rung>, k: nat, tail: string)
    ensures HasMark(Ladder(rungs, k) + tail) <==> AnyMarked(rungs) || HasMark(tail)
  {
    hide Ladder, Gap, HasMark, Doubled;
    if rungs == [] {
      assert Ladder(rungs, k) + tail == tail by { LadderEmpty(k); }
    } else {
      var rest := Ladder(rungs[1..], NextPlace(rungs[0], k)) + tail;
      var esc := Doubled(rungs[0].name, '"');
      LadderUnfold(rungs, k, tail);
      MarkSplitsAtQuote(Gap(rungs[0].sep, k), esc + "\"" + rest);
      GapHasNoMark(rungs[0].sep, k);
      MarkSplitsAtQuote(esc, rest);
      MarkInQuoted(rungs[0].name);
      LadderMark(rungs[1..], NextPlace(rungs[0], k), tail);
      assert AnyMarked(rungs) <==> HasMark(rungs[0].name) || AnyMarked(rungs[1..]) by {
        assert forall i :: 0 <= i < |rungs| - 1 ==> rungs[1..][i] == rungs[i + 1];
      }
    }
  }

  lemma LadderEmpty(k: nat)
    ensures Ladder([], k) == "" && LadderToks([], k) == []
  {
  }

  // ---- a guard spliced into a name ----------------------------------------------------------

  /** A cut of a quoted name before two plain characters is a cut of the name. */
  lemma {:induction false} CutOfQuoted(name: string, o: nat) returns (m: nat)
    requires o + 1 < |Doubled(name, '"')|
    requires Doubled(name, '"')[o] != '"' && Doubled(name, '"')[o + 1] != '"'
    ensures m + 1 < |name| && Doubled(name[..m], '"') == Doubled(name, '"')[..o]
    ensures name[m + 1] == Doubled(name, '"')[o + 1]
  {
    var h := if name[0] == '"' then "\"\"" else [name[0]];
    var rest := name[1..];
    assert Doubled(name, '"') == h + Doubled(rest, '"');
    if o == 0 {
      m := 0;
      assert name[..0] == "" && Doubled(rest, '"')[0] == rest[0];
    } else {
      assert o >= |h|;
      m := CutOfQuoted(rest, o - |h|);
      m := m + 1;
      assert name[..m][1..] == rest[..m - 1];
      assert h + Doubled(rest, '"')[..o - |h|] == Doubled(name, '"')[..o];
    }
  }

  /** Reading a quoted text that goes on with two plain characters passes them on. */
  lemma {:induction false} ReadPast(n: string, y: string)
    requires |y| >= 2 && y[0] != '"' && y[1] != '"'
    ensures
      var r := ReadQuoted(Doubled(n, '"') + y, '"');
      r.Some? ==> |r.value.0| > |n| + 1 && r.value.0[|n| + 1] == y[1]
  {
    var t := Doubled(n, '"') + y;
    if n == "" {
      assert t == y;
      assert t[1..][0] == y[1];
    } else {
      ReadPast(n[1..], y);
      if n[0] == '"' {
        assert t[2..] == Doubled(n[1..], '"') + y;
      } else {
        assert t[1..] == Doubled(n[1..], '"') + y;
      }
    }
  }

  lemma LexQuoted(x: string)
    ensures Lex("\"" + x) ==
      var r := ReadQuoted(x, '"');
      if r.None? then None else Cons(Ident(r.value.0), Lex(r.value.1))
  {
    var t := "\"" + x;
    assert t[1..] == x && Skip(t) == t;
  }

  lemma FirstMarkSome(s: string)
    requires FirstMark(s).Some?
    ensures HasMark(s) && FirstMark(s).value + |MARK| <= |s| && FirstMark(s).value + 1 < |s|
    ensures s[FirstMark(s).value] == ' ' && s[FirstMark(s).value + 1] == 'R'
  {
    var i := FirstMark(s).value;
    assert s[i..i + |MARK|][0] == ' ' && s[i..i + |MARK|][1] == 'R';
  }

  /** Cutting a name at its mark and going on with ` A` makes it another identifier, or none. */
  lemma NameDiverted(name: string, y: string, more: seq<Tok>)
    requires HasMark(name) && |y| >= 2 && y[..2] == " A"
    ensures FirstMark(Doubled(name, '"')).Some?
    ensures Lex("\"" + (Doubled(name, '"')[..FirstMark(Doubled(name, '"')).value] + y)) != Some([Ident(name)] + more)
  {
    hide *;
    MarkInQuoted(name);
    var esc := Doubled(name, '"');
    FirstMarkExists(esc);
    FirstMarkSome(esc);
    var o := FirstMark(esc).value;
    var m := CutOfQuoted(name, o);
    assert y[..2][0] == ' ' && y[..2][1] == 'A';
    ReadPast(name[..m], y);
    LexQuoted(esc[..o] + y);
    var r := ReadQuoted(esc[..o] + y, '"');
    if r.Some? {
      ConsDiffers(r.value.0, Lex(r.value.1), name, more);
    }
  }

  lemma FirstMarkExists(s: string)
    requires HasMark(s)
    ensures FirstMark(s).Some?
  {
  }

  lemma ConsDiffers(c: string, r: Option<seq<Tok>>, name: string, more: seq<Tok>)
    requires c != name
    ensures Cons(Ident(c), r) != Some([Ident(name)] + more)
  {
    if r.Some? {
      assert ([Ident(c)] + r.value)[0] != ([Ident(name)] + more)[0];
    }
  }

  lemma PrependInj(ts: seq<Tok>, r: Option<seq<Tok>>, us: seq<Tok>)
    requires r != Some(us)
    ensures Prepend(ts, r) != Some(ts + us)
  {
    if r.Some? {
      assert (ts + r.value)[|ts|..] == r.value && (ts + us)[|ts|..] == us;
    }
  }

  /** What follows a rung begins with a delimiter, cut or not. */
  lemma CutDelim(rungs: seq<Rung>, k: nat, tail: string, f: nat, y: string)
    requires |rungs| > 0 && !rungs[0].sep.Head?
    requires f <= |Ladder(rungs, k) + tail| && |y| >= 2 && y[..2] == " A"
    ensures Delim((Ladder(rungs, k) + tail)[..f] + y)
  {
    LadderStarts(rungs, k);
    if f == 0 {
      assert ((Ladder(rungs, k) + tail)[..f] + y)[0] == y[..2][0];
    } else {
      assert ((Ladder(rungs, k) + tail)[..f] + y)[0] == Ladder(rungs, k)[0];
    }
  }

  lemma LadderToksUnfold(rungs: seq<Rung>, k: nat, more: seq<Tok>)
    requires |rungs| > 0
    ensures LadderToks(rungs, k) + more ==
      GapToks(rungs[0].sep, k) + ([Ident(rungs[0].name)] + (LadderToks(rungs[1..], NextPlace(rungs[0], k)) + more))
  {
  }

  lemma CutInFirst(rungs: seq<Rung>, k: nat, tail: string)
    requires |rungs| > 0 && HasMark(rungs[0].name)
    ensures
      var s, esc := Ladder(rungs, k) + tail, Doubled(rungs[0].name, '"');
      FirstMark(esc).Some? && FirstMark(s).Some? &&
        s[..FirstMark(s).value] == Gap(rungs[0].sep, k) + ("\"" + esc[..FirstMark(esc).value])
  {
    hide *;
    var sep, name := rungs[0].sep, rungs[0].name;
    var rest := Ladder(rungs[1..], NextPlace(rungs[0], k)) + tail;
    var esc, gap := Doubled(name, '"'), Gap(sep, k);
    LadderUnfold(rungs, k, tail);
    GapHasNoMark(sep, k);
    MarkInQuoted(name);
    MarkSplitsAtQuote(esc, rest);
    FirstMarkBehind(gap, esc + "\"" + rest);
    assert esc + "\"" + rest == esc + ("\"" + rest);
    FirstMarkInFront(esc, rest);
    FirstMarkExists(esc);
    FirstMarkSome(esc);
  }

  lemma DivertedHere(rungs: seq<Rung>, k: nat, tail: string, y: string, more: seq<Tok>)
    requires |rungs| > 0 && HasMark(rungs[0].name) && |y| >= 2 && y[..2] == " A"
    ensures FirstMark(Ladder(rungs, k) + tail).Some?
    ensures
      var s := Ladder(rungs, k) + tail;
      Lex(s[..FirstMark(s).value] + y) != Some(LadderToks(rungs, k) + more)
  {
    hide *;
    var sep, name := rungs[0].sep, rungs[0].name;
    CutInFirst(rungs, k, tail);
    FirstMarkSome(Doubled(name, '"'));
    var esc, gap, toks := Doubled(name, '"'), Gap(sep, k), GapToks(sep, k);
    var cut := esc[..FirstMark(esc).value];
    assert gap + ("\"" + cut) + y == gap + ("\"" + (cut + y));
    var more' := LadderToks(rungs[1..], NextPlace(rungs[0], k)) + more;
    NameDiverted(name, y, more');
    GapPiece(sep, k);
    OpenAt(gap, toks, "\"" + (cut + y));
    PrependInj(toks, Lex("\"" + (cut + y)), [Ident(name)] + more');
    LadderToksUnfold(rungs, k, more);
  }

  lemma OpenAt(a: string, ts: seq<Tok>, rest: string)
    requires Open(a, ts)
    ensures Lex(a + rest) == Prepend(ts, Lex(rest))
  {
    assert Before(a, ts, rest);
  }

  lemma ClosedAt(a: string, ts: seq<Tok>, rest: string)
    requires Closed(a, ts) && Delim(rest)
    ensures Lex(a + rest) == Prepend(ts, Lex(rest))
  {
    assert Before(a, ts, rest);
  }

  /**
   A text cut at its first mark, when that mark is in a name, and going on with ` A` does not
   lex to the tokens of the ladder, whatever comes after.
   */
  lemma {:induction false} LadderDiverted(rungs: seq<Rung>, k: nat, tail: string, y: string, more: seq<Tok>)
    requires AnyMarked(rungs) && HeadFirst(rungs) && |y| >= 2 && y[..2] == " A"
    ensures FirstMark(Ladder(rungs, k) + tail).Some?
    ensures
      var s := Ladder(rungs, k) + tail;
      Lex(s[..FirstMark(s).value] + y) != Some(LadderToks(rungs, k) + more)
  {
    if HasMark(rungs[0].name) {
      DivertedHere(rungs, k, tail, y, more);
    } else {
      var i :| 0 < i < |rungs| && HasMark(rungs[i].name);
      assert rungs[1..][i - 1] == rungs[i];
      LadderDiverted(rungs[1..], NextPlace(rungs[0], k), tail, y, more);
      DivertedLater(rungs, k, tail, y, more);
    }
  }

  lemma CutBehindFirst(rungs: seq<Rung>, k: nat, tail: string)
    requires |rungs| > 0 && !HasMark(rungs[0].name)
    requires FirstMark(Ladder(rungs[1..], NextPlace(rungs[0], k)) + tail).Some?
    ensures
      var s, rest := Ladder(rungs, k) + tail, Ladder(rungs[1..], NextPlace(rungs[0], k)) + tail;
      FirstMark(s).Some? &&
        s[..FirstMark(s).value] == Gap(rungs[0].sep, k) + QuoteIdent(rungs[0].name) + rest[..FirstMark(rest).value]
  {
    hide *;
    var sep, name := rungs[0].sep, rungs[0].name;
    var rest := Ladder(rungs[1..], NextPlace(rungs[0], k)) + tail;
    var esc, gap := Doubled(name, '"'), Gap(sep, k);
    LadderUnfold(rungs, k, tail);
    GapHasNoMark(sep, k);
    MarkInQuoted(name);
    FirstMarkSome(rest);
    MarkSplitsAtQuote(esc, rest);
    assert esc + "\"" + rest == esc + ("\"" + rest);
    FirstMarkBehind(gap, esc + "\"" + rest);
    FirstMarkBehind(esc, rest);
    QuoteIdentIs(name);
  }

  lemma DivertedLater(rungs: seq<Rung>, k: nat, tail: string, y: string, more: seq<Tok>)
    requires |rungs| > 1 && !HasMark(rungs[0].name) && HeadFirst(rungs) && |y| >= 2 && y[..2] == " A"
    requires FirstMark(Ladder(rungs[1..], NextPlace(rungs[0], k)) + tail).Some?
    requires
      var rest := Ladder(rungs[1..], NextPlace(rungs[0], k)) + tail;
      Lex(rest[..FirstMark(rest).value] + y) != Some(LadderToks(rungs[1..], NextPlace(rungs[0], k)) + more)
    ensures FirstMark(Ladder(rungs, k) + tail).Some?
    ensures
      var s := Ladder(rungs, k) + tail;
      Lex(s[..FirstMark(s).value] + y) != Some(LadderToks(rungs, k) + more)
  {
    assert !rungs[1..][0].sep.Head? && |rungs[1..]| > 0;
    hide *;
    var sep, name, k' := rungs[0].sep, rungs[0].name, NextPlace(rungs[0], k);
    var rest := Ladder(rungs[1..], k') + tail;
    FirstMarkSome(rest);
    var cut := rest[..FirstMark(rest).value];
    var first, firstToks := Gap(sep, k) + QuoteIdent(name), GapToks(sep, k) + [Ident(name)];
    CutBehindFirst(rungs, k, tail);
    RungPiece(rungs[0], k);
    CutDelim(rungs[1..], k', tail, |cut|, y);
    ClosedAt(first, firstToks, cut + y);
    var more' := LadderToks(rungs[1..], k') + more;
    PrependInj(firstToks, Lex(cut + y), more');
    LadderToksUnfold(rungs, k, more);
    Assoc(first, cut, y);
    Assoc(GapToks(sep, k), [Ident(name)], more');
  }

  lemma Assoc<T>(a: seq<T>, b: seq<T>, c: seq<T>)
    ensures a + b + c == a + (b + c)
  {
  }

  lemma QuoteIdentIs(name: string)
    ensures QuoteIdent(name) == "\"" + Doubled(name, '"') + "\""
  {
  }
}
