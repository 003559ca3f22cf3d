/** The statements the application prints, as structure, and a reader from text to structure. */
module SqlStatements {
  import opened Prelude
  import opened SqlText

  /** `(columns) > ($places)`. */
  datatype RowComparison = RowComparison(columns: seq<string>, places: seq<nat>)

  /** `columns` is None for `SELECT *`. */
  datatype SelectStmt = Select(
    columns: Option<seq<string>>,
    from: seq<string>,
    after: Option<RowComparison>,
    orderBy: seq<string>,
    limit: nat)

  function Expect(ts: seq<Tok>, tok: Tok): Option<seq<Tok>> {
    if ts != [] && ts[0] == tok then Some(ts[1..]) else None
  }

  /** Identifiers with the separator `sep` between them. */
  function ParseIdents(ts: seq<Tok>, sep: char): Option<(seq<string>, seq<Tok>)> {
    if ts == [] || !ts[0].Ident? then None
    else if |ts| > 1 && ts[1] == Sym(sep) then
      var (names, rest) :- ParseIdents(ts[2..], sep);
      Some(([ts[0].name] + names, rest))
    else Some(([ts[0].name], ts[1..]))
  }

  function ParseParams(ts: seq<Tok>): Option<(seq<nat>, seq<Tok>)> {
    if ts == [] || !ts[0].Param? then None
    else if |ts| > 1 && ts[1] == Sym(',') then
      var (places, rest) :- ParseParams(ts[2..]);
      Some(([ts[0].index] + places, rest))
    else Some(([ts[0].index], ts[1..]))
  }

  /** `a > $1` or `(a, b) > ($1, $2)`. */
  function ParseComparison(ts: seq<Tok>): Option<(RowComparison, seq<Tok>)> {
    if ts != [] && ts[0] == Sym('(') then
      var (names, r1) :- ParseIdents(ts[1..], ',');
      if |r1| >= 3 && r1[..3] == [Sym(')'), Sym('>'), Sym('(')] then
        var (places, r5) :- ParseParams(r1[3..]);
        var r6 :- Expect(r5, Sym(')'));
        Some((RowComparison(names, places), r6))
      else None
    else if |ts| >= 3 && ts[0].Ident? && ts[1] == Sym('>') && ts[2].Param? then
      Some((RowComparison([ts[0].name], [ts[2].index]), ts[3..]))
    else None
  }

  function ParseWhere(ts: seq<Tok>): Option<(Option<RowComparison>, seq<Tok>)> {
    if ts != [] && ts[0] == Word("WHERE") then
      var (cmp, rest) :- ParseComparison(ts[1..]);
      Some((Some(cmp), rest))
    else Some((None, ts))
  }

  function ParseColumns(ts: seq<Tok>): Option<(Option<seq<string>>, seq<Tok>)> {
    if ts != [] && ts[0] == Sym('*') then Some((None, ts[1..]))
    else
      var (names, rest) :- ParseIdents(ts, ',');
      Some((Some(names), rest))
  }

  function ParseOrder(ts: seq<Tok>): Option<(seq<string>, nat)> {
    var r5 :- Expect(ts, Word("ORDER"));
    var r6 :- Expect(r5, Word("BY"));
    var (orderBy, r7) :- ParseIdents(r6, ',');
    var r8 :- Expect(r7, Word("LIMIT"));
    if |r8| == 1 && r8[0].Param? then Some((orderBy, r8[0].index)) else None
  }

  function ParseSelect(ts: seq<Tok>): Option<SelectStmt> {
    var r0 :- Expect(ts, Word("SELECT"));
    var (columns, r1) :- ParseColumns(r0);
    var r2 :- Expect(r1, Word("FROM"));
    var (from, r3) :- ParseIdents(r2, '.');
    var (after, r4) :- ParseWhere(r3);
    var (orderBy, limit) :- ParseOrder(r4);
    Some(Select(columns, from, after, orderBy, limit))
  }

  function ReadSelect(sql: string): Option<SelectStmt> {
    var ts :- Lex(sql);
    ParseSelect(ts)
  }

  // ---- the reader on joined lists ---------------------------------------------------------

  function IdentToks(names: seq<string>): (ts: seq<seq<Tok>>)
    ensures |ts| == |names|
    ensures forall i :: 0 <= i < |names| ==> ts[i] == [Ident(names[i])]
  {
    MapSeq(names, name => [Ident(name)])
  }

  function ParamToks(places: seq<nat>): (ts: seq<seq<Tok>>)
    ensures |ts| == |places|
    ensures forall i :: 0 <= i < |places| ==> ts[i] == [Param(places[i])]
  {
    MapSeq(places, place => [Param(place)])
  }

  lemma {:induction false} ParseIdentsBack(names: seq<string>, sep: char, rest: seq<Tok>)
    requires |names| > 0
    requires rest == [] || rest[0] != Sym(sep)
    ensures ParseIdents(JoinToks(IdentToks(names), [Sym(sep)]) + rest, sep) == Some((names, rest))
  {
    var ts := JoinToks(IdentToks(names), [Sym(sep)]) + rest;
    if |names| == 1 {
      assert ts == [Ident(names[0])] + rest && ts[1..] == rest;
      assert names == [names[0]];
    } else {
      var more := JoinToks(IdentToks(names[1..]), [Sym(sep)]) + rest;
      assert ts == [Ident(names[0])] + [Sym(sep)] + more;
      ParseIdentsBack(names[1..], sep, rest);
      assert ts[2..] == more;
      assert [names[0]] + names[1..] == names;
    }
  }

  lemma {:induction false} ParseParamsBack(places: seq<nat>, rest: seq<Tok>)
    requires |places| > 0
    requires rest == [] || rest[0] != Sym(',')
    ensures ParseParams(JoinToks(ParamToks(places), [Sym(',')]) + rest) == Some((places, rest))
  {
    var ts := JoinToks(ParamToks(places), [Sym(',')]) + rest;
    if |places| == 1 {
      assert ts == [Param(places[0])] + rest && ts[1..] == rest;
      assert places == [places[0]];
    } else {
      var more := JoinToks(ParamToks(places[1..]), [Sym(',')]) + rest;
      assert ts == [Param(places[0])] + [Sym(',')] + more;
      ParseParamsBack(places[1..], rest);
      assert ts[2..] == more;
      assert [places[0]] + places[1..] == places;
    }
  }

  // ---- SELECT as tokens -------------------------------------------------------------------

  function ComparisonToks(cmp: RowComparison): seq<Tok> {
    if |cmp.columns| == 1 && |cmp.places| == 1 then
      [Ident(cmp.columns[0]), Sym('>'), Param(cmp.places[0])]
    else
      [Sym('(')] + (JoinToks(IdentToks(cmp.columns), [Sym(',')]) + ([Sym(')'), Sym('>'), Sym('(')] +
      (JoinToks(ParamToks(cmp.places), [Sym(',')]) + [Sym(')')])))
  }

  function WhereToks(after: Option<RowComparison>): seq<Tok> {
    if after.None? then [] else [Word("WHERE")] + ComparisonToks(after.value)
  }

  function ColumnsToks(columns: Option<seq<string>>): seq<Tok> {
    if columns.None? then [Sym('*')] else JoinToks(IdentToks(columns.value), [Sym(',')])
  }

  function OrderToks(q: SelectStmt): seq<Tok> {
    [Word("ORDER"), Word("BY")] + (JoinToks(IdentToks(q.orderBy), [Sym(',')]) + [Word("LIMIT"), Param(q.limit)])
  }

  function SelectToks(q: SelectStmt): seq<Tok> {
    [Word("SELECT")] + (ColumnsToks(q.columns) + ([Word("FROM")] + (JoinToks(IdentToks(q.from), [Sym('.')]) +
    (WhereToks(q.after) + OrderToks(q)))))
  }

  predicate SelectWf(q: SelectStmt) {
    && (q.columns.Some? ==> |q.columns.value| > 0)
    && |q.from| > 0 && |q.orderBy| > 0
    && (q.after.Some? ==> |q.after.value.columns| > 0 && |q.after.value.places| > 0)
  }

  lemma ParseComparisonBack(cmp: RowComparison, rest: seq<Tok>)
    requires |cmp.columns| > 0 && |cmp.places| > 0
    ensures ParseComparison(ComparisonToks(cmp) + rest) == Some((cmp, rest))
  {
    var ts := ComparisonToks(cmp) + rest;
    if |cmp.columns| == 1 && |cmp.places| == 1 {
      assert ts[3..] == rest;
      assert [cmp.columns[0]] == cmp.columns && [cmp.places[0]] == cmp.places;
    } else {
      var sep := [Sym(')'), Sym('>'), Sym('(')];
      var r5 := [Sym(')')] + rest;
      var r4 := JoinToks(ParamToks(cmp.places), [Sym(',')]) + r5;
      var r1 := sep + r4;
      var r0 := JoinToks(IdentToks(cmp.columns), [Sym(',')]) + r1;
      assert ts[0] == Sym('(') && ts[1..] == r0;
      ParseIdentsBack(cmp.columns, ',', r1);
      assert r1[..3] == sep && r1[3..] == r4;
      ParseParamsBack(cmp.places, r5);
      assert Expect(r5, Sym(')')) == Some(rest);
    }
  }

  lemma {:induction false} JoinHead(names: seq<string>, sep: char)
    requires |names| > 0
    ensures |JoinToks(IdentToks(names), [Sym(sep)])| > 0
    ensures JoinToks(IdentToks(names), [Sym(sep)])[0] == Ident(names[0])
  {
  }

  lemma ParseWhereBack(after: Option<RowComparison>, rest: seq<Tok>)
    requires after.Some? ==> |after.value.columns| > 0 && |after.value.places| > 0
    requires rest == [] || rest[0] != Word("WHERE")
    ensures ParseWhere(WhereToks(after) + rest) == Some((after, rest))
  {
    if after.None? {
      assert [] + rest == rest;
    } else {
      ParseComparisonBack(after.value, rest);
      assert (WhereToks(after) + rest)[1..] == ComparisonToks(after.value) + rest;
    }
  }

  lemma ParseColumnsBack(columns: Option<seq<string>>, rest: seq<Tok>)
    requires columns.Some? ==> |columns.value| > 0
    requires rest == [] || rest[0] != Sym(',')
    ensures ParseColumns(ColumnsToks(columns) + rest) == Some((columns, rest))
  {
    if columns.None? {
      assert ([Sym('*')] + rest)[1..] == rest;
    } else {
      JoinHead(columns.value, ',');
      ParseIdentsBack(columns.value, ',', rest);
    }
  }

  lemma ExpectBack(tok: Tok, rest: seq<Tok>)
    ensures Expect([tok] + rest, tok) == Some(rest)
  {
    assert ([tok] + rest)[1..] == rest;
  }

  lemma ParseOrderBack(q: SelectStmt)
    requires |q.orderBy| > 0
    ensures ParseOrder(OrderToks(q)) == Some((q.orderBy, q.limit))
  {
    var r8 := [Param(q.limit)];
    var r7 := [Word("LIMIT")] + r8;
    var r6 := JoinToks(IdentToks(q.orderBy), [Sym(',')]) + r7;
    assert OrderToks(q) == [Word("ORDER")] + ([Word("BY")] + r6);
    ExpectBack(Word("ORDER"), [Word("BY")] + r6);
    ExpectBack(Word("BY"), r6);
    ParseIdentsBack(q.orderBy, ',', r7);
    ExpectBack(Word("LIMIT"), r8);
  }

  /** The reader gives back the statement whose tokens it is given. */
  lemma ParseSelectBack(q: SelectStmt)
    requires SelectWf(q)
    ensures ParseSelect(SelectToks(q)) == Some(q)
  {
    var r4 := OrderToks(q);
    var r3 := WhereToks(q.after) + r4;
    var r2 := JoinToks(IdentToks(q.from), [Sym('.')]) + r3;
    var r1 := [Word("FROM")] + r2;
    var r0 := ColumnsToks(q.columns) + r1;
    ExpectBack(Word("SELECT"), r0);
    ParseColumnsBack(q.columns, r1);
    ExpectBack(Word("FROM"), r2);
    ParseIdentsBack(q.from, '.', r3);
    ParseWhereBack(q.after, r4);
    ParseOrderBack(q);
  }
}
