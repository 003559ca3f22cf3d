/**
 The table browser: the text of a keyset page (`build_sql_with_schema`), the cursor taken from
 the last row of a page (`next_cursor`), and what a sequence of pages shows.
 */
module TableBrowser {
  import opened Prelude
  import opened SqlText
  import opened SqlStatements
  import opened Relations

  datatype BrowserError =
    | NoIdentity(relation: string)
    | IdentityNotFound
    | CursorLength(got: nat, want: nat)

  /** Primary key columns, else those of the first unique key, nullable or not. */
  function OrderKey(rel: Relation): seq<Id> {
    if rel.primaryKey.Some? then rel.primaryKey.value.columns
    else if |rel.uniqueKeys| > 0 then rel.uniqueKeys[0].columns
    else []
  }

  /** Names of the ids that resolve in the relation. */
  function KeyNames(rel: Relation, ids: seq<Id>): seq<string> {
    if ids == [] then []
    else
      var c := ColumnById(rel, ids[0]);
      (if c.Some? then [c.value.name] else []) + KeyNames(rel, ids[1..])
  }

  function QuoteAll(names: seq<string>): (qs: seq<string>)
    ensures |qs| == |names| && forall i :: 0 <= i < |names| ==> qs[i] == QuoteIdent(names[i])
  {
    MapSeq(names, name => QuoteIdent(name))
  }

  /** `$1`, ..., `$n`. */
  function Places(n: nat): (ps: seq<nat>)
    ensures |ps| == n && forall i :: 0 <= i < n ==> ps[i] == i + 1
  {
    seq(n, i => i + 1)
  }

  function PlaceTexts(n: nat): (ps: seq<string>)
    ensures |ps| == n && forall i :: 0 <= i < n ==> ps[i] == "$" + Dec(i + 1)
  {
    seq(n, i requires i >= 0 => "$" + Dec(i + 1))
  }

  function SelectList(rel: Relation): string {
    if rel.columns == [] then "*" else Join(QuoteAll(ColumnNames(rel.columns)), ", ")
  }

  function FromText(rel: Relation, schemaName: Option<string>): string {
    if schemaName.Some? then QuoteIdent(schemaName.value) + "." + QuoteIdent(rel.name) else QuoteIdent(rel.name)
  }

  function WhereText(names: seq<string>): string
    requires |names| > 0
  {
    if |names| == 1 then " WHERE " + QuoteIdent(names[0]) + " > $1"
    else " WHERE (" + Join(QuoteAll(names), ", ") + ") > (" + Join(PlaceTexts(|names|), ", ") + ")"
  }

  function BuildSql(rel: Relation, schemaName: Option<string>, limit: nat, cursor: Option<seq<string>>)
    : Result<(string, seq<string>), BrowserError>
  {
    if EditabilityOf(rel) == Disabled then Err(NoIdentity(rel.name))
    else
      var names := KeyNames(rel, OrderKey(rel));
      if names == [] then Err(IdentityNotFound)
      else if cursor.Some? && |cursor.value| != |names| then Err(CursorLength(|cursor.value|, |names|))
      else
        var params := (if cursor.Some? then cursor.value else []) + [Dec(limit)];
        Ok((PageText(rel, schemaName, names, cursor.Some?, |params|), params))
  }

  function PageText(rel: Relation, schemaName: Option<string>, names: seq<string>, after: bool, limitPlace: nat): string
    requires |names| > 0
  {
    var where := if after then WhereText(names) else "";
    "SELECT " + SelectList(rel) + " FROM " + FromText(rel, schemaName) + where +
    " ORDER BY " + Join(QuoteAll(names), ", ") + " LIMIT $" + Dec(limitPlace)
  }

  /** The columns pages are ordered by: those of the primary key, else of the first unique key. */
  ghost predicate PagedBy(rel: Relation, ids: seq<Id>) {
    if rel.primaryKey.Some? then ids == rel.primaryKey.value.columns
    else |rel.uniqueKeys| > 0 && ids == rel.uniqueKeys[0].columns
  }

  ghost predicate AllKnown(rel: Relation, ids: seq<Id>) {
    forall k :: 0 <= k < |ids| ==> Known(rel, ids[k])
  }

  lemma {:induction false} KeyNamesAre(rel: Relation, ids: seq<Id>)
    ensures KeyNames(rel, ids) == [] <==> forall k :: 0 <= k < |ids| ==> !Known(rel, ids[k])
    ensures AllKnown(rel, ids) ==>
      && |KeyNames(rel, ids)| == |ids|
      && forall k, c: nat :: 0 <= k < |ids| && IsColumn(rel, ids[k], c) ==> KeyNames(rel, ids)[k] == rel.columns[c].name
  {
    if ids != [] {
      KeyNamesAre(rel, ids[1..]);
      ColumnIs(rel, ids[0]);
      hide IsColumn, Known, ColumnById;
      assert ids == [ids[0]] + ids[1..];
    }
  }

  /** Which error a page is refused with, and that it is printed otherwise. */
  lemma PageErrors(rel: Relation, schemaName: Option<string>, limit: nat, cursor: Option<seq<string>>, ids: seq<Id>)
    requires NoIdentityIn(rel) || PagedBy(rel, ids)
    ensures
      var r := BuildSql(rel, schemaName, limit, cursor);
      && (r == Err(NoIdentity(rel.name)) <==> NoIdentityIn(rel))
      && (r == Err(IdentityNotFound) <==>
            !NoIdentityIn(rel) && forall k :: 0 <= k < |ids| ==> !Known(rel, ids[k]))
      && (!NoIdentityIn(rel) && ids != [] && AllKnown(rel, ids) ==>
            if cursor.Some? && |cursor.value| != |ids| then r == Err(CursorLength(|cursor.value|, |ids|))
            else r.Ok? && r.value.1 == (if cursor.Some? then cursor.value else []) + [Dec(limit)])
  {
    EditableIff(rel);
    KeyNamesAre(rel, OrderKey(rel));
    hide NoIdentityIn, Known, IsColumn, KeyNames, EditabilityOf, PageText, Dec;
  }

  /** The printed page is ordered by the columns of that key. */
  lemma PageOrder(rel: Relation, schemaName: Option<string>, cursor: Option<seq<string>>, ids: seq<Id>)
    requires PagedBy(rel, ids) && AllKnown(rel, ids)
    ensures
      var order := PageStmt(rel, schemaName, cursor).orderBy;
      && |order| == |ids|
      && forall k, c: nat :: 0 <= k < |ids| && IsColumn(rel, ids[k], c) ==> order[k] == rel.columns[c].name
  {
    KeyNamesAre(rel, ids);
    hide KeyNames, IsColumn;
  }

  // ---- the printed statement read back ----------------------------------------------------

  /** The statement a page is meant to be. */
  function PageStmt(rel: Relation, schemaName: Option<string>, cursor: Option<seq<string>>): SelectStmt {
    var names := KeyNames(rel, OrderKey(rel));
    Select(
      if rel.columns == [] then None else Some(ColumnNames(rel.columns)),
      if schemaName.Some? then [schemaName.value, rel.name] else [rel.name],
      if cursor.Some? then Some(RowComparison(names, Places(|names|))) else None,
      names,
      if cursor.Some? then |names| + 1 else 1)
  }

  lemma IdentListPiece(names: seq<string>, sep: string, sepToks: seq<Tok>)
    requires |names| > 0
    requires Open(sep, sepToks) && sep != "" && Delim(sep)
    ensures Closed(Join(QuoteAll(names), sep), JoinToks(IdentToks(names), sepToks))
  {
    forall i | 0 <= i < |names| ensures Closed(QuoteAll(names)[i], IdentToks(names)[i]) {
      IdentPiece(names[i]);
    }
    JoinPiece(QuoteAll(names), IdentToks(names), sep, sepToks);
  }

  lemma PlaceListPiece(n: nat)
    requires n > 0
    ensures Closed(Join(PlaceTexts(n), ", "), JoinToks(ParamToks(Places(n)), [Sym(',')]))
  {
    CommaPiece();
    forall i | 0 <= i < n ensures Closed(PlaceTexts(n)[i], ParamToks(Places(n))[i]) {
      ParamPiece(i + 1);
    }
    JoinPiece(PlaceTexts(n), ParamToks(Places(n)), ", ", [Sym(',')]);
  }

  lemma SelectListPiece(rel: Relation)
    ensures Closed(SelectList(rel), ColumnsToks(if rel.columns == [] then None else Some(ColumnNames(rel.columns))))
  {
    if rel.columns == [] {
      SymPiece('*');
      assert Open("*", [Sym('*')]);
    } else {
      CommaPiece();
      IdentListPiece(ColumnNames(rel.columns), ", ", [Sym(',')]);
    }
  }

  lemma FromPiece(rel: Relation, schemaName: Option<string>)
    ensures Closed(FromText(rel, schemaName),
                   JoinToks(IdentToks(if schemaName.Some? then [schemaName.value, rel.name] else [rel.name]),
                            [Sym('.')]))
  {
    if schemaName.Some? {
      var names := [schemaName.value, rel.name];
      SymPiece('.');
      IdentListPiece(names, ".", [Sym('.')]);
      var qs := QuoteAll(names);
      assert Join(qs, ".") == qs[0] + "." + Join(qs[1..], ".");
      assert Join(qs[1..], ".") == qs[1];
    } else {
      IdentPiece(rel.name);
      assert JoinToks(IdentToks([rel.name]), [Sym('.')]) == [Ident(rel.name)];
    }
  }

  /** ` > `. */
  lemma GreaterPiece()
    ensures Open(" > ", [Sym('>')])
  {
    SpacePiece(' ');
    SymPiece('>');
    OpenOpen(" ", [], ">", [Sym('>')]);
    OpenOpen(" " + ">", [] + [Sym('>')], " ", []);
    assert " " + ">" + " " == " > " && [] + [Sym('>')] + [] == [Sym('>')];
  }

  lemma ParenPieces()
    ensures Open("(", [Sym('(')]) && Open(")", [Sym(')')])
    ensures Open(") > (", [Sym(')'), Sym('>'), Sym('(')])
  {
    SymPiece('(');
    SymPiece(')');
    GreaterPiece();
    OpenOpen(")", [Sym(')')], " > ", [Sym('>')]);
    OpenOpen(")" + " > ", [Sym(')')] + [Sym('>')], "(", [Sym('(')]);
    assert ")" + " > " + "(" == ") > (" && [Sym(')')] + [Sym('>')] + [Sym('(')] == [Sym(')'), Sym('>'), Sym('(')];
  }

  lemma SingleWherePiece(name: string)
    ensures Closed(" WHERE " + QuoteIdent(name) + " > $1", [Word("WHERE"), Ident(name), Sym('>'), Param(1)])
  {
    SpacedWordPiece("WHERE");
    assert " " + "WHERE" + " " == " WHERE ";
    IdentPiece(name);
    OpenClosed(" WHERE ", [Word("WHERE")], QuoteIdent(name), [Ident(name)]);
    GreaterPiece();
    ClosedOpen(" WHERE " + QuoteIdent(name), [Word("WHERE")] + [Ident(name)], " > ", [Sym('>')]);
    ParamPiece(1);
    assert "$" + Dec(1) == "$1";
    OpenClosed(" WHERE " + QuoteIdent(name) + " > ", [Word("WHERE")] + [Ident(name)] + [Sym('>')], "$1", [Param(1)]);
    assert " WHERE " + QuoteIdent(name) + " > " + "$1" == " WHERE " + QuoteIdent(name) + " > $1";
    assert [Word("WHERE")] + [Ident(name)] + [Sym('>')] + [Param(1)] ==
      [Word("WHERE"), Ident(name), Sym('>'), Param(1)];
  }

  lemma WhereHeadPiece(names: seq<string>)
    requires |names| > 1
    ensures Closed(" WHERE (" + Join(QuoteAll(names), ", "),
                   [Word("WHERE")] + [Sym('(')] + JoinToks(IdentToks(names), [Sym(',')]))
  {
    SpacedWordPiece("WHERE");
    assert " " + "WHERE" + " " == " WHERE ";
    ParenPieces();
    CommaPiece();
    IdentListPiece(names, ", ", [Sym(',')]);
    OpenOpen(" WHERE ", [Word("WHERE")], "(", [Sym('(')]);
    assert " WHERE " + "(" == " WHERE (";
    OpenClosed(" WHERE (", [Word("WHERE")] + [Sym('(')],
               Join(QuoteAll(names), ", "), JoinToks(IdentToks(names), [Sym(',')]));
  }

  lemma WhereTailPiece(n: nat)
    requires n > 1
    ensures Open(") > (" + Join(PlaceTexts(n), ", ") + ")",
                 [Sym(')'), Sym('>'), Sym('(')] + JoinToks(ParamToks(Places(n)), [Sym(',')]) + [Sym(')')])
  {
    ParenPieces();
    PlaceListPiece(n);
    var places, toks := Join(PlaceTexts(n), ", "), JoinToks(ParamToks(Places(n)), [Sym(',')]);
    OpenClosed(") > (", [Sym(')'), Sym('>'), Sym('(')], places, toks);
    ClosedOpen(") > (" + places, [Sym(')'), Sym('>'), Sym('(')] + toks, ")", [Sym(')')]);
  }

  lemma Regroup<T>(a: seq<T>, b: seq<T>, c: seq<T>, d: seq<T>, e: seq<T>)
    ensures a + b + c + d + e == (a + b) + (c + d + e)
  {
  }

  lemma RegroupWhere<T>(a: seq<T>, b: seq<T>, c: seq<T>, d: seq<T>, e: seq<T>, f: seq<T>)
    ensures (a + b + c) + (d + e + f) == a + (b + (c + (d + (e + f))))
  {
  }

  lemma RowWhereToks(names: seq<string>)
    requires |names| > 1
    ensures WhereToks(Some(RowComparison(names, Places(|names|)))) ==
      ([Word("WHERE")] + [Sym('(')] + JoinToks(IdentToks(names), [Sym(',')])) +
      ([Sym(')'), Sym('>'), Sym('(')] + JoinToks(ParamToks(Places(|names|)), [Sym(',')]) + [Sym(')')])
  {
    hide JoinToks, IdentToks, ParamToks;
    RegroupWhere([Word("WHERE")], [Sym('(')], JoinToks(IdentToks(names), [Sym(',')]),
                 [Sym(')'), Sym('>'), Sym('(')], JoinToks(ParamToks(Places(|names|)), [Sym(',')]), [Sym(')')]);
  }

  lemma RowWherePiece(names: seq<string>)
    requires |names| > 1
    ensures Closed(WhereText(names), WhereToks(Some(RowComparison(names, Places(|names|)))))
  {
    hide Join, JoinToks, QuoteAll;
    var head := " WHERE (" + Join(QuoteAll(names), ", ");
    var headToks := [Word("WHERE")] + [Sym('(')] + JoinToks(IdentToks(names), [Sym(',')]);
    var tail := ") > (" + Join(PlaceTexts(|names|), ", ") + ")";
    var tailToks := [Sym(')'), Sym('>'), Sym('(')] + JoinToks(ParamToks(Places(|names|)), [Sym(',')]) + [Sym(')')];
    WhereHeadPiece(names);
    WhereTailPiece(|names|);
    assert tail[0] == ')';
    ClosedOpen(head, headToks, tail, tailToks);
    Regroup(" WHERE (", Join(QuoteAll(names), ", "), ") > (", Join(PlaceTexts(|names|), ", "), ")");
    RowWhereToks(names);
  }

  lemma FromWherePiece(rel: Relation, schemaName: Option<string>, cursor: Option<seq<string>>)
    requires KeyNames(rel, OrderKey(rel)) != []
    ensures
      var q := PageStmt(rel, schemaName, cursor);
      Closed(FromText(rel, schemaName) + (if cursor.Some? then WhereText(q.orderBy) else ""),
             JoinToks(IdentToks(q.from), [Sym('.')]) + WhereToks(q.after))
  {
    var q := PageStmt(rel, schemaName, cursor);
    var from, fromToks := FromText(rel, schemaName), JoinToks(IdentToks(q.from), [Sym('.')]);
    FromPiece(rel, schemaName);
    if cursor.Some? {
      var w := WhereText(q.orderBy);
      if |q.orderBy| == 1 {
        SingleWherePiece(q.orderBy[0]);
        assert WhereToks(q.after) == [Word("WHERE"), Ident(q.orderBy[0]), Sym('>'), Param(1)];
      } else {
        RowWherePiece(q.orderBy);
      }
      assert Delim(w) by { assert w[0] == ' '; }
      ClosedClosed(from, fromToks, w, WhereToks(q.after));
    } else {
      assert from + "" == from && fromToks + [] == fromToks;
    }
  }

  lemma OrderPiece(names: seq<string>, k: nat)
    requires |names| > 0
    ensures Closed(" ORDER BY " + Join(QuoteAll(names), ", ") + " LIMIT $" + Dec(k),
                   [Word("ORDER"), Word("BY")] + (JoinToks(IdentToks(names), [Sym(',')]) + [Word("LIMIT"), Param(k)]))
  {
    var ids, idToks := Join(QuoteAll(names), ", "), JoinToks(IdentToks(names), [Sym(',')]);
    SpacedWordPiece("ORDER");
    LeadingWordPiece("BY");
    OpenOpen(" " + "ORDER" + " ", [Word("ORDER")], "BY" + " ", [Word("BY")]);
    assert " " + "ORDER" + " " + ("BY" + " ") == " ORDER BY ";
    CommaPiece();
    IdentListPiece(names, ", ", [Sym(',')]);
    OpenClosed(" ORDER BY ", [Word("ORDER")] + [Word("BY")], ids, idToks);
    SpacedWordPiece("LIMIT");
    assert " " + "LIMIT" + " " == " LIMIT ";
    ClosedOpen(" ORDER BY " + ids, [Word("ORDER")] + [Word("BY")] + idToks, " LIMIT ", [Word("LIMIT")]);
    ParamPiece(k);
    OpenClosed(" ORDER BY " + ids + " LIMIT ", [Word("ORDER")] + [Word("BY")] + idToks + [Word("LIMIT")],
               "$" + Dec(k), [Param(k)]);
    assert " ORDER BY " + ids + " LIMIT " + ("$" + Dec(k)) == " ORDER BY " + ids + " LIMIT $" + Dec(k);
    assert [Word("ORDER")] + [Word("BY")] + idToks + [Word("LIMIT")] + [Param(k)] ==
      [Word("ORDER"), Word("BY")] + (idToks + [Word("LIMIT"), Param(k)]);
  }

  lemma HeadPiece(rel: Relation, columns: Option<seq<string>>)
    requires columns == if rel.columns == [] then None else Some(ColumnNames(rel.columns))
    ensures Open("SELECT " + SelectList(rel) + " FROM ", [Word("SELECT")] + ColumnsToks(columns) + [Word("FROM")])
  {
    LeadingWordPiece("SELECT");
    assert "SELECT" + " " == "SELECT ";
    SelectListPiece(rel);
    OpenClosed("SELECT ", [Word("SELECT")], SelectList(rel), ColumnsToks(columns));
    SpacedWordPiece("FROM");
    assert " " + "FROM" + " " == " FROM ";
    ClosedOpen("SELECT " + SelectList(rel), [Word("SELECT")] + ColumnsToks(columns), " FROM ", [Word("FROM")]);
  }

  lemma SelectPiece(
    rel: Relation, schemaName: Option<string>, cursor: Option<seq<string>>, head: string, mid: string, tail: string
  )
    requires KeyNames(rel, OrderKey(rel)) != []
    requires
      var q := PageStmt(rel, schemaName, cursor);
      && head == "SELECT " + SelectList(rel) + " FROM "
      && mid == FromText(rel, schemaName) + (if cursor.Some? then WhereText(q.orderBy) else "")
      && tail == " ORDER BY " + Join(QuoteAll(q.orderBy), ", ") + " LIMIT $" + Dec(q.limit)
    ensures Closed(head + mid + tail, SelectToks(PageStmt(rel, schemaName, cursor)))
  {
    hide Join, JoinToks, QuoteAll, KeyNames, WhereText, FromText, SelectList, Dec;
    var q := PageStmt(rel, schemaName, cursor);
    var headToks := [Word("SELECT")] + ColumnsToks(q.columns) + [Word("FROM")];
    var midToks := JoinToks(IdentToks(q.from), [Sym('.')]) + WhereToks(q.after);
    HeadPiece(rel, q.columns);
    FromWherePiece(rel, schemaName, cursor);
    OpenClosed(head, headToks, mid, midToks);
    OrderPiece(q.orderBy, q.limit);
    assert tail[0] == ' ';
    ClosedClosed(head + mid, headToks + midToks, tail, OrderToks(q));
    assert headToks + midToks + OrderToks(q) == SelectToks(q);
  }

  lemma RegroupPage(a: string, b: string, c: string, d: string, e: string, f: string, g: string, h: string, i: string)
    ensures a + b + c + d + e + f + g + h + i == (a + b + c) + (d + e) + (f + g + h + i)
  {
  }

  /** Whatever the names contain, the printed text reads back as the page it is meant to be. */
  lemma PrintedPageReadsBack(rel: Relation, schemaName: Option<string>, limit: nat, cursor: Option<seq<string>>)
    requires BuildSql(rel, schemaName, limit, cursor).Ok?
    ensures ReadSelect(BuildSql(rel, schemaName, limit, cursor).value.0) == Some(PageStmt(rel, schemaName, cursor))
  {
    hide Join, QuoteAll, WhereText, FromText, SelectList, Dec, SelectToks, Lex, ParseSelect;
    var q := PageStmt(rel, schemaName, cursor);
    var head := "SELECT " + SelectList(rel) + " FROM ";
    var mid := FromText(rel, schemaName) + (if cursor.Some? then WhereText(q.orderBy) else "");
    var tail := " ORDER BY " + Join(QuoteAll(q.orderBy), ", ") + " LIMIT $" + Dec(q.limit);
    SelectPiece(rel, schemaName, cursor, head, mid, tail);
    RegroupPage("SELECT ", SelectList(rel), " FROM ", FromText(rel, schemaName),
                if cursor.Some? then WhereText(q.orderBy) else "",
                " ORDER BY ", Join(QuoteAll(q.orderBy), ", "), " LIMIT $", Dec(q.limit));
    LexWhole(head + mid + tail, SelectToks(q));
    assert q.columns.Some? ==> |q.columns.value| == |rel.columns|;
    ParseSelectBack(q);
  }
}
