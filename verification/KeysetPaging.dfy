/**
 Browsing a table page by page: each page is the printed statement run by the server, each
 cursor comes from the last row of the page before. The main result says for which relations
 the pages show every row exactly once.
 */
module KeysetPaging {
  import opened Prelude
  import opened SqlText
  import opened SqlStatements
  import opened Values
  import opened Relations
  import opened TableBrowser
  import opened Server

  // ---- next_cursor ------------------------------------------------------------------------

  /** The shown text of each key column, or None when a column or its cell is missing. */
  function CursorOf(cols: seq<Column>, ids: seq<Id>, cells: Tuple): Option<seq<string>> {
    if ids == [] then Some([])
    else
      var pos :- ColumnIndex(cols, ids[0]);
      if pos >= |cells| then None
      else
        var rest :- CursorOf(cols, ids[1..], cells);
        Some([DisplayString(cells[pos])] + rest)
  }

  function NextCursorOf(rel: Relation, cells: Tuple): Option<seq<string>> {
    if rel.primaryKey.None? && rel.uniqueKeys == [] then None else CursorOf(rel.columns, OrderKey(rel), cells)
  }

  /** The column is found and the row has a cell for it. */
  ghost predicate HasCell(rel: Relation, id: Id, cells: Tuple) {
    exists c: nat :: IsColumn(rel, id, c) && c < |cells|
  }

  lemma HasCellIff(rel: Relation, id: Id, cells: Tuple)
    ensures HasCell(rel, id, cells) <==>
      ColumnIndex(rel.columns, id).Some? && ColumnIndex(rel.columns, id).value < |cells|
    ensures forall c: nat :: IsColumn(rel, id, c) ==> ColumnIndex(rel.columns, id) == Some(c)
  {
    var r := ColumnIndex(rel.columns, id);
    if r.Some? { assert IsColumn(rel, id, r.value); }
  }

  lemma {:induction false} CursorCells(rel: Relation, ids: seq<Id>, cells: Tuple)
    ensures CursorOf(rel.columns, ids, cells).Some? <==> forall k :: 0 <= k < |ids| ==> HasCell(rel, ids[k], cells)
    ensures CursorOf(rel.columns, ids, cells).Some? ==>
      && |CursorOf(rel.columns, ids, cells).value| == |ids|
      && forall k, c: nat :: 0 <= k < |ids| && IsColumn(rel, ids[k], c) && c < |cells| ==>
           CursorOf(rel.columns, ids, cells).value[k] == DisplayString(cells[c])
  {
    if ids != [] {
      CursorCells(rel, ids[1..], cells);
      HasCellIff(rel, ids[0], cells);
      hide HasCell, IsColumn, DisplayString;
      assert ids == [ids[0]] + ids[1..];
    }
  }

  /** The cursor is what is shown of the cells the pages are ordered by; None when one of them is missing. */
  lemma CursorIs(rel: Relation, ids: seq<Id>, cells: Tuple)
    requires PagedBy(rel, ids)
    ensures
      var r := NextCursorOf(rel, cells);
      && (r.Some? <==> forall k :: 0 <= k < |ids| ==> HasCell(rel, ids[k], cells))
      && (r.Some? ==>
            |r.value| == |ids| && forall k, c: nat :: 0 <= k < |ids| && IsColumn(rel, ids[k], c) && c < |cells| ==>
              r.value[k] == DisplayString(cells[c]))
  {
    CursorCells(rel, ids, cells);
    hide HasCell, IsColumn, DisplayString, CursorOf;
  }

  ghost function After(done: seq<string>, rest: Option<seq<string>>): Option<seq<string>> {
    if rest.None? then None else Some(done + rest.value)
  }

  /** `next_cursor`: the loop over the key columns, leaving at the first one that is missing. */
  method NextCursor(rel: Relation, row: Row) returns (r: Option<seq<string>>)
    ensures r == NextCursorOf(rel, row.cells)
    ensures r.Some? ==> |r.value| == |OrderKey(rel)|
  {
    if rel.primaryKey.None? && rel.uniqueKeys == [] {
      return None;
    }
    var ids := OrderKey(rel);
    var cursor: seq<string> := [];
    ghost var whole := CursorOf(rel.columns, ids, row.cells);
    assert ids[0..] == ids;
    assert whole.Some? ==> [] + whole.value == whole.value;
    for k := 0 to |ids|
      invariant |cursor| == k
      invariant whole == After(cursor, CursorOf(rel.columns, ids[k..], row.cells))
    {
      assert ids[k..][1..] == ids[k + 1..];
      var pos := ColumnIndex(rel.columns, ids[k]);
      if pos.None? || pos.value >= |row.cells| {
        return None;
      }
      ghost var rest := CursorOf(rel.columns, ids[k + 1..], row.cells);
      var shown := [DisplayString(row.cells[pos.value])];
      assert rest.Some? ==> cursor + (shown + rest.value) == cursor + shown + rest.value;
      cursor := cursor + shown;
    }
    assert ids[|ids|..] == [] && cursor + [] == cursor;
    return Some(cursor);
  }

  // ---- tables a relation describes --------------------------------------------------------

  predicate WellFormed(rel: Relation) {
    && KeysResolve(rel)
    && forall i, j :: 0 <= i < j < |rel.columns| ==> rel.columns[i].name != rel.columns[j].name
  }

  /** Positions of key columns. */
  function Positions(rel: Relation, ids: seq<Id>): (idxs: seq<nat>)
    requires forall k :: 0 <= k < |ids| ==> ColumnIndex(rel.columns, ids[k]).Some?
    ensures |idxs| == |ids| && Within(idxs, |rel.columns|)
    ensures forall k :: 0 <= k < |ids| ==> ColumnIndex(rel.columns, ids[k]) == Some(idxs[k])
  {
    seq(|ids|, k requires 0 <= k < |ids| => ColumnIndex(rel.columns, ids[k]).value)
  }

  /** Two rows differ on the columns, as a unique constraint sees it: NULL differs from NULL. */
  ghost predicate ApartOn(s: Tuple, t: Tuple, cols: seq<ColumnDef>, idxs: seq<nat>)
    requires |s| == |t| == |cols| && Within(idxs, |cols|)
  {
    exists k :: 0 <= k < |idxs| && (s[idxs[k]].Null? || !Tied(s[idxs[k]], t[idxs[k]], cols[idxs[k]].ty))
  }

  ghost predicate KeyHolds(rel: Relation, key: Key, cols: seq<ColumnDef>, rows: seq<Tuple>)
    requires KeyResolves(rel, key) && |cols| == |rel.columns| && Wide(rows, |cols|)
  {
    forall i, j :: 0 <= i < j < |rows| ==> ApartOn(rows[i], rows[j], cols, Positions(rel, key.columns))
  }

  /** Columns as the server has them, with the types `tys`. */
  function Defs(rel: Relation, tys: seq<SqlType>): (cols: seq<ColumnDef>)
    requires |tys| == |rel.columns|
    ensures |cols| == |tys| && forall i :: 0 <= i < |tys| ==> cols[i] == ColumnDef(rel.columns[i].name, tys[i])
  {
    seq(|tys|, i requires 0 <= i < |tys| => ColumnDef(rel.columns[i].name, tys[i]))
  }

  ghost predicate RowsLegal(rel: Relation, cols: seq<ColumnDef>, rows: seq<Tuple>)
    requires WellFormed(rel) && |cols| == |rel.columns| && Wide(rows, |cols|)
  {
    && (forall i, c :: 0 <= i < |rows| && 0 <= c < |rel.columns| && rel.columns[c].notNull ==> !rows[i][c].Null?)
    && (rel.primaryKey.Some? ==>
        && KeyHolds(rel, rel.primaryKey.value, cols, rows)
        && forall i, k :: 0 <= i < |rows| && 0 <= k < |rel.primaryKey.value.columns| ==>
             !rows[i][Positions(rel, rel.primaryKey.value.columns)[k]].Null?)
    && (forall u :: 0 <= u < |rel.uniqueKeys| ==> KeyHolds(rel, rel.uniqueKeys[u], cols, rows))
  }

  /** `tbl` is a table the relation describes: same columns, typed rows, constraints kept. */
  ghost predicate TableOf(rel: Relation, schemaName: Option<string>, tys: seq<SqlType>, tbl: Table)
    requires WellFormed(rel) && |tys| == |rel.columns|
  {
    && tbl.name == rel.name && (schemaName.Some? ==> tbl.schema == schemaName.value)
    && tbl.cols == Defs(rel, tys)
    && Typed(tbl)
    && RowsLegal(rel, tbl.cols, tbl.rows)
  }

  predicate Browsable(rel: Relation) {
    EditabilityOf(rel) != Disabled
  }

  lemma BrowsableHasKey(rel: Relation)
    requires WellFormed(rel) && Browsable(rel)
    ensures |OrderKey(rel)| > 0
    ensures forall k :: 0 <= k < |OrderKey(rel)| ==> ColumnIndex(rel.columns, OrderKey(rel)[k]).Some?
  {
    if rel.primaryKey.None? {
      assert KeyResolves(rel, rel.uniqueKeys[0]);
    }
  }

  /** Positions of the columns pages are ordered by. */
  ghost function OrderPositions(rel: Relation): (idxs: seq<nat>)
    requires WellFormed(rel) && Browsable(rel)
    ensures |idxs| == |OrderKey(rel)| > 0 && Within(idxs, |rel.columns|)
  {
    BrowsableHasKey(rel);
    Positions(rel, OrderKey(rel))
  }

  /** The rows in key order. */
  ghost function KeyOrder(rel: Relation, schemaName: Option<string>, tys: seq<SqlType>, tbl: Table): seq<Tuple>
    requires WellFormed(rel) && Browsable(rel) && |tys| == |rel.columns| && TableOf(rel, schemaName, tys, tbl)
  {
    OrderBy(tbl.rows, tbl.cols, OrderPositions(rel))
  }

  // ---- one page ---------------------------------------------------------------------------

  lemma {:induction false} KeyNamesAt(rel: Relation, ids: seq<Id>)
    requires forall k :: 0 <= k < |ids| ==> ColumnIndex(rel.columns, ids[k]).Some?
    ensures |KeyNames(rel, ids)| == |ids|
    ensures forall k :: 0 <= k < |ids| ==> KeyNames(rel, ids)[k] == rel.columns[Positions(rel, ids)[k]].name
  {
    hide ColumnIndex;
    if ids != [] {
      KeyNamesAt(rel, ids[1..]);
    }
  }

  lemma {:induction false} CursorAt(rel: Relation, ids: seq<Id>, t: Tuple)
    requires forall k :: 0 <= k < |ids| ==> ColumnIndex(rel.columns, ids[k]).Some?
    requires |t| == |rel.columns|
    ensures CursorOf(rel.columns, ids, t).Some? && |CursorOf(rel.columns, ids, t).value| == |ids|
    ensures forall k :: 0 <= k < |ids| ==>
      CursorOf(rel.columns, ids, t).value[k] == DisplayString(t[Positions(rel, ids)[k]])
  {
    hide ColumnIndex, DisplayString;
    if ids != [] {
      CursorAt(rel, ids[1..], t);
    }
  }

  /** A SELECT of every column, in key order, whatever its WHERE keeps. */
  lemma RunSelectIs(q: SelectStmt, params: seq<string>, tbl: Table, idxs: seq<nat>, n: nat)
    requires Typed(tbl) && Within(idxs, |tbl.cols|) && NamesTable(q.from, tbl)
    requires q.columns.Some? ==> Indexes(tbl.cols, q.columns.value) == Some(AllIndexes(|tbl.cols|))
    requires Indexes(tbl.cols, q.orderBy) == Some(idxs)
    requires ParamText(params, q.limit) == Some(Dec(n))
    ensures RunSelect(q, params, tbl) ==
      var kept := Where(q.after, params, tbl);
      if kept.Err? then Err(kept.error) else Ok(Take(OrderBy(kept.value, tbl.cols, idxs), n))
  {
    ReadIntSignedDec(n);
    var kept := Where(q.after, params, tbl);
    if kept.Ok? {
      var page := Take(OrderBy(kept.value, tbl.cols, idxs), n);
      ProjectAllSame(page, |tbl.cols|);
    }
  }

  lemma PageNames(rel: Relation, tys: seq<SqlType>)
    requires WellFormed(rel) && Browsable(rel) && |tys| == |rel.columns|
    ensures var idxs := OrderPositions(rel);
      && KeyNames(rel, OrderKey(rel)) != []
      && |KeyNames(rel, OrderKey(rel))| == |OrderKey(rel)|
      && Indexes(Defs(rel, tys), KeyNames(rel, OrderKey(rel))) == Some(idxs)
      && Indexes(Defs(rel, tys), ColumnNames(rel.columns)) == Some(AllIndexes(|tys|))
  {
    var cols, idxs := Defs(rel, tys), OrderPositions(rel);
    BrowsableHasKey(rel);
    KeyNamesAt(rel, OrderKey(rel));
    IndexesFound(cols, KeyNames(rel, OrderKey(rel)), idxs);
    IndexesFound(cols, ColumnNames(rel.columns), AllIndexes(|tys|));
  }

  /** What a page shows: the rows greater than the cursor, in key order, cut at the limit. */
  lemma PageIs(
    rel: Relation, schemaName: Option<string>, tys: seq<SqlType>, tbl: Table, n: nat, cursor: Option<seq<string>>
  )
    requires WellFormed(rel) && Browsable(rel) && |tys| == |rel.columns| && TableOf(rel, schemaName, tys, tbl)
    requires cursor.Some? ==> |cursor.value| == |OrderKey(rel)|
    ensures BuildSql(rel, schemaName, n, cursor).Ok?
    ensures BuildSql(rel, schemaName, n, cursor).value.1 == (if cursor.Some? then cursor.value else []) + [Dec(n)]
    ensures
      var idxs, params := OrderPositions(rel), BuildSql(rel, schemaName, n, cursor).value.1;
      var after := if cursor.Some? then Some(RowComparison(KeyNames(rel, OrderKey(rel)), Places(|idxs|))) else None;
      var kept := Where(after, params, tbl);
      Query(BuildSql(rel, schemaName, n, cursor).value.0, params, tbl) ==
      if kept.Err? then Err(kept.error) else Ok(Take(OrderBy(kept.value, tbl.cols, idxs), n))
  {
    hide Lex, ParseSelect, PageText, RunSelect, KeyNames, OrderBy, Where, RowsLegal, HasType, ReadSelect, EditabilityOf;
    PageNames(rel, tys);
    var (sql, params) := BuildSql(rel, schemaName, n, cursor).value;
    PrintedPageReadsBack(rel, schemaName, n, cursor);
    var q := PageStmt(rel, schemaName, cursor);
    assert ParamText(params, q.limit) == Some(Dec(n));
    RunSelectIs(q, params, tbl, OrderPositions(rel), n);
  }

  lemma ProjectAllSame(rows: seq<Tuple>, w: nat)
    requires Wide(rows, w)
    ensures ProjectAll(rows, w, AllIndexes(w)) == rows
  {
    forall i | 0 <= i < |rows| ensures Project(rows[i], AllIndexes(w)) == rows[i] {
      assert |rows[i]| == w;
    }
  }

  // ---- the rows after a cursor ------------------------------------------------------------

  /** The first `m` key columns hold no NULL and tell the rows apart. */
  ghost predicate Decided(rows: seq<Tuple>, cols: seq<ColumnDef>, idxs: seq<nat>, m: nat)
    requires Wide(rows, |cols|) && Within(idxs, |cols|) && m <= |idxs|
  {
    && (forall i, k :: 0 <= i < |rows| && 0 <= k < m ==> !rows[i][idxs[k]].Null?)
    && (forall i, j :: 0 <= i < j < |rows| ==> Apart(rows[i], rows[j], cols, idxs, m))
  }

  ghost predicate Apart(s: Tuple, t: Tuple, cols: seq<ColumnDef>, idxs: seq<nat>, m: nat)
    requires |s| == |t| == |cols| && Within(idxs, |cols|) && m <= |idxs|
  {
    exists k :: 0 <= k < m && !Tied(s[idxs[k]], t[idxs[k]], cols[idxs[k]].ty)
  }

  /** The first `m` of `vals` are values equal to those of `t`. */
  ghost predicate ValuesOf(vals: seq<CellValue>, t: Tuple, cols: seq<ColumnDef>, idxs: seq<nat>, m: nat)
    requires |t| == |cols| && Within(idxs, |cols|) && m <= |idxs|
  {
    |vals| == |idxs| && forall k :: 0 <= k < m ==> Tied(vals[k], t[idxs[k]], cols[idxs[k]].ty)
  }

  /** Where `vals` first differ from the values of `t` they are not smaller. */
  ghost predicate NeverLower(vals: seq<CellValue>, t: Tuple, cols: seq<ColumnDef>, idxs: seq<nat>)
    requires |t| == |cols| && Within(idxs, |cols|)
  {
    && |vals| == |idxs|
    && forall k :: 0 <= k < |idxs| && ValuesOf(vals, t, cols, idxs, k) ==>
         !(!t[idxs[k]].Null? && !vals[k].Null? && Less(vals[k], t[idxs[k]], cols[idxs[k]].ty))
  }

  /** Rows told apart by values compare in WHERE as they do in ORDER BY. */
  lemma {:induction false} GreaterIffLater(
    x: Tuple, y: Tuple, cols: seq<ColumnDef>, idxs: seq<nat>, vals: seq<CellValue>, d: nat
  )
    requires TupleTyped(x, cols) && TupleTyped(y, cols) && Within(idxs, |cols|)
    requires d < |idxs| && ValuesOf(vals, x, cols, idxs, d + 1) && !Tied(x[idxs[d]], y[idxs[d]], cols[idxs[d]].ty)
    requires forall k :: 0 <= k <= d ==> !x[idxs[k]].Null? && !y[idxs[k]].Null?
    ensures RowGreater(y, cols, idxs, vals) <==> KeyLess(x, y, cols, idxs)
  {
    hide Less, Equal, HasType;
    var c, ty := idxs[0], cols[idxs[0]].ty;
    ValueCompares(vals[0], x[c], y[c], ty);
    OrderTrichotomy(x[c], y[c], ty);
    if Tied(x[c], y[c], ty) {
      GreaterIffLater(x, y, cols, idxs[1..], vals[1..], d - 1);
    }
  }

  /** A value tied with `x` compares with `y` as `x` does. */
  lemma ValueCompares(v: CellValue, x: CellValue, y: CellValue, ty: SqlType)
    requires !x.Null? && !y.Null? && Tied(v, x, ty)
    ensures !v.Null?
    ensures Equal(y, v, ty) <==> Tied(x, y, ty)
    ensures Less(v, y, ty) <==> OrderLess(x, y, ty)
  {
    hide Less;
    TiedAlike(v, x, y, ty);
  }

  /** No row is greater than values that are never lower than its own. */
  lemma {:induction false} NotGreaterSelf(x: Tuple, cols: seq<ColumnDef>, idxs: seq<nat>, vals: seq<CellValue>)
    requires |x| == |cols| && Within(idxs, |cols|) && NeverLower(vals, x, cols, idxs)
    ensures !RowGreater(x, cols, idxs, vals)
  {
    if idxs != [] {
      var c, ty := idxs[0], cols[idxs[0]].ty;
      assert ValuesOf(vals, x, cols, idxs, 0);
      if !x[c].Null? && !vals[0].Null? && Equal(x[c], vals[0], ty) {
        TiedBack(x[c], vals[0], ty);
        NeverLowerTail(vals, x, cols, idxs);
        NotGreaterSelf(x, cols, idxs[1..], vals[1..]);
      }
    }
  }

  lemma TiedBack(a: CellValue, b: CellValue, ty: SqlType)
    requires !a.Null? && !b.Null? && Equal(a, b, ty)
    ensures Tied(b, a, ty)
  {
  }

  lemma NeverLowerTail(vals: seq<CellValue>, x: Tuple, cols: seq<ColumnDef>, idxs: seq<nat>)
    requires |x| == |cols| && Within(idxs, |cols|) && NeverLower(vals, x, cols, idxs)
    requires idxs != [] && Tied(vals[0], x[idxs[0]], cols[idxs[0]].ty)
    ensures NeverLower(vals[1..], x, cols, idxs[1..])
  {
    hide Tied, Less;
    forall k | 0 <= k < |idxs[1..]| && ValuesOf(vals[1..], x, cols, idxs[1..], k)
      ensures ValuesOf(vals, x, cols, idxs, k + 1)
    {
      forall q | 0 <= q < k + 1 ensures Tied(vals[q], x[idxs[q]], cols[idxs[q]].ty) {
        if q > 0 { assert Tied(vals[1..][q - 1], x[idxs[1..][q - 1]], cols[idxs[1..][q - 1]].ty); }
      }
    }
  }

  lemma KeepGreaterCons(x: Tuple, rows: seq<Tuple>, cols: seq<ColumnDef>, idxs: seq<nat>, vals: seq<CellValue>)
    requires |x| == |cols| && Wide(rows, |cols|) && Within(idxs, |cols|) && |idxs| == |vals|
    ensures KeepGreater([x] + rows, cols, idxs, vals) ==
      (if RowGreater(x, cols, idxs, vals) then [x] else []) + KeepGreater(rows, cols, idxs, vals)
  {
    hide RowGreater;
    assert ([x] + rows)[1..] == rows && ([x] + rows)[0] == x;
  }

  lemma {:induction false} KeptSubset(rows: seq<Tuple>, cols: seq<ColumnDef>, idxs: seq<nat>, vals: seq<CellValue>)
    requires Wide(rows, |cols|) && Within(idxs, |cols|) && |idxs| == |vals|
    ensures forall t :: t in KeepGreater(rows, cols, idxs, vals) ==> t in rows
  {
    if rows != [] {
      KeptSubset(rows[1..], cols, idxs, vals);
      assert rows == [rows[0]] + rows[1..];
    }
  }

  /** A row that sorts no later than any other is inserted in front. */
  lemma InsertInFront(r: Tuple, rows: seq<Tuple>, cols: seq<ColumnDef>, idxs: seq<nat>, vals: seq<CellValue>)
    requires |r| == |cols| && Wide(rows, |cols|) && Within(idxs, |cols|) && |idxs| == |vals|
    requires forall j :: 0 <= j < |rows| ==> !KeyLess(rows[j], r, cols, idxs)
    ensures Insert(r, KeepGreater(rows, cols, idxs, vals), cols, idxs) == [r] + KeepGreater(rows, cols, idxs, vals)
  {
    var kept := KeepGreater(rows, cols, idxs, vals);
    if kept != [] {
      KeptSubset(rows, cols, idxs, vals);
      assert kept[0] in rows;
    }
  }

  lemma InsertAfterFirst(r: Tuple, x: Tuple, rows: seq<Tuple>, cols: seq<ColumnDef>, idxs: seq<nat>)
    requires |r| == |cols| && |x| == |cols| && Wide(rows, |cols|) && Within(idxs, |cols|)
    requires KeyLess(x, r, cols, idxs)
    ensures Insert(r, [x] + rows, cols, idxs) == [x] + Insert(r, rows, cols, idxs)
  {
    assert ([x] + rows)[1..] == rows;
  }

  /** Once a row is not before `r`, none of the later ones is. */
  ghost predicate OneGap(r: Tuple, rows: seq<Tuple>, cols: seq<ColumnDef>, idxs: seq<nat>)
    requires |r| == |cols| && Wide(rows, |cols|) && Within(idxs, |cols|)
  {
    forall i, j :: 0 <= i < j < |rows| && !KeyLess(rows[i], r, cols, idxs) ==> !KeyLess(rows[j], r, cols, idxs)
  }

  lemma OrderedOneGap(r: Tuple, rows: seq<Tuple>, cols: seq<ColumnDef>, idxs: seq<nat>)
    requires TupleTyped(r, cols) && AllTyped(rows, cols) && Within(idxs, |cols|)
    requires Ordered(rows, cols, idxs)
    ensures OneGap(r, rows, cols, idxs)
  {
    forall i, j | 0 <= i < j < |rows| && !KeyLess(rows[i], r, cols, idxs) ensures !KeyLess(rows[j], r, cols, idxs) {
      KeyNotLessTransitive(r, rows[i], rows[j], cols, idxs);
    }
  }

  lemma {:induction false} KeepGreaterInsert(
    r: Tuple, rows: seq<Tuple>, cols: seq<ColumnDef>, idxs: seq<nat>, vals: seq<CellValue>
  )
    requires |r| == |cols| && Wide(rows, |cols|) && Within(idxs, |cols|) && |idxs| == |vals|
    requires OneGap(r, rows, cols, idxs)
    ensures KeepGreater(Insert(r, rows, cols, idxs), cols, idxs, vals) ==
      var kept := KeepGreater(rows, cols, idxs, vals);
      if RowGreater(r, cols, idxs, vals) then Insert(r, kept, cols, idxs) else kept
  {
    if rows == [] {
      assert [r][1..] == [];
    } else if KeyLess(rows[0], r, cols, idxs) {
      var x, rest := rows[0], rows[1..];
      var inserted, kept := Insert(r, rest, cols, idxs), KeepGreater(rest, cols, idxs, vals);
      KeepGreaterInsert(r, rest, cols, idxs, vals);
      calc {
        KeepGreater(Insert(r, rows, cols, idxs), cols, idxs, vals);
        KeepGreater([x] + inserted, cols, idxs, vals);
        { KeepGreaterCons(x, inserted, cols, idxs, vals); }
        (if RowGreater(x, cols, idxs, vals) then [x] else []) + KeepGreater(inserted, cols, idxs, vals);
      }
      if RowGreater(x, cols, idxs, vals) {
        assert KeepGreater(rows, cols, idxs, vals) == [x] + kept;
        InsertAfterFirst(r, x, kept, cols, idxs);
      } else {
        assert KeepGreater(rows, cols, idxs, vals) == kept;
      }
    } else {
      KeepGreaterCons(r, rows, cols, idxs, vals);
      if RowGreater(r, cols, idxs, vals) {
        InsertInFront(r, rows, cols, idxs, vals);
      }
    }
  }

  lemma OrderByCons(x: Tuple, rows: seq<Tuple>, cols: seq<ColumnDef>, idxs: seq<nat>)
    requires |x| == |cols| && Wide(rows, |cols|) && Within(idxs, |cols|)
    ensures OrderBy([x] + rows, cols, idxs) == Insert(x, OrderBy(rows, cols, idxs), cols, idxs)
  {
    assert ([x] + rows)[1..] == rows;
  }

  /** Filtering and then sorting shows the same rows as sorting and then filtering. */
  lemma {:induction false} KeepGreaterOrderBy(
    rows: seq<Tuple>, cols: seq<ColumnDef>, idxs: seq<nat>, vals: seq<CellValue>
  )
    requires AllTyped(rows, cols) && Within(idxs, |cols|) && |idxs| == |vals|
    ensures OrderBy(KeepGreater(rows, cols, idxs, vals), cols, idxs) ==
      KeepGreater(OrderBy(rows, cols, idxs), cols, idxs, vals)
  {
    if rows != [] {
      var x, rest := rows[0], rows[1..];
      var later := OrderBy(rest, cols, idxs);
      KeepGreaterOrderBy(rest, cols, idxs, vals);
      assert OneGap(x, later, cols, idxs) by {
        OrderByOrdered(rest, cols, idxs);
        OrderedOneGap(x, later, cols, idxs);
      }
      KeepGreaterInsert(x, later, cols, idxs, vals);
      if RowGreater(x, cols, idxs, vals) {
        OrderByCons(x, KeepGreater(rest, cols, idxs, vals), cols, idxs);
        assert KeepGreater(rows, cols, idxs, vals) == [x] + KeepGreater(rest, cols, idxs, vals);
      } else {
        assert KeepGreater(rows, cols, idxs, vals) == KeepGreater(rest, cols, idxs, vals);
      }
    }
  }

  lemma {:induction false} KeepGreaterSuffix(
    rows: seq<Tuple>, cols: seq<ColumnDef>, idxs: seq<nat>, vals: seq<CellValue>, a: nat
  )
    requires Wide(rows, |cols|) && Within(idxs, |cols|) && |idxs| == |vals| && a <= |rows|
    requires forall j :: 0 <= j < |rows| ==> (RowGreater(rows[j], cols, idxs, vals) <==> a <= j)
    ensures KeepGreater(rows, cols, idxs, vals) == rows[a..]
  {
    if rows != [] {
      KeepGreaterSuffix(rows[1..], cols, idxs, vals, if a == 0 then 0 else a - 1);
    }
  }

  /** The rows greater than the `i`-th row in key order are the rows after it. */
  lemma RowsAfter(L: seq<Tuple>, cols: seq<ColumnDef>, idxs: seq<nat>, m: nat, vals: seq<CellValue>, i: nat)
    requires AllTyped(L, cols) && Within(idxs, |cols|) && m <= |idxs|
    requires Ordered(L, cols, idxs) && Decided(L, cols, idxs, m)
    requires i < |L| && ValuesOf(vals, L[i], cols, idxs, m) && NeverLower(vals, L[i], cols, idxs)
    ensures KeepGreater(L, cols, idxs, vals) == L[i + 1..]
  {
    forall j | 0 <= j < |L| ensures RowGreater(L[j], cols, idxs, vals) <==> i + 1 <= j {
      if j == i {
        NotGreaterSelf(L[i], cols, idxs, vals);
      } else {
        assert if i < j then Apart(L[i], L[j], cols, idxs, m) else Apart(L[j], L[i], cols, idxs, m);
        var d :| 0 <= d < m && !Tied(L[i][idxs[d]], L[j][idxs[d]], cols[idxs[d]].ty);
        GreaterIffLater(L[i], L[j], cols, idxs, vals, d);
        KeyAsymmetric(L[i], L[j], cols, idxs);
      }
    }
    KeepGreaterSuffix(L, cols, idxs, vals, i + 1);
  }

  // ---- being told apart survives sorting --------------------------------------------------

  lemma {:induction false} OnceEach(rows: seq<Tuple>)
    requires Distinct(rows)
    ensures forall t :: multiset(rows)[t] <= 1
  {
    if rows != [] {
      OnceEach(rows[1..]);
      assert rows == [rows[0]] + rows[1..];
      assert rows[0] !in rows[1..];
    }
  }

  lemma DistinctFromCounts(rows: seq<Tuple>)
    requires forall t :: multiset(rows)[t] <= 1
    ensures Distinct(rows)
  {
    forall i, j | 0 <= i < j < |rows| ensures rows[i] != rows[j] {
      assert rows == rows[..i] + [rows[i]] + rows[i + 1..j] + [rows[j]] + rows[j + 1..];
      assert multiset(rows)[rows[i]] >= if rows[i] == rows[j] then 2 else 1;
    }
  }

  lemma DecidedOrderBy(rows: seq<Tuple>, cols: seq<ColumnDef>, idxs: seq<nat>, m: nat)
    requires Wide(rows, |cols|) && Within(idxs, |cols|) && m <= |idxs|
    requires Decided(rows, cols, idxs, m)
    ensures Decided(OrderBy(rows, cols, idxs), cols, idxs, m)
  {
    var L := OrderBy(rows, cols, idxs);
    OrderByPermutes(rows, cols, idxs);
    OnceEach(rows);
    DistinctFromCounts(L);
    forall i | 0 <= i < |L| ensures exists p :: 0 <= p < |rows| && rows[p] == L[i] {
      assert L[i] in multiset(L);
    }
    forall i, j | 0 <= i < j < |L| ensures Apart(L[i], L[j], cols, idxs, m) {
      var p :| 0 <= p < |rows| && rows[p] == L[i];
      var q :| 0 <= q < |rows| && rows[q] == L[j];
      assert if p < q then Apart(rows[p], rows[q], cols, idxs, m) else Apart(rows[q], rows[p], cols, idxs, m);
    }
  }
}
