/**
 What the server does with an UPDATE: it reads the parameters under the types of their columns,
 sets the cells of every row that matches, and rejects the whole statement when a constraint
 would break. A statement is one step: a writer that waited for a row lock checks its WHERE again.
 */
module UpdateServer {
  import opened Prelude
  import opened Values
  import opened Relations
  import opened Server
  import opened UpdateText
  import opened KeysetPaging

  function SetCells(t: Tuple, idxs: seq<nat>, vals: seq<CellValue>): (r: Tuple)
    requires Within(idxs, |t|) && |idxs| == |vals|
    ensures |r| == |t|
    ensures forall c :: 0 <= c < |t| && c !in idxs ==> r[c] == t[c]
    ensures Distinct(idxs) ==> forall k :: 0 <= k < |idxs| ==> r[idxs[k]] == vals[k]
  {
    if idxs == [] then t else SetCells(t, idxs[1..], vals[1..])[idxs[0] := vals[0]]
  }

  predicate Matches(t: Tuple, cols: seq<ColumnDef>, idxs: seq<nat>, vals: seq<CellValue>)
    requires |t| == |cols| && Within(idxs, |cols|) && |idxs| == |vals|
  {
    forall k :: 0 <= k < |idxs| ==> !t[idxs[k]].Null? && Equal(t[idxs[k]], vals[k], cols[idxs[k]].ty)
  }

  function ColumnsOf(terms: seq<Term>): (names: seq<string>)
    ensures |names| == |terms| && forall k :: 0 <= k < |terms| ==> names[k] == terms[k].column
  {
    seq(|terms|, k requires 0 <= k < |terms| => terms[k].column)
  }

  function PlacesOf(terms: seq<Term>): (ps: seq<nat>)
    ensures |ps| == |terms| && forall k :: 0 <= k < |terms| ==> ps[k] == terms[k].place
  {
    seq(|terms|, k requires 0 <= k < |terms| => terms[k].place)
  }

  predicate ResolvesTo(cols: seq<ColumnDef>, term: Term, params: seq<string>, idx: nat, val: CellValue) {
    && idx < |cols|
    && IndexOfName(cols, term.column) == Some(idx)
    && ParamText(params, term.place).Some?
    && ReadParam(cols[idx].ty, ParamText(params, term.place).value) == Some(val)
  }

  /** Terms resolved: the columns, and the values their placeholders stand for. */
  function Resolve(
    cols: seq<ColumnDef>, terms: seq<Term>, params: seq<string>
  ): (r: Result<(seq<nat>, seq<CellValue>), ServerError>)
    ensures r.Ok? ==> |r.value.0| == |terms| == |r.value.1| && Within(r.value.0, |cols|)
    ensures r.Ok? ==> forall k :: 0 <= k < |terms| ==> ResolvesTo(cols, terms[k], params, r.value.0[k], r.value.1[k])
  {
    var idxs := Indexes(cols, ColumnsOf(terms));
    if idxs.None? then Err(Undefined)
    else
      var vals := ReadAll(cols, idxs.value, PlacesOf(terms), params);
      if vals.None? then Err(BadParameter)
      else
        assert forall k :: 0 <= k < |terms| ==> ResolvesTo(cols, terms[k], params, idxs.value[k], vals.value[k]) by {
          forall k | 0 <= k < |terms| ensures ResolvesTo(cols, terms[k], params, idxs.value[k], vals.value[k]) {
            assert IndexOfName(cols, ColumnsOf(terms)[k]) == Some(idxs.value[k]);
            assert ReadPlace(cols, idxs.value, PlacesOf(terms), params, k) == Some(vals.value[k]);
          }
        }
        Ok((idxs.value, vals.value))
  }

  function UpdateRows(
    rows: seq<Tuple>, cols: seq<ColumnDef>, at: seq<nat>, was: seq<CellValue>, dst: seq<nat>, now: seq<CellValue>
  ): (s: seq<Tuple>)
    requires Wide(rows, |cols|) && Within(at, |cols|) && Within(dst, |cols|) && |at| == |was| && |dst| == |now|
    ensures |s| == |rows| && Wide(s, |cols|)
    ensures forall i :: 0 <= i < |rows| ==>
      s[i] == if Matches(rows[i], cols, at, was) then SetCells(rows[i], dst, now) else rows[i]
  {
    seq(|rows|, i requires 0 <= i < |rows| =>
      if Matches(rows[i], cols, at, was) then SetCells(rows[i], dst, now) else rows[i])
  }

  /** An UPDATE run on the table the relation describes. */
  ghost function RunUpdate(rel: Relation, q: UpdateStmt, params: seq<string>, tbl: Table): Result<Table, ServerError>
    requires WellFormed(rel) && Typed(tbl) && |tbl.cols| == |rel.columns|
  {
    if q.table != tbl.name then Err(Undefined)
    else
      var (dst, now) :- Resolve(tbl.cols, q.sets, params);
      var (at, was) :- Resolve(tbl.cols, q.wheres, params);
      if !Distinct(dst) then Err(Undefined)
      else
        var rows := UpdateRows(tbl.rows, tbl.cols, at, was, dst, now);
        if AllTyped(rows, tbl.cols) && RowsLegal(rel, tbl.cols, rows) then Ok(tbl.(rows := rows)) else Err(Rejected)
  }

  /** An UPDATE as text. */
  ghost function Execute(rel: Relation, sql: string, params: seq<string>, tbl: Table): Result<Table, ServerError>
    requires WellFormed(rel) && Typed(tbl) && |tbl.cols| == |rel.columns|
  {
    var q := ReadUpdate(sql);
    if q.None? then Err(Syntax) else RunUpdate(rel, q.value, params, tbl)
  }

  /** An update that succeeds leaves a table of the same relation. */
  lemma UpdateKeepsTable(rel: Relation, tys: seq<SqlType>, sql: string, params: seq<string>, tbl: Table)
    requires WellFormed(rel) && |tys| == |rel.columns| && TableOf(rel, None, tys, tbl)
    requires Execute(rel, sql, params, tbl).Ok?
    ensures TableOf(rel, None, tys, Execute(rel, sql, params, tbl).value)
    ensures |Execute(rel, sql, params, tbl).value.rows| == |tbl.rows|
  {
    hide ReadUpdate, RowsLegal, Stores, ReadParam, SetCells, Matches;
  }
}
