/**
 Optimistic updates as the server carries them out: each is a compare-and-set on one row, and
 interleaved writers never lose an update.
 */
module OptimisticWrites {
  import opened Prelude
  import opened Values
  import opened Relations
  import opened Server
  import opened UpdateText
  import opened KeysetPaging
  import opened UpdateServer
  import opened Edits
  import opened EditsReadBack

  // ---- what a statement does --------------------------------------------------------------

  /** The cell under `name` holds a value equal to the one `text` stands for there; NULL holds none. */
  predicate Holds(cols: seq<ColumnDef>, t: Tuple, name: string, text: string)
    requires |t| == |cols|
  {
    var c := IndexOfName(cols, name);
    c.Some? && !t[c.value].Null? &&
    var v := ReadParam(cols[c.value].ty, text);
    v.Some? && Equal(t[c.value], v.value, cols[c.value].ty)
  }

  /** The cell under `name` is the value that `text` stands for there. */
  predicate Set(cols: seq<ColumnDef>, t: Tuple, name: string, text: string)
    requires |t| == |cols|
  {
    var c := IndexOfName(cols, name);
    c.Some? && ReadParam(cols[c.value].ty, text) == Some(t[c.value])
  }

  predicate HoldsAll(cols: seq<ColumnDef>, t: Tuple, names: seq<string>, texts: seq<string>)
    requires |t| == |cols| && |names| == |texts|
  {
    forall k :: 0 <= k < |names| ==> Holds(cols, t, names[k], texts[k])
  }

  /** `t'` is `t` with the named cells set, and no other. */
  ghost predicate Written(cols: seq<ColumnDef>, t: Tuple, t': Tuple, names: seq<string>, texts: seq<string>)
    requires |t| == |cols| == |t'| && |names| == |texts|
  {
    && (forall k :: 0 <= k < |names| ==> Set(cols, t', names[k], texts[k]))
    && forall c :: 0 <= c < |cols| && cols[c].name !in names ==> t'[c] == t[c]
  }

  lemma MatchesIffHolds(
    cols: seq<ColumnDef>, terms: seq<Term>, params: seq<string>, t: Tuple, names: seq<string>, texts: seq<string>
  )
    requires Resolve(cols, terms, params).Ok? && |t| == |cols|
    requires |names| == |terms| == |texts|
    requires forall k :: 0 <= k < |terms| ==>
      terms[k].column == names[k] && ParamText(params, terms[k].place) == Some(texts[k])
    ensures
      var (at, was) := Resolve(cols, terms, params).value;
      Matches(t, cols, at, was) <==> HoldsAll(cols, t, names, texts)
  {
    hide Resolve, ReadParam, IndexOfName;
    var (at, was) := Resolve(cols, terms, params).value;
    forall k | 0 <= k < |terms|
      ensures Holds(cols, t, names[k], texts[k]) <==> !t[at[k]].Null? && Equal(t[at[k]], was[k], cols[at[k]].ty)
    {
      assert ResolvesTo(cols, terms[k], params, at[k], was[k]);
    }
  }

  lemma SetCellsWrites(
    cols: seq<ColumnDef>, terms: seq<Term>, params: seq<string>, t: Tuple, names: seq<string>, texts: seq<string>
  )
    requires Resolve(cols, terms, params).Ok? && |t| == |cols|
    requires Distinct(Resolve(cols, terms, params).value.0)
    requires |names| == |terms| == |texts|
    requires forall k :: 0 <= k < |terms| ==>
      terms[k].column == names[k] && ParamText(params, terms[k].place) == Some(texts[k])
    ensures
      var (dst, now) := Resolve(cols, terms, params).value;
      Written(cols, t, SetCells(t, dst, now), names, texts)
  {
    hide Resolve, ReadParam, IndexOfName, SetCells;
    var (dst, now) := Resolve(cols, terms, params).value;
    var t' := SetCells(t, dst, now);
    forall k | 0 <= k < |terms| ensures Set(cols, t', names[k], texts[k]) && cols[dst[k]].name == names[k] {
      assert ResolvesTo(cols, terms[k], params, dst[k], now[k]);
    }
    assert forall k :: 0 <= k < |dst| ==> cols[dst[k]].name in names;
    assert forall c :: 0 <= c < |cols| && c in dst ==> cols[c].name in names;
  }

  lemma TermResolves(before: seq<string>, texts: seq<string>, more: seq<string>, k: nat)
    requires k < |texts|
    ensures ParamText(before + texts + more, |before| + 1 + k) == Some(texts[k])
  {
  }

  lemma TermsResolve(names: seq<string>, first: nat, before: seq<string>, texts: seq<string>, more: seq<string>)
    requires first == |before| + 1 && |names| == |texts|
    ensures forall k :: 0 <= k < |names| ==>
      Terms(names, first)[k].column == names[k] &&
      ParamText(before + texts + more, Terms(names, first)[k].place) == Some(texts[k])
  {
    hide *;
    forall k | 0 <= k < |names|
      ensures Terms(names, first)[k].column == names[k]
      ensures ParamText(before + texts + more, Terms(names, first)[k].place) == Some(texts[k])
    {
      TermResolves(before, texts, more, k);
      assert Terms(names, first)[k] == Term(names[k], first + k);
    }
  }

  /** Row by row, what a statement that succeeds does. */
  ghost predicate RowStep(
    cols: seq<ColumnDef>, t: Tuple, t': Tuple, sets: seq<string>, afters: seq<string>, wheres: seq<string>,
    texts: seq<string>
  )
    requires |sets| == |afters| && |wheres| == |texts|
  {
    && |t| == |cols| == |t'|
    && if HoldsAll(cols, t, wheres, texts) then Written(cols, t, t', sets, afters) else t' == t
  }

  lemma StmtSteps(
    rel: Relation, tbl: Table, sets: seq<string>, afters: seq<string>, wheres: seq<string>, texts: seq<string>
  )
    requires WellFormed(rel) && Typed(tbl) && |tbl.cols| == |rel.columns|
    requires |sets| == |afters| && |wheres| == |texts|
    requires RunUpdate(rel, Stmt(rel.name, sets, wheres), afters + texts, tbl).Ok?
    ensures
      var tbl' := RunUpdate(rel, Stmt(rel.name, sets, wheres), afters + texts, tbl).value;
      && |tbl'.rows| == |tbl.rows| && tbl'.cols == tbl.cols
      && forall i :: 0 <= i < |tbl.rows| ==> RowStep(tbl.cols, tbl.rows[i], tbl'.rows[i], sets, afters, wheres, texts)
  {
    hide Resolve, ReadParam, RowsLegal, HasType, HoldsAll, Written, Matches, SetCells;
    var q, params, cols := Stmt(rel.name, sets, wheres), afters + texts, tbl.cols;
    var tbl' := RunUpdate(rel, q, params, tbl).value;
    assert [] + afters + texts == params && afters + texts + [] == params;
    TermsResolve(sets, 1, [], afters, texts);
    TermsResolve(wheres, |sets| + 1, afters, texts, []);
    forall i | 0 <= i < |tbl.rows| ensures RowStep(cols, tbl.rows[i], tbl'.rows[i], sets, afters, wheres, texts) {
      var t := tbl.rows[i];
      assert TupleTyped(t, cols);
      MatchesIffHolds(cols, q.wheres, params, t, wheres, texts);
      SetCellsWrites(cols, q.sets, params, t, sets, afters);
    }
  }

  // ---- the optimistic update --------------------------------------------------------------

  /** The row is the one the keys name, and every cell to be changed still has its old value. */
  ghost predicate Fresh(rel: Relation, cols: seq<ColumnDef>, diffs: seq<ColumnDiff>, keys: seq<string>, t: Tuple) {
    && |t| == |cols| && |keys| == |KeyNamesOf(rel)|
    && HoldsAll(cols, t, KeyNamesOf(rel), keys)
    && HoldsAll(cols, t, DiffNames(diffs), BeforeTexts(diffs))
  }

  lemma HoldsAllAppend(cols: seq<ColumnDef>, t: Tuple, a: seq<string>, x: seq<string>, b: seq<string>, y: seq<string>)
    requires |t| == |cols| && |a| == |x| && |b| == |y|
    ensures HoldsAll(cols, t, a + b, x + y) <==> HoldsAll(cols, t, a, x) && HoldsAll(cols, t, b, y)
  {
    hide Holds;
    if HoldsAll(cols, t, a + b, x + y) {
      forall k | 0 <= k < |b| ensures Holds(cols, t, b[k], y[k]) {
        assert Holds(cols, t, (a + b)[|a| + k], (x + y)[|a| + k]);
      }
      forall k | 0 <= k < |a| ensures Holds(cols, t, a[k], x[k]) {
        assert Holds(cols, t, (a + b)[k], (x + y)[k]);
      }
    }
  }

  /** What was printed for an edit, run by the server. */
  ghost function Outcome(
    rel: Relation, diffs: seq<ColumnDiff>, keyFields: Fields, tbl: Table
  ): Result<Table, ServerError>
    requires WellFormed(rel) && Typed(tbl) && |tbl.cols| == |rel.columns|
    requires OptimisticOf(rel, diffs, keyFields).Ok?
  {
    var (sql, params) := OptimisticOf(rel, diffs, keyFields).value;
    Execute(rel, sql, params, tbl)
  }

  function KeyTexts(rel: Relation, keyFields: Fields): seq<string> {
    var r := KeyValues(KeyNamesOf(rel), keyFields);
    if r.Ok? then r.value else []
  }

  lemma OutcomeIs(rel: Relation, diffs: seq<ColumnDiff>, keyFields: Fields, tbl: Table)
    requires WellFormed(rel) && Typed(tbl) && |tbl.cols| == |rel.columns|
    requires OptimisticOf(rel, diffs, keyFields).Ok? && Unmarked(rel, diffs)
    ensures |KeyTexts(rel, keyFields)| == |KeyNamesOf(rel)|
    ensures Outcome(rel, diffs, keyFields, tbl) ==
      RunUpdate(rel, Stmt(rel.name, DiffNames(diffs), KeyNamesOf(rel) + DiffNames(diffs)),
                AfterTexts(diffs) + (KeyTexts(rel, keyFields) + BeforeTexts(diffs)), tbl)
  {
    hide OptimisticOf, ReadUpdate, RunUpdate, Unmarked, Stmt, ReplaceMark, UpdateHead, GuardText, HasMark;
    hide WellFormed, KeyNamesOf, KeyValues;
    OptimisticParts(rel, diffs, keyFields);
    OptimisticReadsBackIff(rel, diffs, keyFields);
    Assoc(AfterTexts(diffs), KeyTexts(rel, keyFields), BeforeTexts(diffs));
  }

  /** The key columns of a row, found by name. */
  lemma KeyColumnsFound(rel: Relation, tys: seq<SqlType>, k: nat)
    requires WellFormed(rel) && |tys| == |rel.columns| && k < |PrimaryKeyOf(rel)|
    ensures IndexOfName(Defs(rel, tys), KeyNamesOf(rel)[k]) == Some(Positions(rel, PrimaryKeyOf(rel))[k])
  {
    hide ColumnIndex;
    var p := Positions(rel, PrimaryKeyOf(rel))[k];
    assert KeyName(rel, PrimaryKeyOf(rel)[k]) == rel.columns[p].name;
  }

  /** No two rows are named by the same keys. */
  lemma OneRowPerKey(rel: Relation, tys: seq<SqlType>, tbl: Table, keys: seq<string>, i: nat, j: nat)
    requires WellFormed(rel) && |tys| == |rel.columns| && TableOf(rel, None, tys, tbl)
    requires rel.primaryKey.Some? && |keys| == |KeyNamesOf(rel)|
    requires i < j < |tbl.rows|
    ensures |tbl.rows[i]| == |tbl.cols| == |tbl.rows[j]|
    ensures !(HoldsAll(tbl.cols, tbl.rows[i], KeyNamesOf(rel), keys) &&
      HoldsAll(tbl.cols, tbl.rows[j], KeyNamesOf(rel), keys))
  {
    hide ReadParam, IndexOfName, HasType, KeyNamesOf;
    var s, t, names := tbl.rows[i], tbl.rows[j], KeyNamesOf(rel);
    var at := Positions(rel, PrimaryKeyOf(rel));
    assert KeyHolds(rel, rel.primaryKey.value, tbl.cols, tbl.rows);
    assert ApartOn(s, t, tbl.cols, at);
    var k :| 0 <= k < |at| && (s[at[k]].Null? || !Tied(s[at[k]], t[at[k]], tbl.cols[at[k]].ty));
    KeyColumnsFound(rel, tys, k);
    assert !(Holds(tbl.cols, s, names[k], keys[k]) && Holds(tbl.cols, t, names[k], keys[k]));
  }

  /**
   The optimistic update is a compare-and-set: when it succeeds, the rows it names and finds
   unchanged (there is at most one) get exactly the new values of the changed columns, every
   other row and cell stays, and the table still keeps its constraints.
   */
  lemma OptimisticIsCompareAndSet(
    rel: Relation, tys: seq<SqlType>, tbl: Table, diffs: seq<ColumnDiff>, keyFields: Fields
  )
    requires WellFormed(rel) && |tys| == |rel.columns| && TableOf(rel, None, tys, tbl)
    requires OptimisticOf(rel, diffs, keyFields).Ok? && Unmarked(rel, diffs)
    requires Outcome(rel, diffs, keyFields, tbl).Ok?
    ensures
      var tbl', keys := Outcome(rel, diffs, keyFields, tbl).value, KeyTexts(rel, keyFields);
      && TableOf(rel, None, tys, tbl') && |tbl'.rows| == |tbl.rows|
      && (forall i :: 0 <= i < |tbl.rows| ==>
            |tbl.rows[i]| == |tbl.cols| == |tbl'.rows[i]| &&
            if Fresh(rel, tbl.cols, diffs, keys, tbl.rows[i])
            then Written(tbl.cols, tbl.rows[i], tbl'.rows[i], DiffNames(diffs), AfterTexts(diffs))
            else tbl'.rows[i] == tbl.rows[i])
      && (forall i, j :: 0 <= i < j < |tbl.rows| ==>
            !(Fresh(rel, tbl.cols, diffs, keys, tbl.rows[i]) && Fresh(rel, tbl.cols, diffs, keys, tbl.rows[j])))
  {
    hide Execute, RunUpdate, OptimisticOf, Unmarked, RowsLegal, HasType, HoldsAll, Written, KeyNamesOf;
    hide KeyTexts, WellFormed;
    var tbl', keys := Outcome(rel, diffs, keyFields, tbl).value, KeyTexts(rel, keyFields);
    var names, befores := DiffNames(diffs), BeforeTexts(diffs);
    OutcomeIs(rel, diffs, keyFields, tbl);
    var (sql, params) := OptimisticOf(rel, diffs, keyFields).value;
    UpdateKeepsTable(rel, tys, sql, params, tbl);
    StmtSteps(rel, tbl, names, AfterTexts(diffs), KeyNamesOf(rel) + names, keys + befores);
    forall i | 0 <= i < |tbl.rows|
      ensures |tbl.rows[i]| == |tbl.cols| == |tbl'.rows[i]|
      ensures if Fresh(rel, tbl.cols, diffs, keys, tbl.rows[i])
              then Written(tbl.cols, tbl.rows[i], tbl'.rows[i], names, AfterTexts(diffs))
              else tbl'.rows[i] == tbl.rows[i]
    {
      assert RowStep(tbl.cols, tbl.rows[i], tbl'.rows[i], names, AfterTexts(diffs),
                     KeyNamesOf(rel) + names, keys + befores);
      HoldsAllAppend(tbl.cols, tbl.rows[i], KeyNamesOf(rel), keys, names, befores);
    }
    OptimisticParts(rel, diffs, keyFields);
    forall i, j | 0 <= i < j < |tbl.rows|
      ensures !(Fresh(rel, tbl.cols, diffs, keys, tbl.rows[i]) && Fresh(rel, tbl.cols, diffs, keys, tbl.rows[j]))
    {
      OneRowPerKey(rel, tys, tbl, keys, i, j);
    }
  }

  // ---- interleaved writers ----------------------------------------------------------------

  /** One edit as a writer asks for it; the writers take turns in any order. */
  datatype Write = Write(diffs: seq<ColumnDiff>, keyFields: Fields)

  ghost predicate Sound(rel: Relation, w: Write) {
    OptimisticOf(rel, w.diffs, w.keyFields).Ok? && Unmarked(rel, w.diffs)
  }

  ghost predicate AllSound(rel: Relation, ws: seq<Write>) {
    ws == [] || (Sound(rel, ws[0]) && AllSound(rel, ws[1..]))
  }

  ghost predicate Described(rel: Relation, tys: seq<SqlType>, tbl: Table) {
    WellFormed(rel) && |tys| == |rel.columns| && TableOf(rel, None, tys, tbl)
  }

  /** The table after a write; one that fails changes nothing. */
  ghost function Step(rel: Relation, tys: seq<SqlType>, tbl: Table, w: Write): (tbl': Table)
    requires Described(rel, tys, tbl) && Sound(rel, w)
    ensures Described(rel, tys, tbl') && |tbl'.rows| == |tbl.rows|
  {
    var r := Outcome(rel, w.diffs, w.keyFields, tbl);
    if r.Ok? then OptimisticIsCompareAndSet(rel, tys, tbl, w.diffs, w.keyFields); r.value else tbl
  }

  ghost function Final(rel: Relation, tys: seq<SqlType>, tbl: Table, ws: seq<Write>): (tbl': Table)
    requires Described(rel, tys, tbl)
    requires AllSound(rel, ws)
    ensures Described(rel, tys, tbl') && |tbl'.rows| == |tbl.rows|
    decreases |ws|
  {
    hide Sound, Described, Step;
    if ws == [] then tbl else Final(rel, tys, Step(rel, tys, tbl, ws[0]), ws[1..])
  }

  /** The write took effect on row `i`. */
  ghost predicate Hits(rel: Relation, tys: seq<SqlType>, tbl: Table, w: Write, i: nat)
    requires Described(rel, tys, tbl) && Sound(rel, w)
  {
    && i < |tbl.rows|
    && Outcome(rel, w.diffs, w.keyFields, tbl).Ok?
    && Fresh(rel, tbl.cols, w.diffs, KeyTexts(rel, w.keyFields), tbl.rows[i])
  }

  /** Which change of a write is to column `c`. */
  function DiffAt(cols: seq<Column>, diffs: seq<ColumnDiff>, c: nat): (r: Option<nat>)
    requires c < |cols|
    ensures r.Some? ==> r.value < |diffs| && diffs[r.value].col == cols[c].name
    ensures r.None? ==> cols[c].name !in DiffNames(diffs)
  {
    if diffs == [] then None
    else if diffs[0].col == cols[c].name then Some(0)
    else
      var r := DiffAt(cols, diffs[1..], c);
      assert DiffNames(diffs) == [diffs[0].col] + DiffNames(diffs[1..]);
      if r.None? then None else Some(r.value + 1)
  }

  /** What a writer believed a cell to hold, and what it wrote; None for a text that is no value. */
  datatype Link = Link(before: Option<CellValue>, after: Option<CellValue>)

  /** The writes of a run that took effect on one cell, as their writers stated them. */
  ghost function Links(rel: Relation, tys: seq<SqlType>, tbl: Table, ws: seq<Write>, i: nat, c: nat): seq<Link>
    requires Described(rel, tys, tbl) && c < |tys| == |rel.columns|
    requires AllSound(rel, ws)
    decreases |ws|
  {
    hide Sound, Described, Step, Hits, ReadParam, DiffAt;
    if ws == [] then []
    else
      var k, rest := DiffAt(rel.columns, ws[0].diffs, c), Links(rel, tys, Step(rel, tys, tbl, ws[0]), ws[1..], i, c);
      if Hits(rel, tys, tbl, ws[0], i) && k.Some?
      then [Link(ReadParam(tys[c], ws[0].diffs[k.value].before), ReadParam(tys[c], ws[0].diffs[k.value].after))] + rest
      else rest
  }

  /** Each link starts from a value equal to the one the link before it ended with. */
  predicate Chained(ty: SqlType, first: CellValue, links: seq<Link>, last: CellValue)
    decreases |links|
  {
    if links == [] then first == last
    else
      && Is(ty, links[0].before, first) && links[0].after.Some?
      && Chained(ty, links[0].after.value, links[1..], last)
  }

  predicate Is(ty: SqlType, v: Option<CellValue>, c: CellValue) {
    v.Some? && Equal(c, v.value, ty)
  }

  predicate DistinctNames(cols: seq<ColumnDef>) {
    forall a, b :: 0 <= a < b < |cols| ==> cols[a].name != cols[b].name
  }

  lemma HeldCell(cols: seq<ColumnDef>, t: Tuple, names: seq<string>, texts: seq<string>, k: nat, c: nat)
    requires |t| == |cols| && |names| == |texts| && k < |names| && c < |cols| && names[k] == cols[c].name
    requires HoldsAll(cols, t, names, texts) && DistinctNames(cols)
    ensures Is(cols[c].ty, ReadParam(cols[c].ty, texts[k]), t[c])
  {
    hide ReadParam;
    assert Holds(cols, t, names[k], texts[k]);
  }

  lemma WrittenCell(cols: seq<ColumnDef>, t: Tuple, t': Tuple, names: seq<string>, texts: seq<string>, k: nat, c: nat)
    requires |t| == |cols| == |t'| && |names| == |texts| && k < |names| && c < |cols| && names[k] == cols[c].name
    requires Written(cols, t, t', names, texts) && DistinctNames(cols)
    ensures ReadParam(cols[c].ty, texts[k]) == Some(t'[c])
  {
    hide ReadParam;
    assert Set(cols, t', names[k], texts[k]);
  }

  /** What one write does to one cell. */
  lemma CellStep(rel: Relation, tys: seq<SqlType>, tbl: Table, w: Write, i: nat, c: nat)
    requires Described(rel, tys, tbl) && Sound(rel, w)
    requires i < |tbl.rows| && c < |tys| == |rel.columns|
    ensures |tbl.rows[i]| == |tys| == |Step(rel, tys, tbl, w).rows[i]|
    ensures
      var k, x, y := DiffAt(rel.columns, w.diffs, c), tbl.rows[i][c], Step(rel, tys, tbl, w).rows[i][c];
      if Hits(rel, tys, tbl, w, i) && k.Some?
      then Is(tys[c], ReadParam(tys[c], w.diffs[k.value].before), x) &&
        ReadParam(tys[c], w.diffs[k.value].after) == Some(y)
      else y == x
  {
    hide OptimisticOf, Unmarked, RowsLegal, HasType, ReadParam, HoldsAll, KeyNamesOf, KeyTexts, Outcome;
    hide KeysResolve, Holds, DiffAt;
    assert TupleTyped(tbl.rows[i], tbl.cols);
    if Outcome(rel, w.diffs, w.keyFields, tbl).Ok? {
      OptimisticIsCompareAndSet(rel, tys, tbl, w.diffs, w.keyFields);
      var k, t, t' := DiffAt(rel.columns, w.diffs, c), tbl.rows[i], Step(rel, tys, tbl, w).rows[i];
      if Hits(rel, tys, tbl, w, i) && k.Some? {
        HeldCell(tbl.cols, t, DiffNames(w.diffs), BeforeTexts(w.diffs), k.value, c);
        WrittenCell(tbl.cols, t, t', DiffNames(w.diffs), AfterTexts(w.diffs), k.value, c);
      }
    }
  }

  /**
   No lost update: however the writers take turns, the writes that took effect on a cell form
   a chain from its first value to its last, each one starting from the value the one before
   it wrote.
   */
  lemma {:induction false} NoLostUpdate(rel: Relation, tys: seq<SqlType>, tbl: Table, ws: seq<Write>, i: nat, c: nat)
    requires Described(rel, tys, tbl)
    requires AllSound(rel, ws)
    requires i < |tbl.rows| && c < |tys| == |rel.columns|
    ensures |tbl.rows[i]| == |tys| == |Final(rel, tys, tbl, ws).rows[i]|
    ensures Chained(tys[c], tbl.rows[i][c], Links(rel, tys, tbl, ws, i, c), Final(rel, tys, tbl, ws).rows[i][c])
    decreases |ws|
  {
    hide Sound, RowsLegal, HasType, ReadParam, WellFormed, DiffAt, Step, Hits;
    assert TupleTyped(tbl.rows[i], tbl.cols);
    if ws != [] {
      CellStep(rel, tys, tbl, ws[0], i, c);
      NoLostUpdate(rel, tys, Step(rel, tys, tbl, ws[0]), ws[1..], i, c);
    }
  }

  function CountBefore(ty: SqlType, links: seq<Link>, v: CellValue): nat {
    if links == [] then 0
    else
      (if links[0].before.Some? && Equal(v, links[0].before.value, ty) then 1 else 0) +
      CountBefore(ty, links[1..], v)
  }

  function CountAfter(ty: SqlType, links: seq<Link>, v: CellValue): nat {
    if links == [] then 0
    else
      (if links[0].after.Some? && Equal(v, links[0].after.value, ty) then 1 else 0) +
      CountAfter(ty, links[1..], v)
  }

  /**
   Of the writers that start from the same value `v` of a cell, at most as many take effect as
   the number of times the cell had that value: one, unless somebody wrote `v` again.
   */
  lemma {:induction false} OneWinnerPerValue(
    ty: SqlType, first: CellValue, links: seq<Link>, last: CellValue, v: CellValue
  )
    requires Chained(ty, first, links, last)
    ensures CountBefore(ty, links, v) + (if Equal(v, last, ty) then 1 else 0) ==
            CountAfter(ty, links, v) + (if Equal(v, first, ty) then 1 else 0)
    decreases |links|
  {
    if links != [] {
      OneWinnerPerValue(ty, links[0].after.value, links[1..], last, v);
    }
  }

  // ---- edits of a row as it was shown -----------------------------------------------------

  /** The texts are what the client was shown of the row under the names. */
  ghost predicate Shown(cols: seq<ColumnDef>, t: Tuple, names: seq<string>, texts: seq<string>)
    requires |t| == |cols| && |names| == |texts|
  {
    forall k :: 0 <= k < |names| ==>
      var c := IndexOfName(cols, names[k]);
      c.Some? && texts[k] == ShownText(t[c.value], cols[c.value].ty)
  }

  /** The cells under the names are values whose shown texts read back. */
  ghost predicate ReadBackAll(cols: seq<ColumnDef>, t: Tuple, names: seq<string>)
    requires |t| == |cols|
  {
    forall k :: 0 <= k < |names| ==>
      var c := IndexOfName(cols, names[k]);
      c.Some? && !t[c.value].Null? && ReadsBack(t[c.value], cols[c.value].ty)
  }

  ghost predicate NoNulls(cols: seq<ColumnDef>, t: Tuple, names: seq<string>)
    requires |t| == |cols|
  {
    forall k :: 0 <= k < |names| ==>
      IndexOfName(cols, names[k]).Some? && !t[IndexOfName(cols, names[k]).value].Null?
  }

  ghost predicate FaithfulAll(cols: seq<ColumnDef>, names: seq<string>) {
    forall k :: 0 <= k < |names| ==>
      var c := IndexOfName(cols, names[k]);
      c.Some? && Faithful(cols[c.value].ty)
  }

  ghost predicate BasicAll(cols: seq<ColumnDef>, names: seq<string>) {
    forall k :: 0 <= k < |names| ==>
      var c := IndexOfName(cols, names[k]);
      c.Some? && Basic(cols[c.value].ty)
  }

  /** No text under the names is so long that the decoder cuts it. */
  ghost predicate UncutAll(cols: seq<ColumnDef>, t: Tuple, names: seq<string>)
    requires |t| == |cols|
  {
    forall k :: 0 <= k < |names| ==>
      var c := IndexOfName(cols, names[k]);
      c.Some? && (t[c.value].Text? ==> |t[c.value].payload| <= CELL_CAP)
  }

  lemma BasicReadBack(cols: seq<ColumnDef>, t: Tuple, names: seq<string>)
    requires TupleTyped(t, cols) && BasicAll(cols, names)
    ensures ReadBackAll(cols, t, names) <==> NoNulls(cols, t, names) && UncutAll(cols, t, names)
  {
    hide HasType, ReadsBack, IndexOfName;
    forall k | 0 <= k < |names|
      ensures var c := IndexOfName(cols, names[k]).value;
        !t[c].Null? ==> (ReadsBack(t[c], cols[c].ty) <==> (t[c].Text? ==> |t[c].payload| <= CELL_CAP))
    {
      var c := IndexOfName(cols, names[k]).value;
      if !t[c].Null? { ReadsBackIffShort(t[c], cols[c].ty); }
    }
  }

  lemma ShownHolds(cols: seq<ColumnDef>, t: Tuple, names: seq<string>, texts: seq<string>)
    requires |t| == |cols| && |names| == |texts| && Shown(cols, t, names, texts)
    ensures HoldsAll(cols, t, names, texts) <==> ReadBackAll(cols, t, names)
  {
    hide ReadParam, ShownText, IndexOfName;
    forall k | 0 <= k < |names|
      ensures Holds(cols, t, names[k], texts[k]) <==>
        var c := IndexOfName(cols, names[k]).value;
        !t[c].Null? && ReadsBack(t[c], cols[c].ty)
    {
    }
  }

  lemma FaithfulReadBack(cols: seq<ColumnDef>, t: Tuple, names: seq<string>)
    requires TupleTyped(t, cols) && FaithfulAll(cols, names)
    ensures ReadBackAll(cols, t, names) <==> NoNulls(cols, t, names)
  {
    hide HasType, ReadsBack, IndexOfName;
  }

  lemma KeysNotNull(rel: Relation, tys: seq<SqlType>, tbl: Table, i: nat)
    requires WellFormed(rel) && |tys| == |rel.columns| && TableOf(rel, None, tys, tbl)
    requires rel.primaryKey.Some? && i < |tbl.rows| && |tbl.rows[i]| == |tbl.cols|
    ensures NoNulls(tbl.cols, tbl.rows[i], KeyNamesOf(rel))
  {
    hide HasType, KeyNamesOf, IndexOfName;
    var t := tbl.rows[i];
    forall k | 0 <= k < |KeyNamesOf(rel)|
      ensures IndexOfName(tbl.cols, KeyNamesOf(rel)[k]).Some? &&
        !t[IndexOfName(tbl.cols, KeyNamesOf(rel)[k]).value].Null?
    {
      KeyColumnsFound(rel, tys, k);
      assert !t[Positions(rel, PrimaryKeyOf(rel))[k]].Null?;
    }
  }

  /**
   An edit of a row as it is shown finds that row unchanged exactly when its key and the cells to
   be changed are values whose texts read back: the guard compares with `=`, so an edit of a NULL
   cell never applies. Over booleans, integers and texts that is: none of them is NULL, and no
   text among them is longer than the decoder's cap.
   */
  lemma ShownRowIsFreshIff(
    rel: Relation, tys: seq<SqlType>, tbl: Table, diffs: seq<ColumnDiff>, keys: seq<string>, i: nat
  )
    requires WellFormed(rel) && |tys| == |rel.columns| && TableOf(rel, None, tys, tbl)
    requires rel.primaryKey.Some? && |keys| == |KeyNamesOf(rel)| && i < |tbl.rows|
    requires |tbl.rows[i]| == |tbl.cols|
    requires Shown(tbl.cols, tbl.rows[i], KeyNamesOf(rel), keys)
    requires Shown(tbl.cols, tbl.rows[i], DiffNames(diffs), BeforeTexts(diffs))
    ensures Fresh(rel, tbl.cols, diffs, keys, tbl.rows[i]) <==>
      ReadBackAll(tbl.cols, tbl.rows[i], KeyNamesOf(rel)) && ReadBackAll(tbl.cols, tbl.rows[i], DiffNames(diffs))
    ensures FaithfulAll(tbl.cols, KeyNamesOf(rel)) && FaithfulAll(tbl.cols, DiffNames(diffs)) ==>
      (Fresh(rel, tbl.cols, diffs, keys, tbl.rows[i]) <==> NoNulls(tbl.cols, tbl.rows[i], DiffNames(diffs)))
    ensures BasicAll(tbl.cols, KeyNamesOf(rel)) && BasicAll(tbl.cols, DiffNames(diffs)) ==>
      (Fresh(rel, tbl.cols, diffs, keys, tbl.rows[i]) <==>
        && NoNulls(tbl.cols, tbl.rows[i], DiffNames(diffs))
        && UncutAll(tbl.cols, tbl.rows[i], KeyNamesOf(rel)) && UncutAll(tbl.cols, tbl.rows[i], DiffNames(diffs)))
  {
    hide HoldsAll, HasType, KeyNamesOf, IndexOfName, Shown, ReadBackAll, NoNulls, FaithfulAll, BasicAll, UncutAll;
    var t := tbl.rows[i];
    assert TupleTyped(t, tbl.cols);
    ShownHolds(tbl.cols, t, KeyNamesOf(rel), keys);
    ShownHolds(tbl.cols, t, DiffNames(diffs), BeforeTexts(diffs));
    KeysNotNull(rel, tys, tbl, i);
    if FaithfulAll(tbl.cols, KeyNamesOf(rel)) && FaithfulAll(tbl.cols, DiffNames(diffs)) {
      FaithfulReadBack(tbl.cols, t, KeyNamesOf(rel));
      FaithfulReadBack(tbl.cols, t, DiffNames(diffs));
    }
    if BasicAll(tbl.cols, KeyNamesOf(rel)) && BasicAll(tbl.cols, DiffNames(diffs)) {
      BasicReadBack(tbl.cols, t, KeyNamesOf(rel));
      BasicReadBack(tbl.cols, t, DiffNames(diffs));
    }
  }

  /** A text one octet longer than the cap is never found unchanged. */
  lemma LongCellIsStale(
    rel: Relation, tys: seq<SqlType>, tbl: Table, diffs: seq<ColumnDiff>, keys: seq<string>, i: nat, k: nat
  )
    requires WellFormed(rel) && |tys| == |rel.columns| && TableOf(rel, None, tys, tbl)
    requires rel.primaryKey.Some? && |keys| == |KeyNamesOf(rel)| && i < |tbl.rows|
    requires |tbl.rows[i]| == |tbl.cols|
    requires Shown(tbl.cols, tbl.rows[i], KeyNamesOf(rel), keys)
    requires Shown(tbl.cols, tbl.rows[i], DiffNames(diffs), BeforeTexts(diffs))
    requires
      && k < |diffs| && IndexOfName(tbl.cols, DiffNames(diffs)[k]).Some?
      && var c := IndexOfName(tbl.cols, DiffNames(diffs)[k]).value;
         tbl.cols[c].ty.TextT? && tbl.rows[i][c] == LongText(CELL_CAP + 1)
    ensures !Fresh(rel, tbl.cols, diffs, keys, tbl.rows[i])
  {
    ShownRowIsFreshIff(rel, tys, tbl, diffs, keys, i);
    hide Fresh, HasType, KeyNamesOf, IndexOfName, ReadsBack, TableOf;
    var c := IndexOfName(tbl.cols, DiffNames(diffs)[k]).value;
    PlainValid(tbl.rows[i][c].payload);
    CutReadsLower(tbl.rows[i][c].payload, tbl.cols[c].ty.longest);
  }
}
