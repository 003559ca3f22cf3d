/**
 Which relations the table browser shows completely: the pages show every row exactly once, in
 key order, for every table the relation describes and every page size, if and only if the key
 the browser picked is safe.
 */
module BrowsingComplete {
  import opened Prelude
  import opened SqlText
  import opened Values
  import opened Relations
  import opened TableBrowser
  import opened Server
  import opened KeysetPaging

  // ---- safe keys --------------------------------------------------------------------------

  predicate DeclaredNotNull(rel: Relation, id: Id) {
    ColumnById(rel, id).Some? && ColumnById(rel, id).value.notNull
  }

  predicate SubsetOf(ids: seq<Id>, others: seq<Id>) {
    forall k :: 0 <= k < |ids| ==> ids[k] in others
  }

  /** Some unique key lies within `ids`. */
  predicate HoldsUniqueKey(rel: Relation, ids: seq<Id>) {
    exists u :: 0 <= u < |rel.uniqueKeys| && SubsetOf(rel.uniqueKeys[u].columns, ids)
  }

  /** Every text shown for a value is read as some value. */
  ghost predicate AllRead(ty: SqlType) {
    forall c: CellValue :: Stores(c, ty) && !c.Null? ==> ReadParam(ty, ShownText(c, ty)).Some?
  }

  ghost predicate StillAt(c: CellValue, ty: SqlType) {
    Stores(c, ty) && !c.Null? && ReadsBack(c, ty)
  }

  /** Some value reads back. */
  ghost predicate Still(ty: SqlType) {
    exists c: CellValue :: StillAt(c, ty)
  }

  ghost predicate LowersAt(c: CellValue, ty: SqlType) {
    && Stores(c, ty) && !c.Null?
    && var r := ReadParam(ty, ShownText(c, ty));
       r.Some? && Less(r.value, c, ty)
  }

  /** Some value is read as a smaller one. */
  ghost predicate Lowers(ty: SqlType) {
    exists c: CellValue :: LowersAt(c, ty)
  }

  predicate NeverNull(rel: Relation, id: Id) {
    rel.primaryKey.Some? || DeclaredNotNull(rel, id)
  }

  /** The `k`-th key column holds no NULL, and all its values read back. */
  ghost predicate Trusted(rel: Relation, tys: seq<SqlType>, k: nat)
    requires WellFormed(rel) && Browsable(rel) && |tys| == |rel.columns| && k < |OrderKey(rel)|
  {
    NeverNull(rel, OrderKey(rel)[k]) && Faithful(tys[OrderPositions(rel)[k]])
  }

  /** The first key column from `k` on that is not trusted, or their number. */
  ghost function TrustedFrom(rel: Relation, tys: seq<SqlType>, k: nat): (p: nat)
    requires WellFormed(rel) && Browsable(rel) && |tys| == |rel.columns| && k <= |OrderKey(rel)|
    ensures k <= p <= |OrderKey(rel)| && forall i :: k <= i < p ==> Trusted(rel, tys, i)
    ensures p < |OrderKey(rel)| ==> !Trusted(rel, tys, p)
    decreases |OrderKey(rel)| - k
  {
    if k == |OrderKey(rel)| || !Trusted(rel, tys, k) then k else TrustedFrom(rel, tys, k + 1)
  }

  /** What a key column shows is read as some value: `NULL` too, where it can be NULL. */
  ghost predicate Readable(rel: Relation, tys: seq<SqlType>, k: nat)
    requires WellFormed(rel) && Browsable(rel) && |tys| == |rel.columns| && k < |OrderKey(rel)|
  {
    && AllRead(tys[OrderPositions(rel)[k]])
    && (!NeverNull(rel, OrderKey(rel)[k]) ==> ReadsBack(Null, tys[OrderPositions(rel)[k]]))
  }

  /** No row's cursor is read as one before the row: a column that lowers is never reached. */
  ghost predicate NotLowered(rel: Relation, tys: seq<SqlType>, k: nat)
    requires WellFormed(rel) && Browsable(rel) && |tys| == |rel.columns| && k < |OrderKey(rel)|
  {
    Lowers(tys[OrderPositions(rel)[k]]) ==> exists j :: 0 <= j < k && !Still(tys[OrderPositions(rel)[j]])
  }

  /**
   A safe key: its columns before the first that is nullable or has values that do not read back
   tell the rows apart, because they are the whole key or hold a unique key; the server reads all
   that its columns show; and it reads no row's cursor as one before the row.
   */
  ghost predicate SafeKey(rel: Relation, tys: seq<SqlType>)
    requires WellFormed(rel) && Browsable(rel) && |tys| == |rel.columns|
  {
    var ids, p := OrderKey(rel), TrustedFrom(rel, tys, 0);
    && (p == |ids| || HoldsUniqueKey(rel, ids[..p]))
    && forall k :: 0 <= k < |ids| ==> Readable(rel, tys, k) && NotLowered(rel, tys, k)
  }

  lemma FaithfulIsGood(ty: SqlType)
    requires Faithful(ty)
    ensures AllRead(ty) && !Lowers(ty)
  {
    hide HasType, ReadParam, ShownText;
    forall c: CellValue | Stores(c, ty) && !c.Null? ensures ReadsBack(c, ty) && !LowersAt(c, ty) {
      if ReadParam(ty, ShownText(c, ty)).Some? { ReadParamTyped(ty, ShownText(c, ty)); }
      NotLessAndEqual(ReadParam(ty, ShownText(c, ty)), c, ty);
    }
  }

  lemma NotLessAndEqual(r: Option<CellValue>, c: CellValue, ty: SqlType)
    requires HasType(c, ty) && !c.Null?
    requires r.Some? ==> HasType(r.value, ty) && !r.value.Null?
    ensures !(r.Some? && Less(r.value, c, ty) && Equal(r.value, c, ty))
  {
    if r.Some? { OrderTrichotomy(r.value, c, ty); }
    hide Less, Equal, HasType;
  }

  lemma WholeKeyDecides(rel: Relation, schemaName: Option<string>, tys: seq<SqlType>, tbl: Table)
    requires WellFormed(rel) && Browsable(rel) && |tys| == |rel.columns| && TableOf(rel, schemaName, tys, tbl)
    requires forall k :: 0 <= k < |OrderKey(rel)| ==> NeverNull(rel, OrderKey(rel)[k])
    ensures Decided(tbl.rows, tbl.cols, OrderPositions(rel), |OrderKey(rel)|)
  {
    var idxs := OrderPositions(rel);
    forall i, k | 0 <= i < |tbl.rows| && 0 <= k < |idxs| ensures !tbl.rows[i][idxs[k]].Null? {
      assert NeverNull(rel, OrderKey(rel)[k]);
    }
    forall i, j | 0 <= i < j < |tbl.rows| ensures Apart(tbl.rows[i], tbl.rows[j], tbl.cols, idxs, |idxs|) {
      assert rel.primaryKey.None? ==> KeyHolds(rel, rel.uniqueKeys[0], tbl.cols, tbl.rows);
      assert ApartOn(tbl.rows[i], tbl.rows[j], tbl.cols, idxs);
    }
  }

  lemma UniqueKeyDecides(rel: Relation, schemaName: Option<string>, tys: seq<SqlType>, tbl: Table, u: nat, p: nat)
    requires WellFormed(rel) && Browsable(rel) && |tys| == |rel.columns| && TableOf(rel, schemaName, tys, tbl)
    requires u < |rel.uniqueKeys| && p <= |OrderKey(rel)|
    requires SubsetOf(rel.uniqueKeys[u].columns, OrderKey(rel)[..p])
    requires forall k :: 0 <= k < p ==> NeverNull(rel, OrderKey(rel)[k])
    ensures Decided(tbl.rows, tbl.cols, OrderPositions(rel), p)
  {
    hide HasType, EditabilityOf;
    var idxs, key := OrderPositions(rel), rel.uniqueKeys[u];
    var at := Positions(rel, key.columns);
    forall i, k | 0 <= i < |tbl.rows| && 0 <= k < p ensures !tbl.rows[i][idxs[k]].Null? {
      assert NeverNull(rel, OrderKey(rel)[k]);
    }
    forall i, j | 0 <= i < j < |tbl.rows| ensures Apart(tbl.rows[i], tbl.rows[j], tbl.cols, idxs, p) {
      assert KeyHolds(rel, key, tbl.cols, tbl.rows);
      assert ApartOn(tbl.rows[i], tbl.rows[j], tbl.cols, at);
      var c :| 0 <= c < |at| && (tbl.rows[i][at[c]].Null? || !Tied(tbl.rows[i][at[c]], tbl.rows[j][at[c]], tys[at[c]]));
      assert key.columns[c] in OrderKey(rel)[..p];
      var k :| 0 <= k < p && OrderKey(rel)[k] == key.columns[c];
      assert idxs[k] == at[c];
    }
  }

  lemma TrustedNotNull(rel: Relation, tys: seq<SqlType>)
    requires WellFormed(rel) && Browsable(rel) && |tys| == |rel.columns|
    ensures TrustedFrom(rel, tys, 0) <= |OrderKey(rel)|
    ensures forall k :: 0 <= k < TrustedFrom(rel, tys, 0) ==> NeverNull(rel, OrderKey(rel)[k])
  {
    hide NeverNull, Faithful;
    forall k | 0 <= k < TrustedFrom(rel, tys, 0) ensures NeverNull(rel, OrderKey(rel)[k]) {
      assert Trusted(rel, tys, k);
    }
  }

  lemma SafeKeyDecides(rel: Relation, schemaName: Option<string>, tys: seq<SqlType>, tbl: Table)
    requires WellFormed(rel) && Browsable(rel) && |tys| == |rel.columns| && TableOf(rel, schemaName, tys, tbl)
    requires SafeKey(rel, tys)
    ensures Decided(tbl.rows, tbl.cols, OrderPositions(rel), TrustedFrom(rel, tys, 0))
  {
    TrustedNotNull(rel, tys);
    hide NeverNull, Readable, NotLowered, RowsLegal, TrustedFrom, Typed, KeysResolve, EditabilityOf, Decided;
    var ids, p := OrderKey(rel), TrustedFrom(rel, tys, 0);
    if p == |ids| {
      WholeKeyDecides(rel, schemaName, tys, tbl);
    } else {
      var u :| 0 <= u < |rel.uniqueKeys| && SubsetOf(rel.uniqueKeys[u].columns, ids[..p]);
      UniqueKeyDecides(rel, schemaName, tys, tbl, u, p);
    }
  }

  // ---- the next page ----------------------------------------------------------------------

  /** The cursor a client has that was shown the stored row `x`. */
  function CursorOn(rel: Relation, cols: seq<ColumnDef>, x: Tuple): Option<seq<string>> {
    NextCursorOf(rel, DecodedRow(x, cols))
  }

  /** The parameters of the page after row `x`: what it shows in the key columns, and the limit. */
  ghost function ParamsAfter(rel: Relation, cols: seq<ColumnDef>, x: Tuple, n: nat): seq<string>
    requires CursorOn(rel, cols, x).Some?
  {
    CursorOn(rel, cols, x).value + [Dec(n)]
  }

  lemma ParamsShow(rel: Relation, tys: seq<SqlType>, x: Tuple, n: nat)
    requires WellFormed(rel) && Browsable(rel) && |x| == |rel.columns| == |tys|
    ensures CursorOn(rel, Defs(rel, tys), x).Some?
    ensures |CursorOn(rel, Defs(rel, tys), x).value| == |OrderPositions(rel)|
    ensures forall k :: 0 <= k < |OrderPositions(rel)| ==>
      ParamsAfter(rel, Defs(rel, tys), x, n)[k] == ShownText(x[OrderPositions(rel)[k]], tys[OrderPositions(rel)[k]])
  {
    hide Decoded, DisplayString;
    BrowsableHasKey(rel);
    CursorAt(rel, OrderKey(rel), DecodedRow(x, Defs(rel, tys)));
  }

  /** The page after a row, as far as the server reads the cursor. */
  lemma PageAfterRow(rel: Relation, schemaName: Option<string>, tys: seq<SqlType>, tbl: Table, n: nat, x: Tuple)
    requires WellFormed(rel) && Browsable(rel) && |tys| == |rel.columns| && TableOf(rel, schemaName, tys, tbl)
    requires |x| == |rel.columns| && CursorOn(rel, tbl.cols, x).Some?
    requires |CursorOn(rel, tbl.cols, x).value| == |OrderPositions(rel)|
    ensures
      var idxs, built := OrderPositions(rel), BuildSql(rel, schemaName, n, CursorOn(rel, tbl.cols, x));
      var vals := ReadAll(tbl.cols, idxs, Places(|idxs|), ParamsAfter(rel, tbl.cols, x, n));
      built.Ok? && Query(built.value.0, built.value.1, tbl) ==
        if vals.None? then Err(BadParameter)
        else Ok(Take(OrderBy(KeepGreater(tbl.rows, tbl.cols, idxs, vals.value), tbl.cols, idxs), n))
  {
    hide BuildSql, Query, RowsLegal, HasType, ReadAll, KeepGreater, OrderBy, EditabilityOf, CursorOn;
    PageIs(rel, schemaName, tys, tbl, n, CursorOn(rel, tbl.cols, x));
    PageNames(rel, tys);
  }

  /** What a row shows in the key columns is read as `vals`. */
  predicate ReadAs(t: Tuple, tys: seq<SqlType>, idxs: seq<nat>, vals: seq<CellValue>)
    requires |t| == |tys| && Within(idxs, |tys|)
  {
    |vals| == |idxs| &&
    forall k :: 0 <= k < |idxs| ==> ReadParam(tys[idxs[k]], ShownText(t[idxs[k]], tys[idxs[k]])) == Some(vals[k])
  }

  predicate KeyReads(t: Tuple, tys: seq<SqlType>, idxs: seq<nat>)
    requires |t| == |tys| && Within(idxs, |tys|)
  {
    forall k :: 0 <= k < |idxs| ==> ReadParam(tys[idxs[k]], ShownText(t[idxs[k]], tys[idxs[k]])).Some?
  }

  /** The page after row `x`, when all it shows in the key columns can be read. */
  lemma PageAfter(rel: Relation, schemaName: Option<string>, tys: seq<SqlType>, tbl: Table, n: nat, x: Tuple)
    returns (vals: seq<CellValue>)
    requires WellFormed(rel) && Browsable(rel) && |tys| == |rel.columns| && TableOf(rel, schemaName, tys, tbl)
    requires |x| == |tys| && KeyReads(x, tys, OrderPositions(rel))
    ensures ReadAs(x, tys, OrderPositions(rel), vals) && CursorOn(rel, tbl.cols, x).Some?
    ensures
      var idxs, built := OrderPositions(rel), BuildSql(rel, schemaName, n, CursorOn(rel, tbl.cols, x));
      built.Ok? && Query(built.value.0, built.value.1, tbl) ==
        Ok(Take(OrderBy(KeepGreater(tbl.rows, tbl.cols, idxs, vals), tbl.cols, idxs), n))
  {
    hide BuildSql, Query, RowsLegal, HasType, KeepGreater, OrderBy, EditabilityOf, CursorOn, KeysResolve;
    hide ReadParam, ShownText, ReadAll;
    var idxs := OrderPositions(rel);
    ParamsShow(rel, tys, x, n);
    PageAfterRow(rel, schemaName, tys, tbl, n, x);
    forall k | 0 <= k < |idxs|
      ensures ReadPlace(tbl.cols, idxs, Places(|idxs|), ParamsAfter(rel, tbl.cols, x, n), k) ==
        ReadParam(tys[idxs[k]], ShownText(x[idxs[k]], tys[idxs[k]]))
    {
      assert ParamsAfter(rel, tbl.cols, x, n)[k] == ShownText(x[idxs[k]], tys[idxs[k]]);
    }
    vals := ReadAll(tbl.cols, idxs, Places(|idxs|), ParamsAfter(rel, tbl.cols, x, n)).value;
  }

  /** A legal row's cursor is read; its trusted columns as they are, and the rest never as lower. */
  lemma CursorIsRead(rel: Relation, tys: seq<SqlType>, x: Tuple)
    requires WellFormed(rel) && Browsable(rel) && |tys| == |rel.columns| && TupleTyped(x, Defs(rel, tys))
    requires forall k :: 0 <= k < |OrderKey(rel)| ==> Readable(rel, tys, k) && NotLowered(rel, tys, k)
    requires forall k :: 0 <= k < |OrderKey(rel)| && NeverNull(rel, OrderKey(rel)[k]) ==>
      !x[OrderPositions(rel)[k]].Null?
    ensures KeyReads(x, tys, OrderPositions(rel))
    ensures forall vals: seq<CellValue> :: ReadAs(x, tys, OrderPositions(rel), vals) ==>
      && ValuesOf(vals, x, Defs(rel, tys), OrderPositions(rel), TrustedFrom(rel, tys, 0))
      && NeverLower(vals, x, Defs(rel, tys), OrderPositions(rel))
  {
    hide HasType, ReadParam, ShownText, Less, Equal, NeverNull, Lowers, Still, EditabilityOf, KeysResolve;
    var idxs, p := OrderPositions(rel), TrustedFrom(rel, tys, 0);
    forall k | 0 <= k < |idxs| ensures ReadParam(tys[idxs[k]], ShownText(x[idxs[k]], tys[idxs[k]])).Some? {
      assert Readable(rel, tys, k) && Stores(x[idxs[k]], Defs(rel, tys)[idxs[k]].ty);
    }
    forall vals: seq<CellValue> | ReadAs(x, tys, idxs, vals)
      ensures ValuesOf(vals, x, Defs(rel, tys), idxs, p) && NeverLower(vals, x, Defs(rel, tys), idxs)
    {
      TrustedReads(rel, tys, x, vals);
      forall k | 0 <= k < |idxs| && ValuesOf(vals, x, Defs(rel, tys), idxs, k)
        ensures !(!x[idxs[k]].Null? && !vals[k].Null? && Less(vals[k], x[idxs[k]], tys[idxs[k]]))
      {
        ReachedNotLowered(rel, tys, x, vals, k);
      }
    }
  }

  lemma TrustedReads(rel: Relation, tys: seq<SqlType>, x: Tuple, vals: seq<CellValue>)
    requires WellFormed(rel) && Browsable(rel) && |tys| == |rel.columns| && TupleTyped(x, Defs(rel, tys))
    requires forall k :: 0 <= k < |OrderKey(rel)| && NeverNull(rel, OrderKey(rel)[k]) ==>
      !x[OrderPositions(rel)[k]].Null?
    requires ReadAs(x, tys, OrderPositions(rel), vals)
    ensures ValuesOf(vals, x, Defs(rel, tys), OrderPositions(rel), TrustedFrom(rel, tys, 0))
  {
    hide HasType, ReadParam, ShownText, Equal, NeverNull, EditabilityOf, KeysResolve;
    var idxs, p := OrderPositions(rel), TrustedFrom(rel, tys, 0);
    forall k | 0 <= k < p ensures Tied(vals[k], x[idxs[k]], tys[idxs[k]]) {
      assert Trusted(rel, tys, k) && Stores(x[idxs[k]], Defs(rel, tys)[idxs[k]].ty);
      ReadParamTyped(tys[idxs[k]], ShownText(x[idxs[k]], tys[idxs[k]]));
    }
  }

  /** A column reached by equal values only does not lower. */
  lemma ReachedNotLowered(rel: Relation, tys: seq<SqlType>, x: Tuple, vals: seq<CellValue>, k: nat)
    requires WellFormed(rel) && Browsable(rel) && |tys| == |rel.columns| && TupleTyped(x, Defs(rel, tys))
    requires k < |OrderKey(rel)| && NotLowered(rel, tys, k) && ReadAs(x, tys, OrderPositions(rel), vals)
    requires ValuesOf(vals, x, Defs(rel, tys), OrderPositions(rel), k)
    ensures
      var i := OrderPositions(rel)[k];
      !(!x[i].Null? && Less(vals[k], x[i], tys[i]))
  {
    hide HasType, ReadParam, ShownText, Less, Equal, EditabilityOf, KeysResolve;
    var idxs := OrderPositions(rel);
    forall j | 0 <= j < k ensures Still(tys[idxs[j]]) {
      ReadParamTyped(tys[idxs[j]], ShownText(x[idxs[j]], tys[idxs[j]]));
      assert Stores(x[idxs[j]], Defs(rel, tys)[idxs[j]].ty) && Tied(vals[j], x[idxs[j]], tys[idxs[j]]);
      assert StillAt(x[idxs[j]], tys[idxs[j]]);
    }
    assert Stores(x[idxs[k]], Defs(rel, tys)[idxs[k]].ty);
    assert !x[idxs[k]].Null? && Less(vals[k], x[idxs[k]], tys[idxs[k]]) ==> LowersAt(x[idxs[k]], tys[idxs[k]]);
  }

  lemma InKeyOrder(rel: Relation, schemaName: Option<string>, tys: seq<SqlType>, tbl: Table)
    requires WellFormed(rel) && Browsable(rel) && |tys| == |rel.columns| && TableOf(rel, schemaName, tys, tbl)
    requires SafeKey(rel, tys)
    ensures
      var idxs, L := OrderPositions(rel), KeyOrder(rel, schemaName, tys, tbl);
      && AllTyped(L, tbl.cols) && Ordered(L, tbl.cols, idxs)
      && Decided(L, tbl.cols, idxs, TrustedFrom(rel, tys, 0))
      && forall t :: t in L ==> t in tbl.rows
  {
    hide SafeKey, RowsLegal, HasType, EditabilityOf, OrderBy;
    var idxs, L := OrderPositions(rel), KeyOrder(rel, schemaName, tys, tbl);
    SafeKeyDecides(rel, schemaName, tys, tbl);
    OrderByOrdered(tbl.rows, tbl.cols, idxs);
    OrderByPermutes(tbl.rows, tbl.cols, idxs);
    DecidedOrderBy(tbl.rows, tbl.cols, idxs, TrustedFrom(rel, tys, 0));
    forall t | t in L ensures t in tbl.rows {
      assert t in multiset(L);
    }
  }

  /** A stored row has no NULL where there can be none. */
  lemma StoredNotNull(rel: Relation, schemaName: Option<string>, tys: seq<SqlType>, tbl: Table, x: Tuple)
    requires WellFormed(rel) && Browsable(rel) && |tys| == |rel.columns| && TableOf(rel, schemaName, tys, tbl)
    requires x in tbl.rows
    ensures TupleTyped(x, tbl.cols)
    ensures forall k :: 0 <= k < |OrderKey(rel)| && NeverNull(rel, OrderKey(rel)[k]) ==>
      !x[OrderPositions(rel)[k]].Null?
  {
    hide HasType, KeyHolds;
    var i :| 0 <= i < |tbl.rows| && tbl.rows[i] == x;
  }

  /** The cursor a reader has who has seen the first `i` rows of `L`. */
  function CursorAfter(rel: Relation, cols: seq<ColumnDef>, L: seq<Tuple>, i: nat): Option<seq<string>>
    requires i <= |L|
  {
    if i == 0 then None else CursorOn(rel, cols, L[i - 1])
  }

  /** The page a reader gets who has seen the first `i` rows of `L` shows the rows after them. */
  ghost predicate PageFrom(rel: Relation, schemaName: Option<string>, tbl: Table, n: nat, L: seq<Tuple>, i: nat)
    requires Typed(tbl) && i <= |L|
  {
    var cursor := CursorAfter(rel, tbl.cols, L, i);
    && (i > 0 ==> cursor.Some?)
    && var built := BuildSql(rel, schemaName, n, cursor);
       built.Ok? && Query(built.value.0, built.value.1, tbl) == Ok(Take(L[i..], n))
  }

  lemma FirstPage(rel: Relation, schemaName: Option<string>, tys: seq<SqlType>, tbl: Table, n: nat)
    requires WellFormed(rel) && Browsable(rel) && |tys| == |rel.columns| && TableOf(rel, schemaName, tys, tbl)
    ensures PageFrom(rel, schemaName, tbl, n, KeyOrder(rel, schemaName, tys, tbl), 0)
  {
    PageIs(rel, schemaName, tys, tbl, n, None);
    assert KeyOrder(rel, schemaName, tys, tbl)[0..] == KeyOrder(rel, schemaName, tys, tbl);
  }

  lemma NextPage(rel: Relation, schemaName: Option<string>, tys: seq<SqlType>, tbl: Table, n: nat, i: nat)
    requires WellFormed(rel) && Browsable(rel) && |tys| == |rel.columns| && TableOf(rel, schemaName, tys, tbl)
    requires SafeKey(rel, tys)
    requires i < |KeyOrder(rel, schemaName, tys, tbl)|
    ensures PageFrom(rel, schemaName, tbl, n, KeyOrder(rel, schemaName, tys, tbl), i + 1)
  {
    hide SafeKey, RowsLegal, HasType, EditabilityOf, OrderBy, KeepGreater, CursorOn, KeysResolve, NeverNull;
    hide ValuesOf, NeverLower, Decided, BuildSql, Query;
    var idxs, L := OrderPositions(rel), KeyOrder(rel, schemaName, tys, tbl);
    InKeyOrder(rel, schemaName, tys, tbl);
    assert L[i] in L;
    var vals := PageAfterStored(rel, schemaName, tys, tbl, n, L[i]);
    KeepGreaterOrderBy(tbl.rows, tbl.cols, idxs, vals);
    RowsAfter(L, tbl.cols, idxs, TrustedFrom(rel, tys, 0), vals, i);
  }

  /** With a safe key the page after a stored row is the one the row's own values ask for. */
  lemma PageAfterStored(rel: Relation, schemaName: Option<string>, tys: seq<SqlType>, tbl: Table, n: nat, x: Tuple)
    returns (vals: seq<CellValue>)
    requires WellFormed(rel) && Browsable(rel) && |tys| == |rel.columns| && TableOf(rel, schemaName, tys, tbl)
    requires SafeKey(rel, tys) && x in tbl.rows
    ensures |vals| == |OrderPositions(rel)| && TupleTyped(x, tbl.cols)
    ensures ValuesOf(vals, x, tbl.cols, OrderPositions(rel), TrustedFrom(rel, tys, 0))
    ensures NeverLower(vals, x, tbl.cols, OrderPositions(rel)) && CursorOn(rel, tbl.cols, x).Some?
    ensures
      var idxs, built := OrderPositions(rel), BuildSql(rel, schemaName, n, CursorOn(rel, tbl.cols, x));
      built.Ok? && Query(built.value.0, built.value.1, tbl) ==
        Ok(Take(OrderBy(KeepGreater(tbl.rows, tbl.cols, idxs, vals), tbl.cols, idxs), n))
  {
    StoredNotNull(rel, schemaName, tys, tbl, x);
    SafeIsRead(rel, tys);
    hide SafeKey, RowsLegal, HasType, EditabilityOf, OrderBy, KeepGreater, CursorOn, KeysResolve, NeverNull;
    hide ReadAs, KeyReads, ValuesOf, NeverLower, Readable, NotLowered, BuildSql, Query, TrustedFrom;
    CursorIsRead(rel, tys, x);
    vals := PageAfter(rel, schemaName, tys, tbl, n, x);
  }

  lemma SafeIsRead(rel: Relation, tys: seq<SqlType>)
    requires WellFormed(rel) && Browsable(rel) && |tys| == |rel.columns| && SafeKey(rel, tys)
    ensures forall k :: 0 <= k < |OrderKey(rel)| ==> Readable(rel, tys, k) && NotLowered(rel, tys, k)
  {
  }

  // ---- runs -------------------------------------------------------------------------------

  /**
   `pages` is what a reader sees who asks for pages of `n` rows from `cursor` on, each time with
   the cursor of the last row shown, until a page is short.
   */
  ghost predicate IsRun(
    rel: Relation, schemaName: Option<string>, tbl: Table, n: nat, cursor: Option<seq<string>>, pages: seq<seq<Tuple>>
  )
    requires Typed(tbl) && n > 0
    decreases |pages|
  {
    pages != [] &&
    var built := BuildSql(rel, schemaName, n, cursor);
    built.Ok? && Query(built.value.0, built.value.1, tbl) == Ok(pages[0]) &&
    if |pages[0]| < n then |pages| == 1
    else
      var next := CursorOn(rel, tbl.cols, pages[0][|pages[0]| - 1]);
      next.Some? && IsRun(rel, schemaName, tbl, n, next, pages[1..])
  }

  lemma {:induction false} RunsAreUnique(
    rel: Relation, schemaName: Option<string>, tbl: Table, n: nat, cursor: Option<seq<string>>, p: seq<seq<Tuple>>,
    q: seq<seq<Tuple>>
  )
    requires Typed(tbl) && n > 0
    requires IsRun(rel, schemaName, tbl, n, cursor, p) && IsRun(rel, schemaName, tbl, n, cursor, q)
    ensures p == q
    decreases |p|
  {
    hide BuildSql, Query, CursorOn;
    assert p[0] == q[0];
    if |p[0]| == n || |p[0]| > n {
      var next := CursorOn(rel, tbl.cols, p[0][|p[0]| - 1]);
      RunsAreUnique(rel, schemaName, tbl, n, next, p[1..], q[1..]);
    }
    assert p == [p[0]] + p[1..] && q == [q[0]] + q[1..];
  }

  /** A list cut into pages of `n`, the last one short. */
  function Chunks(L: seq<Tuple>, n: nat): (cs: seq<seq<Tuple>>)
    requires n > 0
    ensures |cs| > 0
    decreases |L|
  {
    if |L| < n then [L] else [L[..n]] + Chunks(L[n..], n)
  }

  lemma {:induction false} ChunksHoldAll(L: seq<Tuple>, n: nat)
    requires n > 0
    ensures Flatten(Chunks(L, n)) == L
    decreases |L|
  {
    if |L| < n {
      assert L + [] == L && [L][1..] == [];
    } else {
      ChunksHoldAll(L[n..], n);
      assert Chunks(L, n)[1..] == Chunks(L[n..], n);
      assert L == L[..n] + L[n..];
    }
  }

  lemma {:induction false} ChunksCounted(L: seq<Tuple>, n: nat)
    requires n > 0
    ensures |Chunks(L, n)| == |L| / n + 1
    decreases |L|
  {
    if |L| < n {
      QuotientUnique(n, 0, |L|, |L| / n, |L| % n);
    } else {
      ChunksCounted(L[n..], n);
      DivStep(|L|, n);
    }
  }

  lemma {:induction false} ChunksAreRun(
    rel: Relation, schemaName: Option<string>, tbl: Table, n: nat, L: seq<Tuple>, i: nat
  )
    requires Typed(tbl) && n > 0 && i <= |L|
    requires forall k :: 0 <= k <= |L| ==> PageFrom(rel, schemaName, tbl, n, L, k)
    ensures IsRun(rel, schemaName, tbl, n, CursorAfter(rel, tbl.cols, L, i), Chunks(L[i..], n))
    decreases |L| - i
  {
    hide BuildSql, Query, CursorOn;
    var rest := L[i..];
    assert PageFrom(rel, schemaName, tbl, n, L, i);
    if |rest| >= n {
      ChunksAreRun(rel, schemaName, tbl, n, L, i + n);
      assert PageFrom(rel, schemaName, tbl, n, L, i + n);
      assert rest[n..] == L[i + n..] && rest[..n][n - 1] == L[i + n - 1];
      assert Chunks(rest, n)[1..] == Chunks(L[i + n..], n);
      assert Take(rest, n) == rest[..n] == Chunks(rest, n)[0];
    } else {
      assert Take(rest, n) == rest && Chunks(rest, n) == [rest];
    }
  }

  /** The pages exist and show the rows in key order, each once. */
  ghost predicate ShowsAll(rel: Relation, schemaName: Option<string>, tys: seq<SqlType>, tbl: Table, n: nat)
    requires WellFormed(rel) && Browsable(rel) && |tys| == |rel.columns| && TableOf(rel, schemaName, tys, tbl) && n > 0
  {
    exists pages :: IsRun(rel, schemaName, tbl, n, None, pages) && Flatten(pages) == KeyOrder(rel, schemaName, tys, tbl)
  }

  /**
   With a safe key, browsing shows a permutation of the stored rows, sorted by the key, in
   exactly floor(N / n) + 1 pages, and no other sequence of pages can be seen.
   */
  lemma SafeKeyShowsAll(rel: Relation, schemaName: Option<string>, tys: seq<SqlType>, tbl: Table, n: nat)
    returns (pages: seq<seq<Tuple>>)
    requires WellFormed(rel) && Browsable(rel) && |tys| == |rel.columns| && TableOf(rel, schemaName, tys, tbl)
    requires SafeKey(rel, tys) && n > 0
    ensures IsRun(rel, schemaName, tbl, n, None, pages)
    ensures forall q :: IsRun(rel, schemaName, tbl, n, None, q) ==> q == pages
    ensures Flatten(pages) == KeyOrder(rel, schemaName, tys, tbl)
    ensures multiset(Flatten(pages)) == multiset(tbl.rows)
    ensures Wide(Flatten(pages), |tys|) && Ordered(Flatten(pages), tbl.cols, OrderPositions(rel))
    ensures |pages| == |tbl.rows| / n + 1
  {
    hide BuildSql, Query, CursorOn, OrderBy;
    var L := KeyOrder(rel, schemaName, tys, tbl);
    pages := Chunks(L, n);
    EveryPage(rel, schemaName, tys, tbl, n);
    ChunksAreRun(rel, schemaName, tbl, n, L, 0);
    assert L[0..] == L;
    ChunksHoldAll(L, n);
    ChunksCounted(L, n);
    InKeyOrder(rel, schemaName, tys, tbl);
    OrderByPermutes(tbl.rows, tbl.cols, OrderPositions(rel));
    assert |L| == |multiset(L)| == |multiset(tbl.rows)| == |tbl.rows|;
    forall q | IsRun(rel, schemaName, tbl, n, None, q) ensures q == pages {
      RunsAreUnique(rel, schemaName, tbl, n, None, q, pages);
    }
  }

  lemma TablesAreTyped(rel: Relation, schemaName: Option<string>, tys: seq<SqlType>, tbl: Table)
    requires WellFormed(rel) && |tys| == |rel.columns| && TableOf(rel, schemaName, tys, tbl)
    ensures Typed(tbl)
  {
    hide WellFormed, RowsLegal, TupleTyped;
  }

  lemma EveryPage(rel: Relation, schemaName: Option<string>, tys: seq<SqlType>, tbl: Table, n: nat)
    requires WellFormed(rel) && Browsable(rel) && |tys| == |rel.columns| && TableOf(rel, schemaName, tys, tbl)
    requires SafeKey(rel, tys)
    ensures
      var L := KeyOrder(rel, schemaName, tys, tbl);
      forall k :: 0 <= k <= |L| ==> PageFrom(rel, schemaName, tbl, n, L, k)
  {
    hide *;
    TablesAreTyped(rel, schemaName, tys, tbl);
    var L := KeyOrder(rel, schemaName, tys, tbl);
    forall k | 0 <= k <= |L| ensures PageFrom(rel, schemaName, tbl, n, L, k) {
      if k == 0 {
        FirstPage(rel, schemaName, tys, tbl, n);
      } else {
        NextPage(rel, schemaName, tys, tbl, n, k - 1);
      }
    }
  }
}
