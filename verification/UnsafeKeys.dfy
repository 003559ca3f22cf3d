/**
 The other half of the browsing theorem: for every key that is not safe there is a table the
 relation describes, and a page size, for which browsing loses a row or stops with an error.
 */
module UnsafeKeys {
  import opened Prelude
  import opened Values
  import opened Relations
  import opened TableBrowser
  import opened Server
  import opened KeysetPaging
  import opened BrowsingComplete
  import Utf8

  // ---- values -----------------------------------------------------------------------------

  /** Two values of the type, the smaller one first. */
  ghost predicate Rises(low: CellValue, high: CellValue, ty: SqlType) {
    Stores(low, ty) && Stores(high, ty) && !low.Null? && !high.Null? && Less(low, high, ty)
  }

  /** The type has two values that differ. */
  ghost predicate TwoValued(ty: SqlType) {
    exists low: CellValue, high: CellValue :: Rises(low, high, ty)
  }

  ghost predicate AllTwoValued(tys: seq<SqlType>) {
    forall i :: 0 <= i < |tys| ==> TwoValued(tys[i])
  }

  lemma OwnTwoValued(ty: SqlType)
    requires !ty.LibraryT? && (ty.TextT? ==> ty.longest != Some(0))
    ensures TwoValued(ty)
  {
    assert BytesLess([49], [50]);
    assert ty.BoolT? ==> Rises(Bool(false), Bool(true), ty);
    assert ty.SmallIntT? ==> Rises(SmallInt(1), SmallInt(2), ty);
    assert ty.IntT? ==> Rises(Int(1), Int(2), ty);
    assert ty.BigIntT? ==> Rises(BigInt(1), BigInt(2), ty);
    assert ty.TextT? ==> Rises(Text([49]), Text([50]), ty);
    assert ty.ByteaT? ==> Rises(Bytea([49]), Bytea([50]), ty);
  }

  lemma OrderIrreflexive(a: CellValue, b: CellValue, ty: SqlType)
    requires HasType(a, ty) && HasType(b, ty) && !a.Null? && !b.Null?
    ensures !(Less(a, b, ty) && Equal(a, b, ty)) && !(Less(a, b, ty) && Less(b, a, ty))
    ensures Less(a, b, ty) || Less(b, a, ty) || Equal(a, b, ty)
    ensures Equal(a, b, ty) <==> Equal(b, a, ty)
  {
    OrderTrichotomy(a, b, ty);
    hide Less, Equal, HasType;
  }

  ghost function LowHigh(ty: SqlType): (r: (CellValue, CellValue))
    requires TwoValued(ty)
    ensures Rises(r.0, r.1, ty)
  {
    var low: CellValue, high: CellValue :| Rises(low, high, ty);
    (low, high)
  }

  /**
   Cells of two rows that differ, such that the second is not greater than what the first is read
   as, where the type's texts are all read.
   */
  ghost predicate Behind(a: CellValue, b: CellValue, ty: SqlType) {
    && Stores(a, ty) && Stores(b, ty) && !a.Null? && !b.Null? && !Tied(a, b, ty)
    && var r := ReadParam(ty, ShownText(a, ty));
       AllRead(ty) ==> r.Some? && (Tied(r.value, b, ty) || Less(b, r.value, ty))
  }

  lemma BehindExists(ty: SqlType) returns (a: CellValue, b: CellValue)
    requires TwoValued(ty)
    ensures Behind(a, b, ty)
  {
    hide HasType, ReadParam, ShownText, Less, Equal;
    if AllRead(ty) && !Faithful(ty) {
      a :| Stores(a, ty) && !a.Null? && !ReadsBack(a, ty);
      b := ReadParam(ty, ShownText(a, ty)).value;
      ReadParamTyped(ty, ShownText(a, ty));
      ReadStores(a, ty);
      OrderIrreflexive(a, b, ty);
      TiedSelf(b, ty);
    } else {
      var (low, high) := LowHigh(ty);
      a, b := high, low;
      OrderIrreflexive(low, high, ty);
      if AllRead(ty) {
        assert ReadsBack(high, ty);
        ReadParamTyped(ty, ShownText(high, ty));
        ReadAbove(ReadParam(ty, ShownText(high, ty)).value, low, high, ty);
      }
    }
  }

  lemma ReadAbove(r: CellValue, low: CellValue, high: CellValue, ty: SqlType)
    requires Rises(low, high, ty) && !r.Null? && Equal(r, high, ty)
    ensures Less(low, r, ty)
  {
    assert Tied(r, high, ty);
    TiedAlike(r, high, low, ty);
    hide Less, Equal, HasType;
  }

  /** What is read for a value of a column could stand in the column too: a cut text is no longer. */
  lemma ReadStores(c: CellValue, ty: SqlType)
    requires Stores(c, ty) && !c.Null? && ReadParam(ty, ShownText(c, ty)).Some?
    ensures Stores(ReadParam(ty, ShownText(c, ty)).value, ty)
  {
    ReadParamTyped(ty, ShownText(c, ty));
    if ty.TextT? { ReadDecoded(c, ty); }
  }

  ghost function Pair(ty: SqlType): (r: (CellValue, CellValue))
    requires TwoValued(ty)
    ensures Behind(r.0, r.1, ty)
  {
    assert exists a: CellValue, b: CellValue :: Behind(a, b, ty) by { var a, b := BehindExists(ty); }
    var a: CellValue, b: CellValue :| Behind(a, b, ty);
    (a, b)
  }

  ghost function One(ty: SqlType): (c: CellValue)
    requires TwoValued(ty)
    ensures Stores(c, ty) && !c.Null?
    ensures Still(ty) ==> StillAt(c, ty)
  {
    if Still(ty) then var c: CellValue :| StillAt(c, ty); c else LowHigh(ty).0
  }

  // ---- rows -------------------------------------------------------------------------------

  /** A row of values, with `c` at `place`. */
  ghost function Ones(tys: seq<SqlType>, place: nat, c: CellValue): (t: Tuple)
    requires AllTwoValued(tys)
    ensures |t| == |tys|
    ensures forall i :: 0 <= i < |tys| ==> t[i] == (if i == place then c else One(tys[i]))
  {
    seq(|tys|, i requires 0 <= i < |tys| => if i == place then c else One(tys[i]))
  }

  /** The first or the second of two rows: alike at `shared`, `c` at `place`, and apart elsewhere. */
  ghost function Side(tys: seq<SqlType>, shared: seq<nat>, place: nat, c: CellValue, first: bool): (t: Tuple)
    requires AllTwoValued(tys)
    ensures |t| == |tys|
    ensures forall i :: 0 <= i < |tys| ==> t[i] == SideCell(tys[i], i in shared, i == place, c, first)
  {
    seq(|tys|, i requires 0 <= i < |tys| => SideCell(tys[i], i in shared, i == place, c, first))
  }

  ghost function SideCell(ty: SqlType, shared: bool, here: bool, c: CellValue, first: bool): CellValue
    requires TwoValued(ty)
  {
    if shared then One(ty) else if here then c else if first then Pair(ty).0 else Pair(ty).1
  }

  function TableWith(rel: Relation, schemaName: Option<string>, tys: seq<SqlType>, rows: seq<Tuple>): Table
    requires |tys| == |rel.columns|
  {
    Server.Table(if schemaName.Some? then schemaName.value else "", rel.name, Defs(rel, tys), rows)
  }

  lemma {:induction false} KeyLessAt(s: Tuple, t: Tuple, cols: seq<ColumnDef>, idxs: seq<nat>, d: nat)
    requires |s| == |t| == |cols| && Within(idxs, |cols|) && d < |idxs|
    requires forall k :: 0 <= k < d ==> s[idxs[k]] == t[idxs[k]]
    requires OrderLess(s[idxs[d]], t[idxs[d]], cols[idxs[d]].ty)
    ensures KeyLess(s, t, cols, idxs)
  {
    if d > 0 { KeyLessAt(s, t, cols, idxs[1..], d - 1); }
  }

  /** A row nowhere greater than the values, cell by cell, is not greater than they are. */
  lemma {:induction false} NotGreaterBelow(t: Tuple, cols: seq<ColumnDef>, idxs: seq<nat>, vals: seq<CellValue>)
    requires TupleTyped(t, cols) && Within(idxs, |cols|) && |idxs| == |vals|
    requires forall k :: 0 <= k < |idxs| ==> NotAbove(t[idxs[k]], vals[k], cols[idxs[k]].ty)
    ensures !RowGreater(t, cols, idxs, vals)
  {
    hide Less, Equal, HasType;
    if idxs != [] {
      assert NotAbove(t[idxs[0]], vals[0], cols[idxs[0]].ty);
      AboveOnce(t[idxs[0]], vals[0], cols[idxs[0]].ty);
      NotGreaterBelow(t, cols, idxs[1..], vals[1..]);
    }
  }

  /** What a cell of the second row is to what the first row's is read as. */
  ghost predicate NotAbove(x: CellValue, v: CellValue, ty: SqlType) {
    x.Null? || (HasType(v, ty) && !v.Null? && (Tied(v, x, ty) || Less(x, v, ty)))
  }

  lemma AboveOnce(x: CellValue, v: CellValue, ty: SqlType)
    requires HasType(x, ty) && NotAbove(x, v, ty)
    ensures x.Null? || Equal(x, v, ty) || !Less(v, x, ty)
  {
    if !x.Null? { OrderIrreflexive(x, v, ty); }
    hide Less, Equal, HasType;
  }

  /** A row that ties with the values up to one that is smaller is greater than they are. */
  lemma {:induction false} GreaterAtSmaller(
    t: Tuple, cols: seq<ColumnDef>, idxs: seq<nat>, vals: seq<CellValue>, d: nat
  )
    requires TupleTyped(t, cols) && Within(idxs, |cols|) && |idxs| == |vals| && d < |idxs|
    requires forall k :: 0 <= k <= d ==> !t[idxs[k]].Null? && !vals[k].Null? && HasType(vals[k], cols[idxs[k]].ty)
    requires forall k :: 0 <= k < d ==> Equal(vals[k], t[idxs[k]], cols[idxs[k]].ty)
    requires Less(vals[d], t[idxs[d]], cols[idxs[d]].ty)
    ensures RowGreater(t, cols, idxs, vals)
  {
    hide Less, HasType;
    if d > 0 {
      GreaterAtSmaller(t, cols, idxs[1..], vals[1..], d - 1);
    } else {
      OrderIrreflexive(vals[0], t[idxs[0]], cols[idxs[0]].ty);
    }
  }

  // ---- a row that no page shows -----------------------------------------------------------

  /** The first column that is not trusted is not among the ones before it. */
  lemma HoleOutside(rel: Relation, tys: seq<SqlType>, p: nat)
    requires WellFormed(rel) && Browsable(rel) && |tys| == |rel.columns|
    requires p < |OrderKey(rel)| && p == TrustedFrom(rel, tys, 0)
    ensures OrderPositions(rel)[p] !in OrderPositions(rel)[..p]
  {
    hide Faithful, EditabilityOf, KeysResolve;
    var ids, idxs := OrderKey(rel), OrderPositions(rel);
    forall k | 0 <= k < p ensures idxs[k] != idxs[p] {
      assert Trusted(rel, tys, k) && !Trusted(rel, tys, p);
      BrowsableHasKey(rel);
    }
  }

  /** Rows alike in the first columns only are apart on every key not within those. */
  lemma ApartOffPrefix(
    rel: Relation, tys: seq<SqlType>, ids: seq<Id>, idxs: seq<nat>, p: nat, c: CellValue, d: CellValue, key: Key
  )
    requires |tys| == |rel.columns| && KeyResolves(rel, key) && AllTwoValued(tys)
    requires forall k :: 0 <= k < |ids| ==> ColumnIndex(rel.columns, ids[k]).Some?
    requires idxs == Positions(rel, ids) && p < |ids| && idxs[p] < |tys|
    requires !SubsetOf(key.columns, ids[..p]) && !Tied(c, d, tys[idxs[p]])
    ensures
      var r1, r2 := Side(tys, idxs[..p], idxs[p], c, true), Side(tys, idxs[..p], idxs[p], d, false);
      ApartOn(r1, r2, Defs(rel, tys), Positions(rel, key.columns))
  {
    hide Tied, HasType, AllRead;
    var r1, r2 := Side(tys, idxs[..p], idxs[p], c, true), Side(tys, idxs[..p], idxs[p], d, false);
    var at := Positions(rel, key.columns);
    var q :| 0 <= q < |key.columns| && key.columns[q] !in ids[..p];
    forall k | 0 <= k < p ensures idxs[k] != at[q] {
      assert ids[k] in ids[..p];
    }
    assert at[q] !in idxs[..p];
    assert !Tied(r1[at[q]], r2[at[q]], Defs(rel, tys)[at[q]].ty);
  }

  lemma TwoRowsLegal(rel: Relation, cols: seq<ColumnDef>, r1: Tuple, r2: Tuple, hole: nat)
    requires WellFormed(rel) && |r1| == |r2| == |cols| == |rel.columns|
    requires hole < |rel.columns| && (r2[hole].Null? ==> rel.primaryKey.None? && !rel.columns[hole].notNull)
    requires forall i :: 0 <= i < |r1| ==> !r1[i].Null? && (i != hole ==> !r2[i].Null?)
    requires rel.primaryKey.Some? ==> ApartOn(r1, r2, cols, Positions(rel, rel.primaryKey.value.columns))
    requires forall u :: 0 <= u < |rel.uniqueKeys| ==> ApartOn(r1, r2, cols, Positions(rel, rel.uniqueKeys[u].columns))
    ensures RowsLegal(rel, cols, [r1, r2])
  {
    hide ApartOn, Positions;
    forall u | 0 <= u < |rel.uniqueKeys| ensures KeyHolds(rel, rel.uniqueKeys[u], cols, [r1, r2]) {
      assert ApartOn(r1, r2, cols, Positions(rel, rel.uniqueKeys[u].columns));
    }
  }

  /** The two cells at the first column that is not trusted: the second one is NULL, or what the first is read as. */
  ghost predicate Slips(rel: Relation, tys: seq<SqlType>, p: nat, c: CellValue, d: CellValue)
    requires WellFormed(rel) && Browsable(rel) && |tys| == |rel.columns| && p < |OrderKey(rel)|
  {
    var ty := tys[OrderPositions(rel)[p]];
    && Stores(c, ty) && !c.Null? && Stores(d, ty) && OrderLess(c, d, ty)
    && if d.Null? then !NeverNull(rel, OrderKey(rel)[p]) else ReadParam(ty, ShownText(c, ty)) == Some(d)
  }

  lemma SlipExists(rel: Relation, tys: seq<SqlType>, p: nat) returns (c: CellValue, d: CellValue)
    requires WellFormed(rel) && Browsable(rel) && |tys| == |rel.columns| && AllTwoValued(tys)
    requires p < |OrderKey(rel)| && p == TrustedFrom(rel, tys, 0)
    requires forall k :: 0 <= k < |OrderKey(rel)| ==> Readable(rel, tys, k) && NotLowered(rel, tys, k)
    ensures Slips(rel, tys, p, c, d)
  {
    hide HasType, ReadParam, ShownText, Less, Equal, EditabilityOf, KeysResolve, NeverNull;
    var ty := tys[OrderPositions(rel)[p]];
    if !NeverNull(rel, OrderKey(rel)[p]) {
      c, d := One(ty), Null;
      NullIsStored(ty);
    } else {
      assert !Trusted(rel, tys, p) && Readable(rel, tys, p) && NotLowered(rel, tys, p);
      c :| Stores(c, ty) && !c.Null? && !ReadsBack(c, ty);
      d := ReadParam(ty, ShownText(c, ty)).value;
      ReadParamTyped(ty, ShownText(c, ty));
      ReadStores(c, ty);
      OrderIrreflexive(c, d, ty);
      forall j | 0 <= j < p ensures Still(tys[OrderPositions(rel)[j]]) {
        assert Trusted(rel, tys, j);
        FaithfulIsStill(tys[OrderPositions(rel)[j]]);
      }
      assert Less(d, c, ty) ==> LowersAt(c, ty);
    }
  }

  lemma NullIsStored(ty: SqlType)
    ensures Stores(Null, ty)
  {
  }

  lemma FaithfulIsStill(ty: SqlType)
    requires Faithful(ty) && TwoValued(ty)
    ensures Still(ty)
  {
    hide HasType, ReadParam, ShownText, Less;
    assert StillAt(LowHigh(ty).0, ty);
  }

  lemma SidesLegal(rel: Relation, tys: seq<SqlType>, p: nat, c: CellValue, d: CellValue, r1: Tuple, r2: Tuple)
    requires WellFormed(rel) && Browsable(rel) && |tys| == |rel.columns| && AllTwoValued(tys)
    requires p < |OrderKey(rel)| && OrderPositions(rel)[p] !in OrderPositions(rel)[..p] && Slips(rel, tys, p, c, d)
    requires !HoldsUniqueKey(rel, OrderKey(rel)[..p]) && |r1| == |r2| == |tys|
    requires r1 == Side(tys, OrderPositions(rel)[..p], OrderPositions(rel)[p], c, true)
    requires r2 == Side(tys, OrderPositions(rel)[..p], OrderPositions(rel)[p], d, false)
    ensures AllTyped([r1, r2], Defs(rel, tys)) && RowsLegal(rel, Defs(rel, tys), [r1, r2])
  {
    var idxs := OrderPositions(rel);
    SidesApart(rel, tys, p, c, d, r1, r2);
    SidesTyped(rel, tys, idxs[..p], idxs[p], c, d);
    HoleNullable(rel, tys, p, c, d);
    SideNotNull(tys, idxs[..p], idxs[p], c, true);
    SideNotNull(tys, idxs[..p], idxs[p], d, false);
    SidesShare(tys, idxs[..p], idxs[p], c, d);
    assert !c.Null?;
    hide ApartOn, RowsLegal, HasType, Slips, Side, EditabilityOf, SubsetOf, HoldsUniqueKey, AllTwoValued;
    TwoRowsLegal(rel, Defs(rel, tys), r1, r2, idxs[p]);
  }

  lemma SidesApart(rel: Relation, tys: seq<SqlType>, p: nat, c: CellValue, d: CellValue, r1: Tuple, r2: Tuple)
    requires WellFormed(rel) && Browsable(rel) && |tys| == |rel.columns| && AllTwoValued(tys)
    requires p < |OrderKey(rel)| && OrderPositions(rel)[p] !in OrderPositions(rel)[..p] && Slips(rel, tys, p, c, d)
    requires !HoldsUniqueKey(rel, OrderKey(rel)[..p]) && |r1| == |r2| == |tys|
    requires r1 == Side(tys, OrderPositions(rel)[..p], OrderPositions(rel)[p], c, true)
    requires r2 == Side(tys, OrderPositions(rel)[..p], OrderPositions(rel)[p], d, false)
    ensures rel.primaryKey.Some? ==> ApartOn(r1, r2, Defs(rel, tys), Positions(rel, rel.primaryKey.value.columns))
    ensures forall u :: 0 <= u < |rel.uniqueKeys| ==>
      ApartOn(r1, r2, Defs(rel, tys), Positions(rel, rel.uniqueKeys[u].columns))
  {
    var ids, idxs := OrderKey(rel), OrderPositions(rel);
    BrowsableHasKey(rel);
    SlipsApart(rel, tys, p, c, d);
    hide SubsetOf, ApartOn, HasType, Tied, ReadParam, ShownText, AllRead, OrderLess, EditabilityOf, Slips, Side;
    forall u | 0 <= u < |rel.uniqueKeys|
      ensures ApartOn(r1, r2, Defs(rel, tys), Positions(rel, rel.uniqueKeys[u].columns))
    {
      ApartOffPrefix(rel, tys, ids, idxs, p, c, d, rel.uniqueKeys[u]);
    }
    if rel.primaryKey.Some? {
      OwnPlace(rel, p);
      ApartOffPrefix(rel, tys, ids, idxs, p, c, d, rel.primaryKey.value);
    }
  }

  lemma OwnPlace(rel: Relation, p: nat)
    requires WellFormed(rel) && Browsable(rel)
    requires p < |OrderKey(rel)| && OrderPositions(rel)[p] !in OrderPositions(rel)[..p]
    ensures !SubsetOf(OrderKey(rel), OrderKey(rel)[..p])
  {
    hide EditabilityOf, KeysResolve;
    var ids, idxs := OrderKey(rel), OrderPositions(rel);
    BrowsableHasKey(rel);
    forall k | 0 <= k < p ensures ids[k] != ids[p] {
      assert idxs[..p][k] == idxs[k];
    }
  }

  lemma HoleNullable(rel: Relation, tys: seq<SqlType>, p: nat, c: CellValue, d: CellValue)
    requires WellFormed(rel) && Browsable(rel) && |tys| == |rel.columns|
    requires p < |OrderKey(rel)| && Slips(rel, tys, p, c, d)
    ensures d.Null? ==> rel.primaryKey.None? && !rel.columns[OrderPositions(rel)[p]].notNull
  {
    hide HasType, ReadParam, ShownText, OrderLess, EditabilityOf;
    BrowsableHasKey(rel);
  }

  lemma SlipsApart(rel: Relation, tys: seq<SqlType>, p: nat, c: CellValue, d: CellValue)
    requires WellFormed(rel) && Browsable(rel) && |tys| == |rel.columns|
    requires p < |OrderKey(rel)| && Slips(rel, tys, p, c, d)
    ensures !Tied(c, d, tys[OrderPositions(rel)[p]])
  {
    OrderTrichotomy(c, d, tys[OrderPositions(rel)[p]]);
    hide HasType, Tied, OrderLess;
  }

  lemma SidesTyped(rel: Relation, tys: seq<SqlType>, shared: seq<nat>, place: nat, c: CellValue, d: CellValue)
    requires |tys| == |rel.columns| && AllTwoValued(tys) && place < |tys|
    requires Stores(c, tys[place]) && Stores(d, tys[place])
    ensures AllTyped([Side(tys, shared, place, c, true), Side(tys, shared, place, d, false)], Defs(rel, tys))
  {
    SideTyped(tys, shared, place, c, true);
    SideTyped(tys, shared, place, d, false);
    hide HasType, Side;
  }

  lemma SideNotNull(tys: seq<SqlType>, shared: seq<nat>, place: nat, c: CellValue, first: bool)
    requires AllTwoValued(tys) && place < |tys|
    ensures forall i :: 0 <= i < |tys| && (i != place || !c.Null?) ==> !Side(tys, shared, place, c, first)[i].Null?
  {
    hide HasType, Tied, AllRead, ReadParam, ShownText, Less, StillAt, Still, TwoValued;
  }

  lemma SidesShare(tys: seq<SqlType>, shared: seq<nat>, place: nat, c: CellValue, d: CellValue)
    requires AllTwoValued(tys) && place < |tys| && place !in shared
    ensures Side(tys, shared, place, c, true)[place] == c && Side(tys, shared, place, d, false)[place] == d
    ensures forall i :: 0 <= i < |tys| && i in shared ==>
      Side(tys, shared, place, c, true)[i] == Side(tys, shared, place, d, false)[i]
  {
    hide TwoValued;
  }

  lemma SideTyped(tys: seq<SqlType>, shared: seq<nat>, place: nat, c: CellValue, first: bool)
    requires AllTwoValued(tys) && place < |tys| && Stores(c, tys[place])
    ensures forall i :: 0 <= i < |tys| ==> Stores(Side(tys, shared, place, c, first)[i], tys[i])
  {
    hide HasType, Tied, AllRead, ReadParam, ShownText, Less, StillAt, Still, TwoValued;
  }

  lemma TableLegal(rel: Relation, schemaName: Option<string>, tys: seq<SqlType>, rows: seq<Tuple>)
    requires WellFormed(rel) && |tys| == |rel.columns|
    requires AllTyped(rows, Defs(rel, tys)) && RowsLegal(rel, Defs(rel, tys), rows)
    ensures TableOf(rel, schemaName, tys, TableWith(rel, schemaName, tys, rows))
  {
  }

  lemma OrderByOne(r: Tuple, cols: seq<ColumnDef>, idxs: seq<nat>)
    requires |r| == |cols| && Within(idxs, |cols|)
    ensures OrderBy([r], cols, idxs) == [r]
  {
    assert [r][1..] == [];
  }

  lemma OrderByTwo(r1: Tuple, r2: Tuple, cols: seq<ColumnDef>, idxs: seq<nat>)
    requires |r1| == |r2| == |cols| && Within(idxs, |cols|) && !KeyLess(r2, r1, cols, idxs)
    ensures OrderBy([r1, r2], cols, idxs) == [r1, r2]
  {
    assert [r1, r2][1..] == [r2];
    OrderByOne(r2, cols, idxs);
  }

  lemma KeepGreaterNone(r1: Tuple, r2: Tuple, cols: seq<ColumnDef>, idxs: seq<nat>, vals: seq<CellValue>)
    requires |r1| == |r2| == |cols| && Within(idxs, |cols|) && |idxs| == |vals|
    requires !RowGreater(r1, cols, idxs, vals) && !RowGreater(r2, cols, idxs, vals)
    ensures KeepGreater([r1, r2], cols, idxs, vals) == []
  {
    assert [r1, r2][1..] == [r2] && [r2][1..] == [];
    assert KeepGreater([r2], cols, idxs, vals) == [];
  }

  /** The second row is not greater than what the first one's cursor is read as. */
  lemma SecondNotGreater(rel: Relation, tys: seq<SqlType>, p: nat, c: CellValue, d: CellValue, vals: seq<CellValue>)
    requires WellFormed(rel) && Browsable(rel) && |tys| == |rel.columns| && AllTwoValued(tys)
    requires p < |OrderKey(rel)| && p == TrustedFrom(rel, tys, 0) && Slips(rel, tys, p, c, d)
    requires forall k :: 0 <= k < |OrderKey(rel)| ==> Readable(rel, tys, k)
    requires ReadAs(Side(tys, OrderPositions(rel)[..p], OrderPositions(rel)[p], c, true), tys, OrderPositions(rel),
      vals)
    ensures
      var r2 := Side(tys, OrderPositions(rel)[..p], OrderPositions(rel)[p], d, false);
      TupleTyped(r2, Defs(rel, tys)) && !RowGreater(r2, Defs(rel, tys), OrderPositions(rel), vals)
  {
    hide HasType, ReadParam, ShownText, Less, Equal, EditabilityOf, KeysResolve, NeverNull, AllRead;
    var idxs, cols := OrderPositions(rel), Defs(rel, tys);
    var r1, r2 := Side(tys, idxs[..p], idxs[p], c, true), Side(tys, idxs[..p], idxs[p], d, false);
    SidesTyped(rel, tys, idxs[..p], idxs[p], c, d);
    assert [r1, r2][1] == r2;
    forall k | 0 <= k < |idxs| ensures NotAbove(r2[idxs[k]], vals[k], cols[idxs[k]].ty) {
      var i, ty := idxs[k], tys[idxs[k]];
      assert Readable(rel, tys, k);
      ReadParamTyped(ty, ShownText(r1[i], tys[i]));
      if i in idxs[..p] {
        var j :| 0 <= j < p && idxs[j] == i;
        assert Trusted(rel, tys, j) && ReadsBack(One(ty), ty);
      } else if i == idxs[p] {
        if !d.Null? { TiedSelf(d, ty); }
      }
    }
    NotGreaterBelow(r2, cols, idxs, vals);
  }

  lemma TiedSelf(c: CellValue, ty: SqlType)
    ensures Tied(c, c, ty)
  {
  }

  /** When the trusted columns hold no unique key, a table of two rows shows only the first. */
  lemma HiddenRow(rel: Relation, schemaName: Option<string>, tys: seq<SqlType>) returns (tbl: Table)
    requires WellFormed(rel) && Browsable(rel) && |tys| == |rel.columns| && AllTwoValued(tys)
    requires TrustedFrom(rel, tys, 0) < |OrderKey(rel)|
    requires !HoldsUniqueKey(rel, OrderKey(rel)[..TrustedFrom(rel, tys, 0)])
    requires forall k :: 0 <= k < |OrderKey(rel)| ==> Readable(rel, tys, k) && NotLowered(rel, tys, k)
    ensures TableOf(rel, schemaName, tys, tbl) && !ShowsAll(rel, schemaName, tys, tbl, 1)
  {
    hide RowsLegal, ShowsAll, EditabilityOf, HasType, TableOf, Slips, Readable, NotLowered, KeysResolve, HoldsUniqueKey;
    var p, idxs := TrustedFrom(rel, tys, 0), OrderPositions(rel);
    HoleOutside(rel, tys, p);
    var c, d := SlipExists(rel, tys, p);
    var r1, r2 := Side(tys, idxs[..p], idxs[p], c, true), Side(tys, idxs[..p], idxs[p], d, false);
    hide TrustedFrom;
    SidesLegal(rel, tys, p, c, d, r1, r2);
    tbl := TableWith(rel, schemaName, tys, [r1, r2]);
    TableLegal(rel, schemaName, tys, [r1, r2]);
    SecondRowHidden(rel, schemaName, tys, p, c, d, r1, r2, tbl);
  }

  /** Two rows of which paging by ones shows the first and stops. */
  lemma SecondRowHidden(
    rel: Relation, schemaName: Option<string>, tys: seq<SqlType>, p: nat, c: CellValue, d: CellValue, r1: Tuple,
    r2: Tuple, tbl: Table
  )
    requires WellFormed(rel) && Browsable(rel) && |tys| == |rel.columns| && AllTwoValued(tys)
    requires TableOf(rel, schemaName, tys, tbl) && tbl.rows == [r1, r2] && |r1| == |r2| == |tys|
    requires p < |OrderKey(rel)| && p == TrustedFrom(rel, tys, 0) && Slips(rel, tys, p, c, d)
    requires OrderPositions(rel)[p] !in OrderPositions(rel)[..p]
    requires forall k :: 0 <= k < |OrderKey(rel)| ==> Readable(rel, tys, k) && NotLowered(rel, tys, k)
    requires r1 == Side(tys, OrderPositions(rel)[..p], OrderPositions(rel)[p], c, true)
    requires r2 == Side(tys, OrderPositions(rel)[..p], OrderPositions(rel)[p], d, false)
    ensures !ShowsAll(rel, schemaName, tys, tbl, 1)
  {
    FirstComesFirst(rel, tys, p, c, d, r1, r2);
    hide BuildSql, Query, RowsLegal, HasType, Slips, Readable, NotLowered, EditabilityOf, KeysResolve, ReadAs, KeyReads;
    hide NeverLower, ValuesOf, TrustedFrom, KeyLess, RowGreater, ShowsAll;
    var cols, idxs := tbl.cols, OrderPositions(rel);
    assert TupleTyped(tbl.rows[0], cols) && TupleTyped(tbl.rows[1], cols);
    KeyAsymmetric(r1, r2, cols, idxs);
    OrderByTwo(r1, r2, cols, idxs);
    CursorIsRead(rel, tys, r1);
    var vals := PageAfter(rel, schemaName, tys, tbl, 1, r1);
    NotGreaterSelf(r1, cols, idxs, vals);
    SecondNotGreater(rel, tys, p, c, d, vals);
    ReadLength(r1, tys, idxs, vals);
    KeepGreaterNone(r1, r2, cols, idxs, vals);
    FirstPage(rel, schemaName, tys, tbl, 1);
    OneOfTwo(rel, schemaName, tys, tbl, r1, r2);
  }

  lemma ReadLength(t: Tuple, tys: seq<SqlType>, idxs: seq<nat>, vals: seq<CellValue>)
    requires |t| == |tys| && Within(idxs, |tys|) && ReadAs(t, tys, idxs, vals)
    ensures |vals| == |idxs|
  {
  }

  lemma FirstComesFirst(rel: Relation, tys: seq<SqlType>, p: nat, c: CellValue, d: CellValue, r1: Tuple, r2: Tuple)
    requires WellFormed(rel) && Browsable(rel) && |tys| == |rel.columns| && AllTwoValued(tys)
    requires p < |OrderKey(rel)| && Slips(rel, tys, p, c, d) && |r1| == |r2| == |tys|
    requires OrderPositions(rel)[p] !in OrderPositions(rel)[..p]
    requires r1 == Side(tys, OrderPositions(rel)[..p], OrderPositions(rel)[p], c, true)
    requires r2 == Side(tys, OrderPositions(rel)[..p], OrderPositions(rel)[p], d, false)
    ensures KeyLess(r1, r2, Defs(rel, tys), OrderPositions(rel))
    ensures forall i :: 0 <= i < |tys| ==> !r1[i].Null?
  {
    assert !c.Null?;
    hide HasType, ReadParam, ShownText, OrderLess, EditabilityOf, KeysResolve, Side, AllTwoValued;
    var idxs := OrderPositions(rel);
    SideNotNull(tys, idxs[..p], idxs[p], c, true);
    SidesShare(tys, idxs[..p], idxs[p], c, d);
    forall k | 0 <= k < p ensures r1[idxs[k]] == r2[idxs[k]] {
      assert idxs[k] == idxs[..p][k];
    }
    KeyLessAt(r1, r2, Defs(rel, tys), idxs, p);
  }

  lemma OneOfTwo(rel: Relation, schemaName: Option<string>, tys: seq<SqlType>, tbl: Table, r1: Tuple, r2: Tuple)
    requires WellFormed(rel) && Browsable(rel) && |tys| == |rel.columns| && TableOf(rel, schemaName, tys, tbl)
    requires KeyOrder(rel, schemaName, tys, tbl) == [r1, r2]
    requires PageFrom(rel, schemaName, tbl, 1, [r1, r2], 0) && CursorOn(rel, tbl.cols, r1).Some?
    requires
      var built := BuildSql(rel, schemaName, 1, CursorOn(rel, tbl.cols, r1));
      built.Ok? && Query(built.value.0, built.value.1, tbl) == Ok([])
    ensures !ShowsAll(rel, schemaName, tys, tbl, 1)
  {
    hide BuildSql, Query, CursorOn, OrderBy, ShowsAll;
    assert Take([r1, r2][0..], 1) == [r1];
    OnlyFirstRow(rel, schemaName, tys, tbl, r1);
  }

  lemma OnlyFirstRow(rel: Relation, schemaName: Option<string>, tys: seq<SqlType>, tbl: Table, r1: Tuple)
    requires WellFormed(rel) && Browsable(rel) && |tys| == |rel.columns| && TableOf(rel, schemaName, tys, tbl)
    requires |KeyOrder(rel, schemaName, tys, tbl)| == 2
    requires PageFrom(rel, schemaName, tbl, 1, KeyOrder(rel, schemaName, tys, tbl), 0)
    requires Take(KeyOrder(rel, schemaName, tys, tbl)[0..], 1) == [r1]
    requires CursorOn(rel, tbl.cols, r1).Some?
    requires
      var built := BuildSql(rel, schemaName, 1, CursorOn(rel, tbl.cols, r1));
      built.Ok? && Query(built.value.0, built.value.1, tbl) == Ok([])
    ensures !ShowsAll(rel, schemaName, tys, tbl, 1)
  {
    hide BuildSql, Query, CursorOn, OrderBy;
    forall pages | IsRun(rel, schemaName, tbl, 1, None, pages)
      ensures Flatten(pages) != KeyOrder(rel, schemaName, tys, tbl)
    {
      assert pages[0] == [r1];
      assert IsRun(rel, schemaName, tbl, 1, CursorOn(rel, tbl.cols, r1), pages[1..]);
      assert pages[1..][0] == [];
      assert pages[1..][1..] == [];
      assert Flatten(pages) == [r1] + ([] + Flatten(pages[1..][1..]));
    }
  }

  // ---- a cursor the server cannot read, or reads as an earlier one ------------------------

  /** One row is legal wherever it keeps to NOT NULL. */
  lemma OneRowLegal(rel: Relation, schemaName: Option<string>, tys: seq<SqlType>, place: nat, c: CellValue)
    requires WellFormed(rel) && |tys| == |rel.columns| && AllTwoValued(tys)
    requires place < |tys| && Stores(c, tys[place])
    requires c.Null? ==> rel.primaryKey.None? && !rel.columns[place].notNull
    ensures TableOf(rel, schemaName, tys, TableWith(rel, schemaName, tys, [Ones(tys, place, c)]))
  {
    hide HasType, Tied, StillAt;
  }

  lemma PlaceUnreadable(cols: seq<ColumnDef>, idxs: seq<nat>, params: seq<string>, k: nat)
    requires Within(idxs, |cols|) && k < |idxs| <= |params|
    requires ReadParam(cols[idxs[k]].ty, params[k]).None?
    ensures ReadAll(cols, idxs, Places(|idxs|), params).None?
  {
    hide ReadAll, ReadParam;
    assert ReadPlace(cols, idxs, Places(|idxs|), params, k).None?;
  }

  lemma UnreadablePage(
    rel: Relation, schemaName: Option<string>, tys: seq<SqlType>, idxs: seq<nat>, k: nat, r: Tuple, tbl: Table
  )
    requires WellFormed(rel) && Browsable(rel) && |tys| == |rel.columns| && TableOf(rel, schemaName, tys, tbl)
    requires idxs == OrderPositions(rel) && k < |idxs|
    requires |r| == |tys| && ReadParam(tys[idxs[k]], ShownText(r[idxs[k]], tys[idxs[k]])).None?
    ensures
      var built := BuildSql(rel, schemaName, 1, CursorOn(rel, tbl.cols, r));
      built.Ok? && Query(built.value.0, built.value.1, tbl).Err?
  {
    hide BuildSql, Query, RowsLegal, HasType, ShownText, ReadParam, OrderBy, KeepGreater, EditabilityOf;
    hide Typed, CursorOn;
    ParamsShow(rel, tys, r, 1);
    PageAfterRow(rel, schemaName, tys, tbl, 1, r);
    PlaceUnreadable(tbl.cols, idxs, ParamsAfter(rel, tbl.cols, r, 1), k);
  }

  /** A table of one row, of which a key cell cannot be read: browsing it stops with an error. */
  lemma UnreadableCursor(
    rel: Relation, schemaName: Option<string>, tys: seq<SqlType>, k: nat, c: CellValue
  ) returns (tbl: Table)
    requires WellFormed(rel) && Browsable(rel) && |tys| == |rel.columns| && AllTwoValued(tys)
    requires k < |OrderKey(rel)| && Stores(c, tys[OrderPositions(rel)[k]])
    requires ReadParam(tys[OrderPositions(rel)[k]], ShownText(c, tys[OrderPositions(rel)[k]])).None?
    requires c.Null? ==> !NeverNull(rel, OrderKey(rel)[k])
    ensures TableOf(rel, schemaName, tys, tbl)
    ensures !ShowsAll(rel, schemaName, tys, tbl, 1)
  {
    BrowsableHasKey(rel);
    NullAllowed(rel, k);
    hide BuildSql, Query, CursorOn, RowsLegal, HasType, OrderBy, IsRun, ReadParam, ShownText, StillAt;
    hide NeverNull, ShowsAll;
    var idxs := OrderPositions(rel);
    var r := Ones(tys, idxs[k], c);
    tbl := TableWith(rel, schemaName, tys, [r]);
    OneRowLegal(rel, schemaName, tys, idxs[k], c);
    FirstPage(rel, schemaName, tys, tbl, 1);
    UnreadablePage(rel, schemaName, tys, idxs, k, r, tbl);
    OrderByOne(r, tbl.cols, idxs);
    NoSecondPage(rel, schemaName, tys, tbl, r);
  }

  lemma NullAllowed(rel: Relation, k: nat)
    requires WellFormed(rel) && Browsable(rel) && k < |OrderKey(rel)|
    ensures !NeverNull(rel, OrderKey(rel)[k]) ==>
      rel.primaryKey.None? && !rel.columns[OrderPositions(rel)[k]].notNull
  {
    hide EditabilityOf;
    BrowsableHasKey(rel);
  }

  /** Then no finite run of pages ends. */
  lemma {:induction false} NeverEnds(
    rel: Relation, schemaName: Option<string>, tbl: Table, r: Tuple, pages: seq<seq<Tuple>>
  )
    requires Typed(tbl) && CursorOn(rel, tbl.cols, r).Some?
    requires
      var built := BuildSql(rel, schemaName, 1, CursorOn(rel, tbl.cols, r));
      built.Ok? && Query(built.value.0, built.value.1, tbl) == Ok([r])
    ensures !IsRun(rel, schemaName, tbl, 1, CursorOn(rel, tbl.cols, r), pages)
    decreases |pages|
  {
    hide BuildSql, Query, CursorOn;
    if pages != [] {
      NeverEnds(rel, schemaName, tbl, r, pages[1..]);
    }
  }

  /** The page after the only row shows that row again, when its cursor is read as an earlier one. */
  lemma RepeatedPage(
    rel: Relation, schemaName: Option<string>, tys: seq<SqlType>, k: nat, r: Tuple, tbl: Table
  )
    requires WellFormed(rel) && Browsable(rel) && |tys| == |rel.columns| && TableOf(rel, schemaName, tys, tbl)
    requires k < |OrderKey(rel)| && tbl.rows == [r] && |r| == |tys| && KeyReads(r, tys, OrderPositions(rel))
    requires forall j :: 0 <= j < k ==> StillAt(r[OrderPositions(rel)[j]], tys[OrderPositions(rel)[j]])
    requires LowersAt(r[OrderPositions(rel)[k]], tys[OrderPositions(rel)[k]])
    ensures CursorOn(rel, tbl.cols, r).Some?
    ensures
      var built := BuildSql(rel, schemaName, 1, CursorOn(rel, tbl.cols, r));
      built.Ok? && Query(built.value.0, built.value.1, tbl) == Ok([r])
  {
    hide BuildSql, Query, RowsLegal, EditabilityOf, CursorOn, KeysResolve, KeepGreater, OrderBy;
    hide HasType, ReadParam, ShownText, Less, Equal;
    var idxs := OrderPositions(rel);
    assert TupleTyped(tbl.rows[0], tbl.cols);
    var vals := PageAfter(rel, schemaName, tys, tbl, 1, r);
    KeptAgain(tys, tbl.cols, idxs, k, r, vals);
    OrderByOne(r, tbl.cols, idxs);
    assert Take([r], 1) == [r];
  }

  lemma KeptAgain(tys: seq<SqlType>, cols: seq<ColumnDef>, idxs: seq<nat>, k: nat, r: Tuple, vals: seq<CellValue>)
    requires |tys| == |cols| && (forall i :: 0 <= i < |cols| ==> cols[i].ty == tys[i]) && TupleTyped(r, cols)
    requires Within(idxs, |cols|) && k < |idxs| && ReadAs(r, tys, idxs, vals)
    requires forall j :: 0 <= j < k ==> StillAt(r[idxs[j]], tys[idxs[j]])
    requires LowersAt(r[idxs[k]], tys[idxs[k]])
    ensures KeepGreater([r], cols, idxs, vals) == [r]
  {
    hide HasType, ShownText, ReadParam, Less, Equal;
    forall j | 0 <= j < |idxs| ensures HasType(vals[j], tys[idxs[j]]) && !vals[j].Null? {
      ReadParamTyped(tys[idxs[j]], ShownText(r[idxs[j]], tys[idxs[j]]));
    }
    GreaterAtSmaller(r, cols, idxs, vals, k);
    assert [r][1..] == [];
  }

  /** A table of one row that browsing shows over and over. */
  lemma EndlessPages(
    rel: Relation, schemaName: Option<string>, tys: seq<SqlType>, k: nat, c: CellValue
  ) returns (tbl: Table)
    requires WellFormed(rel) && Browsable(rel) && |tys| == |rel.columns| && AllTwoValued(tys)
    requires k < |OrderKey(rel)| && LowersAt(c, tys[OrderPositions(rel)[k]])
    requires forall j :: 0 <= j < |OrderKey(rel)| ==> Readable(rel, tys, j)
    requires forall j :: 0 <= j < k ==>
      Still(tys[OrderPositions(rel)[j]]) && !Lowers(tys[OrderPositions(rel)[j]])
    ensures TableOf(rel, schemaName, tys, tbl) && !ShowsAll(rel, schemaName, tys, tbl, 1)
  {
    hide BuildSql, Query, CursorOn, RowsLegal, HasType, OrderBy, IsRun, ReadParam, ShownText, Less, ReadsBack;
    hide EditabilityOf, KeysResolve, ShowsAll;
    var idxs := OrderPositions(rel);
    var r := Ones(tys, idxs[k], c);
    tbl := TableWith(rel, schemaName, tys, [r]);
    OneRowLegal(rel, schemaName, tys, idxs[k], c);
    assert Lowers(tys[idxs[k]]);
    assert forall j :: 0 <= j < k ==> idxs[j] != idxs[k];
    forall j | 0 <= j < |idxs| ensures ReadParam(tys[idxs[j]], ShownText(r[idxs[j]], tys[idxs[j]])).Some? {
      assert Readable(rel, tys, j);
    }
    FirstPage(rel, schemaName, tys, tbl, 1);
    RepeatedPage(rel, schemaName, tys, k, r, tbl);
    OrderByOne(r, tbl.cols, idxs);
    NoLastPage(rel, schemaName, tys, tbl, r);
  }

  lemma NoLastPage(rel: Relation, schemaName: Option<string>, tys: seq<SqlType>, tbl: Table, r: Tuple)
    requires WellFormed(rel) && Browsable(rel) && |tys| == |rel.columns| && TableOf(rel, schemaName, tys, tbl)
    requires KeyOrder(rel, schemaName, tys, tbl) == [r]
    requires PageFrom(rel, schemaName, tbl, 1, [r], 0)
    requires CursorOn(rel, tbl.cols, r).Some?
    requires
      var built := BuildSql(rel, schemaName, 1, CursorOn(rel, tbl.cols, r));
      built.Ok? && Query(built.value.0, built.value.1, tbl) == Ok([r])
    ensures !ShowsAll(rel, schemaName, tys, tbl, 1)
  {
    hide BuildSql, Query, CursorOn, OrderBy;
    forall pages ensures !IsRun(rel, schemaName, tbl, 1, None, pages) {
      if pages != [] { NeverEnds(rel, schemaName, tbl, r, pages[1..]); }
    }
  }

  lemma NoSecondPage(rel: Relation, schemaName: Option<string>, tys: seq<SqlType>, tbl: Table, r: Tuple)
    requires WellFormed(rel) && Browsable(rel) && |tys| == |rel.columns| && TableOf(rel, schemaName, tys, tbl)
    requires KeyOrder(rel, schemaName, tys, tbl) == [r]
    requires PageFrom(rel, schemaName, tbl, 1, [r], 0)
    requires
      var built := BuildSql(rel, schemaName, 1, CursorOn(rel, tbl.cols, r));
      built.Ok? && Query(built.value.0, built.value.1, tbl).Err?
    ensures !ShowsAll(rel, schemaName, tys, tbl, 1)
  {
    hide BuildSql, Query, CursorOn, OrderBy;
    forall pages ensures !IsRun(rel, schemaName, tbl, 1, None, pages) {
    }
  }

  // ---- the theorem ------------------------------------------------------------------------

  lemma UnreadableKeyFails(rel: Relation, schemaName: Option<string>, tys: seq<SqlType>, k: nat) returns (tbl: Table)
    requires WellFormed(rel) && Browsable(rel) && |tys| == |rel.columns| && AllTwoValued(tys)
    requires k < |OrderKey(rel)| && !Readable(rel, tys, k)
    ensures TableOf(rel, schemaName, tys, tbl) && !ShowsAll(rel, schemaName, tys, tbl, 1)
  {
    hide ShowsAll, TableOf, HasType, ReadParam, ShownText, NeverNull, EditabilityOf, KeysResolve;
    var ty := tys[OrderPositions(rel)[k]];
    if !AllRead(ty) {
      var c: CellValue :| Stores(c, ty) && !c.Null? && ReadParam(ty, ShownText(c, ty)).None?;
      tbl := UnreadableCursor(rel, schemaName, tys, k, c);
    } else {
      NullIsStored(ty);
      tbl := UnreadableCursor(rel, schemaName, tys, k, Null);
    }
  }

  /** The first column whose type lowers. */
  lemma {:induction false} FirstLowering(tys: seq<SqlType>, idxs: seq<nat>, k: nat) returns (j: nat)
    requires Within(idxs, |tys|) && k < |idxs| && Lowers(tys[idxs[k]])
    ensures j <= k && Lowers(tys[idxs[j]]) && forall i :: 0 <= i < j ==> !Lowers(tys[idxs[i]])
  {
    hide Lowers;
    if i :| 0 <= i < k && Lowers(tys[idxs[i]]) {
      j := FirstLowering(tys, idxs, i);
    } else {
      j := k;
    }
  }

  lemma LoweringKeyFails(rel: Relation, schemaName: Option<string>, tys: seq<SqlType>, k: nat) returns (tbl: Table)
    requires WellFormed(rel) && Browsable(rel) && |tys| == |rel.columns| && AllTwoValued(tys)
    requires k < |OrderKey(rel)| && !NotLowered(rel, tys, k)
    requires forall j :: 0 <= j < |OrderKey(rel)| ==> Readable(rel, tys, j)
    ensures TableOf(rel, schemaName, tys, tbl) && !ShowsAll(rel, schemaName, tys, tbl, 1)
  {
    hide ShowsAll, TableOf, LowersAt, Still, Readable, EditabilityOf, KeysResolve;
    var idxs := OrderPositions(rel);
    var j := FirstLowering(tys, idxs, k);
    var c: CellValue :| LowersAt(c, tys[idxs[j]]);
    tbl := EndlessPages(rel, schemaName, tys, j, c);
  }

  lemma UnsafeKeyFails(rel: Relation, schemaName: Option<string>, tys: seq<SqlType>) returns (tbl: Table)
    requires WellFormed(rel) && Browsable(rel) && |tys| == |rel.columns| && AllTwoValued(tys)
    requires !SafeKey(rel, tys)
    ensures TableOf(rel, schemaName, tys, tbl) && !ShowsAll(rel, schemaName, tys, tbl, 1)
  {
    hide ShowsAll, TableOf, TwoValued, Readable, NotLowered, TrustedFrom, HoldsUniqueKey, EditabilityOf, KeysResolve;
    TrustedNotNull(rel, tys);
    if k :| 0 <= k < |OrderKey(rel)| && !Readable(rel, tys, k) {
      tbl := UnreadableKeyFails(rel, schemaName, tys, k);
    } else if k :| 0 <= k < |OrderKey(rel)| && !NotLowered(rel, tys, k) {
      tbl := LoweringKeyFails(rel, schemaName, tys, k);
    } else {
      tbl := HiddenRow(rel, schemaName, tys);
    }
  }

  /**
   Browsing shows every row of every table of the relation, once and in key order, for every
   page size, exactly when the picked key is safe: whatever the types of the columns are, so long
   as each has two values.
   */
  lemma BrowsingShowsAllIffSafe(rel: Relation, schemaName: Option<string>, tys: seq<SqlType>)
    requires WellFormed(rel) && Browsable(rel) && |tys| == |rel.columns| && AllTwoValued(tys)
    ensures SafeKey(rel, tys) <==>
      forall tbl, n | TableOf(rel, schemaName, tys, tbl) && n > 0 :: ShowsAll(rel, schemaName, tys, tbl, n)
  {
    hide ShowsAll, TableOf, SafeKey, WellFormed, AllTwoValued;
    if SafeKey(rel, tys) {
      forall tbl, n | TableOf(rel, schemaName, tys, tbl) && n > 0 ensures ShowsAll(rel, schemaName, tys, tbl, n) {
        ShowsAllWhenSafe(rel, schemaName, tys, tbl, n);
      }
    } else {
      var tbl := UnsafeKeyFails(rel, schemaName, tys);
    }
  }

  // ---- keys of the types the model reads itself -------------------------------------------

  /** Octets are shown as bare hexadecimal digits, which the server reads as the octets of the digits. */
  lemma BytesLower()
    ensures Lowers(ByteaT) && Still(ByteaT)
  {
    var c := Bytea([0xFF]);
    assert ShownText(c, ByteaT) == "ff" by {
      assert HexEncode([0xFF]) == [HexDigit(15), HexDigit(15)] + HexEncode([0xFF][1..]);
    }
    assert "ff"[1..] == "f" && "f"[1..] == "";
    assert Utf8.Encode("ff") == [0x66, 0x66];
    assert [0x66, 0x66][1..] == [0x66] && [0x66][1..] == [];
    assert ReadEscaped([0x66]) == Some([0x66]);
    assert ReadBytea([0x66, 0x66]) == Some([0x66, 0x66]);
    assert LowersAt(c, ByteaT);
    assert Utf8.Encode("") == [] && ReadBytea([]) == Some([]);
    assert StillAt(Bytea([]), ByteaT);
  }

  /** A type of the model's own that is safe in a key: no octets, and no text longer than the decoder's cap. */
  predicate Keyable(ty: SqlType) { !ty.ByteaT? && Short(ty) }

  /** A text column that takes texts longer than the cap has one that is read as a smaller one. */
  lemma LongTextsLower(longest: Option<nat>)
    requires !Short(TextT(longest))
    ensures Lowers(TextT(longest))
    ensures LowersAt(LongText(CELL_CAP + 1), TextT(longest)) && !ReadsBack(LongText(CELL_CAP + 1), TextT(longest))
  {
    var c := LongText(CELL_CAP + 1);
    PlainValid(c.payload);
    CutReadsLower(c.payload, longest);
    assert c == Text(c.payload);
    hide ReadParam, ShownText, ReadsBack;
    assert LowersAt(c, TextT(longest));
  }

  lemma OwnHasStill(ty: SqlType)
    requires !ty.LibraryT?
    ensures Still(ty)
  {
    if ty.ByteaT? {
      BytesLower();
    } else {
      var c := match ty
        case BoolT => Bool(false)
        case SmallIntT => SmallInt(1)
        case IntT => Int(1)
        case BigIntT => BigInt(1)
        case _ => Text([]);
      assert Stores(c, ty);
      ReadsBackIffShort(c, ty);
      hide ReadsBack;
      assert StillAt(c, ty);
    }
  }

  lemma OwnIsStill(ty: SqlType)
    requires !ty.LibraryT?
    ensures Still(ty) && (Lowers(ty) <==> !Keyable(ty))
    ensures Keyable(ty) ==> Faithful(ty) && AllRead(ty) && (ReadsBack(Null, ty) <==> ty.TextT?)
  {
    OwnHasStill(ty);
    if ty.ByteaT? {
      BytesLower();
    } else if Short(ty) {
      BasicIsFaithful(ty);
      FaithfulIsGood(ty);
      ReadShownNull(ty);
    } else {
      LongTextsLower(ty.longest);
    }
    hide Still, Lowers, Faithful, AllRead, ReadParam, DisplayString;
  }

  /** The first key column from `k` on that can be NULL, or their number. */
  function NotNullFrom(rel: Relation, k: nat): (p: nat)
    requires k <= |OrderKey(rel)|
    ensures k <= p <= |OrderKey(rel)|
    decreases |OrderKey(rel)| - k
  {
    if k == |OrderKey(rel)| || !NeverNull(rel, OrderKey(rel)[k]) then k else NotNullFrom(rel, k + 1)
  }

  lemma {:induction false} TrustedIsNotNull(rel: Relation, tys: seq<SqlType>, k: nat)
    requires WellFormed(rel) && Browsable(rel) && |tys| == |rel.columns| && k <= |OrderKey(rel)|
    requires forall j :: 0 <= j < |OrderKey(rel)| ==> Faithful(tys[OrderPositions(rel)[j]])
    ensures TrustedFrom(rel, tys, k) == NotNullFrom(rel, k)
    decreases |OrderKey(rel)| - k
  {
    hide Faithful, NeverNull, EditabilityOf, KeysResolve;
    if k < |OrderKey(rel)| { TrustedIsNotNull(rel, tys, k + 1); }
  }

  /**
   Over booleans, integers, texts and octets: a key is safe when it has no octets in it and no texts
   longer than the decoder's cap, its columns before the first nullable one tell rows apart, and
   its nullable columns are texts.
   */
  lemma SafeOwnKey(rel: Relation, tys: seq<SqlType>)
    requires WellFormed(rel) && Browsable(rel) && |tys| == |rel.columns|
    requires forall k :: 0 <= k < |OrderPositions(rel)| ==> !tys[OrderPositions(rel)[k]].LibraryT?
    ensures SafeKey(rel, tys) <==>
      var ids, idxs, p := OrderKey(rel), OrderPositions(rel), NotNullFrom(rel, 0);
      && (p == |ids| || HoldsUniqueKey(rel, ids[..p]))
      && (forall k :: 0 <= k < |idxs| ==> Keyable(tys[idxs[k]]))
      && (forall k :: 0 <= k < |ids| && !NeverNull(rel, ids[k]) ==> tys[idxs[k]].TextT?)
  {
    hide Still, Lowers, Faithful, AllRead, ReadsBack, NeverNull, HoldsUniqueKey, TrustedFrom, NotNullFrom;
    hide EditabilityOf, KeysResolve, Readable, NotLowered, Keyable;
    var idxs := OrderPositions(rel);
    forall k | 0 <= k < |idxs|
      ensures NotLowered(rel, tys, k) ==> Keyable(tys[idxs[k]])
      ensures Keyable(tys[idxs[k]]) ==> Faithful(tys[idxs[k]])
      ensures (forall j :: 0 <= j < |idxs| ==> Keyable(tys[idxs[j]])) ==>
        NotLowered(rel, tys, k) &&
          (Readable(rel, tys, k) <==> (!NeverNull(rel, OrderKey(rel)[k]) ==> tys[idxs[k]].TextT?))
    {
      OwnColumn(rel, tys, k);
    }
    if forall k :: 0 <= k < |idxs| ==> Keyable(tys[idxs[k]]) {
      TrustedIsNotNull(rel, tys, 0);
    }
  }

  lemma OwnColumn(rel: Relation, tys: seq<SqlType>, k: nat)
    requires WellFormed(rel) && Browsable(rel) && |tys| == |rel.columns| && k < |OrderKey(rel)|
    requires forall j :: 0 <= j < |OrderPositions(rel)| ==> !tys[OrderPositions(rel)[j]].LibraryT?
    ensures
      var ty := tys[OrderPositions(rel)[k]];
      && (NotLowered(rel, tys, k) <==> Keyable(ty)) && (Keyable(ty) ==> Faithful(ty))
      && (Keyable(ty) ==> (Readable(rel, tys, k) <==> (!NeverNull(rel, OrderKey(rel)[k]) ==> ty.TextT?)))
  {
    hide Still, Lowers, Faithful, AllRead, ReadsBack, NeverNull, EditabilityOf, KeysResolve, Keyable;
    var idxs := OrderPositions(rel);
    OwnIsStill(tys[idxs[k]]);
    forall j | 0 <= j < k ensures Still(tys[idxs[j]]) { OwnIsStill(tys[idxs[j]]); }
  }

  lemma ShowsAllWhenSafe(rel: Relation, schemaName: Option<string>, tys: seq<SqlType>, tbl: Table, n: nat)
    requires WellFormed(rel) && Browsable(rel) && |tys| == |rel.columns| && TableOf(rel, schemaName, tys, tbl)
    requires SafeKey(rel, tys) && n > 0
    ensures ShowsAll(rel, schemaName, tys, tbl, n)
  {
    hide IsRun, SafeKey;
    var pages := SafeKeyShowsAll(rel, schemaName, tys, tbl, n);
  }
}
