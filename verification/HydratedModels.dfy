/**
 What holds of every hydrated model: dense ids, keys that resolve, foreign keys that mirror, and
 indexes that answer as scans do. The browser and the editor rest on the keys.
 */
module HydratedModels {
  import opened Prelude
  import opened Relations
  import opened SchemaModels
  import opened Hydrate
  import opened Constraints
  import opened TableBrowser
  import opened KeysetPaging
  import opened Values
  import Edits

  lemma HydratedIs(c: Catalog, types: map<int, Id>, fallback: Id, j: nat)
    requires j < |c.relations|
    ensures
      var rel, bare := Hydrated(c, types, fallback)[j], Bare(c, types, fallback, j);
      && rel.id == j && rel.oid == c.relations[j].oid && rel.name == c.relations[j].name && rel.schema == bare.schema
      && rel.kind == bare.kind
      && rel.columns == MakeColumns(Own(c, j), j, FirstId(c, j), types)
      && rel.primaryKey == Keyed(c, types, fallback, j).primaryKey &&
        rel.uniqueKeys == Keyed(c, types, fallback, j).uniqueKeys
      && rel.foreignKeysOut == Outs(Links(c, c.fks), j) && rel.foreignKeysIn == Ins(Links(c, c.fks), j)
  {
    hide Links, Outs, Ins, Keyed, Own;
    KeyedHasNoLinks(c, types, fallback, j);
  }

  // ---- column ids -------------------------------------------------------------------------

  /** The ids of the columns of the first `n` relations, one relation after the other. */
  function AllColumnIds(rels: seq<Relation>, n: nat): seq<Id>
    requires n <= |rels|
  {
    if n == 0 then [] else AllColumnIds(rels, n - 1) + ColumnIds(rels[n - 1].columns)
  }

  ghost predicate CountsFrom(cols: seq<Column>, first: Id, n: nat) {
    |cols| == n && forall k :: 0 <= k < n ==> cols[k].id == first + k
  }

  lemma ColumnIdsOf(c: Catalog, types: map<int, Id>, fallback: Id, j: nat)
    requires j < |c.relations|
    ensures CountsFrom(Hydrated(c, types, fallback)[j].columns, FirstId(c, j), |Own(c, j)|)
  {
    hide Own, Hydrated, Keyed, Links, Outs, Ins, FirstId;
    HydratedIs(c, types, fallback, j);
  }

  lemma IdsAppend(first: Id, n: nat, cols: seq<Column>)
    requires CountsFrom(cols, first, n)
    ensures Ids(first) + ColumnIds(cols) == Ids(first + n)
  {
  }

  lemma {:induction false} DenseFrom(c: Catalog, rels: seq<Relation>, n: nat)
    requires n <= |c.relations| == |rels|
    requires forall j :: 0 <= j < n ==> CountsFrom(rels[j].columns, FirstId(c, j), |Own(c, j)|)
    ensures AllColumnIds(rels, n) == Ids(FirstId(c, n))
  {
    hide *;
    AllColumnIdsStep(c, rels, n);
    if n > 0 {
      DenseFrom(c, rels, n - 1);
      IdsAppend(FirstId(c, n - 1), |Own(c, n - 1)|, rels[n - 1].columns);
    }
  }

  lemma AllColumnIdsStep(c: Catalog, rels: seq<Relation>, n: nat)
    requires n <= |c.relations| == |rels|
    ensures n == 0 ==> AllColumnIds(rels, n) == [] == Ids(FirstId(c, n))
    ensures n > 0 ==> AllColumnIds(rels, n) == AllColumnIds(rels, n - 1) + ColumnIds(rels[n - 1].columns)
    ensures n > 0 ==> FirstId(c, n) == FirstId(c, n - 1) + |Own(c, n - 1)|
  {
    hide Own, ColumnIds;
  }

  /** Column ids are dense over the whole model: read in order they count up from zero. */
  lemma ColumnIdsAreDense(c: Catalog, types: map<int, Id>, fallback: Id, n: nat)
    requires n <= |c.relations|
    ensures AllColumnIds(Hydrated(c, types, fallback), n) == Ids(FirstId(c, n))
  {
    hide *;
    forall j | 0 <= j < n ensures CountsFrom(Hydrated(c, types, fallback)[j].columns, FirstId(c, j), |Own(c, j)|) {
      ColumnIdsOf(c, types, fallback, j);
    }
    DenseFrom(c, Hydrated(c, types, fallback), n);
  }

  lemma {:induction false} FirstIdGrows(c: Catalog, i: nat, j: nat)
    requires i <= j <= |c.relations|
    ensures FirstId(c, i) <= FirstId(c, j)
  {
    hide Own;
    if i < j { FirstIdGrows(c, i, j - 1); }
  }

  lemma ColumnAt(c: Catalog, types: map<int, Id>, fallback: Id, j: nat, id: Id)
    requires j < |c.relations|
    ensures
      var rel := Hydrated(c, types, fallback)[j];
      HasColumn(rel, id) <==> FirstId(c, j) <= id < FirstId(c, j + 1)
  {
    hide Own, Hydrated;
    HydratedIs(c, types, fallback, j);
    var cols := Hydrated(c, types, fallback)[j].columns;
    if FirstId(c, j) <= id < FirstId(c, j + 1) {
      assert cols[id - FirstId(c, j)].id == id;
    }
  }

  /** No column id is used twice, in one relation or in two. */
  lemma ColumnIdsAreUnique(c: Catalog, types: map<int, Id>, fallback: Id, i: nat, j: nat, id: Id)
    requires i < j < |c.relations|
    ensures !(HasColumn(Hydrated(c, types, fallback)[i], id) && HasColumn(Hydrated(c, types, fallback)[j], id))
  {
    hide Own, Hydrated, FirstId, HasColumn;
    ColumnAt(c, types, fallback, i, id);
    ColumnAt(c, types, fallback, j, id);
    FirstIdGrows(c, i + 1, j);
  }

  /** A relation is what its catalog row says. */
  lemma RelationsAreFrom(c: Catalog, types: map<int, Id>, fallback: Id, j: nat)
    requires j < |c.relations|
    ensures RelationFrom(Hydrated(c, types, fallback)[j], c.relations[j], c, j, fallback)
  {
    HydratedIs(c, types, fallback, j);
    BareIsFrom(c, types, fallback, j);
    hide Hydrated, MakeColumns, Own, Links, Outs, Ins, Keyed, IsLastSchema, FirstId;
  }

  /**
   A relation's columns are the catalog's, in the order of their attribute numbers, each as its
   row says; of two relations with one OID the first has them.
   */
  lemma ColumnsAreSorted(c: Catalog, types: map<int, Id>, fallback: Id, j: nat)
    requires j < |c.relations| && LastIndex(RelationOids(c.relations)[..j], c.relations[j].oid).None?
    ensures
      var cols, raws := Hydrated(c, types, fallback)[j].columns, Own(c, j);
      && |cols| == |raws| && AttnumSorted(raws)
      && (forall k :: 0 <= k < |cols| ==>
            cols[k].id == FirstId(c, j) + k && ColumnFrom(cols[k], raws[k], j, types))
      && multiset(raws) == multiset(ColumnsOf(c.columns, c.relations[j].oid))
      && Picked(c.columns, ColumnHas(c.relations[j].oid), ColumnsOf(c.columns, c.relations[j].oid))
  {
    HydratedIs(c, types, fallback, j);
    SortByAttnumSorted(ColumnsOf(c.columns, c.relations[j].oid));
    ColumnsArePicked(c.columns, c.relations[j].oid);
    ColumnsAreFrom(Own(c, j), j, FirstId(c, j), types);
    hide MakeColumns, ColumnsOf, Hydrated;
  }

  /** Of two relations with one OID the later has no columns. */
  lemma LaterHasNone(c: Catalog, types: map<int, Id>, fallback: Id, i: nat, j: nat)
    requires i < j < |c.relations| && c.relations[i].oid == c.relations[j].oid
    ensures Hydrated(c, types, fallback)[j].columns == []
  {
    HydratedIs(c, types, fallback, j);
    var oids := RelationOids(c.relations)[..j];
    assert oids[i] == c.relations[j].oid && c.relations[j].oid in oids;
    hide Hydrated;
  }

  // ---- types ------------------------------------------------------------------------------

  lemma {:induction false} FirstsAmong(raws: seq<RawColumn>)
    ensures forall f :: f in FirstOfTypes(raws) ==> f in raws
  {
    hide HasType;
    if raws != [] {
      FirstsAmong(raws[..|raws| - 1]);
      assert raws == raws[..|raws| - 1] + [raws[|raws| - 1]];
    }
  }

  ghost predicate Issued(types: map<int, Id>, id: Id) {
    exists oid :: oid in types && types[oid] == id
  }

  /**
   Type ids are dense and one to each type OID, and where the catalog calls a type by one name,
   a column's type id leads to the name of its type.
   */
  lemma TypesAreDense(raws: seq<RawColumn>, types: map<int, Id>, names: map<Id, string>, i: nat)
    requires TypesAre(raws, types, names) && i < |raws|
    requires forall a, b :: 0 <= a < |raws| && 0 <= b < |raws| && raws[a].tyOid == raws[b].tyOid ==>
      raws[a].tyName == raws[b].tyName
    ensures forall oid :: oid in types <==> HasType(raws, oid)
    ensures forall oid, other :: oid in types && other in types && types[oid] == types[other] ==> oid == other
    ensures forall id: Id :: id in names <==> Issued(types, id)
    ensures forall id: Id, other: Id :: other in names && id < other ==> id in names
    ensures raws[i].tyOid in types && types[raws[i].tyOid] in names && names[types[raws[i].tyOid]] == raws[i].tyName
  {
    var firsts := FirstOfTypes(raws);
    forall oid ensures HasType(firsts, oid) <==> HasType(raws, oid) { FirstsHaveAll(raws, oid); }
    FirstsAmong(raws);
    assert HasType(raws, raws[i].tyOid);
    var k :| 0 <= k < |firsts| && firsts[k].tyOid == raws[i].tyOid;
    assert firsts[k] in raws;
    forall id: Id | id < |firsts| ensures Issued(types, id) {
      assert types[firsts[id].tyOid] == id;
    }
    forall oid | oid in types ensures types[oid] < |firsts| && firsts[types[oid]].tyOid == oid {
      var j :| 0 <= j < |firsts| && firsts[j].tyOid == oid;
    }
  }

  // ---- keys -------------------------------------------------------------------------------

  /** A key is what a catalog row says: its columns are those with the row's numbers, in order. */
  ghost predicate KeyFrom(cols: seq<Column>, rs: seq<RawColumn>, key: Key, raw: RawKey) {
    raw.attnums.Some? && key.name == raw.name && Names(cols, rs, key.columns, raw.attnums.value)
  }

  /** The ids are those of the columns with the numbers, in order; of two with one number, the last. */
  ghost predicate Names(cols: seq<Column>, rs: seq<RawColumn>, ids: seq<Id>, attnums: seq<int>) {
    && |cols| == |rs| && |ids| == |attnums| > 0
    && forall k :: 0 <= k < |ids| ==>
         ColumnIndex(cols, ids[k]).Some? && IsLastColumnAt(rs, ColumnIndex(cols, ids[k]).value, attnums[k])
  }

  ghost predicate FromRow(cols: seq<Column>, rs: seq<RawColumn>, key: Key, kind: char, raws: seq<RawKey>, i: nat) {
    i < |raws| && raws[i].kind == kind && KeyFrom(cols, rs, key, raws[i])
  }

  ghost predicate FromSomeRow(cols: seq<Column>, rs: seq<RawColumn>, key: Key, kind: char, raws: seq<RawKey>) {
    exists i: nat :: FromRow(cols, rs, key, kind, raws, i)
  }

  /** Every key of the relation comes from a row of its kind. */
  ghost predicate KeysFrom(rel: Relation, rs: seq<RawColumn>, raws: seq<RawKey>) {
    && (rel.primaryKey.Some? ==> FromSomeRow(rel.columns, rs, rel.primaryKey.value, 'p', raws))
    && (forall u :: 0 <= u < |rel.uniqueKeys| ==> FromSomeRow(rel.columns, rs, rel.uniqueKeys[u], 'u', raws))
  }

  lemma IndexOfId(cols: seq<Column>, first: Id, k: nat)
    requires k < |cols| && forall i :: 0 <= i < |cols| ==> cols[i].id == first + i
    ensures ColumnIndex(cols, first + k) == Some(k)
  {
    assert cols[k].id == first + k;
  }

  lemma ResolvedNames(rs: seq<RawColumn>, owner: Id, first: Id, types: map<int, Id>, attnums: seq<int>)
    requires Resolved(AttMap(rs, first), attnums).Some?
    ensures Names(MakeColumns(rs, owner, first, types), rs, Resolved(AttMap(rs, first), attnums).value, attnums)
  {
    hide AttMap;
    var cols := MakeColumns(rs, owner, first, types);
    var ids := Resolved(AttMap(rs, first), attnums).value;
    forall k | 0 <= k < |ids|
      ensures ColumnIndex(cols, ids[k]).Some? && IsLastColumnAt(rs, ColumnIndex(cols, ids[k]).value, attnums[k])
    {
      AttMapIs(rs, first, attnums[k]);
      IndexOfId(cols, first, ids[k] - first);
    }
  }

  lemma ResolvedKey(rs: seq<RawColumn>, owner: Id, first: Id, types: map<int, Id>, raw: RawKey)
    requires raw.attnums.Some? && Resolved(AttMap(rs, first), raw.attnums.value).Some?
    ensures KeyFrom(MakeColumns(rs, owner, first, types), rs,
      Key(Resolved(AttMap(rs, first), raw.attnums.value).value, raw.name), raw)
  {
    ResolvedNames(rs, owner, first, types, raw.attnums.value);
    hide Names, AttMap, Resolved;
  }

  lemma {:induction false} WithKeysFrom(
    rel: Relation, rs: seq<RawColumn>, owner: Id, first: Id, types: map<int, Id>, raws: seq<RawKey>
  )
    requires rel.columns == MakeColumns(rs, owner, first, types) && rel.primaryKey.None? && rel.uniqueKeys == []
    ensures KeysFrom(WithKeys(rel, AttMap(rs, first), raws), rs, raws)
  {
    if raws != [] {
      var n := |raws| - 1;
      var before, raw := WithKeys(rel, AttMap(rs, first), raws[..n]), raws[n];
      WithKeysFrom(rel, rs, owner, first, types, raws[..n]);
      WithKeysKeeps(rel, AttMap(rs, first), raws[..n]);
      MoreKeys(before, rs, raws, n);
      hide KeyFrom, WithKeys, AttMap, MakeColumns;
      WithKeysLast(rel, AttMap(rs, first), raws);
      if raw.attnums.Some? && Resolved(AttMap(rs, first), raw.attnums.value).Some? {
        ResolvedKey(rs, owner, first, types, raw);
        var key := Key(Resolved(AttMap(rs, first), raw.attnums.value).value, raw.name);
        assert FromRow(rel.columns, rs, key, raw.kind, raws, n);
      }
    }
  }

  lemma WithKeysLast(rel: Relation, attmap: map<int, Id>, raws: seq<RawKey>)
    requires raws != []
    ensures WithKeys(rel, attmap, raws) == WithKey(WithKeys(rel, attmap, raws[..|raws| - 1]), attmap, raws[|raws| - 1])
  {
  }

  lemma MoreRows(cols: seq<Column>, rs: seq<RawColumn>, key: Key, kind: char, raws: seq<RawKey>, n: nat)
    requires n <= |raws| && FromSomeRow(cols, rs, key, kind, raws[..n])
    ensures FromSomeRow(cols, rs, key, kind, raws)
  {
    hide KeyFrom;
    var i: nat :| FromRow(cols, rs, key, kind, raws[..n], i);
    assert FromRow(cols, rs, key, kind, raws, i);
  }

  lemma MoreKeys(rel: Relation, rs: seq<RawColumn>, raws: seq<RawKey>, n: nat)
    requires n <= |raws| && KeysFrom(rel, rs, raws[..n])
    ensures KeysFrom(rel, rs, raws)
  {
    hide FromSomeRow;
    if rel.primaryKey.Some? {
      MoreRows(rel.columns, rs, rel.primaryKey.value, 'p', raws, n);
    }
    forall u | 0 <= u < |rel.uniqueKeys| ensures FromSomeRow(rel.columns, rs, rel.uniqueKeys[u], 'u', raws) {
      MoreRows(rel.columns, rs, rel.uniqueKeys[u], 'u', raws, n);
    }
  }

  /** Every key of a hydrated relation names columns of that relation, in the order the catalog gives. */
  lemma HydratedKeysResolve(c: Catalog, types: map<int, Id>, fallback: Id, j: nat)
    requires j < |c.relations|
    ensures
      var rel := Hydrated(c, types, fallback)[j];
      KeysResolve(rel) && KeysFrom(rel, Own(c, j), KeysOf(c.keys, rel.oid))
  {
    var rel, rs := Hydrated(c, types, fallback)[j], Own(c, j);
    var raws := KeysOf(c.keys, rel.oid);
    hide Own, KeysOf, Keyed, Bare, Hydrated, Links, Outs, Ins, KeysFrom, KeysResolve;
    HydratedIs(c, types, fallback, j);
    KeyedKeys(c, types, fallback, j);
    SameKeys(Keyed(c, types, fallback, j), rel, rs, raws);
    KeysFromResolve(rel, rs, raws);
  }

  lemma SameKeys(rel: Relation, rel': Relation, rs: seq<RawColumn>, raws: seq<RawKey>)
    requires KeysFrom(rel, rs, raws)
    requires rel'.columns == rel.columns && rel'.primaryKey == rel.primaryKey && rel'.uniqueKeys == rel.uniqueKeys
    ensures KeysFrom(rel', rs, raws)
  {
    hide FromSomeRow;
  }

  lemma KeyedKeys(c: Catalog, types: map<int, Id>, fallback: Id, j: nat)
    requires j < |c.relations|
    ensures
      var rel := Keyed(c, types, fallback, j);
      && KeysFrom(rel, Own(c, j), KeysOf(c.keys, c.relations[j].oid))
      && rel.columns == MakeColumns(Own(c, j), j, FirstId(c, j), types)
  {
    hide Own, FromSomeRow, AttMap, WithKeys, KeysOf, MakeColumns, FirstId, LastIndex;
    var raws := KeysOf(c.keys, c.relations[j].oid);
    WithKeysFrom(Bare(c, types, fallback, j), Own(c, j), j, FirstId(c, j), types, raws);
    WithKeysKeeps(Bare(c, types, fallback, j), AttMap(Own(c, j), FirstId(c, j)), raws);
  }

  lemma KeysFromResolve(rel: Relation, rs: seq<RawColumn>, raws: seq<RawKey>)
    requires KeysFrom(rel, rs, raws)
    ensures KeysResolve(rel)
  {
    hide FromSomeRow;
    if rel.primaryKey.Some? {
      RowResolves(rel, rs, rel.primaryKey.value, 'p', raws);
    }
    forall u | 0 <= u < |rel.uniqueKeys| ensures KeyResolves(rel, rel.uniqueKeys[u]) {
      RowResolves(rel, rs, rel.uniqueKeys[u], 'u', raws);
    }
  }

  lemma RowResolves(rel: Relation, rs: seq<RawColumn>, key: Key, kind: char, raws: seq<RawKey>)
    requires FromSomeRow(rel.columns, rs, key, kind, raws)
    ensures KeyResolves(rel, key)
  {
    var i: nat :| FromRow(rel.columns, rs, key, kind, raws, i);
  }

  ghost predicate HasNumber(rs: seq<RawColumn>, attnum: int) {
    exists k :: IsColumnAt(rs, k, attnum)
  }

  /** The row names columns, and only such as the relation has. */
  ghost predicate Resolvable(rs: seq<RawColumn>, raw: RawKey) {
    raw.attnums.Some? && raw.attnums.value != [] &&
    forall k :: 0 <= k < |raw.attnums.value| ==> HasNumber(rs, raw.attnums.value[k])
  }

  lemma ResolvableResolves(rs: seq<RawColumn>, first: Id, raw: RawKey)
    ensures Resolvable(rs, raw) <==> raw.attnums.Some? && Resolved(AttMap(rs, first), raw.attnums.value).Some?
  {
    hide AttMap, IsColumnAt;
    if raw.attnums.Some? {
      forall k | 0 <= k < |raw.attnums.value|
        ensures raw.attnums.value[k] in AttMap(rs, first) <==> HasNumber(rs, raw.attnums.value[k])
      {
        AttMapIs(rs, first, raw.attnums.value[k]);
      }
    }
  }

  /** How many rows of the kind can be resolved. */
  ghost function CountRows(rs: seq<RawColumn>, kind: char, raws: seq<RawKey>): nat {
    if raws == [] then 0
    else
      var last := raws[|raws| - 1];
      CountRows(rs, kind, raws[..|raws| - 1]) + if last.kind == kind && Resolvable(rs, last) then 1 else 0
  }

  /** Row `i` has become a key: a unique one in its place, or the primary one unless a later row has. */
  ghost predicate RowServed(rel: Relation, rs: seq<RawColumn>, raws: seq<RawKey>, i: nat)
    requires i < |raws|
  {
    && (raws[i].kind == 'u' && Resolvable(rs, raws[i]) ==>
          var u := CountRows(rs, 'u', raws[..i]);
          u < |rel.uniqueKeys| && KeyFrom(rel.columns, rs, rel.uniqueKeys[u], raws[i]))
    && (raws[i].kind == 'p' && Resolvable(rs, raws[i]) ==>
          rel.primaryKey.Some? &&
          (CountRows(rs, 'p', raws) == CountRows(rs, 'p', raws[..i + 1]) ==>
            KeyFrom(rel.columns, rs, rel.primaryKey.value, raws[i])))
  }

  lemma {:induction false} CountGrows(rs: seq<RawColumn>, kind: char, raws: seq<RawKey>, i: nat)
    requires i <= |raws|
    ensures CountRows(rs, kind, raws[..i]) <= CountRows(rs, kind, raws)
  {
    hide Resolvable;
    var n := |raws| - 1;
    if i <= n {
      assert raws[..n][..i] == raws[..i];
      CountGrows(rs, kind, raws[..n], i);
    } else {
      assert raws[..i] == raws;
    }
  }

  lemma ServedStep(
    rel: Relation, rs: seq<RawColumn>, owner: Id, first: Id, types: map<int, Id>, raws: seq<RawKey>, i: nat
  )
    requires raws != [] && i < |raws| - 1
    requires rel.columns == MakeColumns(rs, owner, first, types)
    requires |rel.uniqueKeys| == CountRows(rs, 'u', raws[..|raws| - 1])
    requires RowServed(rel, rs, raws[..|raws| - 1], i)
    ensures RowServed(WithKey(rel, AttMap(rs, first), raws[|raws| - 1]), rs, raws, i)
  {
    hide KeyFrom, Resolvable, AttMap, MakeColumns, Resolved;
    var n := |raws| - 1;
    assert raws[..n][..i] == raws[..i] && raws[..n][..i + 1] == raws[..i + 1];
    ResolvableResolves(rs, first, raws[n]);
    CountGrows(rs, 'p', raws[..n], i + 1);
  }

  lemma {:induction false} WithKeysComplete(
    rel: Relation, rs: seq<RawColumn>, owner: Id, first: Id, types: map<int, Id>, raws: seq<RawKey>
  )
    requires rel.columns == MakeColumns(rs, owner, first, types) && rel.primaryKey.None? && rel.uniqueKeys == []
    ensures
      var r := WithKeys(rel, AttMap(rs, first), raws);
      && r.columns == rel.columns
      && |r.uniqueKeys| == CountRows(rs, 'u', raws)
      && (r.primaryKey.Some? <==> CountRows(rs, 'p', raws) > 0)
      && forall i :: 0 <= i < |raws| ==> RowServed(r, rs, raws, i)
  {
    hide AttMap, MakeColumns, Resolved, RowServed, Resolvable, KeyFrom;
    WithKeysKeeps(rel, AttMap(rs, first), raws);
    if raws != [] {
      var n := |raws| - 1;
      var before := WithKeys(rel, AttMap(rs, first), raws[..n]);
      WithKeysComplete(rel, rs, owner, first, types, raws[..n]);
      WithKeysLast(rel, AttMap(rs, first), raws);
      forall i | 0 <= i < n ensures RowServed(WithKeys(rel, AttMap(rs, first), raws), rs, raws, i) {
        ServedStep(before, rs, owner, first, types, raws, i);
      }
      LastServed(before, rs, owner, first, types, raws);
    }
  }

  lemma LastServed(rel: Relation, rs: seq<RawColumn>, owner: Id, first: Id, types: map<int, Id>, raws: seq<RawKey>)
    requires raws != [] && rel.columns == MakeColumns(rs, owner, first, types)
    requires |rel.uniqueKeys| == CountRows(rs, 'u', raws[..|raws| - 1])
    requires rel.primaryKey.Some? <==> CountRows(rs, 'p', raws[..|raws| - 1]) > 0
    ensures
      var r := WithKey(rel, AttMap(rs, first), raws[|raws| - 1]);
      && |r.uniqueKeys| == CountRows(rs, 'u', raws)
      && (r.primaryKey.Some? <==> CountRows(rs, 'p', raws) > 0)
      && RowServed(r, rs, raws, |raws| - 1)
  {
    hide AttMap, MakeColumns, Resolved, Resolvable, KeyFrom;
    var raw := raws[|raws| - 1];
    ResolvableResolves(rs, first, raw);
    if Resolvable(rs, raw) { ResolvedKey(rs, owner, first, types, raw); }
  }

  /**
   On the last relation of its OID every catalog row that can be resolved has become a key: the
   unique ones in their order and no others, the primary one from the last such row.
   */
  lemma EveryKeyIsThere(c: Catalog, types: map<int, Id>, fallback: Id, j: nat)
    requires j < |c.relations| && Target(c, c.relations[j].oid) == Some(j)
    ensures
      var rel, rs := Hydrated(c, types, fallback)[j], Own(c, j);
      var raws := KeysOf(c.keys, rel.oid);
      && |rel.uniqueKeys| == CountRows(rs, 'u', raws)
      && (rel.primaryKey.Some? <==> CountRows(rs, 'p', raws) > 0)
      && forall i :: 0 <= i < |raws| ==> RowServed(rel, rs, raws, i)
  {
    hide Own, AttMap, WithKeys, KeysOf, MakeColumns, FirstId, LastIndex, Links, Outs, Ins, Hydrated, CountRows;
    HydratedIs(c, types, fallback, j);
    var rel, rs, bare := Hydrated(c, types, fallback)[j], Own(c, j), Bare(c, types, fallback, j);
    var raws := KeysOf(c.keys, rel.oid);
    WithKeysComplete(bare, rs, j, FirstId(c, j), types, raws);
    var keyed := WithKeys(bare, AttMap(rs, FirstId(c, j)), raws);
    assert Keyed(c, types, fallback, j) == keyed;
    forall i | 0 <= i < |raws| ensures RowServed(rel, rs, raws, i) {
      ServedAlike(keyed, rel, rs, raws, i);
    }
  }

  lemma ServedAlike(rel: Relation, rel': Relation, rs: seq<RawColumn>, raws: seq<RawKey>, i: nat)
    requires i < |raws| && RowServed(rel, rs, raws, i)
    requires rel'.columns == rel.columns && rel'.primaryKey == rel.primaryKey && rel'.uniqueKeys == rel.uniqueKeys
    ensures RowServed(rel', rs, raws, i)
  {
    hide KeyFrom, Resolvable, CountRows;
  }

  /**
   In a hydrated model a relation whose rows can be identified has a key to page by: the first
   page and every page after a full row are printed, and updates never fall back to a column
   called `id`.
   */
  lemma IdentityNeverMissing(
    c: Catalog, types: map<int, Id>, fallback: Id, j: nat, schemaName: Option<string>, limit: nat, row: seq<CellValue>
  )
    requires j < |c.relations| && Browsable(Hydrated(c, types, fallback)[j])
    requires |row| == |Hydrated(c, types, fallback)[j].columns|
    ensures
      var rel := Hydrated(c, types, fallback)[j];
      var next := NextCursorOf(rel, row);
      && BuildSql(rel, schemaName, limit, None).Ok?
      && next.Some? && BuildSql(rel, schemaName, limit, next).Ok?
      && (forall k :: 0 <= k < |Edits.PrimaryKeyOf(rel)| ==>
            var col := ColumnById(rel, Edits.PrimaryKeyOf(rel)[k]);
            col.Some? && Edits.KeyName(rel, Edits.PrimaryKeyOf(rel)[k]) == col.value.name)
  {
    HydratedKeysResolve(c, types, fallback, j);
    hide Hydrated, KeysFrom, KeysOf, Own;
    ResolvedKeysServe(Hydrated(c, types, fallback)[j], schemaName, limit, row);
  }

  lemma ResolvedKeysServe(rel: Relation, schemaName: Option<string>, limit: nat, row: seq<CellValue>)
    requires KeysResolve(rel) && Browsable(rel) && |row| == |rel.columns|
    ensures
      var next := NextCursorOf(rel, row);
      && BuildSql(rel, schemaName, limit, None).Ok?
      && next.Some? && BuildSql(rel, schemaName, limit, next).Ok?
      && (forall k :: 0 <= k < |Edits.PrimaryKeyOf(rel)| ==>
            var col := ColumnById(rel, Edits.PrimaryKeyOf(rel)[k]);
            col.Some? && Edits.KeyName(rel, Edits.PrimaryKeyOf(rel)[k]) == col.value.name)
  {
    hide PageText, KeyNames, CursorOf, IsNotNullable;
    if rel.primaryKey.None? {
      assert KeyResolves(rel, rel.uniqueKeys[0]);
    }
    KeyNamesAt(rel, OrderKey(rel));
    CursorAt(rel, OrderKey(rel), row);
  }

  // ---- which rows can be told apart -------------------------------------------------------

  /** Of the relations with this OID the last. */
  ghost predicate IsLastRelation(c: Catalog, oid: int, j: nat) {
    && j < |c.relations| && c.relations[j].oid == oid
    && forall i :: j < i < |c.relations| ==> c.relations[i].oid != oid
  }

  /** One of the columns the row names may be NULL. */
  ghost predicate NamesNullable(rs: seq<RawColumn>, attnums: seq<int>) {
    exists k, i :: 0 <= k < |attnums| && IsLastColumnAt(rs, i, attnums[k]) && !rs[i].notNull
  }

  /** The row makes a key by which the rows of relation `j` can be told apart. */
  ghost predicate IdentifyingRow(c: Catalog, j: nat, raw: RawKey)
    requires j < |c.relations|
  {
    && IsLastRelation(c, raw.rel, j) && Resolvable(Own(c, j), raw)
    && (raw.kind == 'p' || (raw.kind == 'u' && !NamesNullable(Own(c, j), raw.attnums.value)))
  }

  lemma LastRelationIs(c: Catalog, oid: int, j: nat)
    ensures IsLastRelation(c, oid, j) <==> LastIndex(RelationOids(c.relations), oid) == Some(j)
  {
    var oids, i := RelationOids(c.relations), LastIndex(RelationOids(c.relations), oid);
    hide LastIndex;
    assert forall k :: 0 <= k < |oids| ==> oids[k] == c.relations[k].oid;
    if IsLastRelation(c, oid, j) {
      assert oids[j] == oid && i.Some?;
    }
  }

  /** A key from a row tells rows apart unless it names a nullable column. */
  lemma RowIdentifies(rel: Relation, rs: seq<RawColumn>, key: Key, raw: RawKey)
    requires KeyFrom(rel.columns, rs, key, raw)
    requires |rel.columns| == |rs| && forall k :: 0 <= k < |rs| ==> rel.columns[k].notNull == rs[k].notNull
    ensures Identifies(rel, key) <==> !NamesNullable(rs, raw.attnums.value)
  {
    var attnums := raw.attnums.value;
    forall k | 0 <= k < |attnums|
      ensures KnownNotNull(rel, key.columns[k]) <==>
        !exists i :: IsLastColumnAt(rs, i, attnums[k]) && !rs[i].notNull
    {
      ColumnIs(rel, key.columns[k]);
      var c := ColumnIndex(rel.columns, key.columns[k]).value;
      assert IsLastColumnAt(rs, c, attnums[k]);
      forall i | IsLastColumnAt(rs, i, attnums[k]) ensures i == c { }
    }
    hide KnownNotNull, IsLastColumnAt;
  }

  lemma NotNullFrom(c: Catalog, types: map<int, Id>, fallback: Id, j: nat)
    requires j < |c.relations|
    ensures
      var cols, rs := Hydrated(c, types, fallback)[j].columns, Own(c, j);
      |cols| == |rs| && forall k :: 0 <= k < |rs| ==> cols[k].notNull == rs[k].notNull
  {
    HydratedIs(c, types, fallback, j);
    ColumnsAreFrom(Own(c, j), j, FirstId(c, j), types);
    hide Hydrated, Own, MakeColumns;
  }

  lemma KeysAreRows(c: Catalog, oid: int, raw: RawKey)
    ensures raw in KeysOf(c.keys, oid) <==> raw in c.keys && raw.rel == oid && raw.attnums.Some?
  {
    KeysArePicked(c.keys, oid);
    PickedMembers(c.keys, KeyHas(oid), KeysOf(c.keys, oid), raw);
  }

  lemma {:induction false} CountedRow(rs: seq<RawColumn>, kind: char, raws: seq<RawKey>)
    ensures CountRows(rs, kind, raws) > 0 <==> exists raw :: raw in raws && raw.kind == kind && Resolvable(rs, raw)
  {
    hide Resolvable;
    if raws != [] {
      var n := |raws| - 1;
      assert raws == raws[..n] + [raws[n]];
      CountedRow(rs, kind, raws[..n]);
    }
  }

  lemma KeyFromResolvable(cols: seq<Column>, rs: seq<RawColumn>, key: Key, raw: RawKey)
    requires KeyFrom(cols, rs, key, raw)
    ensures Resolvable(rs, raw)
  {
    forall k | 0 <= k < |raw.attnums.value| ensures HasNumber(rs, raw.attnums.value[k]) {
      assert IsColumnAt(rs, ColumnIndex(cols, key.columns[k]).value, raw.attnums.value[k]);
    }
  }

  /**
   A hydrated relation's rows can be told apart, browsed and edited exactly when a catalog row
   makes a primary key of it, or a unique key without nullable columns.
   */
  lemma IdentityFromRows(c: Catalog, types: map<int, Id>, fallback: Id, j: nat)
    requires j < |c.relations|
    ensures NoIdentityIn(Hydrated(c, types, fallback)[j]) <==>
      forall raw :: raw in c.keys ==> !IdentifyingRow(c, j, raw)
  {
    hide Hydrated, Own, KeysFrom, RowServed, Identifies, Resolvable, NamesNullable, IsLastRelation, CountRows, KeysOf;
    var rel := Hydrated(c, types, fallback)[j];
    var oid := c.relations[j].oid;
    LastRelationIs(c, oid, j);
    if IsLastRelation(c, oid, j) {
      if raw :| raw in c.keys && IdentifyingRow(c, j, raw) {
        SameOid(c, raw.rel, j);
        IdentifyingServed(c, types, fallback, j, raw);
      } else {
        UnidentifiedKeys(c, types, fallback, j);
      }
    } else {
      NotLastHasNoKeys(c, types, fallback, j);
      forall raw | raw in c.keys ensures !IsLastRelation(c, raw.rel, j) {
        SameOid(c, raw.rel, j);
      }
    }
  }

  lemma SameOid(c: Catalog, oid: int, j: nat)
    ensures IsLastRelation(c, oid, j) ==> oid == c.relations[j].oid
  {
  }

  lemma NotLastHasNoKeys(c: Catalog, types: map<int, Id>, fallback: Id, j: nat)
    requires j < |c.relations| && Target(c, c.relations[j].oid) != Some(j)
    ensures NoIdentityIn(Hydrated(c, types, fallback)[j])
  {
    HydratedIs(c, types, fallback, j);
    hide Own, Hydrated, MakeColumns, Links, Outs, Ins, FirstId, LastIndex;
  }

  lemma IdentifyingServed(c: Catalog, types: map<int, Id>, fallback: Id, j: nat, raw: RawKey)
    requires j < |c.relations| && Target(c, c.relations[j].oid) == Some(j) && raw.rel == c.relations[j].oid
    requires raw in c.keys && IdentifyingRow(c, j, raw)
    ensures !NoIdentityIn(Hydrated(c, types, fallback)[j])
  {
    EveryKeyIsThere(c, types, fallback, j);
    HydratedIs(c, types, fallback, j);
    NotNullFrom(c, types, fallback, j);
    hide Hydrated, Own, Identifies, NamesNullable, IsLastRelation, KeysOf, KeyFrom, LastIndex, MakeColumns, Links;
    hide Outs, Ins, Keyed, Resolvable;
    var rel, rs := Hydrated(c, types, fallback)[j], Own(c, j);
    var raws := KeysOf(c.keys, rel.oid);
    KeysAreRows(c, rel.oid, raw);
    assert raw.attnums.Some? by { ResolvableIs(rs, raw); }
    CountedRow(rs, 'p', raws);
    var i :| 0 <= i < |raws| && raws[i] == raw;
    assert RowServed(rel, rs, raws, i);
    if raw.kind == 'u' {
      RowIdentifies(rel, rs, rel.uniqueKeys[CountRows(rs, 'u', raws[..i])], raw);
    }
  }

  lemma ResolvableIs(rs: seq<RawColumn>, raw: RawKey)
    requires Resolvable(rs, raw)
    ensures raw.attnums.Some?
  {
  }

  lemma UnidentifiedKeys(c: Catalog, types: map<int, Id>, fallback: Id, j: nat)
    requires j < |c.relations| && Target(c, c.relations[j].oid) == Some(j)
    requires forall raw :: raw in c.keys ==> !IdentifyingRow(c, j, raw)
    ensures NoIdentityIn(Hydrated(c, types, fallback)[j])
  {
    EveryKeyIsThere(c, types, fallback, j);
    HydratedKeysResolve(c, types, fallback, j);
    HydratedIs(c, types, fallback, j);
    NotNullFrom(c, types, fallback, j);
    LastRelationIs(c, c.relations[j].oid, j);
    hide Hydrated, Own, Identifies, NamesNullable, IsLastRelation, KeysOf, KeyFrom, LastIndex, MakeColumns, Links;
    hide Outs, Ins, Keyed, Resolvable, RowServed, KeysResolve, CountRows;
    var rel, rs := Hydrated(c, types, fallback)[j], Own(c, j);
    var raws := KeysOf(c.keys, rel.oid);
    CountedRow(rs, 'p', raws);
    forall raw ensures raw in raws <==> raw in c.keys && raw.rel == rel.oid && raw.attnums.Some? {
      KeysAreRows(c, rel.oid, raw);
    }
    forall u | 0 <= u < |rel.uniqueKeys| ensures !Identifies(rel, rel.uniqueKeys[u]) {
      var i: nat :| FromRow(rel.columns, rs, rel.uniqueKeys[u], 'u', raws, i);
      assert raws[i] in raws;
      KeyFromResolvable(rel.columns, rs, rel.uniqueKeys[u], raws[i]);
      RowIdentifies(rel, rs, rel.uniqueKeys[u], raws[i]);
    }
  }

  // ---- foreign keys and the catalog -------------------------------------------------------

  /** A constraint whose relations and columns are all known. */
  ghost predicate Linkable(c: Catalog, fk: RawFk) {
    && fk.attnums.Some? && fk.refAttnums.Some?
    && KnownColumns(c, fk.rel, fk.attnums.value) && KnownColumns(c, fk.refRel, fk.refAttnums.value)
  }

  /** The constraint is one of relation `j`'s own. */
  ghost predicate GoesOut(c: Catalog, fk: RawFk, j: nat) { Linkable(c, fk) && IsLastRelation(c, fk.rel, j) }

  /** The constraint refers to relation `j`. */
  ghost predicate ComesIn(c: Catalog, fk: RawFk, j: nat) { Linkable(c, fk) && IsLastRelation(c, fk.refRel, j) }

  ghost predicate NamesIn(c: Catalog, rels: seq<Relation>, j: Id, ids: seq<Id>, attnums: Option<seq<int>>) {
    j < |rels| == |c.relations| && attnums.Some? && Names(rels[j].columns, Own(c, j), ids, attnums.value)
  }

  /** From the columns the row names to those of the relation it refers to. */
  ghost predicate OutFrom(c: Catalog, rels: seq<Relation>, j: nat, key: ForeignKey, fk: RawFk) {
    && key.name == fk.name && IsLastRelation(c, fk.refRel, key.referencedRelation)
    && NamesIn(c, rels, j, key.referencing, fk.attnums)
    && NamesIn(c, rels, key.referencedRelation, key.referenced, fk.refAttnums)
  }

  /** The same from the other side. */
  ghost predicate InFrom(c: Catalog, rels: seq<Relation>, j: nat, key: ForeignKey, fk: RawFk) {
    && key.name == fk.name && IsLastRelation(c, fk.rel, key.referencedRelation)
    && NamesIn(c, rels, j, key.referencing, fk.refAttnums)
    && NamesIn(c, rels, key.referencedRelation, key.referenced, fk.attnums)
  }

  lemma LinkableIff(c: Catalog, fk: RawFk)
    ensures Accept(c, fk).Some? <==> Linkable(c, fk)
  {
    AcceptedIff(c, fk);
    hide Accept, KnownColumns;
  }

  /** An accepted constraint links the relations and columns its row names. */
  lemma AcceptedLink(c: Catalog, types: map<int, Id>, fallback: Id, fk: RawFk)
    requires Accept(c, fk).Some?
    ensures
      var link, rels := Accept(c, fk).value, Hydrated(c, types, fallback);
      && link.name == fk.name && IsLastRelation(c, fk.rel, link.src) && IsLastRelation(c, fk.refRel, link.dst)
      && NamesIn(c, rels, link.src, link.referencing, fk.attnums)
      && NamesIn(c, rels, link.dst, link.referenced, fk.refAttnums)
  {
    hide Hydrated, Own, AttMap, FirstId, LastIndex, Resolved, Names, IsLastRelation;
    assert RelationOids(c.relations)[..|c.relations|] == RelationOids(c.relations);
    LinkSides(c, fk);
    var link := Accept(c, fk).value;
    LastRelationIs(c, fk.rel, LastIndex(RelationOids(c.relations), fk.rel).value);
    LastRelationIs(c, fk.refRel, LastIndex(RelationOids(c.relations), fk.refRel).value);
    var src, dst :=
      LastIndex(RelationOids(c.relations), fk.rel).value, LastIndex(RelationOids(c.relations), fk.refRel).value;
    ResolvedNames(Own(c, src), src, FirstId(c, src), types, fk.attnums.value);
    ResolvedNames(Own(c, dst), dst, FirstId(c, dst), types, fk.refAttnums.value);
    HydratedIs(c, types, fallback, src);
    HydratedIs(c, types, fallback, dst);
    hide MakeColumns, Links, Outs, Ins, Keyed;
  }

  lemma OneLast(c: Catalog, oid: int, i: nat, j: nat)
    requires IsLastRelation(c, oid, i)
    ensures IsLastRelation(c, oid, j) <==> i == j
  {
  }

  ghost function Outgoing(c: Catalog, j: nat): RawFk -> bool { fk => GoesOut(c, fk, j) }

  ghost function Incoming(c: Catalog, j: nat): RawFk -> bool { fk => ComesIn(c, fk, j) }

  /** The keys are those of the rows at the places, in order, and the places are those of all such rows. */
  ghost predicate RowsOut(c: Catalog, rels: seq<Relation>, j: nat, fks: seq<RawFk>, keys: seq<ForeignKey>, at: seq<nat>)
  {
    && PlacesOf(fks, Outgoing(c, j), at) && |at| == |keys|
    && forall k :: 0 <= k < |at| ==> at[k] < |fks| && OutFrom(c, rels, j, keys[k], fks[at[k]])
  }

  ghost predicate RowsIn(
    c: Catalog, rels: seq<Relation>, j: nat, fks: seq<RawFk>, keys: seq<ForeignKey>, at: seq<nat>
  ) {
    && PlacesOf(fks, Incoming(c, j), at) && |at| == |keys|
    && forall k :: 0 <= k < |at| ==> at[k] < |fks| && InFrom(c, rels, j, keys[k], fks[at[k]])
  }

  /** One more row: its key is added on the sides of the relations it links, and on no other. */
  lemma LinkStep(c: Catalog, types: map<int, Id>, fallback: Id, j: nat, n: nat)
    requires n < |c.fks|
    ensures
      var rels, fk := Hydrated(c, types, fallback), c.fks[n];
      var outs, ins := Outs(Links(c, c.fks[..n]), j), Ins(Links(c, c.fks[..n]), j);
      var outs', ins' := Outs(Links(c, c.fks[..n + 1]), j), Ins(Links(c, c.fks[..n + 1]), j);
      && (if GoesOut(c, fk, j) then exists key :: outs' == outs + [key] && OutFrom(c, rels, j, key, fk)
          else outs' == outs)
      && (if ComesIn(c, fk, j) then exists key :: ins' == ins + [key] && InFrom(c, rels, j, key, fk)
          else ins' == ins)
  {
    hide Hydrated, Outs, Ins, Links, Accept, Linkable, IsLastRelation, NamesIn;
    var fk := c.fks[n];
    LinksStep(c, n);
    LinkableIff(c, fk);
    var before := Links(c, c.fks[..n]);
    if Accept(c, fk).Some? {
      var link := Accept(c, fk).value;
      AcceptedLink(c, types, fallback, fk);
      LinkedStep(Default(), before, link, j);
      OneLast(c, fk.rel, link.src, j);
      OneLast(c, fk.refRel, link.dst, j);
      assert Outs(before, j) + [] == Outs(before, j) && Ins(before, j) + [] == Ins(before, j);
      if link.src == j { assert OutFrom(c, Hydrated(c, types, fallback), j, OutKey(link), fk); }
      if link.dst == j { assert InFrom(c, Hydrated(c, types, fallback), j, InKey(link), fk); }
    } else {
      assert before + [] == before;
    }
  }

  lemma {:induction false} OutRows(c: Catalog, types: map<int, Id>, fallback: Id, j: nat, n: nat) returns (at: seq<nat>)
    requires n <= |c.fks|
    ensures RowsOut(c, Hydrated(c, types, fallback), j, c.fks[..n], Outs(Links(c, c.fks[..n]), j), at)
  {
    hide Hydrated, Outs, Links, GoesOut, OutFrom, ComesIn, InFrom, Ins;
    if n == 0 {
      at := [];
      NoLinks(c, j);
    } else {
      at := OutRows(c, types, fallback, j, n - 1);
      LinkStep(c, types, fallback, j, n - 1);
      assert c.fks[..n][..n - 1] == c.fks[..n - 1] && c.fks[..n][n - 1] == c.fks[n - 1];
      PlacesStep(c.fks[..n], Outgoing(c, j), at);
      at := at + if Outgoing(c, j)(c.fks[n - 1]) then [n - 1] else [];
    }
  }

  lemma {:induction false} InRows(c: Catalog, types: map<int, Id>, fallback: Id, j: nat, n: nat) returns (at: seq<nat>)
    requires n <= |c.fks|
    ensures RowsIn(c, Hydrated(c, types, fallback), j, c.fks[..n], Ins(Links(c, c.fks[..n]), j), at)
  {
    hide Hydrated, Ins, Links, ComesIn, InFrom, GoesOut, OutFrom, Outs;
    if n == 0 {
      at := [];
      NoLinks(c, j);
    } else {
      at := InRows(c, types, fallback, j, n - 1);
      LinkStep(c, types, fallback, j, n - 1);
      assert c.fks[..n][..n - 1] == c.fks[..n - 1] && c.fks[..n][n - 1] == c.fks[n - 1];
      PlacesStep(c.fks[..n], Incoming(c, j), at);
      at := at + if Incoming(c, j)(c.fks[n - 1]) then [n - 1] else [];
    }
  }

  lemma NoLinks(c: Catalog, j: nat)
    ensures Outs(Links(c, c.fks[..0]), j) == [] && Ins(Links(c, c.fks[..0]), j) == []
  {
  }

  /**
   A hydrated relation's outgoing keys are those of its own constraints in the catalog, in their
   order: from the columns the row names to the relation and columns the row refers to. Its
   incoming keys are those of the constraints that refer to it, seen from its side.
   */
  lemma ForeignKeysFromRows(c: Catalog, types: map<int, Id>, fallback: Id, j: nat)
    requires j < |c.relations|
    ensures
      var rels := Hydrated(c, types, fallback);
      && (exists at :: RowsOut(c, rels, j, c.fks, rels[j].foreignKeysOut, at))
      && (exists at :: RowsIn(c, rels, j, c.fks, rels[j].foreignKeysIn, at))
  {
    hide RowsOut, RowsIn, Links, Outs, Ins;
    HydratedLinks(c, types, fallback, j);
    hide Hydrated;
    assert c.fks[..|c.fks|] == c.fks;
    var outs := OutRows(c, types, fallback, j, |c.fks|);
    var ins := InRows(c, types, fallback, j, |c.fks|);
  }

  // ---- foreign keys -----------------------------------------------------------------------

  /** A foreign key of relation `owner` seen from the other side. */
  function Mirror(fk: ForeignKey, owner: Id): ForeignKey {
    ForeignKey(fk.name, fk.referenced, owner, fk.referencing)
  }

  function Pointing(fks: seq<ForeignKey>, target: Id): seq<ForeignKey> {
    if fks == [] then []
    else
      var last := fks[|fks| - 1];
      Pointing(fks[..|fks| - 1], target) + if last.referencedRelation == target then [last] else []
  }

  function MirrorAll(fks: seq<ForeignKey>, owner: Id): (r: seq<ForeignKey>)
    ensures |r| == |fks| && forall i :: 0 <= i < |fks| ==> r[i] == Mirror(fks[i], owner)
  {
    seq(|fks|, i requires 0 <= i < |fks| => Mirror(fks[i], owner))
  }

  lemma PointingStep(fks: seq<ForeignKey>, fk: ForeignKey, target: Id)
    ensures Pointing(fks + [fk], target) == Pointing(fks, target) + if fk.referencedRelation == target then [fk] else []
    ensures Pointing(fks + [], target) == Pointing(fks, target)
  {
    assert (fks + [fk])[..|fks|] == fks && fks + [] == fks;
  }

  lemma MirrorStep(fks: seq<ForeignKey>, fk: ForeignKey, owner: Id)
    ensures MirrorAll(fks + [fk], owner) == MirrorAll(fks, owner) + [Mirror(fk, owner)]
    ensures MirrorAll(fks + [], owner) == MirrorAll(fks, owner)
  {
    assert fks + [] == fks;
  }

  /**
   Between any two relations, the outgoing keys of one towards the other, seen from the other
   side, are the other's incoming keys from it: the same constraints, each once, in input order.
   */
  lemma {:induction false} LinksMirror(links: seq<Link>, a: Id, b: Id)
    ensures MirrorAll(Pointing(Outs(links, a), b), a) == Pointing(Ins(links, b), a)
  {
    if links != [] {
      var rest, last := links[..|links| - 1], links[|links| - 1];
      assert links == rest + [last];
      LinksMirror(rest, a, b);
      LinkedStep(Default(), rest, last, a);
      LinkedStep(Default(), rest, last, b);
      hide Outs, Ins, Pointing, MirrorAll;
      PointingStep(Outs(rest, a), OutKey(last), b);
      PointingStep(Ins(rest, b), InKey(last), a);
      MirrorStep(Pointing(Outs(rest, a), b), OutKey(last), a);
      assert forall s: seq<ForeignKey> :: s + [] == s;
      assert Mirror(OutKey(last), last.src) == InKey(last);
    }
  }

  /** Stands where a relation is not looked at. */
  function Default(): Relation {
    Relation(0, 0, 0, "", Table, [], None, [], [], [])
  }

  lemma ForeignKeysMirror(c: Catalog, types: map<int, Id>, fallback: Id, a: nat, b: nat)
    requires a < |c.relations| && b < |c.relations|
    ensures
      var rels := Hydrated(c, types, fallback);
      MirrorAll(Pointing(rels[a].foreignKeysOut, b), a) == Pointing(rels[b].foreignKeysIn, a)
  {
    HydratedIs(c, types, fallback, a);
    HydratedIs(c, types, fallback, b);
    hide Hydrated, Links;
    LinksMirror(Links(c, c.fks), a, b);
  }

  function CountOut(rels: seq<Relation>, n: nat): nat
    requires n <= |rels|
  {
    if n == 0 then 0 else CountOut(rels, n - 1) + |rels[n - 1].foreignKeysOut|
  }

  function CountIn(rels: seq<Relation>, n: nat): nat
    requires n <= |rels|
  {
    if n == 0 then 0 else CountIn(rels, n - 1) + |rels[n - 1].foreignKeysIn|
  }

  function FromBelow(links: seq<Link>, n: nat): nat {
    if links == [] then 0 else FromBelow(links[..|links| - 1], n) + if links[|links| - 1].src < n then 1 else 0
  }

  function ToBelow(links: seq<Link>, n: nat): nat {
    if links == [] then 0 else ToBelow(links[..|links| - 1], n) + if links[|links| - 1].dst < n then 1 else 0
  }

  lemma {:induction false} BelowStep(links: seq<Link>, n: nat)
    ensures FromBelow(links, n + 1) == FromBelow(links, n) + |Outs(links, n)|
    ensures ToBelow(links, n + 1) == ToBelow(links, n) + |Ins(links, n)|
    ensures FromBelow(links, 0) == 0 && ToBelow(links, 0) == 0
  {
    if links != [] { BelowStep(links[..|links| - 1], n); }
  }

  lemma {:induction false} AllBelow(links: seq<Link>, n: nat)
    requires forall i :: 0 <= i < |links| ==> links[i].src < n && links[i].dst < n
    ensures FromBelow(links, n) == |links| && ToBelow(links, n) == |links|
  {
    if links != [] { AllBelow(links[..|links| - 1], n); }
  }

  lemma HydratedLinks(c: Catalog, types: map<int, Id>, fallback: Id, j: nat)
    requires j < |c.relations|
    ensures Hydrated(c, types, fallback)[j].foreignKeysOut == Outs(Links(c, c.fks), j)
    ensures Hydrated(c, types, fallback)[j].foreignKeysIn == Ins(Links(c, c.fks), j)
  {
    hide Keyed, Links, Outs, Ins;
  }

  lemma {:induction false} CountsAreBelow(c: Catalog, types: map<int, Id>, fallback: Id, n: nat)
    requires n <= |c.relations|
    ensures
      var rels := Hydrated(c, types, fallback);
      && CountOut(rels, n) == FromBelow(Links(c, c.fks), n)
      && CountIn(rels, n) == ToBelow(Links(c, c.fks), n)
  {
    hide Hydrated, Links, Outs, Ins, FromBelow, ToBelow, Keyed;
    if n == 0 {
      BelowStep(Links(c, c.fks), 0);
    } else {
      CountsAreBelow(c, types, fallback, n - 1);
      BelowStep(Links(c, c.fks), n - 1);
      HydratedLinks(c, types, fallback, n - 1);
    }
  }

  lemma {:induction false} LinksInRange(c: Catalog, fks: seq<RawFk>)
    ensures forall i :: 0 <= i < |Links(c, fks)| ==>
      Links(c, fks)[i].src < |c.relations| && Links(c, fks)[i].dst < |c.relations|
  {
    if fks != [] {
      LinksInRange(c, fks[..|fks| - 1]);
      hide Accept;
      if Accept(c, fks[|fks| - 1]).Some? { LinkSides(c, fks[|fks| - 1]); }
    }
  }

  /** Both sides together hold each accepted constraint once. */
  lemma ForeignKeysCounted(c: Catalog, types: map<int, Id>, fallback: Id)
    ensures
      var rels := Hydrated(c, types, fallback);
      CountOut(rels, |rels|) == CountIn(rels, |rels|) == |Links(c, c.fks)|
  {
    hide Hydrated, Links;
    CountsAreBelow(c, types, fallback, |c.relations|);
    LinksInRange(c, c.fks);
    AllBelow(Links(c, c.fks), |c.relations|);
  }

  /** A constraint is accepted exactly when its relations and all its columns, on both sides, are known. */
  lemma AcceptedIff(c: Catalog, fk: RawFk)
    ensures Accept(c, fk).Some? <==>
      (fk.attnums.Some? && fk.refAttnums.Some? && KnownColumns(c, fk.rel, fk.attnums.value) &&
        KnownColumns(c, fk.refRel, fk.refAttnums.value))
  {
    hide AttMap, Own, FirstId, LastIndex;
    assert RelationOids(c.relations)[..|c.relations|] == RelationOids(c.relations);
    if fk.attnums.Some? && fk.refAttnums.Some? {
      KnownIff(c, fk.rel, fk.attnums.value);
      KnownIff(c, fk.refRel, fk.refAttnums.value);
    }
  }

  /** The relation is known, and has a column with each of the numbers. */
  ghost predicate KnownColumns(c: Catalog, oid: int, attnums: seq<int>) {
    var j := LastIndex(RelationOids(c.relations), oid);
    j.Some? && attnums != [] && forall a :: a in attnums ==> exists k :: IsColumnAt(Own(c, j.value), k, a)
  }

  lemma AllInMap(attnums: seq<int>, m: map<int, Id>)
    ensures (forall k :: 0 <= k < |attnums| ==> attnums[k] in m) <==> (forall a :: a in attnums ==> a in m)
  {
    if forall a :: a in attnums ==> a in m {
      forall k | 0 <= k < |attnums| ensures attnums[k] in m {
        assert attnums[k] in attnums;
      }
    }
  }

  lemma KnownIff(c: Catalog, oid: int, attnums: seq<int>)
    ensures
      var j := LastIndex(RelationOids(c.relations), oid);
      KnownColumns(c, oid, attnums) <==>
        j.Some? && Resolved(AttMap(Own(c, j.value), FirstId(c, j.value)), attnums).Some?
  {
    hide AttMap, Own, FirstId, LastIndex, IsColumnAt;
    var j := LastIndex(RelationOids(c.relations), oid);
    if j.Some? {
      var m := AttMap(Own(c, j.value), FirstId(c, j.value));
      forall a ensures a in m <==> exists k :: IsColumnAt(Own(c, j.value), k, a) {
        AttMapIs(Own(c, j.value), FirstId(c, j.value), a);
      }
      AllInMap(attnums, m);
    }
  }

  // ---- indexes ----------------------------------------------------------------------------

  /** The model answers every lookup as a scan of its relations would. */
  lemma IndexesAgree(
    c: Catalog, types: map<int, Id>, fallback: Id, model: SchemaModel, oid: int, column: Id, schema: Id
  )
    requires ModelOf(c, types, fallback, model)
    ensures model.relations == Hydrated(c, types, fallback) && Numbered(model.relations)
    ensures OidsDistinct(model.relations) ==> RelationByOid(model, oid) == ScanOid(model.relations, oid)
    ensures forall i: nat :: i < |model.relations| ==>
      (OwnerOf(model, column) == Some(i) <==> HasColumn(model.relations[i], column))
    ensures AllIn(model.sortedRelations, model.relations) && ByNameThenId(model.relations, model.sortedRelations)
    ensures multiset(model.sortedRelations) == multiset(Ids(|model.relations|))
    ensures RelationsIn(model, schema) == OfSchema(model.relations, model.sortedRelations, schema)
  {
    var m :| Indexed(m) && m.relations == Hydrated(c, types, fallback) && model == Finished(m)
      && |m.schemas| == |c.schemas| && forall i :: 0 <= i < |c.schemas| ==>
        m.schemas[i] == Schema(i, c.schemas[i].name);
    hide Hydrated, OidsIndexed, OwnersIndexed, GroupsIndexed, OfSchema, SortByName, ByNameThenId, HasColumn;
    if OidsDistinct(m.relations) {
      ByOidIsScan(m, oid);
    }
    forall i, j | 0 <= i < j < |m.relations|
      ensures !(HasColumn(m.relations[i], column) && HasColumn(m.relations[j], column))
    {
      ColumnIdsAreUnique(c, types, fallback, i, j, column);
    }
    OwnerIsScan(m, column);
    ListsAreSorted(m, schema);
  }
}
