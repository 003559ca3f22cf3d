/**
 The schema model and the indexes its builder keeps beside it: every lookup answers what a
 linear scan of the relations would.
 */
module SchemaModels {
  import opened Prelude
  import opened Relations

  datatype Schema = Schema(id: Id, name: string)

  datatype Function = Function(id: Id, schema: Id, name: string)

  datatype SchemaModel = SchemaModel(
    schemas: seq<Schema>,
    relations: seq<Relation>,
    functions: seq<Function>,
    types: map<Id, string>,
    schemaByName: map<string, Id>,
    relationByOid: map<int, Id>,
    relationsBySchema: map<Id, seq<Id>>,
    functionsBySchema: map<Id, seq<Id>>,
    sortedRelations: seq<Id>,
    columnOwner: map<Id, Id>)

  const EMPTY: SchemaModel := SchemaModel([], [], [], map[], map[], map[], map[], map[], [], map[])

  // ---- lookups ----------------------------------------------------------------------------

  function RelationOf(m: SchemaModel, id: Id): Option<Relation> {
    if id < |m.relations| then Some(m.relations[id]) else None
  }

  function RelationByOid(m: SchemaModel, oid: int): Option<Relation> {
    if oid in m.relationByOid then RelationOf(m, m.relationByOid[oid]) else None
  }

  function RelationsIn(m: SchemaModel, schema: Id): seq<Id> {
    if schema in m.relationsBySchema then m.relationsBySchema[schema] else []
  }

  function OwnerOf(m: SchemaModel, column: Id): Option<Id> {
    if column in m.columnOwner then Some(m.columnOwner[column]) else None
  }

  /** `schema_named`: of two schemas with one name the last. */
  ghost predicate SchemasNamed(schemas: seq<Schema>, byName: map<string, Id>) {
    && (forall i :: 0 <= i < |schemas| ==> schemas[i].name in byName)
    && forall name :: name in byName ==>
         byName[name] < |schemas| && schemas[byName[name]].name == name &&
           forall i :: byName[name] < i < |schemas| ==> schemas[i].name != name
  }

  // ---- order of names ---------------------------------------------------------------------

  predicate TextLess(a: string, b: string) {
    if b == "" then false
    else if a == "" then true
    else a[0] < b[0] || (a[0] == b[0] && TextLess(a[1..], b[1..]))
  }

  lemma {:induction false} TextLessAsymmetric(a: string, b: string)
    ensures !(TextLess(a, b) && TextLess(b, a))
  {
    if a != "" && b != "" { TextLessAsymmetric(a[1..], b[1..]); }
  }

  lemma {:induction false} TextNotLessTransitive(a: string, b: string, c: string)
    requires !TextLess(b, a) && !TextLess(c, b)
    ensures !TextLess(c, a)
  {
    if a != "" && b != "" && c != "" && a[0] == b[0] == c[0] {
      TextNotLessTransitive(a[1..], b[1..], c[1..]);
    }
  }

  /** Where the two texts first differ, the character of `a` is smaller, or `a` has ended. */
  ghost predicate DifferAt(a: string, b: string, k: nat) {
    && k <= |a| && k < |b| && (forall i :: 0 <= i < k ==> a[i] == b[i])
    && (k == |a| || a[k] < b[k])
  }

  lemma {:induction false} TextLessIff(a: string, b: string)
    ensures TextLess(a, b) <==> exists k: nat :: DifferAt(a, b, k)
    ensures !TextLess(a, b) && !TextLess(b, a) <==> a == b
  {
    if a == "" || b == "" {
      if a == "" && b != "" { assert DifferAt(a, b, 0); }
    } else {
      TextLessIff(a[1..], b[1..]);
      assert a == [a[0]] + a[1..] && b == [b[0]] + b[1..];
      if a[0] < b[0] { assert DifferAt(a, b, 0); }
      if k: nat :| DifferAt(a[1..], b[1..], k) && a[0] == b[0] { assert DifferAt(a, b, k + 1); }
      if k: nat :| DifferAt(a, b, k) && k > 0 { assert DifferAt(a[1..], b[1..], k - 1); }
    }
  }

  predicate AllIn(ids: seq<Id>, rels: seq<Relation>) {
    forall i :: 0 <= i < |ids| ==> ids[i] < |rels|
  }

  predicate NameLess(rels: seq<Relation>, a: Id, b: Id)
    requires a < |rels| && b < |rels|
  {
    TextLess(rels[a].name, rels[b].name)
  }

  function InsertByName(rels: seq<Relation>, id: Id, ids: seq<Id>): (r: seq<Id>)
    requires id < |rels| && AllIn(ids, rels)
    ensures AllIn(r, rels) && |r| == |ids| + 1
  {
    if ids == [] || !NameLess(rels, ids[0], id) then [id] + ids
    else [ids[0]] + InsertByName(rels, id, ids[1..])
  }

  /** `sort_by` name: ids with equal names keep their order. */
  function SortByName(rels: seq<Relation>, ids: seq<Id>): (r: seq<Id>)
    requires AllIn(ids, rels)
    ensures AllIn(r, rels) && |r| == |ids|
  {
    if ids == [] then [] else InsertByName(rels, ids[0], SortByName(rels, ids[1..]))
  }

  lemma {:induction false} InsertByNamePermutes(rels: seq<Relation>, id: Id, ids: seq<Id>)
    requires id < |rels| && AllIn(ids, rels)
    ensures multiset(InsertByName(rels, id, ids)) == multiset(ids) + multiset{id}
  {
    if ids != [] && NameLess(rels, ids[0], id) {
      InsertByNamePermutes(rels, id, ids[1..]);
      assert ids == [ids[0]] + ids[1..];
    }
  }

  lemma {:induction false} SortByNamePermutes(rels: seq<Relation>, ids: seq<Id>)
    requires AllIn(ids, rels)
    ensures multiset(SortByName(rels, ids)) == multiset(ids)
  {
    if ids != [] {
      SortByNamePermutes(rels, ids[1..]);
      InsertByNamePermutes(rels, ids[0], SortByName(rels, ids[1..]));
      assert ids == [ids[0]] + ids[1..];
    }
  }

  ghost predicate NameSorted(rels: seq<Relation>, ids: seq<Id>)
    requires AllIn(ids, rels)
  {
    forall i, j :: 0 <= i < j < |ids| ==> !NameLess(rels, ids[j], ids[i])
  }

  lemma {:induction false} InsertByNameSorted(rels: seq<Relation>, id: Id, ids: seq<Id>)
    requires id < |rels| && AllIn(ids, rels) && NameSorted(rels, ids)
    ensures NameSorted(rels, InsertByName(rels, id, ids))
  {
    if ids != [] {
      if !NameLess(rels, ids[0], id) {
        forall j | 0 <= j < |ids| ensures !NameLess(rels, ids[j], id) {
          if j > 0 {
            assert !NameLess(rels, ids[j], ids[0]);
            TextNotLessTransitive(rels[id].name, rels[ids[0]].name, rels[ids[j]].name);
          }
        }
      } else {
        var rest := InsertByName(rels, id, ids[1..]);
        InsertByNameSorted(rels, id, ids[1..]);
        InsertByNamePermutes(rels, id, ids[1..]);
        TextLessAsymmetric(rels[ids[0]].name, rels[id].name);
        forall j | 0 <= j < |rest| ensures !NameLess(rels, rest[j], ids[0]) {
          assert rest[j] in multiset(rest);
          assert rest[j] == id || rest[j] in ids[1..];
        }
      }
    }
  }

  lemma {:induction false} SortByNameSorted(rels: seq<Relation>, ids: seq<Id>)
    requires AllIn(ids, rels)
    ensures NameSorted(rels, SortByName(rels, ids))
  {
    if ids != [] {
      SortByNameSorted(rels, ids[1..]);
      InsertByNameSorted(rels, ids[0], SortByName(rels, ids[1..]));
    }
  }

  /** By name, and those of one name by id. */
  ghost predicate ByNameThenId(rels: seq<Relation>, ids: seq<Id>)
    requires AllIn(ids, rels)
  {
    forall i, j :: 0 <= i < j < |ids| ==>
      NameLess(rels, ids[i], ids[j]) || (rels[ids[i]].name == rels[ids[j]].name && ids[i] < ids[j])
  }

  lemma {:induction false} InsertByNameThenId(rels: seq<Relation>, id: Id, ids: seq<Id>)
    requires id < |rels| && AllIn(ids, rels) && ByNameThenId(rels, ids)
    requires forall k :: 0 <= k < |ids| ==> id < ids[k]
    ensures ByNameThenId(rels, InsertByName(rels, id, ids))
  {
    hide TextLess;
    if ids != [] {
      if !NameLess(rels, ids[0], id) {
        forall k | 0 <= k < |ids| ensures NameLess(rels, id, ids[k]) || rels[id].name == rels[ids[k]].name {
          TextTotal(rels[id].name, rels[ids[0]].name);
          if k > 0 { TextTransitive(rels[id].name, rels[ids[0]].name, rels[ids[k]].name); }
        }
      } else {
        var rest := InsertByName(rels, id, ids[1..]);
        InsertByNameThenId(rels, id, ids[1..]);
        InsertByNamePermutes(rels, id, ids[1..]);
        forall j | 0 <= j < |rest|
          ensures NameLess(rels, ids[0], rest[j]) || (rels[ids[0]].name == rels[rest[j]].name && ids[0] < rest[j])
        {
          assert rest[j] in multiset(rest);
          assert rest[j] == id || rest[j] in ids[1..];
        }
      }
    }
  }

  lemma TextTotal(a: string, b: string)
    ensures TextLess(a, b) || TextLess(b, a) || a == b
  {
    TextLessIff(a, b);
  }

  lemma TextTransitive(a: string, b: string, c: string)
    requires (TextLess(a, b) || a == b) && (TextLess(b, c) || b == c)
    ensures TextLess(a, c) || a == c
  {
    TextLessAsymmetric(a, b);
    TextLessAsymmetric(b, c);
    TextNotLessTransitive(a, b, c);
    TextTotal(a, c);
  }

  /** Sorting keeps the order of relations of one name. */
  lemma {:induction false} SortByNameThenId(rels: seq<Relation>, ids: seq<Id>)
    requires AllIn(ids, rels) && forall i, j :: 0 <= i < j < |ids| ==> ids[i] < ids[j]
    ensures ByNameThenId(rels, SortByName(rels, ids))
  {
    if ids != [] {
      var rest := SortByName(rels, ids[1..]);
      SortByNameThenId(rels, ids[1..]);
      SortByNamePermutes(rels, ids[1..]);
      forall k | 0 <= k < |rest| ensures ids[0] < rest[k] {
        assert rest[k] in multiset(rest);
        assert rest[k] in ids[1..];
      }
      InsertByNameThenId(rels, ids[0], rest);
    }
  }

  // ---- filtering by schema ----------------------------------------------------------------

  /** The ids of relations of a schema, in order. */
  function OfSchema(rels: seq<Relation>, ids: seq<Id>, schema: Id): (r: seq<Id>)
    requires AllIn(ids, rels)
    ensures AllIn(r, rels)
  {
    if ids == [] then []
    else (if rels[ids[0]].schema == schema then [ids[0]] else []) + OfSchema(rels, ids[1..], schema)
  }

  lemma {:induction false} OfSchemaMembers(rels: seq<Relation>, ids: seq<Id>, schema: Id, id: Id)
    requires AllIn(ids, rels)
    ensures id in OfSchema(rels, ids, schema) <==> id in ids && rels[id].schema == schema
  {
    if ids != [] {
      OfSchemaMembers(rels, ids[1..], schema, id);
      assert ids == [ids[0]] + ids[1..];
    }
  }

  lemma OfSchemaCons(rels: seq<Relation>, x: Id, rest: seq<Id>, schema: Id)
    requires x < |rels| && AllIn(rest, rels)
    ensures OfSchema(rels, [x] + rest, schema) ==
      (if rels[x].schema == schema then [x] else []) + OfSchema(rels, rest, schema)
  {
    assert ([x] + rest)[1..] == rest;
  }

  lemma {:induction false} OfSchemaAppend(rels: seq<Relation>, a: seq<Id>, b: seq<Id>, schema: Id)
    requires AllIn(a, rels) && AllIn(b, rels)
    ensures OfSchema(rels, a + b, schema) == OfSchema(rels, a, schema) + OfSchema(rels, b, schema)
  {
    if a == [] {
      assert a + b == b;
    } else {
      var rest := a[1..];
      assert a == [a[0]] + rest && a + b == [a[0]] + (rest + b);
      hide OfSchema;
      OfSchemaCons(rels, a[0], rest + b, schema);
      OfSchemaCons(rels, a[0], rest, schema);
      OfSchemaAppend(rels, rest, b, schema);
    }
  }

  lemma InsertInFrontOf(rels: seq<Relation>, id: Id, ids: seq<Id>)
    requires id < |rels| && AllIn(ids, rels)
    requires forall j :: 0 <= j < |ids| ==> !NameLess(rels, ids[j], id)
    ensures InsertByName(rels, id, ids) == [id] + ids
  {
  }

  lemma InsertBehind(rels: seq<Relation>, id: Id, x: Id, ids: seq<Id>)
    requires id < |rels| && x < |rels| && AllIn(ids, rels) && NameLess(rels, x, id)
    ensures InsertByName(rels, id, [x] + ids) == [x] + InsertByName(rels, id, ids)
  {
    assert ([x] + ids)[1..] == ids;
  }

  lemma NoneBefore(rels: seq<Relation>, id: Id, ids: seq<Id>, schema: Id)
    requires id < |rels| && AllIn(ids, rels) && NameSorted(rels, ids)
    requires ids != [] && !NameLess(rels, ids[0], id)
    ensures var kept := OfSchema(rels, ids, schema); forall j :: 0 <= j < |kept| ==> !NameLess(rels, kept[j], id)
  {
    hide OfSchema, TextLess;
    var kept := OfSchema(rels, ids, schema);
    forall j | 0 <= j < |kept| ensures !NameLess(rels, kept[j], id) {
      OfSchemaMembers(rels, ids, schema, kept[j]);
      var k :| 0 <= k < |ids| && ids[k] == kept[j];
      if k > 0 {
        assert !NameLess(rels, ids[k], ids[0]);
        TextNotLessTransitive(rels[id].name, rels[ids[0]].name, rels[ids[k]].name);
      }
    }
  }

  lemma SortedTail(rels: seq<Relation>, ids: seq<Id>)
    requires AllIn(ids, rels) && NameSorted(rels, ids) && ids != []
    ensures NameSorted(rels, ids[1..])
  {
  }

  lemma {:induction false} InsertOfSchema(rels: seq<Relation>, id: Id, ids: seq<Id>, schema: Id)
    requires id < |rels| && AllIn(ids, rels) && NameSorted(rels, ids)
    ensures OfSchema(rels, InsertByName(rels, id, ids), schema) ==
      var kept := OfSchema(rels, ids, schema);
      if rels[id].schema == schema then InsertByName(rels, id, kept) else kept
  {
    if ids == [] {
      OfSchemaCons(rels, id, [], schema);
    } else {
      var x, rest := ids[0], ids[1..];
      assert ids == [x] + rest;
      SortedTail(rels, ids);
      hide OfSchema, InsertByName, NameSorted, NameLess;
      if NameLess(rels, x, id) {
        InsertBehind(rels, id, x, rest);
        InsertOfSchema(rels, id, rest, schema);
        OfSchemaCons(rels, x, rest, schema);
        OfSchemaCons(rels, x, InsertByName(rels, id, rest), schema);
        var kept := OfSchema(rels, rest, schema);
        InsertBehind(rels, id, x, kept);
        assert [] + kept == kept && [] + InsertByName(rels, id, kept) == InsertByName(rels, id, kept);
      } else {
        InsertFirst(rels, id, ids);
        OfSchemaCons(rels, id, ids, schema);
        NoneBefore(rels, id, ids, schema);
        InsertInFrontOf(rels, id, OfSchema(rels, ids, schema));
      }
    }
  }

  lemma InsertFirst(rels: seq<Relation>, id: Id, ids: seq<Id>)
    requires id < |rels| && AllIn(ids, rels) && ids != [] && !NameLess(rels, ids[0], id)
    ensures InsertByName(rels, id, ids) == [id] + ids
  {
  }

  /** Sorting a schema's relations is the same as picking them out of all relations sorted. */
  lemma {:induction false} SortOfSchema(rels: seq<Relation>, ids: seq<Id>, schema: Id)
    requires AllIn(ids, rels)
    ensures SortByName(rels, OfSchema(rels, ids, schema)) == OfSchema(rels, SortByName(rels, ids), schema)
  {
    if ids != [] {
      var x, rest := ids[0], ids[1..];
      assert ids == [x] + rest;
      hide OfSchema, InsertByName, NameSorted, SortByName;
      SortOfSchema(rels, rest, schema);
      SortByNameSorted(rels, rest);
      InsertOfSchema(rels, x, SortByName(rels, rest), schema);
      OfSchemaCons(rels, x, rest, schema);
      SortCons(rels, x, rest);
      SortCons(rels, x, OfSchema(rels, rest, schema));
      assert [] + OfSchema(rels, rest, schema) == OfSchema(rels, rest, schema);
    } else {
      NothingSorted(rels);
    }
  }

  lemma SortCons(rels: seq<Relation>, x: Id, rest: seq<Id>)
    requires x < |rels| && AllIn(rest, rels)
    ensures SortByName(rels, [x] + rest) == InsertByName(rels, x, SortByName(rels, rest))
  {
    assert ([x] + rest)[1..] == rest;
  }

  lemma NothingSorted(rels: seq<Relation>)
    ensures SortByName(rels, []) == []
  {
  }

  // ---- scans ------------------------------------------------------------------------------

  /** The last relation with an OID. */
  function LastWithOid(rels: seq<Relation>, oid: int): (r: Option<Id>)
    ensures r.Some? ==> r.value < |rels| && rels[r.value].oid == oid
    ensures r.None? ==> forall i :: 0 <= i < |rels| ==> rels[i].oid != oid
  {
    if rels == [] then None
    else if rels[|rels| - 1].oid == oid then Some(|rels| - 1)
    else LastWithOid(rels[..|rels| - 1], oid)
  }

  predicate HasColumn(rel: Relation, column: Id) {
    exists k :: 0 <= k < |rel.columns| && rel.columns[k].id == column
  }

  /** The last relation with a column of the id. */
  function LastOwner(rels: seq<Relation>, column: Id): (r: Option<Id>)
    ensures r.Some? ==> r.value < |rels| && HasColumn(rels[r.value], column)
    ensures r.None? ==> forall i :: 0 <= i < |rels| ==> !HasColumn(rels[i], column)
  {
    if rels == [] then None
    else if HasColumn(rels[|rels| - 1], column) then Some(|rels| - 1)
    else LastOwner(rels[..|rels| - 1], column)
  }

  /** `iter().find(|r| r.oid == oid)`. */
  function ScanOid(rels: seq<Relation>, oid: int): (r: Option<Relation>)
    ensures r.Some? ==> r.value in rels && r.value.oid == oid
    ensures r.None? ==> forall i :: 0 <= i < |rels| ==> rels[i].oid != oid
  {
    if rels == [] then None else if rels[0].oid == oid then Some(rels[0]) else ScanOid(rels[1..], oid)
  }

  // ---- the builder ------------------------------------------------------------------------

  function Push(groups: map<Id, seq<Id>>, key: Id, id: Id): map<Id, seq<Id>> {
    groups[key := (if key in groups then groups[key] else []) + [id]]
  }

  function WithOwners(owners: map<Id, Id>, cols: seq<Column>, id: Id): (r: map<Id, Id>)
    ensures forall c :: c in r <==> c in owners || exists k :: 0 <= k < |cols| && cols[k].id == c
    ensures forall c :: c in r ==> r[c] == if exists k :: 0 <= k < |cols| && cols[k].id == c then id else owners[c]
  {
    if cols == [] then owners else WithOwners(owners, cols[..|cols| - 1], id)[cols[|cols| - 1].id := id]
  }

  function WithRelation(m: SchemaModel, rel: Relation): SchemaModel {
    m.(relations := m.relations + [rel],
       sortedRelations := m.sortedRelations + [rel.id],
       relationByOid := m.relationByOid[rel.oid := rel.id],
       relationsBySchema := Push(m.relationsBySchema, rel.schema, rel.id),
       columnOwner := WithOwners(m.columnOwner, rel.columns, rel.id))
  }

  function Ids(n: nat): (ids: seq<Id>)
    ensures |ids| == n && forall i :: 0 <= i < n ==> ids[i] == i
  {
    seq(n, i => i)
  }

  ghost predicate Numbered(rels: seq<Relation>) {
    forall i :: 0 <= i < |rels| ==> rels[i].id == i
  }

  ghost predicate OidsIndexed(m: SchemaModel) {
    forall oid: int ::
      LastWithOid(m.relations, oid) == if oid in m.relationByOid then Some(m.relationByOid[oid]) else None
  }

  ghost predicate OwnersIndexed(m: SchemaModel) {
    forall c: Id :: LastOwner(m.relations, c) == OwnerOf(m, c)
  }

  ghost predicate GroupsIndexed(m: SchemaModel) {
    && GroupsIn(m.relationsBySchema, m.relations)
    && (forall s: Id :: RelationsIn(m, s) == OfSchema(m.relations, Ids(|m.relations|), s))
  }

  /** The indexes of a model whose relations are numbered by position, before they are sorted. */
  ghost predicate Indexed(m: SchemaModel) {
    && Numbered(m.relations)
    && m.sortedRelations == Ids(|m.relations|)
    && OidsIndexed(m) && OwnersIndexed(m) && GroupsIndexed(m)
  }

  lemma {:induction false} OfSchemaSamePrefix(rels: seq<Relation>, more: seq<Relation>, ids: seq<Id>, schema: Id)
    requires AllIn(ids, rels)
    ensures AllIn(ids, rels + more) && OfSchema(rels + more, ids, schema) == OfSchema(rels, ids, schema)
  {
    if ids != [] { OfSchemaSamePrefix(rels, more, ids[1..], schema); }
  }

  lemma WithRelationOids(m: SchemaModel, rel: Relation)
    requires OidsIndexed(m) && rel.id == |m.relations|
    ensures OidsIndexed(WithRelation(m, rel))
  {
    var m' := WithRelation(m, rel);
    assert m'.relations[..|m.relations|] == m.relations;
  }

  lemma WithRelationOwners(m: SchemaModel, rel: Relation)
    requires OwnersIndexed(m) && rel.id == |m.relations|
    ensures OwnersIndexed(WithRelation(m, rel))
  {
    var m' := WithRelation(m, rel);
    assert m'.relations[..|m.relations|] == m.relations;
    forall c: Id ensures LastOwner(m'.relations, c) == OwnerOf(m', c) {
      assert LastOwner(m.relations, c) == OwnerOf(m, c);
    }
  }

  lemma WithRelationGroups(m: SchemaModel, rel: Relation)
    requires GroupsIndexed(m)
    ensures
      var groups := Push(m.relationsBySchema, rel.schema, |m.relations|);
      GroupsIndexed(WithRelation(m, rel).(relationsBySchema := groups))
  {
    hide OfSchema, WithOwners;
    var n := |m.relations|;
    var m' := WithRelation(m, rel).(relationsBySchema := Push(m.relationsBySchema, rel.schema, n));
    assert Ids(n + 1) == Ids(n) + [n];
    forall s: Id ensures RelationsIn(m', s) == OfSchema(m'.relations, Ids(n + 1), s) {
      OfSchemaSamePrefix(m.relations, [rel], Ids(n), s);
      OfSchemaAppend(m'.relations, Ids(n), [n], s);
      OfSchemaOne(m'.relations, n, s);
      assert RelationsIn(m, s) == OfSchema(m.relations, Ids(n), s);
    }
    forall s: Id | s in m'.relationsBySchema ensures AllIn(m'.relationsBySchema[s], m'.relations) {
      assert s in m.relationsBySchema ==> AllIn(m.relationsBySchema[s], m.relations);
    }
  }

  /** Adding the next relation keeps the indexes right. */
  lemma WithRelationIndexed(m: SchemaModel, rel: Relation)
    requires Indexed(m) && rel.id == |m.relations|
    ensures Indexed(WithRelation(m, rel))
  {
    hide OidsIndexed, OwnersIndexed, GroupsIndexed;
    WithRelationOids(m, rel);
    WithRelationOwners(m, rel);
    WithRelationGroups(m, rel);
    assert Ids(|m.relations| + 1) == Ids(|m.relations|) + [rel.id];
  }

  lemma OfSchemaOne(rels: seq<Relation>, id: Id, s: Id)
    requires id < |rels|
    ensures OfSchema(rels, [id], s) == if rels[id].schema == s then [id] else []
  {
  }

  predicate GroupsIn(groups: map<Id, seq<Id>>, rels: seq<Relation>) {
    forall s :: s in groups ==> AllIn(groups[s], rels)
  }

  function SortGroups(rels: seq<Relation>, groups: map<Id, seq<Id>>): map<Id, seq<Id>>
    requires GroupsIn(groups, rels)
  {
    map s | s in groups :: SortByName(rels, groups[s])
  }

  /** A finished model: both kinds of lists are sorted by name. */
  function Finished(m: SchemaModel): SchemaModel
    requires AllIn(m.sortedRelations, m.relations) && GroupsIn(m.relationsBySchema, m.relations)
  {
    m.(sortedRelations := SortByName(m.relations, m.sortedRelations),
       relationsBySchema := SortGroups(m.relations, m.relationsBySchema))
  }

  class Builder {
    var model: SchemaModel

    constructor ()
      ensures model == EMPTY
    {
      model := EMPTY;
    }

    method AddSchema(schema: Schema) returns (id: Id)
      modifies this
      ensures id == schema.id
      ensures model == old(model).(schemas := old(model.schemas) + [schema],
                                   schemaByName := old(model.schemaByName)[schema.name := schema.id])
    {
      id := schema.id;
      model := model.(schemas := model.schemas + [schema]);
      model := model.(schemaByName := model.schemaByName[schema.name := id]);
    }

    method AddRelation(relation: Relation) returns (id: Id)
      modifies this
      ensures id == relation.id && model == WithRelation(old(model), relation)
      ensures old(Indexed(model)) && relation.id == |old(model.relations)| ==> Indexed(model)
    {
      hide Indexed;
      id := relation.id;
      ghost var m := model;
      model := model.(relations := model.relations + [relation]);
      model := model.(sortedRelations := model.sortedRelations + [id]);
      model := model.(relationByOid := model.relationByOid[relation.oid := id]);
      var group := if relation.schema in model.relationsBySchema then model.relationsBySchema[relation.schema] else [];
      model := model.(relationsBySchema := model.relationsBySchema[relation.schema := group + [id]]);
      ghost var before := model;
      for k := 0 to |relation.columns|
        invariant model == before.(columnOwner := WithOwners(m.columnOwner, relation.columns[..k], id))
      {
        assert relation.columns[..k + 1][..k] == relation.columns[..k];
        model := model.(columnOwner := model.columnOwner[relation.columns[k].id := id]);
      }
      assert relation.columns[..|relation.columns|] == relation.columns;
      if Indexed(m) && relation.id == |m.relations| {
        WithRelationIndexed(m, relation);
      }
    }

    method AddFunction(function_: Function) returns (id: Id)
      modifies this
      ensures id == function_.id
      ensures
        var groups := Push(old(model.functionsBySchema), function_.schema, function_.id);
        model == old(model).(functions := old(model.functions) + [function_], functionsBySchema := groups)
    {
      id := function_.id;
      model := model.(functions := model.functions + [function_]);
      model := model.(functionsBySchema := Push(model.functionsBySchema, function_.schema, id));
    }

    method AddType(id: Id, name: string)
      modifies this
      ensures model == old(model).(types := old(model.types)[id := name])
    {
      model := model.(types := model.types[id := name]);
    }

    /** Sorts the id lists. */
    method Build() returns (m: SchemaModel)
      requires AllIn(model.sortedRelations, model.relations) && GroupsIn(model.relationsBySchema, model.relations)
      ensures m == Finished(model)
    {
      var sorted := SortByName(model.relations, model.sortedRelations);
      var groups := SortEach(model.relations, model.relationsBySchema);
      m := model.(sortedRelations := sorted, relationsBySchema := groups);
    }
  }

  /** The loop over the schemas, which a hash map hands out in no particular order. */
  method SortEach(rels: seq<Relation>, groups: map<Id, seq<Id>>) returns (sorted: map<Id, seq<Id>>)
    requires GroupsIn(groups, rels)
    ensures sorted == SortGroups(rels, groups)
  {
    hide SortByName, AllIn;
    var left := groups.Keys;
    sorted := map[];
    while left != {}
      invariant left <= groups.Keys && sorted.Keys == groups.Keys - left
      invariant forall s :: s in sorted ==> AllIn(groups[s], rels) && sorted[s] == SortByName(rels, groups[s])
      decreases |left|
    {
      var s :| s in left;
      left := left - {s};
      sorted := sorted[s := SortByName(rels, groups[s])];
    }
  }

  // ---- what the finished model answers ----------------------------------------------------

  predicate OidsDistinct(rels: seq<Relation>) {
    forall i, j :: 0 <= i < j < |rels| ==> rels[i].oid != rels[j].oid
  }

  lemma {:induction false} ScanFindsOnly(rels: seq<Relation>, i: nat)
    requires i < |rels| && OidsDistinct(rels)
    ensures ScanOid(rels, rels[i].oid) == Some(rels[i])
  {
    if i > 0 {
      assert rels[0].oid != rels[i].oid;
      ScanFindsOnly(rels[1..], i - 1);
    }
  }

  /** Looking a relation up by OID is the linear scan. */
  lemma ByOidIsScan(m: SchemaModel, oid: int)
    requires Indexed(m) && OidsDistinct(m.relations)
    ensures RelationByOid(Finished(m), oid) == ScanOid(m.relations, oid)
  {
    hide OfSchema, SortByName;
    var r := LastWithOid(m.relations, oid);
    if r.Some? {
      ScanFindsOnly(m.relations, r.value);
    }
  }

  /** Looking up the owner of a column finds a relation that has it, and misses only where none has. */
  lemma OwnerIsScan(m: SchemaModel, column: Id)
    requires Indexed(m)
    requires forall i, j :: 0 <= i < j < |m.relations| ==>
      !(HasColumn(m.relations[i], column) && HasColumn(m.relations[j], column))
    ensures forall i: nat :: i < |m.relations| ==>
      (OwnerOf(Finished(m), column) == Some(i) <==> HasColumn(m.relations[i], column))
    ensures OwnerOf(Finished(m), column).None? <==>
      forall i :: 0 <= i < |m.relations| ==> !HasColumn(m.relations[i], column)
  {
    hide OfSchema, SortByName;
    var r := LastOwner(m.relations, column);
    assert OwnerOf(Finished(m), column) == r;
  }

  /** All relations are listed once, by name; the relations of a schema are those among them, in the same order. */
  lemma ListsAreSorted(m: SchemaModel, schema: Id)
    requires Indexed(m)
    ensures
      var f := Finished(m);
      && multiset(f.sortedRelations) == multiset(Ids(|m.relations|))
      && AllIn(f.sortedRelations, f.relations) && ByNameThenId(f.relations, f.sortedRelations)
      && RelationsIn(f, schema) == OfSchema(f.relations, f.sortedRelations, schema)
      && forall id: Id :: id in RelationsIn(f, schema) <==> id < |f.relations| && f.relations[id].schema == schema
  {
    hide SortByName, OfSchema, ByNameThenId;
    var f, ids := Finished(m), Ids(|m.relations|);
    SortByNamePermutes(m.relations, ids);
    SortByNameThenId(m.relations, ids);
    SortOfSchema(m.relations, ids, schema);
    if schema !in m.relationsBySchema {
      NothingSorted(m.relations);
    }
    forall id: Id ensures id in RelationsIn(f, schema) <==> id < |f.relations| && f.relations[id].schema == schema {
      OfSchemaMembers(f.relations, f.sortedRelations, schema, id);
      assert id in f.sortedRelations <==> id in multiset(ids);
      assert id < |ids| ==> ids[id] == id;
    }
  }
}
