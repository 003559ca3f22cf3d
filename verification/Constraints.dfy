/**
 Keys and foreign keys of the hydrated relations, resolved from attribute numbers to column ids;
 and the whole hydration.
 */
module Constraints {
  import opened Prelude
  import opened Relations
  import opened SchemaModels
  import opened Hydrate

  // ---- resolving attribute numbers --------------------------------------------------------

  /** `filter_map(|k| attmap.get(k))`. */
  function Mapped(attmap: map<int, Id>, attnums: seq<int>): (ids: seq<Id>)
    ensures |ids| <= |attnums|
    ensures |ids| == |attnums| <==> forall k :: 0 <= k < |attnums| ==> attnums[k] in attmap
    ensures |ids| == |attnums| ==> forall k :: 0 <= k < |ids| ==> ids[k] == attmap[attnums[k]]
  {
    if attnums == [] then []
    else
      var rest := Mapped(attmap, attnums[1..]);
      assert attnums == [attnums[0]] + attnums[1..];
      (if attnums[0] in attmap then [attmap[attnums[0]]] else []) + rest
  }

  /** All the columns, in key order, or None when one is missing or there are none. */
  function Resolved(attmap: map<int, Id>, attnums: seq<int>): (r: Option<seq<Id>>)
    ensures r.Some? <==> attnums != [] && forall k :: 0 <= k < |attnums| ==> attnums[k] in attmap
    ensures r.Some? ==> |r.value| == |attnums| > 0 && forall k :: 0 <= k < |attnums| ==>
      r.value[k] == attmap[attnums[k]]
  {
    var ids := Mapped(attmap, attnums);
    if ids == [] || |ids| != |attnums| then None else Some(ids)
  }

  // ---- primary and unique keys ------------------------------------------------------------

  function WithKey(rel: Relation, attmap: map<int, Id>, key: RawKey): Relation {
    if key.attnums.None? then rel
    else
      var ids := Resolved(attmap, key.attnums.value);
      if ids.None? then rel
      else if key.kind == 'p' then rel.(primaryKey := Some(Key(ids.value, key.name)))
      else if key.kind == 'u' then rel.(uniqueKeys := rel.uniqueKeys + [Key(ids.value, key.name)])
      else rel
  }

  function WithKeys(rel: Relation, attmap: map<int, Id>, keys: seq<RawKey>): Relation {
    if keys == [] then rel else WithKey(WithKeys(rel, attmap, keys[..|keys| - 1]), attmap, keys[|keys| - 1])
  }

  /** The keys go to the last relation with their OID. */
  function Keyed(c: Catalog, types: map<int, Id>, fallback: Id, j: nat): Relation
    requires j < |c.relations|
  {
    var oid := c.relations[j].oid;
    if LastIndex(RelationOids(c.relations), oid) == Some(j)
    then WithKeys(Bare(c, types, fallback, j), AttMap(Own(c, j), FirstId(c, j)), KeysOf(c.keys, oid))
    else Bare(c, types, fallback, j)
  }

  method AddKeys(rel: Relation, attmap: map<int, Id>, keys: seq<RawKey>) returns (r: Relation)
    ensures r == WithKeys(rel, attmap, keys)
  {
    r := rel;
    for i := 0 to |keys|
      invariant r == WithKeys(rel, attmap, keys[..i])
    {
      assert keys[..i + 1][..i] == keys[..i];
      r := WithKey(r, attmap, keys[i]);
    }
    assert keys[..|keys|] == keys;
  }

  /** Which relation the keys grouped under an OID go to. */
  function Target(c: Catalog, oid: int): Option<Id> {
    LastIndex(RelationOids(c.relations), oid)
  }

  function KeyedWhen(c: Catalog, types: map<int, Id>, fallback: Id, done: set<int>, j: nat): Relation
    requires j < |c.relations|
  {
    if c.relations[j].oid in done then Keyed(c, types, fallback, j) else Bare(c, types, fallback, j)
  }

  /** One turn of the loop over the grouped keys. */
  lemma KeyTurn(c: Catalog, types: map<int, Id>, fallback: Id, done: set<int>, oid: int, rels: seq<Relation>, j: nat)
    requires oid !in done && |rels| == |c.relations|
    requires forall i :: 0 <= i < |rels| ==> rels[i] == KeyedWhen(c, types, fallback, done, i)
    requires Target(c, oid) == Some(j)
    ensures
      var rel := WithKeys(rels[j], AttMap(Own(c, j), FirstId(c, j)), KeysOf(c.keys, oid));
      forall i :: 0 <= i < |rels| ==> rels[j := rel][i] == KeyedWhen(c, types, fallback, done + {oid}, i)
  {
    hide WithKeys, Own, FirstId, AttMap, KeysOf, LastIndex, Bare;
    assert c.relations[j].oid == oid by { assert RelationOids(c.relations)[j] == oid; }
  }

  lemma KeyTurnMissing(c: Catalog, types: map<int, Id>, fallback: Id, done: set<int>, oid: int, rels: seq<Relation>)
    requires |rels| == |c.relations|
    requires forall i :: 0 <= i < |rels| ==> rels[i] == KeyedWhen(c, types, fallback, done, i)
    requires Target(c, oid).None?
    ensures forall i :: 0 <= i < |rels| ==> rels[i] == KeyedWhen(c, types, fallback, done + {oid}, i)
  {
    hide WithKeys, Own, FirstId, AttMap, KeysOf, LastIndex, Bare;
    assert oid !in RelationOids(c.relations);
    forall i | 0 <= i < |rels| ensures c.relations[i].oid != oid {
      assert RelationOids(c.relations)[i] == c.relations[i].oid;
    }
  }

  /** One turn: the keys of a group go to the relation with its OID, if there is one. */
  method ApplyGroup(
    c: Catalog, types: map<int, Id>, fallback: Id, rels: seq<Relation>, ghost done: set<int>, oid: int,
    keys: seq<RawKey>, relByOid: map<int, Id>, attnums: map<int, map<int, Id>>
  ) returns (rels': seq<Relation>)
    requires |rels| == |c.relations| && oid !in done && keys == KeysOf(c.keys, oid)
    requires forall j :: 0 <= j < |rels| ==> rels[j] == KeyedWhen(c, types, fallback, done, j)
    requires relByOid.Keys == attnums.Keys && LooksLike(c, |c.relations|, relByOid, attnums)
    ensures |rels'| == |rels| && forall j :: 0 <= j < |rels| ==>
      rels'[j] == KeyedWhen(c, types, fallback, done + {oid}, j)
  {
    hide WithKeys, KeyedWhen, LooksLike, KeysOf, AttMap, Own, LastIndex;
    rels' := rels;
    Lookup(c, relByOid, attnums, oid);
    if oid in relByOid && oid in attnums {
      var j := relByOid[oid];
      KeyTurn(c, types, fallback, done, oid, rels, j);
      var rel := AddKeys(rels[j], attnums[oid], keys);
      rels' := rels[j := rel];
    } else {
      KeyTurnMissing(c, types, fallback, done, oid, rels);
    }
  }

  /** The loop over the grouped keys, which a hash map hands out in no particular order. */
  method ApplyKeys(
    c: Catalog, types: map<int, Id>, fallback: Id, bare: seq<Relation>, groups: map<int, seq<RawKey>>,
    relByOid: map<int, Id>, attnums: map<int, map<int, Id>>
  ) returns (rels: seq<Relation>)
    requires |bare| == |c.relations| && forall j :: 0 <= j < |bare| ==> bare[j] == Bare(c, types, fallback, j)
    requires forall oid :: GroupOf(groups, oid) == KeysOf(c.keys, oid)
    requires relByOid.Keys == attnums.Keys && LooksLike(c, |c.relations|, relByOid, attnums)
    ensures |rels| == |bare| && forall j :: 0 <= j < |rels| ==> rels[j] == Keyed(c, types, fallback, j)
  {
    hide WithKeys, Bare, Keyed, KeyedWhen, LooksLike, KeysOf, GroupOf, AttMap, Own, LastIndex;
    rels := bare;
    var left := groups.Keys;
    ghost var done: set<int> := {};
    NoKeysYet(c, types, fallback, bare);
    while left != {}
      invariant done + left == groups.Keys && done !! left && |rels| == |c.relations|
      invariant forall j :: 0 <= j < |rels| ==> rels[j] == KeyedWhen(c, types, fallback, done, j)
      decreases |left|
    {
      HasMember(left);
      var oid :| oid in left;
      assert GroupOf(groups, oid) == KeysOf(c.keys, oid);
      GroupIn(groups, oid);
      rels := ApplyGroup(c, types, fallback, rels, done, oid, groups[oid], relByOid, attnums);
      left, done := left - {oid}, done + {oid};
    }
    assert done == groups.Keys;
    forall j | 0 <= j < |rels| ensures rels[j] == Keyed(c, types, fallback, j) {
      AllKeyed(c, types, fallback, groups, j);
    }
  }

  lemma HasMember(s: set<int>)
    ensures s == {} || exists x :: x in s
  {
    if !exists x :: x in s {
      assert s == {};
    }
  }

  lemma GroupIn(groups: map<int, seq<RawKey>>, oid: int)
    requires oid in groups
    ensures GroupOf(groups, oid) == groups[oid]
  {
  }

  lemma NoKeysYet(c: Catalog, types: map<int, Id>, fallback: Id, bare: seq<Relation>)
    requires |bare| == |c.relations| && forall j :: 0 <= j < |bare| ==> bare[j] == Bare(c, types, fallback, j)
    ensures forall j :: 0 <= j < |bare| ==> bare[j] == KeyedWhen(c, types, fallback, {}, j)
  {
    hide Bare, Keyed;
  }

  lemma Lookup(c: Catalog, relByOid: map<int, Id>, attnums: map<int, map<int, Id>>, oid: int)
    requires relByOid.Keys == attnums.Keys && LooksLike(c, |c.relations|, relByOid, attnums)
    ensures oid in relByOid <==> Target(c, oid).Some?
    ensures oid in relByOid ==>
      var j := relByOid[oid];
      Target(c, oid) == Some(j) && j < |c.relations| && attnums[oid] == AttMap(Own(c, j), FirstId(c, j))
  {
    hide AttMap, Own, FirstId, LastIndex;
    var oids := RelationOids(c.relations);
    assert oids[..|c.relations|] == oids;
    assert Look(relByOid, attnums, oid) == Find(c, |c.relations|, oid);
    if oid in relByOid { assert oid in attnums; }
  }

  /** A relation without a group has no keys. */
  lemma AllKeyed(c: Catalog, types: map<int, Id>, fallback: Id, groups: map<int, seq<RawKey>>, j: nat)
    requires j < |c.relations|
    requires forall oid :: GroupOf(groups, oid) == KeysOf(c.keys, oid)
    ensures KeyedWhen(c, types, fallback, groups.Keys, j) == Keyed(c, types, fallback, j)
  {
    hide Bare, AttMap, Own, FirstId, KeysOf, LastIndex;
    var oid := c.relations[j].oid;
    assert GroupOf(groups, oid) == KeysOf(c.keys, oid);
    assert oid !in groups ==> KeysOf(c.keys, oid) == [];
    assert WithKeys(Bare(c, types, fallback, j), AttMap(Own(c, j), FirstId(c, j)), []) == Bare(c, types, fallback, j);
  }

  // ---- foreign keys -----------------------------------------------------------------------

  /** An accepted foreign key, with the relations on both sides. */
  datatype Link = Link(name: string, src: Id, dst: Id, referencing: seq<Id>, referenced: seq<Id>)

  /** A foreign key whose relations and columns all resolve. */
  function Accept(c: Catalog, fk: RawFk): Option<Link> {
    if fk.attnums.None? || fk.refAttnums.None? then None
    else
      var (src, srcMap) :- Find(c, |c.relations|, fk.rel);
      var (dst, dstMap) :- Find(c, |c.relations|, fk.refRel);
      var referencing :- Resolved(srcMap, fk.attnums.value);
      var referenced :- Resolved(dstMap, fk.refAttnums.value);
      Some(Link(fk.name, src, dst, referencing, referenced))
  }

  function Links(c: Catalog, fks: seq<RawFk>): seq<Link> {
    if fks == [] then []
    else
      var link := Accept(c, fks[|fks| - 1]);
      Links(c, fks[..|fks| - 1]) + if link.Some? then [link.value] else []
  }

  function OutKey(link: Link): ForeignKey {
    ForeignKey(link.name, link.referencing, link.dst, link.referenced)
  }

  function InKey(link: Link): ForeignKey {
    ForeignKey(link.name, link.referenced, link.src, link.referencing)
  }

  /** The outgoing keys of relation `j`, in input order. */
  function Outs(links: seq<Link>, j: nat): seq<ForeignKey> {
    if links == [] then []
    else
      var last := links[|links| - 1];
      Outs(links[..|links| - 1], j) + if last.src == j then [OutKey(last)] else []
  }

  /** The incoming keys of relation `j`, in input order. */
  function Ins(links: seq<Link>, j: nat): seq<ForeignKey> {
    if links == [] then []
    else
      var last := links[|links| - 1];
      Ins(links[..|links| - 1], j) + if last.dst == j then [InKey(last)] else []
  }

  function Linked(rel: Relation, links: seq<Link>, j: nat): Relation {
    rel.(foreignKeysOut := Outs(links, j), foreignKeysIn := Ins(links, j))
  }

  function WithLink(rel: Relation, link: Link, j: nat): Relation {
    rel.(foreignKeysOut := rel.foreignKeysOut + (if link.src == j then [OutKey(link)] else []),
         foreignKeysIn := rel.foreignKeysIn + (if link.dst == j then [InKey(link)] else []))
  }

  /** One foreign key pushed on both sides; a relation may refer to itself. */
  method PushLink(rels: seq<Relation>, link: Link) returns (rels': seq<Relation>)
    requires link.src < |rels| && link.dst < |rels|
    ensures |rels'| == |rels|
    ensures forall j :: 0 <= j < |rels| ==> rels'[j] == WithLink(rels[j], link, j)
  {
    var out := rels[link.src].(foreignKeysOut := rels[link.src].foreignKeysOut + [OutKey(link)]);
    rels' := rels[link.src := out];
    var inn := rels'[link.dst].(foreignKeysIn := rels'[link.dst].foreignKeysIn + [InKey(link)]);
    rels' := rels'[link.dst := inn];
  }

  lemma LinkSides(c: Catalog, fk: RawFk)
    requires Accept(c, fk).Some?
    ensures Accept(c, fk).value.src < |c.relations| && Accept(c, fk).value.dst < |c.relations|
  {
  }

  /** What one constraint comes to, computed from the maps as the loop does. */
  method ResolveFk(
    c: Catalog, fk: RawFk, relByOid: map<int, Id>, attnums: map<int, map<int, Id>>
  ) returns (link: Option<Link>)
    requires relByOid.Keys == attnums.Keys && LooksLike(c, |c.relations|, relByOid, attnums)
    ensures link == Accept(c, fk)
  {
    assert Look(relByOid, attnums, fk.rel) == Find(c, |c.relations|, fk.rel);
    assert Look(relByOid, attnums, fk.refRel) == Find(c, |c.relations|, fk.refRel);
    hide Find, LooksLike, Resolved;
    if fk.attnums.None? || fk.refAttnums.None? { return None; }
    if fk.rel !in relByOid { return None; }
    if fk.refRel !in relByOid { return None; }
    if fk.rel !in attnums { return None; }
    if fk.refRel !in attnums { return None; }
    var referencing := Resolved(attnums[fk.rel], fk.attnums.value);
    var referenced := Resolved(attnums[fk.refRel], fk.refAttnums.value);
    if referencing.None? || referenced.None? { return None; }
    return Some(Link(fk.name, relByOid[fk.rel], relByOid[fk.refRel], referencing.value, referenced.value));
  }

  method ApplyFks(c: Catalog, keyed: seq<Relation>, relByOid: map<int, Id>, attnums: map<int, map<int, Id>>)
    returns (rels: seq<Relation>)
    requires |keyed| == |c.relations|
    requires forall j :: 0 <= j < |keyed| ==> keyed[j].foreignKeysOut == [] && keyed[j].foreignKeysIn == []
    requires relByOid.Keys == attnums.Keys && LooksLike(c, |c.relations|, relByOid, attnums)
    ensures |rels| == |keyed| && forall j :: 0 <= j < |rels| ==> rels[j] == Linked(keyed[j], Links(c, c.fks), j)
  {
    hide LooksLike, Accept;
    rels := keyed;
    for i := 0 to |c.fks|
      invariant |rels| == |keyed| && forall j :: 0 <= j < |rels| ==>
        rels[j] == Linked(keyed[j], Links(c, c.fks[..i]), j)
    {
      var link := ResolveFk(c, c.fks[i], relByOid, attnums);
      LinksStep(c, i);
      if link.Some? {
        LinkSides(c, c.fks[i]);
        var before := rels;
        rels := PushLink(rels, link.value);
        forall j | 0 <= j < |rels| ensures rels[j] == Linked(keyed[j], Links(c, c.fks[..i + 1]), j) {
          LinkedStep(keyed[j], Links(c, c.fks[..i]), link.value, j);
        }
      } else {
        assert Links(c, c.fks[..i + 1]) == Links(c, c.fks[..i]);
      }
    }
    assert c.fks[..|c.fks|] == c.fks;
  }

  lemma LinksStep(c: Catalog, i: nat)
    requires i < |c.fks|
    ensures
      var link := Accept(c, c.fks[i]);
      Links(c, c.fks[..i + 1]) == Links(c, c.fks[..i]) + if link.Some? then [link.value] else []
  {
    assert c.fks[..i + 1][..i] == c.fks[..i];
  }

  lemma LinkedStep(rel: Relation, links: seq<Link>, link: Link, j: nat)
    ensures Outs(links + [link], j) == Outs(links, j) + if link.src == j then [OutKey(link)] else []
    ensures Ins(links + [link], j) == Ins(links, j) + if link.dst == j then [InKey(link)] else []
  {
    assert (links + [link])[..|links|] == links;
  }

  // ---- the whole hydration ----------------------------------------------------------------

  datatype HydrateError = NoSchemas

  function Hydrated(c: Catalog, types: map<int, Id>, fallback: Id): (rels: seq<Relation>)
    ensures |rels| == |c.relations|
    ensures forall j :: 0 <= j < |rels| ==> rels[j] == Linked(Keyed(c, types, fallback, j), Links(c, c.fks), j)
  {
    seq(|c.relations|, j requires 0 <= j < |c.relations| => Linked(Keyed(c, types, fallback, j), Links(c, c.fks), j))
  }

  ghost predicate SchemasAre(c: Catalog, schemas: seq<Schema>) {
    |schemas| == |c.schemas| && forall i :: 0 <= i < |c.schemas| ==> schemas[i] == Schema(i, c.schemas[i].name)
  }

  /** The model is what the builder makes of the catalog's schemas, types, relations and functions. */
  ghost predicate ModelOf(c: Catalog, types: map<int, Id>, fallback: Id, model: SchemaModel) {
    && TypesAre(c.columns, types, model.types)
    && FunctionsAre(c, fallback, |c.functions|, model)
    && SchemasAre(c, model.schemas) && SchemasNamed(model.schemas, model.schemaByName)
    && exists m :: Indexed(m) && m.relations == Hydrated(c, types, fallback) && model == Finished(m)
  }

  method BuildFull(c: Catalog) returns (r: Result<SchemaModel, HydrateError>, types: map<int, Id>, fallback: Id)
    ensures r.Err? <==> c.schemas == []
    ensures r.Ok? ==> fallback < |c.schemas| && ModelOf(c, types, fallback, r.value)
    ensures r.Ok? ==> forall i :: 0 <= i < |c.columns| ==> c.columns[i].tyOid in types
    ensures r.Ok? ==>
      exists i :: 0 <= i < |c.schemas| && LastIndex(SchemaOids(c.schemas), c.schemas[i].oid) == Some(fallback)
  {
    hide Hydrated, Keyed, Bare, Linked, LooksLike, KeysOf, ColumnsOf, Links, Indexed, GroupOf, TypesAre, FunctionsAre;
    hide SchemasNamed;
    types, fallback := map[], 0;
    if c.schemas == [] {
      return Err(NoSchemas), types, fallback;
    }
    var b := new Builder();
    var schemaByOid := BuildSchemas(c.schemas, b);
    assert LastIndex(SchemaOids(c.schemas), c.schemas[0].oid).Some?;
    assert c.schemas[0].oid in schemaByOid;
    var oid :| oid in schemaByOid;
    fallback := schemaByOid[oid];
    types := BuildTypes(c.columns, b);
    var colsByRel := GroupColumns(c.columns);
    var keysByRel := GroupKeys(c.keys);
    var bare, relByOid, attnums := BuildRelations(c, colsByRel, schemaByOid, types, fallback);
    var keyed := ApplyKeys(c, types, fallback, bare, keysByRel, relByOid, attnums);
    forall j | 0 <= j < |keyed|
      ensures keyed[j].foreignKeysOut == [] && keyed[j].foreignKeysIn == [] && keyed[j].id == j
    {
      KeyedHasNoLinks(c, types, fallback, j);
    }
    var rels := ApplyFks(c, keyed, relByOid, attnums);
    forall j | 0 <= j < |rels| ensures rels[j].id == j {
      LinkedId(keyed[j], Links(c, c.fks), j);
    }
    AddRelations(rels, b);
    assert rels == Hydrated(c, types, fallback);
    ghost var linked := b.model;
    BuildFunctions(c, schemaByOid, fallback, b);
    StillIndexed(linked, b.model);
    IndexedSorts(b.model);
    var model := b.Build();
    SameFunctions(c, fallback, |c.functions|, b.model, model);
    return Ok(model), types, fallback;
  }

  /** The loop that adds the relations in order. */
  method AddRelations(rels: seq<Relation>, b: Builder)
    requires b.model == EMPTY.(schemas := b.model.schemas, schemaByName := b.model.schemaByName, types := b.model.types)
    requires forall j :: 0 <= j < |rels| ==> rels[j].id == j
    modifies b
    ensures Indexed(b.model) && b.model.relations == rels
    ensures b.model.schemas == old(b.model.schemas) && b.model.types == old(b.model.types)
    ensures b.model.schemaByName == old(b.model.schemaByName)
    ensures b.model.functions == [] && b.model.functionsBySchema == map[]
  {
    hide Indexed;
    IndexedEmpty(b.model);
    for j := 0 to |rels|
      invariant Indexed(b.model) && b.model.relations == rels[..j]
      invariant b.model.schemas == old(b.model.schemas) && b.model.types == old(b.model.types)
      invariant b.model.schemaByName == old(b.model.schemaByName)
      invariant b.model.functions == [] && b.model.functionsBySchema == map[]
    {
      var _ := b.AddRelation(rels[j]);
    }
    assert rels[..|rels|] == rels;
  }

  lemma LinkedId(rel: Relation, links: seq<Link>, j: nat)
    ensures Linked(rel, links, j).id == rel.id
  {
  }

  lemma StillIndexed(m: SchemaModel, m': SchemaModel)
    requires Indexed(m) && m' == m.(functions := m'.functions, functionsBySchema := m'.functionsBySchema)
    ensures Indexed(m')
  {
    hide OfSchema, LastWithOid, LastOwner;
  }

  lemma IndexedSorts(m: SchemaModel)
    requires Indexed(m)
    ensures AllIn(m.sortedRelations, m.relations) && GroupsIn(m.relationsBySchema, m.relations)
  {
  }

  lemma IndexedEmpty(m: SchemaModel)
    requires m == EMPTY.(schemas := m.schemas, schemaByName := m.schemaByName, types := m.types)
    ensures Indexed(m) && m.relations == []
  {
    assert Ids(0) == [];
  }

  lemma {:induction false} WithKeysKeeps(rel: Relation, attmap: map<int, Id>, keys: seq<RawKey>)
    ensures
      var r := WithKeys(rel, attmap, keys);
      r == rel.(primaryKey := r.primaryKey, uniqueKeys := r.uniqueKeys)
  {
    if keys != [] { WithKeysKeeps(rel, attmap, keys[..|keys| - 1]); }
  }

  lemma KeyedHasNoLinks(c: Catalog, types: map<int, Id>, fallback: Id, j: nat)
    requires j < |c.relations|
    ensures
      var rel := Keyed(c, types, fallback, j);
      && rel == Bare(c, types, fallback, j).(primaryKey := rel.primaryKey, uniqueKeys := rel.uniqueKeys)
      && rel.foreignKeysOut == [] && rel.foreignKeysIn == [] && rel.id == j
  {
    hide WithKeys;
    WithKeysKeeps(Bare(c, types, fallback, j), AttMap(Own(c, j), FirstId(c, j)), KeysOf(c.keys, c.relations[j].oid));
  }
}
