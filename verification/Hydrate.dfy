/**
 Hydration: catalog rows grouped, numbered and linked into the relations of a schema model.
 Each step is a loop over one catalog query's rows; what it computes is stated over the catalog.
 */
module Hydrate {
  import opened Prelude
  import opened Relations
  import opened SchemaModels

  datatype RawSchema = RawSchema(oid: int, name: string)

  datatype RawRelation = RawRelation(oid: int, schemaOid: int, name: string, kind: char)

  datatype RawColumn = RawColumn(
    rel: int,
    attnum: int,
    name: string,
    tyOid: int,
    tyName: string,
    notNull: bool,
    defaultExpr: Option<string>,
    generated: string,
    identity: string)

  datatype RawKey = RawKey(rel: int, name: string, kind: char, attnums: Option<seq<int>>)

  datatype RawFk = RawFk(name: string, rel: int, refRel: int, attnums: Option<seq<int>>, refAttnums: Option<seq<int>>)

  datatype RawFunction = RawFunction(schemaOid: int, name: string)

  datatype Catalog = Catalog(
    schemas: seq<RawSchema>,
    relations: seq<RawRelation>,
    columns: seq<RawColumn>,
    keys: seq<RawKey>,
    fks: seq<RawFk>,
    functions: seq<RawFunction>)

  // ---- OIDs and groups --------------------------------------------------------------------

  /** The last place an OID stands at: the one a map filled in order ends up with. */
  function LastIndex(oids: seq<int>, oid: int): (r: Option<nat>)
    ensures r.Some? ==> r.value < |oids| && oids[r.value] == oid && forall j :: r.value < j < |oids| ==> oids[j] != oid
    ensures r.None? ==> oid !in oids
  {
    if oids == [] then None
    else if oids[|oids| - 1] == oid then Some(|oids| - 1)
    else LastIndex(oids[..|oids| - 1], oid)
  }

  function SchemaOids(raws: seq<RawSchema>): (oids: seq<int>)
    ensures |oids| == |raws| && forall i :: 0 <= i < |raws| ==> oids[i] == raws[i].oid
  {
    seq(|raws|, i requires 0 <= i < |raws| => raws[i].oid)
  }

  function RelationOids(raws: seq<RawRelation>): (oids: seq<int>)
    ensures |oids| == |raws| && forall i :: 0 <= i < |raws| ==> oids[i] == raws[i].oid
  {
    seq(|raws|, i requires 0 <= i < |raws| => raws[i].oid)
  }

  /** The columns of one relation, in catalog order. */
  function ColumnsOf(raws: seq<RawColumn>, rel: int): seq<RawColumn> {
    if raws == [] then []
    else
      var last := raws[|raws| - 1];
      ColumnsOf(raws[..|raws| - 1], rel) + if last.rel == rel then [last] else []
  }

  /** The keys of one relation that name columns at all. */
  function KeysOf(raws: seq<RawKey>, rel: int): seq<RawKey> {
    if raws == [] then []
    else
      var last := raws[|raws| - 1];
      KeysOf(raws[..|raws| - 1], rel) + if last.rel == rel && last.attnums.Some? then [last] else []
  }

  ghost function ColumnHas(rel: int): RawColumn -> bool { (r: RawColumn) => r.rel == rel }

  ghost function KeyHas(rel: int): RawKey -> bool { (r: RawKey) => r.rel == rel && r.attnums.Some? }

  /** A relation's columns are all of the catalog's with its OID, in the catalog's order. */
  lemma {:induction false} ColumnsArePicked(raws: seq<RawColumn>, rel: int)
    ensures Picked(raws, ColumnHas(rel), ColumnsOf(raws, rel))
  {
    var keep := ColumnHas(rel);
    if raws == [] {
      NothingPicked(keep);
    } else {
      ColumnsArePicked(raws[..|raws| - 1], rel);
      PickedStep(raws, keep, ColumnsOf(raws[..|raws| - 1], rel));
    }
  }

  /** And so are its keys, of those that name columns. */
  lemma {:induction false} KeysArePicked(raws: seq<RawKey>, rel: int)
    ensures Picked(raws, KeyHas(rel), KeysOf(raws, rel))
  {
    var keep := KeyHas(rel);
    if raws == [] {
      NothingPicked(keep);
    } else {
      KeysArePicked(raws[..|raws| - 1], rel);
      PickedStep(raws, keep, KeysOf(raws[..|raws| - 1], rel));
    }
  }

  function GroupOf<T>(groups: map<int, seq<T>>, k: int): seq<T> {
    if k in groups then groups[k] else []
  }

  method GroupColumns(raws: seq<RawColumn>) returns (groups: map<int, seq<RawColumn>>)
    ensures forall rel :: GroupOf(groups, rel) == ColumnsOf(raws, rel)
  {
    groups := map[];
    for i := 0 to |raws|
      invariant forall rel :: GroupOf(groups, rel) == ColumnsOf(raws[..i], rel)
    {
      assert raws[..i + 1][..i] == raws[..i];
      groups := groups[raws[i].rel := GroupOf(groups, raws[i].rel) + [raws[i]]];
    }
    assert raws[..|raws|] == raws;
  }

  method GroupKeys(raws: seq<RawKey>) returns (groups: map<int, seq<RawKey>>)
    ensures forall rel :: GroupOf(groups, rel) == KeysOf(raws, rel)
  {
    groups := map[];
    for i := 0 to |raws|
      invariant forall rel :: GroupOf(groups, rel) == KeysOf(raws[..i], rel)
    {
      assert raws[..i + 1][..i] == raws[..i];
      if raws[i].attnums.Some? {
        groups := groups[raws[i].rel := GroupOf(groups, raws[i].rel) + [raws[i]]];
      }
    }
    assert raws[..|raws|] == raws;
  }

  // ---- columns ----------------------------------------------------------------------------

  function InsertByAttnum(r: RawColumn, rs: seq<RawColumn>): (s: seq<RawColumn>)
    ensures |s| == |rs| + 1
  {
    if rs == [] || r.attnum <= rs[0].attnum then [r] + rs else [rs[0]] + InsertByAttnum(r, rs[1..])
  }

  /** `sort_by_key` attnum. */
  function SortByAttnum(rs: seq<RawColumn>): (s: seq<RawColumn>)
    ensures |s| == |rs|
  {
    if rs == [] then [] else InsertByAttnum(rs[0], SortByAttnum(rs[1..]))
  }

  predicate AttnumSorted(rs: seq<RawColumn>) {
    forall i, j :: 0 <= i < j < |rs| ==> rs[i].attnum <= rs[j].attnum
  }

  lemma {:induction false} InsertByAttnumSorted(r: RawColumn, rs: seq<RawColumn>)
    requires AttnumSorted(rs)
    ensures AttnumSorted(InsertByAttnum(r, rs))
    ensures forall x :: x in InsertByAttnum(r, rs) <==> x == r || x in rs
  {
    if rs != [] && !(r.attnum <= rs[0].attnum) {
      InsertByAttnumSorted(r, rs[1..]);
      var rest := InsertByAttnum(r, rs[1..]);
      assert rs == [rs[0]] + rs[1..];
      assert forall j :: 0 <= j < |rest| ==> rest[j] in rest;
    }
  }

  lemma {:induction false} InsertByAttnumPermutes(r: RawColumn, rs: seq<RawColumn>)
    ensures multiset(InsertByAttnum(r, rs)) == multiset(rs) + multiset{r}
  {
    if rs != [] && !(r.attnum <= rs[0].attnum) {
      InsertByAttnumPermutes(r, rs[1..]);
      assert rs == [rs[0]] + rs[1..];
    }
  }

  lemma {:induction false} SortByAttnumSorted(rs: seq<RawColumn>)
    ensures AttnumSorted(SortByAttnum(rs))
    ensures multiset(SortByAttnum(rs)) == multiset(rs)
  {
    if rs != [] {
      SortByAttnumSorted(rs[1..]);
      InsertByAttnumSorted(rs[0], SortByAttnum(rs[1..]));
      InsertByAttnumPermutes(rs[0], SortByAttnum(rs[1..]));
      assert rs == [rs[0]] + rs[1..];
    }
  }

  function SourceOf(generated: string, identity: string): ValueSource {
    if generated == "s" then Generated
    else if identity == "a" || identity == "d" then Identity
    else Stored
  }

  /** `attnum as u16`. */
  function Position(attnum: int): int {
    attnum % 0x1_0000
  }

  function MakeColumn(r: RawColumn, owner: Id, id: Id, types: map<int, Id>): Column {
    Column(id, owner, r.name, Position(r.attnum), if r.tyOid in types then types[r.tyOid] else 0,
           r.notNull, r.defaultExpr, SourceOf(r.generated, r.identity))
  }

  function MakeColumns(rs: seq<RawColumn>, owner: Id, first: Id, types: map<int, Id>): (cols: seq<Column>)
    ensures |cols| == |rs| && forall k :: 0 <= k < |rs| ==> cols[k] == MakeColumn(rs[k], owner, first + k, types)
  {
    seq(|rs|, k requires 0 <= k < |rs| => MakeColumn(rs[k], owner, first + k, types))
  }

  /** From attribute number to column id; of two columns with one number the later wins. */
  function AttMap(rs: seq<RawColumn>, first: Id): map<int, Id> {
    if rs == [] then map[] else AttMap(rs[..|rs| - 1], first)[rs[|rs| - 1].attnum := first + |rs| - 1]
  }

  ghost predicate IsColumnAt(rs: seq<RawColumn>, k: int, attnum: int) {
    0 <= k < |rs| && rs[k].attnum == attnum
  }

  /** The last column with the number. */
  ghost predicate IsLastColumnAt(rs: seq<RawColumn>, k: int, attnum: int) {
    IsColumnAt(rs, k, attnum) && forall i :: k < i < |rs| ==> rs[i].attnum != attnum
  }

  /** The numbers that map are those of the columns, each to the last column that has it. */
  lemma {:induction false} AttMapIs(rs: seq<RawColumn>, first: Id, attnum: int)
    ensures attnum in AttMap(rs, first) <==> exists k :: IsColumnAt(rs, k, attnum)
    ensures attnum in AttMap(rs, first) ==> IsLastColumnAt(rs, AttMap(rs, first)[attnum] - first, attnum)
  {
    if rs != [] {
      var n := |rs| - 1;
      AttMapIs(rs[..n], first, attnum);
      assert forall k :: IsColumnAt(rs[..n], k, attnum) <==> IsColumnAt(rs, k, attnum) && k != n;
      assert IsColumnAt(rs, n, attnum) <==> rs[n].attnum == attnum;
    }
  }

  /** A column as the catalog's row has it: the position is the attribute number in 16 bits. */
  ghost predicate ColumnFrom(col: Column, raw: RawColumn, owner: Id, types: map<int, Id>) {
    && col.owner == owner && col.name == raw.name && col.notNull == raw.notNull && col.defaultExpr == raw.defaultExpr
    && (raw.tyOid in types ==> col.ty == types[raw.tyOid])
    && 0 <= col.position < 0x1_0000 && (0 <= raw.attnum < 0x1_0000 ==> col.position == raw.attnum)
    && (col.source == Generated <==> raw.generated == "s")
    && (col.source == Identity <==> raw.generated != "s" && raw.identity in {"a", "d"})
    && (col.source == Stored <==> raw.generated != "s" && raw.identity !in {"a", "d"})
  }

  lemma ColumnsAreFrom(rs: seq<RawColumn>, owner: Id, first: Id, types: map<int, Id>)
    ensures
      var cols := MakeColumns(rs, owner, first, types);
      forall k :: 0 <= k < |rs| ==> cols[k].id == first + k && ColumnFrom(cols[k], rs[k], owner, types)
  {
  }

  method BuildColumns(rs: seq<RawColumn>, owner: Id, first: Id, types: map<int, Id>)
    returns (cols: seq<Column>, attmap: map<int, Id>, next: Id)
    ensures cols == MakeColumns(rs, owner, first, types)
    ensures attmap == AttMap(rs, first)
    ensures next == first + |rs|
  {
    hide MakeColumn;
    cols, attmap, next := [], map[], first;
    for k := 0 to |rs|
      invariant cols == MakeColumns(rs, owner, first, types)[..k]
      invariant attmap == AttMap(rs[..k], first)
      invariant next == first + k
    {
      assert rs[..k + 1][..k] == rs[..k];
      var id := next;
      next := next + 1;
      attmap := attmap[rs[k].attnum := id];
      cols := cols + [MakeColumn(rs[k], owner, id, types)];
    }
    assert rs[..|rs|] == rs;
  }

  // ---- schemas and types ------------------------------------------------------------------

  lemma NamedStep(schemas: seq<Schema>, byName: map<string, Id>, name: string)
    requires SchemasNamed(schemas, byName)
    ensures SchemasNamed(schemas + [Schema(|schemas|, name)], byName[name := |schemas|])
  {
  }

  lemma OidStep(oids: seq<int>, i: nat)
    requires i < |oids|
    ensures forall oid ::
      LastIndex(oids[..i + 1], oid) == if oid == oids[i] then Some(i) else LastIndex(oids[..i], oid)
  {
    var longer := oids[..i + 1];
    assert longer[..i] == oids[..i] && longer[i] == oids[i];
    forall oid ensures LastIndex(longer, oid) == if oid == oids[i] then Some(i) else LastIndex(longer[..i], oid) {
    }
  }

  lemma NoneLast()
    ensures forall oid :: LastIndex([], oid) == None
  {
  }

  method BuildSchemas(raws: seq<RawSchema>, b: Builder) returns (byOid: map<int, Id>)
    requires b.model == EMPTY
    modifies b
    ensures |b.model.schemas| == |raws| && forall i :: 0 <= i < |raws| ==> b.model.schemas[i] == Schema(i, raws[i].name)
    ensures b.model == EMPTY.(schemas := b.model.schemas, schemaByName := b.model.schemaByName)
    ensures SchemasNamed(b.model.schemas, b.model.schemaByName)
    ensures forall oid :: LastIndex(SchemaOids(raws), oid) == if oid in byOid then Some(byOid[oid]) else None
  {
    byOid := map[];
    assert SchemasNamed([], map[]);
    hide SchemasNamed, LastIndex;
    NoneLast();
    assert SchemaOids(raws)[..0] == [];
    for i := 0 to |raws|
      invariant |b.model.schemas| == i && forall j :: 0 <= j < i ==> b.model.schemas[j] == Schema(j, raws[j].name)
      invariant b.model == EMPTY.(schemas := b.model.schemas, schemaByName := b.model.schemaByName)
      invariant SchemasNamed(b.model.schemas, b.model.schemaByName)
      invariant forall oid :: LastIndex(SchemaOids(raws)[..i], oid) == if oid in byOid then Some(byOid[oid]) else None
    {
      OidStep(SchemaOids(raws), i);
      byOid := byOid[raws[i].oid := i];
      NamedStep(b.model.schemas, b.model.schemaByName, raws[i].name);
      var _ := b.AddSchema(Schema(i, raws[i].name));
    }
    assert SchemaOids(raws)[..|raws|] == SchemaOids(raws);
  }

  ghost predicate HasType(raws: seq<RawColumn>, oid: int) {
    exists i :: 0 <= i < |raws| && raws[i].tyOid == oid
  }

  /** The first column of each type OID, in order. */
  ghost function FirstOfTypes(raws: seq<RawColumn>): seq<RawColumn> {
    if raws == [] then []
    else
      var firsts, last := FirstOfTypes(raws[..|raws| - 1]), raws[|raws| - 1];
      if HasType(firsts, last.tyOid) then firsts else firsts + [last]
  }

  /** Type ids count the type OIDs in order of appearance; each is named as where it appeared first. */
  ghost predicate TypesAre(raws: seq<RawColumn>, types: map<int, Id>, names: map<Id, string>) {
    var firsts := FirstOfTypes(raws);
    && (forall i :: 0 <= i < |firsts| ==> firsts[i].tyOid in types && types[firsts[i].tyOid] == i)
    && (forall oid :: oid in types <==> HasType(firsts, oid))
    && (forall id: Id :: id in names <==> id < |firsts|)
    && (forall i: Id :: i < |firsts| ==> names[i] == firsts[i].tyName)
  }

  lemma {:induction false} FirstsHaveAll(raws: seq<RawColumn>, oid: int)
    ensures HasType(FirstOfTypes(raws), oid) <==> HasType(raws, oid)
  {
    if raws != [] {
      var n := |raws| - 1;
      var before := FirstOfTypes(raws[..n]);
      FirstsHaveAll(raws[..n], oid);
      HasTypeStep(raws[..n], raws[n], oid);
      HasTypeStep(before, raws[n], oid);
      assert raws == raws[..n] + [raws[n]];
    }
  }

  lemma HasTypeStep(raws: seq<RawColumn>, last: RawColumn, oid: int)
    ensures HasType(raws + [last], oid) <==> HasType(raws, oid) || last.tyOid == oid
  {
    if HasType(raws, oid) {
      var i :| 0 <= i < |raws| && raws[i].tyOid == oid;
      assert (raws + [last])[i].tyOid == oid;
    }
    assert (raws + [last])[|raws|] == last;
  }

  lemma TypesStep(raws: seq<RawColumn>, i: nat, types: map<int, Id>, names: map<Id, string>)
    requires i < |raws| && TypesAre(raws[..i], types, names)
    ensures raws[i].tyOid in types ==> TypesAre(raws[..i + 1], types, names)
    ensures raws[i].tyOid !in types ==>
      var id := |FirstOfTypes(raws[..i])|;
      TypesAre(raws[..i + 1], types[raws[i].tyOid := id], names[id := raws[i].tyName])
  {
    var firsts := FirstOfTypes(raws[..i]);
    assert raws[..i + 1][..i] == raws[..i];
    forall oid ensures HasType(firsts + [raws[i]], oid) <==> HasType(firsts, oid) || raws[i].tyOid == oid {
      HasTypeStep(firsts, raws[i], oid);
    }
  }

  method BuildTypes(raws: seq<RawColumn>, b: Builder) returns (types: map<int, Id>)
    requires b.model.types == map[]
    modifies b
    ensures TypesAre(raws, types, b.model.types)
    ensures forall i :: 0 <= i < |raws| ==> raws[i].tyOid in types
    ensures b.model == old(b.model).(types := b.model.types)
  {
    hide TypesAre, FirstOfTypes, HasType;
    types := map[];
    var next: Id := 0;
    NoTypes(raws);
    for i := 0 to |raws|
      invariant next == |FirstOfTypes(raws[..i])|
      invariant TypesAre(raws[..i], types, b.model.types)
      invariant b.model == old(b.model).(types := b.model.types)
    {
      TypesStep(raws, i, types, b.model.types);
      NextType(raws, i, types, b.model.types);
      if raws[i].tyOid !in types {
        types := types[raws[i].tyOid := next];
        b.AddType(next, raws[i].tyName);
        next := next + 1;
      }
    }
    assert raws[..|raws|] == raws;
    forall i | 0 <= i < |raws| ensures raws[i].tyOid in types {
      TypeThere(raws, i, types, b.model.types);
    }
  }

  lemma NoTypes(raws: seq<RawColumn>)
    ensures FirstOfTypes(raws[..0]) == [] && TypesAre(raws[..0], map[], map[])
  {
  }

  lemma NextType(raws: seq<RawColumn>, i: nat, types: map<int, Id>, names: map<Id, string>)
    requires i < |raws| && TypesAre(raws[..i], types, names)
    ensures |FirstOfTypes(raws[..i + 1])| == |FirstOfTypes(raws[..i])| + if raws[i].tyOid in types then 0 else 1
  {
    assert raws[..i + 1][..i] == raws[..i];
  }

  lemma TypeThere(raws: seq<RawColumn>, i: nat, types: map<int, Id>, names: map<Id, string>)
    requires i < |raws| && TypesAre(raws, types, names)
    ensures raws[i].tyOid in types
  {
    FirstsHaveAll(raws, raws[i].tyOid);
  }

  // ---- functions --------------------------------------------------------------------------

  function MakeFunction(c: Catalog, fallback: Id, i: nat): Function
    requires i < |c.functions|
  {
    Function(i, SchemaIdOf(c, c.functions[i].schemaOid, fallback), c.functions[i].name)
  }

  /** The functions of a schema, in order. */
  function FunctionsOf(fs: seq<Function>, schema: Id): seq<Id> {
    if fs == [] then []
    else
      var last := fs[|fs| - 1];
      FunctionsOf(fs[..|fs| - 1], schema) + if last.schema == schema then [last.id] else []
  }

  function FunctionsIn(m: SchemaModel, schema: Id): seq<Id> {
    if schema in m.functionsBySchema then m.functionsBySchema[schema] else []
  }

  /** Functions are numbered by position, and listed by schema as a scan would list them. */
  ghost predicate FunctionsAre(c: Catalog, fallback: Id, n: nat, m: SchemaModel)
    requires n <= |c.functions|
  {
    && |m.functions| == n && (forall i :: 0 <= i < n ==> m.functions[i] == MakeFunction(c, fallback, i))
    && (forall schema :: FunctionsIn(m, schema) == FunctionsOf(m.functions, schema))
  }

  method BuildFunctions(c: Catalog, schemaByOid: map<int, Id>, fallback: Id, b: Builder)
    requires b.model.functions == [] && b.model.functionsBySchema == map[]
    requires forall oid ::
      LastIndex(SchemaOids(c.schemas), oid) == if oid in schemaByOid then Some(schemaByOid[oid]) else None
    modifies b
    ensures FunctionsAre(c, fallback, |c.functions|, b.model)
    ensures b.model == old(b.model).(functions := b.model.functions, functionsBySchema := b.model.functionsBySchema)
  {
    hide FunctionsAre, LastIndex;
    NoFunctions(c, fallback, b.model);
    for i := 0 to |c.functions|
      invariant FunctionsAre(c, fallback, i, b.model)
      invariant b.model == old(b.model).(functions := b.model.functions, functionsBySchema := b.model.functionsBySchema)
    {
      var raw := c.functions[i];
      var schema := if raw.schemaOid in schemaByOid then schemaByOid[raw.schemaOid] else fallback;
      ghost var before := b.model;
      var _ := b.AddFunction(Function(i, schema, raw.name));
      FunctionsStep(c, fallback, i, before, b.model);
    }
  }

  lemma NoFunctions(c: Catalog, fallback: Id, m: SchemaModel)
    requires m.functions == [] && m.functionsBySchema == map[]
    ensures FunctionsAre(c, fallback, 0, m)
  {
  }

  lemma FunctionsStep(c: Catalog, fallback: Id, i: nat, m: SchemaModel, m': SchemaModel)
    requires i < |c.functions| && FunctionsAre(c, fallback, i, m)
    requires
      var f := MakeFunction(c, fallback, i);
      m'.functions == m.functions + [f] && m'.functionsBySchema == Push(m.functionsBySchema, f.schema, i)
    ensures FunctionsAre(c, fallback, i + 1, m')
  {
    hide LastIndex, MakeFunction;
    var f := MakeFunction(c, fallback, i);
    assert m'.functions[..i] == m.functions && m'.functions[i] == f && f.id == i by { MadeId(c, fallback, i); }
    forall schema ensures FunctionsIn(m', schema) == FunctionsOf(m'.functions, schema) {
      assert FunctionsIn(m, schema) == FunctionsOf(m.functions, schema);
    }
  }

  lemma MadeId(c: Catalog, fallback: Id, i: nat)
    requires i < |c.functions|
    ensures MakeFunction(c, fallback, i).id == i
  {
    hide LastIndex;
  }

  lemma FunctionsAreFrom(c: Catalog, fallback: Id, n: nat, m: SchemaModel, schema: Id)
    requires n <= |c.functions| && FunctionsAre(c, fallback, n, m)
    ensures |m.functions| == n
    ensures forall i, s: nat :: 0 <= i < n && IsLastSchema(c, c.functions[i].schemaOid, s) ==>
      m.functions[i].schema == s
    ensures forall i :: 0 <= i < n && (forall s: nat :: !IsLastSchema(c, c.functions[i].schemaOid, s)) ==>
      m.functions[i].schema == fallback
    ensures forall i :: 0 <= i < n ==> m.functions[i].id == i && m.functions[i].name == c.functions[i].name
    ensures forall id: Id :: id in FunctionsIn(m, schema) <==> id < n && m.functions[id].schema == schema
    ensures forall a, b :: 0 <= a < b < |FunctionsIn(m, schema)| ==>
      FunctionsIn(m, schema)[a] < FunctionsIn(m, schema)[b]
  {
    hide SchemaIdOf, IsLastSchema;
    forall i | 0 <= i < n
      ensures forall s: nat :: IsLastSchema(c, c.functions[i].schemaOid, s) ==> m.functions[i].schema == s
      ensures (forall s: nat :: !IsLastSchema(c, c.functions[i].schemaOid, s)) ==> m.functions[i].schema == fallback
    {
      LastSchemaIs(c, c.functions[i].schemaOid, fallback);
    }
    assert FunctionsIn(m, schema) == FunctionsOf(m.functions, schema);
    FunctionsInOrder(m.functions, schema);
  }

  lemma OneMoreFunction(fs: seq<Function>, schema: Id)
    requires fs != []
    ensures
      var n := |fs| - 1;
      FunctionsOf(fs, schema) ==
        if fs[n].schema == schema then FunctionsOf(fs[..n], schema) + [fs[n].id] else FunctionsOf(fs[..n], schema)
  {
  }

  lemma {:induction false} FunctionsInOrder(fs: seq<Function>, schema: Id)
    requires forall i :: 0 <= i < |fs| ==> fs[i].id == i
    ensures
      var ids := FunctionsOf(fs, schema);
      && (forall id: Id :: id in ids <==> id < |fs| && fs[id].schema == schema)
      && forall a, b :: 0 <= a < b < |ids| ==> ids[a] < ids[b]
  {
    if fs != [] {
      var n := |fs| - 1;
      var before := FunctionsOf(fs[..n], schema);
      FunctionsInOrder(fs[..n], schema);
      hide FunctionsOf;
      assert forall k :: 0 <= k < |before| ==> before[k] in before;
      OneMoreFunction(fs, schema);
      assert forall id: Id :: id in before + [n] <==> id in before || id == n;
    }
  }

  lemma SameFunctions(c: Catalog, fallback: Id, n: nat, m: SchemaModel, m': SchemaModel)
    requires n <= |c.functions| && FunctionsAre(c, fallback, n, m)
    requires m'.functions == m.functions && m'.functionsBySchema == m.functionsBySchema
    ensures FunctionsAre(c, fallback, n, m')
  {
    hide LastIndex, MakeFunction, FunctionsOf;
    assert forall schema :: FunctionsIn(m', schema) == FunctionsIn(m, schema);
  }

  // ---- relations without keys -------------------------------------------------------------

  /** The columns the `j`-th relation takes: all with its OID, unless a relation before it took them. */
  function Own(c: Catalog, j: nat): seq<RawColumn>
    requires j < |c.relations|
  {
    var oid := c.relations[j].oid;
    if LastIndex(RelationOids(c.relations)[..j], oid).Some? then [] else SortByAttnum(ColumnsOf(c.columns, oid))
  }

  /** The id of the first column of the `j`-th relation. */
  function FirstId(c: Catalog, j: nat): Id
    requires j <= |c.relations|
  {
    if j == 0 then 0 else FirstId(c, j - 1) + |Own(c, j - 1)|
  }

  function KindOf(kind: char): RelationKind {
    match kind
    case 'v' => View
    case 'm' => MaterializedView
    case 'f' => ForeignTable
    case _ => Table
  }

  function SchemaIdOf(c: Catalog, oid: int, fallback: Id): Id {
    var i := LastIndex(SchemaOids(c.schemas), oid);
    if i.Some? then i.value else fallback
  }

  function Bare(c: Catalog, types: map<int, Id>, fallback: Id, j: nat): Relation
    requires j < |c.relations|
  {
    var raw := c.relations[j];
    Relation(j, SchemaIdOf(c, raw.schemaOid, fallback), raw.oid, raw.name, KindOf(raw.kind),
             MakeColumns(Own(c, j), j, FirstId(c, j), types), None, [], [], [])
  }

  ghost predicate IsLastSchema(c: Catalog, oid: int, s: nat) {
    && s < |c.schemas| && c.schemas[s].oid == oid
    && forall t :: s < t < |c.schemas| ==> c.schemas[t].oid != oid
  }

  /** A relation as the catalog's row has it, but for its columns and keys. */
  ghost predicate RelationFrom(rel: Relation, raw: RawRelation, c: Catalog, j: nat, fallback: Id) {
    && rel.id == j && rel.oid == raw.oid && rel.name == raw.name
    && (rel.kind == View <==> raw.kind == 'v') && (rel.kind == MaterializedView <==> raw.kind == 'm')
    && (rel.kind == ForeignTable <==> raw.kind == 'f') && (rel.kind == Table <==> raw.kind !in {'v', 'm', 'f'})
    && (forall s: nat :: IsLastSchema(c, raw.schemaOid, s) ==> rel.schema == s)
    && ((forall s: nat :: !IsLastSchema(c, raw.schemaOid, s)) ==> rel.schema == fallback)
  }

  lemma LastSchemaIs(c: Catalog, oid: int, fallback: Id)
    ensures forall s: nat :: IsLastSchema(c, oid, s) ==> SchemaIdOf(c, oid, fallback) == s
    ensures (forall s: nat :: !IsLastSchema(c, oid, s)) ==> SchemaIdOf(c, oid, fallback) == fallback
  {
    var i := LastIndex(SchemaOids(c.schemas), oid);
    hide LastIndex;
    if i.Some? {
      assert forall t :: i.value < t < |c.schemas| ==> SchemaOids(c.schemas)[t] != oid;
      assert IsLastSchema(c, oid, i.value);
    }
    forall s: nat | IsLastSchema(c, oid, s) ensures i == Some(s) {
      assert SchemaOids(c.schemas)[s] == oid;
      assert i.Some?;
    }
  }

  lemma BareIsFrom(c: Catalog, types: map<int, Id>, fallback: Id, j: nat)
    requires j < |c.relations|
    ensures RelationFrom(Bare(c, types, fallback, j), c.relations[j], c, j, fallback)
  {
    hide MakeColumns, Own, FirstId;
    LastSchemaIs(c, c.relations[j].schemaOid, fallback);
    hide SchemaIdOf;
  }

  /** Where constraints on an OID go: the relation, and its columns by attribute number. */
  function Find(c: Catalog, n: nat, oid: int): Option<(Id, map<int, Id>)>
    requires n <= |c.relations|
  {
    var j :- LastIndex(RelationOids(c.relations)[..n], oid);
    Some((j, AttMap(Own(c, j), FirstId(c, j))))
  }

  function Look(relByOid: map<int, Id>, attnums: map<int, map<int, Id>>, oid: int): Option<(Id, map<int, Id>)> {
    if oid in relByOid && oid in attnums then Some((relByOid[oid], attnums[oid])) else None
  }

  /** The two maps answer what the first `n` relations say. */
  ghost predicate LooksLike(c: Catalog, n: nat, relByOid: map<int, Id>, attnums: map<int, map<int, Id>>)
    requires n <= |c.relations|
  {
    forall oid :: Look(relByOid, attnums, oid) == Find(c, n, oid)
  }

  method BuildRelations(
    c: Catalog, colsByRel: map<int, seq<RawColumn>>, schemaByOid: map<int, Id>, types: map<int, Id>, fallback: Id
  )
    returns (rels: seq<Relation>, relByOid: map<int, Id>, attnums: map<int, map<int, Id>>)
    requires forall rel :: GroupOf(colsByRel, rel) == ColumnsOf(c.columns, rel)
    requires forall oid ::
      LastIndex(SchemaOids(c.schemas), oid) == if oid in schemaByOid then Some(schemaByOid[oid]) else None
    ensures |rels| == |c.relations| && forall j :: 0 <= j < |rels| ==> rels[j] == Bare(c, types, fallback, j)
    ensures relByOid.Keys == attnums.Keys
    ensures LooksLike(c, |c.relations|, relByOid, attnums)
  {
    hide Look, Find, LooksLike, GroupOf, Bare, MakeColumns, AttMap, Own, LeftOf;
    rels, relByOid, attnums := [], map[], map[];
    var left, next := colsByRel, 0;
    NothingFound(c, colsByRel);
    for j := 0 to |c.relations|
      invariant |rels| == j && forall i :: 0 <= i < j ==> rels[i] == Bare(c, types, fallback, i)
      invariant next == FirstId(c, j)
      invariant relByOid.Keys == attnums.Keys
      invariant LooksLike(c, j, relByOid, attnums)
      invariant forall oid :: GroupOf(left, oid) == LeftOf(c, j, oid)
    {
      var raw := c.relations[j];
      var schema := if raw.schemaOid in schemaByOid then schemaByOid[raw.schemaOid] else fallback;
      var group := SortByAttnum(GroupOf(left, raw.oid));
      OwnIsLeft(c, j);
      var cols, attmap;
      cols, attmap, next := BuildColumns(group, j, next, types);
      StepLook(c, j, relByOid, attnums, attmap);
      StepLeft(c, j, left);
      relByOid := relByOid[raw.oid := j];
      left := map oid | oid in left && oid != raw.oid :: left[oid];
      attnums := attnums[raw.oid := attmap];
      BareIs(c, types, fallback, j, cols);
      rels := rels + [Relation(j, schema, raw.oid, raw.name, KindOf(raw.kind), cols, None, [], [], [])];
    }
  }

  /** The columns with an OID that the first `j` relations have not taken. */
  function LeftOf(c: Catalog, j: nat, oid: int): seq<RawColumn>
    requires j <= |c.relations|
  {
    if LastIndex(RelationOids(c.relations)[..j], oid).Some? then [] else ColumnsOf(c.columns, oid)
  }

  lemma OwnIsLeft(c: Catalog, j: nat)
    requires j < |c.relations|
    ensures SortByAttnum(LeftOf(c, j, c.relations[j].oid)) == Own(c, j)
  {
  }

  lemma NothingFound(c: Catalog, groups: map<int, seq<RawColumn>>)
    requires forall rel :: GroupOf(groups, rel) == ColumnsOf(c.columns, rel)
    ensures LooksLike(c, 0, map[], map[])
    ensures forall oid :: GroupOf(groups, oid) == LeftOf(c, 0, oid)
  {
    assert RelationOids(c.relations)[..0] == [];
  }

  lemma OidsStep(c: Catalog, j: nat)
    requires j < |c.relations|
    ensures RelationOids(c.relations)[..j + 1] == RelationOids(c.relations)[..j] + [c.relations[j].oid]
  {
  }

  lemma LastIndexStep(oids: seq<int>, last: int, oid: int)
    ensures LastIndex(oids + [last], oid) == if oid == last then Some(|oids|) else LastIndex(oids, oid)
  {
    assert (oids + [last])[..|oids|] == oids;
  }

  lemma StepLook(c: Catalog, j: nat, relByOid: map<int, Id>, attnums: map<int, map<int, Id>>, attmap: map<int, Id>)
    requires j < |c.relations|
    requires LooksLike(c, j, relByOid, attnums)
    requires attmap == AttMap(Own(c, j), FirstId(c, j))
    ensures LooksLike(c, j + 1, relByOid[c.relations[j].oid := j], attnums[c.relations[j].oid := attmap])
  {
    hide LastIndex, Own, FirstId, AttMap;
    var last := c.relations[j].oid;
    var relByOid', attnums' := relByOid[last := j], attnums[last := attmap];
    OidsStep(c, j);
    forall oid ensures Look(relByOid', attnums', oid) == Find(c, j + 1, oid) {
      LastIndexStep(RelationOids(c.relations)[..j], last, oid);
      assert Look(relByOid, attnums, oid) == Find(c, j, oid);
    }
  }

  lemma StepLeft(c: Catalog, j: nat, left: map<int, seq<RawColumn>>)
    requires j < |c.relations|
    requires forall oid :: GroupOf(left, oid) == LeftOf(c, j, oid)
    ensures
      var rest := map oid | oid in left && oid != c.relations[j].oid :: left[oid];
      forall oid :: GroupOf(rest, oid) == LeftOf(c, j + 1, oid)
  {
    hide LastIndex, ColumnsOf;
    var last := c.relations[j].oid;
    var rest := map oid | oid in left && oid != last :: left[oid];
    OidsStep(c, j);
    forall oid ensures GroupOf(rest, oid) == LeftOf(c, j + 1, oid) {
      LastIndexStep(RelationOids(c.relations)[..j], last, oid);
      assert GroupOf(left, oid) == LeftOf(c, j, oid);
    }
  }

  lemma BareIs(c: Catalog, types: map<int, Id>, fallback: Id, j: nat, cols: seq<Column>)
    requires j < |c.relations| && cols == MakeColumns(Own(c, j), j, FirstId(c, j), types)
    ensures
      var raw := c.relations[j];
      Bare(c, types, fallback, j) ==
        Relation(j, SchemaIdOf(c, raw.schemaOid, fallback), raw.oid, raw.name, KindOf(raw.kind), cols, None, [], [], [])
  {
  }
}
