/** Columns, keys and relations of the schema model, and which relations rows can be identified in. */
module Relations {
  import opened Prelude

  /** Dense ids, local to one model. */
  type Id = nat

  datatype ValueSource = Stored | Generated | Identity | Virtual

  datatype RelationKind = Table | View | MaterializedView | ForeignTable

  datatype Column = Column(
    id: Id,
    owner: Id,
    name: string,
    position: int,
    ty: Id,
    notNull: bool,
    defaultExpr: Option<string>,
    source: ValueSource)

  datatype Key = Key(columns: seq<Id>, name: string)

  datatype ForeignKey = ForeignKey(name: string, referencing: seq<Id>, referencedRelation: Id, referenced: seq<Id>)

  datatype Relation = Relation(
    id: Id,
    schema: Id,
    oid: int,
    name: string,
    kind: RelationKind,
    columns: seq<Column>,
    primaryKey: Option<Key>,
    uniqueKeys: seq<Key>,
    foreignKeysOut: seq<ForeignKey>,
    foreignKeysIn: seq<ForeignKey>)

  datatype Editability = EditableWithPrimaryKey | EditableWithUniqueKey | Disabled

  /** `iter().position(|c| c.id == id)`. */
  function ColumnIndex(cols: seq<Column>, id: Id): (r: Option<nat>)
    ensures r.Some? ==> r.value < |cols| && cols[r.value].id == id && forall j :: 0 <= j < r.value ==> cols[j].id != id
    ensures r.None? ==> forall j :: 0 <= j < |cols| ==> cols[j].id != id
  {
    if cols == [] then None
    else if cols[0].id == id then Some(0)
    else
      var r := ColumnIndex(cols[1..], id);
      if r.None? then None else Some(r.value + 1)
  }

  /** `column_by_id`. */
  function ColumnById(rel: Relation, id: Id): Option<Column> {
    var r := ColumnIndex(rel.columns, id);
    if r.None? then None else Some(rel.columns[r.value])
  }

  /** `column_named`. */
  function ColumnNamed(cols: seq<Column>, name: string): (r: Option<Column>)
    ensures r.Some? ==>
      exists i :: 0 <= i < |cols| && cols[i] == r.value && r.value.name == name &&
        forall j :: 0 <= j < i ==> cols[j].name != name
    ensures r.None? ==> forall j :: 0 <= j < |cols| ==> cols[j].name != name
  {
    if cols == [] then None
    else if cols[0].name == name then Some(cols[0])
    else
      var r := ColumnNamed(cols[1..], name);
      assert forall i :: 0 < i < |cols| ==> cols[i] == cols[1..][i - 1];
      assert r.Some? ==>
        exists i :: 0 <= i < |cols[1..]| && cols[1..][i] == r.value && r.value.name == name && cols[i + 1] == r.value &&
          forall j :: 0 <= j < i ==> cols[1..][j].name != name;
      r
  }

  predicate IsNotNullable(rel: Relation, key: Key) {
    forall i :: 0 <= i < |key.columns| ==>
      ColumnById(rel, key.columns[i]).Some? && ColumnById(rel, key.columns[i]).value.notNull
  }

  function EditabilityOf(rel: Relation): Editability {
    if rel.primaryKey.Some? then EditableWithPrimaryKey
    else if exists i :: 0 <= i < |rel.uniqueKeys| && IsNotNullable(rel, rel.uniqueKeys[i]) then EditableWithUniqueKey
    else Disabled
  }

  /** The column an id means is the first that has it. */
  ghost predicate IsColumn(rel: Relation, id: Id, c: nat) {
    c < |rel.columns| && rel.columns[c].id == id && forall b :: 0 <= b < c ==> rel.columns[b].id != id
  }

  ghost predicate Known(rel: Relation, id: Id) {
    exists c: nat :: IsColumn(rel, id, c)
  }

  ghost predicate KnownNotNull(rel: Relation, id: Id) {
    exists c: nat :: IsColumn(rel, id, c) && rel.columns[c].notNull
  }

  /** Every column of the key is known, and never NULL. */
  ghost predicate Identifies(rel: Relation, key: Key) {
    forall i :: 0 <= i < |key.columns| ==> KnownNotNull(rel, key.columns[i])
  }

  /** No primary key, and some column of every unique key is unknown or nullable. */
  ghost predicate NoIdentityIn(rel: Relation) {
    && rel.primaryKey.None?
    && forall u :: 0 <= u < |rel.uniqueKeys| ==> !Identifies(rel, rel.uniqueKeys[u])
  }

  lemma ColumnIs(rel: Relation, id: Id)
    ensures ColumnById(rel, id).Some? <==> Known(rel, id)
    ensures forall c: nat :: IsColumn(rel, id, c) ==> ColumnById(rel, id) == Some(rel.columns[c])
    ensures KnownNotNull(rel, id) <==> ColumnById(rel, id).Some? && ColumnById(rel, id).value.notNull
  {
    var r := ColumnIndex(rel.columns, id);
    if r.Some? { assert IsColumn(rel, id, r.value); }
  }

  lemma IdentifiesIff(rel: Relation, key: Key)
    ensures Identifies(rel, key) <==> IsNotNullable(rel, key)
  {
    forall i | 0 <= i < |key.columns|
      ensures KnownNotNull(rel, key.columns[i]) <==>
        ColumnById(rel, key.columns[i]).Some? && ColumnById(rel, key.columns[i]).value.notNull
    {
      ColumnIs(rel, key.columns[i]);
    }
    hide ColumnById, KnownNotNull;
  }

  /** Which relations have rows that can be told apart, and by which kind of key. */
  lemma EditableIff(rel: Relation)
    ensures EditabilityOf(rel) == EditableWithPrimaryKey <==> rel.primaryKey.Some?
    ensures EditabilityOf(rel) == EditableWithUniqueKey <==>
      rel.primaryKey.None? && exists u :: 0 <= u < |rel.uniqueKeys| && Identifies(rel, rel.uniqueKeys[u])
    ensures EditabilityOf(rel) == Disabled <==> NoIdentityIn(rel)
  {
    hide IsNotNullable, KnownNotNull;
    forall u | 0 <= u < |rel.uniqueKeys|
      ensures Identifies(rel, rel.uniqueKeys[u]) <==> IsNotNullable(rel, rel.uniqueKeys[u])
    {
      IdentifiesIff(rel, rel.uniqueKeys[u]);
    }
  }

  /** A non-empty list of columns of the relation. */
  predicate KeyResolves(rel: Relation, key: Key) {
    |key.columns| > 0 && forall i :: 0 <= i < |key.columns| ==> ColumnIndex(rel.columns, key.columns[i]).Some?
  }

  /** Every key of the relation resolves in it. */
  predicate KeysResolve(rel: Relation) {
    && (rel.primaryKey.Some? ==> KeyResolves(rel, rel.primaryKey.value))
    && forall i :: 0 <= i < |rel.uniqueKeys| ==> KeyResolves(rel, rel.uniqueKeys[i])
  }

  function ColumnNames(cols: seq<Column>): seq<string> {
    MapSeq(cols, (c: Column) => c.name)
  }

  function ColumnIds(cols: seq<Column>): seq<Id> {
    MapSeq(cols, (c: Column) => c.id)
  }
}
