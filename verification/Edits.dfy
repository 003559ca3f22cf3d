/**
 Inline edits: the columns that changed, and the printed UPDATE that changes them in one row,
 with or without the check that the old values still stand.
 */
module Edits {
  import opened Prelude
  import opened SqlText
  import opened UpdateText
  import opened Relations

  datatype ColumnDiff = ColumnDiff(col: string, before: string, after: string)

  datatype EditError =
    | NotEditable(relation: string)
    | NoPrimaryKey
    | MissingValues(expected: nat, got: nat)
    | MissingColumn(name: string)
    | EmptyValue(name: string)
    | NoChanges

  /** Named texts: a row as the editor holds it. */
  type Fields = seq<(string, string)>

  // ---- diff_columns -----------------------------------------------------------------------

  /** A pair of fields is a change to write. */
  predicate IsChange(cols: seq<Column>, a: (string, string), b: (string, string)) {
    && a.0 == b.0 && a.1 != b.1
    && (ColumnNamed(cols, a.0).Some? ==> ColumnNamed(cols, a.0).value.source == Stored)
  }

  /** The changes among the first `n` pairs, in order. */
  function Changes(cols: seq<Column>, original: Fields, edited: Fields, n: nat): seq<ColumnDiff>
    requires n <= |original| && n <= |edited|
  {
    if n == 0 then []
    else
      var (a, b) := (original[n - 1], edited[n - 1]);
      Changes(cols, original, edited, n - 1) + (if IsChange(cols, a, b) then [ColumnDiff(a.0, a.1, b.1)] else [])
  }

  function Shorter(a: Fields, b: Fields): nat {
    if |a| < |b| then |a| else |b|
  }

  method DiffColumns(rel: Relation, original: Fields, edited: Fields) returns (r: Result<seq<ColumnDiff>, EditError>)
    ensures NoIdentityIn(rel) <==> r == Err(NotEditable(rel.name))
    ensures r.Ok? ==> r.value == Changes(rel.columns, original, edited, Shorter(original, edited)) && r.value != []
    ensures r == Err(NoChanges) <==>
      (!NoIdentityIn(rel) && Changes(rel.columns, original, edited, Shorter(original, edited)) == [])
  {
    EditableIff(rel);
    hide NoIdentityIn;
    if EditabilityOf(rel) == Disabled {
      return Err(NotEditable(rel.name));
    }
    var out: seq<ColumnDiff> := [];
    var i := 0;
    while i < |original| && i < |edited|
      invariant 0 <= i <= Shorter(original, edited)
      invariant out == Changes(rel.columns, original, edited, i)
    {
      var (k1, v1) := original[i];
      var (k2, v2) := edited[i];
      if k1 == k2 && v1 != v2 {
        var col := ColumnNamed(rel.columns, k1);
        if col.None? || col.value.source == Stored {
          out := out + [ColumnDiff(k1, v1, v2)];
        }
      }
      i := i + 1;
    }
    if out == [] {
      return Err(NoChanges);
    }
    return Ok(out);
  }

  ghost predicate FirstOfName(cols: seq<Column>, name: string, c: nat) {
    c < |cols| && cols[c].name == name && forall b :: 0 <= b < c ==> cols[b].name != name
  }

  /** One name, two values, and the column of that name, if there is one, is stored. */
  ghost predicate Changed(cols: seq<Column>, original: Fields, edited: Fields, i: nat) {
    && i < |original| && i < |edited|
    && original[i].0 == edited[i].0 && original[i].1 != edited[i].1
    && forall c: nat :: FirstOfName(cols, original[i].0, c) ==> cols[c].source == Stored
  }

  /** The changes stand at the places `at`, in order, which are the places of all that is changed. */
  ghost predicate ChangesAt(
    cols: seq<Column>, original: Fields, edited: Fields, n: nat, at: seq<nat>, diffs: seq<ColumnDiff>
  ) {
    && |at| == |diffs| && (forall a, b :: 0 <= a < b < |at| ==> at[a] < at[b])
    && (forall i: nat :: i in at <==> i < n && Changed(cols, original, edited, i))
    && forall k :: 0 <= k < |at| ==>
         at[k] < |original| && at[k] < |edited| &&
           diffs[k] == ColumnDiff(original[at[k]].0, original[at[k]].1, edited[at[k]].1)
  }

  lemma ChangedIff(cols: seq<Column>, original: Fields, edited: Fields, i: nat)
    requires i < |original| && i < |edited|
    ensures IsChange(cols, original[i], edited[i]) <==> Changed(cols, original, edited, i)
  {
    var col := ColumnNamed(cols, original[i].0);
    if col.Some? {
      var c :| 0 <= c < |cols| && cols[c] == col.value && cols[c].name == original[i].0 &&
        forall b :: 0 <= b < c ==> cols[b].name != original[i].0;
      assert FirstOfName(cols, original[i].0, c);
      assert forall d: nat :: FirstOfName(cols, original[i].0, d) ==> d == c;
    }
  }

  /** Every change is written, in order, and nothing but changes. */
  lemma {:induction false} ChangesExactly(cols: seq<Column>, original: Fields, edited: Fields, n: nat)
    returns (at: seq<nat>)
    requires n <= |original| && n <= |edited|
    ensures ChangesAt(cols, original, edited, n, at, Changes(cols, original, edited, n))
  {
    if n == 0 {
      at := [];
    } else {
      at := ChangesExactly(cols, original, edited, n - 1);
      ChangedIff(cols, original, edited, n - 1);
      hide Changed, IsChange;
      if Changed(cols, original, edited, n - 1) {
        PlacesMore(at, n - 1);
        at := at + [n - 1];
      }
    }
  }

  lemma PlacesMore(at: seq<nat>, n: nat)
    requires forall i :: i in at ==> i < n
    ensures forall i: nat :: i in at + [n] <==> i in at || i == n
    ensures forall k :: 0 <= k < |at| ==> at[k] < n
  {
    forall k | 0 <= k < |at| ensures at[k] < n {
      assert at[k] in at;
    }
  }

  // ---- update_sql_with_pk -----------------------------------------------------------------

  function PrimaryKeyOf(rel: Relation): seq<Id> {
    if rel.primaryKey.Some? then rel.primaryKey.value.columns else []
  }

  /** The name of a key column, or `id` when the column is unknown. */
  function KeyName(rel: Relation, id: Id): string {
    var c := ColumnById(rel, id);
    if c.Some? then c.value.name else "id"
  }

  function KeyNamesOf(rel: Relation): (names: seq<string>)
    ensures |names| == |PrimaryKeyOf(rel)|
    ensures forall i :: 0 <= i < |names| ==> names[i] == KeyName(rel, PrimaryKeyOf(rel)[i])
  {
    MapSeq(PrimaryKeyOf(rel), id => KeyName(rel, id))
  }

  function DiffNames(diffs: seq<ColumnDiff>): (names: seq<string>)
    ensures |names| == |diffs| && forall i :: 0 <= i < |diffs| ==> names[i] == diffs[i].col
  {
    MapSeq(diffs, (d: ColumnDiff) => d.col)
  }

  function AfterTexts(diffs: seq<ColumnDiff>): (texts: seq<string>)
    ensures |texts| == |diffs| && forall i :: 0 <= i < |diffs| ==> texts[i] == diffs[i].after
  {
    MapSeq(diffs, (d: ColumnDiff) => d.after)
  }

  function BeforeTexts(diffs: seq<ColumnDiff>): (texts: seq<string>)
    ensures |texts| == |diffs| && forall i :: 0 <= i < |diffs| ==> texts[i] == diffs[i].before
  {
    MapSeq(diffs, (d: ColumnDiff) => d.before)
  }

  /** `"name"=$k` for each name, counting up from `first`. */
  function Assigns(names: seq<string>, first: nat): (ts: seq<string>)
    ensures |ts| == |names|
    ensures forall i :: 0 <= i < |names| ==> ts[i] == QuoteIdent(names[i]) + "=$" + Dec(first + i)
  {
    if names == [] then [] else [QuoteIdent(names[0]) + "=$" + Dec(first)] + Assigns(names[1..], first + 1)
  }

  /** The value given for a name: the first of that name. */
  function Lookup(fields: Fields, name: string): (r: Option<string>)
    ensures r.Some? ==> (name, r.value) in fields
    ensures r.None? ==> forall i :: 0 <= i < |fields| ==> fields[i].0 != name
  {
    if fields == [] then None
    else if fields[0].0 == name then Some(fields[0].1)
    else Lookup(fields[1..], name)
  }

  /** Key values in key order, or the first one that is missing or empty. */
  function KeyValues(names: seq<string>, fields: Fields): (r: Result<seq<string>, EditError>)
    ensures r.Ok? ==> |r.value| == |names|
    ensures r.Ok? ==> forall i :: 0 <= i < |names| ==> Lookup(fields, names[i]) == Some(r.value[i]) && r.value[i] != ""
    ensures r.Err? ==>
      exists i :: 0 <= i < |names| && (Lookup(fields, names[i]).None? || Lookup(fields, names[i]) == Some(""))
  {
    if names == [] then Ok([])
    else
      var v := Lookup(fields, names[0]);
      if v.None? then Err(MissingColumn(names[0]))
      else if v.value == "" then Err(EmptyValue(names[0]))
      else
        var rest := KeyValues(names[1..], fields);
        assert rest.Err? ==>
          exists i :: 0 <= i < |names[1..]| &&
            (Lookup(fields, names[1..][i]).None? || Lookup(fields, names[1..][i]) == Some(""));
        if rest.Err? then rest else Ok([v.value] + rest.value)
  }

  function UpdateHead(table: string, sets: seq<string>, wheres: seq<string>): string {
    "UPDATE " + QuoteIdent(table) + " SET " + Join(Assigns(sets, 1), ", ") +
    " WHERE " + Join(Assigns(wheres, |sets| + 1), " AND ")
  }

  function WithKeyOf(
    rel: Relation, diffs: seq<ColumnDiff>, keyFields: Fields
  ): Result<(string, seq<string>), EditError> {
    if EditabilityOf(rel) == Disabled then Err(NotEditable(rel.name))
    else if PrimaryKeyOf(rel) == [] then Err(NoPrimaryKey)
    else if diffs == [] then Err(NoChanges)
    else if |PrimaryKeyOf(rel)| != |keyFields| then Err(MissingValues(|PrimaryKeyOf(rel)|, |keyFields|))
    else
      var values :- KeyValues(KeyNamesOf(rel), keyFields);
      Ok((UpdateHead(rel.name, DiffNames(diffs), KeyNamesOf(rel)) + MARK, AfterTexts(diffs) + values))
  }

  method UpdateSqlWithPk(
    rel: Relation, diffs: seq<ColumnDiff>, keyFields: Fields
  ) returns (r: Result<(string, seq<string>), EditError>)
    ensures r == WithKeyOf(rel, diffs, keyFields)
  {
    hide UpdateHead, KeyName, Lookup, KeyNamesOf, AfterTexts, EditabilityOf;
    if EditabilityOf(rel) == Disabled { return Err(NotEditable(rel.name)); }
    var ids := PrimaryKeyOf(rel);
    if ids == [] { return Err(NoPrimaryKey); }
    if diffs == [] { return Err(NoChanges); }
    if |ids| != |keyFields| { return Err(MissingValues(|ids|, |keyFields|)); }
    var sql := UpdateHead(rel.name, DiffNames(diffs), KeyNamesOf(rel)) + MARK;
    var params := AfterTexts(diffs);
    ghost var names, start := KeyNamesOf(rel), params;
    ghost var done: seq<string> := [];
    assert names[0..] == names;
    assert KeyValues(names, keyFields).Ok? ==>
      [] + KeyValues(names, keyFields).value == KeyValues(names, keyFields).value;
    NoKeyValues(keyFields);
    hide KeyValues;
    for k := 0 to |ids|
      invariant params == start + done
      invariant KeyValues(names, keyFields) == Joined(done, KeyValues(names[k..], keyFields))
    {
      var name := KeyName(rel, ids[k]);
      assert names[k..][0] == name && names[k..][1..] == names[k + 1..];
      var v := Lookup(keyFields, name);
      KeyValuesStep(names[k..], keyFields);
      if v.None? { return Err(MissingColumn(name)); }
      if v.value == "" { return Err(EmptyValue(name)); }
      params := params + [v.value];
      JoinedStep(done, v.value, KeyValues(names[k + 1..], keyFields));
      done := done + [v.value];
    }
    assert names[|ids|..] == [] && done + [] == done;
    return Ok((sql, params));
  }

  ghost function Joined(done: seq<string>, rest: Result<seq<string>, EditError>): Result<seq<string>, EditError> {
    if rest.Err? then rest else Ok(done + rest.value)
  }

  lemma JoinedStep(done: seq<string>, v: string, rest: Result<seq<string>, EditError>)
    ensures rest.Ok? ==> Joined(done, Ok([v] + rest.value)) == Joined(done + [v], rest)
  {
    if rest.Ok? {
      assert done + ([v] + rest.value) == done + [v] + rest.value;
    }
  }

  /** The first field with this name. */
  ghost predicate IsField(fields: Fields, name: string, i: nat) {
    i < |fields| && fields[i].0 == name && forall j :: 0 <= j < i ==> fields[j].0 != name
  }

  ghost predicate Given(fields: Fields, name: string) {
    exists i: nat :: IsField(fields, name, i) && fields[i].1 != ""
  }

  lemma {:induction false} LookupIs(fields: Fields, name: string)
    ensures Lookup(fields, name).Some? <==> exists i: nat :: IsField(fields, name, i)
    ensures forall i: nat :: IsField(fields, name, i) ==> Lookup(fields, name) == Some(fields[i].1)
  {
    if fields != [] {
      LookupIs(fields[1..], name);
      if fields[0].0 == name {
        assert IsField(fields, name, 0);
      } else {
        forall i: nat ensures IsField(fields, name, i + 1) <==> IsField(fields[1..], name, i) {
          assert fields == [fields[0]] + fields[1..];
        }
        forall i: nat | IsField(fields, name, i) ensures i > 0 && IsField(fields[1..], name, i - 1) {
        }
      }
    }
  }

  /** Every name before the `k`-th has a value, and it has none. */
  ghost predicate FirstWithout(names: seq<string>, fields: Fields, k: nat) {
    k < |names| && !Given(fields, names[k]) && forall j :: 0 <= j < k ==> Given(fields, names[j])
  }

  lemma GivenIs(fields: Fields, name: string)
    ensures Given(fields, name) <==> Lookup(fields, name).Some? && Lookup(fields, name).value != ""
  {
    LookupIs(fields, name);
  }

  lemma NoKeyValues(fields: Fields)
    ensures KeyValues([], fields) == Ok([])
  {
  }

  lemma KeyValuesStep(names: seq<string>, fields: Fields)
    requires names != []
    ensures
      var v, rest := Lookup(fields, names[0]), KeyValues(names[1..], fields);
      KeyValues(names, fields) ==
        if v.None? then Err(MissingColumn(names[0]))
        else if v.value == "" then Err(EmptyValue(names[0]))
        else if rest.Err? then rest
        else Ok([v.value] + rest.value)
  {
    hide Lookup;
  }

  /** The values, or an error about the first name that has none. */
  lemma {:induction false} KeyValuesAre(names: seq<string>, fields: Fields)
    ensures KeyValues(names, fields).Ok? <==> forall k :: 0 <= k < |names| ==> Given(fields, names[k])
    ensures KeyValues(names, fields).Err? ==>
      exists k: nat :: FirstWithout(names, fields, k) && KeyValues(names, fields) ==
        Err(if exists i: nat :: IsField(fields, names[k], i) then EmptyValue(names[k]) else MissingColumn(names[k]))
  {
    if names != [] {
      KeyValuesAre(names[1..], fields);
      LookupIs(fields, names[0]);
      GivenIs(fields, names[0]);
      KeyValuesStep(names, fields);
      hide Given, IsField, Lookup, KeyValues;
      assert names == [names[0]] + names[1..];
      if !Given(fields, names[0]) {
        assert FirstWithout(names, fields, 0);
      } else if KeyValues(names, fields).Err? {
        var k: nat :| FirstWithout(names[1..], fields, k) && KeyValues(names[1..], fields) ==
          Err(if exists i: nat :: IsField(fields, names[1..][k], i) then EmptyValue(names[1..][k])
              else MissingColumn(names[1..][k]));
        assert FirstWithout(names, fields, k + 1) && names[k + 1] == names[1..][k];
      }
    }
  }

  /** Key columns by name; a column that is unknown is called `id`. */
  lemma KeyNameIs(rel: Relation, id: Id)
    ensures forall c: nat :: IsColumn(rel, id, c) ==> KeyName(rel, id) == rel.columns[c].name
    ensures (forall c: nat :: !IsColumn(rel, id, c)) ==> KeyName(rel, id) == "id"
  {
    ColumnIs(rel, id);
    hide ColumnById, IsColumn;
  }

  /** When an UPDATE is printed, with which parameters, and the error where it is not. */
  lemma WithKeyErrors(rel: Relation, diffs: seq<ColumnDiff>, keyFields: Fields)
    ensures
      var r, names := WithKeyOf(rel, diffs, keyFields), KeyNamesOf(rel);
      if NoIdentityIn(rel) then r == Err(NotEditable(rel.name))
      else if rel.primaryKey.None? || rel.primaryKey.value.columns == [] then r == Err(NoPrimaryKey)
      else if diffs == [] then r == Err(NoChanges)
      else if |names| != |keyFields| then r == Err(MissingValues(|rel.primaryKey.value.columns|, |keyFields|))
      else if forall k :: 0 <= k < |names| ==> Given(keyFields, names[k]) then
        && r.Ok? && |r.value.1| == |diffs| + |names|
        && (forall i :: 0 <= i < |diffs| ==> r.value.1[i] == diffs[i].after)
        && (forall k, i: nat :: 0 <= k < |names| && IsField(keyFields, names[k], i) ==>
              r.value.1[|diffs| + k] == keyFields[i].1)
      else
        exists k: nat :: FirstWithout(names, keyFields, k) && r ==
          Err(if exists i: nat :: IsField(keyFields, names[k], i) then EmptyValue(names[k])
            else MissingColumn(names[k]))
  {
    EditableIff(rel);
    KeyValuesAre(KeyNamesOf(rel), keyFields);
    forall name ensures forall i: nat :: IsField(keyFields, name, i) ==>
      Lookup(keyFields, name) == Some(keyFields[i].1) {
      LookupIs(keyFields, name);
    }
    hide NoIdentityIn, EditabilityOf, Given, IsField, FirstWithout, KeyNamesOf, UpdateHead;
  }

  // ---- update_sql_optimistic --------------------------------------------------------------

  /** `replacen(MARK, text, 1)`. */
  function ReplaceMark(s: string, text: string): string {
    var i := FirstMark(s);
    if i.None? then s else s[..i.value] + text + s[i.value + |MARK|..]
  }

  function GuardText(names: seq<string>, first: nat): string {
    Join(Assigns(names, first), " AND ")
  }

  function OptimisticOf(
    rel: Relation, diffs: seq<ColumnDiff>, keyFields: Fields
  ): Result<(string, seq<string>), EditError> {
    var (sql, params) :- WithKeyOf(rel, diffs, keyFields);
    Ok((ReplaceMark(sql, " AND " + GuardText(DiffNames(diffs), |params| + 1) + MARK), params + BeforeTexts(diffs)))
  }

  method UpdateSqlOptimistic(
    rel: Relation, diffs: seq<ColumnDiff>, keyFields: Fields
  ) returns (r: Result<(string, seq<string>), EditError>)
    ensures r == OptimisticOf(rel, diffs, keyFields)
  {
    hide WithKeyOf, Dec, QuoteIdent, Join, Assigns, ReplaceMark;
    var base := UpdateSqlWithPk(rel, diffs, keyFields);
    if base.Err? { return base; }
    var (sql, params) := base.value;
    ghost var start := params;
    var guards: seq<string> := [];
    for k := 0 to |diffs|
      invariant |guards| == k && |params| == |start| + k
      invariant params == start + BeforeTexts(diffs)[..k]
      invariant forall i :: 0 <= i < k ==> guards[i] == QuoteIdent(diffs[i].col) + "=$" + Dec(|start| + 1 + i)
    {
      params := params + [diffs[k].before];
      guards := guards + [QuoteIdent(diffs[k].col) + "=$" + Dec(|params|)];
    }
    assert guards == Assigns(DiffNames(diffs), |start| + 1);
    assert BeforeTexts(diffs)[..|diffs|] == BeforeTexts(diffs);
    sql := ReplaceMark(sql, " AND " + Join(guards, " AND ") + MARK);
    return Ok((sql, params));
  }
}
