/**
 Dot completion: aliases resolved to relations, the columns offered, what the editor takes as
 prefix and target, and what it replaces when one is picked.
 */
module Completion {
  import opened Prelude
  import opened SqlText
  import opened Relations
  import opened AliasScan
  import opened AliasGrammar
  import Utf8

  // ---- alias maps -------------------------------------------------------------------------

  /** Every table in the map is itself a key of it. */
  ghost predicate Closed(m: Aliases) {
    forall k :: k in m ==> m[k] in m
  }

  lemma EnterClosed(table: string, after: string, out: Aliases)
    requires Closed(out)
    ensures Closed(Enter(table, after, out).0)
  {
    hide SkipWs, WordLen, Short, Full, IsReserved, Lower;
  }

  /** What the scanner finds is closed. */
  lemma {:induction false} ScanClosed(before: bool, t: string, out: Aliases)
    requires Closed(out)
    ensures Closed(Scan(before, t, out))
    decreases |t|
  {
    hide SkipWs, IdentLen, Enter, KeywordAt, Closed;
    if t != "" {
      if !KeywordAt(before, t) {
        ScanClosed(IsIdentChar(t[0]), t[1..], out);
      } else {
        KeywordStart(before, t);
        var rest := SkipWs(t[4..]);
        var n := IdentLen(rest);
        if rest != "" {
          if n == 0 {
            ScanClosed(IdentBefore(t, rest), rest, out);
          } else {
            var (out', next) := Enter(rest[..n], SkipWs(rest[n..]), out);
            EnterClosed(rest[..n], SkipWs(rest[n..]), out);
            ScanClosed(IdentBefore(t, next), next, out');
          }
        }
      }
    }
  }

  /** The first relation of that name, in any case. */
  function FirstNamed(rels: seq<Relation>, name: string): (r: Option<Id>)
    ensures r.None? ==> forall i :: 0 <= i < |rels| ==> Lower(rels[i].name) != name
    ensures r.Some? ==>
      exists i :: 0 <= i < |rels| && Lower(rels[i].name) == name && rels[i].id == r.value &&
        forall j :: 0 <= j < i ==> Lower(rels[j].name) != name
  {
    if rels == [] then None
    else if Lower(rels[0].name) == name then Some(rels[0].id)
    else
      var r := FirstNamed(rels[1..], name);
      assert forall i :: 0 < i < |rels| ==> rels[i] == rels[1..][i - 1];
      assert r.Some? ==>
        exists i :: 0 <= i < |rels[1..]| && Lower(rels[1..][i].name) == name && rels[1..][i].id == r.value &&
          rels[i + 1] == rels[1..][i] && forall j :: 0 <= j < i ==> Lower(rels[1..][j].name) != name;
      r
  }

  /** The 32-bit FNV-1a hash of the octets. */
  function Hash(octets: Utf8.bytes, h: bv32): bv32 {
    if octets == [] then h else Hash(octets[1..], (h ^ (octets[0] as bv32)) * 16777619)
  }

  /** The id of a table: its relation's, or a made-up one for a table the model does not have. */
  function IdOf(rels: seq<Relation>, table: string): Id {
    var r := FirstNamed(rels, table);
    if r.Some? then r.value else Hash(Utf8.Encode(table), 2166136261) as nat
  }

  /** Every key, and every known table, resolved. */
  ghost predicate ResolvedAs(rels: seq<Relation>, m: Aliases, out: map<string, Id>) {
    && (forall k :: k in out <==> k in m || (exists a :: a in m && m[a] == k && FirstNamed(rels, k).Some?))
    && (forall k :: k in out ==> out[k] == IdOf(rels, if k in m then m[k] else k))
  }

  /** The loop that indexes the relations by name; the first of a name stays. */
  method TableIds(rels: seq<Relation>) returns (ids: map<string, Id>)
    ensures forall name :: FirstNamed(rels, name) == if name in ids then Some(ids[name]) else None
  {
    ids := map[];
    for i := 0 to |rels|
      invariant forall name :: FirstNamed(rels[..i], name) == if name in ids then Some(ids[name]) else None
    {
      forall name ensures FirstNamed(rels[..i + 1], name) ==
        if FirstNamed(rels[..i], name).Some? then FirstNamed(rels[..i], name)
        else if Lower(rels[i].name) == name then Some(rels[i].id) else None
      {
        assert rels[..i + 1] == rels[..i] + [rels[i]];
        FirstNamedLast(rels[..i], rels[i], name);
      }
      var name := Lower(rels[i].name);
      if name !in ids {
        ids := ids[name := rels[i].id];
      }
    }
    assert rels[..|rels|] == rels;
  }

  lemma {:induction false} FirstNamedLast(rels: seq<Relation>, rel: Relation, name: string)
    ensures FirstNamed(rels + [rel], name) ==
      if FirstNamed(rels, name).Some? then FirstNamed(rels, name)
      else if Lower(rel.name) == name then Some(rel.id) else None
  {
    hide Lower;
    if rels == [] {
      assert FirstNamed([], name).None?;
    } else {
      assert (rels + [rel])[0] == rels[0] && (rels + [rel])[1..] == rels[1..] + [rel];
      FirstNamedLast(rels[1..], rel, name);
    }
  }

  /** What has been entered for the keys walked so far. */
  ghost predicate ResolvedSoFar(rels: seq<Relation>, m: Aliases, done: set<string>, out: map<string, Id>) {
    && (forall k :: k in out <==>
      (k in m && k in done) || (exists a :: a in done && a in m && m[a] == k && FirstNamed(rels, k).Some?))
    && (forall k :: k in out ==> out[k] == IdOf(rels, if k in m && k in done then m[k] else k))
  }

  /**
   The loop over the alias map, which a hash map hands out in no particular order: the result
   does not depend on the order.
   */
  method ResolveAliases(rels: seq<Relation>, m: Aliases) returns (out: map<string, Id>)
    ensures ResolvedAs(rels, m, out)
  {
    hide FirstNamed, Hash, ResolvedSoFar;
    var ids := TableIds(rels);
    out := map[];
    var left := m.Keys;
    ghost var done: set<string> := {};
    NothingResolved(rels, m);
    while left != {}
      invariant done + left == m.Keys && done !! left
      invariant ResolvedSoFar(rels, m, done, out)
      decreases |left|
    {
      HasKey(left);
      var a :| a in left;
      var table := m[a];
      assert FirstNamed(rels, table) == if table in ids then Some(ids[table]) else None;
      ResolveTurn(rels, m, done, out, a);
      if table in ids {
        out := out[a := ids[table]];
        out := if table in out then out else out[table := ids[table]];
      } else {
        out := out[a := Hash(Utf8.Encode(table), 2166136261) as nat];
      }
      left, done := left - {a}, done + {a};
    }
    AllResolved(rels, m, done, out);
  }

  lemma HasKey(s: set<string>)
    ensures s == {} || exists x :: x in s
  {
    if !exists x :: x in s {
      assert s == {};
    }
  }

  lemma NothingResolved(rels: seq<Relation>, m: Aliases)
    ensures ResolvedSoFar(rels, m, {}, map[])
  {
  }

  lemma AllResolved(rels: seq<Relation>, m: Aliases, done: set<string>, out: map<string, Id>)
    requires ResolvedSoFar(rels, m, done, out) && done == m.Keys
    ensures ResolvedAs(rels, m, out)
  {
    hide FirstNamed, IdOf;
  }

  lemma ResolveTurn(rels: seq<Relation>, m: Aliases, done: set<string>, out: map<string, Id>, a: string)
    requires ResolvedSoFar(rels, m, done, out) && a in m && a !in done
    ensures
      var id := IdOf(rels, m[a]);
      var out' := out[a := id];
      ResolvedSoFar(rels, m, done + {a},
                    if FirstNamed(rels, m[a]).Some? && m[a] !in out' then out'[m[a] := id] else out')
  {
    hide FirstNamed, IdOf;
    var id := IdOf(rels, m[a]);
    var out' := out[a := id];
    var out'' := if FirstNamed(rels, m[a]).Some? && m[a] !in out' then out'[m[a] := id] else out';
    forall k ensures k in out'' <==>
      (k in m && k in done + {a}) || (exists b :: b in done + {a} && b in m && m[b] == k && FirstNamed(rels, k).Some?)
    {
      if k == m[a] && FirstNamed(rels, k).Some? {
        assert a in done + {a} && a in m && m[a] == k;
      }
    }
  }

  /** For a closed map the keys stay as they are, each with the id of its table. */
  lemma ClosedResolves(rels: seq<Relation>, m: Aliases, out: map<string, Id>)
    requires Closed(m) && ResolvedAs(rels, m, out)
    ensures out.Keys == m.Keys && forall k :: k in m ==> out[k] == IdOf(rels, m[k])
  {
    hide FirstNamed, IdOf;
  }

  /** `extract_aliases_with_model`. */
  method ExtractAliases(sql: string, cursor: nat, rels: seq<Relation>) returns (out: map<string, Id>)
    ensures out.Keys == AliasMap(sql, cursor).Keys
    ensures forall k :: k in out ==> out[k] == IdOf(rels, AliasMap(sql, cursor)[k])
  {
    hide Scan, FirstNamed, IdOf, ResolvedAs;
    var m := ExtractAliasMap(sql, cursor);
    out := ResolveAliases(rels, m);
    ScanClosed(false, sql[..Min(cursor, |sql|)], map[]);
    ClosedResolves(rels, m, out);
  }

  // ---- the engine -------------------------------------------------------------------------

  /** The ids of the relations of a name, in any case, in model order. */
  function NamedIds(rels: seq<Relation>, name: string): seq<Id> {
    if rels == [] then []
    else
      var last := rels[|rels| - 1];
      NamedIds(rels[..|rels| - 1], name) + if Lower(last.name) == name then [last.id] else []
  }

  /** The columns of the last relation with an id. */
  function ColumnsById(rels: seq<Relation>, id: Id): Option<seq<string>> {
    if rels == [] then None
    else
      var last := rels[|rels| - 1];
      if last.id == id then Some(ColumnNames(last.columns)) else ColumnsById(rels[..|rels| - 1], id)
  }

  lemma {:induction false} NamedIdsFirst(rels: seq<Relation>, name: string)
    ensures FirstNamed(rels, name) == if NamedIds(rels, name) == [] then None else Some(NamedIds(rels, name)[0])
  {
    if rels != [] {
      var n := |rels| - 1;
      assert rels == rels[..n] + [rels[n]];
      NamedIdsFirst(rels[..n], name);
      FirstNamedLast(rels[..n], rels[n], name);
    }
  }

  predicate StartsWith(name: string, prefix: string) {
    |prefix| <= |name| && Lower(name)[..|prefix|] == Lower(prefix)
  }

  /** The names that begin with the prefix, in any case, in order. */
  function Matching(names: seq<string>, prefix: string): seq<string> {
    if names == [] then []
    else
      var last := names[|names| - 1];
      Matching(names[..|names| - 1], prefix) + if StartsWith(last, prefix) then [last] else []
  }

  function FirstFifty(names: seq<string>): seq<string> {
    if |names| > 50 then names[..50] else names
  }

  /** The name begins with the prefix but for the case of letters. */
  ghost function Begins(prefix: string): string -> bool {
    name => |prefix| <= |name| && forall i :: 0 <= i < |prefix| ==> LowerChar(name[i]) == LowerChar(prefix[i])
  }

  lemma {:induction false} MatchingPicks(names: seq<string>, prefix: string)
    ensures Picked(names, Begins(prefix), Matching(names, prefix))
  {
    if names == [] {
      NothingPicked(Begins(prefix));
    } else {
      var last := names[|names| - 1];
      MatchingPicks(names[..|names| - 1], prefix);
      PickedStep(names, Begins(prefix), Matching(names[..|names| - 1], prefix));
      assert StartsWith(last, prefix) <==> Begins(prefix)(last) by {
        if |prefix| <= |last| {
          assert forall i :: 0 <= i < |prefix| ==> Lower(last)[..|prefix|][i] == LowerChar(last[i]);
        }
      }
    }
  }

  /** The relation a target in front of a dot stands for: the alias map is asked first. */
  function StandsFor(rels: seq<Relation>, aliases: map<string, Id>, target: string): Option<Id> {
    var key := Lower(target);
    if key in aliases then Some(aliases[key]) else FirstNamed(rels, key)
  }

  function OfferedFor(rels: seq<Relation>, id: Id, prefix: string): seq<string> {
    var names := ColumnsById(rels, id);
    if names.Some? then FirstFifty(Matching(names.value, prefix)) else []
  }

  /** The columns of the relation that begin with the prefix, in order, and no more than fifty of them. */
  lemma OfferIs(rels: seq<Relation>, j: nat, prefix: string)
    requires j < |rels| && forall i :: j < i < |rels| ==> rels[i].id != rels[j].id
    ensures exists ys ::
      && Picked(ColumnNames(rels[j].columns), Begins(prefix), ys)
      && OfferedFor(rels, rels[j].id, prefix) == if |ys| <= 50 then ys else ys[..50]
  {
    LastColumns(rels, j);
    MatchingPicks(ColumnNames(rels[j].columns), prefix);
    hide Matching, Picked, ColumnNames, ColumnsById;
  }

  lemma {:induction false} LastColumns(rels: seq<Relation>, j: nat)
    requires j < |rels| && forall i :: j < i < |rels| ==> rels[i].id != rels[j].id
    ensures ColumnsById(rels, rels[j].id) == Some(ColumnNames(rels[j].columns))
  {
    hide ColumnNames;
    if j < |rels| - 1 { LastColumns(rels[..|rels| - 1], j); }
  }

  /** What dot completion offers, or None where the target names no relation. */
  function Offered(rels: seq<Relation>, aliases: map<string, Id>, prefix: string, target: string): Option<seq<string>> {
    var id :- StandsFor(rels, aliases, target);
    Some(OfferedFor(rels, id, prefix))
  }

  ghost predicate NamesIndexed(byName: map<string, seq<Id>>, rels: seq<Relation>) {
    && (forall name :: NamedIds(rels, name) == if name in byName then byName[name] else [])
    && (forall name :: name in byName ==> byName[name] != [])
  }

  ghost predicate ColumnsIndexed(columns: map<Id, seq<string>>, rels: seq<Relation>) {
    forall id :: ColumnsById(rels, id) == if id in columns then Some(columns[id]) else None
  }

  lemma NamesStep(byName: map<string, seq<Id>>, rels: seq<Relation>, rel: Relation)
    requires NamesIndexed(byName, rels)
    ensures
      var name := Lower(rel.name);
      NamesIndexed(byName[name := (if name in byName then byName[name] else []) + [rel.id]], rels + [rel])
  {
    hide Lower;
    assert (rels + [rel])[..|rels|] == rels;
  }

  lemma ColumnsStep(columns: map<Id, seq<string>>, rels: seq<Relation>, rel: Relation)
    requires ColumnsIndexed(columns, rels)
    ensures ColumnsIndexed(columns[rel.id := ColumnNames(rel.columns)], rels + [rel])
  {
    hide ColumnNames;
    assert (rels + [rel])[..|rels|] == rels;
  }

  class CompletionEngine {
    var byName: map<string, seq<Id>>
    var columnsByRelation: map<Id, seq<string>>

    ghost predicate IndexOf(rels: seq<Relation>)
      reads this
    {
      NamesIndexed(byName, rels) && ColumnsIndexed(columnsByRelation, rels)
    }

    constructor (rels: seq<Relation>)
      ensures IndexOf(rels)
    {
      byName, columnsByRelation := map[], map[];
      new;
      for i := 0 to |rels|
        invariant NamesIndexed(byName, rels[..i]) && ColumnsIndexed(columnsByRelation, rels[..i])
      {
        hide Lower, ColumnNames;
        assert rels[..i + 1] == rels[..i] + [rels[i]];
        NamesStep(byName, rels[..i], rels[i]);
        ColumnsStep(columnsByRelation, rels[..i], rels[i]);
        var name := Lower(rels[i].name);
        byName := byName[name := (if name in byName then byName[name] else []) + [rels[i].id]];
        columnsByRelation := columnsByRelation[rels[i].id := ColumnNames(rels[i].columns)];
      }
      assert rels[..|rels|] == rels;
    }

    /** The branch of `complete` for a target in front of a dot. */
    method DotComplete(ghost rels: seq<Relation>, prefix: string, aliases: map<string, Id>, target: string)
      returns (out: Option<seq<string>>)
      requires IndexOf(rels)
      ensures out == Offered(rels, aliases, prefix, target)
    {
      hide Lower, ColumnsById, NamedIds, FirstNamed, StartsWith;
      var key := Lower(target);
      NamedIdsFirst(rels, key);
      assert NamedIds(rels, key) == if key in byName then byName[key] else [];
      var id: Id;
      if key in aliases {
        id := aliases[key];
      } else if key in byName {
        id := byName[key][0];
      } else {
        return None;
      }
      assert ColumnsById(rels, id) == if id in columnsByRelation then Some(columnsByRelation[id]) else None;
      var names: seq<string> := [];
      if id in columnsByRelation {
        names := MatchingNames(columnsByRelation[id], prefix);
      }
      return Some(if |names| > 50 then names[..50] else names);
    }
  }

  /** The loop over the columns. */
  method MatchingNames(names: seq<string>, prefix: string) returns (out: seq<string>)
    ensures out == Matching(names, prefix)
  {
    hide StartsWith;
    out := [];
    for i := 0 to |names|
      invariant out == Matching(names[..i], prefix)
    {
      assert names[..i + 1][..i] == names[..i];
      if StartsWith(names[i], prefix) {
        out := out + [names[i]];
      }
    }
    assert names[..|names|] == names;
  }

  /** `aliases` is what the clauses before the cursor are resolved to. */
  ghost predicate ResolvedFrom(rels: seq<Relation>, cs: seq<Clause>, tail: string, aliases: map<string, Id>) {
    var m := AliasMap(Render(cs, tail), |Render(cs, tail)|);
    aliases.Keys == m.Keys && forall k :: k in aliases ==> aliases[k] == IdOf(rels, m[k])
  }

  /** The table a target means: the last clause with that alias decides, else the first that names the table. */
  function TableMeant(cs: seq<Clause>, tail: string, key: string): Option<string>
    requires forall i :: 0 <= i < |cs| ==> |cs[i].parts| > 0
  {
    var last := LastAliasOf(cs, key);
    if last.Some? then last else FirstTableOf(cs, tail, key)
  }

  /** The relation a target stands for, read off the clauses. */
  lemma ClausesDecideOffer(rels: seq<Relation>, cs: seq<Clause>, tail: string, aliases: map<string, Id>, target: string)
    requires WellFormed(cs, tail) && ResolvedFrom(rels, cs, tail, aliases)
    ensures forall i :: 0 <= i < |cs| ==> |cs[i].parts| > 0
    ensures StandsFor(rels, aliases, target) ==
      var table := TableMeant(cs, tail, Lower(target));
      if table.Some? then Some(IdOf(rels, table.value)) else FirstNamed(rels, Lower(target))
  {
    hide AliasMap, Lower, FirstNamed, WellFormed, Fold, LastAliasOf, FirstTableOf, Render, IdOf;
    PartsGiven(cs, tail);
    ScanIsFold(cs, tail, |Render(cs, tail)|);
    FoldLookup(cs, tail, map[], Lower(target));
  }

  lemma {:induction false} TrimKeepsDots(s: string)
    requires '.' in s
    ensures '.' in TrimLeft(s) && '.' in TrimRight(s)
    decreases |s|
  {
    assert s == [s[0]] + s[1..] && s == s[..|s| - 1] + [s[|s| - 1]];
    if s[0] == '"' { TrimKeepsDots(s[1..]); }
    if s[|s| - 1] == '"' { TrimKeepsDots(s[..|s| - 1]); }
  }

  lemma DotsStay(s: string)
    requires '.' in s
    ensures '.' in Full(s)
  {
    TrimKeepsDots(s);
    TrimKeepsDots(TrimLeft(s));
    var t := TrimQuotes(s);
    var i :| 0 <= i < |t| && t[i] == '.';
    assert Lower(t)[i] == '.';
  }

  /** A qualified name is no table's short name. */
  lemma FullIsNotShort(c: Clause, table: string)
    requires ClauseOk(c) && FullName(c) == table && '.' !in table
    ensures |c.parts| > 0 && ShortName(c) == table
  {
    FullIs(c);
    hide KeywordAt, IsReserved, Silent, NameText, NameOk, AfterLastDot, Lower, TrimQuotes, FullName;
    if |c.parts| > 1 {
      PartsStep(c.parts);
      assert TableText(c)[|NameText(c.parts[0])|] == '.';
      DotsStay(TableText(c));
    } else {
      LastPart(c.parts);
      Unquoted(c.parts[0]);
      OnePart(c.parts[0]);
      assert c.parts == [c.parts[0]];
    }
  }

  lemma ShortIsPlain(c: Clause)
    requires ClauseOk(c) && |c.parts| > 0
    ensures '.' !in ShortName(c) && Lower(ShortName(c)) == ShortName(c)
  {
    NamesOk(c.parts);
    var name := Content(c.parts[|c.parts| - 1]);
    assert '.' !in name;
    forall i | 0 <= i < |name| ensures Lower(name)[i] != '.' {
      assert name[i] in name;
    }
  }

  ghost predicate ClausesOk(cs: seq<Clause>) {
    forall i :: 0 <= i < |cs| ==> ClauseOk(cs[i]) && |cs[i].parts| > 0
  }

  lemma {:induction false} WellFormedOk(cs: seq<Clause>, tail: string)
    requires WellFormed(cs, tail)
    ensures ClausesOk(cs)
  {
    hide EndsAt, AliasOk, Silent;
    if cs != [] {
      WellFormedOk(cs[1..], tail);
      assert forall i :: 0 < i < |cs| ==> cs[i] == cs[1..][i - 1];
    }
  }

  /** A table some clause names is the table its own name means, aliases apart. */
  lemma {:induction false} NamedMeansItself(cs: seq<Clause>, tail: string, table: string, i: nat)
    requires ClausesOk(cs) && i < |cs| && ShortName(cs[i]) == table
    ensures FirstTableOf(cs, tail, table) == Some(table)
  {
    hide ShortName, FullName, CutShort, ClauseOk;
    ShortIsPlain(cs[i]);
    if FullName(cs[0]) == table { FullIsNotShort(cs[0], table); }
    if ShortName(cs[0]) != table {
      assert cs[1..][i - 1] == cs[i];
      NamedMeansItself(cs[1..], tail, table, i - 1);
    }
  }

  /** Distinct relations have distinct ids. */
  ghost predicate DistinctIds(rels: seq<Relation>) {
    forall i, j :: 0 <= i < j < |rels| ==> rels[i].id != rels[j].id
  }

  lemma SameIdSameName(rels: seq<Relation>, a: string, b: string)
    requires DistinctIds(rels) && FirstNamed(rels, a).Some? && FirstNamed(rels, a) == FirstNamed(rels, b)
    ensures a == b
  {
    hide Lower;
    var id := FirstNamed(rels, a).value;
    var i :| 0 <= i < |rels| && Lower(rels[i].name) == a && rels[i].id == id;
    var j :| 0 <= j < |rels| && Lower(rels[j].name) == b && rels[j].id == id;
  }

  /** The table behind an alias is the short name of some clause. */
  lemma {:induction false} AliasIsShort(cs: seq<Clause>, k: string) returns (i: nat)
    requires forall i :: 0 <= i < |cs| ==> |cs[i].parts| > 0
    requires LastAliasOf(cs, k).Some?
    ensures 0 <= i < |cs| && ShortName(cs[i]) == LastAliasOf(cs, k).value
  {
    hide ShortName, AliasKey;
    if LastAliasOf(cs[1..], k).Some? {
      i := AliasIsShort(cs[1..], k);
      i := i + 1;
    } else {
      i := 0;
    }
  }

  /**
   Behind an alias of a table the model knows, completion offers what it offers behind the table's
   own name exactly when no later clause gives that name, as an alias, to another table.
   */
  lemma AliasOffersTable(rels: seq<Relation>, cs: seq<Clause>, tail: string, aliases: map<string, Id>, target: string)
    requires WellFormed(cs, tail) && ResolvedFrom(rels, cs, tail, aliases) && DistinctIds(rels)
    requires forall i :: 0 <= i < |cs| ==> |cs[i].parts| > 0 && FirstNamed(rels, ShortName(cs[i])).Some?
    requires LastAliasOf(cs, Lower(target)).Some?
    ensures
      var table := LastAliasOf(cs, Lower(target)).value;
      var other := LastAliasOf(cs, table);
      && StandsFor(rels, aliases, target) == FirstNamed(rels, table)
      && (StandsFor(rels, aliases, target) == StandsFor(rels, aliases, table) <==> other.None? || other.value == table)
      && (other.None? || other.value == table ==>
            forall prefix :: Offered(rels, aliases, prefix, target) == Offered(rels, aliases, prefix, table))
  {
    hide FirstNamed, LastAliasOf, FirstTableOf, Lower, ShortName, WellFormed, ResolvedFrom, OfferedFor;
    var table := LastAliasOf(cs, Lower(target)).value;
    var other := LastAliasOf(cs, table);
    ClausesDecideOffer(rels, cs, tail, aliases, target);
    ClausesDecideOffer(rels, cs, tail, aliases, table);
    WellFormedOk(cs, tail);
    var i := AliasIsShort(cs, Lower(target));
    ShortIsPlain(cs[i]);
    NamedMeansItself(cs, tail, table, i);
    if other.Some? {
      var j := AliasIsShort(cs, table);
      assert FirstNamed(rels, ShortName(cs[j])).Some?;
      if FirstNamed(rels, other.value) == FirstNamed(rels, table) { SameIdSameName(rels, other.value, table); }
    }
  }

  /** FROM `t1` `a` */
  function First(t1: string, a: string): Clause { Clause("", "FROM", " ", [Bare(t1)], Some(Plain(" ", Bare(a)))) }

  /** JOIN `t2` `t1` */
  function Second(t1: string, t2: string): Clause { Clause(" ", "JOIN", " ", [Bare(t2)], Some(Plain(" ", Bare(t1)))) }

  predicate LowerWord(w: string) { PlainWord(w) && Lower(w) == w && !IsClauseWord(w) }

  lemma TakenText(t1: string, a: string, t2: string)
    ensures Render([First(t1, a), Second(t1, t2)], "") == "FROM " + t1 + " " + a + " JOIN " + t2 + " " + t1
  {
    RenderTwo(First(t1, a), Second(t1, t2));
    TakenClause(Second(t1, t2), t2, "");
    TakenClause(First(t1, a), t1, ClauseText(Second(t1, t2), ""));
    hide ClauseText, Render;
    TakenWhole(t1, a, t2, ClauseText(Second(t1, t2), ""));
  }

  lemma RenderTwo(f: Clause, s: Clause)
    ensures Render([f, s], "") == ClauseText(f, ClauseText(s, ""))
  {
    hide ClauseText;
    TailIs("");
    assert [f, s][1..] == [s] && [s][1..] == [];
    assert Render([s], "") == ClauseText(s, "");
  }

  lemma TakenWhole(t1: string, a: string, t2: string, second: string)
    requires second == " " + "JOIN" + " " + t2 + " " + t1 + ""
    ensures "" + "FROM" + " " + t1 + " " + a + second == "FROM " + t1 + " " + a + " JOIN " + t2 + " " + t1
  {
    assert second == " JOIN " + t2 + " " + t1;
  }

  lemma TakenClause(c: Clause, t: string, rest: string)
    requires c.parts == [Bare(t)] && c.alias.Some? && c.alias.value.Plain? && c.alias.value.name.Bare?
    ensures ClauseText(c, rest) == c.filler + c.keyword + c.gap + t + c.alias.value.gap + c.alias.value.name.word + rest
  {
    OnePart(Bare(t));
  }

  lemma Keywords()
    ensures Lower("FROM") == "from" && Lower("JOIN") == "join" && !KeywordAt(false, " ")
  {
  }

  lemma TakenOk(t1: string, a: string, t2: string)
    requires LowerWord(t1) && LowerWord(a) && LowerWord(t2)
    ensures WellFormed([First(t1, a), Second(t1, t2)], "")
  {
    Keywords();
    TakenText(t1, a, t2);
    hide Lower, IsReserved, KeywordAt, Render, PlainWord;
    var f, s := First(t1, a), Second(t1, t2);
    assert Silent(false, "") && Silent(false, " ") by { assert " "[1..] == ""; }
    assert ClauseOk(f) && ClauseOk(s);
    assert [f, s][1..] == [s] && [s][1..] == [];
    RenderStarts(s);
    TailIs("");
    hide ClauseOk, First, Second, Silent;
    assert WellFormed([], "");
    assert EndsAt(s, Render([], "")) && WellFormed([s], "");
    assert EndsAt(f, Render([s], ""));
  }

  lemma RenderStarts(c: Clause)
    requires c.filler == " "
    ensures Render([c], "") != "" && Render([c], "")[0] == ' '
  {
  }

  lemma TailIs(tail: string)
    ensures Render([], tail) == tail
  {
  }

  lemma LastOfOne(c: Clause, k: string)
    requires |c.parts| > 0
    ensures LastAliasOf([c], k) == if AliasKey(c) == Some(k) then Some(ShortName(c)) else None
  {
    hide AliasKey, ShortName;
    assert [c][1..] == [] && LastAliasOf([], k) == None;
  }

  lemma TakenAliases(t1: string, a: string, t2: string)
    requires LowerWord(t1) && LowerWord(a) && LowerWord(t2) && a != t1
    ensures
      var cs := [First(t1, a), Second(t1, t2)];
      && LastAliasOf(cs, a) == Some(t1) && LastAliasOf(cs, t1) == Some(t2)
      && ShortName(cs[0]) == t1 && ShortName(cs[1]) == t2
  {
    hide Lower, IsReserved, PlainWord;
    var f, s := First(t1, a), Second(t1, t2);
    assert AliasKey(f) == Some(a) && AliasKey(s) == Some(t1) && ShortName(f) == t1 && ShortName(s) == t2;
    assert [f, s][1..] == [s] && [s][1..] == [];
    LastOfOne(s, a);
    LastOfOne(s, t1);
  }

  /**
   When the second table is called by the first one's name, as in `FROM users u JOIN orders users`,
   the alias and the name of the first table stand for different relations.
   */
  lemma NameTaken(rels: seq<Relation>, aliases: map<string, Id>, t1: string, a: string, t2: string)
    requires LowerWord(t1) && LowerWord(a) && LowerWord(t2) && a != t1 && t1 != t2
    requires ResolvedFrom(rels, [First(t1, a), Second(t1, t2)], "", aliases) && DistinctIds(rels)
    requires FirstNamed(rels, t1).Some? && FirstNamed(rels, t2).Some?
    ensures Render([First(t1, a), Second(t1, t2)], "") == "FROM " + t1 + " " + a + " JOIN " + t2 + " " + t1
    ensures StandsFor(rels, aliases, a) == FirstNamed(rels, t1)
    ensures StandsFor(rels, aliases, t1) == FirstNamed(rels, t2) != FirstNamed(rels, t1)
  {
    TakenText(t1, a, t2);
    TakenOk(t1, a, t2);
    TakenAliases(t1, a, t2);
    hide Lower, IsReserved, PlainWord, WellFormed, ResolvedFrom, LastAliasOf, FirstNamed, ShortName;
    hide StandsFor, Render, FirstTableOf;
    hide First, Second;
    var cs := [First(t1, a), Second(t1, t2)];
    ClausesDecideOffer(rels, cs, "", aliases, a);
    ClausesDecideOffer(rels, cs, "", aliases, t1);
    if FirstNamed(rels, t1) == FirstNamed(rels, t2) { SameIdSameName(rels, t1, t2); }
  }

  /** The words of that text are such words. */
  lemma TakenWords()
    ensures LowerWord("users") && LowerWord("u") && LowerWord("orders")
  {
    hide LowerWord;
    Users();
    U();
    Orders();
  }

  lemma Users()
    ensures LowerWord("users")
  {
    assert Lower("users") == "users";
  }

  lemma U()
    ensures LowerWord("u")
  {
    assert Lower("u") == "u";
  }

  lemma Orders()
    ensures LowerWord("orders")
  {
    assert Lower("orders") == "orders";
  }

  // ---- the editor -------------------------------------------------------------------------

  /** `wide` are the letters and digits outside ASCII, which belong to a name as well. */
  predicate IsNameChar(c: char, wide: set<char>) {
    IsWordChar(c) || c == '$' || ('\U{0080}' <= c && c in wide)
  }

  predicate IsRunChar(c: char, wide: set<char>) {
    IsNameChar(c, wide) || c == '.' || c == '"'
  }

  /** The characters the backward loop goes over, one by one. */
  lemma RunCharsAre(c: char, wide: set<char>)
    ensures IsRunChar(c, wide) <==>
      || c in "abcdefghijklmnopqrstuvwxyz" || c in "ABCDEFGHIJKLMNOPQRSTUVWXYZ" || c in "0123456789" || c in "_$.\""
      || (c as int >= 0x80 && c in wide)
    ensures IsNameChar(c, wide) <==> IsRunChar(c, wide) && c !in ".\""
  {
    CharactersAre(c);
    hide IsWordChar, IsAlpha;
    if '\U{0080}' <= c { NotAscii(c); }
  }

  lemma NotAscii(c: char)
    requires '\U{0080}' <= c
    ensures !IsWordChar(c)
  {
  }

  predicate NamePart(s: string, wide: set<char>) {
    forall i :: 0 <= i < |s| ==> IsNameChar(s[i], wide)
  }

  /** Where the identifier text at the end of `s` starts. */
  function RunStart(s: string, wide: set<char>): (i: nat)
    ensures i <= |s| && (i > 0 ==> !IsRunChar(s[i - 1], wide)) && forall k :: i <= k < |s| ==> IsRunChar(s[k], wide)
  {
    if s == "" || !IsRunChar(s[|s| - 1], wide) then |s| else RunStart(s[..|s| - 1], wide)
  }

  /** `rfind('.')`. */
  function LastDot(s: string): (r: Option<nat>)
    ensures r.Some? ==> r.value < |s| && s[r.value] == '.' && '.' !in s[r.value + 1..]
    ensures r.None? ==> '.' !in s
  {
    if s == "" then None
    else if s[|s| - 1] == '.' then Some(|s| - 1)
    else
      var n := |s| - 1;
      assert s == s[..n] + [s[n]];
      var r := LastDot(s[..n]);
      assert r.Some? ==> s[r.value + 1..] == s[..n][r.value + 1..] + [s[n]];
      r
  }

  function SplitRun(run: string): (string, Option<string>) {
    if run == "" then ("", None)
    else
      var dot := LastDot(run);
      if dot.None? then (TrimQuotes(run), None)
      else
        var target := TrimQuotes(AfterLastDot(run[..dot.value]));
        (TrimQuotes(run[dot.value + 1..]), if target == "" then None else Some(target))
  }

  /** The backward loop that finds the text to complete. */
  method CompletionTarget(before: string, wide: set<char>) returns (prefix: string, target: Option<string>)
    ensures (prefix, target) == SplitRun(before[RunStart(before, wide)..])
  {
    var start := |before|;
    assert before[..start] == before;
    while start > 0 && IsRunChar(before[start - 1], wide)
      invariant 0 <= start <= |before|
      invariant RunStart(before[..start], wide) == RunStart(before, wide)
    {
      assert before[..start][..start - 1] == before[..start - 1];
      start := start - 1;
    }
    var (p, t) := SplitRun(before[start..]);
    return p, t;
  }

  /** A word, a dot and the beginning of another, behind anything else, are target and prefix. */
  lemma TargetAndPrefix(head: string, target: string, prefix: string, wide: set<char>)
    requires head == "" || !IsRunChar(head[|head| - 1], wide)
    requires target != "" && NamePart(target, wide) && NamePart(prefix, wide)
    ensures
      var before := head + (target + "." + prefix);
      SplitRun(before[RunStart(before, wide)..]) == (prefix, Some(target))
  {
    hide IsRunChar, TrimQuotes, AfterLastDot, SplitRun;
    var run := target + "." + prefix;
    var before := head + run;
    RunIs(target, prefix, wide);
    assert before[|head|..] == run;
    RunStartIs(before, |head|, wide);
    SplitAtDot(target, prefix);
    AfterLastDotOf("", target);
    assert "" + target == target;
    NoQuotes(target);
    if prefix != "" { NoQuotes(prefix); } else { NothingTrimmed(); }
  }

  /** Text without a dot is all prefix. */
  lemma NoDotNoTarget(head: string, prefix: string, wide: set<char>)
    requires head == "" || !IsRunChar(head[|head| - 1], wide)
    requires NamePart(prefix, wide)
    ensures var before := head + prefix; SplitRun(before[RunStart(before, wide)..]) == (prefix, None)
  {
    var before := head + prefix;
    assert before[|head|..] == prefix;
    RunStartIs(before, |head|, wide);
    hide IsRunChar, TrimQuotes, RunStart;
    assert '.' !in prefix;
    if prefix != "" { NoQuotes(prefix); }
  }

  /** Of a dotted target the last part counts, without the quotes around it. */
  lemma QualifiedTarget(head: string, front: string, target: string, name: string, prefix: string, wide: set<char>)
    requires head == "" || !IsRunChar(head[|head| - 1], wide)
    requires forall i :: 0 <= i < |front| ==> IsRunChar(front[i], wide)
    requires front == "" || front[|front| - 1] == '.'
    requires target != "" && NamePart(target, wide) && NamePart(prefix, wide)
    requires name == target || name == "\"" + target + "\""
    ensures
      var before := head + (front + (name + "." + prefix));
      SplitRun(before[RunStart(before, wide)..]) == (prefix, Some(target))
  {
    var run := front + (name + "." + prefix);
    QualifiedRun(front, target, name, prefix, wide);
    RunIsAt(head, run, wide);
    QualifiedSplit(front, target, name, prefix, wide);
    hide *;
  }

  lemma QualifiedSplit(front: string, target: string, name: string, prefix: string, wide: set<char>)
    requires front == "" || front[|front| - 1] == '.'
    requires target != "" && NamePart(target, wide) && NamePart(prefix, wide)
    requires name == target || name == "\"" + target + "\""
    ensures SplitRun(front + (name + "." + prefix)) == (prefix, Some(target))
  {
    NoDotIn(target, wide);
    NoDotIn(prefix, wide);
    TrimmedName(target, name, wide);
    NoDotInName(target, name);
    hide *;
    assert front + (name + "." + prefix) == (front + name) + "." + prefix;
    SplitAtDot(front + name, prefix);
    AfterLastDotOf(front, name);
    if prefix != "" { NoQuotes(prefix); } else { NothingTrimmed(); }
  }

  lemma NoDotInName(target: string, name: string)
    requires '.' !in target && (name == target || name == "\"" + target + "\"")
    ensures '.' !in name
  {
  }

  lemma RunIsAt(head: string, run: string, wide: set<char>)
    requires head == "" || !IsRunChar(head[|head| - 1], wide)
    requires forall k :: 0 <= k < |run| ==> IsRunChar(run[k], wide)
    ensures (head + run)[RunStart(head + run, wide)..] == run
  {
    assert (head + run)[|head|..] == run;
    hide IsRunChar;
    RunStartIs(head + run, |head|, wide);
  }

  lemma QualifiedRun(front: string, target: string, name: string, prefix: string, wide: set<char>)
    requires forall i :: 0 <= i < |front| ==> IsRunChar(front[i], wide)
    requires NamePart(target, wide) && (name == target || name == "\"" + target + "\"")
    requires NamePart(prefix, wide)
    ensures var run := front + (name + "." + prefix); forall k :: 0 <= k < |run| ==> IsRunChar(run[k], wide)
  {
    hide IsNameChar;
    assert forall i :: 0 <= i < |name| ==> IsRunChar(name[i], wide);
  }

  lemma NoDotIn(s: string, wide: set<char>)
    requires NamePart(s, wide)
    ensures '.' !in s && (s != "" ==> s[0] != '"' && s[|s| - 1] != '"')
  {
  }

  lemma TrimmedName(target: string, name: string, wide: set<char>)
    requires target != "" && NamePart(target, wide) && (name == target || name == "\"" + target + "\"")
    ensures TrimQuotes(name) == target
  {
    NoDotIn(target, wide);
    if name == target {
      NoQuotes(target);
    } else {
      TrimBoth(name, 1, 1);
      assert name[1..|name| - 1] == target;
    }
  }

  lemma SplitAtDot(target: string, prefix: string)
    requires '.' !in prefix
    ensures
      var name := TrimQuotes(AfterLastDot(target));
      SplitRun(target + "." + prefix) == (TrimQuotes(prefix), if name == "" then None else Some(name))
  {
    hide TrimQuotes, AfterLastDot, LastDot;
    var run := target + "." + prefix;
    LastDotIs(target, prefix);
    assert run[..|target|] == target && run[|target| + 1..] == prefix;
  }

  lemma NothingTrimmed()
    ensures TrimQuotes("") == ""
  {
  }

  lemma RunIs(target: string, prefix: string, wide: set<char>)
    requires target != "" && NamePart(target, wide) && NamePart(prefix, wide)
    ensures var run := target + "." + prefix; forall k :: 0 <= k < |run| ==> IsRunChar(run[k], wide)
  {
  }

  lemma RunStartIs(s: string, i: nat, wide: set<char>)
    requires i <= |s| && (i > 0 ==> !IsRunChar(s[i - 1], wide))
    requires forall k :: 0 <= k < |s[i..]| ==> IsRunChar(s[i..][k], wide)
    ensures RunStart(s, wide) == i
  {
    assert forall k :: i <= k < |s| ==> s[k] == s[i..][k - i];
  }

  lemma {:induction false} LastDotIs(target: string, prefix: string)
    requires '.' !in prefix
    ensures LastDot(target + "." + prefix) == Some(|target|)
  {
    var run := target + "." + prefix;
    if prefix == "" {
      assert run[|run| - 1] == '.';
    } else {
      var n := |prefix| - 1;
      assert run[..|run| - 1] == target + "." + prefix[..n];
      assert run[|run| - 1] == prefix[n];
      LastDotIs(target, prefix[..n]);
    }
  }

  /** How many characters the first `n` octets of a text are, or None when they end inside one. */
  function CharsAt(s: string, n: nat): (r: Option<nat>)
    ensures r.Some? ==> r.value <= |s|
  {
    if n == 0 then Some(0)
    else if s == "" || n < |Utf8.EncodeChar(s[0])| then None
    else
      var r :- CharsAt(s[1..], n - |Utf8.EncodeChar(s[0])|);
      Some(r + 1)
  }

  lemma {:induction false} CharsBack(s: string, i: nat)
    requires i <= |s|
    ensures CharsAt(s, |Utf8.Encode(s[..i])|) == Some(i)
  {
    hide Utf8.EncodeChar;
    if i > 0 {
      CharsBack(s[1..], i - 1);
      assert s[..i][1..] == s[1..][..i - 1] && s[..i][0] == s[0];
      Utf8.CharIsSome(s[0]);
    }
  }

  /**
   What the editor makes of a pick: the text, and where the cursor goes, in octets. Nothing is
   changed when the octets to replace do not begin with a character.
   */
  function Splice(content: string, cursor: nat, prefix: string, insert: string): Option<(string, nat)>
    requires cursor <= |content|
  {
    var start := SaturatingSub(|Utf8.Encode(content[..cursor])|, |Utf8.Encode(prefix)|);
    var chars :- CharsAt(content[..cursor], start);
    Some((content[..chars] + insert + content[cursor..], start + |Utf8.Encode(insert)|))
  }

  lemma {:induction false} TrimLeftKeeps(s: string)
    ensures |TrimLeft(s)| <= |s| && s[|s| - |TrimLeft(s)|..] == TrimLeft(s)
    ensures TrimLeft(s) == "" || (TrimLeft(s)[0] != '"' && TrimLeft(s)[|TrimLeft(s)| - 1] == s[|s| - 1])
  {
    if s != "" && s[0] == '"' { TrimLeftKeeps(s[1..]); }
  }

  lemma {:induction false} TrimRightIs(s: string)
    ensures |TrimRight(s)| <= |s|
    ensures TrimRight(s) == "" || TrimRight(s)[|TrimRight(s)| - 1] != '"'
    ensures s != "" && s[|s| - 1] != '"' ==> TrimRight(s) == s
  {
    if s != "" && s[|s| - 1] == '"' { TrimRightIs(s[..|s| - 1]); }
  }

  /** The text that is typed so far, quotes and all: what stands behind the last dot. */
  function TypedPart(run: string): (part: string)
    ensures |part| <= |run| && run[|run| - |part|..] == part
  {
    var dot := LastDot(run);
    if dot.None? then run else run[dot.value + 1..]
  }

  lemma PrefixIsTrimmed(run: string)
    ensures SplitRun(run).0 == TrimQuotes(TypedPart(run))
  {
    hide LastDot, AfterLastDot;
    if run == "" { NothingTrimmed(); }
  }

  /** The text ends in what is left of a typed part without its quotes exactly when no quote closes the part. */
  lemma EndsInTrimmed(before: string, part: string)
    requires |part| <= |before| && before[|before| - |part|..] == part
    ensures
      var prefix := TrimQuotes(part);
      && |prefix| <= |before|
      && (before[|before| - |prefix|..] == prefix <==> prefix == "" || before[|before| - 1] != '"')
  {
    var left, prefix := TrimLeft(part), TrimQuotes(part);
    TrimLeftKeeps(part);
    TrimRightIs(left);
    if prefix != "" {
      assert before[|before| - |prefix|..][|prefix| - 1] == before[|before| - 1] == part[|part| - 1];
      if part[|part| - 1] != '"' {
        assert prefix == left;
        assert before[|before| - |prefix|..] == part[|part| - |prefix|..];
      }
    }
  }

  /** `insert` stands where `prefix` stood before the cursor, and the cursor behind it. */
  predicate Replaced(before: string, after: string, prefix: string, insert: string, r: Option<(string, nat)>) {
    && |prefix| <= |before| && before[|before| - |prefix|..] == prefix
    && var kept := before[..|before| - |prefix|];
       r == Some((kept + insert + after, |Utf8.Encode(kept + insert)|))
  }

  /**
   A pick replaces the prefix that the text before the cursor is split into exactly when that is
   empty or no quote closes it: quotes are trimmed off the prefix but not off what is replaced.
   */
  lemma SpliceReplacesPrefixIff(before: string, after: string, insert: string, wide: set<char>)
    ensures
      var prefix := SplitRun(before[RunStart(before, wide)..]).0;
      Replaced(before, after, prefix, insert, Splice(before + after, |before|, prefix, insert)) <==>
        prefix == "" || before[|before| - 1] != '"'
  {
    hide TrimQuotes, SplitRun, Splice, Replaced;
    var run := before[RunStart(before, wide)..];
    hide RunStart;
    PrefixIsTrimmed(run);
    TypedEnds(before, run);
    hide TypedPart;
    EndsInTrimmed(before, TypedPart(run));
    SpliceIs(before, after, TrimQuotes(TypedPart(run)), insert);
  }

  lemma TypedEnds(before: string, run: string)
    requires |run| <= |before| && before[|before| - |run|..] == run
    ensures var part := TypedPart(run); |part| <= |before| && before[|before| - |part|..] == part
  {
    var part := TypedPart(run);
    hide TypedPart;
    assert before[|before| - |part|..] == run[|run| - |part|..];
  }

  lemma SpliceIs(before: string, after: string, prefix: string, insert: string)
    requires |prefix| <= |before|
    ensures Replaced(before, after, prefix, insert, Splice(before + after, |before|, prefix, insert)) <==>
      before[|before| - |prefix|..] == prefix
  {
    hide Utf8.Encode, CharsAt;
    var kept := before[..|before| - |prefix|];
    assert (before + after)[..|before|] == before && (before + after)[|before|..] == after;
    if before[|before| - |prefix|..] == prefix {
      assert before == kept + prefix;
      Utf8.EncodeAppend(kept, prefix);
      Utf8.EncodeAppend(kept, insert);
      assert before[..|kept|] == kept == (before + after)[..|kept|];
      CharsBack(before, |kept|);
    }
  }
}
