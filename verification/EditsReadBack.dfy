/**
 The printed UPDATEs read back: which column is set from which parameter, and which column is
 compared with which. The optimistic one is the intended statement exactly when no identifier
 in it contains the text its guard is spliced in at.
 */
module EditsReadBack {
  import opened Prelude
  import opened SqlText
  import opened UpdateText
  import opened Relations
  import opened Edits

  /** `name = $k` for each name, counting up from `first`. */
  function Terms(names: seq<string>, first: nat): (ts: seq<Term>)
    ensures |ts| == |names|
    ensures forall i :: 0 <= i < |names| ==> ts[i] == Term(names[i], first + i)
  {
    if names == [] then [] else [Term(names[0], first)] + Terms(names[1..], first + 1)
  }

  /** The statement an update is meant to be: parameters numbered SET first, then WHERE. */
  function Stmt(table: string, sets: seq<string>, wheres: seq<string>): UpdateStmt {
    Update(table, Terms(sets, 1), Terms(wheres, |sets| + 1))
  }

  function RungsOf(sep: Sep, names: seq<string>): (rs: seq<Rung>)
    ensures |rs| == |names| && forall i :: 0 <= i < |names| ==> rs[i] == Rung(sep, names[i])
  {
    MapSeq(names, name => Rung(sep, name))
  }

  function StmtRungs(table: string, sets: seq<string>, wheres: seq<string>): seq<Rung>
    requires |sets| > 0 && |wheres| > 0
  {
    [Rung(Head, table), Rung(SetSep, sets[0])] + RungsOf(Comma, sets[1..]) +
    ([Rung(WhereSep, wheres[0])] + RungsOf(AndSep, wheres[1..]))
  }

  // ---- ladders of several parts -----------------------------------------------------------

  lemma {:induction false} LadderAppend(a: seq<Rung>, b: seq<Rung>, k: nat)
    requires forall i :: 0 <= i < |a| ==> !a[i].sep.Head?
    ensures Ladder(a + b, k) == Ladder(a, k) + Ladder(b, k + |a|)
    ensures LadderToks(a + b, k) == LadderToks(a, k) + LadderToks(b, k + |a|)
  {
    if a == [] {
      assert a + b == b;
    } else {
      var g, gt := Gap(a[0].sep, k) + QuoteIdent(a[0].name), GapToks(a[0].sep, k) + [Ident(a[0].name)];
      assert (a + b)[0] == a[0] && (a + b)[1..] == a[1..] + b;
      LadderAppend(a[1..], b, k + 1);
      Assoc(g, Ladder(a[1..], k + 1), Ladder(b, k + |a|));
      Assoc(gt, LadderToks(a[1..], k + 1), LadderToks(b, k + |a|));
    }
  }

  lemma LadderCons(r: Rung, rs: seq<Rung>, k: nat)
    ensures Ladder([r] + rs, k) == Gap(r.sep, k) + QuoteIdent(r.name) + Ladder(rs, NextPlace(r, k))
    ensures LadderToks([r] + rs, k) == GapToks(r.sep, k) + [Ident(r.name)] + LadderToks(rs, NextPlace(r, k))
  {
    assert ([r] + rs)[1..] == rs;
  }

  function PlaceText(k: nat): string { "=$" + Dec(k) }

  function PlaceToks(k: nat): seq<Tok> { [Sym('='), Param(k)] }

  /** A joined list of assignments is a quoted name, a ladder, and the last placeholder. */
  lemma {:induction false} JoinIsLadder(names: seq<string>, first: nat, sep: Sep)
    requires |names| > 0 && (sep.Comma? || sep.AndSep?)
    ensures Join(Assigns(names, first), SepText(sep)) ==
      QuoteIdent(names[0]) + (Ladder(RungsOf(sep, names[1..]), first) + PlaceText(first + |names| - 1))
    ensures TermToks(Terms(names, first), SepTok(sep)) ==
      [Ident(names[0])] + (LadderToks(RungsOf(sep, names[1..]), first) + PlaceToks(first + |names| - 1))
  {
    hide QuoteIdent, Dec;
    var q := QuoteIdent(names[0]);
    if |names| == 1 {
      assert RungsOf(sep, names[1..]) == [];
      assert Ladder([], first) + PlaceText(first) == PlaceText(first);
      assert LadderToks([], first) + PlaceToks(first) == PlaceToks(first);
      assert q + "=$" + Dec(first) == q + PlaceText(first);
    } else {
      JoinIsLadder(names[1..], first + 1, sep);
      var rs, last := RungsOf(sep, names[1..][1..]), first + |names| - 1;
      assert RungsOf(sep, names[1..]) == [Rung(sep, names[1])] + rs;
      LadderCons(Rung(sep, names[1]), rs, first);
      JoinStep(q, first, SepText(sep), QuoteIdent(names[1]), Ladder(rs, first + 1), PlaceText(last));
      ToksStep(Ident(names[0]), first, SepTok(sep), Ident(names[1]), LadderToks(rs, first + 1), PlaceToks(last));
    }
  }

  lemma JoinStep(q: string, k: nat, sep: string, q1: string, ladder: string, last: string)
    ensures q + "=$" + Dec(k) + sep + (q1 + (ladder + last)) == q + ("=$" + Dec(k) + sep + q1 + ladder + last)
  {
    hide Dec;
  }

  lemma ToksStep(id: Tok, k: nat, sep: Tok, id1: Tok, ladder: seq<Tok>, last: seq<Tok>)
    ensures [id, Sym('='), Param(k)] + ([sep] + ([id1] + (ladder + last))) ==
      [id] + ([Sym('='), Param(k), sep] + [id1] + ladder + last)
  {
  }

  /** The SET and the WHERE half of the ladder. */
  lemma HalvesAre(table: string, sets: seq<string>, wheres: seq<string>)
    requires |sets| > 0 && |wheres| > 0
    ensures
      var n, l1, l2 := |sets|, RungsOf(Comma, sets[1..]), RungsOf(AndSep, wheres[1..]);
      && Ladder(StmtRungs(table, sets, wheres), 0) ==
           "UPDATE " + QuoteIdent(table) + ((" SET " + QuoteIdent(sets[0]) + Ladder(l1, 1)) +
           (PlaceText(n) + " WHERE " + QuoteIdent(wheres[0]) + Ladder(l2, n + 1)))
      && LadderToks(StmtRungs(table, sets, wheres), 0) ==
           [Word("UPDATE"), Ident(table)] + (([Word("SET"), Ident(sets[0])] + LadderToks(l1, 1)) +
           (PlaceToks(n) + [Word("WHERE"), Ident(wheres[0])] + LadderToks(l2, n + 1)))
  {
    var n, l1, l2 := |sets|, RungsOf(Comma, sets[1..]), RungsOf(AndSep, wheres[1..]);
    var a, b := [Rung(SetSep, sets[0])] + l1, [Rung(WhereSep, wheres[0])] + l2;
    assert StmtRungs(table, sets, wheres) == [Rung(Head, table)] + (a + b);
    hide StmtRungs, RungsOf, QuoteIdent, Dec;
    LadderCons(Rung(Head, table), a + b, 0);
    LadderAppend(a, b, 0);
    LadderCons(Rung(SetSep, sets[0]), l1, 0);
    LadderCons(Rung(WhereSep, wheres[0]), l2, n);
    HeadToks(table, LadderToks(a + b, 0));
    SetToks(sets[0], LadderToks(l1, 1));
    WhereHalfToks(n, wheres[0], LadderToks(l2, n + 1));
  }

  lemma HeadToks(name: string, ts: seq<Tok>)
    ensures GapToks(Head, 0) + [Ident(name)] + ts == [Word("UPDATE"), Ident(name)] + ts
  {
  }

  lemma SetToks(name: string, ts: seq<Tok>)
    ensures GapToks(SetSep, 0) + [Ident(name)] + ts == [Word("SET"), Ident(name)] + ts
  {
  }

  lemma WhereHalfToks(n: nat, name: string, ts: seq<Tok>)
    ensures GapToks(WhereSep, n) + [Ident(name)] + ts == PlaceToks(n) + [Word("WHERE"), Ident(name)] + ts
  {
  }

  lemma RegroupHead(
    u: string, t: string, s: string, q: string, l1: string, p: string, w: string, q2: string, l2: string, last: string
  )
    ensures u + t + s + (q + (l1 + p)) + w + (q2 + (l2 + last)) ==
      u + t + ((s + q + l1) + (p + w + q2 + l2)) + last
  {
  }

  lemma RegroupToks(t: Tok, q: Tok, l1: seq<Tok>, p: seq<Tok>, q2: Tok, l2: seq<Tok>, last: seq<Tok>)
    ensures [Word("UPDATE"), t, Word("SET")] +
      (([q] + (l1 + p)) + ([Word("WHERE")] + (([q2] + (l2 + last)) + [Word("RETURNING"), Sym('*')]))) ==
      [Word("UPDATE"), t] + (([Word("SET"), q] + l1) + (p + [Word("WHERE"), q2] + l2)) +
        (last + [Word("RETURNING"), Sym('*')])
  {
  }

  /** Text and tokens of a printed update, as one ladder and the last placeholder. */
  lemma StmtIsLadder(table: string, sets: seq<string>, wheres: seq<string>)
    requires |sets| > 0 && |wheres| > 0
    ensures UpdateHead(table, sets, wheres) == Ladder(StmtRungs(table, sets, wheres), 0) + PlaceText(|sets| + |wheres|)
    ensures UpdateToks(Stmt(table, sets, wheres)) ==
      LadderToks(StmtRungs(table, sets, wheres), 0) + (PlaceToks(|sets| + |wheres|) + [Word("RETURNING"), Sym('*')])
  {
    hide Join, Assigns, Ladder, LadderToks, StmtRungs, RungsOf, QuoteIdent, Dec, PlaceText, PlaceToks, TermToks, Terms;
    var n, k, l1, l2 := |sets|, |sets| + |wheres|, RungsOf(Comma, sets[1..]), RungsOf(AndSep, wheres[1..]);
    HalvesAre(table, sets, wheres);
    JoinIsLadder(sets, 1, Comma);
    JoinIsLadder(wheres, n + 1, AndSep);
    RegroupHead("UPDATE ", QuoteIdent(table), " SET ", QuoteIdent(sets[0]), Ladder(l1, 1), PlaceText(n),
                " WHERE ", QuoteIdent(wheres[0]), Ladder(l2, n + 1), PlaceText(k));
    RegroupToks(Ident(table), Ident(sets[0]), LadderToks(l1, 1), PlaceToks(n),
                Ident(wheres[0]), LadderToks(l2, n + 1), PlaceToks(k));
  }

  // ---- the plain update -------------------------------------------------------------------

  lemma TailPiece(k: nat)
    ensures Closed(PlaceText(k) + MARK, PlaceToks(k) + [Word("RETURNING"), Sym('*')])
  {
    PlacePiece(k);
    SpacedWordPiece("RETURNING");
    SymPiece('*');
    OpenOpen(" " + "RETURNING" + " ", [Word("RETURNING")], "*", [Sym('*')]);
    assert " " + "RETURNING" + " " + "*" == MARK;
    assert [Word("RETURNING")] + [Sym('*')] == [Word("RETURNING"), Sym('*')];
    ClosedOpen(PlaceText(k), PlaceToks(k), MARK, [Word("RETURNING"), Sym('*')]);
  }

  /** Whatever the names are, the printed update reads back as the statement it is meant to be. */
  lemma UpdateReadsBack(table: string, sets: seq<string>, wheres: seq<string>)
    requires |sets| > 0 && |wheres| > 0
    ensures ReadUpdate(UpdateHead(table, sets, wheres) + MARK) == Some(Stmt(table, sets, wheres))
  {
    var rungs, k := StmtRungs(table, sets, wheres), |sets| + |wheres|;
    assert HeadFirst(rungs) && |rungs| > 0;
    hide StmtRungs, Ladder, LadderToks, UpdateHead, UpdateToks, Closed, Lex, HeadFirst;
    LadderPiece(rungs, 0);
    TailPiece(k);
    assert Delim(PlaceText(k) + MARK) by { assert (PlaceText(k) + MARK)[0] == '='; }
    ClosedClosed(Ladder(rungs, 0), LadderToks(rungs, 0),
                 PlaceText(k) + MARK, PlaceToks(k) + [Word("RETURNING"), Sym('*')]);
    StmtIsLadder(table, sets, wheres);
    Assoc(Ladder(rungs, 0), PlaceText(k), MARK);
    LexWhole(UpdateHead(table, sets, wheres) + MARK, UpdateToks(Stmt(table, sets, wheres)));
    ParseUpdateBack(Stmt(table, sets, wheres));
  }

  // ---- the optimistic update --------------------------------------------------------------

  /** No identifier of the update holds the mark. */
  ghost predicate Unmarked(rel: Relation, diffs: seq<ColumnDiff>) {
    && !HasMark(rel.name)
    && (forall i :: 0 <= i < |diffs| ==> !HasMark(diffs[i].col))
    && (forall i :: 0 <= i < |KeyNamesOf(rel)| ==> !HasMark(KeyNamesOf(rel)[i]))
  }

  lemma AnyMarkedIff(rel: Relation, diffs: seq<ColumnDiff>)
    requires |diffs| > 0 && |KeyNamesOf(rel)| > 0
    ensures AnyMarked(StmtRungs(rel.name, DiffNames(diffs), KeyNamesOf(rel))) <==> !Unmarked(rel, diffs)
  {
    hide HasMark;
    var rungs, n := StmtRungs(rel.name, DiffNames(diffs), KeyNamesOf(rel)), |diffs|;
    assert rungs[0].name == rel.name && |rungs| == 1 + n + |KeyNamesOf(rel)|;
    assert forall i :: 0 <= i < n ==> rungs[i + 1].name == diffs[i].col;
    assert forall i :: 0 <= i < |KeyNamesOf(rel)| ==> rungs[i + 1 + n].name == KeyNamesOf(rel)[i];
    if AnyMarked(rungs) {
      var i :| 0 <= i < |rungs| && HasMark(rungs[i].name);
      assert i == 0 || rungs[i].name == (if i <= n then diffs[i - 1].col else KeyNamesOf(rel)[i - 1 - n]);
    }
  }

  lemma PlaceHasNoMark(k: nat)
    ensures !HasMark(PlaceText(k) + " RETURNING ")
  {
    DecReadBack(k);
    hide HasMark, Dec;
    var d := Dec(k);
    assert '*' !in d && '*' !in " RETURNING ";
    NoStarNoMark(PlaceText(k) + " RETURNING ");
  }

  lemma MarkAtEnd(head: string)
    ensures MarkAt(head + MARK, |head|)
  {
    assert (head + MARK)[|head|..] == MARK;
  }

  /** Where all but the last character of the mark makes no mark, the first one is the one at the end. */
  lemma FirstMarkAtEnd(head: string, most: string, last: string)
    requires MARK == most + last && |last| == 1 && !HasMark(head + most)
    ensures FirstMark(head + MARK) == Some(|head|)
  {
    hide *;
    var s := head + MARK;
    Assoc(head, most, last);
    MarkAtEnd(head);
    forall j: nat | j < |head| ensures !MarkAt(s, j) {
      NoMarkInLonger(head + most, s, j);
    }
    FirstMarkIs(s, |head|);
  }

  lemma NoMarkInLonger(t: string, s: string, j: nat)
    requires t <= s && j + |MARK| <= |t| && !HasMark(t)
    ensures !MarkAt(s, j)
  {
    assert !MarkAt(t, j);
    assert s[j..j + |MARK|] == t[j..j + |MARK|];
  }

  lemma {:induction false} JoinAppend(a: seq<string>, b: seq<string>, sep: string)
    requires |a| > 0 && |b| > 0
    ensures Join(a + b, sep) == Join(a, sep) + sep + Join(b, sep)
  {
    if |a| == 1 {
      assert (a + b)[1..] == b;
    } else {
      JoinAppend(a[1..], b, sep);
      assert (a + b)[0] == a[0] && (a + b)[1..] == a[1..] + b;
    }
  }

  /** The head with the guard behind it is the head of the guarded statement. */
  lemma GuardExtendsHead(table: string, sets: seq<string>, keys: seq<string>, more: seq<string>)
    requires |keys| > 0 && |more| > 0
    ensures UpdateHead(table, sets, keys) + (" AND " + GuardText(more, |sets| + |keys| + 1)) ==
      UpdateHead(table, sets, keys + more)
  {
    hide Join, QuoteIdent, Dec;
    var n := |sets| + 1;
    assert Assigns(keys + more, n) == Assigns(keys, n) + Assigns(more, n + |keys|);
    JoinAppend(Assigns(keys, n), Assigns(more, n + |keys|), " AND ");
    var h := "UPDATE " + QuoteIdent(table) + " SET " + Join(Assigns(sets, 1), ", ") + " WHERE ";
    var a, b := Join(Assigns(keys, n), " AND "), Join(Assigns(more, n + |keys|), " AND ");
    assert h + (a + " AND " + b) == h + a + (" AND " + b);
  }

  lemma UnmarkedReadsBack(table: string, sets: seq<string>, keys: seq<string>)
    requires |sets| > 0 && |keys| > 0
    requires !AnyMarked(StmtRungs(table, sets, keys))
    ensures ReadUpdate(ReplaceMark(UpdateHead(table, sets, keys) + MARK,
                                   " AND " + GuardText(sets, |sets| + |keys| + 1) + MARK)) ==
      Some(Stmt(table, sets, keys + sets))
  {
    hide StmtRungs, Ladder, UpdateHead, HasMark, GuardText, ReadUpdate, AnyMarked, PlaceText, FirstMark;
    var rungs, k, head := StmtRungs(table, sets, keys), |sets| + |keys|, UpdateHead(table, sets, keys);
    StmtIsLadder(table, sets, keys);
    PlaceHasNoMark(k);
    LadderMark(rungs, 0, PlaceText(k) + " RETURNING ");
    Assoc(Ladder(rungs, 0), PlaceText(k), " RETURNING ");
    assert MARK == " RETURNING " + "*";
    FirstMarkAtEnd(head, " RETURNING ", "*");
    var guard := " AND " + GuardText(sets, k + 1);
    assert (head + MARK)[..|head|] == head && (head + MARK)[|head| + |MARK|..] == "";
    assert head + (guard + MARK) + "" == head + guard + MARK;
    GuardExtendsHead(table, sets, keys, sets);
    UpdateReadsBack(table, sets, keys + sets);
  }

  lemma RungsOfAppend(sep: Sep, a: seq<string>, b: seq<string>)
    ensures RungsOf(sep, a + b) == RungsOf(sep, a) + RungsOf(sep, b)
  {
  }

  lemma LongerRungs(table: string, sets: seq<string>, keys: seq<string>)
    requires |sets| > 0 && |keys| > 0
    ensures StmtRungs(table, sets, keys + sets) == StmtRungs(table, sets, keys) + RungsOf(AndSep, sets)
  {
    hide RungsOf;
    assert (keys + sets)[0] == keys[0] && (keys + sets)[1..] == keys[1..] + sets;
    RungsOfAppend(AndSep, keys[1..], sets);
    var a := [Rung(Head, table), Rung(SetSep, sets[0])] + RungsOf(Comma, sets[1..]);
    var w, l, more := [Rung(WhereSep, keys[0])], RungsOf(AndSep, keys[1..]), RungsOf(AndSep, sets);
    Assoc(w, l, more);
    Assoc(a, w + l, more);
  }

  lemma LongerStmt(table: string, sets: seq<string>, keys: seq<string>) returns (toks: seq<Tok>)
    requires |sets| > 0 && |keys| > 0
    ensures UpdateToks(Stmt(table, sets, keys + sets)) == LadderToks(StmtRungs(table, sets, keys), 0) + toks
  {
    hide *;
    var rungs, more := StmtRungs(table, sets, keys), RungsOf(AndSep, sets);
    LongerRungs(table, sets, keys);
    StmtIsLadder(table, sets, keys + sets);
    var ts := LadderToksPrefix(rungs, more, 0);
    var last := PlaceToks(|sets| + |keys + sets|) + [Word("RETURNING"), Sym('*')];
    toks := ts + last;
    Assoc(LadderToks(rungs, 0), ts, last);
  }

  lemma {:induction false} LadderToksPrefix(a: seq<Rung>, b: seq<Rung>, k: nat) returns (ts: seq<Tok>)
    ensures LadderToks(a + b, k) == LadderToks(a, k) + ts
  {
    if a == [] {
      ts := LadderToks(b, k);
      assert a + b == b && LadderToks(a, k) == [];
    } else {
      var rest := a[1..];
      assert a == [a[0]] + rest && a + b == [a[0]] + (rest + b);
      hide LadderToks;
      var k' := NextPlace(a[0], k);
      ts := LadderToksPrefix(rest, b, k');
      LadderCons(a[0], rest, k);
      LadderCons(a[0], rest + b, k);
      Assoc(GapToks(a[0].sep, k) + [Ident(a[0].name)], LadderToks(rest, k'), ts);
    }
  }

  /** Where the mark is in a name, the text that replaces it cannot end that name. */
  lemma MarkedLexesElsewise(rungs: seq<Rung>, tail: string, text: string, toks: seq<Tok>)
    requires AnyMarked(rungs) && HeadFirst(rungs) && |text| >= 2 && text[..2] == " A"
    ensures Lex(ReplaceMark(Ladder(rungs, 0) + tail, text)) != Some(LadderToks(rungs, 0) + toks)
  {
    var sql := Ladder(rungs, 0) + tail;
    assert FirstMark(sql).Some? ==>
      ReplaceMark(sql, text) == sql[..FirstMark(sql).value] + text + sql[FirstMark(sql).value + |MARK|..];
    hide *;
    LadderMark(rungs, 0, tail);
    FirstMarkExists(sql);
    FirstMarkSome(sql);
    var f := FirstMark(sql).value;
    var rest := sql[f + |MARK|..];
    var y := text + rest;
    assert y[..2] == text[..2];
    LadderDiverted(rungs, 0, tail, y, toks);
    Assoc(sql[..f], text, rest);
  }

  lemma StmtRungsHead(table: string, sets: seq<string>, keys: seq<string>)
    requires |sets| > 0 && |keys| > 0
    ensures HeadFirst(StmtRungs(table, sets, keys))
  {
  }

  lemma GuardStarts(guard: string)
    ensures |" AND " + guard + MARK| >= 2 && (" AND " + guard + MARK)[..2] == " A"
  {
    assert (" AND " + guard + MARK)[..2] == [' ', 'A'];
  }

  lemma MarkedReadsElsewise(table: string, sets: seq<string>, keys: seq<string>)
    requires |sets| > 0 && |keys| > 0
    requires AnyMarked(StmtRungs(table, sets, keys))
    ensures ReadUpdate(ReplaceMark(UpdateHead(table, sets, keys) + MARK,
                                   " AND " + GuardText(sets, |sets| + |keys| + 1) + MARK)) !=
      Some(Stmt(table, sets, keys + sets))
  {
    var goal := Stmt(table, sets, keys + sets);
    assert |goal.sets| > 0 && |goal.wheres| > 0;
    hide *;
    var rungs, k := StmtRungs(table, sets, keys), |sets| + |keys|;
    var guard := GuardText(sets, k + 1);
    StmtIsLadder(table, sets, keys);
    Assoc(Ladder(rungs, 0), PlaceText(k), MARK);
    StmtRungsHead(table, sets, keys);
    GuardStarts(guard);
    var toks := LongerStmt(table, sets, keys);
    MarkedLexesElsewise(rungs, PlaceText(k) + MARK, " AND " + guard + MARK, toks);
    ParseUpdateElse(ReplaceMark(UpdateHead(table, sets, keys) + MARK, " AND " + guard + MARK), goal);
  }

  lemma ParseUpdateElse(sql: string, q: UpdateStmt)
    requires Lex(sql) != Some(UpdateToks(q)) && |q.sets| > 0 && |q.wheres| > 0
    ensures ReadUpdate(sql) != Some(q)
  {
    if Lex(sql).Some? {
      ParseUpdateIff(Lex(sql).value, q);
    }
  }

  /** The parts of an update that was printed. */
  lemma OptimisticParts(rel: Relation, diffs: seq<ColumnDiff>, keyFields: Fields)
    requires OptimisticOf(rel, diffs, keyFields).Ok?
    ensures |diffs| > 0 && |KeyNamesOf(rel)| > 0 && rel.primaryKey.Some? && KeyValues(KeyNamesOf(rel), keyFields).Ok?
    ensures
      var (sql, params) := OptimisticOf(rel, diffs, keyFields).value;
      && sql == ReplaceMark(UpdateHead(rel.name, DiffNames(diffs), KeyNamesOf(rel)) + MARK,
                            " AND " + GuardText(DiffNames(diffs), |DiffNames(diffs)| + |KeyNamesOf(rel)| + 1) + MARK)
      && params == AfterTexts(diffs) + KeyValues(KeyNamesOf(rel), keyFields).value + BeforeTexts(diffs)
  {
    hide ReplaceMark, UpdateHead, GuardText, KeyValues;
    assert |DiffNames(diffs)| == |AfterTexts(diffs)|;
  }

  /**
   The optimistic update reads back as SET the changed columns WHERE the key and the old values,
   parameters numbered new values, key values, old values, exactly when no identifier in it
   holds ` RETURNING *`.
   */
  lemma OptimisticReadsBackIff(rel: Relation, diffs: seq<ColumnDiff>, keyFields: Fields)
    requires OptimisticOf(rel, diffs, keyFields).Ok?
    ensures
      var intended := Stmt(rel.name, DiffNames(diffs), KeyNamesOf(rel) + DiffNames(diffs));
      ReadUpdate(OptimisticOf(rel, diffs, keyFields).value.0) == Some(intended) <==> Unmarked(rel, diffs)
  {
    hide *;
    OptimisticParts(rel, diffs, keyFields);
    AnyMarkedIff(rel, diffs);
    if Unmarked(rel, diffs) {
      UnmarkedReadsBack(rel.name, DiffNames(diffs), KeyNamesOf(rel));
    } else {
      MarkedReadsElsewise(rel.name, DiffNames(diffs), KeyNamesOf(rel));
    }
  }

  /** The update without the guard reads back as intended whatever the names are. */
  lemma WithKeyReadsBack(rel: Relation, diffs: seq<ColumnDiff>, keyFields: Fields)
    requires WithKeyOf(rel, diffs, keyFields).Ok?
    ensures ReadUpdate(WithKeyOf(rel, diffs, keyFields).value.0) ==
      Some(Stmt(rel.name, DiffNames(diffs), KeyNamesOf(rel)))
  {
    hide ReadUpdate, UpdateHead, Stmt;
    UpdateReadsBack(rel.name, DiffNames(diffs), KeyNamesOf(rel));
  }
}
