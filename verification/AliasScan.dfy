/**
 The scanner that finds FROM and JOIN clauses in SQL typed so far, and which aliases they give
 to which tables. Texts are ASCII, so that a byte is a character.
 */
module AliasScan {
  import opened Prelude
  import opened SqlText

  type Aliases = map<string, string>

  // ---- characters -------------------------------------------------------------------------

  predicate IsIdentChar(c: char) { IsWordChar(c) || c == '"' }

  predicate IsNameChar(c: char) { IsWordChar(c) || c == '.' }

  function LowerChar(c: char): char {
    if 'A' <= c <= 'Z' then (c as int + 32) as char else c
  }

  /** Capitals become small letters, and nothing else changes. */
  lemma LowerCharIs(c: char)
    ensures
      var small, capitals := "abcdefghijklmnopqrstuvwxyz", "ABCDEFGHIJKLMNOPQRSTUVWXYZ";
      && (forall k :: 0 <= k < 26 && capitals[k] == c ==> LowerChar(c) == small[k])
      && (c !in capitals ==> LowerChar(c) == c)
  {
  }

  function Lower(s: string): (r: string)
    ensures |r| == |s| && forall i :: 0 <= i < |s| ==> r[i] == LowerChar(s[i])
  {
    seq(|s|, i requires 0 <= i < |s| => LowerChar(s[i]))
  }

  predicate IsReserved(w: string) {
    var l := Lower(w);
    || l == "where" || l == "join" || l == "left" || l == "right" || l == "inner" || l == "outer" || l == "full"
    || l == "cross" || l == "on" || l == "group" || l == "having" || l == "order" || l == "limit" || l == "offset"
    || l == "union" || l == "select" || l == "from" || l == "fetch" || l == "window" || l == "values" || l == "set"
    || l == "insert" || l == "update" || l == "delete" || l == "returning" || l == "with" || l == "as" || l == "and"
    || l == "or" || l == "not" || l == "in" || l == "is" || l == "null" || l == "like" || l == "ilike"
    || l == "between" || l == "exists" || l == "case" || l == "when" || l == "then" || l == "else" || l == "end"
    || l == "by" || l == "asc" || l == "desc"
  }

  function SkipWs(t: string): (r: string)
    ensures |r| <= |t|
  {
    if t != "" && IsSpace(t[0]) then SkipWs(t[1..]) else t
  }

  // ---- what is read where -----------------------------------------------------------------

  /** FROM or JOIN as a word of its own; `before` says that an identifier character stands before it. */
  predicate KeywordAt(before: bool, t: string) {
    && |t| >= 4 && !before
    && (Lower(t[..4]) == "from" || Lower(t[..4]) == "join")
    && (|t| == 4 || !IsIdentChar(t[4]))
  }

  /** Characters up to the next quote, or to the end. */
  function UntilQuote(t: string): (k: nat)
    ensures k <= |t| && (k < |t| ==> t[k] == '"')
  {
    if t == "" || t[0] == '"' then 0 else 1 + UntilQuote(t[1..])
  }

  /** A quoted text, with its closing quote when there is one. */
  function QuotedLen(t: string): (k: nat)
    requires t != "" && t[0] == '"'
    ensures 0 < k <= |t|
  {
    var k := 1 + UntilQuote(t[1..]);
    if k < |t| then k + 1 else k
  }

  function NameRun(t: string): (k: nat)
    ensures k <= |t|
  {
    if t != "" && IsNameChar(t[0]) then 1 + NameRun(t[1..]) else 0
  }

  /** `t` up to `k` without the dots at its end. */
  function TrimDots(t: string, k: nat): (n: nat)
    requires k <= |t|
    ensures n <= k && (n > 0 ==> t[n - 1] != '.')
  {
    if k > 0 && t[k - 1] == '.' then TrimDots(t, k - 1) else k
  }

  /** How far `capture_ident` reads: a plain dotted name, or quoted names and what follows their dots. */
  function IdentLen(t: string): (n: nat)
    ensures n <= |t|
  {
    if t != "" && t[0] == '"' then
      var k := QuotedLen(t);
      if k < |t| && t[k] == '.' then k + 1 + IdentLen(t[k + 1..]) else k
    else TrimDots(t, NameRun(t))
  }

  /** How far `peek_word` reads. */
  function WordLen(t: string): (n: nat)
    ensures n <= |t|
  {
    if t == "" then 0
    else if t[0] == '"' then QuotedLen(t)
    else if IsWordChar(t[0]) then 1 + WordLen(t[1..])
    else 0
  }

  function AfterLastDot(s: string): (r: string)
    ensures |r| <= |s|
  {
    if s == "" || s[|s| - 1] == '.' then "" else AfterLastDot(s[..|s| - 1]) + [s[|s| - 1]]
  }

  function TrimLeft(s: string): string {
    if s != "" && s[0] == '"' then TrimLeft(s[1..]) else s
  }

  function TrimRight(s: string): string {
    if s != "" && s[|s| - 1] == '"' then TrimRight(s[..|s| - 1]) else s
  }

  /** `trim_matches('"')`. */
  function TrimQuotes(s: string): string { TrimRight(TrimLeft(s)) }

  function Short(table: string): string { Lower(TrimQuotes(AfterLastDot(table))) }

  function Full(table: string): string { Lower(TrimQuotes(table)) }

  // ---- what is entered --------------------------------------------------------------------

  /** `entry(k).or_insert(v)`. */
  function OrInsert(out: Aliases, k: string, v: string): Aliases {
    if k in out then out else out[k := v]
  }

  function WithFull(out: Aliases, full: string, short: string): Aliases {
    if full != short then OrInsert(out, full, short) else out
  }

  function WithTable(out: Aliases, short: string, full: string): Aliases {
    WithFull(OrInsert(out, short, short), full, short)
  }

  /** What a table and the text after it enter, and where the scan goes on. */
  function Enter(table: string, after: string, out: Aliases): (r: (Aliases, string))
    ensures |r.1| <= |after|
  {
    var short, full := Short(table), Full(table);
    var w := after[..WordLen(after)];
    if after == "" then (WithTable(out, short, full), "")
    else if w == "" then (OrInsert(out, short, short), after)
    else if Lower(w) == "as" then
      var after2 := SkipWs(after[|w|..]);
      var w2 := after2[..WordLen(after2)];
      if w2 != "" && !IsReserved(w2)
      then (WithTable(out[Lower(w2) := short], short, full), after2[|w2|..])
      else (OrInsert(out, short, short), after2)
    else if IsReserved(w) then (WithTable(out, short, full), after)
    else (WithTable(out[Lower(w) := short], short, full), after[|w|..])
  }

  /** The character of `t` before its end `next` is an identifier character. */
  predicate IdentBefore(t: string, next: string)
    requires |next| < |t|
  {
    IsIdentChar(t[|t| - |next| - 1])
  }

  function Scan(before: bool, t: string, out: Aliases): Aliases
    decreases |t|
  {
    if t == "" then out
    else if !KeywordAt(before, t) then Scan(IsIdentChar(t[0]), t[1..], out)
    else
      var rest := SkipWs(t[4..]);
      var n := IdentLen(rest);
      if rest == "" then out
      else if n == 0 then Scan(IdentBefore(t, rest), rest, out)
      else
        var (out', next) := Enter(rest[..n], SkipWs(rest[n..]), out);
        Scan(IdentBefore(t, next), next, out')
  }

  function AliasMap(sql: string, cursor: nat): Aliases {
    Scan(false, sql[..Min(cursor, |sql|)], map[])
  }

  // ---- the scanner ------------------------------------------------------------------------

  /** The loops that skip white space. */
  method SkipSpaces(s: string, i: nat) returns (j: nat)
    requires i <= |s|
    ensures i <= j <= |s| && s[j..] == SkipWs(s[i..])
  {
    j := i;
    while j < |s| && IsSpace(s[j])
      invariant i <= j <= |s| && SkipWs(s[j..]) == SkipWs(s[i..])
    {
      assert s[j..][1..] == s[j + 1..];
      j := j + 1;
    }
  }

  /** The loop to a closing quote. It stops at the first one, so its branch for a doubled quote is never taken. */
  method SkipQuoted(s: string, i: nat) returns (j: nat)
    requires i < |s| && s[i] == '"'
    ensures i < j <= |s| && j == i + QuotedLen(s[i..])
  {
    j := i + 1;
    assert s[i..][1..] == s[i + 1..];
    while j < |s| && s[j] != '"'
      invariant i < j <= |s| && j + UntilQuote(s[j..]) == i + 1 + UntilQuote(s[i + 1..])
    {
      assert s[j..][1..] == s[j + 1..];
      j := j + 1;
    }
    if j < |s| {
      j := j + 1;
    }
  }

  /** The loops over a plain dotted name. */
  method CapturePlain(s: string, start: nat) returns (end: nat)
    requires start <= |s|
    ensures start <= end <= |s| && end - start == TrimDots(s[start..], NameRun(s[start..]))
  {
    ghost var t := s[start..];
    end := start;
    while end < |s| && IsNameChar(s[end])
      invariant start <= end <= |s| && end - start + NameRun(s[end..]) == NameRun(t)
    {
      assert s[end..][1..] == s[end + 1..];
      end := end + 1;
    }
    while end > start && s[end - 1] == '.'
      invariant start <= end <= |s| && TrimDots(t, end - start) == TrimDots(t, NameRun(t))
    {
      end := end - 1;
    }
  }

  lemma Pieces(s: string, a: nat, b: nat, c: nat)
    requires a <= b < c <= |s| && s[b] == '.'
    ensures s[a..b] + "." + s[b + 1..c] == s[a..c]
    ensures s[a..][b - a] == '.' && s[a..][b - a + 1..] == s[b + 1..]
  {
  }

  lemma IdentLenAt(t: string)
    ensures t != "" && t[0] == '"' ==>
      var k := QuotedLen(t);
      IdentLen(t) == if k < |t| && t[k] == '.' then k + 1 + IdentLen(t[k + 1..]) else k
    ensures !(t != "" && t[0] == '"') ==> IdentLen(t) == TrimDots(t, NameRun(t))
  {
  }

  method CaptureIdent(s: string, start: nat) returns (ident: string, pos: nat)
    requires start <= |s|
    ensures pos == start + IdentLen(s[start..]) <= |s| && ident == s[start..pos]
    decreases |s| - start
  {
    hide QuotedLen, NameRun, TrimDots, IsNameChar, UntilQuote, IsWordChar;
    IdentLenAt(s[start..]);
    hide IdentLen;
    if start < |s| && s[start] == '"' {
      pos := SkipQuoted(s, start);
      if pos < |s| && s[pos] == '.' {
        var dot := pos;
        var second;
        Pieces(s, start, dot, dot + 1);
        second, pos := CaptureIdent(s, dot + 1);
        var first := s[start..pos - |second| - 1];
        assert pos - |second| - 1 == dot;
        Pieces(s, start, dot, pos);
        return first + "." + second, pos;
      }
      return s[start..pos], pos;
    }
    pos := CapturePlain(s, start);
    return s[start..pos], pos;
  }

  method PeekWord(s: string, pos: nat) returns (w: string)
    requires pos <= |s|
    ensures w == s[pos..][..WordLen(s[pos..])]
  {
    var end := pos;
    while end < |s| && IsIdentChar(s[end])
      invariant pos <= end <= |s| && end - pos + WordLen(s[end..]) == WordLen(s[pos..])
    {
      if s[end] == '"' {
        end := SkipQuoted(s, end);
        break;
      }
      assert s[end..][1..] == s[end + 1..];
      end := end + 1;
    }
    return s[pos..end];
  }

  ghost predicate ResumesAs(s: string, i: nat, out: Aliases)
  {
    i <= |s| && Scan(BeforeIs(s, i), s[i..], out) == Scan(false, s, map[])
  }

  /** What the branches after a table name do, from its end on. */
  method EnterTable(s: string, table: string, end: nat, out: Aliases) returns (out': Aliases, next: nat)
    requires end <= |s|
    ensures end <= next <= |s| && (out', s[next..]) == Enter(table, SkipWs(s[end..]), out)
  {
    hide SkipWs, WordLen, Short, Full, WithTable, OrInsert, IsReserved;
    var short, full := Short(table), Full(table);
    var j := SkipSpaces(s, end);
    if j >= |s| {
      return WithTable(out, short, full), j;
    }
    var candidate := PeekWord(s, j);
    if candidate == "" {
      return OrInsert(out, short, short), j;
    }
    WordAt(s, j);
    if Lower(candidate) == "as" {
      j := SkipSpaces(s, j + |candidate|);
      var second := PeekWord(s, j);
      WordAt(s, j);
      if second != "" && !IsReserved(second) {
        return WithTable(out[Lower(second) := short], short, full), j + |second|;
      }
      return OrInsert(out, short, short), j;
    }
    if IsReserved(candidate) {
      return WithTable(out, short, full), j;
    }
    return WithTable(out[Lower(candidate) := short], short, full), j + |candidate|;
  }

  lemma WordAt(s: string, j: nat)
    requires j <= |s|
    ensures var n := WordLen(s[j..]); j + n <= |s| && s[j..][n..] == s[j + n..]
  {
  }

  lemma KeywordStart(before: bool, t: string)
    requires KeywordAt(before, t)
    ensures |t| >= 4 && IsAlpha(t[0])
  {
    assert Lower(t[..4])[0] == LowerChar(t[0]);
  }

  predicate BeforeIs(s: string, i: nat)
    requires i <= |s|
  {
    i > 0 && IsIdentChar(s[i - 1])
  }

  lemma IdentBeforeIs(s: string, i: nat, j: nat)
    requires i < j <= |s|
    ensures IdentBefore(s[i..], s[j..]) == BeforeIs(s, j)
  {
  }

  lemma ScanAdvance(s: string, i: nat, out: Aliases)
    requires i < |s| && ResumesAs(s, i, out) && !KeywordAt(BeforeIs(s, i), s[i..])
    ensures ResumesAs(s, i + 1, out)
  {
    assert s[i..][1..] == s[i + 1..];
  }

  lemma ScanAtEnd(s: string, i: nat, out: Aliases)
    requires i < |s| && ResumesAs(s, i, out) && KeywordAt(BeforeIs(s, i), s[i..]) && SkipWs(s[i..][4..]) == ""
    ensures Scan(false, s, map[]) == out
  {
  }

  lemma ScanNoName(s: string, i: nat, out: Aliases, j: nat)
    requires i < j <= |s| && ResumesAs(s, i, out) && KeywordAt(BeforeIs(s, i), s[i..])
    requires s[j..] == SkipWs(s[i..][4..]) != "" && IdentLen(s[j..]) == 0
    ensures ResumesAs(s, j, out)
  {
    hide IdentBefore;
    IdentBeforeIs(s, i, j);
  }

  lemma ScanTable(s: string, i: nat, out: Aliases, j: nat, n: nat, out': Aliases, next: nat)
    requires i < j <= |s| && ResumesAs(s, i, out) && KeywordAt(BeforeIs(s, i), s[i..])
    requires s[j..] == SkipWs(s[i..][4..]) != "" && IdentLen(s[j..]) == n > 0 && j + n <= next <= |s|
    requires (out', s[next..]) == Enter(s[j..][..n], SkipWs(s[j..][n..]), out)
    ensures ResumesAs(s, next, out')
  {
    hide IdentBefore, Enter;
    IdentBeforeIs(s, i, next);
  }

  /** The scan over the text up to the cursor. */
  method ExtractAliasMap(sql: string, cursor: nat) returns (out: Aliases)
    ensures out == AliasMap(sql, cursor)
  {
    hide KeywordAt, SkipWs, IdentLen, Enter, Scan;
    var s := sql[..Min(cursor, |sql|)];
    out := map[];
    var i := 0;
    assert s[0..] == s;
    while i < |s|
      invariant ResumesAs(s, i, out)
      decreases |s| - i
    {
      var keyword := KeywordAt(BeforeIs(s, i), s[i..]);
      if keyword { KeywordStart(BeforeIs(s, i), s[i..]); }
      if !IsAlpha(s[i]) || !keyword {
        ScanAdvance(s, i, out);
        i := i + 1;
        continue;
      }
      var start := SkipSpaces(s, i + 4);
      assert s[i..][4..] == s[i + 4..];
      if start >= |s| {
        ScanAtEnd(s, i, out);
        return;
      }
      var table, end := CaptureIdent(s, start);
      if table == "" {
        ScanNoName(s, i, out, start);
        i := start;
        continue;
      }
      var out', next := EnterTable(s, table, end, out);
      assert s[start..][..end - start] == s[start..end] && s[start..][end - start..] == s[end..];
      ScanTable(s, i, out, start, end - start, out', next);
      out, i := out', next;
    }
    ScanEnd(s, i, out);
  }

  lemma ScanEnd(s: string, i: nat, out: Aliases)
    requires i == |s| && ResumesAs(s, i, out)
    ensures Scan(false, s, map[]) == out
  {
    hide KeywordAt, SkipWs, IdentLen, Enter;
  }
}
