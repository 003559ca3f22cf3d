/**
 Statements that begin and end transactions. The application guesses from the text of a statement
 that succeeded whether a transaction is open; the server reads the same text by its grammar. The
 main result says for which texts the guess keeps up with the server.
 */
module TxStatements {
  import opened Prelude
  import opened SqlText
  import opened AliasScan

  // ---- the guess --------------------------------------------------------------------------

  datatype Guess = InTransaction | NotInTransaction

  /** The characters with the Unicode property White_Space, which `trim` takes away. */
  predicate IsTrimmed(c: char) {
    || IsBlank(c) || c == '\U{0085}' || c == '\U{00A0}' || c == '\U{1680}' || '\U{2000}' <= c <= '\U{200A}'
    || c == '\U{2028}' || c == '\U{2029}' || c == '\U{202F}' || c == '\U{205F}' || c == '\U{3000}'
  }

  function TrimStart(s: string): string {
    if s != "" && IsTrimmed(s[0]) then TrimStart(s[1..]) else s
  }

  function TrimEnd(s: string): string {
    if s != "" && IsTrimmed(s[|s| - 1]) then TrimEnd(s[..|s| - 1]) else s
  }

  predicate Prefixed(s: string, prefix: string) {
    |prefix| <= |s| && s[..|prefix|] == prefix
  }

  /** `classify_tx`. */
  function ClassifyTx(sql: string): Option<Guess> {
    var s := Lower(TrimEnd(TrimStart(sql)));
    if Prefixed(s, "begin") || Prefixed(s, "start transaction") then Some(InTransaction)
    else if Prefixed(s, "commit") || Prefixed(s, "rollback") then Some(NotInTransaction)
    else None
  }

  function AfterGuess(sql: string, active: bool): bool {
    match ClassifyTx(sql)
    case None => active
    case Some(g) => g.InTransaction?
  }

  // ---- what the server reads --------------------------------------------------------------

  datatype Kind =
    | BeginTx
    /** COMMIT, ROLLBACK and their synonyms END and ABORT; COMMIT and END keep what was done. */
    | EndTx(keeps: bool)
    /** The same with AND CHAIN: a new transaction follows at once. */
    | ChainTx(keeps: bool)
    | Savepoint(name: string)
    | Release(name: string)
    /** ROLLBACK TO a savepoint. */
    | BackTo(name: string)
    /** PREPARE TRANSACTION, which takes the transaction away from the session. */
    | PrepareTx
    /** COMMIT PREPARED and ROLLBACK PREPARED, refused inside a transaction. */
    | FinishPrepared
    /** Nothing but white space, comments and semicolons. */
    | Empty
    | Other
    /** Refused as no statement of the server's, or as more than one. */
    | NotSql

  function WordAtPlace(ts: seq<Tok>, i: nat): string {
    if i < |ts| && ts[i].Word? then Lower(ts[i].word) else ""
  }

  /** Only empty statements follow. */
  predicate Ends(ts: seq<Tok>) {
    forall i :: 0 <= i < |ts| ==> ts[i] == Sym(';')
  }

  function DropWork(ts: seq<Tok>): seq<Tok> {
    var w := WordAtPlace(ts, 0);
    if w == "work" || w == "transaction" then ts[1..] else ts
  }

  /** The keywords no savepoint can be called by. */
  const KEYWORDS: seq<string> := [
    "all", "analyse", "analyze", "and", "any", "array", "as", "asc", "asymmetric", "authorization", "binary", "both",
    "case", "cast", "check", "collate", "collation", "column", "concurrently", "constraint", "create", "cross",
    "current_catalog", "current_date", "current_role", "current_schema", "current_time", "current_timestamp",
    "current_user", "default", "deferrable", "desc", "distinct", "do", "else", "end", "except", "false", "fetch",
    "for", "foreign", "freeze", "from", "full", "grant", "group", "having", "ilike", "in", "initially", "inner",
    "intersect", "into", "is", "isnull", "join", "lateral", "leading", "left", "like", "limit", "localtime",
    "localtimestamp", "natural", "not", "notnull", "null", "offset", "on", "only", "or", "order", "outer", "overlaps",
    "placing", "primary", "references", "returning", "right", "select", "session_user", "similar", "some",
    "symmetric", "system_user", "table", "tablesample", "then", "to", "trailing", "true", "union", "unique", "user",
    "using", "variadic", "verbose", "when", "where", "window", "with"]

  /** A word stands for its lower-case name; a quoted name is taken as it is. */
  function NameOf(tok: Tok): (r: Option<string>)
    ensures r.Some? ==> r.value != ""
  {
    match tok
    case Word(w) => if w == "" || Lower(w) in KEYWORDS then None else Some(Lower(w))
    case Ident(n) => if n == "" then None else Some(n)
    case _ => None
  }

  /** A name and the end of the statement. */
  function LastName(ts: seq<Tok>): (r: Option<string>)
    ensures r.Some? ==> r.value != ""
  {
    if ts != [] && Ends(ts[1..]) then NameOf(ts[0]) else None
  }

  /** The same, behind the word SAVEPOINT or without it. */
  function PointName(ts: seq<Tok>): (r: Option<string>)
    ensures r.Some? ==> r.value != ""
  {
    if WordAtPlace(ts, 0) == "savepoint" && LastName(ts[1..]).Some? then LastName(ts[1..]) else LastName(ts)
  }

  /** The length of the transaction mode `ts` begins with, or 0. */
  function ModeLen(ts: seq<Tok>): (n: nat)
    ensures n <= |ts|
  {
    var w0, w1, w2, w3 := WordAtPlace(ts, 0), WordAtPlace(ts, 1), WordAtPlace(ts, 2), WordAtPlace(ts, 3);
    if w0 == "isolation" && w1 == "level" then
      if w2 == "serializable" then 3
      else if w2 == "read" && (w3 == "committed" || w3 == "uncommitted") then 4
      else if w2 == "repeatable" && w3 == "read" then 4
      else 0
    else if (w0 == "read" && (w1 == "only" || w1 == "write")) || (w0 == "not" && w1 == "deferrable") then 2
    else if w0 == "deferrable" then 1
    else 0
  }

  /** Transaction modes, with commas between them or without, and the end of the statement. */
  predicate ModeList(ts: seq<Tok>)
    decreases |ts|
  {
    var n := ModeLen(ts);
    n > 0 &&
    var rest := ts[n..];
    Ends(rest) || (if rest[0] == Sym(',') then ModeList(rest[1..]) else ModeList(rest))
  }

  predicate Modes(ts: seq<Tok>) {
    Ends(ts) || ModeList(ts)
  }

  /** What follows COMMIT, ROLLBACK, END or ABORT [WORK | TRANSACTION]. */
  function ChainKind(w: string, ts: seq<Tok>): Kind {
    var keeps := w == "commit" || w == "end";
    if Ends(ts) then EndTx(keeps)
    else if WordAtPlace(ts, 0) == "and" && WordAtPlace(ts, 1) == "chain" && Ends(ts[2..]) then ChainTx(keeps)
    else if WordAtPlace(ts, 0) == "and" && WordAtPlace(ts, 1) == "no" && WordAtPlace(ts, 2) == "chain" && Ends(ts[3..])
    then EndTx(keeps)
    else NotSql
  }

  function EndKind(w: string, ts: seq<Tok>): Kind {
    var u := DropWork(ts);
    if WordAtPlace(ts, 0) == "prepared" && (w == "commit" || w == "rollback") then
      if |ts| > 1 && ts[1].Str? && Ends(ts[2..]) then FinishPrepared else NotSql
    else if WordAtPlace(u, 0) == "to" && w == "rollback" then
      var name := PointName(u[1..]);
      if name.Some? then BackTo(name.value) else NotSql
    else ChainKind(w, u)
  }

  /** A transaction statement that begins with the word `w`. */
  function TxKind(w: string, ts: seq<Tok>): Kind
    requires IsTxWord(w)
  {
    if w == "begin" then if Modes(DropWork(ts)) then BeginTx else NotSql
    else if w == "start" then if WordAtPlace(ts, 0) == "transaction" && Modes(ts[1..]) then BeginTx else NotSql
    else if w == "savepoint" then var name := LastName(ts); if name.Some? then Savepoint(name.value) else NotSql
    else if w == "release" then var name := PointName(ts); if name.Some? then Release(name.value) else NotSql
    else EndKind(w, ts)
  }

  predicate IsEndWord(w: string) {
    w == "commit" || w == "rollback" || w == "end" || w == "abort"
  }

  predicate IsTxWord(w: string) {
    w == "begin" || w == "start" || w == "savepoint" || w == "release" || IsEndWord(w)
  }

  /** The text without white space, comments and empty statements in front. */
  function Body(sql: string): (r: string)
    ensures |r| <= |sql|
    decreases |sql|
  {
    var t := Skip(sql);
    if t != "" && t[0] == ';' then Body(t[1..]) else t
  }

  predicate IsLetter(c: char) { IsAlpha(c) || c == '_' }

  function FirstWord(sql: string): string {
    var t := Body(sql);
    if t != "" && IsLetter(t[0]) then Lower(t[..WordRun(t)]) else ""
  }

  function KindOf(sql: string): Kind {
    var t, w := Body(sql), FirstWord(sql);
    var ts := Lex(t);
    if t == "" then Empty
    else if w == "" then if t[0] == '(' then Other else NotSql
    else if IsTxWord(w) then if ts.Some? && ts.value != [] then TxKind(w, ts.value[1..]) else NotSql
    else if w == "prepare" then if ts.Some? && WordAtPlace(ts.value, 1) == "transaction" then PrepareTx else Other
    else if Prefixed(w, "begin") || Prefixed(w, "commit") || Prefixed(w, "rollback") then NotSql
    else Other
  }

  datatype Tx = Idle | Active | FailedTx

  /** The session's transaction and its savepoints. */
  datatype Session = Session(tx: Tx, points: seq<string>)

  predicate IsOpen(s: Session) { s.tx != Idle }

  /** Whether a statement of this kind can succeed. */
  predicate CanSucceed(kind: Kind, s: Session) {
    match kind
    case BeginTx => !s.tx.FailedTx?
    case EndTx(_) => true
    case ChainTx(_) => !s.tx.Idle?
    case Savepoint(_) => s.tx.Active?
    case Release(name) => s.tx.Active? && name in s.points
    case BackTo(name) => !s.tx.Idle? && name in s.points
    case PrepareTx => !s.tx.Idle?
    case FinishPrepared => s.tx.Idle?
    case Empty => true
    case Other => !s.tx.FailedTx?
    case NotSql => false
  }

  /** The savepoints up to the last one called `name`, with it or without it. */
  function UpTo(points: seq<string>, name: string, keep: bool): seq<string> {
    if points == [] then []
    else
      var n := |points| - 1;
      if points[n] == name then if keep then points else points[..n] else UpTo(points[..n], name, keep)
  }

  function AfterSuccess(kind: Kind, s: Session): Session {
    match kind
    case BeginTx => if s.tx.Active? then s else Session(Active, [])
    case EndTx(_) => Session(Idle, [])
    case ChainTx(_) => Session(Active, [])
    case Savepoint(name) => s.(points := s.points + [name])
    case Release(name) => s.(points := UpTo(s.points, name, false))
    case BackTo(name) => Session(Active, UpTo(s.points, name, true))
    case PrepareTx => Session(Idle, [])
    case _ => s
  }

  // ---- which statements are tracked -------------------------------------------------------

  /** From any state where an open transaction is tracked, the statement's success leaves one such state. */
  ghost predicate KeepsTrack(sql: string) {
    forall s: Session, active: bool :: CanSucceed(KindOf(sql), s) && (IsOpen(s) ==> active) ==>
      (IsOpen(AfterSuccess(KindOf(sql), s)) ==> AfterGuess(sql, active))
  }

  /** The statement's first word is the first thing in the text but for white space. */
  predicate Bare(sql: string) {
    Body(sql) == TrimStart(sql)
  }

  /** START, one blank, and then the next word at once. */
  predicate OneBlank(s: string) {
    |s| > 5 && s[5] == ' ' && Skip(s[6..]) == s[6..]
  }

  /**
   What a statement's text must be for its effect to be seen: one that opens a transaction has no
   comment and no semicolon in front, and START is followed by exactly one blank; and one that goes
   back to a savepoint or chains a transaction hides its COMMIT or ROLLBACK.
   */
  predicate Trackable(sql: string) {
    match KindOf(sql)
    case BeginTx => Bare(sql) && (FirstWord(sql) == "begin" || OneBlank(Body(sql)))
    case ChainTx(_) => !Bare(sql) || FirstWord(sql) == "end" || FirstWord(sql) == "abort"
    case BackTo(_) => !Bare(sql)
    case _ => true
  }

  // ---- the guess on the text --------------------------------------------------------------

  lemma {:induction false} TrimEndPrefix(s: string, w: string)
    requires w != "" && !IsTrimmed(w[|w| - 1])
    ensures Prefixed(Lower(TrimEnd(s)), w) <==> Prefixed(Lower(s), w)
    decreases |s|
  {
    hide IsTrimmed;
    if s != "" && IsTrimmed(s[|s| - 1]) {
      var n := |s| - 1;
      TrimEndPrefix(s[..n], w);
      assert Lower(s)[..n] == Lower(s[..n]);
      if |w| <= n {
        assert Lower(s)[..|w|] == Lower(s[..n])[..|w|];
      } else if |w| == |s| {
        TrimmedIsLower(s[n]);
        assert Lower(s)[n] == LowerChar(s[n]);
      }
    }
  }

  lemma TrimmedIsLower(c: char)
    requires IsTrimmed(c)
    ensures LowerChar(c) == c && !IsLetter(c) && c != ';' && c != '-' && c != '/' && c != '('
  {
  }

  /** The guess looks at the beginning of the text behind its white space. */
  lemma GuessIs(sql: string)
    ensures
      var s := Lower(TrimStart(sql));
      ClassifyTx(sql) ==
        if Prefixed(s, "begin") || Prefixed(s, "start transaction") then Some(InTransaction)
        else if Prefixed(s, "commit") || Prefixed(s, "rollback") then Some(NotInTransaction)
        else None
  {
    hide Prefixed, Lower, TrimEnd;
    var t := TrimStart(sql);
    TrimEndPrefix(t, "begin");
    TrimEndPrefix(t, "start transaction");
    TrimEndPrefix(t, "commit");
    TrimEndPrefix(t, "rollback");
  }

  lemma PrefixStarts(t: string, w: string)
    requires w != "" && (t == "" || LowerChar(t[0]) != w[0])
    ensures !Prefixed(Lower(t), w)
  {
    if t != "" && |w| <= |t| { assert Lower(t)[..|w|][0] == LowerChar(t[0]); }
  }

  /** A text that does not begin with a letter tells nothing. */
  lemma NoLetterNoGuess(sql: string)
    requires TrimStart(sql) == "" || !IsLetter(TrimStart(sql)[0])
    ensures ClassifyTx(sql) == None
  {
    GuessIs(sql);
    var t := TrimStart(sql);
    hide Prefixed, ClassifyTx, Lower, TrimStart;
    PrefixStarts(t, "begin");
    PrefixStarts(t, "start transaction");
    PrefixStarts(t, "commit");
    PrefixStarts(t, "rollback");
  }

  /** A letter in front is the statement's own, unless white space only `trim` knows stands before it. */
  lemma {:induction false} LetterFirst(sql: string)
    requires TrimStart(sql) != "" && IsLetter(TrimStart(sql)[0])
    ensures Body(sql) == TrimStart(sql) || (Body(sql) != "" && IsTrimmed(Body(sql)[0]))
  {
    hide IsTrimmed;
    if IsTrimmed(sql[0]) {
      TrimmedIsLower(sql[0]);
      if IsBlank(sql[0]) { LetterFirst(sql[1..]); }
    }
  }

  /** Behind a comment or a semicolon nothing is seen. */
  lemma HiddenNoGuess(sql: string)
    requires !Bare(sql) && (Body(sql) == "" || !IsTrimmed(Body(sql)[0]))
    ensures ClassifyTx(sql) == None
  {
    hide ClassifyTx;
    if TrimStart(sql) != "" && IsLetter(TrimStart(sql)[0]) {
      LetterFirst(sql);
    } else {
      NoLetterNoGuess(sql);
    }
  }

  predicate AllWordChars(w: string) { forall i :: 0 <= i < |w| ==> IsWordChar(w[i]) }

  /** A word of letters at the beginning of a text is the beginning of its first word. */
  lemma {:induction false} PrefixIsWord(t: string, w: string)
    requires AllWordChars(w) && Prefixed(Lower(t), w)
    ensures WordRun(t) >= |w|
    ensures Prefixed(Lower(t[..WordRun(t)]), w)
  {
    LowerWordRun(t, |w|, w);
    var k := WordRun(t);
    assert Lower(t[..k])[..|w|] == Lower(t)[..|w|];
  }

  lemma {:induction false} LowerWordRun(t: string, n: nat, w: string)
    requires n <= |w| && n <= |t| && AllWordChars(w) && forall i :: 0 <= i < n ==> LowerChar(t[i]) == w[i]
    ensures WordRun(t) >= n
  {
    if n > 0 {
      assert LowerChar(t[0]) == w[0] && IsWordChar(w[0]);
      LowerWordRun(t[1..], n - 1, w[1..]);
    }
  }

  /** With nothing in front, a prefix of letters is a prefix of the first word. */
  lemma PrefixOfFirstWord(sql: string, w: string)
    requires Bare(sql) && w != "" && AllWordChars(w) && IsAlpha(w[0])
    ensures Prefixed(Lower(TrimStart(sql)), w) <==> Prefixed(FirstWord(sql), w)
  {
    hide TrimStart, Body;
    var t := TrimStart(sql);
    if Prefixed(Lower(t), w) {
      assert Lower(t)[..|w|][0] == LowerChar(t[0]);
      PrefixIsWord(t, w);
    } else if FirstWord(sql) != "" {
      var k := WordRun(t);
      assert Lower(t[..k]) == Lower(t)[..k];
      assert |w| <= k ==> Lower(t[..k])[..|w|] == Lower(t)[..|w|];
    }
  }

  lemma GuessByWord(sql: string)
    requires Bare(sql)
    ensures
      var w := FirstWord(sql);
      ClassifyTx(sql) ==
        if Prefixed(w, "begin") || Prefixed(Lower(Body(sql)), "start transaction") then Some(InTransaction)
        else if Prefixed(w, "commit") || Prefixed(w, "rollback") then Some(NotInTransaction)
        else None
  {
    GuessIs(sql);
    hide Prefixed, ClassifyTx, FirstWord;
    PrefixOfFirstWord(sql, "begin");
    PrefixOfFirstWord(sql, "commit");
    PrefixOfFirstWord(sql, "rollback");
  }

  // ---- START TRANSACTION ------------------------------------------------------------------

  lemma {:induction false} BodySkips(sql: string)
    ensures Skip(Body(sql)) == Body(sql)
    decreases |sql|
  {
    SkipTwice(sql);
    var t := Skip(sql);
    if t != "" && t[0] == ';' { BodySkips(t[1..]); }
  }

  lemma {:induction false} SkipTwice(s: string)
    ensures Skip(Skip(s)) == Skip(s)
    decreases |s|
  {
    if s == "" {
    } else if IsBlank(s[0]) {
      SkipTwice(s[1..]);
    } else if |s| > 1 && s[0] == '-' && s[1] == '-' {
      SkipTwice(AfterLine(s[2..]));
    } else if |s| > 1 && s[0] == '/' && s[1] == '*' && AfterComment(s[2..], 1).Some? {
      SkipTwice(AfterComment(s[2..], 1).value);
    }
  }

  /** The tokens of a text that begins with a word. */
  lemma WordFirst(t: string)
    requires Skip(t) == t && t != "" && IsLetter(t[0]) && Lex(t).Some?
    ensures
      var k := WordRun(t);
      k > 0 && Lex(t[k..]).Some? && Lex(t).value == [Word(t[..k])] + Lex(t[k..]).value
  {
    hide Skip;
  }

  lemma FirstOf(s: string)
    requires Lex(s).Some? && Lex(s).value != [] && Lex(s).value[0].Word?
    ensures
      var u := Skip(s);
      u != "" && IsLetter(u[0]) && Lex(s).value[0] == Word(u[..WordRun(u)])
  {
    hide Skip;
  }

  /** START TRANSACTION is seen exactly when one blank, and nothing else, separates the words. */
  lemma StartSeen(sql: string)
    requires Lex(Body(sql)).Some? && FirstWord(sql) == "start" && WordAtPlace(Lex(Body(sql)).value, 1) == "transaction"
    ensures Prefixed(Lower(Body(sql)), "start transaction") <==> OneBlank(Body(sql))
  {
    var t := Body(sql);
    BodySkips(sql);
    hide Lex, Body, OneBlank, Prefixed;
    WordFirst(t);
    assert WordRun(t) == 5;
    var rest := t[5..];
    assert Lex(t).value[1] == Lex(rest).value[0];
    FirstOf(rest);
    StartText(t, Skip(rest));
  }

  lemma StartText(t: string, u: string)
    requires |t| >= 5 && Lower(t[..5]) == "start" && Skip(t[5..]) == u
    requires u != "" && Lower(u[..WordRun(u)]) == "transaction"
    ensures Prefixed(Lower(t), "start transaction") <==> OneBlank(t)
  {
    var w := "start transaction";
    assert w[..5] == "start" && w[5] == ' ' && w[6..] == "transaction";
    if OneBlank(t) {
      assert t[5..][1..] == t[6..];
      assert u == t[6..] && WordRun(u) == 11;
      assert Lower(t)[..17] == Lower(t[..5]) + " " + Lower(u[..11]) by {
        assert t[..17] == t[..5] + " " + u[..11];
        LowerThree(t[..5], u[..11]);
        assert Lower(t)[..17] == Lower(t[..17]);
      }
      assert Lower(t[..5]) + " " + Lower(u[..11]) == w;
    } else if Prefixed(Lower(t), w) {
      assert Lower(t)[5] == w[5] && Lower(t)[6] == w[6];
      BlankThere(t);
    }
  }

  lemma LowerThree(a: string, b: string)
    ensures Lower(a + " " + b) == Lower(a) + " " + Lower(b)
  {
  }

  lemma BlankThere(t: string)
    requires |t| > 6 && LowerChar(t[5]) == ' ' && LowerChar(t[6]) == 't'
    ensures OneBlank(t)
  {
    assert t[6..][0] == t[6];
  }

  // ---- exactly the trackable statements are tracked ---------------------------------------

  /** What each kind of statement begins with. */
  lemma KindWord(sql: string)
    ensures
      var w := FirstWord(sql);
      match KindOf(sql)
      case BeginTx =>
        || w == "begin"
        || (w == "start" && Lex(Body(sql)).Some? && WordAtPlace(Lex(Body(sql)).value, 1) == "transaction")
      case EndTx(keeps) => IsEndWord(w) && (keeps <==> w == "commit" || w == "end")
      case ChainTx(keeps) => IsEndWord(w) && (keeps <==> w == "commit" || w == "end")
      case Savepoint(_) => w == "savepoint"
      case Release(_) => w == "release"
      case BackTo(_) => w == "rollback"
      case PrepareTx => w == "prepare"
      case FinishPrepared => w == "commit" || w == "rollback"
      case Empty => w == "" && Body(sql) == ""
      case Other =>
        || (w == "" && Body(sql) != "" && Body(sql)[0] == '(')
        || (w != "" && w != "start" && !Prefixed(w, "begin") && !Prefixed(w, "commit") && !Prefixed(w, "rollback"))
      case NotSql => true
  {
    hide Lex, Body, Prefixed, Modes, PointName, LastName, ChainKind, DropWork;
    Words();
    var t, w := Body(sql), FirstWord(sql);
    var ts := Lex(t);
    if t != "" && IsTxWord(w) && ts.Some? && ts.value != [] {
      TxKindWord(w, ts.value);
    }
  }

  lemma TxKindWord(w: string, ts: seq<Tok>)
    requires IsTxWord(w) && ts != []
    ensures
      match TxKind(w, ts[1..])
      case BeginTx => w == "begin" || (w == "start" && WordAtPlace(ts, 1) == "transaction")
      case EndTx(keeps) => IsEndWord(w) && (keeps <==> w == "commit" || w == "end")
      case ChainTx(keeps) => IsEndWord(w) && (keeps <==> w == "commit" || w == "end")
      case Savepoint(_) => w == "savepoint"
      case Release(_) => w == "release"
      case BackTo(_) => w == "rollback"
      case FinishPrepared => w == "commit" || w == "rollback"
      case NotSql => true
      case _ => false
  {
    hide Modes, PointName, LastName, Ends, DropWork;
    assert WordAtPlace(ts[1..], 0) == WordAtPlace(ts, 1);
  }

  lemma Words()
    ensures Prefixed("begin", "begin") && !Prefixed("begin", "commit") && !Prefixed("begin", "rollback")
    ensures !Prefixed("start", "begin") && !Prefixed("start", "commit") && !Prefixed("start", "rollback")
    ensures Prefixed("commit", "commit") && !Prefixed("commit", "begin")
    ensures Prefixed("rollback", "rollback") && !Prefixed("rollback", "begin")
    ensures !Prefixed("end", "begin") && !Prefixed("end", "commit") && !Prefixed("end", "rollback")
    ensures !Prefixed("abort", "begin") && !Prefixed("abort", "commit") && !Prefixed("abort", "rollback")
    ensures !Prefixed("savepoint", "begin") && !Prefixed("savepoint", "commit") && !Prefixed("savepoint", "rollback")
    ensures !Prefixed("release", "begin") && !Prefixed("release", "commit") && !Prefixed("release", "rollback")
    ensures !Prefixed("prepare", "begin") && !Prefixed("prepare", "commit") && !Prefixed("prepare", "rollback")
    ensures !Prefixed("", "begin") && !Prefixed("", "commit") && !Prefixed("", "rollback")
  {
    assert "rollback"[..5][0] == 'r' && "commit"[..5][0] == 'c' && "start"[..5][0] == 's' && "abort"[..5][0] == 'a';
    assert "savepoint"[..5][0] == 's' && "savepoint"[..6][0] == 's' && "savepoint"[..8][0] == 's';
    assert "release"[..5] == "relea" && "release"[..6][0] == 'r';
    assert "prepare"[..5][0] == 'p' && "prepare"[..6][0] == 'p';
    assert "rollback"[..8] == "rollback";
  }

  /** Only a statement whose first word is START can begin with START TRANSACTION. */
  lemma StartIsFirst(sql: string)
    requires Bare(sql) && Prefixed(Lower(Body(sql)), "start transaction")
    ensures FirstWord(sql) == "start"
  {
    hide Body, TrimStart;
    var t, w := Body(sql), "start transaction";
    assert w[0] == 's' && w[..5] == "start" && w[5] == ' ';
    assert Lower(t)[..17] == w && Lower(t)[5] == w[5];
    assert t == t[..5] + t[5..] && Lower(t[..5]) == Lower(t)[..5] == w[..5];
    forall i | 0 <= i < 5 ensures IsAlpha(t[i]) {
      assert Lower(t)[i] == "start"[i];
    }
    WordRunStops(t[..5], t[5..]);
  }

  /** What the guess is for each kind of statement. */
  lemma GuessOfKind(sql: string)
    ensures KindOf(sql).BeginTx? ==>
      && ClassifyTx(sql) != Some(NotInTransaction)
      && (ClassifyTx(sql).Some? <==> Bare(sql) && (FirstWord(sql) == "begin" || OneBlank(Body(sql))))
    ensures KindOf(sql).ChainTx? ==>
      (ClassifyTx(sql).Some? <==> Bare(sql) && FirstWord(sql) != "end" && FirstWord(sql) != "abort")
    ensures KindOf(sql).BackTo? ==> (ClassifyTx(sql).Some? <==> Bare(sql))
    ensures KindOf(sql).EndTx? || KindOf(sql).FinishPrepared? || KindOf(sql).ChainTx? || KindOf(sql).BackTo? ==>
      ClassifyTx(sql) != Some(InTransaction)
    ensures
      var kind := KindOf(sql);
      kind.Savepoint? || kind.Release? || kind.PrepareTx? || kind.Empty? || kind.Other? ==> ClassifyTx(sql) == None
  {
    KindWord(sql);
    Words();
    var kind, w, t := KindOf(sql), FirstWord(sql), Body(sql);
    if kind.NotSql? {
    } else if !Bare(sql) {
      NotTrimmed(sql);
      HiddenNoGuess(sql);
    } else if w == "" {
      hide TrimStart, KindOf, ClassifyTx;
      NoLetterNoGuess(sql);
    } else {
      GuessByWord(sql);
      if Prefixed(Lower(t), "start transaction") { StartIsFirst(sql); }
      if kind.BeginTx? && w == "start" { StartSeen(sql); }
      hide Lex, Prefixed, ClassifyTx, FirstWord, Bare, OneBlank, TrimStart, KindOf, WordAtPlace, Body, Lower;
    }
  }

  lemma NotTrimmed(sql: string)
    requires !KindOf(sql).NotSql?
    ensures Body(sql) == "" || !IsTrimmed(Body(sql)[0])
  {
    hide IsTrimmed, TxKind, Body, Lex, Prefixed;
    var t := Body(sql);
    if t != "" && IsTrimmed(t[0]) { TrimmedIsLower(t[0]); }
  }

  /** The guess keeps up with the server over a statement exactly when the statement is trackable. */
  lemma KeepsTrackIff(sql: string)
    ensures KeepsTrack(sql) <==> Trackable(sql)
  {
    GuessOfKind(sql);
    hide KindOf, ClassifyTx, Bare, FirstWord, OneBlank, Body;
    match KindOf(sql)
    case BeginTx =>
      assert KeepsTrack(sql) ==> AfterGuess(sql, false) by {
        assert CanSucceed(KindOf(sql), Session(Idle, []));
      }
    case ChainTx(_) =>
      assert KeepsTrack(sql) ==> AfterGuess(sql, true) by {
        assert CanSucceed(KindOf(sql), Session(Active, []));
      }
    case BackTo(name) =>
      assert KeepsTrack(sql) ==> AfterGuess(sql, true) by {
        assert CanSucceed(KindOf(sql), Session(Active, [name]));
      }
    case _ =>
  }

  /** Nothing but white space stands in front of the statement. */
  ghost predicate OnlyBlanksBefore(sql: string, body: string) {
    && |body| <= |sql| && sql[|sql| - |body|..] == body
    && forall i :: 0 <= i < |sql| - |body| ==> sql[i] in " \t\n\U{000B}\U{000C}\r"
  }

  /** A statement is bare exactly when it has nothing but white space in front. */
  lemma {:induction false} BareIff(sql: string)
    requires !KindOf(sql).NotSql?
    ensures Bare(sql) <==> OnlyBlanksBefore(sql, Body(sql))
    decreases |sql|
  {
    NotTrimmed(sql);
    hide KindOf;
    BlanksAre(sql, Body(sql));
  }

  lemma {:induction false} BlanksAre(sql: string, body: string)
    requires Body(sql) == body && (body == "" || !IsTrimmed(body[0]))
    ensures TrimStart(sql) == body <==> OnlyBlanksBefore(sql, body)
    decreases |sql|
  {
    if sql != "" && IsBlank(sql[0]) {
      assert Skip(sql) == Skip(sql[1..]) && TrimStart(sql) == TrimStart(sql[1..]);
      SameSkip(sql, sql[1..]);
      BlanksAre(sql[1..], body);
      BlankAhead(sql, body);
    } else if sql != "" && TrimStart(sql) != sql {
      TrimmedIsLower(sql[0]);
      assert Skip(sql) == sql;
    } else {
      NoBlankAhead(sql, body);
    }
  }

  lemma SameSkip(s: string, t: string)
    requires Skip(s) == Skip(t)
    ensures Body(s) == Body(t)
  {
    hide Skip;
  }

  lemma BlankAhead(sql: string, body: string)
    requires sql != "" && IsBlank(sql[0]) && |body| < |sql|
    ensures OnlyBlanksBefore(sql, body) <==> OnlyBlanksBefore(sql[1..], body)
  {
    assert sql[1..][|sql| - 1 - |body|..] == sql[|sql| - |body|..];
    if OnlyBlanksBefore(sql[1..], body) {
      forall i | 0 <= i < |sql| - |body| ensures sql[i] in " \t\n\U{000B}\U{000C}\r" {
        if i > 0 { assert sql[i] == sql[1..][i - 1]; }
      }
    }
  }

  lemma NoBlankAhead(sql: string, body: string)
    requires sql == "" || !IsBlank(sql[0])
    ensures OnlyBlanksBefore(sql, body) <==> body == sql
  {
    if |body| < |sql| {
      assert sql[0] !in " \t\n\U{000B}\U{000C}\r";
    }
  }

  // ---- statements that are not trackable --------------------------------------------------

  /** What stands in front of a statement does not change it. */
  lemma SameBody(s: string, t: string)
    requires Body(s) == Body(t)
    ensures KindOf(s) == KindOf(t) && FirstWord(s) == FirstWord(t)
  {
    hide Body;
  }

  /** A text that begins with a word and a space. */
  lemma WordFirstText(w: string, rest: string)
    requires IsWord(w) && (rest == "" || !IsWordChar(rest[0]))
    ensures Body(w + rest) == w + rest == TrimStart(w + rest) && FirstWord(w + rest) == Lower(w)
  {
    hide IsTrimmed;
    var t := w + rest;
    assert t[0] == w[0] && t[..|w|] == w;
    if IsTrimmed(t[0]) { TrimmedIsLower(t[0]); }
    WordRunStops(w, rest);
  }

  /** The kind of a text that begins with a transaction word. */
  lemma KindByToks(w: string, rest: string, ts: seq<Tok>)
    requires IsWord(w) && (rest == "" || !IsWordChar(rest[0])) && IsTxWord(Lower(w))
    requires Lex(w + rest) == Some([Word(w)] + ts)
    ensures KindOf(w + rest) == TxKind(Lower(w), ts) && FirstWord(w + rest) == Lower(w) && Bare(w + rest)
  {
    hide Lex, TxKind, Body, FirstWord, TrimStart;
    WordFirstText(w, rest);
    assert ([Word(w)] + ts)[1..] == ts;
  }

  lemma Verbs()
    ensures IsWord("BEGIN") && Lower("BEGIN") == "begin"
    ensures IsWord("ROLLBACK") && Lower("ROLLBACK") == "rollback"
    ensures IsWord("SAVEPOINT") && Lower("SAVEPOINT") == "savepoint"
  {
  }

  lemma BeginIsBegin()
    ensures KindOf("BEGIN") == BeginTx && Trackable("BEGIN")
  {
    Verbs();
    assert Lex("BEGIN") == Some([Word("BEGIN")]) by {
      hide Lex, Closed, IsWord, Lower;
      WordPiece("BEGIN");
      LexWhole("BEGIN", [Word("BEGIN")]);
    }
    assert DropWork([]) == [] && TxKind("begin", []) == BeginTx;
    hide Lex, TxKind, KindOf, FirstWord, Bare, IsWord, Lower;
    assert "BEGIN" + "" == "BEGIN" && [Word("BEGIN")] + [] == [Word("BEGIN")];
    KindByToks("BEGIN", "", []);
  }

  lemma OneWordKind(w: string)
    requires IsWord(w) && IsTxWord(Lower(w))
    ensures KindOf(w) == TxKind(Lower(w), [])
  {
    hide Lex, TxKind, KindOf, FirstWord, Bare, IsWord, Lower, Closed;
    WordPiece(w);
    LexWhole(w, [Word(w)]);
    assert w + "" == w && [Word(w)] + [] == [Word(w)];
    KindByToks(w, "", []);
  }

  /** The two texts the dispatcher sends when a transaction is decided on, END and ABORT. */
  lemma DecisionTexts()
    ensures KindOf("COMMIT") == KindOf("END") == EndTx(true)
    ensures KindOf("ROLLBACK") == KindOf("ABORT") == EndTx(false)
  {
    EndVerbs();
    hide KindOf, Lower, IsWord;
    OneWordKind("COMMIT");
    OneWordKind("ROLLBACK");
    OneWordKind("END");
    OneWordKind("ABORT");
    assert DropWork([]) == [];
  }

  lemma EndVerbs()
    ensures IsWord("COMMIT") && Lower("COMMIT") == "commit" && IsWord("END") && Lower("END") == "end"
    ensures IsWord("ROLLBACK") && Lower("ROLLBACK") == "rollback" && IsWord("ABORT") && Lower("ABORT") == "abort"
  {
  }

  /** With something in front that is no white space, a BEGIN is not seen. */
  lemma HiddenBegin(s: string)
    requires KindOf(s) == BeginTx && s != "" && !IsTrimmed(s[0]) && !IsLetter(s[0])
    ensures !Trackable(s)
  {
    hide IsTrimmed, Lex, TxKind;
    assert TrimStart(s) == s;
  }

  /** A BEGIN behind a comment, a line comment that a carriage return ends, or a semicolon is not seen. */
  lemma HiddenBegins()
    ensures KindOf(";BEGIN") == KindOf("/**/BEGIN") == KindOf("--x\rBEGIN") == BeginTx
    ensures !Trackable(";BEGIN") && !Trackable("/**/BEGIN") && !Trackable("--x\rBEGIN")
  {
    BeginIsBegin();
    SemicolonBody("BEGIN");
    CommentBody("BEGIN");
    LineBody("BEGIN");
    hide KindOf, Body, FirstWord, Trackable;
    assert ";" + "BEGIN" == ";BEGIN" && "/**/" + "BEGIN" == "/**/BEGIN" && "--x\r" + "BEGIN" == "--x\rBEGIN";
    SameBody(";BEGIN", "BEGIN");
    SameBody("/**/BEGIN", "BEGIN");
    SameBody("--x\rBEGIN", "BEGIN");
    HiddenBegin(";BEGIN");
    HiddenBegin("/**/BEGIN");
    HiddenBegin("--x\rBEGIN");
  }

  lemma SemicolonBody(x: string)
    ensures Body(";" + x) == Body(x)
  {
    assert (";" + x)[1..] == x;
  }

  lemma CommentBody(x: string)
    ensures Body("/**/" + x) == Body(x)
  {
    var s := "/**/" + x;
    assert s[2..] == "*/" + x && s[2..][2..] == x;
    assert AfterComment(s[2..], 1) == AfterComment(x, 0) == Some(x);
    assert Skip(s) == Skip(x);
  }

  lemma LineBody(x: string)
    ensures Body("--x\r" + x) == Body(x)
  {
    var s := "--x\r" + x;
    assert s[2..] == "x\r" + x && s[2..][1..] == "\r" + x && ("\r" + x)[1..] == x;
    assert AfterLine(s[2..]) == "\r" + x;
    assert Skip(s) == Skip("\r" + x) == Skip(x);
  }

  function BackToSql(name: string): string { "ROLLBACK" + (" TO " + QuoteIdent(name)) }

  function SavepointSql(name: string): string { "SAVEPOINT" + (" " + QuoteIdent(name)) }

  lemma BackToText(name: string)
    ensures Lex(BackToSql(name)) == Some([Word("ROLLBACK"), Word("TO"), Ident(name)])
  {
    hide Open, Closed, Lex, QuoteIdent;
    LeadingWordPiece("ROLLBACK");
    LeadingWordPiece("TO");
    IdentPiece(name);
    var a, b := "ROLLBACK" + " ", "TO" + " ";
    OpenOpen(a, [Word("ROLLBACK")], b, [Word("TO")]);
    OpenClosed(a + b, [Word("ROLLBACK")] + [Word("TO")], QuoteIdent(name), [Ident(name)]);
    LexWhole(a + b + QuoteIdent(name), [Word("ROLLBACK")] + [Word("TO")] + [Ident(name)]);
    assert " TO " + QuoteIdent(name) == " " + (b + QuoteIdent(name));
    assert a + b + QuoteIdent(name) == BackToSql(name);
    assert [Word("ROLLBACK")] + [Word("TO")] + [Ident(name)] == [Word("ROLLBACK"), Word("TO"), Ident(name)];
  }

  lemma BackToKind(name: string)
    requires name != ""
    ensures TxKind("rollback", [Word("TO"), Ident(name)]) == BackTo(name)
  {
    assert Lower("TO") == "to";
    assert [Word("TO"), Ident(name)][1..] == [Ident(name)] && [Ident(name)][1..] == [];
  }

  lemma BackToIs(name: string)
    requires name != ""
    ensures KindOf(BackToSql(name)) == BackTo(name) && Bare(BackToSql(name))
  {
    BackToText(name);
    BackToKind(name);
    Verbs();
    hide Lex, TxKind, QuoteIdent, KindOf, FirstWord, Bare, IsWord, Lower, Body, Skip;
    var rest, ts := " TO " + QuoteIdent(name), [Word("TO"), Ident(name)];
    assert [Word("ROLLBACK")] + ts == [Word("ROLLBACK"), Word("TO"), Ident(name)];
    KindByToks("ROLLBACK", rest, ts);
  }

  /** Going back to a savepoint looks like the end of the transaction. */
  lemma BackToIsHidden(name: string)
    requires name != ""
    ensures KindOf(BackToSql(name)) == BackTo(name) && !Trackable(BackToSql(name))
  {
    BackToIs(name);
    hide KindOf, Bare, FirstWord, Body, OneBlank, BackToSql;
  }

  lemma SavepointToks(name: string)
    ensures Lex(SavepointSql(name)) == Some([Word("SAVEPOINT"), Ident(name)])
  {
    hide Open, Closed, Lex, QuoteIdent;
    LeadingWordPiece("SAVEPOINT");
    IdentPiece(name);
    OpenClosed("SAVEPOINT" + " ", [Word("SAVEPOINT")], QuoteIdent(name), [Ident(name)]);
    LexWhole("SAVEPOINT" + " " + QuoteIdent(name), [Word("SAVEPOINT")] + [Ident(name)]);
    assert "SAVEPOINT" + " " + QuoteIdent(name) == SavepointSql(name);
    assert [Word("SAVEPOINT")] + [Ident(name)] == [Word("SAVEPOINT"), Ident(name)];
  }

  lemma SavepointKind(name: string)
    requires name != ""
    ensures TxKind("savepoint", [Ident(name)]) == Savepoint(name)
  {
  }

  /** Every name but the empty one is a savepoint's, when it is quoted. */
  lemma SavepointText(name: string)
    requires name != ""
    ensures KindOf(SavepointSql(name)) == Savepoint(name) && ClassifyTx(SavepointSql(name)) == None
  {
    SavepointToks(name);
    SavepointKind(name);
    Verbs();
    hide Lex, TxKind, QuoteIdent, KindOf, FirstWord, Bare, ClassifyTx, IsWord, Lower, OneBlank, Body, Skip;
    var rest, ts := " " + QuoteIdent(name), [Ident(name)];
    assert [Word("SAVEPOINT")] + ts == [Word("SAVEPOINT"), Ident(name)];
    KindByToks("SAVEPOINT", rest, ts);
    GuessOfKind(SavepointSql(name));
  }
}
