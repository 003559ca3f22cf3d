/**
 Transaction tracking over whole runs of one connection: queries in flight together, answers seen
 in any order, cancelling, disconnecting, and the user's decision about an open transaction. The
 application asks before it closes a connection on which it believes a transaction to be open.
 */
module TxTracking {
  import opened Prelude
  import opened SqlText
  import opened TxStatements

  // ---- a connection -----------------------------------------------------------------------

  /** A query between its Execute and the end its task sees. */
  datatype Query =
    | Sent(sql: string)
    | Answered(sql: string, ok: bool)
    /** Its task is aborted; the server may carry it out all the same. */
    | Orphaned(sql: string)

  /** The COMMIT or ROLLBACK the user decided on, for which the dispatcher waits. */
  datatype Resolution = Asked(commit: bool) | Heard(commit: bool, ok: bool)

  /**
   One connection: the server's session, what the application tracks, the queries in flight.
   `kept` counts the transactions committed, and `lost` says that an open transaction was closed
   with the connection without being asked about.
   */
  datatype Conn = Conn(
    session: Session,
    active: bool,
    flight: seq<Query>,
    resolving: Option<Resolution>,
    live: bool,
    kept: nat,
    lost: bool)

  /** `RolledBack`: a COMMIT that fails at its end, and the transaction with it. */
  datatype Outcome = Accepted | Refused | RolledBack

  datatype Step =
    | Connect
    | Submit(sql: string)
    /** The server carries the statement of one query out or refuses it; the order is open. */
    | Serve(i: nat, outcome: Outcome)
    /** The query's task sees the end of the result. */
    | Observe(i: nat)
    | CancelQuery(i: nat)
    | Disconnect
    | Resolve(commit: bool)
    | ServeResolve(outcome: Outcome)
    | Finish

  predicate Possible(kind: Kind, s: Session, outcome: Outcome) {
    match outcome
    case Accepted => CanSucceed(kind, s)
    case Refused => true
    case RolledBack => s.tx.Active? && (kind.EndTx? || kind.ChainTx? || kind.PrepareTx?)
  }

  /** Whether what was done in the open transaction is committed; in a failed one it is rolled back. */
  predicate Commits(kind: Kind, s: Session, outcome: Outcome) {
    outcome.Accepted? && s.tx.Active? && (kind == EndTx(true) || kind == ChainTx(true))
  }

  function Kept(c: Conn, kind: Kind, outcome: Outcome): nat {
    c.kept + if Commits(kind, c.session, outcome) then 1 else 0
  }

  function AfterOutcome(kind: Kind, s: Session, outcome: Outcome): Session {
    match outcome
    case Accepted => AfterSuccess(kind, s)
    case Refused => if s.tx.Active? then s.(tx := FailedTx) else s
    case RolledBack => Session(Idle, [])
  }

  /** While it waits for a resolution the dispatcher takes no command. */
  predicate Enabled(c: Conn, step: Step) {
    match step
    case Connect => !c.live
    case Submit(_) => c.live && c.resolving.None?
    case Serve(i, outcome) =>
      c.live && i < |c.flight| && !c.flight[i].Answered? && Possible(KindOf(c.flight[i].sql), c.session, outcome)
    case Observe(i) => c.live && i < |c.flight| && c.flight[i].Answered?
    case CancelQuery(i) => c.live && c.resolving.None? && i < |c.flight| && !c.flight[i].Orphaned?
    case Disconnect => c.live && c.resolving.None?
    case Resolve(_) => c.live && c.resolving.None?
    case ServeResolve(outcome) =>
      c.live && c.resolving.Some? && c.resolving.value.Asked? &&
      Possible(EndTx(c.resolving.value.commit), c.session, outcome)
    case Finish => c.live && c.resolving.Some? && c.resolving.value.Heard?
  }

  function Without(qs: seq<Query>, i: nat): (r: seq<Query>)
    requires i < |qs|
    ensures |r| == |qs| - 1 && forall k :: 0 <= k < |r| ==> r[k] == if k < i then qs[k] else qs[k + 1]
  {
    qs[..i] + qs[i + 1..]
  }

  /** `teardown_connection`: the server rolls back what was open. */
  function Teardown(c: Conn): Conn {
    Conn(Session(Idle, []), false, [], None, false, c.kept, c.lost)
  }

  function Do(c: Conn, step: Step): Conn
    requires Enabled(c, step)
  {
    match step
    case Connect => Conn(Session(Idle, []), false, [], None, true, c.kept, c.lost)
    case Submit(sql) => c.(flight := c.flight + [Sent(sql)])
    case Serve(i, outcome) =>
      var q := c.flight[i];
      c.(session := AfterOutcome(KindOf(q.sql), c.session, outcome),
         kept := Kept(c, KindOf(q.sql), outcome),
         flight := if q.Orphaned? then Without(c.flight, i) else c.flight[i := Answered(q.sql, outcome.Accepted?)])
    case Observe(i) =>
      var q := c.flight[i];
      c.(active := if q.ok then AfterGuess(q.sql, c.active) else c.active, flight := Without(c.flight, i))
    case CancelQuery(i) =>
      if c.flight[i].Answered? then c.(flight := Without(c.flight, i))
      else c.(flight := c.flight[i := Orphaned(c.flight[i].sql)])
    case Disconnect => if c.active then c else Teardown(c).(lost := c.lost || IsOpen(c.session))
    case Resolve(commit) => c.(resolving := Some(Asked(commit)))
    case ServeResolve(outcome) =>
      var kind := EndTx(c.resolving.value.commit);
      c.(session := AfterOutcome(kind, c.session, outcome),
         kept := Kept(c, kind, outcome),
         resolving := Some(Heard(c.resolving.value.commit, outcome.Accepted?)))
    case Finish =>
      if c.resolving.value.ok then Teardown(c).(lost := c.lost || IsOpen(c.session))
      else if c.resolving.value.commit then c.(resolving := None)
      else Teardown(c)
  }

  function Initial(): Conn { Conn(Session(Idle, []), false, [], None, false, 0, false) }

  function After(steps: seq<Step>): Option<Conn> {
    if steps == [] then Some(Initial())
    else
      var c :- After(steps[..|steps| - 1]);
      var last := steps[|steps| - 1];
      if Enabled(c, last) then Some(Do(c, last)) else None
  }

  // ---- what is tracked, in every run ------------------------------------------------------

  /** Step `j` is where a task sees the success of a statement that the guess reacts to. */
  ghost predicate SeesAt(steps: seq<Step>, j: nat, guess: Guess) {
    && j < |steps| && steps[j].Observe? && After(steps[..j]).Some?
    && var c := After(steps[..j]).value;
       && steps[j].i < |c.flight| && c.flight[steps[j].i].Answered? && c.flight[steps[j].i].ok
       && ClassifyTx(c.flight[steps[j].i].sql) == Some(guess)
  }

  /** Since then nothing was seen that says the opposite, and the connection was not opened anew. */
  ghost predicate StandsSince(steps: seq<Step>, j: nat) {
    forall k: nat :: j < k < |steps| ==> steps[k] != Connect && !SeesAt(steps, k, NotInTransaction)
  }

  /** The last answer seen on this connection, of those the guess reacts to, was one to a BEGIN. */
  ghost predicate BeginSeenLast(steps: seq<Step>) {
    exists j: nat :: SeesAt(steps, j, InTransaction) && StandsSince(steps, j)
  }

  lemma SeenStep(steps: seq<Step>, step: Step)
    requires After(steps).Some? && Enabled(After(steps).value, step)
    ensures
      var c, more := After(steps).value, steps + [step];
      var sees := step.Observe? && c.flight[step.i].ok;
      BeginSeenLast(more) <==>
        || (sees && ClassifyTx(c.flight[step.i].sql) == Some(InTransaction))
        || (BeginSeenLast(steps) && step != Connect &&
              !(sees && ClassifyTx(c.flight[step.i].sql) == Some(NotInTransaction)))
  {
    hide After, ClassifyTx;
    var more, n := steps + [step], |steps|;
    assert more[..n] == steps;
    forall j: nat, g | j < n ensures more[..j] == steps[..j] && (SeesAt(more, j, g) <==> SeesAt(steps, j, g)) {
    }
    if SeesAt(more, n, InTransaction) { assert StandsSince(more, n); }
    forall j: nat | j < n
      ensures StandsSince(more, j) <==>
        StandsSince(steps, j) && step != Connect && !SeesAt(more, n, NotInTransaction)
    {
      if StandsSince(more, j) {
        forall k: nat | j < k < n ensures steps[k] != Connect && !SeesAt(steps, k, NotInTransaction) {
          assert more[k] == steps[k];
        }
        assert more[n] == step;
      }
    }
    if j: nat :| SeesAt(steps, j, InTransaction) && StandsSince(steps, j) { assert SeesAt(more, j, InTransaction); }
    if j: nat :| SeesAt(more, j, InTransaction) && StandsSince(more, j) && j < n {
      assert SeesAt(steps, j, InTransaction);
    }
  }

  /**
   On a live connection a transaction is tracked exactly when the last answer seen on it, of those
   the guess reacts to, was to a statement that was guessed to begin one: in every run, careful or not.
   */
  lemma {:induction false} TrackedIff(steps: seq<Step>)
    requires After(steps).Some?
    ensures
      var c := After(steps).value;
      if c.live then c.active <==> BeginSeenLast(steps) else c == Initial().(kept := c.kept, lost := c.lost)
    decreases |steps|
  {
    hide ClassifyTx, AfterOutcome, Kept, KindOf, Possible, IsOpen, BeginSeenLast;
    if steps != [] {
      var n := |steps| - 1;
      TrackedIff(steps[..n]);
      SeenStep(steps[..n], steps[n]);
      assert steps[..n] + [steps[n]] == steps;
    }
  }

  /** A Disconnect asks about a transaction exactly then, and closes the connection otherwise. */
  lemma DisconnectAsksIff(steps: seq<Step>)
    requires After(steps).Some? && Enabled(After(steps).value, Disconnect)
    ensures
      var c, c' := After(steps).value, Do(After(steps).value, Disconnect);
      if BeginSeenLast(steps) then c' == c else !c'.live
  {
    TrackedIff(steps);
    hide After, BeginSeenLast;
  }

  /** The user's decision closes the connection unless it is a COMMIT that the server did not take. */
  lemma DecisionClosesIff(c: Conn)
    requires Enabled(c, Finish)
    ensures
      var c', refused := Do(c, Finish), c.resolving == Some(Heard(true, false));
      if refused then c' == c.(resolving := None) else !c'.live && c'.flight == [] && !c'.active
  {
  }

  // ---- whose answers are seen -------------------------------------------------------------

  /** The statements whose end is still to be seen, in the order of their queries. */
  function Pending(qs: seq<Query>): seq<string> {
    if qs == [] then []
    else Pending(qs[..|qs| - 1]) + if qs[|qs| - 1].Orphaned? then [] else [qs[|qs| - 1].sql]
  }

  lemma {:induction false} PendingAppend(a: seq<Query>, b: seq<Query>)
    ensures Pending(a + b) == Pending(a) + Pending(b)
  {
    if b == [] {
      assert a + b == a;
    } else {
      assert (a + b)[..|a + b| - 1] == a + b[..|b| - 1];
      PendingAppend(a, b[..|b| - 1]);
    }
  }

  lemma PendingAt(qs: seq<Query>, i: nat)
    requires i < |qs|
    ensures
      var before, after := Pending(qs[..i]), Pending(qs[i + 1..]);
      Pending(qs) == if qs[i].Orphaned? then before + after else before + [qs[i].sql] + after
  {
    hide Pending;
    assert qs == qs[..i] + ([qs[i]] + qs[i + 1..]);
    PendingMiddle(qs[..i], qs[i], qs[i + 1..]);
  }

  lemma PendingMiddle(a: seq<Query>, q: Query, b: seq<Query>)
    ensures Pending(a + ([q] + b)) == if q.Orphaned? then Pending(a) + Pending(b) else Pending(a) + [q.sql] + Pending(b)
  {
    PendingAppend(a, [q] + b);
    PendingAppend([q], b);
    PendingOne(q);
    hide Pending;
    Regroup(Pending(a), if q.Orphaned? then [] else [q.sql], Pending(b));
  }

  lemma Regroup(a: seq<string>, b: seq<string>, c: seq<string>)
    ensures a + (b + c) == if b == [] then a + c else a + b + c
  {
  }

  lemma PendingOne(q: Query)
    ensures Pending([q]) == if q.Orphaned? then [] else [q.sql]
  {
    assert [q][..0] == [];
  }

  /**
   Every statement submitted is pending until its end is seen, it is cancelled, or the connection
   is closed; the server's answers, late ones too, change nothing of that.
   */
  lemma PendingStep(c: Conn, step: Step)
    requires Enabled(c, step)
    ensures
      var c' := Do(c, step);
      match step
      case Submit(sql) => Pending(c'.flight) == Pending(c.flight) + [sql]
      case Observe(i) =>
        Pending(c.flight) == Pending(c.flight[..i]) + [c.flight[i].sql] + Pending(c.flight[i + 1..]) &&
        Pending(c'.flight) == Pending(c.flight[..i]) + Pending(c.flight[i + 1..])
      case CancelQuery(i) =>
        Pending(c.flight) == Pending(c.flight[..i]) + [c.flight[i].sql] + Pending(c.flight[i + 1..]) &&
        Pending(c'.flight) == Pending(c.flight[..i]) + Pending(c.flight[i + 1..])
      case _ => Pending(c'.flight) == if c.live && c'.live then Pending(c.flight) else []
  {
    hide KindOf, AfterOutcome, Possible, AfterGuess, Kept, IsOpen, Without, Pending;
    var c' := Do(c, step);
    match step
    case Submit(sql) =>
      PendingAppend(c.flight, [Sent(sql)]);
      PendingOne(Sent(sql));
    case Serve(i, _) => FlightChanged(c.flight, c'.flight, i);
    case Observe(i) => FlightChanged(c.flight, c'.flight, i);
    case CancelQuery(i) => FlightChanged(c.flight, c'.flight, i);
    case _ => PendingNone();
  }

  lemma PendingNone()
    ensures Pending([]) == []
  {
  }

  lemma FlightChanged(qs: seq<Query>, qs': seq<Query>, i: nat)
    requires i < |qs|
    requires qs' == Without(qs, i) || (|qs'| == |qs| && qs' == qs[i := qs'[i]] && qs'[i].sql == qs[i].sql)
    ensures
      var before, after := Pending(qs[..i]), Pending(qs[i + 1..]);
      && (Pending(qs) == if qs[i].Orphaned? then before + after else before + [qs[i].sql] + after)
      && (Pending(qs') ==
            if qs' == Without(qs, i) || qs'[i].Orphaned? then before + after else before + [qs[i].sql] + after)
  {
    hide Pending;
    PendingAt(qs, i);
    if qs' == Without(qs, i) {
      PendingAppend(qs[..i], qs[i + 1..]);
    } else {
      PendingAt(qs', i);
      assert qs'[..i] == qs[..i] && qs'[i + 1..] == qs[i + 1..];
    }
  }

  // ---- careful runs -----------------------------------------------------------------------

  /** The statement changes what is tracked, if it succeeds. */
  predicate Guides(sql: string) { ClassifyTx(sql).Some? && !KindOf(sql).NotSql? }

  /** The answer to this query may change what is tracked. */
  predicate Steers(q: Query) { !q.Orphaned? && Guides(q.sql) }

  /** No query in flight will tell the opposite. */
  predicate NoneOpposes(sql: string, qs: seq<Query>) {
    Guides(sql) ==> forall i :: 0 <= i < |qs| && Steers(qs[i]) ==> ClassifyTx(qs[i].sql) == ClassifyTx(sql)
  }

  predicate NoneOpens(qs: seq<Query>) {
    forall i :: 0 <= i < |qs| ==> KindOf(qs[i].sql) != BeginTx
  }

  /** What a user can keep to. */
  datatype Rule =
    /** Statements are trackable. */
    | Texts
    /** One that begins a transaction and one that ends one, as guessed, wait for each other. */
    | Overlaps
    /** A statement that opens a transaction is not cancelled. */
    | Cancels
    /** Nor is it in flight when the connection is closed or the open transaction decided on. */
    | Closing

  function AllRules(): set<Rule> { {Texts, Overlaps, Cancels, Closing} }

  predicate Careful(c: Conn, step: Step, rules: set<Rule>) {
    match step
    case Submit(sql) =>
      && (Texts in rules ==> Trackable(sql))
      && (Overlaps in rules ==> NoneOpposes(sql, c.flight))
    case CancelQuery(i) => Cancels in rules && i < |c.flight| ==> KindOf(c.flight[i].sql) != BeginTx
    case Disconnect => Closing in rules ==> NoneOpens(c.flight)
    case Resolve(_) => Closing in rules ==> NoneOpens(c.flight)
    case _ => true
  }

  predicate CarefulRun(steps: seq<Step>, rules: set<Rule>) {
    steps == [] ||
    var before := steps[..|steps| - 1];
    CarefulRun(before, rules) && (After(before).Some? ==> Careful(After(before).value, steps[|steps| - 1], rules))
  }

  // ---- what careful runs keep -------------------------------------------------------------

  /** The query has succeeded, and what it tells is still to be seen. */
  predicate Told(q: Query) { q.Answered? && q.ok && ClassifyTx(q.sql).Some? }

  predicate NoneTold(qs: seq<Query>) {
    forall i :: 0 <= i < |qs| ==> !Told(qs[i])
  }

  ghost predicate Sound(q: Query) {
    && Trackable(q.sql)
    && (q.Orphaned? ==> KindOf(q.sql) != BeginTx)
    && (Told(q) ==> Steers(q) && (ClassifyTx(q.sql) == Some(InTransaction) ==> KindOf(q.sql) == BeginTx))
  }

  /** The queries in flight that steer all tell the same. */
  ghost predicate SteerAlike(qs: seq<Query>) {
    forall i, j :: 0 <= i < |qs| && 0 <= j < |qs| && Steers(qs[i]) && Steers(qs[j]) ==>
      ClassifyTx(qs[i].sql) == ClassifyTx(qs[j].sql)
  }

  /** An open transaction is tracked, or the answer that is still to be seen says so. */
  ghost predicate Agrees(session: Session, active: bool, qs: seq<Query>) {
    && (NoneTold(qs) && IsOpen(session) ==> active)
    && (forall i :: 0 <= i < |qs| && Told(qs[i]) && IsOpen(session) ==> ClassifyTx(qs[i].sql) == Some(InTransaction))
  }

  ghost predicate Tracked(c: Conn) {
    && !c.lost
    && (!c.live ==> c == Initial().(kept := c.kept))
    && (forall i :: 0 <= i < |c.flight| ==> Sound(c.flight[i]))
    && SteerAlike(c.flight)
    && Agrees(c.session, c.active, c.flight)
    && (c.resolving.Some? ==> NoneOpens(c.flight))
    && (c.resolving.Some? && c.resolving.value.Heard? && c.resolving.value.ok ==> !IsOpen(c.session))
  }

  /** Only a statement that begins a transaction opens one. */
  lemma OnlyBeginOpens(kind: Kind, s: Session, outcome: Outcome)
    requires Possible(kind, s, outcome) && kind != BeginTx && IsOpen(AfterOutcome(kind, s, outcome))
    ensures IsOpen(s)
  {
  }

  lemma SuccessIsTracked(sql: string, s: Session, active: bool)
    requires Trackable(sql) && CanSucceed(KindOf(sql), s) && (IsOpen(s) ==> active)
    ensures IsOpen(AfterSuccess(KindOf(sql), s)) ==> AfterGuess(sql, active)
    ensures ClassifyTx(sql) == Some(InTransaction) ==> KindOf(sql) == BeginTx
  {
    KeepsTrackIff(sql);
    GuessOfKind(sql);
    hide KindOf, ClassifyTx, Trackable, AfterSuccess, CanSucceed;
    if CanSucceed(KindOf(sql), s) { CannotSucceed(sql, s); }
  }

  lemma CannotSucceed(sql: string, s: Session)
    requires CanSucceed(KindOf(sql), s)
    ensures !KindOf(sql).NotSql?
  {
  }

  lemma TrackableBegin(sql: string)
    requires Trackable(sql) && KindOf(sql) == BeginTx
    ensures ClassifyTx(sql) == Some(InTransaction)
  {
    GuessOfKind(sql);
    hide KindOf, ClassifyTx, Bare, FirstWord, OneBlank, Body;
    assert ClassifyTx(sql).Some? && ClassifyTx(sql).value != NotInTransaction;
  }

  lemma GuessTells(sql: string, active: bool)
    requires ClassifyTx(sql).Some? && AfterGuess(sql, active)
    ensures ClassifyTx(sql) == Some(InTransaction)
  {
  }

  /** A query that steers has been carried out: it and the others tell what is so. */
  lemma SteeringServed(c: Conn, i: nat)
    requires Tracked(c) && Enabled(c, Serve(i, Accepted)) && Steers(c.flight[i])
    ensures Tracked(Do(c, Serve(i, Accepted)))
  {
    hide KindOf, ClassifyTx, Trackable, AfterSuccess, CanSucceed, AfterGuess;
    var q, c' := c.flight[i], Do(c, Serve(i, Accepted));
    assert Sound(q);
    SuccessIsTracked(q.sql, c.session, true);
    if IsOpen(c'.session) { GuessTells(q.sql, true); }
    assert Told(c'.flight[i]);
    forall k | 0 <= k < |c'.flight| && Told(c'.flight[k]) ensures ClassifyTx(c'.flight[k].sql) == ClassifyTx(q.sql) {
      assert k != i ==> c'.flight[k] == c.flight[k] && Sound(c.flight[k]);
    }
  }

  /** What is known of the queries in flight. */
  ghost predicate FlightSound(qs: seq<Query>) {
    (forall i :: 0 <= i < |qs| ==> Sound(qs[i])) && SteerAlike(qs)
  }

  /** A query that has nothing to tell can go. */
  lemma Gone(session: Session, active: bool, qs: seq<Query>, i: nat)
    requires i < |qs| && FlightSound(qs)
    ensures FlightSound(Without(qs, i))
    ensures NoneOpens(qs) ==> NoneOpens(Without(qs, i))
    ensures Agrees(session, active, qs) && !Told(qs[i]) ==> Agrees(session, active, Without(qs, i))
  {
    hide Sound, Steers, Told, KindOf, ClassifyTx;
    var r := Without(qs, i);
    if NoneTold(r) && !Told(qs[i]) {
      forall k | 0 <= k < |qs| ensures !Told(qs[k]) {
        if k < i { assert qs[k] == r[k]; } else if k > i { assert qs[k] == r[k - 1]; }
      }
    }
  }

  /** A query that has nothing to tell can change into another such one. */
  lemma Changed(session: Session, active: bool, qs: seq<Query>, i: nat, q: Query)
    requires i < |qs| && FlightSound(qs) && Sound(q) && q.sql == qs[i].sql && (Steers(q) ==> Steers(qs[i]))
    ensures FlightSound(qs[i := q])
    ensures NoneOpens(qs) ==> NoneOpens(qs[i := q])
    ensures Agrees(session, active, qs) && !Told(qs[i]) && !Told(q) ==> Agrees(session, active, qs[i := q])
  {
    hide Sound, Steers, Told, KindOf, ClassifyTx;
    var r := qs[i := q];
    if NoneTold(r) && !Told(qs[i]) {
      forall k | 0 <= k < |qs| ensures !Told(qs[k]) {
        if k != i { assert qs[k] == r[k]; }
      }
    }
  }

  lemma AgreesLess(s: Session, s': Session, active: bool, qs: seq<Query>)
    requires Agrees(s, active, qs) && (IsOpen(s') ==> IsOpen(s))
    ensures Agrees(s', active, qs)
  {
    hide Told, ClassifyTx;
  }

  lemma ServeStep(c: Conn, i: nat, outcome: Outcome)
    requires Tracked(c) && Enabled(c, Serve(i, outcome))
    ensures Tracked(Do(c, Serve(i, outcome)))
  {
    hide KindOf, ClassifyTx, Trackable, AfterSuccess, CanSucceed, Agrees, NoneOpens, SteerAlike, Without;
    var q, c' := c.flight[i], Do(c, Serve(i, outcome));
    assert Sound(q);
    if Steers(q) && outcome.Accepted? {
      SteeringServed(c, i);
    } else {
      if !Steers(q) && KindOf(q.sql) == BeginTx { TrackableBegin(q.sql); }
      if outcome.Accepted? { CannotSucceed(q.sql, c.session); }
      if IsOpen(c'.session) && outcome.Accepted? { OnlyBeginOpens(KindOf(q.sql), c.session, outcome); }
      AgreesLess(c.session, c'.session, c.active, c.flight);
      if q.Orphaned? {
        Gone(c'.session, c.active, c.flight, i);
      } else {
        Changed(c'.session, c.active, c.flight, i, Answered(q.sql, outcome.Accepted?));
      }
      if c.resolving.Some? { ResolvedServe(c, i, outcome); }
    }
  }

  /** What is served while a resolution is under way opens nothing. */
  lemma ResolvedServe(c: Conn, i: nat, outcome: Outcome)
    requires Tracked(c) && Enabled(c, Serve(i, outcome)) && c.resolving.Some?
    ensures IsOpen(Do(c, Serve(i, outcome)).session) ==> IsOpen(c.session)
  {
    hide KindOf, ClassifyTx, Trackable;
    if IsOpen(Do(c, Serve(i, outcome)).session) { OnlyBeginOpens(KindOf(c.flight[i].sql), c.session, outcome); }
  }

  lemma ObserveStep(c: Conn, i: nat)
    requires Tracked(c) && Enabled(c, Observe(i))
    ensures Tracked(Do(c, Observe(i)))
  {
    hide KindOf, ClassifyTx, Trackable;
    var q, c' := c.flight[i], Do(c, Observe(i));
    Gone(c.session, c.active, c.flight, i);
    if Told(q) {
      ToldSeen(c.session, c.flight, i);
      assert IsOpen(c.session) ==> AfterGuess(q.sql, c.active);
    } else {
      assert c'.active == c.active;
    }
  }

  /** While a transaction is open, what is still told is that one is. */
  lemma ToldSeen(session: Session, qs: seq<Query>, i: nat)
    requires i < |qs| && Told(qs[i])
    requires forall k :: 0 <= k < |qs| && Told(qs[k]) && IsOpen(session) ==>
      ClassifyTx(qs[k].sql) == Some(InTransaction)
    ensures IsOpen(session) ==> Agrees(session, true, Without(qs, i))
    ensures !IsOpen(session) ==> forall active :: Agrees(session, active, Without(qs, i))
  {
    hide KindOf, ClassifyTx, Told;
  }

  lemma CancelStep(c: Conn, i: nat)
    requires Tracked(c) && Enabled(c, CancelQuery(i)) && KindOf(c.flight[i].sql) != BeginTx
    ensures Tracked(Do(c, CancelQuery(i)))
  {
    hide KindOf, ClassifyTx, Trackable;
    var q, c' := c.flight[i], Do(c, CancelQuery(i));
    if q.Answered? {
      Gone(c.session, c.active, c.flight, i);
      if Told(q) {
        assert Sound(q) && !IsOpen(c.session);
        ToldSeen(c.session, c.flight, i);
      }
    } else {
      Changed(c.session, c.active, c.flight, i, Orphaned(q.sql));
    }
  }

  lemma SubmitStep(c: Conn, sql: string)
    requires Tracked(c) && Enabled(c, Submit(sql)) && Careful(c, Submit(sql), AllRules())
    ensures Tracked(Do(c, Submit(sql)))
  {
    hide KindOf, ClassifyTx, Trackable;
    var qs' := c.flight + [Sent(sql)];
    assert NoneTold(qs') ==> NoneTold(c.flight) by {
      forall k | 0 <= k < |c.flight| && NoneTold(qs') ensures !Told(c.flight[k]) { assert qs'[k] == c.flight[k]; }
    }
  }

  /** With no opening statement in flight and nothing tracked, nothing is open. */
  lemma NothingOpen(c: Conn)
    requires Tracked(c) && NoneOpens(c.flight) && !c.active
    ensures !IsOpen(c.session)
  {
    hide KindOf, ClassifyTx, Trackable;
    if !NoneTold(c.flight) {
      var i :| 0 <= i < |c.flight| && Told(c.flight[i]);
      assert Sound(c.flight[i]);
    }
  }

  lemma TrackedStep(c: Conn, step: Step)
    requires Tracked(c) && Enabled(c, step) && Careful(c, step, AllRules())
    ensures Tracked(Do(c, step))
  {
    hide KindOf, ClassifyTx, Trackable, Agrees, SteerAlike, NoneOpens, AfterSuccess, CanSucceed;
    match step
    case Submit(sql) => SubmitStep(c, sql);
    case Serve(i, outcome) => ServeStep(c, i, outcome);
    case Observe(i) => ObserveStep(c, i);
    case CancelQuery(i) => CancelStep(c, i);
    case Disconnect => if !c.active { NothingOpen(c); ClosedIsTracked(); }
    case ServeResolve(outcome) => ResolveServed(c, outcome);
    case _ => ClosedIsTracked();
  }

  lemma ClosedIsTracked()
    ensures (forall n: nat :: Tracked(Initial().(kept := n))) && Agrees(Session(Idle, []), false, []) && SteerAlike([])
  {
  }

  lemma ResolveServed(c: Conn, outcome: Outcome)
    requires Tracked(c) && Enabled(c, ServeResolve(outcome))
    ensures Tracked(Do(c, ServeResolve(outcome)))
  {
    hide KindOf, ClassifyTx, Trackable, Agrees, SteerAlike, NoneOpens;
    AgreesLess(c.session, AfterOutcome(EndTx(c.resolving.value.commit), c.session, outcome), c.active, c.flight);
  }

  /**
   In a careful run an open transaction is tracked, whatever order the answers of the queries in
   flight are seen in, unless the answer that says so is still to be seen; and none is ever lost.
   */
  lemma {:induction false} CarefulRunsKeepTrack(steps: seq<Step>)
    requires After(steps).Some? && CarefulRun(steps, AllRules())
    ensures Tracked(After(steps).value)
    ensures !After(steps).value.lost
    ensures NoneTold(After(steps).value.flight) && IsOpen(After(steps).value.session) ==> After(steps).value.active
    decreases |steps|
  {
    hide Do, Enabled, Careful, Sound, Told, IsOpen, Steers, KindOf, ClassifyTx;
    if steps == [] {
      ClosedIsTracked();
    } else {
      CarefulRunsKeepTrack(steps[..|steps| - 1]);
      TrackedStep(After(steps[..|steps| - 1]).value, steps[|steps| - 1]);
    }
  }

  /**
   The step of a careful run that closes the connection finds no transaction open, but for one
   whose ROLLBACK the user decided on and the server did not answer with success; and a Disconnect
   asks whenever one is open.
   */
  lemma ClosingIsSafe(steps: seq<Step>, step: Step)
    requires After(steps).Some? && CarefulRun(steps, AllRules())
    requires Enabled(After(steps).value, step) && Careful(After(steps).value, step, AllRules())
    ensures
      var c, c' := After(steps).value, Do(After(steps).value, step);
      && (step.Disconnect? && IsOpen(c.session) ==> c' == c)
      && (c.live && !c'.live && IsOpen(c.session) ==> step.Finish? && c.resolving == Some(Heard(false, false)))
  {
    CarefulRunsKeepTrack(steps);
    hide After, KindOf, ClassifyTx, Trackable, Agrees, SteerAlike, NoneOpens, AfterSuccess, CanSucceed;
    var c := After(steps).value;
    if step.Disconnect? && !c.active { NothingOpen(c); }
  }

  // ---- every rule is needed ---------------------------------------------------------------

  ghost predicate Reaches(steps: seq<Step>, rules: set<Rule>, c: Conn) {
    After(steps) == Some(c) && CarefulRun(steps, rules)
  }

  lemma Extend(steps: seq<Step>, rules: set<Rule>, step: Step, c: Conn)
    requires Reaches(steps, rules, c) && Enabled(c, step) && Careful(c, step, rules)
    ensures Reaches(steps + [step], rules, Do(c, step))
  {
    assert (steps + [step])[..|steps|] == steps;
  }

  lemma LoseAt(steps: seq<Step>, rules: set<Rule>, step: Step, c: Conn)
    requires Reaches(steps, rules, c) && Enabled(c, step) && Careful(c, step, rules) && Do(c, step).lost
    ensures Loses(steps + [step], rules)
  {
    Extend(steps, rules, step, c);
  }

  /** A session at rest: connected, nothing in flight. */
  function Quiet(session: Session, active: bool): Conn { Conn(session, active, [], None, true, 0, false) }

  /** The run keeps these rules and loses a transaction. */
  ghost predicate Loses(steps: seq<Step>, rules: set<Rule>) {
    CarefulRun(steps, rules) && After(steps).Some? && After(steps).value.lost
  }

  lemma ReachConnected(rules: set<Rule>)
    ensures Reaches([Connect], rules, Quiet(Session(Idle, []), false))
  {
    assert After([]) == Some(Initial()) && CarefulRun([], rules);
    Extend([], rules, Connect, Initial());
    assert [] + [Connect] == [Connect];
  }

  /** A run that goes on with a statement that succeeds and is seen to. */
  function Statement(steps: seq<Step>, sql: string): seq<Step> {
    steps + [Submit(sql)] + [Serve(0, Accepted)] + [Observe(0)]
  }

  lemma RunStatement(steps: seq<Step>, rules: set<Rule>, sql: string, c: Conn, c': Conn)
    requires Reaches(steps, rules, c) && c.live && c.resolving.None? && c.flight == []
    requires Texts in rules ==> Trackable(sql)
    requires CanSucceed(KindOf(sql), c.session)
    requires c' == c.(session := AfterSuccess(KindOf(sql), c.session), active := AfterGuess(sql, c.active),
                        kept := Kept(c, KindOf(sql), Accepted))
    ensures Reaches(Statement(steps, sql), rules, c')
  {
    hide Reaches, KindOf, AfterGuess, ClassifyTx, AfterSuccess, CanSucceed, Trackable, Commits;
    var c1 := c.(flight := [Sent(sql)]);
    var c2 := c.(session := c'.session, kept := c'.kept, flight := [Answered(sql, true)]);
    Extend(steps, rules, Submit(sql), c);
    assert c.flight + [Sent(sql)] == [Sent(sql)];
    Extend(steps + [Submit(sql)], rules, Serve(0, Accepted), c1);
    assert c1.flight[0 := Answered(sql, true)] == [Answered(sql, true)];
    Extend(steps + [Submit(sql)] + [Serve(0, Accepted)], rules, Observe(0), c2);
    assert Without(c2.flight, 0) == [];
  }

  function BeginRun(): seq<Step> { Statement([Connect], "BEGIN") }

  lemma ReachBegun(rules: set<Rule>)
    ensures Reaches(BeginRun(), rules, Quiet(Session(Active, []), true))
  {
    BeginIsBegin();
    TrackableBegin("BEGIN");
    ReachConnected(rules);
    hide Reaches, KindOf, ClassifyTx, Trackable;
    RunStatement([Connect], rules, "BEGIN", Quiet(Session(Idle, []), false), Quiet(Session(Active, []), true));
  }

  /** What a statement needs in front of it: a transaction, and a savepoint to go back to. */
  function Before(kind: Kind): seq<Step> {
    match kind
    case BeginTx => [Connect]
    case BackTo(name) => Statement(BeginRun(), SavepointSql(name))
    case _ => BeginRun()
  }

  function Rest(kind: Kind): Conn {
    match kind
    case BeginTx => Quiet(Session(Idle, []), false)
    case BackTo(name) => Quiet(Session(Active, [name]), true)
    case _ => Quiet(Session(Active, []), true)
  }

  lemma ReachRest(kind: Kind, rules: set<Rule>)
    requires kind.BackTo? ==> kind.name != ""
    ensures Reaches(Before(kind), rules, Rest(kind))
  {
    hide Reaches, KindOf, ClassifyTx, SavepointSql;
    ReachConnected(rules);
    ReachBegun(rules);
    if kind.BackTo? {
      var sql := SavepointSql(kind.name);
      SavepointText(kind.name);
      assert [] + [kind.name] == [kind.name];
      RunStatement(BeginRun(), rules, sql, Quiet(Session(Active, []), true), Rest(kind));
    }
  }

  /** Where a statement that is not trackable does its harm. */
  lemma UntrackableIs(sql: string)
    requires !Trackable(sql)
    ensures
      var kind := KindOf(sql);
      && (kind.BeginTx? || kind.ChainTx? || (kind.BackTo? && kind.name != ""))
      && CanSucceed(kind, Rest(kind).session) && IsOpen(AfterSuccess(kind, Rest(kind).session))
      && !AfterGuess(sql, Rest(kind).active)
  {
    GuessOfKind(sql);
    if KindOf(sql).BackTo? { NamesAreNotEmpty(sql); }
    hide KindOf, ClassifyTx, Bare, FirstWord, OneBlank, Body;
    assert ClassifyTx(sql).None? || ClassifyTx(sql).value.InTransaction? || ClassifyTx(sql).value.NotInTransaction?;
  }

  lemma NamesAreNotEmpty(sql: string)
    requires KindOf(sql).BackTo?
    ensures KindOf(sql).name != ""
  {
    hide Lex, Body, Modes, Ends, Prefixed, DropWork;
  }

  /**
   Every statement that is not trackable loses a transaction, in a run that keeps the other rules:
   it is run on a new connection, after what it needs, and then the connection is closed.
   */
  lemma UntrackableLoses(sql: string)
    requires !Trackable(sql)
    ensures Loses(Statement(Before(KindOf(sql)), sql) + [Disconnect], AllRules() - {Texts})
  {
    var kind, rules := KindOf(sql), AllRules() - {Texts};
    UntrackableIs(sql);
    ReachRest(kind, rules);
    hide Reaches, Loses, Trackable, KindOf, AfterGuess, ClassifyTx, AfterSuccess, CanSucceed, Statement, Before, Rest,
      Commits;
    var c := Rest(kind);
    RestIsQuiet(kind);
    var c' := c.(session := AfterSuccess(kind, c.session), active := AfterGuess(sql, c.active),
                 kept := Kept(c, kind, Accepted));
    RunStatement(Before(kind), rules, sql, c, c');
    LoseAt(Statement(Before(kind), sql), rules, Disconnect, c');
  }

  lemma RestIsQuiet(kind: Kind)
    ensures var c := Rest(kind); c.live && c.resolving.None? && c.flight == [] && !c.lost
  {
  }

  /** A statement that opens a transaction is lost track of when it is cancelled and carried out all the same. */
  lemma CancelledBeginLoses(sql: string)
    requires KindOf(sql) == BeginTx && Trackable(sql)
    ensures
      var run := [Connect] + [Submit(sql)] + [CancelQuery(0)] + [Serve(0, Accepted)] + [Disconnect];
      Loses(run, AllRules() - {Cancels})
  {
    var rules, c := AllRules() - {Cancels}, Quiet(Session(Idle, []), false);
    ReachConnected(rules);
    hide Reaches, KindOf, ClassifyTx, Trackable;
    var c1, c2 := c.(flight := [Sent(sql)]), c.(flight := [Orphaned(sql)]);
    Extend([Connect], rules, Submit(sql), c);
    assert c.flight + [Sent(sql)] == [Sent(sql)];
    Extend([Connect] + [Submit(sql)], rules, CancelQuery(0), c1);
    assert c1.flight[0 := Orphaned(sql)] == [Orphaned(sql)];
    Extend([Connect] + [Submit(sql)] + [CancelQuery(0)], rules, Serve(0, Accepted), c2);
    assert Without(c2.flight, 0) == [];
    var run := [Connect] + [Submit(sql)] + [CancelQuery(0)] + [Serve(0, Accepted)];
    LoseAt(run, rules, Disconnect, Quiet(Session(Active, []), false));
  }

  /** So is one whose connection is closed before its end has been seen. */
  lemma DisconnectInFlightLoses(sql: string)
    requires KindOf(sql) == BeginTx && Trackable(sql)
    ensures Loses([Connect] + [Submit(sql)] + [Serve(0, Accepted)] + [Disconnect], AllRules() - {Closing})
  {
    var rules, c := AllRules() - {Closing}, Quiet(Session(Idle, []), false);
    ReachConnected(rules);
    hide Reaches, KindOf, ClassifyTx, Trackable;
    var c1, c2 := c.(flight := [Sent(sql)]), Quiet(Session(Active, []), false).(flight := [Answered(sql, true)]);
    Extend([Connect], rules, Submit(sql), c);
    assert c.flight + [Sent(sql)] == [Sent(sql)];
    Extend([Connect] + [Submit(sql)], rules, Serve(0, Accepted), c1);
    assert c1.flight[0 := Answered(sql, true)] == [Answered(sql, true)];
    LoseAt([Connect] + [Submit(sql)] + [Serve(0, Accepted)], rules, Disconnect, c2);
  }

  /** Both answers are there, and the one to the later statement is seen first. */
  lemma SeenInReverse(run: seq<Step>, rules: set<Rule>, end: string, begin: string)
    requires ClassifyTx(end) == Some(NotInTransaction) && ClassifyTx(begin) == Some(InTransaction)
    requires Reaches(run, rules,
      Quiet(Session(Active, []), false).(flight := [Answered(end, true), Answered(begin, true)]))
    ensures Loses(run + [Observe(1)] + [Observe(0)] + [Disconnect], rules)
  {
    hide Reaches, KindOf, ClassifyTx, Trackable;
    var s0 := Quiet(Session(Active, []), false).(flight := [Answered(end, true), Answered(begin, true)]);
    var s1 := s0.(active := true, flight := [Answered(end, true)]);
    assert Without(s0.flight, 1) == s1.flight && Without(s1.flight, 0) == [];
    Extend(run, rules, Observe(1), s0);
    Extend(run + [Observe(1)], rules, Observe(0), s1);
    LoseAt(run + [Observe(1)] + [Observe(0)], rules, Disconnect, Quiet(Session(Active, []), false));
  }

  /** Of two trackable statements of the server's, one ends a transaction and the other begins one, as guessed. */
  predicate Opposed(end: string, begin: string) {
    && Trackable(end) && ClassifyTx(end) == Some(NotInTransaction) && !KindOf(end).NotSql?
    && Trackable(begin) && ClassifyTx(begin) == Some(InTransaction) && !KindOf(begin).NotSql?
  }

  lemma OpposedKinds(end: string, begin: string)
    requires Opposed(end, begin)
    ensures KindOf(begin) == BeginTx && (KindOf(end).EndTx? || KindOf(end).FinishPrepared?)
  {
    GuessOfKind(end);
    GuessOfKind(begin);
    hide KindOf, ClassifyTx, FirstWord, Bare, OneBlank, Body;
  }

  /** The run in which a statement that ends a transaction and one that begins one are in flight together. */
  function OverlapRun(end: string, begin: string): seq<Step> {
    [Connect] + [Submit(end)] + [Submit(begin)] + [Serve(0, Accepted)] + [Serve(1, Accepted)]
  }

  /** What a statement that ends a transaction, or begins one, does outside any. */
  lemma ServedIdle(kind: Kind, c: Conn)
    requires c.session == Session(Idle, []) && (kind.EndTx? || kind.FinishPrepared? || kind.BeginTx?)
    ensures Possible(kind, c.session, Accepted) && Kept(c, kind, Accepted) == c.kept
    ensures AfterOutcome(kind, c.session, Accepted) == if kind.BeginTx? then Session(Active, []) else c.session
  {
  }

  /** When their answers are seen in the other order, the new transaction is lost track of. */
  lemma OverlapLoses(end: string, begin: string)
    requires Opposed(end, begin)
    ensures Loses(OverlapRun(end, begin) + [Observe(1)] + [Observe(0)] + [Disconnect], AllRules() - {Overlaps})
  {
    var rules := AllRules() - {Overlaps};
    OpposedKinds(end, begin);
    ReachConnected(rules);
    hide Reaches, KindOf, ClassifyTx, Trackable, Possible, AfterOutcome, Kept, NoneOpposes;
    var s0, run := Quiet(Session(Idle, []), false), [Connect];
    var s1, s2 := s0.(flight := [Sent(end)]), s0.(flight := [Sent(end), Sent(begin)]);
    var s3 := s0.(flight := [Answered(end, true), Sent(begin)]);
    assert s0.flight + [Sent(end)] == s1.flight && s1.flight + [Sent(begin)] == s2.flight;
    assert s2.flight[0 := Answered(end, true)] == s3.flight;
    assert s3.flight[1 := Answered(begin, true)] == [Answered(end, true), Answered(begin, true)];
    ServedIdle(KindOf(end), s2);
    ServedIdle(KindOf(begin), s3);
    Extend(run, rules, Submit(end), s0);
    Extend(run + [Submit(end)], rules, Submit(begin), s1);
    Extend(run + [Submit(end)] + [Submit(begin)], rules, Serve(0, Accepted), s2);
    Extend(run + [Submit(end)] + [Submit(begin)] + [Serve(0, Accepted)], rules, Serve(1, Accepted), s3);
    SeenInReverse(OverlapRun(end, begin), rules, end, begin);
  }

  ghost predicate SubmitsOnly(steps: seq<Step>, sqls: iset<string>) {
    forall i :: 0 <= i < |steps| && steps[i].Submit? ==> steps[i].sql in sqls
  }

  lemma {:induction false} FlightFrom(steps: seq<Step>, sqls: iset<string>)
    requires After(steps).Some? && SubmitsOnly(steps, sqls)
    ensures forall i :: 0 <= i < |After(steps).value.flight| ==> After(steps).value.flight[i].sql in sqls
    decreases |steps|
  {
    hide AfterOutcome, KindOf, AfterGuess, Possible, Kept, IsOpen;
    if steps != [] {
      FlightFrom(steps[..|steps| - 1], sqls);
    }
  }

  /** With no two opposed statements every run keeps the rule of overlaps. */
  lemma {:induction false} NeverOpposed(steps: seq<Step>, sqls: iset<string>)
    requires After(steps).Some? && SubmitsOnly(steps, sqls) && CarefulRun(steps, AllRules() - {Overlaps})
    requires forall end, begin :: end in sqls && begin in sqls ==> !Opposed(end, begin)
    ensures CarefulRun(steps, AllRules())
    decreases |steps|
  {
    hide Do, Enabled, KindOf, ClassifyTx, Trackable, NoneOpens;
    if steps != [] {
      var before, last := steps[..|steps| - 1], steps[|steps| - 1];
      NeverOpposed(before, sqls);
      CarefulRunsKeepTrack(before);
      FlightFrom(before, sqls);
      if last.Submit? && Guides(last.sql) {
        var c := After(before).value;
        forall i | 0 <= i < |c.flight| && Steers(c.flight[i])
          ensures ClassifyTx(c.flight[i].sql) == ClassifyTx(last.sql)
        {
          assert Sound(c.flight[i]);
          assert !Opposed(c.flight[i].sql, last.sql) && !Opposed(last.sql, c.flight[i].sql);
          TwoGuesses(ClassifyTx(c.flight[i].sql).value, ClassifyTx(last.sql).value);
        }
      }
    }
  }

  lemma TwoGuesses(g: Guess, h: Guess)
    ensures g == h || (g == InTransaction && h == NotInTransaction) || (g == NotInTransaction && h == InTransaction)
  {
  }

  /**
   Runs that keep the other rules and execute no statements but these can lose a transaction
   exactly when one of them begins a transaction and another ends one, as guessed.
   */
  lemma OverlapLosesIff(sqls: iset<string>)
    ensures
      (exists steps :: SubmitsOnly(steps, sqls) && Loses(steps, AllRules() - {Overlaps})) <==>
      (exists end, begin :: end in sqls && begin in sqls && Opposed(end, begin))
  {
    hide Opposed, After, CarefulRun;
    if end, begin :| end in sqls && begin in sqls && Opposed(end, begin) {
      OverlapLoses(end, begin);
      var steps := OverlapRun(end, begin) + [Observe(1)] + [Observe(0)] + [Disconnect];
      assert SubmitsOnly(steps, sqls) && Loses(steps, AllRules() - {Overlaps});
    } else {
      forall steps | SubmitsOnly(steps, sqls) ensures !Loses(steps, AllRules() - {Overlaps}) {
        if After(steps).Some? && CarefulRun(steps, AllRules() - {Overlaps}) {
          NeverOpposed(steps, sqls);
          CarefulRunsKeepTrack(steps);
        }
      }
    }
  }

  /** Two statements can lose a transaction between them exactly when they are opposed. */
  lemma PairLosesIff(a: string, b: string)
    ensures
      (exists steps :: SubmitsOnly(steps, iset{a, b}) && Loses(steps, AllRules() - {Overlaps})) <==>
      Opposed(a, b) || Opposed(b, a)
  {
    OverlapLosesIff(iset{a, b});
    hide KindOf, Trackable, ClassifyTx, Loses, SubmitsOnly;
  }

  /** A BEGIN in flight while the user's COMMIT is waited for is closed with the connection. */
  lemma ResolveInFlightLoses(sql: string)
    requires KindOf(sql) == BeginTx && Trackable(sql)
    ensures Loses(
      BeginRun() + [Submit(sql)] + [Resolve(true)] + [ServeResolve(Accepted)] + [Serve(0, Accepted)] + [Finish],
      AllRules() - {Closing})
  {
    var rules := AllRules() - {Closing};
    ReachBegun(rules);
    hide Reaches, KindOf, ClassifyTx, Trackable, BeginRun;
    var run, s0 := BeginRun(), Quiet(Session(Active, []), true);
    var s1 := s0.(flight := [Sent(sql)]);
    var s2 := s1.(resolving := Some(Asked(true)));
    var s3 := s1.(session := Session(Idle, []), kept := 1, resolving := Some(Heard(true, true)));
    var s4 := s3.(session := Session(Active, []), flight := [Answered(sql, true)]);
    assert s0.flight + [Sent(sql)] == s1.flight && s3.flight[0 := Answered(sql, true)] == s4.flight;
    Extend(run, rules, Submit(sql), s0);
    Extend(run + [Submit(sql)], rules, Resolve(true), s1);
    Extend(run + [Submit(sql)] + [Resolve(true)], rules, ServeResolve(Accepted), s2);
    Extend(run + [Submit(sql)] + [Resolve(true)] + [ServeResolve(Accepted)], rules, Serve(0, Accepted), s3);
    LoseAt(run + [Submit(sql)] + [Resolve(true)] + [ServeResolve(Accepted)] + [Serve(0, Accepted)], rules, Finish, s4);
  }

  // ---- what the user decided on -----------------------------------------------------------

  /** While the answer to the decision is waited for, what the server has made of it stands. */
  lemma {:induction false} Decided(steps: seq<Step>, later: seq<Step>)
    requires
      var run := steps + [ServeResolve(Accepted)];
      After(run + later).Some? && CarefulRun(run + later, AllRules()) && Finish !in later
    ensures
      var c, c' := After(steps + [ServeResolve(Accepted)]), After(steps + [ServeResolve(Accepted)] + later).value;
      c.Some? && c'.live && c'.resolving == c.value.resolving && c'.kept == c.value.kept && !IsOpen(c'.session) &&
      c'.resolving.Some? && c'.resolving.value.Heard? && c'.resolving.value.ok
    decreases |later|
  {
    hide KindOf, ClassifyTx, Trackable, Agrees, SteerAlike, AfterGuess;
    var run := steps + [ServeResolve(Accepted)];
    if later == [] {
      assert run + later == run && run[..|run| - 1] == steps;
    } else {
      var before, last := later[..|later| - 1], later[|later| - 1];
      assert (run + later)[..|run + later| - 1] == run + before && (run + later)[|run + later| - 1] == last;
      Decided(steps, before);
      CarefulRunsKeepTrack(run + before);
      DecidedStep(After(run + before).value, last);
    }
  }

  lemma DecidedStep(c: Conn, step: Step)
    requires Tracked(c) && Enabled(c, step) && !step.Finish? && c.live && !IsOpen(c.session)
    requires c.resolving.Some? && c.resolving.value.Heard?
    ensures
      var c' := Do(c, step);
      c'.live && c'.resolving == c.resolving && c'.kept == c.kept && !IsOpen(c'.session)
  {
    hide KindOf, ClassifyTx, Trackable, Agrees, SteerAlike, AfterGuess, AfterSuccess, CanSucceed;
    match step
    case Serve(i, outcome) => ResolvedServe(c, i, outcome);
    case _ =>
  }

  /**
   In a careful run that closes the connection when the server has accepted the COMMIT or ROLLBACK
   decided on, one more transaction has been committed since exactly when it was a COMMIT and
   reached an open transaction that had not failed.
   */
  lemma DecisionCommitsIff(steps: seq<Step>, later: seq<Step>, commit: bool)
    requires After(steps).Some? && After(steps).value.resolving == Some(Asked(commit)) && Finish !in later
    requires
      var run := steps + [ServeResolve(Accepted)] + later + [Finish];
      After(run).Some? && CarefulRun(run, AllRules())
    ensures
      var c, c' := After(steps).value, After(steps + [ServeResolve(Accepted)] + later + [Finish]).value;
      !c'.live && c'.kept == c.kept + if commit && c.session.tx.Active? then 1 else 0
  {
    var mid, run := steps + [ServeResolve(Accepted)], steps + [ServeResolve(Accepted)] + later + [Finish];
    assert run[..|run| - 1] == mid + later && mid[..|mid| - 1] == steps;
    hide KindOf, CarefulRun, Careful, Tracked, AfterGuess;
    assert CarefulRun(mid + later, AllRules()) by { ShorterIsCareful(run); }
    Decided(steps, later);
  }

  lemma ShorterIsCareful(run: seq<Step>)
    requires run != [] && CarefulRun(run, AllRules())
    ensures CarefulRun(run[..|run| - 1], AllRules())
  {
  }

  /**
   A COMMIT decided on after any statement of the transaction was refused closes the connection as
   if the transaction had been committed, and nothing was.
   */
  lemma FailedCommitCloses(sql: string)
    requires Trackable(sql)
    ensures Reaches(
      BeginRun() + [Submit(sql)] + [Serve(0, Refused)] + [Observe(0)] + [Resolve(true)] + [ServeResolve(Accepted)] +
      [Finish], AllRules(), Initial())
  {
    var rules, run, s0 := AllRules(), BeginRun(), Quiet(Session(Active, []), true);
    ReachBegun(rules);
    hide Reaches, KindOf, ClassifyTx, Trackable, BeginRun;
    var s1 := s0.(flight := [Sent(sql)]);
    var s2 := Quiet(Session(FailedTx, []), true).(flight := [Answered(sql, false)]);
    var s3 := Quiet(Session(FailedTx, []), true);
    var s4, s5 :=
      s3.(resolving := Some(Asked(true))), Quiet(Session(Idle, []), true).(resolving := Some(Heard(true, true)));
    assert s0.flight + [Sent(sql)] == s1.flight && s1.flight[0 := Answered(sql, false)] == s2.flight;
    assert Without(s2.flight, 0) == [];
    Extend(run, rules, Submit(sql), s0);
    Extend(run + [Submit(sql)], rules, Serve(0, Refused), s1);
    Extend(run + [Submit(sql)] + [Serve(0, Refused)], rules, Observe(0), s2);
    var run3 := run + [Submit(sql)] + [Serve(0, Refused)] + [Observe(0)];
    Extend(run3, rules, Resolve(true), s3);
    Extend(run3 + [Resolve(true)], rules, ServeResolve(Accepted), s4);
    Extend(run3 + [Resolve(true)] + [ServeResolve(Accepted)], rules, Finish, s5);
  }
}
