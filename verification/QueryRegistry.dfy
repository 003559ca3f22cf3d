/**
 The dispatcher and the query tasks it starts, which share a registry of running queries and the
 list of query texts. One step is what happens between two lock acquisitions; the tasks take
 their steps at any time, between any two steps of the dispatcher.
 */
module QueryRegistry {
  import opened Prelude

  type QueryId = nat
  type ConnId = nat

  datatype Handle = Placeholder | Real

  datatype Entry = Entry(conn: ConnId, handle: Handle)

  /** `Live` until the guard takes the query off the registry, `Unlisted` until it takes its text. */
  datatype Phase = Live | Unlisted | Ended

  /** The guard exists from the first poll of the task on. */
  datatype Task = Task(started: bool, aborted: bool, phase: Phase)

  /** Where the dispatcher is; `Head` is the head of its loop. */
  datatype Pc =
    | Head
    | Named(q: QueryId, conn: ConnId)
    | Listed(q: QueryId, conn: ConnId)
    | Spawned(q: QueryId, conn: ConnId)
    | Cancelling(q: QueryId, handle: Handle)
    | Closing(conn: ConnId)

  /** `placeholders` are the placeholder tasks that still wait; they never end by themselves. */
  datatype State = State(
    pc: Pc,
    sessions: set<ConnId>,
    registry: map<QueryId, Entry>,
    texts: set<QueryId>,
    tasks: map<QueryId, Task>,
    placeholders: set<QueryId>,
    next: QueryId)

  datatype Step =
    | Connect(conn: ConnId)
    | Execute(conn: ConnId)
    | InsertPlaceholder
    | SpawnTask
    | SwapHandle
    | Cancel(q: QueryId)
    | AbortCancelled
    | Disconnect(conn: ConnId)
    | AbortQueries
    | Begin(q: QueryId)
    | LeaveRegistry(q: QueryId)
    | DropText(q: QueryId)
    | Vanish(q: QueryId)

  function Start(): State {
    State(Head, {}, map[], {}, map[], {}, 0)
  }

  predicate Enabled(s: State, step: Step) {
    match step
    case Connect(_) => s.pc.Head?
    case Execute(_) => s.pc.Head?
    case Cancel(_) => s.pc.Head?
    case Disconnect(_) => s.pc.Head?
    case InsertPlaceholder => s.pc.Named?
    case SpawnTask => s.pc.Listed?
    case SwapHandle => s.pc.Spawned?
    case AbortCancelled => s.pc.Cancelling?
    case AbortQueries => s.pc.Closing?
    // A task starts at its first poll, unless it was aborted before.
    case Begin(q) => q in s.tasks && s.tasks[q] == Task(false, false, Live)
    // Its end, natural or not, drops the guard.
    case LeaveRegistry(q) => q in s.tasks && s.tasks[q].started && s.tasks[q].phase.Live?
    case DropText(q) => q in s.tasks && s.tasks[q].phase.Unlisted?
    // Aborted before the first poll it is dropped without ever having had a guard.
    case Vanish(q) => q in s.tasks && s.tasks[q] == Task(false, true, Live)
  }

  function AbortTask(tasks: map<QueryId, Task>, q: QueryId): map<QueryId, Task> {
    if q in tasks then tasks[q := tasks[q].(aborted := true)] else tasks
  }

  function AbortAll(tasks: map<QueryId, Task>, qs: set<QueryId>): map<QueryId, Task> {
    map q | q in tasks :: if q in qs then tasks[q].(aborted := true) else tasks[q]
  }

  function OfConnection(registry: map<QueryId, Entry>, conn: ConnId): set<QueryId> {
    set q | q in registry && registry[q].conn == conn
  }

  function Do(s: State, step: Step): State
    requires Enabled(s, step)
  {
    match step
    case Connect(conn) => s.(sessions := s.sessions + {conn})
    case Execute(conn) =>
      if conn !in s.sessions then s
      else s.(texts := s.texts + {s.next}, pc := Named(s.next, conn), next := s.next + 1)
    case InsertPlaceholder =>
      s.(registry := s.registry[s.pc.q := Entry(s.pc.conn, Placeholder)],
         placeholders := s.placeholders + {s.pc.q},
         pc := Listed(s.pc.q, s.pc.conn))
    case SpawnTask =>
      s.(tasks := s.tasks[s.pc.q := Task(false, false, Live)], pc := Spawned(s.pc.q, s.pc.conn))
    case SwapHandle =>
      var q := s.pc.q;
      if q in s.registry then
        s.(registry := s.registry[q := s.registry[q].(handle := Real)],
           placeholders := s.placeholders - {q},
           pc := Head)
      else
        s.(tasks := AbortTask(s.tasks, q), pc := Head)
    case Cancel(q) =>
      if q !in s.registry then s
      else s.(registry := s.registry - {q}, pc := Cancelling(q, s.registry[q].handle))
    case AbortCancelled =>
      if s.pc.handle.Real? then s.(tasks := AbortTask(s.tasks, s.pc.q), pc := Head)
      else s.(placeholders := s.placeholders - {s.pc.q}, pc := Head)
    case Disconnect(conn) => s.(sessions := s.sessions - {conn}, pc := Closing(conn))
    case AbortQueries =>
      var qs := OfConnection(s.registry, s.pc.conn);
      s.(registry := s.registry - qs, tasks := AbortAll(s.tasks, qs), pc := Head)
    case Begin(q) => s.(tasks := s.tasks[q := s.tasks[q].(started := true)])
    case LeaveRegistry(q) =>
      s.(registry := s.registry - {q}, tasks := s.tasks[q := s.tasks[q].(phase := Unlisted)])
    case DropText(q) =>
      s.(texts := s.texts - {q}, tasks := s.tasks[q := s.tasks[q].(phase := Ended)])
    case Vanish(q) => s.(tasks := s.tasks[q := s.tasks[q].(phase := Ended)])
  }

  function After(steps: seq<Step>): Option<State> {
    if steps == [] then Some(Start())
    else
      var s :- After(steps[..|steps| - 1]);
      var last := steps[|steps| - 1];
      if Enabled(s, last) then Some(Do(s, last)) else None
  }

  // ---- invariants -------------------------------------------------------------------------

  /** The query being started, before its task exists. */
  predicate Unspawned(s: State, q: QueryId) {
    (s.pc.Named? || s.pc.Listed?) && s.pc.q == q
  }

  predicate Starting(s: State, q: QueryId) {
    (s.pc.Listed? || s.pc.Spawned?) && s.pc.q == q
  }

  /** Every id issued has a task, or is being started; ids are not used again. */
  ghost predicate Accounted(s: State) {
    && (forall q :: q in s.tasks ==> q < s.next && !Unspawned(s, q))
    && (forall q: QueryId :: q < s.next && q !in s.tasks ==> Unspawned(s, q))
    && (forall q :: q in s.registry ==> q < s.next && !(s.pc.Named? && q == s.pc.q))
    && (s.pc.Named? || s.pc.Listed? || s.pc.Spawned? ==> s.pc.q + 1 == s.next)
    && (s.pc.Cancelling? ==> s.pc.q in s.tasks && s.pc.q !in s.registry)
  }

  /** A registered query has a task that has not ended and is not being aborted. */
  ghost predicate RegisteredLive(s: State) {
    forall q :: q in s.registry && q in s.tasks ==> s.tasks[q].phase.Live? && !s.tasks[q].aborted
  }

  /** A task that is off the registry has left it by itself, is being aborted, or is about to be. */
  ghost predicate NoneForgotten(s: State) {
    forall q :: q in s.tasks && q !in s.registry ==>
      s.tasks[q].aborted || Over(s.tasks[q]) || (s.pc.Cancelling? && s.pc.q == q)
  }

  ghost predicate RegisteredConnected(s: State) {
    && (forall q :: q in s.registry ==> s.registry[q].conn in s.sessions || s.pc == Closing(s.registry[q].conn))
    && (s.pc.Named? || s.pc.Listed? || s.pc.Spawned? ==> s.pc.conn in s.sessions)
  }

  /** Its guard has taken the query off the registry. */
  predicate Over(t: Task) { t.started && !t.phase.Live? }

  ghost predicate HandlesReal(s: State) {
    && (forall q :: q in s.registry && s.registry[q].handle.Placeholder? ==> Starting(s, q))
    && (s.pc.Listed? ==> s.pc.q in s.registry && s.registry[s.pc.q].handle.Placeholder?)
    && (s.pc.Spawned? && s.pc.q in s.registry ==> s.registry[s.pc.q].handle.Placeholder?)
    && (s.pc.Spawned? && s.pc.q !in s.registry ==> s.pc.q in s.tasks && Over(s.tasks[s.pc.q]))
    && (s.pc.Cancelling? ==> s.pc.handle.Real?)
  }

  /** A query's text is kept until its guard drops it. */
  ghost predicate TextsKept(s: State) {
    && (forall q: QueryId :: q < s.next ==>
      (q in s.texts <==> !(q in s.tasks && s.tasks[q].started && s.tasks[q].phase.Ended?)))
    && (forall q :: q in s.texts ==> q < s.next)
    && (forall q :: q in s.tasks && !s.tasks[q].started ==>
      !s.tasks[q].phase.Unlisted? && (s.tasks[q].phase.Ended? ==> s.tasks[q].aborted))
  }

  ghost predicate Inv(s: State) {
    && Accounted(s) && (s.pc.Spawned? ==> s.pc.q in s.tasks)
    && RegisteredLive(s) && RegisteredConnected(s) && HandlesReal(s) && TextsKept(s) && NoneForgotten(s)
  }

  lemma InvStep(s: State, step: Step)
    requires Inv(s) && Enabled(s, step)
    ensures Inv(Do(s, step))
  {
    AccountedStep(s, step);
    LiveStep(s, step);
    ConnectedStep(s, step);
    HandlesStep(s, step);
    TextsStep(s, step);
    ForgottenStep(s, step);
  }

  lemma AccountedStep(s: State, step: Step)
    requires Inv(s) && Enabled(s, step)
    ensures Accounted(Do(s, step))
    ensures Do(s, step).pc.Spawned? ==> Do(s, step).pc.q in Do(s, step).tasks
  {
    hide RegisteredLive, RegisteredConnected, TextsKept;
  }

  lemma LiveStep(s: State, step: Step)
    requires Inv(s) && Enabled(s, step)
    ensures RegisteredLive(Do(s, step))
  {
    hide RegisteredConnected, TextsKept;
  }

  lemma ConnectedStep(s: State, step: Step)
    requires Inv(s) && Enabled(s, step)
    ensures RegisteredConnected(Do(s, step))
  {
    hide RegisteredLive, TextsKept, HandlesReal, Accounted;
  }

  lemma HandlesStep(s: State, step: Step)
    requires Inv(s) && Enabled(s, step)
    ensures HandlesReal(Do(s, step))
  {
    hide RegisteredConnected, TextsKept;
  }

  lemma TextsStep(s: State, step: Step)
    requires Inv(s) && Enabled(s, step)
    ensures TextsKept(Do(s, step))
  {
    hide RegisteredLive, RegisteredConnected, HandlesReal;
  }

  lemma ForgottenStep(s: State, step: Step)
    requires Inv(s) && Enabled(s, step)
    ensures NoneForgotten(Do(s, step))
  {
    hide RegisteredConnected, RegisteredLive;
  }

  /** The invariants hold in every state of every interleaving. */
  lemma {:induction false} InvHolds(steps: seq<Step>)
    requires After(steps).Some?
    ensures Inv(After(steps).value)
    decreases |steps|
  {
    hide Inv, Do, Enabled;
    if steps == [] {
      InvStart();
    } else {
      InvHolds(steps[..|steps| - 1]);
      InvStep(After(steps[..|steps| - 1]).value, steps[|steps| - 1]);
    }
  }

  lemma InvStart()
    ensures Inv(Start())
  {
  }

  // ---- what follows -----------------------------------------------------------------------

  /** At every step, a registered query is one whose text is listed. */
  lemma RegistryWithinTexts(steps: seq<Step>)
    requires After(steps).Some?
    ensures After(steps).value.registry.Keys <= After(steps).value.texts
  {
    InvHolds(steps);
    hide After;
  }

  /**
   Whenever the dispatcher is back at the head of its loop, each registered query has a live
   session, its own task's handle, and a task that has neither ended nor been aborted, even
   where the task ended before its handle was put in place.
   */
  lemma AtHeadRegistered(steps: seq<Step>, q: QueryId)
    requires After(steps).Some? && After(steps).value.pc.Head? && q in After(steps).value.registry
    ensures
      var s := After(steps).value;
      && s.registry[q].conn in s.sessions && s.registry[q].handle.Real?
      && q in s.tasks && s.tasks[q].phase.Live? && !s.tasks[q].aborted
  {
    InvHolds(steps);
    hide After;
  }

  /**
   At the head of the loop a query is registered exactly when its task has not left by itself and
   is not being aborted: a task off the registry never runs on.
   */
  lemma RegisteredIff(steps: seq<Step>, q: QueryId)
    requires After(steps).Some? && After(steps).value.pc.Head?
    ensures
      var s := After(steps).value;
      q in s.registry <==> q in s.tasks && !s.tasks[q].aborted && !Over(s.tasks[q])
  {
    InvHolds(steps);
    hide After;
  }

  // ---- who is aborted ---------------------------------------------------------------------

  /** Step `j` cancels the query while it is registered. */
  ghost predicate CancelsAt(steps: seq<Step>, q: QueryId, j: nat) {
    && j < |steps| && steps[j] == Cancel(q)
    && After(steps[..j]).Some? && q in After(steps[..j]).value.registry
  }

  /** Step `j` aborts the queries of a connection that is closed, and this is one of them. */
  ghost predicate ClosesAt(steps: seq<Step>, q: QueryId, j: nat) {
    && j < |steps| && steps[j] == AbortQueries
    && After(steps[..j]).Some? && After(steps[..j]).value.pc.Closing?
    && q in After(steps[..j]).value.registry
    && After(steps[..j]).value.registry[q].conn == After(steps[..j]).value.pc.conn
  }

  ghost predicate Cancelled(steps: seq<Step>, q: QueryId) { exists j: nat :: CancelsAt(steps, q, j) }

  ghost predicate ClosedWith(steps: seq<Step>, q: QueryId) { exists j: nat :: ClosesAt(steps, q, j) }

  lemma AbortersStep(steps: seq<Step>, step: Step, q: QueryId)
    requires After(steps).Some?
    ensures
      var s, more := After(steps).value, steps + [step];
      && (Cancelled(more, q) <==> Cancelled(steps, q) || (step == Cancel(q) && q in s.registry))
      && (ClosedWith(more, q) <==>
            || ClosedWith(steps, q)
            || (step == AbortQueries && s.pc.Closing? && q in s.registry && s.registry[q].conn == s.pc.conn))
  {
    hide After;
    var more := steps + [step];
    assert more[..|steps|] == steps;
    forall j: nat | j < |steps|
      ensures more[..j] == steps[..j] && (CancelsAt(more, q, j) <==> CancelsAt(steps, q, j)) &&
        (ClosesAt(more, q, j) <==> ClosesAt(steps, q, j))
    {
    }
    if j: nat :| CancelsAt(steps, q, j) { assert CancelsAt(more, q, j); }
    if j: nat :| ClosesAt(steps, q, j) { assert ClosesAt(more, q, j); }
    if step == Cancel(q) && q in After(steps).value.registry { assert CancelsAt(more, q, |steps|); }
    if ClosesAt(more, q, |steps|) { assert ClosedWith(more, q); }
  }

  /** What the steps so far say about the query's abortion. */
  ghost predicate AbortedAs(steps: seq<Step>, s: State, q: QueryId) {
    && (q in s.tasks ==>
          (s.tasks[q].aborted || (s.pc.Cancelling? && s.pc.q == q) <==>
            Cancelled(steps, q) || ClosedWith(steps, q) || LeftBeforeSwap(steps, q)))
    && (q !in s.tasks ==> !Cancelled(steps, q) && !ClosedWith(steps, q) && !LeftBeforeSwap(steps, q))
  }

  lemma AbortedStep(steps: seq<Step>, step: Step, q: QueryId)
    requires After(steps).Some? && Inv(After(steps).value) && Enabled(After(steps).value, step)
    requires Recorded(steps, After(steps).value, q) && AbortedAs(steps, After(steps).value, q)
    ensures AbortedAs(steps + [step], Do(After(steps).value, step), q)
  {
    LeftStep(steps, step, q);
    AbortersStep(steps, step, q);
    hide After, Left, LeftBeforeSwap, Cancelled, ClosedWith, RegisteredConnected, TextsKept, RegisteredLive;
  }

  lemma {:induction false} RunsAbortAs(steps: seq<Step>, q: QueryId)
    requires After(steps).Some?
    ensures AbortedAs(steps, After(steps).value, q)
    decreases |steps|
  {
    hide Inv, Do, Enabled, Recorded, AbortedAs;
    if steps == [] {
      NothingAborted(q);
    } else {
      var before := steps[..|steps| - 1];
      InvHolds(before);
      RunsAreRecorded(before, q);
      RunsAbortAs(before, q);
      AbortedStep(before, steps[|steps| - 1], q);
      assert before + [steps[|steps| - 1]] == steps;
    }
  }

  lemma NothingAborted(q: QueryId)
    ensures AbortedAs([], Start(), q)
  {
  }

  /**
   At the head of the loop exactly those tasks are aborted whose query was cancelled while it was
   registered, whose connection was closed while it was, or that left before the handles were
   swapped; of the last nothing is left to abort.
   */
  lemma AbortedIff(steps: seq<Step>, q: QueryId)
    requires After(steps).Some? && After(steps).value.pc.Head? && q in After(steps).value.tasks
    ensures After(steps).value.tasks[q].aborted <==>
      Cancelled(steps, q) || ClosedWith(steps, q) || LeftBeforeSwap(steps, q)
    ensures LeftBeforeSwap(steps, q) ==> Over(After(steps).value.tasks[q])
  {
    RunsAbortAs(steps, q);
    RunsAreRecorded(steps, q);
    hide After, Cancelled, ClosedWith, LeftBeforeSwap, Left;
  }

  /** A session is open exactly when the last step about its connection opened it. */
  ghost predicate OpenedAt(steps: seq<Step>, conn: ConnId, j: nat) {
    j < |steps| && steps[j] == Connect(conn) && forall k :: j < k < |steps| ==> steps[k] != Disconnect(conn)
  }

  lemma {:induction false} SessionsAre(steps: seq<Step>, conn: ConnId)
    requires After(steps).Some?
    ensures conn in After(steps).value.sessions <==> exists j: nat :: OpenedAt(steps, conn, j)
    decreases |steps|
  {
    if steps != [] {
      var n := |steps| - 1;
      SessionsAre(steps[..n], conn);
      SessionStep(After(steps[..n]).value, steps[n], conn);
      hide After, Do, Enabled;
      if j: nat :| OpenedAt(steps, conn, j) && j < n { assert OpenedAt(steps[..n], conn, j); }
      if j: nat :| OpenedAt(steps[..n], conn, j) && steps[n] != Disconnect(conn) { assert OpenedAt(steps, conn, j); }
      if steps[n] == Connect(conn) { assert OpenedAt(steps, conn, n); }
    }
  }

  lemma SessionStep(s: State, step: Step, conn: ConnId)
    requires Enabled(s, step)
    ensures conn in Do(s, step).sessions <==> step == Connect(conn) || (conn in s.sessions && step != Disconnect(conn))
  {
  }

  /** Executing on an open session always starts a query, and nothing is started otherwise. */
  lemma ExecuteStarts(steps: seq<Step>, conn: ConnId)
    requires After(steps).Some? && After(steps).value.pc.Head?
    ensures
      var s, s' := After(steps).value, Do(After(steps).value, Execute(conn));
      if exists j: nat :: OpenedAt(steps, conn, j)
      then s'.pc == Named(s.next, conn) && s.next in s'.texts && s.next !in s.tasks && s.next !in s.registry
      else s' == s
  {
    SessionsAre(steps, conn);
    InvHolds(steps);
    hide After;
  }

  // ---- what the run says ------------------------------------------------------------------

  /** The query's task has left the registry in the run. */
  ghost predicate Left(steps: seq<Step>, q: QueryId) {
    LeaveRegistry(q) in steps
  }

  /** Step `j` puts the handle of the query's task in place. */
  ghost predicate SwapsAt(steps: seq<Step>, q: QueryId, j: nat) {
    && j < |steps| && steps[j] == SwapHandle
    && After(steps[..j]).Some? && After(steps[..j]).value.pc.Spawned? && After(steps[..j]).value.pc.q == q
  }

  ghost predicate LeftBeforeSwap(steps: seq<Step>, q: QueryId) {
    exists j: nat :: SwapsAt(steps, q, j) && Left(steps[..j], q)
  }

  /** What the steps so far say about the query's task and its placeholder. */
  ghost predicate Recorded(steps: seq<Step>, s: State, q: QueryId) {
    && (Left(steps, q) <==> q in s.tasks && Over(s.tasks[q]))
    && (q in s.placeholders <==> Starting(s, q) || LeftBeforeSwap(steps, q))
    && (LeftBeforeSwap(steps, q) ==> Left(steps, q) && !Starting(s, q))
  }

  lemma LeftStep(steps: seq<Step>, step: Step, q: QueryId)
    requires After(steps).Some?
    ensures Left(steps + [step], q) <==> Left(steps, q) || step == LeaveRegistry(q)
    ensures LeftBeforeSwap(steps + [step], q) <==>
      || LeftBeforeSwap(steps, q)
      || (step == SwapHandle && After(steps).value.pc.Spawned? && After(steps).value.pc.q == q && Left(steps, q))
  {
    hide After;
    var more := steps + [step];
    assert more[..|steps|] == steps;
    forall j: nat | j < |steps| ensures more[..j] == steps[..j] && (SwapsAt(more, q, j) <==> SwapsAt(steps, q, j)) {
    }
    if LeftBeforeSwap(steps, q) {
      var j: nat :| SwapsAt(steps, q, j) && Left(steps[..j], q);
      assert SwapsAt(more, q, j);
    }
    if LeftBeforeSwap(more, q) {
      var j: nat :| SwapsAt(more, q, j) && Left(more[..j], q);
      if j < |steps| { assert SwapsAt(steps, q, j); }
    }
    if step == SwapHandle && After(steps).value.pc.Spawned? && After(steps).value.pc.q == q && Left(steps, q) {
      assert SwapsAt(more, q, |steps|);
    }
    assert LeaveRegistry(q) in more <==> LeaveRegistry(q) in steps || step == LeaveRegistry(q);
  }

  lemma RecordedStep(steps: seq<Step>, step: Step, q: QueryId)
    requires After(steps).Some? && Inv(After(steps).value) && Enabled(After(steps).value, step)
    requires Recorded(steps, After(steps).value, q)
    ensures Recorded(steps + [step], Do(After(steps).value, step), q)
  {
    LeftStep(steps, step, q);
    hide After, Left, LeftBeforeSwap, RegisteredConnected;
  }

  lemma {:induction false} RunsAreRecorded(steps: seq<Step>, q: QueryId)
    requires After(steps).Some?
    ensures Recorded(steps, After(steps).value, q)
    decreases |steps|
  {
    hide Inv, Do, Enabled, Recorded;
    if steps == [] {
      NothingRecorded(q);
    } else {
      var before := steps[..|steps| - 1];
      InvHolds(before);
      RunsAreRecorded(before, q);
      RecordedStep(before, steps[|steps| - 1], q);
      assert before + [steps[|steps| - 1]] == steps;
    }
  }

  lemma NothingRecorded(q: QueryId)
    ensures Recorded([], Start(), q)
  {
  }

  /**
   A placeholder task outlives its query exactly when the query's own task left the registry
   before the handles were swapped: nothing is left then to abort it by.
   */
  lemma PlaceholderSurvivesIff(steps: seq<Step>, q: QueryId)
    requires After(steps).Some? && After(steps).value.pc.Head?
    ensures q in After(steps).value.placeholders <==> LeftBeforeSwap(steps, q)
  {
    RunsAreRecorded(steps, q);
    hide After, LeftBeforeSwap;
  }

  /**
   Of the queries that are over, exactly those keep their text listed whose task was aborted
   before it was first polled: their guard never existed.
   */
  lemma TextSurvivesIff(steps: seq<Step>, q: QueryId)
    requires After(steps).Some?
    requires q in After(steps).value.tasks && After(steps).value.tasks[q].phase.Ended?
    ensures
      var s := After(steps).value;
      && (q in s.texts <==> !s.tasks[q].started)
      && (q in s.texts ==> s.tasks[q].aborted && q !in s.registry)
  {
    InvHolds(steps);
    hide After;
  }

  /** A query on connection 1 has just been started. */
  function Started(): State {
    State(Head, {1}, map[0 := Entry(1, Real)], {0}, map[0 := Task(false, false, Live)], {}, 1)
  }

  const SPAWNING: seq<Step> := [Connect(1), Execute(1), InsertPlaceholder, SpawnTask]

  /** Its task exists, and its handle is still the placeholder's. */
  function JustSpawned(): State {
    State(Spawned(0, 1), {1}, map[0 := Entry(1, Placeholder)], {0}, map[0 := Task(false, false, Live)], {0}, 1)
  }

  lemma ReachSpawned()
    ensures After(SPAWNING) == Some(JustSpawned())
  {
    hide After;
    var s1 := State(Head, {1}, map[], {}, map[], {}, 0);
    var s2 := s1.(pc := Named(0, 1), texts := {0}, next := 1);
    var s3 := s2.(pc := Listed(0, 1), registry := map[0 := Entry(1, Placeholder)], placeholders := {0});
    AfterNothing();
    var r0: seq<Step> := [];
    var r1 := r0 + [Connect(1)];
    var r2 := r1 + [Execute(1)];
    var r3 := r2 + [InsertPlaceholder];
    AfterStep(r0, Connect(1), Start(), s1);
    AfterStep(r1, Execute(1), s1, s2);
    AfterStep(r2, InsertPlaceholder, s2, s3);
    AfterStep(r3, SpawnTask, s3, JustSpawned());
    assert r3 + [SpawnTask] == SPAWNING;
  }

  lemma ReachStarted()
    ensures After(SPAWNING + [SwapHandle]) == Some(Started())
  {
    hide After;
    ReachSpawned();
    AfterStep(SPAWNING, SwapHandle, JustSpawned(), Started());
  }

  /** A run in which a placeholder is left over: the task ends between its start and the swap. */
  lemma PlaceholderCanSurvive()
    ensures
      var r := After(SPAWNING + [Begin(0)] + [LeaveRegistry(0)] + [SwapHandle]);
      r.Some? && r.value.pc.Head? && r.value.registry == map[] && r.value.placeholders == {0}
  {
    hide After;
    ReachSpawned();
    var s1 := JustSpawned().(tasks := map[0 := Task(true, false, Live)]);
    var s2 := s1.(registry := map[], tasks := map[0 := Task(true, false, Unlisted)]);
    var s3 := s2.(tasks := map[0 := Task(true, true, Unlisted)], pc := Head);
    AfterStep(SPAWNING, Begin(0), JustSpawned(), s1);
    AfterStep(SPAWNING + [Begin(0)], LeaveRegistry(0), s1, s2);
    AfterStep(SPAWNING + [Begin(0)] + [LeaveRegistry(0)], SwapHandle, s2, s3);
  }

  /** A run in which a text is left over: the connection is closed before the task of its query is polled. */
  lemma TextCanSurvive()
    ensures
      var r := After(SPAWNING + [SwapHandle] + [Disconnect(1)] + [AbortQueries] + [Vanish(0)]);
      r.Some? && r.value.registry == map[] && r.value.texts == {0} &&
        r.value.tasks == map[0 := Task(false, true, Ended)]
  {
    hide After;
    ReachStarted();
    var s1 := Started().(pc := Closing(1), sessions := {});
    var s2 := s1.(pc := Head, registry := map[], tasks := map[0 := Task(false, true, Live)]);
    var s3 := s2.(tasks := map[0 := Task(false, true, Ended)]);
    AfterStep(SPAWNING + [SwapHandle], Disconnect(1), Started(), s1);
    assert OfConnection(s1.registry, 1) == {0};
    AfterStep(SPAWNING + [SwapHandle] + [Disconnect(1)], AbortQueries, s1, s2);
    AfterStep(SPAWNING + [SwapHandle] + [Disconnect(1)] + [AbortQueries], Vanish(0), s2, s3);
  }

  lemma AfterNothing()
    ensures After([]) == Some(Start())
  {
  }

  lemma AfterStep(steps: seq<Step>, step: Step, s: State, s': State)
    requires After(steps) == Some(s) && Enabled(s, step) && Do(s, step) == s'
    ensures After(steps + [step]) == Some(s')
  {
    assert (steps + [step])[..|steps|] == steps;
  }
}
