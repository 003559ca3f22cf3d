/**
 A query's rows on their way from the server to the store: a producer that batches them, a
 bounded channel, and a consumer that pushes each batch. Producer and consumer are tasks of
 their own, so every order of their steps is considered, and so is the consumer being aborted.
 */
module Pipeline {
  import opened Prelude
  import opened Values
  import opened Store

  datatype Event = Meta(names: seq<string>) | Batch(rows: seq<Cells>) | Error | Complete(total: nat)

  /** `fails` says that the server reports an error after the rows in `input`. */
  datatype Config = Config(input: seq<Cells>, names: seq<string>, batchSize: nat, channelCap: nat, fails: bool)

  /** A batch is sent once it is this long: a batch size of zero acts like one. */
  function BatchLen(c: Config): (n: nat)
    ensures n > 0
  {
    if c.batchSize == 0 then 1 else c.batchSize
  }

  function EventRows(ev: Event): seq<Cells> {
    if ev.Batch? then ev.rows else []
  }

  function RowsOf(evs: seq<Event>): seq<Cells> {
    if evs == [] then [] else EventRows(evs[0]) + RowsOf(evs[1..])
  }

  lemma {:induction false} RowsOfAppend(a: seq<Event>, b: seq<Event>)
    ensures RowsOf(a + b) == RowsOf(a) + RowsOf(b)
  {
    if a == [] {
      assert a + b == b;
    } else {
      assert (a + b)[0] == a[0] && (a + b)[1..] == a[1..] + b;
      RowsOfAppend(a[1..], b);
      assert EventRows(a[0]) + (RowsOf(a[1..]) + RowsOf(b)) == EventRows(a[0]) + RowsOf(a[1..]) + RowsOf(b);
    }
  }

  predicate Terminal(ev: Event) { ev.Error? || ev.Complete? }

  // ---- what the producer sends ------------------------------------------------------------

  /** The events from input row `pos` on, with `batch` not sent yet. */
  function Tail(c: Config, pos: nat, batch: seq<Cells>): (evs: seq<Event>)
    requires pos <= |c.input|
    ensures |evs| > 0 && Terminal(evs[|evs| - 1])
    ensures forall i :: 0 <= i < |evs| - 1 ==> !Terminal(evs[i])
    decreases |c.input| - pos
  {
    if pos < |c.input| then
      var longer := batch + [c.input[pos]];
      if |longer| >= c.batchSize then [Batch(longer)] + Tail(c, pos + 1, []) else Tail(c, pos + 1, longer)
    else if c.fails then [Error]
    else (if batch != [] then [Batch(batch)] else []) + [Complete(pos)]
  }

  function Script(c: Config): seq<Event> {
    [Meta(c.names)] + Tail(c, 0, [])
  }

  lemma {:induction false} TailRows(c: Config, pos: nat, batch: seq<Cells>)
    requires pos <= |c.input| && !c.fails
    ensures RowsOf(Tail(c, pos, batch)) == batch + c.input[pos..]
    ensures Tail(c, pos, batch)[|Tail(c, pos, batch)| - 1] == Complete(|c.input|)
    decreases |c.input| - pos
  {
    if pos < |c.input| {
      var longer := batch + [c.input[pos]];
      assert longer + c.input[pos + 1..] == batch + c.input[pos..];
      if |longer| >= c.batchSize {
        TailRows(c, pos + 1, []);
        RowsOfAppend([Batch(longer)], Tail(c, pos + 1, []));
        assert RowsOf([Batch(longer)]) == longer && [] + c.input[pos + 1..] == c.input[pos + 1..];
      } else {
        TailRows(c, pos + 1, longer);
      }
    } else {
      assert c.input[pos..] == [] && batch + [] == batch;
      if batch != [] {
        RowsOfAppend([Batch(batch)], [Complete(pos)]);
        assert RowsOf([Batch(batch)]) == batch && RowsOf([Complete(pos)]) == [];
      }
    }
  }

  /** The rows of `n` that full batches of `b` hold. */
  function Full(n: nat, b: nat): (k: nat)
    requires b > 0
    ensures k <= n
    decreases n
  {
    if n < b then 0 else b + Full(n - b, b)
  }

  lemma {:induction false} FullIs(n: nat, b: nat)
    requires b > 0
    ensures Full(n, b) == n / b * b
    decreases n
  {
    if n >= b {
      FullIs(n - b, b);
      DivStep(n, b);
      OneTimesMore((n - b) / b, b);
    } else {
      QuotientUnique(b, 0, n, n / b, n % b);
    }
  }

  lemma OneTimesMore(q: int, b: int)
    ensures (q + 1) * b == b + q * b
  {
  }

  /** What a failing stream delivers of `rest`: its full batches. */
  function FullBatches(rest: seq<Cells>, b: nat): seq<Cells>
    requires b > 0
  {
    rest[..Full(|rest|, b)]
  }

  lemma FullBatchesStep(first: seq<Cells>, later: seq<Cells>, b: nat)
    requires b > 0 && |first| == b
    ensures FullBatches(first + later, b) == first + FullBatches(later, b)
  {
  }

  lemma OneBatchMore(rows: seq<Cells>, evs: seq<Event>)
    ensures RowsOf([Batch(rows)] + evs) == rows + RowsOf(evs)
  {
    assert ([Batch(rows)] + evs)[1..] == evs;
  }

  lemma LongerRest(batch: seq<Cells>, input: seq<Cells>, pos: nat)
    requires pos < |input|
    ensures batch + input[pos..] == batch + [input[pos]] + input[pos + 1..]
    ensures [] + input[pos + 1..] == input[pos + 1..]
  {
  }

  /** A failing stream delivers its full batches only: the rows read since the last one are lost. */
  lemma {:induction false} FailingTailRows(c: Config, pos: nat, batch: seq<Cells>)
    requires pos <= |c.input| && c.fails && |batch| < BatchLen(c)
    ensures RowsOf(Tail(c, pos, batch)) == FullBatches(batch + c.input[pos..], BatchLen(c))
    ensures Tail(c, pos, batch)[|Tail(c, pos, batch)| - 1] == Error
    decreases |c.input| - pos
  {
    hide RowsOf, FullBatches;
    if pos < |c.input| {
      var longer := batch + [c.input[pos]];
      LongerRest(batch, c.input, pos);
      if |longer| >= c.batchSize {
        FailingTailRows(c, pos + 1, []);
        OneBatchMore(longer, Tail(c, pos + 1, []));
        FullBatchesStep(longer, c.input[pos + 1..], BatchLen(c));
      } else {
        FailingTailRows(c, pos + 1, longer);
      }
    } else {
      NoBatches(batch, BatchLen(c));
      assert batch + c.input[pos..] == batch;
    }
  }

  lemma NoBatches(rest: seq<Cells>, b: nat)
    requires |rest| < b
    ensures FullBatches(rest, b) == [] == RowsOf([Error])
  {
  }

  /** What a whole run delivers: every row, or the full batches before the error. */
  function Delivered(c: Config): (rows: seq<Cells>)
    ensures rows <= c.input
  {
    if c.fails then FullBatches(c.input, BatchLen(c)) else c.input
  }

  lemma ScriptDelivers(c: Config)
    ensures RowsOf(Script(c)) == Delivered(c)
    ensures Script(c)[|Script(c)| - 1] == if c.fails then Error else Complete(|c.input|)
  {
    assert [] + c.input[0..] == c.input;
    RowsOfAppend([Meta(c.names)], Tail(c, 0, []));
    assert RowsOf([Meta(c.names)]) == [];
    if c.fails { FailingTailRows(c, 0, []); } else { TailRows(c, 0, []); }
  }

  /** The rows lost in front of an error are fewer than one batch. */
  lemma FewRowsLost(c: Config)
    ensures !c.fails ==> Delivered(c) == c.input
    ensures c.fails ==> |Delivered(c)| == |c.input| / BatchLen(c) * BatchLen(c)
    ensures |c.input| - |Delivered(c)| < BatchLen(c)
  {
    FullIs(|c.input|, BatchLen(c));
  }

  /** One `send`: it fails, and is known to have failed, once the receiver is gone. */
  method Send(sent: seq<Event>, accepted: nat, ev: Event) returns (sent': seq<Event>, ok: bool)
    ensures ok == (|sent| < accepted)
    ensures sent' == if ok then sent + [ev] else sent
  {
    ok := |sent| < accepted;
    sent' := if ok then sent + [ev] else sent;
  }

  /**
   The producer's loop, against a receiver that takes the first `accepted` events: it sends the
   script, and stops at the first batch the receiver does not take.
   */
  method Drive(c: Config, accepted: nat) returns (sent: seq<Event>)
    ensures sent == if accepted < |Script(c)| then Script(c)[..accepted] else Script(c)
  {
    hide Tail, Script;
    var ok;
    sent, ok := Send([], accepted, Meta(c.names));
    if !ok { return; }
    var batch: seq<Cells> := [];
    ScriptStarts(c);
    for pos := 0 to |c.input|
      invariant 0 < |sent| <= accepted
      invariant sent + Tail(c, pos, batch) == Script(c)
    {
      ghost var before, shorter := sent, batch;
      batch := batch + [c.input[pos]];
      TailUnfold(c, pos, shorter);
      if |batch| >= c.batchSize {
        TakeFirst(before, [Batch(batch)], Tail(c, pos + 1, []), accepted);
        sent, ok := Send(sent, accepted, Batch(batch));
        if !ok { return; }
        batch := [];
      }
    }
    TailUnfold(c, |c.input|, batch);
    if c.fails {
      TakeFirst(sent, [Error], [], accepted);
      sent, ok := Send(sent, accepted, Error);
    } else {
      if batch != [] {
        TakeFirst(sent, [Batch(batch)], [Complete(|c.input|)], accepted);
        sent, ok := Send(sent, accepted, Batch(batch));
      }
      TakeFirst(sent, [Complete(|c.input|)], [], accepted);
      sent, ok := Send(sent, accepted, Complete(|c.input|));
    }
  }

  lemma ScriptStarts(c: Config)
    ensures [] + [Meta(c.names)] + Tail(c, 0, []) == Script(c)
    ensures |Script(c)| > 0 && Script(c)[..0] == []
  {
  }

  lemma TailUnfold(c: Config, pos: nat, batch: seq<Cells>)
    requires pos <= |c.input|
    ensures pos < |c.input| ==>
      var longer := batch + [c.input[pos]];
      Tail(c, pos, batch) == if |longer| >= c.batchSize then [Batch(longer)] + Tail(c, pos + 1, [])
        else Tail(c, pos + 1, longer)
    ensures pos == |c.input| ==>
      Tail(c, pos, batch) ==
        if c.fails then [Error] else (if batch != [] then [Batch(batch)] else []) + [Complete(pos)]
  {
  }

  /** A list cut in front of, or behind, the one event `x` that comes after `a`. */
  lemma TakeFirst(a: seq<Event>, x: seq<Event>, b: seq<Event>, n: nat)
    requires |x| == 1 && |a| <= n
    ensures a + (x + b) == (a + x) + b
    ensures n == |a| ==> n < |a + (x + b)| && (a + (x + b))[..n] == a
    ensures b == [] ==> a + (x + b) == a + x && x + b == x
  {
  }

  // ---- all interleavings ------------------------------------------------------------------

  datatype Pc = AtMeta | Reading | SendingBatch | SendingLast | SendingError | SendingComplete | Ended

  datatype Consumer = Running | Finished | Aborted

  /** `hand` is the event the consumer has received and not acted on; `handled` those it has. */
  datatype State = State(
    pc: Pc,
    pos: nat,
    batch: seq<Cells>,
    chan: seq<Event>,
    hand: Option<Event>,
    handled: seq<Event>,
    consumer: Consumer)

  datatype Step = Produce | Receive | Handle | Abort

  function Start(): State {
    State(AtMeta, 0, [], [], None, [], Running)
  }

  predicate Sends(pc: Pc) { !pc.Reading? && !pc.Ended? }

  /** A step a task can take now. A send waits while the channel is full and the receiver lives. */
  predicate Enabled(c: Config, s: State, step: Step) {
    match step
    case Produce => !s.pc.Ended? && (Sends(s.pc) ==> |s.chan| < c.channelCap || s.consumer.Aborted?)
    case Receive => s.consumer.Running? && s.hand.None? && (s.chan != [] || s.pc.Ended?)
    case Handle => s.hand.Some?
    // A task is aborted where it waits, and it never waits between receiving and handling.
    case Abort => s.consumer.Running? && s.hand.None?
  }

  /** The event the producer is about to send. */
  function Outgoing(c: Config, s: State): Event
    requires Sends(s.pc)
  {
    match s.pc
    case AtMeta => Meta(c.names)
    case SendingError => Error
    case SendingComplete => Complete(s.pos)
    case _ => Batch(s.batch)
  }

  /** Where the producer goes after a send. */
  function AfterSend(s: State, ok: bool): State
    requires Sends(s.pc)
  {
    match s.pc
    case AtMeta => s.(pc := if ok then Reading else Ended)
    case SendingBatch => if ok then s.(pc := Reading, batch := []) else s.(pc := Ended)
    case SendingLast => s.(pc := SendingComplete, batch := [])
    case _ => s.(pc := Ended)
  }

  function Do(c: Config, s: State, step: Step): State
    requires Enabled(c, s, step)
  {
    match step
    case Produce =>
      if s.pc.Reading? then
        if s.pos < |c.input| then
          var longer := s.batch + [c.input[s.pos]];
          s.(pos := s.pos + 1, batch := longer, pc := if |longer| >= c.batchSize then SendingBatch else Reading)
        else s.(pc := if c.fails then SendingError else if s.batch != [] then SendingLast else SendingComplete)
      else if s.consumer.Aborted? then AfterSend(s, false)
      else AfterSend(s, true).(chan := s.chan + [Outgoing(c, s)])
    case Receive =>
      if s.chan == [] then s.(consumer := Finished) else s.(hand := Some(s.chan[0]), chan := s.chan[1..])
    case Handle =>
      s.(hand := None, handled := s.handled + [s.hand.value],
         consumer := if Terminal(s.hand.value) then Finished else s.consumer)
    case Abort => s.(consumer := Aborted, chan := [])
  }

  /** The state after a sequence of steps, or None when one of them cannot be taken. */
  function After(c: Config, steps: seq<Step>): Option<State>
  {
    if steps == [] then Some(Start())
    else
      var s :- After(c, steps[..|steps| - 1]);
      var last := steps[|steps| - 1];
      if Enabled(c, s, last) then Some(Do(c, s, last)) else None
  }

  // ---- invariants -------------------------------------------------------------------------

  /** What the producer has still to send. */
  function Future(c: Config, s: State): seq<Event>
    requires s.pos <= |c.input|
  {
    match s.pc
    case AtMeta => [Meta(c.names)] + Tail(c, s.pos, s.batch)
    case Reading => Tail(c, s.pos, s.batch)
    case SendingBatch => [Batch(s.batch)] + Tail(c, s.pos, [])
    case SendingLast => [Batch(s.batch), Complete(s.pos)]
    case SendingError => [Error]
    case SendingComplete => [Complete(s.pos)]
    case Ended => []
  }

  function InHand(s: State): seq<Event> {
    if s.hand.Some? then [s.hand.value] else []
  }

  /** The events are handled, in hand, in the channel or to come: none is lost, doubled or moved. */
  ghost predicate Conserved(c: Config, s: State) {
    && s.pos <= |c.input|
    && if s.consumer.Aborted? then s.handled <= Script(c)
       else s.handled + InHand(s) + s.chan + Future(c, s) == Script(c)
  }

  /** The consumer runs until it has handled the last event. */
  ghost predicate Attentive(s: State) {
    && (s.consumer.Running? ==> forall i :: 0 <= i < |s.handled| ==> !Terminal(s.handled[i]))
    && (s.consumer.Finished? ==> |s.handled| > 0 && Terminal(s.handled[|s.handled| - 1]))
    && (s.hand.Some? ==> s.consumer.Running?)
  }

  ghost predicate ShortBatches(c: Config, evs: seq<Event>) {
    forall i :: 0 <= i < |evs| ==> |EventRows(evs[i])| <= BatchLen(c)
  }

  /** How much is on its way. */
  ghost predicate Bounded(c: Config, s: State) {
    && |s.chan| <= c.channelCap
    && ShortBatches(c, s.chan) && ShortBatches(c, InHand(s))
    && (s.pc.AtMeta? ==> s.pos == 0 && s.batch == [])
    && (s.pc.Reading? || s.pc.SendingLast? || s.pc.SendingError? ==> |s.batch| < BatchLen(c))
    && (s.pc.SendingLast? || s.pc.SendingError? || s.pc.SendingComplete? ==> s.pos == |c.input|)
    && (s.pc.SendingLast? || s.pc.SendingComplete? ==> !c.fails)
    && (s.pc.SendingError? ==> c.fails)
    && |s.batch| <= BatchLen(c)
  }

  /** The rows read so far are with the consumer, in the channel or in the producer's hands, in order. */
  ghost predicate RowsInOrder(c: Config, s: State) {
    && s.pos <= |c.input|
    && (!s.consumer.Aborted? && !s.pc.Ended? ==>
         RowsOf(s.handled) + RowsOf(InHand(s)) + RowsOf(s.chan) + s.batch == c.input[..s.pos])
  }

  lemma {:induction false} OneMore(evs: seq<Event>, ev: Event)
    ensures RowsOf(evs + [ev]) == RowsOf(evs) + EventRows(ev)
  {
    RowsOfAppend(evs, [ev]);
    assert RowsOf([ev]) == EventRows(ev);
  }

  lemma Reassoc<T>(a: seq<T>, b: seq<T>, c: seq<T>, d: seq<T>, e: seq<T>)
    ensures a + b + c + (d + e) == a + b + (c + d) + e
  {
  }

  lemma Received<T>(a: seq<T>, chan: seq<T>, f: seq<T>)
    requires chan != []
    ensures a + [] + chan + f == a + [chan[0]] + chan[1..] + f
  {
    assert chan == [chan[0]] + chan[1..];
  }

  lemma Moved<T>(a: seq<T>, x: seq<T>, chan: seq<T>, f: seq<T>)
    ensures a + x + chan + f == (a + x) + [] + chan + f
  {
  }

  lemma FutureStep(c: Config, s: State)
    requires s.pos <= |c.input| && Enabled(c, s, Produce) && !s.consumer.Aborted?
    requires s.pc.SendingLast? || s.pc.SendingComplete? ==> s.pos == |c.input|
    requires s.pc.Reading? ==> |s.batch| < BatchLen(c)
    ensures
      var s' := Do(c, s, Produce);
      s'.pos <= |c.input| &&
      Future(c, s) == (if Sends(s.pc) then [Outgoing(c, s)] else []) + Future(c, s')
  {
    hide Tail;
    var s' := Do(c, s, Produce);
    if s.pc.Reading? {
      TailStep(c, s);
      assert Future(c, s) == Future(c, s');
      assert [] + Future(c, s') == Future(c, s');
    } else {
      assert Future(c, s) == [Outgoing(c, s)] + Future(c, s');
    }
  }

  lemma TailStep(c: Config, s: State)
    requires s.pos <= |c.input| && s.pc.Reading? && Enabled(c, s, Produce)
    ensures Do(c, s, Produce).pos <= |c.input|
    ensures Future(c, s) == Future(c, Do(c, s, Produce))
  {
    hide Tail;
    TailUnfold(c, s.pos, s.batch);
    var s' := Do(c, s, Produce);
    if s.pos < |c.input| {
      assert s'.pc == (if |s'.batch| >= c.batchSize then SendingBatch else Reading);
    } else if c.fails {
      assert s'.pc.SendingError?;
    } else if s.batch != [] {
      assert s'.pc.SendingLast? && s'.batch == s.batch;
      assert [Batch(s.batch)] + [Complete(s.pos)] == [Batch(s.batch), Complete(s.pos)];
    } else {
      assert s'.pc.SendingComplete?;
      assert [] + [Complete(s.pos)] == [Complete(s.pos)];
    }
  }

  lemma ConservedStep(c: Config, s: State, step: Step)
    requires Conserved(c, s) && Bounded(c, s) && Attentive(s) && Enabled(c, s, step)
    ensures Conserved(c, Do(c, s, step))
  {
    hide Tail, Script, Future, RowsOf;
    match step
    case Produce =>
      if !s.consumer.Aborted? {
        FutureStep(c, s);
        var out := if Sends(s.pc) then [Outgoing(c, s)] else [];
        Reassoc(s.handled, InHand(s), s.chan, out, Future(c, Do(c, s, Produce)));
        assert s.chan + [] == s.chan;
      }
    case Receive =>
      FutureOnlyPc(c, s, Do(c, s, Receive));
      if s.chan != [] {
        Received(s.handled, s.chan, Future(c, s));
      }
    case Handle =>
      FutureOnlyPc(c, s, Do(c, s, Handle));
      Moved(s.handled, InHand(s), s.chan, Future(c, s));
    case Abort =>
      assert s.handled <= s.handled + InHand(s) + s.chan + Future(c, s);
  }

  lemma FutureOnlyPc(c: Config, s: State, s': State)
    requires s.pos <= |c.input| && s'.pc == s.pc && s'.pos == s.pos && s'.batch == s.batch
    ensures Future(c, s) == Future(c, s')
  {
  }

  /** The consumer never finds the channel closed before it has seen the last event. */
  lemma NeverCutOff(c: Config, s: State)
    requires Conserved(c, s) && Attentive(s)
    ensures !(s.consumer.Running? && s.hand.None? && s.chan == [] && s.pc.Ended?)
  {
    if s.hand.None? && s.chan == [] && s.pc.Ended? && !s.consumer.Aborted? {
      assert s.handled + [] + [] + [] == s.handled;
      assert Terminal(Script(c)[|Script(c)| - 1]);
    }
  }

  lemma AttentiveStep(c: Config, s: State, step: Step)
    requires Conserved(c, s) && Attentive(s) && Enabled(c, s, step)
    ensures Attentive(Do(c, s, step))
  {
    hide Tail;
    NeverCutOff(c, s);
  }

  lemma BoundedStep(c: Config, s: State, step: Step)
    requires Bounded(c, s) && Conserved(c, s) && Enabled(c, s, step)
    ensures Bounded(c, Do(c, s, step))
  {
    hide Tail, Script, Future, ShortBatches, EventRows;
    match step
    case Produce =>
      if Sends(s.pc) && !s.consumer.Aborted? {
        OutgoingShort(c, s);
        ShortAppend(c, s.chan, Outgoing(c, s));
      }
      ShortNothing(c);
    case Receive => ShortSplit(c, s.chan);
    case Handle => ShortNothing(c);
    case Abort => ShortNothing(c);
  }

  lemma ShortNothing(c: Config)
    ensures ShortBatches(c, [])
  {
  }

  lemma ShortAppend(c: Config, evs: seq<Event>, ev: Event)
    requires ShortBatches(c, evs) && |EventRows(ev)| <= BatchLen(c)
    ensures ShortBatches(c, evs + [ev])
  {
  }

  lemma ShortSplit(c: Config, evs: seq<Event>)
    requires ShortBatches(c, evs)
    ensures evs != [] ==> ShortBatches(c, [evs[0]]) && ShortBatches(c, evs[1..])
  {
  }

  lemma OutgoingShort(c: Config, s: State)
    requires Sends(s.pc) && |s.batch| <= BatchLen(c)
    ensures |EventRows(Outgoing(c, s))| <= BatchLen(c)
  {
  }

  lemma RowsStep(c: Config, s: State, step: Step)
    requires RowsInOrder(c, s) && Bounded(c, s) && Attentive(s) && Enabled(c, s, step)
    ensures RowsInOrder(c, Do(c, s, step))
  {
    hide RowsOf, ShortBatches;
    var a, h := RowsOf(s.handled), RowsOf(InHand(s));
    match step
    case Produce =>
      if s.pc.Reading? {
        if s.pos < |c.input| {
          assert c.input[..s.pos + 1] == c.input[..s.pos] + [c.input[s.pos]];
          Reassoc(a, h, RowsOf(s.chan), s.batch, [c.input[s.pos]]);
        }
      } else if !s.consumer.Aborted? {
        OneMore(s.chan, Outgoing(c, s));
        Reassoc(a, h, RowsOf(s.chan), s.batch, []);
        assert s.batch + [] == s.batch;
        assert RowsOf(s.chan) + [] == RowsOf(s.chan);
      }
    case Receive =>
      if s.chan != [] {
        assert s.chan == [s.chan[0]] + s.chan[1..];
        RowsOfAppend([s.chan[0]], s.chan[1..]);
        Regroup(a, h, RowsOf([s.chan[0]]), RowsOf(s.chan[1..]));
        NoRows();
      }
    case Handle => RowsHandled(s);
    case Abort =>
  }

  lemma RowsHandled(s: State)
    requires s.hand.Some?
    ensures RowsOf(s.handled + [s.hand.value]) + RowsOf([]) == RowsOf(s.handled) + RowsOf(InHand(s))
  {
    OneMore(s.handled, s.hand.value);
    OneMore([], s.hand.value);
    assert [] + [s.hand.value] == InHand(s);
  }

  lemma NoRows()
    ensures RowsOf([]) == []
  {
  }

  lemma Regroup<T>(a: seq<T>, h: seq<T>, x: seq<T>, y: seq<T>)
    ensures h == [] ==> a + h + (x + y) == a + x + y == a + (x + y)
  {
  }

  ghost predicate Inv(c: Config, s: State) {
    Conserved(c, s) && Attentive(s) && Bounded(c, s) && RowsInOrder(c, s)
  }

  lemma InvStep(c: Config, s: State, step: Step)
    requires Inv(c, s) && Enabled(c, s, step)
    ensures Inv(c, Do(c, s, step))
  {
    hide Conserved, Attentive, Bounded, RowsInOrder, Do, Enabled;
    ConservedStep(c, s, step);
    AttentiveStep(c, s, step);
    BoundedStep(c, s, step);
    RowsStep(c, s, step);
  }

  lemma InvStart(c: Config)
    ensures Inv(c, Start())
  {
    hide Tail;
    var s := Start();
    assert s.handled + InHand(s) + s.chan + Future(c, s) == Script(c);
    NoRows();
  }

  /** Every state of every interleaving is invariant. */
  lemma {:induction false} InvHolds(c: Config, steps: seq<Step>)
    requires After(c, steps).Some?
    ensures Inv(c, After(c, steps).value)
    decreases |steps|
  {
    hide Inv, Do, Enabled;
    if steps == [] {
      InvStart(c);
    } else {
      InvHolds(c, steps[..|steps| - 1]);
      InvStep(c, After(c, steps[..|steps| - 1]).value, steps[|steps| - 1]);
    }
  }

  // ---- back-pressure ----------------------------------------------------------------------

  lemma {:induction false} ShortRows(c: Config, evs: seq<Event>)
    requires ShortBatches(c, evs)
    ensures |RowsOf(evs)| <= |evs| * BatchLen(c)
  {
    if evs != [] {
      ShortRows(c, evs[1..]);
      assert |evs| * BatchLen(c) == (|evs| - 1) * BatchLen(c) + BatchLen(c);
    }
  }

  /** In every state, what has been read and not yet pushed is at most the channel and two batches more. */
  lemma InFlightBounded(c: Config, steps: seq<Step>)
    requires After(c, steps).Some?
    ensures
      var s := After(c, steps).value;
      |RowsOf(InHand(s))| + |RowsOf(s.chan)| + |s.batch| <= (c.channelCap + 2) * BatchLen(c)
  {
    InvHolds(c, steps);
    hide After, Conserved, Attentive, RowsInOrder, RowsOf;
    var s, b := After(c, steps).value, BatchLen(c);
    ShortRows(c, s.chan);
    ShortRows(c, InHand(s));
    hide *;
    assert |InHand(s)| <= 1 by { HandIsOne(s); }
    SumBound(|s.chan|, c.channelCap, |InHand(s)|, b, |RowsOf(s.chan)|, |RowsOf(InHand(s))|, |s.batch|);
  }

  lemma HandIsOne(s: State)
    ensures |InHand(s)| <= 1
  {
  }

  lemma SumBound(n: nat, cap: nat, h: nat, b: nat, x: nat, y: nat, z: nat)
    requires n <= cap && h <= 1 && x <= n * b && y <= h * b && z <= b
    ensures x + y + z <= (cap + 2) * b
  {
    TimesMonotone(n, cap, b);
    TimesMonotone(h, 1, b);
    assert (cap + 2) * b == cap * b + b + b;
  }

  /** The rows pushed so far are always a beginning of the result, and never past what was read. */
  lemma PushedIsPrefix(c: Config, steps: seq<Step>)
    requires After(c, steps).Some?
    ensures
      var s := After(c, steps).value;
      && RowsOf(s.handled) <= Delivered(c) && s.pos <= |c.input|
      && (!s.consumer.Aborted? && !s.pc.Ended? ==>
           RowsOf(s.handled) + RowsOf(InHand(s)) + RowsOf(s.chan) + s.batch == c.input[..s.pos])
  {
    InvHolds(c, steps);
    hide After, Attentive, Bounded, RowsOf, Script, Future;
    var s := After(c, steps).value;
    assert s.handled <= Script(c) by {
      if !s.consumer.Aborted? {
        assert s.handled <= s.handled + InHand(s) + s.chan + Future(c, s);
      }
    }
    PrefixRows(s.handled, Script(c));
    ScriptDelivers(c);
  }

  lemma PrefixRows(a: seq<Event>, b: seq<Event>)
    requires a <= b
    ensures RowsOf(a) <= RowsOf(b)
  {
    hide RowsOf;
    assert b == a + b[|a|..];
    RowsOfAppend(a, b[|a|..]);
  }

  // ---- every run ends ---------------------------------------------------------------------

  function PcFuel(pc: Pc): nat {
    match pc
    case AtMeta => 10
    case Reading => 7
    case SendingBatch => 10
    case SendingLast => 6
    case SendingError => 3
    case SendingComplete => 3
    case Ended => 0
  }

  function Fuel(c: Config, s: State): nat
    requires s.pos <= |c.input|
  {
    4 * (|c.input| - s.pos) + PcFuel(s.pc) + 2 * |s.chan| +
    (if s.hand.Some? then 1 else 0) + (if s.consumer.Running? then 1 else 0)
  }

  lemma FuelStep(c: Config, s: State, step: Step)
    requires Inv(c, s) && Enabled(c, s, step)
    ensures Do(c, s, step).pos <= |c.input|
    ensures Fuel(c, Do(c, s, step)) < Fuel(c, s)
  {
    hide Conserved, Bounded, ShortBatches, RowsOf;
  }

  /** No interleaving takes more than `4 N + 11` steps. */
  lemma {:induction false} RunsEnd(c: Config, steps: seq<Step>)
    requires After(c, steps).Some?
    ensures After(c, steps).value.pos <= |c.input|
    ensures |steps| + Fuel(c, After(c, steps).value) <= 4 * |c.input| + 11
    decreases |steps|
  {
    hide Inv, Do, Enabled;
    InvHolds(c, steps);
    if steps != [] {
      var before := steps[..|steps| - 1];
      RunsEnd(c, before);
      InvHolds(c, before);
      FuelStep(c, After(c, before).value, steps[|steps| - 1]);
    }
  }

  ghost predicate Stuck(c: Config, s: State) {
    forall step: Step :: !Enabled(c, s, step)
  }

  /** Once the consumer has handled the last event there is nothing left anywhere. */
  lemma FinishedHasAll(c: Config, s: State)
    requires Inv(c, s) && s.consumer.Finished?
    ensures s.handled == Script(c) && s.chan == [] && s.pc.Ended?
  {
    hide RowsInOrder, Bounded;
    var n := |s.handled|;
    var rest := s.chan + Future(c, s);
    assert s.handled + InHand(s) + s.chan + Future(c, s) == s.handled + rest;
    assert Script(c)[n - 1] == s.handled[n - 1];
    TerminalIsLast(c, n - 1);
    assert |rest| == 0;
  }

  lemma TerminalIsLast(c: Config, i: nat)
    requires i < |Script(c)| && Terminal(Script(c)[i])
    ensures i == |Script(c)| - 1
  {
    if i > 0 {
      assert Script(c)[i] == Tail(c, 0, [])[i - 1];
    }
  }

  lemma OnlyEndStuck(c: Config, s: State)
    requires c.channelCap > 0 && Inv(c, s) && Stuck(c, s)
    ensures s.pc.Ended? && s.hand.None? && !s.consumer.Running?
  {
    hide Inv, Script, RowsOf;
    if s.consumer.Finished? {
      FinishedHasAll(c, s);
    }
    assert !Enabled(c, s, Produce) && !Enabled(c, s, Receive) && !Enabled(c, s, Handle) && !Enabled(c, s, Abort);
  }

  /**
   The result of every run that is over: there is no deadlock, and unless the consumer was
   aborted it has pushed every row of the result, in order, and seen `Complete` with their
   number; or, where the server failed, every full batch read before the error.
   */
  lemma FinalStates(c: Config, steps: seq<Step>)
    requires c.channelCap > 0
    requires After(c, steps).Some? && Stuck(c, After(c, steps).value)
    ensures
      var s := After(c, steps).value;
      && s.pc.Ended? && s.chan == [] && s.hand.None?
      && if s.consumer.Aborted? then RowsOf(s.handled) <= Delivered(c)
         else
           && RowsOf(s.handled) == Delivered(c) && |s.handled| > 0
           && s.handled[|s.handled| - 1] == if c.fails then Error else Complete(|c.input|)
  {
    var s := After(c, steps).value;
    InvHolds(c, steps);
    PushedIsPrefix(c, steps);
    OnlyEndStuck(c, s);
    ScriptDelivers(c);
    hide After, Script, RowsOf, Delivered;
    if s.consumer.Finished? {
      FinishedHasAll(c, s);
    } else {
      AbortedChannelStays(c, steps);
    }
  }

  /** The channel of an aborted consumer stays empty. */
  lemma {:induction false} AbortedChannelStays(c: Config, steps: seq<Step>)
    requires After(c, steps).Some?
    ensures After(c, steps).value.consumer.Aborted? ==> After(c, steps).value.chan == []
    decreases |steps|
  {
    if steps != [] {
      InvHolds(c, steps[..|steps| - 1]);
      AbortedChannelStays(c, steps[..|steps| - 1]);
    }
  }

  // ---- the consumer's loop ----------------------------------------------------------------

  /** The events up to the first terminal one. */
  function Processed(evs: seq<Event>): (p: seq<Event>)
    ensures p <= evs
  {
    if evs == [] then [] else if Terminal(evs[0]) then [evs[0]] else [evs[0]] + Processed(evs[1..])
  }

  function NamesAfter(evs: seq<Event>, names: seq<string>): seq<string> {
    if evs == [] then names else NamesAfter(evs[1..], if evs[0].Meta? then evs[0].names else names)
  }

  function StateAfter(evs: seq<Event>, pushed: nat, state: StoreState): StoreState {
    if evs == [] || !Terminal(evs[|evs| - 1]) then state
    else if evs[|evs| - 1].Error? then Failed
    else Completed(pushed)
  }

  function AsRows(cells: seq<Cells>): (rows: seq<Row>)
    ensures |rows| == |cells| && forall i :: 0 <= i < |cells| ==> rows[i] == Row(None, cells[i])
  {
    seq(|cells|, i requires 0 <= i < |cells| => Row(None, cells[i]))
  }

  /** One event acted on. */
  method HandleEvent(ev: Event, store: ResultStore)
    requires store.Valid()
    modifies store
    ensures store.Valid()
    ensures store.pushed == old(store.pushed) + EventRows(ev)
    ensures store.columns == if ev.Meta? then ev.names else old(store.columns)
    ensures store.state ==
      match ev
      case Complete(_) => Completed(|store.pushed|)
      case Error => Failed
      case _ => old(store.state)
  {
    match ev {
      case Meta(names) => store.SetColumns(names);
      case Batch(rows) =>
        store.PushBatch(AsRows(rows));
        assert CellsOf(AsRows(rows)) == rows;
      case Complete(_) => store.SetComplete();
      case Error => store.Fail();
    }
  }

  /** The consumer's loop: it acts on the events it receives, up to the first terminal one. */
  method Consume(received: seq<Event>, store: ResultStore)
    requires store.Valid()
    modifies store
    ensures store.Valid()
    ensures store.pushed == old(store.pushed) + RowsOf(Processed(received))
    ensures store.columns == NamesAfter(Processed(received), old(store.columns))
    ensures store.state == StateAfter(Processed(received), |store.pushed|, old(store.state))
  {
    hide RowsOf, Processed, Kept, RowsBytes, NamesAfter, EventRows;
    ghost var done: seq<Event> := [];
    var i := 0;
    ConsumeStarts(received, store.pushed, store.columns);
    while i < |received|
      invariant 0 <= i <= |received|
      invariant store.Valid() && store.state == old(store.state)
      invariant done + Processed(received[i..]) == Processed(received)
      invariant done == [] || !Terminal(done[|done| - 1])
      invariant store.pushed == old(store.pushed) + RowsOf(done)
      invariant store.columns == NamesAfter(done, old(store.columns))
      decreases |received| - i
    {
      var ev := received[i];
      ProcessedAt(received, i, done);
      OneMore(done, ev);
      NamesStep(done, ev, old(store.columns));
      Regroup(old(store.pushed), [], RowsOf(done), EventRows(ev));
      HandleEvent(ev, store);
      done := done + [ev];
      if Terminal(ev) {
        assert done + [] == done;
        return;
      }
      i := i + 1;
    }
    ProcessedEnd(received, i, done);
  }

  lemma ConsumeStarts(received: seq<Event>, pushed: seq<Cells>, names: seq<string>)
    ensures received[0..] == received && [] + Processed(received) == Processed(received)
    ensures pushed + RowsOf([]) == pushed && NamesAfter([], names) == names
  {
  }

  lemma ProcessedAt(received: seq<Event>, i: nat, done: seq<Event>)
    requires i < |received|
    ensures
      done + Processed(received[i..]) ==
      done + [received[i]] + if Terminal(received[i]) then [] else Processed(received[i + 1..])
  {
    assert received[i..][1..] == received[i + 1..];
  }

  lemma ProcessedEnd(received: seq<Event>, i: nat, done: seq<Event>)
    requires i == |received|
    ensures done + Processed(received[i..]) == done
  {
  }

  lemma {:induction false} NamesStep(evs: seq<Event>, ev: Event, names: seq<string>)
    ensures NamesAfter(evs + [ev], names) == if ev.Meta? then ev.names else NamesAfter(evs, names)
    decreases |evs|
  {
    if evs == [] {
      assert (evs + [ev])[1..] == [];
    } else {
      assert (evs + [ev])[1..] == evs[1..] + [ev];
      NamesStep(evs[1..], ev, if evs[0].Meta? then evs[0].names else names);
    }
  }

  lemma {:induction false} ProcessedAll(evs: seq<Event>)
    requires forall i :: 0 <= i < |evs| - 1 ==> !Terminal(evs[i])
    ensures Processed(evs) == evs
  {
    if evs != [] {
      ProcessedAll(evs[1..]);
      assert evs == [evs[0]] + evs[1..];
    }
  }

  lemma {:induction false} TailHasNoMeta(c: Config, pos: nat, batch: seq<Cells>, names: seq<string>)
    requires pos <= |c.input|
    ensures NamesAfter(Tail(c, pos, batch), names) == names
    decreases |c.input| - pos
  {
    TailUnfold(c, pos, batch);
    if pos < |c.input| {
      var longer := batch + [c.input[pos]];
      if |longer| >= c.batchSize {
        TailHasNoMeta(c, pos + 1, [], names);
        assert ([Batch(longer)] + Tail(c, pos + 1, []))[1..] == Tail(c, pos + 1, []);
      } else {
        TailHasNoMeta(c, pos + 1, longer, names);
      }
    } else {
      hide Tail;
      NoMetaAtEnd(c, pos, batch, names);
    }
  }

  lemma NoMetaAtEnd(c: Config, pos: nat, batch: seq<Cells>, names: seq<string>)
    requires pos == |c.input|
    ensures NamesAfter(Tail(c, pos, batch), names) == names
  {
    TailUnfold(c, pos, batch);
    hide Tail, NamesAfter;
    NoNames(names);
    NamesStep([], Error, names);
    NamesStep([], Complete(pos), names);
    NamesStep([], Batch(batch), names);
    NamesStep([Batch(batch)], Complete(pos), names);
    assert [] + [Error] == [Error] && [] + [Complete(pos)] == [Complete(pos)] && [] + [Batch(batch)] == [Batch(batch)];
  }

  lemma NoNames(names: seq<string>)
    ensures NamesAfter([], names) == names
  {
  }

  lemma ScriptConsumed(c: Config, names: seq<string>)
    ensures Processed(Script(c)) == Script(c)
    ensures NamesAfter(Script(c), names) == c.names
  {
    hide Processed, RowsOf;
    ProcessedAll(Script(c));
    assert Script(c)[1..] == Tail(c, 0, []);
    TailHasNoMeta(c, 0, [], c.names);
  }

  /** What a whole run leaves in the store. */
  ghost predicate HoldsResult(c: Config, store: ResultStore)
    reads store
  {
    && store.columns == c.names
    && store.rows == Kept(Delivered(c), store.config)
    && store.totalPushed == |Delivered(c)|
    && store.state == if c.fails then Failed else Completed(|c.input|)
  }

  /** One query run to its end with nothing else going on. */
  method RunQuery(c: Config, store: ResultStore)
    modifies store
    ensures store.Valid() && HoldsResult(c, store)
  {
    hide Script, Kept, RowsBytes, RowsOf, Processed;
    store.Clear();
    var sent := Drive(c, 3 + |c.input|);
    ScriptConsumed(c, []);
    ScriptDelivers(c);
    ScriptLength(c);
    Consume(sent, store);
    assert [] + Delivered(c) == Delivered(c);
  }

  lemma {:induction false} TailLength(c: Config, pos: nat, batch: seq<Cells>)
    requires pos <= |c.input|
    ensures |Tail(c, pos, batch)| <= |c.input| - pos + 2
    decreases |c.input| - pos
  {
    if pos < |c.input| {
      TailLength(c, pos + 1, []);
      TailLength(c, pos + 1, batch + [c.input[pos]]);
    }
  }

  lemma ScriptLength(c: Config)
    ensures 0 < |Script(c)| <= |c.input| + 3
  {
    TailLength(c, 0, []);
  }

  /** The same result in the store whatever the interleaving was, unless the consumer was aborted. */
  method ReplayRun(c: Config, steps: seq<Step>, store: ResultStore)
    requires c.channelCap > 0
    requires After(c, steps).Some? && Stuck(c, After(c, steps).value)
    modifies store
    ensures store.Valid()
    ensures After(c, steps).value.consumer.Finished? ==> HoldsResult(c, store)
  {
    hide Script, Kept, RowsBytes, RowsOf, Processed, Stuck, After, Inv;
    InvHolds(c, steps);
    FinalStates(c, steps);
    var s := After(c, steps).value;
    store.Clear();
    if s.consumer.Finished? {
      FinishedHasAll(c, s);
      ScriptConsumed(c, []);
      ScriptDelivers(c);
    }
    Consume(s.handled, store);
    assert [] + RowsOf(Processed(s.handled)) == RowsOf(Processed(s.handled));
  }
}
