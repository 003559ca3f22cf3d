/**
 A server-side cursor read window by window, inside a transaction of its own. The server may
 refuse any command: each call says whether it does.
 */
module Portals {
  import opened Prelude
  import opened Store

  datatype Tx = Idle | Open | Aborted

  datatype PortalError = Pg | AlreadyClosed

  // ---- the server -------------------------------------------------------------------------

  /** The server's end of a session: one cursor over `result`, read up to `pos`. */
  class Session {
    const result: seq<Cells>
    var pos: nat
    var cursorOpen: bool
    var tx: Tx
    /** How many transactions have been ended. */
    var ended: nat

    constructor (result: seq<Cells>)
      ensures this.result == result && tx == Idle && ended == 0 && pos == 0 && !cursorOpen
    {
      this.result := result;
      pos, cursorOpen, tx, ended := 0, false, Idle, 0;
    }

    /** A statement that reads nothing yet: an error aborts an open transaction, and an aborted one takes none. */
    method Prepare(accepts: bool) returns (ok: bool)
      modifies this`tx
      ensures ok == (accepts && old(tx) != Aborted)
      ensures tx == if ok || old(tx) == Idle then old(tx) else Aborted
    {
      ok := accepts && tx != Aborted;
      if !ok && tx == Open { tx := Aborted; }
    }

    /** `BEGIN READ ONLY`: inside an open transaction it is accepted with a warning, and goes on with that one. */
    method Begin(accepts: bool) returns (ok: bool)
      modifies this`tx
      ensures ok == (accepts && old(tx) != Aborted)
      ensures tx == if ok then Open else if old(tx) == Idle then Idle else Aborted
    {
      ok := accepts && tx != Aborted;
      if ok { tx := Open; } else if tx == Open { tx := Aborted; }
    }

    method Declare(accepts: bool) returns (ok: bool)
      requires tx == Open
      modifies this`pos, this`cursorOpen, this`tx
      ensures ok == accepts && pos == 0 && cursorOpen == ok && tx == if ok then Open else Aborted
    {
      ok, pos, cursorOpen := accepts, 0, accepts;
      if !ok { tx := Aborted; }
    }

    /** `FETCH FORWARD count`: an error aborts the transaction. */
    method Fetch(count: nat, accepts: bool) returns (rows: seq<Cells>, ok: bool)
      requires pos <= |result|
      modifies this`pos, this`tx
      ensures pos <= |result|
      ensures ok == (accepts && old(tx) == Open && cursorOpen)
      ensures ok ==> pos == Min(old(pos) + count, |result|) && rows == result[old(pos)..pos] && tx == Open
      ensures !ok ==> pos == old(pos) && rows == [] && tx == if old(tx) == Open then Aborted else old(tx)
    {
      ok := accepts && tx == Open && cursorOpen;
      if ok {
        var end := Min(pos + count, |result|);
        rows := result[pos..end];
        pos := end;
      } else {
        rows := [];
        if tx == Open { tx := Aborted; }
      }
    }

    /** `CLOSE`. */
    method CloseCursor(accepts: bool)
      modifies this`cursorOpen, this`tx
      ensures tx == if accepts || old(tx) != Open then old(tx) else Aborted
    {
      if accepts {
        cursorOpen := false;
      } else if tx == Open {
        tx := Aborted;
      }
    }

    /** `COMMIT` or `ROLLBACK`: either ends the transaction, unless it does not reach the server. */
    method EndTx(accepts: bool) returns (ok: bool)
      modifies this`tx, this`ended, this`cursorOpen
      ensures ok == accepts
      ensures ok ==> tx == Idle && ended == old(ended) + 1
      ensures !ok ==> tx == old(tx) && ended == old(ended)
    {
      ok := accepts;
      if ok {
        tx, ended, cursorOpen := Idle, ended + 1, false;
      }
    }
  }

  // ---- the portal -------------------------------------------------------------------------

  class Portal {
    const session: Session
    var fetched: nat
    var closed: bool
    /** A ROLLBACK did not reach the server. */
    ghost var leaked: bool
    /** The rows handed out. */
    ghost var got: seq<Cells>
    /** How many transactions had been ended before, and whether one was open already. */
    ghost const base: nat
    ghost const joined: bool

    /** The transaction is open as long as the portal is, or for good when it leaked, and is ended once. */
    ghost predicate Valid()
      reads this, session
    {
      && session.pos <= |session.result|
      && got == session.result[..session.pos] && fetched == |got|
      && (leaked ==> closed)
      && (session.tx != Idle <==> !closed || leaked)
      && session.ended == if closed && !leaked then base + 1 else base
    }

    constructor (session: Session, ghost joined: bool)
      requires session.tx == Open && session.cursorOpen && session.pos == 0
      ensures Valid() && !closed && !leaked && got == [] && this.session == session
      ensures base == session.ended && this.joined == joined
    {
      this.session := session;
      fetched, closed := 0, false;
      leaked, got := false, [];
      base, this.joined := session.ended, joined;
    }

    method FetchForward(count: nat, accepts: bool) returns (r: Result<(seq<Cells>, bool), PortalError>)
      requires Valid()
      modifies this`fetched, this`got, session`pos, session`tx
      ensures Valid()
      ensures closed ==> r == Err(AlreadyClosed)
      ensures !closed && count == 0 ==> r == Ok(([], false))
      ensures !closed && count > 0 ==> (r.Ok? <==> accepts && old(session.tx) == Open && session.cursorOpen)
      ensures closed || count == 0 ==> fetched == old(fetched) && got == old(got) && session.tx == old(session.tx)
      ensures r.Ok? && count > 0 ==>
        && var (rows, exhausted) := r.value;
        && got == old(got) + rows && |rows| == Min(count, |session.result| - old(fetched))
        && exhausted == (|rows| < count)
        && session.tx == Open
      ensures r.Err? ==> got == old(got)
    {
      if closed {
        return Err(AlreadyClosed);
      }
      if count == 0 {
        return Ok(([], false));
      }
      var rows, ok := session.Fetch(count, accepts);
      if !ok {
        return Err(Pg);
      }
      fetched := fetched + |rows|;
      got := got + rows;
      return Ok((rows, |rows| < count));
    }

    /**
     CLOSE, whose result is ignored, and COMMIT. A refused COMMIT leaves the portal open; an
     accepted one ends the transaction, be it the portal's own or one the caller had begun.
     */
    method Close(cursorAccepts: bool, commitAccepts: bool) returns (r: Result<(), PortalError>)
      requires Valid()
      modifies this`closed, session`tx, session`ended, session`cursorOpen
      ensures Valid()
      ensures r.Ok? <==> old(closed) || commitAccepts
      ensures r.Ok? <==> closed
      ensures old(closed) ==> session.tx == old(session.tx)
      ensures !old(closed) && commitAccepts ==> session.tx == Idle && session.ended == old(session.ended) + 1
    {
      if closed {
        return Ok(());
      }
      session.CloseCursor(cursorAccepts);
      var ok := session.EndTx(commitAccepts);
      if !ok {
        return Err(Pg);
      }
      closed := true;
      return Ok(());
    }

    /** ROLLBACK, whose result is ignored: the portal counts as closed even when it is refused. */
    method Rollback(accepts: bool)
      requires Valid()
      modifies this`closed, this`leaked, session`tx, session`ended, session`cursorOpen
      ensures Valid() && closed
      ensures leaked == (old(leaked) || (!old(closed) && !accepts))
      ensures leaked && !old(closed) ==> session.tx == old(session.tx) && session.tx != Idle
    {
      if closed {
        return;
      }
      var ok := session.EndTx(accepts);
      leaked := !ok;
      closed := true;
    }
  }

  /**
   `declare_portal`, on a session in any state. An open transaction is joined: it is aborted when a
   step is refused, and ends with the portal. From an idle session a refused DECLARE leaves an
   aborted transaction that nothing here ends.
   */
  method DeclarePortal(session: Session, prepareAccepts: bool, beginAccepts: bool, declareAccepts: bool)
    returns (r: Result<Portal, PortalError>)
    modifies session
    ensures r.Ok? <==> prepareAccepts && beginAccepts && declareAccepts && old(session.tx) != Aborted
    ensures r.Ok? ==>
      fresh(r.value) && r.value.session == session && r.value.Valid() && !r.value.closed && !r.value.leaked
    ensures r.Ok? ==> r.value.got == [] && session.tx == Open && session.cursorOpen
    ensures r.Ok? ==> r.value.joined == (old(session.tx) == Open) && r.value.base == old(session.ended)
    ensures r.Err? ==>
      session.tx == if old(session.tx) == Idle && !(prepareAccepts && beginAccepts) then Idle else Aborted
    ensures session.ended == old(session.ended)
  {
    ghost var joined := session.tx == Open;
    var ok := session.Prepare(prepareAccepts);
    if !ok {
      return Err(Pg);
    }
    ok := session.Begin(beginAccepts);
    if !ok {
      return Err(Pg);
    }
    ok := session.Declare(declareAccepts);
    if !ok {
      return Err(Pg);
    }
    var portal := new Portal(session, joined);
    return Ok(portal);
  }

  /** A portal opened and closed inside the caller's transaction has committed that transaction. */
  method JoinedCommits(session: Session) returns (committed: bool)
    requires session.tx == Open
    modifies session
    ensures committed && session.tx == Idle && session.ended == old(session.ended) + 1
  {
    var r := DeclarePortal(session, true, true, true);
    var closed := r.value.Close(true, true);
    return closed.Ok?;
  }

  // ---- runs -------------------------------------------------------------------------------

  /** Rows in windows of `w`: all full but the last, which is short. */
  ghost predicate Windows(windows: seq<seq<Cells>>, w: nat) {
    && |windows| > 0 && |windows[|windows| - 1]| < w
    && forall i :: 0 <= i < |windows| - 1 ==> |windows[i]| == w
  }

  lemma {:induction false} FullWindowsLength(windows: seq<seq<Cells>>, w: nat)
    requires forall i :: 0 <= i < |windows| ==> |windows[i]| == w
    ensures |Flatten(windows)| == |windows| * w
  {
    if windows != [] {
      FullWindowsLength(windows[1..], w);
      assert |windows| * w == (|windows| - 1) * w + w;
    }
  }

  /** How many windows there are is decided by how many rows there are. */
  lemma WindowCount(windows: seq<seq<Cells>>, w: nat)
    requires Windows(windows, w)
    ensures |windows| == |Flatten(windows)| / w + 1
  {
    var n := |windows| - 1;
    var full, last := windows[..n], windows[n];
    assert windows == full + [last];
    FlattenAppend(full, [last]);
    assert Flatten([last]) == last + [];
    FullWindowsLength(full, w);
    QuotientOf(|Flatten(windows)|, n, |last|, w);
  }

  lemma QuotientOf(total: nat, n: nat, rest: nat, w: nat)
    requires total == n * w + rest && rest < w
    ensures total / w == n
  {
    QuotientUnique(w, n, rest, total / w, total % w);
  }

  /**
   Fetching until a window is short hands out the whole result in order, in floor(N / w) + 1
   fetches, of which only the last is reported as exhausted.
   */
  method FetchAll(portal: Portal, w: nat) returns (windows: seq<seq<Cells>>)
    requires portal.Valid() && !portal.closed && portal.got == []
    requires portal.session.tx == Open && portal.session.cursorOpen
    requires w > 0
    modifies portal`fetched, portal`got, portal.session`pos, portal.session`tx
    ensures portal.Valid() && portal.session.tx == Open
    ensures Flatten(windows) == portal.session.result && portal.fetched == |portal.session.result|
    ensures Windows(windows, w) && |windows| == |portal.session.result| / w + 1
  {
    windows := [];
    var exhausted := false;
    while !exhausted
      invariant portal.Valid() && portal.session.tx == Open && portal.session.cursorOpen
      invariant Flatten(windows) == portal.got
      invariant exhausted ==> Windows(windows, w) && portal.got == portal.session.result
      invariant !exhausted ==> forall i :: 0 <= i < |windows| ==> |windows[i]| == w
      decreases |portal.session.result| - portal.session.pos, !exhausted
    {
      ghost var before := windows;
      var r := portal.FetchForward(w, true);
      var (rows, short) := r.value;
      windows := windows + [rows];
      FlattenAppend(before, [rows]);
      assert Flatten([rows]) == rows + [];
      exhausted := short;
    }
    WindowCount(windows, w);
  }

  datatype Op =
    | Fetch(count: nat, accepts: bool)
    | Close(cursorAccepts: bool, commitAccepts: bool)
    | Rollback(accepts: bool)

  /** The portal counts as closed after this call. */
  predicate Closes(op: Op) { op.Rollback? || (op.Close? && op.commitAccepts) }

  /** One of the first `n` calls closes the portal. */
  predicate ClosedIn(ops: seq<Op>, n: nat)
    requires n <= |ops|
  {
    exists i :: 0 <= i < n && Closes(ops[i])
  }

  /** One of the first `n` calls is a ROLLBACK of the open portal, and the server refuses it. */
  predicate LeakedIn(ops: seq<Op>, n: nat)
    requires n <= |ops|
  {
    exists i :: 0 <= i < n && ops[i] == Rollback(false) && !ClosedIn(ops, i)
  }

  /**
   Whatever a caller does with a portal: the transaction is open exactly while the portal is, or
   when a ROLLBACK of the open portal was refused; it is ended at most once, and the rows handed
   out are a beginning of the result, each once.
   */
  method RunOps(portal: Portal, ops: seq<Op>)
    requires portal.Valid()
    modifies portal, portal.session
    ensures portal.Valid()
    ensures portal.closed == (old(portal.closed) || ClosedIn(ops, |ops|))
    ensures portal.leaked == (old(portal.leaked) || (!old(portal.closed) && LeakedIn(ops, |ops|)))
    ensures portal.session.tx != Idle <==> !portal.closed || portal.leaked
    ensures portal.session.ended == if portal.closed && !portal.leaked then portal.base + 1 else portal.base
    ensures portal.got <= portal.session.result && portal.fetched == |portal.got|
  {
    for i := 0 to |ops|
      invariant portal.Valid()
      invariant portal.closed == (old(portal.closed) || ClosedIn(ops, i))
      invariant portal.leaked == (old(portal.leaked) || (!old(portal.closed) && LeakedIn(ops, i)))
    {
      assert ClosedIn(ops, i + 1) == (ClosedIn(ops, i) || Closes(ops[i]));
      assert LeakedIn(ops, i + 1) == (LeakedIn(ops, i) || (ops[i] == Rollback(false) && !ClosedIn(ops, i)));
      match ops[i] {
        case Fetch(count, accepts) => var _ := portal.FetchForward(count, accepts);
        case Close(cursorAccepts, commitAccepts) => var _ := portal.Close(cursorAccepts, commitAccepts);
        case Rollback(accepts) => portal.Rollback(accepts);
      }
    }
  }
}
