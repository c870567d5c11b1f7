/** What the events of UssdLifecycle write, column by column: replies, errors and times. */
module UssdDetails {
  import opened Wrappers
  import opened UssdStore
  import opened UssdLifecycle

  function DoneWith(r: Request, reply: Option<string>, now: int): Request {
    r.(status := Done, reply := reply, error := None, completedAt := Some(now))
  }

  function FailedWith(r: Request, error: string, now: int): Request {
    r.(status := Failed, reply := None, error := Some(error), completedAt := Some(now))
  }

  /** What an event of a session writes to the row of that session, given what the session has come to. */
  function RowAfter(r: Request, x: Session, e: Event): Request {
    match e
    case Replies(_, reply, now, db, _) =>
      if reply.Some? && reply.value != "" && db != WriteFails then DoneWith(r, reply, now) else r
    case Handled(_, now, db) =>
      if x.phase.Failing? && (x.phase.err.Unrecoverable? || x.attemptsMade >= 2) && db != WriteFails
      then FailedWith(r, x.phase.err.message, now) else r
    case LiveReturns(_, thrown, reply, now, db, _) =>
      if thrown.Some? || db == WriteFails then r
      else if reply.Some? && reply.value != "" then DoneWith(r, reply, now)
      else FailedWith(r, "No USSD reply", now)
    case LiveCatches(_, now, db) =>
      if x.phase.Failing? && db != WriteFails then FailedWith(r, x.phase.err.message, now) else r
    case _ => r
  }

  /** The error a session fails with, if the event makes it fail. */
  function ErrorOf(e: Event): Option<Failure> {
    match e
    case Unserviceable(_, message) => Some(Unrecoverable(message))
    case Throws(_, message) => Some(Retryable(message))
    case Replies(_, reply, _, db, message) =>
      if reply.None? || reply.value == "" then Some(Retryable("No USSD reply"))
      else if db != Works then Some(Retryable(message))
      else None
    case LiveReturns(_, thrown, _, _, db, dbError) =>
      if thrown.Some? then Some(Retryable(thrown.value)) else if db != Works then Some(Retryable(dbError)) else None
    case _ => None
  }

  lemma CompleteIsExact(
    rows: seq<Request>, id: nat, status: Status, reply: Option<string>, error: Option<string>, now: int, db: Db)
    requires UniqueIds(rows)
    ensures var after := TryComplete(rows, id, status, reply, error, now, db);
            && |after| == |rows|
            && forall i :: 0 <= i < |rows| ==>
                 after[i] ==
                 if rows[i].id == id && db != WriteFails
                 then rows[i].(status := status, reply := reply, error := error, completedAt := Some(now))
                 else rows[i]
  {
    var k := Find(rows, id);
    forall i | 0 <= i < |rows| && rows[i].id == id
      ensures i == k
    {
    }
  }

  lemma RowsAreExact(rows: seq<Request>, x: Session, e: Event)
    requires UniqueIds(rows) && OfSession(e)
    ensures var after := NextRows(rows, x, e);
            && |after| == |rows|
            && forall i :: 0 <= i < |rows| ==>
                 after[i] == if rows[i].id == x.requestId then RowAfter(rows[i], x, e) else rows[i]
  {
    hide TryComplete, UniqueIds;
    match e
    case Replies(_, reply, now, db, _) => CompleteIsExact(rows, x.requestId, Done, reply, None, now, db);
    case Handled(_, now, db) =>
      if x.phase.Failing? {
        CompleteIsExact(rows, x.requestId, Failed, None, Some(x.phase.err.message), now, db);
      }
    case LiveReturns(_, thrown, reply, now, db, _) =>
      CompleteIsExact(rows, x.requestId, Done, reply, None, now, db);
      CompleteIsExact(rows, x.requestId, Failed, None, Some("No USSD reply"), now, db);
    case LiveCatches(_, now, db) =>
      if x.phase.Failing? {
        CompleteIsExact(rows, x.requestId, Failed, None, Some(x.phase.err.message), now, db);
      }
    case _ =>
  }

  /**
    In every run: an event of a session writes to the row of that session and no other, the reply or
    the error that session has come to, with its time, and the session fails with the error the
    event says, or with none. A job that has failed gets another attempt if and only if its error
    allows one and it has had no second one yet.
   */
  lemma SessionWritesAreExact(events: seq<Event>, e: Event)
    requires Enabled(Run(Initial(), events), e) && OfSession(e)
    ensures var s := Run(Initial(), events);
            var x, t := s.sessions[e.k], Apply(s, e);
            var y := t.sessions[e.k];
            && |t.rows| == |s.rows|
            && (forall i :: 0 <= i < |s.rows| ==>
                  t.rows[i] == if s.rows[i].id == x.requestId then RowAfter(s.rows[i], x, e) else s.rows[i])
            && (if ErrorOf(e).Some? then y.phase == Failing(ErrorOf(e).value) else !y.phase.Failing?)
            && y.attemptsMade == x.attemptsMade + (if ErrorOf(e).Some? && !x.live then 1 else 0)
            && (e.Handled? ==> (y.phase == Waiting <==> x.phase.err.Retryable? && x.attemptsMade < 2))
  {
    hide Run, NextRows, RowAfter, SessionsOk, RowOk, WorkedOn;
    Reachable(events);
    var s := Run(Initial(), events);
    RowsAreExact(s.rows, s.sessions[e.k], e);
  }

  /** A new request is appended as it is, and settled at once, with the error, if its job is not queued. */
  lemma RequestWritesAreExact(events: seq<Event>, e: Event)
    requires Enabled(Run(Initial(), events), e) && (e.Enqueue? || e.StartLive?)
    ensures var s := Run(Initial(), events);
            var t := Apply(s, e);
            var refused := e.Enqueue? && !e.addOk;
            && t.rows == s.rows + [if refused && e.db != WriteFails then FailedWith(e.r, e.message, e.now) else e.r]
            && t.sessions ==
               if refused then s.sessions
               else s.sessions + [Session(e.r.id, e.StartLive?, if e.StartLive? then Active else Waiting, 0)]
  {
    hide Run, TryComplete, SessionsOk, RowOk, WorkedOn;
    Reachable(events);
    var s := Run(Initial(), events);
    if e.Enqueue? {
      var rows := s.rows + [e.r];
      assert UniqueIds(rows);
      CompleteIsExact(rows, e.r.id, Failed, None, Some(e.message), e.now, e.db);
    }
  }
}
