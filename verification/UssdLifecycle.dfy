/**
  The life of USSD requests (config/ussd.config.js, `runUssdNow` in router/router.js): the
  handlers as code, and every run of queued sessions, live sessions and inbox polls, with database
  errors anywhere, also between an UPDATE and the reading back of its row. The queue is abstract as
  in SendLifecycle, with two attempts per job.
 */
module UssdLifecycle {
  import opened Wrappers
  import opened UssdStore

  const ATTEMPTS: nat := 2
  const TARIFF_INBOX_POLL_DELAYS_MS: seq<nat> := [30000, 90000, 180000]

  datatype Failure = Unrecoverable(message: string) | Retryable(message: string)

  datatype PollJob = PollJob(modemId: string, delay: nat)

  predicate IsFinal(err: Failure, attemptsMade: nat) {
    err.Unrecoverable? || attemptsMade >= ATTEMPTS
  }

  /** `if (!reply)`: a session without an answer, or with an empty one, is no reply. */
  predicate IsReply(reply: Option<string>) {
    reply.Some? && reply.value != ""
  }

  /** What a live session writes when `runUssd` has returned. */
  function LiveWrite(rows: seq<Request>, id: nat, reply: Option<string>, now: int, db: Db): seq<Request> {
    if IsReply(reply) then TryComplete(rows, id, Done, reply, None, now, db)
    else TryComplete(rows, id, Failed, None, Some("No USSD reply"), now, db)
  }

  /** What its catch branch writes. */
  function LiveCatch(rows: seq<Request>, id: nat, message: string, now: int, db: Db): seq<Request> {
    TryComplete(rows, id, Failed, None, Some(message), now, db)
  }

  // ----- The handlers ----------------------------------------------------------------------------

  class Handlers {
    const store: UssdStore
    var polls: seq<PollJob>

    constructor ()
      ensures fresh(store) && store.rows == [] && polls == []
    {
      store := new UssdStore();
      polls := [];
    }

    /** `enqueueUssd`: the row first; if the queue refuses the job, the row is settled as failed. */
    method EnqueueUssd(r: Request, addOk: bool, db: Db, now: int, message: string) returns (queued: bool)
      requires Find(store.rows, r.id) == |store.rows| && r.status == Pending
      modifies store
      ensures queued <==> addOk
      ensures store.rows == if addOk then old(store.rows) + [r]
                            else TryComplete(old(store.rows) + [r], r.id, Failed, None, Some(message), now, db)
    {
      var created := store.CreateRequest(r);
      queued := addOk;
      if !addOk {
        var thrown, entry := store.CompleteRequest(r.id, Failed, None, Some(message), now, db);
      }
    }

    /**
      The worker behind `runUssd`. It throws without a reply and when the reply cannot be stored or
      its row not be read back. A tariff session that succeeds is followed by inbox polls; a queue
      that refuses one of them ends the scheduling silently.
     */
    method AfterSession(
      id: nat, modemId: string, kind: string, reply: Option<string>, now: int, db: Db, addsOk: nat)
      returns (thrown: bool)
      requires Find(store.rows, id) < |store.rows|
      modifies this, store
      ensures thrown <==> !IsReply(reply) || db != Works
      ensures store.rows == if IsReply(reply) then TryComplete(old(store.rows), id, Done, reply, None, now, db)
                            else old(store.rows)
      ensures var scheduled := if !thrown && kind == "tariff" then (if addsOk < 3 then addsOk else 3) else 0;
              && |polls| == |old(polls)| + scheduled
              && polls[..|old(polls)|] == old(polls)
              && forall i :: 0 <= i < scheduled ==>
                   polls[|old(polls)| + i] == PollJob(modemId, [30000, 90000, 180000][i])
    {
      if reply.None? || reply.value == "" {
        return true;
      }
      var entry;
      thrown, entry := store.CompleteRequest(id, Done, reply, None, now, db);
      if thrown {
        return;
      }
      if kind == "tariff" {
        var i := 0;
        while i < |TARIFF_INBOX_POLL_DELAYS_MS| && i < addsOk
          invariant i <= |TARIFF_INBOX_POLL_DELAYS_MS| && i <= addsOk
          invariant |polls| == |old(polls)| + i && polls[..|old(polls)|] == old(polls)
          invariant forall k :: 0 <= k < i ==>
                      polls[|old(polls)| + k] == PollJob(modemId, TARIFF_INBOX_POLL_DELAYS_MS[k])
          invariant store.rows == TryComplete(old(store.rows), id, Done, reply, None, now, db)
        {
          polls := polls + [PollJob(modemId, TARIFF_INBOX_POLL_DELAYS_MS[i])];
          i := i + 1;
        }
      }
    }

    /** The `failed` handler of a session job; poll jobs do not get this far. */
    method OnFailed(id: nat, err: Failure, attemptsMade: nat, now: int, db: Db)
      modifies store
      ensures store.rows == if IsFinal(err, attemptsMade)
                            then TryComplete(old(store.rows), id, Failed, None, Some(err.message), now, db)
                            else old(store.rows)
    {
      if err.Unrecoverable? || attemptsMade >= ATTEMPTS {
        var thrown, entry := store.CompleteRequest(id, Failed, None, Some(err.message), now, db);
      }
    }

    /**
      `runUssdNow` behind the creation of its row: what `runUssd` came to, the write that follows
      (`db`), and the catch branch with its own write (`db2`).
     */
    method FinishLive(
      id: nat, thrown: Option<string>, reply: Option<string>, now: int, db: Db, dbError: string, now2: int, db2: Db)
      requires Find(store.rows, id) < |store.rows|
      modifies store
      ensures var written := if thrown.Some? then old(store.rows) else LiveWrite(old(store.rows), id, reply, now, db);
              store.rows ==
              if thrown.Some? then LiveCatch(written, id, thrown.value, now2, db2)
              else if db != Works then LiveCatch(written, id, dbError, now2, db2)
              else written
    {
      var caught := thrown;
      if thrown.None? {
        var failed, entry;
        if reply.None? || reply.value == "" {
          failed, entry := store.CompleteRequest(id, Failed, None, Some("No USSD reply"), now, db);
        } else {
          failed, entry := store.CompleteRequest(id, Done, reply, None, now, db);
        }
        if failed {
          caught := Some(dbError);
        }
      }
      if caught.Some? {
        var failed, entry := store.CompleteRequest(id, Failed, None, caught, now2, db2);
      }
    }
  }

  // ----- Every run -------------------------------------------------------------------------------

  datatype Phase = Waiting | Active | Failing(err: Failure) | Over

  /** A queued job or a live call working for one row; a live call fails into its catch branch. */
  datatype Session = Session(requestId: nat, live: bool, phase: Phase, attemptsMade: nat)

  /** `lost` has the requests whose last settling write failed; the program does not keep it. */
  datatype System = System(rows: seq<Request>, sessions: seq<Session>, lost: set<nat>)

  datatype Event =
    | Enqueue(r: Request, addOk: bool, db: Db, now: int, message: string)
    | StartLive(r: Request)
    | Begin(k: nat)
    | Unserviceable(k: nat, message: string)  // unknown modem, or one without USSD
    | Throws(k: nat, message: string)
    | Replies(k: nat, reply: Option<string>, now: int, db: Db, message: string)
    | Handled(k: nat, now: int, db: Db)
    | LiveReturns(k: nat, thrown: Option<string>, reply: Option<string>, now: int, db: Db, dbError: string)
    | LiveCatches(k: nat, now: int, db: Db)
    | InboxPoll(modemId: string)

  predicate IsNew(s: System, r: Request) {
    && r.status == Pending && r.reply == None && r.error == None && r.completedAt == None
    && (forall i :: 0 <= i < |s.rows| ==> s.rows[i].id != r.id)
    && forall k :: 0 <= k < |s.sessions| ==> s.sessions[k].requestId != r.id
  }

  predicate IsActive(s: System, k: nat, live: bool) {
    k < |s.sessions| && s.sessions[k].live == live && s.sessions[k].phase == Active
  }

  predicate IsFailing(s: System, k: nat, live: bool) {
    k < |s.sessions| && s.sessions[k].live == live && s.sessions[k].phase.Failing?
  }

  predicate Enabled(s: System, e: Event) {
    match e
    case Enqueue(r, _, _, _, _) => IsNew(s, r)
    case StartLive(r) => IsNew(s, r)
    case Begin(k) => k < |s.sessions| && s.sessions[k].phase == Waiting && s.sessions[k].attemptsMade < ATTEMPTS
    case Unserviceable(k, _) => IsActive(s, k, false)
    case Throws(k, _) => IsActive(s, k, false)
    case Replies(k, _, _, _, _) => IsActive(s, k, false)
    case Handled(k, _, _) => IsFailing(s, k, false)
    case LiveReturns(k, _, _, _, _, _) => IsActive(s, k, true)
    case LiveCatches(k, _, _) => IsFailing(s, k, true)
    case InboxPoll(_) => true
  }

  function Fails(s: Session, err: Failure): Session {
    s.(phase := Failing(err), attemptsMade := s.attemptsMade + 1)
  }

  /** What a session's event makes of the session. */
  function NextSession(x: Session, e: Event): Session {
    match e
    case Begin(_) => x.(phase := Active)
    case Unserviceable(_, message) => Fails(x, Unrecoverable(message))
    case Throws(_, message) => Fails(x, Retryable(message))
    case Replies(_, reply, _, db, message) =>
      if IsReply(reply) && db == Works then x.(phase := Over)
      else Fails(x, Retryable(if IsReply(reply) then message else "No USSD reply"))
    case Handled(_, _, _) =>
      x.(phase := if x.phase.Failing? && !IsFinal(x.phase.err, x.attemptsMade) then Waiting else Over)
    case LiveReturns(_, thrown, _, _, db, dbError) =>
      if thrown.Some? then x.(phase := Failing(Retryable(thrown.value)))
      else if db != Works then x.(phase := Failing(Retryable(dbError)))
      else x.(phase := Over)
    case LiveCatches(_, _, _) => x.(phase := Over)
    case _ => x
  }

  /** What a session's event makes of the table. */
  function NextRows(rows: seq<Request>, x: Session, e: Event): seq<Request> {
    match e
    case Replies(_, reply, now, db, _) =>
      if IsReply(reply) then TryComplete(rows, x.requestId, Done, reply, None, now, db) else rows
    case Handled(_, now, db) =>
      if x.phase.Failing? && IsFinal(x.phase.err, x.attemptsMade)
      then TryComplete(rows, x.requestId, Failed, None, Some(x.phase.err.message), now, db) else rows
    case LiveReturns(_, thrown, reply, now, db, _) =>
      if thrown.Some? then rows else LiveWrite(rows, x.requestId, reply, now, db)
    case LiveCatches(_, now, db) =>
      if x.phase.Failing? then LiveCatch(rows, x.requestId, x.phase.err.message, now, db) else rows
    case _ => rows
  }

  /** The session gives up without having settled its row. */
  predicate GivesUp(x: Session, e: Event) {
    match e
    case Handled(_, _, db) => x.phase.Failing? && IsFinal(x.phase.err, x.attemptsMade) && db == WriteFails
    case LiveCatches(_, _, db) => db == WriteFails
    case _ => false
  }

  predicate OfSession(e: Event) {
    !e.Enqueue? && !e.StartLive? && !e.InboxPoll?
  }

  function Apply(s: System, e: Event): System
    requires Enabled(s, e)
  {
    match e
    case Enqueue(r, addOk, db, now, message) =>
      if addOk then s.(rows := s.rows + [r], sessions := s.sessions + [Session(r.id, false, Waiting, 0)])
      else s.(rows := TryComplete(s.rows + [r], r.id, Failed, None, Some(message), now, db),
              lost := if db == WriteFails then s.lost + {r.id} else s.lost)
    case StartLive(r) => s.(rows := s.rows + [r], sessions := s.sessions + [Session(r.id, true, Active, 0)])
    case InboxPoll(_) => s
    case _ =>
      var x := s.sessions[e.k];
      System(NextRows(s.rows, x, e), s.sessions[e.k := NextSession(x, e)],
             if GivesUp(x, e) then s.lost + {x.requestId} else s.lost)
  }

  function Run(s: System, events: seq<Event>): System
    decreases |events|
  {
    if events == [] then s
    else Run(if Enabled(s, events[0]) then Apply(s, events[0]) else s, events[1..])
  }

  function Initial(): System {
    System([], [], {})
  }

  /** The two halves of `FinishLive` are the two events of a live session. */
  lemma LiveEventsAreFinishLive(
    s: System, k: nat, thrown: Option<string>, reply: Option<string>, now: int, db: Db, dbError: string,
    now2: int, db2: Db)
    requires IsActive(s, k, true)
    ensures var t := Apply(s, LiveReturns(k, thrown, reply, now, db, dbError));
            var id := s.sessions[k].requestId;
            var written := if thrown.Some? then s.rows else LiveWrite(s.rows, id, reply, now, db);
            && t.rows == written
            && (Enabled(t, LiveCatches(k, now2, db2)) <==> thrown.Some? || db != Works)
            && (thrown.Some? || db != Works ==>
                  Apply(t, LiveCatches(k, now2, db2)).rows ==
                  LiveCatch(written, id, if thrown.Some? then thrown.value else dbError, now2, db2))
  {
  }

  // ----- What every run keeps --------------------------------------------------------------------

  /** A row is consistent: `done` has a reply, `failed` a reason, and only settled rows a completion time. */
  predicate RowOk(r: Request) {
    match r.status
    case Pending => r.reply == None && r.error == None && r.completedAt == None
    case Done => IsReply(r.reply) && r.error == None && r.completedAt.Some?
    case Failed => r.reply == None && r.error.Some? && r.completedAt.Some?
  }

  predicate WorkedOn(s: System, id: nat) {
    exists k :: 0 <= k < |s.sessions| && s.sessions[k].requestId == id && s.sessions[k].phase != Over
  }

  /** A session under way has a row; if that is settled, an attempt has failed behind the settling write. */
  predicate SessionOk(rows: seq<Request>, x: Session) {
    x.phase != Over ==>
      && var i := Find(rows, x.requestId);
      && i < |rows|
      && (x.live ==> x.phase != Waiting && (x.phase == Active ==> rows[i].status == Pending))
      && (!x.live ==>
            && (!x.phase.Failing? ==> x.attemptsMade < ATTEMPTS)
            && (x.phase.Failing? || rows[i].status != Pending ==> 1 <= x.attemptsMade <= ATTEMPTS))
  }

  predicate SessionsOk(s: System) {
    && (forall j, k :: 0 <= j < k < |s.sessions| ==> s.sessions[j].requestId != s.sessions[k].requestId)
    && forall k :: 0 <= k < |s.sessions| ==> SessionOk(s.rows, s.sessions[k])
  }

  predicate Inv(s: System) {
    && UniqueIds(s.rows)
    && (forall i :: 0 <= i < |s.rows| ==> RowOk(s.rows[i]))
    && SessionsOk(s)
    && forall i :: 0 <= i < |s.rows| && s.rows[i].status == Pending ==>
         WorkedOn(s, s.rows[i].id) || s.rows[i].id in s.lost
  }

  /** Only a row that is worked on changes, and no work on an old row begins. */
  predicate WorkOnly(s: System, t: System) {
    && |s.rows| <= |t.rows|
    && forall i :: 0 <= i < |s.rows| ==>
         && t.rows[i].id == s.rows[i].id
         && (!WorkedOn(s, s.rows[i].id) ==> t.rows[i] == s.rows[i] && !WorkedOn(t, s.rows[i].id))
  }

  lemma {:induction false} FindIsUnique(rows: seq<Request>, i: nat)
    requires UniqueIds(rows) && i < |rows|
    ensures Find(rows, rows[i].id) == i
  {
    var k := Find(rows, rows[i].id);
    assert k <= i;
  }

  lemma {:induction false} SameIdsSameFind(a: seq<Request>, b: seq<Request>, id: nat)
    requires |a| == |b| && forall i :: 0 <= i < |a| ==> a[i].id == b[i].id
    ensures Find(a, id) == Find(b, id)
  {
    if a != [] {
      SameIdsSameFind(a[1..], b[1..], id);
    }
  }

  /** What a session's event does to its own row. */
  predicate SettlesOwn(s: System, k: nat, x: Session, rows: seq<Request>, lost: set<nat>)
    requires k < |s.sessions|
  {
    && |rows| == |s.rows|
    && var i := Find(s.rows, s.sessions[k].requestId);
    && i < |rows|
    && (forall j :: 0 <= j < |rows| && j != i ==> rows[j] == s.rows[j])
    && rows[i].id == s.rows[i].id && RowOk(rows[i])
    && (x.phase == Over && rows[i].status == Pending ==> rows[i].id in lost)
  }

  lemma SessionStep(s: System, k: nat, x: Session, rows: seq<Request>, lost: set<nat>)
    requires Inv(s) && k < |s.sessions| && s.sessions[k].phase != Over && x.requestId == s.sessions[k].requestId
    requires SettlesOwn(s, k, x, rows, lost) && SessionOk(rows, x) && s.lost <= lost
    ensures Inv(System(rows, s.sessions[k := x], lost)) && WorkOnly(s, System(rows, s.sessions[k := x], lost))
  {
    hide RowOk, Find, SessionOk, WorkedOn;
    var t := System(rows, s.sessions[k := x], lost);
    assert forall j :: 0 <= j < |rows| ==> rows[j].id == s.rows[j].id;
    forall j | 0 <= j < |t.sessions|
      ensures SessionOk(t.rows, t.sessions[j])
    {
      if j != k {
        OtherSessionOk(s, j, k, rows);
      }
    }
    forall i | 0 <= i < |rows|
      ensures rows[i].status == Pending ==> WorkedOn(t, rows[i].id) || rows[i].id in lost
      ensures !WorkedOn(s, s.rows[i].id) ==> rows[i] == s.rows[i] && !WorkedOn(t, s.rows[i].id)
    {
      WorkMoves(s, t, k, i);
    }
  }

  lemma OtherSessionOk(s: System, j: nat, k: nat, rows: seq<Request>)
    requires SessionsOk(s) && j < |s.sessions| && k < |s.sessions| && j != k && |rows| == |s.rows|
    requires s.sessions[k].phase != Over
    requires forall i :: 0 <= i < |rows| && i != Find(s.rows, s.sessions[k].requestId) ==> rows[i] == s.rows[i]
    requires forall i :: 0 <= i < |rows| ==> rows[i].id == s.rows[i].id
    ensures SessionOk(rows, s.sessions[j])
  {
    assert SessionOk(s.rows, s.sessions[j]) && SessionOk(s.rows, s.sessions[k]);
    SameIdsSameFind(s.rows, rows, s.sessions[j].requestId);
  }

  /** Whether the row at `i` is worked on, before and after session `k` has moved. */
  lemma WorkMoves(s: System, t: System, k: nat, i: nat)
    requires Inv(s) && k < |s.sessions| && s.sessions[k].phase != Over && |t.sessions| == |s.sessions|
    requires t.sessions == s.sessions[k := t.sessions[k]] && t.sessions[k].requestId == s.sessions[k].requestId
    requires SettlesOwn(s, k, t.sessions[k], t.rows, t.lost) && s.lost <= t.lost && i < |s.rows|
    ensures t.rows[i].status == Pending ==> WorkedOn(t, t.rows[i].id) || t.rows[i].id in t.lost
    ensures !WorkedOn(s, s.rows[i].id) ==> t.rows[i] == s.rows[i] && !WorkedOn(t, s.rows[i].id)
  {
    hide RowOk, SessionOk;
    FindIsUnique(s.rows, i);
    if i == Find(s.rows, s.sessions[k].requestId) {
      assert s.sessions[k].requestId == s.rows[i].id;
      assert t.sessions[k].phase != Over ==> WorkedOn(t, t.rows[i].id);
    } else {
      if WorkedOn(s, s.rows[i].id) {
        var m :| 0 <= m < |s.sessions| && s.sessions[m].requestId == s.rows[i].id && s.sessions[m].phase != Over;
        assert t.sessions[m].requestId == s.rows[i].id && t.sessions[m].phase != Over;
      }
      assert forall m :: 0 <= m < |s.sessions| && m != k ==> t.sessions[m] == s.sessions[m];
    }
  }

  lemma CompleteEffect(
    rows: seq<Request>, id: nat, status: Status, reply: Option<string>, error: Option<string>, now: int, db: Db)
    requires Find(rows, id) < |rows|
    ensures var after, i := TryComplete(rows, id, status, reply, error, now, db), Find(rows, id);
            && |after| == |rows|
            && (forall j :: 0 <= j < |rows| && j != i ==> after[j] == rows[j])
            && after[i] == if db == WriteFails then rows[i] else Settled(rows[i], status, reply, error, now)
  {
  }

  lemma {:induction false} FindAppended(rows: seq<Request>, r: Request, id: nat)
    ensures Find(rows + [r], id) ==
            if Find(rows, id) < |rows| then Find(rows, id) else if r.id == id then |rows| else |rows| + 1
  {
    if rows != [] {
      assert (rows + [r])[1..] == rows[1..] + [r];
      FindAppended(rows[1..], r, id);
    }
  }

  lemma NotFound(rows: seq<Request>, id: nat)
    requires forall i :: 0 <= i < |rows| ==> rows[i].id != id
    ensures Find(rows, id) == |rows|
  {
  }

  /** A new row, with the session that works on it, or given up at once. */
  lemma NewRowKeepsInv(s: System, r: Request, x: Session, rows: seq<Request>, sessions: seq<Session>, lost: set<nat>)
    requires Inv(s) && IsNew(s, r) && s.lost <= lost
    requires sessions == s.sessions || (sessions == s.sessions + [x] && x.requestId == r.id && x.phase != Over)
    requires |rows| == |s.rows| + 1 && rows[..|s.rows|] == s.rows
    requires rows[|s.rows|].id == r.id && RowOk(rows[|s.rows|])
    requires sessions != s.sessions ==> SessionOk(rows, x)
    requires sessions == s.sessions && rows[|s.rows|].status == Pending ==> r.id in lost
    ensures Inv(System(rows, sessions, lost)) && WorkOnly(s, System(rows, sessions, lost))
  {
    hide RowOk, Find, SessionOk;
    var t := System(rows, sessions, lost);
    var last := rows[|s.rows|];
    assert rows == s.rows + [last];
    assert forall i :: 0 <= i < |s.rows| ==> rows[i] == s.rows[i];
    forall k | 0 <= k < |t.sessions|
      ensures SessionOk(t.rows, t.sessions[k])
    {
      if k < |s.sessions| {
        SessionKeepsOk(s.rows, last, s.sessions[k]);
      }
    }
    forall i | 0 <= i < |rows|
      ensures rows[i].status == Pending ==> WorkedOn(t, rows[i].id) || rows[i].id in lost
      ensures i < |s.rows| && !WorkedOn(s, s.rows[i].id) ==> !WorkedOn(t, s.rows[i].id)
    {
      if i < |s.rows| {
        if WorkedOn(s, s.rows[i].id) {
          var k :| 0 <= k < |s.sessions| && s.sessions[k].requestId == rows[i].id && s.sessions[k].phase != Over;
          assert t.sessions[k] == s.sessions[k];
        }
        assert forall k :: 0 <= k < |s.sessions| ==> t.sessions[k] == s.sessions[k];
      } else if sessions != s.sessions {
        assert t.sessions[|s.sessions|].requestId == rows[i].id;
      }
    }
  }

  lemma SessionKeepsOk(rows: seq<Request>, r: Request, x: Session)
    requires SessionOk(rows, x)
    ensures SessionOk(rows + [r], x)
  {
    FindAppended(rows, r, x.requestId);
  }

  lemma NewEventsKeepInv(s: System, e: Event)
    requires Inv(s) && Enabled(s, e) && (e.Enqueue? || e.StartLive?)
    ensures Inv(Apply(s, e)) && WorkOnly(s, Apply(s, e))
  {
    hide Inv, RowOk, Find, WorkOnly, SessionOk;
    var r, t := e.r, Apply(s, e);
    SettledRowsAreOk(r);
    NotFound(s.rows, r.id);
    FindAppended(s.rows, r, r.id);
    assert (s.rows + [r])[..|s.rows|] == s.rows;
    if e.Enqueue? && !e.addOk {
      CompleteEffect(s.rows + [r], r.id, Failed, None, Some(e.message), e.now, e.db);
      NewRowKeepsInv(s, r, Session(r.id, false, Waiting, 0), t.rows, t.sessions, t.lost);
    } else {
      var x := Session(r.id, e.StartLive?, if e.StartLive? then Active else Waiting, 0);
      NewSessionOk(t.rows, x, |s.rows|);
      NewRowKeepsInv(s, r, x, t.rows, t.sessions, t.lost);
    }
  }

  lemma NewSessionOk(rows: seq<Request>, x: Session, i: nat)
    requires Find(rows, x.requestId) == i < |rows| && rows[i].status == Pending && x.attemptsMade == 0
    requires x.phase == if x.live then Active else Waiting
    ensures SessionOk(rows, x)
  {
  }

  lemma SettledRowsAreOk(r: Request)
    ensures r.status == Pending && r.reply == None && r.error == None && r.completedAt == None ==> RowOk(r)
    ensures forall message, now :: RowOk(Settled(r, Failed, None, Some(message), now))
    ensures forall reply, now :: IsReply(reply) ==> RowOk(Settled(r, Done, reply, None, now))
  {
  }

  /** `after` is `rows` with the row at `i` left alone or settled. */
  predicate SettlesAt(rows: seq<Request>, after: seq<Request>, i: nat) {
    && |after| == |rows| && i < |rows|
    && (forall j :: 0 <= j < |rows| && j != i ==> after[j] == rows[j])
    && after[i].id == rows[i].id && RowOk(after[i])
    && (after[i] == rows[i] || after[i].status != Pending)
  }

  lemma WriteSettles(
    rows: seq<Request>, id: nat, status: Status, reply: Option<string>, error: Option<string>, now: int, db: Db)
    requires Find(rows, id) < |rows| && RowOk(rows[Find(rows, id)])
    requires (status == Done && IsReply(reply) && error == None) || (status == Failed && reply == None && error.Some?)
    ensures var after := TryComplete(rows, id, status, reply, error, now, db);
            && SettlesAt(rows, after, Find(rows, id))
            && (db == WriteFails ==> after == rows)
            && (db != WriteFails ==> after[Find(rows, id)] == Settled(rows[Find(rows, id)], status, reply, error, now))
  {
    hide Find;
    CompleteEffect(rows, id, status, reply, error, now, db);
  }

  /** A session's event on its own row; only a write that fails gives up on a pending one. */
  lemma NextRowsSettle(rows: seq<Request>, x: Session, e: Event)
    requires OfSession(e) && Find(rows, x.requestId) < |rows| && RowOk(rows[Find(rows, x.requestId)])
    requires e.Handled? || e.LiveCatches? ==> x.phase.Failing?
    ensures SettlesAt(rows, NextRows(rows, x, e), Find(rows, x.requestId))
    ensures NextSession(x, e).phase == Over && NextRows(rows, x, e)[Find(rows, x.requestId)].status == Pending ==>
              x.phase == Over || GivesUp(x, e)
  {
    hide Find, TryComplete, SettlesAt, RowOk, IsReply, IsFinal;
    var id := x.requestId;
    NothingSettles(rows, Find(rows, id));
    match e {
      case Replies(_, reply, now, db, _) =>
        if IsReply(reply) {
          WriteSettles(rows, id, Done, reply, None, now, db);
        }
      case Handled(_, now, db) =>
        WriteSettles(rows, id, Failed, None, Some(x.phase.err.message), now, db);
      case LiveReturns(_, thrown, reply, now, db, _) =>
        if IsReply(reply) {
          WriteSettles(rows, id, Done, reply, None, now, db);
        } else {
          WriteSettles(rows, id, Failed, None, Some("No USSD reply"), now, db);
        }
      case LiveCatches(_, now, db) =>
        WriteSettles(rows, id, Failed, None, Some(x.phase.err.message), now, db);
      case _ =>
    }
  }

  lemma NothingSettles(rows: seq<Request>, i: nat)
    requires i < |rows| && RowOk(rows[i])
    ensures SettlesAt(rows, rows, i)
  {
  }

  lemma OwnRow(s: System, e: Event)
    requires Inv(s) && Enabled(s, e) && OfSession(e)
    ensures var t := Apply(s, e);
            var i := Find(s.rows, s.sessions[e.k].requestId);
            && SettlesOwn(s, e.k, t.sessions[e.k], t.rows, t.lost)
            && (t.rows[i] == s.rows[i] || t.rows[i].status != Pending)
  {
    hide RowOk, Find, NextRows, NextSession, GivesUp, UniqueIds;
    var x := s.sessions[e.k];
    assert SessionOk(s.rows, x);
    FoundHasId(s.rows, x.requestId);
    NextRowsSettle(s.rows, x, e);
  }

  lemma FoundHasId(rows: seq<Request>, id: nat)
    requires Find(rows, id) < |rows|
    ensures rows[Find(rows, id)].id == id
  {
  }

  lemma NextSessionOk(s: System, e: Event)
    requires Inv(s) && Enabled(s, e) && OfSession(e)
    ensures SessionOk(Apply(s, e).rows, Apply(s, e).sessions[e.k])
    ensures Apply(s, e).sessions[e.k].requestId == s.sessions[e.k].requestId && s.sessions[e.k].phase != Over
  {
    hide RowOk, Find, TryComplete, LiveWrite, LiveCatch, UniqueIds, IsReply;
    assert SessionOk(s.rows, s.sessions[e.k]);
    OwnRow(s, e);
    SameIdsSameFind(s.rows, Apply(s, e).rows, s.sessions[e.k].requestId);
  }

  lemma StepKeepsInv(s: System, e: Event)
    requires Inv(s) && Enabled(s, e)
    ensures Inv(Apply(s, e)) && WorkOnly(s, Apply(s, e))
  {
    hide Inv, NextRows, NextSession, GivesUp, SessionOk, SettlesOwn;
    if e.Enqueue? || e.StartLive? {
      NewEventsKeepInv(s, e);
    } else if OfSession(e) {
      var t := Apply(s, e);
      OwnRow(s, e);
      NextSessionOk(s, e);
      SessionStep(s, e.k, t.sessions[e.k], t.rows, t.lost);
    }
  }

  lemma {:induction false} RunsKeepInv(s: System, events: seq<Event>)
    requires Inv(s)
    ensures Inv(Run(s, events))
    decreases |events|
  {
    hide Inv, Enabled, Apply;
    if events != [] {
      if Enabled(s, events[0]) {
        StepKeepsInv(s, events[0]);
        RunsKeepInv(Apply(s, events[0]), events[1..]);
      } else {
        RunsKeepInv(s, events[1..]);
      }
    }
  }

  lemma Reachable(events: seq<Event>)
    ensures Inv(Run(Initial(), events))
  {
    hide Run;
    RunsKeepInv(Initial(), events);
  }

  lemma RunStep(s: System, e: Event, more: seq<Event>)
    requires Enabled(s, e)
    ensures Run(s, [e] + more) == Run(Apply(s, e), more)
  {
    assert ([e] + more)[1..] == more;
  }

  lemma NothingMoreToRun(s: System)
    ensures Run(s, []) == s
  {
  }

  lemma {:induction false} RunInTwo(s: System, events: seq<Event>, more: seq<Event>)
    ensures Run(s, events + more) == Run(Run(s, events), more)
    decreases |events|
  {
    hide Enabled, Apply;
    if events == [] {
      assert events + more == more;
    } else {
      assert (events + more)[1..] == events[1..] + more;
      RunInTwo(if Enabled(s, events[0]) then Apply(s, events[0]) else s, events[1..], more);
    }
  }

  /**
    In every run a `done` row carries a reply that is not empty and a `failed` row an error; and a
    row is pending only while a job or live call is at work on it, unless the last settling write
    for its request has failed.
   */
  lemma PendingIsWorkedOn(events: seq<Event>)
    ensures var s := Run(Initial(), events);
            && UniqueIds(s.rows)
            && (forall i :: 0 <= i < |s.rows| ==> RowOk(s.rows[i]))
            && forall i :: 0 <= i < |s.rows| && s.rows[i].status == Pending ==>
                 WorkedOn(s, s.rows[i].id) || s.rows[i].id in s.lost
  {
    hide Run;
    Reachable(events);
  }

  /** Once nothing is at work, every row is settled whose last settling write did not fail. */
  lemma QuiescentMeansSettled(events: seq<Event>)
    requires var s := Run(Initial(), events);
             forall k :: 0 <= k < |s.sessions| ==> s.sessions[k].phase == Over
    ensures var s := Run(Initial(), events);
            forall i :: 0 <= i < |s.rows| && s.rows[i].id !in s.lost ==> s.rows[i].status != Pending
  {
    hide Run;
    Reachable(events);
  }

  /** The stored value served in any run is a non-empty reply, the newest-requested one. */
  lemma ServedValueIsAReply(events: seq<Event>, modemId: string, kind: string)
    ensures var rows := Run(Initial(), events).rows;
            var latest := LatestDone(rows, modemId, kind);
            latest.Some? ==>
              && latest.value < |rows| && IsReply(rows[latest.value].reply)
              && forall i :: 0 <= i < |rows| && i != latest.value && Matches(rows[i], modemId, kind) ==>
                   Newer(rows, latest.value, i)
  {
    hide Run, LatestDone;
    Reachable(events);
    LatestDoneIsNewest(Run(Initial(), events).rows, modemId, kind);
  }
}
