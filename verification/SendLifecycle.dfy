/**
  The life of a message over every run: requests, attempts of any number of jobs interleaved at
  will, database and queue errors. The queue is the abstract one of the handlers' own assumptions:
  a job has at most three attempts, one at a time, none after an unrecoverable error, its `failed`
  handler runs before its next attempt, and an `add` that throws has queued nothing.
 */
module SendLifecycle {
  import opened Wrappers
  import opened LogStore
  import opened SendGateway

  /** How a call of `modem.sendSMS` ended. */
  datatype Call = Accepted(reference: Option<string>) | Rejected | ConfirmTimeout

  datatype Phase =
    | Waiting
    | Active(modemId: string)
    | Delivered(modemId: string, reference: Option<string>)
    | Failing(err: Failure)
    | Completed
    | Dead

  /**
    A job and what its worker is given. The program does not keep `begunIn`, the pool the last
    attempt found when it began, `via`, the modem called last, the errors of the failed attempts,
    and `sentAt`, the time a success was logged at.
   */
  datatype Job = Job(
    logId: nat, pinned: Option<string>, to: Option<string>, message: Option<string>, phase: Phase,
    attemptsMade: nat, calls: seq<Call>, begunIn: set<string>, via: Option<string>, errors: seq<string>,
    sentAt: Option<string>)

  /** `pool` has the ids of the configured modems; jobs outlive a restart that changes it. */
  datatype System = System(g: Gateway, jobs: seq<Job>, pool: set<string>)

  datatype Event =
    | Configure(pool: set<string>)
    | Request(id: nat, row: Row, insertOk: bool, addOk: bool, db: Db, queueOk: bool, message: string)
    | Begin(job: nat, picked: string)
    | Sent(job: nat, reference: Option<string>)
    | Refused(job: nat, message: string)
    | TimedOut(job: nat, message: string)
    | LogSent(job: nat, now: string, db: Db, queueOk: bool)
    | LogFailed(job: nat, db: Db, queueOk: bool)

  function StatusOf(g: Gateway, id: nat): Option<string> {
    if id in g.rows then FieldOf(g.rows[id], Status) else None
  }

  /** A row as `/send` inserts it. */
  predicate IsNewRow(row: Row) {
    && (forall f: Field :: f in row)
    && row[Status] == Some("pending") && row[Error] == None && row[SentAt] == None && row[Reference] == None
  }

  /** What the route passes to `appendLog` is such a row, whatever the request says. */
  lemma NewRowIsNew(
    id: string, timestamp: string, to: string, message: string, projectName: Option<string>, ip: Option<string>,
    pinned: Option<string>, clientRef: Option<string>, callbackUrl: Option<string>)
    ensures var row := NewRow(id, timestamp, to, message, projectName, ip, pinned, clientRef, callbackUrl);
            && IsNewRow(row) && row[Id] == Some(id) && row[Timestamp] == Some(timestamp)
            && row[To] == Some(to) && row[Message] == Some(message) && row[ModemId] == pinned
            && row[ProjectName] == projectName && row[Ip] == ip
            && row[ClientRef] == clientRef && row[CallbackUrl] == callbackUrl
  {
    var row := NewRow(id, timestamp, to, message, projectName, ip, pinned, clientRef, callbackUrl);
    forall f: Field
      ensures f in row
    {
      match f case Id => case _ =>
    }
  }

  /** The modem of an attempt: the pinned one if it is configured, or the picked one. */
  function ModemFor(pinned: Option<string>, picked: string, pool: set<string>): Option<string> {
    if pinned.None? then Some(picked) else if pinned.value in pool then pinned else None
  }

  predicate Enabled(s: System, e: Event) {
    match e
    case Configure(_) => true
    case Request(id, row, _, _, _, _, _) =>
      && id !in s.g.rows && (forall j :: 0 <= j < |s.jobs| ==> s.jobs[j].logId != id) && IsNewRow(row)
      && (row[ModemId].Some? ==> row[ModemId].value in s.pool)
    case Begin(j, picked) =>
      && j < |s.jobs| && s.jobs[j].phase == Waiting && s.jobs[j].attemptsMade < ATTEMPTS
      && (s.jobs[j].pinned.None? ==> picked in s.pool)
    case Sent(j, _) => j < |s.jobs| && s.jobs[j].phase.Active?
    case Refused(j, _) => j < |s.jobs| && s.jobs[j].phase.Active?
    case TimedOut(j, _) => j < |s.jobs| && s.jobs[j].phase.Active?
    case LogSent(j, _, _, _) => j < |s.jobs| && s.jobs[j].phase.Delivered?
    case LogFailed(j, _, _) => j < |s.jobs| && s.jobs[j].phase.Failing?
  }

  /** `sendSMSQueue.add` with number, message, pinned modem and the id of the row. */
  function NewJob(id: nat, row: Row): Job
    requires IsNewRow(row)
  {
    Job(id, row[ModemId], row[To], row[Message], Waiting, 0, [], {}, None, [], None)
  }

  /** An attempt ends without success. */
  function Fails(job: Job, err: Failure): Job {
    job.(phase := Failing(err), attemptsMade := job.attemptsMade + 1, errors := job.errors + [err.message])
  }

  function NextJob(job: Job, e: Event, pool: set<string>): Job {
    match e
    case Begin(_, picked) =>
      var modem := ModemFor(job.pinned, picked, pool);
      var begun := job.(begunIn := pool);
      if modem.None? then Fails(begun, Unrecoverable("Unknown modem \"" + job.pinned.value + "\""))
      else begun.(phase := Active(modem.value))
    case Sent(_, reference) =>
      if !job.phase.Active? then job
      else job.(phase := Delivered(job.phase.modemId, reference), calls := job.calls + [Accepted(reference)],
                via := Some(job.phase.modemId))
    case Refused(_, message) =>
      if !job.phase.Active? then job
      else
        Fails(job.(calls := job.calls + [Rejected], via := Some(job.phase.modemId)),
              Retryable(message, Some(job.phase.modemId)))
    case TimedOut(_, message) =>
      if !job.phase.Active? then job
      else
        Fails(job.(calls := job.calls + [ConfirmTimeout], via := Some(job.phase.modemId)),
              Unrecoverable("Send unconfirmed via \"" + job.phase.modemId + "\": " + message))
    case LogSent(_, now, _, _) => job.(phase := Completed, sentAt := Some(now))
    case LogFailed(_, _, _) =>
      job.(phase := if job.phase.Failing? && !IsFinal(job.phase.err, job.attemptsMade) then Waiting else Dead)
    case _ => job
  }

  function Apply(s: System, e: Event, cfg: Config): System
    requires Enabled(s, e)
  {
    match e
    case Configure(pool) => s.(pool := pool)
    case Request(id, row, insertOk, addOk, db, queueOk, message) =>
      s.(g := Route(s.g, id, row, insertOk, addOk, cfg, db, queueOk, message),
         jobs := if insertOk && addOk then s.jobs + [NewJob(id, row)] else s.jobs)
    case LogSent(j, now, db, queueOk) =>
      var job := s.jobs[j];
      var patch := SentPatch(now, job.phase.reference, job.phase.modemId);
      s.(g := UpdateAndNotify(s.g, job.logId, patch, cfg, db, queueOk), jobs := s.jobs[j := NextJob(job, e, s.pool)])
    case LogFailed(j, db, queueOk) =>
      var job := s.jobs[j];
      var patch := FailurePatch(job.phase.err, job.attemptsMade);
      s.(g := UpdateAndNotify(s.g, job.logId, patch, cfg, db, queueOk), jobs := s.jobs[j := NextJob(job, e, s.pool)])
    case _ => s.(jobs := s.jobs[e.job := NextJob(s.jobs[e.job], e, s.pool)])
  }

  function Run(s: System, events: seq<Event>, cfg: Config): System
    decreases |events|
  {
    if events == [] then s
    else Run(if Enabled(s, events[0]) then Apply(s, events[0], cfg) else s, events[1..], cfg)
  }

  function Initial(): System {
    System(Gateway(map[], []), [], {})
  }

  // ----- What every run keeps --------------------------------------------------------------------

  predicate AllRejected(calls: seq<Call>) {
    forall i :: 0 <= i < |calls| ==> calls[i] == Rejected
  }

  /** The last attempt found its modem: the job was not pinned, or its modem was configured. */
  predicate FoundItsModem(job: Job) {
    job.pinned.None? || job.pinned.value in job.begunIn
  }

  /** A pinned job uses no other modem than its own. */
  predicate KeepsToItsPin(job: Job) {
    (job.phase.Active? || job.phase.Delivered?) && job.pinned.Some? ==> job.phase.modemId == job.pinned.value
  }

  /** Calls of the modem: nothing follows a success or a confirmation timeout. */
  predicate CallsOk(job: Job) {
    && job.attemptsMade <= ATTEMPTS
    && KeepsToItsPin(job)
    && match job.phase
       case Waiting => job.attemptsMade < ATTEMPTS && |job.calls| == job.attemptsMade && AllRejected(job.calls)
       case Active(_) =>
         && job.attemptsMade < ATTEMPTS && |job.calls| == job.attemptsMade && AllRejected(job.calls)
         && FoundItsModem(job)
       case Delivered(_, reference) => EndsAccepted(job, reference)
       case Completed => job.calls != [] && job.calls[|job.calls| - 1].Accepted? &&
                         EndsAccepted(job, job.calls[|job.calls| - 1].reference)
       case Failing(err) =>
         if err.Unrecoverable? then EndsUnrecoverable(job)
         else 0 < |job.calls| == job.attemptsMade && AllRejected(job.calls)
       case Dead =>
         EndsUnrecoverable(job) || (|job.calls| == job.attemptsMade == ATTEMPTS && AllRejected(job.calls))
  }

  predicate EndsAccepted(job: Job, reference: Option<string>) {
    && job.attemptsMade < ATTEMPTS && |job.calls| == job.attemptsMade + 1
    && job.calls[|job.calls| - 1] == Accepted(reference)
    && AllRejected(job.calls[..|job.calls| - 1])
  }

  /** The last attempt timed out on its confirmation, or did not find its modem and called none. */
  predicate EndsUnrecoverable(job: Job) {
    && job.attemptsMade > 0
    && (if FoundItsModem(job)
        then |job.calls| == job.attemptsMade && job.calls[|job.calls| - 1] == ConfirmTimeout &&
             AllRejected(job.calls[..|job.calls| - 1])
        else |job.calls| == job.attemptsMade - 1 && AllRejected(job.calls))
  }

  predicate IsOver(p: Phase) {
    p == Completed || p == Dead
  }

  /** A terminal status belongs to a finished job, and says how it finished. */
  predicate RowFits(row: Row, job: Job) {
    && (IsTerminal(FieldOf(row, Status)) ==> IsOver(job.phase))
    && (FieldOf(row, Status) == Some("sent") ==>
          && job.phase == Completed && job.calls != []
          && job.calls[|job.calls| - 1] == Accepted(FieldOf(row, Reference))
          && FieldOf(row, SentAt).Some? && FieldOf(row, Error) == None
          && (job.pinned.Some? ==> FieldOf(row, ModemId) == job.pinned))
    && (FieldOf(row, Status) == Some("unconfirmed") ==> job.phase == Dead && EndsUnrecoverable(job))
    && (FieldOf(row, Status) == Some("failed") ==>
          job.phase == Dead && |job.calls| == 3 && AllRejected(job.calls))
  }

  /** How many terminal callbacks were enqueued for a message. */
  function TerminalCallbacks(callbacks: seq<Callback>, id: nat): nat {
    if callbacks == [] then 0
    else
      TerminalCallbacks(callbacks[..|callbacks| - 1], id) +
      (var c := callbacks[|callbacks| - 1]; if c.logId == id && IsTerminal(c.status) then 1 else 0)
  }

  predicate JobsOk(s: System) {
    && (forall j :: 0 <= j < |s.jobs| ==> CallsOk(s.jobs[j]))
    && (forall j :: 0 <= j < |s.jobs| ==> s.jobs[j].logId in s.g.rows && RowFits(s.g.rows[s.jobs[j].logId], s.jobs[j]))
    && forall i, j :: 0 <= i < j < |s.jobs| ==> s.jobs[i].logId != s.jobs[j].logId
  }

  /** Rows without a job are those `/send` gave up on. */
  predicate RowsOk(s: System) {
    && (forall id :: id in s.g.rows ==> forall f: Field :: f in s.g.rows[id])
    && forall id :: id in s.g.rows && StatusOf(s.g, id) == Some("sent") ==>
         exists j :: 0 <= j < |s.jobs| && s.jobs[j].logId == id
  }

  ghost predicate CallbacksOk(g: Gateway) {
    forall id :: TerminalCallbacks(g.callbacks, id) <= if IsTerminal(StatusOf(g, id)) then 1 else 0
  }

  ghost predicate Inv(s: System) {
    JobsOk(s) && RowsOk(s) && CallbacksOk(s.g)
  }

  lemma StatusesDiffer()
    ensures "pending" != "sent" && "pending" != "failed" && "pending" != "unconfirmed"
    ensures "retrying" != "sent" && "retrying" != "failed" && "retrying" != "unconfirmed"
    ensures "sent" != "failed" && "sent" != "unconfirmed" && "failed" != "unconfirmed"
  {
    assert |"pending"| == 7 && |"sent"| == 4 && |"failed"| == 6 && |"unconfirmed"| == 11 && |"retrying"| == 8;
  }

  // ----- What one update does --------------------------------------------------------------------

  /** An update touches one row, its patchable columns only, and announces at most that row's new status. */
  lemma UpdateEffect(g: Gateway, id: nat, patch: map<Field, Option<string>>, cfg: Config, db: Db, queueOk: bool)
    ensures var h := UpdateAndNotify(g, id, patch, cfg, db, queueOk);
            && h.rows.Keys == g.rows.Keys
            && (forall k :: k in g.rows && k != id ==> h.rows[k] == g.rows[k])
            && (id in g.rows ==> h.rows[id] == g.rows[id] || h.rows[id] == Patched(g.rows[id], patch))
            && (h.callbacks == g.callbacks ||
                (id in g.rows && h.rows[id] == Patched(g.rows[id], patch) &&
                 h.callbacks == g.callbacks + [Callback(id, StatusOf(h, id), CallbackTarget(h.rows[id], cfg))]))
  {
  }

  lemma OneMoreCallback(callbacks: seq<Callback>, c: Callback, id: nat)
    ensures TerminalCallbacks(callbacks + [c], id) ==
            TerminalCallbacks(callbacks, id) + (if c.logId == id && IsTerminal(c.status) then 1 else 0)
  {
    assert (callbacks + [c])[..|callbacks|] == callbacks;
  }

  lemma UpdateKeepsCallbacks(
    g: Gateway, id: nat, patch: map<Field, Option<string>>, cfg: Config, db: Db, queueOk: bool)
    requires CallbacksOk(g) && !IsTerminal(StatusOf(g, id))
    ensures CallbacksOk(UpdateAndNotify(g, id, patch, cfg, db, queueOk))
  {
    hide UpdateAndNotify, IsTerminal, Patched, TerminalCallbacks;
    UpdateEffect(g, id, patch, cfg, db, queueOk);
    var h := UpdateAndNotify(g, id, patch, cfg, db, queueOk);
    forall k
      ensures TerminalCallbacks(h.callbacks, k) <= if IsTerminal(StatusOf(h, k)) then 1 else 0
    {
      assert TerminalCallbacks(g.callbacks, k) <= if IsTerminal(StatusOf(g, k)) then 1 else 0;
      if h.callbacks != g.callbacks {
        OneMoreCallback(g.callbacks, Callback(id, StatusOf(h, id), CallbackTarget(h.rows[id], cfg)), k);
      }
    }
  }

  // ----- Every event keeps the invariant ---------------------------------------------------------

  predicate MayMove(job: Job, e: Event) {
    match e
    case Begin(_, _) => job.phase == Waiting
    case LogSent(_, _, _, _) => job.phase.Delivered?
    case LogFailed(_, _, _) => job.phase.Failing?
    case Request(_, _, _, _, _, _, _) => false
    case Configure(_) => false
    case _ => job.phase.Active?
  }

  lemma CallsStayOk(job: Job, e: Event, pool: set<string>)
    requires CallsOk(job) && MayMove(job, e)
    ensures CallsOk(NextJob(job, e, pool)) && NextJob(job, e, pool).logId == job.logId
    ensures job.calls <= NextJob(job, e, pool).calls && NextJob(job, e, pool).pinned == job.pinned
  {
    var next := NextJob(job, e, pool);
    if |next.calls| == |job.calls| + 1 {
      assert next.calls[..|job.calls|] == job.calls;
    }
  }

  /** The event of a job that leaves the table alone. */
  predicate IsSilent(e: Event) {
    e.Begin? || e.Sent? || e.Refused? || e.TimedOut?
  }

  lemma SilentKeepsInv(s: System, e: Event, cfg: Config)
    requires Inv(s) && Enabled(s, e) && IsSilent(e)
    ensures Inv(Apply(s, e, cfg))
  {
    hide CallsOk, RowFits, CallbacksOk, NextJob;
    CallsStayOk(s.jobs[e.job], e, s.pool);
    SilentRowFits(s.g.rows[s.jobs[e.job].logId], s.jobs[e.job], e, s.pool);
    JobMoves(s, e.job, NextJob(s.jobs[e.job], e, s.pool));
  }

  lemma JobMoves(s: System, j: nat, next: Job)
    requires Inv(s) && j < |s.jobs| && next.logId == s.jobs[j].logId
    requires CallsOk(next) && RowFits(s.g.rows[next.logId], next)
    ensures Inv(s.(jobs := s.jobs[j := next]))
  {
    hide CallsOk, RowFits, CallbacksOk;
    var t := s.(jobs := s.jobs[j := next]);
    assert forall i :: 0 <= i < |s.jobs| ==> t.jobs[i].logId == s.jobs[i].logId;
    forall id | id in t.g.rows && StatusOf(t.g, id) == Some("sent")
      ensures exists i :: 0 <= i < |t.jobs| && t.jobs[i].logId == id
    {
      var i :| 0 <= i < |s.jobs| && s.jobs[i].logId == id;
      assert t.jobs[i].logId == id;
    }
  }

  lemma SilentRowFits(row: Row, job: Job, e: Event, pool: set<string>)
    requires RowFits(row, job) && MayMove(job, e) && IsSilent(e)
    ensures RowFits(row, NextJob(job, e, pool))
  {
  }

  lemma LogSentRowFits(row: Row, job: Job, now: string)
    requires CallsOk(job) && job.phase.Delivered? && (forall f: Field :: f in row)
    ensures var next := job.(phase := Completed, sentAt := Some(now));
            && RowFits(Patched(row, SentPatch(now, job.phase.reference, job.phase.modemId)), next)
            && (RowFits(row, job) ==> RowFits(row, next))
  {
    StatusesDiffer();
  }

  lemma LogFailedRowFits(row: Row, job: Job)
    requires CallsOk(job) && job.phase.Failing? && (forall f: Field :: f in row)
    ensures var next := job.(phase := if IsFinal(job.phase.err, job.attemptsMade) then Dead else Waiting);
            && RowFits(Patched(row, FailurePatch(job.phase.err, job.attemptsMade)), next)
            && (RowFits(row, job) ==> RowFits(row, next))
  {
    StatusesDiffer();
  }

  /** A logging event: the job's row and the job move together, nothing else moves. */
  lemma LoggingKeepsInv(
    s: System, j: nat, next: Job, patch: map<Field, Option<string>>, cfg: Config, db: Db, queueOk: bool)
    requires Inv(s) && j < |s.jobs| && !IsOver(s.jobs[j].phase)
    requires next.logId == s.jobs[j].logId && CallsOk(next)
    requires RowFits(s.g.rows[next.logId], next) && RowFits(Patched(s.g.rows[next.logId], patch), next)
    ensures Inv(s.(g := UpdateAndNotify(s.g, next.logId, patch, cfg, db, queueOk), jobs := s.jobs[j := next]))
  {
    hide CallsOk, IsTerminal, EndsUnrecoverable, AllRejected, CallbacksOk, UpdateAndNotify, RowFits;
    var h := UpdateAndNotify(s.g, next.logId, patch, cfg, db, queueOk);
    var t := s.(g := h, jobs := s.jobs[j := next]);
    UpdateEffect(s.g, next.logId, patch, cfg, db, queueOk);
    NotTerminalYet(s, j);
    UpdateKeepsCallbacks(s.g, next.logId, patch, cfg, db, queueOk);
    assert forall i :: 0 <= i < |s.jobs| ==> t.jobs[i].logId == s.jobs[i].logId;
    forall id | id in t.g.rows && StatusOf(t.g, id) == Some("sent")
      ensures exists i :: 0 <= i < |t.jobs| && t.jobs[i].logId == id
    {
      if id == next.logId {
        assert t.jobs[j].logId == id;
      } else {
        assert StatusOf(s.g, id) == Some("sent");
        var i :| 0 <= i < |s.jobs| && s.jobs[i].logId == id;
        assert t.jobs[i].logId == id;
      }
    }
  }

  lemma NotTerminalYet(s: System, j: nat)
    requires JobsOk(s) && j < |s.jobs| && !IsOver(s.jobs[j].phase)
    ensures !IsTerminal(StatusOf(s.g, s.jobs[j].logId))
  {
    hide IsTerminal, CallsOk;
    assert RowFits(s.g.rows[s.jobs[j].logId], s.jobs[j]);
  }

  lemma LogSentKeepsInv(s: System, e: Event, cfg: Config)
    requires Inv(s) && Enabled(s, e) && e.LogSent?
    ensures Inv(Apply(s, e, cfg))
  {
    hide CallsOk, RowFits, CallbacksOk, UpdateAndNotify, SentPatch, Patched;
    var job := s.jobs[e.job];
    CallsStayOk(job, e, s.pool);
    LogSentRowFits(s.g.rows[job.logId], job, e.now);
    LoggingKeepsInv(s, e.job, NextJob(job, e, s.pool), SentPatch(e.now, job.phase.reference, job.phase.modemId),
                    cfg, e.db, e.queueOk);
  }

  lemma LogFailedKeepsInv(s: System, e: Event, cfg: Config)
    requires Inv(s) && Enabled(s, e) && e.LogFailed?
    ensures Inv(Apply(s, e, cfg))
  {
    hide CallsOk, RowFits, CallbacksOk, UpdateAndNotify, FailurePatch, Patched;
    var job := s.jobs[e.job];
    CallsStayOk(job, e, s.pool);
    LogFailedRowFits(s.g.rows[job.logId], job);
    LoggingKeepsInv(
      s, e.job, NextJob(job, e, s.pool), FailurePatch(job.phase.err, job.attemptsMade), cfg, e.db, e.queueOk);
  }

  lemma AcceptedKeepsInv(s: System, id: nat, row: Row)
    requires Inv(s) && id !in s.g.rows && IsNewRow(row)
    requires forall j :: 0 <= j < |s.jobs| ==> s.jobs[j].logId != id
    ensures Inv(s.(g := s.g.(rows := s.g.rows[id := row]),
                   jobs := s.jobs + [NewJob(id, row)]))
  {
    hide TerminalCallbacks;
    StatusesDiffer();
    var job := NewJob(id, row);
    var t := s.(g := s.g.(rows := s.g.rows[id := row]), jobs := s.jobs + [job]);
    assert RowFits(row, job);
    InsertKeepsCallbacks(s.g, id, row);
    forall k | k in t.g.rows && StatusOf(t.g, k) == Some("sent")
      ensures exists j :: 0 <= j < |t.jobs| && t.jobs[j].logId == k
    {
      var j :| 0 <= j < |s.jobs| && s.jobs[j].logId == k;
      assert t.jobs[j].logId == k;
    }
  }

  lemma InsertKeepsCallbacks(g: Gateway, id: nat, row: Row)
    requires CallbacksOk(g) && id !in g.rows && IsNewRow(row)
    ensures CallbacksOk(g.(rows := g.rows[id := row]))
  {
    hide TerminalCallbacks;
    StatusesDiffer();
    var h := g.(rows := g.rows[id := row]);
    forall k
      ensures TerminalCallbacks(h.callbacks, k) <= if IsTerminal(StatusOf(h, k)) then 1 else 0
    {
      assert TerminalCallbacks(g.callbacks, k) <= if IsTerminal(StatusOf(g, k)) then 1 else 0;
    }
  }

  lemma InsertKeepsInv(s: System, id: nat, row: Row)
    requires Inv(s) && id !in s.g.rows && IsNewRow(row)
    requires forall j :: 0 <= j < |s.jobs| ==> s.jobs[j].logId != id
    ensures Inv(s.(g := s.g.(rows := s.g.rows[id := row])))
    ensures StatusOf(s.g.(rows := s.g.rows[id := row]), id) == Some("pending")
  {
    hide CallsOk, RowFits, CallbacksOk;
    StatusesDiffer();
    InsertKeepsCallbacks(s.g, id, row);
  }

  /** `/send` gives up: no job exists, so the row it may have written belongs to it alone. */
  lemma RejectedKeepsInv(s: System, id: nat, message: string, cfg: Config, db: Db, queueOk: bool)
    requires Inv(s) && (forall j :: 0 <= j < |s.jobs| ==> s.jobs[j].logId != id)
    requires !IsTerminal(StatusOf(s.g, id))
    ensures Inv(s.(g := UpdateAndNotify(s.g, id, RouteFailedPatch(message), cfg, db, queueOk)))
  {
    hide CallsOk, RowFits, CallbacksOk, UpdateAndNotify, IsTerminal;
    StatusesDiffer();
    UpdateEffect(s.g, id, RouteFailedPatch(message), cfg, db, queueOk);
    UpdateKeepsCallbacks(s.g, id, RouteFailedPatch(message), cfg, db, queueOk);
    SentIsNotTerminalElsewhere();
  }

  lemma SentIsNotTerminalElsewhere()
    ensures IsTerminal(Some("sent")) && !IsTerminal(Some("pending")) && !IsTerminal(None)
  {
    StatusesDiffer();
  }

  lemma ConfigureKeepsInv(s: System, e: Event, cfg: Config)
    requires Inv(s) && e.Configure?
    ensures Inv(Apply(s, e, cfg))
  {
    hide CallsOk, RowFits, CallbacksOk;
  }

  lemma StepKeepsInv(s: System, e: Event, cfg: Config)
    requires Inv(s) && Enabled(s, e)
    ensures Inv(Apply(s, e, cfg))
  {
    hide Inv, IsNewRow, UpdateAndNotify, IsTerminal;
    match e
    case Request(id, row, insertOk, addOk, db, queueOk, message) =>
      if insertOk && addOk {
        AcceptedKeepsInv(s, id, row);
      } else {
        SentIsNotTerminalElsewhere();
        if insertOk {
          InsertKeepsInv(s, id, row);
          RejectedKeepsInv(s.(g := s.g.(rows := s.g.rows[id := row])), id, message, cfg, db, queueOk);
        } else {
          RejectedKeepsInv(s, id, message, cfg, db, queueOk);
        }
      }
    case LogSent(_, _, _, _) => LogSentKeepsInv(s, e, cfg);
    case LogFailed(_, _, _) => LogFailedKeepsInv(s, e, cfg);
    case Configure(_) => ConfigureKeepsInv(s, e, cfg);
    case _ => SilentKeepsInv(s, e, cfg);
  }

  lemma {:induction false} RunsKeepInv(s: System, events: seq<Event>, cfg: Config)
    requires Inv(s)
    ensures Inv(Run(s, events, cfg))
    decreases |events|
  {
    hide Inv, Enabled, Apply;
    if events != [] {
      if Enabled(s, events[0]) {
        StepKeepsInv(s, events[0], cfg);
        RunsKeepInv(Apply(s, events[0], cfg), events[1..], cfg);
      } else {
        RunsKeepInv(s, events[1..], cfg);
      }
    }
  }

  lemma Reachable(events: seq<Event>, cfg: Config)
    ensures Inv(Run(Initial(), events, cfg))
  {
    hide Run;
    RunsKeepInv(Initial(), events, cfg);
  }

  lemma InitiallyInv()
    ensures Inv(Initial())
  {
  }

  lemma {:induction false} RunInTwo(s: System, events: seq<Event>, more: seq<Event>, cfg: Config)
    ensures Run(s, events + more, cfg) == Run(Run(s, events, cfg), more, cfg)
    decreases |events|
  {
    hide Enabled, Apply;
    if events == [] {
      assert events + more == more;
    } else {
      assert (events + more)[1..] == events[1..] + more;
      RunInTwo(if Enabled(s, events[0]) then Apply(s, events[0], cfg) else s, events[1..], more, cfg);
    }
  }

  lemma RunStep(s: System, e: Event, more: seq<Event>, cfg: Config)
    requires Enabled(s, e)
    ensures Run(s, [e] + more, cfg) == Run(Apply(s, e, cfg), more, cfg)
  {
    assert ([e] + more)[1..] == more;
  }

  lemma NothingMoreToRun(s: System, cfg: Config)
    ensures Run(s, [], cfg) == s
  {
  }
}
