/**
  What the row of a message says besides its status, in every run of SendLifecycle: whom the
  message is for, what went wrong and when, and where its callbacks go.
 */
module SendDetails {
  import opened Wrappers
  import opened LogStore
  import opened SendGateway
  import opened SendLifecycle

  function Last(errors: seq<string>): Option<string> {
    if errors == [] then None else Some(errors[|errors| - 1])
  }

  /** The job remembers the modem it called last, its last error, and when it was done. */
  predicate JobDetails(job: Job) {
    match job.phase
    case Delivered(modemId, _) => job.via == Some(modemId)
    case Failing(err) => Last(job.errors) == Some(err.message) && (err.Retryable? ==> err.modemId == job.via != None)
    case Completed => job.via.Some? && job.sentAt.Some?
    case Dead => job.errors != []
    case _ => true
  }

  /**
    Number and text are the job's. A sent row has the modem and the time of the success and no
    error; a row given up has the last error, and one that is retried an error of its job; a
    message that was refused has the modem that refused it last.
   */
  predicate RowDetails(row: Row, job: Job) {
    && FieldOf(row, To) == job.to && FieldOf(row, Message) == job.message
    && (FieldOf(row, Status) == Some("pending") ==>
          FieldOf(row, Error) == None && FieldOf(row, SentAt) == None && FieldOf(row, Reference) == None)
    && (FieldOf(row, Status) == Some("retrying") ==>
          FieldOf(row, Error).Some? && FieldOf(row, Error).value in job.errors)
    && (FieldOf(row, Status) == Some("sent") ==>
          FieldOf(row, ModemId) == job.via != None && FieldOf(row, SentAt) == job.sentAt != None &&
          FieldOf(row, Error) == None)
    && (FieldOf(row, Status) == Some("failed") || FieldOf(row, Status) == Some("unconfirmed") ==>
          FieldOf(row, Error) == Last(job.errors) != None)
    && (FieldOf(row, Status) == Some("failed") && job.via != Some("") ==> FieldOf(row, ModemId) == job.via)
  }

  predicate DetailsOk(s: System, j: nat)
    requires j < |s.jobs|
  {
    && JobDetails(s.jobs[j]) && s.jobs[j].logId in s.g.rows
    && RowDetails(s.g.rows[s.jobs[j].logId], s.jobs[j])
  }

  predicate AllDetailsOk(s: System) {
    forall j :: 0 <= j < |s.jobs| ==> DetailsOk(s, j)
  }

  /** A job that moves keeps its message, and its errors. */
  lemma JobKeepsDetails(job: Job, e: Event, pool: set<string>)
    requires JobDetails(job) && MayMove(job, e)
    ensures var next := NextJob(job, e, pool);
            && JobDetails(next) && next.to == job.to && next.message == job.message && job.errors <= next.errors
  {
  }

  lemma SilentKeepsDetails(row: Row, job: Job, e: Event, pool: set<string>)
    requires JobDetails(job) && MayMove(job, e) && IsSilent(e)
    requires RowFits(row, job) && RowDetails(row, job)
    ensures RowDetails(row, NextJob(job, e, pool))
  {
    hide CallsOk, EndsUnrecoverable, AllRejected, JobDetails;
    JobKeepsDetails(job, e, pool);
    var next := NextJob(job, e, pool);
    assert forall x :: x in job.errors ==> x in next.errors;
  }

  lemma SentDetails(row: Row, job: Job, e: Event, pool: set<string>)
    requires JobDetails(job) && job.phase.Delivered? && e.LogSent? && (forall f: Field :: f in row)
    requires RowFits(row, job) && RowDetails(row, job)
    ensures RowDetails(Patched(row, SentPatch(e.now, job.phase.reference, job.phase.modemId)), NextJob(job, e, pool))
    ensures RowDetails(row, NextJob(job, e, pool))
  {
    hide EndsUnrecoverable, AllRejected;
    StatusesDiffer();
  }

  lemma FailedDetails(row: Row, job: Job, e: Event, pool: set<string>)
    requires JobDetails(job) && job.phase.Failing? && e.LogFailed? && (forall f: Field :: f in row)
    requires RowFits(row, job) && RowDetails(row, job)
    ensures RowDetails(Patched(row, FailurePatch(job.phase.err, job.attemptsMade)), NextJob(job, e, pool))
    ensures RowDetails(row, NextJob(job, e, pool))
  {
    hide EndsUnrecoverable, AllRejected;
    StatusesDiffer();
  }

  /** A job and its row move together; every other row stays. */
  lemma LoggingKeepsDetails(
    s: System, e: Event, next: Job, patch: map<Field, Option<string>>, cfg: Config, db: Db, queueOk: bool)
    requires JobsOk(s) && AllDetailsOk(s) && (e.LogSent? || e.LogFailed?) && e.job < |s.jobs|
    requires next.logId == s.jobs[e.job].logId && JobDetails(next)
    requires var row := s.g.rows[next.logId]; RowDetails(row, next) && RowDetails(Patched(row, patch), next)
    ensures AllDetailsOk(
              s.(g := UpdateAndNotify(s.g, next.logId, patch, cfg, db, queueOk), jobs := s.jobs[e.job := next]))
  {
    hide CallsOk, RowFits, JobDetails, RowDetails, UpdateAndNotify, Patched;
    UpdateEffect(s.g, next.logId, patch, cfg, db, queueOk);
    var t := s.(g := UpdateAndNotify(s.g, next.logId, patch, cfg, db, queueOk), jobs := s.jobs[e.job := next]);
    forall k | 0 <= k < |t.jobs|
      ensures DetailsOk(t, k)
    {
      assert DetailsOk(s, k);
      assert k != e.job ==> s.jobs[k].logId != next.logId;
    }
  }

  lemma RequestKeepsDetails(s: System, e: Event, cfg: Config)
    requires Inv(s) && AllDetailsOk(s) && Enabled(s, e) && e.Request?
    ensures AllDetailsOk(Apply(s, e, cfg))
  {
    hide CallsOk, RowFits, CallbacksOk, UpdateAndNotify, RouteFailedPatch, Patched;
    StatusesDiffer();
    var t := Apply(s, e, cfg);
    var inserted := if e.insertOk then s.g.(rows := s.g.rows[e.id := e.row]) else s.g;
    UpdateEffect(inserted, e.id, RouteFailedPatch(e.message), cfg, e.db, e.queueOk);
    forall k | 0 <= k < |t.jobs|
      ensures DetailsOk(t, k)
    {
      assert k < |s.jobs| ==> DetailsOk(s, k);
    }
  }

  lemma SilentStepKeepsDetails(s: System, e: Event, cfg: Config)
    requires Inv(s) && AllDetailsOk(s) && Enabled(s, e) && IsSilent(e)
    ensures AllDetailsOk(Apply(s, e, cfg))
  {
    hide RowFits, CallsOk, RowsOk, CallbacksOk, JobDetails, RowDetails, NextJob;
    var job := s.jobs[e.job];
    assert DetailsOk(s, e.job);
    JobKeepsDetails(job, e, s.pool);
    CallsStayOk(job, e, s.pool);
    SilentKeepsDetails(s.g.rows[job.logId], job, e, s.pool);
    var t := Apply(s, e, cfg);
    forall k | 0 <= k < |t.jobs|
      ensures DetailsOk(t, k)
    {
      assert DetailsOk(s, k);
    }
  }

  lemma ConfigureKeepsDetails(s: System, e: Event, cfg: Config)
    requires AllDetailsOk(s) && e.Configure?
    ensures AllDetailsOk(Apply(s, e, cfg))
  {
    hide JobDetails, RowDetails;
    forall k | 0 <= k < |s.jobs|
      ensures DetailsOk(Apply(s, e, cfg), k)
    {
      assert DetailsOk(s, k);
    }
  }

  lemma StepKeepsDetails(s: System, e: Event, cfg: Config)
    requires Inv(s) && AllDetailsOk(s) && Enabled(s, e)
    ensures AllDetailsOk(Apply(s, e, cfg))
  {
    hide UpdateAndNotify, CallsOk, RowFits, SentPatch, FailurePatch, CallbacksOk, JobDetails, RowDetails, NextJob,
      Patched;
    match e
    case Request(_, _, _, _, _, _, _) => RequestKeepsDetails(s, e, cfg);
    case LogSent(j, now, db, queueOk) =>
      var job := s.jobs[j];
      assert DetailsOk(s, j);
      JobKeepsDetails(job, e, s.pool);
      CallsStayOk(job, e, s.pool);
      SentDetails(s.g.rows[job.logId], job, e, s.pool);
      LoggingKeepsDetails(
        s, e, NextJob(job, e, s.pool), SentPatch(now, job.phase.reference, job.phase.modemId), cfg, db, queueOk);
    case LogFailed(j, db, queueOk) =>
      var job := s.jobs[j];
      assert DetailsOk(s, j);
      JobKeepsDetails(job, e, s.pool);
      CallsStayOk(job, e, s.pool);
      FailedDetails(s.g.rows[job.logId], job, e, s.pool);
      LoggingKeepsDetails(
        s, e, NextJob(job, e, s.pool), FailurePatch(job.phase.err, job.attemptsMade), cfg, db, queueOk);
    case Configure(_) => ConfigureKeepsDetails(s, e, cfg);
    case _ => SilentStepKeepsDetails(s, e, cfg);
  }

  lemma {:induction false} RunsKeepDetails(s: System, events: seq<Event>, cfg: Config)
    requires Inv(s) && AllDetailsOk(s)
    ensures AllDetailsOk(Run(s, events, cfg))
    decreases |events|
  {
    hide Inv, Enabled, Apply, AllDetailsOk;
    if events != [] {
      if Enabled(s, events[0]) {
        StepKeepsDetails(s, events[0], cfg);
        StepKeepsInv(s, events[0], cfg);
        RunsKeepDetails(Apply(s, events[0], cfg), events[1..], cfg);
      } else {
        RunsKeepDetails(s, events[1..], cfg);
      }
    }
  }

  /**
    In every run the worker of a message is given the number and the text of its row, and the row
    has the modem, the times and the errors of what happened to it.
   */
  lemma RowTellsTheDetails(events: seq<Event>, cfg: Config, j: nat)
    requires j < |Run(Initial(), events, cfg).jobs|
    ensures var s := Run(Initial(), events, cfg);
            && s.jobs[j].logId in s.g.rows
            && RowDetails(s.g.rows[s.jobs[j].logId], s.jobs[j])
  {
    hide Run, RowDetails, JobDetails;
    InitiallyInv();
    RunsKeepDetails(Initial(), events, cfg);
    assert DetailsOk(Run(Initial(), events, cfg), j);
  }

  /** A request that is inserted and not queued keeps its message, and fails with the error if the update commits. */
  lemma RefusedRequestIsFailed(events: seq<Event>, e: Event, cfg: Config)
    requires Enabled(Run(Initial(), events, cfg), e) && e.Request? && e.insertOk && !e.addOk
    ensures var t := Apply(Run(Initial(), events, cfg), e, cfg);
            && e.id in t.g.rows && t.jobs == Run(Initial(), events, cfg).jobs
            && FieldOf(t.g.rows[e.id], To) == e.row[To] && FieldOf(t.g.rows[e.id], Message) == e.row[Message]
            && if e.db == WriteFails then t.g.rows[e.id] == e.row
               else StatusOf(t.g, e.id) == Some("failed") && FieldOf(t.g.rows[e.id], Error) == Some(e.message)
  {
    hide Run, ShouldCall;
  }

  // ----- Callbacks -------------------------------------------------------------------------------

  /** To the address of the message, or else the default; of a status its row has, or had while it was retried. */
  predicate IsRight(g: Gateway, c: Callback, cfg: Config) {
    && c.logId in g.rows
    && c.url == (var own := FieldOf(g.rows[c.logId], CallbackUrl);
                 if own.Some? && own.value != "" then own.value else cfg.defaultUrl)
    && c.url != "" && c.url in cfg.allowed
    && if c.status == Some("sent") || c.status == Some("failed") || c.status == Some("unconfirmed")
       then FieldOf(g.rows[c.logId], Status) == c.status
       else c.status == Some("retrying") && cfg.sendIntermediate
  }

  predicate AllRight(g: Gateway, cfg: Config) {
    forall i :: 0 <= i < |g.callbacks| ==> IsRight(g, g.callbacks[i], cfg)
  }

  lemma UpdateIsRight(g: Gateway, id: nat, patch: map<Field, Option<string>>, cfg: Config, db: Db, queueOk: bool)
    requires AllRight(g, cfg) && !IsTerminal(StatusOf(g, id))
    ensures AllRight(UpdateAndNotify(g, id, patch, cfg, db, queueOk), cfg)
  {
    hide Patched, PATCHABLE;
    var h := UpdateAndNotify(g, id, patch, cfg, db, queueOk);
    if id in g.rows {
      TargetStays(g.rows[id], patch);
    }
    forall i | 0 <= i < |h.callbacks|
      ensures IsRight(h, h.callbacks[i], cfg)
    {
      if i < |g.callbacks| {
        assert h.callbacks[i] == g.callbacks[i] && IsRight(g, g.callbacks[i], cfg);
      }
    }
  }

  lemma TargetStays(row: Row, patch: map<Field, Option<string>>)
    ensures FieldOf(Patched(row, patch), CallbackUrl) == FieldOf(row, CallbackUrl)
  {
  }

  lemma InsertIsRight(g: Gateway, id: nat, row: Row, cfg: Config)
    requires AllRight(g, cfg) && id !in g.rows
    ensures AllRight(g.(rows := g.rows[id := row]), cfg)
  {
    var h := g.(rows := g.rows[id := row]);
    forall i | 0 <= i < |h.callbacks|
      ensures IsRight(h, h.callbacks[i], cfg)
    {
      assert IsRight(g, g.callbacks[i], cfg);
    }
  }

  lemma StepIsRight(s: System, e: Event, cfg: Config)
    requires Inv(s) && Enabled(s, e) && AllRight(s.g, cfg)
    ensures AllRight(Apply(s, e, cfg).g, cfg)
  {
    hide AllRight, UpdateAndNotify, CallsOk, RowFits, CallbacksOk, IsTerminal, SentPatch, FailurePatch,
      RouteFailedPatch;
    match e
    case Request(id, row, insertOk, addOk, db, queueOk, message) =>
      SentIsNotTerminalElsewhere();
      if insertOk {
        InsertIsRight(s.g, id, row, cfg);
      }
      if !(insertOk && addOk) {
        var g := if insertOk then s.g.(rows := s.g.rows[id := row]) else s.g;
        UpdateIsRight(g, id, RouteFailedPatch(message), cfg, db, queueOk);
      }
    case LogSent(j, now, db, queueOk) =>
      NotTerminalYet(s, j);
      var job := s.jobs[j];
      UpdateIsRight(s.g, job.logId, SentPatch(now, job.phase.reference, job.phase.modemId), cfg, db, queueOk);
    case LogFailed(j, db, queueOk) =>
      NotTerminalYet(s, j);
      var job := s.jobs[j];
      UpdateIsRight(s.g, job.logId, FailurePatch(job.phase.err, job.attemptsMade), cfg, db, queueOk);
    case _ =>
  }

  lemma {:induction false} RunsAreRight(s: System, events: seq<Event>, cfg: Config)
    requires Inv(s) && AllRight(s.g, cfg)
    ensures AllRight(Run(s, events, cfg).g, cfg)
    decreases |events|
  {
    hide Inv, Enabled, Apply, AllRight;
    if events != [] {
      if Enabled(s, events[0]) {
        StepIsRight(s, events[0], cfg);
        StepKeepsInv(s, events[0], cfg);
        RunsAreRight(Apply(s, events[0], cfg), events[1..], cfg);
      } else {
        RunsAreRight(s, events[1..], cfg);
      }
    }
  }

  /**
    In every run every callback goes to the address its message names, or else to the default, which
    must be allowed; a terminal status it tells is the row's for good, and `retrying` is told only
    where that is configured.
   */
  lemma CallbacksAreRight(events: seq<Event>, cfg: Config)
    ensures AllRight(Run(Initial(), events, cfg).g, cfg)
  {
    hide Run, IsRight;
    InitiallyInv();
    RunsAreRight(Initial(), events, cfg);
  }
}
