/** The status of a message as a function of its job, in every run of SendLifecycle whose updates are committed. */
module SendStatus {
  import opened Wrappers
  import opened LogStore
  import opened SendGateway
  import opened SendLifecycle

  /** Its update is committed; whether it can be read back does not matter to the table. */
  predicate Commits(e: Event) {
    match e
    case Request(_, _, _, _, db, _, _) => db != WriteFails
    case LogSent(_, _, db, _) => db != WriteFails
    case LogFailed(_, db, _) => db != WriteFails
    case _ => true
  }

  /** Attempts whose outcome has been written to the row. */
  function Handled(job: Job): int {
    if job.phase.Failing? then job.attemptsMade - 1 else job.attemptsMade
  }

  function ExpectedStatus(job: Job): string {
    match job.phase
    case Completed => "sent"
    case Dead => if EndsUnrecoverable(job) then "unconfirmed" else "failed"
    case _ => if Handled(job) == 0 then "pending" else "retrying"
  }

  predicate StatusTracks(s: System, j: nat)
    requires j < |s.jobs|
  {
    StatusOf(s.g, s.jobs[j].logId) == Some(ExpectedStatus(s.jobs[j]))
  }

  predicate AllTrack(s: System) {
    forall j :: 0 <= j < |s.jobs| ==> StatusTracks(s, j)
  }

  lemma SilentKeepsStatus(job: Job, e: Event, pool: set<string>)
    requires CallsOk(job) && IsSilent(e) && MayMove(job, e)
    ensures ExpectedStatus(NextJob(job, e, pool)) == ExpectedStatus(job)
  {
  }

  lemma PatchedStatus(row: Row, patch: map<Field, Option<string>>)
    requires Status in row && Status in patch
    ensures FieldOf(Patched(row, patch), Status) == patch[Status]
  {
  }

  lemma FailureStatus(job: Job, e: Event, pool: set<string>)
    requires CallsOk(job) && job.phase.Failing? && e.LogFailed?
    ensures Status in FailurePatch(job.phase.err, job.attemptsMade)
    ensures FailurePatch(job.phase.err, job.attemptsMade)[Status] == Some(ExpectedStatus(NextJob(job, e, pool)))
  {
  }

  /** The job and its row move together; every other row stays. */
  lemma LoggingTracks(
    s: System, j: nat, next: Job, patch: map<Field, Option<string>>, cfg: Config, db: Db, queueOk: bool)
    requires db != WriteFails && JobsOk(s) && RowsOk(s) && AllTrack(s) && j < |s.jobs| && next.logId == s.jobs[j].logId
    requires Status in patch && patch[Status] == Some(ExpectedStatus(next))
    ensures AllTrack(s.(g := UpdateAndNotify(s.g, next.logId, patch, cfg, db, queueOk), jobs := s.jobs[j := next]))
  {
    hide CallsOk, RowFits, ExpectedStatus, Notify, Patched;
    PatchedStatus(s.g.rows[next.logId], patch);
    NotifyKeepsRows(s.g, next.logId, patch, cfg, db, queueOk);
    var t := s.(g := UpdateAndNotify(s.g, next.logId, patch, cfg, db, queueOk), jobs := s.jobs[j := next]);
    forall k | 0 <= k < |t.jobs|
      ensures StatusTracks(t, k)
    {
      assert StatusTracks(s, k);
      assert k != j ==> s.jobs[k].logId != next.logId;
    }
  }

  lemma NotifyKeepsRows(g: Gateway, id: nat, patch: map<Field, Option<string>>, cfg: Config, db: Db, queueOk: bool)
    requires id in g.rows && db != WriteFails
    ensures UpdateAndNotify(g, id, patch, cfg, db, queueOk).rows == g.rows[id := Patched(g.rows[id], patch)]
  {
  }

  lemma RequestTracks(s: System, e: Event, cfg: Config)
    requires Inv(s) && AllTrack(s) && Enabled(s, e) && e.Request?
    ensures AllTrack(Apply(s, e, cfg))
  {
    hide CallsOk, RowFits, Inv, UpdateAndNotify, RouteFailedPatch;
    var t := Apply(s, e, cfg);
    var inserted := if e.insertOk then s.g.(rows := s.g.rows[e.id := e.row]) else s.g;
    UpdateEffect(inserted, e.id, RouteFailedPatch(e.message), cfg, e.db, e.queueOk);
    forall k | 0 <= k < |t.jobs|
      ensures StatusTracks(t, k)
    {
      assert k < |s.jobs| ==> StatusTracks(s, k);
    }
  }

  lemma StepTracks(s: System, e: Event, cfg: Config)
    requires Inv(s) && AllTrack(s) && Enabled(s, e) && Commits(e)
    ensures AllTrack(Apply(s, e, cfg))
  {
    hide AllTrack, UpdateAndNotify, CallsOk, RowFits, SentPatch, FailurePatch, RowsOk, CallbacksOk, ExpectedStatus;
    match e
    case Request(_, _, _, _, _, _, _) => RequestTracks(s, e, cfg);
    case LogSent(j, now, db, queueOk) =>
      var job := s.jobs[j];
      SentStatus(now, job, e, s.pool);
      LoggingTracks(
        s, j, NextJob(job, e, s.pool), SentPatch(now, job.phase.reference, job.phase.modemId), cfg, db, queueOk);
    case LogFailed(j, db, queueOk) =>
      var job := s.jobs[j];
      FailureStatus(job, e, s.pool);
      LoggingTracks(s, j, NextJob(job, e, s.pool), FailurePatch(job.phase.err, job.attemptsMade), cfg, db, queueOk);
    case Configure(_) => ConfigureTracks(s, e, cfg);
    case _ => SilentTracks(s, e, cfg);
  }

  lemma SentStatus(now: string, job: Job, e: Event, pool: set<string>)
    requires job.phase.Delivered? && e.LogSent?
    ensures Status in SentPatch(now, job.phase.reference, job.phase.modemId)
    ensures SentPatch(now, job.phase.reference, job.phase.modemId)[Status] ==
            Some(ExpectedStatus(NextJob(job, e, pool)))
  {
  }

  lemma ConfigureTracks(s: System, e: Event, cfg: Config)
    requires AllTrack(s) && e.Configure?
    ensures AllTrack(Apply(s, e, cfg))
  {
    hide ExpectedStatus, StatusOf;
    forall k | 0 <= k < |s.jobs|
      ensures StatusTracks(Apply(s, e, cfg), k)
    {
      assert StatusTracks(s, k);
    }
  }

  lemma SilentTracks(s: System, e: Event, cfg: Config)
    requires Inv(s) && AllTrack(s) && Enabled(s, e) && IsSilent(e)
    ensures AllTrack(Apply(s, e, cfg))
  {
    hide RowFits, CallsOk, RowsOk, CallbacksOk, ExpectedStatus, StatusOf;
    SilentKeepsStatus(s.jobs[e.job], e, s.pool);
    CallsStayOk(s.jobs[e.job], e, s.pool);
    var t := Apply(s, e, cfg);
    forall k | 0 <= k < |t.jobs|
      ensures StatusTracks(t, k)
    {
      assert StatusTracks(s, k);
    }
  }

  lemma {:induction false} RunsTrack(s: System, events: seq<Event>, cfg: Config)
    requires Inv(s) && AllTrack(s) && forall i :: 0 <= i < |events| ==> Commits(events[i])
    ensures AllTrack(Run(s, events, cfg))
    decreases |events|
  {
    hide Inv, Enabled, Apply, AllTrack, Commits;
    if events != [] {
      if Enabled(s, events[0]) {
        StepTracks(s, events[0], cfg);
        StepKeepsInv(s, events[0], cfg);
        RunsTrack(Apply(s, events[0], cfg), events[1..], cfg);
      } else {
        RunsTrack(s, events[1..], cfg);
      }
    }
  }

  /**
    In every run whose updates are all committed the status is exactly what the job has been through:
    `pending` before its first attempt has ended, `retrying` between attempts, `sent` once a call
    was accepted, `unconfirmed` or `failed` when it has ended otherwise.
   */
  lemma StatusIsTheJobs(events: seq<Event>, cfg: Config, j: nat)
    requires forall i :: 0 <= i < |events| ==> Commits(events[i])
    requires j < |Run(Initial(), events, cfg).jobs|
    ensures StatusTracks(Run(Initial(), events, cfg), j)
  {
    hide Run, StatusTracks, Commits;
    InitiallyInv();
    RunsTrack(Initial(), events, cfg);
  }
}
