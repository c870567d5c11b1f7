/**
  What holds of every message in every run of SendLifecycle: how often a modem is called, what can
  never change again, and what the statuses mean.
 */
module SendOutcomes {
  import opened Wrappers
  import opened LogStore
  import opened SendGateway
  import opened SendLifecycle

  /**
    The modem is asked at most three times for a job, and a success or a confirmation timeout is
    its last call: everything before it was refused.
   */
  lemma AtMostThreeSends(events: seq<Event>, cfg: Config, j: nat)
    requires j < |Run(Initial(), events, cfg).jobs|
    ensures var calls := Run(Initial(), events, cfg).jobs[j].calls;
            && |calls| <= 3
            && forall i :: 0 <= i < |calls| - 1 ==> calls[i] == Rejected
  {
    hide Run;
    Reachable(events, cfg);
    var job := Run(Initial(), events, cfg).jobs[j];
    assert CallsOk(job);
    if job.calls != [] {
      var before := job.calls[..|job.calls| - 1];
      assert forall i :: 0 <= i < |before| ==> before[i] == job.calls[i];
    }
  }

  /** What later events can never do. */
  ghost predicate Preserves(s: System, t: System) {
    && (forall id :: id in s.g.rows ==> id in t.g.rows)
    && (forall id, f :: id in s.g.rows && f !in PATCHABLE ==>
          FieldOf(t.g.rows[id], f) == FieldOf(s.g.rows[id], f))
    && (forall id :: id in s.g.rows && IsTerminal(StatusOf(s.g, id)) ==> t.g.rows[id] == s.g.rows[id])
    && |s.jobs| <= |t.jobs|
    && (forall j :: 0 <= j < |s.jobs| ==>
          && t.jobs[j].logId == s.jobs[j].logId
          && s.jobs[j].calls <= t.jobs[j].calls
          && (s.jobs[j].calls != [] && s.jobs[j].calls[|s.jobs[j].calls| - 1] != Rejected ==>
                t.jobs[j].calls == s.jobs[j].calls))
  }

  lemma PatchedKeepsOthers(row: Row, patch: map<Field, Option<string>>, f: Field)
    requires f !in PATCHABLE
    ensures FieldOf(Patched(row, patch), f) == FieldOf(row, f)
  {
  }

  lemma UpdatePreserves(s: System, id: nat, patch: map<Field, Option<string>>, cfg: Config, db: Db, queueOk: bool)
    requires !IsTerminal(StatusOf(s.g, id))
    ensures Preserves(s, s.(g := UpdateAndNotify(s.g, id, patch, cfg, db, queueOk)))
  {
    hide UpdateAndNotify, IsTerminal, Patched, FieldOf;
    UpdateEffect(s.g, id, patch, cfg, db, queueOk);
    var h := UpdateAndNotify(s.g, id, patch, cfg, db, queueOk);
    forall k, f | k in s.g.rows && f !in PATCHABLE
      ensures FieldOf(h.rows[k], f) == FieldOf(s.g.rows[k], f)
    {
      PatchedKeepsOthers(s.g.rows[k], patch, f);
    }
  }

  lemma JobPreserves(s: System, j: nat, next: Job)
    requires j < |s.jobs| && next.logId == s.jobs[j].logId && s.jobs[j].calls <= next.calls
    requires s.jobs[j].calls != [] && s.jobs[j].calls[|s.jobs[j].calls| - 1] != Rejected ==>
               next.calls == s.jobs[j].calls
    ensures Preserves(s, s.(jobs := s.jobs[j := next]))
  {
    hide FieldOf, IsTerminal;
  }

  lemma PreservesTwice(s: System, t: System, u: System)
    requires Preserves(s, t) && Preserves(t, u)
    ensures Preserves(s, u)
  {
    hide IsTerminal;
    forall j | 0 <= j < |s.jobs|
      ensures s.jobs[j].calls <= u.jobs[j].calls
    {
      assert t.jobs[j].calls <= u.jobs[j].calls;
    }
  }

  lemma LastCallIsFinal(job: Job, e: Event)
    requires CallsOk(job) && job.phase.Active?
    ensures job.calls == [] || job.calls[|job.calls| - 1] == Rejected
  {
  }

  lemma LoggingPreserves(s: System, e: Event, patch: map<Field, Option<string>>, cfg: Config, db: Db, queueOk: bool)
    requires JobsOk(s) && Enabled(s, e) && (e.LogSent? || e.LogFailed?)
    ensures var job := s.jobs[e.job];
            var g := UpdateAndNotify(s.g, job.logId, patch, cfg, db, queueOk);
            Preserves(s, s.(g := g, jobs := s.jobs[e.job := NextJob(job, e, s.pool)]))
  {
    hide IsTerminal, CallsOk, RowFits, UpdateAndNotify, FieldOf, JobsOk;
    var job := s.jobs[e.job];
    NotTerminalYet(s, e.job);
    UpdatePreserves(s, job.logId, patch, cfg, db, queueOk);
    var t := s.(g := UpdateAndNotify(s.g, job.logId, patch, cfg, db, queueOk));
    JobPreserves(t, e.job, NextJob(job, e, s.pool));
    PreservesTwice(s, t, t.(jobs := t.jobs[e.job := NextJob(job, e, s.pool)]));
  }

  lemma RequestPreserves(s: System, e: Event, cfg: Config)
    requires Inv(s) && Enabled(s, e) && e.Request?
    ensures Preserves(s, Apply(s, e, cfg))
  {
    hide IsTerminal, UpdateAndNotify, RouteFailedPatch, IsNewRow, FieldOf, Inv;
    var Request(id, row, insertOk, addOk, db, queueOk, message) := e;
    SentIsNotTerminalElsewhere();
    if !insertOk {
      UpdatePreserves(s, id, RouteFailedPatch(message), cfg, db, queueOk);
    } else {
      var t := s.(g := s.g.(rows := s.g.rows[id := row]));
      InsertPreserves(s, id, row);
      InsertKeepsInv(s, id, row);
      if !addOk {
        UpdatePreserves(t, id, RouteFailedPatch(message), cfg, db, queueOk);
        PreservesTwice(s, t, Apply(s, e, cfg));
      }
    }
  }

  lemma InsertPreserves(s: System, id: nat, row: Row)
    requires id !in s.g.rows
    ensures Preserves(s, s.(g := s.g.(rows := s.g.rows[id := row])))
  {
    hide IsTerminal;
  }

  lemma StepPreserves(s: System, e: Event, cfg: Config)
    requires Inv(s) && Enabled(s, e)
    ensures Preserves(s, Apply(s, e, cfg))
  {
    hide IsTerminal, CallsOk, RowFits, UpdateAndNotify, SentPatch, FailurePatch, RouteFailedPatch, IsNewRow;
    match e
    case Request(_, _, _, _, _, _, _) => RequestPreserves(s, e, cfg);
    case LogSent(j, now, db, queueOk) =>
      LoggingPreserves(s, e, SentPatch(now, s.jobs[j].phase.reference, s.jobs[j].phase.modemId), cfg, db, queueOk);
    case LogFailed(j, db, queueOk) =>
      LoggingPreserves(s, e, FailurePatch(s.jobs[j].phase.err, s.jobs[j].attemptsMade), cfg, db, queueOk);
    case Configure(_) => PreservesItself(s);
    case _ =>
      if s.jobs[e.job].phase.Active? {
        LastCallIsFinal(s.jobs[e.job], e);
      }
      JobPreserves(s, e.job, NextJob(s.jobs[e.job], e, s.pool));
  }

  lemma {:induction false} RunPreserves(s: System, events: seq<Event>, cfg: Config)
    requires Inv(s)
    ensures Preserves(s, Run(s, events, cfg))
    decreases |events|
  {
    hide Inv, Enabled, Apply, Preserves;
    if events == [] {
      PreservesItself(s);
    } else if Enabled(s, events[0]) {
      var t := Apply(s, events[0], cfg);
      StepKeepsInv(s, events[0], cfg);
      StepPreserves(s, events[0], cfg);
      RunPreserves(t, events[1..], cfg);
      PreservesTwice(s, t, Run(s, events, cfg));
    } else {
      RunPreserves(s, events[1..], cfg);
    }
  }

  lemma PreservesItself(s: System)
    ensures Preserves(s, s)
  {
    hide IsTerminal, FieldOf;
  }

  /**
    `sent`, `failed` and `unconfirmed` are absorbing: from the moment a row says one of them, no
    continuation of the run changes anything in it. Columns outside the whitelist never change at
    all, and after a success or a confirmation timeout the modem is never asked again.
   */
  lemma TerminalIsForever(events: seq<Event>, more: seq<Event>, cfg: Config)
    ensures Preserves(Run(Initial(), events, cfg), Run(Initial(), events + more, cfg))
  {
    hide Run, Preserves;
    Reachable(events, cfg);
    RunInTwo(Initial(), events, more, cfg);
    RunPreserves(Run(Initial(), events, cfg), more, cfg);
  }

  /**
    What the final statuses mean. `sent`: the last call was accepted, with the reference, a time
    and no error. `failed` with a job: three calls, all refused. `unconfirmed`: the last attempt
    ended in a confirmation timeout or did not find the pinned modem.
   */
  lemma StatusTellsTheOutcome(events: seq<Event>, cfg: Config, j: nat)
    requires j < |Run(Initial(), events, cfg).jobs|
    ensures var s := Run(Initial(), events, cfg);
            && s.jobs[j].logId in s.g.rows
            && RowFits(s.g.rows[s.jobs[j].logId], s.jobs[j])
  {
    hide Run, RowFits;
    Reachable(events, cfg);
  }

  /** A row says `sent` only if a job of the message was accepted by a modem. */
  lemma SentNeedsAJob(events: seq<Event>, cfg: Config, id: nat)
    requires StatusOf(Run(Initial(), events, cfg).g, id) == Some("sent")
    ensures var s := Run(Initial(), events, cfg);
            exists j :: 0 <= j < |s.jobs| && s.jobs[j].logId == id && s.jobs[j].phase == Completed
  {
    hide Run, CallsOk;
    Reachable(events, cfg);
    var s := Run(Initial(), events, cfg);
    var j :| 0 <= j < |s.jobs| && s.jobs[j].logId == id;
    assert RowFits(s.g.rows[id], s.jobs[j]);
  }

  /** A failed attempt writes `retrying` exactly if the job can begin another attempt next, with any modem there is. */
  lemma RetryingMeansAnotherAttempt(events: seq<Event>, cfg: Config, e: Event, picked: string)
    requires e.LogFailed? && Enabled(Run(Initial(), events, cfg), e) && picked in Run(Initial(), events, cfg).pool
    ensures var s := Run(Initial(), events, cfg);
            var job := s.jobs[e.job];
            FailurePatch(job.phase.err, job.attemptsMade)[Status] == Some("retrying") <==>
            Enabled(Apply(s, e, cfg), Begin(e.job, picked))
  {
    hide Run, UpdateAndNotify;
    Reachable(events, cfg);
    StatusesDiffer();
    assert CallsOk(Run(Initial(), events, cfg).jobs[e.job]);
  }

  /** At most one terminal callback per message, and none before its row is terminal. */
  lemma AtMostOneTerminalCallback(events: seq<Event>, cfg: Config, id: nat)
    ensures var g := Run(Initial(), events, cfg).g;
            TerminalCallbacks(g.callbacks, id) <= if IsTerminal(StatusOf(g, id)) then 1 else 0
  {
    hide Run, JobsOk, RowsOk;
    Reachable(events, cfg);
  }

  /** A call of a modem ended without a confirmation: the message may be with the network. */
  predicate HandedOver(job: Job) {
    exists i :: 0 <= i < |job.calls| && job.calls[i] == ConfirmTimeout
  }

  /**
    `unconfirmed` does not always mean that the message was handed over: it does exactly if the job
    was not pinned, or its modem was configured when the last attempt began.
   */
  lemma UnconfirmedIsHandedOverIffModemFound(events: seq<Event>, cfg: Config, j: nat)
    requires j < |Run(Initial(), events, cfg).jobs|
    requires var s := Run(Initial(), events, cfg); StatusOf(s.g, s.jobs[j].logId) == Some("unconfirmed")
    ensures var job := Run(Initial(), events, cfg).jobs[j];
            HandedOver(job) <==> job.pinned.None? || job.pinned.value in job.begunIn
  {
    hide Run;
    Reachable(events, cfg);
    var s := Run(Initial(), events, cfg);
    var job := s.jobs[j];
    assert RowFits(s.g.rows[job.logId], job);
    if FoundItsModem(job) {
      assert job.calls[|job.calls| - 1] == ConfirmTimeout;
    }
  }

  /** A message pinned to `modem` is accepted, and `modem` is gone when its turn comes. */
  function ModemRemovedRun(row: Row, modem: string): seq<Event> {
    [Configure({modem}), Request(0, row, true, true, Works, true, ""), Configure({}), Begin(0, ""),
     LogFailed(0, Works, true)]
  }

  /** The run that shows it: the row says `unconfirmed` and no modem was ever called. */
  lemma UnconfirmedWithoutASend(row: Row, modem: string, cfg: Config)
    requires IsNewRow(row) && row[ModemId] == Some(modem)
    ensures var s := Run(Initial(), ModemRemovedRun(row, modem), cfg);
            |s.jobs| == 1 && s.jobs[0].calls == [] && StatusOf(s.g, 0) == Some("unconfirmed")
  {
    hide Run, Notify, IsNewRow;
    var e0, e1 := Configure({modem}), Request(0, row, true, true, Works, true, "");
    var e2, e3, e4 := Configure({}), Begin(0, ""), LogFailed(0, Works, true);
    var s1 := Apply(Initial(), e0, cfg);
    var s2 := Apply(s1, e1, cfg);
    var s3 := Apply(s2, e2, cfg);
    var s4 := Apply(s3, e3, cfg);
    RunStep(Initial(), e0, [e1, e2, e3, e4], cfg);
    RunStep(s1, e1, [e2, e3, e4], cfg);
    RunStep(s2, e2, [e3, e4], cfg);
    RunStep(s3, e3, [e4], cfg);
    RunStep(s4, e4, [], cfg);
    assert ModemRemovedRun(row, modem) == [e0] + [e1, e2, e3, e4];
    assert [e1, e2, e3, e4] == [e1] + [e2, e3, e4] && [e2, e3, e4] == [e2] + [e3, e4];
    assert [e3, e4] == [e3] + [e4] && [e4] == [e4] + [];
    NothingMoreToRun(Apply(s4, e4, cfg), cfg);
    UnconfirmedStatus(s4.g, row, "Unknown modem \"" + modem + "\"", cfg);
  }

  lemma UnconfirmedStatus(g: Gateway, row: Row, message: string, cfg: Config)
    requires IsNewRow(row) && 0 in g.rows && g.rows[0] == row
    ensures StatusOf(UpdateAndNotify(g, 0, FailurePatch(Unrecoverable(message), 1), cfg, Works, true), 0) ==
            Some("unconfirmed")
  {
    UpdateEffect(g, 0, FailurePatch(Unrecoverable(message), 1), cfg, Works, true);
  }
}
