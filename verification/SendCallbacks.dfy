/** Which messages are announced: the terminal callbacks of every run of SendLifecycle, counted exactly. */
module SendCallbacks {
  import opened Wrappers
  import opened LogStore
  import opened SendGateway
  import opened SendLifecycle

  predicate CallsFor(g: Gateway, id: nat, cfg: Config) {
    id in g.rows && IsTerminal(StatusOf(g, id)) && ShouldCall(g.rows[id], cfg)
  }

  /** The row was read back after its update, and the queue took the callback. */
  predicate IsNoticed(e: Event) {
    match e
    case Request(_, _, _, _, db, queueOk, _) => db == Works && queueOk
    case LogSent(_, _, db, queueOk) => db == Works && queueOk
    case LogFailed(_, db, queueOk) => db == Works && queueOk
    case _ => true
  }

  /** The event of a run that makes the message's row terminal. */
  function SettlingEvent(s: System, events: seq<Event>, cfg: Config, id: nat): Option<Event>
    decreases |events|
  {
    if events == [] || IsTerminal(StatusOf(s.g, id)) then None
    else if !Enabled(s, events[0]) then SettlingEvent(s, events[1..], cfg, id)
    else
      var t := Apply(s, events[0], cfg);
      if IsTerminal(StatusOf(t.g, id)) then Some(events[0]) else SettlingEvent(t, events[1..], cfg, id)
  }

  /** What an event does for one message: nothing, or an update of its row with its callback. */
  ghost predicate Touches(g: Gateway, h: Gateway, e: Event, cfg: Config, id: nat) {
    && (IsTerminal(StatusOf(g, id)) ==>
          id in h.rows && h.rows[id] == g.rows[id] &&
          TerminalCallbacks(h.callbacks, id) == TerminalCallbacks(g.callbacks, id))
    && (!IsTerminal(StatusOf(g, id)) && IsTerminal(StatusOf(h, id)) ==>
          TerminalCallbacks(h.callbacks, id) ==
          TerminalCallbacks(g.callbacks, id) + if IsNoticed(e) && CallsFor(h, id, cfg) then 1 else 0)
  }

  lemma UpdateAnnounces(
    g: Gateway, id: nat, patch: map<Field, Option<string>>, cfg: Config, db: Db, queueOk: bool)
    requires !IsTerminal(StatusOf(g, id))
    ensures var h := UpdateAndNotify(g, id, patch, cfg, db, queueOk);
            IsTerminal(StatusOf(h, id)) ==>
              h.callbacks == if db == Works && queueOk && CallsFor(h, id, cfg)
                             then g.callbacks + [Callback(id, StatusOf(h, id), CallbackTarget(h.rows[id], cfg))]
                             else g.callbacks
  {
  }

  lemma UpdateTouches(
    g: Gateway, e: Event, k: nat, patch: map<Field, Option<string>>, cfg: Config, db: Db, queueOk: bool, id: nat)
    requires !IsTerminal(StatusOf(g, k)) && (IsNoticed(e) <==> db == Works && queueOk)
    ensures Touches(g, UpdateAndNotify(g, k, patch, cfg, db, queueOk), e, cfg, id)
  {
    hide UpdateAndNotify, IsTerminal, Patched, TerminalCallbacks, ShouldCall;
    SentIsNotTerminalElsewhere();
    UpdateEffect(g, k, patch, cfg, db, queueOk);
    UpdateAnnounces(g, k, patch, cfg, db, queueOk);
    var h := UpdateAndNotify(g, k, patch, cfg, db, queueOk);
    if h.callbacks != g.callbacks {
      OneMoreCallback(g.callbacks, Callback(k, StatusOf(h, k), CallbackTarget(h.rows[k], cfg)), id);
    }
  }

  lemma RequestTouches(s: System, e: Event, cfg: Config, id: nat)
    requires Inv(s) && Enabled(s, e) && e.Request?
    ensures Touches(s.g, Apply(s, e, cfg).g, e, cfg, id)
  {
    hide Touches, UpdateAndNotify, IsTerminal, TerminalCallbacks, RouteFailedPatch, IsNewRow, Inv, ShouldCall;
    SentIsNotTerminalElsewhere();
    var inserted := if e.insertOk then s.g.(rows := s.g.rows[e.id := e.row]) else s.g;
    if e.insertOk {
      InsertKeepsInv(s, e.id, e.row);
    }
    InsertTouches(s.g, inserted, e, cfg, id);
    if !(e.insertOk && e.addOk) {
      UpdateTouches(inserted, e, e.id, RouteFailedPatch(e.message), cfg, e.db, e.queueOk, id);
      TouchesBehindInsert(s.g, inserted, Apply(s, e, cfg).g, e, cfg, id);
    }
  }

  lemma InsertTouches(g: Gateway, h: Gateway, e: Event, cfg: Config, id: nat)
    requires e.Request? && e.id !in g.rows && IsNewRow(e.row)
    requires h == if e.insertOk then g.(rows := g.rows[e.id := e.row]) else g
    ensures Touches(g, h, e, cfg, id)
    ensures IsTerminal(StatusOf(h, id)) <==> IsTerminal(StatusOf(g, id))
  {
    hide TerminalCallbacks, ShouldCall, IsTerminal;
    SentIsNotTerminalElsewhere();
  }

  lemma TouchesBehindInsert(f: Gateway, g: Gateway, h: Gateway, e: Event, cfg: Config, id: nat)
    requires Touches(f, g, e, cfg, id) && Touches(g, h, e, cfg, id)
    requires IsTerminal(StatusOf(g, id)) <==> IsTerminal(StatusOf(f, id))
    requires f.callbacks == g.callbacks
    ensures Touches(f, h, e, cfg, id)
  {
    hide TerminalCallbacks, ShouldCall, IsTerminal;
  }

  lemma StepTouches(s: System, e: Event, cfg: Config, id: nat)
    requires Inv(s) && Enabled(s, e)
    ensures Touches(s.g, Apply(s, e, cfg).g, e, cfg, id)
  {
    hide Touches, UpdateAndNotify, IsTerminal, CallsOk, RowFits, SentPatch, FailurePatch, RowsOk, CallbacksOk, IsNewRow;
    match e
    case Request(_, _, _, _, _, _, _) => RequestTouches(s, e, cfg, id);
    case LogSent(j, now, db, queueOk) =>
      NotTerminalYet(s, j);
      var job := s.jobs[j];
      var patch := SentPatch(now, job.phase.reference, job.phase.modemId);
      UpdateTouches(s.g, e, job.logId, patch, cfg, db, queueOk, id);
    case LogFailed(j, db, queueOk) =>
      NotTerminalYet(s, j);
      var patch := FailurePatch(s.jobs[j].phase.err, s.jobs[j].attemptsMade);
      UpdateTouches(s.g, e, s.jobs[j].logId, patch, cfg, db, queueOk, id);
    case _ => NothingTouches(s.g, e, cfg, id);
  }

  lemma NothingTouches(g: Gateway, e: Event, cfg: Config, id: nat)
    ensures Touches(g, g, e, cfg, id)
  {
    hide TerminalCallbacks, ShouldCall, IsTerminal;
    SentIsNotTerminalElsewhere();
  }

  lemma {:induction false} SettledStays(s: System, events: seq<Event>, cfg: Config, id: nat)
    requires Inv(s) && IsTerminal(StatusOf(s.g, id))
    ensures var g := Run(s, events, cfg).g;
            && id in g.rows && g.rows[id] == s.g.rows[id]
            && TerminalCallbacks(g.callbacks, id) == TerminalCallbacks(s.g.callbacks, id)
    decreases |events|
  {
    hide Inv, Enabled, Apply, TerminalCallbacks, IsTerminal;
    SentIsNotTerminalElsewhere();
    if events != [] {
      if Enabled(s, events[0]) {
        StepTouches(s, events[0], cfg, id);
        StepKeepsInv(s, events[0], cfg);
        SettledStays(Apply(s, events[0], cfg), events[1..], cfg, id);
      } else {
        SettledStays(s, events[1..], cfg, id);
      }
    }
  }

  lemma {:induction false} CallbacksFromHere(s: System, events: seq<Event>, cfg: Config, id: nat)
    requires Inv(s) && !IsTerminal(StatusOf(s.g, id))
    ensures var g := Run(s, events, cfg).g;
            var settling := SettlingEvent(s, events, cfg, id);
            && (settling.None? <==> !IsTerminal(StatusOf(g, id)))
            && TerminalCallbacks(g.callbacks, id) ==
               if CallsFor(g, id, cfg) && settling.Some? && IsNoticed(settling.value) then 1 else 0
    decreases |events|
  {
    hide Inv, Enabled, Apply, TerminalCallbacks, IsTerminal, ShouldCall, IsNoticed;
    SentIsNotTerminalElsewhere();
    NoCallbackYet(s, id);
    if events != [] {
      if Enabled(s, events[0]) {
        var t := Apply(s, events[0], cfg);
        StepTouches(s, events[0], cfg, id);
        StepKeepsInv(s, events[0], cfg);
        if IsTerminal(StatusOf(t.g, id)) {
          SettledStays(t, events[1..], cfg, id);
        } else {
          CallbacksFromHere(t, events[1..], cfg, id);
        }
      } else {
        CallbacksFromHere(s, events[1..], cfg, id);
      }
    }
  }

  lemma NoCallbackYet(s: System, id: nat)
    requires Inv(s) && !IsTerminal(StatusOf(s.g, id))
    ensures TerminalCallbacks(s.g.callbacks, id) == 0
  {
    hide TerminalCallbacks, IsTerminal, JobsOk, RowsOk;
    assert TerminalCallbacks(s.g.callbacks, id) <= if IsTerminal(StatusOf(s.g, id)) then 1 else 0;
  }

  /**
    The terminal callbacks of a message in any run, counted exactly. There is one if its row is
    terminal, its target is allowed, and the update that made it terminal was read back and its
    callback taken by the queue; in every other case there is none.
   */
  lemma TerminalCallbacksAreExact(events: seq<Event>, cfg: Config, id: nat)
    ensures var g := Run(Initial(), events, cfg).g;
            var settling := SettlingEvent(Initial(), events, cfg, id);
            && (settling.Some? <==> IsTerminal(StatusOf(g, id)))
            && TerminalCallbacks(g.callbacks, id) ==
               if CallsFor(g, id, cfg) && settling.Some? && IsNoticed(settling.value) then 1 else 0
  {
    hide Run, TerminalCallbacks, SettlingEvent, CallsFor, IsNoticed, ShouldCall;
    InitiallyInv();
    SentIsNotTerminalElsewhere();
    CallbacksFromHere(Initial(), events, cfg, id);
  }

  /** A message is sent, and the row that says so cannot be read back. */
  function SilentSendRun(row: Row, picked: string, now: string): seq<Event> {
    [Configure({picked}), Request(0, row, true, true, Works, true, ""), Begin(0, picked), Sent(0, None),
     LogSent(0, now, ReadBackFails, true)]
  }

  /** The run that shows it: the row says `sent`, the queue took all it was given, and nobody is told. */
  lemma SentWithoutCallback(row: Row, picked: string, now: string, cfg: Config)
    requires IsNewRow(row) && row[ModemId] == None
    ensures var g := Run(Initial(), SilentSendRun(row, picked, now), cfg).g;
            StatusOf(g, 0) == Some("sent") && g.callbacks == []
  {
    hide Run, Notify, IsNewRow;
    var e0, e1 := Configure({picked}), Request(0, row, true, true, Works, true, "");
    var e2, e3, e4 := Begin(0, picked), Sent(0, None), LogSent(0, now, ReadBackFails, true);
    var s1 := Apply(Initial(), e0, cfg);
    var s2 := Apply(s1, e1, cfg);
    var s3 := Apply(s2, e2, cfg);
    var s4 := Apply(s3, e3, cfg);
    RunStep(Initial(), e0, [e1, e2, e3, e4], cfg);
    RunStep(s1, e1, [e2, e3, e4], cfg);
    RunStep(s2, e2, [e3, e4], cfg);
    RunStep(s3, e3, [e4], cfg);
    RunStep(s4, e4, [], cfg);
    assert SilentSendRun(row, picked, now) == [e0] + [e1, e2, e3, e4];
    assert [e1, e2, e3, e4] == [e1] + [e2, e3, e4] && [e2, e3, e4] == [e2] + [e3, e4];
    assert [e3, e4] == [e3] + [e4] && [e4] == [e4] + [];
    NothingMoreToRun(Apply(s4, e4, cfg), cfg);
    SentStatusUnread(s4.g, row, picked, now, cfg);
  }

  lemma SentStatusUnread(g: Gateway, row: Row, modemId: string, now: string, cfg: Config)
    requires IsNewRow(row) && 0 in g.rows && g.rows[0] == row
    ensures var h := UpdateAndNotify(g, 0, SentPatch(now, None, modemId), cfg, ReadBackFails, true);
            StatusOf(h, 0) == Some("sent") && h.callbacks == g.callbacks
  {
  }
}
