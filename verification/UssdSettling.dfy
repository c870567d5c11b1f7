/** When a settled row of UssdLifecycle can still change: exactly where reading it back has thrown. */
module UssdSettling {
  import opened Wrappers
  import opened UssdStore
  import opened UssdLifecycle

  lemma {:induction false} UnattendedStays(s: System, events: seq<Event>, i: nat)
    requires Inv(s) && i < |s.rows| && !WorkedOn(s, s.rows[i].id)
    ensures i < |Run(s, events).rows| && Run(s, events).rows[i] == s.rows[i]
    decreases |events|
  {
    hide Inv, Enabled, Apply, WorkedOn;
    if events != [] {
      if Enabled(s, events[0]) {
        StepKeepsInv(s, events[0]);
        UnattendedStays(Apply(s, events[0]), events[1..], i);
      } else {
        UnattendedStays(s, events[1..], i);
      }
    }
  }

  /** How many events a session is away from its last write if everything fails from here on. */
  function EventsToLastWrite(x: Session): nat {
    match x.phase
    case Failing(err) => if x.live || IsFinal(err, x.attemptsMade) then 0 else 3
    case Active => 1
    case _ => 2
  }

  /** A next event that leads a session with a settled row to its last write. */
  function FailNext(x: Session, k: nat): Event {
    match x.phase
    case Waiting => Begin(k)
    case Active => Throws(k, "")
    case _ => Handled(k, 0, Works)
  }

  function LastWrite(x: Session, k: nat, now: int): Event {
    if x.live then LiveCatches(k, now, Works) else Handled(k, now, Works)
  }

  lemma LastWriteOverwrites(s: System, k: nat, i: nat, now: int)
    requires Inv(s) && k < |s.sessions| && s.sessions[k].phase.Failing? && EventsToLastWrite(s.sessions[k]) == 0
    requires i < |s.rows| && s.rows[i].id == s.sessions[k].requestId && s.rows[i].completedAt != Some(now)
    ensures Enabled(s, LastWrite(s.sessions[k], k, now))
    ensures var after := Apply(s, LastWrite(s.sessions[k], k, now)).rows;
            i < |after| && after[i].status == Failed && after[i] != s.rows[i]
  {
    hide Find, Complete, SessionsOk, RowOk;
    var x := s.sessions[k];
    FindIsUnique(s.rows, i);
    CompleteEffect(s.rows, x.requestId, Failed, None, Some(x.phase.err.message), now, Works);
  }

  lemma FailNextLeadsOn(s: System, k: nat, i: nat)
    requires Inv(s) && k < |s.sessions| && s.sessions[k].phase != Over && EventsToLastWrite(s.sessions[k]) > 0
    requires i < |s.rows| && s.rows[i].id == s.sessions[k].requestId && s.rows[i].status != Pending
    ensures var e := FailNext(s.sessions[k], k);
            && Enabled(s, e) && Apply(s, e).rows == s.rows && |Apply(s, e).sessions| == |s.sessions|
            && var y := Apply(s, e).sessions[k];
            && y.phase != Over && y.requestId == s.sessions[k].requestId
            && EventsToLastWrite(y) < EventsToLastWrite(s.sessions[k])
  {
    hide Find, RowOk;
    assert SessionOk(s.rows, s.sessions[k]);
    FindIsUnique(s.rows, i);
  }

  /** While a session works on a settled row there is a continuation in which it becomes `failed`. */
  lemma {:induction false} AttendedCanChange(s: System, k: nat, i: nat) returns (more: seq<Event>)
    requires Inv(s) && k < |s.sessions| && s.sessions[k].phase != Over
    requires i < |s.rows| && s.rows[i].id == s.sessions[k].requestId && s.rows[i].status != Pending
    ensures i < |Run(s, more).rows| && Run(s, more).rows[i] != s.rows[i] && Run(s, more).rows[i].status == Failed
    decreases EventsToLastWrite(s.sessions[k])
  {
    hide Inv, Enabled, Apply, Run, EventsToLastWrite, FailNext, LastWrite;
    if EventsToLastWrite(s.sessions[k]) == 0 {
      OnlyFailingIsLast(s.sessions[k]);
      var now := if s.rows[i].completedAt.Some? then s.rows[i].completedAt.value + 1 else 0;
      var e := LastWrite(s.sessions[k], k, now);
      LastWriteOverwrites(s, k, i, now);
      RunStep(s, e, []);
      NothingMoreToRun(Apply(s, e));
      more := [e] + [];
    } else {
      var e := FailNext(s.sessions[k], k);
      FailNextLeadsOn(s, k, i);
      StepKeepsInv(s, e);
      var rest := AttendedCanChange(Apply(s, e), k, i);
      RunStep(s, e, rest);
      more := [e] + rest;
    }
  }

  lemma OnlyFailingIsLast(x: Session)
    requires EventsToLastWrite(x) == 0
    ensures x.phase.Failing?
  {
  }

  /**
    After any run, a settled row stays as it is in every continuation if and only if no job or live
    call is still at work on its request.
   */
  lemma SettledStaysIffUnattended(events: seq<Event>, i: nat)
    requires i < |Run(Initial(), events).rows| && Run(Initial(), events).rows[i].status != Pending
    ensures var s := Run(Initial(), events);
            (forall more :: i < |Run(s, more).rows| && Run(s, more).rows[i] == s.rows[i]) <==>
            !WorkedOn(s, s.rows[i].id)
  {
    hide Run, Inv;
    Reachable(events);
    var s := Run(Initial(), events);
    if WorkedOn(s, s.rows[i].id) {
      var k :| 0 <= k < |s.sessions| && s.sessions[k].requestId == s.rows[i].id && s.sessions[k].phase != Over;
      var more := AttendedCanChange(s, k, i);
      assert Run(s, more).rows[i] != s.rows[i];
    } else {
      forall more
        ensures i < |Run(s, more).rows| && Run(s, more).rows[i] == s.rows[i]
      {
        UnattendedStays(s, more, i);
      }
    }
  }

  /** A settling write is committed and reading its row back throws into the session. */
  predicate ReadBackThrows(e: Event) {
    match e
    case Replies(_, reply, _, db, _) => IsReply(reply) && db == ReadBackFails
    case LiveReturns(_, thrown, _, _, db, _) => thrown.None? && db == ReadBackFails
    case _ => false
  }

  /** In this run none does. */
  predicate AllReadBack(s: System, events: seq<Event>)
    decreases |events|
  {
    events == [] ||
    if Enabled(s, events[0]) then !ReadBackThrows(events[0]) && AllReadBack(Apply(s, events[0]), events[1..])
    else AllReadBack(s, events[1..])
  }

  predicate NoSettledIsWorkedOn(s: System) {
    forall i :: 0 <= i < |s.rows| && s.rows[i].status != Pending ==> !WorkedOn(s, s.rows[i].id)
  }

  lemma OwnStatus(s: System, e: Event)
    requires Inv(s) && Enabled(s, e) && OfSession(e)
    requires var i := Find(s.rows, s.sessions[e.k].requestId); i < |s.rows| && s.rows[i].status == Pending
    ensures var t := Apply(s, e);
            var i := Find(s.rows, s.sessions[e.k].requestId);
            i < |t.rows| && (t.sessions[e.k].phase != Over && t.rows[i].status != Pending <==> ReadBackThrows(e))
  {
    hide Find, Complete, IsReply, RowOk, UniqueIds, SessionsOk;
    var x := s.sessions[e.k];
    match e {
      case Replies(_, reply, now, db, _) =>
        CompleteEffect(s.rows, x.requestId, Done, reply, None, now, db);
      case Handled(_, now, db) =>
        CompleteEffect(s.rows, x.requestId, Failed, None, Some(x.phase.err.message), now, db);
      case LiveReturns(_, _, reply, now, db, _) =>
        CompleteEffect(s.rows, x.requestId, Done, reply, None, now, db);
        CompleteEffect(s.rows, x.requestId, Failed, None, Some("No USSD reply"), now, db);
      case LiveCatches(_, now, db) =>
        CompleteEffect(s.rows, x.requestId, Failed, None, Some(x.phase.err.message), now, db);
      case _ =>
    }
  }

  /** From a state in which settled rows are left alone, exactly a read-back that throws leads out. */
  lemma OnlyReadBackExposes(s: System, e: Event)
    requires Inv(s) && Enabled(s, e) && NoSettledIsWorkedOn(s)
    ensures NoSettledIsWorkedOn(Apply(s, e)) <==> !ReadBackThrows(e)
  {
    hide RowOk, Find, NextRows, NextSession, GivesUp, ReadBackThrows, SessionOk;
    if OfSession(e) {
      SessionExposes(s, e);
    } else {
      NewRowsAreUnexposed(s, e);
    }
  }

  lemma NewRowsAreUnexposed(s: System, e: Event)
    requires Inv(s) && Enabled(s, e) && NoSettledIsWorkedOn(s) && !OfSession(e)
    ensures NoSettledIsWorkedOn(Apply(s, e)) && !ReadBackThrows(e)
  {
    hide RowOk, Find, Inv;
    var t := Apply(s, e);
    StepKeepsInv(s, e);
    if !e.InboxPoll? {
      NotFound(s.rows, e.r.id);
      FindAppended(s.rows, e.r, e.r.id);
      if e.Enqueue? && !e.addOk {
        CompleteEffect(s.rows + [e.r], e.r.id, Failed, None, Some(e.message), e.now, e.db);
      }
      forall i | 0 <= i < |s.rows|
        ensures t.rows[i] == s.rows[i]
      {
        assert (s.rows + [e.r])[i] == s.rows[i];
      }
      forall i | 0 <= i < |t.rows| && t.rows[i].status != Pending
        ensures !WorkedOn(t, t.rows[i].id)
      {
        if i == |s.rows| {
          assert t.sessions == s.sessions;
        }
      }
    }
  }

  lemma SessionExposes(s: System, e: Event)
    requires Inv(s) && Enabled(s, e) && NoSettledIsWorkedOn(s) && OfSession(e)
    ensures NoSettledIsWorkedOn(Apply(s, e)) <==> !ReadBackThrows(e)
  {
    hide RowOk, Find, NextRows, NextSession, GivesUp, ReadBackThrows, SessionOk;
    var t, x := Apply(s, e), s.sessions[e.k];
    var i := Find(s.rows, x.requestId);
    OwnRow(s, e);
    NextSessionOk(s, e);
    FoundHasId(s.rows, x.requestId);
    assert WorkedOn(s, s.rows[i].id);
    OwnStatus(s, e);
    StepKeepsInv(s, e);
    forall j | 0 <= j < |t.rows| && t.rows[j].status != Pending && WorkedOn(t, t.rows[j].id)
      ensures j == i && ReadBackThrows(e)
    {
      assert WorkedOn(s, s.rows[j].id);
      if j == i {
        OthersWorkElsewhere(s, t, e.k, i);
      }
    }
    if ReadBackThrows(e) {
      assert t.sessions[e.k].requestId == t.rows[i].id;
      assert WorkedOn(t, t.rows[i].id);
    }
  }

  lemma OthersWorkElsewhere(s: System, t: System, k: nat, i: nat)
    requires SessionsOk(s) && k < |s.sessions| && i < |t.rows| && t.rows[i].id == s.sessions[k].requestId
    requires |t.sessions| == |s.sessions| && t.sessions == s.sessions[k := t.sessions[k]]
    requires WorkedOn(t, t.rows[i].id)
    ensures t.sessions[k].phase != Over
  {
    hide SessionOk;
    var m :| 0 <= m < |t.sessions| && t.sessions[m].requestId == t.rows[i].id && t.sessions[m].phase != Over;
  }

  lemma {:induction false} ReadBackKeepsUnexposed(s: System, events: seq<Event>)
    requires Inv(s) && NoSettledIsWorkedOn(s) && AllReadBack(s, events)
    ensures NoSettledIsWorkedOn(Run(s, events))
    decreases |events|
  {
    hide Inv, Enabled, Apply, NoSettledIsWorkedOn, ReadBackThrows;
    if events != [] {
      if Enabled(s, events[0]) {
        StepKeepsInv(s, events[0]);
        OnlyReadBackExposes(s, events[0]);
        ReadBackKeepsUnexposed(Apply(s, events[0]), events[1..]);
      } else {
        ReadBackKeepsUnexposed(s, events[1..]);
      }
    }
  }

  /** No settled row of `s` is any different in `t`. */
  predicate KeepsSettled(s: System, t: System) {
    forall i :: 0 <= i < |s.rows| && s.rows[i].status != Pending ==> i < |t.rows| && t.rows[i] == s.rows[i]
  }

  lemma KeepsSettledIffUnexposed(s: System)
    requires Inv(s)
    ensures (forall more :: KeepsSettled(s, Run(s, more))) <==> NoSettledIsWorkedOn(s)
  {
    hide Run, Inv;
    if NoSettledIsWorkedOn(s) {
      forall more
        ensures KeepsSettled(s, Run(s, more))
      {
        forall i | 0 <= i < |s.rows| && s.rows[i].status != Pending
          ensures i < |Run(s, more).rows| && Run(s, more).rows[i] == s.rows[i]
        {
          UnattendedStays(s, more, i);
        }
      }
    } else {
      var i :| 0 <= i < |s.rows| && s.rows[i].status != Pending && WorkedOn(s, s.rows[i].id);
      var k :| 0 <= k < |s.sessions| && s.sessions[k].requestId == s.rows[i].id && s.sessions[k].phase != Over;
      var more := AttendedCanChange(s, k, i);
      assert !KeepsSettled(s, Run(s, more));
    }
  }

  /**
    Rows are settled once and for all exactly as long as read-backs succeed. After a run in which
    none has thrown, and one event more, every settled row stays as it is in every continuation if
    and only if that event does not commit a settling write and then fail to read its row back.
   */
  lemma SettledOnceIffReadBack(events: seq<Event>, e: Event)
    requires AllReadBack(Initial(), events) && Enabled(Run(Initial(), events), e)
    ensures var t := Apply(Run(Initial(), events), e);
            (forall more :: KeepsSettled(t, Run(t, more))) <==> !ReadBackThrows(e)
  {
    hide Run, Inv, KeepsSettled, ReadBackThrows, AllReadBack, NoSettledIsWorkedOn, Apply, Enabled;
    var s := Run(Initial(), events);
    Reachable(events);
    NothingIsExposed();
    ReadBackKeepsUnexposed(Initial(), events);
    OnlyReadBackExposes(s, e);
    StepKeepsInv(s, e);
    KeepsSettledIffUnexposed(Apply(s, e));
  }

  lemma NothingIsExposed()
    ensures Inv(Initial()) && NoSettledIsWorkedOn(Initial())
  {
  }

  /** In particular, what a run without such a failure has settled stays settled, whatever fails later. */
  lemma SettledOnce(events: seq<Event>, more: seq<Event>)
    requires AllReadBack(Initial(), events)
    ensures KeepsSettled(Run(Initial(), events), Run(Initial(), events + more))
  {
    hide Run, Inv, KeepsSettled, AllReadBack, NoSettledIsWorkedOn;
    Reachable(events);
    NothingIsExposed();
    ReadBackKeepsUnexposed(Initial(), events);
    KeepsSettledIffUnexposed(Run(Initial(), events));
    RunInTwo(Initial(), events, more);
  }

  /** A live call whose reply is stored, but whose row cannot be read back. */
  function UnreadReply(r: Request, reply: string, message: string): seq<Event> {
    [StartLive(r), LiveReturns(0, None, Some(reply), 0, ReadBackFails, message)]
  }

  /** The run that shows it: `done` with its reply, and then `failed` without one. */
  lemma DoneBecomesFailed(r: Request, reply: string, message: string)
    requires IsNew(Initial(), r) && reply != ""
    ensures var s := Run(Initial(), UnreadReply(r, reply, message));
            var t := Run(s, [LiveCatches(0, 0, Works)]);
            && |s.rows| == 1 && s.rows[0].status == Done && s.rows[0].reply == Some(reply)
            && |t.rows| == 1 && t.rows[0].status == Failed && t.rows[0].reply == None
  {
    hide Run, Complete, Find;
    var e0, e1 := StartLive(r), LiveReturns(0, None, Some(reply), 0, ReadBackFails, message);
    var s1 := Apply(Initial(), e0);
    assert s1.rows == [r];
    OnlyRow(r);
    CompleteEffect(s1.rows, r.id, Done, Some(reply), None, 0, ReadBackFails);
    RunStep(Initial(), e0, [e1]);
    RunStep(s1, e1, []);
    var s := Apply(s1, e1);
    NothingMoreToRun(s);
    assert UnreadReply(r, reply, message) == [e0] + [e1] && [e1] == [e1] + [];
    var e2 := LiveCatches(0, 0, Works);
    OnlyRow(s.rows[0]);
    assert s.rows == [s.rows[0]];
    CompleteEffect(s.rows, r.id, Failed, None, Some(message), 0, Works);
    RunStep(s, e2, []);
    assert [e2] == [e2] + [];
    NothingMoreToRun(Apply(s, e2));
  }

  lemma OnlyRow(r: Request)
    ensures Find([r], r.id) == 0
  {
  }
}
