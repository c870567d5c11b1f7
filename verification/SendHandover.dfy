/**
  A queued message down to what reaches the modems: the worker's call of a driver
  (config/bull.config.js), and what the life cycle makes of the mark `confirmTimeout`.
 */
module SendHandover {
  import opened Wrappers
  import opened Utf16
  import opened SmsEncoding
  import opened Splitting
  import opened Pdu
  import opened PduReading
  import opened SendGateway
  import opened SendLifecycle
  import SendOutcomes
  import SerialTasks
  import ZteHttp
  import Adb

  /** A modem of the pool, with all it will answer. */
  datatype Device =
    | SerialStick(smsc: string, ref: int, serialScript: seq<SerialTasks.Reply>)
    | ZteStick(needsLogin: bool, loggedIn: bool, zteScript: seq<ZteHttp.Exchange>, polls: seq<ZteHttp.Poll>)
    | Phone(txn: int, pkg: Text, accepts: seq<bool>)

  /** What a call of a driver did to its modem. */
  datatype Attempt =
    | OnSerial(steps: seq<SerialTasks.Step>)
    | OnZte(to: string, message: Text, posts: seq<ZteHttp.Posted>, polls: seq<ZteHttp.Poll>)
    | OnPhone(commands: seq<Text>)

  function PollingTime(message: Text): nat {
    60000 * AnalyzeUcs2(message).segments
  }

  /** The message was handed over, and its confirmation never came; a phone confirms at once or not at all. */
  predicate Unconfirmed(a: Attempt) {
    match a
    case OnSerial(steps) => SerialTasks.BodyUnconfirmed(steps)
    case OnZte(to, message, posts, polls) =>
      ZteHttp.CommandAccepted(posts, to, message) && ZteHttp.AllUndecided(polls, PollingTime(message))
    case OnPhone(_) => false
  }

  /** What the worker sees of the attempt is this call. */
  predicate IsSeenAs(a: Attempt, call: Call) {
    && (call == ConfirmTimeout <==> Unconfirmed(a))
    && (a.OnSerial? ==> SerialTasks.UnconfirmedIsLast(a.steps))
  }

  /** Everything the attempt submits is this message for this number. */
  predicate IsAttemptFor(a: Attempt, device: Device, to: string, message: Text) {
    match a
    case OnSerial(steps) =>
      && device.SerialStick?
      && (steps != [] <==> ValidNumber(to) && Analyze(message).ok)
      && (steps != [] && (ValidServiceCentre(device.smsc) || Analyze(message).segments == 1) ==>
            SerialTasks.AllFor(steps, to, device.smsc))
    case OnZte(number, text, posts, _) =>
      && device.ZteStick? && number == to && text == message
      && forall i :: 0 <= i < |posts| ==>
           posts[i].request == ZteHttp.Login || ZteHttp.IsSendOf(posts[i].request, to, message)
    case OnPhone(commands) =>
      && device.Phone? && |commands| <= |SplitMessage(message)|
      && (commands != [] ==> Adb.IsAscii(to))
      && forall i :: 0 <= i < |commands| ==>
           Adb.TellsToSend(commands[i], device.txn, device.pkg, Adb.Units(to), SplitMessage(message)[i])
  }

  /** A success gives the reference its driver promises. */
  predicate IsReferenceOf(a: Attempt, reference: Option<string>) {
    match a
    case OnSerial(steps) => reference == SerialTasks.Joined(SerialTasks.References(steps))
    case OnZte(_, _, _, _) => reference == Some("zte-http:sent")
    case OnPhone(_) => reference.Some? && "adb:sent" <= reference.value
  }

  /** `modem.sendSMS` and the worker's look at the error: exactly an unconfirmed message is marked. */
  method CallModem(to: string, message: Text, device: Device) returns (call: Call, attempt: Attempt)
    requires device.ZteStick? ==> ZteHttp.Elapsed(device.polls, |device.polls|) >= PollingTime(message)
    ensures IsSeenAs(attempt, call)
    ensures IsAttemptFor(attempt, device, to, message)
    ensures call.Accepted? ==> IsReferenceOf(attempt, call.reference)
  {
    hide SplitMessage, ValidServiceCentre, ValidNumber, Analyze, AnalyzeUcs2, SerialTasks.References,
      SerialTasks.AllFor, SerialTasks.BodyUnconfirmed, SerialTasks.UnconfirmedIsLast, Adb.TellsToSend, Adb.Units,
      ZteHttp.IsSendOf, ZteHttp.CommandAccepted, ZteHttp.AllUndecided, ZteHttp.FirstSays, ZteHttp.Elapsed;
    match device {
      case SerialStick(smsc, ref, script) =>
        ghost var modem := SerialTasks.Modem(true, false, false);
        var steps, result, rest := SerialTasks.SendSms(to, message, smsc, ref, script, modem);
        attempt := OnSerial(steps);
        call := match result
          case Done(reference) => Accepted(reference)
          case Threw(confirmTimeout) => if confirmTimeout then ConfirmTimeout else Rejected;
      case ZteStick(needsLogin, loggedIn, script, polls) =>
        var result, posts := ZteHttp.SendSms(to, message, needsLogin, loggedIn, script, polls);
        attempt := OnZte(to, message, posts, polls);
        call := match result
          case Delivered => Accepted(Some("zte-http:sent"))
          case Threw(confirmTimeout) => if confirmTimeout then ConfirmTimeout else Rejected;
      case Phone(txn, pkg, accepts) =>
        var commands, sent, reference := Adb.SendSms(txn, pkg, to, message, accepts);
        attempt := OnPhone(commands);
        call := if reference.Some? then Accepted(reference) else Rejected;
    }
  }

  /** All that was written to serial modems, in order. */
  function SerialSteps(attempts: seq<Attempt>): seq<SerialTasks.Step> {
    if attempts == [] then []
    else (if attempts[0].OnSerial? then attempts[0].steps else []) + SerialSteps(attempts[1..])
  }

  /** The job was worked on by these attempts. */
  predicate AreAttemptsOf(attempts: seq<Attempt>, calls: seq<Call>) {
    |attempts| == |calls| && forall i :: 0 <= i < |calls| ==> IsSeenAs(attempts[i], calls[i])
  }

  lemma {:induction false} LastInAll(attempts: seq<Attempt>)
    requires forall i :: 0 <= i < |attempts| && attempts[i].OnSerial? ==>
               SerialTasks.UnconfirmedIsLast(attempts[i].steps)
    requires forall i :: 0 <= i < |attempts| - 1 ==> !Unconfirmed(attempts[i])
    ensures SerialTasks.UnconfirmedIsLast(SerialSteps(attempts))
  {
    hide SerialTasks.BodyUnconfirmed, SerialTasks.UnconfirmedIsLast;
    if attempts == [] {
      NothingIsLast();
    } else {
      LastInAll(attempts[1..]);
      var steps := if attempts[0].OnSerial? then attempts[0].steps else [];
      NothingIsLast();
      if |attempts| == 1 {
        assert steps + SerialSteps(attempts[1..]) == steps;
      } else {
        SerialTasks.LastConcat(steps, SerialSteps(attempts[1..]));
      }
    }
  }

  lemma NothingIsLast()
    ensures SerialTasks.UnconfirmedIsLast([]) && !SerialTasks.BodyUnconfirmed([])
  {
  }

  /**
    In every run: an attempt that leaves the message unconfirmed is the last one of its job, and to
    the serial modems no body at all is written behind an unconfirmed one, in the same attempt or a
    later one. A message whose status is `unconfirmed` has such an attempt if and only if its job
    was not pinned, or its modem was configured when the last attempt began.
   */
  lemma NothingFollowsAnUnconfirmedBody(events: seq<Event>, cfg: Config, j: nat, attempts: seq<Attempt>)
    requires j < |Run(Initial(), events, cfg).jobs|
    requires AreAttemptsOf(attempts, Run(Initial(), events, cfg).jobs[j].calls)
    ensures forall i :: 0 <= i < |attempts| && Unconfirmed(attempts[i]) ==> i == |attempts| - 1
    ensures SerialTasks.UnconfirmedIsLast(SerialSteps(attempts))
    ensures var s := Run(Initial(), events, cfg);
            StatusOf(s.g, s.jobs[j].logId) == Some("unconfirmed") ==>
              ((exists i :: 0 <= i < |attempts| && Unconfirmed(attempts[i])) <==>
               s.jobs[j].pinned.None? || s.jobs[j].pinned.value in s.jobs[j].begunIn)
  {
    hide Run, Unconfirmed, SerialTasks.UnconfirmedIsLast, SerialSteps;
    SendOutcomes.AtMostThreeSends(events, cfg, j);
    var s := Run(Initial(), events, cfg);
    var calls := s.jobs[j].calls;
    forall i | 0 <= i < |attempts| - 1
      ensures !Unconfirmed(attempts[i])
    {
      assert IsSeenAs(attempts[i], calls[i]) && calls[i] == Rejected;
    }
    LastInAll(attempts);
    if StatusOf(s.g, s.jobs[j].logId) == Some("unconfirmed") {
      SendOutcomes.UnconfirmedIsHandedOverIffModemFound(events, cfg, j);
      UnconfirmedIsHandedOver(s.jobs[j], attempts);
    }
  }

  lemma UnconfirmedIsHandedOver(job: Job, attempts: seq<Attempt>)
    requires AreAttemptsOf(attempts, job.calls)
    ensures SendOutcomes.HandedOver(job) <==> exists i :: 0 <= i < |attempts| && Unconfirmed(attempts[i])
  {
    hide Unconfirmed, SerialTasks.UnconfirmedIsLast;
    forall i | 0 <= i < |job.calls|
      ensures job.calls[i] == ConfirmTimeout <==> Unconfirmed(attempts[i])
    {
      assert IsSeenAs(attempts[i], job.calls[i]);
    }
  }
}
