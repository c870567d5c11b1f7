/**
  The command and unsolicited-result machinery of the serial driver (utils/modem.js): what every
  callback does to the driver's state, as functions on values and as the class that holds the
  state. Promises show as the log of what they were settled with, timers as the sets of armed ones.
 */
module SerialDriver {
  import opened Wrappers
  import opened Framing

  datatype Failure = ModemError(line: string) | TimedOut | WriteFailed | PortClosed | ShuttingDown | NotConnected

  datatype Outcome = Resolved(lines: seq<string>, expectPrompt: bool) | Rejected(failure: Failure)

  datatype Settlement = Settlement(id: nat, outcome: Outcome)

  datatype Answer = Answer(id: nat, line: Option<string>)

  datatype Command = Command(id: nat, lines: seq<string>, expectPrompt: bool)

  datatype Waiter = Waiter(id: nat, prefix: string)

  datatype Driver = Driver(
    connected: bool,
    rxBuffer: string,
    current: Option<Command>,
    waiters: seq<Waiter>,
    quietUntil: int,
    timers: set<nat>,
    urcTimers: set<nat>,
    settled: seq<Settlement>,
    answers: seq<Answer>,
    nextId: nat)

  const QUIET_MS: int := 2000

  predicate IsTerminalLine(line: string) {
    || line == "OK" || line == "ERROR" || line == "NO CARRIER"
    || "+CMS ERROR" <= line || "+CME ERROR" <= line
  }

  predicate IsErrorLine(line: string) {
    line != "OK" && IsTerminalLine(line)
  }

  // ----- What the callbacks do -----------------------------------------------------------------

  /** `settleCurrent`; no failure means success. */
  function Settle(d: Driver, failure: Option<Failure>): Driver {
    match d.current
    case None => d
    case Some(c) =>
      var outcome := if failure.Some? then Rejected(failure.value) else Resolved(c.lines, c.expectPrompt);
      d.(current := None, timers := d.timers - {c.id}, settled := d.settled + [Settlement(c.id, outcome)])
  }

  /** The first waiter whose prefix the line has, counted from position `i`. */
  function MatchingWaiter(waiters: seq<Waiter>, line: string, i: nat): (k: nat)
    requires i <= |waiters|
    ensures i <= k <= |waiters|
    ensures forall j :: i <= j < k ==> !(waiters[j].prefix <= line)
    ensures k < |waiters| ==> waiters[k].prefix <= line
    decreases |waiters| - i
  {
    if i == |waiters| || waiters[i].prefix <= line then i else MatchingWaiter(waiters, line, i + 1)
  }

  function HandLine(d: Driver, line: string): Driver {
    var k := MatchingWaiter(d.waiters, line, 0);
    if k < |d.waiters| then
      var w := d.waiters[k];
      d.(waiters := d.waiters[..k] + d.waiters[k + 1..],
         urcTimers := d.urcTimers - {w.id},
         answers := d.answers + [Answer(w.id, Some(line))])
    else if d.current.None? then d
    else
      var pushed := d.(current := Some(d.current.value.(lines := d.current.value.lines + [line])));
      if !IsTerminalLine(line) then pushed
      else Settle(pushed, if IsErrorLine(line) then Some(ModemError(line)) else None)
  }

  function HandLines(d: Driver, lines: seq<string>): Driver
    decreases |lines|
  {
    if lines == [] then d else HandLines(HandLine(d, lines[0]), lines[1..])
  }

  predicate PromptSeen(d: Driver) {
    d.current.Some? && d.current.value.expectPrompt && ['>'] <= TrimStart(d.rxBuffer)
  }

  /** `handleData`: the completed lines one by one, then the prompt, which has no line end. */
  function Receive(d: Driver, chunk: string): Driver {
    var buffer := d.rxBuffer + chunk;
    var after := HandLines(d, Lines(buffer)).(rxBuffer := Residue(buffer));
    if PromptSeen(after) then Settle(after.(rxBuffer := ""), None) else after
  }

  /** Every waiting `waitForUrc` is answered with null, in order. */
  function NoAnswers(waiters: seq<Waiter>): seq<Answer> {
    seq(|waiters|, i requires 0 <= i < |waiters| => Answer(waiters[i].id, None))
  }

  function WaiterIds(waiters: seq<Waiter>): set<nat> {
    set w | w in waiters :: w.id
  }

  /** `failCurrentCommand`. */
  function FailAll(d: Driver, failure: Failure): Driver {
    var s := Settle(d, Some(failure));
    s.(waiters := [], urcTimers := s.urcTimers - WaiterIds(s.waiters), answers := s.answers + NoAnswers(s.waiters))
  }

  function PortClose(d: Driver): Driver {
    FailAll(d.(connected := false), PortClosed)
  }

  function PortOpen(d: Driver): Driver {
    d.(connected := true, rxBuffer := "")
  }

  /** The part of `transact` behind the quiet wait. */
  function Issue(d: Driver, expectPrompt: bool): Driver {
    if !d.connected then
      d.(settled := d.settled + [Settlement(d.nextId, Rejected(NotConnected))], nextId := d.nextId + 1)
    else
      d.(rxBuffer := "", current := Some(Command(d.nextId, [], expectPrompt)),
         timers := d.timers + {d.nextId}, nextId := d.nextId + 1)
  }

  /** The timeout callback of command `id`: it clears whatever command is current. */
  function CommandTimeout(d: Driver, id: nat, now: int): Driver {
    d.(current := None, quietUntil := now + QUIET_MS, timers := d.timers - {id},
       settled := d.settled + [Settlement(id, Rejected(TimedOut))])
  }

  function AddWaiter(d: Driver, prefix: string): Driver {
    d.(waiters := d.waiters + [Waiter(d.nextId, prefix)], urcTimers := d.urcTimers + {d.nextId}, nextId := d.nextId + 1)
  }

  function WithoutWaiter(waiters: seq<Waiter>, id: nat): seq<Waiter> {
    if waiters == [] then []
    else (if waiters[0].id == id then [] else [waiters[0]]) + WithoutWaiter(waiters[1..], id)
  }

  function WaiterTimeout(d: Driver, id: nat): Driver {
    d.(waiters := WithoutWaiter(d.waiters, id), urcTimers := d.urcTimers - {id},
       answers := d.answers + [Answer(id, None)])
  }

  // ----- The driver ----------------------------------------------------------------------------

  lemma {:induction false} HandLinesInTurn(d: Driver, a: seq<string>, b: seq<string>)
    ensures HandLines(d, a + b) == HandLines(HandLines(d, a), b)
    decreases |a|
  {
    hide HandLine;
    if a == [] {
      assert a + b == b;
    } else {
      assert (a + b)[1..] == a[1..] + b;
      HandLinesInTurn(HandLine(d, a[0]), a[1..], b);
    }
  }

  lemma {:induction false} HandLinesIgnoresBuffer(d: Driver, lines: seq<string>, buffer: string)
    ensures HandLines(d.(rxBuffer := buffer), lines) == HandLines(d, lines).(rxBuffer := buffer)
    decreases |lines|
  {
    if lines != [] {
      HandLinesIgnoresBuffer(HandLine(d, lines[0]), lines[1..], buffer);
      assert HandLine(d.(rxBuffer := buffer), lines[0]) == HandLine(d, lines[0]).(rxBuffer := buffer);
    }
  }

  class SerialModem {
    var connected: bool
    var rxBuffer: string
    var currentCommand: Option<Command>
    var urcWaiters: seq<Waiter>
    var quietUntil: int
    var timers: set<nat>
    var urcTimers: set<nat>
    var settled: seq<Settlement>
    var answers: seq<Answer>
    var nextId: nat

    function State(): Driver
      reads this
    {
      Driver(connected, rxBuffer, currentCommand, urcWaiters, quietUntil, timers, urcTimers, settled, answers, nextId)
    }

    constructor ()
      ensures State() == Driver(false, "", None, [], 0, {}, {}, [], [], 0)
    {
      connected, rxBuffer, currentCommand, urcWaiters := false, "", None, [];
      quietUntil, timers, urcTimers, settled, answers, nextId := 0, {}, {}, [], [], 0;
    }

    method SettleCurrent(failure: Option<Failure>)
      modifies this
      ensures State() == Settle(old(State()), failure)
    {
      var cmd := currentCommand;
      if cmd.None? {
        return;
      }
      currentCommand := None;
      timers := timers - {cmd.value.id};
      if failure.Some? {
        settled := settled + [Settlement(cmd.value.id, Rejected(failure.value))];
      } else {
        settled := settled + [Settlement(cmd.value.id, Resolved(cmd.value.lines, cmd.value.expectPrompt))];
      }
    }

    method FailCurrentCommand(failure: Failure)
      modifies this
      ensures State() == FailAll(old(State()), failure)
    {
      SettleCurrent(Some(failure));
      var spliced := urcWaiters;
      urcWaiters := [];
      ghost var before := State();
      for i := 0 to |spliced|
        invariant State() == before.(urcTimers := before.urcTimers - WaiterIds(spliced[..i]),
                                     answers := before.answers + NoAnswers(spliced[..i]))
      {
        assert WaiterIds(spliced[..i + 1]) == WaiterIds(spliced[..i]) + {spliced[i].id} by {
          assert spliced[..i + 1] == spliced[..i] + [spliced[i]];
        }
        urcTimers := urcTimers - {spliced[i].id};
        answers := answers + [Answer(spliced[i].id, None)];
      }
      assert spliced[..|spliced|] == spliced;
    }

    method HandleLine(line: string)
      modifies this
      ensures State() == HandLine(old(State()), line)
    {
      var i := 0;
      while i < |urcWaiters|
        invariant i <= |urcWaiters| && State() == old(State())
        invariant MatchingWaiter(urcWaiters, line, 0) == MatchingWaiter(urcWaiters, line, i)
      {
        if urcWaiters[i].prefix <= line {
          var waiter := urcWaiters[i];
          urcWaiters := urcWaiters[..i] + urcWaiters[i + 1..];
          urcTimers := urcTimers - {waiter.id};
          answers := answers + [Answer(waiter.id, Some(line))];
          return;
        }
        i := i + 1;
      }
      if currentCommand.None? {
        return;
      }
      currentCommand := Some(currentCommand.value.(lines := currentCommand.value.lines + [line]));
      if IsTerminalLine(line) {
        if IsErrorLine(line) {
          SettleCurrent(Some(ModemError(line)));
        } else {
          SettleCurrent(None);
        }
      }
    }

    method HandleData(chunk: string)
      modifies this
      ensures State() == Receive(old(State()), chunk)
    {
      hide HandLine, Lines, Residue, Trim;
      rxBuffer := rxBuffer + chunk;
      ghost var buffer := rxBuffer;
      ghost var before := old(State());
      var idx := SearchBreak(rxBuffer);
      HandLinesIgnoresBuffer(before, Lines(buffer), buffer);
      while idx.Some?
        invariant idx == SearchBreak(rxBuffer)
        invariant HandLines(State(), Lines(rxBuffer)).(rxBuffer := "") ==
                  HandLines(before, Lines(buffer)).(rxBuffer := "")
        invariant Residue(rxBuffer) == Residue(buffer)
        decreases |rxBuffer|
      {
        LoopTakesOneLine(rxBuffer);
        var line := Trim(rxBuffer[..idx.value]);
        ghost var state := State();
        rxBuffer := DropBreak(rxBuffer[idx.value..]);
        OneMoreLine(state, State(), line, Lines(rxBuffer));
        if line != "" {
          ghost var stripped := State();
          HandleLine(line);
          KeepsBuffer(stripped, line);
        }
        idx := SearchBreak(rxBuffer);
      }
      NothingToFrame(rxBuffer);
      assert State() == HandLines(before, Lines(buffer)).(rxBuffer := Residue(buffer));
      if currentCommand.Some? && currentCommand.value.expectPrompt && ['>'] <= TrimStart(rxBuffer) {
        rxBuffer := "";
        SettleCurrent(None);
      }
    }

    /** `transact` once the quiet wait is over. */
    method Transact(expectPrompt: bool)
      modifies this
      ensures State() == Issue(old(State()), expectPrompt)
    {
      if !connected {
        settled := settled + [Settlement(nextId, Rejected(NotConnected))];
        nextId := nextId + 1;
        return;
      }
      rxBuffer := "";
      currentCommand := Some(Command(nextId, [], expectPrompt));
      timers := timers + {nextId};
      nextId := nextId + 1;
    }

    method OnCommandTimeout(id: nat, now: int)
      modifies this
      ensures State() == CommandTimeout(old(State()), id, now)
    {
      currentCommand := None;
      quietUntil := now + QUIET_MS;
      timers := timers - {id};
      settled := settled + [Settlement(id, Rejected(TimedOut))];
    }

    method OnWriteError()
      modifies this
      ensures State() == Settle(old(State()), Some(WriteFailed))
    {
      SettleCurrent(Some(WriteFailed));
    }

    method WaitForUrc(prefix: string)
      modifies this
      ensures State() == AddWaiter(old(State()), prefix)
    {
      urcWaiters := urcWaiters + [Waiter(nextId, prefix)];
      urcTimers := urcTimers + {nextId};
      nextId := nextId + 1;
    }

    method OnUrcTimeout(id: nat)
      modifies this
      ensures State() == WaiterTimeout(old(State()), id)
    {
      urcWaiters := WithoutWaiter(urcWaiters, id);
      urcTimers := urcTimers - {id};
      answers := answers + [Answer(id, None)];
    }

    method OnClose()
      modifies this
      ensures State() == PortClose(old(State()))
    {
      connected := false;
      FailCurrentCommand(PortClosed);
    }

    method OnOpen()
      modifies this
      ensures State() == PortOpen(old(State()))
    {
      rxBuffer := "";
      connected := true;
    }

    method Close()
      modifies this
      ensures State() == FailAll(old(State()), ShuttingDown)
    {
      FailCurrentCommand(ShuttingDown);
    }
  }

  lemma KeepsBuffer(d: Driver, line: string)
    ensures HandLine(d, line).rxBuffer == d.rxBuffer
  {
  }

  lemma OneMoreLine(d: Driver, e: Driver, line: string, rest: seq<string>)
    requires e == d.(rxBuffer := e.rxBuffer)
    ensures HandLines(d, (if line == [] then [] else [line]) + rest).(rxBuffer := "") ==
            HandLines(if line == [] then e else HandLine(e, line), rest).(rxBuffer := "")
  {
    hide HandLine;
    var lines := (if line == [] then [] else [line]) + rest;
    HandLinesIgnoresBuffer(d, lines, e.rxBuffer);
    if line == [] {
      assert lines == rest;
    } else {
      assert lines[1..] == rest;
    }
  }

  lemma NothingToFrame(s: string)
    requires SearchBreak(s).None?
    ensures Lines(s) == [] && Residue(s) == s
  {
    hide Trim, SearchBreak;
    SearchIsFirstLf(s);
  }
}
