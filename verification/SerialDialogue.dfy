/**
  All interleavings of the serial dialogue: queued tasks, their commands, incoming chunks, timers,
  write errors, closes and reopens (utils/modem.js on top of utils/serialize.js). A task awaits
  each command before it does anything else, and nothing but a task issues commands.
 */
module SerialDialogue {
  import opened Wrappers
  import opened Framing
  import opened Serializer
  import opened SerialDriver

  datatype Phase =
    | Queued
    | Ready
    | Sleeping(wake: int, expectPrompt: bool)
    | Awaiting(id: nat)
    | Finished(ok: bool)

  /** `since` is what arrived after the last command was issued; the program does not keep it. */
  datatype System = System(now: int, driver: Driver, lock: Chain, phases: seq<Phase>, since: string)

  datatype Event =
    | Enqueue
    | Start(task: nat)
    | Begin(task: nat, expectPrompt: bool)  // `transact` is called
    | Wake(task: nat)                       // its quiet wait is over
    | Resume(task: nat)                     // the awaited promise has settled
    | Listen(task: nat, prefix: string)     // `waitForUrc` is called
    | Finish(task: nat, ok: bool)
    | Data(chunk: string)
    | CommandTimer(id: nat)
    | UrcTimer(id: nat)
    | WriteError
    | PortClosing
    | PortOpening
    | Shutdown
    | Tick(ms: nat)

  predicate IsSettled(d: Driver, id: nat) {
    exists k :: 0 <= k < |d.settled| && d.settled[k].id == id
  }

  predicate Enabled(s: System, e: Event) {
    match e
    case Start(i) =>
      && i < |s.phases| == |s.lock.after| && s.phases[i] == Queued
      && (s.lock.after[i].Some? ==>
            s.lock.after[i].value < |s.phases| && s.phases[s.lock.after[i].value].Finished?)
    case Begin(i, _) => i < |s.phases| && s.phases[i] == Ready
    case Wake(i) => i < |s.phases| && s.phases[i].Sleeping? && s.phases[i].wake <= s.now
    case Resume(i) => i < |s.phases| && s.phases[i].Awaiting? && IsSettled(s.driver, s.phases[i].id)
    case Listen(i, _) => i < |s.phases| && s.phases[i] == Ready
    case Finish(i, _) => i < |s.phases| && s.phases[i] == Ready
    case CommandTimer(id) => id in s.driver.timers
    case UrcTimer(id) => id in s.driver.urcTimers
    case PortOpening => !s.driver.connected
    case _ => true
  }

  function Apply(s: System, e: Event): System
    requires Enabled(s, e)
  {
    match e
    case Enqueue => s.(lock := Append(s.lock), phases := s.phases + [Queued])
    case Start(i) => s.(phases := s.phases[i := Ready])
    case Begin(i, p) =>
      var wake := if s.driver.quietUntil > s.now then s.driver.quietUntil else s.now;
      s.(phases := s.phases[i := Sleeping(wake, p)])
    case Wake(i) =>
      s.(driver := Issue(s.driver, s.phases[i].expectPrompt), phases := s.phases[i := Awaiting(s.driver.nextId)],
         since := "")
    case Resume(i) => s.(phases := s.phases[i := Ready])
    case Listen(i, prefix) => s.(driver := AddWaiter(s.driver, prefix))
    case Finish(i, ok) => s.(phases := s.phases[i := Finished(ok)])
    case Data(chunk) => s.(driver := Receive(s.driver, chunk), since := s.since + chunk)
    case CommandTimer(id) => s.(driver := CommandTimeout(s.driver, id, s.now))
    case UrcTimer(id) => s.(driver := WaiterTimeout(s.driver, id))
    case WriteError => s.(driver := Settle(s.driver, Some(WriteFailed)))
    case PortClosing => s.(driver := PortClose(s.driver))
    case PortOpening => s.(driver := PortOpen(s.driver))
    case Shutdown => s.(driver := FailAll(s.driver, ShuttingDown))
    case Tick(ms) => s.(now := s.now + ms)
  }

  /** A run; events that cannot happen where they stand are passed over. */
  function Run(s: System, events: seq<Event>): System
    decreases |events|
  {
    if events == [] then s
    else Run(if Enabled(s, events[0]) then Apply(s, events[0]) else s, events[1..])
  }

  function Initial(): System {
    System(0, Driver(false, "", None, [], 0, {}, {}, [], [], 0), Chain([], None), [], "")
  }

  /** The driver's part in an event, done by its own methods. */
  method Perform(modem: SerialModem, s: System, e: Event)
    requires Enabled(s, e) && modem.State() == s.driver
    modifies modem
    ensures modem.State() == Apply(s, e).driver
  {
    match e {
      case Wake(i) => modem.Transact(s.phases[i].expectPrompt);
      case Listen(_, prefix) => modem.WaitForUrc(prefix);
      case Data(chunk) => modem.HandleData(chunk);
      case CommandTimer(id) => modem.OnCommandTimeout(id, s.now);
      case UrcTimer(id) => modem.OnUrcTimeout(id);
      case WriteError => modem.OnWriteError();
      case PortClosing => modem.OnClose();
      case PortOpening => modem.OnOpen();
      case Shutdown => modem.Close();
      case _ =>
    }
  }

  /** The class through a whole run of the machine. */
  method PerformAll(events: seq<Event>) returns (modem: SerialModem)
    ensures fresh(modem) && modem.State() == Run(Initial(), events).driver
  {
    hide Enabled, Apply;
    modem := new SerialModem();
    var s := Initial();
    for i := 0 to |events|
      invariant fresh(modem) && modem.State() == s.driver
      invariant Run(Initial(), events) == Run(s, events[i..])
    {
      assert events[i..][0] == events[i] && events[i..][1..] == events[i + 1..];
      if Enabled(s, events[i]) {
        Perform(modem, s, events[i]);
        s := Apply(s, events[i]);
      }
    }
  }

  // ----- What every run keeps ------------------------------------------------------------------

  predicate NoTerminalLine(lines: seq<string>) {
    forall k :: 0 <= k < |lines| ==> !IsTerminalLine(lines[k])
  }

  /** A command that was not waiting for the prompt succeeds with `OK` as its last and only terminal line. */
  predicate EndsInOk(lines: seq<string>) {
    lines != [] && lines[|lines| - 1] == "OK" && NoTerminalLine(lines[..|lines| - 1])
  }

  predicate Sound(o: Outcome) {
    o.Resolved? && !o.expectPrompt ==> EndsInOk(o.lines)
  }

  /** Every command settles at most once, and soundly. */
  predicate CommandsOk(d: Driver) {
    && (forall k :: 0 <= k < |d.settled| ==> d.settled[k].id < d.nextId && Sound(d.settled[k].outcome))
    && (forall j, k :: 0 <= j < k < |d.settled| ==> d.settled[j].id != d.settled[k].id)
    && match d.current
       case None => d.timers == {}
       case Some(c) =>
         && c.id < d.nextId && d.timers == {c.id} && NoTerminalLine(c.lines)
         && forall k :: 0 <= k < |d.settled| ==> d.settled[k].id != c.id
  }

  /** Every waiter is answered at most once. */
  predicate WaitersOk(d: Driver) {
    && d.urcTimers == WaiterIds(d.waiters)
    && (forall k :: 0 <= k < |d.waiters| ==> d.waiters[k].id < d.nextId)
    && (forall j, k :: 0 <= j < k < |d.waiters| ==> d.waiters[j].id != d.waiters[k].id)
    && (forall k :: 0 <= k < |d.answers| ==> d.answers[k].id < d.nextId)
    && (forall j, k :: 0 <= j < k < |d.answers| ==> d.answers[j].id != d.answers[k].id)
    && (forall j, k :: 0 <= j < |d.answers| && 0 <= k < |d.waiters| ==> d.answers[j].id != d.waiters[k].id)
  }

  /** Tasks run one at a time, in the order they were queued, however their predecessors ended. */
  predicate OneAtATime(phases: seq<Phase>) {
    forall i, j :: 0 <= i < j < |phases| && phases[j] != Queued ==> phases[i].Finished?
  }

  /** What a task that is neither queued nor finished knows about the command in flight. */
  predicate TaskOk(d: Driver, p: Phase) {
    match p
    case Ready => d.current.None?
    case Sleeping(wake, _) => d.current.None? && d.quietUntil <= wake
    case Awaiting(id) => id < d.nextId && if d.current.Some? then d.current.value.id == id else IsSettled(d, id)
    case _ => true
  }

  predicate Active(p: Phase) {
    p != Queued && !p.Finished?
  }

  predicate TasksOk(s: System) {
    && |s.phases| == |s.lock.after| && IsQueue(s.lock)
    && OneAtATime(s.phases)
    && (forall i :: 0 <= i < |s.phases| ==> TaskOk(s.driver, s.phases[i]))
    && (s.driver.current.Some? ==>
          && s.driver.quietUntil <= s.now
          && exists i :: 0 <= i < |s.phases| && s.phases[i] == Awaiting(s.driver.current.value.id))
  }

  predicate Inv(s: System) {
    CommandsOk(s.driver) && WaitersOk(s.driver) && TasksOk(s) && Attributed(s)
  }

  /** `a` is `b` with some elements left out. */
  predicate Subsequence(a: seq<string>, b: seq<string>)
    decreases |b|
  {
    || a == []
    || (b != [] && a[|a| - 1] == b[|b| - 1] && Subsequence(a[..|a| - 1], b[..|b| - 1]))
    || (b != [] && Subsequence(a, b[..|b| - 1]))
  }

  /** The command in flight has heard nothing but complete lines that came after it was issued. */
  predicate Attributed(s: System) {
    s.driver.current.Some? ==>
      && s.driver.connected
      && s.driver.rxBuffer == Residue(s.since)
      && Subsequence(s.driver.current.value.lines, Lines(s.since))
  }

  // ----- Each callback keeps its part -----------------------------------------------------------

  /** What a callback may do to the command in flight: keep it or settle it, never replace it. */
  predicate Continues(d: Driver, e: Driver) {
    && d.nextId <= e.nextId
    && |d.settled| <= |e.settled| && e.settled[..|d.settled|] == d.settled
    && match d.current
       case None => e.current.None? && e.settled == d.settled
       case Some(c) => if e.current.Some? then e.current.value.id == c.id && e.settled == d.settled else IsSettled(e, c.id)
  }

  lemma ContinuesTwice(d: Driver, e: Driver, f: Driver)
    requires Continues(d, e) && Continues(e, f)
    ensures Continues(d, f)
  {
    assert f.settled[..|d.settled|] == f.settled[..|e.settled|][..|d.settled|];
  }

  lemma SettleOk(d: Driver, failure: Option<Failure>)
    requires CommandsOk(d)
    requires failure.None? && d.current.Some? ==> d.current.value.expectPrompt
    ensures CommandsOk(Settle(d, failure)) && Continues(d, Settle(d, failure))
    ensures Settle(d, failure).current.None?
    ensures WaitersOk(d) ==> WaitersOk(Settle(d, failure))
  {
    hide IsTerminalLine;
    if d.current.Some? {
      var e := Settle(d, failure);
      assert e.settled[|d.settled|].id == d.current.value.id;
    }
  }

  /** The waiter at `k` takes a line. */
  lemma AnswerOk(d: Driver, k: nat, line: string)
    requires CommandsOk(d) && WaitersOk(d) && k < |d.waiters|
    ensures var w := d.waiters[k];
            var e := d.(waiters := d.waiters[..k] + d.waiters[k + 1..], urcTimers := d.urcTimers - {w.id},
                        answers := d.answers + [Answer(w.id, Some(line))]);
            CommandsOk(e) && WaitersOk(e) && Continues(d, e)
  {
    hide IsTerminalLine, EndsInOk;
    RemovedWaiter(d.waiters, k);
  }

  /** The command in flight takes a line; a terminal line settles it. */
  lemma TakeLineOk(d: Driver, line: string)
    requires CommandsOk(d) && d.current.Some?
    ensures var c := d.current.value;
            var pushed := d.(current := Some(c.(lines := c.lines + [line])));
            var e := if !IsTerminalLine(line) then pushed
                     else Settle(pushed, if IsErrorLine(line) then Some(ModemError(line)) else None);
            CommandsOk(e) && Continues(d, e)
  {
    hide IsTerminalLine;
    OkIsTerminal();
    if IsTerminalLine(line) {
      var lines := d.current.value.lines + [line];
      var pushed := d.(current := Some(d.current.value.(lines := lines)));
      var e := Settle(pushed, if IsErrorLine(line) then Some(ModemError(line)) else None);
      assert lines[..|lines| - 1] == d.current.value.lines;
      assert e.settled[|d.settled|].id == d.current.value.id;
    }
  }

  lemma HandLineOk(d: Driver, line: string)
    requires CommandsOk(d) && WaitersOk(d)
    ensures CommandsOk(HandLine(d, line)) && WaitersOk(HandLine(d, line))
    ensures Continues(d, HandLine(d, line)) && HandLine(d, line).quietUntil == d.quietUntil
  {
    hide MatchingWaiter, IsTerminalLine, CommandsOk, EndsInOk;
    var k := MatchingWaiter(d.waiters, line, 0);
    if k < |d.waiters| {
      AnswerOk(d, k, line);
    } else if d.current.Some? {
      TakeLineOk(d, line);
    }
  }

  lemma OkIsTerminal()
    ensures IsTerminalLine("OK")
  {
  }

  lemma RemovedWaiter(waiters: seq<Waiter>, k: nat)
    requires k < |waiters|
    requires forall i, j :: 0 <= i < j < |waiters| ==> waiters[i].id != waiters[j].id
    ensures WaiterIds(waiters[..k] + waiters[k + 1..]) == WaiterIds(waiters) - {waiters[k].id}
  {
    var rest := waiters[..k] + waiters[k + 1..];
    forall id | id in WaiterIds(waiters) - {waiters[k].id}
      ensures id in WaiterIds(rest)
    {
      var j :| 0 <= j < |waiters| && waiters[j].id == id;
      assert waiters[j] in rest by {
        assert waiters[j] == rest[if j < k then j else j - 1];
      }
    }
    forall id | id in WaiterIds(rest)
      ensures id in WaiterIds(waiters) - {waiters[k].id}
    {
      var j :| 0 <= j < |rest| && rest[j].id == id;
      assert rest[j] == waiters[if j < k then j else j + 1];
    }
  }

  lemma {:induction false} HandLinesOk(d: Driver, lines: seq<string>)
    requires CommandsOk(d) && WaitersOk(d)
    ensures CommandsOk(HandLines(d, lines)) && WaitersOk(HandLines(d, lines))
    ensures Continues(d, HandLines(d, lines)) && HandLines(d, lines).quietUntil == d.quietUntil
    decreases |lines|
  {
    hide HandLine, CommandsOk, WaitersOk;
    if lines != [] {
      HandLineOk(d, lines[0]);
      HandLinesOk(HandLine(d, lines[0]), lines[1..]);
      ContinuesTwice(d, HandLine(d, lines[0]), HandLines(d, lines));
    }
  }

  lemma ReceiveOk(d: Driver, chunk: string)
    requires CommandsOk(d) && WaitersOk(d)
    ensures CommandsOk(Receive(d, chunk)) && WaitersOk(Receive(d, chunk))
    ensures Continues(d, Receive(d, chunk)) && Receive(d, chunk).quietUntil == d.quietUntil
  {
    hide HandLines, Lines, Residue, TrimStart, IsTerminalLine;
    var buffer := d.rxBuffer + chunk;
    HandLinesOk(d, Lines(buffer));
    var after := HandLines(d, Lines(buffer)).(rxBuffer := Residue(buffer));
    if PromptSeen(after) {
      SettleOk(after.(rxBuffer := ""), None);
      ContinuesTwice(d, after, Receive(d, chunk));
    }
  }

  lemma FailAllOk(d: Driver, failure: Failure)
    requires CommandsOk(d) && WaitersOk(d)
    ensures CommandsOk(FailAll(d, failure)) && WaitersOk(FailAll(d, failure))
    ensures Continues(d, FailAll(d, failure)) && FailAll(d, failure).quietUntil == d.quietUntil
  {
    hide IsTerminalLine;
    SettleOk(d, Some(failure));
    assert WaiterIds([]) == {};
  }

  lemma IssueOk(d: Driver, expectPrompt: bool)
    requires CommandsOk(d) && WaitersOk(d) && d.current.None?
    ensures CommandsOk(Issue(d, expectPrompt)) && WaitersOk(Issue(d, expectPrompt))
    ensures TaskOk(Issue(d, expectPrompt), Awaiting(d.nextId))
  {
    hide IsTerminalLine;
    if !d.connected {
      assert Issue(d, expectPrompt).settled[|d.settled|].id == d.nextId;
    }
  }

  lemma CommandTimeoutOk(d: Driver, id: nat, now: int)
    requires CommandsOk(d) && WaitersOk(d) && id in d.timers
    ensures CommandsOk(CommandTimeout(d, id, now)) && WaitersOk(CommandTimeout(d, id, now))
    ensures d.current.Some? && d.current.value.id == id && Continues(d, CommandTimeout(d, id, now))
  {
    hide IsTerminalLine;
    assert CommandTimeout(d, id, now).settled[|d.settled|].id == id;
  }

  lemma AddWaiterOk(d: Driver, prefix: string)
    requires CommandsOk(d) && WaitersOk(d)
    ensures CommandsOk(AddWaiter(d, prefix)) && WaitersOk(AddWaiter(d, prefix))
  {
    hide IsTerminalLine, EndsInOk;
    var e := AddWaiter(d, prefix);
    assert WaiterIds(e.waiters) == WaiterIds(d.waiters) + {d.nextId} by {
      assert forall w :: w in e.waiters <==> w in d.waiters || w == Waiter(d.nextId, prefix);
      assert Waiter(d.nextId, prefix) in e.waiters;
    }
  }

  lemma {:induction false} WithoutWaiterKeeps(waiters: seq<Waiter>, id: nat)
    requires forall i, j :: 0 <= i < j < |waiters| ==> waiters[i].id != waiters[j].id
    ensures var rest := WithoutWaiter(waiters, id);
            && (forall w :: w in rest <==> w in waiters && w.id != id)
            && (forall i, j :: 0 <= i < j < |rest| ==> rest[i].id != rest[j].id)
  {
    if waiters != [] {
      var rest := WithoutWaiter(waiters[1..], id);
      WithoutWaiterKeeps(waiters[1..], id);
      assert forall w :: w in waiters <==> w == waiters[0] || w in waiters[1..];
      forall j | 0 <= j < |rest|
        ensures rest[j].id != waiters[0].id
      {
        assert rest[j] in rest;
      }
    }
  }

  lemma WaiterTimeoutOk(d: Driver, id: nat)
    requires CommandsOk(d) && WaitersOk(d) && id in d.urcTimers
    ensures CommandsOk(WaiterTimeout(d, id)) && WaitersOk(WaiterTimeout(d, id))
  {
    hide IsTerminalLine, EndsInOk, WithoutWaiter;
    WithoutWaiterKeeps(d.waiters, id);
    var e := WaiterTimeout(d, id);
    assert WaiterIds(e.waiters) == WaiterIds(d.waiters) - {id};
    forall k | 0 <= k < |e.waiters|
      ensures e.waiters[k] in d.waiters && e.waiters[k].id != id
    {
      assert e.waiters[k] in e.waiters;
    }
  }

  // ----- Attribution ---------------------------------------------------------------------------

  lemma SubsequenceGrows(a: seq<string>, b: seq<string>, x: string)
    requires Subsequence(a, b)
    ensures Subsequence(a, b + [x]) && Subsequence(a + [x], b + [x])
  {
    assert (b + [x])[..|b|] == b && (a + [x])[..|a|] == a;
  }

  /** What became of the command that was in flight in `d`: still in flight or settled as the last one. */
  predicate HeardOnly(d: Driver, e: Driver, heard: seq<string>)
    requires d.current.Some?
  {
    if e.current.Some? then Subsequence(e.current.value.lines, heard)
    else
      && |e.settled| == |d.settled| + 1
      && var o := e.settled[|d.settled|].outcome;
         o.Resolved? ==> Subsequence(o.lines, heard)
  }

  lemma HandLineAttributes(d: Driver, line: string, heard: seq<string>)
    requires d.current.Some? && Subsequence(d.current.value.lines, heard)
    ensures HeardOnly(d, HandLine(d, line), heard + [line])
  {
    hide MatchingWaiter, IsTerminalLine;
    SubsequenceGrows(d.current.value.lines, heard, line);
  }

  lemma {:induction false} NobodyListens(d: Driver, lines: seq<string>)
    requires d.current.None?
    ensures HandLines(d, lines).current.None? && HandLines(d, lines).settled == d.settled
    decreases |lines|
  {
    hide MatchingWaiter, IsTerminalLine;
    if lines != [] {
      NobodyListens(HandLine(d, lines[0]), lines[1..]);
    }
  }

  lemma {:induction false} SubsequenceExtends(a: seq<string>, b: seq<string>, more: seq<string>)
    requires Subsequence(a, b)
    ensures Subsequence(a, b + more)
    decreases |more|
  {
    hide Subsequence;
    if more == [] {
      assert b + more == b;
    } else {
      SubsequenceGrows(a, b, more[0]);
      SubsequenceExtends(a, b + [more[0]], more[1..]);
      assert b + [more[0]] + more[1..] == b + more;
    }
  }

  lemma {:induction false} HandLinesAttributes(d: Driver, lines: seq<string>, heard: seq<string>)
    requires d.current.Some? && Subsequence(d.current.value.lines, heard)
    ensures HeardOnly(d, HandLines(d, lines), heard + lines)
    ensures HandLines(d, lines).current.Some? ==> HandLines(d, lines).settled == d.settled
    decreases |lines|
  {
    hide HandLine, Subsequence;
    if lines == [] {
      assert heard + lines == heard;
    } else {
      var e := HandLine(d, lines[0]);
      HandLineAttributes(d, lines[0], heard);
      HandLineKeepsLog(d, lines[0]);
      assert heard + [lines[0]] + lines[1..] == heard + lines;
      if e.current.Some? {
        HandLinesAttributes(e, lines[1..], heard + [lines[0]]);
      } else {
        NobodyListens(e, lines[1..]);
        var o := e.settled[|d.settled|].outcome;
        if o.Resolved? {
          SubsequenceExtends(o.lines, heard + [lines[0]], lines[1..]);
        }
      }
    }
  }

  lemma HandLineKeepsLog(d: Driver, line: string)
    ensures HandLine(d, line).current.Some? ==> HandLine(d, line).settled == d.settled
    ensures HandLine(d, line).connected == d.connected
  {
    hide MatchingWaiter, IsTerminalLine;
  }

  lemma {:induction false} HandLinesKeepConnection(d: Driver, lines: seq<string>)
    ensures HandLines(d, lines).connected == d.connected
    decreases |lines|
  {
    hide HandLine;
    if lines != [] {
      HandLineKeepsLog(d, lines[0]);
      HandLinesKeepConnection(HandLine(d, lines[0]), lines[1..]);
    }
  }

  /** A chunk, seen from the command in flight. */
  lemma ReceiveAttributes(s: System, chunk: string)
    requires Attributed(s) && s.driver.current.Some?
    ensures HeardOnly(s.driver, Receive(s.driver, chunk), Lines(s.since + chunk))
    ensures Attributed(Apply(s, Data(chunk)))
  {
    hide HandLines, Lines, Residue, TrimStart, Subsequence;
    var d := s.driver;
    LinesOfChunks(s.since, chunk);
    var lines := Lines(d.rxBuffer + chunk);
    HandLinesAttributes(d, lines, Lines(s.since));
    HandLinesKeepConnection(d, lines);
  }

  // ----- Every event keeps the invariant ---------------------------------------------------------

  lemma StaysSettled(d: Driver, e: Driver, id: nat)
    requires |d.settled| <= |e.settled| && e.settled[..|d.settled|] == d.settled
    requires IsSettled(d, id)
    ensures IsSettled(e, id)
  {
    var k :| 0 <= k < |d.settled| && d.settled[k].id == id;
    assert e.settled[k] == d.settled[k];
  }

  lemma TaskStaysOk(d: Driver, e: Driver, p: Phase)
    requires TaskOk(d, p) && Continues(d, e)
    requires e.quietUntil == d.quietUntil || d.current.Some?
    ensures TaskOk(e, p)
  {
    hide IsSettled;
    if p.Awaiting? && d.current.None? {
      StaysSettled(d, e, p.id);
    }
  }

  /** A callback that only keeps or settles the command in flight disturbs no task. */
  lemma CallbackKeepsTasks(s: System, e: Driver)
    requires TasksOk(s) && Continues(s.driver, e)
    requires e.quietUntil == s.driver.quietUntil || (s.driver.current.Some? && e.current.None?)
    ensures TasksOk(s.(driver := e))
  {
    hide TaskOk, IsSettled, OneAtATime, IsQueue;
    forall i | 0 <= i < |s.phases|
      ensures TaskOk(e, s.phases[i])
    {
      TaskStaysOk(s.driver, e, s.phases[i]);
    }
  }

  /** Only one task is neither queued nor finished. */
  lemma OneActive(phases: seq<Phase>, i: nat, j: nat)
    requires OneAtATime(phases) && i < |phases| && j < |phases|
    requires Active(phases[i]) && Active(phases[j])
    ensures i == j
  {
  }

  /** The active task changes its phase; every other task is queued or finished and does not care. */
  lemma ActiveMoves(s: System, i: nat, p: Phase, e: Driver)
    requires TasksOk(s) && i < |s.phases| && Active(s.phases[i]) && p != Queued
    requires TaskOk(e, p)
    requires e.current.Some? ==> p == Awaiting(e.current.value.id) && e.quietUntil <= s.now
    ensures TasksOk(s.(driver := e, phases := s.phases[i := p]))
  {
    hide TaskOk, IsQueue;
    var t := s.(driver := e, phases := s.phases[i := p]);
    forall j | 0 <= j < |t.phases|
      ensures TaskOk(e, t.phases[j])
    {
      if Active(s.phases[j]) {
        OneActive(s.phases, i, j);
      } else {
        InactiveIsOk(e, s.phases[j]);
      }
    }
    assert t.phases[i] == p;
  }

  lemma InactiveIsOk(d: Driver, p: Phase)
    requires !Active(p)
    ensures TaskOk(d, p)
  {
  }

  lemma TaskEventsKeepTasks(s: System, e: Event)
    requires Inv(s) && Enabled(s, e)
    requires e.Begin? || e.Wake? || e.Resume? || e.Finish?
    ensures TasksOk(Apply(s, e))
  {
    hide CommandsOk, WaitersOk, Attributed, IsQueue, OneAtATime;
    var i := e.task;
    assert TaskOk(s.driver, s.phases[i]);
    match e
    case Begin(_, p) =>
      ActiveMoves(s, i, Apply(s, e).phases[i], s.driver);
    case Wake(_) =>
      IssueOk(s.driver, s.phases[i].expectPrompt);
      ActiveMoves(s, i, Awaiting(s.driver.nextId), Issue(s.driver, s.phases[i].expectPrompt));
    case Resume(_) =>
      SettledIsNotCurrent(s.driver, s.phases[i].id);
      ActiveMoves(s, i, Ready, s.driver);
    case Finish(_, ok) =>
      ActiveMoves(s, i, Finished(ok), s.driver);
  }

  lemma SettledIsNotCurrent(d: Driver, id: nat)
    requires CommandsOk(d) && IsSettled(d, id)
    ensures d.current.Some? ==> d.current.value.id != id
  {
  }

  lemma NothingInFlightAtStart(s: System, i: nat)
    requires TasksOk(s) && Enabled(s, Start(i))
    ensures s.driver.current.None?
    ensures forall j :: 0 <= j < i ==> s.phases[j].Finished?
  {
    forall j | 0 <= j < i
      ensures s.phases[j].Finished?
    {
      assert s.lock.after[i] == Some(i - 1);
    }
    assert forall k :: 0 <= k < |s.phases| ==> !s.phases[k].Awaiting?;
  }

  lemma StartKeepsTasks(s: System, i: nat)
    requires Inv(s) && Enabled(s, Start(i))
    ensures TasksOk(Apply(s, Start(i)))
  {
    hide CommandsOk, WaitersOk, Attributed;
    var t := Apply(s, Start(i));
    NothingInFlightAtStart(s, i);
    forall j | 0 <= j < |t.phases|
      ensures TaskOk(t.driver, t.phases[j])
    {
      assert j != i ==> TaskOk(s.driver, s.phases[j]);
    }
  }

  lemma EnqueueKeepsTasks(s: System)
    requires TasksOk(s)
    ensures TasksOk(Apply(s, Enqueue))
  {
    var t := Apply(s, Enqueue);
    assert forall i :: 0 <= i < |s.phases| ==> t.phases[i] == s.phases[i];
    assert TaskOk(t.driver, Queued);
  }

  lemma AttributionKept(s: System, e: Event)
    requires Inv(s) && Enabled(s, e)
    ensures Attributed(Apply(s, e))
  {
    hide Receive, Lines, Residue, IsTerminalLine, WaitersOk, TaskOk, WithoutWaiter;
    match e
    case Data(chunk) =>
      if s.driver.current.Some? {
        ReceiveAttributes(s, chunk);
      } else {
        ReceiveOk(s.driver, chunk);
      }
    case Wake(_) => NothingToFrameYet();
    case _ =>
  }

  lemma NothingToFrameYet()
    ensures Lines("") == [] && Residue("") == "" && Subsequence([], [])
  {
  }

  lemma StepKeepsInv(s: System, e: Event)
    requires Inv(s) && Enabled(s, e)
    ensures Inv(Apply(s, e))
  {
    hide CommandsOk, WaitersOk, TasksOk, Attributed, Receive, FailAll, Settle;
    AttributionKept(s, e);
    StepKeepsParts(s, e);
  }

  lemma StepKeepsParts(s: System, e: Event)
    requires Inv(s) && Enabled(s, e)
    ensures CommandsOk(Apply(s, e).driver) && WaitersOk(Apply(s, e).driver) && TasksOk(Apply(s, e))
  {
    hide CommandsOk, WaitersOk, Attributed, Receive, FailAll, Settle, OneAtATime, IsQueue, TaskOk;
    var d := s.driver;
    match e
    case Enqueue => EnqueueKeepsTasks(s);
    case Start(i) => StartKeepsTasks(s, i);
    case Begin(_, _) => TaskEventsKeepTasks(s, e);
    case Wake(i) =>
      WakesOnlyAlone(s, i);
      IssueOk(d, s.phases[i].expectPrompt);
      TaskEventsKeepTasks(s, e);
    case Resume(_) => TaskEventsKeepTasks(s, e);
    case Finish(_, _) => TaskEventsKeepTasks(s, e);
    case Listen(_, prefix) =>
      AddWaiterOk(d, prefix);
      CallbackKeepsTasks(s, AddWaiter(d, prefix));
    case Data(chunk) =>
      ReceiveOk(d, chunk);
      CallbackKeepsTasks(s, Receive(d, chunk));
      assert Apply(s, e) == s.(driver := Receive(d, chunk)).(since := s.since + chunk);
    case CommandTimer(id) =>
      CommandTimeoutOk(d, id, s.now);
      CallbackKeepsTasks(s, CommandTimeout(d, id, s.now));
    case UrcTimer(id) =>
      WaiterTimeoutOk(d, id);
      CallbackKeepsTasks(s, WaiterTimeout(d, id));
    case WriteError =>
      SettleOk(d, Some(WriteFailed));
      SettleKeepsQuiet(d, Some(WriteFailed));
      CallbackKeepsTasks(s, Settle(d, Some(WriteFailed)));
    case PortClosing =>
      DisconnectOk(d);
      CallbackKeepsTasks(s, PortClose(d));
    case PortOpening =>
      ReconnectOk(s);
    case Shutdown =>
      FailAllOk(d, ShuttingDown);
      CallbackKeepsTasks(s, FailAll(d, ShuttingDown));
    case Tick(_) =>
  }

  lemma WakesOnlyAlone(s: System, i: nat)
    requires Inv(s) && i < |s.phases| && s.phases[i].Sleeping?
    ensures s.driver.current.None?
  {
    assert TaskOk(s.driver, s.phases[i]);
  }

  lemma SettleKeepsQuiet(d: Driver, failure: Option<Failure>)
    ensures Settle(d, failure).quietUntil == d.quietUntil
  {
  }

  lemma DisconnectOk(d: Driver)
    requires CommandsOk(d) && WaitersOk(d)
    ensures CommandsOk(PortClose(d)) && WaitersOk(PortClose(d)) && Continues(d, PortClose(d))
    ensures PortClose(d).quietUntil == d.quietUntil
  {
    hide EndsInOk, IsTerminalLine;
    FailAllOk(d.(connected := false), PortClosed);
  }

  lemma ReconnectOk(s: System)
    requires Inv(s) && !s.driver.connected
    ensures CommandsOk(PortOpen(s.driver)) && WaitersOk(PortOpen(s.driver))
    ensures TasksOk(s.(driver := PortOpen(s.driver)))
  {
    hide EndsInOk, IsTerminalLine, OneAtATime, IsQueue;
    CallbackKeepsTasks(s, PortOpen(s.driver));
  }

  lemma {:induction false} RunsKeepInv(s: System, events: seq<Event>)
    requires Inv(s)
    ensures Inv(Run(s, events))
    decreases |events|
  {
    hide Inv, Enabled, Apply;
    if events != [] {
      if Enabled(s, events[0]) {
        StepKeepsInv(s, events[0]);
        RunsKeepInv(Apply(s, events[0]), events[1..]);
      } else {
        RunsKeepInv(s, events[1..]);
      }
    }
  }

  // ----- What holds in every run -----------------------------------------------------------------

  /** The state after any finite interleaving of events. */
  lemma Reachable(events: seq<Event>)
    ensures Inv(Run(Initial(), events))
  {
    hide Run;
    assert Inv(Initial()) by {
      assert WaiterIds([]) == {};
    }
    RunsKeepInv(Initial(), events);
  }

  /**
    Tasks run strictly one at a time in the order they were queued, whether the earlier ones
    succeeded or failed; the command in flight, if any, is the one the running task awaits.
   */
  lemma TasksAreSerialized(events: seq<Event>)
    ensures var s := Run(Initial(), events);
            && (forall i, j :: 0 <= i < j < |s.phases| && s.phases[j] != Queued ==> s.phases[i].Finished?)
            && (forall i, j | 0 <= i < |s.phases| && 0 <= j < |s.phases| ::
                  (Active(s.phases[i]) && Active(s.phases[j])) ==> i == j)
            && (s.driver.current.Some? ==>
                  exists i :: 0 <= i < |s.phases| && s.phases[i] == Awaiting(s.driver.current.value.id))
  {
    hide Run, CommandsOk, WaitersOk, Attributed;
    Reachable(events);
  }

  /**
    Every command and every waiter settles at most once; a command that did not wait for a prompt
    and succeeds has `OK` as its last and only terminal line.
   */
  lemma PromisesSettleOnce(events: seq<Event>)
    ensures var d := Run(Initial(), events).driver;
            && (forall j, k :: 0 <= j < k < |d.settled| ==> d.settled[j].id != d.settled[k].id)
            && (forall j, k :: 0 <= j < k < |d.answers| ==> d.answers[j].id != d.answers[k].id)
            && (forall k :: 0 <= k < |d.settled| ==> Sound(d.settled[k].outcome))
  {
    hide Run, TasksOk, Attributed, EndsInOk;
    Reachable(events);
  }

  /** Issuing a command never drops another one: nothing is in flight at that moment. */
  lemma NoCommandIsOverwritten(events: seq<Event>, task: nat)
    requires Enabled(Run(Initial(), events), Wake(task))
    ensures Run(Initial(), events).driver.current.None?
  {
    hide Run;
    Reachable(events);
    WakesOnlyAlone(Run(Initial(), events), task);
  }

  lemma StepExtendsQuiet(s: System, e: Event)
    requires Inv(s) && Enabled(s, e)
    ensures s.driver.quietUntil <= Apply(s, e).driver.quietUntil
  {
    hide CommandsOk, WaitersOk, Attributed, Receive, FailAll, Settle, OneAtATime, IsQueue, TaskOk, WithoutWaiter;
    var d := s.driver;
    match e
    case Data(chunk) => ReceiveOk(d, chunk);
    case CommandTimer(id) => CommandTimeoutOk(d, id, s.now);
    case WriteError => SettleKeepsQuiet(d, Some(WriteFailed));
    case PortClosing => DisconnectOk(d);
    case Shutdown => FailAllOk(d, ShuttingDown);
    case _ =>
  }

  lemma {:induction false} RunExtendsQuiet(s: System, events: seq<Event>)
    requires Inv(s)
    ensures s.driver.quietUntil <= Run(s, events).driver.quietUntil
    decreases |events|
  {
    hide Inv, Enabled, Apply;
    if events != [] {
      if Enabled(s, events[0]) {
        StepExtendsQuiet(s, events[0]);
        StepKeepsInv(s, events[0]);
        RunExtendsQuiet(Apply(s, events[0]), events[1..]);
      } else {
        RunExtendsQuiet(s, events[1..]);
      }
    }
  }

  /**
    For two seconds after a command has timed out, whatever else happens, no command is in flight,
    so that what arrives then is attributed to none: it settles nothing.
   */
  lemma QuietPeriodIsUnattributed(events: seq<Event>, id: nat, more: seq<Event>, chunk: string)
    requires Enabled(Run(Initial(), events), CommandTimer(id))
    requires var s := Run(Initial(), events);
             Run(Apply(s, CommandTimer(id)), more).now < s.now + 2000
    ensures var t := Run(Apply(Run(Initial(), events), CommandTimer(id)), more);
            && t.driver.current.None?
            && Receive(t.driver, chunk).current.None?
            && Receive(t.driver, chunk).settled == t.driver.settled
  {
    hide Run, Receive, CommandsOk, WaitersOk, Attributed, OneAtATime, IsQueue, TaskOk;
    Reachable(events);
    var s := Run(Initial(), events);
    var after := Apply(s, CommandTimer(id));
    StepKeepsInv(s, CommandTimer(id));
    RunsKeepInv(after, more);
    RunExtendsQuiet(after, more);
    var t := Run(after, more);
    ReceiveOk(t.driver, chunk);
  }

  /**
    A command that a chunk settles successfully has only lines that arrived completely after it
    was issued, in the order they arrived.
   */
  lemma LinesBelongToTheirCommand(events: seq<Event>, chunk: string)
    requires Run(Initial(), events).driver.current.Some?
    ensures var s := Run(Initial(), events);
            HeardOnly(s.driver, Receive(s.driver, chunk), Lines(s.since + chunk))
  {
    hide Run, Receive, HeardOnly;
    Reachable(events);
    ReceiveAttributes(Run(Initial(), events), chunk);
  }
}
