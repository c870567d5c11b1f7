/**
  What the serial driver makes of what it hears and of what goes wrong, on the characters
  themselves: prompts, result codes, unsolicited lines, acknowledgements and failures
  (utils/modem.js).
 */
module SerialReactions {
  import opened Wrappers
  import opened Framing
  import opened SerialDriver
  import opened Listing
  import SerialDialogue
  import SerialTasks

  // ----- Lines -----------------------------------------------------------------------------------

  /** The results that end a command: V.250 result codes, and those of 3GPP TS 27.005 and 27.007. */
  predicate EndsCommand(line: string) {
    || line == "OK" || line == "ERROR" || line == "NO CARRIER"
    || "+CMS ERROR" <= line || "+CME ERROR" <= line
  }

  /** A line nobody waits for goes to the command in flight, and ends it if and only if it is a final result. */
  lemma LineGoesToTheCommand(d: Driver, line: string)
    requires d.current.Some? && NobodyWaitsFor(d, [line])
    ensures var c := d.current.value;
            HandLine(d, line) ==
            if line == "OK" then
              d.(current := None, timers := d.timers - {c.id},
                 settled := d.settled + [Settlement(c.id, Resolved(c.lines + [line], c.expectPrompt))])
            else if EndsCommand(line) then
              d.(current := None, timers := d.timers - {c.id},
                 settled := d.settled + [Settlement(c.id, Rejected(ModemError(line)))])
            else d.(current := Some(c.(lines := c.lines + [line])))
  {
    assert [line][0] == line;
    NobodyTakes(d, line);
  }

  /** The first waiter whose prefix a line has is answered with the line and leaves; nobody else hears of it. */
  lemma LineGoesToTheFirstWaiter(d: Driver, line: string, k: nat)
    requires k < |d.waiters| && d.waiters[k].prefix <= line
    requires forall j :: 0 <= j < k ==> !(d.waiters[j].prefix <= line)
    ensures HandLine(d, line) ==
            d.(waiters := d.waiters[..k] + d.waiters[k + 1..], urcTimers := d.urcTimers - {d.waiters[k].id},
               answers := d.answers + [Answer(d.waiters[k].id, Some(line))])
  {
  }

  // ----- Prompts ---------------------------------------------------------------------------------

  predicate StartsWithPrompt(residue: string) {
    TrimStart(residue) != "" && TrimStart(residue)[0] == '>'
  }

  /** The one settlement, if any, by which `e` is ahead of `d`. */
  function NewOutcome(d: Driver, e: Driver): Option<Outcome> {
    if |e.settled| == |d.settled| + 1 then Some(e.settled[|d.settled|].outcome) else None
  }

  /** Lines that are not `OK` leave a command in flight or reject it for one of them. */
  predicate PendingOrRejected(d: Driver, e: Driver, lines: seq<string>)
    requires d.current.Some?
  {
    var c := d.current.value;
    if e.current.Some? then
      e.settled == d.settled && e.current.value.id == c.id && e.current.value.expectPrompt == c.expectPrompt
    else
      && |e.settled| == |d.settled| + 1 && e.settled[..|d.settled|] == d.settled
      && e.settled[|d.settled|].id == c.id && e.settled[|d.settled|].outcome.Rejected?
      && exists i :: 0 <= i < |lines| && IsTerminalLine(lines[i])
  }

  lemma LineLeavesPending(d: Driver, line: string)
    requires d.current.Some? && line != "OK"
    ensures PendingOrRejected(d, HandLine(d, line), [line])
  {
    assert [line][0] == line;
  }

  lemma {:induction false} LinesLeavePending(d: Driver, lines: seq<string>)
    requires d.current.Some? && "OK" !in lines
    ensures PendingOrRejected(d, HandLines(d, lines), lines)
    decreases |lines|
  {
    hide HandLine, IsTerminalLine;
    if lines != [] {
      var e := HandLine(d, lines[0]);
      LineLeavesPending(d, lines[0]);
      if e.current.Some? {
        LinesLeavePending(e, lines[1..]);
        if HandLines(d, lines).current.None? {
          var i :| 0 <= i < |lines[1..]| && IsTerminalLine(lines[1..][i]);
          assert lines[i + 1] == lines[1..][i];
        }
      } else {
        NothingSettles(e, lines[1..]);
        var i :| 0 <= i < 1 && IsTerminalLine([lines[0]][i]);
        assert IsTerminalLine(lines[0]);
      }
    }
  }

  /** Without a command in flight no line settles anything. */
  lemma {:induction false} NothingSettles(d: Driver, lines: seq<string>)
    requires d.current.None?
    ensures HandLines(d, lines).current.None? && HandLines(d, lines).settled == d.settled
    decreases |lines|
  {
    if lines != [] {
      NothingSettles(HandLine(d, lines[0]), lines[1..]);
    }
  }

  /**
    A command that waits for the prompt is resolved by a chunk without a line `OK` if and only if
    what stands behind the last line feed begins with `>`, blanks apart, and no line of the chunk
    has rejected it. The prompt is taken off the buffer; any other residue stays.
   */
  lemma PromptResolves(d: Driver, chunk: string)
    requires d.current.Some? && d.current.value.expectPrompt && "OK" !in Lines(d.rxBuffer + chunk)
    ensures var e, c, residue := Receive(d, chunk), d.current.value, Residue(d.rxBuffer + chunk);
            var o := NewOutcome(d, e);
            && (o.Some? && o.value.Resolved? <==> StartsWithPrompt(residue) && !(o.Some? && o.value.Rejected?))
            && (e.current.None? <==> o.Some?)
            && (o.None? ==> e.settled == d.settled && e.current.value.id == c.id)
            && (o.Some? ==> e.settled == d.settled + [Settlement(c.id, o.value)])
            && (o.Some? && o.value.Rejected? ==>
                  exists i :: 0 <= i < |Lines(d.rxBuffer + chunk)| && EndsCommand(Lines(d.rxBuffer + chunk)[i]))
            && e.rxBuffer == if o.Some? && o.value.Resolved? then "" else residue
  {
    hide HandLines, Lines, Residue, TrimStart;
    var buffer := d.rxBuffer + chunk;
    LinesLeavePending(d, Lines(buffer));
    var after := HandLines(d, Lines(buffer)).(rxBuffer := Residue(buffer));
    if after.current.None? {
      assert after.settled == d.settled + [after.settled[|d.settled|]];
      var i :| 0 <= i < |Lines(buffer)| && IsTerminalLine(Lines(buffer)[i]);
      assert EndsCommand(Lines(buffer)[i]);
    }
  }

  /** The prompt as a modem sends it. */
  lemma PromptAsSent(d: Driver)
    requires d.connected
    ensures var e := Receive(Issue(d, true), "\r\n> ");
            && e.current == None && e.rxBuffer == ""
            && e.settled == d.settled + [Settlement(d.nextId, Resolved([], true))]
  {
    hide HandLines, Lines, Residue, TrimStart;
    var s, f := "\r\n> ", Issue(d, true);
    PromptIsFramed();
    assert f.rxBuffer + s == s;
    NothingToHand(f);
  }

  lemma PromptIsFramed()
    ensures Lines("\r\n> ") == [] && Residue("\r\n> ") == "> " && TrimStart("> ") == "> "
  {
    var s := "\r\n> ";
    assert FirstLf(s) == 1 && s[..1] == "\r" && s[2..] == "> ";
    assert FirstLf("> ") == 2;
    assert Trim("\r") == "";
  }

  lemma NothingToHand(d: Driver)
    ensures HandLines(d, []) == d
  {
  }

  lemma {:induction false} NothingMoreSettles(d: Driver, chunks: seq<string>)
    requires d.current.None?
    ensures ReceiveAll(d, chunks).current.None? && ReceiveAll(d, chunks).settled == d.settled
    decreases |chunks|
  {
    hide HandLines, Lines, Residue, TrimStart;
    if chunks != [] {
      NothingSettles(d, Lines(d.rxBuffer + chunks[0]));
      NothingMoreSettles(Receive(d, chunks[0]), chunks[1..]);
    }
  }

  predicate NoFinalResult(lines: seq<string>) {
    forall i :: 0 <= i < |lines| ==> !EndsCommand(lines[i])
  }

  /**
    The prompt resolves its command however the stream is cut into chunks: all that matters is that
    the stream has no final result and ends in a line that begins with `>`.
   */
  lemma {:induction false} PromptResolvesInPieces(d: Driver, chunks: seq<string>)
    requires d.current.Some? && d.current.value.expectPrompt && !StartsWithPrompt(d.rxBuffer)
    requires FirstLf(d.rxBuffer) == |d.rxBuffer|
    requires var stream := d.rxBuffer + Concatenation(chunks);
             NoFinalResult(Lines(stream)) && StartsWithPrompt(Residue(stream))
    ensures var e := ReceiveAll(d, chunks);
            && e.current.None? && |e.settled| == |d.settled| + 1 && e.settled[..|d.settled|] == d.settled
            && e.settled[|d.settled|].id == d.current.value.id && e.settled[|d.settled|].outcome.Resolved?
    decreases |chunks|
  {
    hide HandLines, Lines, Residue, TrimStart, Receive, FirstLf, EndsCommand, StartsWithPrompt;
    assert chunks == [] ==> d.rxBuffer + Concatenation(chunks) == d.rxBuffer;
    LinesOfNoLf(d.rxBuffer);
    if chunks != [] {
      var buffer, rest := d.rxBuffer + chunks[0], Concatenation(chunks[1..]);
      assert d.rxBuffer + Concatenation(chunks) == buffer + rest;
      LinesOfChunks(buffer, rest);
      FirstLinesAreHarmless(Lines(buffer), Lines(Residue(buffer) + rest));
      PromptResolves(d, chunks[0]);
      var e := Receive(d, chunks[0]);
      if StartsWithPrompt(Residue(buffer)) {
        NothingMoreSettles(e, chunks[1..]);
      } else {
        NoLfInResidue(buffer);
        StillWaitsForPrompt(d, chunks[0]);
        PromptResolvesInPieces(e, chunks[1..]);
      }
    }
  }

  lemma FirstLinesAreHarmless(a: seq<string>, b: seq<string>)
    requires NoFinalResult(a + b)
    ensures NoFinalResult(a) && NoFinalResult(b) && "OK" !in a
  {
    forall i | 0 <= i < |a|
      ensures !EndsCommand(a[i])
    {
      assert a[i] == (a + b)[i];
    }
    forall i | 0 <= i < |b|
      ensures !EndsCommand(b[i])
    {
      assert b[i] == (a + b)[|a| + i];
    }
  }

  lemma StillWaitsForPrompt(d: Driver, chunk: string)
    requires d.current.Some? && Receive(d, chunk).current.Some? && "OK" !in Lines(d.rxBuffer + chunk)
    ensures Receive(d, chunk).current.value.expectPrompt == d.current.value.expectPrompt
  {
    hide HandLines, Lines, Residue, TrimStart;
    LinesLeavePending(d, Lines(d.rxBuffer + chunk));
  }

  // ----- Acknowledgements ------------------------------------------------------------------------

  /** A response that ends in `OK`, in any chunks, resolves a command that waits for no prompt with its lines. */
  lemma ResponseResolves(d: Driver, lines: seq<string>, chunks: seq<string>)
    requires d.current.Some? && !d.current.value.expectPrompt && FirstLf(d.rxBuffer) == |d.rxBuffer|
    requires NoFinalResult(lines) && NobodyWaitsFor(d, lines + ["OK"])
    requires Lines(d.rxBuffer + Concatenation(chunks)) == lines + ["OK"]
    ensures var e, c := ReceiveAll(d, chunks), d.current.value;
            && e.current.None?
            && e.settled == d.settled + [Settlement(c.id, Resolved(c.lines + (lines + ["OK"]), false))]
  {
    hide HandLines, Lines, Residue, Receive, ReceiveAll, FirstLf, Heard;
    ChunksActAsOneStream(d, chunks);
    assert (lines + ["OK"])[|lines|] == "OK";
    CommandHears(d, lines + ["OK"]);
    forall i | 0 <= i < |lines|
      ensures !IsTerminalLine(lines[i])
    {
      assert !EndsCommand(lines[i]);
    }
    HeardBehind(lines, ["OK"]);
    OkIsHeard();
  }

  /**
    The acknowledgement of a body as a modem sends it, in any chunks: the task is given its lines,
    and takes the reference out of them.
   */
  lemma AcknowledgementIsRead(d: Driver, number: nat, chunks: seq<string>)
    requires d.connected && NobodyWaitsFor(d, [ReferenceLine(number), "OK"])
    requires Concatenation(chunks) == "\r\n" + (ReferenceLine(number) + "\r\n" + "\r\nOK\r\n")
    ensures var e, lines := ReceiveAll(Issue(d, false), chunks), [ReferenceLine(number), "OK"];
            && e.current.None?
            && e.settled == d.settled + [Settlement(d.nextId, Resolved(lines, false))]
            && SerialTasks.Reference(lines) == Some("+CMGS: " + Decimal(number))
  {
    hide Lines, Residue, ReceiveAll, FirstLf, Decimal, Trim;
    var line, f := ReferenceLine(number), Issue(d, false);
    ReferenceIsPlain(number);
    var lines, none: seq<string> := [line], [];
    assert lines + ["OK"] == [line, "OK"] && none + [line, "OK"] == [line, "OK"];
    AcknowledgementIsFramed(line);
    NothingBuffered();
    var stream := Concatenation(chunks);
    assert f.rxBuffer + stream == stream;
    ResponseResolves(f, lines, chunks);
    assert "+CMGS" <= line by {
      assert line[..5] == "+CMGS";
    }
  }

  function ReferenceLine(number: nat): string {
    "+CMGS: " + Decimal(number)
  }

  lemma ReferenceIsPlain(number: nat)
    ensures PlainLine(ReferenceLine(number)) && !EndsCommand(ReferenceLine(number))
  {
    hide Trim, Decimal;
    DecimalReadsBack(number);
    var line := ReferenceLine(number);
    assert line[0] == '+' && line[4] == 'S' && line[|line| - 1] == Decimal(number)[|Decimal(number)| - 1];
    TrimKeeps(line);
  }

  lemma AcknowledgementIsFramed(line: string)
    requires PlainLine(line)
    ensures Lines("\r\n" + (line + "\r\n" + "\r\nOK\r\n")) == [line, "OK"]
  {
    hide PlainLine, Lines, Residue, Trim;
    var rest := line + "\r\n" + "\r\nOK\r\n";
    LinesOfChunks("\r\n", rest);
    EmptyLineIsFramed();
    LineIsFramed(line, "\r\nOK\r\n");
    OkIsFramed();
    assert "" + rest == rest && [line] + ["OK"] == [line, "OK"];
  }

  lemma EmptyLineIsFramed()
    ensures Lines("\r\n") == [] && Residue("\r\n") == ""
  {
    assert FirstLf("\r\n") == 1 && "\r\n"[..1] == "\r" && "\r\n"[2..] == "";
    assert Trim("\r") == "";
  }

  // ----- Failures --------------------------------------------------------------------------------

  /** What a failure says to the command in flight. */
  function FailureOf(e: SerialDialogue.Event): Option<Failure> {
    match e
    case CommandTimer(_) => Some(TimedOut)
    case WriteError => Some(WriteFailed)
    case PortClosing => Some(PortClosed)
    case Shutdown => Some(ShuttingDown)
    case _ => None
  }

  /** A command on a closed port is rejected at once; on an open one it is in flight with its timer. */
  lemma IssuedOnlyIfConnected(d: Driver, expectPrompt: bool)
    ensures var e := Issue(d, expectPrompt);
            && e.nextId == d.nextId + 1
            && if d.connected then
                 && e.current == Some(Command(d.nextId, [], expectPrompt)) && e.rxBuffer == ""
                 && e.timers == d.timers + {d.nextId} && e.settled == d.settled
               else
                 && e.settled == d.settled + [Settlement(d.nextId, Rejected(NotConnected))]
                 && e.current == d.current && e.timers == d.timers
  {
  }

  /**
    No failure leaves a caller hanging: in every run a timeout, a write error, a closed port or a
    shutdown rejects the command in flight for that reason, and the last two answer every waiter
    with null, in order.
   */
  lemma FailuresReachTheCallers(events: seq<SerialDialogue.Event>, e: SerialDialogue.Event)
    requires SerialDialogue.Enabled(SerialDialogue.Run(SerialDialogue.Initial(), events), e) && FailureOf(e).Some?
    ensures var s := SerialDialogue.Run(SerialDialogue.Initial(), events);
            var d, t := s.driver, SerialDialogue.Apply(s, e).driver;
            && t.current.None? && t.timers == {}
            && t.settled == (if d.current.None? then d.settled
                             else d.settled + [Settlement(d.current.value.id, Rejected(FailureOf(e).value))])
            && (e.CommandTimer? ==> d.current.Some? && t.quietUntil == s.now + 2000)
            && (e.PortClosing? ==> !t.connected)
            && if e.PortClosing? || e.Shutdown? then
                 && t.waiters == [] && t.urcTimers == {}
                 && |t.answers| == |d.answers| + |d.waiters| && t.answers[..|d.answers|] == d.answers
                 && forall i :: 0 <= i < |d.waiters| ==>
                      t.answers[|d.answers| + i] == Answer(d.waiters[i].id, None)
               else t.waiters == d.waiters && t.answers == d.answers
  {
    hide SerialDialogue.Run, SerialDialogue.TasksOk, SerialDialogue.Attributed, IsTerminalLine;
    SerialDialogue.Reachable(events);
  }

  /** A waiter whose time is up is answered with null and leaves; the others stay, in order. */
  lemma WaiterGivesUp(d: Driver, k: nat)
    requires SerialDialogue.WaitersOk(d) && k < |d.waiters|
    ensures WaiterTimeout(d, d.waiters[k].id) ==
            d.(waiters := d.waiters[..k] + d.waiters[k + 1..], urcTimers := d.urcTimers - {d.waiters[k].id},
               answers := d.answers + [Answer(d.waiters[k].id, None)])
  {
    OneLeaves(d.waiters, k);
  }

  lemma {:induction false} OneLeaves(waiters: seq<Waiter>, k: nat)
    requires k < |waiters|
    requires forall i, j :: 0 <= i < j < |waiters| ==> waiters[i].id != waiters[j].id
    ensures WithoutWaiter(waiters, waiters[k].id) == waiters[..k] + waiters[k + 1..]
  {
    var rest := waiters[1..];
    if k == 0 {
      NobodyLeaves(rest, waiters[0].id);
    } else {
      OneLeaves(rest, k - 1);
      assert rest[..k - 1] == waiters[1..k] && rest[k..] == waiters[k + 1..];
      assert [waiters[0]] + waiters[1..k] == waiters[..k];
    }
  }

  lemma {:induction false} NobodyLeaves(waiters: seq<Waiter>, id: nat)
    requires forall i :: 0 <= i < |waiters| ==> waiters[i].id != id
    ensures WithoutWaiter(waiters, id) == waiters
  {
    if waiters != [] {
      NobodyLeaves(waiters[1..], id);
    }
  }
}
