/**
  The tasks of the serial driver (utils/modem.js): what they write to the modem, in which mode the
  modem is at that moment, and what their results mean. A task runs against an arbitrary script of
  replies; a write that is not acknowledged may or may not have reached the modem.
 */
module SerialTasks {
  import opened Wrappers
  import opened Utf16
  import opened Septets
  import opened SmsEncoding
  import opened Splitting
  import opened Hex
  import opened Pdu
  import opened Receiver
  import opened PduReading
  import opened EndToEnd
  import opened Listing
  import opened TextMode
  import Inbox

  /** What is written at the body prompt. */
  datatype Content = GsmBytes(bytes: seq<Octet>) | Ucs2Digits(digits: string) | PduText(pdu: string)

  /** What a task awaits: commands and bodies for the modem, and the persist callback. */
  datatype Write =
    | SetMode(text: bool)                        // AT+CMGF=1, AT+CMGF=0
    | SetCentre(smsc: string)                    // AT+CSCA="..."
    | SetCharset(ucs2: bool)                     // AT+CSCS="UCS2", AT+CSCS="GSM"
    | SetParameters(ucs2: bool)                  // AT+CSMP=17,167,0,8, AT+CSMP=17,167,0,0
    | SubmitText(address: string, ucs2: bool)    // AT+CMGS="..."
    | SubmitLength(length: nat)                  // AT+CMGS=<length>
    | Body(content: Content)                     // ended by Ctrl+Z
    | Escape
    | SelectStorage                              // AT+CPMS="SM","SM","SM"
    | ListAll                                    // AT+CMGL="ALL"
    | Store(messages: seq<Message>, receivedAt: string)  // persist(result), which may throw
    | Delete(index: nat)                         // AT+CMGD=<index>,0
    | Ussd(code: string)                         // AT+CUSD=1,"...",15
    | Attention                                  // AT
    | EchoOff                                    // ATE0

  /** How `transact` ends; `applied` is the modem's secret. */
  datatype Reply = Acked(lines: seq<string>) | Lost(timedOut: bool, applied: bool)

  datatype Step = Step(write: Write, reply: Reply)

  datatype Result<T> = Done(value: T) | Threw(confirmTimeout: bool)

  // ----- The modem's modes -----------------------------------------------------------------------

  datatype Modem = Modem(textMode: bool, ucs2Charset: bool, ucs2Coding: bool)

  function Configure(m: Modem, w: Write): Modem {
    match w
    case SetMode(text) => m.(textMode := text)
    case SetCharset(ucs2) => m.(ucs2Charset := ucs2)
    case SetParameters(ucs2) => m.(ucs2Coding := ucs2)
    case _ => m
  }

  function AfterStep(m: Modem, s: Step): Modem {
    if s.reply.Acked? || s.reply.applied then Configure(m, s.write) else m
  }

  function AfterSteps(m: Modem, steps: seq<Step>): Modem
    decreases |steps|
  {
    if steps == [] then m else AfterSteps(AfterStep(m, steps[0]), steps[1..])
  }

  /** Whether the modem is in the mode the write takes for granted. */
  predicate Fits(m: Modem, w: Write) {
    match w
    case SubmitText(_, ucs2) => m.textMode && m.ucs2Charset == ucs2
    case SubmitLength(_) => !m.textMode
    case ListAll => m.textMode && !m.ucs2Charset
    case Body(PduText(_)) => !m.textMode
    case Body(GsmBytes(_)) => m.textMode && !m.ucs2Charset && !m.ucs2Coding
    case Body(Ucs2Digits(_)) => m.textMode && m.ucs2Charset && m.ucs2Coding
    case _ => true
  }

  predicate AllFit(m: Modem, steps: seq<Step>)
    decreases |steps|
  {
    steps == [] || (Fits(m, steps[0].write) && AllFit(AfterStep(m, steps[0]), steps[1..]))
  }

  lemma {:induction false} StepsConcat(m: Modem, a: seq<Step>, b: seq<Step>)
    ensures AfterSteps(m, a + b) == AfterSteps(AfterSteps(m, a), b)
    ensures AllFit(m, a + b) <==> AllFit(m, a) && AllFit(AfterSteps(m, a), b)
    decreases |a|
  {
    hide AfterStep, Fits;
    if a == [] {
      assert a + b == b;
    } else {
      assert (a + b)[1..] == a[1..] + b;
      StepsConcat(AfterStep(m, a[0]), a[1..], b);
    }
  }

  // ----- What the writes carried -----------------------------------------------------------------

  predicate AllAcked(steps: seq<Step>) {
    forall i :: 0 <= i < |steps| ==> steps[i].reply.Acked?
  }

  lemma LostStaysLost(a: seq<Step>, b: seq<Step>)
    ensures AllAcked(a + b) <==> AllAcked(a) && AllAcked(b)
  {
    if AllAcked(a + b) {
      forall i | 0 <= i < |a|
        ensures a[i].reply.Acked?
      {
        assert (a + b)[i] == a[i];
      }
      forall i | 0 <= i < |b|
        ensures b[i].reply.Acked?
      {
        assert (a + b)[|a| + i] == b[i];
      }
    }
  }

  predicate IsLostBody(s: Step) {
    s.write.Body? && s.reply.Lost? && s.reply.timedOut
  }

  /** Some body was handed to the modem and its confirmation never came. */
  predicate BodyUnconfirmed(steps: seq<Step>) {
    exists i :: 0 <= i < |steps| && IsLostBody(steps[i])
  }

  /** Behind an unconfirmed body no other is written. */
  predicate UnconfirmedIsLast(steps: seq<Step>) {
    forall i, j :: 0 <= i < j < |steps| && IsLostBody(steps[i]) ==> !steps[j].write.Body?
  }

  lemma LastConcat(a: seq<Step>, b: seq<Step>)
    requires UnconfirmedIsLast(a) && UnconfirmedIsLast(b)
    requires !BodyUnconfirmed(a) || forall j :: 0 <= j < |b| ==> !b[j].write.Body?
    ensures UnconfirmedIsLast(a + b)
  {
    hide IsLostBody;
    var steps := a + b;
    forall i, j | 0 <= i < j < |steps| && IsLostBody(steps[i])
      ensures !steps[j].write.Body?
    {
      if i < |a| {
        assert steps[i] == a[i];
        assert steps[j] == if j < |a| then a[j] else b[j - |a|];
      } else {
        assert steps[i] == b[i - |a|] && steps[j] == b[j - |a|];
      }
    }
  }

  lemma ConfirmedIsLast(steps: seq<Step>)
    requires !BodyUnconfirmed(steps)
    ensures UnconfirmedIsLast(steps)
  {
  }

  /** The contents of the acknowledged bodies, in order. */
  function Bodies(steps: seq<Step>): seq<Content> {
    if steps == [] then [] else BodiesOf(steps[0]) + Bodies(steps[1..])
  }

  function BodiesOf(s: Step): seq<Content> {
    if s.write.Body? && s.reply.Acked? then [s.write.content] else []
  }

  lemma {:induction false} BodiesConcat(a: seq<Step>, b: seq<Step>)
    ensures Bodies(a + b) == Bodies(a) + Bodies(b)
  {
    hide BodiesOf;
    if a == [] {
      assert a + b == b;
    } else {
      BodiesConcat(a[1..], b);
      assert (a + b)[0] == a[0] && (a + b)[1..] == a[1..] + b;
      var head := BodiesOf(a[0]);
      assert head + (Bodies(a[1..]) + Bodies(b)) == head + Bodies(a[1..]) + Bodies(b);
    }
  }

  lemma UnconfirmedConcat(a: seq<Step>, b: seq<Step>)
    ensures BodyUnconfirmed(a + b) <==> BodyUnconfirmed(a) || BodyUnconfirmed(b)
  {
    forall i | 0 <= i < |a|
      ensures (a + b)[i] == a[i]
    {
    }
    forall i | 0 <= i < |b|
      ensures (a + b)[|a| + i] == b[i]
    {
    }
  }

  /** The references of the acknowledged bodies that have one, in order. */
  function References(steps: seq<Step>): seq<string> {
    if steps == [] then [] else ReferencesOf(steps[0]) + References(steps[1..])
  }

  function ReferencesOf(s: Step): seq<string> {
    if s.write.Body? && s.reply.Acked? && Reference(s.reply.lines).Some? then [Reference(s.reply.lines).value] else []
  }

  lemma {:induction false} ReferencesConcat(a: seq<Step>, b: seq<Step>)
    ensures References(a + b) == References(a) + References(b)
  {
    hide ReferencesOf;
    if a == [] {
      assert a + b == b;
    } else {
      ReferencesConcat(a[1..], b);
      assert (a + b)[0] == a[0] && (a + b)[1..] == a[1..] + b;
      var head := ReferencesOf(a[0]);
      assert head + (References(a[1..]) + References(b)) == head + References(a[1..]) + References(b);
    }
  }

  /** The `+CMGS` line of an acknowledgement, if any. */
  function Reference(lines: seq<string>): Option<string> {
    if lines == [] then None
    else if "+CMGS" <= lines[0] then Some(lines[0])
    else Reference(lines[1..])
  }

  /** It is the first line that begins so. */
  lemma {:induction false} ReferenceIsFirst(lines: seq<string>, i: nat)
    requires i < |lines| && "+CMGS" <= lines[i] && forall j :: 0 <= j < i ==> !("+CMGS" <= lines[j])
    ensures Reference(lines) == Some(lines[i])
  {
    if i > 0 {
      ReferenceIsFirst(lines[1..], i - 1);
    }
  }

  lemma {:induction false} NoReference(lines: seq<string>)
    requires forall j :: 0 <= j < |lines| ==> !("+CMGS" <= lines[j])
    ensures Reference(lines) == None
  {
    if lines != [] {
      NoReference(lines[1..]);
    }
  }

  /** What a send returns for its references. */
  function Joined(refs: seq<string>): Option<string> {
    if refs == [] then None else Some(JoinReferences(refs))
  }

  /** `refs.join('; ')`. */
  function JoinReferences(refs: seq<string>): string {
    if refs == [] then ""
    else if |refs| == 1 then refs[0]
    else JoinReferences(refs[..|refs| - 1]) + "; " + refs[|refs| - 1]
  }

  lemma JoinedWithSemicolons(refs: seq<string>, r: string)
    ensures Joined([]) == None && Joined([r]) == Some(r)
    ensures refs != [] ==> Joined(refs + [r]) == Some(Joined(refs).value + "; " + r)
  {
    assert (refs + [r])[..|refs|] == refs;
  }

  /** The indexes of all deletions written, acknowledged or not. */
  function Deletions(steps: seq<Step>): seq<nat> {
    if steps == [] then [] else DeletionsOf(steps[0]) + Deletions(steps[1..])
  }

  function DeletionsOf(s: Step): seq<nat> {
    if s.write.Delete? then [s.write.index] else []
  }

  lemma {:induction false} DeletionsConcat(a: seq<Step>, b: seq<Step>)
    ensures Deletions(a + b) == Deletions(a) + Deletions(b)
  {
    hide DeletionsOf;
    if a == [] {
      assert a + b == b;
    } else {
      DeletionsConcat(a[1..], b);
      assert (a + b)[0] == a[0] && (a + b)[1..] == a[1..] + b;
      var head := DeletionsOf(a[0]);
      assert head + (Deletions(a[1..]) + Deletions(b)) == head + Deletions(a[1..]) + Deletions(b);
    }
  }

  /** What the inbox machine sees of a step; other steps are none of its business. */
  function InboxEventsOf(s: Step): seq<Inbox.Event> {
    match s.write
    case ListAll => if s.reply.Acked? then [Inbox.List(ItemsOf(ReadLines([], s.reply.lines)))] else []
    case Store(messages, receivedAt) =>
      [if s.reply.Acked? then Inbox.Persist(ItemsOf(messages), receivedAt) else Inbox.PersistThrows]
    case Delete(k) =>
      [Inbox.Delete({k}, if s.reply.Acked? || s.reply.applied then {k} else {}, s.reply.Acked?)]
    case _ => []
  }

  function InboxEvents(steps: seq<Step>): seq<Inbox.Event> {
    if steps == [] then [] else InboxEventsOf(steps[0]) + InboxEvents(steps[1..])
  }

  function ItemsOf(messages: seq<Message>): seq<Inbox.Item> {
    seq(|messages|, i requires 0 <= i < |messages| =>
      Inbox.Item(messages[i].index, Inbox.Content(messages[i].from, messages[i].date, Inbox.Chars(messages[i].text))))
  }

  lemma {:induction false} InboxEventsConcat(a: seq<Step>, b: seq<Step>)
    ensures InboxEvents(a + b) == InboxEvents(a) + InboxEvents(b)
  {
    hide InboxEventsOf;
    if a == [] {
      assert a + b == b;
    } else {
      InboxEventsConcat(a[1..], b);
      assert (a + b)[0] == a[0] && (a + b)[1..] == a[1..] + b;
      var head := InboxEventsOf(a[0]);
      assert head + (InboxEvents(a[1..]) + InboxEvents(b)) == head + InboxEvents(a[1..]) + InboxEvents(b);
    }
  }

  /** The message a network reads out of the acknowledged bodies. */
  function MessageCarried(bodies: seq<Content>): Option<Text> {
    if |bodies| == 1 && bodies[0].GsmBytes? then ReadGsmBody(bodies[0].bytes)
    else if |bodies| == 1 && bodies[0].Ucs2Digits? then ReadUcs2(bodies[0].digits)
    else if forall i :: 0 <= i < |bodies| ==> bodies[i].PduText? && ReadPdu(bodies[i].pdu).Some? then
      Reassemble(seq(|bodies|, i requires 0 <= i < |bodies| => ReadPdu(bodies[i].pdu).value))
    else None
  }

  // ----- Transactions ----------------------------------------------------------------------------

  /** One `transact` against the script; an exhausted script never answers. */
  function Transact(w: Write, script: seq<Reply>): (Step, seq<Reply>) {
    if script == [] then (Step(w, Lost(true, false)), []) else (Step(w, script[0]), script[1..])
  }

  lemma OneStep(m: Modem, s: Step)
    ensures AfterSteps(m, [s]) == AfterStep(m, s)
    ensures AllFit(m, [s]) <==> Fits(m, s.write)
    ensures Bodies([s]) == BodiesOf(s)
    ensures BodyUnconfirmed([s]) <==> IsLostBody(s)
    ensures Deletions([s]) == DeletionsOf(s)
    ensures InboxEvents([s]) == InboxEventsOf(s)
    ensures References([s]) == ReferencesOf(s)
  {
    hide InboxEventsOf, ReferencesOf;
    assert [s][0] == s && [s][1..] == [];
    assert AllFit(AfterStep(m, s), []);
  }

  /** A write that submits, reads and deletes nothing, and can be made in any mode. */
  predicate IsSetup(w: Write) {
    w.SetMode? || w.SetCentre? || w.SetCharset? || w.SetParameters? || w.SelectStorage? || w.Attention? || w.EchoOff?
  }

  lemma SetupStep(m: Modem, s: Step)
    requires IsSetup(s.write)
    ensures Fits(m, s.write) && BodiesOf(s) == [] && !IsLostBody(s) && DeletionsOf(s) == []
    ensures InboxEventsOf(s) == [] && ReferencesOf(s) == []
    ensures s.reply.Acked? ==> AfterStep(m, s) == Configure(m, s.write)
  {
  }

  /** The writes are the beginning of these, and stop at the first that is not acknowledged. */
  predicate Wrote(steps: seq<Step>, writes: seq<Write>) {
    && 0 < |steps| <= |writes| && (forall i :: 0 <= i < |steps| ==> steps[i].write == writes[i])
    && (forall i :: 0 <= i < |steps| - 1 ==> steps[i].reply.Acked?)
    && (steps[|steps| - 1].reply.Acked? ==> |steps| == |writes|)
  }

  /** `await transact(...)` for each write in turn, until one of them throws. */
  method TransactAll(writes: seq<Write>, script: seq<Reply>, ghost m: Modem)
    returns (steps: seq<Step>, ok: bool, rest: seq<Reply>)
    requires forall i :: 0 <= i < |writes| ==> IsSetup(writes[i])
    ensures AllFit(m, steps) && Bodies(steps) == [] && !BodyUnconfirmed(steps) && Deletions(steps) == []
    ensures InboxEvents(steps) == [] && References(steps) == []
    ensures !ok ==> !AllAcked(steps)
    ensures writes != [] ==> Wrote(steps, writes)
    ensures ok ==> AllAcked(steps) && |steps| == |writes| && AfterSteps(m, steps) == ConfigureAll(m, writes)
    ensures |steps| <= |writes| && forall i :: 0 <= i < |steps| ==> steps[i].write == writes[i]
  {
    hide AfterSteps, AllFit, Bodies, BodyUnconfirmed, Configure, Deletions, InboxEvents, References, AfterStep, Fits,
      BodiesOf, DeletionsOf, InboxEventsOf, ReferencesOf, IsLostBody, IsSetup;
    steps, ok, rest := [], true, script;
    NoSteps(m);
    var i := 0;
    while ok && i < |writes|
      invariant i <= |writes|
      invariant AllFit(m, steps) && Bodies(steps) == [] && !BodyUnconfirmed(steps) && Deletions(steps) == []
      invariant InboxEvents(steps) == [] && References(steps) == []
      invariant !ok ==> steps != [] && !AllAcked(steps) && Wrote(steps, writes)
      invariant i <= |steps| <= |writes| && forall k :: 0 <= k < |steps| ==> steps[k].write == writes[k]
      invariant ok ==> AllAcked(steps) && |steps| == i && AfterSteps(m, steps) == ConfigureAll(m, writes[..i])
      decreases |writes| - i, ok
    {
      var (step, after) := Transact(writes[i], rest);
      AddStep(m, steps, step);
      SetupStep(AfterSteps(m, steps), step);
      LostStaysLost(steps, [step]);
      OneIsAcked(step);
      steps := steps + [step];
      rest := after;
      if step.reply.Lost? {
        ok := false;
      } else {
        assert writes[..i + 1][..i] == writes[..i];
        i := i + 1;
      }
    }
    assert i == |writes| ==> writes[..i] == writes;
  }

  lemma NoSteps(m: Modem)
    ensures AfterSteps(m, []) == m && AllFit(m, []) && Bodies([]) == [] && !BodyUnconfirmed([])
    ensures Deletions([]) == [] && InboxEvents([]) == [] && References([]) == []
  {
  }

  /** Appending a step: what the summaries of a trace become. */
  lemma AddStep(m: Modem, steps: seq<Step>, s: Step)
    ensures AfterSteps(m, steps + [s]) == AfterStep(AfterSteps(m, steps), s)
    ensures AllFit(m, steps + [s]) <==> AllFit(m, steps) && Fits(AfterSteps(m, steps), s.write)
    ensures Bodies(steps + [s]) == Bodies(steps) + BodiesOf(s)
    ensures BodyUnconfirmed(steps + [s]) <==> BodyUnconfirmed(steps) || IsLostBody(s)
    ensures Deletions(steps + [s]) == Deletions(steps) + DeletionsOf(s)
    ensures InboxEvents(steps + [s]) == InboxEvents(steps) + InboxEventsOf(s)
    ensures References(steps + [s]) == References(steps) + ReferencesOf(s)
  {
    hide AfterSteps, AllFit, Bodies, BodyUnconfirmed, AfterStep, Fits, Deletions, InboxEvents, InboxEventsOf,
      References, ReferencesOf;
    ReferencesConcat(steps, [s]);
    DeletionsConcat(steps, [s]);
    InboxEventsConcat(steps, [s]);
    StepsConcat(m, steps, [s]);
    OneStep(AfterSteps(m, steps), s);
    BodiesConcat(steps, [s]);
    UnconfirmedConcat(steps, [s]);
  }

  /** Appending a whole trace. */
  lemma AddSteps(m: Modem, a: seq<Step>, b: seq<Step>)
    ensures AfterSteps(m, a + b) == AfterSteps(AfterSteps(m, a), b)
    ensures AllFit(m, a + b) <==> AllFit(m, a) && AllFit(AfterSteps(m, a), b)
    ensures Bodies(a + b) == Bodies(a) + Bodies(b)
    ensures BodyUnconfirmed(a + b) <==> BodyUnconfirmed(a) || BodyUnconfirmed(b)
    ensures InboxEvents(a + b) == InboxEvents(a) + InboxEvents(b)
    ensures References(a + b) == References(a) + References(b)
  {
    hide AfterSteps, AllFit, Bodies, BodyUnconfirmed, AfterStep, Fits, InboxEvents, References;
    ReferencesConcat(a, b);
    InboxEventsConcat(a, b);
    StepsConcat(m, a, b);
    BodiesConcat(a, b);
    UnconfirmedConcat(a, b);
  }

  function ConfigureAll(m: Modem, writes: seq<Write>): Modem {
    if writes == [] then m else Configure(ConfigureAll(m, writes[..|writes| - 1]), writes[|writes| - 1])
  }

  /**
    `submitBody`: the command, the prompt, the body. A prompt that does not come is cancelled with
    ESC; only a body whose confirmation times out is marked.
   */
  method SubmitBody(command: Write, content: Content, script: seq<Reply>, ghost m: Modem)
    returns (steps: seq<Step>, result: Result<Option<string>>, rest: seq<Reply>)
    requires command.SubmitText? || command.SubmitLength?
    requires Fits(m, command) && Fits(m, Body(content))
    ensures AllFit(m, steps) && AfterSteps(m, steps) == m
    ensures result.Done? ==> Bodies(steps) == [content] && !BodyUnconfirmed(steps) && AllAcked(steps)
    ensures result.Threw? ==> Bodies(steps) == [] && (result.confirmTimeout <==> BodyUnconfirmed(steps))
    ensures |steps| == 2 && (result.Done? ==> steps[1].reply.Acked?)
    ensures result.Done? ==> result.value == Reference(steps[1].reply.lines)
    ensures References(steps) == if result.Done? && result.value.Some? then [result.value.value] else []
    ensures result.Threw? ==> !AllAcked(steps)
    ensures steps[0].write == command && InboxEvents(steps) == [] && UnconfirmedIsLast(steps)
    ensures steps[1].write == if steps[0].reply.Lost? then Escape else Body(content)
  {
    hide AfterSteps, AllFit, Bodies, BodyUnconfirmed, InboxEvents, References, Reference;
    NoSteps(m);
    var (first, rest1) := Transact(command, script);
    AddStep(m, [], first);
    steps := [] + [first];
    rest := rest1;
    if first.reply.Lost? {
      var escape := Step(Escape, Acked([]));
      AddStep(m, steps, escape);
      steps := steps + [escape];
      result := Threw(false);
    } else {
      var (second, rest2) := Transact(Body(content), rest);
      AddStep(m, steps, second);
      steps := steps + [second];
      rest := rest2;
      if second.reply.Lost? {
        result := Threw(second.reply.timedOut);
      } else {
        result := Done(Reference(second.reply.lines));
      }
    }
  }

  // ----- Sending ---------------------------------------------------------------------------------

  /** A telephone number as a JavaScript string. */
  function NumberText(to: string): Text
    requires ValidNumber(to)
  {
    seq(|to|, i requires 0 <= i < |to| => NumberUnit(to, i))
  }

  function NumberUnit(to: string, i: nat): CodeUnit
    requires ValidNumber(to) && i < |to|
  {
    assert i > 0 && International(to) ==> to[i] == RawDigits(to)[i - 1];
    to[i] as int
  }

  /** The submit command names the number, as the modem reads it in the character set selected. */
  predicate AddressedTo(w: Write, to: string)
    requires ValidNumber(to)
  {
    && w.SubmitText?
    && if w.ucs2 then ReadUcs2(w.address) == Some(NumberText(to))
       else w.address == to && ReadGsmBody(Utf8(NumberText(to))) == Some(NumberText(to))
  }

  /** The body, with the command in front of it, goes to this number through this service centre. */
  predicate IsFor(command: Write, content: Content, to: string, smsc: string)
    requires ValidNumber(to)
  {
    match content
    case PduText(pdu) =>
      && command.SubmitLength?
      && var s := ReadPduOfLength(command.length, pdu);
         s.Some? && s.value.number == to && s.value.smsc == if smsc == "" then None else Some(smsc)
    case _ => AddressedTo(command, to)
  }

  predicate IsForAt(steps: seq<Step>, i: nat, to: string, smsc: string)
    requires ValidNumber(to) && i < |steps|
  {
    && (steps[i].write.Body? ==> i > 0 && IsFor(steps[i - 1].write, steps[i].write.content, to, smsc))
    && (steps[i].write.SubmitText? ==> AddressedTo(steps[i].write, to))
    && (steps[i].write.SetCentre? ==> steps[i].write.smsc == smsc)
  }

  /** Nothing is submitted for anyone else: every body written, acknowledged or not, is for this number. */
  predicate AllFor(steps: seq<Step>, to: string, smsc: string)
    requires ValidNumber(to)
  {
    forall i :: 0 <= i < |steps| ==> IsForAt(steps, i, to, smsc)
  }

  /** A number means the same in ASCII and in the GSM alphabet. */
  lemma NumbersSurvive(to: string)
    requires ValidNumber(to)
    ensures ReadGsmBody(Utf8(NumberText(to))) == Some(NumberText(to))
  {
    var text := NumberText(to);
    forall i | 0 <= i < |text|
      ensures IsShared(text[i])
    {
      assert i > 0 && International(to) ==> to[i] == RawDigits(to)[i - 1];
      DigitsAreShared(text[i]);
    }
    GsmBodySurvivesIffShared(text);
  }

  lemma DigitsAreShared(u: CodeUnit)
    requires u == 0x2B || 0x30 <= u <= 0x39
    ensures IsShared(u)
  {
  }

  /**
    `sendSingle`: text mode, then character set and coding, then the body in that encoding. A
    UCS2 body carries the message; a GSM body is written as it is, and carries the message exactly
    if all its characters have the same code in ASCII and in the GSM alphabet.
   */
  method SendSingle(to: string, message: Text, encoding: Encoding, smsc: string, script: seq<Reply>, ghost m: Modem)
    returns (steps: seq<Step>, result: Result<Option<string>>, rest: seq<Reply>)
    requires ValidNumber(to)
    ensures AllFit(m, steps) && InboxEvents(steps) == []
    ensures result.Done? ==> AllAcked(steps)
    ensures result.Done? ==>
              (MessageCarried(Bodies(steps)) == Some(message) <==> encoding == Ucs2 || AllShared(message))
    ensures result.Done? ==> exists i :: 0 <= i < |steps| && AddressedTo(steps[i].write, to)
    ensures result.Done? && smsc != [] ==> exists i :: 0 <= i < |steps| && steps[i].write == SetCentre(smsc)
    ensures result.Threw? ==> Bodies(steps) == [] && (result.confirmTimeout <==> BodyUnconfirmed(steps))
    ensures UnconfirmedIsLast(steps) && AllFor(steps, to, smsc) && steps != []
    ensures result.Done? ==> |Bodies(steps)| == 1 && result.value == Joined(References(steps))
    ensures result.Threw? ==> !AllAcked(steps)
  {
    hide AfterSteps, AllFit, Bodies, BodyUnconfirmed, Ucs2Hex, Utf8, NumberText, InboxEvents, AllShared,
      UnconfirmedIsLast, References, Reference, AllFor, IsFor, AddressedTo, MessageCarried, AllAcked;
    var ucs2 := encoding == Ucs2;
    var ok;
    steps, ok, rest := SetUpSingle(to, smsc, ucs2, script, m);
    if !ok {
      return steps, Threw(false), rest;
    }
    var address := if ucs2 then Ucs2Hex(NumberText(to)) else to;
    var content := if ucs2 then Ucs2Digits(Ucs2Hex(message)) else GsmBytes(Utf8(message));
    var more, submitted, rest' := SubmitBody(SubmitText(address, ucs2), content, rest, AfterSteps(m, steps));
    AddSteps(m, steps, more);
    LastConcat(steps, more);
    LostStaysLost(steps, more);
    SingleReads(to, message, smsc, ucs2);
    assert [] + [content] == [content];
    SubmissionIsFor(more, SubmitText(address, ucs2), content, to, smsc);
    ForConcat(steps, more, to, smsc);
    ghost var n := |steps|;
    steps := steps + more;
    assert AddressedTo(steps[n].write, to);
    assert smsc != [] ==> steps[1].write == SetCentre(smsc);
    return steps, submitted, rest';
  }

  /** Mode, service centre, character set and coding of a single message. */
  method SetUpSingle(to: string, smsc: string, ucs2: bool, script: seq<Reply>, ghost m: Modem)
    returns (steps: seq<Step>, ok: bool, rest: seq<Reply>)
    requires ValidNumber(to)
    ensures AllFit(m, steps) && InboxEvents(steps) == [] && Bodies(steps) == [] && References(steps) == []
    ensures !BodyUnconfirmed(steps) && UnconfirmedIsLast(steps) && AllFor(steps, to, smsc) && steps != []
    ensures ok <==> AllAcked(steps)
    ensures ok ==> AfterSteps(m, steps) == Modem(true, ucs2, ucs2)
    ensures ok && smsc != [] ==> |steps| > 1 && steps[1].write == SetCentre(smsc)
  {
    hide AfterSteps, AllFit, Bodies, BodyUnconfirmed, InboxEvents, UnconfirmedIsLast, References, AllFor;
    var centre := if smsc != [] then [SetCentre(smsc)] else [];
    var setup := [SetMode(true)] + centre + [SetCharset(ucs2), SetParameters(ucs2)];
    steps, ok, rest := TransactAll(setup, script, m);
    ConfirmedIsLast(steps);
    SetupIsFor(steps, setup, to, smsc);
    SetupConfigures(m, centre, ucs2);
  }

  /** Number and text of a single message, as the modem reads them. */
  lemma SingleReads(to: string, message: Text, smsc: string, ucs2: bool)
    requires ValidNumber(to)
    ensures var command := SubmitText(if ucs2 then Ucs2Hex(NumberText(to)) else to, ucs2);
            var content := if ucs2 then Ucs2Digits(Ucs2Hex(message)) else GsmBytes(Utf8(message));
            && AddressedTo(command, to) && IsFor(command, content, to, smsc)
            && (MessageCarried([content]) == Some(message) <==> ucs2 || AllShared(message))
  {
    hide Ucs2Hex, ReadUcs2, ReadGsmBody, Utf8, NumberText, AllShared;
    Ucs2ReadsBack(message);
    Ucs2ReadsBack(NumberText(to));
    GsmBodySurvivesIffShared(message);
    NumbersSurvive(to);
  }

  /** What comes before the submission names no recipient, and only the configured service centre. */
  lemma SetupIsFor(steps: seq<Step>, setup: seq<Write>, to: string, smsc: string)
    requires ValidNumber(to) && |steps| <= |setup| && forall i :: 0 <= i < |steps| ==> steps[i].write == setup[i]
    requires forall i :: 0 <= i < |setup| ==>
               !setup[i].Body? && !setup[i].SubmitText? && (setup[i].SetCentre? ==> setup[i].smsc == smsc)
    ensures AllFor(steps, to, smsc)
  {
  }

  lemma SubmissionIsFor(steps: seq<Step>, command: Write, content: Content, to: string, smsc: string)
    requires ValidNumber(to) && |steps| == 2 && steps[0].write == command
    requires steps[1].write == Escape || steps[1].write == Body(content)
    requires command.SubmitText? || command.SubmitLength?
    requires IsFor(command, content, to, smsc) && (command.SubmitText? ==> AddressedTo(command, to))
    ensures AllFor(steps, to, smsc)
  {
    hide IsFor, AddressedTo;
  }

  lemma ForConcat(a: seq<Step>, b: seq<Step>, to: string, smsc: string)
    requires ValidNumber(to) && AllFor(a, to, smsc) && AllFor(b, to, smsc)
    ensures AllFor(a + b, to, smsc)
  {
    hide IsFor, AddressedTo;
    var steps := a + b;
    forall i | 0 <= i < |steps|
      ensures IsForAt(steps, i, to, smsc)
    {
      if i < |a| {
        assert steps[i] == a[i] && (i > 0 ==> steps[i - 1] == a[i - 1]) && IsForAt(a, i, to, smsc);
      } else {
        var k := i - |a|;
        assert steps[i] == b[k] && (k > 0 ==> steps[i - 1] == b[k - 1]) && IsForAt(b, k, to, smsc);
      }
    }
  }

  lemma ConfigureOneMore(m: Modem, writes: seq<Write>, w: Write)
    ensures ConfigureAll(m, writes + [w]) == Configure(ConfigureAll(m, writes), w)
  {
    assert (writes + [w])[..|writes|] == writes;
  }

  lemma SetupConfigures(m: Modem, centre: seq<Write>, ucs2: bool)
    requires centre == [] || (|centre| == 1 && centre[0].SetCentre?)
    ensures ConfigureAll(m, [SetMode(true)] + centre + [SetCharset(ucs2), SetParameters(ucs2)]) ==
            Modem(true, ucs2, ucs2)
  {
    hide ConfigureAll;
    var one := [SetMode(true)] + centre;
    ConfigureOneMore(m, [], SetMode(true));
    assert [] + [SetMode(true)] == [SetMode(true)];
    if centre == [] {
      assert one == [SetMode(true)];
    } else {
      ConfigureOneMore(m, [SetMode(true)], centre[0]);
      assert one == [SetMode(true)] + [centre[0]];
    }
    ConfigureOneMore(m, one, SetCharset(ucs2));
    ConfigureOneMore(m, one + [SetCharset(ucs2)], SetParameters(ucs2));
    assert one + [SetCharset(ucs2)] + [SetParameters(ucs2)] == one + [SetCharset(ucs2), SetParameters(ucs2)];
  }

  /** The PDUs as bodies. */
  function PduContents(pdus: seq<SubmitPdu>): seq<Content> {
    seq(|pdus|, i requires 0 <= i < |pdus| => PduText(pdus[i].pdu))
  }

  /** PDU mode is asked for first, and if that was acknowledged, text mode last. */
  predicate AsksForTextModeAgain(steps: seq<Step>) {
    && steps != [] && steps[0].write == SetMode(false)
    && if steps[0].reply.Acked? then |steps| > 1 && steps[|steps| - 1].write == SetMode(true) else |steps| == 1
  }

  /**
    `sendMultipart`: PDU mode, one PDU per part, and text mode again whatever happened in between,
    as long as PDU mode was acknowledged.
   */
  method SendMultipart(
    to: string, message: Text, smsc: string, ref: int, script: seq<Reply>, ghost m: Modem)
    returns (steps: seq<Step>, result: Result<Option<string>>, rest: seq<Reply>)
    requires ValidNumber(to) && Analyze(message).ok && Analyze(message).segments > 1
    ensures AllFit(m, steps) && InboxEvents(steps) == []
    ensures result.Done? && ValidServiceCentre(smsc) ==> MessageCarried(Bodies(steps)) == Some(message)
    ensures result.Done? ==> !BodyUnconfirmed(steps)
    ensures result.Threw? ==> (result.confirmTimeout <==> BodyUnconfirmed(steps))
    ensures AsksForTextModeAgain(steps) && UnconfirmedIsLast(steps)
    ensures ValidServiceCentre(smsc) ==>
              AllFor(steps, to, smsc) && ArePartsInOrder(Bodies(steps), ref, Analyze(message).segments)
    ensures result.Done? ==> |Bodies(steps)| == Analyze(message).segments
    ensures result.Done? ==> result.value == Joined(References(steps))
    ensures result.Threw? ==> !AllAcked(steps)
  {
    hide AllAcked, AfterSteps, AllFit, Bodies, BodyUnconfirmed, BuildConcatPdus, MessageCarried, SplitMessage, Analyze,
      AfterStep, Fits, BodiesOf, DeletionsOf, IsLostBody, InboxEvents, InboxEventsOf, UnconfirmedIsLast, References,
      ReferencesOf, Reference, AllFor, IsFor, ArePartsInOrder, ValidServiceCentre, JoinReferences;
    PdusAreBuilt(to, message, ref, smsc);
    var pdus := BuildConcatPdus(to, SplitMessage(message), Analyze(message).encoding, ref, smsc).value;
    NoSteps(m);
    var (first, rest1) := Transact(SetMode(false), script);
    AddStep(m, [], first);
    ModeStep(m, first);
    steps, rest := [] + [first], rest1;
    assert steps == [first];
    ConfirmedIsLast(steps);
    ModeIsFor(first, to, smsc);
    OneIsAcked(first);
    PartsAreInOrder(to, message, smsc, ref, 0);
    assert PduContents(pdus[..0]) == [];
    if first.reply.Lost? {
      return steps, Threw(false), rest;
    }
    ghost var pduMode := AfterSteps(m, steps);
    result := Done(None);
    var refs := [];
    var i := 0;
    while i < |pdus| && result.Done?
      invariant i <= |pdus| && AllFit(m, steps) && AfterSteps(m, steps) == pduMode && !pduMode.textMode
      invariant |steps| >= 1 && steps[0] == first && InboxEvents(steps) == [] && UnconfirmedIsLast(steps)
      invariant ValidServiceCentre(smsc) ==> AllFor(steps, to, smsc)
      invariant Bodies(steps) == PduContents(pdus[..i]) && (result.Threw? ==> !AllAcked(steps))
      invariant result.Done? ==> !BodyUnconfirmed(steps) && References(steps) == refs && result.value == None
      invariant result.Threw? ==> (result.confirmTimeout <==> BodyUnconfirmed(steps))
      decreases |pdus| - i, result.Done?
    {
      PduFits(pduMode, pdus[i]);
      var more, submitted, rest' :=
        SubmitBody(SubmitLength(pdus[i].length), PduText(pdus[i].pdu), rest, pduMode);
      AddSteps(m, steps, more);
      LastConcat(steps, more);
      LostStaysLost(steps, more);
      if ValidServiceCentre(smsc) {
        PduIsFor(to, message, smsc, ref, i);
        SubmissionIsFor(more, SubmitLength(pdus[i].length), PduText(pdus[i].pdu), to, smsc);
        ForConcat(steps, more, to, smsc);
      }
      assert PduContents(pdus[..i + 1]) == PduContents(pdus[..i]) + [PduText(pdus[i].pdu)];
      steps, rest := steps + more, rest';
      if submitted.Threw? {
        result := Threw(submitted.confirmTimeout);
      } else {
        if submitted.value.Some? {
          refs := refs + [submitted.value.value];
        }
        i := i + 1;
      }
    }
    if result.Done? && refs != [] {
      result := Done(Some(JoinReferences(refs)));
    }
    PartsAreInOrder(to, message, smsc, ref, i);
    var (last, rest2) := Transact(SetMode(true), rest);
    AddStep(m, steps, last);
    ModeStep(AfterSteps(m, steps), last);
    OneIsLast(last);
    LastConcat(steps, [last]);
    LostStaysLost(steps, [last]);
    ModeIsFor(last, to, smsc);
    if ValidServiceCentre(smsc) {
      ForConcat(steps, [last], to, smsc);
    }
    ghost var sent := Bodies(steps);
    assert sent + [] == sent && References(steps) + [] == References(steps);
    steps, rest := steps + [last], rest2;
    if result.Done? {
      assert pdus[..i] == pdus;
      if ValidServiceCentre(smsc) {
        PdusCarryTheMessage(to, message, ref, smsc);
      }
    }
  }

  lemma OneIsAcked(s: Step)
    ensures AllAcked([s]) <==> s.reply.Acked?
  {
    assert [s][0] == s;
  }

  lemma OneIsLast(s: Step)
    ensures UnconfirmedIsLast([s])
  {
  }

  lemma ModeStep(m: Modem, s: Step)
    requires s.write.SetMode?
    ensures Fits(m, s.write) && BodiesOf(s) == [] && !IsLostBody(s) && InboxEventsOf(s) == [] && ReferencesOf(s) == []
    ensures s.reply.Acked? ==> AfterStep(m, s).textMode == s.write.text
  {
  }

  lemma ModeIsFor(s: Step, to: string, smsc: string)
    requires s.write.SetMode? && ValidNumber(to)
    ensures AllFor([s], to, smsc)
  {
  }

  /** The bodies are the parts 1, 2, ... of one message of `total`. */
  predicate ArePartsInOrder(bodies: seq<Content>, ref: int, total: nat) {
    |bodies| <= total && forall k :: 0 <= k < |bodies| ==> IsPart(bodies[k], Concat(ref % 256, total, k + 1))
  }

  predicate IsPart(content: Content, concat: Concat) {
    content.PduText? && ReadPdu(content.pdu).Some? && ReadPdu(content.pdu).value.concat == Some(concat)
  }

  lemma PartsAreInOrder(to: string, message: Text, smsc: string, ref: int, i: nat)
    requires ValidNumber(to) && Analyze(message).ok && Analyze(message).segments > 1
    ensures var built := BuildConcatPdus(to, SplitMessage(message), Analyze(message).encoding, ref, smsc);
            && built.Some? && |built.value| == Analyze(message).segments
            && (ValidServiceCentre(smsc) && i <= |built.value| ==>
                  ArePartsInOrder(PduContents(built.value[..i]), ref, Analyze(message).segments))
  {
    hide SplitMessage, BuildConcatPdus, ReadPdu, UnitCost, Gsm7Parts, Ucs2Parts, ValidServiceCentre;
    PdusAreBuilt(to, message, ref, smsc);
    var pdus := BuildConcatPdus(to, SplitMessage(message), Analyze(message).encoding, ref, smsc).value;
    AsManyAsSegments(to, message, ref, smsc);
    if ValidServiceCentre(smsc) && i <= |pdus| {
      forall k | 0 <= k < i
        ensures IsPart(PduText(pdus[k].pdu), Concat(ref % 256, Analyze(message).segments, k + 1))
      {
        PduIsFor(to, message, smsc, ref, k);
      }
    }
  }

  lemma AsManyAsSegments(to: string, message: Text, ref: int, smsc: string)
    requires ValidNumber(to) && Analyze(message).segments > 1
    requires BuildConcatPdus(to, SplitMessage(message), Analyze(message).encoding, ref, smsc).Some?
    ensures |BuildConcatPdus(to, SplitMessage(message), Analyze(message).encoding, ref, smsc).value| ==
            Analyze(message).segments
  {
    hide SplitMessage, Analyze;
    SegmentsCountTheParts(message);
    AsManyAsParts(to, SplitMessage(message), Analyze(message).encoding, ref, smsc, 0);
  }

  lemma {:induction false} AsManyAsParts(
    to: string, parts: seq<Text>, encoding: Encoding, ref: int, smsc: string, i: nat)
    requires i <= |parts| && PdusFrom(to, parts, encoding, ref, smsc, i).Some?
    ensures |PdusFrom(to, parts, encoding, ref, smsc, i).value| == |parts| - i
    decreases |parts| - i
  {
    hide BuildSubmitPdu;
    if i < |parts| {
      AsManyAsParts(to, parts, encoding, ref, smsc, i + 1);
    }
  }

  /** PDU `k` with its length: part `k + 1` of the message, for this number through this service centre. */
  lemma PduIsFor(to: string, message: Text, smsc: string, ref: int, k: nat)
    requires ValidNumber(to) && ValidServiceCentre(smsc)
    requires Analyze(message).ok && 1 < Analyze(message).segments && k < Analyze(message).segments
    ensures var built := BuildConcatPdus(to, SplitMessage(message), Analyze(message).encoding, ref, smsc);
            && built.Some? && |built.value| == Analyze(message).segments
            && var pdu := built.value[k];
               && IsFor(SubmitLength(pdu.length), PduText(pdu.pdu), to, smsc)
               && IsPart(PduText(pdu.pdu), Concat(ref % 256, Analyze(message).segments, k + 1))
  {
    hide SplitMessage, BuildConcatPdus, ReadPdu, UnitCost, Gsm7Parts, Ucs2Parts, ValidServiceCentre;
    EveryPduIsRead(to, message, ref, smsc, k);
  }

  lemma PduFits(m: Modem, pdu: SubmitPdu)
    requires !m.textMode
    ensures Fits(m, SubmitLength(pdu.length)) && Fits(m, Body(PduText(pdu.pdu)))
  {
  }

  lemma PdusAreBuilt(to: string, message: Text, ref: int, smsc: string)
    requires ValidNumber(to) && Analyze(message).segments > 1
    ensures BuildConcatPdus(to, SplitMessage(message), Analyze(message).encoding, ref, smsc).Some?
  {
    hide SplitMessage, Analyze, FitsOnePdu;
    SegmentsCountTheParts(message);
    forall k | 0 <= k < |SplitMessage(message)|
      ensures FitsOnePdu(SplitMessage(message)[k], Analyze(message).encoding)
    {
      PartsFit(message, k);
    }
    PdusFromAreBuilt(to, SplitMessage(message), Analyze(message).encoding, ref, smsc, 0);
  }

  lemma {:induction false} PdusFromAreBuilt(
    to: string, parts: seq<Text>, encoding: Encoding, ref: int, smsc: string, i: nat)
    requires i <= |parts|
    requires forall k :: 0 <= k < |parts| ==> FitsOnePdu(parts[k], encoding)
    ensures PdusFrom(to, parts, encoding, ref, smsc, i).Some?
    decreases |parts| - i
  {
    hide FitsOnePdu, UserData;
    if i < |parts| {
      ReadsText(parts[i], encoding);
      PdusFromAreBuilt(to, parts, encoding, ref, smsc, i + 1);
    }
  }

  /** What the bodies of a complete multipart send say to a receiver: the message. */
  lemma PdusCarryTheMessage(to: string, message: Text, ref: int, smsc: string)
    requires ValidNumber(to) && ValidServiceCentre(smsc)
    requires Analyze(message).ok && Analyze(message).segments > 1
    ensures var built := BuildConcatPdus(to, SplitMessage(message), Analyze(message).encoding, ref, smsc);
            built.Some? && MessageCarried(PduContents(built.value)) == Some(message)
  {
    hide SplitMessage, BuildConcatPdus, ReadPdu, Reassemble, UnitCost, Gsm7Parts, Ucs2Parts;
    var n := Analyze(message).segments;
    var order := seq(n, i => i);
    forall p: nat | p < n
      ensures p in order
    {
      assert order[p] == p;
    }
    MessageSurvives(to, message, ref, smsc, order);
    var pdus := BuildConcatPdus(to, SplitMessage(message), Analyze(message).encoding, ref, smsc).value;
    var bodies := PduContents(pdus);
    assert seq(|order|, j requires 0 <= j < |order| => ReadPdu(pdus[order[j]].pdu).value) ==
           seq(|bodies|, i requires 0 <= i < |bodies| => ReadPdu(bodies[i].pdu).value);
  }

  /**
    `sendSMS`. A success means that the modem acknowledged bodies that carry exactly the message,
    unless it is a single SMS in the GSM alphabet: that one carries it if and only if its
    characters have the same code in ASCII and in the GSM alphabet. A failure is marked
    `confirmTimeout` exactly if a body was handed over whose confirmation timed out. Whatever mode
    the modem was in before, every write finds it in the right one.
   */
  method SendSms(to: string, message: Text, smsc: string, ref: int, script: seq<Reply>, ghost m: Modem)
    returns (steps: seq<Step>, result: Result<Option<string>>, rest: seq<Reply>)
    ensures AllFit(m, steps) && InboxEvents(steps) == []
    ensures result.Done? ==> ValidNumber(to) && Analyze(message).ok
    ensures result.Done? && ValidServiceCentre(smsc) ==>
              (MessageCarried(Bodies(steps)) == Some(message) <==>
               Analyze(message).encoding == Ucs2 || Analyze(message).segments > 1 || AllShared(message))
    ensures result.Done? ==> !BodyUnconfirmed(steps)
    ensures result.Threw? ==> (result.confirmTimeout <==> BodyUnconfirmed(steps))
    ensures UnconfirmedIsLast(steps)
    ensures steps != [] <==> ValidNumber(to) && Analyze(message).ok
    ensures steps != [] && (ValidServiceCentre(smsc) || Analyze(message).segments == 1) ==> AllFor(steps, to, smsc)
    ensures result.Done? ==> |Bodies(steps)| == Analyze(message).segments && result.value == Joined(References(steps))
    ensures result.Threw? && steps != [] ==> !AllAcked(steps)
  {
    hide AfterSteps, AllFit, Bodies, BodyUnconfirmed, MessageCarried, Analyze, InboxEvents, AllShared, AllFor,
      References, ArePartsInOrder;
    NoSteps(m);
    if !ValidNumber(to) {
      return [], Threw(false), script;
    }
    var info := AnalyzeMessage(message);
    if !info.ok {
      return [], Threw(false), script;
    }
    AtLeastOneSegment(message);
    if info.segments == 1 {
      steps, result, rest := SendSingle(to, message, info.encoding, smsc, script, m);
      if result.Done? {
        AckedIsConfirmed(steps);
      }
    } else {
      steps, result, rest := SendMultipart(to, message, smsc, ref, script, m);
    }
  }

  lemma AckedIsConfirmed(steps: seq<Step>)
    requires AllAcked(steps)
    ensures !BodyUnconfirmed(steps)
  {
  }

  lemma AtLeastOneSegment(message: Text)
    ensures Analyze(message).segments >= 1
  {
    hide UnitCost, Gsm7Parts, Ucs2Parts;
    SegmentsCountTheParts(message);
    if SplitMessage(message) == [] {
      assert message == [];
    }
  }

  // ----- Reading ---------------------------------------------------------------------------------

  function Indexes(messages: seq<Message>): seq<nat> {
    seq(|messages|, i requires 0 <= i < |messages| => messages[i].index)
  }

  /** The acknowledged deletions of the first `n` messages read. */
  function DeleteEvents(read: seq<Message>, n: nat): seq<Inbox.Event>
    requires n <= |read|
  {
    seq(n, i requires 0 <= i < n => Inbox.Delete({read[i].index}, {read[i].index}, true))
  }

  lemma {:induction false} DeletesFollow(read: seq<Message>, n: nat)
    requires n <= |read| && Inbox.DistinctSlots(ItemsOf(read))
    ensures var items := ItemsOf(read);
            Inbox.AdvanceAll(Inbox.Serial, Inbox.MayDelete(Inbox.SlotsOf(items)), DeleteEvents(read, n)) ==
            Some(Inbox.MayDelete(Inbox.SlotsOf(items) - Inbox.SlotsOf(items[..n])))
  {
    var items := ItemsOf(read);
    var all := Inbox.MayDelete(Inbox.SlotsOf(items));
    if n == 0 {
      assert DeleteEvents(read, 0) == [];
      assert Inbox.SlotsOf(items) - Inbox.SlotsOf(items[..0]) == Inbox.SlotsOf(items);
    } else {
      DeletesFollow(read, n - 1);
      var e := Inbox.Delete({read[n - 1].index}, {read[n - 1].index}, true);
      assert DeleteEvents(read, n) == DeleteEvents(read, n - 1) + [e];
      Inbox.AdvanceInTwo(Inbox.Serial, all, DeleteEvents(read, n - 1), [e]);
      SlotsOfOneMore(items, n - 1);
      var left := Inbox.SlotsOf(items) - Inbox.SlotsOf(items[..n - 1]);
      OneEvent(Inbox.MayDelete(left), e);
      assert left - e.targets == Inbox.SlotsOf(items) - Inbox.SlotsOf(items[..n]);
    }
  }

  lemma SlotsOfOneMore(items: seq<Inbox.Item>, n: nat)
    requires n < |items| && Inbox.DistinctSlots(items)
    ensures Inbox.SlotsOf(items[..n + 1]) == Inbox.SlotsOf(items[..n]) + {items[n].slot}
    ensures items[n].slot in Inbox.SlotsOf(items) && items[n].slot !in Inbox.SlotsOf(items[..n])
  {
    assert items[..n + 1] == items[..n] + [items[n]];
    assert items[..n + 1][n] == items[n];
    forall i | 0 <= i < n
      ensures items[..n][i].slot in Inbox.SlotsOf(items[..n + 1])
    {
      assert items[..n + 1][i] == items[..n][i];
    }
  }

  lemma OneEvent(p: Inbox.Progress, e: Inbox.Event)
    ensures Inbox.AdvanceAll(Inbox.Serial, p, [e]) == Inbox.Advance(Inbox.Serial, p, e)
  {
    if Inbox.Advance(Inbox.Serial, p, e).Some? {
      assert [e][1..] == [];
      assert Inbox.AdvanceAll(Inbox.Serial, Inbox.Advance(Inbox.Serial, p, e).value, []).Some?;
    }
  }

  function StoredEvents(read: seq<Message>, receivedAt: string): seq<Inbox.Event> {
    [Inbox.List(ItemsOf(read)), Inbox.Persist(ItemsOf(read), receivedAt)]
  }

  /** A deletion that was not acknowledged. */
  function FailedDelete(index: nat, applied: bool): seq<Inbox.Event> {
    [Inbox.Delete({index}, if applied then {index} else {}, false)]
  }

  /** A pass that ends behind its `n`-th deletion. */
  lemma PassFollows(p: Inbox.Progress, read: seq<Message>, receivedAt: string, n: nat)
    requires n <= |read| && Inbox.DistinctSlots(ItemsOf(read))
    ensures Inbox.AdvanceAll(Inbox.Serial, p, StoredEvents(read, receivedAt) + DeleteEvents(read, n)) ==
            Some(Inbox.MayDelete(Inbox.SlotsOf(ItemsOf(read)) - Inbox.SlotsOf(ItemsOf(read)[..n])))
  {
    hide ItemsOf, DeleteEvents, StoredEvents, Inbox.AdvanceAll, Inbox.SlotsOf;
    StoreFollows(p, read, receivedAt);
    Inbox.AdvanceInTwo(Inbox.Serial, p, StoredEvents(read, receivedAt), DeleteEvents(read, n));
    DeletesFollow(read, n);
  }

  /** A pass whose deletion behind the `n`-th fails. */
  lemma FailedPassFollows(p: Inbox.Progress, read: seq<Message>, receivedAt: string, n: nat, applied: bool)
    requires n < |read| && Inbox.DistinctSlots(ItemsOf(read))
    ensures Inbox.AdvanceAll(
              Inbox.Serial, p,
              StoredEvents(read, receivedAt) + DeleteEvents(read, n) + FailedDelete(read[n].index, applied)).Some?
  {
    hide DeleteEvents, StoredEvents, Inbox.AdvanceAll, Inbox.SlotsOf;
    var items := ItemsOf(read);
    var failed := FailedDelete(read[n].index, applied);
    PassFollows(p, read, receivedAt, n);
    Inbox.AdvanceInTwo(Inbox.Serial, p, StoredEvents(read, receivedAt) + DeleteEvents(read, n), failed);
    SlotsOfOneMore(items, n);
    OneEvent(Inbox.MayDelete(Inbox.SlotsOf(items) - Inbox.SlotsOf(items[..n])), failed[0]);
  }

  lemma StoreFollows(p: Inbox.Progress, read: seq<Message>, receivedAt: string)
    ensures Inbox.AdvanceAll(Inbox.Serial, p, StoredEvents(read, receivedAt)) ==
            Some(Inbox.MayDelete(Inbox.SlotsOf(ItemsOf(read))))
  {
    hide ItemsOf, Inbox.SlotsOf;
    var events := StoredEvents(read, receivedAt);
    assert events[1..] == [events[1]];
    OneEvent(Inbox.HasRead(ItemsOf(read)), events[1]);
  }

  lemma UnstoredFollows(p: Inbox.Progress, read: seq<Message>)
    ensures Inbox.AdvanceAll(Inbox.Serial, p, [Inbox.List(ItemsOf(read))]).Some?
    ensures Inbox.AdvanceAll(Inbox.Serial, p, [Inbox.List(ItemsOf(read)), Inbox.PersistThrows]).Some?
    ensures Inbox.AdvanceAll(Inbox.Serial, p, []).Some?
  {
    hide ItemsOf;
    var listed := Inbox.List(ItemsOf(read));
    OneEvent(p, listed);
    assert [listed, Inbox.PersistThrows][1..] == [Inbox.PersistThrows];
    OneEvent(Inbox.HasRead(ItemsOf(read)), Inbox.PersistThrows);
  }

  /** Wherever the pass before has got to, what a trace does is in the order of a pass. */
  predicate ReadsInOrder(p: Inbox.Progress, steps: seq<Step>) {
    Inbox.DistinctLists(InboxEvents(steps)) ==> Inbox.AdvanceAll(Inbox.Serial, p, InboxEvents(steps)).Some?
  }

  /** A read that was not cut short lists. */
  predicate IsReadTrace(steps: seq<Step>) {
    && steps != [] && steps[0].write == SetMode(true)
    && (AllAcked(steps) ==> exists i :: 0 <= i < |steps| && steps[i].write.ListAll?)
  }

  lemma ReadTraceGrows(a: seq<Step>, b: seq<Step>)
    requires IsReadTrace(a)
    ensures IsReadTrace(a + b)
  {
    LostStaysLost(a, b);
    if AllAcked(a) {
      var i :| 0 <= i < |a| && a[i].write.ListAll?;
      assert (a + b)[i] == a[i];
    }
  }

  /** The part of `getMessages` up to the listing. */
  method ListMessages(script: seq<Reply>, ghost m: Modem)
    returns (steps: seq<Step>, listed: Option<seq<Message>>, rest: seq<Reply>)
    ensures AllFit(m, steps) && Deletions(steps) == []
    ensures forall i :: 0 <= i < |steps| ==> !steps[i].write.Delete?
    ensures InboxEvents(steps) == if listed.Some? then [Inbox.List(ItemsOf(listed.value))] else []
    ensures IsReadTrace(steps) && (listed.None? ==> !AllAcked(steps))
    ensures listed.Some? ==> AllAcked(steps) && exists lines :: Step(ListAll, Acked(lines)) in steps &&
                                                               listed.value == ReadLines([], lines)
  {
    hide AfterSteps, AllFit, Bodies, BodyUnconfirmed, ReadLines, Deletions, InboxEvents, ItemsOf;
    var setup := [SetMode(true), SetCharset(false), SelectStorage];
    var ok;
    steps, ok, rest := TransactAll(setup, script, m);
    if !ok {
      return steps, None, rest;
    }
    ReadingSetup(m);
    var (listing, rest1) := Transact(ListAll, rest);
    AddStep(m, steps, listing);
    LostStaysLost(steps, [listing]);
    OneIsAcked(listing);
    ghost var at := |steps|;
    steps, rest := steps + [listing], rest1;
    if listing.reply.Lost? {
      return steps, None, rest;
    }
    var read := ReadListing(listing.reply.lines);
    assert steps[at] == Step(ListAll, Acked(listing.reply.lines)) && steps[at].write.ListAll?;
    listed := Some(read);
  }

  /** The deletions of `getMessages`; `n` of them are acknowledged. */
  method DeleteRead(read: seq<Message>, script: seq<Reply>, ghost m: Modem)
    returns (steps: seq<Step>, n: nat, rest: seq<Reply>)
    ensures AllFit(m, steps)
    ensures n <= |read| && Deletions(steps) <= Indexes(read)
    ensures n == |read| ==>
              Deletions(steps) == Indexes(read) && AllAcked(steps) && InboxEvents(steps) == DeleteEvents(read, n)
    ensures n < |read| ==> !AllAcked(steps)
    ensures n < |read| ==> exists applied ::
              InboxEvents(steps) == DeleteEvents(read, n) + FailedDelete(read[n].index, applied)
  {
    hide AfterSteps, AllFit, Bodies, BodyUnconfirmed, Deletions, InboxEvents, DeleteEvents;
    steps, n, rest := [], 0, script;
    NoSteps(m);
    NoDeletes(read);
    while n < |read|
      invariant n <= |read| && AllFit(m, steps) && AllAcked(steps)
      invariant Deletions(steps) == Indexes(read[..n]) && InboxEvents(steps) == DeleteEvents(read, n)
    {
      var (deletion, rest1) := Transact(Delete(read[n].index), rest);
      AddStep(m, steps, deletion);
      OneMoreDelete(read, n);
      LostStaysLost(steps, [deletion]);
      OneIsAcked(deletion);
      steps, rest := steps + [deletion], rest1;
      if deletion.reply.Lost? {
        assert InboxEventsOf(deletion) == FailedDelete(read[n].index, deletion.reply.applied);
        return;
      }
      n := n + 1;
    }
    assert read[..n] == read;
  }

  lemma NoDeletes(read: seq<Message>)
    ensures DeleteEvents(read, 0) == [] && Indexes(read[..0]) == []
  {
  }

  lemma OneMoreDelete(read: seq<Message>, n: nat)
    requires n < |read|
    ensures DeleteEvents(read, n + 1) == DeleteEvents(read, n) + [Inbox.Delete({read[n].index}, {read[n].index}, true)]
    ensures Indexes(read[..n + 1]) == Indexes(read[..n]) + [read[n].index]
    ensures Indexes(read[..n + 1]) <= Indexes(read)
  {
  }

  /**
    `getMessages`: list, hand over to storage, delete what was read, and only then. `read` is what
    the listing said; deletions are the beginning of its indexes, and each comes behind a step that
    has stored all of `read`. The trace is a pass of the inbox machine, whatever `p` was before.
   */
  method GetMessages(
    script: seq<Reply>, persisted: bool, receivedAt: string, ghost m: Modem, ghost p: Inbox.Progress)
    returns (steps: seq<Step>, read: seq<Message>, result: Result<seq<Message>>, rest: seq<Reply>)
    ensures AllFit(m, steps)
    ensures read != [] ==> exists lines :: Step(ListAll, Acked(lines)) in steps && read == ReadLines([], lines)
    ensures Deletions(steps) <= Indexes(read)
    ensures forall i :: 0 <= i < |steps| && steps[i].write.Delete? ==>
              exists j :: 0 <= j < i && steps[j] == Step(Store(read, receivedAt), Acked([]))
    ensures Deletions(steps) != [] ==> persisted
    ensures result.Done? ==> result.value == read && Deletions(steps) == Indexes(read) && AllAcked(steps)
    ensures IsReadTrace(steps) && (result.Threw? ==> !AllAcked(steps))
    ensures ReadsInOrder(p, steps)
  {
    hide IsReadTrace, AllAcked, AfterSteps, AllFit, Bodies, BodyUnconfirmed, ReadLines, Deletions, InboxEvents, ItemsOf,
      Inbox.AdvanceAll, DeleteEvents, FailedDelete, Inbox.DistinctLists;
    var listed;
    read := [];
    steps, listed, rest := ListMessages(script, m);
    if listed.None? {
      UnstoredFollows(p, read);
      return steps, read, Threw(false), rest;
    }
    read := listed.value;
    UnstoredFollows(p, read);
    if read == [] {
      return steps, read, Done(read), rest;
    }
    var stored := Step(Store(read, receivedAt), if persisted then Acked([]) else Lost(false, false));
    AddStep(m, steps, stored);
    LostStaysLost(steps, [stored]);
    ReadTraceGrows(steps, [stored]);
    OneIsAcked(stored);
    ghost var at := |steps|;
    assert forall lines | Step(ListAll, Acked(lines)) in steps :: Step(ListAll, Acked(lines)) in steps + [stored];
    steps := steps + [stored];
    if !persisted {
      assert InboxEvents(steps) == [Inbox.List(ItemsOf(read)), Inbox.PersistThrows];
      return steps, read, Threw(false), rest;
    }
    assert InboxEvents(steps) == StoredEvents(read, receivedAt);
    var more, n, rest1 := DeleteRead(read, rest, AfterSteps(m, steps));
    AddSteps(m, steps, more);
    LostStaysLost(steps, more);
    ReadTraceGrows(steps, more);
    DeletionsConcat(steps, more);
    StoredFirst(steps, more, at);
    WholePassFollows(p, read, receivedAt, n, InboxEvents(more));
    assert [] + Deletions(more) == Deletions(more);
    steps, rest := steps + more, rest1;
    result := if n == |read| then Done(read) else Threw(false);
  }

  /** Deletions come behind the step at `at`, and what was in the trace stays. */
  lemma StoredFirst(steps: seq<Step>, more: seq<Step>, at: nat)
    requires at < |steps| && forall i :: 0 <= i < |steps| ==> !steps[i].write.Delete?
    ensures forall i :: 0 <= i < |steps + more| && (steps + more)[i].write.Delete? ==>
              at < i && (steps + more)[at] == steps[at]
    ensures forall s :: s in steps ==> s in steps + more
    ensures AllAcked(steps) && AllAcked(more) ==> AllAcked(steps + more)
  {
  }

  lemma WholePassFollows(
    p: Inbox.Progress, read: seq<Message>, receivedAt: string, n: nat, deletes: seq<Inbox.Event>)
    requires n <= |read|
    requires n == |read| ==> deletes == DeleteEvents(read, n)
    requires n < |read| ==> exists applied ::
               deletes == DeleteEvents(read, n) + FailedDelete(read[n].index, applied)
    ensures var events := StoredEvents(read, receivedAt) + deletes;
            Inbox.DistinctLists(events) ==> Inbox.AdvanceAll(Inbox.Serial, p, events).Some?
  {
    hide DeleteEvents, FailedDelete, ItemsOf, Inbox.AdvanceAll, Inbox.DistinctSlots;
    var events := StoredEvents(read, receivedAt) + deletes;
    assert events[0] == Inbox.List(ItemsOf(read));
    if Inbox.DistinctLists(events) {
      if n == |read| {
        PassFollows(p, read, receivedAt, n);
      } else {
        var applied :| deletes == DeleteEvents(read, n) + FailedDelete(read[n].index, applied);
        FailedPassFollows(p, read, receivedAt, n, applied);
        assert events == StoredEvents(read, receivedAt) + DeleteEvents(read, n) + FailedDelete(read[n].index, applied);
      }
    }
  }

  lemma ReadingSetup(m: Modem)
    ensures ConfigureAll(m, [SetMode(true), SetCharset(false), SelectStorage]) == Modem(true, false, m.ucs2Coding)
  {
    var writes := [SetMode(true), SetCharset(false), SelectStorage];
    assert writes[..2] == [SetMode(true), SetCharset(false)];
    assert [SetMode(true), SetCharset(false)][..1] == [SetMode(true)];
    assert [SetMode(true)][..0] == [];
  }

  // ----- Whole runs ------------------------------------------------------------------------------

  /** What may be queued on the driver. */
  datatype Task =
    | Send(to: string, message: Text, ref: int)
    | Read(persisted: bool, receivedAt: string)
    | UssdSession(code: string)
    | Ping
    | Init

  /** The character set first, and if that is acknowledged the code asked for. */
  predicate IsUssdTrace(steps: seq<Step>, code: string) {
    && steps != [] && steps[0].write == SetCharset(false)
    && if steps[0].reply.Acked? then |steps| == 2 && steps[1].write == Ussd(code) else |steps| == 1
  }

  method RunUssd(code: string, script: seq<Reply>, ghost m: Modem)
    returns (steps: seq<Step>, rest: seq<Reply>)
    ensures AllFit(m, steps) && InboxEvents(steps) == [] && IsUssdTrace(steps, code)
  {
    hide AfterSteps, AllFit, Bodies, BodyUnconfirmed, Deletions, InboxEvents;
    var ok;
    steps, ok, rest := TransactAll([SetCharset(false)], script, m);
    if ok {
      var (session, after) := Transact(Ussd(code), rest);
      AddStep(m, steps, session);
      steps, rest := steps + [session], after;
    }
  }

  lemma DistinctInBoth(a: seq<Inbox.Event>, b: seq<Inbox.Event>)
    requires Inbox.DistinctLists(a + b)
    ensures Inbox.DistinctLists(a) && Inbox.DistinctLists(b)
  {
    hide Inbox.DistinctSlots;
    forall i | 0 <= i < |a| && a[i].List?
      ensures Inbox.DistinctSlots(a[i].items)
    {
      assert (a + b)[i] == a[i];
    }
    forall i | 0 <= i < |b| && b[i].List?
      ensures Inbox.DistinctSlots(b[i].items)
    {
      assert (a + b)[|a| + i] == b[i];
    }
  }

  lemma NoReads(p: Inbox.Progress, steps: seq<Step>)
    requires InboxEvents(steps) == []
    ensures ReadsInOrder(p, steps)
  {
  }

  /** How far the reading of messages is behind a trace. */
  ghost function ProgressAfter(steps: seq<Step>): Inbox.Progress {
    var q := Inbox.AdvanceAll(Inbox.Serial, Inbox.NoPass, InboxEvents(steps));
    if q.Some? then q.value else Inbox.NoPass
  }

  /** Traces of successive tasks. */
  lemma ReadsInTurn(a: seq<Step>, b: seq<Step>)
    requires ReadsInOrder(Inbox.NoPass, a) && ReadsInOrder(ProgressAfter(a), b)
    ensures ReadsInOrder(Inbox.NoPass, a + b)
  {
    hide InboxEvents, Inbox.AdvanceAll;
    InboxEventsConcat(a, b);
    Inbox.AdvanceInTwo(Inbox.Serial, Inbox.NoPass, InboxEvents(a), InboxEvents(b));
    if Inbox.DistinctLists(InboxEvents(a + b)) {
      DistinctInBoth(InboxEvents(a), InboxEvents(b));
    }
  }

  /** What a task leaves behind: a send goes to its own recipient, a session runs its own code. */
  predicate IsTraceOf(steps: seq<Step>, task: Task, smsc: string) {
    match task
    case Send(to, message, _) =>
      && (steps != [] <==> ValidNumber(to) && Analyze(message).ok)
      && (steps != [] && (ValidServiceCentre(smsc) || Analyze(message).segments == 1) ==> AllFor(steps, to, smsc))
    case Read(_, _) => IsReadTrace(steps)
    case UssdSession(code) => IsUssdTrace(steps, code)
    case Ping => Wrote(steps, [Attention])
    case Init => Wrote(steps, [Attention, EchoOff, SetMode(true)])
  }

  function AllOf(traces: seq<seq<Step>>): seq<Step> {
    if traces == [] then [] else AllOf(traces[..|traces| - 1]) + traces[|traces| - 1]
  }

  /** One task, from the modem state and the reading progress it finds. */
  method RunTask(task: Task, smsc: string, script: seq<Reply>, ghost m: Modem, ghost p: Inbox.Progress)
    returns (steps: seq<Step>, rest: seq<Reply>)
    ensures AllFit(m, steps) && ReadsInOrder(p, steps) && IsTraceOf(steps, task, smsc)
  {
    hide AfterSteps, AllFit, Bodies, BodyUnconfirmed, Deletions, MessageCarried, Analyze, ReadLines, InboxEvents,
      Inbox.AdvanceAll, AllShared, ItemsOf, AllFor, IsUssdTrace, References, IsReadTrace;
    match task {
      case Send(to, message, ref) =>
        var result;
        steps, result, rest := SendSms(to, message, smsc, ref, script, m);
        NoReads(p, steps);
      case Read(persisted, receivedAt) =>
        var read, result;
        steps, read, result, rest := GetMessages(script, persisted, receivedAt, m, p);
      case UssdSession(code) =>
        steps, rest := RunUssd(code, script, m);
        NoReads(p, steps);
      case Ping =>
        var ok;
        steps, ok, rest := TransactAll([Attention], script, m);
        NoReads(p, steps);
      case Init =>
        var ok;
        steps, ok, rest := TransactAll([Attention, EchoOff, SetMode(true)], script, m);
        NoReads(p, steps);
    }
  }

  /**
    The driver's tasks one after the other, as the lock runs them, from any modem state and
    against any replies: every mode-dependent write of the whole run finds the modem in its mode,
    each task leaves the trace of what it was asked for, and all reads of the run keep to the order
    of the inbox machine.
   */
  method RunTasks(tasks: seq<Task>, smsc: string, script: seq<Reply>, ghost m: Modem)
    returns (steps: seq<Step>, traces: seq<seq<Step>>)
    ensures AllFit(m, steps)
    ensures steps == AllOf(traces) && |traces| == |tasks|
    ensures forall k :: 0 <= k < |tasks| ==> IsTraceOf(traces[k], tasks[k], smsc)
    ensures ReadsInOrder(Inbox.NoPass, steps)
  {
    hide AfterSteps, AllFit, ReadsInOrder, IsTraceOf;
    steps, traces := [], [];
    var rest := script;
    NoSteps(m);
    NoReads(Inbox.NoPass, []);
    for i := 0 to |tasks|
      invariant AllFit(m, steps) && ReadsInOrder(Inbox.NoPass, steps)
      invariant steps == AllOf(traces) && |traces| == i
      invariant forall k :: 0 <= k < i ==> IsTraceOf(traces[k], tasks[k], smsc)
    {
      var more, rest' := RunTask(tasks[i], smsc, rest, AfterSteps(m, steps), ProgressAfter(steps));
      AddSteps(m, steps, more);
      ReadsInTurn(steps, more);
      assert (traces + [more])[..i] == traces;
      steps, traces, rest := steps + more, traces + [more], rest';
    }
  }

  /**
    The traces of `RunTasks` lose nothing: whatever arrives between their steps, as long as the
    listings say what is in the slots, the events are a run of the inbox machine.
   */
  lemma SerialReadsLoseNothing(steps: seq<Step>, modemId: string, events: seq<Inbox.Event>)
    requires ReadsInOrder(Inbox.NoPass, steps) && Inbox.DistinctLists(InboxEvents(steps))
    requires Inbox.WithoutArrivals(events) == InboxEvents(steps)
    requires Inbox.EnvironmentOk(Inbox.Initial(Inbox.Serial, modemId), events)
    ensures var site := Inbox.Initial(Inbox.Serial, modemId);
            Inbox.IsRun(site, events) && Inbox.Conserved(Inbox.Run(site, events))
  {
    hide InboxEvents, Inbox.AdvanceAll, Inbox.IsRun, Inbox.EnvironmentOk, Inbox.WithoutArrivals, Inbox.Run,
      Inbox.Inv, Inbox.Agrees, Inbox.Conserved, Inbox.Safe, Inbox.Lost, Inbox.Clashed;
    Inbox.InitiallyInv(Inbox.Serial, modemId);
    Inbox.FollowingLosesOnlyByClash(Inbox.Initial(Inbox.Serial, modemId), Inbox.NoPass, events);
    Inbox.NoMessageIsLost(Inbox.Serial, modemId, events);
  }
}
