/**
  Sending through an Android stick (utils/adb.js): the shell command of `sendOne`, read back by the
  quoting rules of the POSIX shell (IEEE Std 1003.1, Shell Command Language, section 2.2), and the
  loop that sends a long text as separate messages.
 */
module Adb {
  import opened Wrappers
  import opened Utf16
  import opened SmsEncoding
  import opened Splitting
  import opened Pdu
  import opened Listing
  import opened JsonLines

  const QUOTE: CodeUnit := 0x27
  const BACKSLASH: CodeUnit := 0x5C
  const BLANK: CodeUnit := 0x20

  predicate IsAscii(s: string) {
    forall i :: 0 <= i < |s| ==> s[i] < 0x80 as char
  }

  /** An ASCII literal as a JavaScript string. */
  function Units(s: string): (t: Text)
    requires IsAscii(s)
    ensures |t| == |s|
  {
    seq(|s|, i requires 0 <= i < |s| => s[i] as int)
  }

  // ----- The command -----------------------------------------------------------------------------

  /** `s.replace(/'/g, "'\\''")`. */
  function QuotesEscaped(s: Text): Text {
    if s == [] then []
    else (if s[0] == QUOTE then [QUOTE, BACKSLASH, QUOTE, QUOTE] else [s[0]]) + QuotesEscaped(s[1..])
  }

  function ShQuote(s: Text): Text {
    [QUOTE] + (QuotesEscaped(s) + [QUOTE])
  }

  function JoinWords(words: seq<Text>): Text {
    if words == [] then []
    else if |words| == 1 then words[0]
    else words[0] + ([BLANK] + JoinWords(words[1..]))
  }

  /** The transaction code in decimal. */
  function Transaction(txn: int): Text {
    TxnIsPlain(txn);
    Units(PrintInt(txn))
  }

  /** `service call isms <txn> s16 <pkg> s16 <to> s16 'null' s16 <text> i32 0 i32 0`. */
  function SendCommand(txn: int, pkg: Text, to: Text, text: Text): Text {
    JoinWords([Units("service"), Units("call"), Units("isms"), Transaction(txn),
               Units("s16"), ShQuote(pkg), Units("s16"), ShQuote(to), Units("s16"), ShQuote(Units("null")),
               Units("s16"), ShQuote(text), Units("i32"), Units("0"), Units("i32"), Units("0")])
  }

  // ----- The shell -------------------------------------------------------------------------------

  /** A character that means itself outside quotes. */
  predicate IsPlain(u: CodeUnit) {
    0x30 <= u <= 0x39 || 0x41 <= u <= 0x5A || 0x61 <= u <= 0x7A || u == 0x2D || u == 0x2E || u == 0x5F
  }

  /** Behind an opening single quote: everything up to the next one stands for itself. */
  function InQuotes(s: Text): Option<(Text, Text)>
    decreases |s|
  {
    if s == [] then None
    else if s[0] == QUOTE then Some(([], s[1..]))
    else
      var (q, rest) :- InQuotes(s[1..]);
      Some(([s[0]] + q, rest))
  }

  lemma {:induction false} InQuotesShrinks(s: Text)
    ensures InQuotes(s).Some? ==> |InQuotes(s).value.1| < |s|
    decreases |s|
  {
    if s != [] && s[0] != QUOTE {
      InQuotesShrinks(s[1..]);
    }
  }

  /** One word, up to a blank outside quotes; None where the shell would see an operator or an expansion. */
  function Word(s: Text): Option<(Text, Text)>
    decreases |s|
  {
    if s == [] || s[0] == BLANK then Some(([], s))
    else if s[0] == QUOTE then
      var (q, r1) :- InQuotes(s[1..]);
      InQuotesShrinks(s[1..]);
      var (w, rest) :- Word(r1);
      Some((q + w, rest))
    else if s[0] == BACKSLASH then
      if |s| < 2 || s[1] == 0x0A then None
      else
        var (w, rest) :- Word(s[2..]);
        Some(([s[1]] + w, rest))
    else if !IsPlain(s[0]) then None
    else
      var (w, rest) :- Word(s[1..]);
      Some(([s[0]] + w, rest))
  }

  lemma {:induction false} WordShrinks(s: Text)
    ensures Word(s).Some? ==> |Word(s).value.1| <= |s|
    ensures Word(s).Some? && s != [] && s[0] != BLANK ==> |Word(s).value.1| < |s|
    decreases |s|
  {
    if s != [] && s[0] != BLANK {
      if s[0] == QUOTE {
        InQuotesShrinks(s[1..]);
        if InQuotes(s[1..]).Some? {
          WordShrinks(InQuotes(s[1..]).value.1);
        }
      } else if s[0] == BACKSLASH {
        if |s| >= 2 {
          WordShrinks(s[2..]);
        }
      } else {
        WordShrinks(s[1..]);
      }
    }
  }

  function Words(s: Text): Option<seq<Text>>
    decreases |s|
  {
    if s == [] then Some([])
    else if s[0] == BLANK then Words(s[1..])
    else
      var (w, rest) :- Word(s);
      WordShrinks(s);
      var more :- Words(rest);
      Some([w] + more)
  }

  // ----- The shell sees the arguments the driver meant -------------------------------------------

  predicate AtWordEnd(rest: Text) {
    rest == [] || rest[0] == BLANK
  }

  /** The word `first` in front of what a word has been read to. */
  function Prepend(first: Text, word: Option<(Text, Text)>): Option<(Text, Text)> {
    match word
    case None => None
    case Some(p) => Some((first + p.0, p.1))
  }

  lemma EndStep(rest: Text)
    requires AtWordEnd(rest)
    ensures Word(rest) == Some(([], rest))
  {
  }

  lemma PlainStep(u: CodeUnit, t: Text)
    requires IsPlain(u)
    ensures Word([u] + t) == Prepend([u], Word(t))
  {
    assert ([u] + t)[1..] == t;
  }

  lemma EscapeStep(u: CodeUnit, t: Text)
    requires u != 0x0A
    ensures Word([BACKSLASH, u] + t) == Prepend([u], Word(t))
  {
    assert ([BACKSLASH, u] + t)[2..] == t;
  }

  lemma QuoteStep(t: Text)
    ensures Word([QUOTE] + t) ==
            match InQuotes(t) case None => None case Some(p) => Prepend(p.0, Word(p.1))
  {
    assert ([QUOTE] + t)[1..] == t;
  }

  lemma InQuotesStep(u: CodeUnit, t: Text)
    ensures InQuotes([u] + t) == if u == QUOTE then Some(([], t)) else Prepend([u], InQuotes(t))
  {
    assert ([u] + t)[1..] == t;
  }

  /** However many quotes the text has, the shell reads the text. */
  lemma {:induction false} QuotedReadsBack(s: Text, rest: Text)
    requires AtWordEnd(rest)
    ensures Word([QUOTE] + (QuotesEscaped(s) + ([QUOTE] + rest))) == Some((s, rest))
    decreases |s|
  {
    hide Word, InQuotes, AtWordEnd;
    var tail := [QUOTE] + rest;
    var inner := QuotesEscaped(s) + tail;
    QuoteStep(inner);
    if s == [] {
      assert inner == [QUOTE] + rest;
      InQuotesStep(QUOTE, rest);
      EndStep(rest);
      assert s + [] == s;
    } else {
      QuotedReadsBack(s[1..], rest);
      var later := QuotesEscaped(s[1..]) + tail;
      if s[0] == QUOTE {
        var after := [BACKSLASH, QUOTE] + ([QUOTE] + later);
        assert inner == [QUOTE] + after;
        InQuotesStep(QUOTE, after);
        EscapeStep(QUOTE, [QUOTE] + later);
        assert [] + ([QUOTE] + s[1..]) == s;
      } else {
        assert inner == [s[0]] + later;
        InQuotesStep(s[0], later);
        QuoteStep(later);
        PrependTwice([s[0]], later);
      }
      assert s == [s[0]] + s[1..];
    }
  }

  lemma PrependTwice(first: Text, t: Text)
    requires InQuotes(t).Some?
    ensures var p := InQuotes(t).value;
            Prepend(first + p.0, Word(p.1)) == Prepend(first, Prepend(p.0, Word(p.1)))
  {
    hide Word, InQuotes;
    var p := InQuotes(t).value;
    if Word(p.1).Some? {
      assert first + p.0 + Word(p.1).value.0 == first + (p.0 + Word(p.1).value.0);
    }
  }

  lemma {:induction false} PlainReadsBack(w: Text, rest: Text)
    requires AtWordEnd(rest) && forall i :: 0 <= i < |w| ==> IsPlain(w[i])
    ensures Word(w + rest) == Some((w, rest))
  {
    hide Word, IsPlain, AtWordEnd;
    if w == [] {
      assert w + rest == rest;
      EndStep(rest);
    } else {
      PlainReadsBack(w[1..], rest);
      PlainStep(w[0], w[1..] + rest);
      assert w + rest == [w[0]] + (w[1..] + rest);
      assert w == [w[0]] + w[1..];
    }
  }

  /** `code` is a way to write the word `w`. */
  ghost predicate Writes(code: Text, w: Text) {
    && code != [] && code[0] != BLANK
    && forall rest :: AtWordEnd(rest) ==> Word(code + rest) == Some((w, rest))
  }

  lemma ShQuoteWrites(s: Text)
    ensures Writes(ShQuote(s), s)
  {
    forall rest | AtWordEnd(rest)
      ensures Word(ShQuote(s) + rest) == Some((s, rest))
    {
      QuotedReadsBack(s, rest);
      assert ShQuote(s) + rest == [QUOTE] + (QuotesEscaped(s) + ([QUOTE] + rest));
    }
  }

  lemma PlainWrites(s: string)
    requires s != "" && IsAscii(s) && forall i :: 0 <= i < |s| ==> IsPlain(s[i] as int)
    ensures Writes(Units(s), Units(s))
  {
    forall rest | AtWordEnd(rest)
      ensures Word(Units(s) + rest) == Some((Units(s), rest))
    {
      PlainReadsBack(Units(s), rest);
    }
  }

  lemma TxnIsPlain(txn: int)
    ensures var s := PrintInt(txn);
            s != "" && IsAscii(s) && forall i :: 0 <= i < |s| ==> IsPlain(s[i] as int)
  {
    DecimalReadsBack(if txn < 0 then -txn else txn);
  }

  ghost predicate AllWrite(codes: seq<Text>, words: seq<Text>) {
    |codes| == |words| && forall i :: 0 <= i < |codes| ==> Writes(codes[i], words[i])
  }

  lemma {:induction false} JoinedReadsBack(codes: seq<Text>, words: seq<Text>)
    requires AllWrite(codes, words)
    ensures Words(JoinWords(codes)) == Some(words)
    decreases |codes|
  {
    hide Word;
    if codes != [] {
      var code, tail := codes[0], if |codes| == 1 then [] else [BLANK] + JoinWords(codes[1..]);
      JoinedReadsBack(codes[1..], words[1..]);
      assert Writes(code, words[0]) && AtWordEnd(tail);
      var line := JoinWords(codes);
      assert line == code + tail && line[0] == code[0];
      WordShrinks(line);
      if |codes| > 1 {
        assert tail[1..] == JoinWords(codes[1..]);
      } else {
        assert words[1..] == [];
      }
      assert words == [words[0]] + words[1..];
    }
  }

  /**
    The shell splits the command of `sendOne` into exactly the intended arguments: whatever the
    text, the number and the package contain arrives unchanged, each as one word.
   */
  lemma CommandReadsBack(txn: int, pkg: Text, to: Text, text: Text)
    ensures Words(SendCommand(txn, pkg, to, text)) ==
            Some([Units("service"), Units("call"), Units("isms"), Transaction(txn),
                  Units("s16"), pkg, Units("s16"), to, Units("s16"), Units("null"),
                  Units("s16"), text, Units("i32"), Units("0"), Units("i32"), Units("0")])
  {
    hide Writes, ShQuote, Words, JoinWords, PrintInt;
    TxnIsPlain(txn);
    PlainWrites("service"); PlainWrites("call"); PlainWrites("isms"); PlainWrites(PrintInt(txn));
    PlainWrites("s16"); PlainWrites("i32"); PlainWrites("0");
    ShQuoteWrites(pkg); ShQuoteWrites(to); ShQuoteWrites(Units("null")); ShQuoteWrites(text);
    JoinedReadsBack(
      [Units("service"), Units("call"), Units("isms"), Transaction(txn),
       Units("s16"), ShQuote(pkg), Units("s16"), ShQuote(to), Units("s16"), ShQuote(Units("null")),
       Units("s16"), ShQuote(text), Units("i32"), Units("0"), Units("i32"), Units("0")],
      [Units("service"), Units("call"), Units("isms"), Transaction(txn),
       Units("s16"), pkg, Units("s16"), to, Units("s16"), Units("null"),
       Units("s16"), text, Units("i32"), Units("0"), Units("i32"), Units("0")]);
  }

  // ----- Sending ---------------------------------------------------------------------------------

  /** The device's shell is told to send this text to this number, for this package. */
  predicate TellsToSend(command: Text, txn: int, pkg: Text, to: Text, text: Text) {
    match Words(command)
    case None => false
    case Some(words) =>
      && |words| == 16 && words[..4] == [Units("service"), Units("call"), Units("isms"), Transaction(txn)]
      && words[5] == pkg && words[7] == to && words[9] == Units("null") && words[11] == text
  }

  lemma CommandTellsToSend(txn: int, pkg: Text, to: Text, text: Text)
    ensures TellsToSend(SendCommand(txn, pkg, to, text), txn, pkg, to, text)
  {
    hide Words, SendCommand, Units, Transaction;
    CommandReadsBack(txn, pkg, to, text);
  }

  lemma NumberIsAscii(to: string)
    requires ValidNumber(to)
    ensures IsAscii(to)
  {
    forall i | 0 <= i < |to|
      ensures to[i] < 0x80 as char
    {
      assert i > 0 && International(to) ==> to[i] == RawDigits(to)[i - 1];
    }
  }

  /**
    `sendSMS`: one command per part, in order, until the device rejects one (`accepts` says which it
    takes); each command tells the shell to send that part to the number. A success means that the
    parts sent are the whole text, each of them a single SMS; a failure leaves a proper beginning of
    the parts sent, the next one tried unless the message was refused at once.
   */
  method SendSms(txn: int, pkg: Text, to: string, message: Text, accepts: seq<bool>)
    returns (commands: seq<Text>, sent: seq<Text>, reference: Option<string>)
    ensures reference.Some? ==>
              && ValidNumber(to) && Analyze(message).ok
              && Join(sent) == message && |sent| == Analyze(message).segments == |commands|
              && reference.value == "adb:sent" + if |sent| > 1 then ":" + Decimal(|sent|) + "parts" else ""
    ensures reference.None? ==> sent < SplitMessage(message)
    ensures reference.None? ==>
              if ValidNumber(to) && Analyze(message).ok
              then |commands| == |sent| + 1 && (|sent| >= |accepts| || !accepts[|sent|])
              else commands == []
    ensures |sent| <= |commands| <= |SplitMessage(message)|
    ensures commands != [] ==> IsAscii(to)
    ensures forall i :: 0 <= i < |commands| ==>
              TellsToSend(commands[i], txn, pkg, Units(to), SplitMessage(message)[i])
    ensures forall i :: 0 <= i < |sent| ==> Analyze(sent[i]).segments == 1
    ensures forall i :: 0 <= i < |sent| ==> i < |accepts| && accepts[i]
  {
    hide Analyze, SplitMessage, ValidNumber, Decimal, TellsToSend, SendCommand, Units;
    commands, sent := [], [];
    SegmentsCountTheParts(message);
    SomethingToSend(message);
    if !ValidNumber(to) {
      return commands, sent, None;
    }
    NumberIsAscii(to);
    var info := AnalyzeMessage(message);
    if !info.ok {
      return commands, sent, None;
    }
    OneSegment(message);
    var parts := if info.segments == 1 then [message] else SplitMessage(message);
    assert parts == SplitMessage(message);
    var i := 0;
    while i < |parts|
      invariant i <= |parts| && sent == parts[..i] && |commands| == i
      invariant forall k :: 0 <= k < i ==> TellsToSend(commands[k], txn, pkg, Units(to), parts[k])
      invariant forall k :: 0 <= k < i ==> Analyze(sent[k]).segments == 1
      invariant i <= |accepts| && forall k :: 0 <= k < i ==> accepts[k]
    {
      CommandTellsToSend(txn, pkg, Units(to), parts[i]);
      commands := commands + [SendCommand(txn, pkg, Units(to), parts[i])];
      if i >= |accepts| || !accepts[i] {
        return commands, sent, None;
      }
      PartsAreSingleMessages(message, i);
      sent := sent + [parts[i]];
      i := i + 1;
    }
    assert parts[..i] == parts;
    reference := Some("adb:sent" + if |parts| > 1 then ":" + Decimal(|parts|) + "parts" else "");
  }

  lemma OneSegment(message: Text)
    ensures Analyze(message).segments == 1 ==> SplitMessage(message) == [message]
  {
    hide Analyze;
  }

  lemma SomethingToSend(message: Text)
    ensures SplitMessage(message) != []
  {
    hide UnitCost, Gsm7Parts, Ucs2Parts;
    SegmentsCountTheParts(message);
  }
}
