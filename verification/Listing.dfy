/**
  Reading the stored messages: the reader of `AT+CMGL` responses (utils/modem.js, `getMessages`)
  against a modem that prints a listing as 3GPP TS 27.005 section 3.4.2 lays it out.
 */
module Listing {
  import opened Wrappers
  import opened Framing
  import opened SerialDriver

  datatype Message = Message(index: nat, status: string, from: string, date: string, text: string)

  // ----- Decimal numbers -------------------------------------------------------------------------

  predicate IsDigit(c: char) {
    '0' <= c <= '9'
  }

  function Decimal(n: nat): string {
    if n < 10 then [('0' as int + n) as char] else Decimal(n / 10) + [('0' as int + n % 10) as char]
  }

  /** `parseInt(digits, 10)` on a string of digits. */
  function DecimalValue(digits: string): nat
    requires forall i :: 0 <= i < |digits| ==> IsDigit(digits[i])
  {
    if digits == [] then 0
    else 10 * DecimalValue(digits[..|digits| - 1]) + DigitValue(digits[|digits| - 1])
  }

  function DigitValue(c: char): nat
    requires IsDigit(c)
  {
    c as int - '0' as int
  }

  lemma {:induction false} DecimalReadsBack(n: nat)
    ensures Decimal(n) != []
    ensures forall i :: 0 <= i < |Decimal(n)| ==> IsDigit(Decimal(n)[i])
    ensures DecimalValue(Decimal(n)) == n
  {
    if n >= 10 {
      DecimalReadsBack(n / 10);
      assert Decimal(n)[..|Decimal(n)| - 1] == Decimal(n / 10);
    }
  }

  // ----- The header pattern ----------------------------------------------------------------------

  /** Length of the leading run of digits. */
  function DigitRun(s: string): (n: nat)
    ensures n <= |s| && forall i :: 0 <= i < n ==> IsDigit(s[i])
  {
    if s == [] || !IsDigit(s[0]) then 0 else 1 + DigitRun(s[1..])
  }

  /** Position of the first `c`, or the length if there is none. */
  function IndexOf(s: string, c: char): (n: nat)
    ensures n <= |s| && (forall i :: 0 <= i < n ==> s[i] != c) && (n < |s| ==> s[n] == c)
  {
    if s == [] || s[0] == c then 0 else 1 + IndexOf(s[1..], c)
  }

  /** `"([^"]*)"`: the text between quotes and what follows the closing one. */
  function Quoted(s: string): Option<(string, string)> {
    if s == [] || s[0] != '"' then None
    else
      var n := IndexOf(s[1..], '"');
      if n == |s| - 1 then None else Some((s[1..][..n], s[1..][n + 1..]))
  }

  function AfterComma(s: string): Option<string> {
    if s != [] && s[0] == ',' then Some(s[1..]) else None
  }

  /** `,"?([^"]*)"?` behind a comma: the date, quoted or not. */
  function DateField(s: string): string {
    var t := if s != [] && s[0] == '"' then s[1..] else s;
    t[..IndexOf(t, '"')]
  }

  /** `line.match(headerRe)`, with an empty text. */
  function MatchHeader(line: string): Option<Message> {
    if !("+CMGL:" <= line) then None
    else
      var s := TrimStart(line[6..]);
      var n := DigitRun(s);
      if n == 0 then None
      else
        var s1 :- AfterComma(s[n..]);
        var (status, s2) :- Quoted(s1);
        var s3 :- AfterComma(s2);
        var (from, s4) :- Quoted(s3);
        var s5 :- AfterComma(s4);
        var c := IndexOf(s5, ',');
        if c == |s5| then None
        else Some(Message(DecimalValue(s[..n]), status, from, DateField(s5[c + 1..]), ""))
  }

  // ----- The reader ------------------------------------------------------------------------------

  function AddLine(m: Message, line: string): Message {
    m.(text := m.text + (if m.text == "" then "" else "\n") + line)
  }

  /** One turn of the loop; the current message is the last one. */
  function ReadLine(messages: seq<Message>, line: string): seq<Message> {
    var m := MatchHeader(line);
    if m.Some? then messages + [m.value]
    else if messages != [] && !IsTerminalLine(line) then
      messages[|messages| - 1 := AddLine(messages[|messages| - 1], line)]
    else messages
  }

  function ReadLines(messages: seq<Message>, lines: seq<string>): seq<Message>
    decreases |lines|
  {
    if lines == [] then messages else ReadLines(ReadLine(messages, lines[0]), lines[1..])
  }

  method ReadListing(lines: seq<string>) returns (messages: seq<Message>)
    ensures messages == ReadLines([], lines)
  {
    hide MatchHeader;
    messages := [];
    for i := 0 to |lines|
      invariant ReadLines([], lines) == ReadLines(messages, lines[i..])
    {
      var line := lines[i];
      var m := MatchHeader(line);
      if m.Some? {
        messages := messages + [m.value];
      } else if messages != [] && !IsTerminalLine(line) {
        var current := messages[|messages| - 1];
        current := current.(text := current.text + (if current.text == "" then "" else "\n") + line);
        messages := messages[|messages| - 1 := current];
      }
      assert lines[i..][1..] == lines[i + 1..];
    }
  }

  // ----- The modem's side ------------------------------------------------------------------------

  datatype Stored = Stored(index: nat, status: string, from: string, alpha: string, date: string, body: seq<string>)

  predicate Free(s: string, c: char) {
    forall i :: 0 <= i < |s| ==> s[i] != c
  }

  predicate PlainLine(line: string) {
    line != "" && Trim(line) == line && Free(line, '\n')
  }

  /** The fields stay within their delimiters, the lines within theirs. */
  predicate Framable(m: Stored) {
    && Free(m.status, '"') && Free(m.from, '"') && Free(m.date, '"') && Free(m.alpha, ',')
    && Free(m.status, '\n') && Free(m.from, '\n') && Free(m.date, '\n') && Free(m.alpha, '\n')
    && forall i :: 0 <= i < |m.body| ==> PlainLine(m.body[i])
  }

  predicate AllFramable(stored: seq<Stored>) {
    forall i :: 0 <= i < |stored| ==> Framable(stored[i])
  }

  /** A line of a text that a listing cannot tell from its own: `OK`, an error, or a header. */
  predicate IsMistakable(line: string) {
    IsTerminalLine(line) || MatchHeader(line).Some?
  }

  predicate IsClean(m: Stored) {
    forall i :: 0 <= i < |m.body| ==> !IsMistakable(m.body[i])
  }

  predicate AllClean(stored: seq<Stored>) {
    forall i :: 0 <= i < |stored| ==> IsClean(stored[i])
  }

  function Quote(s: string, rest: string): string {
    ['"'] + (s + (['"'] + rest))
  }

  /** `"stat","oa",alpha,"scts"` behind the index and its comma. */
  function HeaderFields(m: Stored): string {
    Quote(m.status, [','] + Quote(m.from, [','] + (m.alpha + ([','] + Quote(m.date, "")))))
  }

  function HeaderLine(m: Stored): string {
    "+CMGL: " + (Decimal(m.index) + ([','] + HeaderFields(m)))
  }

  function LinesOfStored(stored: seq<Stored>): seq<string> {
    if stored == [] then [] else [HeaderLine(stored[0])] + stored[0].body + LinesOfStored(stored[1..])
  }

  /** Every line ended by CR LF. */
  function Print(lines: seq<string>): string {
    if lines == [] then [] else lines[0] + "\r\n" + Print(lines[1..])
  }

  function Response(stored: seq<Stored>): string {
    Print(LinesOfStored(stored)) + "\r\nOK\r\n"
  }

  function JoinLines(body: seq<string>): string {
    if body == [] then ""
    else if |body| == 1 then body[0]
    else JoinLines(body[..|body| - 1]) + "\n" + body[|body| - 1]
  }

  function MessageOf(m: Stored): Message {
    Message(m.index, m.status, m.from, m.date, JoinLines(m.body))
  }

  function MessagesOf(stored: seq<Stored>): seq<Message> {
    seq(|stored|, i requires 0 <= i < |stored| => MessageOf(stored[i]))
  }

  // ----- The header is read back -----------------------------------------------------------------

  lemma {:induction false} IndexOfFree(a: string, c: char, rest: string)
    requires Free(a, c)
    ensures IndexOf(a + rest, c) == |a| + IndexOf(rest, c)
  {
    if a == [] {
      assert a + rest == rest;
    } else {
      assert (a + rest)[1..] == a[1..] + rest;
      IndexOfFree(a[1..], c, rest);
    }
  }

  lemma QuotedReadsBack(x: string, rest: string)
    requires Free(x, '"')
    ensures Quoted(Quote(x, rest)) == Some((x, rest))
  {
    hide IndexOf;
    var s := Quote(x, rest);
    var inner := x + (['"'] + rest);
    assert s[1..] == inner;
    IndexOfFree(x, '"', ['"'] + rest);
    FirstIs('"', rest);
    assert inner[..|x|] == x && inner[|x| + 1..] == rest;
  }

  lemma FirstIs(c: char, rest: string)
    ensures IndexOf([c] + rest, c) == 0
    ensures c == ',' ==> AfterComma([c] + rest) == Some(rest)
  {
    assert ([c] + rest)[1..] == rest;
  }

  lemma {:induction false} DigitRunStops(digits: string, c: char, rest: string)
    requires forall i :: 0 <= i < |digits| ==> IsDigit(digits[i])
    requires !IsDigit(c)
    ensures DigitRun(digits + ([c] + rest)) == |digits|
  {
    if digits == [] {
      assert digits + ([c] + rest) == [c] + rest;
    } else {
      assert (digits + ([c] + rest))[1..] == digits[1..] + ([c] + rest);
      DigitRunStops(digits[1..], c, rest);
    }
  }

  lemma DateReadsBack(date: string)
    requires Free(date, '"')
    ensures DateField(Quote(date, "")) == date
  {
    hide IndexOf;
    var t := date + (['"'] + "");
    assert Quote(date, "")[1..] == t;
    IndexOfFree(date, '"', ['"'] + "");
    FirstIs('"', "");
  }

  /** Behind the alphabetic field, which is skipped up to its comma. */
  lemma AlphaIsSkipped(alpha: string, rest: string)
    requires Free(alpha, ',')
    ensures var s := alpha + ([','] + rest);
            IndexOf(s, ',') == |alpha| < |s| && s[|alpha| + 1..] == rest
  {
    hide IndexOf;
    IndexOfFree(alpha, ',', [','] + rest);
    FirstIs(',', rest);
  }

  lemma IndexIsFound(index: nat, fields: string)
    ensures var line := "+CMGL: " + (Decimal(index) + ([','] + fields));
            && "+CMGL:" <= line
            && TrimStart(line[6..]) == Decimal(index) + ([','] + fields)
  {
    DecimalReadsBack(index);
    hide Decimal;
    var rest := Decimal(index) + ([','] + fields);
    var line := "+CMGL: " + rest;
    assert line[..6] == "+CMGL:";
    assert line[6..] == [' '] + rest;
    assert ([' '] + rest)[1..] == rest;
    assert rest[0] == Decimal(index)[0] && !IsSpace(rest[0]);
  }

  lemma HeaderReadsBack(m: Stored)
    requires Framable(m)
    ensures MatchHeader(HeaderLine(m)) == Some(Message(m.index, m.status, m.from, m.date, ""))
  {
    hide IndexOf, Quoted, Quote, TrimStart, Decimal, DecimalValue, DateField, AfterComma, DigitRun;
    DecimalReadsBack(m.index);
    var date := Quote(m.date, "");
    var alpha := m.alpha + ([','] + date);
    var from := Quote(m.from, [','] + alpha);
    var fields := Quote(m.status, [','] + from);
    var digits := Decimal(m.index);
    IndexIsFound(m.index, fields);
    DigitRunStops(digits, ',', fields);
    assert (digits + ([','] + fields))[|digits|..] == [','] + fields;
    assert (digits + ([','] + fields))[..|digits|] == digits;
    FirstIs(',', fields);
    QuotedReadsBack(m.status, [','] + from);
    FirstIs(',', from);
    QuotedReadsBack(m.from, [','] + alpha);
    FirstIs(',', alpha);
    AlphaIsSkipped(m.alpha, date);
    DateReadsBack(m.date);
  }

  // ----- The lines are framed back ---------------------------------------------------------------

  lemma TrimKeeps(s: string)
    requires s != [] && !IsSpace(s[0]) && !IsSpace(s[|s| - 1])
    ensures Trim(s) == s
  {
  }

  lemma {:induction false} FirstLfBehind(a: string, rest: string)
    requires Free(a, '\n')
    ensures FirstLf(a + rest) == |a| + FirstLf(rest)
  {
    FirstLfConcat(a, rest);
    assert FirstLf(a) == |a|;
  }

  lemma LineIsFramed(line: string, rest: string)
    requires PlainLine(line)
    ensures Lines(line + "\r\n" + rest) == [line] + Lines(rest)
    ensures Residue(line + "\r\n" + rest) == Residue(rest)
  {
    hide Trim, FirstLf;
    var s := line + "\r\n" + rest;
    var a := line + ['\r'];
    assert s == a + (['\n'] + rest);
    FirstLfBehind(a, ['\n'] + rest);
    assert FirstLf(['\n'] + rest) == 0 by {
      assert (['\n'] + rest)[0] == '\n';
    }
    assert s[..|a|] == a && s[|a| + 1..] == rest;
    TrimDropsTrailing(line, '\r');
  }

  lemma {:induction false} PrintIsFramed(lines: seq<string>, rest: string)
    requires forall i :: 0 <= i < |lines| ==> PlainLine(lines[i])
    ensures Lines(Print(lines) + rest) == lines + Lines(rest)
    ensures Residue(Print(lines) + rest) == Residue(rest)
    decreases |lines|
  {
    hide PlainLine, Lines, Residue;
    if lines == [] {
      assert Print(lines) + rest == rest;
    } else {
      PrintIsFramed(lines[1..], rest);
      LineIsFramed(lines[0], Print(lines[1..]) + rest);
      assert Print(lines) + rest == lines[0] + "\r\n" + (Print(lines[1..]) + rest);
      assert lines == [lines[0]] + lines[1..];
    }
  }

  lemma QuoteIsFree(x: string, rest: string)
    requires Free(x, '\n') && Free(rest, '\n')
    ensures Free(Quote(x, rest), '\n') && Quote(x, rest) != []
    ensures var q := Quote(x, rest); q[|q| - 1] == (if rest == [] then '"' else rest[|rest| - 1])
  {
  }

  lemma HeaderIsPlain(m: Stored)
    requires Framable(m)
    ensures PlainLine(HeaderLine(m)) && !IsTerminalLine(HeaderLine(m))
  {
    hide Quote, Trim, Decimal;
    DecimalReadsBack(m.index);
    var date := Quote(m.date, "");
    QuoteIsFree(m.date, "");
    var alpha := [','] + (m.alpha + ([','] + date));
    QuoteIsFree(m.from, alpha);
    var from := [','] + Quote(m.from, alpha);
    QuoteIsFree(m.status, from);
    var line := HeaderLine(m);
    assert Free(line, '\n');
    assert alpha[|alpha| - 1] == date[|date| - 1] == '"';
    assert from[|from| - 1] == '"';
    assert line[0] == '+' && line[4] == 'L' && line[|line| - 1] == '"';
    TrimKeeps(line);
  }

  lemma {:induction false} StoredLinesArePlain(stored: seq<Stored>)
    requires AllFramable(stored)
    ensures forall i :: 0 <= i < |LinesOfStored(stored)| ==> PlainLine(LinesOfStored(stored)[i])
  {
    hide PlainLine, IsTerminalLine, HeaderLine;
    if stored != [] {
      HeaderIsPlain(stored[0]);
      StoredLinesArePlain(stored[1..]);
      var lines, body, rest := LinesOfStored(stored), stored[0].body, LinesOfStored(stored[1..]);
      assert Framable(stored[0]);
      forall i | 0 <= i < |lines|
        ensures PlainLine(lines[i])
      {
        if i == 0 {
          assert lines[i] == HeaderLine(stored[0]);
        } else if i <= |body| {
          assert lines[i] == body[i - 1] == stored[0].body[i - 1];
        } else {
          assert lines[i] == rest[i - 1 - |body|];
        }
      }
    }
  }

  // ----- The reader gives the messages back ------------------------------------------------------

  lemma {:induction false} ReadsBody(messages: seq<Message>, m: Stored, k: nat, rest: seq<string>)
    requires Framable(m) && IsClean(m) && k <= |m.body|
    ensures var read := Message(m.index, m.status, m.from, m.date, JoinLines(m.body[..k]));
            ReadLines(messages + [read], m.body[k..] + rest) == ReadLines(messages + [MessageOf(m)], rest)
    decreases |m.body| - k
  {
    hide MatchHeader, IsTerminalLine, Trim;
    if k == |m.body| {
      assert m.body[..k] == m.body && m.body[k..] + rest == rest;
    } else {
      var read := Message(m.index, m.status, m.from, m.date, JoinLines(m.body[..k]));
      var next := Message(m.index, m.status, m.from, m.date, JoinLines(m.body[..k + 1]));
      assert m.body[..k + 1][..k] == m.body[..k];
      if k > 0 {
        JoinIsNotEmpty(m.body[..k]);
      }
      assert !IsMistakable(m.body[k]);
      assert AddLine(read, m.body[k]) == next;
      var lines := m.body[k..] + rest;
      assert lines[0] == m.body[k] && lines[1..] == m.body[k + 1..] + rest;
      assert (messages + [read])[|messages| := next] == messages + [next];
      ReadsBody(messages, m, k + 1, rest);
    }
  }

  lemma JoinIsNotEmpty(body: seq<string>)
    requires body != [] && forall i :: 0 <= i < |body| ==> body[i] != ""
    ensures JoinLines(body) != ""
  {
  }

  /** One message: its header, then its body. */
  lemma ReadsOne(messages: seq<Message>, m: Stored, rest: seq<string>)
    requires Framable(m) && IsClean(m)
    ensures ReadLines(messages, [HeaderLine(m)] + m.body + rest) == ReadLines(messages + [MessageOf(m)], rest)
  {
    hide MatchHeader, IsTerminalLine, HeaderLine, Framable, IsClean, JoinLines;
    var lines := [HeaderLine(m)] + m.body + rest;
    HeaderReadsBack(m);
    EmptyJoin();
    assert lines[0] == HeaderLine(m) && lines[1..] == m.body + rest;
    assert m.body[..0] == [] && m.body[0..] == m.body;
    ReadsBody(messages, m, 0, rest);
  }

  lemma EmptyJoin()
    ensures JoinLines([]) == ""
  {
  }

  // ----- What the command hears ------------------------------------------------------------------

  /** The lines up to the first terminal one. */
  function Heard(lines: seq<string>): seq<string> {
    if lines == [] then []
    else if IsTerminalLine(lines[0]) then [lines[0]]
    else [lines[0]] + Heard(lines[1..])
  }

  lemma {:induction false} HeardBehind(a: seq<string>, rest: seq<string>)
    requires forall i :: 0 <= i < |a| ==> !IsTerminalLine(a[i])
    ensures Heard(a + rest) == a + Heard(rest)
  {
    hide IsTerminalLine;
    if a == [] {
      assert a + rest == rest;
    } else {
      assert (a + rest)[0] == a[0] && (a + rest)[1..] == a[1..] + rest;
      HeardBehind(a[1..], rest);
      assert [a[0]] + (a[1..] + Heard(rest)) == a + Heard(rest);
    }
  }

  lemma OkIsHeard()
    ensures Heard(["OK"]) == ["OK"]
    ensures forall messages :: ReadLines(messages, ["OK"]) == messages
  {
    assert !("+CMGL:" <= "OK");
    forall messages
      ensures ReadLines(messages, ["OK"]) == messages
    {
      assert ReadLine(messages, "OK") == messages;
    }
  }

  lemma TerminalIsNoHeader(line: string)
    requires IsTerminalLine(line)
    ensures MatchHeader(line).None?
  {
    hide MatchHeader, TrimStart;
    assert |line| > 3 ==> line[0] != '+' || line[3] != 'G';
    WithoutMarkNoHeader(line);
  }

  lemma WithoutMarkNoHeader(line: string)
    ensures "+CMGL:" <= line || MatchHeader(line).None?
  {
  }

  /** Later lines leave all messages but the last as they are, and drop none. */
  lemma {:induction false} ReadingGoesOn(messages: seq<Message>, lines: seq<string>)
    requires messages != []
    ensures |messages| <= |ReadLines(messages, lines)|
    ensures forall i :: 0 <= i < |messages| - 1 ==> ReadLines(messages, lines)[i] == messages[i]
    decreases |lines|
  {
    hide MatchHeader, IsTerminalLine;
    if lines != [] {
      ReadingGoesOn(ReadLine(messages, lines[0]), lines[1..]);
    }
  }

  /** The message without its lines from `j` on. */
  function CutAt(m: Stored, j: nat): Stored
    requires j <= |m.body|
  {
    m.(body := m.body[..j])
  }

  /** Message `k` is read without its lines from `j` on. */
  predicate ReadsCut(stored: seq<Stored>, read: seq<Message>, k: nat, j: nat) {
    k < |stored| && k < |read| && j < |stored[k].body| && read[k] == MessageOf(CutAt(stored[k], j))
  }

  lemma CutIsShorter(m: Stored, j: nat)
    requires Framable(m) && j < |m.body|
    ensures |MessageOf(CutAt(m, j)).text| < |MessageOf(m).text|
  {
    hide Trim;
    JoinGrows(m.body, j);
  }

  lemma {:induction false} JoinGrows(body: seq<string>, j: nat)
    requires j < |body| && forall i :: 0 <= i < |body| ==> body[i] != ""
    ensures |JoinLines(body[..j])| < |JoinLines(body)|
  {
    var shorter := body[..|body| - 1];
    assert |body| > 1 ==> |JoinLines(shorter)| < |JoinLines(body)|;
    if j < |shorter| {
      JoinGrows(shorter, j);
      assert shorter[..j] == body[..j];
    } else {
      assert body[..j] == shorter;
    }
  }

  /** A message with a mistakable line is read only up to the first one. */
  lemma ReadsUpToMistakable(messages: seq<Message>, m: Stored, j: nat, rest: seq<string>)
    requires Framable(m) && j < |m.body| && IsMistakable(m.body[j])
    requires forall i :: 0 <= i < j ==> !IsMistakable(m.body[i])
    ensures var read := ReadLines(messages, Heard([HeaderLine(m)] + m.body + rest));
            |messages| < |read| && read[|messages|] == MessageOf(CutAt(m, j))
  {
    hide ReadLines, ReadLine, HeaderLine, Framable, JoinLines, IsTerminalLine, MatchHeader, Heard;
    var n, tail := CutAt(m, j), m.body[j..] + rest;
    CutIsFramable(m, j);
    HeaderIsPlain(m);
    var lines := [HeaderLine(m)] + n.body;
    assert HeaderLine(n) == HeaderLine(m) by {
      hide *;
      SameHeader(m, n);
    }
    forall i | 0 <= i < |lines|
      ensures !IsTerminalLine(lines[i])
    {
      assert i > 0 ==> lines[i] == m.body[i - 1];
    }
    HeardBehind(lines, tail);
    assert [HeaderLine(m)] + m.body + rest == lines + tail;
    assert lines + Heard(tail) == [HeaderLine(n)] + n.body + Heard(tail);
    ReadsOne(messages, n, Heard(tail));
    MistakableEndsIt(messages + [MessageOf(n)], m.body[j], tail);
  }

  lemma SameHeader(m: Stored, n: Stored)
    requires n == m.(body := n.body)
    ensures HeaderLine(n) == HeaderLine(m)
  {
  }

  lemma CutIsFramable(m: Stored, j: nat)
    requires Framable(m) && j <= |m.body| && forall i :: 0 <= i < j ==> !IsMistakable(m.body[i])
    ensures Framable(CutAt(m, j)) && IsClean(CutAt(m, j))
  {
  }

  lemma MistakableEndsIt(messages: seq<Message>, line: string, lines: seq<string>)
    requires messages != [] && lines != [] && lines[0] == line && IsMistakable(line)
    ensures var read := ReadLines(messages, Heard(lines));
            |messages| <= |read| && forall i :: 0 <= i < |messages| ==> read[i] == messages[i]
  {
    hide MatchHeader, IsTerminalLine;
    if IsTerminalLine(line) {
      TerminalIsNoHeader(line);
      assert Heard(lines) == [line];
      assert ReadLines(messages, [line]) == ReadLines(ReadLine(messages, line), [line][1..]) == messages;
    } else {
      var header := MatchHeader(line).value;
      assert Heard(lines)[0] == line;
      ReadingGoesOn(messages + [header], Heard(lines)[1..]);
    }
  }

  /** `read` is what the reader has of `stored` behind `messages`. */
  ghost predicate ReadAs(messages: seq<Message>, stored: seq<Stored>, read: seq<Message>) {
    if AllClean(stored) then read == messages + MessagesOf(stored)
    else |messages| <= |read| && exists k: nat, j: nat :: ReadsCut(stored, read[|messages|..], k, j)
  }

  /** One clean message more in front. */
  lemma ReadAsBehind(messages: seq<Message>, stored: seq<Stored>, read: seq<Message>)
    requires stored != [] && IsClean(stored[0])
    requires ReadAs(messages + [MessageOf(stored[0])], stored[1..], read)
    ensures ReadAs(messages, stored, read)
  {
    hide IsClean, JoinLines;
    AllCleanFromSecond(stored);
    if AllClean(stored) {
      assert MessagesOf(stored) == [MessageOf(stored[0])] + MessagesOf(stored[1..]);
    } else {
      var k: nat, j: nat :| ReadsCut(stored[1..], read[|messages| + 1..], k, j);
      assert read[|messages|..][k + 1] == read[|messages| + 1..][k];
      assert ReadsCut(stored, read[|messages|..], k + 1, j);
    }
  }

  /**
    What the reader makes of what the command hears of a listing: the stored messages if their
    texts are clean, otherwise some message is cut short.
   */
  lemma {:induction false} ReadsStored(messages: seq<Message>, stored: seq<Stored>)
    requires AllFramable(stored)
    ensures var heard := Heard(LinesOfStored(stored) + ["OK"]);
            && ReadAs(messages, stored, ReadLines(messages, heard))
            && (AllClean(stored) ==> heard == LinesOfStored(stored) + ["OK"])
    decreases |stored|
  {
    hide ReadLines, HeaderLine, Framable, IsClean, JoinLines, Heard, ReadAs;
    if stored == [] {
      assert LinesOfStored(stored) + ["OK"] == ["OK"];
      OkIsHeard();
      NothingToRead(messages);
    } else {
      var m := stored[0];
      var after := LinesOfStored(stored[1..]) + ["OK"];
      assert LinesOfStored(stored) + ["OK"] == [HeaderLine(m)] + m.body + after;
      if IsClean(m) {
        CleanIsHeard(m, after);
        ReadsOne(messages, m, Heard(after));
        ReadsStored(messages + [MessageOf(m)], stored[1..]);
        ReadAsBehind(messages, stored, ReadLines(messages, Heard(LinesOfStored(stored) + ["OK"])));
        AllCleanFromSecond(stored);
      } else {
        FirstIsCut(messages, stored, after);
      }
    }
  }

  lemma NothingToRead(messages: seq<Message>)
    ensures ReadAs(messages, [], messages)
  {
    assert messages + MessagesOf([]) == messages;
  }

  lemma FirstIsCut(messages: seq<Message>, stored: seq<Stored>, after: seq<string>)
    requires stored != [] && Framable(stored[0]) && !IsClean(stored[0])
    ensures ReadAs(messages, stored, ReadLines(messages, Heard([HeaderLine(stored[0])] + stored[0].body + after)))
  {
    hide ReadLines, HeaderLine, Framable, IsMistakable, JoinLines, Heard;
    var m := stored[0];
    var j := FirstMistakable(m.body);
    ReadsUpToMistakable(messages, m, j, after);
    var read := ReadLines(messages, Heard([HeaderLine(m)] + m.body + after));
    assert ReadsCut(stored, read[|messages|..], 0, j);
    assert !AllClean(stored);
  }

  lemma AllCleanFromSecond(stored: seq<Stored>)
    requires stored != [] && IsClean(stored[0])
    ensures AllClean(stored) <==> AllClean(stored[1..])
  {
    hide IsClean;
    if AllClean(stored[1..]) {
      forall i | 0 <= i < |stored|
        ensures IsClean(stored[i])
      {
        assert i > 0 ==> stored[i] == stored[1..][i - 1];
      }
    }
  }

  function FirstMistakable(body: seq<string>): (j: nat)
    requires exists i :: 0 <= i < |body| && IsMistakable(body[i])
    ensures j < |body| && IsMistakable(body[j]) && forall i :: 0 <= i < j ==> !IsMistakable(body[i])
  {
    if IsMistakable(body[0]) then 0 else 1 + FirstMistakable(body[1..])
  }

  lemma CleanIsHeard(m: Stored, rest: seq<string>)
    requires Framable(m) && IsClean(m)
    ensures Heard([HeaderLine(m)] + m.body + rest) == [HeaderLine(m)] + m.body + Heard(rest)
  {
    hide HeaderLine, IsTerminalLine, MatchHeader, Framable, Heard;
    HeaderIsPlain(m);
    var lines := [HeaderLine(m)] + m.body;
    forall i | 0 <= i < |lines|
      ensures !IsTerminalLine(lines[i])
    {
      if i > 0 {
        assert lines[i] == m.body[i - 1] && !IsMistakable(m.body[i - 1]);
      }
    }
    HeardBehind(lines, rest);
  }

  // ----- Through the driver ----------------------------------------------------------------------

  function ReceiveAll(d: Driver, chunks: seq<string>): Driver
    decreases |chunks|
  {
    if chunks == [] then d else ReceiveAll(Receive(d, chunks[0]), chunks[1..])
  }

  predicate ExpectsNoPrompt(d: Driver) {
    d.current.Some? ==> !d.current.value.expectPrompt
  }

  lemma {:induction false} StillExpectsNoPrompt(d: Driver, lines: seq<string>)
    requires ExpectsNoPrompt(d)
    ensures ExpectsNoPrompt(HandLines(d, lines))
    decreases |lines|
  {
    hide MatchingWaiter, IsTerminalLine;
    if lines != [] {
      StillExpectsNoPrompt(HandLine(d, lines[0]), lines[1..]);
    }
  }

  lemma ReceiveWithoutPrompt(d: Driver, chunk: string)
    requires ExpectsNoPrompt(d)
    ensures Receive(d, chunk) == HandLines(d, Lines(d.rxBuffer + chunk)).(rxBuffer := Residue(d.rxBuffer + chunk))
    ensures ExpectsNoPrompt(Receive(d, chunk))
  {
    hide HandLines, Lines, Residue, TrimStart;
    StillExpectsNoPrompt(d, Lines(d.rxBuffer + chunk));
  }

  /**
    While no prompt is expected, a stream has one effect however it is cut into chunks: the
    driver takes the lines of the whole stream and keeps the residue of the whole stream.
   */
  lemma {:induction false} ChunksActAsOneStream(d: Driver, chunks: seq<string>)
    requires ExpectsNoPrompt(d) && FirstLf(d.rxBuffer) == |d.rxBuffer|
    ensures var stream := d.rxBuffer + Concatenation(chunks);
            ReceiveAll(d, chunks) == HandLines(d, Lines(stream)).(rxBuffer := Residue(stream))
    decreases |chunks|
  {
    hide HandLines, Lines, Residue, FirstLf, Receive, ExpectsNoPrompt;
    if chunks == [] {
      assert d.rxBuffer + Concatenation(chunks) == d.rxBuffer;
      LinesOfNoLf(d.rxBuffer);
      HandNothing(d);
    } else {
      var buffer, rest := d.rxBuffer + chunks[0], Concatenation(chunks[1..]);
      var e := Receive(d, chunks[0]);
      ReceiveWithoutPrompt(d, chunks[0]);
      NoLfInResidue(buffer);
      ChunksActAsOneStream(e, chunks[1..]);
      LinesOfChunks(buffer, rest);
      var later := Lines(Residue(buffer) + rest);
      HandLinesIgnoresBuffer(HandLines(d, Lines(buffer)), later, Residue(buffer));
      HandLinesInTurn(d, Lines(buffer), later);
      assert d.rxBuffer + Concatenation(chunks) == buffer + rest;
    }
  }

  lemma HandNothing(d: Driver)
    ensures HandLines(d, []) == d
  {
  }

  predicate NobodyWaitsFor(d: Driver, lines: seq<string>) {
    forall i, w :: 0 <= i < |lines| && w in d.waiters ==> !(w.prefix <= lines[i])
  }

  /** The end of a command that hears a terminal line. */
  function Ended(d: Driver, heard: seq<string>): Driver
    requires d.current.Some? && heard != []
  {
    var c, last := d.current.value, heard[|heard| - 1];
    Settle(d.(current := Some(c.(lines := c.lines + heard))),
           if IsErrorLine(last) then Some(ModemError(last)) else None)
  }

  lemma {:induction false} CommandHears(d: Driver, lines: seq<string>)
    requires d.current.Some? && NobodyWaitsFor(d, lines)
    requires lines != [] && IsTerminalLine(lines[|lines| - 1])
    ensures Heard(lines) != [] && HandLines(d, lines) == Ended(d, Heard(lines))
    decreases |lines|
  {
    hide IsTerminalLine, MatchingWaiter;
    var c, line, rest := d.current.value, lines[0], lines[1..];
    NobodyTakes(d, line);
    var e := HandLine(d, line);
    if IsTerminalLine(line) {
      NobodyListens(e, rest);
      assert Heard(lines) == [line];
    } else {
      CommandHears(e, rest);
      var heard := Heard(rest);
      assert Heard(lines) == [line] + heard;
      assert c.lines + [line] + heard == c.lines + ([line] + heard);
    }
  }

  lemma NobodyTakes(d: Driver, line: string)
    requires forall w :: w in d.waiters ==> !(w.prefix <= line)
    ensures MatchingWaiter(d.waiters, line, 0) == |d.waiters|
  {
  }

  /** Lines that are nobody's are dropped. */
  lemma {:induction false} NobodyListens(d: Driver, lines: seq<string>)
    requires d.current.None? && NobodyWaitsFor(d, lines)
    ensures HandLines(d, lines) == d
    decreases |lines|
  {
    hide MatchingWaiter;
    if lines != [] {
      NobodyTakes(d, lines[0]);
      NobodyListens(d, lines[1..]);
    }
  }

  /** A driver with the listing command just written. */
  predicate HasJustAsked(d: Driver) {
    d.current.Some? && !d.current.value.expectPrompt && d.current.value.lines == [] && d.rxBuffer == ""
  }

  /** A printed listing, cut into chunks at will. */
  lemma ListingIsHeard(d: Driver, stored: seq<Stored>, chunks: seq<string>)
    requires HasJustAsked(d) && AllFramable(stored)
    requires NobodyWaitsFor(d, LinesOfStored(stored) + ["OK"])
    requires Concatenation(chunks) == Response(stored)
    ensures var heard := Heard(LinesOfStored(stored) + ["OK"]);
            heard != [] && ReceiveAll(d, chunks) == Ended(d, heard)
  {
    hide Lines, Residue, Print, LinesOfStored, Framable, HandLines, Receive, ReceiveAll, FirstLf, Heard;
    var lines := LinesOfStored(stored);
    StoredLinesArePlain(stored);
    ResponseIsFramed(lines);
    NothingBuffered();
    ChunksActAsOneStream(d, chunks);
    assert d.rxBuffer + Concatenation(chunks) == Response(stored);
    assert (lines + ["OK"])[|lines|] == "OK" && IsTerminalLine("OK");
    CommandHears(d, lines + ["OK"]);
  }

  /** What the reader is given, if anything. */
  function LinesSettled(d: Driver, e: Driver): Option<seq<string>> {
    if |e.settled| == |d.settled| + 1 && e.settled[|d.settled|].outcome.Resolved?
    then Some(e.settled[|d.settled|].outcome.lines) else None
  }

  /**
    The listing round trip: the response of `AT+CMGL`, cut into chunks at will, settles its
    command, whatever the modem has stored in frames and as long as no waiter is listening for one
    of its lines. The reader recovers exactly the stored messages (indexes, senders, dates and
    texts, in order) if and only if no line of a text is mistakable. Otherwise the command fails or
    a message is read without its lines from a mistakable one on.
   */
  lemma ListingRoundTrip(d: Driver, stored: seq<Stored>, chunks: seq<string>)
    requires HasJustAsked(d) && AllFramable(stored)
    requires NobodyWaitsFor(d, LinesOfStored(stored) + ["OK"])
    requires Concatenation(chunks) == Response(stored)
    ensures var e := ReceiveAll(d, chunks);
            && e.current.None? && e.rxBuffer == ""
            && |e.settled| == |d.settled| + 1 && e.settled[|d.settled|].id == d.current.value.id
            && var lines := LinesSettled(d, e);
            && (lines.Some? && ReadLines([], lines.value) == MessagesOf(stored) <==> AllClean(stored))
            && (lines.Some? && !AllClean(stored) ==>
                  exists k: nat, j: nat :: ReadsCut(stored, ReadLines([], lines.value), k, j))
  {
    hide ReadLines, LinesOfStored, Framable, ReceiveAll, Heard, IsClean, NobodyWaitsFor;
    ListingIsHeard(d, stored, chunks);
    ReadsStored([], stored);
    var heard := Heard(LinesOfStored(stored) + ["OK"]);
    var read := ReadLines([], heard);
    assert [] + heard == heard && [] + MessagesOf(stored) == MessagesOf(stored);
    if AllClean(stored) {
      assert heard[|heard| - 1] == "OK";
    } else {
      assert read[0..] == read;
      var k: nat, j: nat :| ReadsCut(stored, read, k, j);
      assert Framable(stored[k]);
      CutIsShorter(stored[k], j);
      assert k < |MessagesOf(stored)| && MessagesOf(stored)[k] == MessageOf(stored[k]);
    }
  }

  /** The known limitation: a message that is just `OK` is read as empty. */
  lemma OkTextReadsEmpty(d: Driver, m: Stored, chunks: seq<string>)
    requires HasJustAsked(d) && Framable(m) && m.body == ["OK"]
    requires NobodyWaitsFor(d, LinesOfStored([m]) + ["OK"])
    requires Concatenation(chunks) == Response([m])
    ensures LinesSettled(d, ReceiveAll(d, chunks)) == Some([HeaderLine(m), "OK"])
    ensures ReadLines([], [HeaderLine(m), "OK"]) == [Message(m.index, m.status, m.from, m.date, "")]
  {
    hide ReadLines, HeaderLine, Framable, ReceiveAll, Heard, NobodyWaitsFor;
    ListingIsHeard(d, [m], chunks);
    HeaderIsPlain(m);
    HeardBehind([HeaderLine(m)], ["OK", "OK"]);
    assert LinesOfStored([m]) + ["OK"] == [HeaderLine(m)] + ["OK", "OK"];
    OkStopsHearing();
    assert [HeaderLine(m)] + ["OK"] == [HeaderLine(m), "OK"];
    assert [] + [HeaderLine(m), "OK"] == [HeaderLine(m), "OK"];
    var n, none: seq<string> := CutAt(m, 0), [];
    SameHeader(m, n);
    CutIsFramable(m, 0);
    ReadsOne([], n, ["OK"]);
    OkIsHeard();
    EmptyJoin();
    assert [HeaderLine(n)] + n.body + ["OK"] == [HeaderLine(m), "OK"];
    assert [] + [MessageOf(n)] == [MessageOf(n)];
  }

  lemma OkStopsHearing()
    ensures Heard(["OK", "OK"]) == ["OK"]
  {
  }

  lemma NothingBuffered()
    ensures FirstLf("") == 0
  {
  }

  lemma ResponseIsFramed(lines: seq<string>)
    requires forall i :: 0 <= i < |lines| ==> PlainLine(lines[i])
    ensures Lines(Print(lines) + "\r\nOK\r\n") == lines + ["OK"]
    ensures Residue(Print(lines) + "\r\nOK\r\n") == ""
  {
    hide PlainLine, Print;
    PrintIsFramed(lines, "\r\nOK\r\n");
    OkIsFramed();
  }

  lemma OkIsFramed()
    ensures Lines("\r\nOK\r\n") == ["OK"] && Residue("\r\nOK\r\n") == ""
  {
    assert FirstLf("\r\nOK\r\n") == 1;
    assert "\r\nOK\r\n"[..1] == "\r" && "\r\nOK\r\n"[2..] == "OK\r\n";
    assert FirstLf("OK\r\n") == 3 && "OK\r\n"[..3] == "OK\r" && "OK\r\n"[4..] == "";
    TrimKeeps("OK");
    TrimDropsTrailing("OK", '\r');
    assert "OK" + ['\r'] == "OK\r";
    assert Trim("\r") == "";
  }
}
