/**
  Captured messages as JSON lines: the printer of the companion app (Json.java, SmsReceiver.java)
  against the reader of the adb driver (utils/adb.js), with the string grammar of RFC 8259
  section 7 in between. Texts are sequences of characters: unpaired surrogates do not survive the
  UTF-8 file the two share.
 */
module JsonLines {
  import opened Wrappers
  import opened Framing
  import opened Hex
  import opened Listing

  // ----- The app ---------------------------------------------------------------------------------

  function LowerHexDigit(n: nat): char
    requires n < 16
  {
    if n < 10 then ('0' as int + n) as char else ('a' as int + n - 10) as char
  }

  function EscChar(c: char): string {
    if c == '"' then "\\\""
    else if c == '\\' then "\\\\"
    else if c == '\n' then "\\n"
    else if c == '\r' then "\\r"
    else if c == '\t' then "\\t"
    else if c < 0x20 as char then "\\u00" + [LowerHexDigit(c as int / 16), LowerHexDigit(c as int % 16)]
    else [c]
  }

  function EscOf(s: string): string {
    if s == [] then [] else EscChar(s[0]) + EscOf(s[1..])
  }

  method Esc(s: string) returns (b: string)
    ensures b == EscOf(s)
  {
    hide EscChar;
    b := "";
    for i := 0 to |s|
      invariant EscOf(s) == b + EscOf(s[i..])
    {
      assert s[i..][0] == s[i] && s[i..][1..] == s[i + 1..];
      var step := EscChar(s[i]);
      assert b + (step + EscOf(s[i + 1..])) == b + step + EscOf(s[i + 1..]);
      b := b + step;
    }
  }

  /** One PDU of a delivery as the platform decodes it; a field it cannot read is None. */
  datatype Part = Part(address: Option<string>, timestamp: int, body: Option<string>)

  datatype Captured = Captured(from: string, text: string, when: int)

  function FirstAddress(parts: seq<Option<Part>>): Option<string> {
    if parts == [] then None
    else if parts[0].Some? && parts[0].value.address.Some? then parts[0].value.address
    else FirstAddress(parts[1..])
  }

  function LastTimestamp(parts: seq<Option<Part>>): int {
    if parts == [] then 0
    else if parts[|parts| - 1].Some? then parts[|parts| - 1].value.timestamp
    else LastTimestamp(parts[..|parts| - 1])
  }

  function TextOf(part: Option<Part>): string {
    if part.Some? && part.value.body.Some? then part.value.body.value else ""
  }

  function Bodies(parts: seq<Option<Part>>): string {
    if parts == [] then "" else Bodies(parts[..|parts| - 1]) + TextOf(parts[|parts| - 1])
  }

  function PrintInt(n: int): string {
    if n < 0 then "-" + Decimal(-n) else Decimal(n)
  }

  function LineOf(c: Captured): string {
    "{\"from\":\"" + (EscOf(c.from) + ("\",\"text\":\"" + (EscOf(c.text) + ("\",\"date\":" + (PrintInt(c.when) + "}")))))
  }

  lemma {:induction false} FirstAddressAppend(parts: seq<Option<Part>>, p: Option<Part>)
    ensures FirstAddress(parts + [p]) ==
            if FirstAddress(parts).Some? then FirstAddress(parts)
            else if p.Some? then p.value.address else None
  {
    if parts == [] {
      assert parts + [p] == [p] && [p][1..] == [];
    } else {
      assert (parts + [p])[1..] == parts[1..] + [p];
      FirstAddressAppend(parts[1..], p);
    }
  }

  /** What a delivery is written as: its first sender, all its text, its last timestamp; nothing without a sender. */
  function LineFor(parts: seq<Option<Part>>): Option<string> {
    var from :- FirstAddress(parts);
    Some(LineOf(Captured(from, Bodies(parts), LastTimestamp(parts))))
  }

  predicate HasAddress(part: Option<Part>) {
    part.Some? && part.value.address.Some?
  }

  /** Part `i` is the first that names its sender. */
  predicate IsFirstAddress(parts: seq<Option<Part>>, i: nat) {
    i < |parts| && HasAddress(parts[i]) && forall j :: 0 <= j < i ==> !HasAddress(parts[j])
  }

  /** Part `k` is the last that could be read. */
  predicate IsLastReadable(parts: seq<Option<Part>>, k: nat) {
    k < |parts| && parts[k].Some? && forall j :: k < j < |parts| ==> parts[j].None?
  }

  lemma {:induction false} FirstAddressIsFirst(parts: seq<Option<Part>>)
    ensures forall i: nat :: IsFirstAddress(parts, i) ==> FirstAddress(parts) == parts[i].value.address
    ensures FirstAddress(parts).None? <==> forall i :: 0 <= i < |parts| ==> !HasAddress(parts[i])
  {
    if parts != [] {
      FirstAddressIsFirst(parts[1..]);
      assert parts == [parts[0]] + parts[1..];
      forall i: nat | IsFirstAddress(parts, i)
        ensures FirstAddress(parts) == parts[i].value.address
      {
        if i > 0 {
          assert !HasAddress(parts[0]);
          assert IsFirstAddress(parts[1..], i - 1);
        }
      }
    }
  }

  lemma {:induction false} LastTimestampIsLast(parts: seq<Option<Part>>, k: nat)
    requires IsLastReadable(parts, k)
    ensures LastTimestamp(parts) == parts[k].value.timestamp
  {
    var n := |parts| - 1;
    if k < n {
      LastTimestampIsLast(parts[..n], k);
    }
  }

  lemma BodiesAppend(parts: seq<Option<Part>>, part: Option<Part>)
    ensures Bodies(parts + [part]) == Bodies(parts) + TextOf(part)
  {
    assert (parts + [part])[..|parts|] == parts;
  }

  /** The text of a delivery is that of its parts, joined in order. */
  lemma {:induction false} BodiesAreJoined(a: seq<Option<Part>>, b: seq<Option<Part>>)
    ensures Bodies(a + b) == Bodies(a) + Bodies(b)
  {
    hide Bodies, TextOf;
    if b == [] {
      assert a + b == a;
      NoBodies();
    } else {
      var before, last := b[..|b| - 1], b[|b| - 1];
      BodiesAreJoined(a, before);
      assert b == before + [last] && a + b == (a + before) + [last];
      BodiesAppend(before, last);
      BodiesAppend(a + before, last);
    }
  }

  lemma NoBodies()
    ensures Bodies([]) == ""
  {
  }

  /** A part that cannot be read, or has no text, adds none. */
  lemma BodyOfOne(part: Option<Part>)
    ensures Bodies([part]) == if part.Some? && part.value.body.Some? then part.value.body.value else ""
  {
    assert [part][..0] == [];
  }

  /** `onReceive`: the line written for a delivery, if any. */
  method OnReceive(parts: seq<Option<Part>>) returns (line: Option<string>)
    ensures line == LineFor(parts)
  {
    var from: Option<string> := None;
    var when := 0;
    var body := "";
    for i := 0 to |parts|
      invariant from == FirstAddress(parts[..i])
      invariant when == LastTimestamp(parts[..i])
      invariant body == Bodies(parts[..i])
    {
      assert parts[..i + 1] == parts[..i] + [parts[i]];
      assert parts[..i + 1][..i] == parts[..i];
      FirstAddressAppend(parts[..i], parts[i]);
      var m := parts[i];
      if m.Some? {
        if from.None? {
          from := m.value.address;
        }
        when := m.value.timestamp;
        if m.value.body.Some? {
          body := body + m.value.body.value;
        }
      }
    }
    assert parts[..|parts|] == parts;
    if from.None? {
      return None;
    }
    var sender := Esc(from.value);
    var text := Esc(body);
    line := Some("{\"from\":\"" + (sender + ("\",\"text\":\"" + (text + ("\",\"date\":" + (PrintInt(when) + "}"))))));
  }

  // ----- The JSON grammar ------------------------------------------------------------------------

  datatype Value = Str(s: string) | Num(n: int)

  /** The two-character escapes of RFC 8259 section 7. */
  function ShortEscape(c: char): Option<char> {
    match c
    case '"' => Some('"')
    case '\\' => Some('\\')
    case '/' => Some('/')
    case 'b' => Some(0x08 as char)
    case 'f' => Some(0x0C as char)
    case 'n' => Some('\n')
    case 'r' => Some('\r')
    case 't' => Some('\t')
    case _ => None
  }

  function Hex4(s: string): (c: Option<char>)
    ensures c.Some? ==> |s| >= 4
  {
    if |s| < 4 || !AllHex(s[..4]) then None
    else
      var v := ((HexValue(s[0]) * 16 + HexValue(s[1])) * 16 + HexValue(s[2])) * 16 + HexValue(s[3]);
      if 0xD800 <= v < 0xE000 then None else Some(v as char)
  }

  predicate StartsWith(s: string, c: char) {
    s != [] && s[0] == c
  }

  /** The characters behind an opening quote, up to the quote that closes the string. */
  function ParseChars(s: string): Option<(string, string)>
    decreases |s|
  {
    if s == [] || s[0] < 0x20 as char then None
    else if s[0] == '"' then Some(([], s[1..]))
    else if s[0] != '\\' then
      var (v, rest) :- ParseChars(s[1..]);
      Some(([s[0]] + v, rest))
    else if |s| < 2 then None
    else if s[1] == 'u' then
      var c :- Hex4(s[2..]);
      var (v, rest) :- ParseChars(s[6..]);
      Some(([c] + v, rest))
    else
      var c :- ShortEscape(s[1]);
      var (v, rest) :- ParseChars(s[2..]);
      Some(([c] + v, rest))
  }

  /** Digits without superfluous zeros. */
  function ParseNat(s: string): Option<(nat, string)> {
    var n := DigitRun(s);
    if n == 0 || (n > 1 && s[0] == '0') then None else Some((DecimalValue(s[..n]), s[n..]))
  }

  function ParseInt(s: string): Option<(int, string)> {
    if StartsWith(s, '-') then
      var (n, rest) :- ParseNat(s[1..]);
      var v: int := n;
      Some((-v, rest))
    else
      var (n, rest) :- ParseNat(s);
      Some((n, rest))
  }

  function ParseValue(s: string): Option<(Value, string)> {
    if StartsWith(s, '"') then
      var (v, rest) :- ParseChars(s[1..]);
      Some((Str(v), rest))
    else
      var (n, rest) :- ParseInt(s);
      Some((Num(n), rest))
  }

  lemma {:induction false} CharsShrink(s: string)
    ensures ParseChars(s).Some? ==> |ParseChars(s).value.1| < |s|
    decreases |s|
  {
    hide Hex4, ShortEscape;
    if s != [] && s[0] >= 0x20 as char && s[0] != '"' {
      if s[0] != '\\' {
        CharsShrink(s[1..]);
      } else if |s| >= 2 {
        CharsShrink(s[2..]);
        if |s| >= 6 {
          CharsShrink(s[6..]);
        }
      }
    }
  }

  lemma NatShrinks(s: string)
    ensures ParseNat(s).Some? ==> |ParseNat(s).value.1| < |s|
  {
    hide DecimalValue, DigitRun;
  }

  lemma IntShrinks(s: string)
    ensures ParseInt(s).Some? ==> |ParseInt(s).value.1| < |s|
  {
    hide ParseNat;
    NatShrinks(s);
    if StartsWith(s, '-') {
      NatShrinks(s[1..]);
    }
  }

  lemma ValueShrinks(s: string)
    ensures ParseValue(s).Some? ==> |ParseValue(s).value.1| < |s|
  {
    hide ParseChars, ParseInt;
    if StartsWith(s, '"') {
      CharsShrink(s[1..]);
    } else {
      IntShrinks(s);
    }
  }

  /** `"key":value` pairs up to the closing brace; of equal keys the last one counts. */
  function ParseMembers(s: string): Option<(map<string, Value>, string)>
    decreases |s|
  {
    if !StartsWith(s, '"') then None
    else
      var (key, r1) :- ParseChars(s[1..]);
      CharsShrink(s[1..]);
      if !StartsWith(r1, ':') then None
      else
        var (v, r2) :- ParseValue(r1[1..]);
        ValueShrinks(r1[1..]);
        if StartsWith(r2, '}') then Some((map[key := v], r2[1..]))
        else if !StartsWith(r2, ',') then None
        else
          var (m, rest) :- ParseMembers(r2[1..]);
          Some((map[key := v] + m, rest))
  }

  /** Objects of strings and integers without white space: the part of JSON the printer uses. */
  function ParseObject(s: string): Option<map<string, Value>> {
    if !StartsWith(s, '{') then None
    else if s == "{}" then Some(map[])
    else
      var (m, rest) :- ParseMembers(s[1..]);
      if rest == [] then Some(m) else None
  }

  // ----- The gateway's reader --------------------------------------------------------------------

  datatype AdbMessage = AdbMessage(from: Value, text: Value, date: Option<int>)

  /** The largest distance from the epoch a JavaScript date can have. */
  const MAX_DATE_MS: int := 8_640_000_000_000_000

  predicate Falsy(v: Value) {
    v == Str("") || v == Num(0)
  }

  /** `m.key || ''`. */
  function Member(m: map<string, Value>, key: string): Value {
    if key in m && !Falsy(m[key]) then m[key] else Str("")
  }

  /** One line; None where parsing or converting the date throws and the line is skipped. */
  function ReadJsonLine(line: string): Option<AdbMessage> {
    var m :- ParseObject(line);
    var date := Member(m, "date");
    if Falsy(date) then Some(AdbMessage(Member(m, "from"), Member(m, "text"), None))
    else if date.Num? && -MAX_DATE_MS <= date.n <= MAX_DATE_MS
    then Some(AdbMessage(Member(m, "from"), Member(m, "text"), Some(date.n)))
    else None
  }

  /** What one piece of the output contributes. */
  function ReadPiece(piece: string): seq<AdbMessage> {
    var line := Trim(piece);
    if line == "" then []
    else match ReadJsonLine(line) case Some(m) => [m] case None => []
  }

  function ReadAll(pieces: seq<string>): seq<AdbMessage> {
    if pieces == [] then [] else ReadPiece(pieces[0]) + ReadAll(pieces[1..])
  }

  lemma {:induction false} ReadAllAppend(pieces: seq<string>, piece: string)
    ensures ReadAll(pieces + [piece]) == ReadAll(pieces) + ReadPiece(piece)
  {
    hide ReadPiece;
    if pieces == [] {
      assert pieces + [piece] == [piece] && [piece][1..] == [];
    } else {
      assert (pieces + [piece])[1..] == pieces[1..] + [piece];
      ReadAllAppend(pieces[1..], piece);
    }
  }

  method Drain(out: string) returns (messages: seq<AdbMessage>)
    ensures messages == ReadAll(SplitLf(out))
  {
    hide ReadJsonLine, Trim, ReadAll;
    messages := [];
    var pieces := SplitLf(out);
    NoPieces();
    for i := 0 to |pieces|
      invariant messages == ReadAll(pieces[..i])
    {
      ReadAllAppend(pieces[..i], pieces[i]);
      assert pieces[..i] + [pieces[i]] == pieces[..i + 1];
      var line := Trim(pieces[i]);
      if line != "" {
        var m := ReadJsonLine(line);
        if m.Some? {
          messages := messages + [m.value];
        }
      }
    }
    assert pieces[..|pieces|] == pieces;
  }

  lemma NoPieces()
    ensures ReadAll([]) == []
  {
  }

  // ----- Strings are read back -------------------------------------------------------------------

  lemma ControlEscape(c: char)
    requires c < 0x20 as char
    ensures var digits := "00" + [LowerHexDigit(c as int / 16), LowerHexDigit(c as int % 16)];
            AllHex(digits) && forall rest :: Hex4(digits + rest) == Some(c)
  {
    var digits := "00" + [LowerHexDigit(c as int / 16), LowerHexDigit(c as int % 16)];
    forall rest
      ensures Hex4(digits + rest) == Some(c)
    {
      assert (digits + rest)[..4] == digits;
      var s := digits + rest;
      assert s[0] == '0' && s[1] == '0' && s[2] == digits[2] && s[3] == digits[3];
      assert HexValue(s[2]) == c as int / 16 && HexValue(s[3]) == c as int % 16;
    }
  }

  /** The escape of a character holds no raw quote, backslash or control character that would be misread. */
  lemma EscapedCharReadsBack(c: char, rest: string)
    ensures ParseChars(EscChar(c) + rest) ==
            match ParseChars(rest) case Some(p) => Some(([c] + p.0, p.1)) case None => None
  {
    hide Hex4;
    var s := EscChar(c) + rest;
    if c == '"' || c == '\\' || c == '\n' || c == '\r' || c == '\t' {
      assert s[2..] == rest;
    } else if c < 0x20 as char {
      ControlEscape(c);
      var digits := "00" + [LowerHexDigit(c as int / 16), LowerHexDigit(c as int % 16)];
      assert s[0] == '\\' && s[1] == 'u' && s[2..] == digits + rest && s[6..] == rest;
    } else {
      assert s[1..] == rest;
    }
  }

  lemma {:induction false} EscapedReadsBack(s: string, rest: string)
    ensures ParseChars(EscOf(s) + ("\"" + rest)) == Some((s, rest))
  {
    hide EscChar;
    var tail := "\"" + rest;
    if s == [] {
      assert EscOf(s) + tail == tail && tail[1..] == rest;
    } else {
      EscapedReadsBack(s[1..], rest);
      EscapedCharReadsBack(s[0], EscOf(s[1..]) + tail);
      assert EscOf(s) + tail == EscChar(s[0]) + (EscOf(s[1..]) + tail);
      assert s == [s[0]] + s[1..];
    }
  }

  /** Escaped text has no control character, so in particular no line feed. */
  lemma {:induction false} EscapedHasNoControls(s: string)
    ensures forall i :: 0 <= i < |EscOf(s)| ==> EscOf(s)[i] >= 0x20 as char
  {
    if s != [] {
      EscapedHasNoControls(s[1..]);
    }
  }

  lemma {:induction false} DecimalIsCanonical(n: nat)
    ensures Decimal(n)[0] == '0' ==> n == 0
    ensures n > 0 ==> Decimal(n)[0] != '0'
    ensures |Decimal(0)| == 1
  {
    if n >= 10 {
      DecimalIsCanonical(n / 10);
      DecimalReadsBack(n / 10);
      assert Decimal(n)[0] == Decimal(n / 10)[0];
    }
  }

  lemma NatReadsBack(n: nat, c: char, rest: string)
    requires !IsDigit(c)
    ensures ParseNat(Decimal(n) + ([c] + rest)) == Some((n, [c] + rest))
  {
    hide Decimal, DecimalValue, DigitRun;
    var digits := Decimal(n);
    DecimalReadsBack(n);
    DecimalIsCanonical(n);
    DigitRunStops(digits, c, rest);
    var t := digits + ([c] + rest);
    assert t[..|digits|] == digits && t[|digits|..] == [c] + rest;
    assert t[0] == digits[0];
  }

  lemma NoSign(n: nat, rest: string)
    ensures !StartsWith(Decimal(n) + rest, '-')
  {
    hide Decimal;
    DecimalReadsBack(n);
    assert (Decimal(n) + rest)[0] == Decimal(n)[0] && IsDigit(Decimal(n)[0]);
  }

  lemma IntReadsBack(n: int, c: char, rest: string)
    requires !IsDigit(c)
    ensures ParseInt(PrintInt(n) + ([c] + rest)) == Some((n, [c] + rest))
  {
    hide Decimal, ParseNat, IsDigit;
    if n < 0 {
      NatReadsBack(-n, c, rest);
      var s := PrintInt(n) + ([c] + rest);
      assert s[0] == '-' && s[1..] == Decimal(-n) + ([c] + rest);
    } else {
      NatReadsBack(n, c, rest);
      NoSign(n, [c] + rest);
    }
  }

  // ----- A line is read back ---------------------------------------------------------------------

  /** What the gateway reports for a captured message; nothing if its timestamp is no date. */
  function Delivered(c: Captured): seq<AdbMessage> {
    if -MAX_DATE_MS <= c.when <= MAX_DATE_MS
    then [AdbMessage(Str(c.from), Str(c.text), if c.when == 0 then None else Some(c.when))]
    else []
  }

  function DeliveredAll(cs: seq<Captured>): seq<AdbMessage> {
    if cs == [] then [] else Delivered(cs[0]) + DeliveredAll(cs[1..])
  }

  lemma MemberReadsBack(key: string, v: Value, d: char, next: string, k: string, vs: string)
    requires ParseChars(k) == Some((key, [':'] + vs)) && ParseValue(vs) == Some((v, [d] + next))
    ensures d == '}' ==> ParseMembers(['"'] + k) == Some((map[key := v], next))
    ensures d == ',' ==>
              ParseMembers(['"'] + k) ==
              match ParseMembers(next)
              case None => None
              case Some(p) => Some((map[key := v] + p.0, p.1))
  {
    hide ParseChars, ParseValue;
    var s := ['"'] + k;
    assert s[0] == '"' && s[1..] == k;
    var r1, r2 := [':'] + vs, [d] + next;
    assert r1[0] == ':' && r1[1..] == vs && r2[0] == d && r2[1..] == next;
  }

  lemma StringReadsBack(s: string, rest: string)
    ensures ParseValue("\"" + (EscOf(s) + ("\"" + rest))) == Some((Str(s), rest))
  {
    hide ParseChars, ParseInt, EscOf;
    EscapedReadsBack(s, rest);
    var t := "\"" + (EscOf(s) + ("\"" + rest));
    assert t[0] == '"' && t[1..] == EscOf(s) + ("\"" + rest);
  }

  lemma NumberReadsBack(n: int, rest: string)
    ensures ParseValue(PrintInt(n) + (['}'] + rest)) == Some((Num(n), ['}'] + rest))
  {
    hide ParseChars, ParseInt, Decimal;
    IntReadsBack(n, '}', rest);
    var s := PrintInt(n) + (['}'] + rest);
    DecimalReadsBack(if n < 0 then -n else n);
    assert s[0] == PrintInt(n)[0];
  }

  lemma KeysArePlain()
    ensures EscOf("from") == "from" && EscOf("text") == "text" && EscOf("date") == "date"
  {
    assert "from"[1..] == "rom" && "rom"[1..] == "om" && "om"[1..] == "m" && "m"[1..] == "";
    assert "text"[1..] == "ext" && "ext"[1..] == "xt" && "xt"[1..] == "t" && "t"[1..] == "";
    assert "date"[1..] == "ate" && "ate"[1..] == "te" && "te"[1..] == "e" && "e"[1..] == "";
  }

  lemma KeyReadsBack(key: string, vs: string)
    requires EscOf(key) == key
    ensures ParseChars(key + ("\"" + ([':'] + vs))) == Some((key, [':'] + vs))
  {
    EscapedReadsBack(key, [':'] + vs);
  }

  lemma LineMembers(c: Captured)
    ensures ParseMembers(LineOf(c)[1..]) ==
            Some((map["from" := Str(c.from)] + (map["text" := Str(c.text)] + map["date" := Num(c.when)]), ""))
  {
    hide EscOf, ParseChars, ParseValue, ParseMembers, PrintInt;
    KeysArePlain();
    var dateValue := PrintInt(c.when) + (['}'] + "");
    var dateKey := "date" + ("\"" + ([':'] + dateValue));
    NumberReadsBack(c.when, "");
    KeyReadsBack("date", dateValue);
    MemberReadsBack("date", Num(c.when), '}', "", dateKey, dateValue);
    var textNext := ['"'] + dateKey;
    var textValue := "\"" + (EscOf(c.text) + ("\"" + ([','] + textNext)));
    var textKey := "text" + ("\"" + ([':'] + textValue));
    StringReadsBack(c.text, [','] + textNext);
    KeyReadsBack("text", textValue);
    MemberReadsBack("text", Str(c.text), ',', textNext, textKey, textValue);
    var fromNext := ['"'] + textKey;
    var fromValue := "\"" + (EscOf(c.from) + ("\"" + ([','] + fromNext)));
    var fromKey := "from" + ("\"" + ([':'] + fromValue));
    StringReadsBack(c.from, [','] + fromNext);
    KeyReadsBack("from", fromValue);
    MemberReadsBack("from", Str(c.from), ',', fromNext, fromKey, fromValue);
    LineShape(c);
    assert LineOf(c)[1..] == ['"'] + fromKey;
  }

  /** The printed line, cut at the points where the grammar changes. */
  lemma LineShape(c: Captured)
    ensures
      var dateValue := PrintInt(c.when) + (['}'] + "");
      var dateKey := "date" + ("\"" + ([':'] + dateValue));
      var textValue := "\"" + (EscOf(c.text) + ("\"" + ([','] + (['"'] + dateKey))));
      var textKey := "text" + ("\"" + ([':'] + textValue));
      var fromValue := "\"" + (EscOf(c.from) + ("\"" + ([','] + (['"'] + textKey))));
      LineOf(c) == ['{'] + (['"'] + ("from" + ("\"" + ([':'] + fromValue))))
  {
    hide EscOf, PrintInt;
  }

  /** The reader gets back what the app captured; an impossible timestamp loses the line. */
  lemma LineReadsBack(c: Captured)
    ensures (match ReadJsonLine(LineOf(c)) case Some(m) => [m] case None => []) == Delivered(c)
  {
    hide ParseMembers, LineOf;
    LineMembers(c);
    LineStarts(c);
    var m := map["from" := Str(c.from)] + (map["text" := Str(c.text)] + map["date" := Num(c.when)]);
    assert ParseObject(LineOf(c)) == Some(m);
    assert m["from"] == Str(c.from) && m["text"] == Str(c.text) && m["date"] == Num(c.when);
    assert Member(m, "from") == Str(c.from) && Member(m, "text") == Str(c.text);
  }

  /**
    From the parts of a delivery to the message the gateway reports: the sender of the first part
    that names one, the joined text, and the timestamp of the last part that could be read, without
    which the line would be skipped. Without a sender nothing is written.
   */
  lemma DeliveryReadsBack(parts: seq<Option<Part>>, i: nat, k: nat)
    ensures IsFirstAddress(parts, i) && IsLastReadable(parts, k) ==>
              var when := parts[k].value.timestamp;
              && LineFor(parts).Some?
              && ReadJsonLine(LineFor(parts).value) ==
                 if when < -8_640_000_000_000_000 || when > 8_640_000_000_000_000 then None
                 else Some(AdbMessage(Str(parts[i].value.address.value), Str(Bodies(parts)),
                                      if when == 0 then None else Some(when)))
    ensures LineFor(parts).None? <==> forall j :: 0 <= j < |parts| ==> !HasAddress(parts[j])
  {
    hide ReadJsonLine, LineOf, Bodies, LastTimestamp;
    FirstAddressIsFirst(parts);
    if IsFirstAddress(parts, i) && IsLastReadable(parts, k) {
      LastTimestampIsLast(parts, k);
      LineReadsBack(Captured(parts[i].value.address.value, Bodies(parts), LastTimestamp(parts)));
    }
  }

  lemma LineStarts(c: Captured)
    ensures |LineOf(c)| > 2 && LineOf(c)[0] == '{' && LineOf(c)[1] == '"'
    ensures LineOf(c)[|LineOf(c)| - 1] == '}'
  {
    hide EscOf, PrintInt;
  }

  lemma PrintIntHasNoLf(n: int)
    ensures Free(PrintInt(n), '\n')
  {
    hide Decimal;
    DecimalReadsBack(if n < 0 then -n else n);
  }

  /** No captured text can break the line it is printed on. */
  lemma LineIsPlain(c: Captured)
    ensures Free(LineOf(c), '\n') && Trim(LineOf(c)) == LineOf(c)
  {
    hide EscOf, PrintInt, Trim;
    EscapedHasNoControls(c.from);
    EscapedHasNoControls(c.text);
    PrintIntHasNoLf(c.when);
    LineStarts(c);
    TrimKeeps(LineOf(c));
  }

  // ----- A line cut short is dropped -------------------------------------------------------------

  lemma {:induction false} CharsExtend(a: string, b: string)
    requires ParseChars(a).Some?
    ensures ParseChars(a + b) == Some((ParseChars(a).value.0, ParseChars(a).value.1 + b))
    decreases |a|
  {
    hide ShortEscape, Hex4;
    var s := a + b;
    assert s[0] == a[0] && s[1..] == a[1..] + b;
    if a[0] == '"' {
    } else if a[0] != '\\' {
      CharsExtend(a[1..], b);
    } else if a[1] == 'u' {
      Hex4Extends(a[2..], b);
      assert s[1] == 'u' && s[2..] == a[2..] + b && s[6..] == a[6..] + b;
      CharsExtend(a[6..], b);
    } else {
      assert s[1] == a[1] && s[2..] == a[2..] + b;
      CharsExtend(a[2..], b);
    }
  }

  lemma Hex4Extends(a: string, b: string)
    requires Hex4(a).Some?
    ensures Hex4(a + b) == Hex4(a)
  {
    hide HexValue;
    assert (a + b)[..4] == a[..4];
  }

  lemma {:induction false} DigitRunEnds(s: string)
    ensures DigitRun(s) < |s| ==> !IsDigit(s[DigitRun(s)])
  {
    if s != [] && IsDigit(s[0]) {
      DigitRunEnds(s[1..]);
    }
  }

  lemma NatExtends(a: string, b: string)
    requires ParseNat(a).Some? && ParseNat(a).value.1 != []
    ensures ParseNat(a + b) == Some((ParseNat(a).value.0, ParseNat(a).value.1 + b))
  {
    hide DigitRun, DecimalValue, IsDigit;
    var n := DigitRun(a);
    DigitRunEnds(a);
    DigitRunStops(a[..n], a[n], a[n + 1..] + b);
    assert a + b == a[..n] + ([a[n]] + (a[n + 1..] + b));
    assert (a + b)[..n] == a[..n] && (a + b)[n..] == a[n..] + b;
  }

  lemma ValueExtends(a: string, b: string)
    requires ParseValue(a).Some? && ParseValue(a).value.1 != []
    ensures ParseValue(a + b) == Some((ParseValue(a).value.0, ParseValue(a).value.1 + b))
  {
    hide ParseChars, ParseNat;
    ValueShrinks(a);
    assert (a + b)[0] == a[0] && (a + b)[1..] == a[1..] + b;
    if StartsWith(a, '"') {
      CharsExtend(a[1..], b);
    } else if StartsWith(a, '-') {
      NatExtends(a[1..], b);
    } else {
      NatExtends(a, b);
    }
  }

  lemma {:induction false} MembersExtend(a: string, b: string)
    requires ParseMembers(a).Some?
    ensures ParseMembers(a + b) == Some((ParseMembers(a).value.0, ParseMembers(a).value.1 + b))
    decreases |a|
  {
    hide ParseChars, ParseValue;
    assert (a + b)[0] == a[0] && (a + b)[1..] == a[1..] + b;
    var r1 := ParseChars(a[1..]).value.1;
    CharsExtend(a[1..], b);
    CharsShrink(a[1..]);
    assert (r1 + b)[0] == r1[0] && (r1 + b)[1..] == r1[1..] + b;
    var r2 := ParseValue(r1[1..]).value.1;
    ValueExtends(r1[1..], b);
    ValueShrinks(r1[1..]);
    assert (r2 + b)[0] == r2[0] && (r2 + b)[1..] == r2[1..] + b;
    if r2[0] == ',' {
      MembersExtend(r2[1..], b);
    }
  }

  /** No proper beginning of a printed line parses. */
  lemma CutLineIsNoObject(c: Captured, n: nat)
    requires n < |LineOf(c)|
    ensures ParseObject(LineOf(c)[..n]).None?
  {
    hide ParseMembers, LineOf;
    var p := LineOf(c)[..n];
    LineStarts(c);
    LineMembers(c);
    if n > 0 {
      assert p[1..] + LineOf(c)[n..] == LineOf(c)[1..];
      if ParseObject(p).Some? {
        MembersExtend(p[1..], LineOf(c)[n..]);
      }
    }
  }

  lemma {:induction false} TrimEndCuts(s: string)
    ensures TrimEnd(s) <= s
  {
    if s != [] && IsSpace(s[|s| - 1]) {
      TrimEndCuts(s[..|s| - 1]);
    }
  }

  lemma CutLineIsSkipped(c: Captured, n: nat)
    requires n < |LineOf(c)|
    ensures ReadPiece(LineOf(c)[..n]) == []
  {
    hide LineOf, ParseObject, TrimEnd;
    var p := LineOf(c)[..n];
    LineStarts(c);
    assert TrimStart(p) == p;
    TrimEndCuts(p);
    var t := TrimEnd(p);
    assert t == LineOf(c)[..|t|];
    CutLineIsNoObject(c, |t|);
  }

  // ----- The file --------------------------------------------------------------------------------

  /** The capture file as the shell prints it, every line ended by `end`. */
  function FileOf(cs: seq<Captured>, end: string): string {
    if cs == [] then "" else LineOf(cs[0]) + (end + FileOf(cs[1..], end))
  }

  lemma PieceReadsBack(c: Captured)
    ensures ReadPiece(LineOf(c)) == Delivered(c) && ReadPiece(LineOf(c) + ['\r']) == Delivered(c)
  {
    hide LineOf, Trim, ReadJsonLine, Delivered;
    LineIsPlain(c);
    LineStarts(c);
    LineReadsBack(c);
    TrimDropsTrailing(LineOf(c), '\r');
  }

  lemma SplitFirst(line: string, rest: string)
    requires Free(line, '\n')
    ensures SplitLf(line + (['\n'] + rest)) == [line] + SplitLf(rest)
  {
    hide FirstLf;
    var s := line + (['\n'] + rest);
    FirstLfBehind(line, ['\n'] + rest);
    assert FirstLf(['\n'] + rest) == 0 by {
      assert (['\n'] + rest)[0] == '\n';
    }
    assert s[..|line|] == line && s[|line| + 1..] == rest;
  }

  lemma {:induction false} FileReadsBack(cs: seq<Captured>, end: string, tail: string)
    requires end == "\n" || end == "\r\n"
    ensures ReadAll(SplitLf(FileOf(cs, end) + tail)) == DeliveredAll(cs) + ReadAll(SplitLf(tail))
  {
    hide LineOf, SplitLf, ReadPiece, Delivered;
    var file := FileOf(cs, end) + tail;
    if cs == [] {
      assert file == tail;
    } else {
      var rest := FileOf(cs[1..], end) + tail;
      var piece := if end == "\n" then LineOf(cs[0]) else LineOf(cs[0]) + ['\r'];
      LineIsPlain(cs[0]);
      PieceReadsBack(cs[0]);
      assert file == piece + (['\n'] + rest);
      SplitFirst(piece, rest);
      var pieces := SplitLf(rest);
      assert ([piece] + pieces)[0] == piece && ([piece] + pieces)[1..] == pieces;
      FileReadsBack(cs[1..], end, tail);
    }
  }

  /** Without a line feed there is one piece. */
  lemma TailReadsBack(tail: string)
    requires Free(tail, '\n')
    ensures ReadAll(SplitLf(tail)) == ReadPiece(tail)
  {
    hide ReadPiece;
    assert FirstLf(tail) == |tail|;
    assert SplitLf(tail) == [tail] && [tail][1..] == [];
  }

  /**
    The drain reports every captured message in order, with either line end, and a last line that
    was only partly written (`n` of its characters) costs that one message and no other.
   */
  lemma DrainReportsTheCaptured(cs: seq<Captured>, end: string, last: Captured, n: nat)
    requires end == "\n" || end == "\r\n"
    requires n <= |LineOf(last)|
    ensures ReadAll(SplitLf(FileOf(cs, end) + LineOf(last)[..n])) ==
            DeliveredAll(cs) + if n == |LineOf(last)| then Delivered(last) else []
  {
    hide LineOf, FileOf, DeliveredAll, SplitLf, ReadPiece, Delivered;
    var tail := LineOf(last)[..n];
    LineIsPlain(last);
    FileReadsBack(cs, end, tail);
    TailReadsBack(tail);
    if n == |LineOf(last)| {
      assert tail == LineOf(last);
      PieceReadsBack(last);
    } else {
      CutLineIsSkipped(last, n);
    }
  }
}
