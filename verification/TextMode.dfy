/**
  What a modem in text mode makes of a message body: the driver hands a JavaScript string to the
  port, which writes it in UTF-8 (RFC 3629 section 3), and the modem reads the bytes in the
  character set that was selected (3GPP TS 27.005 section 3.5.1 and annex A).
 */
module TextMode {
  import opened Wrappers
  import opened Utf16
  import opened Septets
  import opened Gsm7
  import opened SmsEncoding
  import opened Hex
  import opened Receiver
  import opened PduReading

  const CTRL_Z: nat := 0x1A

  /** The bytes of the character at the start of the text; a lone surrogate becomes U+FFFD. */
  function Utf8First(text: Text): (bytes: seq<Octet>)
    requires text != []
    ensures text[0] < 0x80 ==> bytes == [text[0]]
    ensures text[0] >= 0x80 ==> bytes != [] && bytes[0] >= 0x80
  {
    var u := text[0];
    if u < 0x80 then [u]
    else if CodePointLength(text, 0) == 2 then
      var c: int := (u as int - 0xD800) * 0x400 + (text[1] as int - 0xDC00) + 0x1_0000;
      [0xF0 + c / 0x4_0000, 0x80 + c / 0x1000 % 0x40, 0x80 + c / 0x40 % 0x40, 0x80 + c % 0x40]
    else if u < 0x800 then [0xC0 + u / 0x40, 0x80 + u % 0x40]
    else if IsHighSurrogate(u) || IsLowSurrogate(u) then [0xEF, 0xBF, 0xBD]
    else [0xE0 + u / 0x1000, 0x80 + u / 0x40 % 0x40, 0x80 + u % 0x40]
  }

  function Utf8(text: Text): seq<Octet>
    decreases |text|
  {
    if text == [] then [] else Utf8First(text) + Utf8(text[CodePointLength(text, 0)..])
  }

  // ----- The character set GSM -------------------------------------------------------------------

  /**
    A body in the character set GSM: every byte is a code of the 7-bit alphabet. ESC would cancel
    the body and Ctrl+Z end it; a byte above 127 is no code at all.
   */
  function ReadGsmBody(bytes: seq<Octet>): Option<Text> {
    if exists i :: 0 <= i < |bytes| && (bytes[i] >= 0x80 || bytes[i] == CTRL_Z || bytes[i] == ESC) then None
    else Some(Gsm7Decode(bytes))
  }

  /** ASCII and the GSM alphabet give the character the same code. */
  predicate IsShared(u: CodeUnit) {
    u < 0x80 && u != ESC && DefaultAlphabet(u) == u
  }

  predicate AllShared(text: Text) {
    forall i :: 0 <= i < |text| ==> IsShared(text[i])
  }

  lemma {:induction false} Utf8OfAscii(text: Text)
    requires forall i :: 0 <= i < |text| ==> text[i] < 0x80
    ensures Utf8(text) == text
    decreases |text|
  {
    hide Utf8First;
    if text != [] {
      assert CodePointLength(text, 0) == 1;
      Utf8OfAscii(text[1..]);
      assert text == [text[0]] + text[1..];
    }
  }

  lemma {:induction false} Utf8OfOthers(text: Text, i: nat)
    requires i < |text| && text[i] >= 0x80
    ensures exists j :: 0 <= j < |Utf8(text)| && Utf8(text)[j] >= 0x80
    decreases |text|
  {
    hide Utf8First;
    var n, first := CodePointLength(text, 0), Utf8First(text);
    if text[0] >= 0x80 {
      assert Utf8(text)[0] == first[0];
    } else {
      assert n == 1;
      Utf8OfOthers(text[1..], i - 1);
      var j :| 0 <= j < |Utf8(text[1..])| && Utf8(text[1..])[j] >= 0x80;
      assert Utf8(text)[|first| + j] == Utf8(text[1..])[j];
    }
  }

  lemma {:induction false} DecodesByCode(septets: seq<Septet>)
    requires forall i :: 0 <= i < |septets| ==> septets[i] != ESC
    ensures |Gsm7Decode(septets)| == |septets|
    ensures forall i :: 0 <= i < |septets| ==> Gsm7Decode(septets)[i] == DefaultAlphabet(septets[i])
  {
    hide DefaultAlphabet, ExtensionAlphabet;
    if septets != [] {
      DecodesByCode(septets[1..]);
    }
  }

  /**
    A body written as it is survives exactly if all its characters have the same code in ASCII and
    in the GSM alphabet.
   */
  lemma GsmBodySurvivesIffShared(text: Text)
    ensures ReadGsmBody(Utf8(text)) == Some(text) <==> AllShared(text)
  {
    hide Utf8, DefaultAlphabet, Gsm7Decode;
    CtrlZIsNotShared();
    if exists i :: 0 <= i < |text| && text[i] >= 0x80 {
      var i :| 0 <= i < |text| && text[i] >= 0x80;
      Utf8OfOthers(text, i);
      assert !IsShared(text[i]);
    } else {
      Utf8OfAscii(text);
      if exists i :: 0 <= i < |text| && (text[i] == CTRL_Z || text[i] == ESC) {
        var i :| 0 <= i < |text| && (text[i] == CTRL_Z || text[i] == ESC);
        assert Utf8(text)[i] == text[i] && !IsShared(text[i]);
      } else {
        DecodesByCode(text);
        if Gsm7Decode(text) == text {
          forall i | 0 <= i < |text|
            ensures IsShared(text[i])
          {
            assert Gsm7Decode(text)[i] == text[i];
          }
        }
      }
    }
  }

  lemma CtrlZIsNotShared()
    ensures DefaultAlphabet(CTRL_Z) != CTRL_Z
  {
  }

  // ----- The character set UCS2 ------------------------------------------------------------------

  /** A body or an address in the character set UCS2: four hexadecimal digits for each code unit. */
  function ReadUcs2(digits: string): Option<Text> {
    var octets :- OctetsOfHex(digits);
    if |octets| % 2 == 0 then Some(FromUtf16Be(octets)) else None
  }

  lemma Ucs2ReadsBack(text: Text)
    ensures ReadUcs2(Ucs2Hex(text)) == Some(text)
  {
    hide Utf16Le, FromUtf16Be, Swap16, ToHex, OctetsOfHex;
    OctetsOfToHex(Swap16(Utf16Le(text)));
    Utf16BeOfSwapped(text);
  }

  // ----- A message that is misread ---------------------------------------------------------------

  /** `@` is accepted as one GSM SMS, and read as the inverted exclamation mark. */
  lemma AtSignIsMisread()
    ensures Analyze([0x40]).encoding == Gsm && Analyze([0x40]).segments == 1 && Analyze([0x40]).ok
    ensures ReadGsmBody(Utf8([0x40])) == Some([0xA1])
  {
    var text: Text := [0x40];
    AtSignCost();
    hide UnitCost, Cost, DefaultAlphabet, Gsm7Parts;
    assert SeptetCount(text) == Cost(text[0]) + SeptetCount(text[1..]);
    Utf8OfAscii(text);
    DecodesByCode(text);
    AtSignCode();
    assert Gsm7Decode(text) == [0xA1];
  }

  lemma AtSignCode()
    ensures DefaultAlphabet(0x40) == 0xA1
  {
  }

  lemma AtSignCost()
    ensures UnitCost(0x40).Some? && Cost(0x40) <= 2
  {
    assert Gsm7Basic(0) == 0x40;
  }

  /** A letter with an accent is accepted too, and its two bytes are no GSM codes. */
  lemma AccentIsUnreadable()
    ensures Analyze([0xE9]).encoding == Gsm && Analyze([0xE9]).segments == 1 && Analyze([0xE9]).ok
    ensures ReadGsmBody(Utf8([0xE9])) == None
  {
    var text: Text := [0xE9];
    assert Gsm7Basic(5) == 0xE9;
    assert UnitCost(0xE9).Some? && Cost(0xE9) <= 2;
    hide UnitCost, Cost, Gsm7Parts;
    assert SeptetCount(text) == Cost(text[0]) + SeptetCount(text[1..]);
    Utf8OfOthers(text, 0);
  }
}
