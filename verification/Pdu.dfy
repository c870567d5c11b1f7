/** The SMS-SUBMIT builder for concatenated messages (utils/pdu.js). */
module Pdu {
  import opened Wrappers
  import opened Utf16
  import opened Septets
  import opened Gsm7
  import opened SmsEncoding
  import opened Hex

  datatype Address = Address(toa: nat, digits: string, digitCount: nat)

  /** A PDU as handed to the modem; `length` is the octet count for `AT+CMGS=`. */
  datatype SubmitPdu = SubmitPdu(pdu: string, length: nat)

  predicate IsDecimal(s: string) {
    forall i :: 0 <= i < |s| ==> '0' <= s[i] <= '9'
  }

  predicate International(number: string) {
    number != [] && number[0] == '+'
  }

  /** The number without its international prefix. */
  function RawDigits(number: string): string {
    if International(number) then number[1..] else number
  }

  /** `PHONE_RE`: an optional plus sign and 7 to 15 decimal digits. */
  predicate ValidNumber(number: string) {
    7 <= |RawDigits(number)| <= 15 && IsDecimal(RawDigits(number))
  }

  function NibbleSwapped(raw: string): string {
    if raw == [] then []
    else if |raw| == 1 then ['F', raw[0]]
    else [raw[1], raw[0]] + NibbleSwapped(raw[2..])
  }

  function AddressOf(number: string): Address {
    var raw := RawDigits(number);
    Address(if International(number) then 0x91 else 0x81, NibbleSwapped(raw), |raw|)
  }

  lemma NextPair(swapped: string, rest: string)
    ensures swapped + NibbleSwapped(rest) ==
            if rest == [] then swapped
            else
              swapped + [if |rest| > 1 then rest[1] else 'F', rest[0]] +
              NibbleSwapped(if |rest| > 1 then rest[2..] else [])
  {
  }

  method EncodeAddress(number: string) returns (a: Address)
    ensures a == AddressOf(number)
  {
    var international := number != [] && number[0] == '+';
    var raw := if international then number[1..] else number;
    var swapped := "";
    var i := 0;
    hide NibbleSwapped;
    assert swapped + NibbleSwapped(raw[i..]) == NibbleSwapped(raw);
    while i < |raw|
      invariant i <= |raw| + 1
      invariant NibbleSwapped(raw) == swapped + NibbleSwapped(if i < |raw| then raw[i..] else [])
    {
      NextPair(swapped, raw[i..]);
      var high := if i + 1 < |raw| then raw[i + 1] else 'F';
      swapped := swapped + [high, raw[i]];
      i := i + 2;
    }
    NextPair(swapped, []);
    a := Address(if international then 0x91 else 0x81, swapped, |raw|);
  }

  // ----- Septets -----------------------------------------------------------------------------

  /** The septets of one character; the table lookup fails on characters outside the alphabet. */
  function UnitSeptets(u: CodeUnit): Option<seq<Septet>> {
    if InBasic(u) then Some([Gsm7Code(u)])
    else if Gsm7ExtCode(u).Some? then Some([ESC, Gsm7ExtCode(u).value])
    else None
  }

  /** The septets of a text, or None where the builder throws. */
  function Gsm7SeptetsOf(text: Text): Option<seq<Septet>> {
    if text == [] then Some([])
    else
      var first :- UnitSeptets(text[0]);
      var rest :- Gsm7SeptetsOf(text[1..]);
      Some(first + rest)
  }

  function After(out: seq<Septet>, rest: Option<seq<Septet>>): Option<seq<Septet>> {
    match rest
    case Some(more) => Some(out + more)
    case None => None
  }

  lemma AfterNothing(rest: Option<seq<Septet>>)
    ensures After([], rest) == rest
  {
    if rest.Some? {
      assert [] + rest.value == rest.value;
    }
  }

  lemma AfterOneMore(out: seq<Septet>, text: Text)
    requires text != [] && UnitSeptets(text[0]).Some?
    ensures After(out, Gsm7SeptetsOf(text)) ==
            After(out + UnitSeptets(text[0]).value, Gsm7SeptetsOf(text[1..]))
  {
    hide UnitSeptets;
    if Gsm7SeptetsOf(text[1..]).Some? {
      var first, rest := UnitSeptets(text[0]).value, Gsm7SeptetsOf(text[1..]).value;
      assert out + (first + rest) == out + first + rest;
    }
  }

  method Gsm7Septets(text: Text) returns (septets: Option<seq<Septet>>)
    ensures septets == Gsm7SeptetsOf(text)
  {
    hide UnitSeptets, UnitCost;
    var out: seq<Septet> := [];
    var i := 0;
    assert text[i..] == text;
    AfterNothing(Gsm7SeptetsOf(text));
    while i < |text|
      invariant i <= |text|
      invariant Gsm7SeptetsOf(text) == After(out, Gsm7SeptetsOf(text[i..]))
    {
      var n := CodePointLength(text, i);
      StepSeptets(text, i);
      assert text[i..][1..] == text[i + 1..];
      var s := if n == 1 then UnitSeptets(text[i]) else None;
      if s.None? {
        return None;
      }
      AfterOneMore(out, text[i..]);
      out := out + s.value;
      i := i + n;
    }
    assert text[i..] == [] && out + [] == out;
    septets := Some(out);
  }

  /** A character of two units is in no table, and neither is its first unit. */
  lemma StepSeptets(text: Text, i: nat)
    requires i < |text|
    ensures CodePointLength(text, i) == 2 ==> UnitSeptets(text[i]) == None
  {
    if CodePointLength(text, i) == 2 {
      SurrogatesAreNotGsm7(text[i]);
    }
  }

  lemma UnitSeptetsAreTheStandards(u: CodeUnit)
    ensures UnitSeptets(u).Some? <==> UnitCost(u).Some?
    ensures UnitSeptets(u).Some? ==>
              var s := UnitSeptets(u).value;
              && |s| == Cost(u)
              && (|s| == 1 ==> s[0] != ESC && DefaultAlphabet(s[0]) == u)
              && (|s| == 2 ==> s[0] == ESC && s[1] != ESC && ExtensionAlphabet(s[1]) == Some(u))
              && (|s| == 1 || |s| == 2)
  {
    if InBasic(u) {
      var i :| 0 <= i < GSM7_BASIC_SIZE && Gsm7Basic(i) == u && Gsm7Code(u) == CodeOfIndex(i);
      BasicTableIsTheStandards(i);
    } else if Gsm7ExtCode(u).Some? {
      ExtensionTableIsTheStandards(u);
    }
  }

  /**
    On a text of the alphabet the builder does not throw, yields as many septets as were counted,
    and a receiver reads the text back.
   */
  lemma {:induction false} Gsm7DecodeOfSeptets(text: Text)
    requires IsGsm7(text)
    ensures Gsm7SeptetsOf(text).Some?
    ensures var s := Gsm7SeptetsOf(text).value;
            && |s| == SeptetCount(text)
            && Gsm7Decode(s) == text
  {
    hide UnitSeptets, UnitCost, Cost, DefaultAlphabet, ExtensionAlphabet;
    if text != [] {
      UnitSeptetsAreTheStandards(text[0]);
      Gsm7DecodeOfSeptets(text[1..]);
      var first, rest := UnitSeptets(text[0]).value, Gsm7SeptetsOf(text[1..]).value;
      var s := first + rest;
      assert s[|first|..] == rest;
      assert text == [text[0]] + text[1..];
    }
  }

  // ----- The PDU -------------------------------------------------------------------------------

  /** The service-centre field; the empty string stands for the SIM's own service centre. */
  function SmscHex(smsc: string): string {
    if smsc == [] then "00"
    else
      var a := AddressOf(smsc);
      HexPair(1 + |a.digits| / 2) + HexPair(a.toa) + a.digits
  }

  /** The user-data length and the user data of one part, or None where the builder throws. */
  function UserData(text: Text, encoding: Encoding): Option<(nat, seq<Octet>)> {
    match encoding
    case Gsm =>
      var septets :- Gsm7SeptetsOf(text);
      PackedIsBaseConversion(septets, 1);
      Some((7 + |septets|, Packed(septets, 1)))
    case Ucs2 =>
      var body := Swap16(Utf16Le(text));
      Some((6 + |body|, body))
  }

  function BuildSubmitPdu(
    to: string, text: Text, encoding: Encoding, ref: int, part: nat, total: nat, smsc: string): Option<SubmitPdu>
  {
    var da := AddressOf(to);
    var udh := "05" + "00" + "03" + HexPair(ref % 256) + HexPair(total) + HexPair(part);
    var (udl, ud) :- UserData(text, encoding);
    var tpdu :=
      "51" + "00" + HexPair(da.digitCount) + HexPair(da.toa) + da.digits + "00" +
      (if encoding == Gsm then "00" else "08") + "A7" + HexPair(udl) + udh + ToHex(ud);
    Some(SubmitPdu(SmscHex(smsc) + tpdu, |tpdu| / 2))
  }

  /** The PDUs of the parts from number `i` (0-based) on. */
  function PdusFrom(
    to: string, parts: seq<Text>, encoding: Encoding, ref: int, smsc: string, i: nat): Option<seq<SubmitPdu>>
    requires i <= |parts|
    decreases |parts| - i
  {
    if i == |parts| then Some([])
    else
      var first :- BuildSubmitPdu(to, parts[i], encoding, ref, i + 1, |parts|, smsc);
      var rest :- PdusFrom(to, parts, encoding, ref, smsc, i + 1);
      Some([first] + rest)
  }

  function BuildConcatPdus(
    to: string, parts: seq<Text>, encoding: Encoding, ref: int, smsc: string): Option<seq<SubmitPdu>>
  {
    PdusFrom(to, parts, encoding, ref, smsc, 0)
  }
}
