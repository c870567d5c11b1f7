/**
  The other end of the air interface, written from the standard alone: a reader for the
  service-centre field and the SMS-SUBMIT TPDU of 3GPP TS 23.040 section 9.2.2.2 and the
  reassembly of concatenated messages of section 9.2.3.24.1.
 */
module Receiver {
  import opened Wrappers
  import opened Utf16
  import opened Septets
  import opened Gsm7
  import opened Hex

  datatype Concat = Concat(ref: nat, total: nat, part: nat)

  datatype Submit = Submit(
    smsc: Option<string>, number: string, protocol: nat, validity: Option<nat>, concat: Option<Concat>, text: Text)

  /** Semi-octets, low nibble first; an odd count is filled up with 1111 (section 9.1.2.3). */
  function ReadDigits(octets: seq<Octet>, count: nat): Option<string> {
    if count == 0 then (if octets == [] then Some([]) else None)
    else if octets == [] then None
    else
      var low, high := octets[0] % 16, octets[0] / 16;
      if low > 9 then None
      else if count == 1 then (if high == 15 && |octets| == 1 then Some([HexDigit(low)]) else None)
      else if high > 9 then None
      else
        var rest :- ReadDigits(octets[1..], count - 2);
        Some([HexDigit(low), HexDigit(high)] + rest)
  }

  /** Type of number in bits 6 to 4, numbering plan in bits 3 to 0 (section 9.1.2.5). */
  function ReadNumber(toa: Octet, octets: seq<Octet>, count: nat): Option<string> {
    var digits :- ReadDigits(octets, count);
    if toa == 0x91 then Some(['+'] + digits)
    else if toa == 0x81 then Some(digits)
    else None
  }

  /** The service-centre field: its length counts octets, so the filler says whether the count is odd. */
  function ReadServiceCentre(octets: seq<Octet>): Option<(Option<string>, seq<Octet>)> {
    if octets == [] then None
    else
      var length: nat := octets[0];
      if |octets| < 1 + length then None
      else if length == 0 then Some((None, octets[1..]))
      else
        var bcd := octets[2..1 + length];
        var count := if bcd != [] && bcd[|bcd| - 1] / 16 == 15 then 2 * |bcd| - 1 else 2 * |bcd|;
        var number :- ReadNumber(octets[1], bcd, count);
        Some((Some(number), octets[1 + length..]))
  }

  /** The first concatenation element with an 8-bit reference among the header's elements. */
  function FindConcat(header: seq<Octet>): Option<Concat> {
    if |header| < 2 then None
    else
      var length: nat := header[1];
      if |header| < 2 + length then None
      else if header[0] == 0 && length == 3 then Some(Concat(header[2], header[3], header[4]))
      else FindConcat(header[2 + length..])
  }

  function FromUtf16Be(octets: seq<Octet>): Text {
    if |octets| < 2 then [] else [UnitOf(octets[1], octets[0])] + FromUtf16Be(octets[2..])
  }

  /** The fill bits that bring the text to a septet boundary behind a header of `n` octets. */
  function FillBits(n: nat): nat {
    (7 - 8 * n % 7) % 7
  }

  /** User data: `udl` counts septets in the default alphabet and octets in UCS2 (section 9.2.3.16). */
  function ReadText(body: seq<Octet>, headerOctets: nat, udl: nat, dcs: nat): Option<Text> {
    if dcs == 0x00 then
      var fill := FillBits(headerOctets);
      var headerSeptets := (8 * headerOctets + fill) / 7;
      if udl < headerSeptets || |body| != (fill + 7 * (udl - headerSeptets) + 7) / 8 then None
      else
        var septets :- Unpack(body, udl - headerSeptets, fill);
        if forall i :: 0 <= i < |septets| ==> septets[i] < 128 then Some(Gsm7Decode(septets)) else None
    else if dcs == 0x08 then
      if headerOctets + |body| == udl && |body| % 2 == 0 then Some(FromUtf16Be(body)) else None
    else None
  }

  function ReadUserData(ud: seq<Octet>, udl: nat, dcs: nat, hasHeader: bool): Option<(Option<Concat>, Text)> {
    if !hasHeader then
      var text :- ReadText(ud, 0, udl, dcs);
      Some((None, text))
    else if ud == [] then None
    else
      var length: nat := ud[0];
      if |ud| < 1 + length then None
      else
        var text :- ReadText(ud[1 + length..], 1 + length, udl, dcs);
        Some((FindConcat(ud[1..1 + length]), text))
  }

  /** What follows the destination address: PID, DCS, validity period, UDL and user data. */
  function ReadBody(smsc: Option<string>, number: string, first: Octet, rest: seq<Octet>): Option<Submit> {
    var format := first / 8 % 4;
    var vpOctets := if format == 0 then 0 else if format == 2 then 1 else 7;
    if |rest| < 3 + vpOctets then None
    else
      var validity := if format == 2 then Some(rest[2]) else None;
      var (concat, text) :- ReadUserData(rest[3 + vpOctets..], rest[2 + vpOctets], rest[1], first / 64 % 2 == 1);
      Some(Submit(smsc, number, rest[0], validity, concat, text))
  }

  function ReadTpdu(smsc: Option<string>, tpdu: seq<Octet>): Option<Submit> {
    if |tpdu| < 4 || tpdu[0] % 4 != 1 then None
    else
      var digits: nat := tpdu[2];
      var n := (digits + 1) / 2;
      if |tpdu| < 4 + n then None
      else
        var number :- ReadNumber(tpdu[3], tpdu[4..4 + n], digits);
        ReadBody(smsc, number, tpdu[0], tpdu[4 + n..])
  }

  function ReadPdu(pdu: string): Option<Submit> {
    var octets :- OctetsOfHex(pdu);
    var (smsc, tpdu) :- ReadServiceCentre(octets);
    ReadTpdu(smsc, tpdu)
  }

  /** TS 27.005 section 4.3: the length given with the command counts the octets behind the service centre. */
  function ReadPduOfLength(length: nat, pdu: string): Option<Submit> {
    var octets :- OctetsOfHex(pdu);
    if octets != [] && |octets| == 1 + octets[0] + length then ReadPdu(pdu) else None
  }

  // ----- Reassembly ----------------------------------------------------------------------------

  /** The first segment received that carries part number `part`. */
  function FindPart(received: seq<Submit>, part: nat): Option<Text> {
    if received == [] then None
    else if received[0].concat.Some? && received[0].concat.value.part == part then Some(received[0].text)
    else FindPart(received[1..], part)
  }

  /** Parts `part` to `total` in order, or None while one of them is missing. */
  function JoinFrom(received: seq<Submit>, part: nat, total: nat): Option<Text>
    decreases total + 1 - part
  {
    if part > total then Some([])
    else
      var text :- FindPart(received, part);
      var rest :- JoinFrom(received, part + 1, total);
      Some(text + rest)
  }

  predicate SameMessage(a: Submit, b: Submit) {
    && a.number == b.number
    && a.concat.Some? && b.concat.Some?
    && a.concat.value.ref == b.concat.value.ref
    && a.concat.value.total == b.concat.value.total
  }

  /** The message of a set of segments, whatever order they came in and however often. */
  function Reassemble(received: seq<Submit>): Option<Text> {
    if received == [] || received[0].concat.None? then None
    else if exists i :: 0 <= i < |received| && !SameMessage(received[0], received[i]) then None
    else JoinFrom(received, 1, received[0].concat.value.total)
  }
}
