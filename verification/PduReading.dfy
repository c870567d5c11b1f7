/** Reading back what utils/pdu.js builds. */
module PduReading {
  import opened Wrappers
  import opened Utf16
  import opened Septets
  import opened Gsm7
  import opened SmsEncoding
  import opened Hex
  import opened Pdu
  import opened Receiver

  // ----- Addresses -----------------------------------------------------------------------------

  function DigitValue(c: char): (v: nat)
    requires '0' <= c <= '9'
    ensures v < 10
  {
    c as int - '0' as int
  }

  /** The semi-octets of a string of digits. */
  function SemiOctets(raw: string): seq<Octet>
    requires IsDecimal(raw)
  {
    if raw == [] then []
    else if |raw| == 1 then [0xF0 + DigitValue(raw[0])]
    else [DigitValue(raw[0]) + 16 * DigitValue(raw[1])] + SemiOctets(raw[2..])
  }

  lemma DigitIsHex(c: char)
    requires '0' <= c <= '9'
    ensures HexDigit(DigitValue(c)) == c
  {
  }

  lemma PairNibbles(a: char, b: char)
    requires '0' <= a <= '9' && '0' <= b <= '9'
    ensures var o := DigitValue(a) + 16 * DigitValue(b);
            && o % 16 == DigitValue(a) && o / 16 == DigitValue(b)
            && HexPair(o) == [b, a]
  {
    HexPairOfOctet(DigitValue(a) + 16 * DigitValue(b));
    DigitIsHex(a);
    DigitIsHex(b);
  }

  lemma LastNibbles(a: char)
    requires '0' <= a <= '9'
    ensures var o := 0xF0 + DigitValue(a);
            && o % 16 == DigitValue(a) && o / 16 == 15
            && HexPair(o) == ['F', a]
  {
    HexPairOfOctet(0xF0 + DigitValue(a));
    DigitIsHex(a);
  }

  lemma {:induction false} HexOfSemiOctets(raw: string)
    requires IsDecimal(raw)
    ensures ToHex(SemiOctets(raw)) == NibbleSwapped(raw)
    ensures |SemiOctets(raw)| == (|raw| + 1) / 2
    decreases |raw|
  {
    hide HexPair, DigitValue;
    if |raw| == 1 {
      LastNibbles(raw[0]);
    } else if raw != [] {
      PairNibbles(raw[0], raw[1]);
      HexOfSemiOctets(raw[2..]);
      assert SemiOctets(raw)[1..] == SemiOctets(raw[2..]);
    }
  }

  lemma {:induction false} ReadSemiOctets(raw: string)
    requires IsDecimal(raw)
    ensures ReadDigits(SemiOctets(raw), |raw|) == Some(raw)
    decreases |raw|
  {
    hide HexDigit, DigitValue;
    if |raw| == 1 {
      LastNibbles(raw[0]);
      DigitIsHex(raw[0]);
      assert raw == [raw[0]];
    } else if raw != [] {
      PairNibbles(raw[0], raw[1]);
      DigitIsHex(raw[0]);
      DigitIsHex(raw[1]);
      ReadSemiOctets(raw[2..]);
      assert SemiOctets(raw)[1..] == SemiOctets(raw[2..]);
      assert raw == [raw[0], raw[1]] + raw[2..];
    }
  }

  lemma {:induction false} LastSemiOctet(raw: string)
    requires IsDecimal(raw) && raw != []
    ensures var bcd := SemiOctets(raw);
            bcd != [] && (bcd[|bcd| - 1] / 16 == 15 <==> |raw| % 2 == 1)
    decreases |raw|
  {
    if |raw| > 2 {
      LastSemiOctet(raw[2..]);
    }
  }

  lemma ReadValidNumber(number: string)
    requires IsDecimal(RawDigits(number))
    ensures ReadNumber(AddressOf(number).toa, SemiOctets(RawDigits(number)), |RawDigits(number)|) == Some(number)
  {
    ReadSemiOctets(RawDigits(number));
    if International(number) {
      assert ['+'] + RawDigits(number) == number;
    }
  }

  // ----- The PDU as octets ---------------------------------------------------------------------

  /** A service centre the length octet can describe; empty means the SIM's own. */
  predicate ValidServiceCentre(smsc: string) {
    IsDecimal(RawDigits(smsc)) && 1 + (|RawDigits(smsc)| + 1) / 2 < 256
  }

  function ServiceCentreOctets(smsc: string): seq<Octet>
    requires ValidServiceCentre(smsc)
  {
    if smsc == [] then [0]
    else
      var bcd := SemiOctets(RawDigits(smsc));
      HexOfSemiOctets(RawDigits(smsc));
      [1 + |bcd|, AddressOf(smsc).toa] + bcd
  }

  lemma OctetHex(o: Octet)
    ensures ToHex([o]) == HexPair(o)
  {
    assert HexPair(o) + ToHex([]) == HexPair(o);
  }

  lemma FixedOctets()
    ensures ToHex([0x51]) == "51" && ToHex([0x00]) == "00" && ToHex([0xA7]) == "A7" && ToHex([0x08]) == "08"
    ensures ToHex([0x05]) == "05" && ToHex([0x03]) == "03"
  {
    OctetHex(0x51); HexPairOfOctet(0x51);
    OctetHex(0x00); HexPairOfOctet(0x00);
    OctetHex(0xA7); HexPairOfOctet(0xA7);
    OctetHex(0x08); HexPairOfOctet(0x08);
    OctetHex(0x05); HexPairOfOctet(0x05);
    OctetHex(0x03); HexPairOfOctet(0x03);
  }

  lemma ServiceCentreHex(smsc: string)
    requires ValidServiceCentre(smsc)
    ensures SmscHex(smsc) == ToHex(ServiceCentreOctets(smsc))
  {
    hide HexPair, NibbleSwapped, SemiOctets, ToHex;
    FixedOctets();
    if smsc != [] {
      var bcd, toa := SemiOctets(RawDigits(smsc)), AddressOf(smsc).toa;
      HexOfSemiOctets(RawDigits(smsc));
      OctetHex(1 + |bcd|);
      OctetHex(toa);
      ToHexConcat([1 + |bcd|], [toa]);
      assert [1 + |bcd|] + [toa] == [1 + |bcd|, toa];
      ToHexConcat([1 + |bcd|, toa], bcd);
    }
  }

  lemma ReadsServiceCentre(smsc: string, tpdu: seq<Octet>)
    requires ValidServiceCentre(smsc)
    ensures ReadServiceCentre(ServiceCentreOctets(smsc) + tpdu) ==
            Some((if smsc == [] then None else Some(smsc), tpdu))
  {
    hide SemiOctets, ReadNumber;
    var octets := ServiceCentreOctets(smsc) + tpdu;
    if smsc == [] {
      assert octets[1..] == tpdu;
    } else {
      var raw := RawDigits(smsc);
      var bcd := SemiOctets(raw);
      HexOfSemiOctets(raw);
      assert octets[2..2 + |bcd|] == bcd && octets[2 + |bcd|..] == tpdu;
      if raw != [] {
        LastSemiOctet(raw);
      }
      ReadValidNumber(smsc);
    }
  }

  /** TP-MTI to TP-DA. */
  function HeadOctets(to: string): seq<Octet>
    requires ValidNumber(to)
  {
    [0x51] + [0x00] + [|RawDigits(to)|] + [AddressOf(to).toa] + SemiOctets(RawDigits(to))
  }

  /** TP-PID to the end of the user-data header. */
  function BodyOctets(encoding: Encoding, udl: Octet, ref: Octet, total: Octet, part: Octet): seq<Octet> {
    [0x00] + [if encoding == Gsm then 0x00 else 0x08] + [0xA7] + [udl] +
    ([0x05] + [0x00] + [0x03] + [ref] + [total] + [part])
  }

  lemma HeadHex(to: string)
    requires ValidNumber(to)
    ensures var da := AddressOf(to);
            ToHex(HeadOctets(to)) == "51" + "00" + HexPair(da.digitCount) + HexPair(da.toa) + da.digits
  {
    hide HexPair, NibbleSwapped, SemiOctets, ToHex;
    FixedOctets();
    var raw, toa := RawDigits(to), AddressOf(to).toa;
    HexOfSemiOctets(raw);
    OctetHex(|raw|);
    OctetHex(toa);
    ToHexConcat([0x51], [0x00]);
    ToHexConcat([0x51] + [0x00], [|raw|]);
    ToHexConcat([0x51] + [0x00] + [|raw|], [toa]);
    ToHexConcat([0x51] + [0x00] + [|raw|] + [toa], SemiOctets(raw));
  }

  lemma HeaderHex(ref: Octet, total: Octet, part: Octet)
    ensures ToHex([0x05] + [0x00] + [0x03] + [ref] + [total] + [part]) ==
            "05" + "00" + "03" + HexPair(ref) + HexPair(total) + HexPair(part)
  {
    hide HexPair, ToHex;
    FixedOctets();
    OctetHex(ref);
    OctetHex(total);
    OctetHex(part);
    ToHexConcat([0x05], [0x00]);
    ToHexConcat([0x05] + [0x00], [0x03]);
    ToHexConcat([0x05] + [0x00] + [0x03], [ref]);
    ToHexConcat([0x05] + [0x00] + [0x03] + [ref], [total]);
    ToHexConcat([0x05] + [0x00] + [0x03] + [ref] + [total], [part]);
  }

  lemma BodyHex(encoding: Encoding, udl: Octet, ref: Octet, total: Octet, part: Octet)
    ensures ToHex(BodyOctets(encoding, udl, ref, total, part)) ==
            "00" + (if encoding == Gsm then "00" else "08") + "A7" + HexPair(udl) +
            ("05" + "00" + "03" + HexPair(ref) + HexPair(total) + HexPair(part))
  {
    hide HexPair, ToHex;
    FixedOctets();
    HeaderHex(ref, total, part);
    OctetHex(udl);
    var dcs := if encoding == Gsm then 0x00 else 0x08;
    var header := [0x05] + [0x00] + [0x03] + [ref] + [total] + [part];
    ToHexConcat([0x00], [dcs]);
    ToHexConcat([0x00] + [dcs], [0xA7]);
    ToHexConcat([0x00] + [dcs] + [0xA7], [udl]);
    ToHexConcat([0x00] + [dcs] + [0xA7] + [udl], header);
  }

  // ----- The round trip ------------------------------------------------------------------------

  /** What one part needs to fit the length fields: 7 + n septets or 6 + 2n octets below 256. */
  predicate FitsOnePdu(text: Text, encoding: Encoding) {
    match encoding
    case Gsm => IsGsm7(text) && SeptetCount(text) <= 248
    case Ucs2 => |text| <= 124
  }

  lemma {:induction false} Utf16BeOfSwapped(text: Text)
    ensures FromUtf16Be(Swap16(Utf16Le(text))) == text
  {
    if text != [] {
      Utf16BeOfSwapped(text[1..]);
      var bytes := Utf16Le(text);
      assert bytes[2..] == Utf16Le(text[1..]);
      var swapped := Swap16(bytes);
      assert swapped == [HighByte(text[0]), LowByte(text[0])] + Swap16(bytes[2..]);
      assert swapped[2..] == Swap16(bytes[2..]);
      assert text == [text[0]] + text[1..];
    }
  }

  lemma ReadsText(text: Text, encoding: Encoding)
    requires FitsOnePdu(text, encoding)
    ensures UserData(text, encoding).Some?
    ensures var (udl, ud) := UserData(text, encoding).value;
            && udl < 256
            && ReadText(ud, 6, udl, if encoding == Gsm then 0x00 else 0x08) == Some(text)
  {
    hide Gsm7SeptetsOf, Gsm7Decode, Packed, Unpack, Swap16, Utf16Le, FromUtf16Be, IsGsm7, SeptetCount;
    match encoding
    case Gsm =>
      Gsm7DecodeOfSeptets(text);
      var septets := Gsm7SeptetsOf(text).value;
      PackedIsBaseConversion(septets, 1);
      UnpackPacked(septets, 1);
      assert FillBits(6) == 1;
    case Ucs2 =>
      Utf16BeOfSwapped(text);
  }

  lemma ReadsUserData(text: Text, udl: nat, dcs: nat, ref: Octet, total: Octet, part: Octet, ud: seq<Octet>)
    requires ReadText(ud, 6, udl, dcs) == Some(text)
    ensures ReadUserData(([0x05] + [0x00] + [0x03] + [ref] + [total] + [part]) + ud, udl, dcs, true) ==
            Some((Some(Concat(ref, total, part)), text))
  {
    hide ReadText;
    var octets := ([0x05] + [0x00] + [0x03] + [ref] + [total] + [part]) + ud;
    assert octets[6..] == ud;
    assert octets[1..6] == [0x00, 0x03, ref, total, part];
  }

  lemma ReadsBody(
    smsc: Option<string>, to: string, text: Text, encoding: Encoding,
    udl: Octet, ref: Octet, total: Octet, part: Octet, ud: seq<Octet>)
    requires ReadText(ud, 6, udl, if encoding == Gsm then 0x00 else 0x08) == Some(text)
    ensures ReadBody(smsc, to, 0x51, BodyOctets(encoding, udl, ref, total, part) + ud) ==
            Some(Submit(smsc, to, 0x00, Some(0xA7), Some(Concat(ref, total, part)), text))
  {
    hide ReadText, ReadUserData;
    var dcs := if encoding == Gsm then 0x00 else 0x08;
    var header := [0x05] + [0x00] + [0x03] + [ref] + [total] + [part];
    var octets := BodyOctets(encoding, udl, ref, total, part) + ud;
    assert octets[1] == dcs && octets[2] == 0xA7 && octets[3] == udl;
    assert octets[4..] == header + ud;
    ReadsUserData(text, udl, dcs, ref, total, part, ud);
  }

  lemma ReadsTpdu(smsc: Option<string>, to: string, rest: seq<Octet>)
    requires ValidNumber(to)
    ensures ReadTpdu(smsc, HeadOctets(to) + rest) == ReadBody(smsc, to, 0x51, rest)
  {
    hide ReadBody, ReadNumber, SemiOctets;
    var octets, raw := HeadOctets(to) + rest, RawDigits(to);
    HexOfSemiOctets(raw);
    ReadValidNumber(to);
    var n := (|raw| + 1) / 2;
    assert octets[0] == 0x51 && octets[2] == |raw| && octets[3] == AddressOf(to).toa;
    assert octets[4..4 + n] == SemiOctets(raw);
    assert octets[4 + n..] == rest;
  }

  /** The builder's text is the text of these octets. */
  lemma PduHex(to: string, text: Text, encoding: Encoding, ref: int, part: nat, total: nat, smsc: string)
    requires ValidNumber(to) && ValidServiceCentre(smsc) && FitsOnePdu(text, encoding)
    requires part < 256 && total < 256
    ensures UserData(text, encoding).Some? && UserData(text, encoding).value.0 < 256
    ensures var (udl, ud) := UserData(text, encoding).value;
            var tpdu := HeadOctets(to) + (BodyOctets(encoding, udl, ref % 256, total, part) + ud);
            var built := BuildSubmitPdu(to, text, encoding, ref, part, total, smsc);
            && built.Some?
            && built.value.pdu == ToHex(ServiceCentreOctets(smsc) + tpdu)
            && built.value.length == |tpdu|
  {
    hide HexPair, ToHex, HeadOctets, BodyOctets, ServiceCentreOctets, AddressOf, SmscHex, FitsOnePdu, UserData;
    ReadsText(text, encoding);
    var (udl, ud) := UserData(text, encoding).value;
    var head, body := HeadOctets(to), BodyOctets(encoding, udl, ref % 256, total, part);
    HeadHex(to);
    BodyHex(encoding, udl, ref % 256, total, part);
    ServiceCentreHex(smsc);
    ToHexConcat(body, ud);
    ToHexConcat(head, body + ud);
    ToHexConcat(ServiceCentreOctets(smsc), head + (body + ud));
    SameText(
      "51" + "00" + HexPair(AddressOf(to).digitCount) + HexPair(AddressOf(to).toa) + AddressOf(to).digits,
      "00", if encoding == Gsm then "00" else "08", "A7", HexPair(udl),
      "05" + "00" + "03" + HexPair(ref % 256) + HexPair(total) + HexPair(part), ToHex(ud));
  }

  lemma SameText(a: string, b: string, c: string, d: string, e: string, f: string, g: string)
    ensures a + b + c + d + e + f + g == a + (b + c + d + e + f + g)
  {
  }

  /**
    A receiver reads out of every PDU exactly what went in: service centre, destination with its
    type of number, 24-hour validity, reference, total, part number and text. The text of the PDU
    has two digits per octet, and `length` leaves out the service-centre field.
   */
  lemma ReadPduOfBuilt(to: string, text: Text, encoding: Encoding, ref: int, part: nat, total: nat, smsc: string)
    requires ValidNumber(to) && ValidServiceCentre(smsc) && FitsOnePdu(text, encoding)
    requires part < 256 && total < 256
    ensures var built := BuildSubmitPdu(to, text, encoding, ref, part, total, smsc);
            && built.Some?
            && ReadPdu(built.value.pdu) ==
               Some(Submit(if smsc == [] then None else Some(smsc), to, 0x00, Some(0xA7),
                           Some(Concat(ref % 256, total, part)), text))
            && |built.value.pdu| == 2 * built.value.length + |SmscHex(smsc)|
            && |SmscHex(smsc)| % 2 == 0
  {
    hide HexPair, ToHex, HeadOctets, BodyOctets, ServiceCentreOctets, AddressOf, SmscHex, FitsOnePdu, UserData,
      OctetsOfHex, ReadServiceCentre, ReadTpdu, ReadBody, ReadText, BuildSubmitPdu;
    PduHex(to, text, encoding, ref, part, total, smsc);
    ReadsText(text, encoding);
    var (udl, ud) := UserData(text, encoding).value;
    var body := BodyOctets(encoding, udl, ref % 256, total, part) + ud;
    var tpdu := HeadOctets(to) + body;
    OctetsOfToHex(ServiceCentreOctets(smsc) + tpdu);
    ReadsServiceCentre(smsc, tpdu);
    ReadsTpdu(if smsc == [] then None else Some(smsc), to, body);
    ReadsBody(if smsc == [] then None else Some(smsc), to, text, encoding, udl, ref % 256, total, part, ud);
    ServiceCentreHex(smsc);
  }

  /** The length that goes with a PDU is the one its modem expects, whatever the service centre. */
  lemma LengthOfBuilt(to: string, text: Text, encoding: Encoding, ref: int, part: nat, total: nat, smsc: string)
    requires ValidNumber(to) && ValidServiceCentre(smsc) && FitsOnePdu(text, encoding)
    requires part < 256 && total < 256
    ensures var built := BuildSubmitPdu(to, text, encoding, ref, part, total, smsc);
            built.Some? && ReadPduOfLength(built.value.length, built.value.pdu) == ReadPdu(built.value.pdu)
  {
    hide ToHex, HeadOctets, BodyOctets, SemiOctets, AddressOf, FitsOnePdu, UserData, OctetsOfHex, ReadPdu,
      BuildSubmitPdu, ValidNumber;
    PduHex(to, text, encoding, ref, part, total, smsc);
    var (udl, ud) := UserData(text, encoding).value;
    var tpdu := HeadOctets(to) + (BodyOctets(encoding, udl, ref % 256, total, part) + ud);
    OctetsOfToHex(ServiceCentreOctets(smsc) + tpdu);
    HexOfSemiOctets(RawDigits(smsc));
  }
}
