/**
  From the text a caller sends to the text a handset shows: splitting, building PDUs, the
  receiver's reading of each of them and reassembly, taken together.
 */
module EndToEnd {
  import opened Wrappers
  import opened Utf16
  import opened Septets
  import opened SmsEncoding
  import opened Splitting
  import opened Hex
  import opened Pdu
  import opened Receiver
  import opened PduReading

  /** Every part of a split message fits one PDU. */
  lemma PartsFit(text: Text, k: nat)
    requires Analyze(text).segments > 1 && k < |SplitMessage(text)|
    ensures FitsOnePdu(SplitMessage(text)[k], Analyze(text).encoding)
    ensures match Analyze(text).encoding
            case Gsm => SeptetCount(SplitMessage(text)[k]) <= GSM7_PER_SEGMENT
            case Ucs2 => |SplitMessage(text)[k]| <= UCS2_PER_SEGMENT
  {
    hide UnitCost, Gsm7Parts, Ucs2Parts, SeptetCount;
    if IsGsm7(text) {
      Gsm7PartsAreTheMessage(text);
      PiecesAreGsm7(Gsm7Parts(text), k);
    } else {
      Ucs2PartsAreTheMessage(text);
    }
  }

  /** Part `k` of the message as its receiver knows it. */
  function Segment(to: string, parts: seq<Text>, ref: int, smsc: string, k: nat): Submit
    requires k < |parts|
  {
    Submit(if smsc == [] then None else Some(smsc), to, 0x00, Some(0xA7),
           Some(Concat(ref % 256, |parts|, k + 1)), parts[k])
  }

  lemma {:induction false} BuildsEveryPart(
    to: string, parts: seq<Text>, encoding: Encoding, ref: int, smsc: string, i: nat)
    requires ValidNumber(to) && ValidServiceCentre(smsc) && i <= |parts| < 256
    requires forall k :: 0 <= k < |parts| ==> FitsOnePdu(parts[k], encoding)
    ensures var pdus := PdusFrom(to, parts, encoding, ref, smsc, i);
            && pdus.Some? && |pdus.value| == |parts| - i
            && forall k :: i <= k < |parts| ==>
                 ReadPdu(pdus.value[k - i].pdu) == Some(Segment(to, parts, ref, smsc, k))
    decreases |parts| - i
  {
    hide FitsOnePdu, BuildSubmitPdu, ReadPdu, SmscHex, ValidNumber, ValidServiceCentre;
    if i < |parts| {
      ReadPduOfBuilt(to, parts[i], encoding, ref, i + 1, |parts|, smsc);
      BuildsEveryPart(to, parts, encoding, ref, smsc, i + 1);
    }
  }

  lemma {:induction false} BuiltOneByOne(
    to: string, parts: seq<Text>, encoding: Encoding, ref: int, smsc: string, i: nat, k: nat)
    requires i <= k < |parts| && PdusFrom(to, parts, encoding, ref, smsc, i).Some?
    ensures var pdus := PdusFrom(to, parts, encoding, ref, smsc, i).value;
            k - i < |pdus| && BuildSubmitPdu(to, parts[k], encoding, ref, k + 1, |parts|, smsc) == Some(pdus[k - i])
    decreases |parts| - i
  {
    hide BuildSubmitPdu;
    if i < k {
      BuiltOneByOne(to, parts, encoding, ref, smsc, i + 1, k);
    }
  }

  /** Every PDU of a message, taken with its length, is read by the modem as that part, for that recipient. */
  lemma EveryPduIsRead(to: string, text: Text, ref: int, smsc: string, k: nat)
    requires ValidNumber(to) && ValidServiceCentre(smsc)
    requires 1 < Analyze(text).segments < 256 && k < Analyze(text).segments
    ensures var parts := SplitMessage(text);
            var pdus := BuildConcatPdus(to, parts, Analyze(text).encoding, ref, smsc);
            && |parts| == Analyze(text).segments
            && pdus.Some? && |pdus.value| == |parts|
            && ReadPduOfLength(pdus.value[k].length, pdus.value[k].pdu) == Some(Segment(to, parts, ref, smsc, k))
  {
    hide FitsOnePdu, ReadPdu, ReadPduOfLength, SplitMessage, Analyze, ValidNumber, ValidServiceCentre, PdusFrom,
      BuildSubmitPdu;
    SegmentsCountTheParts(text);
    var parts, encoding := SplitMessage(text), Analyze(text).encoding;
    forall j | 0 <= j < |parts|
      ensures FitsOnePdu(parts[j], encoding)
    {
      PartsFit(text, j);
    }
    BuildsEveryPart(to, parts, encoding, ref, smsc, 0);
    BuiltOneByOne(to, parts, encoding, ref, smsc, 0, k);
    LengthOfBuilt(to, parts[k], encoding, ref, k + 1, |parts|, smsc);
    var pdus := BuildConcatPdus(to, parts, encoding, ref, smsc).value;
    assert pdus[k - 0] == pdus[k];
  }

  /** The segments that arrive when the PDUs are delivered in the given order. */
  function Arrivals(to: string, parts: seq<Text>, ref: int, smsc: string, order: seq<nat>): (received: seq<Submit>)
    requires forall j :: 0 <= j < |order| ==> order[j] < |parts|
    ensures |received| == |order|
    ensures forall j :: 0 <= j < |order| ==> received[j] == Segment(to, parts, ref, smsc, order[j])
  {
    if order == [] then []
    else [Segment(to, parts, ref, smsc, order[0])] + Arrivals(to, parts, ref, smsc, order[1..])
  }

  lemma {:induction false} FindsPart(to: string, parts: seq<Text>, ref: int, smsc: string, order: seq<nat>, k: nat)
    requires forall j :: 0 <= j < |order| ==> order[j] < |parts|
    requires k < |parts| && k in order
    ensures FindPart(Arrivals(to, parts, ref, smsc, order), k + 1) == Some(parts[k])
  {
    if order[0] != k {
      FindsPart(to, parts, ref, smsc, order[1..], k);
      assert Arrivals(to, parts, ref, smsc, order)[1..] == Arrivals(to, parts, ref, smsc, order[1..]);
    }
  }

  lemma {:induction false} JoinsInPartOrder(
    to: string, parts: seq<Text>, ref: int, smsc: string, order: seq<nat>, k: nat)
    requires forall j :: 0 <= j < |order| ==> order[j] < |parts|
    requires forall p :: 0 <= p < |parts| ==> p in order
    requires k <= |parts|
    ensures JoinFrom(Arrivals(to, parts, ref, smsc, order), k + 1, |parts|) == Some(Join(parts[k..]))
    decreases |parts| - k
  {
    if k < |parts| {
      FindsPart(to, parts, ref, smsc, order, k);
      JoinsInPartOrder(to, parts, ref, smsc, order, k + 1);
      assert parts[k..][1..] == parts[k + 1..];
    }
  }

  /**
    Meaning is preserved: a message that needs several parts is turned into that many PDUs, all
    readable, numbered 1 to n under one reference and one total; delivered in any order, even
    repeatedly, they reassemble to exactly the message.
   */
  lemma MessageSurvives(to: string, text: Text, ref: int, smsc: string, order: seq<nat>)
    requires ValidNumber(to) && ValidServiceCentre(smsc)
    requires 1 < Analyze(text).segments < 256
    requires forall j :: 0 <= j < |order| ==> order[j] < Analyze(text).segments
    requires forall p :: 0 <= p < Analyze(text).segments ==> p in order
    ensures var n := Analyze(text).segments;
            var pdus := BuildConcatPdus(to, SplitMessage(text), Analyze(text).encoding, ref, smsc);
            && pdus.Some? && |pdus.value| == n
            && (forall k :: 0 <= k < n ==>
                  && ReadPdu(pdus.value[k].pdu).Some?
                  && ReadPdu(pdus.value[k].pdu).value.number == to
                  && ReadPdu(pdus.value[k].pdu).value.concat == Some(Concat(ref % 256, n, k + 1)))
            && Reassemble(seq(|order|, j requires 0 <= j < |order| => ReadPdu(pdus.value[order[j]].pdu).value)) ==
               Some(text)
  {
    hide FitsOnePdu, ReadPdu, SplitMessage, Analyze, ValidNumber, ValidServiceCentre, PdusFrom;
    SegmentsCountTheParts(text);
    var parts, encoding, n := SplitMessage(text), Analyze(text).encoding, Analyze(text).segments;
    forall k | 0 <= k < |parts|
      ensures FitsOnePdu(parts[k], encoding)
    {
      PartsFit(text, k);
    }
    BuildsEveryPart(to, parts, encoding, ref, smsc, 0);
    var pdus := BuildConcatPdus(to, parts, encoding, ref, smsc).value;
    forall k | 0 <= k < n
      ensures ReadPdu(pdus[k].pdu) == Some(Segment(to, parts, ref, smsc, k))
    {
      assert pdus[k - 0] == pdus[k];
    }
    var received := seq(|order|, j requires 0 <= j < |order| => ReadPdu(pdus[order[j]].pdu).value);
    assert received == Arrivals(to, parts, ref, smsc, order);
    assert 0 in order;
    JoinsInPartOrder(to, parts, ref, smsc, order, 0);
    assert parts[0..] == parts;
  }

  // ----- Sizes ---------------------------------------------------------------------------------

  /** Octets of user data, header included. */
  function UserDataOctets(text: Text, encoding: Encoding): nat
    requires UserData(text, encoding).Some?
  {
    6 + |UserData(text, encoding).value.1|
  }

  /**
    Each part fills at most the 140 octets of an SMS. The UDL is the full 160 septets or 140
    octets exactly for parts of 153 septets or 67 code units, and every TPDU has at most 156 octets.
   */
  lemma UserDataBound(to: string, text: Text, ref: int, smsc: string, k: nat)
    requires ValidNumber(to) && ValidServiceCentre(smsc)
    requires 1 < Analyze(text).segments < 256 && k < |SplitMessage(text)|
    ensures var part, encoding := SplitMessage(text)[k], Analyze(text).encoding;
            var built := BuildSubmitPdu(to, part, encoding, ref, k + 1, |SplitMessage(text)|, smsc);
            && UserData(part, encoding).Some? && built.Some?
            && UserDataOctets(part, encoding) <= 140
            && built.value.length == 8 + (|RawDigits(to)| + 1) / 2 + UserDataOctets(part, encoding) <= 156
            && var udl := UserData(part, encoding).value.0;
               match encoding
               case Gsm => udl <= 160 && (udl == 160 <==> SeptetCount(part) == GSM7_PER_SEGMENT)
                           && (udl == 160 ==> UserDataOctets(part, encoding) == 140)
               case Ucs2 => udl <= 140 && (udl == 140 <==> |part| == UCS2_PER_SEGMENT)
                            && udl == UserDataOctets(part, encoding)
  {
    hide SplitMessage, Analyze, ValidNumber, ValidServiceCentre, FitsOnePdu, BuildSubmitPdu, SeptetCount, UserData,
      RawDigits, UserDataOctets;
    SegmentsCountTheParts(text);
    PartsFit(text, k);
    var part, encoding := SplitMessage(text)[k], Analyze(text).encoding;
    TpduSize(to, part, encoding, ref, k + 1, |SplitMessage(text)|, smsc);
    PartSize(part, encoding);
  }

  /** The octets of a TPDU: eight, the digits of the number, and the user data. */
  lemma TpduSize(to: string, text: Text, encoding: Encoding, ref: int, part: nat, total: nat, smsc: string)
    requires ValidNumber(to) && ValidServiceCentre(smsc) && FitsOnePdu(text, encoding)
    requires part < 256 && total < 256
    ensures var built := BuildSubmitPdu(to, text, encoding, ref, part, total, smsc);
            && UserData(text, encoding).Some? && built.Some? && |RawDigits(to)| <= 15
            && built.value.length == 8 + (|RawDigits(to)| + 1) / 2 + UserDataOctets(text, encoding)
  {
    hide ValidServiceCentre, FitsOnePdu, BuildSubmitPdu, UserData, SemiOctets;
    PduHex(to, text, encoding, ref, part, total, smsc);
    HexOfSemiOctets(RawDigits(to));
  }

  lemma PartSize(part: Text, encoding: Encoding)
    requires FitsOnePdu(part, encoding)
    requires match encoding
             case Gsm => SeptetCount(part) <= GSM7_PER_SEGMENT
             case Ucs2 => |part| <= UCS2_PER_SEGMENT
    ensures UserData(part, encoding).Some? && UserDataOctets(part, encoding) <= 140
    ensures var udl := UserData(part, encoding).value.0;
            match encoding
            case Gsm => udl <= 160 && (udl == 160 <==> SeptetCount(part) == GSM7_PER_SEGMENT)
                        && (udl == 160 ==> UserDataOctets(part, encoding) == 140)
            case Ucs2 => udl <= 140 && (udl == 140 <==> |part| == UCS2_PER_SEGMENT)
                         && udl == UserDataOctets(part, encoding)
  {
    hide FitsOnePdu, UserData, SeptetCount;
    UserDataSize(part, encoding);
  }

  lemma UserDataSize(part: Text, encoding: Encoding)
    requires FitsOnePdu(part, encoding)
    ensures UserData(part, encoding).Some?
    ensures var (udl, ud) := UserData(part, encoding).value;
            match encoding
            case Gsm => udl == 7 + SeptetCount(part) && |ud| == (1 + 7 * SeptetCount(part) + 7) / 8
            case Ucs2 => udl == 6 + 2 * |part| && |ud| == 2 * |part|
  {
    hide SeptetCount, IsGsm7, Gsm7SeptetsOf, Packed, Utf16Le, Swap16;
    if encoding == Gsm {
      Gsm7DecodeOfSeptets(part);
      PackedIsBaseConversion(Gsm7SeptetsOf(part).value, 1);
    }
  }

  // ----- Where the limits come from --------------------------------------------------------------

  /** Octets a text fills in an SMS without a header. */
  function PlainOctets(text: Text): nat {
    if IsGsm7(text) && Gsm7SeptetsOf(text).Some? then |Packed(Gsm7SeptetsOf(text).value, 0)|
    else |Swap16(Utf16Le(text))|
  }

  lemma PlainSize(text: Text)
    ensures PlainOctets(text) == if IsGsm7(text) then (7 * SeptetCount(text) + 7) / 8 else 2 * |text|
  {
    hide SeptetCount, IsGsm7, Gsm7SeptetsOf, Packed, Utf16Le, Swap16;
    if IsGsm7(text) {
      Gsm7DecodeOfSeptets(text);
      PackedIsBaseConversion(Gsm7SeptetsOf(text).value, 0);
    }
  }

  /**
    A message is one SMS exactly if it fits the 140 octets of one, that is in 160 septets or 70
    code units; 160 septets fill them. The reported limits are those of three parts.
   */
  lemma OneSmsIffItFits(text: Text)
    ensures Analyze(text).segments == 1 <==> PlainOctets(text) <= 140
    ensures Analyze(text).segments == 1 <==> if IsGsm7(text) then SeptetCount(text) <= 160 else |text| <= 70
    ensures IsGsm7(text) && SeptetCount(text) == 160 ==> PlainOctets(text) == 140
    ensures Analyze(text).length == if IsGsm7(text) then SeptetCount(text) else |text|
    ensures Analyze(text).maxLength == if IsGsm7(text) then 459 else 201
  {
    hide IsGsm7, PlainOctets, Gsm7Parts, Ucs2Parts, UnitCost, SeptetCount;
    PlainSize(text);
    Gsm7PartsAreTheMessage(text);
    Ucs2PartsAreTheMessage(text);
    SplitsOfOne(Gsm7Parts(text));
    SplitsOfOne(Ucs2Parts(text));
  }

  lemma SplitsOfOne(parts: seq<Text>)
    ensures |parts| == 1 ==> Join(parts) == parts[0]
  {
    if |parts| == 1 {
      assert parts[1..] == [];
    }
  }

  /** The part sizes are the largest behind a six-octet header: one septet or one unit more is too much. */
  lemma PartSizesAreLargest(septets: seq<Septet>, text: Text)
    ensures 6 + |Packed(septets, 1)| <= 140 <==> |septets| <= GSM7_PER_SEGMENT
    ensures 6 + |Swap16(Utf16Le(text))| <= 140 <==> |text| <= UCS2_PER_SEGMENT
  {
    hide Packed;
    PackedIsBaseConversion(septets, 1);
  }
}
