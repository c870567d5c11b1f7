/**
  Hexadecimal text (`hex` of utils/pdu.js, `ucs2Hex` and `ucs2Decode` of utils/sms-encoding.js)
  and the reader that turns it back into octets.
 */
module Hex {
  import opened Wrappers
  import opened Utf16
  import opened Septets

  function HexDigit(n: nat): char
    requires n < 16
  {
    if n < 10 then ('0' as int + n) as char else ('A' as int + n - 10) as char
  }

  predicate IsHexDigit(c: char) {
    '0' <= c <= '9' || 'A' <= c <= 'F' || 'a' <= c <= 'f'
  }

  function HexValue(c: char): (n: nat)
    requires IsHexDigit(c)
    ensures n < 16
  {
    if c <= '9' then c as int - '0' as int
    else if c <= 'F' then c as int - 'A' as int + 10
    else c as int - 'a' as int + 10
  }

  function UpperDigit(c: char): char {
    if 'a' <= c <= 'f' then (c as int - 'a' as int + 'A' as int) as char else c
  }

  function Upper(s: string): string {
    seq(|s|, i requires 0 <= i < |s| => UpperDigit(s[i]))
  }

  /** `n.toString(16).toUpperCase()`. */
  function HexNumber(n: nat): string {
    if n < 16 then [HexDigit(n)] else HexNumber(n / 16) + [HexDigit(n % 16)]
  }

  /** The number, padded to two digits; numbers above 255 keep all their digits. */
  function HexPair(n: nat): string {
    if n < 16 then ['0'] + HexNumber(n) else HexNumber(n)
  }

  lemma HexPairOfOctet(o: Octet)
    ensures HexPair(o) == [HexDigit(o / 16), HexDigit(o % 16)]
  {
    assert HexNumber(o / 16) == [HexDigit(o / 16)];
  }

  lemma DigitRoundTrip(n: nat)
    requires n < 16
    ensures IsHexDigit(HexDigit(n)) && HexValue(HexDigit(n)) == n
  {
  }

  function ToHex(octets: seq<Octet>): (s: string)
    ensures |s| == 2 * |octets|
  {
    if octets == [] then []
    else
      HexPairOfOctet(octets[0]);
      HexPair(octets[0]) + ToHex(octets[1..])
  }

  /** Reads pairs of hexadecimal digits. */
  function OctetsOfHex(s: string): Option<seq<Octet>> {
    if s == [] then Some([])
    else if |s| == 1 || !IsHexDigit(s[0]) || !IsHexDigit(s[1]) then None
    else
      var rest :- OctetsOfHex(s[2..]);
      Some([HexValue(s[0]) * 16 + HexValue(s[1])] + rest)
  }

  lemma {:induction false} ToHexConcat(a: seq<Octet>, b: seq<Octet>)
    ensures ToHex(a + b) == ToHex(a) + ToHex(b)
  {
    if a == [] {
      assert a + b == b;
    } else {
      assert (a + b)[1..] == a[1..] + b;
      ToHexConcat(a[1..], b);
    }
  }

  lemma OctetsOfPair(o: Octet, rest: string)
    ensures OctetsOfHex(HexPair(o) + rest) ==
            (match OctetsOfHex(rest) case Some(os) => Some([o] + os) case None => None)
  {
    HexPairOfOctet(o);
    DigitRoundTrip(o / 16);
    DigitRoundTrip(o % 16);
    hide HexPair, HexDigit, HexValue;
    var s := HexPair(o) + rest;
    assert s[0] == HexDigit(o / 16) && s[1] == HexDigit(o % 16) && s[2..] == rest;
  }

  lemma {:induction false} OctetsOfToHex(octets: seq<Octet>)
    ensures OctetsOfHex(ToHex(octets)) == Some(octets)
  {
    hide HexPair, OctetsOfHex;
    if octets == [] {
      NoHex();
    } else {
      OctetsOfToHex(octets[1..]);
      OctetsOfPair(octets[0], ToHex(octets[1..]));
      assert octets == [octets[0]] + octets[1..];
    }
  }

  lemma NoHex()
    ensures OctetsOfHex([]) == Some([])
  {
  }

  predicate AllHex(s: string) {
    forall i :: 0 <= i < |s| ==> IsHexDigit(s[i])
  }

  lemma PairOfDigits(a: char, b: char)
    requires IsHexDigit(a) && IsHexDigit(b)
    ensures HexPair(HexValue(a) * 16 + HexValue(b)) == [UpperDigit(a), UpperDigit(b)]
  {
    HexPairOfOctet(HexValue(a) * 16 + HexValue(b));
  }

  /** Every even run of hexadecimal digits is the text of some octets, up to letter case. */
  lemma {:induction false} ToHexOfOctets(s: string)
    requires AllHex(s) && |s| % 2 == 0
    ensures OctetsOfHex(s).Some? && |OctetsOfHex(s).value| == |s| / 2
    ensures ToHex(OctetsOfHex(s).value) == Upper(s)
    decreases |s|
  {
    hide HexPair, HexDigit, HexValue, UpperDigit, IsHexDigit;
    if s != [] {
      ToHexOfOctets(s[2..]);
      PairOfDigits(s[0], s[1]);
      assert Upper(s) == [UpperDigit(s[0]), UpperDigit(s[1])] + Upper(s[2..]);
    }
  }

  // ----- UCS2 --------------------------------------------------------------------------------

  function LowByte(u: CodeUnit): Octet {
    u % 256
  }

  function HighByte(u: CodeUnit): Octet {
    u / 256
  }

  function UnitOf(low: Octet, high: Octet): (u: CodeUnit)
    ensures LowByte(u) == low && HighByte(u) == high
  {
    low + 256 * high
  }

  /** `Buffer.from(text, 'utf16le')`. */
  function Utf16Le(text: Text): (bytes: seq<Octet>)
    ensures |bytes| == 2 * |text|
  {
    if text == [] then [] else [LowByte(text[0]), HighByte(text[0])] + Utf16Le(text[1..])
  }

  /** `buffer.toString('utf16le')`; an odd byte at the end is dropped. */
  function FromUtf16Le(bytes: seq<Octet>): Text {
    if |bytes| < 2 then [] else [UnitOf(bytes[0], bytes[1])] + FromUtf16Le(bytes[2..])
  }

  /** `buffer.swap16()`. */
  function Swap16(bytes: seq<Octet>): (swapped: seq<Octet>)
    requires |bytes| % 2 == 0
    ensures |swapped| == |bytes|
  {
    if bytes == [] then [] else [bytes[1], bytes[0]] + Swap16(bytes[2..])
  }

  function Ucs2Hex(text: Text): string {
    ToHex(Swap16(Utf16Le(text)))
  }

  function Ucs2Decode(hex: string): Text {
    if hex == [] || |hex| % 4 != 0 || !AllHex(hex) then []
    else
      ToHexOfOctets(hex);
      FromUtf16Le(Swap16(OctetsOfHex(hex).value))
  }

  lemma {:induction false} SwapTwice(bytes: seq<Octet>)
    requires |bytes| % 2 == 0
    ensures Swap16(Swap16(bytes)) == bytes
  {
    if bytes != [] {
      var swapped := Swap16(bytes);
      SwapTwice(bytes[2..]);
      assert swapped[2..] == Swap16(bytes[2..]);
    }
  }

  lemma {:induction false} FromUtf16LeOfText(text: Text)
    ensures FromUtf16Le(Utf16Le(text)) == text
  {
    if text != [] {
      FromUtf16LeOfText(text[1..]);
      assert Utf16Le(text)[2..] == Utf16Le(text[1..]);
    }
  }

  lemma {:induction false} Utf16LeOfBytes(bytes: seq<Octet>)
    requires |bytes| % 2 == 0
    ensures Utf16Le(FromUtf16Le(bytes)) == bytes
  {
    if bytes != [] {
      Utf16LeOfBytes(bytes[2..]);
      assert FromUtf16Le(bytes)[1..] == FromUtf16Le(bytes[2..]);
    }
  }

  lemma {:induction false} ToHexIsHex(octets: seq<Octet>)
    ensures AllHex(ToHex(octets))
  {
    if octets != [] {
      ToHexIsHex(octets[1..]);
      HexPairOfOctet(octets[0]);
    }
  }

  /** Decoding undoes encoding on every string, lone surrogates included. */
  lemma Ucs2DecodeOfHex(text: Text)
    ensures Ucs2Decode(Ucs2Hex(text)) == text
  {
    hide Utf16Le, FromUtf16Le, Swap16, ToHex, OctetsOfHex, IsHexDigit;
    var bytes := Utf16Le(text);
    ToHexIsHex(Swap16(bytes));
    OctetsOfToHex(Swap16(bytes));
    SwapTwice(bytes);
    FromUtf16LeOfText(text);
  }

  /** Encoding undoes decoding on every string of whole code units, up to letter case. */
  lemma Ucs2HexOfDecode(hex: string)
    requires AllHex(hex) && |hex| % 4 == 0
    ensures Ucs2Hex(Ucs2Decode(hex)) == Upper(hex)
  {
    hide FromUtf16Le, Swap16, ToHex, OctetsOfHex, IsHexDigit, UpperDigit;
    ToHexOfOctets(hex);
    var bytes := OctetsOfHex(hex).value;
    SwapTwice(bytes);
    Utf16LeOfBytes(Swap16(bytes));
    NothingInUcs2();
  }

  lemma NothingInUcs2()
    ensures Utf16Le([]) == [] && Swap16([]) == [] && ToHex([]) == []
  {
  }

  lemma DigitsAreThese(n: nat)
    requires n < 16
    ensures HexDigit(n) == "0123456789ABCDEF"[n]
  {
  }

  lemma UnitInHex(u: CodeUnit, rest: Text)
    ensures Ucs2Hex([u] + rest) ==
            [HexDigit(u / 4096), HexDigit(u / 256 % 16), HexDigit(u / 16 % 16), HexDigit(u % 16)] + Ucs2Hex(rest)
  {
    hide HexPair, HexDigit;
    var low, high := LowByte(u), HighByte(u);
    var bytes := Utf16Le([u] + rest);
    assert ([u] + rest)[1..] == rest;
    assert bytes == [low, high] + Utf16Le(rest) && bytes[2..] == Utf16Le(rest);
    var swapped := Swap16(bytes);
    assert swapped == [high, low] + Swap16(Utf16Le(rest));
    assert swapped[1..] == [low] + Swap16(Utf16Le(rest)) && swapped[1..][1..] == Swap16(Utf16Le(rest));
    HexPairOfOctet(high);
    HexPairOfOctet(low);
    UnitNibbles(u);
    ToHexConcat([high] + [low], Swap16(Utf16Le(rest)));
    ToHexConcat([high], [low]);
    assert [high] + [low] == [high, low];
    assert ToHex([high]) == HexPair(high) + [] && ToHex([low]) == HexPair(low) + [];
  }

  lemma UnitNibbles(u: CodeUnit)
    ensures HighByte(u) / 16 == u / 4096 && HighByte(u) % 16 == u / 256 % 16
    ensures LowByte(u) / 16 == u / 16 % 16 && LowByte(u) % 16 == u % 16
  {
    var a, b, c, d := u / 4096, u / 256 % 16, u / 16 % 16, u % 16;
    assert u / 256 == 16 * a + b && u / 16 == 16 * (16 * a + b) + c && u == 16 * (16 * (16 * a + b) + c) + d;
    assert u == 256 * (16 * a + b) + (16 * c + d);
  }

  /** The text of a code unit is its four hexadecimal digits, the most significant first. */
  lemma {:induction false} Ucs2HexIsPositional(text: Text, i: nat)
    requires i < |text|
    ensures |Ucs2Hex(text)| == 4 * |text|
    ensures var u, digits := text[i], "0123456789ABCDEF";
            Ucs2Hex(text)[4 * i..4 * i + 4] ==
            [digits[u / 4096], digits[u / 256 % 16], digits[u / 16 % 16], digits[u % 16]]
  {
    hide Ucs2Hex, HexDigit;
    var u, rest := text[0], text[1..];
    assert text == [u] + rest;
    UnitInHex(u, rest);
    HexSize(rest);
    if i == 0 {
      DigitsAreThese(u / 4096);
      DigitsAreThese(u / 256 % 16);
      DigitsAreThese(u / 16 % 16);
      DigitsAreThese(u % 16);
    } else {
      Ucs2HexIsPositional(rest, i - 1);
      assert Ucs2Hex(text)[4..][4 * (i - 1)..4 * (i - 1) + 4] == Ucs2Hex(text)[4 * i..4 * i + 4];
    }
  }

  lemma HexSize(text: Text)
    ensures |Ucs2Hex(text)| == 4 * |text|
  {
  }
}
