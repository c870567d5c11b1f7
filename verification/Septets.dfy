/**
  Packing of 7-bit septets into octets behind a number of fill bits (utils/pdu.js, `packSeptets`),
  and the receiver of 3GPP TS 23.038 section 6.1.2.1 that unpacks them.
 */
module Septets {
  import opened Wrappers
  import opened Bits

  type Octet = o: nat | o < 256
  type Septet = s: nat | s < 128

  /** JavaScript's `|` on non-negative integers. */
  function BitOr(a: nat, b: nat): nat
    decreases a + b
  {
    if a == 0 then b
    else if b == 0 then a
    else (if a % 2 == 1 || b % 2 == 1 then 1 else 0) + 2 * BitOr(a / 2, b / 2)
  }

  /** JavaScript's `<<` on non-negative integers that stay below 2^31. */
  function ShiftLeft(x: nat, n: nat): nat {
    x * Pow2(n)
  }

  /** Cuts a bit string into octets; the last one may be incomplete, its missing high bits are 0. */
  function Octets(bits: seq<Bit>): (octets: seq<nat>)
    ensures |octets| == (|bits| + 7) / 8
  {
    if bits == [] then []
    else if |bits| <= 8 then [Value(bits)]
    else [Value(bits[..8])] + Octets(bits[8..])
  }

  /** What packing means: `fill` zero bits, then every septet, least significant bit first. */
  function Packed(septets: seq<Septet>, fill: nat): seq<nat> {
    Octets(Zeros(fill) + Stream(septets, 7))
  }

  /** The receiver: septet `k` is the 7 bits from position `fill + 7k` of the octets' bit string. */
  function Unpack(octets: seq<Octet>, count: nat, fill: nat): Option<seq<nat>> {
    var bits := Stream(octets, 8);
    if fill + 7 * count > |bits| then None
    else Some(seq(count, k requires 0 <= k < count => Value(bits[fill + 7 * k..fill + 7 * k + 7])))
  }

  /** The bit string the loop of `PackSeptets` has before it: octets done, bits held, septets left. */
  ghost function InFlight(out: seq<nat>, acc: nat, accBits: nat, rest: seq<Septet>): seq<Bit> {
    Stream(out, 8) + BitsOf(acc, accBits) + Stream(rest, 7)
  }

  method PackSeptets(septets: seq<Septet>, fillBits: nat) returns (out: seq<Octet>)
    requires fillBits < 8
    ensures out == Packed(septets, fillBits)
  {
    out := [];
    var acc: nat := 0;
    var accBits := fillBits;
    ghost var all := InFlight(out, acc, accBits, septets);
    NothingHeld(septets, fillBits);
    for k := 0 to |septets|
      invariant accBits < 8 && acc < Pow2(accBits)
      invariant all == InFlight(out, acc, accBits, septets[k..])
    {
      HoldSeptet(out, acc, accBits, septets[k..]);
      acc := BitOr(acc, ShiftLeft(septets[k], accBits));
      accBits := accBits + 7;
      while accBits >= 8
        invariant accBits < 16 && acc < Pow2(accBits)
        invariant all == InFlight(out, acc, accBits, septets[k + 1..])
      {
        EmitOctet(out, acc, accBits, septets[k + 1..]);
        out := out + [acc % 256];
        acc := acc / 256;
        accBits := accBits - 8;
      }
    }
    LastOctet(out, acc, accBits);
    if accBits > 0 {
      out := out + [acc % 256];
    }
  }

  lemma NothingHeld(septets: seq<Septet>, fill: nat)
    ensures InFlight([], 0, fill, septets) == Zeros(fill) + Stream(septets, 7)
  {
    BitsOfZero(fill);
  }

  /** What is left in the accumulator at the end becomes the last octet. */
  lemma LastOctet(out: seq<Octet>, acc: nat, n: nat)
    requires n < 8 && acc < Pow2(n)
    ensures Octets(InFlight(out, acc, n, [])) == if n > 0 then out + [acc % 256] else out
  {
    HeldOctet(acc, n);
    OctetsOfStream(out, BitsOf(acc, n));
    assert InFlight(out, acc, n, []) == Stream(out, 8) + BitsOf(acc, n);
  }

  lemma HeldOctet(acc: nat, n: nat)
    requires n < 8 && acc < Pow2(n)
    ensures Octets(BitsOf(acc, n)) == if n > 0 then [acc % 256] else []
  {
    if n > 0 {
      ValueOfBits(acc, n);
      PowMonotone(n, 8);
      SmallPowers();
    }
  }

  /** One septet moves from the input into the accumulator; 14 bits always suffice for that. */
  lemma HoldSeptet(out: seq<nat>, acc: nat, n: nat, rest: seq<Septet>)
    requires rest != [] && acc < Pow2(n)
    ensures BitOr(acc, ShiftLeft(rest[0], n)) < Pow2(n + 7)
    ensures InFlight(out, acc, n, rest) == InFlight(out, BitOr(acc, ShiftLeft(rest[0], n)), n + 7, rest[1..])
  {
    OrAboveIsSum(acc, rest[0], n);
    JoinFits(acc, rest[0], n);
    BitsOfJoined(acc, rest[0], n, 7);
    var low, high, tail := BitsOf(acc, n), BitsOf(rest[0], 7), Stream(rest[1..], 7);
    assert Stream(rest, 7) == high + tail;
    assert Stream(out, 8) + low + (high + tail) == Stream(out, 8) + (low + high) + tail;
  }

  /** The eight low bits of the accumulator leave as an octet. */
  lemma EmitOctet(out: seq<nat>, acc: nat, n: nat, rest: seq<Septet>)
    requires 8 <= n && acc < Pow2(n)
    ensures acc / 256 < Pow2(n - 8)
    ensures InFlight(out, acc, n, rest) == InFlight(out + [acc % 256], acc / 256, n - 8, rest)
  {
    TakeOctet(acc, n);
    StreamConcat(out, [acc % 256], 8);
    var low, high, tail := BitsOf(acc % 256, 8), BitsOf(acc / 256, n - 8), Stream(rest, 7);
    assert Stream([acc % 256], 8) == low;
    assert Stream(out, 8) + (low + high) + tail == Stream(out, 8) + low + high + tail;
  }

  // ----- The bit operations of the loop ------------------------------------------------------

  lemma SmallPowers()
    ensures Pow2(7) == 128 && Pow2(8) == 256
  {
    assert Pow2(4) == 16;
  }

  lemma {:induction false} PowMonotone(a: nat, b: nat)
    requires a <= b
    ensures Pow2(a) <= Pow2(b)
  {
    if a < b {
      PowMonotone(a, b - 1);
    }
  }

  /** Or-ing in a number shifted above all set bits adds it. */
  lemma {:induction false} OrAboveIsSum(low: nat, high: nat, n: nat)
    requires low < Pow2(n)
    ensures BitOr(low, ShiftLeft(high, n)) == low + high * Pow2(n)
  {
    if n > 0 && low > 0 && high > 0 {
      var p := Pow2(n - 1);
      HalfOfJoined(0, high, p);
      assert high * Pow2(n) == high * (2 * p);
      assert high * Pow2(n) > 0;
      OrAboveIsSum(low / 2, high, n - 1);
    }
  }

  lemma JoinFits(low: nat, s: Septet, n: nat)
    requires low < Pow2(n)
    ensures low + s * Pow2(n) < Pow2(n + 7)
  {
    SmallPowers();
    Pow2Sum(n, 7);
    assert s * Pow2(n) <= 127 * Pow2(n);
  }

  lemma TakeOctet(acc: nat, n: nat)
    requires 8 <= n && acc < Pow2(n)
    ensures BitsOf(acc, n) == BitsOf(acc % 256, 8) + BitsOf(acc / 256, n - 8)
    ensures acc / 256 < Pow2(n - 8)
  {
    SmallPowers();
    Pow2Sum(8, n - 8);
    BitsOfJoined(acc % 256, acc / 256, 8, n - 8);
  }

  // ----- What packing does -------------------------------------------------------------------

  lemma OctetsStep(first: seq<Bit>, rest: seq<Bit>)
    requires |first| == 8
    ensures Octets(first + rest) == [Value(first)] + Octets(rest)
  {
    if rest == [] {
      assert first + rest == first;
    } else {
      assert (first + rest)[..8] == first && (first + rest)[8..] == rest;
    }
  }

  lemma {:induction false} OctetsOfStream(octets: seq<nat>, tail: seq<Bit>)
    requires forall i :: 0 <= i < |octets| ==> octets[i] < 256
    ensures Octets(Stream(octets, 8) + tail) == octets + Octets(tail)
  {
    hide BitsOf, Octets, Value;
    if octets == [] {
      assert Stream(octets, 8) + tail == tail;
    } else {
      var first, rest := BitsOf(octets[0], 8), Stream(octets[1..], 8);
      assert Stream(octets, 8) + tail == first + (rest + tail);
      SmallPowers();
      ValueOfBits(octets[0], 8);
      OctetsOfStream(octets[1..], tail);
      OctetsStep(first, rest + tail);
    }
  }

  lemma ShortStream(bits: seq<Bit>)
    requires 0 < |bits| <= 8
    ensures Value(bits) < 256
    ensures BitsOf(Value(bits), 8) == bits + Zeros(8 - |bits|)
  {
    var pad := 8 - |bits|;
    ValuePadded(bits, pad);
    BitsOfValue(bits + Zeros(pad));
    SmallPowers();
  }

  /** Cutting a bit string into octets loses nothing: only zero bits are added at the end. */
  lemma {:induction false} StreamOfOctets(bits: seq<Bit>)
    ensures forall i :: 0 <= i < |Octets(bits)| ==> Octets(bits)[i] < 256
    ensures Stream(Octets(bits), 8) == bits + Zeros(8 * |Octets(bits)| - |bits|)
  {
    if bits == [] {
    } else if |bits| <= 8 {
      ShortStream(bits);
      assert Stream([Value(bits)], 8) == BitsOf(Value(bits), 8);
    } else {
      ShortStream(bits[..8]);
      StreamOfOctets(bits[8..]);
      StreamConcat([Value(bits[..8])], Octets(bits[8..]), 8);
      assert Stream([Value(bits[..8])], 8) == bits[..8];
    }
  }

  lemma ValuePadded(bits: seq<Bit>, n: nat)
    ensures Value(bits + Zeros(n)) == Value(bits)
  {
    ValueConcat(bits, Zeros(n));
    ValueOfZeros(n);
  }

  lemma ValueBehindFill(fill: nat, bits: seq<Bit>)
    ensures Value(Zeros(fill) + bits) == Pow2(fill) * Value(bits)
  {
    ValueConcat(Zeros(fill), bits);
    ValueOfZeros(fill);
  }

  /** Packing is a base conversion, and its octet count is the packed bit count rounded up. */
  lemma PackedIsBaseConversion(septets: seq<Septet>, fill: nat)
    ensures Number(Packed(septets, fill), 8) == Pow2(fill) * Number(septets, 7)
    ensures |Packed(septets, fill)| == (fill + 7 * |septets| + 7) / 8
    ensures forall i :: 0 <= i < |Packed(septets, fill)| ==> Packed(septets, fill)[i] < 256
  {
    var body := Stream(septets, 7);
    var bits := Zeros(fill) + body;
    var octets := Octets(bits);
    var pad := 8 * |octets| - |bits|;
    StreamOfOctets(bits);
    calc {
      Number(octets, 8);
      { SmallPowers(); ValueOfStream(octets, 8); }
      Value(bits + Zeros(pad));
      { ValuePadded(bits, pad); ValueBehindFill(fill, body); }
      Pow2(fill) * Value(body);
      { SmallPowers(); ValueOfStream(septets, 7); }
      Pow2(fill) * Number(septets, 7);
    }
  }

  lemma PackedSeptet(septets: seq<Septet>, fill: nat, k: nat)
    requires k < |septets|
    ensures var stream := Stream(Packed(septets, fill), 8);
            fill + 7 * k + 7 <= |stream| && Value(stream[fill + 7 * k..fill + 7 * k + 7]) == septets[k]
  {
    var body := Stream(septets, 7);
    var bits := Zeros(fill) + body;
    StreamOfOctets(bits);
    StreamDigit(septets, 7, k);
    var at := 7 * k;
    assert (bits + Zeros(8 * |Octets(bits)| - |bits|))[fill + at..fill + at + 7] == body[at..at + 7];
    SmallPowers();
    ValueOfBits(septets[k], 7);
  }

  /** The receiver recovers exactly the septets that were packed. */
  lemma UnpackPacked(septets: seq<Septet>, fill: nat)
    ensures forall i :: 0 <= i < |Packed(septets, fill)| ==> Packed(septets, fill)[i] < 256
    ensures Unpack(Packed(septets, fill), |septets|, fill) == Some(septets)
  {
    PackedIsBaseConversion(septets, fill);
    forall k | 0 <= k < |septets|
      ensures Value(Stream(Packed(septets, fill), 8)[fill + 7 * k..fill + 7 * k + 7]) == septets[k]
    {
      PackedSeptet(septets, fill, k);
    }
    var read := Unpack(Packed(septets, fill), |septets|, fill);
    assert read.Some? && |read.value| == |septets|;
    assert read.value == septets;
  }
}
