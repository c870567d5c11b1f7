/**
  Bit strings, least significant bit first, and the numbers they denote. The packing rules of
  3GPP TS 23.038 section 6.1.2.1 are about such bit strings.
 */
module Bits {

  type Bit = b: nat | b < 2

  function Pow2(n: nat): (p: nat)
    ensures p > 0
  {
    if n == 0 then 1 else 2 * Pow2(n - 1)
  }

  /** Bit `i` of `x`. */
  function BitAt(x: nat, i: nat): Bit {
    if i == 0 then x % 2 else BitAt(x / 2, i - 1)
  }

  /** The `n` low bits of `x`, least significant first. */
  function BitsOf(x: nat, n: nat): seq<Bit> {
    seq(n, i requires 0 <= i => BitAt(x, i))
  }

  /** The number a bit string denotes. */
  function Value(bits: seq<Bit>): nat {
    if bits == [] then 0 else bits[0] + 2 * Value(bits[1..])
  }

  function Zeros(n: nat): seq<Bit> {
    seq(n, _ => 0)
  }

  /** The concatenation of the `width`-bit strings of all `digits`. */
  function Stream(digits: seq<nat>, width: nat): (bits: seq<Bit>)
    ensures |bits| == |digits| * width
  {
    if digits == [] then [] else BitsOf(digits[0], width) + Stream(digits[1..], width)
  }

  /** The number whose base-2^width digits, least significant first, are `digits`. */
  function Number(digits: seq<nat>, width: nat): nat {
    if digits == [] then 0 else digits[0] + Pow2(width) * Number(digits[1..], width)
  }

  lemma {:induction false} Pow2Sum(a: nat, b: nat)
    ensures Pow2(a + b) == Pow2(a) * Pow2(b)
  {
    if a > 0 {
      Pow2Sum(a - 1, b);
    }
  }

  /** Reading back the bits of a number that fits gives the number. */
  lemma {:induction false} ValueOfBits(x: nat, n: nat)
    requires x < Pow2(n)
    ensures Value(BitsOf(x, n)) == x
  {
    if n > 0 {
      ValueOfBits(x / 2, n - 1);
      assert BitsOf(x, n)[1..] == BitsOf(x / 2, n - 1);
    }
  }

  lemma {:induction false} BitsOfValue(bits: seq<Bit>)
    ensures Value(bits) < Pow2(|bits|)
    ensures BitsOf(Value(bits), |bits|) == bits
  {
    if bits != [] {
      BitsOfValue(bits[1..]);
      var n := |bits| - 1;
      forall i | 0 <= i < |bits|
        ensures BitsOf(Value(bits), |bits|)[i] == bits[i]
      {
        if i > 0 {
          assert bits[i] == bits[1..][i - 1] == BitsOf(Value(bits[1..]), n)[i - 1];
        }
      }
    }
  }

  lemma {:induction false} ValueConcat(a: seq<Bit>, b: seq<Bit>)
    ensures Value(a + b) == Value(a) + Pow2(|a|) * Value(b)
  {
    if a == [] {
      assert a + b == b;
    } else {
      assert (a + b)[1..] == a[1..] + b;
      ValueConcat(a[1..], b);
    }
  }

  lemma {:induction false} ValueOfZeros(n: nat)
    ensures Value(Zeros(n)) == 0
  {
    if n > 0 {
      ValueOfZeros(n - 1);
      assert Zeros(n)[1..] == Zeros(n - 1);
    }
  }

  lemma {:induction false} BitOfZero(i: nat)
    ensures BitAt(0, i) == 0
  {
    if i > 0 {
      BitOfZero(i - 1);
    }
  }

  lemma BitsOfZero(n: nat)
    ensures BitsOf(0, n) == Zeros(n)
  {
    forall i | 0 <= i < n
      ensures BitsOf(0, n)[i] == 0
    {
      BitOfZero(i);
    }
  }

  /** Bits of a number `high` placed above an `n`-bit number `low`. */
  lemma {:induction false} BitOfJoined(low: nat, high: nat, n: nat, i: nat)
    requires low < Pow2(n)
    ensures BitAt(low + high * Pow2(n), i) == if i < n then BitAt(low, i) else BitAt(high, i - n)
  {
    if n > 0 {
      HalfOfJoined(low, high, Pow2(n - 1));
      if i > 0 {
        BitOfJoined(low / 2, high, n - 1, i - 1);
      }
    }
  }

  lemma BitsOfJoined(low: nat, high: nat, n: nat, m: nat)
    requires low < Pow2(n)
    ensures BitsOf(low + high * Pow2(n), n + m) == BitsOf(low, n) + BitsOf(high, m)
  {
    forall i | 0 <= i < n + m
      ensures BitsOf(low + high * Pow2(n), n + m)[i] == (BitsOf(low, n) + BitsOf(high, m))[i]
    {
      BitOfJoined(low, high, n, i);
    }
  }

  lemma HalfOfJoined(low: nat, high: nat, p: nat)
    ensures (low + high * (2 * p)) % 2 == low % 2
    ensures (low + high * (2 * p)) / 2 == low / 2 + high * p
  {
    var h := high * p;
    assert high * (2 * p) == 2 * h;
  }

  lemma {:induction false} StreamConcat(a: seq<nat>, b: seq<nat>, width: nat)
    ensures Stream(a + b, width) == Stream(a, width) + Stream(b, width)
  {
    if a == [] {
      assert a + b == b;
    } else {
      assert (a + b)[1..] == a[1..] + b;
      StreamConcat(a[1..], b, width);
    }
  }

  /** The bit string of a digit sequence denotes the number those digits denote. */
  lemma {:induction false} ValueOfStream(digits: seq<nat>, width: nat)
    requires forall i :: 0 <= i < |digits| ==> digits[i] < Pow2(width)
    ensures Value(Stream(digits, width)) == Number(digits, width)
  {
    if digits != [] {
      ValueOfStream(digits[1..], width);
      ValueOfBits(digits[0], width);
      ValueConcat(BitsOf(digits[0], width), Stream(digits[1..], width));
    }
  }

  /** The `k`-th digit occupies bits `width*k` up to `width*(k+1)` of the stream. */
  lemma {:induction false} StreamDigit(digits: seq<nat>, width: nat, k: nat)
    requires k < |digits|
    ensures k * width + width <= |digits| * width
    ensures Stream(digits, width)[k * width..k * width + width] == BitsOf(digits[k], width)
  {
    assert digits == digits[..k] + ([digits[k]] + digits[k + 1..]);
    StreamConcat(digits[..k], [digits[k]] + digits[k + 1..], width);
    StreamConcat([digits[k]], digits[k + 1..], width);
    assert Stream([digits[k]], width) == BitsOf(digits[k], width);
    assert |digits| * width == k * width + width + (|digits| - k - 1) * width;
  }
}
