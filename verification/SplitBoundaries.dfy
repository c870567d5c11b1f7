/**
  Inputs on the edge of the length rules of utils/sms-encoding.js: messages no longer than the
  reported `maxLength` that are refused all the same, and what lone surrogates do to the count.
 */
module SplitBoundaries {
  import opened Utf16
  import opened Gsm7
  import opened SmsEncoding
  import opened Splitting

  function Filler(n: nat): Text {
    seq(n, _ => 0x61)
  }

  lemma LetterAndCaret()
    ensures UnitCost(0x61).Some? && Cost(0x61) == 1
    ensures UnitCost(0x5E).Some? && Cost(0x5E) == 2
  {
    assert Gsm7Basic(96) == 0x61;
    forall i | 0 <= i < GSM7_BASIC_SIZE
      ensures Gsm7Basic(i) != 0x5E
    {
      NotACaret(i);
    }
  }

  lemma NotACaret(i: nat)
    requires i < GSM7_BASIC_SIZE
    ensures Gsm7Basic(i) != 0x5E
  {
  }

  lemma {:induction false} FillerCount(n: nat)
    ensures SeptetCount(Filler(n)) == n && IsGsm7(Filler(n))
  {
    LetterAndCaret();
    hide UnitCost, Cost;
    if n > 0 {
      FillerCount(n - 1);
      assert Filler(n)[1..] == Filler(n - 1);
    }
  }

  /** A caret costs two septets and is followed by `n` letters. */
  function CaretBlock(n: nat): Text {
    [0x5E] + Filler(n)
  }

  lemma CaretBlockCount(n: nat)
    ensures SeptetCount(CaretBlock(n)) == n + 2 && IsGsm7(CaretBlock(n))
  {
    LetterAndCaret();
    FillerCount(n);
    hide UnitCost, Cost;
    assert CaretBlock(n)[1..] == Filler(n);
  }

  /** 458 septets in which each of the first three parts must end one septet early. */
  function Unlucky(): Text {
    Filler(152) + (CaretBlock(150) + (CaretBlock(150) + CaretBlock(0)))
  }

  lemma FillerStarts(n: nat)
    requires n > 0
    ensures Filler(n) != []
  {
    assert |Filler(n)| == n;
  }

  /** A part of 152 septets cannot take the caret that follows. */
  lemma CaretDoesNotFit(part: Text, rest: Text)
    requires part != [] && SeptetCount(part) == 152 && IsGsm7(part)
    requires rest != [] && rest[0] == 0x5E && IsGsm7(rest)
    ensures |Gsm7Parts(part + rest)| == 1 + |Gsm7Parts(rest)|
    ensures SeptetCount(part + rest) == 152 + SeptetCount(rest) && IsGsm7(part + rest)
  {
    LetterAndCaret();
    hide UnitCost, Cost, SeptetCount, Gsm7Parts;
    SeptetCountConcat(part, rest);
    FirstPart(part, rest);
  }

  lemma LastPart(part: Text)
    requires part != [] && SeptetCount(part) <= GSM7_PER_SEGMENT
    ensures |Gsm7Parts(part)| == 1
  {
    hide UnitCost, Cost, SeptetCount, Gsm7Parts;
    NoParts();
    FirstPart(part, []);
    assert part + [] == part;
  }

  lemma UnluckyParts()
    ensures |Gsm7Parts(Unlucky())| == 4
    ensures SeptetCount(Unlucky()) == 458 && IsGsm7(Unlucky())
  {
    hide UnitCost, Cost, SeptetCount, Gsm7Parts, Filler, IsGsm7;
    var block, last := CaretBlock(150), CaretBlock(0);
    CaretBlockCount(150);
    CaretBlockCount(0);
    LastPart(last);
    CaretDoesNotFit(block, last);
    CaretDoesNotFit(block, block + last);
    FillerCount(152);
    FillerStarts(152);
    CaretDoesNotFit(Filler(152), block + (block + last));
  }

  /** Being within `maxLength` is not enough: 458 septets can need four parts. */
  lemma MaxLengthIsNoGuarantee()
    ensures var info := Analyze(Unlucky());
            info.encoding == Gsm && info.length == 458 < info.maxLength && !info.ok
  {
    hide UnitCost, SeptetCount, Gsm7Parts, Unlucky;
    UnluckyParts();
  }

  // ----- UCS2 ------------------------------------------------------------------------------------

  /** Letters with three surrogate pairs, each across the end of a full part. */
  function Straddling(): Text {
    seq(200, i => if i == 66 || i == 132 || i == 198 then 0xD83D
                  else if i == 67 || i == 133 || i == 199 then 0xDE00
                  else 0x44F)
  }

  lemma HighIsNotGsm7(text: Text, i: nat)
    requires i < |text| && IsHighSurrogate(text[i])
    ensures !IsGsm7(text)
  {
    hide UnitCost;
    SurrogatesAreNotGsm7(text[i]);
  }

  lemma Ucs2MaxLengthIsNoGuarantee()
    ensures HighsArePaired(Straddling())
    ensures var info := Analyze(Straddling());
            info.encoding == Ucs2 && info.length == 200 < info.maxLength && !info.ok
  {
    hide UnitCost, Ucs2Parts;
    var text := Straddling();
    assert |text| == 200 && text[66] == 0xD83D && text[132] == 0xD83D;
    HighIsNotGsm7(text, 66);
    Ucs2PartsAtTheLimit(text);
  }

  /** 201 high surrogates, none of them completed. */
  function Broken(): Text {
    seq(201, _ => 0xD83D)
  }

  /**
    On malformed text the split is not minimal: three parts of 67 units would cut no pair, but
    the analysis counts four and refuses the message.
   */
  lemma MalformedTextIsNotMinimal()
    ensures !HighsArePaired(Broken()) && !Analyze(Broken()).ok
    ensures Ucs2Sendable(Broken()) && Spoiled(Broken())
  {
    hide UnitCost, Ucs2Parts, Ucs2Sendable;
    var text := Broken();
    HighIsNotGsm7(text, 0);
    Ucs2PartsAtTheLimit(text);
    assert IsHighSurrogate(text[200]);
    CutsMakeATransmission(text, 67, 134);
  }
}
