/**
  What the greedy splits of utils/sms-encoding.js achieve: nothing is lost, every part fits, no
  split has fewer parts, and the analysis counts exactly the parts that are sent.
 */
module Splitting {
  import opened Utf16
  import opened SmsEncoding

  // ----- The parts are the message, and they fit -----------------------------------------------

  lemma {:induction false} TakeFits(text: Text, budget: nat)
    ensures var n := Gsm7Take(text, budget);
            && SeptetCount(text[..n]) <= budget
            && (n < |text| ==> SeptetCount(text[..n]) + Cost(text[n]) > budget)
  {
    hide UnitCost;
    if text != [] && Cost(text[0]) <= budget {
      var n := Gsm7Take(text[1..], budget - Cost(text[0]));
      TakeFits(text[1..], budget - Cost(text[0]));
      assert text[..n + 1][1..] == text[1..][..n];
    }
  }

  lemma {:induction false} Gsm7PartsAreTheMessage(text: Text)
    ensures var parts := Gsm7Parts(text);
            && Join(parts) == text
            && forall i :: 0 <= i < |parts| ==> parts[i] != [] && SeptetCount(parts[i]) <= GSM7_PER_SEGMENT
    decreases |text|
  {
    hide UnitCost;
    if text != [] {
      var n := Gsm7Take(text, GSM7_PER_SEGMENT);
      TakeFits(text, GSM7_PER_SEGMENT);
      Gsm7PartsAreTheMessage(text[n..]);
      assert text[..n] + text[n..] == text;
    }
  }

  lemma {:induction false} Ucs2PartsAreTheMessage(text: Text)
    ensures var parts := Ucs2Parts(text);
            && Join(parts) == text
            && forall i :: 0 <= i < |parts| ==> 0 < |parts[i]| <= UCS2_PER_SEGMENT
    decreases |text|
  {
    if text != [] {
      var n := Ucs2End(text);
      Ucs2PartsAreTheMessage(text[n..]);
      assert text[..n] + text[n..] == text;
    }
  }

  // ----- No split has fewer parts --------------------------------------------------------------

  /** A way to send a GSM-7 text: whole in one SMS, or in concatenated parts of 153 septets. */
  predicate Gsm7Transmission(pieces: seq<Text>, text: Text) {
    && Join(pieces) == text
    && ((|pieces| == 1 && SeptetCount(text) <= GSM7_SINGLE) ||
        (forall i :: 0 <= i < |pieces| ==> SeptetCount(pieces[i]) <= GSM7_PER_SEGMENT))
  }

  lemma {:induction false} JoinAt(pieces: seq<Text>)
    requires pieces != []
    ensures Join(pieces)[..|pieces[0]|] == pieces[0] && Join(pieces)[|pieces[0]|..] == Join(pieces[1..])
  {
  }

  lemma {:induction false} TakeIsLongest(text: Text, budget: nat, n: nat)
    requires n <= |text| && SeptetCount(text[..n]) <= budget
    ensures n <= Gsm7Take(text, budget)
  {
    hide UnitCost;
    if n > 0 {
      assert text[..n][1..] == text[1..][..n - 1];
      TakeIsLongest(text[1..], budget - Cost(text[0]), n - 1);
    }
  }

  /** A piece that fits contains the next greedy part's worth: greedy is never behind. */
  lemma {:induction false} Gsm7GreedyStaysAhead(pieces: seq<Text>, text: Text, from: nat)
    requires Join(pieces) == text && from <= |text|
    requires forall i :: 0 <= i < |pieces| ==> SeptetCount(pieces[i]) <= GSM7_PER_SEGMENT
    ensures |Gsm7Parts(text[from..])| <= |pieces|
    decreases |pieces|
  {
    hide UnitCost, Gsm7Take;
    if from < |text| {
      var piece, rest, left := pieces[0], Join(pieces[1..]), text[from..];
      JoinAt(pieces);
      if |piece| <= from {
        assert left == rest[from - |piece|..];
        Gsm7GreedyStaysAhead(pieces[1..], rest, from - |piece|);
      } else {
        var n, k := Gsm7Take(left, GSM7_PER_SEGMENT), |piece| - from;
        assert piece == piece[..from] + left[..k];
        SeptetCountConcat(piece[..from], left[..k]);
        TakeIsLongest(left, GSM7_PER_SEGMENT, k);
        assert left[n..] == rest[n - k..];
        Gsm7GreedyStaysAhead(pieces[1..], rest, n - k);
        assert Gsm7Parts(left) == [left[..n]] + Gsm7Parts(left[n..]);
      }
    }
  }

  /** The analysis of a GSM-7 text is right about the smallest possible number of SMS. */
  lemma Gsm7SegmentsAreMinimal(text: Text, pieces: seq<Text>)
    requires IsGsm7(text) && Gsm7Transmission(pieces, text)
    ensures Analyze(text).segments <= |pieces| || text == []
  {
    hide UnitCost;
    if SeptetCount(text) <= GSM7_SINGLE {
      if pieces == [] {
        assert text == [];
      }
    } else {
      Gsm7GreedyStaysAhead(pieces, text, 0);
      assert text[0..] == text;
    }
  }

  /** A GSM-7 message is accepted exactly when it can be sent in at most three SMS at all. */
  lemma Gsm7OkIffSendable(text: Text)
    requires IsGsm7(text)
    ensures Analyze(text).ok <==> exists pieces :: Gsm7Transmission(pieces, text) && |pieces| <= MAX_SEGMENTS
  {
    hide UnitCost, Gsm7Parts;
    if Analyze(text).ok {
      Gsm7PartsAreTheMessage(text);
      var pieces := if SeptetCount(text) <= GSM7_SINGLE then [text] else Gsm7Parts(text);
      assert Join([text]) == text + [] == text;
      assert Gsm7Transmission(pieces, text) && |pieces| <= MAX_SEGMENTS;
    }
    forall pieces | Gsm7Transmission(pieces, text) && |pieces| <= MAX_SEGMENTS
      ensures Analyze(text).ok
    {
      Gsm7SegmentsAreMinimal(text, pieces);
    }
  }

  /** No cut of the split falls between the halves of a surrogate pair. */
  predicate KeepsPairs(pieces: seq<Text>) {
    pieces != [] ==>
      && var (piece, rest) := (pieces[0], Join(pieces[1..]));
      && (piece != [] && rest != [] ==> !(IsHighSurrogate(piece[|piece| - 1]) && IsLowSurrogate(rest[0])))
      && KeepsPairs(pieces[1..])
  }

  /** No cut falls behind a high surrogate, whether or not its low surrogate follows. */
  predicate CutsBehindNoHigh(pieces: seq<Text>) {
    pieces != [] ==>
      && (pieces[0] != [] && Join(pieces[1..]) != [] ==> !IsHighSurrogate(pieces[0][|pieces[0]| - 1]))
      && CutsBehindNoHigh(pieces[1..])
  }

  /** A way to send a UCS2 text: whole in one SMS, or in concatenated parts of 67 code units. */
  predicate Ucs2Transmission(pieces: seq<Text>, text: Text) {
    && Join(pieces) == text
    && KeepsPairs(pieces)
    && ((|pieces| == 1 && |text| <= UCS2_SINGLE) ||
        (forall i :: 0 <= i < |pieces| ==> |pieces[i]| <= UCS2_PER_SEGMENT))
  }

  lemma FirstCut(pieces: seq<Text>)
    requires pieces != [] && CutsBehindNoHigh(pieces)
    ensures var (piece, rest) := (pieces[0], Join(pieces[1..]));
            piece != [] && rest != [] ==> !IsHighSurrogate(piece[|piece| - 1])
    ensures CutsBehindNoHigh(pieces[1..])
  {
    hide IsHighSurrogate, Join;
  }

  lemma JoinUnfold(pieces: seq<Text>)
    requires pieces != []
    ensures Join(pieces) == pieces[0] + Join(pieces[1..])
  {
  }

  lemma Ucs2FirstPart(text: Text)
    requires text != []
    ensures |Ucs2Parts(text)| == 1 + |Ucs2Parts(text[Ucs2End(text)..])|
  {
    hide Ucs2End;
  }

  lemma {:induction false} Ucs2GreedyStaysAhead(pieces: seq<Text>, text: Text, from: nat)
    requires Join(pieces) == text && from <= |text| && CutsBehindNoHigh(pieces)
    requires forall i :: 0 <= i < |pieces| ==> |pieces[i]| <= UCS2_PER_SEGMENT
    ensures |Ucs2Parts(text[from..])| <= |pieces|
    decreases |pieces|
  {
    hide Ucs2End, IsHighSurrogate, CutsBehindNoHigh, Ucs2Parts, Join;
    NoParts();
    if from < |text| {
      SomePieces(pieces);
      var piece, rest, left := pieces[0], Join(pieces[1..]), text[from..];
      FirstCut(pieces);
      JoinUnfold(pieces);
      if |piece| <= from {
        assert left == rest[from - |piece|..];
        Ucs2GreedyStaysAhead(pieces[1..], rest, from - |piece|);
      } else {
        var n, k := Ucs2End(left), |piece| - from;
        EndReachesEveryLegalCut(text, from, piece, rest);
        assert left[n..] == rest[n - k..];
        Ucs2GreedyStaysAhead(pieces[1..], rest, n - k);
        Ucs2FirstPart(left);
      }
    }
  }

  lemma SomePieces(pieces: seq<Text>)
    requires Join(pieces) != []
    ensures pieces != []
  {
  }

  lemma EndReachesEveryLegalCut(text: Text, from: nat, piece: Text, rest: Text)
    requires text == piece + rest && from < |piece| <= UCS2_PER_SEGMENT
    requires rest != [] ==> !IsHighSurrogate(piece[|piece| - 1])
    ensures |piece| - from <= Ucs2End(text[from..])
  {
    var left := text[from..];
    assert left[|piece| - from - 1] == text[|piece| - 1] == piece[|piece| - 1];
  }

  lemma SuffixIsPaired(a: Text, b: Text)
    requires HighsArePaired(a + b)
    ensures HighsArePaired(b)
  {
    forall i | 0 <= i < |b| && IsHighSurrogate(b[i])
      ensures i + 1 < |b| && IsLowSurrogate(b[i + 1])
    {
      assert b[i] == (a + b)[|a| + i];
      assert |a| + i + 1 < |a + b| && b[i + 1] == (a + b)[|a| + i + 1];
    }
  }

  /** Where every high surrogate is completed, to cut no pair is to cut behind no high surrogate. */
  lemma {:induction false} PairedCuts(pieces: seq<Text>)
    requires HighsArePaired(Join(pieces)) && KeepsPairs(pieces)
    ensures CutsBehindNoHigh(pieces)
  {
    if pieces != [] {
      var piece, rest := pieces[0], Join(pieces[1..]);
      SuffixIsPaired(piece, rest);
      PairedCuts(pieces[1..]);
      if piece != [] && rest != [] {
        assert Join(pieces)[|piece| - 1] == piece[|piece| - 1] && Join(pieces)[|piece|] == rest[0];
      }
    }
  }

  lemma EndKeepsPairs(text: Text)
    requires text != []
    ensures var n := Ucs2End(text);
            n < |text| ==> !(IsHighSurrogate(text[n - 1]) && IsLowSurrogate(text[n]))
  {
  }

  /** Where the greedy cuts fall: never inside a pair, on any text at all. */
  lemma {:induction false} Ucs2PartsKeepPairs(text: Text)
    ensures KeepsPairs(Ucs2Parts(text))
    decreases |text|
  {
    hide Ucs2End, IsHighSurrogate, IsLowSurrogate;
    if text != [] {
      var n := Ucs2End(text);
      EndKeepsPairs(text);
      Ucs2PartsKeepPairs(text[n..]);
      Ucs2PartsAreTheMessage(text[n..]);
      var parts := Ucs2Parts(text);
      assert parts[0] == text[..n] && parts[1..] == Ucs2Parts(text[n..]);
    }
  }

  /**
    On any text no split that cuts behind no high surrogate has fewer parts; where every high
    surrogate is completed, no split that cuts no pair has.
   */
  lemma Ucs2SplitIsMinimal(text: Text, pieces: seq<Text>)
    requires Join(pieces) == text && (CutsBehindNoHigh(pieces) || (HighsArePaired(text) && KeepsPairs(pieces)))
    requires forall i :: 0 <= i < |pieces| ==> |pieces[i]| <= UCS2_PER_SEGMENT
    ensures |Ucs2Parts(text)| <= |pieces|
  {
    hide Ucs2Parts, CutsBehindNoHigh, KeepsPairs, HighsArePaired;
    if !CutsBehindNoHigh(pieces) {
      PairedCuts(pieces);
    }
    Ucs2GreedyStaysAhead(pieces, text, 0);
    assert text[0..] == text;
  }

  // ----- Which UCS2 texts are sendable -----------------------------------------------------------

  predicate LegalCut(text: Text, c: nat) {
    0 < c < |text| ==> !(IsHighSurrogate(text[c - 1]) && IsLowSurrogate(text[c]))
  }

  ghost predicate Ucs2Sendable(text: Text) {
    exists pieces :: Ucs2Transmission(pieces, text) && |pieces| <= MAX_SEGMENTS
  }

  /**
    The split backs off before a high surrogate at the end of a full part. It does so also where no
    low surrogate follows; these are the texts on which that costs a fourth part for nothing.
   */
  predicate Spoiled(text: Text) {
    if |text| == 201 then
      (IsHighSurrogate(text[66]) || IsHighSurrogate(text[133])) && LegalCut(text, 67) && LegalCut(text, 134)
    else if |text| == 200 then
      && IsHighSurrogate(text[66]) && IsHighSurrogate(text[132])
      && ((LegalCut(text, 66) && LegalCut(text, 133)) || (LegalCut(text, 67) && LegalCut(text, 133)) ||
          (LegalCut(text, 67) && LegalCut(text, 134)))
    else false
  }

  /** The first part of a text that needs several. */
  lemma Ucs2PartsUnfold(text: Text)
    requires |text| > UCS2_PER_SEGMENT
    ensures |Ucs2Parts(text)| ==
            1 + |Ucs2Parts(text[if IsHighSurrogate(text[UCS2_PER_SEGMENT - 1]) then 66 else 67..])|
  {
  }

  lemma Ucs2OnePart(text: Text)
    requires 0 < |text| <= UCS2_PER_SEGMENT
    ensures |Ucs2Parts(text)| == 1
  {
    NoParts();
    assert text[|text|..] == [];
  }

  lemma Ucs2TwoParts(text: Text)
    requires UCS2_PER_SEGMENT < |text| <= 2 * UCS2_PER_SEGMENT
    ensures |Ucs2Parts(text)| <= 2 <==> |text| < 134 || !IsHighSurrogate(text[66])
  {
    hide Ucs2Parts;
    Ucs2PartsUnfold(text);
    var rest := text[if IsHighSurrogate(text[66]) then 66 else 67..];
    if |rest| <= UCS2_PER_SEGMENT {
      Ucs2OnePart(rest);
    } else {
      Ucs2PartsUnfold(rest);
      Ucs2PartsCarry(rest);
    }
  }

  /** At the two lengths that decide, the number of parts depends on what the full parts end in. */
  lemma Ucs2PartsAtTheLimit(text: Text)
    requires 200 <= |text| <= 201
    ensures |Ucs2Parts(text)| <= 3 <==>
            if |text| == 201 then !IsHighSurrogate(text[66]) && !IsHighSurrogate(text[133])
            else !IsHighSurrogate(text[66]) || !IsHighSurrogate(text[132])
  {
    hide Ucs2Parts, IsHighSurrogate;
    Ucs2PartsUnfold(text);
    var n := if IsHighSurrogate(text[66]) then 66 else 67;
    var rest := text[n..];
    assert rest[66] == text[n + 66];
    if |rest| <= 2 * UCS2_PER_SEGMENT {
      Ucs2TwoParts(rest);
    } else {
      Ucs2PartsCarry(rest);
    }
  }

  lemma OneMorePiece(piece: Text, more: seq<Text>)
    requires KeepsPairs(more)
    requires piece != [] && Join(more) != [] ==>
               !(IsHighSurrogate(piece[|piece| - 1]) && IsLowSurrogate(Join(more)[0]))
    ensures KeepsPairs([piece] + more) && Join([piece] + more) == piece + Join(more)
  {
    hide IsHighSurrogate, IsLowSurrogate;
    assert ([piece] + more)[1..] == more;
  }

  /** Which UCS2 texts are accepted, by their length and by what full parts would end in. */
  lemma Ucs2OkClosedForm(text: Text)
    requires !IsGsm7(text)
    ensures Analyze(text).ok <==>
            || |text| <= 199
            || (|text| == 200 && !(IsHighSurrogate(text[66]) && IsHighSurrogate(text[132])))
            || (|text| == 201 && !IsHighSurrogate(text[66]) && !IsHighSurrogate(text[133]))
  {
    hide UnitCost, Ucs2Parts, IsHighSurrogate;
    Ucs2LengthLimits(text);
    if 200 <= |text| <= 201 {
      Ucs2PartsAtTheLimit(text);
    }
  }

  lemma CutsMakeATransmission(text: Text, a: nat, b: nat)
    requires 0 < a < b < |text| && a <= UCS2_PER_SEGMENT && b - a <= UCS2_PER_SEGMENT && |text| - b <= UCS2_PER_SEGMENT
    requires LegalCut(text, a) && LegalCut(text, b)
    ensures Ucs2Sendable(text)
  {
    hide KeepsPairs, Join, IsHighSurrogate, IsLowSurrogate;
    var none: seq<Text> := [];
    var third, second, first := [text[b..]] + none, text[a..b], text[..a];
    NoPieces();
    OneMorePiece(text[b..], none);
    assert text[b..] + [] == text[b..];
    OneMorePiece(second, third);
    assert second + text[b..] == text[a..];
    OneMorePiece(first, [second] + third);
    assert first + text[a..] == text;
    assert Ucs2Transmission([first] + ([second] + third), text);
  }

  lemma NoPieces()
    ensures KeepsPairs([]) && Join([]) == []
  {
  }

  lemma TransmissionMakesCuts(text: Text, pieces: seq<Text>)
    requires 200 <= |text| && Ucs2Transmission(pieces, text) && |pieces| <= MAX_SEGMENTS
    ensures |pieces| == 3
    ensures var a, b := |pieces[0]|, |pieces[0]| + |pieces[1]|;
            && LegalCut(text, a) && LegalCut(text, b)
            && a <= UCS2_PER_SEGMENT && b - a <= UCS2_PER_SEGMENT && |text| - b <= UCS2_PER_SEGMENT
  {
    hide IsHighSurrogate, IsLowSurrogate;
    JoinLength(pieces);
    JoinAt(pieces);
    var rest := Join(pieces[1..]);
    JoinAt(pieces[1..]);
    SingletonJoin(pieces[2..]);
    assert pieces[1..][1..] == pieces[2..];
    assert KeepsPairs(pieces[1..]);
  }

  lemma JoinLength(pieces: seq<Text>)
    requires |pieces| <= 3 && forall i :: 0 <= i < |pieces| ==> |pieces[i]| <= UCS2_PER_SEGMENT
    ensures |Join(pieces)| <= UCS2_PER_SEGMENT * |pieces|
  {
  }

  lemma SendableAtTheLimit(text: Text)
    requires 200 <= |text| <= 201
    ensures Ucs2Sendable(text) <==>
            if |text| == 201 then LegalCut(text, 67) && LegalCut(text, 134)
            else (LegalCut(text, 66) && LegalCut(text, 133)) || (LegalCut(text, 67) && LegalCut(text, 133)) ||
                 (LegalCut(text, 67) && LegalCut(text, 134))
  {
    hide LegalCut, Ucs2Transmission;
    forall pieces | Ucs2Transmission(pieces, text) && |pieces| <= MAX_SEGMENTS
      ensures if |text| == 201 then LegalCut(text, 67) && LegalCut(text, 134)
              else (LegalCut(text, 66) && LegalCut(text, 133)) || (LegalCut(text, 67) && LegalCut(text, 133)) ||
                   (LegalCut(text, 67) && LegalCut(text, 134))
    {
      TransmissionMakesCuts(text, pieces);
    }
    if LegalCut(text, 67) && LegalCut(text, 134) {
      CutsMakeATransmission(text, 67, 134);
    } else if |text| == 200 && LegalCut(text, 67) && LegalCut(text, 133) {
      CutsMakeATransmission(text, 67, 133);
    } else if |text| == 200 && LegalCut(text, 66) && LegalCut(text, 133) {
      CutsMakeATransmission(text, 66, 133);
    }
  }

  /** What is accepted can be sent. */
  lemma Ucs2OkIsSendable(text: Text)
    requires !IsGsm7(text) && Analyze(text).ok
    ensures Ucs2Sendable(text)
  {
    hide UnitCost, Ucs2Parts;
    Ucs2PartsAreTheMessage(text);
    Ucs2PartsKeepPairs(text);
    var pieces := if |text| <= UCS2_SINGLE then [text] else Ucs2Parts(text);
    assert Join([text]) == text + [] == text;
    assert KeepsPairs([text]);
    assert Ucs2Transmission(pieces, text) && |pieces| <= MAX_SEGMENTS;
  }

  lemma SendableIsShort(text: Text)
    requires Ucs2Sendable(text)
    ensures |text| <= 201
  {
    hide KeepsPairs;
    var pieces :| Ucs2Transmission(pieces, text) && |pieces| <= MAX_SEGMENTS;
    if !(|pieces| == 1 && |text| <= UCS2_SINGLE) {
      JoinLength(pieces);
    }
  }

  /**
    On every UCS2 text, lone surrogates included: that a message is accepted exactly when it can be
    sent in at most three SMS without cutting a surrogate pair holds if and only if the text is not
    spoiled.
   */
  lemma Ucs2OkIffSendable(text: Text)
    requires !IsGsm7(text)
    ensures (Analyze(text).ok <==> Ucs2Sendable(text)) <==> !Spoiled(text)
  {
    hide UnitCost, Ucs2Parts, Ucs2Sendable, LegalCut, IsHighSurrogate;
    if |text| < 200 {
      Ucs2LengthLimits(text);
      Ucs2OkIsSendable(text);
    } else if |text| <= 201 {
      Ucs2PartsAtTheLimit(text);
      SendableAtTheLimit(text);
      if Analyze(text).ok {
        Ucs2OkIsSendable(text);
      }
    } else {
      Ucs2LengthLimits(text);
      if Ucs2Sendable(text) {
        SendableIsShort(text);
      }
    }
  }

  /** Texts whose high surrogates are all completed are not spoiled. */
  lemma PairedIsNotSpoiled(text: Text)
    requires HighsArePaired(text)
    ensures !Spoiled(text)
  {
  }

  // ----- The analysis and the split agree ------------------------------------------------------

  /** The analysis counts the parts; they are the message, and none is empty unless it is. */
  lemma SegmentsCountTheParts(text: Text)
    ensures var parts := SplitMessage(text);
            && Analyze(text).segments == |parts|
            && Join(parts) == text
            && (text != [] ==> forall i :: 0 <= i < |parts| ==> parts[i] != [])
  {
    hide UnitCost, Gsm7Parts, Ucs2Parts;
    assert Join([text]) == text + [] == text;
    Gsm7PartsAreTheMessage(text);
    Ucs2PartsAreTheMessage(text);
    if |Gsm7Parts(text)| == 1 || |Ucs2Parts(text)| == 1 {
      SingletonJoin(if |Gsm7Parts(text)| == 1 then Gsm7Parts(text) else Ucs2Parts(text));
    }
  }

  lemma SingletonJoin(pieces: seq<Text>)
    requires |pieces| == 1
    ensures Join(pieces) == pieces[0]
  {
    assert pieces[1..] == [];
    assert pieces[0] + [] == pieces[0];
  }

  lemma {:induction false} PiecesAreGsm7(pieces: seq<Text>, k: nat)
    requires IsGsm7(Join(pieces)) && k < |pieces|
    ensures IsGsm7(pieces[k])
  {
    hide UnitCost;
    JoinAt(pieces);
    if k == 0 {
      assert forall i :: 0 <= i < |pieces[0]| ==> pieces[0][i] == Join(pieces)[i];
    } else {
      assert forall i :: 0 <= i < |Join(pieces[1..])| ==> Join(pieces[1..])[i] == Join(pieces)[|pieces[0]| + i];
      PiecesAreGsm7(pieces[1..], k - 1);
    }
  }

  lemma {:induction false} AtMostTwoSeptetsPerUnit(text: Text)
    ensures SeptetCount(text) <= 2 * |text|
  {
    hide UnitCost;
    if text != [] {
      AtMostTwoSeptetsPerUnit(text[1..]);
    }
  }

  /** Each part on its own is again a single SMS, whatever encoding it then gets by itself. */
  lemma PartsAreSingleMessages(text: Text, k: nat)
    requires k < |SplitMessage(text)|
    ensures Analyze(SplitMessage(text)[k]).segments == 1
    ensures Analyze(text).encoding == Gsm ==> Analyze(SplitMessage(text)[k]).encoding == Gsm
  {
    hide UnitCost, Gsm7Parts, Ucs2Parts;
    SegmentsCountTheParts(text);
    if Analyze(text).segments != 1 {
      if IsGsm7(text) {
        Gsm7PartsAreTheMessage(text);
        PiecesAreGsm7(Gsm7Parts(text), k);
      } else {
        Ucs2PartsAreTheMessage(text);
        AtMostTwoSeptetsPerUnit(Ucs2Parts(text)[k]);
      }
    }
  }

  // ----- How long an accepted message can be ---------------------------------------------------

  lemma TakeSome(text: Text, budget: nat)
    requires text != [] && budget >= 2
    ensures Gsm7Take(text, budget) > 0
  {
    hide UnitCost;
  }

  lemma Gsm7PartsUnfold(text: Text)
    requires text != []
    ensures Gsm7Parts(text) == [text[..Gsm7Take(text, GSM7_PER_SEGMENT)]] +
                               Gsm7Parts(text[Gsm7Take(text, GSM7_PER_SEGMENT)..])
  {
    hide UnitCost, SeptetCount, Gsm7Take;
  }

  /** The head of a greedy split: the first part, and what makes it end where it ends. */
  lemma Gsm7FirstPart(text: Text)
    requires text != []
    ensures var n := Gsm7Take(text, GSM7_PER_SEGMENT);
            && 0 < n && Gsm7Parts(text) == [text[..n]] + Gsm7Parts(text[n..])
            && SeptetCount(text) == SeptetCount(text[..n]) + SeptetCount(text[n..])
            && SeptetCount(text[..n]) <= GSM7_PER_SEGMENT
            && (n < |text| ==> SeptetCount(text[..n]) + Cost(text[n]) > GSM7_PER_SEGMENT)
  {
    hide UnitCost, SeptetCount, Gsm7Take, Gsm7Parts;
    TakeSome(text, GSM7_PER_SEGMENT);
    Gsm7PartsUnfold(text);
    TakeFits(text, GSM7_PER_SEGMENT);
    SplitCounts(text, Gsm7Take(text, GSM7_PER_SEGMENT));
  }

  lemma SplitCounts(text: Text, n: nat)
    requires n <= |text|
    ensures SeptetCount(text) == SeptetCount(text[..n]) + SeptetCount(text[n..])
  {
    hide SeptetCount;
    SeptetCountConcat(text[..n], text[n..]);
    assert text[..n] + text[n..] == text;
  }

  lemma {:induction false} Gsm7PartsCarry(text: Text)
    ensures SeptetCount(text) <= GSM7_PER_SEGMENT * |Gsm7Parts(text)|
    decreases |text|
  {
    hide UnitCost, Gsm7Parts, SeptetCount, Gsm7Take;
    NoParts();
    if text != [] {
      Gsm7FirstPart(text);
      Gsm7PartsCarry(text[Gsm7Take(text, GSM7_PER_SEGMENT)..]);
    }
  }

  /** More than `n` parts take at least 152 septets each for `n` of them, and two more. */
  lemma {:induction false} Gsm7PartsNeed(text: Text, n: nat)
    requires 1 <= n < |Gsm7Parts(text)|
    ensures SeptetCount(text) >= (GSM7_PER_SEGMENT - 1) * n + 2
    decreases n
  {
    hide UnitCost, Gsm7Parts, Gsm7Take;
    NoParts();
    Gsm7FirstPart(text);
    var rest := text[Gsm7Take(text, GSM7_PER_SEGMENT)..];
    if n > 1 {
      Gsm7PartsNeed(rest, n - 1);
    }
  }

  /** Up to 457 septets always fit into three parts, 460 never do. */
  lemma Gsm7LengthLimits(text: Text)
    requires IsGsm7(text)
    ensures SeptetCount(text) <= 457 ==> Analyze(text).ok
    ensures SeptetCount(text) > 459 ==> !Analyze(text).ok
  {
    hide UnitCost, Gsm7Parts, SeptetCount;
    Gsm7PartsCarry(text);
    if |Gsm7Parts(text)| > 3 {
      Gsm7PartsNeed(text, 3);
    }
  }

  /** An extension character begins at septet `p` of the text, the first septet being 0. */
  predicate ExtensionAt(text: Text, p: nat) {
    exists i :: 0 <= i < |text| && SeptetCount(text[..i]) == p && Cost(text[i]) == 2
  }

  lemma {:induction false} PrefixCounts(text: Text, i: nat, j: nat)
    requires i <= j <= |text|
    ensures SeptetCount(text[..i]) <= SeptetCount(text[..j])
    ensures i < j ==> SeptetCount(text[..i]) + Cost(text[i]) <= SeptetCount(text[..j])
  {
    hide UnitCost, Cost;
    if i < j {
      SeptetCountConcat(text[..i], text[i..j]);
      assert text[..i] + text[i..j] == text[..j];
    }
  }

  /** The first part is cut after 152 septets exactly if an extension character would straddle the cut. */
  lemma FirstPartCount(text: Text)
    requires IsGsm7(text) && SeptetCount(text) > GSM7_PER_SEGMENT
    ensures var n := Gsm7Take(text, GSM7_PER_SEGMENT);
            && n < |text|
            && SeptetCount(text[..n]) == if ExtensionAt(text, 152) then 152 else 153
  {
    hide UnitCost, SeptetCount, Gsm7Take, Gsm7Parts, IsGsm7;
    NoParts();
    var n := Gsm7Take(text, GSM7_PER_SEGMENT);
    Gsm7FirstPart(text);
    assert text[..|text|] == text;
    if ExtensionAt(text, 152) {
      var i :| 0 <= i < |text| && SeptetCount(text[..i]) == 152 && Cost(text[i]) == 2;
      if i < n {
        PrefixCounts(text, i, n);
      } else {
        PrefixCounts(text, n, i);
      }
      GsmCosts(text, n);
    } else {
      GsmCosts(text, n);
    }
  }

  lemma GsmCosts(text: Text, i: nat)
    requires IsGsm7(text) && i < |text|
    ensures 1 <= Cost(text[i]) <= 2
  {
    assert UnitCost(text[i]).Some?;
  }

  lemma ExtensionInRest(text: Text, n: nat, p: nat)
    requires n <= |text|
    ensures ExtensionAt(text[n..], p) <==> ExtensionAt(text, SeptetCount(text[..n]) + p)
  {
    hide UnitCost, SeptetCount, Cost;
    var rest, c := text[n..], SeptetCount(text[..n]);
    forall i | 0 <= i <= |rest|
      ensures SeptetCount(text[..n + i]) == c + SeptetCount(rest[..i])
    {
      SeptetCountConcat(text[..n], rest[..i]);
      assert text[..n] + rest[..i] == text[..n + i];
    }
    if ExtensionAt(text, c + p) {
      var i :| 0 <= i < |text| && SeptetCount(text[..i]) == c + p && Cost(text[i]) == 2;
      if i < n {
        PrefixCounts(text, i, n);
      }
      assert rest[i - n] == text[i] && text[..n + (i - n)] == text[..i];
    }
    if ExtensionAt(rest, p) {
      var i :| 0 <= i < |rest| && SeptetCount(rest[..i]) == p && Cost(rest[i]) == 2;
      assert text[n + i] == rest[i];
    }
  }

  lemma Gsm7OnePart(text: Text)
    requires text != [] && SeptetCount(text) <= GSM7_PER_SEGMENT
    ensures |Gsm7Parts(text)| == 1
  {
    hide UnitCost, SeptetCount, Gsm7Parts;
    NoParts();
    assert text + [] == text;
    FirstPart(text, []);
  }

  /** The split of a text that needs several parts, at its first cut. */
  lemma Gsm7FirstCut(text: Text)
    requires IsGsm7(text) && SeptetCount(text) > GSM7_PER_SEGMENT
    ensures var n := Gsm7Take(text, GSM7_PER_SEGMENT);
            var c := if ExtensionAt(text, 152) then 152 else 153;
            && n < |text| && IsGsm7(text[n..]) && SeptetCount(text[n..]) == SeptetCount(text) - c
            && |Gsm7Parts(text)| == 1 + |Gsm7Parts(text[n..])|
            && forall p: nat :: ExtensionAt(text[n..], p) <==> ExtensionAt(text, c + p)
  {
    hide UnitCost, SeptetCount, Gsm7Take, Gsm7Parts, ExtensionAt;
    NoParts();
    var n := Gsm7Take(text, GSM7_PER_SEGMENT);
    FirstPartCount(text);
    Gsm7FirstPart(text);
    forall p: nat
      ensures ExtensionAt(text[n..], p) <==> ExtensionAt(text, SeptetCount(text[..n]) + p)
    {
      ExtensionInRest(text, n, p);
    }
  }

  lemma Gsm7TwoParts(text: Text)
    requires IsGsm7(text) && GSM7_PER_SEGMENT < SeptetCount(text) <= 2 * GSM7_PER_SEGMENT
    ensures |Gsm7Parts(text)| <= 2 <==> SeptetCount(text) < 306 || !ExtensionAt(text, 152)
  {
    hide UnitCost, SeptetCount, Gsm7Take, Gsm7Parts, ExtensionAt, IsGsm7;
    Gsm7FirstCut(text);
    var rest := text[Gsm7Take(text, GSM7_PER_SEGMENT)..];
    if SeptetCount(rest) <= GSM7_PER_SEGMENT {
      Gsm7OnePart(rest);
    } else {
      Gsm7PartsCarry(rest);
    }
  }

  /**
    Which GSM-7 texts are accepted, by their length and by what begins at four of their septets:
    the places where a full part would end inside an extension character.
   */
  lemma Gsm7OkClosedForm(text: Text)
    requires IsGsm7(text)
    ensures var n := SeptetCount(text);
            Analyze(text).ok <==>
            || n <= 457
            || (n == 458 && !(ExtensionAt(text, 152) && ExtensionAt(text, 304)))
            || (n == 459 && !ExtensionAt(text, 152) && !ExtensionAt(text, 305))
  {
    hide UnitCost, Gsm7Parts, SeptetCount, ExtensionAt, Gsm7Take;
    Gsm7LengthLimits(text);
    if 458 <= SeptetCount(text) <= 459 {
      Gsm7FirstCut(text);
      var rest := text[Gsm7Take(text, GSM7_PER_SEGMENT)..];
      if SeptetCount(rest) <= 2 * GSM7_PER_SEGMENT {
        Gsm7TwoParts(rest);
      } else {
        Gsm7PartsCarry(rest);
      }
    }
  }

  lemma {:induction false} Ucs2PartsCarry(text: Text)
    ensures |text| <= UCS2_PER_SEGMENT * |Ucs2Parts(text)|
    decreases |text|
  {
    if text != [] {
      Ucs2PartsCarry(text[Ucs2End(text)..]);
    }
  }

  lemma {:induction false} Ucs2PartsNeed(text: Text, n: nat)
    requires 1 <= n < |Ucs2Parts(text)|
    ensures |text| >= (UCS2_PER_SEGMENT - 1) * n + 2
    decreases n
  {
    var rest := text[Ucs2End(text)..];
    if n > 1 {
      Ucs2PartsNeed(rest, n - 1);
    }
  }

  /** Up to 199 code units always fit into three parts, 202 never do. */
  lemma Ucs2LengthLimits(text: Text)
    requires !IsGsm7(text)
    ensures |text| <= 199 ==> Analyze(text).ok
    ensures |text| > 201 ==> !Analyze(text).ok
  {
    hide UnitCost, Ucs2Parts;
    Ucs2PartsCarry(text);
    if |Ucs2Parts(text)| > 3 {
      Ucs2PartsNeed(text, 3);
    }
  }

  // ----- The ZTE driver's count ----------------------------------------------------------------

  /** utils/zte-http.js counts parts by length alone. */
  function AnalyzeUcs2(text: Text): Analysis {
    var segments := if |text| <= UCS2_SINGLE then 1 else (|text| + UCS2_PER_SEGMENT - 1) / UCS2_PER_SEGMENT;
    Analysis(Ucs2, |text|, segments, UCS2_PER_SEGMENT * MAX_SEGMENTS, segments <= MAX_SEGMENTS)
  }

  /** It allows what three parts of 67 units hold, and one SMS what fits 70. */
  lemma ZteLimits(text: Text)
    ensures AnalyzeUcs2(text).ok <==> |text| <= 201
    ensures AnalyzeUcs2(text).segments == 1 <==> |text| <= 70
    ensures AnalyzeUcs2(text).maxLength == 201
  {
  }

  lemma {:induction false} PartsWithoutSurrogates(text: Text)
    requires forall i :: 0 <= i < |text| ==> !IsHighSurrogate(text[i])
    ensures UCS2_PER_SEGMENT * |Ucs2Parts(text)| < |text| + UCS2_PER_SEGMENT
    decreases |text|
  {
    if text != [] {
      PartsWithoutSurrogates(text[Ucs2End(text)..]);
    }
  }

  /**
    The ZTE count never exceeds the number of parts that keep surrogate pairs whole, and is that
    number when the text has no surrogates.
   */
  lemma ZteCountIsLowerBound(text: Text)
    requires |text| > UCS2_SINGLE
    ensures AnalyzeUcs2(text).segments <= |Ucs2Parts(text)|
    ensures (forall i :: 0 <= i < |text| ==> !IsHighSurrogate(text[i])) ==>
              AnalyzeUcs2(text).segments == |Ucs2Parts(text)|
  {
    Ucs2PartsCarry(text);
    if forall i :: 0 <= i < |text| ==> !IsHighSurrogate(text[i]) {
      PartsWithoutSurrogates(text);
    }
  }
}
