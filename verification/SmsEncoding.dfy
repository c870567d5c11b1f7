/**
  Choice of encoding, septet counting and splitting of a message (utils/sms-encoding.js). The
  functions say what the loops compute; the properties of the splits are in module Splitting.
 */
module SmsEncoding {
  import opened Wrappers
  import opened Utf16
  import opened Gsm7

  const MAX_SEGMENTS: nat := 3
  const GSM7_SINGLE: nat := 160
  const GSM7_PER_SEGMENT: nat := 153
  const UCS2_SINGLE: nat := 70
  const UCS2_PER_SEGMENT: nat := 67

  datatype Encoding = Gsm | Ucs2

  datatype Analysis = Analysis(encoding: Encoding, length: nat, segments: nat, maxLength: nat, ok: bool)

  // ----- Septet costs ------------------------------------------------------------------------

  function UnitCost(u: CodeUnit): Option<nat> {
    if InBasic(u) then Some(1)
    else if Gsm7ExtCode(u).Some? then Some(2)
    else None
  }

  /** Septet cost of one character as a `for`-`of` loop delivers it. */
  function Gsm7Cost(ch: Text): Option<nat> {
    if |ch| == 1 then UnitCost(ch[0]) else None
  }

  /** The cost as arithmetic sees it: JavaScript adds `null` as 0. */
  function Cost(u: CodeUnit): (c: nat)
    ensures c <= 2
  {
    match UnitCost(u)
    case Some(c) => c
    case None => 0
  }

  function SeptetCount(text: Text): nat {
    if text == [] then 0 else Cost(text[0]) + SeptetCount(text[1..])
  }

  predicate IsGsm7(text: Text) {
    forall i :: 0 <= i < |text| ==> UnitCost(text[i]).Some?
  }

  lemma {:induction false} SeptetCountConcat(a: Text, b: Text)
    ensures SeptetCount(a + b) == SeptetCount(a) + SeptetCount(b)
  {
    if a == [] {
      assert a + b == b;
    } else {
      assert (a + b)[1..] == a[1..] + b;
      SeptetCountConcat(a[1..], b);
    }
  }

  /** No surrogate is in the tables, so a two-unit character costs what its two units cost. */
  lemma SurrogatesAreNotGsm7(u: CodeUnit)
    requires IsHighSurrogate(u) || IsLowSurrogate(u)
    ensures UnitCost(u) == None
  {
    if InBasic(u) {
      var i :| 0 <= i < GSM7_BASIC_SIZE && Gsm7Basic(i) == u;
      BasicTableIsTheStandards(i);
    }
    if Gsm7ExtCode(u).Some? {
      ExtensionTableIsTheStandards(u);
    }
  }

  lemma StepCost(text: Text, i: nat)
    requires i < |text|
    ensures var n := CodePointLength(text, i);
            var ch := text[i..i + n];
            && (Gsm7Cost(ch).Some? ==> n == 1 && Gsm7Cost(ch) == UnitCost(text[i]))
            && (Gsm7Cost(ch).None? ==> UnitCost(text[i]).None?)
            && SeptetCount(ch) == (match Gsm7Cost(ch) case Some(c) => c case None => 0)
  {
    var n := CodePointLength(text, i);
    var ch := text[i..i + n];
    assert SeptetCount(ch) == Cost(ch[0]) + SeptetCount(ch[1..]);
    if n == 2 {
      SurrogatesAreNotGsm7(text[i]);
      SurrogatesAreNotGsm7(text[i + 1]);
      assert ch[1..] == [text[i + 1]];
    }
  }

  // ----- The greedy splits -------------------------------------------------------------------

  /** How many units fit into `budget` septets, taken one after the other. */
  function Gsm7Take(text: Text, budget: nat): (n: nat)
    ensures n <= |text|
  {
    if text == [] || Cost(text[0]) > budget then 0
    else 1 + Gsm7Take(text[1..], budget - Cost(text[0]))
  }

  function Gsm7Parts(text: Text): seq<Text> {
    if text == [] then []
    else
      var n := Gsm7Take(text, GSM7_PER_SEGMENT);
      [text[..n]] + Gsm7Parts(text[n..])
  }

  /** Where the first UCS2 part of a non-empty text ends. */
  function Ucs2End(text: Text): (n: nat)
    requires text != []
    ensures 0 < n <= |text| && n <= UCS2_PER_SEGMENT
  {
    var end := if UCS2_PER_SEGMENT < |text| then UCS2_PER_SEGMENT else |text|;
    if end < |text| && IsHighSurrogate(text[end - 1]) then end - 1 else end
  }

  function Ucs2Parts(text: Text): seq<Text> {
    if text == [] then [] else [text[..Ucs2End(text)]] + Ucs2Parts(text[Ucs2End(text)..])
  }

  function Analyze(text: Text): Analysis {
    if IsGsm7(text) then
      var segments := if SeptetCount(text) <= GSM7_SINGLE then 1 else |Gsm7Parts(text)|;
      Analysis(Gsm, SeptetCount(text), segments, GSM7_PER_SEGMENT * MAX_SEGMENTS, segments <= MAX_SEGMENTS)
    else
      var segments := if |text| <= UCS2_SINGLE then 1 else |Ucs2Parts(text)|;
      Analysis(Ucs2, |text|, segments, UCS2_PER_SEGMENT * MAX_SEGMENTS, segments <= MAX_SEGMENTS)
  }

  function SplitMessage(text: Text): seq<Text> {
    var info := Analyze(text);
    if info.segments == 1 then [text]
    else if info.encoding == Gsm then Gsm7Parts(text)
    else Ucs2Parts(text)
  }

  lemma NoParts()
    ensures Gsm7Parts([]) == [] && Ucs2Parts([]) == [] && SeptetCount([]) == 0
  {
  }

  // ----- The loops ---------------------------------------------------------------------------

  /** The greedy split takes `part` whole as soon as it fits and what follows does not. */
  lemma {:induction false} TakeExactly(part: Text, rest: Text, budget: nat)
    requires SeptetCount(part) <= budget
    requires rest != [] ==> SeptetCount(part) + Cost(rest[0]) > budget
    ensures Gsm7Take(part + rest, budget) == |part|
  {
    hide UnitCost;
    if part == [] {
      assert part + rest == rest;
    } else {
      assert (part + rest)[1..] == part[1..] + rest;
      TakeExactly(part[1..], rest, budget - Cost(part[0]));
    }
  }

  lemma FirstPart(part: Text, rest: Text)
    requires part != []
    requires SeptetCount(part) <= GSM7_PER_SEGMENT
    requires rest != [] ==> SeptetCount(part) + Cost(rest[0]) > GSM7_PER_SEGMENT
    ensures Gsm7Parts(part + rest) == [part] + Gsm7Parts(rest)
  {
    TakeExactly(part, rest, GSM7_PER_SEGMENT);
    var whole := part + rest;
    assert whole[..|part|] == part && whole[|part|..] == rest;
  }

  lemma PartIsComplete(parts: seq<Text>, part: Text, rest: Text)
    requires part != []
    requires SeptetCount(part) <= GSM7_PER_SEGMENT
    requires rest != [] ==> SeptetCount(part) + Cost(rest[0]) > GSM7_PER_SEGMENT
    ensures parts + Gsm7Parts(part + rest) == parts + [part] + Gsm7Parts([] + rest)
  {
    hide Gsm7Parts, UnitCost, SeptetCount;
    FirstPart(part, rest);
    assert [] + rest == rest;
  }

  /** Moving the character at `i` into the part under construction. */
  lemma PartGrows(part: Text, message: Text, i: nat)
    requires i < |message|
    ensures var n := CodePointLength(message, i);
            var ch := message[i..i + n];
            && part + message[i..] == (part + ch) + message[i + n..]
            && SeptetCount(part + ch) == SeptetCount(part) + (match Gsm7Cost(ch) case Some(c) => c case None => 0)
  {
    var n := CodePointLength(message, i);
    StepCost(message, i);
    SeptetCountConcat(part, message[i..i + n]);
  }

  method SplitGsm7(message: Text) returns (parts: seq<Text>)
    ensures parts == Gsm7Parts(message)
  {
    hide Gsm7Parts, UnitCost, SeptetCount;
    NoParts();
    parts := [];
    var part: Text := [];
    var septets: nat := 0;
    var i := 0;
    assert part + message[i..] == message;
    while i < |message|
      invariant i <= |message|
      invariant septets == SeptetCount(part) <= GSM7_PER_SEGMENT
      invariant part == [] ==> septets == 0
      invariant Gsm7Parts(message) == parts + Gsm7Parts(part + message[i..])
    {
      var n := CodePointLength(message, i);
      var ch := message[i..i + n];
      var cost := match Gsm7Cost(ch) case Some(c) => c case None => 0;
      if septets + cost > GSM7_PER_SEGMENT {
        StepCost(message, i);
        assert cost == Cost(message[i]);
        PartIsComplete(parts, part, message[i..]);
        parts := parts + [part];
        part := [];
        septets := 0;
      }
      PartGrows(part, message, i);
      part := part + ch;
      septets := septets + cost;
      i := i + n;
    }
    assert message[i..] == [];
    ghost var none: Text := [];
    assert none + none == none && part + none == part;
    if part != [] {
      PartIsComplete(parts, part, []);
      parts := parts + [part];
    }
  }

  /** The next UCS2 part, in terms of positions in the whole message. */
  lemma Ucs2PartOfSuffix(message: Text, i: nat)
    requires i < |message|
    ensures var full := if i + UCS2_PER_SEGMENT < |message| then i + UCS2_PER_SEGMENT else |message|;
            var end := if full < |message| && IsHighSurrogate(message[full - 1]) then full - 1 else full;
            && i < end <= |message|
            && Ucs2Parts(message[i..]) == [message[i..end]] + Ucs2Parts(message[end..])
  {
    var rest := message[i..];
    var n := Ucs2End(rest);
    assert rest[..n] == message[i..i + n] && rest[n..] == message[i + n..];
  }

  method SplitUcs2(message: Text) returns (parts: seq<Text>)
    ensures parts == Ucs2Parts(message)
  {
    hide Ucs2Parts;
    NoParts();
    parts := [];
    var i := 0;
    while i < |message|
      invariant i <= |message|
      invariant Ucs2Parts(message) == parts + Ucs2Parts(message[i..])
    {
      var end := if i + UCS2_PER_SEGMENT < |message| then i + UCS2_PER_SEGMENT else |message|;
      var code := message[end - 1];
      if end < |message| && 0xD800 <= code <= 0xDBFF {
        end := end - 1;
      }
      Ucs2PartOfSuffix(message, i);
      parts := parts + [message[i..end]];
      i := end;
    }
    assert message[i..] == [];
  }

  method AnalyzeMessage(message: Text) returns (info: Analysis)
    ensures info == Analyze(message)
  {
    var septets := 0;
    var gsm7 := true;
    var i := 0;
    while i < |message|
      invariant i <= |message|
      invariant gsm7 && septets + SeptetCount(message[i..]) == SeptetCount(message)
      invariant forall j :: 0 <= j < i ==> UnitCost(message[j]).Some?
    {
      var n := CodePointLength(message, i);
      var cost := Gsm7Cost(message[i..i + n]);
      StepCost(message, i);
      if cost == None {
        gsm7 := false;
        break;
      }
      septets := septets + cost.value;
      assert message[i..][1..] == message[i + 1..];
      i := i + n;
    }
    if gsm7 {
      var segments := 1;
      if septets > GSM7_SINGLE {
        var parts := SplitGsm7(message);
        segments := |parts|;
      }
      info := Analysis(Gsm, septets, segments, GSM7_PER_SEGMENT * MAX_SEGMENTS, segments <= MAX_SEGMENTS);
    } else {
      var length := |message|;
      var segments := 1;
      if length > UCS2_SINGLE {
        var parts := SplitUcs2(message);
        segments := |parts|;
      }
      info := Analysis(Ucs2, length, segments, UCS2_PER_SEGMENT * MAX_SEGMENTS, segments <= MAX_SEGMENTS);
    }
  }
}
