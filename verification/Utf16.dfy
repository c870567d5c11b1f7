/** JavaScript strings: sequences of UTF-16 code units, surrogates (paired or not) included. */
module Utf16 {

  type CodeUnit = u: nat | u < 0x1_0000

  type Text = seq<CodeUnit>

  predicate IsHighSurrogate(u: CodeUnit) {
    0xD800 <= u <= 0xDBFF
  }

  predicate IsLowSurrogate(u: CodeUnit) {
    0xDC00 <= u <= 0xDFFF
  }

  /** How many code units the next step of a `for (const ch of text)` loop at `i` consumes. */
  function CodePointLength(text: Text, i: nat): (n: nat)
    requires i < |text|
    ensures 1 <= n <= 2 && i + n <= |text|
    ensures n == 2 ==> IsHighSurrogate(text[i]) && IsLowSurrogate(text[i + 1])
  {
    if i + 1 < |text| && IsHighSurrogate(text[i]) && IsLowSurrogate(text[i + 1]) then 2 else 1
  }

  /** No high surrogate stands without the low surrogate that completes it. */
  predicate HighsArePaired(text: Text) {
    forall i :: 0 <= i < |text| && IsHighSurrogate(text[i]) ==> i + 1 < |text| && IsLowSurrogate(text[i + 1])
  }

  /** The concatenation of the pieces of a message. */
  function Join(pieces: seq<Text>): Text {
    if pieces == [] then [] else pieces[0] + Join(pieces[1..])
  }
}
