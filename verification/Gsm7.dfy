/**
  The GSM 7-bit alphabet: the sender's tables (utils/sms-encoding.js) and, on the other side, the
  receiver's tables as 3GPP TS 23.038 sections 6.2.1 and 6.2.1.1 lay them out.
 */
module Gsm7 {
  import opened Wrappers
  import opened Utf16
  import opened Septets

  const ESC: Septet := 0x1B

  /** The size of the basic alphabet: 128 codes without ESC. */
  const GSM7_BASIC_SIZE: nat := 127

  /** The characters of the basic alphabet in septet order, the code ESC left out. */
  function Gsm7Basic(i: nat): CodeUnit
    requires i < GSM7_BASIC_SIZE
  {
    match i
    case 0 => 0x40 case 1 => 0xA3 case 2 => 0x24 case 3 => 0xA5 case 4 => 0xE8 case 5 => 0xE9
    case 6 => 0xF9 case 7 => 0xEC case 8 => 0xF2 case 9 => 0xC7 case 10 => 0x0A case 11 => 0xD8
    case 12 => 0xF8 case 13 => 0x0D case 14 => 0xC5 case 15 => 0xE5 case 16 => 0x394 case 17 => 0x5F
    case 18 => 0x3A6 case 19 => 0x393 case 20 => 0x39B case 21 => 0x3A9 case 22 => 0x3A0 case 23 => 0x3A8
    case 24 => 0x3A3 case 25 => 0x398 case 26 => 0x39E case 27 => 0xC6 case 28 => 0xE6 case 29 => 0xDF
    case 30 => 0xC9 case 31 => 0x20 case 32 => 0x21 case 33 => 0x22 case 34 => 0x23 case 35 => 0xA4
    case 36 => 0x25 case 37 => 0x26 case 38 => 0x27 case 39 => 0x28 case 40 => 0x29 case 41 => 0x2A
    case 42 => 0x2B case 43 => 0x2C case 44 => 0x2D case 45 => 0x2E case 46 => 0x2F case 47 => 0x30
    case 48 => 0x31 case 49 => 0x32 case 50 => 0x33 case 51 => 0x34 case 52 => 0x35 case 53 => 0x36
    case 54 => 0x37 case 55 => 0x38 case 56 => 0x39 case 57 => 0x3A case 58 => 0x3B case 59 => 0x3C
    case 60 => 0x3D case 61 => 0x3E case 62 => 0x3F case 63 => 0xA1 case 64 => 0x41 case 65 => 0x42
    case 66 => 0x43 case 67 => 0x44 case 68 => 0x45 case 69 => 0x46 case 70 => 0x47 case 71 => 0x48
    case 72 => 0x49 case 73 => 0x4A case 74 => 0x4B case 75 => 0x4C case 76 => 0x4D case 77 => 0x4E
    case 78 => 0x4F case 79 => 0x50 case 80 => 0x51 case 81 => 0x52 case 82 => 0x53 case 83 => 0x54
    case 84 => 0x55 case 85 => 0x56 case 86 => 0x57 case 87 => 0x58 case 88 => 0x59 case 89 => 0x5A
    case 90 => 0xC4 case 91 => 0xD6 case 92 => 0xD1 case 93 => 0xDC case 94 => 0xA7 case 95 => 0xBF
    case 96 => 0x61 case 97 => 0x62 case 98 => 0x63 case 99 => 0x64 case 100 => 0x65 case 101 => 0x66
    case 102 => 0x67 case 103 => 0x68 case 104 => 0x69 case 105 => 0x6A case 106 => 0x6B case 107 => 0x6C
    case 108 => 0x6D case 109 => 0x6E case 110 => 0x6F case 111 => 0x70 case 112 => 0x71 case 113 => 0x72
    case 114 => 0x73 case 115 => 0x74 case 116 => 0x75 case 117 => 0x76 case 118 => 0x77 case 119 => 0x78
    case 120 => 0x79 case 121 => 0x7A case 122 => 0xE4 case 123 => 0xF6 case 124 => 0xF1 case 125 => 0xFC
    case 126 => 0xE0
  }

  /** The septet code of position `i` of `GSM7_BASIC`. */
  function CodeOfIndex(i: nat): nat {
    if i < ESC then i else i + 1
  }

  /** Whether the code table has the character as a key. */
  predicate InBasic(u: CodeUnit) {
    exists i :: 0 <= i < GSM7_BASIC_SIZE && Gsm7Basic(i) == u
  }

  /** No character occurs twice, so the order in which the code table is filled does not matter. */
  lemma BasicCharactersAreDistinct(i: nat, j: nat)
    requires i < GSM7_BASIC_SIZE && j < GSM7_BASIC_SIZE && Gsm7Basic(i) == Gsm7Basic(j)
    ensures i == j
  {
    BasicTableIsTheStandards(i);
    BasicTableIsTheStandards(j);
    DefaultAlphabetIsInjective(CodeOfIndex(i), CodeOfIndex(j));
  }

  /** The code table: character to septet. */
  function Gsm7Code(u: CodeUnit): (code: Septet)
    requires InBasic(u)
    ensures exists i :: 0 <= i < GSM7_BASIC_SIZE && Gsm7Basic(i) == u && code == CodeOfIndex(i)
  {
    forall i, j | 0 <= i < GSM7_BASIC_SIZE && 0 <= j < GSM7_BASIC_SIZE && Gsm7Basic(i) == u && Gsm7Basic(j) == u
      ensures i == j
    {
      BasicCharactersAreDistinct(i, j);
    }
    var i :| 0 <= i < GSM7_BASIC_SIZE && Gsm7Basic(i) == u;
    BasicTableIsTheStandards(i);
    CodeOfIndex(i)
  }

  /** The extension table: characters sent as ESC and a code. */
  function Gsm7ExtCode(u: CodeUnit): Option<Septet> {
    match u
    case 0x5E => Some(0x14)
    case 0x7B => Some(0x28)
    case 0x7D => Some(0x29)
    case 0x5C => Some(0x2F)
    case 0x5B => Some(0x3C)
    case 0x7E => Some(0x3D)
    case 0x5D => Some(0x3E)
    case 0x7C => Some(0x40)
    case 0x20AC => Some(0x65)
    case _ => None
  }

  // ----- The receiver's tables ---------------------------------------------------------------

  /** The default alphabet of TS 23.038 section 6.2.1; most codes coincide with ASCII. */
  function DefaultAlphabet(code: nat): CodeUnit
    requires code < 128
  {
    match code
    case 0x00 => 0x40 case 0x01 => 0xA3 case 0x02 => 0x24 case 0x03 => 0xA5
    case 0x04 => 0xE8 case 0x05 => 0xE9 case 0x06 => 0xF9 case 0x07 => 0xEC
    case 0x08 => 0xF2 case 0x09 => 0xC7 case 0x0B => 0xD8 case 0x0C => 0xF8
    case 0x0E => 0xC5 case 0x0F => 0xE5 case 0x10 => 0x394 case 0x11 => 0x5F
    case 0x12 => 0x3A6 case 0x13 => 0x393 case 0x14 => 0x39B case 0x15 => 0x3A9
    case 0x16 => 0x3A0 case 0x17 => 0x3A8 case 0x18 => 0x3A3 case 0x19 => 0x398
    case 0x1A => 0x39E case 0x1C => 0xC6 case 0x1D => 0xE6 case 0x1E => 0xDF
    case 0x1F => 0xC9 case 0x24 => 0xA4 case 0x40 => 0xA1 case 0x5B => 0xC4
    case 0x5C => 0xD6 case 0x5D => 0xD1 case 0x5E => 0xDC case 0x5F => 0xA7
    case 0x60 => 0xBF case 0x7B => 0xE4 case 0x7C => 0xF6 case 0x7D => 0xF1
    case 0x7E => 0xFC case 0x7F => 0xE0
    case _ => code
  }

  lemma DefaultAlphabetIsInjective(a: nat, b: nat)
    requires a < 128 && b < 128 && a != ESC && b != ESC
    requires DefaultAlphabet(a) == DefaultAlphabet(b)
    ensures a == b
  {
  }

  /** The extension table of TS 23.038 section 6.2.1.1. */
  function ExtensionAlphabet(code: nat): Option<CodeUnit> {
    match code
    case 0x0A => Some(0x0C)
    case 0x14 => Some(0x5E)
    case 0x28 => Some(0x7B)
    case 0x29 => Some(0x7D)
    case 0x2F => Some(0x5C)
    case 0x3C => Some(0x5B)
    case 0x3D => Some(0x7E)
    case 0x3E => Some(0x5D)
    case 0x40 => Some(0x7C)
    case 0x65 => Some(0x20AC)
    case _ => None
  }

  /**
    What a receiver displays. A code missing from the extension table falls back to the default
    alphabet, a doubled ESC shows as a space, and an ESC at the very end shows nothing.
   */
  function Gsm7Decode(septets: seq<Septet>): Text {
    if septets == [] then []
    else if septets[0] != ESC then [DefaultAlphabet(septets[0])] + Gsm7Decode(septets[1..])
    else if |septets| == 1 then []
    else
      var shown :=
        if septets[1] == ESC then 0x20
        else if ExtensionAlphabet(septets[1]).Some? then ExtensionAlphabet(septets[1]).value
        else DefaultAlphabet(septets[1]);
      [shown] + Gsm7Decode(septets[2..])
  }

  /** The sender's basic table, position by position, is the standard's default alphabet. */
  lemma BasicTableIsTheStandards(i: nat)
    requires i < GSM7_BASIC_SIZE
    ensures CodeOfIndex(i) < 128 && CodeOfIndex(i) != ESC
    ensures DefaultAlphabet(CodeOfIndex(i)) == Gsm7Basic(i) < 0xD800
  {
  }

  lemma ExtensionTableIsTheStandards(u: CodeUnit)
    requires Gsm7ExtCode(u).Some?
    ensures Gsm7ExtCode(u).value != ESC && u < 0xD800
    ensures ExtensionAlphabet(Gsm7ExtCode(u).value) == Some(u)
  {
  }
}
