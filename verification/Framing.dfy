/**
  Cutting the serial character stream into lines (the loop of `handleData`, utils/modem.js) and
  its independence of how the stream is cut into chunks.
 */
module Framing {
  import opened Wrappers

  /** The characters JavaScript's `trim` removes. */
  predicate IsSpace(c: char) {
    var u := c as int;
    || 0x09 <= u <= 0x0D || u == 0x20 || u == 0xA0 || u == 0x1680 || 0x2000 <= u <= 0x200A
    || u == 0x2028 || u == 0x2029 || u == 0x202F || u == 0x205F || u == 0x3000 || u == 0xFEFF
  }

  function TrimStart(s: string): string {
    if s != [] && IsSpace(s[0]) then TrimStart(s[1..]) else s
  }

  function TrimEnd(s: string): string {
    if s != [] && IsSpace(s[|s| - 1]) then TrimEnd(s[..|s| - 1]) else s
  }

  function Trim(s: string): string {
    TrimEnd(TrimStart(s))
  }

  /** Position of the first line feed, or the length if there is none. */
  function FirstLf(s: string): (p: nat)
    ensures p <= |s|
    ensures forall i :: 0 <= i < p ==> s[i] != '\n'
    ensures p < |s| ==> s[p] == '\n'
  {
    if s == [] || s[0] == '\n' then 0 else 1 + FirstLf(s[1..])
  }

  /** The trimmed, non-empty lines a buffer completes. */
  function Lines(s: string): seq<string>
    decreases |s|
  {
    var p := FirstLf(s);
    if p == |s| then []
    else
      var line := Trim(s[..p]);
      (if line == [] then [] else [line]) + Lines(s[p + 1..])
  }

  /** What stays in the buffer: the text behind the last line feed. */
  function Residue(s: string): string
    decreases |s|
  {
    var p := FirstLf(s);
    if p == |s| then s else Residue(s[p + 1..])
  }

  // ----- Against JavaScript's split ------------------------------------------------------------

  /** `s.split('\n')`. */
  function SplitLf(s: string): (pieces: seq<string>)
    ensures pieces != []
    decreases |s|
  {
    var p := FirstLf(s);
    if p == |s| then [s] else [s[..p]] + SplitLf(s[p + 1..])
  }

  /** `pieces.map(trim).filter(Boolean)`. */
  function NonEmptyTrimmed(pieces: seq<string>): seq<string> {
    if pieces == [] then []
    else
      var line := Trim(pieces[0]);
      (if line == [] then [] else [line]) + NonEmptyTrimmed(pieces[1..])
  }

  /** Framing is splitting on line feeds, trimming and dropping what is empty. */
  lemma {:induction false} LinesAreSplitTrimmed(s: string)
    ensures var pieces := SplitLf(s);
            && Lines(s) == NonEmptyTrimmed(pieces[..|pieces| - 1])
            && Residue(s) == pieces[|pieces| - 1]
    decreases |s|
  {
    hide Trim, FirstLf;
    var p, pieces := FirstLf(s), SplitLf(s);
    if p < |s| {
      LinesAreSplitTrimmed(s[p + 1..]);
      var rest := SplitLf(s[p + 1..]);
      assert pieces[..|pieces| - 1] == [s[..p]] + rest[..|rest| - 1];
    }
  }

  // ----- Chunks --------------------------------------------------------------------------------

  lemma {:induction false} FirstLfConcat(a: string, b: string)
    ensures FirstLf(a + b) == if FirstLf(a) < |a| then FirstLf(a) else |a| + FirstLf(b)
  {
    if a == [] {
      assert a + b == b;
    } else {
      assert (a + b)[1..] == a[1..] + b;
      FirstLfConcat(a[1..], b);
    }
  }

  lemma {:induction false} LinesOfChunks(a: string, b: string)
    ensures Lines(a + b) == Lines(a) + Lines(Residue(a) + b)
    ensures Residue(a + b) == Residue(Residue(a) + b)
    decreases |a|
  {
    hide Trim, FirstLf;
    FirstLfConcat(a, b);
    var p := FirstLf(a);
    if p < |a| {
      var s := a + b;
      assert s[..p] == a[..p] && s[p + 1..] == a[p + 1..] + b;
      LinesOfChunks(a[p + 1..], b);
    }
  }

  lemma {:induction false} NoLfInResidue(s: string)
    ensures FirstLf(Residue(s)) == |Residue(s)|
    ensures Lines(Residue(s)) == [] && Residue(Residue(s)) == Residue(s)
    decreases |s|
  {
    hide Trim;
    if FirstLf(s) < |s| {
      NoLfInResidue(s[FirstLf(s) + 1..]);
    }
  }

  /** The lines delivered when the chunks arrive one after the other on top of `buffer`. */
  function LinesOf(buffer: string, chunks: seq<string>): seq<string>
    decreases |chunks|
  {
    if chunks == [] then []
    else Lines(buffer + chunks[0]) + LinesOf(Residue(buffer + chunks[0]), chunks[1..])
  }

  function ResidueOf(buffer: string, chunks: seq<string>): string
    decreases |chunks|
  {
    if chunks == [] then buffer else ResidueOf(Residue(buffer + chunks[0]), chunks[1..])
  }

  function Concatenation(chunks: seq<string>): string {
    if chunks == [] then [] else chunks[0] + Concatenation(chunks[1..])
  }

  /** Any way to cut a stream into chunks gives the lines and the residue of the whole stream. */
  lemma {:induction false} ChunkingIsIrrelevant(buffer: string, chunks: seq<string>)
    requires FirstLf(buffer) == |buffer|
    ensures LinesOf(buffer, chunks) == Lines(buffer + Concatenation(chunks))
    ensures ResidueOf(buffer, chunks) == Residue(buffer + Concatenation(chunks))
    decreases |chunks|
  {
    hide Trim, FirstLf, Lines, Residue;
    if chunks == [] {
      assert buffer + Concatenation(chunks) == buffer;
      LinesOfNoLf(buffer);
    } else {
      var first, rest := buffer + chunks[0], Concatenation(chunks[1..]);
      NoLfInResidue(first);
      ChunkingIsIrrelevant(Residue(first), chunks[1..]);
      LinesOfChunks(first, rest);
      assert buffer + (chunks[0] + rest) == first + rest;
    }
  }

  lemma LinesOfNoLf(s: string)
    requires FirstLf(s) == |s|
    ensures Lines(s) == [] && Residue(s) == s
  {
  }

  // ----- The loop of handleData ----------------------------------------------------------------

  /** `rxBuffer.search(/\r\n|\n/)`. */
  function SearchBreak(s: string): Option<nat> {
    if s == [] then None
    else if s[0] == '\n' || (s[0] == '\r' && |s| > 1 && s[1] == '\n') then Some(0)
    else
      var i :- SearchBreak(s[1..]);
      Some(1 + i)
  }

  /** `s.replace(/^\r?\n/, '')`. */
  function DropBreak(s: string): string {
    if s != [] && s[0] == '\n' then s[1..]
    else if |s| > 1 && s[0] == '\r' && s[1] == '\n' then s[2..]
    else s
  }

  lemma {:induction false} SearchIsFirstLf(s: string)
    ensures SearchBreak(s).None? <==> FirstLf(s) == |s|
    ensures SearchBreak(s).Some? ==>
              var i, p := SearchBreak(s).value, FirstLf(s);
              && p < |s|
              && (i == p || (i + 1 == p && s[i] == '\r'))
              && (i == p ==> p == 0 || s[p - 1] != '\r')
  {
    if s != [] {
      SearchIsFirstLf(s[1..]);
    }
  }

  lemma TrimStartEndsWith(s: string, c: char)
    requires IsSpace(c)
    ensures TrimStart(s + [c]) == if TrimStart(s) == [] then [] else TrimStart(s) + [c]
  {
    if s == [] {
      assert s + [c] == [c];
    } else {
      assert (s + [c])[1..] == s[1..] + [c];
      if IsSpace(s[0]) {
        TrimStartEndsWith(s[1..], c);
      }
    }
  }

  lemma TrimDropsTrailing(s: string, c: char)
    requires IsSpace(c)
    ensures Trim(s + [c]) == Trim(s)
  {
    TrimStartEndsWith(s, c);
    var t := TrimStart(s);
    if t != [] {
      assert (t + [c])[..|t|] == t;
    }
  }

  lemma SliceWithoutCr(s: string, i: nat)
    requires i < |s| && s[i] == '\r'
    ensures Trim(s[..i + 1]) == Trim(s[..i])
  {
    hide Trim;
    TrimDropsTrailing(s[..i], '\r');
    assert s[..i + 1] == s[..i] + ['\r'];
  }

  lemma BreakLeavesRest(s: string)
    requires SearchBreak(s).Some?
    ensures var i, p := SearchBreak(s).value, FirstLf(s);
            && i <= p < |s|
            && Trim(s[..i]) == Trim(s[..p])
            && DropBreak(s[i..]) == s[p + 1..]
  {
    hide Trim, SearchBreak, FirstLf;
    SearchIsFirstLf(s);
    var i, p := SearchBreak(s).value, FirstLf(s);
    var tail := s[i..];
    assert tail[0] == s[i];
    if i + 1 == p {
      SliceWithoutCr(s, i);
      assert tail[1] == s[p] && tail[2..] == s[p + 1..];
    } else {
      assert tail[1..] == s[p + 1..];
    }
  }

  /** One turn of the loop: the line it takes and the buffer it leaves. */
  lemma LoopTakesOneLine(s: string)
    requires SearchBreak(s).Some?
    ensures var i := SearchBreak(s).value;
            && i <= |s| && |DropBreak(s[i..])| < |s|
            && Lines(s) == (if Trim(s[..i]) == [] then [] else [Trim(s[..i])]) + Lines(DropBreak(s[i..]))
            && Residue(s) == Residue(DropBreak(s[i..]))
  {
    hide Trim, SearchBreak, FirstLf, DropBreak;
    BreakLeavesRest(s);
  }
}
