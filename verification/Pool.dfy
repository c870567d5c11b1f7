/** The round-robin picker of the modem pool (utils/pool.js). */
module Pool {
  import opened Wrappers

  // ----- Choosing --------------------------------------------------------------------------------

  predicate Distinct(ids: seq<string>) {
    forall i, j :: 0 <= i < j < |ids| ==> ids[i] != ids[j]
  }

  /** `list.filter(isConnected)`. */
  function Connected(ids: seq<string>, up: set<string>): seq<string> {
    if ids == [] then []
    else (if ids[0] in up then [ids[0]] else []) + Connected(ids[1..], up)
  }

  function Candidates(ids: seq<string>, up: set<string>): seq<string> {
    var connected := Connected(ids, up);
    if |connected| > 0 then connected else ids
  }

  /** The pick at a value of the counter; a pool without modems has none to give. */
  function PickAt(candidates: seq<string>, rr: nat): Option<string> {
    if candidates == [] then None else Some(candidates[rr % |candidates|])
  }

  class ModemPool {
    const modems: seq<string>
    var rr: nat

    constructor (ids: seq<string>)
      ensures modems == ids && rr == 0
    {
      modems, rr := ids, 0;
    }

    method Pick(up: set<string>) returns (picked: Option<string>)
      modifies this`rr
      ensures rr == old(rr) + 1
      ensures picked == PickAt(Candidates(modems, up), old(rr))
      ensures picked.Some? ==> picked.value in modems
      ensures picked.None? <==> modems == []
      ensures picked.Some? && picked.value !in up ==> forall id :: id in modems ==> id !in up
    {
      var connected := Connected(modems, up);
      var candidates := if |connected| > 0 then connected else modems;
      ConnectedAre(modems, up);
      if candidates == [] {
        picked := None;
      } else {
        picked := Some(candidates[rr % |candidates|]);
      }
      rr := rr + 1;
    }
  }

  lemma {:induction false} ConnectedAre(ids: seq<string>, up: set<string>)
    ensures forall id :: id in Connected(ids, up) <==> id in ids && id in up
  {
    if ids != [] {
      ConnectedAre(ids[1..], up);
      assert ids == [ids[0]] + ids[1..];
    }
  }

  /** A disconnected modem is a candidate only if no modem is connected. */
  lemma CandidatesAre(ids: seq<string>, up: set<string>, id: string)
    ensures id in Candidates(ids, up) <==> id in ids && (id in up || forall other :: other in ids ==> other !in up)
  {
    ConnectedAre(ids, up);
    var connected := Connected(ids, up);
    if |connected| > 0 {
      assert connected[0] in ids && connected[0] in up;
    }
  }

  lemma {:induction false} ConnectedAreDistinct(ids: seq<string>, up: set<string>)
    requires Distinct(ids)
    ensures Distinct(Connected(ids, up))
  {
    if ids != [] {
      ConnectedAreDistinct(ids[1..], up);
      ConnectedAre(ids[1..], up);
      forall i | 0 <= i < |Connected(ids[1..], up)|
        ensures Connected(ids[1..], up)[i] != ids[0]
      {
        assert Connected(ids[1..], up)[i] in ids[1..];
      }
    }
  }

  // ----- Fairness --------------------------------------------------------------------------------

  /** The picks of successive calls, one for each set of modems that is up at its call. */
  function Picks(ids: seq<string>, ups: seq<set<string>>, rr: nat): seq<Option<string>> {
    if ups == [] then [] else [PickAt(Candidates(ids, ups[0]), rr)] + Picks(ids, ups[1..], rr + 1)
  }

  function Residue(i: nat, n: nat): nat
    requires n > 0
  {
    i % n
  }

  /** How many of the `k` counter values from `start` select candidate `j` of `n`. */
  function Hits(start: nat, k: nat, n: nat, j: nat): nat
    requires n > 0
    decreases k
  {
    if k == 0 then 0 else (if Residue(start, n) == j then 1 else 0) + Hits(start + 1, k - 1, n, j)
  }

  lemma {:induction false} HitsSplit(start: nat, a: nat, b: nat, n: nat, j: nat)
    requires n > 0
    ensures Hits(start, a + b, n, j) == Hits(start, a, n, j) + Hits(start + a, b, n, j)
    decreases a
  {
    hide Residue;
    if a > 0 {
      HitsSplit(start + 1, a - 1, b, n, j);
    }
  }

  lemma {:induction false} FirstRound(s: nat, n: nat, j: nat)
    requires s <= n && j < n
    ensures Hits(s, n - s, n, j) == if s <= j then 1 else 0
    decreases n - s
  {
    hide Residue;
    if s < n {
      FirstRound(s + 1, n, j);
      SmallResidue(s, n);
    }
  }

  lemma SmallResidue(i: nat, n: nat)
    requires i < n
    ensures Residue(i, n) == i
  {
  }

  lemma ResidueRepeats(i: nat, n: nat)
    requires n > 0
    ensures Residue(i + n, n) == Residue(i, n)
    ensures (i + n) / n == i / n + 1
  {
    var q, r := (i + n) / n, (i + n) % n;
    var p, t := i / n, i % n;
    var d := q - p - 1;
    assert n * d == n * q - n * p - n;
    SmallMultiple(n, d);
  }

  lemma {:induction false} MultipleIsLarge(n: int, d: nat)
    requires n >= 0 && d > 0
    ensures n * d >= n
  {
    if d > 1 {
      MultipleIsLarge(n, d - 1);
    }
  }

  lemma SmallMultiple(n: int, d: int)
    requires 0 - n < n * d < n
    ensures d == 0
  {
    if d > 0 {
      MultipleIsLarge(n, d);
    }
  }

  /** Any round of `n` consecutive counter values selects every candidate exactly once. */
  lemma {:induction false} OncePerRound(start: nat, n: nat, j: nat)
    requires j < n
    ensures Hits(start, n, n, j) == 1
  {
    hide Residue;
    if start == 0 {
      FirstRound(0, n, j);
    } else {
      OncePerRound(start - 1, n, j);
      HitsSplit(start - 1, 1, n - 1, n, j);
      HitsSplit(start, n - 1, 1, n, j);
      ResidueRepeats(start - 1, n);
      assert Hits(start + (n - 1), 1, n, j) == Hits(start - 1, 1, n, j);
    }
  }

  lemma {:induction false} HitsAreEven(start: nat, k: nat, n: nat, j: nat)
    requires j < n
    ensures k / n <= Hits(start, k, n, j) <= k / n + 1
    decreases k
  {
    hide Residue;
    OncePerRound(start, n, j);
    if k < n {
      HitsSplit(start, k, n - k, n, j);
    } else {
      HitsSplit(start, n, k - n, n, j);
      HitsAreEven(start + n, k - n, n, j);
      ResidueRepeats(k - n, n);
    }
  }

  ghost predicate Unchanged(ids: seq<string>, ups: seq<set<string>>, candidates: seq<string>) {
    forall i :: 0 <= i < |ups| ==> Candidates(ids, ups[i]) == candidates
  }

  lemma {:induction false} PicksAreHits(
    ids: seq<string>, ups: seq<set<string>>, rr: nat, candidates: seq<string>, j: nat)
    requires Distinct(candidates) && j < |candidates| && Unchanged(ids, ups, candidates)
    ensures multiset(Picks(ids, ups, rr))[Some(candidates[j])] == Hits(rr, |ups|, |candidates|, j)
    decreases |ups|
  {
    hide Candidates;
    if ups != [] {
      PicksAreHits(ids, ups[1..], rr + 1, candidates, j);
      var first := PickAt(candidates, rr);
      assert Candidates(ids, ups[0]) == candidates;
      assert first == Some(candidates[Residue(rr, |candidates|)]);
      assert multiset(Picks(ids, ups, rr)) == multiset{first} + multiset(Picks(ids, ups[1..], rr + 1));
    }
  }

  /**
    While the candidates stay the same, over any run of calls, from any value of the counter, the
    shares of two candidates differ by one pick at most.
   */
  lemma PicksAreFair(ids: seq<string>, ups: seq<set<string>>, rr: nat, candidates: seq<string>, a: string, b: string)
    requires Distinct(ids) && Unchanged(ids, ups, candidates) && a in candidates && b in candidates
    ensures var picks := multiset(Picks(ids, ups, rr));
            picks[Some(a)] <= picks[Some(b)] + 1
  {
    hide Distinct, Connected, Hits;
    if ups == [] {
      return;
    }
    ConnectedAreDistinct(ids, ups[0]);
    assert candidates == Candidates(ids, ups[0]);
    var i :| 0 <= i < |candidates| && candidates[i] == a;
    var j :| 0 <= j < |candidates| && candidates[j] == b;
    PicksAreHits(ids, ups, rr, candidates, i);
    PicksAreHits(ids, ups, rr, candidates, j);
    HitsAreEven(rr, |ups|, |candidates|, i);
    HitsAreEven(rr, |ups|, |candidates|, j);
  }
}
