/**
 * `spawnFruit`: rejection sampling of the fruit's cell. Candidates are
 * drawn as (x, y) pairs from a stream of `Math.random()` results, and the
 * first candidate that no square of the chain covers is kept. The source
 * loops until it finds one; here the stream is finite, and running out of
 * draws is reported as a placement that did not happen.
 */
module Spawn {
  import opened Board

  /**
   * Where the fruit ended up, the draws not consumed, and whether a free
   * cell was found before the draws ran out.
   */
  datatype Placement = Placement(x: int, y: int, rest: seq<Draw>, placed: bool)

  /** `rest` is what is left of `draws` once some draws were taken from the front. */
  predicate SuffixOf(rest: seq<Draw>, draws: seq<Draw>) {
    |rest| <= |draws| && rest == draws[|draws| - |rest|..]
  }

  lemma SuffixOfDrop(rest: seq<Draw>, draws: seq<Draw>)
    requires |draws| >= 2 && SuffixOf(rest, draws[2..])
    ensures SuffixOf(rest, draws)
  {
    assert draws[2..][|draws| - 2 - |rest|..] == draws[|draws| - |rest|..];
  }

  /** A drawn pair is always a cell of the fruit grid. */
  function Candidate(rx: Draw, ry: Draw): (cell: (int, int))
    ensures InGrid(cell.0, cell.1)
  {
    (RandomPos(rx, Columns), RandomPos(ry, Rows))
  }

  /**
   * Check the candidate (x, y) against the chain and draw a new pair for
   * as long as it is covered.
   */
  function Resample(c: seq<Segment>, x: int, y: int, rest: seq<Draw>): (p: Placement)
    ensures InGrid(x, y) ==> InGrid(p.x, p.y)
    ensures p.placed ==> !Occupied(c, p.x, p.y)
    ensures !p.placed ==> Occupied(c, p.x, p.y) && |p.rest| < 2
    decreases |rest|
  {
    if !Occupied(c, x, y) then Placement(x, y, rest, true)
    else if |rest| < 2 then Placement(x, y, rest, false)
    else
      var cell := Candidate(rest[0], rest[1]);
      Resample(c, cell.0, cell.1, rest[2..])
  }

  /**
   * The whole of `spawnFruit` for the chain `c`, the fruit at (fx, fy) and
   * the draws `draws`: a first pair is drawn unconditionally, then
   * resampled while covered. Fewer than two draws leave the fruit where it was.
   */
  function SpawnFrom(c: seq<Segment>, draws: seq<Draw>, fx: int, fy: int): (p: Placement)
    requires InGrid(fx, fy)
    ensures InGrid(p.x, p.y)
    ensures p.placed ==> !Occupied(c, p.x, p.y)
    ensures !p.placed ==> |p.rest| < 2
  {
    if |draws| < 2 then Placement(fx, fy, draws, false)
    else
      var cell := Candidate(draws[0], draws[1]);
      Resample(c, cell.0, cell.1, draws[2..])
  }

  /** A covered candidate is thrown away and the next pair of draws decides. */
  lemma Redraw(c: seq<Segment>, x: int, y: int, rest: seq<Draw>)
    requires Occupied(c, x, y) && |rest| >= 2
    ensures Resample(c, x, y, rest)
         == Resample(c, RandomPos(rest[0], Columns), RandomPos(rest[1], Rows), rest[2..])
  {
  }

  /**
   * The k-th candidate a resampling run from (x, y) looks at: (x, y) itself,
   * then one cell per pair of draws, in stream order.
   */
  function CandidateAt(x: int, y: int, rest: seq<Draw>, k: nat): (int, int)
    requires 2 * k <= |rest|
  {
    if k == 0 then (x, y) else Candidate(rest[2 * k - 2], rest[2 * k - 1])
  }

  /** After one redraw, the candidates of the rest of the run are the later ones. */
  lemma CandidateAtShift(x: int, y: int, rest: seq<Draw>, j: nat)
    requires 2 * j + 2 <= |rest|
    ensures var cell := Candidate(rest[0], rest[1]);
            CandidateAt(cell.0, cell.1, rest[2..], j) == CandidateAt(x, y, rest, j + 1)
  {
    if j > 0 {
      assert rest[2..][2 * j - 2] == rest[2 * j] && rest[2..][2 * j - 1] == rest[2 * j + 1];
    }
  }

  /**
   * Resampling keeps the first free candidate: when every candidate before
   * the k-th is covered and the k-th is not, the fruit goes to the k-th and
   * exactly the draws after its pair are left.
   */
  lemma {:induction false} FirstFreeCandidate(c: seq<Segment>, x: int, y: int, rest: seq<Draw>, k: nat)
    requires 2 * k <= |rest|
    requires forall j :: 0 <= j < k ==> Occupied(c, CandidateAt(x, y, rest, j).0, CandidateAt(x, y, rest, j).1)
    requires !Occupied(c, CandidateAt(x, y, rest, k).0, CandidateAt(x, y, rest, k).1)
    ensures var p := Resample(c, x, y, rest);
            && p.placed && (p.x, p.y) == CandidateAt(x, y, rest, k) && p.rest == rest[2 * k..]
    decreases k
  {
    if k > 0 {
      assert Occupied(c, CandidateAt(x, y, rest, 0).0, CandidateAt(x, y, rest, 0).1);
      var cell := Candidate(rest[0], rest[1]);
      forall j | 0 <= j <= k - 1
        ensures CandidateAt(cell.0, cell.1, rest[2..], j) == CandidateAt(x, y, rest, j + 1)
      {
        CandidateAtShift(x, y, rest, j);
      }
      FirstFreeCandidate(c, cell.0, cell.1, rest[2..], k - 1);
      assert rest[2..][2 * (k - 1)..] == rest[2 * k..];
    }
  }

  /**
   * The other direction: when every candidate the draws can supply is
   * covered, no cell is found, and the fruit is left on the last candidate.
   */
  lemma {:induction false} AllCoveredGivesUp(c: seq<Segment>, x: int, y: int, rest: seq<Draw>)
    requires forall j: nat :: 2 * j <= |rest| ==> Occupied(c, CandidateAt(x, y, rest, j).0, CandidateAt(x, y, rest, j).1)
    ensures var p := Resample(c, x, y, rest);
            && !p.placed && (p.x, p.y) == CandidateAt(x, y, rest, |rest| / 2) && p.rest == rest[2 * (|rest| / 2)..]
    decreases |rest|
  {
    assert Occupied(c, CandidateAt(x, y, rest, 0).0, CandidateAt(x, y, rest, 0).1);
    if |rest| >= 2 {
      var cell := Candidate(rest[0], rest[1]);
      forall j: nat | 2 * j <= |rest[2..]|
        ensures Occupied(c, CandidateAt(cell.0, cell.1, rest[2..], j).0, CandidateAt(cell.0, cell.1, rest[2..], j).1)
      {
        CandidateAtShift(x, y, rest, j);
        assert Occupied(c, CandidateAt(x, y, rest, j + 1).0, CandidateAt(x, y, rest, j + 1).1);
      }
      AllCoveredGivesUp(c, cell.0, cell.1, rest[2..]);
      var n := |rest[2..]| / 2;
      assert |rest| / 2 == n + 1;
      CandidateAtShift(x, y, rest, n);
      assert rest[2..][2 * n..] == rest[2 * (n + 1)..];
    }
  }

  /**
   * The whole respawn in stream terms: the k-th pair of draws names the
   * k-th candidate, and the fruit goes to the first candidate no square
   * covers, leaving the draws after its pair.
   */
  lemma SpawnFirstFree(c: seq<Segment>, draws: seq<Draw>, fx: int, fy: int, k: nat)
    requires InGrid(fx, fy) && 2 * k + 2 <= |draws|
    requires forall j :: 0 <= j < k ==>
      Occupied(c, Candidate(draws[2 * j], draws[2 * j + 1]).0, Candidate(draws[2 * j], draws[2 * j + 1]).1)
    requires !Occupied(c, Candidate(draws[2 * k], draws[2 * k + 1]).0, Candidate(draws[2 * k], draws[2 * k + 1]).1)
    ensures var p := SpawnFrom(c, draws, fx, fy);
            && p.placed && (p.x, p.y) == Candidate(draws[2 * k], draws[2 * k + 1])
            && p.rest == draws[2 * k + 2..]
  {
    var cell := Candidate(draws[0], draws[1]);
    var rest := draws[2..];
    forall j | 0 <= j <= k
      ensures CandidateAt(cell.0, cell.1, rest, j) == Candidate(draws[2 * j], draws[2 * j + 1])
    {
      if j > 0 {
        assert rest[2 * j - 2] == draws[2 * j] && rest[2 * j - 1] == draws[2 * j + 1];
      }
    }
    FirstFreeCandidate(c, cell.0, cell.1, rest, k);
    assert rest[2 * k..] == draws[2 * k + 2..];
  }

  /** The draws are consumed from the front, two per candidate. */
  lemma {:induction false} ResampleConsumesFront(c: seq<Segment>, x: int, y: int, rest: seq<Draw>)
    ensures SuffixOf(Resample(c, x, y, rest).rest, rest)
    decreases |rest|
  {
    if Occupied(c, x, y) && |rest| >= 2 {
      var cell := Candidate(rest[0], rest[1]);
      ResampleConsumesFront(c, cell.0, cell.1, rest[2..]);
      SuffixOfDrop(Resample(c, cell.0, cell.1, rest[2..]).rest, rest);
    }
  }

  lemma SpawnConsumesFront(c: seq<Segment>, draws: seq<Draw>, fx: int, fy: int)
    requires InGrid(fx, fy)
    ensures SuffixOf(SpawnFrom(c, draws, fx, fy).rest, draws)
  {
    if |draws| >= 2 {
      var cell := Candidate(draws[0], draws[1]);
      ResampleConsumesFront(c, cell.0, cell.1, draws[2..]);
      SuffixOfDrop(Resample(c, cell.0, cell.1, draws[2..]).rest, draws);
    }
  }
}
