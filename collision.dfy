/**
 * What `handleCollision` tests after a move: the head against the walls,
 * the head against the other squares, and the head against the fruit,
 * with the square that eating a fruit adds to the end of the chain.
 */
module Collision {
  import opened Board
  import opened Input
  import opened Movement
  import opened Spawn

  /** `handleWallCollision`: the head has left [0, width) x [0, height). */
  predicate OutOfBounds(head: Segment, width: int, height: int) {
    head.x < 0 || head.x >= width || head.y < 0 || head.y >= height
  }

  /** `handleSelfCollision`: some square other than the head shares its position. */
  predicate HitsSelf(c: seq<Segment>)
    requires |c| >= 1
  {
    exists j :: 1 <= j < |c| && c[j].x == c[0].x && c[j].y == c[0].y
  }

  /**
   * The chain after a fruit is eaten: one new square at the previous
   * position of the last square.
   */
  function Grow(c: seq<Segment>): (r: seq<Segment>)
    requires |c| >= 1
    ensures |r| == |c| + 1 && r[..|c|] == c
    ensures r[|c|].x == c[|c| - 1].prevX && r[|c|].y == c[|c| - 1].prevY
  {
    c + [Square(c[|c| - 1].prevX, c[|c| - 1].prevY)]
  }

  /**
   * The square added after a tick's move fills exactly the cell the end of
   * the chain occupied before that move.
   */
  lemma GrowTakesVacatedCell(c: seq<Segment>, dir: int)
    requires |c| >= 1 && IsDir(dir)
    ensures |Grow(Advance(c, dir))| == |c| + 1
    ensures Grow(Advance(c, dir))[|c|].x == c[|c| - 1].x
    ensures Grow(Advance(c, dir))[|c|].y == c[|c| - 1].y
  {
    AdvanceFollows(c, dir);
  }

  /**
   * The square just behind the head can never trigger the self check:
   * after a move in a valid direction it stands where the head was, one
   * tile away from where the head is now.
   */
  lemma NeckIsSafe(c: seq<Segment>, dir: int)
    requires |c| >= 2 && IsDir(dir)
    ensures Advance(c, dir)[1].x != Advance(c, dir)[0].x || Advance(c, dir)[1].y != Advance(c, dir)[0].y
  {
    AdvanceFollows(c, dir);
  }

  /**
   * What the reversal of `TwoReadsCanReverse` does to a snake of three or
   * more squares that has just moved right: on the next tick the head steps
   * back onto the cell of the square behind it, and the self check fires.
   */
  lemma QuickTurnBitesNeck(c: seq<Segment>)
    requires |c| >= 3
    requires c[1].x == c[0].x - TileWidth && c[1].y == c[0].y
    ensures var up := Keys(false, false, true, false, false);
            var left := Keys(true, false, false, false, false);
            HitsSelf(Advance(c, NextDir(NextDir(Right, up), left)))
  {
    TwoReadsCanReverse();
    AdvanceFollows(c, Left);
    assert Advance(c, Left)[2].x == Advance(c, Left)[0].x;
  }

  /**
   * The fruit is respawned before the new square is added, so it can land
   * under that square: a lone head at (50, 0) that came from (0, 0) eats,
   * the first candidate (0, 0) is free and kept, and the new square then
   * appears at (0, 0).
   */
  lemma RespawnUnderNewSquare()
    ensures var c := [Segment(50, 0, 0, 0)];
            var p := SpawnFrom(c, [0.0, 0.0], 50, 0);
            && p.placed && p.x == 0 && p.y == 0
            && Occupied(Grow(c), p.x, p.y)
  {
    var c := [Segment(50, 0, 0, 0)];
    assert RandomPos(0.0, Columns) == 0 && RandomPos(0.0, Rows) == 0;
    assert !Occupied(c, 0, 0);
    assert Grow(c)[1] == Square(0, 0);
  }
}
