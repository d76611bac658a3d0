/**
 * One gameplay tick of movement: `updateHead` moves the head one tile,
 * then `updateTail` walks the chain once so that every square steps into
 * the cell the square ahead of it has just left.
 */
module Movement {
  import opened Board

  /**
   * The head after `updateHead`: for a direction it remembers where it was
   * and moves one tile along the direction's unit vector; any other value
   * of `dir` matches no case of the switch and leaves it alone.
   */
  function MoveHead(s: Segment, dir: int): Segment {
    if IsDir(dir) then Segment(s.x + TileWidth * DX(dir), s.y + TileWidth * DY(dir), s.x, s.y)
    else s
  }

  /**
   * The chain after `updateTail`: the head is left alone; square 1 moves to
   * the head's recorded previous position; every later square moves to
   * where the square ahead of it stood before the walk; and each square
   * that moved remembers its own old position.
   */
  function Shifted(c: seq<Segment>): (r: seq<Segment>)
    ensures |r| == |c|
  {
    seq(|c|, i requires 0 <= i < |c| =>
      if i == 0 then c[0]
      else if i == 1 then Segment(c[0].prevX, c[0].prevY, c[1].x, c[1].y)
      else Segment(c[i - 1].x, c[i - 1].y, c[i].x, c[i].y))
  }

  /** The chain after the head move and the tail walk of one tick. */
  function Advance(c: seq<Segment>, dir: int): (r: seq<Segment>)
    requires |c| >= 1
    ensures |r| == |c|
  {
    Shifted(c[0 := MoveHead(c[0], dir)])
  }

  /**
   * For each of the four directions the head records its old position and
   * changes exactly one coordinate by one tile: left x - 50, right x + 50,
   * up y - 50, down y + 50.
   */
  lemma MoveHeadStep(s: Segment, dir: int)
    ensures IsDir(dir) ==> MoveHead(s, dir).prevX == s.x && MoveHead(s, dir).prevY == s.y
    ensures dir == Left ==> MoveHead(s, dir).x == s.x - TileWidth && MoveHead(s, dir).y == s.y
    ensures dir == Right ==> MoveHead(s, dir).x == s.x + TileWidth && MoveHead(s, dir).y == s.y
    ensures dir == Up ==> MoveHead(s, dir).x == s.x && MoveHead(s, dir).y == s.y - TileWidth
    ensures dir == Down ==> MoveHead(s, dir).x == s.x && MoveHead(s, dir).y == s.y + TileWidth
    ensures !IsDir(dir) ==> MoveHead(s, dir) == s
  {
  }

  /** A tile-aligned square stays tile-aligned when it moves. */
  lemma MoveHeadAligned(s: Segment, dir: int)
    requires Aligned(s)
    ensures Aligned(MoveHead(s, dir))
  {
  }

  /** A tile-aligned chain stays tile-aligned after the tail walk. */
  lemma ShiftedAligned(c: seq<Segment>)
    requires ChainAligned(c)
    ensures ChainAligned(Shifted(c))
  {
    var r := Shifted(c);
    forall i | 0 <= i < |r|
      ensures Aligned(r[i])
    {
      assert Aligned(c[i]);
      if i == 1 {
        assert Aligned(c[0]);
      } else if i > 1 {
        assert Aligned(c[i - 1]);
      }
    }
  }

  lemma AdvanceAligned(c: seq<Segment>, dir: int)
    requires |c| >= 1 && ChainAligned(c)
    ensures ChainAligned(Advance(c, dir))
  {
    var moved := c[0 := MoveHead(c[0], dir)];
    MoveHeadAligned(c[0], dir);
    assert ChainAligned(moved) by {
      forall i | 0 <= i < |moved|
        ensures Aligned(moved[i])
      {
        if i > 0 {
          assert moved[i] == c[i];
        }
      }
    }
    ShiftedAligned(moved);
  }

  /**
   * After one tick in a valid direction the chain keeps its length, the
   * head has taken one step and remembers where it was, and every other
   * square occupies the position the square ahead of it held before the
   * tick and remembers its own position from before the tick.
   */
  lemma AdvanceFollows(c: seq<Segment>, dir: int)
    requires |c| >= 1 && IsDir(dir)
    ensures |Advance(c, dir)| == |c|
    ensures Advance(c, dir)[0].x == c[0].x + TileWidth * DX(dir)
    ensures Advance(c, dir)[0].y == c[0].y + TileWidth * DY(dir)
    ensures Advance(c, dir)[0].prevX == c[0].x && Advance(c, dir)[0].prevY == c[0].y
    ensures forall i :: 1 <= i < |c| ==>
      && Advance(c, dir)[i].x == c[i - 1].x && Advance(c, dir)[i].y == c[i - 1].y
      && Advance(c, dir)[i].prevX == c[i].x && Advance(c, dir)[i].prevY == c[i].y
  {
  }

  /** The opening tick: a head at (100, 150) facing right moves to (150, 150). */
  lemma OpeningMove()
    ensures Advance([Square(100, 150)], Right) == [Segment(150, 150, 100, 150)]
  {
  }
}
