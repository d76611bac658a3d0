/**
 * Grid geometry of the Snake game: the tile size, the four directions,
 * the random cell picker and the square sprites that make up the snake.
 */
module Board {

  /** Side of one grid tile, in pixels (`tileWidth`). */
  const TileWidth: int := 50

  /** The fruit is placed on a grid of 8 columns by 12 rows. */
  const Columns: int := 8
  const Rows: int := 12

  /**
   * Directions are plain integers: 0 left, 1 right, 2 up, 3 down. The
   * game's `dir` is an ordinary number, so an `int` that is one of the four
   * is told apart by `IsDir`, and `Dir` is the type of exactly those.
   */
  predicate IsDir(d: int) {
    0 <= d < 4
  }

  type Dir = d: int | IsDir(d)

  const Left: Dir := 0
  const Right: Dir := 1
  const Up: Dir := 2
  const Down: Dir := 3

  /** The direction that would turn the snake straight back onto itself. */
  function Opposite(d: Dir): Dir {
    if d == Left then Right
    else if d == Right then Left
    else if d == Up then Down
    else Up
  }

  /** Unit vector of a direction, with y growing downwards as on a canvas. */
  function DX(d: Dir): int {
    if d == Left then -1 else if d == Right then 1 else 0
  }

  function DY(d: Dir): int {
    if d == Up then -1 else if d == Down then 1 else 0
  }

  /** A value returned by `Math.random()`. */
  type Draw = r: real | 0.0 <= r < 1.0

  /**
   * `randomPos(max)`: a random tile index below `max`, scaled to pixels.
   * Every result is the left (or top) edge of one of the first `max` tiles.
   */
  function RandomPos(r: Draw, max: int): (p: int)
    requires max > 0
    ensures p % TileWidth == 0
    ensures 0 <= p < max * TileWidth
  {
    var k := (r * max as real).Floor;
    FloorBelow(r, max);
    k * TileWidth
  }

  /** `Math.floor(r * max)` is a tile index below `max`. */
  lemma FloorBelow(r: Draw, max: int)
    requires max > 0
    ensures 0 <= (r * max as real).Floor < max
  {
    var m := max as real;
    var z := r * m;
    assert 0.0 <= z by {
      assert 0.0 <= r && 0.0 < m;
    }
    assert z < m by {
      assert m - z == (1.0 - r) * m;
      assert 0.0 < 1.0 - r;
    }
    var k := z.Floor;
    assert k as real <= z;
    assert k as real < m;
  }

  /** A cell the fruit can be placed on. */
  predicate InGrid(x: int, y: int) {
    && x % TileWidth == 0 && 0 <= x < Columns * TileWidth
    && y % TileWidth == 0 && 0 <= y < Rows * TileWidth
  }

  /**
   * One snake square: its position and the position it held before its
   * last move, in pixels (the fields of `makeSnakeSquare` that the
   * gameplay reads; colour and size only matter for drawing).
   */
  datatype Segment = Segment(x: int, y: int, prevX: int, prevY: int)

  /** `makeSnakeSquare(x, y)`: a square whose previous position is its position. */
  function Square(x: int, y: int): Segment {
    Segment(x, y, x, y)
  }

  /** Every coordinate of the square lies on a tile edge. */
  predicate Aligned(s: Segment) {
    && s.x % TileWidth == 0 && s.y % TileWidth == 0
    && s.prevX % TileWidth == 0 && s.prevY % TileWidth == 0
  }

  predicate ChainAligned(c: seq<Segment>) {
    forall i :: 0 <= i < |c| ==> Aligned(c[i])
  }

  /** Some square of the chain sits on the cell (x, y). */
  predicate Occupied(c: seq<Segment>, x: int, y: int) {
    exists i :: 0 <= i < |c| && c[i].x == x && c[i].y == y
  }

  /** Scanning one more square adds exactly that square's cell. */
  lemma OccupiedExtend(c: seq<Segment>, k: nat, x: int, y: int)
    requires k < |c|
    ensures Occupied(c[..k + 1], x, y) <==> Occupied(c[..k], x, y) || (c[k].x == x && c[k].y == y)
  {
    assert c[..k + 1] == c[..k] + [c[k]];
    if Occupied(c[..k + 1], x, y) {
      var i :| 0 <= i < k + 1 && c[..k + 1][i].x == x && c[..k + 1][i].y == y;
      if i < k {
        assert c[..k][i] == c[i];
      }
    }
  }
}
