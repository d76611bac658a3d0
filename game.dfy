/**
 * The mutable state of the game and the per-frame `update()` step.
 *
 * The head sprite `snake` and the squares linked from it through `tail`
 * are the sequence `chain`, head first. The direction and the score, which
 * the source keeps on the head sprite, and the globals `gameOver` and
 * `frameCounter` are fields of `Game`; so is the fruit sprite's position.
 * `Math.random()` is a stream of draws handed to the operations that need
 * it; each returns the draws it did not consume.
 */
module SnakeGame {
  import opened Board
  import opened Input
  import opened Movement
  import opened Collision
  import opened Spawn

  class Game {
    /** `canvas.width` and `canvas.height`, set by the host page. */
    const width: int
    const height: int

    var chain: seq<Segment>
    var dir: int
    var score: int
    var gameOver: bool
    var frameCounter: int
    var fruitX: int
    var fruitY: int

    /**
     * There is always a head, the direction is one of the four, the score
     * counts the squares behind the head, every square is tile-aligned and
     * the fruit is on a cell of its grid.
     */
    ghost predicate Valid()
      reads this
    {
      && |chain| >= 1
      && IsDir(dir)
      && score == |chain| - 1
      && frameCounter >= 1
      && ChainAligned(chain)
      && InGrid(fruitX, fruitY)
    }

    /**
     * The state when the page loads: the fruit at a random cell (not
     * checked against the snake), a lone head at (100, 150) facing right,
     * and the frame counter at 1.
     */
    constructor (width: int, height: int, rx: Draw, ry: Draw)
      ensures Valid()
      ensures this.width == width && this.height == height
      ensures chain == [Square(100, 150)] && dir == Right && score == 0
      ensures !gameOver && frameCounter == 1
      ensures fruitX == RandomPos(rx, Columns) && fruitY == RandomPos(ry, Rows)
    {
      this.width := width;
      this.height := height;
      fruitX := RandomPos(rx, Columns);
      fruitY := RandomPos(ry, Rows);
      frameCounter := 1;
      gameOver := false;
      chain := [Square(100, 150)];
      dir := Right;
      score := 0;
    }

    /**
     * `handleInput`: space after a game over puts a lone head back at
     * (100, 150) facing right with score 0 (its previous position is kept);
     * then the arrow keys steer. This one call never sets the direction to
     * the opposite of the one it starts from; two calls between moves can
     * (`TwoReadsCanReverse`).
     */
    method HandleInput(keys: Keys)
      requires Valid()
      modifies this`chain, this`dir, this`score, this`gameOver
      ensures Valid()
      ensures var restart := old(gameOver) && keys.space;
        && chain == (if restart then [old(chain)[0].(x := 100, y := 150)] else old(chain))
        && score == (if restart then 0 else old(score))
        && gameOver == (old(gameOver) && !keys.space)
        && dir == NextDir(if restart then Right else old(dir), keys)
      ensures dir != Opposite(if old(gameOver) && keys.space then Right else old(dir))
    {
      if gameOver && keys.space {
        score := 0;
        chain := [chain[0].(x := 100, y := 150)];
        gameOver := false;
        dir := Right;
      }
      ghost var before := dir;
      if keys.left && dir != Right {
        dir := Left;
        Priority(before, keys, 0);
      } else if keys.right && dir != Left {
        dir := Right;
        Priority(before, keys, 1);
      } else if keys.up && dir != Down {
        dir := Up;
        Priority(before, keys, 2);
      } else if keys.down && dir != Up {
        dir := Down;
        Priority(before, keys, 3);
      } else {
        SteerNone(before, Arrows(keys));
      }
      NoReversal(before, keys);
    }

    /** `updateHead`: the head takes one step in the current direction. */
    method UpdateHead()
      requires Valid()
      modifies this`chain
      ensures Valid()
      ensures chain == old(chain)[0 := MoveHead(old(chain)[0], dir)]
    {
      var head := chain[0];
      if dir == Left {
        head := head.(prevX := head.x, prevY := head.y, x := head.x - TileWidth);
      } else if dir == Right {
        head := head.(prevX := head.x, prevY := head.y, x := head.x + TileWidth);
      } else if dir == Up {
        head := head.(prevX := head.x, prevY := head.y, y := head.y - TileWidth);
      } else if dir == Down {
        head := head.(prevX := head.x, prevY := head.y, y := head.y + TileWidth);
      }
      MoveHeadAligned(chain[0], dir);
      chain := chain[0 := head];
    }

    /**
     * `updateTail`: one walk down the chain in which every square after
     * the head steps into the previous position of the square ahead of it.
     */
    method UpdateTail()
      requires Valid()
      modifies this`chain
      ensures Valid()
      ensures chain == Shifted(old(chain))
    {
      ghost var walked := Shifted(chain);
      ghost var before := chain;
      var ahead := chain[0];
      var i := 1;
      while i < |chain|
        invariant 1 <= i <= |chain| == |before|
        invariant forall j :: 0 <= j < i ==> chain[j] == walked[j]
        invariant forall j :: i <= j < |chain| ==> chain[j] == before[j]
        invariant ahead == walked[i - 1]
      {
        var seg := chain[i];
        assert seg == before[i];
        seg := seg.(prevX := seg.x, prevY := seg.y, x := ahead.prevX, y := ahead.prevY);
        assert seg == walked[i];
        chain := chain[i := seg];
        ahead := seg;
        i := i + 1;
      }
      assert chain == walked;
      ShiftedAligned(before);
    }

    /** `handleWallCollision`: leaving the board ends the game. */
    method HandleWallCollision()
      requires |chain| >= 1
      modifies this`gameOver
      ensures gameOver == (old(gameOver) || OutOfBounds(chain[0], width, height))
    {
      var head := chain[0];
      if head.x < 0 {
        gameOver := true;
      } else if head.x >= width {
        gameOver := true;
      } else if head.y < 0 {
        gameOver := true;
      } else if head.y >= height {
        gameOver := true;
      }
    }

    /** `handleSelfCollision`: touching any square behind the head ends the game. */
    method HandleSelfCollision()
      requires |chain| >= 1
      modifies this`gameOver
      ensures gameOver == (old(gameOver) || HitsSelf(chain))
    {
      var i := 1;
      while i < |chain|
        invariant 1 <= i <= |chain|
        invariant gameOver == (old(gameOver) || HitsSelf(chain[..i]))
      {
        if chain[i].x == chain[0].x && chain[i].y == chain[0].y {
          gameOver := true;
        }
        assert chain[..i + 1] == chain[..i] + [chain[i]];
        i := i + 1;
      }
      assert chain[..i] == chain;
    }

    /**
     * The inner loop of `spawnFruit`: walk the chain from the head and stop
     * at the first square on the cell (x, y).
     */
    method Covers(x: int, y: int) returns (covered: bool)
      ensures covered == Occupied(chain, x, y)
    {
      covered := false;
      var square := 0;
      while square < |chain|
        invariant 0 <= square <= |chain|
        invariant !Occupied(chain[..square], x, y)
      {
        if chain[square].x == x && chain[square].y == y {
          covered := true;
          break;
        }
        OccupiedExtend(chain, square, x, y);
        square := square + 1;
      }
      if !covered {
        assert chain[..square] == chain;
      }
    }

    /**
     * `spawnFruit`: draw a cell, and draw again for as long as some square
     * of the chain covers it. Returns false when the draws run out first,
     * where the source would go on drawing.
     */
    method SpawnFruit(draws: seq<Draw>) returns (placed: bool, rest: seq<Draw>)
      requires InGrid(fruitX, fruitY)
      modifies this`fruitX, this`fruitY
      ensures var p := SpawnFrom(chain, draws, old(fruitX), old(fruitY));
        fruitX == p.x && fruitY == p.y && placed == p.placed && rest == p.rest
      ensures InGrid(fruitX, fruitY)
      ensures placed ==> !Occupied(chain, fruitX, fruitY)
      ensures !placed ==> |rest| < 2
    {
      ghost var target := SpawnFrom(chain, draws, fruitX, fruitY);
      rest := draws;
      if |rest| < 2 {
        placed := false;
        return;
      }
      fruitX := RandomPos(rest[0], Columns);
      fruitY := RandomPos(rest[1], Rows);
      rest := rest[2..];
      var validPos := false;
      while !validPos
        invariant validPos ==> !Occupied(chain, fruitX, fruitY)
        invariant Resample(chain, fruitX, fruitY, rest) == target
        decreases |rest|, !validPos
      {
        validPos := true;
        var covered := Covers(fruitX, fruitY);
        if covered {
          if |rest| < 2 {
            placed := false;
            return;
          }
          Redraw(chain, fruitX, fruitY, rest);
          fruitX := RandomPos(rest[0], Columns);
          fruitY := RandomPos(rest[1], Rows);
          rest := rest[2..];
          validPos := false;
        }
      }
      placed := true;
    }

    /**
     * `handleFruitCollision`: a head on the fruit scores one point, moves
     * the fruit to a free cell and adds a square at the previous position
     * of the last square. When the draws run out during the respawn the
     * step stops there (`ok` is false), where the source would still be
     * drawing.
     */
    method HandleFruitCollision(draws: seq<Draw>) returns (ok: bool, rest: seq<Draw>)
      requires Valid()
      modifies this`chain, this`score, this`fruitX, this`fruitY
      ensures ok ==> Valid()
      ensures var eats := old(chain)[0].x == old(fruitX) && old(chain)[0].y == old(fruitY);
        var p := SpawnFrom(old(chain), draws, old(fruitX), old(fruitY));
        && score == (if eats then old(score) + 1 else old(score))
        && (if eats then fruitX == p.x && fruitY == p.y && ok == p.placed && rest == p.rest
            else fruitX == old(fruitX) && fruitY == old(fruitY) && ok && rest == draws)
        && chain == (if eats && ok then Grow(old(chain)) else old(chain))
      ensures ok && old(chain)[0].x == old(fruitX) && old(chain)[0].y == old(fruitY) ==>
        !Occupied(old(chain), fruitX, fruitY)
      ensures !ok ==> |rest| < 2
    {
      ok, rest := true, draws;
      if chain[0].x == fruitX && chain[0].y == fruitY {
        score := score + 1;
        ok, rest := SpawnFruit(draws);
        if !ok {
          return;
        }
        var last := 0;
        while last + 1 < |chain|
          invariant 0 <= last < |chain|
        {
          last := last + 1;
        }
        assert Aligned(chain[last]);
        chain := chain + [Square(chain[last].prevX, chain[last].prevY)];
      }
    }

    /** `handleCollision`: the wall check, the self check, then the fruit check. */
    method HandleCollision(draws: seq<Draw>) returns (ok: bool, rest: seq<Draw>)
      requires Valid()
      modifies this`chain, this`score, this`fruitX, this`fruitY, this`gameOver
      ensures ok ==> Valid()
      ensures gameOver == (old(gameOver) || OutOfBounds(old(chain)[0], width, height) || HitsSelf(old(chain)))
      ensures var eats := old(chain)[0].x == old(fruitX) && old(chain)[0].y == old(fruitY);
        var p := SpawnFrom(old(chain), draws, old(fruitX), old(fruitY));
        && score == (if eats then old(score) + 1 else old(score))
        && (if eats then fruitX == p.x && fruitY == p.y && ok == p.placed && rest == p.rest
            else fruitX == old(fruitX) && fruitY == old(fruitY) && ok && rest == draws)
        && chain == (if eats && ok then Grow(old(chain)) else old(chain))
      ensures !ok ==> |rest| < 2
    {
      HandleWallCollision();
      HandleSelfCollision();
      ok, rest := HandleFruitCollision(draws);
    }

    /**
     * `update()`, called once per frame: the frame counter goes up and the
     * keys are read every frame; the snake moves and the collisions are
     * checked only on frames whose new counter is a multiple of 10.
     */
    method Update(keys: Keys, draws: seq<Draw>) returns (ok: bool, rest: seq<Draw>)
      requires Valid()
      modifies this
      ensures ok ==> Valid()
      ensures frameCounter == old(frameCounter) + 1
      ensures
        var restart := old(gameOver) && keys.space;
        var c0 := if restart then [old(chain)[0].(x := 100, y := 150)] else old(chain);
        var s0 := if restart then 0 else old(score);
        var g0 := old(gameOver) && !keys.space;
        var d := NextDir(if restart then Right else old(dir), keys);
        var tick := frameCounter % 10 == 0;
        var c1 := if tick then Advance(c0, d) else c0;
        var eats := tick && c1[0].x == old(fruitX) && c1[0].y == old(fruitY);
        var p := SpawnFrom(c1, draws, old(fruitX), old(fruitY));
        && dir == d
        && gameOver == (g0 || (tick && (OutOfBounds(c1[0], width, height) || HitsSelf(c1))))
        && score == (if eats then s0 + 1 else s0)
        && (if eats then fruitX == p.x && fruitY == p.y && ok == p.placed && rest == p.rest
            else fruitX == old(fruitX) && fruitY == old(fruitY) && ok && rest == draws)
        && chain == (if eats && ok then Grow(c1) else c1)
      ensures !ok ==> |rest| < 2
    {
      frameCounter := frameCounter + 1;
      HandleInput(keys);
      ok, rest := true, draws;
      if frameCounter % 10 == 0 {
        UpdateHead();
        UpdateTail();
        ok, rest := HandleCollision(draws);
      }
    }
  }

  /**
   * A snake at the left edge heading left, with no key held, runs into the
   * wall on the next tick: its head reaches x = -50 and the game is over.
   */
  method LeftWallScenario(g: Game, draws: seq<Draw>)
    requires g.Valid() && !g.gameOver
    requires g.chain[0].x == 0 && g.dir == Left && (g.frameCounter + 1) % 10 == 0
    modifies g
    ensures |g.chain| >= 1 && g.chain[0].x == -50
    ensures g.gameOver
  {
    var idle := Keys(false, false, false, false, false);
    Idle(Left, idle);
    AdvanceFollows(g.chain, Left);
    var ok, rest := g.Update(idle, draws);
  }
}
