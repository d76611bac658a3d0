# Snake: the per-frame game update, modelled and proved in Dafny

This project models the gameplay core of a browser Snake game (`script.js`).
On every frame the host calls `update()`. Each call does three things:

- It advances a frame counter and reads the keyboard: space restarts after a
  game over, and the arrow keys steer.
- On every tenth frame it moves the head one 50-pixel tile and pulls the
  chain of squares behind it.
- On those same frames it checks the head against the walls, against the
  rest of the snake, and against the fruit. Eating the fruit scores a point,
  respawns the fruit by rejection sampling and adds a square to the snake.

Modules, leaves first:

- `Board` (board.dfy): the tile size, the directions 0 left / 1 right /
  2 up / 3 down, `randomPos`, and the snake square `Segment`.
- `Input` (input.dfy): the steering rule.
- `Movement` (movement.dfy): the head move and the tail walk.
- `Collision` (collision.dfy): the wall and self tests, and the grown chain.
- `Spawn` (spawn.dfy): fruit respawn.
- `SnakeGame` (game.dfy): the class `Game`, which holds the mutable state.
  Its methods follow the source functions. `Covers` additionally splits
  out the inner loop of `spawnFruit`, and `LeftWallScenario` is a client
  of `Update`.

The linked list of sprites reached through `tail` is the sequence field
`Game.chain`, head first. The source keeps the direction and the score on
the head sprite; here they are the fields `dir` and `score`. The globals
`gameOver` and `frameCounter` and the fruit sprite's position are fields too.
`canvas.width` and `canvas.height` are constructor parameters.

Key state is a `Keys` record of five booleans. `Math.random()` is a finite
stream of `Draw`s (reals in [0, 1)). The operations that draw take the stream
and return what they did not use.

Each state-changing method states its whole new state in terms of a
specification function: `NextDir`, `MoveHead`, `Shifted`, `Advance`, `Grow`,
`SpawnFrom`. The lemmas prove what the game promises about those functions.
`Game.Valid()` is the invariant every step keeps, except a step that runs
out of draws in the middle of a respawn (`ok` false, see "## Left out"):

- the chain has a head;
- the direction is one of the four;
- the score equals the number of squares behind the head;
- every square is tile-aligned;
- the fruit is on its 8 x 12 grid.

Two comments in the source state intent: the fruit should not spawn on
the snake (script.js:174), and the snake should not turn straight back
(script.js:117). The code keeps each promise only in part, and the model
follows the code:

- Restart resets the head's position but not its `prevX`/`prevY`. It does
  not move the fruit. The arrow keys are still read in the same call, so the
  direction after a restart is `NextDir(1, keys)`, not always 1.
- The fruit is not always clear of the snake. The first fruit
  (script.js:29-35) is placed without any check. After eating, the new
  square is appended after the respawn, so the fresh fruit can sit under it
  (`Collision.RespawnUnderNewSquare`).
- The no-reversal guard compares only against the direction at the time of
  the key reading. The keys are read on every frame and the snake moves
  only on every tenth frame, so pressing up and then left between two moves
  turns a snake heading right straight back (`Input.TwoReadsCanReverse`).
  With three or more squares the head then lands on the square behind it
  (`Collision.QuickTurnBitesNeck`).
- A game over does not stop `update()`. The snake keeps moving on every
  tenth frame, the arrow keys still steer, and eating a fruit still scores.

## Model

| member | source | states |
|---|---|---|
| `Board.RandomPos` | script.js:57-59 | `randomPos(max)` is a multiple of the tile width in [0, max·50): one of the first `max` tile edges |
| `Board.FloorBelow` | script.js:58 | `Math.floor(Math.random() * max)` is an index in [0, max) |
| `Input.SteerFirst` | script.js:118-126 | the first arrow (left, right, up, down order) that is held and does not reverse the snake decides the direction, whatever the later arrows say |
| `Input.SteerNone` | script.js:118-126 | when no arrow is both held and non-reversing, the direction is kept |
| `Input.SteerChoice` | script.js:118-126 | the new direction is the old one or that of a held, non-reversing arrow |
| `Input.NoReversal` | script.js:117-126 | one reading of the keys from a valid direction never gives its exact opposite, and the result stays in {0,1,2,3} |
| `Input.TwoReadsCanReverse` | script.js:235-241 | two key readings between moves can compose to a reversal: right, then up, then left gives the opposite of right |
| `Input.Idle` | script.js:118-126 | with no arrow key held the direction is unchanged |
| `Input.Priority` | script.js:118-126 | the earliest accepted arrow in the order left, right, up, down wins |
| `Movement.MoveHeadStep` | script.js:129-152 | for dir 0/1/2/3 the head records its old position and moves x−50 / x+50 / y−50 / y+50, changing only that coordinate; any other dir changes nothing |
| `Movement.MoveHeadAligned` | script.js:129-152 | a tile-aligned head stays tile-aligned when it moves |
| `Movement.Shifted` | script.js:213-223 | the tail walk keeps the chain length |
| `Movement.Advance` | script.js:239-240 | a head move followed by a tail walk keeps the chain length |
| `Movement.ShiftedAligned` | script.js:213-223 | the tail walk keeps every square tile-aligned |
| `Movement.AdvanceAligned` | script.js:239-240 | a whole movement tick keeps every square tile-aligned |
| `Movement.AdvanceFollows` | script.js:213-223 | after a tick in a valid direction the head moved one tile along its unit vector and remembers its old cell; every square i ≥ 1 stands where square i−1 stood and remembers its own old cell; the length is unchanged |
| `Movement.OpeningMove` | script.js:232-240 | a head at (100,150) facing right moves to (150,150) with previous position (100,150) |
| `Collision.Grow` | script.js:164-167 | eating adds exactly one square, at the previous position of the old last square, and leaves the others as they were |
| `Collision.GrowTakesVacatedCell` | script.js:164-167 | after a tick's move, the added square fills exactly the cell the end of the chain held before the move |
| `Collision.NeckIsSafe` | script.js:191-199 | after a valid move the square just behind the head is never on the head's cell, so the self check cannot fire on it |
| `Collision.QuickTurnBitesNeck` | script.js:191-199 | after the two-reading reversal, a snake of three or more squares that had just moved right puts its head on another square, so the self check fires |
| `Collision.RespawnUnderNewSquare` | script.js:163-167 | the respawned fruit is checked only against the squares present at spawn time and can land under the square added right after |
| `Spawn.Candidate` | script.js:172-173 | each drawn pair of coordinates is a cell of the 8 x 12 fruit grid |
| `Spawn.Resample` | script.js:176-188 | a placed fruit is on no square of the chain; sampling gives up only when the candidate is covered and fewer than two draws remain; a grid candidate leads to a grid result |
| `Spawn.SpawnFrom` | script.js:171-189 | after `spawnFruit` the fruit is on the 8 x 12 grid; when placed it is on no square present at spawn time; when not placed the draws have run out |
| `Spawn.FirstFreeCandidate` | script.js:176-188 | when candidates 0..k−1 are covered and candidate k is free, the fruit is placed on candidate k and exactly the draws after its pair remain |
| `Spawn.AllCoveredGivesUp` | script.js:176-188 | when every candidate the draws can supply is covered, no cell is found and the fruit stays on the last candidate with fewer than two draws left |
| `Spawn.SpawnFirstFree` | script.js:171-189 | the fruit goes to the cell of the first pair of draws that no square covers, and the draws after that pair are returned |
| `Spawn.ResampleConsumesFront` | script.js:176-188 | resampling consumes draws from the front of the stream only |
| `Spawn.SpawnConsumesFront` | script.js:171-189 | the whole respawn consumes draws from the front of the stream only |
| `SnakeGame.Game.constructor` | script.js:14-35 | the page-load state: the fruit at an unchecked random cell and a lone head at (100,150) facing right with score 0 (script.js:14-35, 232), no game over and frame counter 1 (script.js:61-62) |
| `SnakeGame.Game.HandleInput` | script.js:107-127 | space with `gameOver` resets score to 0, the chain to a lone head at (100,150) with its previous position kept, and clears `gameOver`; space without `gameOver` does nothing; then the direction becomes `NextDir`, never the opposite of the one it starts from |
| `SnakeGame.Game.UpdateHead` | script.js:129-152 | only the head changes, and it becomes `MoveHead(head, dir)` |
| `SnakeGame.Game.UpdateTail` | script.js:213-223 | the single walk down the chain produces exactly `Shifted` of the old chain, and tile alignment is kept |
| `SnakeGame.Game.HandleWallCollision` | script.js:201-211 | `gameOver` becomes true iff it was true or the head is outside [0,width) x [0,height); the flag is never cleared |
| `SnakeGame.Game.HandleSelfCollision` | script.js:191-199 | `gameOver` becomes true iff it was true or some square other than the head is on the head's cell; the head is not compared with itself |
| `SnakeGame.Game.Covers` | script.js:178-187 | the scan from the head finds a square on (x, y) iff the chain occupies (x, y) |
| `SnakeGame.Game.SpawnFruit` | script.js:171-189 | the nested resampling loop leaves the fruit exactly where `SpawnFrom` says, on the grid; when placed it is off every square, and it fails only with fewer than two draws left |
| `SnakeGame.Game.HandleFruitCollision` | script.js:160-169 | head on fruit: score +1, fruit respawned per `SpawnFrom`, chain becomes `Grow(chain)`; head off fruit: score, chain and fruit unchanged; `ok` is false only when the draws ran out |
| `SnakeGame.Game.HandleCollision` | script.js:154-158 | wall, self, then fruit check on the same head, with the combined effect on `gameOver`, score, chain and fruit |
| `SnakeGame.Game.Update` | script.js:235-243 | the frame counter rises by 1 and the keys are read on every call; the move (`Advance`) and the collision checks happen only when the new counter is a multiple of 10 |
| `SnakeGame.LeftWallScenario` | script.js:201-211 | a valid game with the head at x = 0 heading left and no key held, on a tick frame: after `Update` the head is at x = −50 and `gameOver` is set |

## Left out

- Drawing: `drawGrid`, `drawSnake`, `createVerticalLine`, `createHorizontalLine`, `getScoreText`, the `Text` sprites and `render()` (script.js:37-55, 63-105, 225-230, 245-256). They only draw.
- The kontra library (`init`, `initKeys`, `keyPressed`, `GameLoop`, `loop.start`, `Sprite`). Its code is not part of this model. Key state is a parameter, and sprites are plain values and fields.
- Sprite fields that the gameplay never reads: colour, width and height, and the `dir`/`score` fields of squares other than the head.
- The distribution of `Math.random()`. Draws are an arbitrary stream of reals in [0, 1).
- Pointer structure of the `tail` list. The list is strictly forward and acyclic, and aliasing plays no part in the gameplay, so it is a sequence.
- JavaScript numbers are doubles. Positions, score and frame counter are unbounded integers here, so precision loss past 2^53 frames is not modelled.
- The canvas size. It comes from the host page and is a pair of constructor parameters.
- SnakeGame.Game.SpawnFruit: the source keeps drawing until it finds a free cell and does not terminate on a full board. The model stops when the finite stream of draws runs out and returns `placed == false`.
- SnakeGame.Game.HandleFruitCollision: when the draws run out during the respawn, the step stops where the source would still be drawing: the score has been incremented and no square is appended. `Valid()` is promised only when `ok` is true.
- SnakeGame.Game.Update: like `HandleFruitCollision`, it promises `Valid()` only when `ok` is true.
