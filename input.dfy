/**
 * The direction rule of `handleInput`: the arrow keys are tried in the
 * order left, right, up, down, and the first one that is held and does
 * not reverse the current direction sets the new direction.
 */
module Input {
  import opened Board

  /** Which of the keys the game polls are currently held down. */
  datatype Keys = Keys(left: bool, right: bool, up: bool, down: bool, space: bool)

  /** The arrow keys in the order they are tried, each with the direction it asks for. */
  function Arrows(k: Keys): seq<(bool, Dir)> {
    [(k.left, Left), (k.right, Right), (k.up, Up), (k.down, Down)]
  }

  /** An arrow is taken when it is held and would not turn the snake around. */
  predicate Accepts(dir: int, arrow: (bool, Dir)) {
    arrow.0 && dir != Opposite(arrow.1)
  }

  /** The direction asked for by the first accepted arrow, or `dir` when none is. */
  function Steer(dir: int, arrows: seq<(bool, Dir)>): int {
    if arrows == [] then dir
    else if Accepts(dir, arrows[0]) then arrows[0].1
    else Steer(dir, arrows[1..])
  }

  /** The direction after the arrow keys `k` have been applied to `dir`. */
  function NextDir(dir: int, k: Keys): int {
    Steer(dir, Arrows(k))
  }

  /** The first accepted arrow wins over every arrow after it. */
  lemma {:induction false} SteerFirst(dir: int, arrows: seq<(bool, Dir)>, i: nat)
    requires i < |arrows| && Accepts(dir, arrows[i])
    requires forall j :: 0 <= j < i ==> !Accepts(dir, arrows[j])
    ensures Steer(dir, arrows) == arrows[i].1
  {
    if i > 0 {
      assert !Accepts(dir, arrows[0]);
      SteerFirst(dir, arrows[1..], i - 1);
    }
  }

  /** With no accepted arrow the direction is kept. */
  lemma {:induction false} SteerNone(dir: int, arrows: seq<(bool, Dir)>)
    requires forall j :: 0 <= j < |arrows| ==> !Accepts(dir, arrows[j])
    ensures Steer(dir, arrows) == dir
  {
    if arrows != [] {
      assert !Accepts(dir, arrows[0]);
      SteerNone(dir, arrows[1..]);
    }
  }

  /** The result is either the old direction or the direction of an accepted arrow. */
  lemma {:induction false} SteerChoice(dir: int, arrows: seq<(bool, Dir)>)
    ensures || Steer(dir, arrows) == dir
            || exists i :: 0 <= i < |arrows| && Accepts(dir, arrows[i]) && Steer(dir, arrows) == arrows[i].1
  {
    if arrows != [] && !Accepts(dir, arrows[0]) {
      SteerChoice(dir, arrows[1..]);
      if Steer(dir, arrows) != dir {
        var i :| 0 <= i < |arrows[1..]| && Accepts(dir, arrows[1..][i]) && Steer(dir, arrows[1..]) == arrows[1..][i].1;
        assert arrows[i + 1] == arrows[1..][i];
      }
    } else if arrows != [] {
      assert Accepts(dir, arrows[0]);
    }
  }

  /**
   * One reading of the keys never sets the direction to the exact opposite
   * of the direction it starts from, and a valid direction stays valid.
   * This is a promise about a single call only: see `TwoReadsCanReverse`.
   */
  lemma NoReversal(dir: int, k: Keys)
    requires IsDir(dir)
    ensures IsDir(NextDir(dir, k))
    ensures NextDir(dir, k) != Opposite(dir)
  {
    SteerChoice(dir, Arrows(k));
  }

  /**
   * The keys are read on every frame but the snake moves only on every
   * tenth, so two readings between moves compose. Heading right, up and
   * then left give left: the reversal one reading rules out.
   */
  lemma TwoReadsCanReverse()
    ensures var up := Keys(false, false, true, false, false);
            var left := Keys(true, false, false, false, false);
            && NextDir(Right, up) == Up
            && NextDir(NextDir(Right, up), left) == Opposite(Right)
  {
    var up := Keys(false, false, true, false, false);
    var left := Keys(true, false, false, false, false);
    Priority(Right, up, 2);
    Priority(Up, left, 0);
  }

  /** With no arrow key held the direction is unchanged. */
  lemma Idle(dir: int, k: Keys)
    requires !k.left && !k.right && !k.up && !k.down
    ensures NextDir(dir, k) == dir
  {
    SteerNone(dir, Arrows(k));
  }

  /**
   * A held arrow that does not reverse the snake is obeyed unless an
   * accepted arrow comes earlier in the order left, right, up, down.
   */
  lemma Priority(dir: int, k: Keys, i: nat)
    requires i < 4 && Accepts(dir, Arrows(k)[i])
    requires forall j :: 0 <= j < i ==> !Accepts(dir, Arrows(k)[j])
    ensures NextDir(dir, k) == i
  {
    SteerFirst(dir, Arrows(k), i);
  }
}
