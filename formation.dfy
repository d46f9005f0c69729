/** The invader formation of `Game.update` (game.js:290-308): one shared direction,
    the edge check, the flip with its descent, the horizontal march and the
    defence-line check. */
module Formation {
  import opened Entities

  const DESCENT := 10
  /** The invaders' bottom edge may not reach this line (`this.height - 50`). */
  const DEFENCE_LINE := SCREEN_HEIGHT - 50

  /** The invader is at the edge it is moving towards. */
  predicate Pushing(invader: Invader, direction: int)
  {
    (invader.x <= 0 && direction == -1) ||
    (invader.x + INVADER_WIDTH >= SCREEN_WIDTH && direction == 1)
  }

  /** The invader's bottom edge has reached the defence line. */
  predicate Landed(invader: Invader)
  {
    invader.y + INVADER_HEIGHT >= DEFENCE_LINE
  }

  /** Some invader of the formation has reached the defence line. */
  predicate AnyLanded(invaders: seq<Invader>)
  {
    exists k :: 0 <= k < |invaders| && Landed(invaders[k])
  }

  /** Every invader moved by the same (dx, dy). */
  function Shifted(invaders: seq<Invader>, dx: int, dy: int): seq<Invader>
  {
    seq(|invaders|, k requires 0 <= k < |invaders| =>
          invaders[k].(x := invaders[k].x + dx, y := invaders[k].y + dy))
  }

  /** The scan that sets `shouldMoveDown`. */
  method ShouldMoveDown(invaders: seq<Invader>, direction: int) returns (shouldMoveDown: bool)
    ensures shouldMoveDown <==> exists k :: 0 <= k < |invaders| && Pushing(invaders[k], direction)
  {
    shouldMoveDown := false;
    var i := 0;
    while i < |invaders|
      invariant 0 <= i <= |invaders|
      invariant shouldMoveDown <==> exists k :: 0 <= k < i && Pushing(invaders[k], direction)
    {
      if (invaders[i].x <= 0 && direction == -1) ||
         (invaders[i].x + INVADER_WIDTH >= SCREEN_WIDTH && direction == 1) {
        shouldMoveDown := true;
      }
      i := i + 1;
    }
  }

  /** `invaders.forEach(invader => invader.y += 10)`. */
  method Descend(invaders: seq<Invader>) returns (r: seq<Invader>)
    ensures r == Shifted(invaders, 0, DESCENT)
  {
    r := invaders;
    var i := 0;
    while i < |r|
      invariant 0 <= i <= |r| == |invaders|
      invariant forall k :: 0 <= k < i ==> r[k] == invaders[k].(y := invaders[k].y + DESCENT)
      invariant forall k :: i <= k < |r| ==> r[k] == invaders[k]
    {
      r := r[i := r[i].(y := r[i].y + DESCENT)];
      i := i + 1;
    }
  }

  /** The march loop: move every invader by `direction * INVADER_SPEED` and report
      whether any of them is at the defence line (which sets `gameOver`). */
  method March(invaders: seq<Invader>, direction: int) returns (r: seq<Invader>, landed: bool)
    ensures r == Shifted(invaders, direction * INVADER_SPEED, 0)
    ensures landed <==> AnyLanded(invaders)
  {
    r, landed := invaders, false;
    var i := 0;
    while i < |r|
      invariant 0 <= i <= |r| == |invaders|
      invariant forall k :: 0 <= k < i ==> r[k] == invaders[k].(x := invaders[k].x + direction * INVADER_SPEED)
      invariant forall k :: i <= k < |r| ==> r[k] == invaders[k]
      invariant landed <==> exists k :: 0 <= k < i && Landed(invaders[k])
    {
      r := r[i := r[i].(x := r[i].x + direction * INVADER_SPEED)];
      if r[i].y + INVADER_HEIGHT >= DEFENCE_LINE {
        landed := true;
      }
      i := i + 1;
    }
  }
}
