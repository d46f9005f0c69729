/** The per-entity steps of one frame, lifted to the entity lists by the
    `forEach` loops of `Game.update` (game.js:281-283), and the marks the sweep reads. */
module Movement {
  import opened Entities

  predicate BulletMarked(b: Bullet) { b.markedForDeletion }
  predicate InvaderMarked(i: Invader) { i.markedForDeletion }
  predicate BarrierMarked(b: BarrierPart) { b.markedForDeletion }

  /** Every bullet of the list after its own `update`. */
  function UpdatedBullets(bullets: seq<Bullet>): seq<Bullet>
  {
    seq(|bullets|, k requires 0 <= k < |bullets| => bullets[k].Update())
  }

  /** Every invader of the list after its own `update` at clock value `now`. */
  function UpdatedInvaders(invaders: seq<Invader>, now: int): seq<Invader>
  {
    seq(|invaders|, k requires 0 <= k < |invaders| => invaders[k].Update(now))
  }

  /** `bullets.forEach(b => b.update())`. */
  method UpdateBullets(bullets: seq<Bullet>) returns (r: seq<Bullet>)
    ensures r == UpdatedBullets(bullets)
  {
    r := bullets;
    var i := 0;
    while i < |r|
      invariant 0 <= i <= |r| == |bullets|
      invariant forall k :: 0 <= k < i ==> r[k] == bullets[k].Update()
      invariant forall k :: i <= k < |r| ==> r[k] == bullets[k]
    {
      r := r[i := r[i].Update()];
      i := i + 1;
    }
  }

  /** `invaders.forEach(i => i.update(deltaTime))`, every call reading the clock as `now`. */
  method UpdateInvaders(invaders: seq<Invader>, now: int) returns (r: seq<Invader>)
    ensures r == UpdatedInvaders(invaders, now)
  {
    r := invaders;
    var i := 0;
    while i < |r|
      invariant 0 <= i <= |r| == |invaders|
      invariant forall k :: 0 <= k < i ==> r[k] == invaders[k].Update(now)
      invariant forall k :: i <= k < |r| ==> r[k] == invaders[k]
    {
      r := r[i := r[i].Update(now)];
      i := i + 1;
    }
  }
}
