/** The nested loops of `Game.handleCollisions` (game.js:327-376). Each loop is
    proved equal to a closed form stated with the overlap counts of `Geometry`:
    an entity's mark, a barrier part's damage, the score and the lives depend
    only on how many rectangles overlap it, never on the order of the loops. */
module Combat {
  import opened Geometry
  import opened Entities

  const INVADER_POINTS := 100

  function BulletBoxes(bullets: seq<Bullet>): seq<Rect>
  {
    seq(|bullets|, k requires 0 <= k < |bullets| => bullets[k].Box())
  }

  function InvaderBoxes(invaders: seq<Invader>): seq<Rect>
  {
    seq(|invaders|, k requires 0 <= k < |invaders| => invaders[k].Box())
  }

  function BarrierBoxes(barriers: seq<BarrierPart>): seq<Rect>
  {
    seq(|barriers|, k requires 0 <= k < |barriers| => barriers[k].Box())
  }

  /** Each bullet marked when it overlaps at least one of `targets`. */
  function BulletsMarkedBy(bullets: seq<Bullet>, targets: seq<Rect>): seq<Bullet>
  {
    seq(|bullets|, k requires 0 <= k < |bullets| =>
          bullets[k].MarkIf(CountHits(bullets[k].Box(), targets) > 0))
  }

  /** Each invader marked when at least one of `shots` overlaps it. */
  function InvadersMarkedBy(invaders: seq<Invader>, shots: seq<Rect>): seq<Invader>
  {
    seq(|invaders|, k requires 0 <= k < |invaders| =>
          invaders[k].MarkIf(CountStruck(shots, invaders[k].Box()) > 0))
  }

  /** Each barrier part hit once per rectangle of `shots` that overlaps it. */
  function BarriersHitBy(barriers: seq<BarrierPart>, shots: seq<Rect>): seq<BarrierPart>
  {
    seq(|barriers|, k requires 0 <= k < |barriers| =>
          barriers[k].HitTimes(CountStruck(shots, barriers[k].Box())))
  }

  /** Each barrier part marked when at least one of `rs` overlaps it. */
  function BarriersMarkedBy(barriers: seq<BarrierPart>, rs: seq<Rect>): seq<BarrierPart>
  {
    seq(|barriers|, k requires 0 <= k < |barriers| =>
          barriers[k].MarkIf(CountStruck(rs, barriers[k].Box()) > 0))
  }

  /** Marks and hits never move anything: the rectangles are unchanged. */
  lemma MarkingKeepsBoxes(bullets: seq<Bullet>, invaders: seq<Invader>, barriers: seq<BarrierPart>, rs: seq<Rect>)
    ensures BulletBoxes(BulletsMarkedBy(bullets, rs)) == BulletBoxes(bullets)
    ensures InvaderBoxes(InvadersMarkedBy(invaders, rs)) == InvaderBoxes(invaders)
    ensures BarrierBoxes(BarriersHitBy(barriers, rs)) == BarrierBoxes(barriers)
    ensures BarrierBoxes(BarriersMarkedBy(barriers, rs)) == BarrierBoxes(barriers)
  {
    forall k | 0 <= k < |barriers|
      ensures BarriersHitBy(barriers, rs)[k].Box() == barriers[k].Box()
    {
      HitTimesEffect(barriers[k], CountStruck(rs, barriers[k].Box()));
    }
  }

  lemma CountStruckSingle(r: Rect, t: Rect)
    ensures CountStruck([r], t) == if CheckCollision(r, t) then 1 else 0
  {
    assert [r][..0] == [];
  }

  /** Marking by `shots` and then by one more rectangle is marking by all of them. */
  lemma InvadersMarkedByStep(invaders: seq<Invader>, shots: seq<Rect>, r: Rect)
    ensures InvaderBoxes(InvadersMarkedBy(invaders, shots)) == InvaderBoxes(invaders)
    ensures InvadersMarkedBy(InvadersMarkedBy(invaders, shots), [r]) == InvadersMarkedBy(invaders, shots + [r])
  {
    assert (shots + [r])[..|shots|] == shots;
    forall t: Rect { CountStruckSingle(r, t); }
  }

  lemma BarriersMarkedByStep(barriers: seq<BarrierPart>, rs: seq<Rect>, r: Rect)
    ensures BarrierBoxes(BarriersMarkedBy(barriers, rs)) == BarrierBoxes(barriers)
    ensures BarriersMarkedBy(BarriersMarkedBy(barriers, rs), [r]) == BarriersMarkedBy(barriers, rs + [r])
  {
    assert (rs + [r])[..|rs|] == rs;
    forall t: Rect { CountStruckSingle(r, t); }
  }

  /** Hitting by `shots` and then by one more rectangle is hitting by all of them. */
  lemma BarriersHitByStep(barriers: seq<BarrierPart>, shots: seq<Rect>, r: Rect)
    ensures BarrierBoxes(BarriersHitBy(barriers, shots)) == BarrierBoxes(barriers)
    ensures BarriersHitBy(BarriersHitBy(barriers, shots), [r]) == BarriersHitBy(barriers, shots + [r])
  {
    assert (shots + [r])[..|shots|] == shots;
    forall t: Rect { CountStruckSingle(r, t); }
    forall k | 0 <= k < |barriers|
      ensures BarriersHitBy(barriers, shots)[k].Box() == barriers[k].Box()
      ensures BarriersHitBy(BarriersHitBy(barriers, shots), [r])[k] == BarriersHitBy(barriers, shots + [r])[k]
    {
      var n := CountStruck(shots, barriers[k].Box());
      HitTimesEffect(barriers[k], n);
      HitTimesAdd(barriers[k], n, CountStruck([r], barriers[k].Box()));
    }
  }

  /** One player bullet against every invader (the inner loop of game.js:329-337). */
  method StrikeWithBullet(bullet: Bullet, invaders: seq<Invader>)
    returns (b: Bullet, ins: seq<Invader>, points: int)
    ensures b == bullet.MarkIf(CountHits(bullet.Box(), InvaderBoxes(invaders)) > 0)
    ensures ins == InvadersMarkedBy(invaders, [bullet.Box()])
    ensures points == INVADER_POINTS * CountHits(bullet.Box(), InvaderBoxes(invaders))
  {
    ghost var targets := InvaderBoxes(invaders);
    b, ins, points := bullet, invaders, 0;
    var j := 0;
    assert targets[..0] == [];
    while j < |invaders|
      invariant 0 <= j <= |ins| == |invaders|
      invariant b == bullet.MarkIf(CountHits(bullet.Box(), targets[..j]) > 0)
      invariant forall m :: 0 <= m < j ==> ins[m] == invaders[m].MarkIf(CheckCollision(bullet.Box(), targets[m]))
      invariant forall m :: j <= m < |ins| ==> ins[m] == invaders[m]
      invariant points == INVADER_POINTS * CountHits(bullet.Box(), targets[..j])
    {
      assert targets[..j + 1][..j] == targets[..j];
      if CheckCollision(b.Box(), ins[j].Box()) {
        ins := ins[j := ins[j].(markedForDeletion := true)];
        b := b.(markedForDeletion := true);
        points := points + INVADER_POINTS;
      }
      j := j + 1;
    }
    assert targets[..j] == targets;
    forall t: Rect { CountStruckSingle(bullet.Box(), t); }
  }

  /** Player bullets against invaders (game.js:329-337): every overlapping pair marks
      both and scores 100. */
  method StrikeInvaders(bullets: seq<Bullet>, invaders: seq<Invader>)
    returns (bs: seq<Bullet>, ins: seq<Invader>, points: int)
    ensures bs == BulletsMarkedBy(bullets, InvaderBoxes(invaders))
    ensures ins == InvadersMarkedBy(invaders, BulletBoxes(bullets))
    ensures points == INVADER_POINTS * PairHits(BulletBoxes(bullets), InvaderBoxes(invaders))
  {
    ghost var shots, targets := BulletBoxes(bullets), InvaderBoxes(invaders);
    bs, ins, points := bullets, invaders, 0;
    var i := 0;
    assert shots[..0] == [];
    while i < |bullets|
      invariant 0 <= i <= |bs| == |bullets|
      invariant forall k :: 0 <= k < i ==> bs[k] == bullets[k].MarkIf(CountHits(shots[k], targets) > 0)
      invariant forall k :: i <= k < |bs| ==> bs[k] == bullets[k]
      invariant ins == InvadersMarkedBy(invaders, shots[..i])
      invariant points == INVADER_POINTS * PairHits(shots[..i], targets)
    {
      InvadersMarkedByStep(invaders, shots[..i], shots[i]);
      assert shots[..i + 1] == shots[..i] + [shots[i]];
      var b, marked, gained := StrikeWithBullet(bs[i], ins);
      bs, ins, points := bs[i := b], marked, points + gained;
      i := i + 1;
    }
    assert shots[..i] == shots;
  }

  /** Invader bullets against the player (game.js:340-348): each overlapping bullet is
      marked and costs a life; `gameOver` is set once lives have dropped to zero or below. */
  method StrikePlayer(bullets: seq<Bullet>, player: Player, lives: int, gameOver: bool)
    returns (bs: seq<Bullet>, lives': int, gameOver': bool)
    ensures bs == BulletsMarkedBy(bullets, [player.Box()])
    ensures lives' == lives - CountStruck(BulletBoxes(bullets), player.Box())
    ensures gameOver' <==> gameOver || (lives' < lives && lives' <= 0)
  {
    ghost var shots := BulletBoxes(bullets);
    bs, lives', gameOver' := bullets, lives, gameOver;
    var i := 0;
    assert shots[..0] == [];
    assert [player.Box()][..0] == [];
    while i < |bullets|
      invariant 0 <= i <= |bs| == |bullets|
      invariant forall k :: 0 <= k < i ==> bs[k] == bullets[k].MarkIf(CountHits(shots[k], [player.Box()]) > 0)
      invariant forall k :: i <= k < |bs| ==> bs[k] == bullets[k]
      invariant lives' == lives - CountStruck(shots[..i], player.Box())
      invariant gameOver' <==> gameOver || (lives' < lives && lives' <= 0)
    {
      assert shots[..i + 1][..i] == shots[..i];
      if CheckCollision(bs[i].Box(), player.Box()) {
        bs := bs[i := bs[i].(markedForDeletion := true)];
        lives' := lives' - 1;
        if lives' <= 0 {
          gameOver' := true;
        }
      }
      i := i + 1;
    }
    assert shots[..i] == shots;
  }

  /** One bullet against every barrier part (the inner loops of game.js:351-366). */
  method StrikeBarriersWith(bullet: Bullet, barriers: seq<BarrierPart>)
    returns (b: Bullet, bars: seq<BarrierPart>)
    ensures b == bullet.MarkIf(CountHits(bullet.Box(), BarrierBoxes(barriers)) > 0)
    ensures bars == BarriersHitBy(barriers, [bullet.Box()])
  {
    ghost var targets := BarrierBoxes(barriers);
    b, bars := bullet, barriers;
    var j := 0;
    assert targets[..0] == [];
    while j < |barriers|
      invariant 0 <= j <= |bars| == |barriers|
      invariant b == bullet.MarkIf(CountHits(bullet.Box(), targets[..j]) > 0)
      invariant forall m :: 0 <= m < j ==> bars[m] == barriers[m].HitTimes(if CheckCollision(bullet.Box(), targets[m]) then 1 else 0)
      invariant forall m :: j <= m < |bars| ==> bars[m] == barriers[m]
    {
      assert targets[..j + 1][..j] == targets[..j];
      if CheckCollision(b.Box(), bars[j].Box()) {
        b := b.(markedForDeletion := true);
        bars := bars[j := bars[j].Hit()];
      }
      j := j + 1;
    }
    assert targets[..j] == targets;
    forall t: Rect { CountStruckSingle(bullet.Box(), t); }
  }

  /** Bullets of one list against the barrier parts (game.js:351-358, 359-366): each
      overlapping pair marks the bullet and hits the part once. */
  method StrikeBarriers(bullets: seq<Bullet>, barriers: seq<BarrierPart>)
    returns (bs: seq<Bullet>, bars: seq<BarrierPart>)
    ensures bs == BulletsMarkedBy(bullets, BarrierBoxes(barriers))
    ensures bars == BarriersHitBy(barriers, BulletBoxes(bullets))
  {
    ghost var shots, targets := BulletBoxes(bullets), BarrierBoxes(barriers);
    bs, bars := bullets, barriers;
    var i := 0;
    assert shots[..0] == [];
    assert bars == BarriersHitBy(barriers, []);
    while i < |bullets|
      invariant 0 <= i <= |bs| == |bullets|
      invariant forall k :: 0 <= k < i ==> bs[k] == bullets[k].MarkIf(CountHits(shots[k], targets) > 0)
      invariant forall k :: i <= k < |bs| ==> bs[k] == bullets[k]
      invariant bars == BarriersHitBy(barriers, shots[..i])
    {
      BarriersHitByStep(barriers, shots[..i], shots[i]);
      assert shots[..i + 1] == shots[..i] + [shots[i]];
      var b, hit := StrikeBarriersWith(bs[i], bars);
      bs, bars := bs[i := b], hit;
      i := i + 1;
    }
    assert shots[..i] == shots;
  }

  /** One invader against every barrier part (the inner loop of game.js:369-375). */
  method CrushBarriersWith(invader: Invader, barriers: seq<BarrierPart>)
    returns (bars: seq<BarrierPart>)
    ensures bars == BarriersMarkedBy(barriers, [invader.Box()])
  {
    bars := barriers;
    var j := 0;
    while j < |barriers|
      invariant 0 <= j <= |bars| == |barriers|
      invariant forall m :: 0 <= m < j ==> bars[m] == barriers[m].MarkIf(CheckCollision(invader.Box(), barriers[m].Box()))
      invariant forall m :: j <= m < |bars| ==> bars[m] == barriers[m]
    {
      if CheckCollision(invader.Box(), bars[j].Box()) {
        bars := bars[j := bars[j].(markedForDeletion := true)];
      }
      j := j + 1;
    }
    forall t: Rect { CountStruckSingle(invader.Box(), t); }
  }

  /** Invaders against the barrier parts (game.js:369-375): any overlap marks the part
      and leaves its health alone. */
  method CrushBarriers(invaders: seq<Invader>, barriers: seq<BarrierPart>)
    returns (bars: seq<BarrierPart>)
    ensures bars == BarriersMarkedBy(barriers, InvaderBoxes(invaders))
  {
    ghost var crushers := InvaderBoxes(invaders);
    bars := barriers;
    var i := 0;
    assert crushers[..0] == [];
    assert bars == BarriersMarkedBy(barriers, []);
    while i < |invaders|
      invariant 0 <= i <= |invaders|
      invariant bars == BarriersMarkedBy(barriers, crushers[..i])
    {
      BarriersMarkedByStep(barriers, crushers[..i], crushers[i]);
      assert crushers[..i + 1] == crushers[..i] + [crushers[i]];
      bars := CrushBarriersWith(invaders[i], bars);
      i := i + 1;
    }
    assert crushers[..i] == crushers;
  }
}
