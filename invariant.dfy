/** `Inv` holds at construction, after `restart`, and after every phase of a frame. */
module Invariants {
  import opened Geometry
  import opened Entities
  import opened Sweeping
  import opened Movement
  import opened Formation
  import opened Combat
  import opened Layout
  import opened GameState

  lemma InvaderGridValid()
    ensures forall i :: i in InvaderGrid() ==> i.invaderType in {1, 2} && i.animationFrame in {0, 1}
  {
  }

  lemma BarrierGridValid()
    ensures forall p :: p in BarrierGrid() ==> p.health == BARRIER_HEALTH && !p.markedForDeletion
  {
  }

  lemma InitialValid()
    ensures Inv(Initial())
  {
    InvaderGridValid();
    BarrierGridValid();
  }

  /** `restart` re-establishes the invariant from any state whose direction is valid. */
  lemma RestartedValid(s: State)
    requires s.invaderDirection == 1 || s.invaderDirection == -1
    ensures Inv(Restarted(s))
  {
    InvaderGridValid();
    BarrierGridValid();
  }

  lemma AdvancePreservesInv(s: State, now: int)
    requires Inv(s)
    ensures Inv(AdvancePhase(s, now))
  {
    var moved := s.player.Update(s.keys);
    var shot := if AUTO_FIRE_ENABLED && s.keys.space then moved.Shoot(now, s.playerBullets)
                else (moved, s.playerBullets);
    assert forall b :: b in shot.1 ==> b.speed == -PLAYER_BULLET_SPEED && b.color == NeonBlue;
    var t := AdvancePhase(s, now);
    forall b | b in t.playerBullets
      ensures b.speed == -PLAYER_BULLET_SPEED && b.color == NeonBlue
    {
      var k :| 0 <= k < |shot.1| && b == shot.1[k].Update();
      assert shot.1[k] in shot.1;
    }
    forall b | b in t.invaderBullets
      ensures b.speed == INVADER_BULLET_SPEED && b.color == NeonPink
    {
      var k :| 0 <= k < |s.invaderBullets| && b == s.invaderBullets[k].Update();
      assert s.invaderBullets[k] in s.invaderBullets;
    }
    forall i | i in t.invaders
      ensures i.invaderType in {1, 2} && i.animationFrame in {0, 1}
    {
      var k :| 0 <= k < |s.invaders| && i == s.invaders[k].Update(now);
      assert s.invaders[k] in s.invaders;
    }
  }

  lemma SweepPreservesInv(s: State)
    requires Inv(s)
    ensures Inv(SweepPhase(s))
  {
    SweepMembers(s.playerBullets, BulletMarked);
    SweepMembers(s.invaderBullets, BulletMarked);
    SweepMembers(s.invaders, InvaderMarked);
    SweepMembers(s.barriers, BarrierMarked);
  }

  lemma FormationPreservesInv(s: State)
    requires Inv(s)
    ensures Inv(FormationPhase(s))
  {
    var t := FormationPhase(s);
    var lowered := Lowered(s);
    forall i | i in t.invaders
      ensures i.invaderType in {1, 2} && i.animationFrame in {0, 1}
    {
      var k :| 0 <= k < |lowered| && i == lowered[k].(x := lowered[k].x + t.invaderDirection * INVADER_SPEED);
      assert s.invaders[k] in s.invaders;
    }
  }

  lemma FirePreservesInv(s: State, deltaTime: int, rand: real)
    requires Inv(s) && 0.0 <= rand < 1.0
    ensures Inv(FirePhase(s, deltaTime, rand))
  {
  }

  /** The damage and marks a barrier part carries out of the collision pass. */
  lemma BarrierAfterCollisions(p: BarrierPart, playerHits: nat, invaderHits: nat, crushed: bool)
    ensures var q := p.HitTimes(playerHits).HitTimes(invaderHits).MarkIf(crushed);
            q.Box() == p.Box() &&
            q.health == p.health - (playerHits + invaderHits) &&
            (q.markedForDeletion <==>
               p.markedForDeletion || crushed ||
               (playerHits + invaderHits > 0 && p.health - (playerHits + invaderHits) <= 0))
  {
    HitTimesAdd(p, playerHits, invaderHits);
    HitTimesEffect(p, playerHits + invaderHits);
  }

  /** Marking keeps a bullet's speed and colour. */
  lemma MarkedBulletsKeep(bullets: seq<Bullet>, targets: seq<Rect>, speed: int, color: Color)
    requires forall b :: b in bullets ==> b.speed == speed && b.color == color
    ensures forall b :: b in BulletsMarkedBy(bullets, targets) ==> b.speed == speed && b.color == color
  {
    var t := BulletsMarkedBy(bullets, targets);
    forall b | b in t
      ensures b.speed == speed && b.color == color
    {
      var k :| 0 <= k < |t| && b == t[k];
      assert bullets[k] in bullets;
    }
  }

  /** Hits keep a barrier part's health at most 5 and mark it once its health is gone. */
  lemma HitBarriersKeep(barriers: seq<BarrierPart>, shots: seq<Rect>)
    requires forall p :: p in barriers ==> p.health <= BARRIER_HEALTH && (p.health <= 0 ==> p.markedForDeletion)
    ensures forall p :: p in BarriersHitBy(barriers, shots) ==>
              p.health <= BARRIER_HEALTH && (p.health <= 0 ==> p.markedForDeletion)
  {
    var t := BarriersHitBy(barriers, shots);
    forall p | p in t
      ensures p.health <= BARRIER_HEALTH && (p.health <= 0 ==> p.markedForDeletion)
    {
      var k :| 0 <= k < |t| && p == t[k];
      assert barriers[k] in barriers;
      HitTimesEffect(barriers[k], CountStruck(shots, barriers[k].Box()));
    }
  }

  lemma InvaderPassPreservesInv(s: State)
    requires Inv(s)
    ensures Inv(InvaderPass(s))
  {
    MarkedBulletsKeep(s.playerBullets, InvaderBoxes(s.invaders), -PLAYER_BULLET_SPEED, NeonBlue);
    var t := InvaderPass(s);
    forall i | i in t.invaders
      ensures i.invaderType in {1, 2} && i.animationFrame in {0, 1}
    {
      var k :| 0 <= k < |t.invaders| && i == t.invaders[k];
      assert s.invaders[k] in s.invaders;
    }
  }

  lemma PlayerPassPreservesInv(s: State)
    requires Inv(s)
    ensures Inv(PlayerPass(s))
  {
    MarkedBulletsKeep(s.invaderBullets, [s.player.Box()], INVADER_BULLET_SPEED, NeonPink);
  }

  lemma BarrierPassesPreserveInv(s: State)
    requires Inv(s)
    ensures Inv(PlayerShotBarrierPass(s)) && Inv(InvaderShotBarrierPass(s))
  {
    MarkedBulletsKeep(s.playerBullets, BarrierBoxes(s.barriers), -PLAYER_BULLET_SPEED, NeonBlue);
    MarkedBulletsKeep(s.invaderBullets, BarrierBoxes(s.barriers), INVADER_BULLET_SPEED, NeonPink);
    HitBarriersKeep(s.barriers, BulletBoxes(s.playerBullets));
    HitBarriersKeep(s.barriers, BulletBoxes(s.invaderBullets));
  }

  lemma CrushPassPreservesInv(s: State)
    requires Inv(s)
    ensures Inv(CrushPass(s))
  {
    var t := CrushPass(s);
    forall p | p in t.barriers
      ensures p.health <= BARRIER_HEALTH && (p.health <= 0 ==> p.markedForDeletion)
    {
      var k :| 0 <= k < |t.barriers| && p == t.barriers[k];
      assert s.barriers[k] in s.barriers;
    }
  }

  lemma CollisionPreservesInv(s: State)
    requires Inv(s)
    ensures Inv(CollisionPhase(s))
  {
    var s1 := InvaderPass(s);
    InvaderPassPreservesInv(s);
    var s2 := PlayerPass(s1);
    PlayerPassPreservesInv(s1);
    var s3 := PlayerShotBarrierPass(s2);
    BarrierPassesPreserveInv(s2);
    var s4 := InvaderShotBarrierPass(s3);
    BarrierPassesPreserveInv(s3);
    CrushPassPreservesInv(s4);
  }

  lemma TickPreservesInv(s: State, deltaTime: int, now: int, rand: real)
    requires Inv(s) && 0.0 <= rand < 1.0
    ensures Inv(Tick(s, deltaTime, now, rand))
  {
    if !(s.gameOver || s.gameWon) {
      var s1 := AdvancePhase(s, now);
      AdvancePreservesInv(s, now);
      var s2 := SweepPhase(s1);
      SweepPreservesInv(s1);
      var s3 := FormationPhase(s2);
      FormationPreservesInv(s2);
      var s4 := FirePhase(s3, deltaTime, rand);
      FirePreservesInv(s3, deltaTime, rand);
      CollisionPreservesInv(s4);
    }
  }
}
