/** What one frame of the game does, stated phase by phase against the state the
    phase starts from, and what holds across any number of frames. */
module GameProperties {
  import opened Geometry
  import opened Entities
  import opened Sweeping
  import opened Movement
  import opened Formation
  import opened Combat
  import opened Layout
  import opened GameState
  import opened Invariants

  /** Once the game is over or won, a frame changes nothing (game.js:274). */
  lemma TickTerminal(s: State, deltaTime: int, now: int, rand: real)
    requires 0.0 <= rand < 1.0 && (s.gameOver || s.gameWon)
    ensures Tick(s, deltaTime, now, rand) == s
  {
  }

  /** After the filters no list holds a marked entity, and every unmarked entity
      survives (game.js:285-288); `Sweeping.KeepsOrder` gives their order. */
  lemma SweepPhaseClean(s: State)
    ensures forall b :: b in SweepPhase(s).playerBullets <==> b in s.playerBullets && !b.markedForDeletion
    ensures forall b :: b in SweepPhase(s).invaderBullets <==> b in s.invaderBullets && !b.markedForDeletion
    ensures forall i :: i in SweepPhase(s).invaders <==> i in s.invaders && !i.markedForDeletion
    ensures forall p :: p in SweepPhase(s).barriers <==> p in s.barriers && !p.markedForDeletion
  {
    SweepMembers(s.playerBullets, BulletMarked);
    SweepMembers(s.invaderBullets, BulletMarked);
    SweepMembers(s.invaders, InvaderMarked);
    SweepMembers(s.barriers, BarrierMarked);
  }

  /** Bullets that survive the sweep of a frame are on the screen: `Bullet.update`
      marks every bullet that has left it (game.js:80-86, 285-286). */
  lemma SweptBulletsOnScreen(s: State, now: int)
    ensures forall b :: b in SweepPhase(AdvancePhase(s, now)).playerBullets ==> 0 <= b.y <= SCREEN_HEIGHT
    ensures forall b :: b in SweepPhase(AdvancePhase(s, now)).invaderBullets ==> 0 <= b.y <= SCREEN_HEIGHT
  {
    var a := AdvancePhase(s, now);
    SweepPhaseClean(a);
    forall b | b in SweepPhase(a).playerBullets
      ensures 0 <= b.y <= SCREEN_HEIGHT
    {
      var k :| 0 <= k < |a.playerBullets| && a.playerBullets[k] == b;
    }
    forall b | b in SweepPhase(a).invaderBullets
      ensures 0 <= b.y <= SCREEN_HEIGHT
    {
      var k :| 0 <= k < |a.invaderBullets| && a.invaderBullets[k] == b;
    }
  }

  /** The vertical step of the formation in this frame. */
  function Drop(s: State): int
  {
    if AtEdge(s) then DESCENT else 0
  }

  /** The formation moves as one (game.js:290-308): every invader by the same dx, the
      new direction (still -1 or 1), and the same dy, 10 exactly when some invader is at
      the edge it moves towards, which is also exactly when the direction flips. */
  lemma FormationMovesAsOne(s: State)
    requires s.invaderDirection == 1 || s.invaderDirection == -1
    ensures FormationPhase(s).invaderDirection == 1 || FormationPhase(s).invaderDirection == -1
    ensures |FormationPhase(s).invaders| == |s.invaders|
    ensures forall k :: 0 <= k < |s.invaders| ==>
              FormationPhase(s).invaders[k] ==
              s.invaders[k].(x := s.invaders[k].x + FormationPhase(s).invaderDirection,
                             y := s.invaders[k].y + Drop(s))
    ensures Drop(s) == DESCENT || Drop(s) == 0
    ensures FormationPhase(s).invaderDirection == -s.invaderDirection <==>
              exists k :: 0 <= k < |s.invaders| &&
                ((s.invaders[k].x <= 0 && s.invaderDirection == -1) ||
                 (s.invaders[k].x + INVADER_WIDTH >= SCREEN_WIDTH && s.invaderDirection == 1))
    ensures Drop(s) == DESCENT <==> FormationPhase(s).invaderDirection == -s.invaderDirection
  {
  }

  /** `gameOver` latches when an invader, after the descent and before the march,
      has its bottom edge at the defence line y = 550 (game.js:302-307). */
  lemma FormationLanding(s: State)
    ensures FormationPhase(s).gameOver <==>
              s.gameOver ||
              exists k :: 0 <= k < |s.invaders| && s.invaders[k].y + Drop(s) + INVADER_HEIGHT >= DEFENCE_LINE
  {
    var lowered := Lowered(s);
    if AnyLanded(lowered) {
      var k :| 0 <= k < |lowered| && Landed(lowered[k]);
      assert s.invaders[k].y + Drop(s) + INVADER_HEIGHT >= DEFENCE_LINE;
    }
    if exists k :: 0 <= k < |s.invaders| && s.invaders[k].y + Drop(s) + INVADER_HEIGHT >= DEFENCE_LINE {
      var k :| 0 <= k < |s.invaders| && s.invaders[k].y + Drop(s) + INVADER_HEIGHT >= DEFENCE_LINE;
      assert Landed(lowered[k]);
    }
  }

  /** The fire timer of this frame runs out with an invader left to shoot. */
  predicate Fires(s: State, deltaTime: int)
  {
    s.invaderShootTimer + deltaTime > INVADER_SHOOT_INTERVAL && |s.invaders| > 0
  }

  /** The invaders fire only when the accumulated time passes 1000 ms and some invader
      is left; then exactly one bullet is added, at the bottom centre of one invader,
      moving down at 7, and the timer restarts from 0 (game.js:310-317). */
  lemma InvaderFire(s: State, deltaTime: int, rand: real)
    requires 0.0 <= rand < 1.0
    ensures FirePhase(s, deltaTime, rand).invaderShootTimer ==
              if Fires(s, deltaTime) then 0 else s.invaderShootTimer + deltaTime
    ensures Fires(s, deltaTime) ==>
              exists k :: 0 <= k < |s.invaders| &&
                FirePhase(s, deltaTime, rand).invaderBullets ==
                s.invaderBullets + [Bullet(s.invaders[k].x + 13, s.invaders[k].y + 30,
                                           INVADER_BULLET_SPEED, NeonPink, false)]
    ensures !Fires(s, deltaTime) ==> FirePhase(s, deltaTime, rand).invaderBullets == s.invaderBullets
    ensures FirePhase(s, deltaTime, rand).(invaderBullets := s.invaderBullets,
                                           invaderShootTimer := s.invaderShootTimer) == s
  {
    if s.invaderShootTimer + deltaTime > INVADER_SHOOT_INTERVAL && |s.invaders| > 0 {
      var k := RandomIndex(rand, |s.invaders|);
      assert FirePhase(s, deltaTime, rand).invaderBullets ==
             s.invaderBullets + [Bullet(s.invaders[k].x + 13, s.invaders[k].y + 30,
                                        INVADER_BULLET_SPEED, NeonPink, false)];
    }
  }
  /** `r` overlaps at least one rectangle of `rs`. */
  predicate HitsAny(r: Rect, rs: seq<Rect>)
  {
    exists j :: 0 <= j < |rs| && CheckCollision(r, rs[j])
  }

  /** At least one rectangle of `rs` overlaps `t`. */
  predicate StruckByAny(rs: seq<Rect>, t: Rect)
  {
    exists j :: 0 <= j < |rs| && CheckCollision(rs[j], t)
  }

  /** The hits barrier part `k` takes in one collision pass: one per bullet of either
      list that overlaps it, marked bullets included. */
  function Damage(s: State, k: nat): nat
    requires k < |s.barriers|
  {
    CountStruck(BulletBoxes(s.playerBullets), s.barriers[k].Box()) +
    CountStruck(BulletBoxes(s.invaderBullets), s.barriers[k].Box())
  }

  /** Every rectangle is where it was before the collision passes. */
  lemma CollisionKeepsBoxes(s: State)
    ensures BulletBoxes(PlayerPass(InvaderPass(s)).playerBullets) == BulletBoxes(s.playerBullets)
    ensures BulletBoxes(PlayerPass(InvaderPass(s)).invaderBullets) == BulletBoxes(s.invaderBullets)
    ensures InvaderBoxes(CollisionPhase(s).invaders) == InvaderBoxes(s.invaders)
    ensures BarrierBoxes(PlayerShotBarrierPass(PlayerPass(InvaderPass(s))).barriers) == BarrierBoxes(s.barriers)
  {
    MarkingKeepsBoxes(s.playerBullets, s.invaders, s.barriers, InvaderBoxes(s.invaders));
    MarkingKeepsBoxes(s.invaderBullets, s.invaders, s.barriers, [s.player.Box()]);
    MarkingKeepsBoxes(s.playerBullets, s.invaders, s.barriers, BulletBoxes(s.playerBullets));
    var s2 := PlayerPass(InvaderPass(s));
    MarkingKeepsBoxes(s2.playerBullets, s2.invaders, s2.barriers, BulletBoxes(s2.playerBullets));
  }

  /** A bullet of either list is marked by the collision passes exactly when it was
      marked or overlaps a target: an invader or a barrier part for a player bullet, the
      player or a barrier part for an invader bullet (game.js:329-366). */
  lemma CollisionMarksBullets(s: State)
    ensures |CollisionPhase(s).playerBullets| == |s.playerBullets|
    ensures forall k :: 0 <= k < |s.playerBullets| ==>
              CollisionPhase(s).playerBullets[k] ==
              s.playerBullets[k].MarkIf(HitsAny(s.playerBullets[k].Box(), InvaderBoxes(s.invaders)) ||
                                        HitsAny(s.playerBullets[k].Box(), BarrierBoxes(s.barriers)))
    ensures |CollisionPhase(s).invaderBullets| == |s.invaderBullets|
    ensures forall k :: 0 <= k < |s.invaderBullets| ==>
              CollisionPhase(s).invaderBullets[k] ==
              s.invaderBullets[k].MarkIf(CheckCollision(s.invaderBullets[k].Box(), s.player.Box()) ||
                                         HitsAny(s.invaderBullets[k].Box(), BarrierBoxes(s.barriers)))
  {
    CollisionKeepsBoxes(s);
    var s3 := PlayerShotBarrierPass(PlayerPass(InvaderPass(s)));
    forall k | 0 <= k < |s.playerBullets|
      ensures CollisionPhase(s).playerBullets[k] ==
              s.playerBullets[k].MarkIf(HitsAny(s.playerBullets[k].Box(), InvaderBoxes(s.invaders)) ||
                                        HitsAny(s.playerBullets[k].Box(), BarrierBoxes(s.barriers)))
    {
      CountHitsPositive(s.playerBullets[k].Box(), InvaderBoxes(s.invaders));
      CountHitsPositive(s.playerBullets[k].Box(), BarrierBoxes(s.barriers));
    }
    forall k | 0 <= k < |s.invaderBullets|
      ensures CollisionPhase(s).invaderBullets[k] ==
              s.invaderBullets[k].MarkIf(CheckCollision(s.invaderBullets[k].Box(), s.player.Box()) ||
                                         HitsAny(s.invaderBullets[k].Box(), BarrierBoxes(s.barriers)))
    {
      CountHitsPositive(s.invaderBullets[k].Box(), [s.player.Box()]);
      CountHitsPositive(s.invaderBullets[k].Box(), BarrierBoxes(s3.barriers));
    }
  }

  /** An invader is marked exactly when it was marked or a player bullet overlaps it
      (game.js:329-337). */
  lemma CollisionMarksInvaders(s: State)
    ensures |CollisionPhase(s).invaders| == |s.invaders|
    ensures forall k :: 0 <= k < |s.invaders| ==>
              CollisionPhase(s).invaders[k] ==
              s.invaders[k].MarkIf(StruckByAny(BulletBoxes(s.playerBullets), s.invaders[k].Box()))
  {
    forall k | 0 <= k < |s.invaders|
      ensures CollisionPhase(s).invaders[k] ==
              s.invaders[k].MarkIf(StruckByAny(BulletBoxes(s.playerBullets), s.invaders[k].Box()))
    {
      CountStruckPositive(BulletBoxes(s.playerBullets), s.invaders[k].Box());
    }
  }

  /** A barrier part loses one health point per overlapping bullet of either list; an
      overlapping invader marks it and leaves its health alone; it is marked exactly
      when it was, when an invader overlaps it, or when a hit left it at zero health or
      below (game.js:350-375). */
  lemma CollisionDamagesBarriers(s: State)
    ensures |CollisionPhase(s).barriers| == |s.barriers|
    ensures forall k :: 0 <= k < |s.barriers| ==>
              CollisionPhase(s).barriers[k].Box() == s.barriers[k].Box() &&
              CollisionPhase(s).barriers[k].health == s.barriers[k].health - Damage(s, k)
    ensures forall k :: 0 <= k < |s.barriers| ==>
              (CollisionPhase(s).barriers[k].markedForDeletion <==>
                 s.barriers[k].markedForDeletion ||
                 StruckByAny(InvaderBoxes(s.invaders), s.barriers[k].Box()) ||
                 (Damage(s, k) > 0 && CollisionPhase(s).barriers[k].health <= 0))
  {
    CollisionKeepsBoxes(s);
    var s2 := PlayerPass(InvaderPass(s));
    var s3 := PlayerShotBarrierPass(s2);
    var s4 := InvaderShotBarrierPass(s3);
    forall k | 0 <= k < |s.barriers|
      ensures CollisionPhase(s).barriers[k].Box() == s.barriers[k].Box()
      ensures CollisionPhase(s).barriers[k].health == s.barriers[k].health - Damage(s, k)
      ensures CollisionPhase(s).barriers[k].markedForDeletion <==>
                s.barriers[k].markedForDeletion ||
                StruckByAny(InvaderBoxes(s.invaders), s.barriers[k].Box()) ||
                (Damage(s, k) > 0 && CollisionPhase(s).barriers[k].health <= 0)
    {
      var p := s.barriers[k];
      var n1 := CountStruck(BulletBoxes(s.playerBullets), p.Box());
      var n2 := CountStruck(BulletBoxes(s.invaderBullets), p.Box());
      HitTimesEffect(p, n1);
      assert s3.barriers[k] == p.HitTimes(n1);
      assert s4.barriers[k] == p.HitTimes(n1).HitTimes(n2);
      CountStruckPositive(InvaderBoxes(s.invaders), p.Box());
      BarrierAfterCollisions(p, n1, n2, StruckByAny(InvaderBoxes(s.invaders), p.Box()));
    }
  }

  /** Score rises by 100 per overlapping (player bullet, invader) pair; lives fall by
      one per invader bullet overlapping the player; `gameOver` is set when that drop
      reaches zero or below; the player, keys, direction, timer and `gameWon` are kept
      (game.js:329-348). */
  lemma CollisionScoresAndLives(s: State)
    ensures CollisionPhase(s).score ==
              s.score + INVADER_POINTS * PairHits(BulletBoxes(s.playerBullets), InvaderBoxes(s.invaders))
    ensures CollisionPhase(s).lives == s.lives - CountStruck(BulletBoxes(s.invaderBullets), s.player.Box())
    ensures CollisionPhase(s).gameOver <==>
              s.gameOver || (CollisionPhase(s).lives < s.lives && CollisionPhase(s).lives <= 0)
    ensures CollisionPhase(s).player == s.player && CollisionPhase(s).keys == s.keys
    ensures CollisionPhase(s).invaderDirection == s.invaderDirection
    ensures CollisionPhase(s).invaderShootTimer == s.invaderShootTimer
    ensures CollisionPhase(s).gameWon == s.gameWon
  {
  }

  /** Over a frame the score never decreases, lives never increase, both terminal
      flags latch, and a frame that runs sets `gameWon` exactly when it ends with no
      invader left (game.js:273-325). */
  lemma TickProgress(s: State, deltaTime: int, now: int, rand: real)
    requires 0.0 <= rand < 1.0
    ensures Tick(s, deltaTime, now, rand).score >= s.score
    ensures Tick(s, deltaTime, now, rand).lives <= s.lives
    ensures s.gameOver ==> Tick(s, deltaTime, now, rand).gameOver
    ensures s.gameWon ==> Tick(s, deltaTime, now, rand).gameWon
    ensures !s.gameOver && !s.gameWon ==>
              (Tick(s, deltaTime, now, rand).gameWon <==> Tick(s, deltaTime, now, rand).invaders == [])
  {
    if !s.gameOver && !s.gameWon {
      var s4 := FirePhase(FormationPhase(SweepPhase(AdvancePhase(s, now))), deltaTime, rand);
      CollisionScoresAndLives(s4);
      CollisionMarksInvaders(s4);
    }
  }

  /** `restart` (game.js:235-271): 50 invaders and 60 barrier parts at full health, no
      bullets, score 0, 3 lives, neither flag; keys, direction and fire timer kept. The
      position of each invader and part is `Layout.InvaderGridAt` and `Layout.BarrierGridAt`. */
  lemma RestartFacts(s: State)
    ensures |Restarted(s).invaders| == INVADER_ROWS * INVADER_COLS == 50
    ensures |Restarted(s).barriers| == BARRIER_CLUSTERS * BARRIER_CELLS == 60
    ensures forall i :: i in Restarted(s).invaders ==> !i.markedForDeletion && i.animationFrame == 0
    ensures forall p :: p in Restarted(s).barriers ==> p.health == BARRIER_HEALTH && !p.markedForDeletion
    ensures Restarted(s).playerBullets == [] && Restarted(s).invaderBullets == []
    ensures Restarted(s).score == 0 && Restarted(s).lives == START_LIVES
    ensures !Restarted(s).gameOver && !Restarted(s).gameWon
    ensures Restarted(s).player.x == 375 && Restarted(s).player.OnTrack()
    ensures Restarted(s).keys == s.keys && Restarted(s).invaderDirection == s.invaderDirection
    ensures Restarted(s).invaderShootTimer == s.invaderShootTimer
  {
    BarrierGridValid();
  }

  /** `restart` builds the constructor's state exactly when no key is held, the
      formation moves right and the fire timer is at 0. */
  lemma RestartMatchesConstruction(s: State)
    ensures Restarted(s) == Initial() <==>
              s.keys == NO_KEYS && s.invaderDirection == 1 && s.invaderShootTimer == 0
  {
  }

  /** One animation frame as the driver delivers it: the keys held, the time since
      the last frame, the clock and the random value. */
  datatype Frame = Frame(keys: Keys, deltaTime: int, now: int, rand: real)

  predicate ValidFrames(frames: seq<Frame>)
  {
    forall k :: 0 <= k < |frames| ==> 0.0 <= frames[k].rand < 1.0
  }

  /** The session after the frames, each setting the keys and calling `update`. */
  function Run(s: State, frames: seq<Frame>): State
    requires ValidFrames(frames)
    decreases |frames|
  {
    if frames == [] then s
    else
      var f := frames[0];
      Run(Tick(s.(keys := f.keys), f.deltaTime, f.now, f.rand), frames[1..])
  }

  /** Every state a session reaches satisfies `Inv`: the player on its track, the score
      a non-negative multiple of 100, at most 3 lives and `gameOver` once they are gone,
      and the rest of `Inv`. The score never decreases. */
  lemma {:induction false} RunPreservesInv(s: State, frames: seq<Frame>)
    requires Inv(s) && ValidFrames(frames)
    ensures Inv(Run(s, frames))
    ensures Run(s, frames).score >= s.score
    decreases |frames|
  {
    if frames != [] {
      var f := frames[0];
      var s' := s.(keys := f.keys);
      TickPreservesInv(s', f.deltaTime, f.now, f.rand);
      TickProgress(s', f.deltaTime, f.now, f.rand);
      assert ValidFrames(frames[1..]);
      RunPreservesInv(Tick(s', f.deltaTime, f.now, f.rand), frames[1..]);
    }
  }

  /** From the constructor's state, every reachable state satisfies `Inv`. */
  lemma ReachableValid(frames: seq<Frame>)
    requires ValidFrames(frames)
    ensures Inv(Run(Initial(), frames))
  {
    InitialValid();
    RunPreservesInv(Initial(), frames);
  }

  /** The player stands at x = 375 on its row. */
  const START_PLAYER := NewPlayer()

  /** An invader bullet that reaches the player's box in this frame's move. */
  const STRIKING := Bullet(380, 543, INVADER_BULLET_SPEED, NeonPink, false)

  /** One frame in which the last invader, marked by the previous frame, is swept (so
      the win check fires) while an invader bullet takes the last life (so `gameOver`
      is set too): both flags end up true (game.js:287, 340-346, 322-324). */
  lemma BothFlagsInOneFrame()
    ensures var s := State(START_PLAYER, NO_KEYS, [Invader(100, 50, 1, true, 0, 0)], [], [STRIKING], [],
                           1, 0, 100, 1, false, false);
            Inv(s) && Tick(s, 0, 0, 0.0).gameOver && Tick(s, 0, 0, 0.0).gameWon
  {
    var s := State(START_PLAYER, NO_KEYS, [Invader(100, 50, 1, true, 0, 0)], [], [STRIKING], [],
                   1, 0, 100, 1, false, false);
    var s4 := FirePhase(FormationPhase(SweepPhase(AdvancePhase(s, 0))), 0, 0.0);
    assert s4.invaders == [];
    assert s4.invaderBullets == [STRIKING.Update()];
    assert CountStruck(BulletBoxes(s4.invaderBullets), s4.player.Box()) == 1 by {
      CountStruckSingle(STRIKING.Update().Box(), s4.player.Box());
    }
    CollisionScoresAndLives(s4);
  }

  /** Lives are taken one per overlapping bullet with no floor: two bullets striking
      the player together at one life leave -1 (game.js:340-346). */
  lemma LivesCanGoNegative()
    ensures var s := State(START_PLAYER, NO_KEYS, [], [], [STRIKING, STRIKING], [],
                           1, 0, 0, 1, false, false);
            Inv(CollisionPhase(s)) && CollisionPhase(s).lives == -1 && CollisionPhase(s).gameOver
  {
    var s := State(START_PLAYER, NO_KEYS, [], [], [STRIKING, STRIKING], [], 1, 0, 0, 1, false, false);
    var shots := BulletBoxes(s.invaderBullets);
    assert shots[..1] == [STRIKING.Box()];
    CountStruckSingle(STRIKING.Box(), s.player.Box());
    assert CountStruck(shots, s.player.Box()) == 2;
    CollisionScoresAndLives(s);
  }

  /** A player bullet inside the top-left invader of the starting grid. */
  const VOLLEY := Bullet(110, 60, -PLAYER_BULLET_SPEED, NeonBlue, false)

  /** Score is paid per overlapping (bullet, invader) pair, not per invader removed: two
      bullets inside one invader score 200 while one invader is marked (game.js:329-336). */
  lemma TwoBulletsOneInvader()
    ensures var s := State(START_PLAYER, NO_KEYS, [Invader(100, 50, 1, false, 0, 0)], [VOLLEY, VOLLEY],
                           [], [], 1, 0, 0, START_LIVES, false, false);
            Inv(s) && CollisionPhase(s).score == 2 * INVADER_POINTS &&
            |CollisionPhase(s).invaders| == 1 && CollisionPhase(s).invaders[0].markedForDeletion
  {
    var s := State(START_PLAYER, NO_KEYS, [Invader(100, 50, 1, false, 0, 0)], [VOLLEY, VOLLEY],
                   [], [], 1, 0, 0, START_LIVES, false, false);
    var shots := BulletBoxes(s.playerBullets);
    var targets := InvaderBoxes(s.invaders);
    assert CheckCollision(VOLLEY.Box(), targets[0]);
    assert CountHits(VOLLEY.Box(), targets) == 1 by {
      assert targets[..0] == [];
    }
    assert shots[..1][..0] == [];
    assert PairHits(shots[..1], targets) == 1;
    assert PairHits(shots, targets) == PairHits(shots[..1], targets) + CountHits(shots[1], targets);
    CollisionScoresAndLives(s);
    CollisionMarksInvaders(s);
    assert StruckByAny(shots, targets[0]) by {
      assert CheckCollision(shots[0], targets[0]);
    }
  }

  /** An invader reaching a barrier is not destroyed: the overlapped part is marked and
      the invader stays unmarked, scoring nothing (game.js:368-375). */
  lemma InvaderSurvivesBarrier()
    ensures var s := State(START_PLAYER, NO_KEYS, [Invader(100, 440, 2, false, 0, 0)], [], [],
                           [NewBarrierPart(100, 450)], 1, 0, 0, START_LIVES, false, false);
            Inv(s) && CollisionPhase(s).invaders == s.invaders && CollisionPhase(s).score == 0 &&
            |CollisionPhase(s).barriers| == 1 && CollisionPhase(s).barriers[0].markedForDeletion
  {
    var s := State(START_PLAYER, NO_KEYS, [Invader(100, 440, 2, false, 0, 0)], [], [],
                   [NewBarrierPart(100, 450)], 1, 0, 0, START_LIVES, false, false);
    CollisionMarksInvaders(s);
    CollisionScoresAndLives(s);
    CollisionDamagesBarriers(s);
    assert StruckByAny(InvaderBoxes(s.invaders), s.barriers[0].Box()) by {
      assert CheckCollision(InvaderBoxes(s.invaders)[0], s.barriers[0].Box());
    }
  }
}
