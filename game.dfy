/** The `Game` object of game.js: its fields, the layout builders, `restart`,
    `update` and `handleCollisions`. Every method is proved to change the fields
    exactly as the matching function of `GameState` says. */
module SpaceInvaders {
  import opened Geometry
  import opened Entities
  import opened Sweeping
  import opened Movement
  import opened Formation
  import opened Combat
  import opened Layout
  import opened GameState
  import opened Invariants

  class Game {
    var player: Player
    var keys: Keys
    var invaders: seq<Invader>
    var playerBullets: seq<Bullet>
    var invaderBullets: seq<Bullet>
    var barriers: seq<BarrierPart>
    var invaderDirection: int
    var invaderShootTimer: int
    var score: int
    var lives: int
    var gameOver: bool
    var gameWon: bool

    function Snapshot(): State
      reads this
    {
      State(player, keys, invaders, playerBullets, invaderBullets, barriers,
            invaderDirection, invaderShootTimer, score, lives, gameOver, gameWon)
    }

    ghost predicate Valid()
      reads this
    {
      Inv(Snapshot())
    }

    /** The state set up by the constructor (game.js:167-188), without the listeners. */
    constructor ()
      ensures Snapshot() == Initial() && Valid()
    {
      player := NewPlayer();
      keys := NO_KEYS;
      invaders, playerBullets, invaderBullets, barriers := [], [], [], [];
      invaderDirection := 1;
      invaderShootTimer := 0;
      score, lives := 0, START_LIVES;
      gameOver, gameWon := false, false;
      new;
      CreateInvaders();
      CreateBarriers();
      InitialValid();
    }

    /** The effect of the key and button listeners: the key-state mapping is replaced. */
    method SetKeys(pressed: Keys)
      modifies this`keys
      ensures keys == pressed
    {
      keys := pressed;
    }

    /** `createInvaders` (game.js:249-258): push the 5 x 10 grid, row by row. */
    method CreateInvaders()
      modifies this`invaders
      ensures invaders == old(invaders) + InvaderGrid()
    {
      for row := 0 to INVADER_ROWS
        invariant invaders == old(invaders) + InvaderGrid()[..row * INVADER_COLS]
      {
        for col := 0 to INVADER_COLS
          invariant invaders == old(invaders) + InvaderGrid()[..row * INVADER_COLS + col]
        {
          var invaderType := if row < 2 then 1 else 2;
          var x := 100 + col * 50;
          var y := 50 + row * 50;
          InvaderGridAt(row, col);
          assert InvaderGrid()[..row * INVADER_COLS + col + 1] ==
                 InvaderGrid()[..row * INVADER_COLS + col] + [InvaderGrid()[row * INVADER_COLS + col]];
          invaders := invaders + [NewInvader(x, y, invaderType)];
        }
      }
      assert InvaderGrid()[..INVADER_ROWS * INVADER_COLS] == InvaderGrid();
    }

    /** `createBarriers` (game.js:260-271): push 4 clusters of 3 x 5 parts. */
    method CreateBarriers()
      modifies this`barriers
      ensures barriers == old(barriers) + BarrierGrid()
    {
      for i := 0 to BARRIER_CLUSTERS
        invariant barriers == old(barriers) + BarrierGrid()[..i * BARRIER_CELLS]
      {
        var barrierX := SCREEN_WIDTH / 4 * i + SCREEN_WIDTH / 8;
        for row := 0 to BARRIER_ROWS
          invariant barriers == old(barriers) + BarrierGrid()[..i * BARRIER_CELLS + row * BARRIER_COLS]
        {
          for col := 0 to BARRIER_COLS
            invariant barriers == old(barriers) + BarrierGrid()[..i * BARRIER_CELLS + row * BARRIER_COLS + col]
          {
            var x := barrierX + col * 10;
            var y := SCREEN_HEIGHT - 150 + row * 10;
            BarrierGridStep(i, row, col);
            barriers := barriers + [NewBarrierPart(x, y)];
          }
        }
      }
      assert BarrierGrid()[..BARRIER_CLUSTERS * BARRIER_CELLS] == BarrierGrid();
    }

    /** `restart` (game.js:235-247). */
    method Restart()
      modifies this
      ensures Snapshot() == Restarted(old(Snapshot()))
      ensures old(Valid()) ==> Valid()
    {
      player := NewPlayer();
      invaders, playerBullets, invaderBullets, barriers := [], [], [], [];
      CreateInvaders();
      CreateBarriers();
      score, lives := 0, START_LIVES;
      gameOver, gameWon := false, false;
      if old(Valid()) {
        RestartedValid(old(Snapshot()));
      }
    }

    /** `handleCollisions` (game.js:327-376). */
    method HandleCollisions()
      modifies this
      ensures Snapshot() == CollisionPhase(old(Snapshot()))
    {
      ShootInvaders();
      HitPlayer();
      ShootBarriers(true);
      ShootBarriers(false);
      CrushBarrierParts();
    }

    /** Player bullets against invaders (game.js:329-337). */
    method ShootInvaders()
      modifies this
      ensures Snapshot() == InvaderPass(old(Snapshot()))
    {
      var shots, hitInvaders, points := StrikeInvaders(playerBullets, invaders);
      playerBullets, invaders, score := shots, hitInvaders, score + points;
    }

    /** Invader bullets against the player (game.js:340-348). */
    method HitPlayer()
      modifies this
      ensures Snapshot() == PlayerPass(old(Snapshot()))
    {
      var lost, lives', gameOver' := StrikePlayer(invaderBullets, player, lives, gameOver);
      invaderBullets, lives, gameOver := lost, lives', gameOver';
    }

    /** The player's (game.js:351-358) or the invaders' (game.js:359-366) bullets
        against the barrier parts. */
    method ShootBarriers(byPlayer: bool)
      modifies this
      ensures byPlayer ==> Snapshot() == PlayerShotBarrierPass(old(Snapshot()))
      ensures !byPlayer ==> Snapshot() == InvaderShotBarrierPass(old(Snapshot()))
    {
      if byPlayer {
        var shots, hit := StrikeBarriers(playerBullets, barriers);
        playerBullets, barriers := shots, hit;
      } else {
        var shots, hit := StrikeBarriers(invaderBullets, barriers);
        invaderBullets, barriers := shots, hit;
      }
    }

    /** Invaders against the barrier parts (game.js:369-375). */
    method CrushBarrierParts()
      modifies this
      ensures Snapshot() == CrushPass(old(Snapshot()))
    {
      barriers := CrushBarriers(invaders, barriers);
    }

    /** Player move, auto-fire and the entity updates (game.js:276-283). */
    method Advance(now: int)
      modifies this
      ensures Snapshot() == AdvancePhase(old(Snapshot()), now)
    {
      player := player.Update(keys);
      if AUTO_FIRE_ENABLED && keys.space {
        var shot := player.Shoot(now, playerBullets);
        player, playerBullets := shot.0, shot.1;
      }
      playerBullets := UpdateBullets(playerBullets);
      invaderBullets := UpdateBullets(invaderBullets);
      invaders := UpdateInvaders(invaders, now);
    }

    /** The four filters (game.js:285-288). */
    method SweepMarked()
      modifies this
      ensures Snapshot() == SweepPhase(old(Snapshot()))
    {
      playerBullets := Sweep(playerBullets, BulletMarked);
      invaderBullets := Sweep(invaderBullets, BulletMarked);
      invaders := Sweep(invaders, InvaderMarked);
      barriers := Sweep(barriers, BarrierMarked);
    }

    /** The formation step (game.js:290-308). */
    method MoveInvaders()
      modifies this
      ensures Snapshot() == FormationPhase(old(Snapshot()))
    {
      ghost var s := Snapshot();
      var shouldMoveDown := ShouldMoveDown(invaders, invaderDirection);
      assert shouldMoveDown == AtEdge(s);
      if shouldMoveDown {
        invaderDirection := invaderDirection * -1;
        invaders := Descend(invaders);
      }
      assert invaders == Lowered(s);
      var landed;
      invaders, landed := March(invaders, invaderDirection);
      if landed {
        gameOver := true;
      }
    }

    /** The invader fire timer (game.js:310-317). */
    method InvaderShoot(deltaTime: int, rand: real)
      requires 0.0 <= rand < 1.0
      modifies this
      ensures Snapshot() == FirePhase(old(Snapshot()), deltaTime, rand)
    {
      invaderShootTimer := invaderShootTimer + deltaTime;
      if invaderShootTimer > INVADER_SHOOT_INTERVAL && |invaders| > 0 {
        invaderShootTimer := 0;
        var randomInvader := invaders[RandomIndex(rand, |invaders|)];
        var bullet := NewBullet(randomInvader.x + INVADER_WIDTH / 2, randomInvader.y + INVADER_HEIGHT,
                                INVADER_BULLET_SPEED, NeonPink);
        invaderBullets := invaderBullets + [bullet];
      }
    }

    /** `update(deltaTime)` (game.js:273-325). The clock reads of the frame are `now`;
        `rand` is the value `Math.random()` returns, in [0, 1). */
    method Update(deltaTime: int, now: int, rand: real)
      requires 0.0 <= rand < 1.0
      modifies this
      ensures Snapshot() == Tick(old(Snapshot()), deltaTime, now, rand)
      ensures old(Valid()) ==> Valid()
    {
      if gameOver || gameWon {
        return;
      }
      Advance(now);
      SweepMarked();
      MoveInvaders();
      InvaderShoot(deltaTime, rand);
      HandleCollisions();
      if |invaders| == 0 && !gameWon {
        gameWon := true;
      }
      if old(Valid()) {
        TickPreservesInv(old(Snapshot()), deltaTime, now, rand);
      }
    }
  }
}
