/** The whole session as a value, and one frame of `Game.update` (game.js:273-325)
    as a composition of its phases, in the source's order. `Game` (game.dfy)
    is proved to behave as `Tick`; the properties of the game are lemmas here. */
module GameState {
  import opened Geometry
  import opened Entities
  import opened Sweeping
  import opened Movement
  import opened Formation
  import opened Combat
  import opened Layout

  const INVADER_SHOOT_INTERVAL := 1000
  const START_LIVES := 3

  datatype State = State(
    player: Player,
    keys: Keys,
    invaders: seq<Invader>,
    playerBullets: seq<Bullet>,
    invaderBullets: seq<Bullet>,
    barriers: seq<BarrierPart>,
    invaderDirection: int,
    invaderShootTimer: int,
    score: int,
    lives: int,
    gameOver: bool,
    gameWon: bool)

  /** What holds of every session from construction on. */
  ghost predicate Inv(s: State)
  {
    s.player.OnTrack() &&
    (s.invaderDirection == 1 || s.invaderDirection == -1) &&
    s.score >= 0 && s.score % INVADER_POINTS == 0 &&
    s.lives <= START_LIVES && (s.lives <= 0 ==> s.gameOver) &&
    (s.gameWon ==> s.invaders == []) &&
    (forall b :: b in s.playerBullets ==> b.speed == -PLAYER_BULLET_SPEED && b.color == NeonBlue) &&
    (forall b :: b in s.invaderBullets ==> b.speed == INVADER_BULLET_SPEED && b.color == NeonPink) &&
    (forall i :: i in s.invaders ==> i.invaderType in {1, 2} && i.animationFrame in {0, 1}) &&
    (forall p :: p in s.barriers ==> p.health <= BARRIER_HEALTH && (p.health <= 0 ==> p.markedForDeletion))
  }

  /** The session right after the `Game` constructor. */
  function Initial(): State
  {
    State(NewPlayer(), NO_KEYS, InvaderGrid(), [], [], BarrierGrid(), 1, 0, 0, START_LIVES, false, false)
  }

  /** `restart`: a new player, a new layout, empty bullet lists, score 0, 3 lives and no
      terminal flag; the keys, the formation direction and the fire timer are kept. */
  function Restarted(s: State): State
  {
    s.(player := NewPlayer(), invaders := InvaderGrid(), playerBullets := [],
       invaderBullets := [], barriers := BarrierGrid(), score := 0, lives := START_LIVES,
       gameOver := false, gameWon := false)
  }

  /** `Math.floor(Math.random() * n)` for a random value `rand` in [0, 1). */
  function RandomIndex(rand: real, n: nat): (i: nat)
    requires 0.0 <= rand < 1.0 && n > 0
    ensures i < n
  {
    assert 0.0 <= rand * n as real < n as real;
    (rand * n as real).Floor
  }

  /** Every index can be drawn: the value i / n picks index i. */
  lemma RandomIndexReachesAll(i: nat, n: nat)
    requires i < n
    ensures 0.0 <= i as real / n as real < 1.0
    ensures RandomIndex(i as real / n as real, n) == i
  {
    assert i as real / n as real * n as real == i as real;
  }

  /** Player move, auto-fire, then every bullet's and every invader's own update
      (game.js:276-283). */
  function AdvancePhase(s: State, now: int): State
  {
    var moved := s.player.Update(s.keys);
    var shot := if AUTO_FIRE_ENABLED && s.keys.space then moved.Shoot(now, s.playerBullets)
                else (moved, s.playerBullets);
    s.(player := shot.0,
       playerBullets := UpdatedBullets(shot.1),
       invaderBullets := UpdatedBullets(s.invaderBullets),
       invaders := UpdatedInvaders(s.invaders, now))
  }

  /** The four filters (game.js:285-288). */
  function SweepPhase(s: State): State
  {
    s.(playerBullets := Sweep(s.playerBullets, BulletMarked),
       invaderBullets := Sweep(s.invaderBullets, BulletMarked),
       invaders := Sweep(s.invaders, InvaderMarked),
       barriers := Sweep(s.barriers, BarrierMarked))
  }

  /** Some invader is at the edge it moves towards (`shouldMoveDown`). */
  predicate AtEdge(s: State)
  {
    exists k :: 0 <= k < |s.invaders| && Pushing(s.invaders[k], s.invaderDirection)
  }

  /** The formation after the flip: one row lower when it was at an edge. */
  function Lowered(s: State): seq<Invader>
  {
    if AtEdge(s) then Shifted(s.invaders, 0, DESCENT) else s.invaders
  }

  /** Edge check, flip and descent, march and the defence-line check (game.js:290-308).
      The defence line is checked on the positions before the march. */
  function FormationPhase(s: State): State
  {
    var direction := if AtEdge(s) then s.invaderDirection * -1 else s.invaderDirection;
    s.(invaderDirection := direction,
       invaders := Shifted(Lowered(s), direction * INVADER_SPEED, 0),
       gameOver := s.gameOver || AnyLanded(Lowered(s)))
  }

  /** The bullet the invader fires: from its bottom centre, downwards. */
  function InvaderShot(invader: Invader): Bullet
  {
    NewBullet(invader.x + INVADER_WIDTH / 2, invader.y + INVADER_HEIGHT, INVADER_BULLET_SPEED, NeonPink)
  }

  /** The accumulated-time fire timer (game.js:311-317). */
  function FirePhase(s: State, deltaTime: int, rand: real): State
    requires 0.0 <= rand < 1.0
  {
    var timer := s.invaderShootTimer + deltaTime;
    if timer > INVADER_SHOOT_INTERVAL && |s.invaders| > 0 then
      s.(invaderShootTimer := 0,
         invaderBullets := s.invaderBullets + [InvaderShot(s.invaders[RandomIndex(rand, |s.invaders|)])])
    else
      s.(invaderShootTimer := timer)
  }

  /** Player bullets against invaders (game.js:329-337). */
  function InvaderPass(s: State): State
  {
    s.(playerBullets := BulletsMarkedBy(s.playerBullets, InvaderBoxes(s.invaders)),
       invaders := InvadersMarkedBy(s.invaders, BulletBoxes(s.playerBullets)),
       score := s.score + INVADER_POINTS * PairHits(BulletBoxes(s.playerBullets), InvaderBoxes(s.invaders)))
  }

  /** Invader bullets against the player (game.js:340-348). */
  function PlayerPass(s: State): State
  {
    var lives := s.lives - CountStruck(BulletBoxes(s.invaderBullets), s.player.Box());
    s.(invaderBullets := BulletsMarkedBy(s.invaderBullets, [s.player.Box()]),
       lives := lives,
       gameOver := s.gameOver || (lives < s.lives && lives <= 0))
  }

  /** Player bullets against barrier parts (game.js:351-358). */
  function PlayerShotBarrierPass(s: State): State
  {
    s.(playerBullets := BulletsMarkedBy(s.playerBullets, BarrierBoxes(s.barriers)),
       barriers := BarriersHitBy(s.barriers, BulletBoxes(s.playerBullets)))
  }

  /** Invader bullets against barrier parts (game.js:359-366). */
  function InvaderShotBarrierPass(s: State): State
  {
    s.(invaderBullets := BulletsMarkedBy(s.invaderBullets, BarrierBoxes(s.barriers)),
       barriers := BarriersHitBy(s.barriers, BulletBoxes(s.invaderBullets)))
  }

  /** Invaders against barrier parts (game.js:369-375). */
  function CrushPass(s: State): State
  {
    s.(barriers := BarriersMarkedBy(s.barriers, InvaderBoxes(s.invaders)))
  }

  /** `handleCollisions` (game.js:327-376): the five passes in the source's order. */
  function CollisionPhase(s: State): State
  {
    CrushPass(InvaderShotBarrierPass(PlayerShotBarrierPass(PlayerPass(InvaderPass(s)))))
  }

  /** The win check (game.js:322-324). */
  function WinPhase(s: State): State
  {
    if |s.invaders| == 0 && !s.gameWon then s.(gameWon := true) else s
  }

  /** One call of `Game.update`: nothing happens once the game is over or won. */
  function Tick(s: State, deltaTime: int, now: int, rand: real): State
    requires 0.0 <= rand < 1.0
  {
    if s.gameOver || s.gameWon then s
    else WinPhase(CollisionPhase(FirePhase(FormationPhase(SweepPhase(AdvancePhase(s, now))), deltaTime, rand)))
  }
}
