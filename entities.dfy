/** The game's constants and its four entity kinds, each with the per-frame step
    that game.js gives it as a method (`update`, `shoot`, `hit`). The objects of
    game.js are values here: each is referenced from exactly one place (the
    player from the game, every other entity from one array), so updating a
    value and storing it back is the same as mutating the object. */
module Entities {
  import opened Geometry

  const SCREEN_WIDTH := 800
  const SCREEN_HEIGHT := 600

  const PLAYER_SPEED := 5
  const PLAYER_BULLET_SPEED := 15
  const INVADER_BULLET_SPEED := 7
  const INVADER_SPEED := 1
  const BULLET_COOLDOWN := 100
  const AUTO_FIRE_ENABLED := true

  const PLAYER_WIDTH := 50
  const PLAYER_HEIGHT := 30
  const BULLET_WIDTH := 4
  const BULLET_HEIGHT := 20
  const INVADER_WIDTH := 30
  const INVADER_HEIGHT := 30
  const ANIMATION_INTERVAL := 500
  const BARRIER_WIDTH := 10
  const BARRIER_HEIGHT := 10
  const BARRIER_HEALTH := 5

  /** The three entries of the key-state mapping that the game reads. */
  datatype Keys = Keys(arrowLeft: bool, arrowRight: bool, space: bool)

  const NO_KEYS := Keys(false, false, false)

  /** The two bullet colours, which also tell who fired. */
  datatype Color = NeonBlue | NeonPink

  datatype Player = Player(x: int, y: int, lastShot: int)
  {
    function Box(): Rect { Rect(x, y, PLAYER_WIDTH, PLAYER_HEIGHT) }

    /** The player stands on its row, at a multiple of its speed, inside the screen. */
    predicate OnTrack()
    {
      y == SCREEN_HEIGHT - PLAYER_HEIGHT - 10 &&
      0 <= x <= SCREEN_WIDTH - PLAYER_WIDTH && x % PLAYER_SPEED == 0
    }

    /** `Player.update`: step left while not at the left edge, then step right while
        not at the right edge. */
    function Update(keys: Keys): (p: Player)
      ensures p.y == y && p.lastShot == lastShot
      ensures OnTrack() ==> p.OnTrack()
      ensures !keys.arrowLeft && !keys.arrowRight ==> p.x == x
      ensures p.x == x - PLAYER_SPEED || p.x == x || p.x == x + PLAYER_SPEED
      ensures keys.arrowLeft && !keys.arrowRight && x > 0 ==> p.x == x - PLAYER_SPEED
      ensures !keys.arrowLeft && keys.arrowRight && x < SCREEN_WIDTH - PLAYER_WIDTH ==> p.x == x + PLAYER_SPEED
      ensures keys.arrowLeft && keys.arrowRight && 0 <= x <= SCREEN_WIDTH - PLAYER_WIDTH ==>
                p.x == if x == 0 then PLAYER_SPEED else x
    {
      var afterLeft := if keys.arrowLeft && x > 0 then x - PLAYER_SPEED else x;
      var afterRight := if keys.arrowRight && afterLeft < SCREEN_WIDTH - PLAYER_WIDTH
                        then afterLeft + PLAYER_SPEED else afterLeft;
      this.(x := afterRight)
    }

    predicate CoolingDown(now: int) { now - lastShot <= BULLET_COOLDOWN }

    /** `Player.shoot` at clock value `now`: the new player and the new player-bullet list. */
    function Shoot(now: int, bullets: seq<Bullet>): (r: (Player, seq<Bullet>))
      ensures !CoolingDown(now) ==>
                r.0 == this.(lastShot := now) &&
                r.1 == bullets + [Bullet(x + 23, y, -PLAYER_BULLET_SPEED, NeonBlue, false)]
      ensures CoolingDown(now) ==> r == (this, bullets)
    {
      if now - lastShot > BULLET_COOLDOWN then
        (this.(lastShot := now),
         bullets + [NewBullet(x + PLAYER_WIDTH / 2, y, -PLAYER_BULLET_SPEED, NeonBlue)])
      else
        (this, bullets)
    }
  }

  /** `new Player(game)`. */
  function NewPlayer(): (p: Player)
    ensures p.OnTrack() && p.x == 375 && p.lastShot == 0
  {
    Player((SCREEN_WIDTH - PLAYER_WIDTH) / 2, SCREEN_HEIGHT - PLAYER_HEIGHT - 10, 0)
  }

  /** The call times at which a player, whose `shoot` is called at each time of
      `calls` in turn, actually fires. */
  function FireTimes(p: Player, calls: seq<int>): seq<int>
    decreases |calls|
  {
    if calls == [] then []
    else
      var shot := p.Shoot(calls[0], []);
      (if shot.1 == [] then [] else [calls[0]]) + FireTimes(shot.0, calls[1..])
  }

  /** The cooldown is a hard rate limit: whatever the call times, every shot comes
      more than the cooldown after the previous one (and after `lastShot`), and
      no shot is queued. */
  lemma {:induction false} FireTimesSpaced(p: Player, calls: seq<int>)
    ensures |FireTimes(p, calls)| <= |calls|
    ensures forall k :: 0 <= k < |FireTimes(p, calls)| ==> FireTimes(p, calls)[k] in calls
    ensures FireTimes(p, calls) != [] ==> FireTimes(p, calls)[0] - p.lastShot > BULLET_COOLDOWN
    ensures forall k :: 0 < k < |FireTimes(p, calls)| ==>
              FireTimes(p, calls)[k] - FireTimes(p, calls)[k - 1] > BULLET_COOLDOWN
    decreases |calls|
  {
    if calls != [] {
      var shot := p.Shoot(calls[0], []);
      FireTimesSpaced(shot.0, calls[1..]);
      var rest := FireTimes(shot.0, calls[1..]);
      forall k | 0 <= k < |rest| ensures rest[k] in calls {
        assert rest[k] in calls[1..];
      }
    }
  }

  /** Calls spaced by more than the cooldown all fire. */
  lemma {:induction false} SpacedCallsAllFire(p: Player, calls: seq<int>)
    requires calls != [] ==> calls[0] - p.lastShot > BULLET_COOLDOWN
    requires forall k :: 0 < k < |calls| ==> calls[k] - calls[k - 1] > BULLET_COOLDOWN
    ensures FireTimes(p, calls) == calls
    decreases |calls|
  {
    if calls != [] {
      var shot := p.Shoot(calls[0], []);
      assert shot.0.lastShot == calls[0];
      SpacedCallsAllFire(shot.0, calls[1..]);
    }
  }

  datatype Bullet = Bullet(x: int, y: int, speed: int, color: Color, markedForDeletion: bool)
  {
    function Box(): Rect { Rect(x, y, BULLET_WIDTH, BULLET_HEIGHT) }

    /** `Bullet.update`: move by `speed`; leaving the screen vertically marks the bullet. */
    function Update(): (b: Bullet)
      ensures b.Box() == Rect(x, y + speed, BULLET_WIDTH, BULLET_HEIGHT)
      ensures b.speed == speed && b.color == color
      ensures markedForDeletion ==> b.markedForDeletion
      ensures b.markedForDeletion <==> markedForDeletion || !(0 <= b.y <= SCREEN_HEIGHT)
    {
      var moved := this.(y := y + speed);
      if moved.y < 0 || moved.y > SCREEN_HEIGHT then moved.(markedForDeletion := true) else moved
    }

    /** Sets the deletion mark when `hit` holds; never clears it. */
    function MarkIf(hit: bool): (b: Bullet)
      ensures b.Box() == Box() && b.speed == speed && b.color == color
      ensures b.markedForDeletion <==> markedForDeletion || hit
    {
      if hit then this.(markedForDeletion := true) else this
    }
  }

  /** `new Bullet(game, x, y, speed, color)`: `x` is the bullet's horizontal centre. */
  function NewBullet(centreX: int, y: int, speed: int, color: Color): (b: Bullet)
    ensures b.Box() == Rect(centreX - 2, y, BULLET_WIDTH, BULLET_HEIGHT)
    ensures b.speed == speed && b.color == color && !b.markedForDeletion
  {
    Bullet(centreX - BULLET_WIDTH / 2, y, speed, color, false)
  }

  datatype Invader = Invader(x: int, y: int, invaderType: int, markedForDeletion: bool,
                             animationFrame: int, lastAnimation: int)
  {
    function Box(): Rect { Rect(x, y, INVADER_WIDTH, INVADER_HEIGHT) }

    /** `Invader.update`: toggle the animation frame once more than 500 ms have passed
        since the last toggle. Only the animation changes. */
    function Update(now: int): (i: Invader)
      ensures i.Box() == Box() && i.invaderType == invaderType
      ensures i.markedForDeletion == markedForDeletion
      ensures i.animationFrame != animationFrame <==> now - lastAnimation > ANIMATION_INTERVAL
      ensures i.animationFrame != animationFrame ==> i.lastAnimation == now
      ensures i.animationFrame == animationFrame ==> i.lastAnimation == lastAnimation
      ensures animationFrame in {0, 1} ==> i.animationFrame in {0, 1}
    {
      if now - lastAnimation > ANIMATION_INTERVAL then
        this.(lastAnimation := now, animationFrame := 1 - animationFrame)
      else this
    }

    function MarkIf(hit: bool): (i: Invader)
      ensures i.Box() == Box() && i.invaderType == invaderType && i.animationFrame == animationFrame
      ensures i.markedForDeletion <==> markedForDeletion || hit
    {
      if hit then this.(markedForDeletion := true) else this
    }
  }

  /** `new Invader(game, x, y, invaderType)`. */
  function NewInvader(x: int, y: int, invaderType: int): (i: Invader)
    ensures i.Box() == Rect(x, y, INVADER_WIDTH, INVADER_HEIGHT) && i.invaderType == invaderType
    ensures !i.markedForDeletion && i.animationFrame == 0 && i.lastAnimation == 0
  {
    Invader(x, y, invaderType, false, 0, 0)
  }

  datatype BarrierPart = BarrierPart(x: int, y: int, health: int, markedForDeletion: bool)
  {
    function Box(): Rect { Rect(x, y, BARRIER_WIDTH, BARRIER_HEIGHT) }

    /** `BarrierPart.hit`: lose one health point; at zero or below the part is marked. */
    function Hit(): (b: BarrierPart)
      ensures b.Box() == Box()
      ensures b.health == health - 1
      ensures b.markedForDeletion <==> markedForDeletion || b.health <= 0
    {
      var damaged := this.(health := health - 1);
      if damaged.health <= 0 then damaged.(markedForDeletion := true) else damaged
    }

    /** `k` successive calls of `hit`. */
    function HitTimes(k: nat): BarrierPart
    {
      if k == 0 then this else HitTimes(k - 1).Hit()
    }

    function MarkIf(hit: bool): (b: BarrierPart)
      ensures b.Box() == Box() && b.health == health
      ensures b.markedForDeletion <==> markedForDeletion || hit
    {
      if hit then this.(markedForDeletion := true) else this
    }
  }

  /** `new BarrierPart(game, x, y)`. */
  function NewBarrierPart(x: int, y: int): (p: BarrierPart)
    ensures p.Box() == Rect(x, y, BARRIER_WIDTH, BARRIER_HEIGHT)
    ensures p.health == BARRIER_HEALTH && !p.markedForDeletion
  {
    BarrierPart(x, y, BARRIER_HEALTH, false)
  }

  /** `k` hits lower health by exactly `k`; the part is marked afterwards exactly when
      it was marked before or some hit brought its health to zero or below. */
  lemma {:induction false} HitTimesEffect(b: BarrierPart, k: nat)
    ensures b.HitTimes(k).Box() == b.Box()
    ensures b.HitTimes(k).health == b.health - k
    ensures b.HitTimes(k).markedForDeletion <==>
              b.markedForDeletion || (k > 0 && b.health - k <= 0)
  {
    if k > 0 {
      HitTimesEffect(b, k - 1);
    }
  }

  lemma {:induction false} HitTimesAdd(b: BarrierPart, k1: nat, k2: nat)
    ensures b.HitTimes(k1).HitTimes(k2) == b.HitTimes(k1 + k2)
  {
    if k2 > 0 {
      HitTimesAdd(b, k1, k2 - 1);
    }
  }
}
