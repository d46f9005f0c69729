# Space Invaders simulation in Dafny

This project models the game simulation of `game.js`, a browser Space Invaders game.
It covers the player, the two bullet lists, the 5 x 10 invader formation, the four
barrier clusters, the score, the lives and the two terminal flags. All of these are
advanced one animation frame at a time by `Game.update`, which calls
`handleCollisions` and `checkCollision`. Drawing, the DOM and the animation driver
are outside the model.

Layout of the project:

- `geometry.dfy` (`Geometry`): the rectangle overlap test and overlap counts.
- `entities.dfy` (`Entities`): the constants and the four entity kinds.
  - `Player`, `Bullet`, `Invader` and `BarrierPart` are datatypes.
  - Their `update`, `shoot` and `hit` are member functions that return the updated entity.
- `sweep.dfy` (`Sweeping`): the filter that drops entities marked for deletion.
- `movement.dfy` (`Movement`): the `forEach` update loops.
- `formation.dfy` (`Formation`): the edge scan, the descent and the march.
- `combat.dfy` (`Combat`): the nested collision loops.
  - Each loop is a method proved equal to a closed form.
  - The closed forms are written with overlap counts, so they do not depend on loop order.
- `layout.dfy` (`Layout`): the grids built by `createInvaders` and `createBarriers`.
- `state.dfy` (`GameState`): the session as a value and the frame function `Tick`.
  - `Tick` composes the phases of `update` in the source's order.
- `invariant.dfy` (`Invariants`): the invariant `Inv` and its preservation by every phase.
- `game.dfy` (`SpaceInvaders`): the `Game` class.
  - Its fields are the fields of game.js's `Game` that change while the game runs.
  - Its methods change them in place, each proved to match its phase function.
- `properties.dfy` (`GameProperties`): what a frame and a run of frames do.

Ambient inputs are parameters:

- `Keys` holds the three entries of the key state the game reads.
- `now` is the clock value of the frame.
- `deltaTime` is the time since the last frame.
- `rand` is the value `Math.random()` returns, in [0, 1). The chosen invader is `floor(rand * n)`.

Several behaviours of `game.js` differ from what a reader of the rules might expect.
The model follows `game.js` in each. Among them:

- **Both flags.** One might expect `gameOver` and `gameWon` never to be true together. In `game.js` both can become true in one frame: the sweep empties the formation while an invader bullet takes the last life. `GameProperties.BothFlagsInOneFrame` exhibits such a frame.
- **Negative lives.** One might expect lives to bottom out at 0. `game.js` takes one life per overlapping bullet with no floor. `GameProperties.LivesCanGoNegative` shows lives reaching -1.
- **Score per pair.** One might expect 100 points per destroyed invader. `game.js` adds 100 per overlapping (player bullet, invader) pair (game.js:329-336), so two bullets inside one invader score 200. `GameProperties.CollisionScoresAndLives` states the per-pair rule and `GameProperties.TwoBulletsOneInvader` exhibits the case.
- **Invaders at a barrier.** One might expect an invader that reaches a barrier to be destroyed. `game.js` marks only the barrier part (game.js:368-375); the invader stays. `GameProperties.CollisionMarksInvaders` states that only player bullets mark invaders, and `GameProperties.InvaderSurvivesBarrier` exhibits the case.
- **`restart` and negative `deltaTime`.** One might expect `restart` to rebuild the state of first construction, and a negative `deltaTime` to be clamped to 0. `restart` keeps the key state, the formation direction and the fire timer. `GameProperties.RestartMatchesConstruction` states exactly when the two states agree. `game.js` does not clamp a negative `deltaTime`, and neither does the model.

## Model

| member | source | states |
|---|---|---|
| Geometry.CheckCollision | game.js:378-385 | two rectangles collide iff each starts strictly before the other ends, on the x axis and on the y axis |
| Geometry.CheckCollisionSymmetric | game.js:378-385 | the overlap test gives the same answer with its arguments swapped |
| Geometry.EdgeContactIsNoCollision | game.js:378-385 | rectangles that only share an edge (horizontally or vertically) do not collide |
| Geometry.CollisionIffCommonInterior | game.js:378-385 | for rectangles of positive size, the test holds iff some point lies strictly inside both |
| Geometry.CountHitsPositive | game.js:329-348 | a rectangle's overlap count against a list is positive iff it overlaps some member, and is at most the list's length |
| Geometry.CountStruckPositive | game.js:350-375 | the number of list members overlapping a rectangle is positive iff one does, and is at most the list's length |
| Geometry.PairHitsByTarget | game.js:329-337 | counting overlapping (bullet, invader) pairs bullet by bullet or invader by invader gives the same total |
| Entities.NewPlayer | game.js:27-35 | the player starts at x = 375 on its row, on the 5-pixel track, with lastShot 0 |
| Entities.Player.Update | game.js:50-57 | y and lastShot are kept; x moves by -5, 0 or +5 and stays a multiple of 5 in [0, 750]; no arrow key means no move; a single arrow key away from an edge moves exactly one step; both keys cancel, except at the left edge, where only the right step applies |
| Entities.Player.Shoot | game.js:59-66 | past the 100 ms cooldown, exactly one bullet is appended at (x + 23, y) with speed -15 and lastShot becomes now; otherwise player and list are unchanged |
| Entities.FireTimesSpaced | game.js:59-66 | over any call times, shots are more than 100 ms apart and after the prior lastShot, and every shot is one of the calls |
| Entities.SpacedCallsAllFire | game.js:59-66 | calls spaced by more than the cooldown all fire |
| Entities.NewBullet | game.js:70-79 | a bullet's box is centred on the given x; it is new and unmarked |
| Entities.Bullet.Update | game.js:81-86 | the bullet moves by its speed; it is marked iff it was marked or is now off the screen vertically |
| Entities.NewInvader | game.js:95-105 | an invader is a 30 x 30 box at (x, y) of the given type, unmarked, on animation frame 0 with last animation time 0 |
| Entities.Invader.Update | game.js:107-112 | the frame toggles iff more than 500 ms passed since the last toggle, which records now; position, type and mark are kept |
| Entities.BarrierPart.Hit | game.js:158-163 | health drops by exactly 1; the part is marked iff it was marked or its health is now at most 0 (never cleared) |
| Entities.NewBarrierPart | game.js:141-149 | a barrier part is a 10 x 10 box at (x, y) with health 5, unmarked |
| Entities.HitTimesEffect | game.js:158-163 | k hits lower health by exactly k, keep the box, and mark the part iff it was marked or some hit left health at most 0 |
| Entities.HitTimesAdd | game.js:158-163 | k1 hits then k2 hits are k1 + k2 hits |
| Sweeping.Sweep | game.js:285-288 | the filter never lengthens a list |
| Sweeping.SweepMembers | game.js:285-288 | what survives is exactly the unmarked members |
| Sweeping.SweepUnmarked | game.js:285-288 | a list with no marked member is left unchanged |
| Sweeping.SweepIdempotent | game.js:285-288 | filtering twice is filtering once |
| Sweeping.KeepsOrder | game.js:285-288 | two survivors keep their relative order |
| Movement.UpdateBullets | game.js:281-282 | the loop leaves every bullet updated in place, in order |
| Movement.UpdateInvaders | game.js:283 | the loop leaves every invader updated in place, in order |
| Formation.ShouldMoveDown | game.js:291-296 | the flag is set iff some invader is at x <= 0 moving left or at x + 30 >= 800 moving right |
| Formation.Descend | game.js:298-301 | every invader is moved 10 down, nothing else changes |
| Formation.March | game.js:303-308 | every invader is moved by direction * 1; the flag reports iff some invader's bottom is at y >= 550 |
| Combat.StrikeWithBullet | game.js:330-336 | one bullet against all invaders: it is marked iff it overlaps one, each overlapped invader is marked, and 100 is scored per overlap |
| Combat.StrikeInvaders | game.js:329-337 | each bullet is marked iff it overlaps an invader, each invader iff a bullet overlaps it, and 100 is scored per overlapping pair |
| Combat.StrikePlayer | game.js:340-348 | each bullet over the player is marked and costs one life; gameOver is set iff it was set or some life was lost and lives are now at most 0 |
| Combat.StrikeBarriersWith | game.js:352-357 | one bullet against all parts: it is marked iff it overlaps one, and every overlapped part is hit once |
| Combat.StrikeBarriers | game.js:351-366 | each bullet is marked iff it overlaps a part; each part is hit once per overlapping bullet, marked ones included |
| Combat.CrushBarriersWith | game.js:370-374 | one invader marks every part it overlaps |
| Combat.CrushBarriers | game.js:369-375 | a part is marked iff it was or an invader overlaps it; health is untouched |
| Combat.MarkingKeepsBoxes | game.js:329-375 | marks and hits never move a bullet, invader or barrier part |
| Layout.InvaderGrid | game.js:249-258 | the 50 invaders in push order, row by row: entry 10 row + col is at (100 + 50 col, 50 + 50 row), of type 1 in rows 0 and 1 and type 2 below |
| Layout.BarrierGrid | game.js:260-271 | the 60 parts in push order, cluster by cluster, then row, then column: entry 15 i + 5 row + col is at (200 i + 100 + 10 col, 450 + 10 row) |
| Layout.InvaderGridAt | game.js:249-258 | the invader pushed for row, col is at (100 + 50 col, 50 + 50 row), of type 1 iff row < 2, new and unmarked |
| Layout.BarrierGridAt | game.js:260-271 | the part pushed for cluster i, row, col is at (800/4 i + 800/8 + 10 col, 600 - 150 + 10 row) with health 5 |
| Layout.BarrierGridStep | game.js:264-268 | pushing the part for cluster i, row, col extends the pushed prefix of the layout by exactly that part |
| Layout.InvaderGridClear | game.js:249-271 | at the start no invader is at an edge or at the defence line, and none overlaps another invader or a barrier part |
| Layout.BarrierGridClear | game.js:260-271 | no two barrier parts overlap (neighbours share an edge) |
| GameState.Initial | game.js:167-188 | the constructed session: a new player, no key, the invader and barrier grids, no bullets, direction 1, timer 0, score 0, 3 lives, neither flag |
| GameState.Restarted | game.js:235-247 | restart replaces the player, both grids and both bullet lists, resets score, lives and both flags, and keeps the keys, the direction and the fire timer |
| GameState.RandomIndex | game.js:314 | floor(rand * n) is an index of the formation |
| GameState.RandomIndexReachesAll | game.js:314 | every invader can be the one that fires |
| GameState.AdvancePhase | game.js:276-283 | the player moves by the keys and auto-fires while space is held, then every bullet of both lists and every invader takes its update step |
| GameState.SweepPhase | game.js:285-288 | the four lists lose their marked members, in order |
| GameState.FormationPhase | game.js:290-308 | at an edge the direction flips and the formation drops 10; gameOver is set if an invader is at the defence line; every invader then moves by the direction |
| GameState.FirePhase | game.js:310-317 | the timer gains deltaTime; past 1000 ms with an invader left, it resets and the invader at floor(rand n) adds a bullet from its bottom centre |
| GameState.InvaderPass | game.js:329-337 | player bullets and invaders overlapping each other are marked; 100 points per overlapping pair |
| GameState.PlayerPass | game.js:340-348 | invader bullets over the player are marked, one life each; gameOver is set when that leaves lives at 0 or below |
| GameState.PlayerShotBarrierPass | game.js:351-358 | player bullets over a part are marked; each part takes one hit per overlapping player bullet |
| GameState.InvaderShotBarrierPass | game.js:359-366 | invader bullets over a part are marked; each part takes one hit per overlapping invader bullet |
| GameState.CrushPass | game.js:368-375 | every part an invader overlaps is marked |
| GameState.CollisionPhase | game.js:327-376 | the five passes in the order handleCollisions runs them |
| GameState.WinPhase | game.js:322-324 | gameWon is set when no invader is left |
| GameState.Tick | game.js:273-325 | a frame: nothing when a flag is set, otherwise advance, sweep, formation, fire, collisions and the win check, in that order |
| Invariants.InitialValid | game.js:167-188 | the constructed session satisfies Inv |
| Invariants.RestartedValid | game.js:235-247 | restart re-establishes Inv |
| Invariants.AdvancePreservesInv | game.js:276-283 | the player move, auto-fire and entity updates keep Inv |
| Invariants.SweepPreservesInv | game.js:285-288 | the filters keep Inv |
| Invariants.FormationPreservesInv | game.js:290-308 | the formation step keeps Inv |
| Invariants.FirePreservesInv | game.js:310-317 | the fire timer keeps Inv |
| Invariants.CollisionPreservesInv | game.js:327-376 | the collision passes keep Inv: score a multiple of 100, gameOver once lives are gone, barrier health at most 5 and marked at 0 |
| Invariants.TickPreservesInv | game.js:273-325 | a whole frame keeps Inv |
| Invariants.BarrierAfterCollisions | game.js:350-375 | a part hit n1 then n2 times and then crushed has health h - n1 - n2 and is marked iff it was, was crushed, or was hit to health at most 0 |
| SpaceInvaders.Game.constructor | game.js:167-188 | the fields hold the initial session and Inv holds |
| SpaceInvaders.Game.SetKeys | game.js:190-232 | the listeners replace the key state |
| SpaceInvaders.Game.CreateInvaders | game.js:249-258 | the nested loops append exactly the 50-invader grid to the list |
| SpaceInvaders.Game.CreateBarriers | game.js:260-271 | the nested loops append exactly the 60-part grid to the list |
| SpaceInvaders.Game.Restart | game.js:235-247 | the fields become the restarted session; Inv is kept |
| SpaceInvaders.Game.Advance | game.js:276-283 | the fields change as the advance phase says |
| SpaceInvaders.Game.SweepMarked | game.js:285-288 | the four lists are filtered |
| SpaceInvaders.Game.MoveInvaders | game.js:290-308 | the fields change as the formation phase says |
| SpaceInvaders.Game.InvaderShoot | game.js:310-317 | the fields change as the fire phase says |
| SpaceInvaders.Game.ShootInvaders | game.js:329-337 | the first collision pass |
| SpaceInvaders.Game.HitPlayer | game.js:340-348 | the second collision pass |
| SpaceInvaders.Game.ShootBarriers | game.js:350-366 | the bullet-against-barrier passes of either list |
| SpaceInvaders.Game.CrushBarrierParts | game.js:368-375 | the invader-against-barrier pass |
| SpaceInvaders.Game.HandleCollisions | game.js:327-376 | the fields change as the five passes, in order, say |
| SpaceInvaders.Game.Update | game.js:273-325 | the fields change exactly as Tick says, and Inv is kept |
| GameProperties.TickTerminal | game.js:273-274 | once a terminal flag is set, a frame changes nothing |
| GameProperties.SweepPhaseClean | game.js:285-288 | after the filters, each list holds exactly the unmarked members of the list before |
| GameProperties.SweptBulletsOnScreen | game.js:281-286 | every bullet surviving the frame's move and filter has 0 <= y <= 600 |
| GameProperties.FormationMovesAsOne | game.js:290-304 | all invaders move by the same dx (the new direction, -1 or 1) and the same dy (0 or 10); dy is 10 iff the direction flips iff some invader is at the edge it moves towards |
| GameProperties.FormationLanding | game.js:302-307 | gameOver is set iff it was set or some invader's bottom, after the descent, is at y >= 550 |
| GameProperties.InvaderFire | game.js:310-317 | one bullet is added iff the accumulated time passes 1000 ms with an invader left; it starts at that invader's (x + 13, y + 30) with speed 7, and the timer resets to 0; otherwise the timer accumulates |
| GameProperties.CollisionMarksBullets | game.js:329-366 | a bullet is marked iff it was marked or overlaps one of its targets (invader or part; player or part) |
| GameProperties.CollisionMarksInvaders | game.js:329-337 | an invader is marked iff it was marked or a player bullet overlaps it |
| GameProperties.CollisionDamagesBarriers | game.js:350-375 | a part loses one health per overlapping bullet of either list; it is marked iff it was, an invader overlaps it, or a hit left it at health at most 0 |
| GameProperties.CollisionScoresAndLives | game.js:327-348 | score rises by 100 per overlapping (player bullet, invader) pair; lives fall by the number of invader bullets over the player; gameOver as in StrikePlayer |
| GameProperties.TickProgress | game.js:273-325 | over a frame the score never falls and lives never rise; both flags latch; a frame that runs sets gameWon iff no invader is left |
| GameProperties.RestartFacts | game.js:235-271 | restart gives 50 invaders, 60 parts of health 5, no bullets, score 0, 3 lives and no flag, and keeps keys, direction and timer |
| GameProperties.RestartMatchesConstruction | game.js:167-188 | restart yields the constructor's state iff no key is held, the direction is 1 and the timer is 0 |
| GameProperties.RunPreservesInv | game.js:273-325 | over any sequence of frames, Inv is kept and the score never falls |
| GameProperties.ReachableValid | game.js:167-325 | every session reachable from construction satisfies Inv |
| GameProperties.BothFlagsInOneFrame | game.js:285-324 | a valid session in which one frame sets both gameOver and gameWon |
| GameProperties.LivesCanGoNegative | game.js:340-346 | two bullets striking at one life leave -1 lives |
| GameProperties.TwoBulletsOneInvader | game.js:329-336 | two bullets inside one invader score 200 while one invader is marked |
| GameProperties.InvaderSurvivesBarrier | game.js:368-375 | an invader overlapping a barrier part marks the part, stays unmarked and scores nothing |

## Left out

- Drawing is left out: the `draw` methods, `showMessage` and the score and lives text (game.js:37-48, 88-91, 114-137, 151-156, 387-417). It is presentation only.
- The listener wiring in the `Game` constructor (game.js:190-232) is left out. Its effect on the key state is `SetKeys`.
- Manual fire on key press and restart on 'r' are left out. With `AUTO_FIRE_ENABLED` true the manual fire never runs; restart is `Game.Restart`.
- The `requestAnimationFrame` driver (game.js:420-432) is left out. `GameProperties.Run` stands for any sequence of frames.
- `Date.now()` is the single `now` parameter of a frame. The source reads the clock separately in `shoot` and in each invader's `update`, and those reads can differ by a millisecond.
- `Math.random()` is the `rand` parameter.
- Times are integer milliseconds. The driver's timestamps are floating point.
- The screen is fixed at 800 x 600, the only size the game is created with (game.js:420).
- JavaScript objects are values here. Each object is referenced from exactly one place, so this loses no behaviour.
- The key state has only the three entries the game reads.
- The unused field `invaderMoveDown` (game.js:178) is left out.
- `width`, `height` (game.js:167-168) and `invaderShootInterval` (game.js:180) are never reassigned, so they are the constants `SCREEN_WIDTH`, `SCREEN_HEIGHT` and `GameState.INVADER_SHOOT_INTERVAL` rather than fields.
- `main.py`, a separate pygame version of the game, is not part of this model.
