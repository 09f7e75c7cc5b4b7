# Orbits: projectile physics and aiming preview in Dafny

This project models the physics core of a small Phaser game in which planets
circle a sun and projectiles ("gravity objects") fly under the planets' pull.
Vectors are pairs of exact `real`s, all state is immutable, and every
operation is a pure function or a short method over sequences of planets and
projectiles.

- `Vectors.dfy`: the `Vec2` operations the game uses, and squared lengths.
- `Entities.dfy`: the `Planet` record (body centre, mass, radius) and the
  `GravityObject` record (position, velocity, cached acceleration, trail,
  damage). Every projectile has radius 1 and default damage 10.
- `Utils.dfy`: `isInsidePlanet` and the `getUniqueID` counter, with the
  decimal rendering of the counter.
- `Gravity.dfy`: `getGravityAccelVector`, the two velocity-Verlet halves
  `updatePosition` and `updateVelocity`, `onCollision` and the trail cap of
  `drawObject`.
- `Orbit.dfy`: `Planet.calcOrbitDuration`.
- `Trajectory.dfy`: the `drawTrajectoryLine` preview loop.
- `Game.dfy`: the ordering of `update`'s `updatePositions`, the trail cap on
  drawing, `getShotGravityObject` and the collider callback.

Modelling choices:

- In the source, `updatePosition(timeDiff)` and `updateVelocity(timeDiff)`
  take only the time step and read the global planet group. Every caller
  passes the planet list first (`mainLoop.js` lines 110-111, 183 and 189).
  As written, `timeDiff` therefore receives the planet array, so neither the
  preview's `updateInterval` nor the tick's `1/60` ever reaches
  `updatePosition` or `updateVelocity`, and the acceleration always reads the
  global group. The model follows the callers' evident intent: the planet
  list and `dt` are explicit parameters of every operation, so the preview
  steps against the list it was given with the interval it was given.
- The gravity term divides by the squared distance to the planet's centre
  without a guard. Every operation that evaluates it therefore requires that
  no planet centre coincides with the evaluated position (`Gravity.Clear`).
  The preview requires this for every step it actually takes
  (`Trajectory.PreviewDefined`). The tick requires it for both halves of
  every projectile's step (`Game.TickDefined`).
- The pull has length mass/|d|: classes.js:119 scales the vector d towards
  the centre by mass/|d|², not mass/|d|³, and the model keeps that law.
- `onCollision` (classes.js:149-157) damages every planet alike. The code has
  no exempt planet, no weapons or cooldowns, no area detonation and no
  discovery probes, so the model has none either.
- The physics body's centre is taken to be the object's position. Planet
  positions after an orbit update are inputs (`centers`). Collision pairs
  are inputs, given as indices into the live planet and projectile lists.
- "Distance < sum of radii" is stated with squared distances:
  `reach > 0 && |p - c|² < reach²`. `Utils.OverlapMatchesDistance` proves
  that this agrees with the square-root test for every sign of the radii.
- `calcOrbitDuration` multiplies both circle areas by `Math.PI`. The model
  takes that constant as a positive parameter and proves it cancels.
- A negative `iterations` runs the preview loop zero times, as in the source.

## Model

| member | source | states |
|---|---|---|
| Gravity.GravityAccel | classes.js:114-123 | the running sum over the planets equals the reference sum of one term per planet; with no planets it is the zero vector |
| Gravity.AccelAppend | classes.js:116-121 | appending a planet to the list adds exactly that planet's term to the acceleration |
| Gravity.SinglePlanetPull | classes.js:117-120 | one planet's pull is parallel to the vector towards its centre; it points towards the centre when the mass is non-negative; its squared length is mass²/\|c − p\|² |
| Gravity.UpdatePosition | classes.js:125-138 | the displacement is vel·dt + a·dt²/2 with `a` the acceleration at the old position; `a` is cached; velocity and damage are unchanged; the old position is appended to the trail and earlier entries are kept |
| Gravity.UpdateVelocity | classes.js:140-147 | position, cached acceleration, trail and damage are unchanged |
| Gravity.VelocityUsesAverage | classes.js:140-147 | the velocity changes by the average of the cached and the current acceleration, times dt |
| Gravity.FreeStep | classes.js:125-147 | with no planets, one position step plus one velocity step moves by vel·dt and keeps the velocity |
| Gravity.FreeFlight | classes.js:125-147 | with no planets, n whole steps are always defined and give exact straight-line motion: position pos + vel·(n·dt), velocity unchanged |
| Gravity.OnCollision | classes.js:149-154 | the planet's mass drops by exactly the damage; centre and radius are kept; the planet is destroyed iff the new mass is ≤ 0 |
| Gravity.CollisionDestroysIff | classes.js:151-154 | a hit destroys the planet iff damage ≥ mass; a zero-damage object leaves the planet unchanged and never destroys a planet of positive mass |
| Gravity.CapTrail | classes.js:94-97 | the cap drops exactly one entry, the oldest, when the queue is over capacity 10; otherwise it keeps the queue; a queue of at most 11 entries ends with at most 10 |
| Gravity.TrailStaysBounded | classes.js:94-97 | pushing one position and then capping keeps a trail of at most 10 entries within 10; it keeps the most recent entries, with the pre-step position last |
| Orbit.CalcOrbitDuration | classes.js:43-51 | the period is 300000·d²/400² ms, whatever positive value stands for pi |
| Orbit.PiCancels | classes.js:46-50 | the ratio of the two circle areas does not depend on pi |
| Orbit.OrbitDurationAnchors | classes.js:43-51 | distance 400 gives exactly 300000 ms; distance 0 gives 0; the result is the same for any two values of pi |
| Orbit.OrbitDurationScales | classes.js:43-51 | scaling the distance by k scales the period by k²; the period is never negative |
| Orbit.OrbitDurationGrows | classes.js:43-51 | for non-negative distances, a farther orbit never has a shorter period |
| Trajectory.PreviewCopy | mainLoop.js:99-105 | the preview copy has the projectile's position and velocity and damage 0 |
| Trajectory.SteppedExtend | mainLoop.js:108-111 | appending one whole Verlet step of the last copy keeps the copies a chain of steps |
| Trajectory.DrawnExtend | mainLoop.js:112-115 | appending the segment from the last copy to the next keeps segment i running from copy i to copy i + 1 |
| Trajectory.DrawnConnected | mainLoop.js:109-115 | the segments form one connected polyline starting at the copy's initial position |
| Trajectory.SteppedKeepsDamage | mainLoop.js:99-111 | stepping never changes the copy's damage |
| Trajectory.AdvanceCopy | mainLoop.js:109-115 | one loop iteration is a position step then a velocity step against the same planet list; its segment runs from the position before to the position after |
| Trajectory.PreviewLoop | mainLoop.js:108-120 | at most `iterations` segments, exactly that many without the collision stop; segment i is step i of the copy; with the stop, every endpoint before the last is outside all planets, and stopping early means the last endpoint is inside one |
| Trajectory.DrawTrajectoryLine | mainLoop.js:84-122 | a missing projectile yields no segments; otherwise the loop runs on a zero-damage copy, so every state of the copy has damage 0, and the segments are connected |
| Game.MovePlanets | classes.js:53-57 | each planet is moved to its new centre with mass and radius unchanged |
| Game.UpdatePositions | mainLoop.js:179-191 | every projectile's position step uses the planets before they move; planets then move; every velocity step uses the moved planets |
| Game.StillPlanetsTickIsStep | mainLoop.js:179-191 | when no planet moves, a tick applies exactly one whole Verlet step to each projectile, the same step the preview uses |
| Game.DrawObjects | mainLoop.js:197-199 | drawing caps every projectile's trail and changes nothing else |
| Game.FrameObject | mainLoop.js:228-229 | for one projectile, a frame (tick then draw) leaves a trail of 1 to 10 entries ending with its pre-tick position; position and velocity are the tick's |
| Game.Frame | mainLoop.js:228-229 | over a whole world, a frame keeps every trail within capacity and gives every projectile the position and velocity of the ordered tick |
| Game.GetShotGravityObject | mainLoop.js:36-49 | no shot iff the origin is missing or has no body; otherwise the spawn is centre + dir·(radius + 2), the velocity is dir·speed, the damage is 10 and the trail is empty |
| Game.ShotClearsOrigin | mainLoop.js:45-47 | with a unit aim, the shot starts exactly radius + 2 from the centre, moves at exactly `speed`, and never starts inside its origin planet |
| Game.RemoveAt | mainLoop.js:152 | removal from a group keeps every other member in order |
| Game.HandleCollision | mainLoop.js:148-159 | the projectile always leaves the world; the planet takes the damage and leaves the world iff its mass is now ≤ 0 |
| Game.CollisionKeepsPlanetsAlive | mainLoop.js:148-159 | if every live planet had positive mass, every remaining planet still does; exactly one projectile is removed; a planet is removed iff the damage reached its mass |
| Utils.OverlapMatchesDistance | utils.js:23 | the squared-distance test agrees with "distance < planet radius + object radius" |
| Utils.TouchingIsNotInside | utils.js:23 | circles at exactly the sum of their radii do not count as inside |
| Utils.IsInsidePlanet | utils.js:21-27 | true iff some planet overlaps the object; false for an empty planet list |
| Utils.InsideMonotone | utils.js:22-27 | adding planets can only turn "outside" into "inside", never the reverse |
| Utils.InsideAppend | utils.js:22-27 | appending a planet adds exactly that planet's test to the answer |
| Utils.Decimal | utils.js:10 | the counter's rendering is a non-empty string of decimal digits with no leading zero for a positive value |
| Utils.DecimalRoundTrip | utils.js:10 | reading the rendered digits back gives the counter value |
| Utils.GetUniqueId | utils.js:4-11 | the counter rises by exactly one; the ID is the prefix followed by digits that read back as the new counter |
| Utils.FirstIdIsOne | utils.js:6-10 | the first call answers the prefix followed by "1" |
| Utils.Calls | utils.js:4-11 | a run of calls, each with its own prefix and all sharing the one counter, advances the counter by the number of calls and returns one ID per call |
| Utils.CallsSpell | utils.js:9-10 | the i-th call of such a run answers its own prefix followed by the counter value it reached |
| Utils.IdsNeverRepeat | utils.js:9-10 | two calls with the same prefix never return the same ID, whatever calls with other prefixes happen between them |
| Utils.PrefixesCanCollide | utils.js:1-10 | different prefixes are not kept apart: prefix "a1" at the first call and prefix "a" at the eleventh both give "a11", so IDs are unique only per prefix |

## Left out

- Rendering: texture generation, sprites, `graphics` fills and strokes, the trail-drawing loop of `drawObject`, the preview's line drawing and its opacity hint (classes.js:5-16, classes.js:99-111, mainLoop.js:123-126, mainLoop.js:193-226). The preview's segments are returned instead of drawn.
- Phaser behaviour that is not visible here: `Curves.Ellipse.getPoint` with `Planet.updatePosition`, the tween that drives the orbit phase `t` (with its `Math.ceil`), and the arcade body's `reset`, `setCircle` and collision detection. Planet centres after an orbit update and collision pairs are inputs.
- IEEE-754 rounding, square roots and `normalize`: arithmetic is exact and distances are compared squared.
- Game.GetShotGravityObject: takes the normalised aim direction as an input (a unit vector, or zero when the pointer is on the centre) instead of computing it from the pointer position, because normalising needs a square root.
- Input handling (`fireNewProjectile`, pointer events), the game configuration, the random choice of the player's planet, the hard-coded planet list of `generatePlanets`, `create`'s initial projectile and console logging.
- `drawPlayerShotTrajectory` and the preview call inside `updateScreen` only feed the modelled preview into drawing.
- `onCollision` and the collider callback both remove the projectile, and both may destroy the planet. Removing an entity that is already gone is a no-op in Phaser, so the model removes each entity once.
- The zero-distance gravity term is excluded by preconditions: classes.js:119 divides by a zero squared length there, and what the term then becomes depends on Phaser's `Vector2.scale`, which is not part of this model.
- `updateScreen` clears `GravityObject.tailGraphics` (mainLoop.js:195) before the `drawObject` loop; `tailGraphics` is defined nowhere in the modelled files. The model assumes `updateScreen` reaches that loop, so the trail cap runs once per projectile per frame (`Game.DrawObjects`, `Game.Frame`).
- Utils.GetUniqueId: the counter is an unbounded natural. JavaScript's counter is a double, so from 2^53 `lastNum += 1` (utils.js:9) no longer changes it and IDs start repeating; `Utils.IdsNeverRepeat` holds only below that count, which play cannot reach. Plain digits are used throughout, though JavaScript would switch to exponent notation from 10^21, far beyond 2^53.
- Default arguments become explicit parameters: the shot speed 50 (mainLoop.js:36), the preview's `updateInterval = 0.5`, `lineColor` and `isColliding = false` (mainLoop.js:90-92), and `startingString = ''` (utils.js:4).
- The preview copy's own trail grows during the preview. Nothing reads it, so no contract mentions it.
