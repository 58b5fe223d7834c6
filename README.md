# Snooker physics and game-state engine, in Dafny

This project models the core of `main.cpp` from snooker-sdl, a small SDL snooker
game. The core is the state update the game loop runs once per frame:

- every ball advances by one Euler step, loses speed to friction and bounces
  off the cushions (`updateBall`);
- the moving balls are counted;
- balls that entered a pocket are marked potted, and potted reds are scored
  (`handlePotting`);
- when no ball moved in the frame, the potted cue ball and colours go back to
  their spots (`handlePottedBalls`, using the canonical `createBall` table);
- every pair of balls `i < j` is checked for a collision, in ascending order.
  Overlapping balls (centres closer than 20) are separated and swap the velocity component along the line
  of centres (`handleCollision`).

Modules:

- `Geometry` (geometry.dfy): the `Vec2d` arithmetic. It also proves the
  vector identities behind the collision laws.
- `Balls` (balls.dfy): the constants, the `Ball` and `Pocket` records, the
  `createBall` and `createPockets` tables, the rest test `isMoving`, the pocket
  test `isBallInPocket`, and the opening layout that `main` builds.
- `Motion` (motion.dfy): `updateBall` and `handleCollision`.
- `Potting` (potting.dfy): `handlePotting` and `handlePottedBalls`.
- `Simulation` (simulation.dfy): the tick body, written as one loop per
  stage over an `array<Ball>`, plus the shot that sets the cue ball's
  velocity.

Modelling choices:

- Coordinates are exact reals. The source uses `double`.
- `std::sqrt` is never computed. Where the source takes a distance, the model
  takes a length `d` with `d >= 0 && d * d == |u|²` (`IsLengthOf`). The tick
  takes a square-root function `root` as a parameter, and its precondition
  requires `root` to be one.
- Ball names become the datatype `Name`. The dispatch order of the source is
  kept: the cue ball is recognised by its name first, then any ball with
  `points > 1`, and everything else counts as a red.
- The per-ball operations take a `Ball&` in the source. Here they are methods
  that take the record and return the updated record, with the same
  field-by-field assignments. The array loops in `Simulation` store the
  result back in place.
- The cue ball is `balls[0]`. The source holds a raw pointer to that element.
- `Canonical` states what every ball of the game satisfies. A red is worth one
  point and is coloured red. Every other ball has the points and colour of
  its `createBall` record. `InitialBalls` establishes this and `Tick`
  preserves it. `Tick` requires it, so that the `.at` lookup inside
  `handlePottedBalls` always finds an entry.

## Model

| member | source | states |
|---|---|---|
| `Geometry.Norm` | main.cpp:23 | `u.norm()` for a non-zero `u` is a unit vector, and scaling it by the length of `u` gives back `u` |
| `Geometry.UnitLength` | main.cpp:23 | dividing a vector by its length gives squared length 1 |
| `Geometry.ExchangeKeepsEnergy` | main.cpp:195-197 | taking the normal component of `a - b` from `a` and giving it to `b` keeps `|a|² + |b|²` (equal-mass kinetic energy) |
| `Geometry.ExchangeReverses` | main.cpp:195-197 | the exchange reverses the relative velocity's component along the line of centres |
| `Geometry.ExchangeAlongNormal` | main.cpp:195-197 | the exchange changes neither velocity across the line of centres |
| `Balls.CreateBall` | main.cpp:49-63 | the table has an entry for every name except the red one (where `.at` throws). Each entry is unpotted, at rest, on the cloth, has its own name, and is worth more than one point exactly when it is not the cue ball |
| `Balls.CreatePockets` | main.cpp:68-77 | six pockets, each on the border of the cloth |
| `Balls.InPocketIffNear` | main.cpp:108-110 | the squared-length test of `isBallInPocket` holds exactly when the centre distance is below `POCKET_RADIUS` |
| `Balls.MovingIffFast` | main.cpp:150-156 | `isMoving` holds exactly when the speed is at least 0.01 |
| `Balls.RackReds` | main.cpp:233-237 | the nested loops append 15 reds, and the red of row `r`, column `c` sits at index `r(r+1)/2 + c` with its triangle position |
| `Balls.InitialBalls` | main.cpp:229-245 | the opening layout is the cue ball's `createBall` record, the 15 racked reds, then the six colours' `createBall` records. Every ball starts canonical, unpotted and at rest |
| `Balls.SpawnPointsClearOfPockets` | main.cpp:49-77 | no `createBall` spot lies inside any pocket |
| `Balls.BlackSpotBeyondClamp` | main.cpp:58 | the black spot is 2 units to the right of the largest x that `updateBall` clamps to |
| `Motion.Clamp` | main.cpp:171 | `std::clamp` lands in `[lo, hi]`. It returns `lo` for a value below the range, `hi` for one above it, and leaves a value in range unchanged |
| `Motion.ClampIsNearest` | main.cpp:171 | no point of `[lo, hi]` is closer to `x` than the clamped value |
| `Motion.StepStaysInside` | main.cpp:163-176 | after a step, a moving ball lies inside the clamp rectangle `[70,730]×[70,330]`, and its squared speed is `FRICTION²` times the old one |
| `Motion.Step` | main.cpp:158-178 | the deterministic result of `updateBall` (clamp both axes, reverse the speed on each axis that needed clamping) satisfies the per-axis relation `StepOf`: move, slow by friction, and clamp with reversal exactly where the bound was crossed |
| `Motion.UpdateBall` | main.cpp:158-178 | returns true exactly when the ball is unpotted and moving. The new ball is `Step(ball)`. So a ball that does not move is unchanged. On each axis a moving ball moves by its velocity and friction scales the speed. If the bound was crossed, the coordinate is clamped onto that bound and the speed on that axis is negated (`StepOf`) |
| `Motion.HandleCollision` | main.cpp:180-199 | the field-by-field updates give exactly `Collide(a, b, distance)`, and the result obeys `CollisionLaws`. It is a no-op unless both balls are unpotted, one is moving and `0 < distance < 20`. It always keeps `a.v + b.v`, `a.pos + b.pos` and `|a.v|² + |b.v|²`. On a collision the centres end exactly 20 apart on the same line, the relative normal velocity is reversed, and the tangential components are kept |
| `Motion.CollideObeysLaws` | main.cpp:180-199 | when `distance` is the true centre distance, the outcome `Collide(a, b, distance)` obeys every law above: identity kept, no-op without a collision, momentum, midpoint and kinetic energy kept, exact separation to 20, and normal velocity reversed with tangential velocity kept |
| `Motion.CoincidentBallsPassGuard` | main.cpp:185-189 | a moving ball over another ball's centre passes the source's guard with `distance == 0`. The corrected guard `Colliding` turns it away |
| `Potting.Pot` | main.cpp:112-130 | the ball afterwards is potted exactly when it was potted already or is over some pocket. No other field changes |
| `Potting.HandlePotting` | main.cpp:112-130 | an already-potted ball and the score are left as they are. Otherwise the ball becomes potted exactly when it is over some pocket, and the loop stops at the first such pocket. Position and velocity do not change. Potting the cue ball or a colour scores nothing. Potting any other ball adds exactly its points |
| `Potting.PotIdempotent` | main.cpp:113 | a second `handlePotting` changes nothing and scores nothing |
| `Potting.PotScoreOnlyForReds` | main.cpp:118-126 | the score changes only when a non-cue ball worth at most one point is newly potted, and it never goes down for a canonical ball |
| `Potting.Respawn` | main.cpp:133-148 | a potted cue ball or colour becomes exactly its `createBall` record. Any other ball is unchanged, so a potted red stays potted |
| `Potting.RespawnIdempotent` | main.cpp:133-148 | respawning twice is respawning once, and a ball still potted afterwards is a potted red |
| `Potting.CanonicalRespawn` | main.cpp:136-146 | `createBall` has an entry for every canonical ball that `handlePottedBalls` asks about, and the result is canonical |
| `Potting.RespawnedBallClearOfPockets` | main.cpp:138-142 | a respawned ball is not over any pocket of the table |
| `Potting.HandlePottedBalls` | main.cpp:133-148 | up to the first ball whose lookup throws, each ball becomes its `Respawn` record. From that ball on, nothing changes. It stops early exactly at a potted non-cue ball worth more than one point that has no table entry |
| `Simulation.CountMoving` | main.cpp:273-277 | the count of balls that `updateBall` moves is zero exactly when no ball moves |
| `Simulation.StepEach` | main.cpp:274-277 | stepping every ball relates each ball to its old value by `StepOf` |
| `Simulation.ScoreGain` | main.cpp:280-283 | potting the canonical balls of a frame adds a non-negative amount to the score |
| `Simulation.IntegrateAll` | main.cpp:273-277 | after the loop, every ball is `Step` of its old value (`StepEach`). Counting down from `balls.size()` for every ball that did not move leaves the number of moving balls |
| `Simulation.PotAll` | main.cpp:280-283 | every unpotted ball has been through `handlePotting`, and the score has gained the points of the newly potted reds |
| `Simulation.AllPairsExactlyOnce` | main.cpp:292-296 | the nested loop visits exactly the pairs `i < j < n`, each once, in strictly increasing lexicographic order |
| `Simulation.CollidePair` | main.cpp:294 | `handleCollision(balls[i], balls[j])` changes only `balls[i]` and `balls[j]`, which become the `Collide` outcome for their centre distance (`CollideAt`) |
| `Simulation.CollideRow` | main.cpp:293-295 | the inner loop leaves the balls as the fold of `CollideAt` over the pairs `(i, i+1), …, (i, n-1)`, in that order |
| `Simulation.ResolveCollisions` | main.cpp:292-296 | the balls end as the fold of `CollideAt` over `AllPairs(n)`, so every pair `i < j` is resolved once, in ascending order. The loops keep total momentum, the sum of positions and total kinetic energy, leave potted balls alone, and do nothing when no ball moves |
| `Simulation.CollideAllAppend` | main.cpp:292-296 | colliding along the pairs `p + q` is colliding along `p`, then along `q`. This is how the outer loop chains its rows |
| `Simulation.CollideAtConserves` | main.cpp:294 | one pair's collision keeps total momentum, the sum of positions and total kinetic energy, leaves potted balls alone, and changes nothing when no ball moves |
| `Simulation.CollideAllConserves` | main.cpp:292-296 | any sequence of pairwise collisions keeps the same totals and potted balls, and changes nothing when no ball moves |
| `Simulation.RestingTick` | main.cpp:285-288 | in a frame where nothing moved, stepping changes nothing, every potted ball can be respawned, and every ball is still at rest after respawn |
| `Simulation.PottedCanRespawn` | main.cpp:280-288 | after stepping and potting canonical balls, every ball is still canonical and `createBall` has an entry for every ball `handlePottedBalls` respawns |
| `Simulation.TickStages` | main.cpp:273-296 | chaining the stage functions keeps every ball canonical with its name, colour and points. A potted red stays exactly as it was. Without a respawn, no potted ball comes back. With a respawn (nothing moved), the frame ends exactly as `RespawnEach(PotEach(s0))` |
| `Simulation.Tick` | main.cpp:273-296 | respawn runs exactly when no ball moved, with potted balls counting as not moving. Then the balls end as `RespawnEach(PotEach(old))`. Otherwise they end as the collision fold over `AllPairs` applied to `PotEach(StepEach(old))`. The score gains exactly `ScoreGain(StepEach(old))`, so it never decreases. Potted reds never change, and no ball changes its name, colour or points |
| `Simulation.Shoot` | main.cpp:265-266 | releasing the mouse sets only the cue ball's velocity, to `0.005 ×` the offset from its centre |
| `Simulation.ShotMovesIff` | main.cpp:265-266 | a shot sets the cue ball moving exactly when the mouse is released at least 2 units from its centre |

## Findings

| source | as written | input that shows it | evidently intended | confidence | as-written member | corrected member |
|---|---|---|---|---|---|---|
| main.cpp:185-189 | the overlap guard is `distance < 20`, and `ab.norm()` then divides by `distance` | a moving ball whose centre equals another unpotted ball's centre (`ab == (0,0)`, `distance == 0`) passes the guard, and `norm()` divides the zero vector by zero | skip the pair when the centres coincide | not executed; the input is derived from the code | `Motion.CoincidentBallsPassGuard` | `Motion.HandleCollision` |

## Left out

- SDL initialisation, the window, the renderer and teardown (main.cpp:202-220, 316-319) are foreign library I/O.
- Event polling and mouse aiming (main.cpp:255-270) are input plumbing. Only the effect of a release, which sets the cue ball's velocity, is modelled (`Shoot`).
- `drawBall`, `drawPockets` and the render block (main.cpp:79-106, 298-313) draw pixels.
- The `std::cout` messages on pot, foul and respawn are informational and are dropped.
- IEEE-754 rounding and `std::sqrt` precision are not modelled. All arithmetic is exact over the reals, and the square root is a parameter that squares back exactly. The conservation laws therefore hold exactly in the model, but only up to rounding in the program.
- `HandleCollision`: the source has no zero-distance guard and computes NaN for coincident centres (see Findings). The model skips that pair, so it does not capture NaN propagation.
- `Tick`: requires every ball to be canonical, an invariant that `InitialBalls` establishes and `Tick` keeps. A non-canonical red worth more than one point would make `createBall(...).at` throw and end the program. `HandlePottedBalls` models that throw, but `Tick` does not.
- `Tick`: the balls are not proved to stay inside the table across frames. A collision's separation can push a ball past the clamp rectangle. The black ball's spot is already 2 units past it (`BlackSpotBeyondClamp`). The model proves containment only for the step of `updateBall` (`StepStaysInside`), not across frames.
- `Tick`: friction decay to rest over many frames and exact multi-frame trajectories are not modelled.
- `movingBalls` is a `size_t` counter in the source. It starts at the number of balls and is decremented at most once per ball, so it never wraps. The model uses an `int`.
