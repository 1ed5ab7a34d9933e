# cosmic-prowl in Dafny

cosmic-prowl is a small pygame game. A player walks a field and leaves a
trail of scent particles behind. A bear wanders the field, turns back at
its edges and starts sniffing when its nose picks up the player's scent.
This project models the game logic and proves properties about it.

- Particles (`particles.dfy`, module `ParticleEngine`, with the point-mass
  physics in `physics.dfy`). This covers `clamp` and the speed limit
  `MAX_SPEED`. A particle's `update` clamps the speed, moves and counts
  down its decay. `smell_range` checks the particle against the player's
  cone. `collide` bounces a particle off a rectangle, or exchanges an
  impulse with another particle. The swarm runs two passes:
  `collisions` (every ordered pair, then the play-area boundary and the
  smell test) and `update` (expire and move).
- The characters (`characters.dfy`, module `Characters`, with the
  constants, the animation states and the key record in `sprites.dfy`,
  and pygame's `Rect` in `rects.dfy`):
  - the moves every `Character` shares: `right`, `left`, `up`, `down`,
    `sample` and `idle`;
  - the player's smelling cone (`set_cone`) and its key handling
    (`update`);
  - the bear's nose (`smells_player`) and the decision chain of its
    `update`: scent, then border, then time.
- The earlier version of the game logic in `__main__.py`
  (`prototype.dfy`, module `Prototype`). Particles there only move and
  collide, and the player's running is a boolean.

Objects that change in place are classes: `Particle`, `Particles`,
`Character`, `Player` and `Bear`. Every method that changes state is
proved against a pure function of the state it starts from:
- `Integrate` and `Bounce` for a particle;
- `AllPairs`, `BoundaryPass`, `Kept` and `Settle` for the swarm;
- `Walk`, `Sampled` and `Idled` for a character;
- `PlayerStep` for the player;
- `Decide` and `Execute` for the bear.

The lemmas then state what the game promises about those functions.

Python lists of particles become `seq<Particle>` fields. Two-dimensional
vectors are the `Vec` datatype, and floats are `real`.

Behaviour of the code worth noting:
- The two bounce tests of `collide(rect)` are independent. A particle
  past a corner reverses both components.
- The smell-cone bounds are inclusive on all four sides.
- Once shift has been pressed, the running pair `(2, 4)` stays while
  any direction is held. Only `idle()` or releasing every key resets it.
- In the outer band, between the inner and the outer radii, a collision
  is the equal-mass elastic one. Inside the inner radii the component of
  the relative velocity along the line of centres is not reversed but
  tripled.

## Model

| member | source | states |
|---|---|---|
| ParticleEngine.Integrate | particles.py:67-73 | one `update()` on a body keeps both radii and advances the position by exactly the new velocity; the speed cap is `IntegrateBounds` |
| ParticleEngine.Clamp | particles.py:21-22 | the result lies in [lower, upper], equals x when x is already inside, and equals the nearer bound otherwise |
| ParticleEngine.IntegrateBounds | particles.py:67-72 | after an update each velocity component is within ±MAX_SPEED, a component already within the cap is unchanged, and the position moves by exactly the capped velocity |
| ParticleEngine.Particle.constructor | particles.py:55-61 | the particle starts at the given position, with the given radii, colour and decay, not visible, and with a velocity drawn from the given spread |
| ParticleEngine.Particle.Update | particles.py:67-73 | the particle's body becomes `Integrate` of its old body, its decay drops by one and its visibility is kept |
| ParticleEngine.Particle.SmellRange | particles.py:75-82 | the particle is visible exactly when its position lies in the cone, bounds included; nothing else changes |
| ParticleEngine.Bounce | particles.py:86-92 | a bounced body ends inside the rect; a body already inside keeps its place; each velocity component is reversed exactly when the position is outside the rect on that axis |
| ParticleEngine.Particle.CollideRect | particles.py:86-93 | the particle's body becomes the `Bounce` of its old body off the rect; decay and visibility are kept |
| ParticleEngine.Particle.Collide | particles.py:95-119 | two different particles get the velocities `Response` gives them, with a zero impulse when they coincide; positions are kept; a particle colliding with itself keeps its velocity |
| Physics.Impulse | particles.py:95-109 | the velocity change of one `collide` is the given fallback when the two positions coincide; `ImpulseIsTrigForm` ties the other case to the source's formula |
| Physics.ImpulseAlongCentres | particles.py:95-109 | at a positive distance the velocity change is parallel to the line of centres |
| Physics.WithinIsDistanceBelow | particles.py:96-98 | the squared-distance test used throughout agrees with the source's `hypot(dx, dy) < r` |
| Physics.ImpulseIsTrigForm | particles.py:101-108 | for a positive distance the square-root-free impulse equals the source's `-magnitude * (sin, cos)` |
| Physics.Response | particles.py:97-119 | a collision keeps the sum of the two velocities, and bodies out of outer range are not changed |
| Physics.NoNormalMotionNoChange | particles.py:101-108 | coincident bodies, and bodies without relative motion along the line between them, keep their velocities |
| Physics.OuterBandIsElastic | particles.py:110-119 | in the outer band the relative velocity's component along the line of centres is reversed, the one across it is kept, and kinetic energy is conserved |
| Physics.InnerOverlapTriplesApproach | particles.py:110-115 | inside the inner radii the component along the line of centres is tripled and the one across it is kept |
| Physics.OuterBandPairUndone | particles.py:33-34 | `a.collide(b)` followed by `b.collide(a)` undoes an outer-band collision |
| Physics.CollideAt | particles.py:33-34 | one `a.collide(b)` of two different list elements, written on the bodies of the swarm; it keeps the swarm's length |
| Physics.PairsFrom | particles.py:33-34 | the rest of the `permutations(self, 2)` pass from the pair (i, j) on keeps the number of bodies; `PairsFromConserves` states what it keeps besides |
| Physics.AllPairs | particles.py:33-34 | the whole ordered-pair pass keeps the number of bodies; `AllPairsConserves` states what it keeps besides |
| Physics.CollideAtConserves | particles.py:33-34 | one ordered-pair collision keeps the swarm's total velocity and every position and radius |
| Physics.PairsFromConserves | particles.py:33-34 | the rest of the pair pass from any pair keeps the total velocity and every position and radius |
| Physics.AllPairsConserves | particles.py:33-34 | the whole pass over `permutations(self, 2)` keeps the swarm's total velocity and never moves a body |
| Physics.TwoBodyOuterPassIsIdentity | particles.py:33-34 | for an isolated pair whose outer shells overlap and whose cores do not, the whole pair pass changes nothing |
| ParticleEngine.BoundaryPass | particles.py:35-36 | after the boundary pass every body lies inside the surface, a body already inside has not moved, and no radius changes |
| ParticleEngine.Sniff | particles.py:35-37 | after the boundary loop a particle is bounced inside the surface, visible exactly when it lies in the cone, and keeps its decay |
| ParticleEngine.Particles.Collisions | particles.py:31-37 | the swarm's bodies become `BoundaryPass(AllPairs(old bodies))`; every particle ends inside the surface, visible exactly when it lies in the cone, and keeps its decay |
| ParticleEngine.Particles.CollidePairs | particles.py:33-34 | the pair loop leaves the bodies at `AllPairs` of the old bodies and keeps every decay and visibility |
| ParticleEngine.Particles.CollideRow | particles.py:33-34 | particle i colliding with every other particle in order advances the pair pass from row i to row i + 1, keeping every decay and visibility |
| ParticleEngine.Particles.CollidePair | particles.py:33-34 | one collision of two different list elements changes the bodies as `CollideAt` says and keeps every decay and visibility |
| ParticleEngine.Particles.CollideSurface | particles.py:35-37 | the boundary loop leaves every particle's state at its `Sniff` |
| ParticleEngine.Particles.UpdateAsWritten | particles.py:39-44 | the loop as written leaves the list at `Kept(old list, VisitFates(decays))`, and every particle's state at what `VisitFates` deals it: a removed particle is still updated and the one after it is skipped |
| ParticleEngine.VisitFates | particles.py:39-44 | the as-written pass gives one fate per list element |
| ParticleEngine.IntendedFates | particles.py:39-44 | exactly the elements whose decay is 0 are removed, and none is skipped |
| ParticleEngine.Kept | particles.py:41-42 | the surviving list is no longer than the old one and holds only old elements |
| ParticleEngine.KeptIsSubsequence | particles.py:41-42 | the surviving particles are the old list with some elements left out, the rest in their order |
| ParticleEngine.KeptDistinct | particles.py:41-42 | removing elements from a list without duplicates leaves a list without duplicates |
| ParticleEngine.OnlyZeroDecayRemoved | particles.py:41-42 | as written, only a particle whose decay is 0 is removed, and a particle with negative decay never is |
| ParticleEngine.SkippedAfterRemoved | particles.py:40-43 | as written, a particle is skipped exactly when the particle before it was removed |
| ParticleEngine.FirstNotSkipped | particles.py:40-43 | the first particle is always visited |
| ParticleEngine.AsWrittenMatchesIntended | particles.py:39-44 | the pass as written agrees with the once-per-element pass exactly when no decay but possibly the last one is 0 |
| ParticleEngine.SkipCounterexample | particles.py:39-44 | with decays [0, 5] the second particle is skipped as written, and updated by the intended pass |
| ParticleEngine.Particles.Update | particles.py:39-44 | the corrected pass leaves the list at `Kept(old list, IntendedFates(decays))`, updates every particle exactly once, and keeps a particle exactly when it survives one pass (its decay was not 0) |
| ParticleEngine.KeptMembers | particles.py:41-42 | in a list without repetitions an element is still in the list after the pass exactly when its fate was not removal |
| ParticleEngine.UpdateMembership | particles.py:39-44 | one corrected pass keeps a particle exactly when `Survives(decay, 1)`, that is when its decay is not 0 |
| ParticleEngine.IntendedUpdatesEach | particles.py:39-44 | under the corrected pass every particle's state becomes `Integrate` of its body, with the decay one lower |
| ParticleEngine.Lifetime | particles.py:41-43 | a particle with decay k >= 0 survives k passes and not k + 1, and one with negative decay survives every number of passes; a pass keeps a particle exactly when it survives one pass (`UpdateMembership`) and lowers its decay by one (`IntendedUpdatesEach`), which is the step `Survives` takes |
| Characters.Walk | characters.py:68-86 | `right()`, `left()`, `down()` or `up()` keeps the rect's size, `run`, the frame and the sampling time; where it moves to is `WalkMoves` |
| Characters.Sampled | characters.py:88-93 | `sample()` stops running, keeps the rect and the frame, and either notes `now` or keeps the old sampling time; the turn is `SampleTurns` |
| Characters.Idled | characters.py:95-98 | `idle()` stops running and keeps the rect, the frame and the sampling time; the facing is `IdleKeepsFacing` |
| Characters.PlaceCone | characters.py:197-210 | `set_cone()` keeps the cone's size; where it goes is `ConeAhead` |
| Characters.PlayerStep | characters.py:212-237 | one `Player.update()` advances the frame, keeps the sampling time and the sizes of rect and cone, and with no key held moves neither; the cases are `PlayerRests`, `PlayerSteps`, `PlayerStops`, `PlayerConeFollows` and `PlayerStaysValid` |
| Characters.Nose | characters.py:131-141 | the rect `smells_player` checks has the bear's size; where it sits is `NoseAhead` |
| Characters.CountScent | characters.py:142-146 | the count `smells_player` returns is at most the number of particles; when it is positive is `CountScentPositive` |
| Characters.Decide | characters.py:156-180 | the clock `Bear.update` settles on is either `now` or the old clock, and never more than 3 seconds behind `now`; the move is `DecidePriority` and `DecideResetsClock` |
| Characters.Execute | characters.py:181 | `self.move()` keeps the rect's size and the frame; `BearWalks` states that the bear stays valid and never runs |
| Characters.WalkMoves | characters.py:68-86 | a move shifts the rect by `PLAYER_SPEED` times the running factor toward the direction, faces it at the walking or running level, and keeps the pose valid |
| Characters.Character.constructor | characters.py:39-51 | a character starts with its rect centred on the origin, idle facing right, with the walking `run` pair, at frame 0, and with the clock at `now` |
| Characters.Character.Right | characters.py:68-71 | the character's pose becomes `Walk(old pose, Right)` |
| Characters.Character.Left | characters.py:73-76 | the character's pose becomes `Walk(old pose, Left)` |
| Characters.Character.Up | characters.py:78-81 | the character's pose becomes `Walk(old pose, Up)` |
| Characters.Character.Down | characters.py:83-86 | the character's pose becomes `Walk(old pose, Down)` |
| Characters.SampleTurns | characters.py:88-93 | sampling stops running and never moves the rect; once more than half a second has passed it turns a quarter and restarts the clock, otherwise it keeps the state |
| Characters.Character.Sample | characters.py:88-93 | the character's pose becomes `Sampled(old pose, now)` |
| Characters.IdleKeepsFacing | characters.py:95-98 | idling keeps the facing and the place, reaches the idle level and stops running |
| Characters.Character.Idle | characters.py:95-98 | the character's pose becomes `Idled(old pose)` |
| Characters.ConeAhead | characters.py:197-210 | the placed cone keeps its size and is the rect's centre moved `2 * TILE_SIZE` toward the facing |
| Characters.Player.constructor | characters.py:190-195 | the player starts as a 16-pixel character whose 32-pixel cone lies ahead of it, facing right |
| Characters.Player.SetCone | characters.py:197-210 | the cone becomes `PlaceCone` of the old cone for the sprite's rect and state |
| Characters.PlayerRests | characters.py:230-237 | with no key held the player stands still and drops to the idle state of its facing; running stops when it was running; the cone stays put; the frame advances |
| Characters.PlayerSteps | characters.py:215-228 | with a direction key held the player steps toward the direction that wins the right-left-down-up precedence, faces it, and shift makes the step a running one |
| Characters.PlayerStops | characters.py:215-229 | keys held but no direction: the player idles in place facing the same way, and running stops |
| Characters.PlayerConeFollows | characters.py:215-229 | after any key the cone is re-centred ahead of the player's new rect and facing |
| Characters.PlayerStaysValid | characters.py:212-237 | the state stays one of the twelve constants, `run` one of its two pairs, and the frame within 0..3 |
| Characters.Player.Update | characters.py:212-237 | the player's pose and cone become `PlayerStep` of the old ones for the keys held |
| Sprites.Steer | characters.py:218-227 | the chosen direction is held and no held direction outranks it; no direction is chosen exactly when none is held |
| Sprites.FramesCycle | characters.py:183 | the animation frame after n updates is `(f + n) % 4` and stays within 0..3 |
| Characters.NoseAhead | characters.py:131-141 | the nose is the bear's rect shifted `2 * TILE_SIZE` toward its facing |
| Characters.CountScentPositive | characters.py:142-146 | the scent count is at most the number of particles, and is positive exactly when some particle that is neither red nor green lies in the nose |
| Characters.Bear.SmellsPlayer | characters.py:131-146 | the method returns `CountScent` of the particles for the nose ahead of the bear |
| Characters.Bear.constructor | characters.py:104-114 | the bear starts as a 24-pixel character at frame 1, with the clock at `now` and the random move `pick` |
| Characters.DecidePriority | characters.py:156-180 | a border violation picks the move back inside, checked top, bottom, left, right; inside the area a scent picks `sample`; only a bear that neither strays nor smells anything for more than 3 seconds takes the random move; each trigger resets the clock |
| Characters.DecideResetsClock | characters.py:156-180 | the move only changes together with a clock reset |
| Characters.BearWalks | characters.py:181-183 | a walking bear keeps walking whatever move it carries out, and its pose stays valid |
| Characters.Bear.Update | characters.py:154-184 | the bear's move and clock become `Decide` of the old ones; its pose becomes the chosen move carried out and the frame advanced |
| Rects.Rect.WithCenterX | characters.py:200 | setting `centerx` puts the centre there and keeps the size and the vertical position |
| Rects.Rect.WithCenterY | characters.py:201 | setting `centery` puts the centre there and keeps the size and the horizontal position |
| Prototype.Particle.constructor | __main__.py:76-79 | a particle starts with the given position, velocity and radii |
| Prototype.Drifted | __main__.py:85-88 | a moved body keeps its velocity and radii, and its position advances by the velocity |
| Prototype.Particle.Update | __main__.py:85-88 | the particle's body becomes `Drifted` of the old one, with no speed limit |
| Prototype.FallbackUnderflows | __main__.py:98-110 | the product 2^-1022 * 2^-1022 of the `float_info.min` fallbacks lies below the underflow bound, so the fallback impulse `Nudge` is the zero vector |
| Prototype.CoincidentPairKept | __main__.py:98-120 | two coincident particles keep their velocities |
| Prototype.SameResponseAsEngine | __main__.py:90-120 | for every pair of bodies the prototype's `collide` gives the same velocities as the later engine's |
| Prototype.Particle.Collide | __main__.py:90-120 | two different particles get the velocities `Response` gives them with the `float_info.min` fallback impulse; positions are kept; a particle colliding with itself keeps its velocity |
| Prototype.DriftAll | __main__.py:64-65 | the move loop on the bodies, same length; its properties are those of `DriftAllKeepsVelocity` and `SwarmStep` |
| Prototype.DriftAllKeepsVelocity | __main__.py:64-65 | moving every particle keeps the swarm's total velocity |
| Prototype.SwarmStep | __main__.py:60-65 | one swarm update collides every ordered pair on the starting positions, then moves each particle by its new velocity; the total velocity is kept |
| Prototype.Particles.Update | __main__.py:60-65 | the swarm's bodies become `DriftAll(AllPairs(old bodies))` |
| Prototype.Particles.CollidePairs | __main__.py:62-63 | the pair loop leaves the bodies at `AllPairs` of the old bodies |
| Prototype.Particles.CollideRow | __main__.py:62-63 | particle i colliding with every other particle advances the pair pass by one row |
| Prototype.Particles.CollidePair | __main__.py:62-63 | one collision of two different list elements changes the bodies as `CollideAt` says |
| Prototype.Particles.MoveAll | __main__.py:64-65 | the move loop leaves the bodies at `DriftAll` of the old bodies |
| Prototype.Step | __main__.py:160-190 | one `Player.update()` of this version advances the frame, keeps the rect's size and with no key held leaves the rect where it is; the cases are `StepSteers`, `StepStops`, `StepRests` and `StepStaysValid` |
| Prototype.StepSteers | __main__.py:166-177 | with a direction key held the player steps toward the winning direction, twice as far when running, faces it, and shift sets the running flag for good |
| Prototype.StepStops | __main__.py:178-180 | keys held but no direction: running stops, the rect stays, and the state drops one level, facing the same way unless it was already idle |
| Prototype.FacingLostWhenIdle | __main__.py:178-180 | the clamp at 0 turns an idle player facing left to the right when only shift is held |
| Prototype.StepRests | __main__.py:182-188 | with no key held the player stands still and drops to the idle state of its facing; running stops only when it was running |
| Prototype.StepStaysValid | __main__.py:160-190 | the state stays one of the twelve constants and the frame advances by one modulo 4 |
| Prototype.Player.constructor | __main__.py:134-143 | the player starts at the origin with the first frame's rect, idle facing right, not running, at frame 0 |
| Prototype.Player.Update | __main__.py:160-190 | the player's pose becomes `Step` of the old one for the keys held |

## Left out

- Drawing is left out: the `draw` methods, `update_frames`, loading the
  sprite sheets and the `image` attribute. None of them affects the game
  state.
- `main`, the event loop, the window and the `Shroom` sprite are left
  out. The helpers `collider`, `surface_collder` and `updator` in
  particles.py are left out too, because the core does not call them.
- `time()` is a `now` parameter. `Bear.update` and `sample` read it once
  per call; the source calls it several times within one update.
- `random.randint` and `random.choice` are parameters: the velocity
  components of a new particle, and the direction `pick` the bear turns to.
- `key.get_pressed()` is the `Keys` record. `surface.get_bounding_rect()`
  is the `area` parameter of `Bear.update`.
- Floating point is modelled as `real`: there is no rounding and no
  overflow. `hypot` is replaced by squared distances, and
  `Physics.WithinIsDistanceBelow` and `Physics.ImpulseIsTrigForm` connect
  them with the source's formulas.
- Prototype.NegPowerProduct: the one rounding the model does capture is
  the underflow of `-h * _sin` and `-h * _cos` when all three are
  `float_info.min`. It is stated on exponents for this case only, and its
  result is 0 where the program gets -0.0, which adds and subtracts the
  same way.
- The `print` at the start of the prototype's `Player.update`
  (__main__.py:162) is left out; it only writes to the terminal.
- The bear's `last_smelt` and `particle` attributes (characters.py:107-108)
  are not modelled. Nothing in the core reads them.
- `Rects.Rect` has `nat` width and height. pygame also allows negative
  sizes, but the game only makes rects with positive ones.
- Characters.Bear.SmellsPlayer: it reads each particle through the
  `Scent` record, a colour and an integer cell. The float-to-int
  truncation of `Rect(particle.pos, (1, 1))` is not modelled.
- Characters.SmellsSelf: `smells_self` is a stub in the source that
  always returns `False`, and so is the model's predicate.
  `Decide` still carries that branch of the chain, and no lemma is
  stated about it.
- ParticleEngine.Particles.Valid requires that no particle is in the list
  twice. The game only appends freshly made particles, and aliasing inside
  the list is not modelled.
- The `particle` tuple set in `Player.__init__` is not modelled. It is
  only read by the game loop when it spawns the trail.
- The objects held by `Bear` (`surface`, `particles`) are passed to each
  call instead of being stored.

## Findings

| source | as written | input that shows it | evidently intended | confidence | as-written member | corrected member |
|---|---|---|---|---|---|---|
| particles.py:39-44 | `for p in self: if p.decay == 0: self.remove(p)` removes from the list while iterating over it, so the particle after a removed one is neither moved nor aged on that pass | decays [0, 5]: the second particle is skipped | every particle is visited once; those whose decay is 0 are removed and all others are updated | not executed | ParticleEngine.Particles.UpdateAsWritten, ParticleEngine.SkipCounterexample | ParticleEngine.Particles.Update |
