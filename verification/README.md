# Asteroids: a verified model of the per-tick simulation

This project models the simulation core of a small WinForms "Asteroids" game:
the entities of `Objects.cs` (stars, star dust, a UFO, asteroids, the bullet,
the ship and the aid kit) and the orchestration in `Game.cs` (field-size
validation in `Init`, the initial population in `Load`, the key handler, and
`Update`, which walks a fixed array of optional asteroids and resolves
bullet-vs-asteroid and ship-vs-asteroid collisions).

Everything is integer state changed by small deterministic steps, so the
model is functional: each entity is an immutable datatype and each C#
method a pure function returning the new value. The asteroid loop of
`Game.Update` is an imperative method over the slot sequence, with loop
invariants. The game's statics (`Game.Width`, `Game.Height`, the object
arrays, the bullet, the ship) become one `World` value. C# events become
returned flags (`blew`, `reported`, `notified`) and, for a tick, a list of
`Event`s in the order the game raises them.

Modules:

- `Options`: `Option` (a C# reference that may be null) and `Result` (an
  operation that may throw).
- `Geometry`: points, sizes and rectangles, with `IntersectsWith` defined the
  way `System.Drawing.Rectangle` defines it: strict overlap on both axes.
- `Objects`: the entities of `Objects.cs` and their updates.
- `Explosion`: the asteroid's explosion over many ticks.
- `Game`: `Init`, `Load`, `KeyDown`, and the tick (`Update`, `UpdateAsteroids`,
  `StepSlot`).

Randomness is explicit. Each value the game draws from `System.Random`
becomes a parameter restricted to the generator's range:

- asteroid power, 1 to 10;
- asteroid radius, 5 to 49;
- ship damage, 1 to 9;
- heights used when an object is placed or restarts, from 0 up to but
  excluding the field height (`Game.HeightDraw`), in `Load` and in every
  tick (`Game.LoadDrawsFit`, `Game.TickDrawsFit`).

The order in which the game draws these values does not matter to the model.

Behaviour of the code worth knowing:

- The overlap test is strict, as .NET's is. Rectangles that share only an
  edge do not collide. A rectangle of zero width strictly inside another one
  does collide (`Geometry.EmptyRectangleCanIntersect`).
- A ship overlapping an asteroid loses a random 1 to 9 energy on every tick
  of the overlap. It does not start the asteroid's explosion, and the
  asteroid's `Power` plays no part in the damage.
- `Up` and `Down` are guarded moves, not clamps. The ship can end up one step
  past either edge.
- A second hit during the explosion is not harmless. A hit in the last frame pushes the `ushort` counter from 3 to 4, and
  the `== 3` branch is never reached again. The counter then climbs to 65535,
  wraps to 0, and the asteroid moves again with no power. The model keeps
  this counter overrun and proves it (`Explosion.HitInLastFrameNeverBlows`,
  `Explosion.OverrunWrapsToAlive`).
- The bullet moves 6 pixels per tick and ignores its direction. Past the
  right edge it restarts at the left edge. It is not removed.
- `-r / 5` in `Load` is C# division, which rounds toward zero. It is written
  out as `Game.DivideTowardZero`.

## Model

| member | source | states |
|---|---|---|
| `Geometry.IntersectsIffSharedPixel` | Objects.cs:100-102 | for rectangles with positive size, the .NET overlap test holds exactly when some pixel lies in both |
| `Geometry.IntersectsSymmetric` | Objects.cs:102 | the overlap test gives the same answer whichever rectangle asks |
| `Geometry.TouchingEdgesDoNotIntersect` | Objects.cs:102 | rectangles that only share an edge do not overlap |
| `Geometry.EmptyRectangleCanIntersect` | Objects.cs:102 | a zero-width rectangle inside another counts as overlapping, so the test is not "nonzero common area" |
| `Objects.Collision` | Objects.cs:100-113 | a hit is reported iff the two rectangles overlap, taken in either order; the collision event fires iff there is a hit and the other object is not an asteroid with power 0 |
| `Objects.CollisionSymmetric` | Objects.cs:100-113 | two entities collide with each other symmetrically |
| `Objects.CollisionIsSharedPixel` | Objects.cs:100-113 | for entities with a positive size, a collision is exactly a pixel both cover |
| `Objects.Bounce` | Objects.cs:281-286 | moves by the direction; on a non-negative field each direction component is negated exactly when the new coordinate is below 0 or beyond the field |
| `Objects.BounceStaysInBand` | Objects.cs:281-286 | over any number of bounce steps, a body within one step of the field and heading back when outside stays so, with unchanged speed |
| `Objects.Increment` | Objects.cs:208 | the `ushort` explosion counter steps by one and wraps from 65535 to 0, as at its two increments, Objects.cs:294 and Objects.cs:314 |
| `Objects.NewAsteroid` | Objects.cs:242-247 | a new asteroid is intact (counter 0, not blown) with power from 1 to 10 |
| `Objects.Blow` | Objects.cs:302-307 | sets the blown flag and raises the event, changing nothing else |
| `Objects.UpdateAsteroid` | Objects.cs:275-297 | blown: no-op; counter 0: bounce move; counter 3: blow, raising the event exactly then; any other counter: increment without moving; power never changes |
| `Objects.StartBlow` | Objects.cs:312-316 | power becomes 0 and the counter increases by exactly one (with wrap); position and blown flag unchanged |
| `Objects.NewAidKit` | Objects.cs:675-678 | an aid kit carries 20 power |
| `Objects.UpdateAidKit` | Objects.cs:691-699 | an aid kit moves by its direction with edge bounce and keeps its power |
| `Objects.AidKitMovesLikeAsteroid` | Objects.cs:691-699 | an aid kit moves exactly as an intact asteroid with the same position, direction and size |
| `Objects.NewShip` | Objects.cs:548 | a new ship has energy 100 |
| `Objects.EnergyLow` | Objects.cs:563-570 | energy decreases by exactly n, with no lower bound; the change event fires iff n is not 0 |
| `Objects.EnergyHigh` | Objects.cs:576-583 | n = 0 changes nothing; otherwise energy becomes min(100, energy + n), so at most 100; the event fires iff n is not 0 |
| `Objects.EnergyHighUndoesEnergyLow` | Objects.cs:563-583 | healing by n after damage by n restores a ship that had at most full energy |
| `Objects.EnergyNeverAboveFull` | Objects.cs:563-583 | under any sequence of non-negative damages and heals, a ship at or below 100 energy stays at or below 100 and does not move |
| `Objects.EnergyLowCanGoNegative` | Objects.cs:563-570 | any damage larger than the ship's energy leaves the energy negative: nothing clamps it |
| `Objects.UpdateShip` | Objects.cs:606-608 | the ship's own update changes nothing |
| `Objects.Up` | Objects.cs:613-616 | only the vertical position changes: it decreases by the vertical speed, and only when it is above 0 |
| `Objects.Down` | Objects.cs:621-624 | only the vertical position changes: it increases by the vertical speed, and only when it is below the field height |
| `Objects.ShipStaysNearField` | Objects.cs:613-624 | under any sequence of Up and Down presses the ship stays strictly within one step of the field vertically |
| `Objects.Scroll` | Objects.cs:155-167 | star motion: x decreases by the horizontal speed and y is unchanged; if x went negative it restarts at width + object width, so x is never negative on a non-negative field |
| `Objects.ScrollStaysOnStrip` | Objects.cs:435-447 | star dust scrolling left stays, over any number of steps, between 0 and width + its own width at its own height |
| `Objects.Drift` | Objects.cs:383-394 | UFO motion: x decreases by the direction; beyond the right edge the UFO restarts at x = 0 at the drawn height, so it never ends beyond the right edge |
| `Objects.UpdateScenery` | Game.cs:150 | each background object keeps its kind, direction and size; stars and star dust keep their height and a non-negative x; the UFO stays left of the right edge |
| `Objects.UpdateBullet` | Objects.cs:500-514 | the bullet moves 6 pixels right; beyond the right edge it restarts at x = 0 at the drawn height, so on a non-negative field it never ends beyond the right edge |
| `Objects.BulletStaysOnField` | Objects.cs:500-514 | a bullet that starts between the left and right edges stays there over any number of updates, with unchanged direction and size |
| `Objects.BulletIgnoresDirection` | Objects.cs:500-504 | the bullet's direction has no effect on its motion |
| `Explosion.BlownIsFinal` | Objects.cs:275-277 | once blown, any number of updates change nothing and raise nothing |
| `Explosion.ExplosionTakesThreeUpdates` | Objects.cs:275-316 | after a hit on an intact asteroid it is blown iff at least three updates have run; it never moves, and the blow event fires exactly once |
| `Explosion.NoCountdownNeverBlows` | Objects.cs:279-295 | with a counter outside 1 to 3, updates alone never blow the asteroid or raise the event |
| `Explosion.HitInLastFrameNeverBlows` | Objects.cs:288-316 | a hit while the counter is 3 sets it to 4, after which the asteroid never blows |
| `Explosion.OverrunWrapsToAlive` | Objects.cs:279-294 | 65532 updates after that overrun the counter wraps to 0 and the asteroid is intact and moving again, with power 0 |
| `Explosion.BlowEventExactlyOnce` | Objects.cs:302-316 | under any interleaving of updates and hits, the blow event fires once exactly when the asteroid goes from intact to blown, otherwise never, and a blown asteroid stays blown |
| `Game.DivideTowardZero` | Game.cs:202 | C# integer division: the quotient rounds toward zero for both signs of the dividend |
| `Game.SpawnAsteroid` | Game.cs:199-204 | an asteroid of radius r starts intact at x = 600 with size r by r and direction (-(r / 5), r): falling r and drifting left 1 to 9 pixels per tick |
| `Game.Load` | Game.cs:188-220 | 8 intact asteroid slots, slot i holding the asteroid spawned from the i-th radius, height and power draws, so at x = 600 with power 1 to 10; a UFO at index 0, star dust at 1 to 19 and stars at 20 to 29 with direction (i, 0); no bullet; the ship at (10, 400) with direction (5, 5), size (36, 26) and energy 100 |
| `Game.Init` | Game.cs:68-92 | width above 1000 fails first, then height above 1000; otherwise the field is the client size and the loaded world satisfies the invariant |
| `Game.Fire` | Game.cs:109 | a new bullet at (ship x + 35, ship y + 13) with direction (4, 0) and size (4, 1) |
| `Game.FiredBulletOverlapsShip` | Game.cs:109 | for a ship of the starting size, a new bullet starts inside the ship's rectangle |
| `Game.KeyDown` | Game.cs:107-112 | Control replaces the bullet, Up and Down move the ship, other keys do nothing; asteroids and energy are untouched and the invariant is kept |
| `Game.StepSlot` | Game.cs:156-181 | empty slots are skipped; a slot is emptied iff its update blew the asteroid, and the blow event fires then; the bullet hits iff it is present and overlaps the updated, unblown asteroid, and a hit drops the bullet and starts the explosion, skipping the ship check; otherwise an overlap with the ship costs exactly the drawn damage, and the energy change is reported with it; death is reported iff that leaves energy at most 0 |
| `Game.RamSlot` | Game.cs:171-180 | the ship check: slot and bullet are kept; an overlap costs the drawn damage, reports the collision iff the asteroid has power, reports the energy change by minus the damage, and reports death iff the energy is then at most 0; without an overlap nothing changes |
| `Game.DamageTaken` | Game.cs:171-177 | the energy lost over the slots lies between 1 and 9 per overlapping asteroid |
| `Game.UpdateAsteroids` | Game.cs:154-182 | the array keeps its length and slots only ever become empty; slot i is hit iff no earlier slot was hit and the bullet overlaps its updated, unblown asteroid, and the bullet disappears exactly when one is hit; the ship's energy drops by exactly the damage taken; death is reported only after an overlap, and whenever an overlap left the energy at most 0; each overlap of slot i reports an energy change of minus its damage, and every energy change reported is between -9 and -1 and is minus the damage of some slot whose asteroid overlapped the ship (`RamDeltas`); a slot is reported blown iff it was emptied, and hit by the bullet or the ship iff that happened to an asteroid with power; every event names a slot of the array |
| `Game.Update` | Game.cs:148-183 | one tick: background objects and the bullet move, then the asteroid loop; the moved bullet hits the first live asteroid in its path and is gone exactly then; the ship loses exactly the damage taken, at most 9 per slot; death is reported only after an overlap, and whenever an overlap left the energy at most 0; energy changes (each minus the damage of an overlapping slot), blow events and collision events are reported exactly as in the asteroid loop; the world invariant (layout, 8 slots, live asteroids not blown and with spent power once exploding, energy at most 100) is preserved |

## Left out

- Drawing is not modelled. That covers every `Draw` method, `Game.Draw`, the buffered graphics, the images, and the "The End" banner of `Finish`. It is rendering with no effect on the simulation state.
- The bullet's shot event is not modelled. It is raised from `Bullet.Draw`, together with its `wasEventShot` flag.
- Resource loading in the static constructors is not modelled: it is foreign I/O.
- The asteroid's image choice is not modelled: it is cosmetic.
- Sounds are not modelled: `SystemSounds.Hand` on a bullet hit and `SystemSounds.Asterisk` on ship damage. They have no state effect.
- The timer and the form's event wiring are not modelled. One tick is one call of `Game.Update`. The Draw-before-Update order of a timer tick is dropped with drawing.
- `Finish` stopping the timer after the ship dies is not modelled. The model reports `ShipDied` and leaves stopping the ticks to the caller.
- The handlers hooked to the death and blow events are not modelled. Their event names in `Game.cs` do not match the declarations in `Objects.cs`. Only the behaviour is modelled: the events are raised, and the blow handler does nothing. The object-collision event has no subscriber in `Game.cs`, but the model still reports it.
- `System.Random` is not modelled: it cannot be reproduced. Its draws are parameters in the generator's ranges. The bullet's restart height comes from a generator seeded with 0 and created anew on every restart, so it is a fixed function of the field height. The model takes it as a parameter.
- `ToString` and the log message texts are not modelled: they are cosmetic.
- 32-bit overflow of positions, directions and energy is not modelled. `int` is unbounded here, because none of the game's values come near the limits. The `ushort` explosion counter is the one width the model keeps.
- A null ship is not modelled. The game always creates the ship in `Load` and dereferences it unguarded in `Update`.
- Score, waves and aid-kit spawning are not modelled: this version of `Game.cs` has none of them. Aid kits are modelled as entities only.
- `Program.cs` is not part of this model: it only sets the form size and retries with 800 by 600.
- `FunWithList/Program.cs` is not part of this model: it is an unrelated demo.
- `Game.UpdateAsteroids`: states which events occur, but not how many times each occurs or in what order. The game raises the death once for every overlap that leaves the energy at most 0, and the events in slot order.
- `Game.Update`: same as `Game.UpdateAsteroids`: event counts and order are not stated.
- A negative field height is not modelled as an error. .NET's `Random.Next` throws for it, while `Game.HeightDraw` then allows only 0. A form's client area is never negative.
