# Asteroid dodger and sound debouncer: a Dafny model

This project models the two pieces of logic in the instant-game repository.

**The dodging game** (`src/AsteroidDodger.jsx`). The component keeps a session record
(ship, asteroid and power-up lists, `playerAlive`, `gameSpeed`, the two effect flags,
`frameCount`), a `keys` ref with the left/right flags, and three React state values
(`score`, `gameOver`, `isPlaying`). These are the fields of the class
`DodgerComponent.AsteroidDodger`, whose methods mirror the component's callbacks:
`createAsteroid`, `createPowerUp`, one call of `animate`, `startGame`, `handleKeyDown`
and `handleKeyUp`. Each method is proved to leave the state that a pure reference
function computes: `DodgerTick.Tick` for `animate`, `DodgerTick.Start` for `startGame`, and
`DodgerInput.KeyDown`/`KeyUp` for the key handlers. `DodgerProperties` proves what
these guarantee over one frame and over a session:

- spawns happen every 60th frame, starting on the first;
- speed and score follow the spawn count;
- the ship stays inside (-10.5, 10.5);
- no asteroid stays below the floor;
- the collision rule;
- `startGame` is idempotent.

The asteroid pass is `forEach` with `splice` inside it. It is modelled exactly as
JavaScript runs it:

- the number of iterations is the list's length at the start;
- iteration k visits index k if the list still has one;
- a spliced-out asteroid is still collision-tested;
- the asteroid after a spliced-out one slides into the visited index and is skipped;
- a collision's `return` leaves only the callback.

`DodgerTick.FateAt` states this on the original list (Moved, Escaped or Skipped), and the
loop of `DodgerComponent.ForEachAsteroid` is proved to agree with it.

**The sound debouncer** (`src/utils/sounds.js`). One module-level timestamp,
`lastPlayedTime`, is shared by every sound. A call plays only when strictly more than
100 ms have passed since the last call that played. This is the class
`Sounds.SoundPlayer`. `Sounds` also proves that any two plays are more than 100 ms
apart, whichever sounds they were for.

Modules: `DodgerState` (entities, constants, spawners), `DodgerInput` (key mapping),
`DodgerTick` (reference semantics of one frame and of `startGame`), `DodgerComponent`
(the component as a class), `DodgerProperties` (session properties), `Sounds`.

## Model

| member | source | states |
|---|---|---|
| DodgerState.NewAsteroid | src/AsteroidDodger.jsx:26-47 | a new asteroid appears at y = 20; with draws in [0, 1) its radius is in [0.5, 1.3), x in [-10, 10), z in [-1, 1) and both rotations in [0, PI) |
| DodgerState.NewPowerUp | src/AsteroidDodger.jsx:49-65 | a new power-up is at y = 15, z = 0, x in [-10, 10) for draws in [0, 1); it is a shield exactly when its kind draw is below 0.5, otherwise speed |
| DodgerInput.ToLower | src/AsteroidDodger.jsx:172 | lower-casing keeps the length and lower-cases each character on its own (capital ASCII letters to small ones, everything else unchanged) |
| DodgerInput.LowersTo | src/AsteroidDodger.jsx:172-175 | a key lower-cases to a single letter exactly when it is that letter or its capital |
| DodgerInput.LeftKeys | src/AsteroidDodger.jsx:172 | the left test accepts exactly "ArrowLeft", "a" and "A" |
| DodgerInput.RightKeys | src/AsteroidDodger.jsx:175 | the right test accepts exactly "ArrowRight", "d" and "D" |
| DodgerInput.KeyDown | src/AsteroidDodger.jsx:171-178 | a press sets `left` for ArrowLeft/a/A and `right` for ArrowRight/d/D; any other key leaves both flags as they were |
| DodgerInput.KeyUp | src/AsteroidDodger.jsx:180-187 | a release clears `left` for ArrowLeft/a/A and `right` for ArrowRight/d/D; any other key leaves both flags as they were |
| DodgerTick.Mounted | src/AsteroidDodger.jsx:9-23 | the state after mounting: the record's initial values (alive, speed 0.1, no effects, frame 0, empty lists), no key held, zero score, not over, not playing, and the ship at (0, -5, 0) with rotation.z = PI (lines 309, 320) |
| DodgerTick.Start | src/AsteroidDodger.jsx:129-164 | `startGame` as a function: both lists emptied, the ship back at (0, -5, 0) with rotation.z = 0, the record and React state reset, the keys kept |
| DodgerTick.Steer | src/AsteroidDodger.jsx:79-86 | one step of 0.3 (0.5 boosted) left when the left key is held and x > -10, then one step right when the right key is held and the x after the left step is < 10; guarded, not clamped |
| DodgerTick.SteerPhase | src/AsteroidDodger.jsx:79-86 | the steering part of a frame: only the ship changes, as `Steer` says |
| DodgerTick.Spawn | src/AsteroidDodger.jsx:89-94 | a spawn frame: one asteroid appended, a power-up appended when the chance draw is below 0.1, 10 points and 0.001 speed added |
| DodgerTick.SpawnPhase | src/AsteroidDodger.jsx:89-94 | the spawn part of a frame: `Spawn` exactly when the frame count is a multiple of 60, otherwise nothing |
| DodgerTick.Drift | src/AsteroidDodger.jsx:98-100 | a visit drops the asteroid by the current speed and adds 0.01 to both of its rotations |
| DodgerTick.FateAt | src/AsteroidDodger.jsx:97-105 | the forEach-with-splice rule on the original list: an asteroid whose predecessor was visited and spliced out is Skipped, one that drops below -10 is Escaped (removed), and any other is Moved |
| DodgerTick.Outcome | src/AsteroidDodger.jsx:97-105 | what each asteroid leaves in the list: its moved self if Moved, itself unchanged if Skipped, nothing if Escaped; at most one element |
| DodgerTick.Survivors | src/AsteroidDodger.jsx:97-105 | the list after the pass: the outcomes of all asteroids, in their original order |
| DodgerTick.FatalAt | src/AsteroidDodger.jsx:107-116 | an asteroid kills the ship when the shield is off, the asteroid was visited (moved or removed) and its moved box meets the ship's |
| DodgerTick.FatalAmong | src/AsteroidDodger.jsx:97-117 | the pass kills the ship when some asteroid among the first n is fatal; the `return` at line 115 does not stop the loop |
| DodgerTick.PassPhase | src/AsteroidDodger.jsx:97-117 | the asteroid part of a frame: the list becomes `Survivors`; a fatal asteroid clears playerAlive and isPlaying and sets gameOver |
| DodgerTick.Reschedules | src/AsteroidDodger.jsx:72-76 | a frame requests the next one only when the player is alive at its start and at its end (lines 123-125) |
| DodgerTick.SurvivorsUpTo | src/AsteroidDodger.jsx:97-105 | the list the pass leaves from the first n asteroids is never longer than n |
| DodgerTick.VisitAdvances | src/AsteroidDodger.jsx:97-117 | one visit at a visit point: the next visit point is two on after a splice (the successor is skipped) and one on otherwise; the list becomes the survivors so far followed by the unvisited rest; the fatal test gains exactly the visited asteroid |
| DodgerTick.ReplaceAndSplice | src/AsteroidDodger.jsx:98-104 | writing the moved asteroid at its index and splicing it out leave the expected list shapes |
| DodgerTick.PassBegins | src/AsteroidDodger.jsx:97 | before the first iteration the pass is at visit point 0 with the whole list and no hit |
| DodgerTick.PassVisits | src/AsteroidDodger.jsx:97-117 | an iteration that finds an asteroid at index k meets asteroid j of the original list, and after the callback the pass is at the next visit point |
| DodgerTick.PassPassesHole | src/AsteroidDodger.jsx:97 | an iteration past the end of the shrunken list changes nothing |
| DodgerTick.PassEnds | src/AsteroidDodger.jsx:97-117 | after as many iterations as the list first had, the list is `Survivors` and the hit flag is `FatalAmong` |
| DodgerTick.Tick | src/AsteroidDodger.jsx:68-126 | a live frame counts itself (+1), adds 10 points and 0.001 speed exactly on frames with count divisible by 60, and never revives the player; a frame that starts dead only sets gameOver and clears isPlaying; keys, effect flags and the ship's y, z and rotation.z are untouched |
| DodgerComponent.AsteroidDodger.Mount | src/AsteroidDodger.jsx:9-23 | the component mounts with the initial record and keys, zero score, and the ship at (0, -5, 0) with rotation.z = PI |
| DodgerComponent.AsteroidDodger.CreateAsteroid | src/AsteroidDodger.jsx:26-47 | pushes exactly one new asteroid and changes nothing else |
| DodgerComponent.AsteroidDodger.CreatePowerUp | src/AsteroidDodger.jsx:49-65 | pushes exactly one new power-up and changes nothing else |
| DodgerComponent.AsteroidDodger.Animate | src/AsteroidDodger.jsx:68-126 | leaves the state `Tick` computes, and requests the next frame exactly when the player was alive at both the start and the end of the frame |
| DodgerComponent.AsteroidDodger.SteerShip | src/AsteroidDodger.jsx:79-86 | moves the ship as `Steer` says and changes nothing else |
| DodgerComponent.AsteroidDodger.SpawnOnSchedule | src/AsteroidDodger.jsx:89-94 | on a frame whose count is a multiple of 60, pushes one asteroid, pushes a power-up when the chance draw is below 0.1, adds 10 points and 0.001 speed; on other frames changes nothing |
| DodgerComponent.AsteroidDodger.MoveAsteroids | src/AsteroidDodger.jsx:97-117 | the asteroid list becomes `Survivors`; a fatal hit kills the player, sets gameOver and clears isPlaying |
| DodgerComponent.AsteroidDodger.StartGame | src/AsteroidDodger.jsx:129-168 | leaves the state `Start` computes |
| DodgerComponent.AsteroidDodger.HandleKeyDown | src/AsteroidDodger.jsx:171-178 | changes only the key flags, as `KeyDown` says |
| DodgerComponent.AsteroidDodger.HandleKeyUp | src/AsteroidDodger.jsx:180-187 | changes only the key flags, as `KeyUp` says |
| DodgerComponent.ForEachAsteroid | src/AsteroidDodger.jsx:97-117 | the index loop with the length fixed at the start and splices inside leaves exactly `Survivors`, and reports a hit exactly when `FatalAmong` holds over the whole list |
| DodgerComponent.VisitAsteroid | src/AsteroidDodger.jsx:97-116 | the callback at index k drops and spins that asteroid, splices it out when it has fallen below -10, and reports an unshielded overlap with the moved asteroid |
| DodgerProperties.SpawnTicksClosedForm | src/AsteroidDodger.jsx:89 | the frame-by-frame count of spawn frames among the first f frames equals ceil(f / 60) |
| DodgerProperties.StartIdempotent | src/AsteroidDodger.jsx:129-164 | starting twice gives the same state as starting once; keys are not touched |
| DodgerProperties.StartEstablishes | src/AsteroidDodger.jsx:129-164 | after `startGame` the ship is at (0, -5, 0) with rotation.z = 0, both lists are empty, the keys are unchanged, frameCount and score are 0, speed is 0.1, the player is alive and playing, and the session invariant holds |
| DodgerProperties.SteerGuarded | src/AsteroidDodger.jsx:79-86 | the ship moves left only with the left key held and x > -10, right only with the right key held and x < 10, by one step of 0.3 (0.5 with a boost); with no key held it stays; a ship inside (-10.5, 10.5) stays inside; y, z and rotation.z are unchanged |
| DodgerProperties.SurvivorsAboveFloor | src/AsteroidDodger.jsx:97-105 | if no asteroid is below -10 before the pass, none is after it |
| DodgerProperties.NoEscapeMovesAll | src/AsteroidDodger.jsx:97-100 | when no asteroid would drop below the floor, the pass moves every asteroid once, in order |
| DodgerProperties.EscapeSkipsSuccessor | src/AsteroidDodger.jsx:97-117 | the asteroid after a spliced-out one is neither moved nor tested and stays in the list unchanged |
| DodgerProperties.SkipExample | src/AsteroidDodger.jsx:97-117 | two asteroids at y = -9.95 with speed 0.1: the first is removed and is the only one tested; the second stays unmoved |
| DodgerProperties.FatalAmongExists | src/AsteroidDodger.jsx:107-117 | the pass reports a hit exactly when some visited asteroid, the removed ones included, overlaps the unshielded ship |
| DodgerProperties.ShieldProtects | src/AsteroidDodger.jsx:111 | with the shield active no asteroid is fatal |
| DodgerProperties.TickLive | src/AsteroidDodger.jsx:72-125 | a live frame steers, spawns on schedule, and runs the pass over the list with the spawned asteroid at the updated speed; power-ups are only ever appended; the player survives, and the next frame is requested, exactly when nothing visited was fatal; the frame counts in both cases |
| DodgerProperties.TickDead | src/AsteroidDodger.jsx:72-76 | a frame that starts with the player dead only sets gameOver, clears isPlaying, and requests nothing |
| DodgerProperties.FirstTickSpawns | src/AsteroidDodger.jsx:89-94 | the first frame after `startGame` spawns: one asteroid, moved once at speed 0.101, score 10, frameCount 1, and the player dies exactly when that asteroid overlaps the ship |
| DodgerProperties.TickPreserves | src/AsteroidDodger.jsx:68-126 | every frame keeps the session invariant: speed = 0.1 + 0.001 x spawns and score = 10 x spawns, no effect flag set, ship inside (-10.5, 10.5) on its line, no asteroid below -10, power-ups where created, gameOver = not alive, isPlaying = alive |
| DodgerProperties.ReplayPreserves | src/AsteroidDodger.jsx:68-187 | any sequence of frames, key events and restarts from a started session keeps the session invariant |
| DodgerProperties.SessionMonotone | src/AsteroidDodger.jsx:93-119 | within a session, speed and frameCount never decrease, a dead player never revives, and the effect flags never change |
| Sounds.Plays | src/utils/sounds.js:19 | a call plays exactly when now - lastPlayedTime is strictly greater than 100 |
| Sounds.NextLastPlayed | src/utils/sounds.js:19-22 | the shared timestamp after one call: the call's clock reading if it played, otherwise unchanged |
| Sounds.LastPlayedAfter | src/utils/sounds.js:17-23 | the shared timestamp after a run of calls is at least its start value and is either that value or one of the calls' clock readings |
| Sounds.LastPlayedMonotone | src/utils/sounds.js:19-22 | the shared timestamp never decreases along a run of calls |
| Sounds.PlayRecordsTime | src/utils/sounds.js:19-22 | after a call that plays, the timestamp is that call's clock reading |
| Sounds.PlaysAreSpaced | src/utils/sounds.js:14-23 | any two calls that play are more than 100 ms apart, even for different sounds |
| Sounds.FirstCallFromInitialState | src/utils/sounds.js:14-19 | from the initial timestamp 0 the first call plays exactly when the clock reads more than 100 |
| Sounds.SoundPlayer.constructor | src/utils/sounds.js:14 | the timestamp starts at 0 |
| Sounds.SoundPlayer.PlaySound | src/utils/sounds.js:15-23 | plays exactly when now - lastPlayedTime > 100 (strictly); a play rewinds the sound to 0 and records now; otherwise neither the sound nor the timestamp changes |
| Sounds.SharedDebounceClient | src/utils/sounds.js:14-23 | from module load, calls at 50, 150, 250 (another sound) and 251 ms play, respectively: no, yes, no, yes |

## Left out

- Rendering and the scene: renderer, camera, lights, ship geometry, particles, starfield, resize handling and disposal (src/AsteroidDodger.jsx:189-405), `renderer.render` (120), and `scene.add`/`scene.remove` (45, 63, 103, 139-145). These are three.js calls with no effect on the simulation.
- The JSX interface (408-502) and the registration of the key listeners (348-349, 394-395). The handlers are modelled as methods called with the key.
- Collision geometry: `Box3.setFromObject` and `intersectsBox` (108-111) are the relation parameter `Overlap` on the ship's pose and the moved asteroid. Nothing is assumed about it.
- `Math.random`: each draw a spawn frame uses is a field of `SpawnDraws`, passed in. `ValidDraws` states the [0, 1) range where a contract needs it.
- Floating point: positions and speeds are `real`, so IEEE rounding is not modelled. For example, 0.1 + 0.001 is exactly 0.101 here.
- Frame scheduling: `requestAnimationFrame`, `cancelAnimationFrame` and the frame ids (124, 133-135, 167) are reduced to the boolean `Animate` returns. Line 167 does not store its frame id, so a second `startGame` before that frame runs cannot cancel it, and two loops can then run at once. That interleaving is not modelled.
- React: `setScore(prev => prev + 10)`, `setGameOver` and `setIsPlaying` take effect immediately on plain fields. Batching and re-rendering are not modelled.
- DodgerComponent.ForEachAsteroid: the pass works on the list and the flags as local values and writes them back after the pass. The source splices the live array and sets `playerAlive`, `gameOver` and `isPlaying` inside the callback. Nothing in the pass reads those fields, so the result is the same, but array aliasing is not represented.
- DodgerComponent.AsteroidDodger.StartGame: the `if (state.ship)` guard (149) always holds, because the class always has a ship after `Mount`.
- DodgerComponent.AsteroidDodger.Mount: the early return when there is no container element (205) is not modelled. The ship's rotation about x and y and its scale are set once at mount (308-310, 321-322) and never changed. Because they are constant, their effect on the ship's bounding box (108) is folded into `Overlap`, and they are not fields.
- DodgerInput.ToLower: lower-cases ASCII letters only. No other character lower-cases to "a" or "d", so the key tests are unaffected.
- Audio: `new Audio`, the volume, and the `play()` promise and its `catch` (src/utils/sounds.js:2-11, 21). An audio element is reduced to its `currentTime`, and `Date.now()` is the parameter `now`.
- The other files (src/TowerTumble.jsx, src/OrbitalRacer.jsx, src/Game.jsx, server.js, src/App.jsx, src/Home.jsx, src/utils/fontLoader.js) hold render loops, routing, HTTP plumbing and a font loader, with no game state. They are not part of this model.
