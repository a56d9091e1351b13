# Racing game: a Dafny model of the game-state logic

The game is a browser arcade racer. The player's car sits near the bottom of a
canvas and moves left and right. Enemy cars spawn above the screen every
1.5 seconds and drive down. A one-second timer raises the score while the game
runs, and the best score follows it. A pause key (or a resume button) stops and
restarts the animation. A car hitting the player resets the game.

This project models that logic as pure functions over an immutable session
record. All drawing, sound, overlay and storage calls are removed.

- `geometry.dfy`, module `Geometry`: the canvas, rectangles, and the strict
  four-inequality overlap test.
- `player.dfy`, module `Player`: the player's car (`Car`) and `MovePlayer`, the guarded
  horizontal step.
- `enemies.dfy`, module `Enemies`: the per-frame enemy update and spawning.
  - `Walk` and `UpdateEnemies` model the update literally. The loop walks the
    live list by index and cuts off-screen cars out of it, so the car shifted
    into a removed slot is passed over in that frame.
  - `Sweep` and `Hits` are an independent car-by-car reading of the same
    update. They carry a "skip the next car" flag.
  - `SkippedAt`, `RemovedAt` and `RemovedBefore` describe the result index by
    index.
- `game.dfy`, module `Game`: the session record and the operations on it.
  - The operations are `Init`, `Frame` (one animation frame), `Tick` (one
    score-timer tick), `FlipPause`, `TogglePause` and `Reset`.
  - `Step` and `Run` form an event driver over those operations.

Positions are `real` and times are integer milliseconds. The score and the
best score are `nat`. The host's inputs are parameters of a frame: the set of
held key names, the clock reading, and a random draw in [0, 1).

### Two behaviours of the code worth knowing

- **Canvas edges.** The movement guard reads the car's position *before* a
  step and does not clamp (script.js:92-100). So the car can cross either edge
  by less than one step. `Player.MoveCanOvershootLeftEdge` and
  `Player.MoveCanOvershootRightEdge` show this. What the code does keep is the
  wider band proved in `Player.MoveKeepsBand`.
- **Removing enemies.** `updateEnemies` calls `splice` inside `forEach`
  (script.js:154-158). So the car shifted into a removed slot is neither
  moved nor tested in that frame. `Enemies.UpdateSkipsShiftedCar` gives a
  concrete case, and `Enemies.UpdateByIndex` gives the exact rule.

## Model

| member | source | states |
|---|---|---|
| Geometry.Collides | script.js:160-165 | The four strict inequalities themselves. It has no contract of its own; `CollidesIffCommonPoint`, `CollidesSymmetric` and the edge lemmas describe it. |
| Geometry.CollidesSymmetric | script.js:160-165 | The overlap test gives the same answer when the player and the enemy swap roles. |
| Geometry.CollidesIffCommonPoint | script.js:160-165 | For rectangles with positive area, the four strict inequalities hold exactly when some point lies strictly inside both rectangles. |
| Geometry.TouchingEdgeIsNoCollision | script.js:160-165 | Rectangles that share only a vertical edge (`a.x + a.width == b.x`) do not collide, in either order. |
| Geometry.StackedEdgeIsNoCollision | script.js:160-165 | Rectangles that share only a horizontal edge do not collide, in either order. |
| Geometry.WorkedCollisionCases | script.js:160-165 | A 50x100 car at (100,500) hits one at (120,550) and misses one at (300,550). |
| Player.MovePlayer | script.js:91-101 | Only the car's x changes: y, width, height and speed stay. x changes by −speed, 0 or +speed. With no key held nothing changes. Without left held it never moves left, and without right held it never moves right. With left held, x > 0 and right not held, it steps left. With right held, x + width < canvas width, and no left step taken, it steps right. With both held, a left step taken and the right guard then failing, it ends one step left. With right held, x ≤ 0 and x + width ≥ canvas width, it stays. |
| Player.MoveGuards | script.js:92-100 | A leftward move happens only with left held and x > 0. A rightward move happens only with right held and x + width < canvas width. |
| Player.BothKeysCancel | script.js:92-100 | With both directions held and both guards passing, the car ends where it started. The right guard is read after the left step. |
| Player.MoveKeepsBand | script.js:92-100 | A car strictly inside (−speed, canvas width − width + speed) stays inside it after a move. |
| Player.MoveCanOvershootLeftEdge | script.js:92-94 | The left guard is not a clamp: a car at x = 1 with speed 7 steps to x = −6. |
| Player.MoveCanOvershootRightEdge | script.js:95-100 | The right guard is not a clamp: a car whose right edge is 1 short of an 800-wide canvas ends 6 past it. |
| Enemies.WalkFromSlot | script.js:153-172 | From any slot of the live list, with the earlier cars done, the literal index walk crashes exactly when a visited car hits, and otherwise finishes as the car-by-car reading says. |
| Enemies.Walk | script.js:153-173 | The literal index walk that splices removed cars out of the live list. It has no contract of its own; `WalkFromSlot`, `UpdateEnemies` and `UpdateByIndex` describe it. |
| Enemies.UpdateEnemies | script.js:153-172 | The enemy update crashes exactly when a car it visits overlaps the player once moved. Otherwise it yields the car-by-car result. |
| Enemies.SweepLength | script.js:153-158 | A crash-free update leaves exactly the input count minus the number of removed cars, so it never adds a car. |
| Enemies.SweepAt | script.js:153-158 | A car that is not removed ends at its index minus the number removed before it. It is moved down one step if visited, and unchanged if passed over. |
| Enemies.UpdateByIndex | script.js:153-158 | This is the full index description of a crash-free update. The result length is the input count minus the removed count. A car is passed over exactly when the car before it was removed. Each kept car sits at its index minus the removals before it: moved down by 5 if visited, unchanged if passed over. Kept cars keep their relative order. |
| Enemies.UpdateSkipsShiftedCar | script.js:154-158 | On a 600-high canvas with two cars at y = 598, the first moves past the bottom and is removed. The second is passed over and stays at 598. |
| Enemies.Spawned | script.js:104-106 | A new car has x = r·(width − 50) for the random draw r in [0, 1), y = −100 and size 50x100. On a canvas wider than 50, x lies in [0, width − 50). On a narrower canvas, x lies in (width − 50, 0]. |
| Enemies.SpawnEnemy | script.js:104-107 | A spawn appends exactly one car after the existing ones and leaves those ones unchanged. |
| Game.Init | script.js:7-39 | At load the car is at (width/2 − 25, height − 150), size 50x100, speed 7. There are no enemies, the score is 0, the game is running, and the last spawn is the load time. |
| Game.Reset | script.js:142-146 | There are no enemies and the score is 0. The car is back at x = width/2 − 25, y = height − 120. Its size and speed, the best score, the pause flag and the last spawn time are untouched. |
| Game.Tick | script.js:57-67 | While paused a tick changes nothing. While running it adds exactly 1 to the score and sets the best to the larger of the old best and the new score. The best never drops, and no other field changes. |
| Game.FlipPause | script.js:69-70 | The pause flag is negated and nothing else changes. |
| Game.TogglePause | script.js:69-80 | The flag is negated. Pausing a running game changes nothing else. |
| Game.Frame | script.js:184-198 | A paused game is left unchanged. A frame never changes the best score, the pause flag or the canvas. The score stays or becomes 0 (after a crash). The last spawn time stays, or becomes the clock reading when a spawn was due. |
| Game.FlipPauseTwice | script.js:69-70 | Two flips restore the original state. |
| Game.PauseResumeIsOneFrame | script.js:69-80 | Pausing a running game and then resuming it has the same effect as exactly one frame. |
| Game.PausedIsFrozen | script.js:184-185 | While paused, neither a frame nor a score tick changes the state. |
| Game.ResetIdempotent | script.js:142-146 | Resetting twice gives the same state as resetting once. |
| Game.TicksCount | script.js:57-67 | n ticks while running add exactly n to the score, and (for n ≥ 1) leave the best at the larger of the old best and the new score. While paused they change nothing. |
| Game.FiveSecondsAddFive | script.js:57-67 | Five seconds of ticks while running add exactly five to the score. |
| Game.StepKeepsScoreInv | script.js:57-67 | Every event keeps score ≤ best score. |
| Game.RunKeepsBest | script.js:57-67 | Over any sequence of events the best score never decreases, the canvas stays, and score ≤ best holds throughout. |
| Game.SpawnDue | script.js:193 | The strict check that more than 1500 ms have passed since the last spawn. It has no contract of its own; `FrameSpawn` and `NoSpawnWithinInterval` describe its effect on a frame. |
| Game.FrameSpawn | script.js:190-196 | A crash-free running frame leaves the updated enemies plus, exactly when now − lastSpawn > 1500, one new car at the end. In that case the spawn time becomes now; otherwise it stays. The score is kept and the car is as moved. |
| Game.FrameCrash | script.js:160-171 | When a visited car hits the moved player, the frame's result is the reset of the state with the moved car. |
| Game.NoSpawnWithinInterval | script.js:193-196 | With no more than 1500 ms since the last spawn, a frame spawns nothing: the spawn time stays and the enemy count does not grow. |
| Game.FrameKeepsCarShape | script.js:142-146 | Every frame, with or without a crash, keeps the car's width, height and speed. |

## Left out

- Drawing (`drawRotatedImage`, `drawPlayer`, `drawEnemies`, clearing the canvas) is left out. It is pure rendering, and the doubled draw width does not affect collision.
- Audio (crash sound, background music), the game-over alert, and the pause overlay's visibility are DOM side effects with no effect on state.
- Persistent storage of the best score is left out, including the string-to-number coercion of the stored value. The best score is a `nat` supplied to `Init`.
- Scheduling (the animation frame request and its cancellation, the one-second interval timer, the load handler) is left out. Each callback is one explicit step in `Game.Step`.
- Game.Frame: a crash is modelled as "first hit in a frame: reset, and the frame ends". The source's reset starts a new animation frame from inside the still-running enemy loop. That loop then continues over the old list, and the outer frame goes on to its spawn check. Because `enemies` has been reassigned, the rest of that loop's `splice` calls act on the new list. The inner and the outer frame each request a next frame, and the cancel at script.js:166 only cancels the frame already running, so two frame chains run until the next pause. This re-entrancy and scheduling is not modelled.
- Game.Frame: the clock is read twice in the source (once for the spawn check and once for the new spawn time). The model uses one reading for both.
- Game.Init: the canvas size comes from the viewport at load. It is a parameter, and resizing is not modelled.
- Enemies.Spawned: the random draw is a parameter in [0, 1). "Uniformly random" is not modelled.
- Key tracking (the keydown/keyup listeners) is left out. A frame receives the set of key names held down. The pause key's entry in that set has no effect on movement.
- JavaScript's double-precision arithmetic is not modelled. Positions are exact reals.
