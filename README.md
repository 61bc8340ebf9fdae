# Dapper Dasher, modelled in Dafny

Dapper Dasher is a small raylib side-scroller. The runner, Scarfy, jumps over six nebulae that drift towards it. Three background layers scroll behind them. The game is won when the finish line, which moves with the last nebula, reaches the runner, and lost as soon as any nebula hits the runner.

This project models the game logic of `dasher.cpp`:

- `anim.dfy`, module `Anim`: the `AnimData` record, the ground test `isOnGround`, and the sprite-sheet frame advance `updateAnimData`. Both are pure functions, as in the source. The module also runs the frame advance over any sequence of frame deltas.
- `game.dfy`, module `Game`: the loop's state as a value (`World`), the set-up before the loop (`InitialWorld`), and one iteration of the loop body without the drawing (`Next`). It also defines the outcome (`OutcomeOf`), the invariant kept at the top of every iteration (`Inv`), and runs of many frames (`RunWorld`).
- `game_loop.dfy`, module `GameLoop`: the loop as the program runs it, as a class `GameState`. Its fields are the loop's locals and a fixed `array` of six nebulae. The constructor does the set-up. `Step` does one iteration in place, with a `for` loop over the array for the drift, the animation and the collision test. `Step` and `Update` are proved equal to `Next`. Each phase method is proved equal to the function of `Game` that defines its phase: `ScrollLayers` to `Scroll`, `GroundAndJump` to `Vertical`, `IntegrateRunner` to `MoveRunner`, `DriftNebulae` to `DriftAll`, `AnimateNebulae` to `AnimateAll` and `CheckCollisions` to `AnyHit`.

Modelling choices:

- Every `float` is a `real`. `scarfyVel` is an `int` in the source, so `scarfyVel += gravity * dt` converts the sum back to `int`. The model writes that conversion out as truncation toward zero (`TruncToInt`).
- `nebula.width/8` and `nebula.height/8` are integer divisions and are modelled as such. `scarfy.width/6.0f` is a real division.
- Texture sizes are a `Textures` parameter with positive fields.
- The frame time `GetFrameTime()` and the key state `IsKeyPressed(KEY_SPACE)` are the inputs of `Step` and `Next`. The frame time must be non-negative.
- `CheckCollisionRecs` belongs to raylib and is not part of this model. The model assumes it is the strict axis-aligned overlap test (`Overlaps`).

Three behaviours of `dasher.cpp` are easy to miss; the model follows the code:

- `rect.x` is set from the frame *before* the increment (dasher.cpp:25-26). So after an advance, `rect.x` shows the previous frame's cell, and `frame` already names the next one (`ShowsPrevFrame`).
- A zero delta can still advance the frame (dasher.cpp:20-21). This happens when the accumulator has already reached the hold time. Every nebula has hold time 0 (dasher.cpp:63), so it advances on every call (`ZeroDeltaAdvancesIffDue`, `ZeroHoldAlwaysAdvances`).
- A win is not final. The outcome is recomputed every frame (dasher.cpp:201-212), and the loop keeps moving the runner and the nebulae after the finish line is reached. From a state satisfying the loop invariant, with the nebulae spaced as at the start, a collision after the finish line has been reached turns the win into a loss (`WonCanTurnLost`). A loss is final, because `collision` is only ever set to `true` (dasher.cpp:194-197, `CollisionSticky`).

## Model

| member | source | states |
|---|---|---|
| `Anim.IsOnGround` | dasher.cpp:12-15 | grounded exactly when the bottom edge `pos.y + height` is at or below the window height; the boundary is inclusive |
| `Anim.GroundBoundary` | dasher.cpp:12-15 | an entity exactly on the floor is grounded, one raised by any positive amount is not, and one lowered further stays grounded |
| `Anim.UpdateAnimData` | dasher.cpp:17-34 | position, `rect.y`, width, height and hold time never change; if not due, only `runningTime` moves, by exactly the delta; if due, `runningTime` is 0, `rect.x` is the old frame times the width, and the frame becomes old+1 or wraps to 0 exactly past `maxFrame`; an in-range frame stays in `0..maxFrame`; `rect.x` then shows the cell before the new frame |
| `Anim.UpdateFrameMod` | dasher.cpp:21-30 | for an in-range frame, one update adds 1 modulo `maxFrame + 1` when due and 0 otherwise |
| `Anim.RunFrame` | dasher.cpp:17-34 | over any sequence of deltas, the frame stays in `0..maxFrame` and equals the start frame plus the number of advances, modulo `maxFrame + 1` |
| `Anim.RunKeepsGeometry` | dasher.cpp:17-34 | any number of updates leaves position, `rect.y`, cell size and hold time unchanged |
| `Anim.ZeroHoldAlwaysAdvances` | dasher.cpp:17-34 | with hold time 0 (every nebula, dasher.cpp line 63) and non-negative deltas, every call advances the frame |
| `Anim.ZeroHoldFrameAfterRun` | dasher.cpp:17-34 | from frame 0 with hold time 0, k non-negative deltas leave the frame at `k % (maxFrame + 1)` |
| `Anim.UpdateKeepsAccumulatorBelowHold` | dasher.cpp:20-23 | with a non-negative delta, the accumulator stays non-negative and is below the hold time unless it was just reset to 0 |
| `Anim.ZeroDeltaAdvancesIffDue` | dasher.cpp:20-30 | for any in-range frame, including the wrap frame `maxFrame`, and `maxFrame > 0`: a zero delta leaves the frame unchanged iff the accumulator is below the hold time, and then leaves the rectangle unchanged too |
| `Game.TruncToInt` | dasher.cpp:154 | the float-to-int conversion truncates toward zero: the result lies within 1 of the argument, on the side of 0 |
| `Game.Scroll` | dasher.cpp:110-126 | a layer moves left by `speed * dt` and resets to 0 only after scrolling a doubled texture width; an offset in `(-2w, 0]` stays there |
| `Game.Vertical` | dasher.cpp:144-162 | airborne exactly when not on the ground; on the ground the velocity is `JumpVel` (-600) after a press and 0 otherwise; in the air gravity is added within truncation and the press is ignored |
| `Game.Overlaps` | dasher.cpp:194 | the collision test `CheckCollisionRecs`, assumed to be strict axis-aligned overlap: rectangles that only share an edge do not overlap, and the test is symmetric in its arguments |
| `Game.NebulaHitbox` | dasher.cpp:190-191 | a nebula's hitbox keeps the centre of its cell and leaves a margin of `pad` = 50 on every side |
| `Game.RunnerHitbox` | dasher.cpp:192 | the runner's hitbox is its cell at its position, so its bottom reaches the floor exactly when the runner is grounded |
| `Game.AnyHit` | dasher.cpp:188-199 | accumulated over the nebulae in the loop's order, it holds iff some nebula's hitbox overlaps the runner's |
| `Game.DriftAll` | dasher.cpp:164-168 | every nebula moves horizontally by `dx`, and nothing but its `pos.x` changes |
| `Game.AnimateAll` | dasher.cpp:182-186 | animating every nebula neither moves it nor resizes its cell, and a frame in `0..7` stays there |
| `Game.MoveRunner` | dasher.cpp:173-180 | the runner moves only vertically, by `vel * dt`, and keeps its cell size; in the air its animation is frozen; a frame in `0..5` stays there |
| `Game.Next` | dasher.cpp:104-212 | one iteration keeps the array size and the runner's column, moves the finish line by `NebVel * dt`, and never clears the collision flag; its other properties are in `NextKeepsInv`, `NextRunner`, `NextNebulae` and `NextCollision` |
| `Game.OutcomeOf` | dasher.cpp:201-212 | Lost iff collision; Won iff no collision and `pos.x >= finishLine`; Playing otherwise |
| `Game.InitialNebula` | dasher.cpp:53-64 | nebula `i` starts exactly on the floor, `300 * i` right of the window's edge, at frame 0, and is due on every non-negative delta |
| `Game.RunnerX` | dasher.cpp:77 | the runner's cell is centred on the window's middle column (x = 256) |
| `Game.InitialRunner` | dasher.cpp:75-81 | the runner's cell is one sixth of the sheet wide; it starts exactly on the floor at `RunnerX`, at frame 0, holding each frame 1/12 s |
| `Game.InitialWorld` | dasher.cpp:50-97 | six nebulae, the finish line on the last one (x = 2012), no collision, the runner at rest and not airborne, every background offset 0 |
| `Game.InitialInv` | dasher.cpp:53-97 | the start state satisfies the invariant, has no collision, puts the finish line at the last nebula (x = 2012), and places the runner and every nebula exactly on the floor, which counts as grounded |
| `Game.NextKeepsInv` | dasher.cpp:104-199 | one iteration keeps the invariant: six nebulae, finish line at the last nebula, frame counters in range, nebula hold time and accumulator 0, runner accumulator in `[0, 1/12)`, runner at its fixed x, grounded velocity 0 or -600, background offsets in range |
| `Game.NextCollision` | dasher.cpp:188-212 | the collision flag becomes old flag or some nebula hitting the runner; Lost stays Lost; Won implies no collision this frame |
| `Game.NextRunner` | dasher.cpp:144-180 | the runner keeps its x and moves by `vel * dt`; grounded gives `isInAir == false`, velocity -600 or 0, and the moved runner animated by `UpdateAnimData` with `maxFrame` 5; airborne gives `isInAir == true`, gravity without jump impulse, and a frozen animation frame |
| `Game.JumpFromRest` | dasher.cpp:145-174 | a press at rest exactly on the floor gives velocity -600 at once; the flag still says grounded, the runner rises by `600 * dt`, and the next frame finds it airborne |
| `Game.NextNebulae` | dasher.cpp:164-186 | every nebula and the finish line move by `NebVel * dt`; every nebula advances exactly one frame modulo 8 |
| `Game.StepNebulae` | dasher.cpp:164-186 | the nebula array alone: drift then animation keep each nebula's hold time and accumulator 0, move it by `NebVel * dt` and step its frame by one modulo 8 |
| `Game.RunWorld` | dasher.cpp:101-227 | the loop run once per input keeps the array size and the runner's column, and never clears the collision flag |
| `Game.RunWorldNebulae` | dasher.cpp:164-186 | the nebulae after any run depend only on the starting nebulae and the frame times |
| `Game.NebulaeAfterFrames` | dasher.cpp:182-186 | after any inputs with non-negative frame times, each nebula's frame is its start frame plus the number of inputs, modulo 8 |
| `Game.RunKeepsInv` | dasher.cpp:101-227 | the invariant holds after any number of frames with non-negative deltas |
| `Game.CollisionSticky` | dasher.cpp:188-205 | once set, the collision flag stays set and the outcome stays Lost over any later frames |
| `Game.RunDrift` | dasher.cpp:164-174 | after any frames, every nebula and the finish line have moved by `NebVel` times the total elapsed time, and the runner's x has not changed |
| `Game.RunNebulaFrames` | dasher.cpp:183-186 | after k frames, each nebula's frame is its start frame plus k, modulo 8 |
| `Game.WonIffFinishReached` | dasher.cpp:201-212 | from the start, Won holds iff there is no collision and `2012 - 200 * elapsed` has reached the runner's x |
| `Game.WonCanTurnLost` | dasher.cpp:188-212 | a state that satisfies the invariant, with the nebulae 300 apart as at the start, is Won and is Lost one frame later |
| `GameLoop.GameState.constructor` | dasher.cpp:38-97 | builds the six nebulae in a loop and the runner; the state equals `InitialWorld` and satisfies the invariant |
| `GameLoop.GameState.Step` | dasher.cpp:101-212 | one iteration in place equals `Next` of the old state and keeps the invariant; the returned outcome follows the stated precedence; a set collision stays set and gives Lost; the finish line stays at the last nebula |
| `GameLoop.GameState.Update` | dasher.cpp:104-199 | the state changes of one iteration, done in place, equal `Next` of the old state |
| `GameLoop.GameState.ScrollLayers` | dasher.cpp:109-126 | each background offset becomes `Scroll` of its old value |
| `GameLoop.GameState.GroundAndJump` | dasher.cpp:144-162 | velocity and airborne flag become `Vertical` of the runner and the old velocity |
| `GameLoop.GameState.IntegrateRunner` | dasher.cpp:173-180 | the runner moves by `vel * dt` and is animated only when not airborne |
| `GameLoop.GameState.DriftNebulae` | dasher.cpp:164-168 | the loop over the array moves every nebula by `dx` and changes nothing else |
| `GameLoop.GameState.AnimateNebulae` | dasher.cpp:182-186 | the loop over the array applies `UpdateAnimData` with `maxFrame` 7 to every nebula |
| `GameLoop.GameState.CheckCollisions` | dasher.cpp:188-199 | the loop sets the flag iff it was set or some nebula's padded rectangle overlaps the runner's, and never clears it |

## Left out

- Window creation, `SetTargetFPS`, `WindowShouldClose`, `BeginDrawing`/`EndDrawing` and `CloseWindow` are runtime plumbing. The loop itself becomes `RunWorld` over a sequence of inputs.
- Every `DrawTextureEx`, `DrawTextureRec` and `DrawText` call (dasher.cpp:128-142, 204, 211, 216-223) only renders, so none is modelled. The outcome `Step` returns is what they branch on.
- `LoadTexture` and `UnloadTexture` handle resources. Texture sizes are the `Textures` parameter.
- The body of raylib's `CheckCollisionRecs` is not part of this model. `Overlaps` assumes the strict axis-aligned overlap test.
- IEEE single-precision rounding is not modelled: floats are exact reals. The float-to-int truncation of `scarfyVel` is modelled.
- `GetFrameTime()` and `IsKeyPressed(KEY_SPACE)` are inputs. A frame time is taken to be non-negative.
