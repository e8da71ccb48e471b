# Cloth simulation driver: a verified model of its control logic

This project models the sequential control logic of a cloth simulator in Dafny.
The numerical solvers are left opaque. The model has three parts.

- **The simulation step** (`src/simulation.cpp`). `advance_step` advances a
  small counter state machine: time, step, frame, the one-shot ramp-up regime
  (`init_frame_steps`) and the wait-frame counter. Around it, the pipeline
  stages are each gated by an enable flag. The node loops `step_mesh`,
  `update_velocities` and the obstacle roll-back of `update_obstacles` work
  node by node in place. `get_constraints` orders the constraint list, and
  `size`, `get`, `get_index` and `node_positions` index across a list of meshes.
  `Simulation` is a class whose methods update its fields. Each method is
  proved against a specification function over a value `World`
  (`pipeline.dfy`). The clock alone is specified in `clock.dfy`.
- **The obstacle lifecycle** (`src/obstacle.cpp`). `Obstacle` is a class with
  four mesh slots (base, current, next and cache), an `activated` flag and the
  keyframe index `curr_frame`. The `get_mesh` overloads, `blend_with_previous`
  and `blend_with_next` drive it. Each method is tied to a function on an
  `ObstacleState` snapshot. The lemmas state the lifecycle: the validity
  window, first activation, keyframe loading and the exact blend arithmetic
  over reals.
- **The batch driver** (`src/runphysics.cpp`). It covers:
  - `is_number` and the argument handling of `run_physics` and `resume_physics`;
  - the file names written by `save` and `save_obstacle_transforms`, including the `frame < 10000` guard;
  - the `old_totals` bookkeeping of `save_timings`, as a class `TimingLog`;
  - the save and stop decisions of `sim_step`;
  - the counter fast-forward of `init_resume`;
  - the self-copy guard of `copy_file`.

  Files written are returned as `Write` values. The file system read by
  `copy_file` is a map from path to contents.

Positions, velocities, time and blend factors are `real`. Counters are
unbounded `int`. C++ `%` (truncating) is written out as `Clocks.CRem` and
`RunPhysics.CDivides`. `atoi` and `printf("%04d")` are written out as
`Format.Atoi` and `Format.Padded`.

Some properties follow from the code as written. A *fresh* run below is one
started at step 0 and frame 0 with no ramp-up and no wait frames
(`init_frame_steps = 0`, `init_wait_frames = 0`; `Clocks.Fresh`).

- **Frame limit.** With `num_frames = N`, a fresh run stops at the first step
  of frame `N`. When `frame_steps > 1` that step does not save, so the saved
  frames are 0 to `N - 1` (`RunPhysics.FrameLimitStop`). A ramp-up shifts
  this: with `frame_steps = 2` and `init_frame_steps = 3`, frame 1 is first
  reached at step 4, which saves, so `num_frames = 1` saves frames 0 and 1
  (`RunPhysics.RampUpShiftsFrameLimit`).
- **Second argument.** A numeric second argument, in a call with two
  arguments, is both the output directory and the frame count
  (`RunPhysics.RunArgs`).
- **Resume after ramp-up.** Resuming a configuration that has a ramp-up, at a
  frame past it, leaves the clock in ramp-up for good
  (`Clocks.ResumeInsideRampUpStalls`). Without ramp-up or wait frames, the
  resumed clock is exactly the one of an uninterrupted run
  (`Clocks.ResumeMatchesRun`).
- **Resume file names.** A resumed run reads back rigid saves only. Non-rigid
  saves carry the `cloth` tag in their names (`RunPhysics.ResumeReadsRigidSavesOnly`).
- **Expired obstacles.** An obstacle queried past its window stays activated
  with empty slots. A later in-window query does not bring it back
  (`Obstacles.ExpiredStaysEmpty`).

## Model

| member | source | states |
|---|---|---|
| `Clocks.AdvanceClock` | src/simulation.cpp:125-154 | One step's clock changes as follows. The step grows by exactly 1. Time grows by the step size in force on entry. The frame grows by 0 or 1, and only on a remeshing step. A non-negative wait counter never grows and never goes negative. Once ramp-up has ended it stays ended and the step size is fixed. |
| `Clocks.RampUpStep` | src/simulation.cpp:137-144 | During ramp-up, any step other than `init_frame_steps + 1` only ticks. That step ends ramp-up, installs `frame_time / frame_steps` and remeshes. It advances the frame iff no wait frames are left, and it leaves the wait counter alone. |
| `Clocks.SteadyStep` | src/simulation.cpp:145-152 | In the steady regime a step remeshes iff `(step - 1) % frame_steps == 0`. Only then does the wait counter become `max(0, w - 1)`. The frame advances iff it remeshed and the new counter is 0. |
| `Clocks.CRemZero` | src/simulation.cpp:145 | C++ truncating `%` and Euclidean `%` agree on whether the remainder is 0. |
| `Clocks.RampUpOnce` | src/simulation.cpp:137-144 | Started at step 0 with `init_frame_steps = k > 0`, the first `k` steps keep the initial step size and frame. Every step from `k + 1` on is steady, with the nominal step size. |
| `Clocks.FreshRun` | src/simulation.cpp:137-152 | Without ramp-up or wait frames, after `j` steps the frame is `ceil(j / frame_steps)` and time is `j` nominal steps. |
| `Clocks.FramesAfterWholeFrames` | src/simulation.cpp:137-152 | After `N * frame_steps` steps from `Clocks.Fresh` (step 0, frame 0, no ramp-up, no wait frames), the frame is `N`. |
| `Clocks.ResumeMatchesRun` | src/runphysics.cpp:199-201 | Fast-forwarding the clock `Clocks.Fresh` (no ramp-up, no wait frames) to frame `N` gives exactly the clock of an uninterrupted run after `N` whole frames. |
| `Clocks.StuckInRampUp` | src/simulation.cpp:137-144 | A clock in ramp-up that is already past step `init_frame_steps + 1` never changes its frame or step size again. |
| `Clocks.ResumeInsideRampUpStalls` | src/runphysics.cpp:199-201 | Resuming a ramp-up configuration at a frame past its ramp-up freezes the frame counter for every later step. |
| `Format.AtoiOfDigits` | src/runphysics.cpp:177 | On a string of decimal digits, `atoi` is the string's decimal value. |
| `Format.PaddedRoundTrip` | src/runphysics.cpp:85 | `atoi` of the zero-padded numeral of `n >= 0` gives back `n`. |
| `Format.DecimalLength` | src/runphysics.cpp:82 | The numeral of `n` has at most `k` digits iff `n < 10^k`. |
| `Format.FourDigits` | src/runphysics.cpp:82 | For `n >= 0`, `%04d` is exactly four characters iff `n < 10000`, and longer otherwise. |
| `Geometry.WithRestPositions` | src/obstacle.cpp:65-67 | Every node's rest position becomes its current position. Nothing else changes. |
| `Geometry.RollBackThenDrift` | src/simulation.cpp:377-385 | Rolling a mesh back over `dt` and then integrating it over `dt` returns every node to its position before the roll-back. |
| `Geometry.RederiveMatchesDisplacement` | src/simulation.cpp:343-345 | After re-derivation, `dt * (v' - v)` equals the displacement `x - xold`. |
| `MeshIndex.Size` | src/simulation.cpp:391-395 | The result is the length of the concatenation of all the meshes' lists. |
| `MeshIndex.Get` | src/simulation.cpp:417-426 | The result is none iff `i` is outside `[0, size)`. Otherwise it points at the mesh and position holding the `i`-th element of the flat view. |
| `MeshIndex.GetIndex` | src/simulation.cpp:401-411 | The result is -1 iff no mesh stores `p` at its own recorded index. Otherwise it is a flat index whose element is `p`: the offset of the first such mesh plus `p`'s index. |
| `MeshIndex.NodePositions` | src/simulation.cpp:432-437 | The result is the position of every node, in flat order, with length `size<Node>`. |
| `MeshIndex.FlattenAt` | src/simulation.cpp:401-426 | Element `k` of mesh `m` sits at flat index `offset(m) + k`. |
| `MeshIndex.FlattenUpdate` | src/simulation.cpp:343-345 | Writing through a pointer from `get` changes exactly that flat position. |
| `MeshIndex.AllNodesTotal` | src/simulation.cpp:391-395 | The flat node count is the sum of the per-mesh node counts. |
| `MeshIndex.SameShapeSameSize` | src/simulation.cpp:391-395 | Meshes with the same node counts have flat views of the same length. |
| `MeshIndex.UnflattenAll` | src/simulation.cpp:432-437 | A list of meshes is determined by its node counts and its flat node list. |
| `Obstacles.Placed` | src/obstacle.cpp:57-64 | The mesh keeps its node count, and node `n` is placed by the motion at `time` from base node `n`'s position. |
| `Obstacles.GetMeshAtSpec` | src/obstacle.cpp:44-70 | The `get_mesh(time)` transition on a snapshot keeps the invariant that an activated current slot matches the base. |
| `Obstacles.GetMeshFrameSpec` | src/obstacle.cpp:72-106 | The `get_mesh(time, frame)` transition keeps the invariant. It fails only on a missing keyframe file, and then releases every slot. |
| `Obstacles.BlendedWithPrevious` | src/obstacle.cpp:108-121 | Each node becomes `T(x0) + blend * (x - T(x0))`. A blend of 1 keeps positions, a blend of 0 snaps to `T(x0)`, and only positions change. |
| `Obstacles.BlendedWithNext` | src/obstacle.cpp:123-129 | Each node moves by `blend * (next - cache)`. Only positions change. |
| `Obstacles.BlendSeriesMoves` | src/obstacle.cpp:123-129 | After any series of blends, each node has moved by the sum of the factors times `next - cache`. |
| `Obstacles.BlendsSummingToOneReachNext` | src/obstacle.cpp:99-100 | Starting from the snapshot taken when the keyframe was loaded, blends whose factors sum to 1 land exactly on the next keyframe. |
| `Obstacles.OutsideWindow` | src/obstacle.cpp:45-52 | Outside the window, both queries return the current slot. They keep `activated` and `curr_frame`. After the window they release all four slots; before it they change nothing. |
| `Obstacles.FirstRigidQuery` | src/obstacle.cpp:53-68 | The first in-window `get_mesh(time)` copies the base into the current slot and sets `curr_frame = -1` and `activated`. It places nodes by the motion when there is one, and records rest positions from the result. |
| `Obstacles.LaterRigidQuery` | src/obstacle.cpp:57-64 | After activation there is no re-copy and no re-recording of `x0`. Without a motion the obstacle is untouched; with one, only `x` and `v` are recomputed from the base. |
| `Obstacles.KeyframeQuery` | src/obstacle.cpp:82-105 | The first call activates and loads no keyframe. Later calls load keyframe `frame`, caching the current slot, iff `frame > curr_frame`. The current slot is never modified after activation. A missing file releases everything and fails. |
| `Obstacles.CurrFrameNonDecreasing` | src/obstacle.cpp:88-101 | `curr_frame` never decreases, whichever query runs. |
| `Obstacles.ExpiredStaysEmpty` | src/obstacle.cpp:45-56 | Once past the window, an obstacle stays activated with every slot empty. Later queries materialise nothing. |
| `Obstacles.Obstacle.GetMesh` | src/obstacle.cpp:36-38 | Returns the current slot and changes nothing. |
| `Obstacles.Obstacle.Release` | src/obstacle.cpp:46-49 | Empties all four slots and keeps everything else. |
| `Obstacles.Obstacle.GetMeshAt` | src/obstacle.cpp:44-70 | The new state is `GetMeshAtSpec` of the old one, and the result is the new current slot. |
| `Obstacles.Obstacle.GetMeshFrame` | src/obstacle.cpp:72-106 | The new state and flag are `GetMeshFrameSpec` of the old state. The result is the new current slot. |
| `Obstacles.Obstacle.BlendWithPrevious` | src/obstacle.cpp:108-121 | Node by node in place, the current slot becomes `BlendedWithPrevious` of the old one. |
| `Obstacles.Obstacle.BlendWithNext` | src/obstacle.cpp:123-129 | Node by node in place, the current slot becomes `BlendedWithNext` of the old one. |
| `Pipeline.ConstraintsOf` | src/simulation.cpp:156-168 | The handles' constraints come first, in handle order. Only the proximity timer can change. Unless proximity is asked for and enabled, the result is exactly the handles' constraints with the timers unchanged. |
| `Pipeline.Rederived` | src/simulation.cpp:340-347 | Keeps the shape and every position. Below `|xold|` each flat node gets `(x - xold[n]) / dt` added to its velocity. Other nodes are untouched. |
| `Pipeline.RederivedMatchesDisplacement` | src/simulation.cpp:340-347 | After `update_velocities`, each node below `|xold|` has its velocity changed by exactly its displacement over `dt`. |
| `Pipeline.PhysicsSpec` | src/simulation.cpp:181-201 | When enabled: the implicit update of every cloth, then `x += v*dt` on every cloth and obstacle node, timed under physics. When disabled, nothing changes. |
| `Pipeline.PlasticitySpec` | src/simulation.cpp:208-217 | When enabled, the plastic update of every cloth under its timer. Otherwise nothing changes. |
| `Pipeline.StrainLimitingSpec` | src/simulation.cpp:219-227 | When enabled, strain limiting and then velocities re-derived from the positions before it. Otherwise nothing changes. |
| `Pipeline.CollisionSpec` | src/simulation.cpp:269-279 | When enabled, collision response and then velocities re-derived. Otherwise nothing changes. |
| `Pipeline.RemeshAndSeparate` | src/simulation.cpp:285-325 | Remeshes every cloth, carrying residuals over when plasticity is on and not initialising. When separation is enabled, separates from the pre-remeshing meshes. |
| `Pipeline.RemeshingSpec` | src/simulation.cpp:281-338 | When enabled: remesh and separate, then apply the pop filter under fresh constraints unless initialising. When disabled, nothing changes. |
| `Pipeline.EquilibrationSpec` | src/simulation.cpp:229-250 | Settles every cloth, then, when enabled, applies collision response without a velocity update. The clock and the obstacles are unchanged. |
| `Pipeline.EquilibrationTimers` | src/simulation.cpp:229-250 | The remeshing timer is charged once, and the collision timer only when collision response runs. No other timer moves. Without collision response, the result is exactly the settled cloths. |
| `Pipeline.BlendFactor` | src/simulation.cpp:350-360 | In non-rigid mode the factor times the steps of the current regime (`init_frame_steps`, else `frame_steps`) is 1. In rigid mode it is `step_time / (step_time + 0.1)`, which lies strictly between 0 and 1. |
| `Pipeline.FreshKeyframedObstacleNotReady` | src/obstacle.cpp:123-129 | A keyframed obstacle with a non-empty base, loaded with empty next and cache slots, is not ready for the in-window step that activates it, whatever files are on disk. |
| `Pipeline.LoadedKeyframesReady` | src/obstacle.cpp:82-86 | Next and cache slots loaded with at least as many nodes as the base make the activating step ready, in either mode and at any time. |
| `Pipeline.UpdateOne` | src/simulation.cpp:362-386 | One obstacle's turn: the query and blend of its kind, then the roll-back unless positions are kept. It fails only on a missing keyframe file. |
| `Pipeline.UpdatePrefix` | src/simulation.cpp:362-386 | The first `n` obstacles are updated in order. The update stops at the first failure and leaves the later obstacles as they were. |
| `Pipeline.UpdatePrefixStops` | src/simulation.cpp:362-386 | After a failed turn, no later obstacle is visited. |
| `Pipeline.UpdateObstaclesSpec` | src/simulation.cpp:349-387 | All obstacles updated with the blend factor of the mode. |
| `Pipeline.StagesSpec` | src/simulation.cpp:128-136 | Obstacles (positions kept only in non-rigid mode), then constraints, physics, plasticity, strain limiting and collision, in that order. Fails iff a keyframe file is missing. |
| `Pipeline.FrameSpec` | src/simulation.cpp:137-152 | The frame logic of the clock, then remeshing exactly when it says so. |
| `Pipeline.StepSpec` | src/simulation.cpp:125-154 | Tick, then the stages, then the frame logic. It fails only in the stages. |
| `Pipeline.StepOfParts` | src/simulation.cpp:125-154 | A step is its stages followed, on success, by the frame logic. |
| `Pipeline.StepClock` | src/simulation.cpp:125-154 | A successful step moves the clock exactly as `AdvanceClock`. A failed one only ticks. |
| `Pipeline.StepsClock` | src/simulation.cpp:120-123 | `n` successful steps move the clock as `n` rounds of `AdvanceClock`. |
| `Pipeline.RemeshingIgnoresCounters` | src/simulation.cpp:137-152 | Remeshing reads only time from the clock and never changes it, so running the frame counters first is harmless. |
| `Pipeline.HandleConstraintsPrefix` | src/simulation.cpp:158-161 | The constraints of the first `n + 1` handles are those of the first `n`, followed by handle `n`'s. |
| `Pipeline.RelaxSpec` | src/simulation.cpp:78-100 | Aborts unless every handle node is preserved. Otherwise it settles, remeshes as initialisation and settles again, resetting plasticity around that when creases are preserved. It then clears the crease flag, and switches remeshing off under a fixed high-resolution mesh. |
| `Pipeline.RelaxMeshes` | src/simulation.cpp:83-96 | The mesh work of a relaxation leaves the clock and the obstacles alone. |
| `Pipeline.RelaxFlags` | src/simulation.cpp:78-100 | Relaxation fails iff some handle node is not preserved, and then changes nothing. On success, creases are no longer preserved and remeshing stays enabled iff it was and the resolution is not fixed. No other setting changes. |
| `Pipeline.DisabledStagesAreNoOps` | src/simulation.cpp:181-283 | Every stage whose enable flag is off leaves meshes and timers unchanged. Without proximity enabled, asking for proximity changes nothing. |
| `Pipeline.RemeshUsesOneAlgorithm` | src/simulation.cpp:303-311 | With remeshing enabled, separation off, and neither the pop filter nor the restore of plastic residuals running (each is off or the call is initialising), each cloth of `remeshing_step`'s result is exactly `static_remesh` of it under a fixed high-resolution mesh and `dynamic_remesh` otherwise. The general per-cloth statement is `Simulations.RemeshAll`'s. |
| `Pipeline.RigidUpdatePrefix` | src/simulation.cpp:362-386 | In rigid mode no turn fails, and each obstacle is updated on its own. |
| `Pipeline.RollBackRestsObstacle` | src/simulation.cpp:377-385 | With positions not kept, each obstacle node ends at `x == x0` with `v == (x_blended - x0) / step_time`. |
| `Pipeline.RigidObstaclesEndWhereBlended` | src/simulation.cpp:377-385 | In rigid mode, the roll-back followed by the physics stage's integration puts every obstacle node where the motion and blend placed it. |
| `Simulations.StepMesh` | src/simulation.cpp:203-206 | Every node gets `x := x + v*dt`. Nothing else changes. |
| `Simulations.StepMeshes` | src/simulation.cpp:196-197 | `step_mesh` applied to every mesh of a list. |
| `Simulations.StepObstacles` | src/simulation.cpp:198-199 | Every obstacle's current slot is integrated over `dt`. Configurations and other slots are unchanged. |
| `Simulations.UpdateVelocities` | src/simulation.cpp:340-347 | The meshes become `Rederived` of the old ones: positions kept, velocities re-derived for the first `|xold|` flat nodes. |
| `Simulations.HandleConstraintsAt` | src/simulation.cpp:158-161 | The handles' constraints at `t`, in handle order. |
| `Simulations.RemeshAll` | src/simulation.cpp:303-311 | Each cloth is remeshed by the algorithm the fixed-resolution flag selects. |
| `Simulations.RestoreAll` | src/simulation.cpp:314-319 | Each cloth's plastic residuals are restored from its old mesh. |
| `Simulations.UpdateEach` | src/simulation.cpp:362-386 | The obstacles' states become `UpdatePrefix` of the old ones, stopping at the first missing keyframe file. |
| `Simulations.ValidateHandles` | src/simulation.cpp:102-112 | Returns none iff every handle node is preserved. Otherwise it returns the first handle and node, in order, that remeshing may delete. |
| `Simulations.ObstacleMeshes` | src/simulation.cpp:362-386 | The current slot of every obstacle. |
| `Simulations.RollBack` | src/simulation.cpp:377-385 | Each node of the current slot goes back to `x0`, keeping its displacement over the step as velocity. |
| `Simulations.ObstacleTurn` | src/simulation.cpp:362-386 | One obstacle's state becomes `UpdateOne` of its old state. |
| `Simulations.Simulation.GetConstraints` | src/simulation.cpp:156-168 | The constraints and timers are `ConstraintsOf` of the state. Nothing else changes. |
| `Simulations.Simulation.PhysicsStep` | src/simulation.cpp:181-201 | The new world is `PhysicsSpec` of the old one. |
| `Simulations.Simulation.PlasticityStep` | src/simulation.cpp:208-217 | The new world is `PlasticitySpec` of the old one. |
| `Simulations.Simulation.StrainLimitingStep` | src/simulation.cpp:219-227 | The new world is `StrainLimitingSpec` of the old one. |
| `Simulations.Simulation.CollisionStep` | src/simulation.cpp:269-279 | The new world is `CollisionSpec` of the old one. |
| `Simulations.Simulation.RemeshAndSeparateStep` | src/simulation.cpp:285-325 | The cloths and timers become `RemeshAndSeparate` of the old ones. |
| `Simulations.Simulation.RemeshingStep` | src/simulation.cpp:281-338 | The new world is `RemeshingSpec` of the old one. |
| `Simulations.Simulation.EquilibrationStep` | src/simulation.cpp:229-250 | The new world is `EquilibrationSpec` of the old one. |
| `Simulations.Simulation.UpdateObstacles` | src/simulation.cpp:349-387 | The obstacle states become `UpdatePrefix` with the mode's blend factor. The result is false iff a keyframe file is missing. |
| `Simulations.Simulation.RunStages` | src/simulation.cpp:128-136 | The new world and result are `StagesSpec` of the old world. |
| `Simulations.Simulation.FrameBoundary` | src/simulation.cpp:137-152 | The new world is `FrameSpec` of the old one. |
| `Simulations.Simulation.AdvanceStep` | src/simulation.cpp:125-154 | The new world and result are `StepSpec` of the old world. The settings are unchanged. |
| `Simulations.Simulation.AdvanceFrame` | src/simulation.cpp:120-123 | The new world and result are `frame_steps` rounds of `StepSpec`, ending at the first failure. |
| `Simulations.Simulation.SettleAndRemesh` | src/simulation.cpp:83-96 | The new world is `RelaxMeshes` of the old one. |
| `Simulations.Simulation.RelaxInitialState` | src/simulation.cpp:78-100 | The new world, settings and result are `RelaxSpec` of the old ones. |
| `RunPhysics.IsNumber` | src/runphysics.cpp:51-56 | True iff the string is non-empty and all decimal digits. |
| `RunPhysics.MeshPrefixFourDigits` | src/runphysics.cpp:80-87 | Meshes are saved iff there is an output directory and the frame is below 10000. The name is then `<out-dir>/` plus `cloth` in non-rigid mode, followed by exactly four digits that read back as the frame. |
| `RunPhysics.ResumeReadsRigidSavesOnly` | src/runphysics.cpp:209 | The file a resume reads equals the rigid save of that frame. It never equals a non-rigid save. |
| `RunPhysics.TransformPathsDistinct` | src/runphysics.cpp:96-97 | Distinct obstacle indices give distinct transform file names within a frame. |
| `RunPhysics.TransformWrites` | src/runphysics.cpp:89-100 | Nothing is written without an output directory or from frame 10000 on. Otherwise there is one file per obstacle `o`, named `%04dobs%02d.txt`, holding the identity when there is no motion and the motion's transform otherwise. |
| `RunPhysics.SaveObstacleTransforms` | src/runphysics.cpp:89-100 | Writes exactly `TransformWrites`. |
| `RunPhysics.TransformEach` | src/runphysics.cpp:91-98 | One file per obstacle, in obstacle order. |
| `RunPhysics.TransformWritesDistinct` | src/runphysics.cpp:89-100 | Within one save, no two transform files share a name. |
| `RunPhysics.SaveWritesShape` | src/runphysics.cpp:114-119 | Nothing is written without an output directory or from frame 10000 on. Otherwise the cloth meshes come first, then, in rigid mode only, one transform file per obstacle. |
| `RunPhysics.Save` | src/runphysics.cpp:114-119 | Writes exactly `SaveWrites` of the simulation. |
| `RunPhysics.Deltas` | src/runphysics.cpp:106-109 | Per module, the previous total plus the printed delta is the current total. |
| `RunPhysics.TimingColumnsTelescope` | src/runphysics.cpp:102-112 | Summed over all lines printed since the start, each module's column equals that module's total at the last call. |
| `RunPhysics.TimingLog.constructor` | src/runphysics.cpp:102-112 | Before the first line, `old_totals` is all zero and nothing is printed. |
| `RunPhysics.TimingLog.SaveTimings` | src/runphysics.cpp:102-112 | Without an open file nothing is printed. Otherwise it appends the delta line, `old_totals` becomes the totals, and the column sums stay equal to `old_totals`. |
| `RunPhysics.RigidSavesWholeFrames` | src/runphysics.cpp:136-148 | In a rigid run from `Clocks.Fresh` (step 0, frame 0, no ramp-up, no wait frames), step `j` saves iff `j % frame_steps == 0`. It then saves as frame `j / frame_steps`, with the clock a resume from that frame starts from. |
| `RunPhysics.FrameLimitStop` | src/runphysics.cpp:150-154 | With `num_frames = N`, a run from `Clocks.Fresh` (step 0, frame 0, no ramp-up, no wait frames) first reaches frame `N` at step `(N - 1) * frame_steps + 1` and no earlier. That step saves iff `frame_steps == 1`. |
| `RunPhysics.RampUpShiftsFrameLimit` | src/simulation.cpp:137-143 | With `frame_steps = 2`, `init_frame_steps = 3` and no wait frames, a rigid run from step 0 stays at frame 0 for steps 0-3, reaches frame 1 at step 4, and saves at that step. |
| `RunPhysics.RunArgs` | src/runphysics.cpp:162-182 | Fails iff there are 0 or more than 3 arguments. The scene is `args[0]`. The output directory is `args[1]` when there are two or more arguments. The frame count is the last argument's value when it is a numeral, and the default otherwise. |
| `RunPhysics.CopyFileEffect` | src/runphysics.cpp:227-236 | The copy succeeds iff the input exists or is the output. Then the output holds the input's contents, and no other path changes. |
| `RunPhysics.SelfCopyNeedsGuard` | src/runphysics.cpp:229-236 | Without the guard, copying a file onto itself deletes it and fails. With it, the file system is unchanged. |
| `RunPhysics.SimStep` | src/runphysics.cpp:121-155 | The world and success are `StepSpec` of the old world. The writes and the timing line happen exactly when `SavesAfter` holds on the new clock. The result is `Finished` iff `Finishes` holds. |
| `RunPhysics.SaveAndTest` | src/runphysics.cpp:136-154 | Saves, writing `SaveWrites` plus a timing line in rigid mode, iff `SavesAfter` holds. The result is `Finished` iff `Finishes` holds. The world is unchanged. |
| `RunPhysics.StartOutput` | src/runphysics.cpp:58-75 | The timing log is open iff the run is rigid with an output directory. Only then is the scene copied to `conf.json` and frame 0 saved. |
| `RunPhysics.ResumeQuery` | src/runphysics.cpp:202-208 | In non-rigid mode the obstacle is queried by frame, otherwise by time. It fails only on a missing keyframe file. |
| `RunPhysics.ResumeQueries` | src/runphysics.cpp:202-208 | The first `n` obstacles are queried in order, stopping at the first failure. |
| `RunPhysics.RigidResumeQueries` | src/runphysics.cpp:202-208 | In rigid mode every obstacle is queried at the resume time and nothing fails. |
| `RunPhysics.ResumeQueriesStop` | src/runphysics.cpp:202-208 | After a failed query no later obstacle is visited. |
| `RunPhysics.ResumeObstacles` | src/runphysics.cpp:202-208 | The obstacles' states and result are `ResumeQueries` of the old states. |
| `RunPhysics.FastForwardTo` | src/runphysics.cpp:199-201 | `frame = N`, `time = N * frame_time`, `step = N * frame_steps`. Everything else is unchanged. |
| `RunPhysics.InitResume` | src/runphysics.cpp:192-212 | The clock is `FastForward` to `atoi(args[1])`. Every obstacle is queried, as `ResumeQueries`, at the new time and frame. Cloths, timers and settings are unchanged. The cloth is read from `<args[0]>/%04d`. |
| `RunPhysics.ResumePhysics` | src/runphysics.cpp:214-223 | With other than two arguments it fails and changes nothing. With two, everything `InitResume` states holds: the clock is fast-forwarded to `atoi(args[1])`, the obstacles and the result are `ResumeQueries`, cloths and timers are unchanged, and the cloth is read from `<args[0]>/%04d`. |

## Left out

- `src/display.cpp` (OpenGL rendering, input handling) is not part of this model. It is interactive I/O.
- The numerical solvers are opaque functions of an `Env` parameter, as the program sees them through their interfaces. These are `implicit_update`, `collision_response`, `dynamic_remesh`, `static_remesh`, `plastic_update`, `strain_limiting`, `proximity_constraints`, `separate`, `apply_pop_filter`, `nearest_obstacle_planes`, `reset_plasticity` and `optimize_plastic_embedding`. A further opaque function, `equilibrate`, stands for the per-cloth work of `equilibration_step` (src/simulation.cpp:233-238): zeroing every node's acceleration, then `apply_pop_filter(cloth, {}, 1)`. Accelerations are not part of the node model. The model assumes nothing about them except, where `update_velocities` follows, that strain limiting and collision response keep each mesh's node count; `update_velocities` would read past the last node otherwise.
- Spline math (`get_dtrans`, `get_trans`, `apply_dtrans`, `inverse`) and `compute_ws_data` are not modelled. A motion is four independent uninterpreted functions holding their results: the placed position and the velocity from `apply_dtrans(get_dtrans(spline, t), p, &v)`, the relative map `get_trans(t) * inverse(get_trans(t - dt))`, and the saved transformation `get_dtrans(spline, t).first`. Nothing relates one to another.
- File I/O (`load_json`, `load_obj`, `load_objs`, `save_objs`, `save_transformation`, `ensure_existing_directory`, the `fstream` existence check) is not performed. Saves are returned as `Write` values. Keyframe files are a map from path to mesh. A resume returns the path its cloth would be loaded from.
- `init_physics` loading the scene, `prepare`, `compute_masses` and `separate_obstacles` are not modelled. A `Simulation` is constructed in its loaded state. Saving the obstacles' base meshes under `<out-dir>/obs` is left out with the other file writes.
- The timing file is opened in append mode on a reload. The model's log starts empty for each open.
- `delete_constraints` only frees memory. Constraint lists are values here, so there is nothing to free.
- Wall-clock timing (`tick`/`tock`) is replaced by given per-module costs in `Env`. The `fps` timer and all console output (`printf`, `cout`) are left out.
- OpenMP `parallel for` loops are modelled as sequential loops.
- Floating point is modelled as exact `real` arithmetic. Rounding in `x += v*dt`, the blends and the re-derived velocities is not captured.
- `exit` and `abort` are modelled as a `false`, `None` or `Failed` result. On a missing keyframe file the process ends; here the remaining obstacles are left as they were.
- `offline_loop` (src/runphysics.cpp:157-160) loops forever and the process ends inside `sim_step`. Only terminating loops are written here, so a run is a sequence of `SimStep` calls, and the lemmas about `Run` state where that sequence stops.
- `MeshIndex.GetIndex` and `MeshIndex.StoredAt` model the source's pointer identity `p == ps[p->index]` as `==` on `P`. That is exact when `P` is a reference type, as the source's primitives are. For a value type, an equal value at the same index in an earlier mesh would match first, where the source would not match it.
- `DEFAULT_NUM_FRAMES`, `end_time` and `end_frame` come from headers and configuration that are not part of this model. They are parameters.
- The header files `simulation.hpp`, `obstacle.hpp` and `runphysics.hpp` are not part of this model. The module order of the timers is taken from src/simulation.cpp:45-52.
- `strainzeroing_step` (src/simulation.cpp:252-267) is never called from `advance_step` and is left out.
- `Format.Atoi` does not model overflow of `atoi` or of `int` counters, which is undefined in C. Counters are unbounded.
- `Simulations.Simulation.UpdateObstacles` requires, in non-rigid mode, that after each obstacle's query its next and cache slots hold a node per current node (`ReadyFor`, `AllReady`). So does every method that steps: `AdvanceStep`, `AdvanceFrame` and `SimStep`. The query that activates an obstacle loads no keyframe (src/obstacle.cpp:82-86). If the loader left the next and cache slots empty, the step that activates a keyframed obstacle with a non-empty base is therefore not covered (`Pipeline.FreshKeyframedObstacleNotReady`). In the source, `blend_with_next` then reads past the ends of those meshes (src/obstacle.cpp:127), which is undefined behaviour. The step is covered when the loader fills those slots with enough nodes (`Pipeline.LoadedKeyframesReady`).
- The scene loader `load_json` is not part of this model. The constructors stand for the state it leaves. `Obstacles.Obstacle.constructor` takes the base mesh and the next and cache meshes as loaded, with an empty current slot, `activated` false and `curr_frame` -1. `Simulations.Simulation.constructor` takes the clock, flags, meshes and obstacles as given, with every module timer at zero. Neither has a row above, because neither models lines of the source.
- `RunPhysics.TimingLog.SaveTimings`: with no open timing file, the model leaves `old_totals` alone. In the source a never-opened `fstream` still tests good on the first call (src/runphysics.cpp:43, 104), so that call overwrites `old_totals` and writes nothing, and later calls return early. Nothing is printed either way, and `old_totals` is only read to print.
