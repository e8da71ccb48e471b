/**
 * The step pipeline of src/simulation.cpp, stated on values. A `World` is what
 * one step changes (clock, cloth meshes, obstacle states, module timers); a
 * `Settings` value is what the step only reads. Each stage of `advance_step`
 * is a function from world to world; `StepSpec` composes them in the order the
 * source runs them. The solvers the stages call, the keyframe files on disk and
 * the durations the wall-clock timers would measure come in through `Env`.
 */
module Pipeline {
  import opened Wrappers
  import opened Geometry
  import opened MeshIndex
  import opened Clocks
  import opened Obstacles

  /** Indices of the per-module enable flags and timers (src/simulation.cpp:45-52). */
  const Proximity := 0
  const Physics := 1
  const StrainLimiting := 2
  const Collision := 3
  const Remeshing := 4
  const Separation := 5
  const PopFilter := 6
  const Plasticity := 7
  const NModules := 8

  /** A constraint; its contents belong to the solvers. */
  datatype Constraint = Constraint(tag: int)

  /**
   * A handle: the `preserve` flags of the nodes it constrains, and the
   * constraints it contributes at a given time.
   */
  datatype Handle = Handle(preserve: seq<bool>, constraintsAt: real -> seq<Constraint>)

  /**
   * The numerical solvers, which the core calls but does not define. Each is
   * given the meshes it reads and returns the meshes it writes.
   */
  datatype Solvers = Solvers(
    physics: (Mesh, seq<Constraint>, real, real) -> Mesh,
    plastic: Mesh -> Mesh,
    strainLimit: (seq<Mesh>, seq<Constraint>) -> seq<Mesh>,
    collide: (seq<Mesh>, seq<Constraint>, seq<Mesh>) -> seq<Mesh>,
    proximity: (seq<Mesh>, seq<Mesh>) -> seq<Constraint>,
    staticRemesh: Mesh -> Mesh,
    dynamicRemesh: (Mesh, seq<Mesh>, bool) -> Mesh,
    restoreResiduals: (Mesh, Mesh) -> Mesh,
    separate: (seq<Mesh>, seq<Mesh>, seq<Mesh>) -> seq<Mesh>,
    popFilter: (Mesh, seq<Constraint>) -> Mesh,
    resetPlasticity: Mesh -> Mesh,
    equilibrate: Mesh -> Mesh)

  /**
   * Strain limiting and collision response move nodes but neither add nor
   * remove any: `update_velocities` afterwards reads node `n` of the new meshes
   * for every `n` below the old node count.
   */
  ghost predicate ShapePreserving(sv: Solvers)
  {
    && (forall ms, cons :: Shape(sv.strainLimit(ms, cons)) == Shape(ms))
    && (forall ms, cons, obs :: Shape(sv.collide(ms, cons, obs)) == Shape(ms))
  }

  /**
   * What lies outside the core: the solvers, the keyframe files (path to
   * geometry) and, per module, the duration one timed section adds to its timer.
   */
  datatype Env = Env(solvers: Solvers, files: map<string, Mesh>, costs: seq<real>)

  ghost predicate ValidEnv(env: Env)
  {
    && ShapePreserving(env.solvers)
    && |env.costs| == NModules
    && forall k :: 0 <= k < NModules ==> env.costs[k] >= 0.0
  }

  datatype World = World(clock: Clock, cloths: seq<Mesh>, obs: seq<ObstacleState>, timers: seq<real>)

  datatype Settings = Settings(
    cadence: Cadence,
    nonRigid: bool,
    enabled: seq<bool>,
    handles: seq<Handle>,
    preserveCreases: bool,
    fixedHighResMesh: bool,
    obsCfgs: seq<ObstacleConfig>)

  /** A world the settings describe, with positive step and frame durations. */
  ghost predicate Fits(w: World, st: Settings)
  {
    && |w.timers| == NModules
    && |st.enabled| == NModules
    && |w.obs| == |st.obsCfgs|
    && st.cadence.Valid()
    && st.cadence.frameTime > 0.0
    && w.clock.stepTime > 0.0
    && forall o :: 0 <= o < |w.obs| ==> Inv(w.obs[o])
  }

  /** One timed section of module `k`: `tick` ... `tock`. */
  function Charge(timers: seq<real>, k: nat, costs: seq<real>): (r: seq<real>)
    requires k < |timers| && k < |costs|
    ensures |r| == |timers|
  {
    timers[k := timers[k] + costs[k]]
  }

  /** The current slot of every obstacle: `sim.obstacle_meshes`. */
  function MeshesOf(obs: seq<ObstacleState>): (ms: seq<Mesh>)
    ensures |ms| == |obs|
    ensures forall o :: 0 <= o < |obs| ==> ms[o] == obs[o].curr
  {
    seq(|obs|, o requires 0 <= o < |obs| => obs[o].curr)
  }

  /** `f` applied to every mesh. */
  function MapMeshes(ms: seq<Mesh>, f: Mesh -> Mesh): (r: seq<Mesh>)
    ensures |r| == |ms|
    ensures forall c :: 0 <= c < |ms| ==> r[c] == f(ms[c])
  {
    seq(|ms|, c requires 0 <= c < |ms| => f(ms[c]))
  }

  /** `f` applied to every mesh and its counterpart in `olds`. */
  function ZipMeshes(ms: seq<Mesh>, olds: seq<Mesh>, f: (Mesh, Mesh) -> Mesh): (r: seq<Mesh>)
    requires |olds| == |ms|
    ensures |r| == |ms|
    ensures forall c :: 0 <= c < |ms| ==> r[c] == f(ms[c], olds[c])
  {
    seq(|ms|, c requires 0 <= c < |ms| => f(ms[c], olds[c]))
  }

  /** The constraints of the handles at time `t`, handle by handle, in order. */
  function HandleConstraints(handles: seq<Handle>, t: real): seq<Constraint>
  {
    if handles == [] then []
    else HandleConstraints(handles[..|handles| - 1], t) + handles[|handles| - 1].constraintsAt(t)
  }

  /**
   * `get_constraints` (lines 156-168): the handles' constraints followed, when
   * asked for and enabled, by the proximity constraints, whose detection is
   * timed under the proximity timer. Returns the constraints and the timers.
   */
  function ConstraintsOf(w: World, st: Settings, env: Env, includeProximity: bool): (r: (seq<Constraint>, seq<real>))
    requires Fits(w, st) && ValidEnv(env)
    ensures |r.1| == NModules
    ensures |HandleConstraints(st.handles, w.clock.time)| <= |r.0|
    ensures r.0[..|HandleConstraints(st.handles, w.clock.time)|] == HandleConstraints(st.handles, w.clock.time)
    ensures forall k :: 0 <= k < NModules && k != Proximity ==> r.1[k] == w.timers[k]
    ensures !(includeProximity && st.enabled[Proximity]) ==> r == (HandleConstraints(st.handles, w.clock.time), w.timers)
  {
    var hs := HandleConstraints(st.handles, w.clock.time);
    if includeProximity && st.enabled[Proximity] then
      (hs + env.solvers.proximity(w.cloths, MeshesOf(w.obs)), Charge(w.timers, Proximity, env.costs))
    else
      (hs, w.timers)
  }

  /** The position of every node, in flat order: `node_positions`. */
  function FlatPositions(meshes: seq<Mesh>): (xs: seq<Vec3>)
    ensures |xs| == |AllNodes(meshes)|
    ensures forall n :: 0 <= n < |xs| ==> xs[n] == AllNodes(meshes)[n].x
  {
    seq(|AllNodes(meshes)|, n requires 0 <= n < |AllNodes(meshes)| => AllNodes(meshes)[n].x)
  }

  /** Flat nodes below `limit` (and below `|xold|`) with re-derived velocities. */
  function RederivedUpTo(flat: seq<Node>, xold: seq<Vec3>, dt: real, limit: int): (r: seq<Node>)
    requires dt != 0.0
    ensures |r| == |flat|
    ensures forall n :: 0 <= n < |flat| ==>
      r[n] == if n < limit && n < |xold| then RederiveNode(flat[n], xold[n], dt) else flat[n]
  {
    seq(|flat|, n requires 0 <= n < |flat| =>
      if n < limit && n < |xold| then RederiveNode(flat[n], xold[n], dt) else flat[n])
  }

  /**
   * `update_velocities(meshes, xold, dt)` (lines 340-347) on values: the meshes
   * with the `n`-th flat node's velocity re-derived from `xold[n]`.
   */
  function Rederived(meshes: seq<Mesh>, xold: seq<Vec3>, dt: real): (r: seq<Mesh>)
    requires dt != 0.0
    ensures Shape(r) == Shape(meshes)
    ensures AllNodes(r) == RederivedUpTo(AllNodes(meshes), xold, dt, |xold|)
  {
    AllNodesTotal(meshes);
    Unflatten(Shape(meshes), RederivedUpTo(AllNodes(meshes), xold, dt, |xold|))
  }

  /**
   * After `update_velocities`, every node below the old count keeps its
   * position and its velocity has changed by exactly its displacement over the
   * stage divided by `dt`.
   */
  lemma RederivedMatchesDisplacement(meshes: seq<Mesh>, xold: seq<Vec3>, dt: real, n: nat)
    requires dt != 0.0 && n < |xold| && n < |AllNodes(meshes)|
    ensures AllNodes(Rederived(meshes, xold, dt))[n].x == AllNodes(meshes)[n].x
    ensures Scale(dt, Sub(AllNodes(Rederived(meshes, xold, dt))[n].v, AllNodes(meshes)[n].v))
      == Sub(AllNodes(meshes)[n].x, xold[n])
  {
    RederiveMatchesDisplacement(AllNodes(meshes)[n], xold[n], dt);
  }

  /** `physics_step` (lines 181-201): implicit update of every cloth, then explicit integration of all meshes. */
  function PhysicsSpec(w: World, st: Settings, env: Env, cons: seq<Constraint>): (r: World)
    requires Fits(w, st) && ValidEnv(env)
    ensures Fits(r, st) && r.clock == w.clock
  {
    if !st.enabled[Physics] then w
    else
      var dt := w.clock.stepTime;
      var solved := MapMeshes(w.cloths, m => env.solvers.physics(m, cons, w.clock.time, dt));
      w.(cloths := MapMeshes(solved, m => Drifted(m, dt)),
         obs := seq(|w.obs|, o requires 0 <= o < |w.obs| => w.obs[o].(curr := Drifted(w.obs[o].curr, dt))),
         timers := Charge(w.timers, Physics, env.costs))
  }

  /** `plasticity_step` (lines 208-217). */
  function PlasticitySpec(w: World, st: Settings, env: Env): (r: World)
    requires Fits(w, st) && ValidEnv(env)
    ensures Fits(r, st) && r.clock == w.clock && r.obs == w.obs
  {
    if !st.enabled[Plasticity] then w
    else w.(cloths := MapMeshes(w.cloths, env.solvers.plastic), timers := Charge(w.timers, Plasticity, env.costs))
  }

  /** `strainlimiting_step` (lines 219-227): strain limiting, then velocities re-derived from the moves. */
  function StrainLimitingSpec(w: World, st: Settings, env: Env, cons: seq<Constraint>): (r: World)
    requires Fits(w, st) && ValidEnv(env)
    ensures Fits(r, st) && r.clock == w.clock && r.obs == w.obs
    ensures Shape(r.cloths) == Shape(w.cloths)
  {
    if !st.enabled[StrainLimiting] then w
    else
      var xold := FlatPositions(w.cloths);
      var limited := env.solvers.strainLimit(w.cloths, cons);
      w.(cloths := Rederived(limited, xold, w.clock.stepTime), timers := Charge(w.timers, StrainLimiting, env.costs))
  }

  /** `collision_step` (lines 269-279): collision response, then velocities re-derived from the moves. */
  function CollisionSpec(w: World, st: Settings, env: Env): (r: World)
    requires Fits(w, st) && ValidEnv(env)
    ensures Fits(r, st) && r.clock == w.clock && r.obs == w.obs
    ensures Shape(r.cloths) == Shape(w.cloths)
  {
    if !st.enabled[Collision] then w
    else
      var xold := FlatPositions(w.cloths);
      var cons := ConstraintsOf(w, st, env, false).0;
      var resolved := env.solvers.collide(w.cloths, cons, MeshesOf(w.obs));
      w.(cloths := Rederived(resolved, xold, w.clock.stepTime), timers := Charge(w.timers, Collision, env.costs))
  }

  /** The remeshing algorithm of lines 303-311, chosen by the fixed-resolution flag. */
  function RemeshOne(st: Settings, env: Env, obsMeshes: seq<Mesh>): Mesh -> Mesh
    requires |st.enabled| == NModules
  {
    if st.fixedHighResMesh then env.solvers.staticRemesh
    else m => env.solvers.dynamicRemesh(m, obsMeshes, st.enabled[Plasticity])
  }

  /**
   * Lines 285-325 of `remeshing_step`: remesh every cloth, with plastic
   * residuals carried over when plasticity is enabled and not initializing,
   * then separation from the pre-remeshing meshes when enabled.
   */
  function RemeshAndSeparate(w: World, st: Settings, env: Env, initializing: bool): (r: World)
    requires Fits(w, st) && ValidEnv(env)
    ensures Fits(r, st) && r.clock == w.clock && r.obs == w.obs
  {
    var olds := w.cloths;
    var obsMeshes := MeshesOf(w.obs);
    var residuals := st.enabled[Plasticity] && !initializing;
    var t1 := if residuals then Charge(w.timers, Plasticity, env.costs) else w.timers;
    var remeshed := MapMeshes(olds, RemeshOne(st, env, obsMeshes));
    var t2 := Charge(t1, Remeshing, env.costs);
    var restored := if residuals then ZipMeshes(remeshed, olds, env.solvers.restoreResiduals) else remeshed;
    var t3 := if residuals then Charge(t2, Plasticity, env.costs) else t2;
    var separated := if st.enabled[Separation] then env.solvers.separate(restored, olds, obsMeshes) else restored;
    var t4 := if st.enabled[Separation] then Charge(t3, Separation, env.costs) else t3;
    w.(cloths := separated, timers := t4)
  }

  /**
   * `remeshing_step(sim, initializing)` (lines 281-338): when enabled, remesh
   * and separate, then apply the pop filter under fresh constraints when not
   * initializing.
   */
  function RemeshingSpec(w: World, st: Settings, env: Env, initializing: bool): (r: World)
    requires Fits(w, st) && ValidEnv(env)
    ensures Fits(r, st) && r.clock == w.clock && r.obs == w.obs
  {
    if !st.enabled[Remeshing] then w
    else
      var w4 := RemeshAndSeparate(w, st, env, initializing);
      if st.enabled[PopFilter] && !initializing then
        var (cons, t5) := ConstraintsOf(w4, st, env, true);
        w4.(cloths := MapMeshes(w4.cloths, m => env.solvers.popFilter(m, cons)),
            timers := Charge(t5, PopFilter, env.costs))
      else
        w4
  }

  /** `equilibration_step` (lines 229-250): settle every cloth, then collision response without velocity update. */
  function EquilibrationSpec(w: World, st: Settings, env: Env): (r: World)
    requires Fits(w, st) && ValidEnv(env)
    ensures Fits(r, st) && r.clock == w.clock && r.obs == w.obs
  {
    var settled := MapMeshes(w.cloths, env.solvers.equilibrate);
    var t1 := Charge(w.timers, Remeshing, env.costs);
    var w1 := w.(cloths := settled, timers := t1);
    if st.enabled[Collision] then
      var cons := ConstraintsOf(w1, st, env, false).0;
      w1.(cloths := env.solvers.collide(settled, cons, MeshesOf(w.obs)), timers := Charge(t1, Collision, env.costs))
    else
      w1
  }

  /**
   * Equilibration settles every cloth under the remeshing timer and charges the
   * collision timer only when collision response runs; no other timer moves,
   * and without collision response the settled cloths are the result.
   */
  lemma EquilibrationTimers(w: World, st: Settings, env: Env)
    requires Fits(w, st) && ValidEnv(env)
    ensures var r := EquilibrationSpec(w, st, env);
      && r.timers[Remeshing] == w.timers[Remeshing] + env.costs[Remeshing]
      && r.timers[Collision] == w.timers[Collision] + (if st.enabled[Collision] then env.costs[Collision] else 0.0)
      && (forall k :: 0 <= k < NModules && k != Remeshing && k != Collision ==> r.timers[k] == w.timers[k])
      && (!st.enabled[Collision] ==> r.cloths == MapMeshes(w.cloths, env.solvers.equilibrate))
  {
  }

  /**
   * The blend factor of `update_obstacles` (lines 350-360): one over the steps
   * of the current regime for keyframed obstacles, and `b / (1 + b)` with
   * `b = step_time / 0.1` for rigid ones.
   */
  function Blend(st: Settings, c: Clock): real
    requires st.cadence.Valid() && c.stepTime > 0.0
  {
    if st.nonRigid then 1.0 / (if c.initFrameSteps != 0 then c.initFrameSteps else st.cadence.frameSteps) as real
    else
      var b := c.stepTime / 0.1;
      b / (1.0 + b)
  }

  lemma BlendFactor(st: Settings, c: Clock)
    requires st.cadence.Valid() && c.stepTime > 0.0
    ensures st.nonRigid && c.initFrameSteps != 0 ==> Blend(st, c) * c.initFrameSteps as real == 1.0
    ensures st.nonRigid && c.initFrameSteps == 0 ==> Blend(st, c) * st.cadence.frameSteps as real == 1.0
    ensures !st.nonRigid ==> 0.0 < Blend(st, c) < 1.0
    ensures !st.nonRigid ==> Blend(st, c) == c.stepTime / (c.stepTime + 0.1)
  {
    if !st.nonRigid {
      var b := c.stepTime / 0.1;
      assert b > 0.0;
      assert b / (1.0 + b) < 1.0;
      assert b / (1.0 + b) * (c.stepTime + 0.1) == c.stepTime;
    }
  }

  /** Whether keyframed obstacles move this step (lines 363-372). */
  predicate KeyframesMove(c: Clock)
  {
    c.initWaitFrames == 0 || c.step <= c.initFrameSteps
  }

  /**
   * `blend_with_next` after the keyframe query reads one next and one cache
   * node per current node: the keyframes on disk must be large enough.
   */
  predicate ReadyFor(s: ObstacleState, cfg: ObstacleConfig, st: Settings, c: Clock, files: map<string, Mesh>)
    requires Inv(s)
  {
    st.nonRigid && KeyframesMove(c) ==>
      var (s', ok) := GetMeshFrameSpec(s, cfg, c.time, c.frame, files);
      ok ==> BlendReady(s')
  }

  /**
   * A keyframed obstacle loaded with empty next and cache slots is not ready
   * for the step that activates it: the activation loads no keyframe, and
   * `blend_with_next` then reads one next and one cache node per base node
   * (src/obstacle.cpp:82-86 and 123-129), whatever files are on disk.
   */
  lemma FreshKeyframedObstacleNotReady(b: Mesh, cfg: ObstacleConfig, st: Settings, c: Clock,
                                       files: map<string, Mesh>)
    requires |b.nodes| > 0 && st.nonRigid && KeyframesMove(c)
    requires InWindow(cfg.startTime, cfg.endTime, c.time)
    ensures !ReadyFor(ObstacleState(b, Released, Released, Released, false, -1), cfg, st, c, files)
  {
  }

  /**
   * Next and cache slots loaded with at least as many nodes as the base make
   * the activating step ready, in either mode and at any time.
   */
  lemma LoadedKeyframesReady(b: Mesh, next: Mesh, cache: Mesh, cfg: ObstacleConfig, st: Settings, c: Clock,
                             files: map<string, Mesh>)
    requires |next.nodes| >= |b.nodes| && |cache.nodes| >= |b.nodes|
    ensures ReadyFor(ObstacleState(b, Released, next, cache, false, -1), cfg, st, c, files)
  {
  }

  /**
   * One obstacle's turn in `update_obstacles` (lines 362-386): the query and
   * blend of its kind, then, when positions are not to be kept, the roll-back to
   * rest positions with the displacement kept as velocity. False when its
   * keyframe file is missing.
   */
  function UpdateOne(s: ObstacleState, cfg: ObstacleConfig, st: Settings, c: Clock, blend: real,
                     files: map<string, Mesh>, updatePositions: bool): (r: (ObstacleState, bool))
    requires Inv(s) && c.stepTime > 0.0 && ReadyFor(s, cfg, st, c, files)
    ensures Inv(r.0)
  {
    var (s1, ok) :=
      if !st.nonRigid then
        var s' := GetMeshAtSpec(s, cfg, c.time);
        (s'.(curr := BlendedWithPrevious(s'.curr, cfg.spline, c.time, c.stepTime, blend)), true)
      else if KeyframesMove(c) then
        var (s', ok') := GetMeshFrameSpec(s, cfg, c.time, c.frame, files);
        if !ok' then (s', false)
        else (s'.(curr := BlendedWithNext(s'.curr, s'.next, s'.cache, blend)), true)
      else
        (s, true);
    if ok && !updatePositions then (s1.(curr := RolledBack(s1.curr, c.stepTime)), true) else (s1, ok)
  }

  ghost predicate AllReady(obs: seq<ObstacleState>, st: Settings, c: Clock, files: map<string, Mesh>)
  {
    && |obs| == |st.obsCfgs|
    && (forall o :: 0 <= o < |obs| ==> Inv(obs[o]))
    && forall o :: 0 <= o < |obs| ==> ReadyFor(obs[o], st.obsCfgs[o], st, c, files)
  }

  /**
   * The first `n` obstacles updated in order; the source exits at the first
   * missing keyframe file, so the obstacles after it are left as they were.
   */
  function UpdatePrefix(obs: seq<ObstacleState>, st: Settings, c: Clock, files: map<string, Mesh>,
                        updatePositions: bool, n: nat): (r: (seq<ObstacleState>, bool))
    requires AllReady(obs, st, c, files) && n <= |obs| && st.cadence.Valid() && c.stepTime > 0.0
    ensures |r.0| == |obs|
    ensures forall o :: 0 <= o < |obs| ==> Inv(r.0[o])
    ensures forall o :: n <= o < |obs| ==> r.0[o] == obs[o]
  {
    if n == 0 then (obs, true)
    else
      var (ps, ok) := UpdatePrefix(obs, st, c, files, updatePositions, n - 1);
      if !ok then (ps, false)
      else
        var (s', ok') := UpdateOne(ps[n - 1], st.obsCfgs[n - 1], st, c, Blend(st, c), files, updatePositions);
        (ps[n - 1 := s'], ok')
  }

  /** `update_obstacles(sim, update_positions)` on the world. */
  function UpdateObstaclesSpec(w: World, st: Settings, files: map<string, Mesh>, updatePositions: bool): (r: (World, bool))
    requires Fits(w, st) && AllReady(w.obs, st, w.clock, files)
    ensures Fits(r.0, st) && r.0.clock == w.clock && r.0.cloths == w.cloths && r.0.timers == w.timers
  {
    var (obs, ok) := UpdatePrefix(w.obs, st, w.clock, files, updatePositions, |w.obs|);
    (w.(obs := obs), ok)
  }

  /** What one step needs: a world that fits and keyframes that fit the obstacles. */
  ghost predicate StepDefined(w: World, st: Settings, env: Env)
  {
    && Fits(w, st)
    && ValidEnv(env)
    && AllReady(w.obs, st, Tick(w.clock), env.files)
  }

  /**
   * Lines 128-136 of `advance_step`, after the clock has ticked: update the
   * obstacles, collect the constraints, run physics, plasticity, strain
   * limiting and collision. False when an obstacle's keyframe file is missing.
   */
  function StagesSpec(w: World, st: Settings, env: Env): (r: (World, bool))
    requires Fits(w, st) && ValidEnv(env) && AllReady(w.obs, st, w.clock, env.files)
    ensures Fits(r.0, st) && r.0.clock == w.clock
  {
    var (w2, ok) := UpdateObstaclesSpec(w, st, env.files, st.nonRigid);
    if !ok then (w2, false)
    else
      var (cons, t) := ConstraintsOf(w2, st, env, true);
      var w3 := w2.(timers := t);
      var w4 := PhysicsSpec(w3, st, env, cons);
      var w5 := PlasticitySpec(w4, st, env);
      var w6 := StrainLimitingSpec(w5, st, env, cons);
      (CollisionSpec(w6, st, env), true)
  }

  /**
   * Lines 137-152 of `advance_step`: the frame logic, and remeshing when it
   * says so. Remeshing reads neither the frame nor the wait counter nor the
   * step size, so running the whole frame logic before it is the source's
   * order (`RemeshingIgnoresCounters`).
   */
  function FrameSpec(w: World, st: Settings, env: Env): (r: World)
    requires Fits(w, st) && ValidEnv(env)
    ensures Fits(r, st) && r.clock == FrameLogic(w.clock, st.cadence).0
  {
    var (c, remesh) := FrameLogic(w.clock, st.cadence);
    var w8 := w.(clock := c);
    if remesh then RemeshingSpec(w8, st, env, false) else w8
  }

  /**
   * `advance_step` (lines 125-154) on the world: tick the clock, run the
   * stages, then the frame logic. False when an obstacle's keyframe file is
   * missing.
   */
  function StepSpec(w: World, st: Settings, env: Env): (r: (World, bool))
    requires StepDefined(w, st, env)
    ensures Fits(r.0, st)
  {
    var (w7, ok) := StagesSpec(w.(clock := Tick(w.clock)), st, env);
    if !ok then (w7, false) else (FrameSpec(w7, st, env), true)
  }

  /** A step is its stages followed, when they succeed, by the frame logic. */
  lemma StepOfParts(w: World, st: Settings, env: Env, w7: World, ok: bool)
    requires StepDefined(w, st, env)
    requires (w7, ok) == StagesSpec(w.(clock := Tick(w.clock)), st, env)
    ensures StepSpec(w, st, env) == if ok then (FrameSpec(w7, st, env), true) else (w7, false)
  {
  }

  /**
   * One step as a function of the world; where a step is not defined the
   * result is never used (every use requires `StepsDefined`).
   */
  ghost function StepFn(st: Settings, env: Env): World -> (World, bool)
  {
    w => if StepDefined(w, st, env) then StepSpec(w, st, env) else (w, false)
  }

  /** `n` rounds of `f`, stopping at the first that fails. */
  ghost function Iterate(f: World -> (World, bool), w: World, n: nat): (World, bool)
  {
    if n == 0 then (w, true)
    else
      var (w', ok) := Iterate(f, w, n - 1);
      if !ok then (w', false) else f(w')
  }

  /** Step `k + 1` has what it needs, if it is reached. */
  ghost predicate DefinedAt(w: World, st: Settings, env: Env, k: nat)
  {
    Iterate(StepFn(st, env), w, k).1 ==> StepDefined(Iterate(StepFn(st, env), w, k).0, st, env)
  }

  /** What `n` steps need: every step that is reached has what it needs. */
  ghost predicate StepsDefined(w: World, st: Settings, env: Env, n: nat)
  {
    forall k :: 0 <= k < n ==> DefinedAt(w, st, env, k)
  }

  /** `n` steps of `advance_step`, stopping at the first failed one. */
  ghost function Steps(w: World, st: Settings, env: Env, n: nat): (World, bool)
    requires StepsDefined(w, st, env, n)
  {
    Iterate(StepFn(st, env), w, n)
  }

  /** The first `n` handles' constraints are a prefix of all of them. */
  lemma HandleConstraintsPrefix(handles: seq<Handle>, t: real, n: nat)
    requires n < |handles|
    ensures HandleConstraints(handles[..n + 1], t) == HandleConstraints(handles[..n], t) + handles[n].constraintsAt(t)
  {
    assert handles[..n + 1][..n] == handles[..n];
  }

  /** No handle constrains a node that remeshing may delete. */
  predicate AllPreserved(handles: seq<Handle>)
  {
    forall h, n :: 0 <= h < |handles| && 0 <= n < |handles[h].preserve| ==> handles[h].preserve[n]
  }

  /**
   * `relax_initial_state` (lines 78-100) on the world and the settings: abort
   * unless every handle node is preserved; otherwise equilibrate, remesh as
   * initialisation, equilibrate again, with plasticity reset before and after
   * when creases are to be preserved; finally the crease flag is cleared and
   * remeshing is switched off under a fixed high-resolution mesh. The else
   * branch of lines 88-93 is dead (`equilibrate` is the constant true) and has
   * no counterpart here. False when the source aborts.
   */
  function RelaxSpec(w: World, st: Settings, env: Env): (r: (World, Settings, bool))
    requires Fits(w, st) && ValidEnv(env)
    ensures Fits(r.0, r.1)
  {
    if !AllPreserved(st.handles) then (w, st, false)
    else
      var enabled := if st.fixedHighResMesh then st.enabled[Remeshing := false] else st.enabled;
      (RelaxMeshes(w, st, env), st.(preserveCreases := false, enabled := enabled), true)
  }

  /**
   * The mesh work of a relaxation whose handles are all preserved (lines
   * 83-96): settle, remesh as initialisation, settle again, with the
   * plasticity reset before and after when creases are to be preserved. The
   * clock and the obstacles are left alone.
   */
  function RelaxMeshes(w: World, st: Settings, env: Env): (r: World)
    requires Fits(w, st) && ValidEnv(env)
    ensures Fits(r, st) && r.clock == w.clock && r.obs == w.obs
  {
    var w1 := if st.preserveCreases then w.(cloths := MapMeshes(w.cloths, env.solvers.resetPlasticity)) else w;
    var w2 := EquilibrationSpec(w1, st, env);
    var w3 := RemeshingSpec(w2, st, env, true);
    var w4 := EquilibrationSpec(w3, st, env);
    if st.preserveCreases then w4.(cloths := MapMeshes(w4.cloths, env.solvers.resetPlasticity)) else w4
  }

  /**
   * After a successful relaxation creases are no longer preserved, remeshing
   * stays enabled exactly when it was and the mesh resolution is not fixed,
   * and no other flag or setting changes; it fails exactly when some handle
   * node is not preserved, and then changes nothing.
   */
  lemma RelaxFlags(w: World, st: Settings, env: Env)
    requires Fits(w, st) && ValidEnv(env)
    ensures var (w', st', ok) := RelaxSpec(w, st, env);
      && (ok <==> AllPreserved(st.handles))
      && (!ok ==> w' == w && st' == st)
      && (ok ==> && !st'.preserveCreases
                 && st'.enabled[Remeshing] == (st.enabled[Remeshing] && !st.fixedHighResMesh)
                 && (forall k :: 0 <= k < NModules && k != Remeshing ==> st'.enabled[k] == st.enabled[k])
                 && st' == st.(preserveCreases := false, enabled := st'.enabled)
                 && w'.clock == w.clock && w'.obs == w.obs)
  {
  }

  /** A stage whose enable flag is off changes nothing, timers included. */
  lemma DisabledStagesAreNoOps(w: World, st: Settings, env: Env, cons: seq<Constraint>, initializing: bool)
    requires Fits(w, st) && ValidEnv(env)
    ensures !st.enabled[Physics] ==> PhysicsSpec(w, st, env, cons) == w
    ensures !st.enabled[Plasticity] ==> PlasticitySpec(w, st, env) == w
    ensures !st.enabled[StrainLimiting] ==> StrainLimitingSpec(w, st, env, cons) == w
    ensures !st.enabled[Collision] ==> CollisionSpec(w, st, env) == w
    ensures !st.enabled[Remeshing] ==> RemeshingSpec(w, st, env, initializing) == w
    ensures !st.enabled[Proximity] ==> ConstraintsOf(w, st, env, true) == ConstraintsOf(w, st, env, false)
  {
  }

  /**
   * Remeshing runs exactly one algorithm on each cloth: the static one under a
   * fixed high-resolution mesh, the dynamic one (given the obstacle meshes)
   * otherwise. Shown with the stages after it switched off.
   */
  lemma RemeshUsesOneAlgorithm(w: World, st: Settings, env: Env, initializing: bool, c: nat)
    requires Fits(w, st) && ValidEnv(env) && c < |w.cloths|
    requires st.enabled[Remeshing] && !st.enabled[Separation] && !(st.enabled[PopFilter] && !initializing)
    requires !(st.enabled[Plasticity] && !initializing)
    ensures |RemeshingSpec(w, st, env, initializing).cloths| == |w.cloths|
    ensures RemeshingSpec(w, st, env, initializing).cloths[c]
      == if st.fixedHighResMesh then env.solvers.staticRemesh(w.cloths[c])
         else env.solvers.dynamicRemesh(w.cloths[c], MeshesOf(w.obs), st.enabled[Plasticity])
  {
  }

  /** A step moves the clock exactly as `AdvanceClock` says; a failed one only ticks it. */
  lemma StepClock(w: World, st: Settings, env: Env)
    requires StepDefined(w, st, env)
    ensures StepSpec(w, st, env).1 ==> StepSpec(w, st, env).0.clock == AdvanceClock(w.clock, st.cadence).0
    ensures !StepSpec(w, st, env).1 ==> StepSpec(w, st, env).0.clock == Tick(w.clock)
  {
  }

  /** Where a step is defined, `StepFn` is that step. */
  lemma StepFnIsStep(st: Settings, env: Env, w: World)
    requires StepDefined(w, st, env)
    ensures StepFn(st, env)(w) == StepSpec(w, st, env)
  {
  }

  /** Within `n` defined steps, a successful prefix is followed by one more step. */
  lemma StepsNext(w: World, st: Settings, env: Env, n: nat, k: nat)
    requires StepsDefined(w, st, env, n) && k < n && Iterate(StepFn(st, env), w, k).1
    ensures StepDefined(Iterate(StepFn(st, env), w, k).0, st, env)
    ensures Iterate(StepFn(st, env), w, k + 1) == StepSpec(Iterate(StepFn(st, env), w, k).0, st, env)
  {
    assert DefinedAt(w, st, env, k);
  }

  /**
   * When each round of `f` that succeeds moves the clock as `AdvanceClock`,
   * `n` successful rounds move it as `n` rounds of `AdvanceClock`.
   */
  lemma {:induction false} IterClock(f: World -> (World, bool), cd: Cadence, w: World, n: nat)
    requires cd.Valid()
    requires forall x :: f(x).1 ==> f(x).0.clock == AdvanceClock(x.clock, cd).0
    requires Iterate(f, w, n).1
    ensures Iterate(f, w, n).0.clock == Run(w.clock, cd, n)
    decreases n
  {
    if n > 0 {
      IterClock(f, cd, w, n - 1);
    }
  }

  /** `n` successful steps move the clock as `n` rounds of `AdvanceClock`. */
  lemma StepsClock(w: World, st: Settings, env: Env, n: nat)
    requires st.cadence.Valid() && StepsDefined(w, st, env, n) && Steps(w, st, env, n).1
    ensures Steps(w, st, env, n).0.clock == Run(w.clock, st.cadence, n)
  {
    var f := StepFn(st, env);
    forall x | f(x).1
      ensures f(x).0.clock == AdvanceClock(x.clock, st.cadence).0
    {
      if StepDefined(x, st, env) {
        StepClock(x, st, env);
      }
    }
    IterClock(f, st.cadence, w, n);
  }

  /**
   * In rigid mode no obstacle can fail, and the `n`-prefix update is every one
   * of the first `n` obstacles updated on its own.
   */
  lemma {:induction false} RigidUpdatePrefix(obs: seq<ObstacleState>, st: Settings, c: Clock,
                                             files: map<string, Mesh>, updatePositions: bool, n: nat)
    requires AllReady(obs, st, c, files) && n <= |obs| && st.cadence.Valid() && c.stepTime > 0.0
    requires !st.nonRigid
    ensures UpdatePrefix(obs, st, c, files, updatePositions, n).1
    ensures forall o :: 0 <= o < n ==>
      UpdatePrefix(obs, st, c, files, updatePositions, n).0[o]
        == UpdateOne(obs[o], st.obsCfgs[o], st, c, Blend(st, c), files, updatePositions).0
    decreases n
  {
    if n > 0 {
      RigidUpdatePrefix(obs, st, c, files, updatePositions, n - 1);
    }
  }

  /**
   * With positions not kept, an obstacle's turn leaves every node at its rest
   * position with a velocity that carries it, over one step, to where the
   * blend had put it.
   */
  lemma RollBackRestsObstacle(s: ObstacleState, cfg: ObstacleConfig, st: Settings, c: Clock, blend: real,
                              files: map<string, Mesh>, n: nat)
    requires Inv(s) && c.stepTime > 0.0 && ReadyFor(s, cfg, st, c, files) && !st.nonRigid
    requires n < |UpdateOne(s, cfg, st, c, blend, files, false).0.curr.nodes|
    ensures var moved := UpdateOne(s, cfg, st, c, blend, files, true).0.curr.nodes[n];
      var rested := UpdateOne(s, cfg, st, c, blend, files, false).0.curr.nodes[n];
      && rested.x == rested.x0 == moved.x0
      && Scale(c.stepTime, rested.v) == Sub(moved.x, moved.x0)
  {
    var moved := UpdateOne(s, cfg, st, c, blend, files, true).0.curr.nodes[n];
    ScaleInverse(c.stepTime, Sub(moved.x, moved.x0));
  }

  /**
   * In rigid mode with physics enabled, the roll-back in `update_obstacles`
   * followed by the explicit integration in `physics_step` leaves every
   * obstacle node exactly where the motion and blend put it this step.
   */
  lemma RigidObstaclesEndWhereBlended(w: World, st: Settings, env: Env, o: nat)
    requires StepDefined(w, st, env) && !st.nonRigid && st.enabled[Physics] && o < |w.obs|
    ensures var c := Tick(w.clock);
      var placed := UpdateOne(w.obs[o], st.obsCfgs[o], st, c, Blend(st, c), env.files, true).0.curr;
      && StepSpec(w, st, env).1
      && Positions(StepSpec(w, st, env).0.obs[o].curr) == Positions(placed)
  {
    var c := Tick(w.clock);
    var b := Blend(st, c);
    RigidUpdatePrefix(w.obs, st, c, env.files, false, |w.obs|);
    var placed := UpdateOne(w.obs[o], st.obsCfgs[o], st, c, b, env.files, true).0.curr;
    var rested := UpdateOne(w.obs[o], st.obsCfgs[o], st, c, b, env.files, false).0.curr;
    assert rested == RolledBack(placed, c.stepTime);
    RollBackThenDrift(placed, c.stepTime);
  }

  /** One more obstacle's turn after a prefix that has not failed. */
  lemma UpdatePrefixNext(obs: seq<ObstacleState>, st: Settings, c: Clock, files: map<string, Mesh>,
                         updatePositions: bool, n: nat)
    requires AllReady(obs, st, c, files) && n < |obs| && st.cadence.Valid() && c.stepTime > 0.0
    requires UpdatePrefix(obs, st, c, files, updatePositions, n).1
    ensures var (s', ok) := UpdateOne(obs[n], st.obsCfgs[n], st, c, Blend(st, c), files, updatePositions);
      UpdatePrefix(obs, st, c, files, updatePositions, n + 1)
        == (UpdatePrefix(obs, st, c, files, updatePositions, n).0[n := s'], ok)
  {
  }

  /** Once an obstacle's turn has failed, the later obstacles are never visited. */
  lemma {:induction false} UpdatePrefixStops(obs: seq<ObstacleState>, st: Settings, c: Clock,
                                             files: map<string, Mesh>, updatePositions: bool, n: nat, m: nat)
    requires AllReady(obs, st, c, files) && n <= m <= |obs| && st.cadence.Valid() && c.stepTime > 0.0
    requires !UpdatePrefix(obs, st, c, files, updatePositions, n).1
    ensures UpdatePrefix(obs, st, c, files, updatePositions, m) == UpdatePrefix(obs, st, c, files, updatePositions, n)
    decreases m
  {
    if m > n {
      UpdatePrefixStops(obs, st, c, files, updatePositions, n, m - 1);
    }
  }

  /** Once a round has failed, running longer changes nothing. */
  lemma {:induction false} IterStop(f: World -> (World, bool), w: World, k: nat, n: nat)
    requires k <= n && !Iterate(f, w, k).1
    ensures Iterate(f, w, n) == Iterate(f, w, k)
    decreases n
  {
    if k < n {
      IterStop(f, w, k, n - 1);
    }
  }

  /** Where an iteration that stopped early or ran its course ends up. */
  lemma IterEnd(f: World -> (World, bool), w: World, k: nat, n: nat)
    requires k <= n && (Iterate(f, w, k).1 ==> k == n)
    ensures Iterate(f, w, n) == Iterate(f, w, k)
  {
    if k < n {
      IterStop(f, w, k, n);
    }
  }

  /**
   * Remeshing reads only the time from the clock, and never changes it: run
   * under any counters with the same time, it gives the same meshes and timers.
   */
  lemma RemeshingIgnoresCounters(w: World, st: Settings, env: Env, initializing: bool, c: Clock)
    requires Fits(w, st) && ValidEnv(env) && c.time == w.clock.time && c.stepTime > 0.0
    ensures RemeshingSpec(w.(clock := c), st, env, initializing) == RemeshingSpec(w, st, env, initializing).(clock := c)
  {
  }
}
