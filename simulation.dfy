/**
 * The simulation driver of src/simulation.cpp as a class. The clock counters,
 * the cloth meshes, the module timers and the enable flags are fields that the
 * methods update in place; the obstacles are `Obstacle` objects the methods
 * query and move. Every method is proved to move the state exactly as the
 * corresponding value-level function of module `Pipeline` says.
 */
module Simulations {
  import opened Wrappers
  import opened Geometry
  import opened MeshIndex
  import opened Clocks
  import opened Obstacles
  import opened Pipeline

  /** `step_mesh(mesh, dt)` (lines 203-206): `x += v*dt` on every node. */
  method StepMesh(m: Mesh, dt: real) returns (r: Mesh)
    ensures |r.nodes| == |m.nodes|
    ensures forall n :: 0 <= n < |m.nodes| ==>
      && r.nodes[n].x == Add(m.nodes[n].x, Scale(dt, m.nodes[n].v))
      && r.nodes[n].v == m.nodes[n].v
      && r.nodes[n].x0 == m.nodes[n].x0
    ensures r == Drifted(m, dt)
  {
    r := m;
    var n := 0;
    while n < |r.nodes|
      invariant 0 <= n <= |r.nodes| == |m.nodes|
      invariant forall k :: 0 <= k < n ==> r.nodes[k] == DriftNode(m.nodes[k], dt)
      invariant forall k :: n <= k < |m.nodes| ==> r.nodes[k] == m.nodes[k]
    {
      var nd := r.nodes[n];
      r := Mesh(r.nodes[n := nd.(x := Add(nd.x, Scale(dt, nd.v)))]);
      n := n + 1;
    }
    assert r == Drifted(m, dt);
  }

  /** The loop body of `update_velocities`: the `n`-th flat node, reached through `get`, gets its velocity re-derived. */
  method RederiveAt(r: seq<Mesh>, n: nat, xo: Vec3, invDt: real, ghost dt: real) returns (r': seq<Mesh>)
    requires dt != 0.0 && invDt == 1.0 / dt && n < |AllNodes(r)|
    ensures Shape(r') == Shape(r)
    ensures AllNodes(r') == AllNodes(r)[n := RederiveNode(AllNodes(r)[n], xo, dt)]
  {
    var loc := Get(n, NodeLists(r));
    match loc {
      case None =>
        assert false;
      case Some(l) =>
        var node := r[l.mesh].nodes[l.index];
        var node' := node.(v := Add(node.v, Scale(invDt, Sub(node.x, xo))));
        FlattenUpdate(NodeLists(r), l.mesh, l.index, node');
        r' := r[l.mesh := Mesh(r[l.mesh].nodes[l.index := node'])];
        assert NodeLists(r') == NodeLists(r)[l.mesh := NodeLists(r)[l.mesh][l.index := node']];
    }
  }

  /**
   * `update_velocities(meshes, xold, dt)` (lines 340-347): for every index `n`
   * of `xold`, the `n`-th node of the flat view gets `(x - xold[n]) / dt` added
   * to its velocity. `get` returns NULL past the last node, which the source
   * would dereference: `xold` must not be longer than the node count.
   */
  method UpdateVelocities(meshes: seq<Mesh>, xold: seq<Vec3>, dt: real) returns (r: seq<Mesh>)
    requires dt != 0.0 && |xold| <= |AllNodes(meshes)|
    ensures r == Rederived(meshes, xold, dt)
    ensures Shape(r) == Shape(meshes) && |AllNodes(r)| == |AllNodes(meshes)|
    ensures forall n :: 0 <= n < |xold| ==>
      AllNodes(r)[n] == AllNodes(meshes)[n].(v := Add(AllNodes(meshes)[n].v, Scale(1.0 / dt, Sub(AllNodes(meshes)[n].x, xold[n]))))
    ensures forall n :: |xold| <= n < |AllNodes(meshes)| ==> AllNodes(r)[n] == AllNodes(meshes)[n]
  {
    var invDt := 1.0 / dt;
    r := meshes;
    var n := 0;
    while n < |xold|
      invariant 0 <= n <= |xold|
      invariant Shape(r) == Shape(meshes)
      invariant AllNodes(r) == RederivedUpTo(AllNodes(meshes), xold, dt, n)
    {
      r := RederiveAt(r, n, xold[n], invDt, dt);
      n := n + 1;
    }
    UnflattenAll(r);
    AllNodesTotal(meshes);
  }

  /** A per-cloth loop `for c: f(cloths[c])`. */
  method ForEachCloth(ms: seq<Mesh>, f: Mesh -> Mesh) returns (r: seq<Mesh>)
    ensures r == MapMeshes(ms, f)
  {
    r := ms;
    var c := 0;
    while c < |ms|
      invariant 0 <= c <= |ms| == |r|
      invariant forall k :: 0 <= k < c ==> r[k] == f(ms[k])
      invariant forall k :: c <= k < |ms| ==> r[k] == ms[k]
    {
      r := r[c := f(r[c])];
      c := c + 1;
    }
  }

  /** The obstacle half of the explicit integration: every current slot drifts by `dt`. */
  method StepObstacles(obs: seq<Obstacle>, dt: real)
    requires Distinct(obs)
    modifies obs
    ensures forall k :: 0 <= k < |obs| ==> obs[k].State() == old(obs[k].State()).(curr := Drifted(old(obs[k].curr), dt))
  {
    var o := 0;
    while o < |obs|
      invariant 0 <= o <= |obs|
      invariant forall k :: 0 <= k < |obs| ==>
        obs[k].State() == if k < o then old(obs[k].State()).(curr := Drifted(old(obs[k].curr), dt)) else old(obs[k].State())
    {
      var m := obs[o].GetMesh();
      var m' := StepMesh(m, dt);
      obs[o].curr := m';
      assert forall k :: 0 <= k < |obs| && k != o ==> obs[k] != obs[o];
      o := o + 1;
    }
  }

  /** `step_mesh` on every mesh of a list. */
  method StepMeshes(ms: seq<Mesh>, dt: real) returns (r: seq<Mesh>)
    ensures r == MapMeshes(ms, m => Drifted(m, dt))
  {
    r := ms;
    var c := 0;
    while c < |ms|
      invariant 0 <= c <= |ms| == |r|
      invariant forall k :: 0 <= k < c ==> r[k] == Drifted(ms[k], dt)
      invariant forall k :: c <= k < |ms| ==> r[k] == ms[k]
    {
      var m := StepMesh(r[c], dt);
      r := r[c := m];
      c := c + 1;
    }
  }

  /** The handle loop of `get_constraints`: each handle's constraints at `t`, in handle order. */
  method HandleConstraintsAt(handles: seq<Handle>, t: real) returns (cons: seq<Constraint>)
    ensures cons == HandleConstraints(handles, t)
  {
    cons := [];
    var h := 0;
    while h < |handles|
      invariant 0 <= h <= |handles|
      invariant cons == HandleConstraints(handles[..h], t)
    {
      HandleConstraintsPrefix(handles, t, h);
      cons := cons + handles[h].constraintsAt(t);
      h := h + 1;
    }
    assert handles[..|handles|] == handles;
  }

  /**
   * The remeshing loop of `remeshing_step` (lines 303-311): each cloth
   * remeshed by the static algorithm under a fixed high-resolution mesh, by the
   * dynamic one against the obstacle meshes otherwise.
   */
  method RemeshAll(olds: seq<Mesh>, st: Settings, env: Env, obsMeshes: seq<Mesh>) returns (ms: seq<Mesh>)
    requires |st.enabled| == NModules
    ensures ms == MapMeshes(olds, RemeshOne(st, env, obsMeshes))
  {
    ms := olds;
    var c := 0;
    while c < |ms|
      invariant 0 <= c <= |ms| == |olds|
      invariant forall k :: 0 <= k < c ==> ms[k] == RemeshOne(st, env, obsMeshes)(olds[k])
      invariant forall k :: c <= k < |ms| ==> ms[k] == olds[k]
    {
      if st.fixedHighResMesh {
        ms := ms[c := env.solvers.staticRemesh(ms[c])];
      } else {
        ms := ms[c := env.solvers.dynamicRemesh(ms[c], obsMeshes, st.enabled[Plasticity])];
      }
      c := c + 1;
    }
  }

  /** The residual loop of `remeshing_step` (lines 314-319): each cloth paired with its old mesh. */
  method RestoreAll(ms: seq<Mesh>, olds: seq<Mesh>, f: (Mesh, Mesh) -> Mesh) returns (r: seq<Mesh>)
    requires |olds| == |ms|
    ensures r == ZipMeshes(ms, olds, f)
  {
    r := ms;
    var c := 0;
    while c < |r|
      invariant 0 <= c <= |r| == |ms|
      invariant forall k :: 0 <= k < c ==> r[k] == f(ms[k], olds[k])
      invariant forall k :: c <= k < |ms| ==> r[k] == ms[k]
    {
      r := r[c := f(r[c], olds[c])];
      c := c + 1;
    }
  }

  /** `ObstacleTurn` for the `o`-th of distinct obstacles: the others keep their state. */
  method TurnAt(obs: seq<Obstacle>, o: nat, st: Settings, c: Clock, blend: real, files: map<string, Mesh>,
                updatePositions: bool) returns (ok: bool)
    requires Distinct(obs) && o < |obs| && obs[o].Valid() && c.stepTime > 0.0
    requires ReadyFor(obs[o].State(), obs[o].Config(), st, c, files)
    modifies obs[o]
    ensures StatesOf(obs) == old(StatesOf(obs))[o := obs[o].State()]
    ensures (obs[o].State(), ok) == UpdateOne(old(obs[o].State()), obs[o].Config(), st, c, blend, files, updatePositions)
  {
    ok := ObstacleTurn(obs[o], st, c, blend, files, updatePositions);
  }

  /**
   * The obstacle loop of `update_obstacles` (lines 362-386): each obstacle's
   * turn in order, stopping at the first whose keyframe file is missing.
   */
  method UpdateEach(obs: seq<Obstacle>, st: Settings, c: Clock, blend: real, files: map<string, Mesh>,
                    updatePositions: bool) returns (ok: bool)
    requires Distinct(obs) && st.obsCfgs == ConfigsOf(obs) && AllReady(StatesOf(obs), st, c, files)
    requires st.cadence.Valid() && c.stepTime > 0.0 && blend == Blend(st, c)
    modifies obs
    ensures (StatesOf(obs), ok) == UpdatePrefix(old(StatesOf(obs)), st, c, files, updatePositions, |obs|)
  {
    ghost var start := StatesOf(obs);
    ok := true;
    var o := 0;
    while o < |obs| && ok
      invariant 0 <= o <= |obs|
      invariant (StatesOf(obs), ok) == UpdatePrefix(start, st, c, files, updatePositions, o)
    {
      assert obs[o].State() == start[o] && obs[o].Config() == st.obsCfgs[o];
      UpdatePrefixNext(start, st, c, files, updatePositions, o);
      ok := TurnAt(obs, o, st, c, blend, files, updatePositions);
      o := o + 1;
    }
    if !ok {
      UpdatePrefixStops(start, st, c, files, updatePositions, o, |obs|);
    }
  }

  /** The position of a handle node: handle number and node number. */
  datatype NodeRef = NodeRef(handle: nat, node: nat)

  /**
   * `validate_handles` (lines 102-112): the first handle node, in handle order
   * then node order, that remeshing may delete, where the source aborts; none
   * when every handle node is preserved.
   */
  method ValidateHandles(handles: seq<Handle>) returns (r: Option<NodeRef>)
    ensures r.None? <==> AllPreserved(handles)
    ensures r.Some? ==> && r.value.handle < |handles|
                        && r.value.node < |handles[r.value.handle].preserve|
                        && !handles[r.value.handle].preserve[r.value.node]
                        && (forall h, n :: 0 <= h < r.value.handle && 0 <= n < |handles[h].preserve| ==> handles[h].preserve[n])
                        && (forall n :: 0 <= n < r.value.node ==> handles[r.value.handle].preserve[n])
  {
    var h := 0;
    while h < |handles|
      invariant 0 <= h <= |handles|
      invariant forall h', n :: 0 <= h' < h && 0 <= n < |handles[h'].preserve| ==> handles[h'].preserve[n]
    {
      var nodes := handles[h].preserve;
      var n := 0;
      while n < |nodes|
        invariant 0 <= n <= |nodes|
        invariant forall n' :: 0 <= n' < n ==> nodes[n']
      {
        if !nodes[n] {
          return Some(NodeRef(h, n));
        }
        n := n + 1;
      }
      h := h + 1;
    }
    return None;
  }

  /** The state of every obstacle, in order. */
  function StatesOf(obs: seq<Obstacle>): (r: seq<ObstacleState>)
    reads obs
    ensures |r| == |obs|
    ensures forall o :: 0 <= o < |obs| ==> r[o] == obs[o].State()
  {
    seq(|obs|, o reads obs requires 0 <= o < |obs| => obs[o].State())
  }

  /** The fixed configuration of every obstacle, in order. */
  function ConfigsOf(obs: seq<Obstacle>): (r: seq<ObstacleConfig>)
    ensures |r| == |obs|
    ensures forall o :: 0 <= o < |obs| ==> r[o] == obs[o].Config()
  {
    seq(|obs|, o requires 0 <= o < |obs| => obs[o].Config())
  }

  predicate Distinct(obs: seq<Obstacle>)
  {
    forall i, j :: 0 <= i < j < |obs| ==> obs[i] != obs[j]
  }

  /** `sim.obstacle_meshes`: the current slot of every obstacle. */
  method ObstacleMeshes(obs: seq<Obstacle>) returns (ms: seq<Mesh>)
    ensures ms == MeshesOf(StatesOf(obs))
  {
    ms := [];
    var o := 0;
    while o < |obs|
      invariant 0 <= o <= |obs| && |ms| == o
      invariant forall k :: 0 <= k < o ==> ms[k] == obs[k].curr
    {
      var m := obs[o].GetMesh();
      ms := ms + [m];
      o := o + 1;
    }
  }

  /**
   * The roll-back loop of `update_obstacles` (lines 377-385): every node of the
   * current slot returns to its rest position, keeping its displacement over
   * the step as velocity.
   */
  method RollBack(ob: Obstacle, dt: real)
    requires dt > 0.0
    modifies ob
    ensures ob.State() == old(ob.State()).(curr := RolledBack(old(ob.curr), dt))
  {
    var m := ob.GetMesh();
    var n := 0;
    while n < |ob.curr.nodes|
      invariant 0 <= n <= |ob.curr.nodes| == |m.nodes|
      invariant ob.State() == old(ob.State()).(curr := ob.curr)
      invariant forall k :: 0 <= k < n ==> ob.curr.nodes[k] == RollBackNode(m.nodes[k], dt)
      invariant forall k :: n <= k < |m.nodes| ==> ob.curr.nodes[k] == m.nodes[k]
    {
      var node := ob.curr.nodes[n];
      var node' := node.(v := Scale(1.0 / dt, Sub(node.x, node.x0)));
      ob.curr := Mesh(ob.curr.nodes[n := node'.(x := node'.x0)]);
      n := n + 1;
    }
    assert ob.curr == RolledBack(m, dt);
  }

  /**
   * One obstacle's turn in `update_obstacles` (lines 362-386): the keyframe
   * query and blend towards the next keyframe in non-rigid mode (skipped while
   * frames are waited for past ramp-up), the time query and blend with the
   * previous placement in rigid mode; then, unless positions are to be kept,
   * every node is put back at its rest position with its displacement kept as
   * velocity. False when the keyframe file is missing.
   */
  method ObstacleTurn(ob: Obstacle, st: Settings, c: Clock, blend: real, files: map<string, Mesh>,
                      updatePositions: bool) returns (ok: bool)
    requires ob.Valid() && c.stepTime > 0.0 && ReadyFor(ob.State(), ob.Config(), st, c, files)
    modifies ob
    ensures ob.Valid()
    ensures (ob.State(), ok) == UpdateOne(old(ob.State()), ob.Config(), st, c, blend, files, updatePositions)
  {
    if st.nonRigid {
      if c.initWaitFrames != 0 {
        if c.step <= c.initFrameSteps {
          var _, found := ob.GetMeshFrame(c.time, c.frame, files);
          if !found {
            return false;
          }
          ob.BlendWithNext(blend);
        }
      } else {
        var _, found := ob.GetMeshFrame(c.time, c.frame, files);
        if !found {
          return false;
        }
        ob.BlendWithNext(blend);
      }
    } else {
      var _ := ob.GetMeshAt(c.time);
      ob.BlendWithPrevious(c.time, c.stepTime, blend);
    }
    if !updatePositions {
      RollBack(ob, c.stepTime);
    }
    return true;
  }

  /**
   * The simulation: clock counters, cloth meshes, obstacles, handles, per-module
   * enable flags and timers, and the two global flags of `::magic` the core
   * reads (`preserve_creases`, which relaxation clears, and
   * `fixed_high_res_mesh`).
   */
  class Simulation {
    var time: real
    var step: int
    var frame: int
    var stepTime: real
    var initFrameSteps: int
    var initWaitFrames: int
    const frameTime: real
    const frameSteps: int
    const nonRigid: bool
    const handles: seq<Handle>
    const fixedHighResMesh: bool
    const obstacles: seq<Obstacle>
    var preserveCreases: bool
    var enabled: seq<bool>
    var timers: seq<real>
    var cloths: seq<Mesh>

    function ClockState(): Clock
      reads this
    {
      Clock(time, step, frame, stepTime, initFrameSteps, initWaitFrames)
    }

    /** What a step changes, as a value. */
    function Current(): World
      reads this, obstacles
    {
      World(ClockState(), cloths, StatesOf(obstacles), timers)
    }

    /** What a step only reads, as a value. */
    function Setup(): Settings
      reads this
    {
      Settings(Cadence(frameTime, frameSteps), nonRigid, enabled, handles, preserveCreases, fixedHighResMesh,
               ConfigsOf(obstacles))
    }

    ghost predicate Valid()
      reads this, obstacles
    {
      Fits(Current(), Setup()) && Distinct(obstacles)
    }

    /**
     * A simulation as loaded: given clock, flags, meshes and obstacles, every
     * timer at zero.
     */
    constructor (c: Clock, frameTime: real, frameSteps: int, nonRigid: bool, handles: seq<Handle>,
                 fixedHighResMesh: bool, preserveCreases: bool, enabled: seq<bool>, cloths: seq<Mesh>,
                 obstacles: seq<Obstacle>)
      requires frameSteps > 0 && frameTime > 0.0 && c.stepTime > 0.0 && |enabled| == NModules
      requires Distinct(obstacles) && forall o :: 0 <= o < |obstacles| ==> obstacles[o].Valid()
      ensures Valid()
      ensures Current() == World(c, cloths, StatesOf(obstacles), seq(NModules, k => 0.0))
      ensures Setup() == Settings(Cadence(frameTime, frameSteps), nonRigid, enabled, handles, preserveCreases,
                                  fixedHighResMesh, ConfigsOf(obstacles))
    {
      time := c.time;
      step := c.step;
      frame := c.frame;
      stepTime := c.stepTime;
      initFrameSteps := c.initFrameSteps;
      initWaitFrames := c.initWaitFrames;
      this.frameTime := frameTime;
      this.frameSteps := frameSteps;
      this.nonRigid := nonRigid;
      this.handles := handles;
      this.fixedHighResMesh := fixedHighResMesh;
      this.obstacles := obstacles;
      this.preserveCreases := preserveCreases;
      this.enabled := enabled;
      this.timers := seq(NModules, k => 0.0);
      this.cloths := cloths;
    }

    /**
     * `get_constraints(sim, include_proximity)` (lines 156-168): the handles'
     * constraints in handle order, then the proximity constraints when asked
     * for and enabled, timed under the proximity timer.
     */
    method GetConstraints(includeProximity: bool, env: Env) returns (cons: seq<Constraint>)
      requires Valid() && ValidEnv(env)
      modifies this
      ensures (cons, timers) == ConstraintsOf(old(Current()), old(Setup()), env, includeProximity)
      ensures Current() == old(Current()).(timers := timers) && Setup() == old(Setup()) && Valid()
    {
      cons := HandleConstraintsAt(handles, time);
      if includeProximity && enabled[Proximity] {
        var obsMeshes := ObstacleMeshes(obstacles);
        cons := cons + env.solvers.proximity(cloths, obsMeshes);
        timers := Charge(timers, Proximity, env.costs);
      }
    }

    /**
     * `physics_step(sim, cons)` (lines 181-201): the implicit update of every
     * cloth, then `step_mesh` on every cloth and every obstacle.
     */
    method PhysicsStep(cons: seq<Constraint>, env: Env)
      requires Valid() && ValidEnv(env)
      modifies this, obstacles
      ensures Current() == PhysicsSpec(old(Current()), old(Setup()), env, cons)
      ensures Setup() == old(Setup()) && Valid()
    {
      if !enabled[Physics] {
        return;
      }
      var t, dt := time, stepTime;
      var solved := ForEachCloth(cloths, m => env.solvers.physics(m, cons, t, dt));
      var ms := StepMeshes(solved, dt);
      StepObstacles(obstacles, dt);
      cloths, timers := ms, Charge(timers, Physics, env.costs);
    }

    /** `plasticity_step(sim)` (lines 208-217). */
    method PlasticityStep(env: Env)
      requires Valid() && ValidEnv(env)
      modifies this
      ensures Current() == PlasticitySpec(old(Current()), old(Setup()), env)
      ensures Setup() == old(Setup()) && Valid()
    {
      if !enabled[Plasticity] {
        return;
      }
      cloths := ForEachCloth(cloths, env.solvers.plastic);
      timers := Charge(timers, Plasticity, env.costs);
    }

    /**
     * `strainlimiting_step(sim, cons)` (lines 219-227): strain limiting, then
     * velocities re-derived from the positions before it.
     */
    method StrainLimitingStep(cons: seq<Constraint>, env: Env)
      requires Valid() && ValidEnv(env)
      modifies this
      ensures Current() == StrainLimitingSpec(old(Current()), old(Setup()), env, cons)
      ensures Setup() == old(Setup()) && Valid()
    {
      if !enabled[StrainLimiting] {
        return;
      }
      var xold := NodePositions(cloths);
      assert xold == FlatPositions(cloths);
      var limited := env.solvers.strainLimit(cloths, cons);
      SameShapeSameSize(limited, cloths);
      cloths := UpdateVelocities(limited, xold, stepTime);
      timers := Charge(timers, StrainLimiting, env.costs);
    }

    /**
     * `collision_step(sim)` (lines 269-279): collision response against the
     * obstacles under the handle constraints, then velocities re-derived.
     */
    method CollisionStep(env: Env)
      requires Valid() && ValidEnv(env)
      modifies this
      ensures Current() == CollisionSpec(old(Current()), old(Setup()), env)
      ensures Setup() == old(Setup()) && Valid()
    {
      if !enabled[Collision] {
        return;
      }
      var xold := NodePositions(cloths);
      assert xold == FlatPositions(cloths);
      var cons := GetConstraints(false, env);
      var obsMeshes := ObstacleMeshes(obstacles);
      var resolved := env.solvers.collide(cloths, cons, obsMeshes);
      SameShapeSameSize(resolved, cloths);
      cloths := UpdateVelocities(resolved, xold, stepTime);
      timers := Charge(timers, Collision, env.costs);
    }

    /**
     * Lines 285-325 of `remeshing_step`: residuals backed up, every cloth
     * remeshed by the one algorithm the fixed-resolution flag selects,
     * residuals restored, and separation from the meshes as they were before,
     * each timed under its module.
     */
    method RemeshAndSeparateStep(initializing: bool, env: Env)
      requires Valid() && ValidEnv(env)
      modifies this
      ensures Current() == RemeshAndSeparate(old(Current()), old(Setup()), env, initializing)
      ensures Setup() == old(Setup()) && Valid()
    {
      var olds := cloths;
      var obsMeshes := ObstacleMeshes(obstacles);
      var residuals := enabled[Plasticity] && !initializing;
      var ts := timers;
      if residuals {
        ts := Charge(ts, Plasticity, env.costs);
      }
      var ms := RemeshAll(olds, Setup(), env, obsMeshes);
      ts := Charge(ts, Remeshing, env.costs);
      if residuals {
        ms := RestoreAll(ms, olds, env.solvers.restoreResiduals);
        ts := Charge(ts, Plasticity, env.costs);
      }
      if enabled[Separation] {
        ms := env.solvers.separate(ms, olds, obsMeshes);
        ts := Charge(ts, Separation, env.costs);
      }
      cloths, timers := ms, ts;
    }

    /**
     * `remeshing_step(sim, initializing)` (lines 281-338): when enabled,
     * remeshing and separation, then the pop filter under fresh constraints
     * when not initializing.
     */
    method RemeshingStep(initializing: bool, env: Env)
      requires Valid() && ValidEnv(env)
      modifies this
      ensures Current() == RemeshingSpec(old(Current()), old(Setup()), env, initializing)
      ensures Setup() == old(Setup()) && Valid()
    {
      if !enabled[Remeshing] {
        return;
      }
      RemeshAndSeparateStep(initializing, env);
      if enabled[PopFilter] && !initializing {
        var cons := GetConstraints(true, env);
        cloths := ForEachCloth(cloths, m => env.solvers.popFilter(m, cons));
        timers := Charge(timers, PopFilter, env.costs);
      }
    }

    /**
     * `equilibration_step(sim)` (lines 229-250): every cloth settled under the
     * remeshing timer, then, when enabled, collision response under the
     * handle constraints without a velocity update.
     */
    method EquilibrationStep(env: Env)
      requires Valid() && ValidEnv(env)
      modifies this
      ensures Current() == EquilibrationSpec(old(Current()), old(Setup()), env)
      ensures Setup() == old(Setup()) && Valid()
    {
      ghost var w := Current();
      cloths := ForEachCloth(cloths, env.solvers.equilibrate);
      timers := Charge(timers, Remeshing, env.costs);
      ghost var w1 := Current();
      assert w1 == w.(cloths := MapMeshes(w.cloths, env.solvers.equilibrate), timers := Charge(w.timers, Remeshing, env.costs));
      var cons := GetConstraints(false, env);
      assert cons == ConstraintsOf(w1, Setup(), env, false).0;
      if enabled[Collision] {
        var obsMeshes := ObstacleMeshes(obstacles);
        cloths := env.solvers.collide(cloths, cons, obsMeshes);
        timers := Charge(timers, Collision, env.costs);
      }
    }

    /**
     * `update_obstacles(sim, update_positions)` (lines 349-387): the blend
     * factor of the mode, then each obstacle's turn in order. False when a
     * keyframe file is missing, where the source exits; the obstacles after
     * that one are left as they were.
     */
    method UpdateObstacles(updatePositions: bool, files: map<string, Mesh>) returns (ok: bool)
      requires Valid() && AllReady(StatesOf(obstacles), Setup(), ClockState(), files)
      modifies obstacles
      ensures (Current(), ok) == UpdateObstaclesSpec(old(Current()), old(Setup()), files, updatePositions)
      ensures Valid()
    {
      var decayTime := 0.1;
      var blend := 0.0;
      if nonRigid {
        var fs := frameSteps;
        if initFrameSteps != 0 {
          fs := initFrameSteps;
        }
        blend := 1.0 / fs as real;
      } else {
        blend := stepTime / decayTime;
        blend := blend / (1.0 + blend);
      }
      ok := UpdateEach(obstacles, Setup(), ClockState(), blend, files, updatePositions);
    }

    /**
     * Lines 128-136 of `advance_step`: the obstacle update (positions kept only
     * in non-rigid mode), the constraints, and the four stages. False when a
     * keyframe file is missing.
     */
    method RunStages(env: Env) returns (ok: bool)
      requires Valid() && ValidEnv(env) && AllReady(StatesOf(obstacles), Setup(), ClockState(), env.files)
      modifies this, obstacles
      ensures (Current(), ok) == StagesSpec(old(Current()), old(Setup()), env)
      ensures Setup() == old(Setup()) && Valid()
    {
      if nonRigid {
        ok := UpdateObstacles(true, env.files);
      } else {
        ok := UpdateObstacles(false, env.files);
      }
      if !ok {
        return;
      }
      var cons := GetConstraints(true, env);
      PhysicsStep(cons, env);
      PlasticityStep(env);
      StrainLimitingStep(cons, env);
      CollisionStep(env);
    }

    /**
     * Lines 137-152 of `advance_step`: in ramp-up, step `init_frame_steps + 1`
     * ends it, installs the nominal step size, remeshes and advances the frame
     * unless frames are waited for; in the steady regime a frame boundary
     * remeshes, decrements the wait counter and advances the frame once it is 0.
     */
    method FrameBoundary(env: Env)
      requires Valid() && ValidEnv(env)
      modifies this
      ensures Current() == FrameSpec(old(Current()), old(Setup()), env)
      ensures Setup() == old(Setup()) && Valid()
    {
      ghost var w := Current();
      if initFrameSteps != 0 {
        if step == initFrameSteps + 1 {
          initFrameSteps := 0;
          stepTime := frameTime / frameSteps as real;
          ghost var wa := Current();
          RemeshingStep(false, env);
          if initWaitFrames == 0 {
            frame := frame + 1;
          }
          RemeshingIgnoresCounters(wa, Setup(), env, false, ClockState());
          assert wa.(clock := ClockState()) == w.(clock := FrameLogic(w.clock, Setup().cadence).0);
        }
      } else if CRem(step - 1, frameSteps) == 0 {
        RemeshingStep(false, env);
        initWaitFrames := Max(0, initWaitFrames - 1);
        if initWaitFrames == 0 {
          frame := frame + 1;
        }
        RemeshingIgnoresCounters(w, Setup(), env, false, ClockState());
      }
    }

    /**
     * `advance_step(sim)` (lines 125-154): time advances by the step size in
     * force, the step counter by one, then the stages and the frame logic run.
     * False when a keyframe file is missing.
     */
    method AdvanceStep(env: Env) returns (ok: bool)
      requires Valid() && StepDefined(Current(), Setup(), env)
      modifies this, obstacles
      ensures (Current(), ok) == StepSpec(old(Current()), old(Setup()), env)
      ensures Setup() == old(Setup()) && Valid()
    {
      ghost var w, st := Current(), Setup();
      time, step := time + stepTime, step + 1;
      assert Current() == w.(clock := Tick(w.clock));
      ok := RunStages(env);
      ghost var w7 := Current();
      StepOfParts(w, st, env, w7, ok);
      if !ok {
        return;
      }
      FrameBoundary(env);
    }

    /**
     * `advance_frame(sim)` (lines 120-123): `frame_steps` calls of
     * `advance_step`, ending at the first that finds a keyframe file missing.
     */
    method AdvanceFrame(env: Env) returns (ok: bool)
      requires Valid() && StepsDefined(Current(), Setup(), env, frameSteps)
      modifies this, obstacles
      ensures (Current(), ok) == Steps(old(Current()), old(Setup()), env, frameSteps)
      ensures Setup() == old(Setup()) && Valid()
    {
      ghost var s;
      ok, s := StepsUntilStop(env);
      IterEnd(StepFn(Setup(), env), old(Current()), s, frameSteps);
    }

    /** The loop of `advance_frame`, up to the first step that fails. */
    method StepsUntilStop(env: Env) returns (ok: bool, ghost s: nat)
      requires Valid() && StepsDefined(Current(), Setup(), env, frameSteps)
      modifies this, obstacles
      ensures s <= frameSteps && (ok ==> s == frameSteps)
      ensures (Current(), ok) == Iterate(StepFn(old(Setup()), env), old(Current()), s)
      ensures Setup() == old(Setup()) && Valid()
    {
      ghost var w0 := Current();
      ghost var st := Setup();
      ok := true;
      var i := 0;
      while i < frameSteps && ok
        invariant 0 <= i <= frameSteps
        invariant Valid() && Setup() == st
        invariant (Current(), ok) == Iterate(StepFn(st, env), w0, i)
      {
        ok := StepWithinFrame(env, w0, i);
        i := i + 1;
      }
      s := i;
    }

    /** One turn of the loop of `advance_frame`: the step after the first `s`. */
    method StepWithinFrame(env: Env, ghost w0: World, ghost s: nat) returns (ok: bool)
      requires Valid() && StepsDefined(w0, Setup(), env, frameSteps) && s < frameSteps
      requires (Current(), true) == Iterate(StepFn(Setup(), env), w0, s)
      modifies this, obstacles
      ensures (Current(), ok) == Iterate(StepFn(old(Setup()), env), w0, s + 1)
      ensures Setup() == old(Setup()) && Valid()
    {
      StepsNext(w0, Setup(), env, frameSteps, s);
      ok := AdvanceStep(env);
    }

    /** The mesh work of `relax_initial_state` once every handle node is preserved. */
    method SettleAndRemesh(env: Env)
      requires Valid() && ValidEnv(env)
      modifies this
      ensures Current() == RelaxMeshes(old(Current()), old(Setup()), env)
      ensures Setup() == old(Setup()) && Valid()
    {
      if preserveCreases {
        cloths := ForEachCloth(cloths, env.solvers.resetPlasticity);
      }
      EquilibrationStep(env);
      RemeshingStep(true, env);
      EquilibrationStep(env);
      if preserveCreases {
        cloths := ForEachCloth(cloths, env.solvers.resetPlasticity);
      }
    }

    /**
     * `relax_initial_state(sim)` (lines 78-100): abort unless every handle
     * node is preserved; otherwise settle, remesh as initialisation and settle
     * again, resetting plasticity before and after when creases are to be
     * preserved; then clear the crease flag and switch remeshing off under a
     * fixed high-resolution mesh. False where the source aborts.
     */
    method RelaxInitialState(env: Env) returns (ok: bool)
      requires Valid() && ValidEnv(env)
      modifies this
      ensures (Current(), Setup(), ok) == RelaxSpec(old(Current()), old(Setup()), env)
      ensures Valid()
    {
      var bad := ValidateHandles(handles);
      if bad.Some? {
        return false;
      }
      SettleAndRemesh(env);
      var en := if fixedHighResMesh then enabled[Remeshing := false] else enabled;
      preserveCreases, enabled := false, en;
      return true;
    }
  }
}
