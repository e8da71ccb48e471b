/**
 * The obstacle lifecycle of src/obstacle.cpp. An obstacle owns four mesh slots
 * (base, current, next keyframe, cache), an `activated` flag and the index of
 * the last keyframe loaded. Rigid obstacles are placed by a motion curve at the
 * queried time; keyframed obstacles load one geometry file per frame and are
 * moved towards it by blending. The pure functions state each transition on a
 * snapshot of the obstacle; the `Obstacle` class performs them in place and is
 * proved to agree with them.
 */
module Obstacles {
  import opened Wrappers
  import opened Geometry
  import Format

  /** A unit quaternion as the rotation part of a rigid transformation. */
  datatype Quat = Quat(s: real, v: Vec3)

  /** A rigid transformation: translation, uniform scale and rotation. */
  datatype Transformation = Transformation(translation: Vec3, scale: real, rotation: Quat)

  /** `identity()`: no translation, unit scale, no rotation. */
  const Identity := Transformation(Zero, 1.0, Quat(1.0, Zero))

  /**
   * The motion curve of a rigid obstacle. The spline evaluation and the
   * transformation algebra are not modelled; these are their results:
   * `place(t, p)` and `velocity(t, p)` are the position and velocity
   * `apply_dtrans(get_dtrans(spline, t), p, &v)` gives a base point `p`,
   * `relative(t, dt, p)` is `get_trans(t) * inverse(get_trans(t - dt))`
   * applied to `p`, and `trans(t)` is `get_dtrans(spline, t).first`. The four
   * are independent: nothing relates one to another.
   */
  datatype Motion = Motion(
    place: (real, Vec3) -> Vec3,
    velocity: (real, Vec3) -> Vec3,
    relative: (real, real, Vec3) -> Vec3,
    trans: real -> Transformation)

  /** What an obstacle is configured with and never changes: its window, curve and keyframe path. */
  datatype ObstacleConfig = ObstacleConfig(
    startTime: real,
    endTime: real,
    spline: Option<Motion>,
    basePath: string)

  /** A snapshot of the state an obstacle's queries change. */
  datatype ObstacleState = ObstacleState(
    base: Mesh,
    curr: Mesh,
    next: Mesh,
    cache: Mesh,
    activated: bool,
    currFrame: int)

  /**
   * What every reachable state satisfies: an activated obstacle's current mesh
   * has one node per base node (the placement loop reads `base.nodes[n]` for
   * every current node), and an obstacle not yet activated has loaded no
   * keyframe.
   */
  predicate Inv(s: ObstacleState)
  {
    && (s.activated ==> |s.curr.nodes| == |s.base.nodes|)
    && (!s.activated ==> s.currFrame == -1)
    && s.currFrame >= -1
  }

  /** Blending towards the next keyframe reads one next and one cache node per current node. */
  predicate BlendReady(s: ObstacleState)
  {
    |s.next.nodes| >= |s.curr.nodes| && |s.cache.nodes| >= |s.curr.nodes|
  }

  /** `delete_mesh` on all four slots. */
  function ReleaseAll(s: ObstacleState): (r: ObstacleState)
    ensures r.base == r.curr == r.next == r.cache == Released
    ensures r.activated == s.activated && r.currFrame == s.currFrame
  {
    s.(base := Released, curr := Released, next := Released, cache := Released)
  }

  /** Node `nd` placed by the motion at time `t` from base point `p`. */
  function PlaceNode(m: Motion, t: real, p: Vec3, nd: Node): Node
  {
    nd.(x := m.place(t, p), v := m.velocity(t, p))
  }

  /** The placement loop of src/obstacle.cpp:60-62 over the whole current mesh. */
  function Placed(m: Motion, t: real, base: Mesh, curr: Mesh): (r: Mesh)
    requires |curr.nodes| <= |base.nodes|
    ensures |r.nodes| == |curr.nodes|
    ensures forall n :: 0 <= n < |curr.nodes| ==>
      r.nodes[n] == PlaceNode(m, t, base.nodes[n].x, curr.nodes[n])
  {
    Mesh(seq(|curr.nodes|, n requires 0 <= n < |curr.nodes| => PlaceNode(m, t, base.nodes[n].x, curr.nodes[n])))
  }

  /** Lines 45-52 and 73-80: the effect of a query at a time outside the window. */
  function Expire(s: ObstacleState, endTime: real, time: real): ObstacleState
  {
    if time > endTime then ReleaseAll(s) else s
  }

  predicate InWindow(startTime: real, endTime: real, time: real)
  {
    startTime <= time <= endTime
  }

  /** `get_mesh(time)` (lines 44-70) on a snapshot. */
  function GetMeshAtSpec(s: ObstacleState, cfg: ObstacleConfig, time: real): (r: ObstacleState)
    requires Inv(s)
    ensures Inv(r)
  {
    if !InWindow(cfg.startTime, cfg.endTime, time) then
      Expire(s, cfg.endTime, time)
    else
      var c := if !s.activated then s.base else s.curr;
      var c' := if cfg.spline.Some? then Placed(cfg.spline.value, time, s.base, c) else c;
      var c'' := if !s.activated then WithRestPositions(c') else c';
      s.(curr := c'', currFrame := if !s.activated then -1 else s.currFrame, activated := true)
  }

  /** `base_path + stringf("body%04d.obj", frame)`. */
  function KeyframePath(basePath: string, frame: int): string
  {
    basePath + "body" + Format.Padded(frame, 4) + ".obj"
  }

  /**
   * `get_mesh(time, frame)` (lines 72-106) on a snapshot, with the keyframe
   * files as a map from path to geometry. The flag is false when the keyframe
   * file is missing, where the source releases everything and exits with
   * status 1.
   */
  function GetMeshFrameSpec(s: ObstacleState, cfg: ObstacleConfig, time: real, frame: int,
                            files: map<string, Mesh>): (r: (ObstacleState, bool))
    requires Inv(s)
    ensures Inv(r.0)
  {
    if !InWindow(cfg.startTime, cfg.endTime, time) then
      (Expire(s, cfg.endTime, time), true)
    else if !s.activated then
      (s.(curr := WithRestPositions(s.base), currFrame := -1, activated := true), true)
    else if frame > s.currFrame then
      var path := KeyframePath(cfg.basePath, frame);
      if path !in files then
        (ReleaseAll(s).(currFrame := frame), false)
      else
        (s.(currFrame := frame, cache := s.curr, next := files[path]), true)
    else
      (s, true)
  }

  /** The point `relative` maps `p` to, or `p` itself without a motion curve. */
  function Relative(spline: Option<Motion>, t: real, dt: real, p: Vec3): Vec3
  {
    if spline.Some? then spline.value.relative(t, dt, p) else p
  }

  /** One node of `blend_with_previous`: `x := T(x0) + blend * (x - T(x0))`. */
  function BlendPreviousNode(nd: Node, spline: Option<Motion>, t: real, dt: real, blend: real): Node
  {
    var y := Relative(spline, t, dt, nd.x0);
    nd.(x := Add(y, Scale(blend, Sub(nd.x, y))))
  }

  /**
   * `blend_with_previous` (lines 108-121) on a mesh. A blend of 1 keeps every
   * position, a blend of 0 snaps every node to its transformed rest position,
   * and nothing but positions changes.
   */
  function BlendedWithPrevious(m: Mesh, spline: Option<Motion>, t: real, dt: real, blend: real): (r: Mesh)
    ensures |r.nodes| == |m.nodes|
    ensures forall n :: 0 <= n < |m.nodes| ==>
      r.nodes[n].v == m.nodes[n].v && r.nodes[n].x0 == m.nodes[n].x0
    ensures blend == 1.0 ==> r == m
    ensures blend == 0.0 ==> forall n :: 0 <= n < |m.nodes| ==>
      r.nodes[n].x == Relative(spline, t, dt, m.nodes[n].x0)
  {
    var r := Mesh(seq(|m.nodes|, n requires 0 <= n < |m.nodes| => BlendPreviousNode(m.nodes[n], spline, t, dt, blend)));
    assert blend == 1.0 ==> r == m by {
      if blend == 1.0 {
        forall n | 0 <= n < |m.nodes| ensures r.nodes[n] == m.nodes[n] {
          var y := Relative(spline, t, dt, m.nodes[n].x0);
          assert Add(y, Scale(1.0, Sub(m.nodes[n].x, y))) == m.nodes[n].x;
        }
      }
    }
    r
  }

  /** One node of `blend_with_next`: `x += blend * (next - cache)`. */
  function BlendNextNode(nd: Node, nx: Vec3, cx: Vec3, blend: real): Node
  {
    nd.(x := Add(nd.x, Scale(blend, Sub(nx, cx))))
  }

  /** `blend_with_next` (lines 123-129) on a mesh, given the next keyframe and the cache. */
  function BlendedWithNext(m: Mesh, next: Mesh, cache: Mesh, blend: real): (r: Mesh)
    requires |next.nodes| >= |m.nodes| && |cache.nodes| >= |m.nodes|
    ensures |r.nodes| == |m.nodes|
    ensures forall n :: 0 <= n < |m.nodes| ==>
      r.nodes[n] == BlendNextNode(m.nodes[n], next.nodes[n].x, cache.nodes[n].x, blend)
  {
    Mesh(seq(|m.nodes|, n requires 0 <= n < |m.nodes| =>
      BlendNextNode(m.nodes[n], next.nodes[n].x, cache.nodes[n].x, blend)))
  }

  function Sum(bs: seq<real>): real
  {
    if bs == [] then 0.0 else Sum(bs[..|bs| - 1]) + bs[|bs| - 1]
  }

  /** A series of `blend_with_next` calls with factors `bs`, in order. */
  function BlendSeries(m: Mesh, next: Mesh, cache: Mesh, bs: seq<real>): (r: Mesh)
    requires |next.nodes| >= |m.nodes| && |cache.nodes| >= |m.nodes|
    ensures |r.nodes| == |m.nodes|
  {
    if bs == [] then m
    else BlendedWithNext(BlendSeries(m, next, cache, bs[..|bs| - 1]), next, cache, bs[|bs| - 1])
  }

  lemma AddScaleMerge(x: Vec3, a: real, b: real, d: Vec3)
    ensures Add(Add(x, Scale(a, d)), Scale(b, d)) == Add(x, Scale(a + b, d))
  {
    assert a * d.x + b * d.x == (a + b) * d.x;
    assert a * d.y + b * d.y == (a + b) * d.y;
    assert a * d.z + b * d.z == (a + b) * d.z;
  }

  /**
   * After any series of blends every node has moved by the sum of the factors
   * times the difference between the next keyframe and the cache.
   */
  lemma {:induction false} BlendSeriesMoves(m: Mesh, next: Mesh, cache: Mesh, bs: seq<real>, n: nat)
    requires |next.nodes| >= |m.nodes| && |cache.nodes| >= |m.nodes| && n < |m.nodes|
    ensures BlendSeries(m, next, cache, bs).nodes[n].x
      == Add(m.nodes[n].x, Scale(Sum(bs), Sub(next.nodes[n].x, cache.nodes[n].x)))
    ensures BlendSeries(m, next, cache, bs).nodes[n].v == m.nodes[n].v
    ensures BlendSeries(m, next, cache, bs).nodes[n].x0 == m.nodes[n].x0
  {
    var d := Sub(next.nodes[n].x, cache.nodes[n].x);
    if bs == [] {
      assert Add(m.nodes[n].x, Scale(0.0, d)) == m.nodes[n].x;
    } else {
      BlendSeriesMoves(m, next, cache, bs[..|bs| - 1], n);
      AddScaleMerge(m.nodes[n].x, Sum(bs[..|bs| - 1]), bs[|bs| - 1], d);
    }
  }

  /**
   * Starting from the snapshot taken when the keyframe was loaded
   * (`cache == curr`), blends whose factors sum to 1 land exactly on the next
   * keyframe.
   */
  lemma BlendsSummingToOneReachNext(m: Mesh, next: Mesh, bs: seq<real>)
    requires |next.nodes| >= |m.nodes| && Sum(bs) == 1.0
    ensures Positions(BlendSeries(m, next, m, bs)) == Positions(next)[..|m.nodes|]
  {
    var r := BlendSeries(m, next, m, bs);
    forall n | 0 <= n < |m.nodes| ensures r.nodes[n].x == next.nodes[n].x {
      BlendSeriesMoves(m, next, m, bs, n);
      var x, y := m.nodes[n].x, next.nodes[n].x;
      assert Add(x, Scale(1.0, Sub(y, x))) == y;
    }
  }

  /**
   * Queries outside the validity window leave `activated` and the keyframe
   * index alone and return the current slot; past the window they release all
   * four slots, before it they change nothing. Both queries agree there.
   */
  lemma OutsideWindow(s: ObstacleState, cfg: ObstacleConfig, time: real, frame: int, files: map<string, Mesh>)
    requires Inv(s) && !InWindow(cfg.startTime, cfg.endTime, time)
    ensures var r := GetMeshAtSpec(s, cfg, time);
      && r.activated == s.activated && r.currFrame == s.currFrame
      && (time > cfg.endTime ==> r == ReleaseAll(s))
      && (time < cfg.startTime && time <= cfg.endTime ==> r == s)
    ensures GetMeshFrameSpec(s, cfg, time, frame, files) == (GetMeshAtSpec(s, cfg, time), true)
  {
  }

  /**
   * The first in-window `get_mesh(time)` materialises the current slot from the
   * base mesh: one node per base node, placed by the motion curve when there is
   * one, with rest positions recorded from the resulting positions.
   */
  lemma FirstRigidQuery(s: ObstacleState, cfg: ObstacleConfig, time: real)
    requires Inv(s) && !s.activated && InWindow(cfg.startTime, cfg.endTime, time)
    ensures var r := GetMeshAtSpec(s, cfg, time);
      && r.activated && r.currFrame == -1
      && |r.curr.nodes| == |s.base.nodes|
      && r.base == s.base && r.next == s.next && r.cache == s.cache
      && (forall n :: 0 <= n < |s.base.nodes| ==> r.curr.nodes[n].x0 == r.curr.nodes[n].x)
      && (cfg.spline.None? ==> Positions(r.curr) == Positions(s.base))
      && (cfg.spline.Some? ==> forall n :: 0 <= n < |s.base.nodes| ==>
            && r.curr.nodes[n].x == cfg.spline.value.place(time, s.base.nodes[n].x)
            && r.curr.nodes[n].v == cfg.spline.value.velocity(time, s.base.nodes[n].x))
  {
  }

  /**
   * Once activated, an in-window `get_mesh(time)` neither re-copies the base
   * nor re-records rest positions: without a curve the obstacle is untouched,
   * with one only positions and velocities are recomputed from the base.
   */
  lemma LaterRigidQuery(s: ObstacleState, cfg: ObstacleConfig, time: real)
    requires Inv(s) && s.activated && InWindow(cfg.startTime, cfg.endTime, time)
    ensures var r := GetMeshAtSpec(s, cfg, time);
      && (cfg.spline.None? ==> r == s)
      && r.base == s.base && r.next == s.next && r.cache == s.cache
      && r.activated && r.currFrame == s.currFrame
      && |r.curr.nodes| == |s.curr.nodes|
      && (forall n :: 0 <= n < |s.curr.nodes| ==> r.curr.nodes[n].x0 == s.curr.nodes[n].x0)
      && (cfg.spline.Some? ==> forall n :: 0 <= n < |s.curr.nodes| ==>
            r.curr.nodes[n].x == cfg.spline.value.place(time, s.base.nodes[n].x))
  {
  }

  /**
   * The keyframed query: the first in-window call materialises the current
   * slot and loads no keyframe; later calls never modify the current slot, and
   * load keyframe `frame` (snapshotting the current slot into the cache) exactly
   * when `frame` is past the last one loaded; a missing file releases all slots.
   */
  lemma KeyframeQuery(s: ObstacleState, cfg: ObstacleConfig, time: real, frame: int, files: map<string, Mesh>)
    requires Inv(s) && InWindow(cfg.startTime, cfg.endTime, time)
    ensures var (r, ok) := GetMeshFrameSpec(s, cfg, time, frame, files);
      && (!s.activated ==>
            && ok && r.activated && r.currFrame == -1
            && r.curr == WithRestPositions(s.base)
            && r.next == s.next && r.cache == s.cache && r.base == s.base)
      && (s.activated && frame <= s.currFrame ==> ok && r == s)
      && (s.activated && frame > s.currFrame ==>
            && r.currFrame == frame
            && (ok <==> KeyframePath(cfg.basePath, frame) in files)
            && (ok ==> r == s.(currFrame := frame, cache := s.curr,
                                next := files[KeyframePath(cfg.basePath, frame)]))
            && (!ok ==> r.base == r.curr == r.next == r.cache == Released))
      && (s.activated && ok ==> r.curr == s.curr)
  {
  }

  /** The keyframe index never decreases, whichever query runs. */
  lemma CurrFrameNonDecreasing(s: ObstacleState, cfg: ObstacleConfig, time: real, frame: int,
                               files: map<string, Mesh>)
    requires Inv(s)
    ensures GetMeshAtSpec(s, cfg, time).currFrame >= s.currFrame
    ensures GetMeshFrameSpec(s, cfg, time, frame, files).0.currFrame >= s.currFrame
  {
  }

  /**
   * Once past the window, an obstacle stays activated with every slot empty:
   * a later in-window query materialises nothing, whatever the time.
   */
  lemma ExpiredStaysEmpty(s: ObstacleState, cfg: ObstacleConfig, time: real, later: real)
    requires Inv(s) && s.activated && time > cfg.endTime
    ensures var e := GetMeshAtSpec(s, cfg, time);
      && e.activated
      && GetMeshAtSpec(e, cfg, later).curr == Released
  {
  }

  /** An obstacle: its four mesh slots, activation flag and keyframe index. */
  class Obstacle {
    var base: Mesh
    var curr: Mesh
    var next: Mesh
    var cache: Mesh
    var activated: bool
    var currFrame: int
    const startTime: real
    const endTime: real
    const spline: Option<Motion>
    const basePath: string

    function Config(): ObstacleConfig
    {
      ObstacleConfig(startTime, endTime, spline, basePath)
    }

    function State(): ObstacleState
      reads this
    {
      ObstacleState(base, curr, next, cache, activated, currFrame)
    }

    ghost predicate Valid()
      reads this
    {
      Inv(State())
    }

    /**
     * An obstacle as the scene loader leaves it: the base slot and whatever the
     * loader put in the next and cache slots, an empty current slot, nothing
     * activated and no keyframe loaded.
     */
    constructor (base: Mesh, next: Mesh, cache: Mesh, startTime: real, endTime: real,
                 spline: Option<Motion>, basePath: string)
      ensures Valid()
      ensures State() == ObstacleState(base, Released, next, cache, false, -1)
      ensures this.startTime == startTime && this.endTime == endTime
      ensures this.spline == spline && this.basePath == basePath
    {
      this.base := base;
      this.curr := Released;
      this.next := next;
      this.cache := cache;
      this.activated := false;
      this.currFrame := -1;
      this.startTime := startTime;
      this.endTime := endTime;
      this.spline := spline;
      this.basePath := basePath;
    }

    /** `get_mesh()`: the current slot. */
    method GetMesh() returns (m: Mesh)
      ensures m == State().curr
    {
      m := curr;
    }

    /** `delete_mesh` on the four slots. */
    method Release()
      modifies this
      ensures State() == ReleaseAll(old(State()))
    {
      base := Released;
      curr := Released;
      next := Released;
      cache := Released;
    }

    /** `get_mesh(time)`: returns the current slot after the query. */
    method GetMeshAt(time: real) returns (m: Mesh)
      requires Valid()
      modifies this
      ensures Valid()
      ensures State() == GetMeshAtSpec(old(State()), Config(), time)
      ensures m == curr
    {
      if time > endTime {
        Release();
      }
      if time < startTime || time > endTime {
        return curr;
      }
      var wasActive := activated;
      if !activated {
        curr := base;
        currFrame := -1;
      }
      if spline.Some? {
        var c := curr;
        ghost var s1 := State();
        var n := 0;
        while n < |curr.nodes|
          invariant 0 <= n <= |curr.nodes| == |c.nodes| <= |base.nodes|
          invariant State() == s1.(curr := curr)
          invariant forall k :: 0 <= k < n ==> curr.nodes[k] == PlaceNode(spline.value, time, base.nodes[k].x, c.nodes[k])
          invariant forall k :: n <= k < |c.nodes| ==> curr.nodes[k] == c.nodes[k]
        {
          var nd := curr.nodes[n];
          var p := base.nodes[n].x;
          curr := Mesh(curr.nodes[n := nd.(x := spline.value.place(time, p), v := spline.value.velocity(time, p))]);
          n := n + 1;
        }
        assert curr == Placed(spline.value, time, base, c);
      }
      if !activated {
        curr := WithRestPositions(curr);
      }
      activated := true;
      return curr;
    }

    /**
     * `get_mesh(time, frame)`: returns the current slot and false when the
     * keyframe file for `frame` is missing.
     */
    method GetMeshFrame(time: real, frame: int, files: map<string, Mesh>) returns (m: Mesh, ok: bool)
      requires Valid()
      modifies this
      ensures Valid()
      ensures (State(), ok) == GetMeshFrameSpec(old(State()), Config(), time, frame, files)
      ensures m == curr
    {
      ok := true;
      if time > endTime {
        Release();
      }
      if time < startTime || time > endTime {
        return curr, ok;
      }
      if !activated {
        curr := WithRestPositions(base);
        currFrame := -1;
        activated := true;
      } else if frame > currFrame {
        currFrame := frame;
        var path := KeyframePath(basePath, frame);
        if path !in files {
          Release();
          return curr, false;
        }
        cache := curr;
        next := files[path];
      }
      return curr, ok;
    }

    /** `blend_with_previous(t, dt, blend)`, node by node in place. */
    method BlendWithPrevious(t: real, dt: real, blend: real)
      modifies this
      ensures State() == old(State()).(curr := BlendedWithPrevious(old(curr), spline, t, dt, blend))
    {
      var c := curr;
      var n := 0;
      while n < |curr.nodes|
        invariant 0 <= n <= |curr.nodes| == |c.nodes|
        invariant forall k :: 0 <= k < n ==> curr.nodes[k] == BlendPreviousNode(c.nodes[k], spline, t, dt, blend)
        invariant forall k :: n <= k < |c.nodes| ==> curr.nodes[k] == c.nodes[k]
        invariant State() == old(State()).(curr := curr)
      {
        var nd := curr.nodes[n];
        var y := Relative(spline, t, dt, nd.x0);
        curr := Mesh(curr.nodes[n := nd.(x := Add(y, Scale(blend, Sub(nd.x, y))))]);
        n := n + 1;
      }
      assert curr == BlendedWithPrevious(c, spline, t, dt, blend);
    }

    /** `blend_with_next(blend)`, node by node in place. */
    method BlendWithNext(blend: real)
      requires BlendReady(State())
      modifies this
      ensures State() == old(State()).(curr := BlendedWithNext(old(curr), old(next), old(cache), blend))
    {
      var c := curr;
      var n := 0;
      while n < |curr.nodes|
        invariant 0 <= n <= |curr.nodes| == |c.nodes| <= |next.nodes|
        invariant |c.nodes| <= |cache.nodes|
        invariant State() == old(State()).(curr := curr)
        invariant forall k :: 0 <= k < n ==>
          curr.nodes[k] == BlendNextNode(c.nodes[k], next.nodes[k].x, cache.nodes[k].x, blend)
        invariant forall k :: n <= k < |c.nodes| ==> curr.nodes[k] == c.nodes[k]
      {
        var nd := curr.nodes[n];
        curr := Mesh(curr.nodes[n := nd.(x := Add(nd.x, Scale(blend, Sub(next.nodes[n].x, cache.nodes[n].x))))]);
        n := n + 1;
      }
      assert curr == BlendedWithNext(c, next, cache, blend);
    }
  }
}
