/**
 * Node-level geometry used by the step pipeline and the obstacles: 3-vectors over
 * `real`, mesh nodes with position, velocity and recorded rest position, and the
 * three per-node updates of the pipeline (explicit integration, velocity
 * re-derivation and the obstacle roll-back), each with the laws relating them.
 */
module Geometry {

  datatype Vec3 = Vec3(x: real, y: real, z: real)

  const Zero := Vec3(0.0, 0.0, 0.0)

  function Add(a: Vec3, b: Vec3): Vec3 { Vec3(a.x + b.x, a.y + b.y, a.z + b.z) }

  function Sub(a: Vec3, b: Vec3): Vec3 { Vec3(a.x - b.x, a.y - b.y, a.z - b.z) }

  function Scale(k: real, a: Vec3): Vec3 { Vec3(k * a.x, k * a.y, k * a.z) }

  /** A mesh node: world position `x`, velocity `v`, rest position `x0`. */
  datatype Node = Node(x: Vec3, v: Vec3, x0: Vec3)

  /**
   * A mesh as the core sees it: its nodes, in order. Topology is never inspected
   * by the core. A released mesh (after `delete_mesh`) holds no nodes.
   */
  datatype Mesh = Mesh(nodes: seq<Node>)

  const Released := Mesh([])

  function Positions(m: Mesh): (ps: seq<Vec3>)
    ensures |ps| == |m.nodes|
    ensures forall n :: 0 <= n < |ps| ==> ps[n] == m.nodes[n].x
  {
    seq(|m.nodes|, n requires 0 <= n < |m.nodes| => m.nodes[n].x)
  }

  /** The node-count profile of a list of meshes. */
  function Shape(ms: seq<Mesh>): (r: seq<nat>)
    ensures |r| == |ms|
    ensures forall c :: 0 <= c < |ms| ==> r[c] == |ms[c].nodes|
  {
    seq(|ms|, c requires 0 <= c < |ms| => |ms[c].nodes|)
  }

  /** Explicit integration of one node: `x += v*dt`. */
  function DriftNode(nd: Node, dt: real): Node
  {
    nd.(x := Add(nd.x, Scale(dt, nd.v)))
  }

  /** Every node of `m` integrated explicitly over `dt`. */
  function Drifted(m: Mesh, dt: real): Mesh
  {
    Mesh(seq(|m.nodes|, n requires 0 <= n < |m.nodes| => DriftNode(m.nodes[n], dt)))
  }

  /**
   * The obstacle roll-back: the node keeps the displacement it was given as a
   * velocity over `dt` and returns to its rest position.
   */
  function RollBackNode(nd: Node, dt: real): Node
    requires dt != 0.0
  {
    nd.(v := Scale(1.0 / dt, Sub(nd.x, nd.x0)), x := nd.x0)
  }

  function RolledBack(m: Mesh, dt: real): Mesh
    requires dt != 0.0
  {
    Mesh(seq(|m.nodes|, n requires 0 <= n < |m.nodes| => RollBackNode(m.nodes[n], dt)))
  }

  /** `update_x0`: every node's rest position becomes its current position. */
  function WithRestPositions(m: Mesh): (r: Mesh)
    ensures |r.nodes| == |m.nodes|
    ensures forall n :: 0 <= n < |m.nodes| ==> r.nodes[n] == m.nodes[n].(x0 := m.nodes[n].x)
  {
    Mesh(seq(|m.nodes|, n requires 0 <= n < |m.nodes| => m.nodes[n].(x0 := m.nodes[n].x)))
  }

  /** Velocity re-derivation of one node from its position before a stage. */
  function RederiveNode(nd: Node, xold: Vec3, dt: real): Node
    requires dt != 0.0
  {
    nd.(v := Add(nd.v, Scale(1.0 / dt, Sub(nd.x, xold))))
  }

  lemma {:induction false} ScaleInverse(dt: real, d: Vec3)
    requires dt != 0.0
    ensures Scale(dt, Scale(1.0 / dt, d)) == d
  {
    assert dt * (1.0 / dt) == 1.0;
    assert dt * ((1.0 / dt) * d.x) == (dt * (1.0 / dt)) * d.x;
    assert dt * ((1.0 / dt) * d.y) == (dt * (1.0 / dt)) * d.y;
    assert dt * ((1.0 / dt) * d.z) == (dt * (1.0 / dt)) * d.z;
  }

  /**
   * A node rolled back over `dt` and then integrated explicitly over the same
   * `dt` is back at the position it had before the roll-back (exact over reals),
   * with its rest position untouched.
   */
  lemma {:induction false} RollBackThenDriftNode(nd: Node, dt: real)
    requires dt != 0.0
    ensures DriftNode(RollBackNode(nd, dt), dt).x == nd.x
    ensures DriftNode(RollBackNode(nd, dt), dt).x0 == nd.x0
  {
    ScaleInverse(dt, Sub(nd.x, nd.x0));
  }

  lemma {:induction false} RollBackThenDrift(m: Mesh, dt: real)
    requires dt != 0.0
    ensures Positions(Drifted(RolledBack(m, dt), dt)) == Positions(m)
  {
    var r := Drifted(RolledBack(m, dt), dt);
    forall n | 0 <= n < |m.nodes|
      ensures r.nodes[n].x == m.nodes[n].x
    {
      RollBackThenDriftNode(m.nodes[n], dt);
    }
  }

  /**
   * Re-deriving the velocity turns the position change over a stage into the
   * velocity change: `dt * (v' - v) == x - xold`.
   */
  lemma {:induction false} RederiveMatchesDisplacement(nd: Node, xold: Vec3, dt: real)
    requires dt != 0.0
    ensures Scale(dt, Sub(RederiveNode(nd, xold, dt).v, nd.v)) == Sub(nd.x, xold)
    ensures RederiveNode(nd, xold, dt).x == nd.x
  {
    var d := Sub(nd.x, xold);
    assert Sub(RederiveNode(nd, xold, dt).v, nd.v) == Scale(1.0 / dt, d);
    ScaleInverse(dt, d);
  }
}
