/**
 * Flat indexing across a list of meshes (the helpers at the end of
 * src/simulation.cpp). A list of meshes is seen, for one kind of primitive, as
 * the list of each mesh's primitives; the flat view is their concatenation.
 * Primitives are compared by value, which stands for the pointer comparison of
 * the source. A pointer into a mesh is a location: mesh number and position.
 */
module MeshIndex {
  import opened Wrappers
  import opened Geometry

  /** The concatenation of the meshes' primitive lists. */
  function Flatten<P>(ms: seq<seq<P>>): seq<P>
  {
    if ms == [] then [] else Flatten(ms[..|ms| - 1]) + ms[|ms| - 1]
  }

  /** The flat index of the first primitive of mesh `m`. */
  function Offset<P>(ms: seq<seq<P>>, m: nat): nat
    requires m <= |ms|
  {
    |Flatten(ms[..m])|
  }

  /** A pointer to a primitive: the mesh holding it and its position there. */
  datatype Loc = Loc(mesh: nat, index: nat)

  predicate Points<P>(ms: seq<seq<P>>, l: Loc)
  {
    l.mesh < |ms| && l.index < |ms[l.mesh]|
  }

  /** `p == ps[p->index]`: the primitive sits at its own recorded index. */
  predicate StoredAt<P(==)>(ps: seq<P>, p: P, pIndex: int)
  {
    0 <= pIndex < |ps| && ps[pIndex] == p
  }

  lemma OffsetNext<P>(ms: seq<seq<P>>, m: nat)
    requires m < |ms|
    ensures Offset(ms, m + 1) == Offset(ms, m) + |ms[m]|
  {
    assert ms[..m + 1][..m] == ms[..m];
  }

  lemma OffsetAll<P>(ms: seq<seq<P>>)
    ensures Offset(ms, |ms|) == |Flatten(ms)|
  {
    assert ms[..|ms|] == ms;
  }

  lemma {:induction false} FlattenAppend<P>(a: seq<seq<P>>, b: seq<seq<P>>)
    ensures Flatten(a + b) == Flatten(a) + Flatten(b)
    decreases |b|
  {
    if b == [] {
      assert a + b == a;
    } else {
      var b' := b[..|b| - 1];
      assert (a + b)[..|a + b| - 1] == a + b';
      FlattenAppend(a, b');
    }
  }

  lemma FlattenSingle<P>(s: seq<P>)
    ensures Flatten([s]) == s
  {
    assert [s][..0] == [];
  }

  /** The primitive at position `k` of mesh `m` is at flat index `Offset(ms, m) + k`. */
  lemma {:induction false} FlattenAt<P>(ms: seq<seq<P>>, m: nat, k: nat)
    requires m < |ms| && k < |ms[m]|
    ensures Offset(ms, m) + k < |Flatten(ms)|
    ensures Flatten(ms)[Offset(ms, m) + k] == ms[m][k]
  {
    assert ms == ms[..m] + [ms[m]] + ms[m + 1..];
    FlattenAppend(ms[..m] + [ms[m]], ms[m + 1..]);
    FlattenAppend(ms[..m], [ms[m]]);
    FlattenSingle(ms[m]);
  }

  /** Writing through a pointer changes exactly that flat position. */
  lemma {:induction false} FlattenUpdate<P>(ms: seq<seq<P>>, m: nat, k: nat, p: P)
    requires m < |ms| && k < |ms[m]|
    ensures Offset(ms, m) + k < |Flatten(ms)|
    ensures Flatten(ms[m := ms[m][k := p]]) == Flatten(ms)[Offset(ms, m) + k := p]
  {
    var ms' := ms[m := ms[m][k := p]];
    assert ms == ms[..m] + [ms[m]] + ms[m + 1..];
    assert ms' == ms[..m] + [ms[m][k := p]] + ms[m + 1..];
    FlattenAppend(ms[..m] + [ms[m]], ms[m + 1..]);
    FlattenAppend(ms[..m], [ms[m]]);
    FlattenAppend(ms[..m] + [ms[m][k := p]], ms[m + 1..]);
    FlattenAppend(ms[..m], [ms[m][k := p]]);
    FlattenSingle(ms[m]);
    FlattenSingle(ms[m][k := p]);
    assert ms'[..m] == ms[..m];
  }

  /** `size<Prim>`: the number of primitives over all meshes. */
  method Size<P>(ms: seq<seq<P>>) returns (np: nat)
    ensures np == |Flatten(ms)|
  {
    np := 0;
    var m := 0;
    while m < |ms|
      invariant 0 <= m <= |ms|
      invariant np == Offset(ms, m)
    {
      OffsetNext(ms, m);
      np := np + |ms[m]|;
      m := m + 1;
    }
    OffsetAll(ms);
  }

  /**
   * `get<Prim>(i, meshes)`: a pointer to the `i`-th primitive of the flat view,
   * or none (NULL) when `i` is out of range. The source compares the signed `i`
   * with an unsigned size, so a negative `i` never matches and yields NULL.
   */
  method Get<P>(i: int, ms: seq<seq<P>>) returns (r: Option<Loc>)
    ensures r.None? <==> !(0 <= i < |Flatten(ms)|)
    ensures r.Some? ==> (Points(ms, r.value)
                         && Offset(ms, r.value.mesh) + r.value.index == i
                         && ms[r.value.mesh][r.value.index] == Flatten(ms)[i])
  {
    var j := i;
    var m := 0;
    while m < |ms|
      invariant 0 <= m <= |ms|
      invariant j == i - Offset(ms, m)
      invariant 0 <= i ==> Offset(ms, m) <= i
    {
      if 0 <= j < |ms[m]| {
        FlattenAt(ms, m, j);
        return Some(Loc(m, j));
      }
      OffsetNext(ms, m);
      j := j - |ms[m]|;
      m := m + 1;
    }
    OffsetAll(ms);
    return None;
  }

  /**
   * `get_index(p, meshes)`: the flat index of `p`, found in the first mesh that
   * stores `p` at its own recorded index `pIndex`, or -1 when no mesh does.
   */
  method GetIndex<P(==)>(p: P, pIndex: int, ms: seq<seq<P>>) returns (r: int)
    ensures r == -1 <==> forall m :: 0 <= m < |ms| ==> !StoredAt(ms[m], p, pIndex)
    ensures r != -1 ==> 0 <= r < |Flatten(ms)| && Flatten(ms)[r] == p
    ensures r != -1 ==> (exists m :: (0 <= m < |ms| && StoredAt(ms[m], p, pIndex)
                                      && r == Offset(ms, m) + pIndex
                                      && forall m' :: 0 <= m' < m ==> !StoredAt(ms[m'], p, pIndex)))
  {
    var i := 0;
    var m := 0;
    while m < |ms|
      invariant 0 <= m <= |ms|
      invariant i == Offset(ms, m)
      invariant forall m' :: 0 <= m' < m ==> !StoredAt(ms[m'], p, pIndex)
    {
      if StoredAt(ms[m], p, pIndex) {
        FlattenAt(ms, m, pIndex);
        return i + pIndex;
      }
      OffsetNext(ms, m);
      i := i + |ms[m]|;
      m := m + 1;
    }
    return -1;
  }

  /** The node lists of a list of meshes. */
  function NodeLists(meshes: seq<Mesh>): (r: seq<seq<Node>>)
    ensures |r| == |meshes|
    ensures forall c :: 0 <= c < |meshes| ==> r[c] == meshes[c].nodes
  {
    seq(|meshes|, c requires 0 <= c < |meshes| => meshes[c].nodes)
  }

  /** All nodes of all meshes, in flat order. */
  function AllNodes(meshes: seq<Mesh>): seq<Node>
  {
    Flatten(NodeLists(meshes))
  }

  /** `node_positions`: the position of every node, in flat order. */
  method NodePositions(meshes: seq<Mesh>) returns (xs: seq<Vec3>)
    ensures |xs| == |AllNodes(meshes)|
    ensures forall n :: 0 <= n < |xs| ==> xs[n] == AllNodes(meshes)[n].x
  {
    var ls: seq<seq<Node>> := NodeLists(meshes);
    var count := Size(ls);
    xs := [];
    var n := 0;
    while n < count
      invariant 0 <= n <= count
      invariant |xs| == n
      invariant forall k :: 0 <= k < n ==> xs[k] == AllNodes(meshes)[k].x
    {
      var p: Option<Loc> := Get(n, ls);
      var node: Node := ls[p.value.mesh][p.value.index];
      xs := xs + [node.x];
      n := n + 1;
    }
  }

  /** Flat lengths are equal when the node-count profiles are. */
  lemma {:induction false} SameShapeSameSize(a: seq<Mesh>, b: seq<Mesh>)
    requires Shape(a) == Shape(b)
    ensures |AllNodes(a)| == |AllNodes(b)|
    decreases |a|
  {
    if a != [] {
      assert Shape(a[..|a| - 1]) == Shape(b[..|b| - 1]) by {
        assert |a| == |b|;
        assert forall c :: 0 <= c < |a| - 1 ==> |a[c].nodes| == |b[c].nodes| by {
          forall c | 0 <= c < |a| - 1 ensures |a[c].nodes| == |b[c].nodes| {
            assert Shape(a)[c] == Shape(b)[c];
          }
        }
      }
      SameShapeSameSize(a[..|a| - 1], b[..|b| - 1]);
      assert NodeLists(a)[..|a| - 1] == NodeLists(a[..|a| - 1]);
      assert NodeLists(b)[..|b| - 1] == NodeLists(b[..|b| - 1]);
      assert Shape(a)[|a| - 1] == Shape(b)[|b| - 1];
    }
  }

  /** The sum of a node-count profile. */
  function Total(shape: seq<nat>): nat
  {
    if shape == [] then 0 else Total(shape[..|shape| - 1]) + shape[|shape| - 1]
  }

  lemma NodeListsPrefix(meshes: seq<Mesh>, k: nat)
    requires k <= |meshes|
    ensures NodeLists(meshes)[..k] == NodeLists(meshes[..k])
  {
  }

  /** The flat node count is the total of the node-count profile. */
  lemma {:induction false} AllNodesTotal(meshes: seq<Mesh>)
    ensures |AllNodes(meshes)| == Total(Shape(meshes))
    decreases |meshes|
  {
    if meshes != [] {
      var k := |meshes| - 1;
      AllNodesTotal(meshes[..k]);
      NodeListsPrefix(meshes, k);
      assert Shape(meshes)[..k] == Shape(meshes[..k]);
    }
  }

  /** The meshes with node-count profile `shape` whose flat node list is `flat`. */
  function Unflatten(shape: seq<nat>, flat: seq<Node>): (ms: seq<Mesh>)
    requires |flat| == Total(shape)
    ensures Shape(ms) == shape
    ensures AllNodes(ms) == flat
  {
    if shape == [] then []
    else
      var k := |flat| - shape[|shape| - 1];
      var front := Unflatten(shape[..|shape| - 1], flat[..k]);
      var ms := front + [Mesh(flat[k..])];
      assert ms[..|ms| - 1] == front;
      NodeListsPrefix(ms, |ms| - 1);
      assert flat == flat[..k] + flat[k..];
      ms
  }

  /** A list of meshes is determined by its node-count profile and its flat node list. */
  lemma {:induction false} UnflattenAll(meshes: seq<Mesh>)
    ensures |AllNodes(meshes)| == Total(Shape(meshes))
    ensures Unflatten(Shape(meshes), AllNodes(meshes)) == meshes
    decreases |meshes|
  {
    AllNodesTotal(meshes);
    if meshes != [] {
      var k := |meshes| - 1;
      UnflattenAll(meshes[..k]);
      NodeListsPrefix(meshes, k);
      assert Shape(meshes)[..k] == Shape(meshes[..k]);
      var flat := AllNodes(meshes);
      assert flat == AllNodes(meshes[..k]) + meshes[k].nodes;
      assert flat[..|flat| - |meshes[k].nodes|] == AllNodes(meshes[..k]);
      assert flat[|flat| - |meshes[k].nodes|..] == meshes[k].nodes;
      assert meshes == meshes[..k] + [Mesh(meshes[k].nodes)];
    }
  }
}
