/** YEdgeBuilder as specialised by FStaticMeshEdgeBuilder: builds the edge
    list of a triangle list. Each directed edge of each triangle either
    fills the free second face of an opposite edge found through a
    multimap from start positions to edges, or is appended as a new edge
    with only its first face set. Edges are referred to by their index in
    the edge array where the engine keeps pointers into it. */
module EdgeBuilder {
  import opened Wrappers
  import opened IntTypes

  /** A vertex position; the engine compares the float vectors for
      equality. */
  datatype Position = Position(x: real, y: real, z: real)

  /** YMeshEdge: two vertex indices and the two faces that share them; a
      second face of -1 means none has been found yet. */
  datatype MeshEdge = MeshEdge(vertex0: nat, vertex1: nat, face0: int, face1: int)

  /** The number of edges whose second face has been filled in. */
  function Filled(edges: seq<MeshEdge>): (r: nat)
    ensures r <= |edges|
  {
    if edges == [] then 0
    else Filled(edges[..|edges| - 1]) + (if edges[|edges| - 1].face1 != -1 then 1 else 0)
  }

  /** Appending an edge whose second face is free leaves the count alone. */
  lemma FilledAppend(edges: seq<MeshEdge>, e: MeshEdge)
    requires e.face1 == -1
    ensures Filled(edges + [e]) == Filled(edges)
  {
    assert (edges + [e])[..|edges|] == edges;
  }

  /** Filling one free second face adds one to the count. */
  lemma {:induction false} FilledFill(edges: seq<MeshEdge>, j: nat, face: int)
    requires j < |edges| && edges[j].face1 == -1 && face != -1
    ensures Filled(edges[j := edges[j].(face1 := face)]) == Filled(edges) + 1
  {
    var after := edges[j := edges[j].(face1 := face)];
    if j < |edges| - 1 {
      FilledFill(edges[..|edges| - 1], j, face);
      assert after[..|after| - 1] == edges[..|edges| - 1][j := edges[j].(face1 := face)];
    } else {
      assert after[..|after| - 1] == edges[..|edges| - 1];
    }
  }

  /** Triangle `t` of the index list runs through the directed edge
      (a, b). */
  predicate TriangleHasEdge(indices: seq<u32>, t: int, a: nat, b: nat) {
    0 <= t && 3 * t + 2 < |indices|
    && ((indices[3 * t] as int == a && indices[3 * t + 1] as int == b)
        || (indices[3 * t + 1] as int == a && indices[3 * t + 2] as int == b)
        || (indices[3 * t + 2] as int == a && indices[3 * t] as int == b))
  }

  /** Every index names a vertex. */
  predicate IndicesInRange(indices: seq<u32>, vertexCount: nat) {
    forall k | 0 <= k < |indices| :: indices[k] as int < vertexCount
  }

  /** Triangle `t` runs through a directed edge going from the position of
      `e`'s second vertex to the position of its first one. */
  predicate TriangleHasOpposite(indices: seq<u32>, vertices: seq<Position>, t: int, e: MeshEdge)
    requires IndicesInRange(indices, |vertices|)
    requires e.vertex0 < |vertices| && e.vertex1 < |vertices|
  {
    0 <= t && 3 * t + 2 < |indices|
    && var p, q, r := vertices[indices[3 * t]], vertices[indices[3 * t + 1]], vertices[indices[3 * t + 2]];
    var from, to := vertices[e.vertex1], vertices[e.vertex0];
    (p == from && q == to) || (q == from && r == to) || (r == from && p == to)
  }

  /** What every edge the builder makes satisfies: its vertices exist, its
      first face runs through it, and its second face, once set, runs
      through it in the opposite direction. */
  predicate EdgeOk(indices: seq<u32>, vertices: seq<Position>, e: MeshEdge)
    requires IndicesInRange(indices, |vertices|)
  {
    e.vertex0 < |vertices| && e.vertex1 < |vertices|
    && TriangleHasEdge(indices, e.face0, e.vertex0, e.vertex1)
    && (e.face1 == -1 || TriangleHasOpposite(indices, vertices, e.face1, e))
  }

  /** FStaticMeshEdgeBuilder::DoesEdgeMatch: the other edge ends where
      `index1` sits and its second face is still free. */
  predicate DoesEdgeMatch(vertices: seq<Position>, index1: nat, other: MeshEdge)
    requires index1 < |vertices| && other.vertex1 < |vertices|
  {
    vertices[other.vertex1] == vertices[index1] && other.face1 == -1
  }

  /** Edge `i` can take the edge (index1, index2) as its twin: it starts
      where `index2` sits and matches. */
  predicate IsOpposite(vertices: seq<Position>, edges: seq<MeshEdge>, index1: nat, index2: nat, i: int)
    requires index1 < |vertices| && index2 < |vertices|
  {
    0 <= i < |edges| && edges[i].vertex0 < |vertices| && edges[i].vertex1 < |vertices|
    && vertices[edges[i].vertex0] == vertices[index2] && DoesEdgeMatch(vertices, index1, edges[i])
  }

  /** The effect of one AddEdge on the edge array: without an opposite
      edge the new edge is appended with faces (triangle, -1); otherwise
      some opposite edge gets `triangle` as its second face. */
  predicate AddEdgeStep(vertices: seq<Position>, before: seq<MeshEdge>, after: seq<MeshEdge>,
                        index1: nat, index2: nat, triangle: nat)
    requires index1 < |vertices| && index2 < |vertices|
  {
    ((forall i | 0 <= i < |before| :: !IsOpposite(vertices, before, index1, index2, i))
     && after == before + [MeshEdge(index1, index2, triangle, -1)])
    || (exists j | 0 <= j < |before| ::
          IsOpposite(vertices, before, index1, index2, j) && after == before[j := before[j].(face1 := triangle)])
  }

  /** The multimap's list for `p`, empty when `p` is no key. */
  function MultiFind(m: map<Position, seq<nat>>, p: Position): (r: seq<nat>)
    ensures p !in m ==> r == []
  {
    if p in m then m[p] else []
  }

  /** Every edge starts at an existing vertex. */
  predicate StartsInRange(vertices: seq<Position>, edges: seq<MeshEdge>) {
    forall i | 0 <= i < |edges| :: edges[i].vertex0 < |vertices|
  }

  /** Every edge listed under a position exists and starts there. */
  predicate ListsSoundFor(vertices: seq<Position>, edges: seq<MeshEdge>, lists: map<Position, seq<nat>>)
    requires StartsInRange(vertices, edges)
  {
    forall p | p in lists :: forall j | 0 <= j < |lists[p]| ::
      lists[p][j] < |edges| && vertices[edges[lists[p][j]].vertex0] == p
  }

  /** Every edge is listed under its start position. */
  predicate ListsCompleteFor(vertices: seq<Position>, edges: seq<MeshEdge>, lists: map<Position, seq<nat>>)
    requires StartsInRange(vertices, edges)
  {
    forall i | 0 <= i < |edges| :: i in MultiFind(lists, vertices[edges[i].vertex0])
  }

  /** Appending an edge and listing its index under its start position
      keeps the lists sound and complete. */
  lemma AppendKeepsLists(vertices: seq<Position>, edges: seq<MeshEdge>, lists: map<Position, seq<nat>>, e: MeshEdge)
    requires StartsInRange(vertices, edges) && e.vertex0 < |vertices|
    requires ListsSoundFor(vertices, edges, lists) && ListsCompleteFor(vertices, edges, lists)
    ensures StartsInRange(vertices, edges + [e])
    ensures var key := vertices[e.vertex0];
      var lists' := lists[key := MultiFind(lists, key) + [|edges|]];
      ListsSoundFor(vertices, edges + [e], lists') && ListsCompleteFor(vertices, edges + [e], lists')
  {
    var key := vertices[e.vertex0];
    var n := |edges|;
    var edges' := edges + [e];
    var lists' := lists[key := MultiFind(lists, key) + [n]];
    assert StartsInRange(vertices, edges') by {
      forall i | 0 <= i < |edges'| ensures edges'[i].vertex0 < |vertices| {
        if i < n {
          assert edges'[i] == edges[i];
        }
      }
    }
    forall p | p in lists' ensures forall j | 0 <= j < |lists'[p]| ::
      lists'[p][j] < |edges'| && vertices[edges'[lists'[p][j]].vertex0] == p
    {
      forall j | 0 <= j < |lists'[p]| ensures lists'[p][j] < |edges'| && vertices[edges'[lists'[p][j]].vertex0] == p {
        if p != key || j < |lists'[p]| - 1 {
          assert lists'[p][j] == lists[p][j];
          assert edges'[lists'[p][j]] == edges[lists'[p][j]];
        }
      }
    }
    forall i | 0 <= i < |edges'| ensures i in MultiFind(lists', vertices[edges'[i].vertex0]) {
      if i < n {
        assert edges'[i] == edges[i];
        assert i in MultiFind(lists, vertices[edges[i].vertex0]);
      }
    }
  }

  class YEdgeBuilder {
    const Indices: seq<u32>
    const Vertices: seq<Position>
    var Edges: seq<MeshEdge>
    /** VertexToEdgeList: for each start position, the edges starting
        there. */
    var VertexToEdgeList: map<Position, seq<nat>>

    predicate EdgesOk()
      reads this
      requires IndicesInRange(Indices, |Vertices|)
    {
      forall i | 0 <= i < |Edges| :: EdgeOk(Indices, Vertices, Edges[i])
    }

    /** Every listed edge exists and starts at its key. */
    predicate ListsSound()
      reads this
      requires IndicesInRange(Indices, |Vertices|) && EdgesOk()
    {
      ListsSoundFor(Vertices, Edges, VertexToEdgeList)
    }

    /** Every edge is listed under its start position. */
    predicate ListsComplete()
      reads this
      requires IndicesInRange(Indices, |Vertices|) && EdgesOk()
    {
      ListsCompleteFor(Vertices, Edges, VertexToEdgeList)
    }

    predicate Valid()
      reads this
    {
      IndicesInRange(Indices, |Vertices|) && EdgesOk() && ListsSound() && ListsComplete()
    }

    /** The constructor empties the output edge array. */
    constructor(inIndices: seq<u32>, inVertices: seq<Position>)
      requires IndicesInRange(inIndices, |inVertices|)
      ensures Valid()
      ensures Indices == inIndices && Vertices == inVertices
      ensures Edges == [] && VertexToEdgeList == map[]
    {
      Indices := inIndices;
      Vertices := inVertices;
      Edges := [];
      VertexToEdgeList := map[];
    }

    /** FindOppositeEdge: an edge that starts where `index2` sits, ends
        where `index1` sits and has a free second face, or None when no
        edge does. */
    method FindOppositeEdge(index1: nat, index2: nat) returns (found: Option<nat>)
      requires Valid()
      requires index1 < |Vertices| && index2 < |Vertices|
      ensures found.None? <==> forall i :: !IsOpposite(Vertices, Edges, index1, index2, i)
      ensures found.Some? ==> IsOpposite(Vertices, Edges, index1, index2, found.value)
    {
      found := None;
      var edgeList := MultiFind(VertexToEdgeList, Vertices[index2]);
      var edgeIndex := 0;
      while edgeIndex < |edgeList| && found.None?
        invariant 0 <= edgeIndex <= |edgeList|
        invariant found.None? ==> forall j | 0 <= j < edgeIndex :: !IsOpposite(Vertices, Edges, index1, index2, edgeList[j])
        invariant found.Some? ==> IsOpposite(Vertices, Edges, index1, index2, found.value)
      {
        var other := edgeList[edgeIndex];
        if DoesEdgeMatch(Vertices, index1, Edges[other]) {
          found := Some(other);
        }
        edgeIndex := edgeIndex + 1;
      }
    }

    /** Appends a new edge and lists it under its start position. */
    method AppendEdge(index1: nat, index2: nat, triangle: nat)
      requires Valid()
      requires TriangleHasEdge(Indices, triangle, index1, index2)
      modifies this
      ensures Valid()
      ensures Edges == old(Edges) + [MeshEdge(index1, index2, triangle, -1)]
    {
      var key := Vertices[index1];
      var n := |Edges|;
      Edges := Edges + [MeshEdge(index1, index2, triangle, -1)];
      VertexToEdgeList := VertexToEdgeList[key := MultiFind(VertexToEdgeList, key) + [n]];
      assert EdgesOk() by {
        forall i | 0 <= i < |Edges| ensures EdgeOk(Indices, Vertices, Edges[i]) {
          if i < n {
            assert Edges[i] == old(Edges)[i];
          }
        }
      }
      AppendKeepsLists(Vertices, old(Edges), old(VertexToEdgeList), MeshEdge(index1, index2, triangle, -1));
    }

    /** Sets the second face of edge `j`. */
    method FillFace(j: nat, triangle: nat, index1: nat, index2: nat)
      requires Valid()
      requires index1 < |Vertices| && index2 < |Vertices|
      requires IsOpposite(Vertices, Edges, index1, index2, j)
      requires TriangleHasEdge(Indices, triangle, index1, index2)
      modifies this
      ensures Valid()
      ensures Edges == old(Edges)[j := old(Edges)[j].(face1 := triangle)]
      ensures VertexToEdgeList == old(VertexToEdgeList)
    {
      Edges := Edges[j := Edges[j].(face1 := triangle)];
      assert forall i | 0 <= i < |Edges| :: Edges[i].vertex0 == old(Edges)[i].vertex0;
      assert EdgeOk(Indices, Vertices, Edges[j]);
    }

    /** AddEdge: fills the free face of an opposite edge if there is one,
        otherwise adds the edge with faces (triangle, -1). Either way one
        more directed edge is accounted for. */
    method AddEdge(index1: nat, index2: nat, triangle: nat)
      requires Valid()
      requires TriangleHasEdge(Indices, triangle, index1, index2)
      modifies this
      ensures Valid()
      ensures AddEdgeStep(Vertices, old(Edges), Edges, index1, index2, triangle)
      ensures |Edges| + Filled(Edges) == |old(Edges)| + Filled(old(Edges)) + 1
      ensures |Edges| <= |old(Edges)| + 1
    {
      var other := FindOppositeEdge(index1, index2);
      if other.None? {
        AppendEdge(index1, index2, triangle);
        FilledAppend(old(Edges), MeshEdge(index1, index2, triangle, -1));
      } else {
        FillFace(other.value, triangle, index1, index2);
        FilledFill(old(Edges), other.value, triangle);
      }
    }

    /** FindEdges: walks the Indices.Num() / 3 triangles and adds their
        three directed edges. Every directed edge either adds an edge or
        fills one free second face, so the edges added plus the faces
        filled come to three per triangle. */
    method FindEdges()
      requires Valid()
      modifies this
      ensures Valid()
      ensures |Edges| + Filled(Edges) == |old(Edges)| + Filled(old(Edges)) + 3 * (|Indices| / 3)
      ensures |Edges| <= |old(Edges)| + |Indices|
    {
      var triangleCount := |Indices| / 3;
      for triangle := 0 to triangleCount
        invariant Valid()
        invariant |Edges| + Filled(Edges) == |old(Edges)| + Filled(old(Edges)) + 3 * triangle
        invariant |Edges| <= |old(Edges)| + 3 * triangle
      {
        AddTriangle(triangle);
      }
    }

    /** The body of FindEdges' loop: the three directed edges of one
        triangle. */
    method AddTriangle(triangle: nat)
      requires Valid()
      requires 3 * triangle + 2 < |Indices|
      modifies this
      ensures Valid()
      ensures |Edges| + Filled(Edges) == |old(Edges)| + Filled(old(Edges)) + 3
      ensures |Edges| <= |old(Edges)| + 3
    {
      var triangleIndex := triangle * 3;
      var index1 := Indices[triangleIndex] as nat;
      var index2 := Indices[triangleIndex + 1] as nat;
      var index3 := Indices[triangleIndex + 2] as nat;
      assert TriangleHasEdge(Indices, triangle, index1, index2)
        && TriangleHasEdge(Indices, triangle, index2, index3)
        && TriangleHasEdge(Indices, triangle, index3, index1);
      AddEdge(index1, index2, triangle);
      AddEdge(index2, index3, triangle);
      AddEdge(index3, index1, triangle);
    }
  }

  /** The reserve made by the constructor suffices: starting from the
      empty edge array, at most one edge per index is added, and the
      first faces of the edges are triangles of the list. */
  lemma FreshEdgeBound(indices: seq<u32>, vertices: seq<Position>, edges: seq<MeshEdge>)
    requires IndicesInRange(indices, |vertices|)
    requires forall i | 0 <= i < |edges| :: EdgeOk(indices, vertices, edges[i])
    requires |edges| + Filled(edges) == 3 * (|indices| / 3)
    ensures |edges| <= |indices|
    ensures forall i | 0 <= i < |edges| :: 0 <= edges[i].face0 < |indices| / 3
    ensures forall i | 0 <= i < |edges| :: edges[i].face1 == -1 || 0 <= edges[i].face1 < |indices| / 3
  {
  }
}
