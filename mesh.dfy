// The Mesh of learnply: growable vertex, index and colour buffers filled one
// triangle at a time, the adjacency builder AnalyzeVertices and the
// critical-point classifier FindCriticalPoints, each proved against the
// functions of the Adjacency and CriticalPoints modules.

module Meshes {
  import opened Geometry
  import opened Adjacency
  import opened CriticalPoints

  /** The fixed colours AddTriangle gives the corners v0, v1 and v2. */
  const Red := Vector3(1.0, 0.0, 0.0)
  const Green := Vector3(0.0, 1.0, 0.0)
  const Blue := Vector3(0.0, 0.0, 1.0)

  /**
   * The first linear scan of AnalyzeVertices: the index of the first analysed
   * position equal to v, or -1.
   */
  method IndexOfMatch(analyzed: seq<Vector3>, v: Vector3) returns (index: int)
    ensures index == FirstMatch(analyzed, v)
  {
    index := -1;
    var k := 0;
    while k < |analyzed|
      invariant 0 <= k <= |analyzed|
      invariant forall t :: 0 <= t < k ==> !Equals(v, analyzed[t])
    {
      if Equals(v, analyzed[k]) {
        index := k;
        break;
      }
      k := k + 1;
    }
    FirstMatchSpec(analyzed, v);
  }

  /**
   * The second linear scan of AnalyzeVertices: whether some element of a
   * neighbour list equals v1, and whether some element equals v2. The scan
   * stops early once both are found.
   */
  method ScanNeighbours(neighbours: seq<Vector3>, v1: Vector3, v2: Vector3) returns (containsV1: bool, containsV2: bool)
    ensures containsV1 == Mentions(neighbours, v1)
    ensures containsV2 == Mentions(neighbours, v2)
  {
    containsV1, containsV2 := false, false;
    var k := 0;
    while k < |neighbours|
      invariant 0 <= k <= |neighbours|
      invariant containsV1 <==> exists t :: 0 <= t < k && Equals(neighbours[t], v1)
      invariant containsV2 <==> exists t :: 0 <= t < k && Equals(neighbours[t], v2)
    {
      if Equals(neighbours[k], v1) {
        containsV1 := true;
      }
      if Equals(neighbours[k], v2) {
        containsV2 := true;
      }
      if containsV1 && containsV2 {
        break;
      }
      k := k + 1;
    }
  }

  /** The inner loop of FindCriticalPoints: is currPos a maximum, is it a minimum, of y among its neighbours. */
  method Classify(currPos: Vector3, neighbours: seq<Vector3>) returns (isMax: bool, isMin: bool)
    ensures isMax == IsExtremum(Maximum, currPos, neighbours)
    ensures isMin == IsExtremum(Minimum, currPos, neighbours)
  {
    isMax, isMin := true, true;
    var j := 0;
    while j < |neighbours|
      invariant 0 <= j <= |neighbours|
      invariant isMax <==> forall t :: 0 <= t < j ==> neighbours[t].y <= currPos.y
      invariant isMin <==> forall t :: 0 <= t < j ==> neighbours[t].y >= currPos.y
    {
      var neighbour := neighbours[j];
      if neighbour.y > currPos.y {
        isMax := false;
      }
      if neighbour.y < currPos.y {
        isMin := false;
      }
      j := j + 1;
    }
  }

  class Mesh {
    var vertices: seq<Vector3>
    var triangles: seq<nat>
    var colors: seq<real>

    var analyzedVertices: seq<Vector3>
    var neighboursList: seq<seq<Vector3>>

    var mins: seq<Vector3>
    var maxs: seq<Vector3>
    var saddles: seq<Vector3>

    /**
     * The buffer invariant AddVertex keeps: one index per vertex, the index
     * buffer is the identity, and three colour components per vertex.
     */
    predicate BuffersAligned()
      reads this
    {
      && |triangles| == |vertices|
      && (forall k :: 0 <= k < |triangles| ==> triangles[k] == k)
      && |colors| == 3 * |vertices|
    }

    /** The invariant AddTriangle keeps: aligned buffers holding whole triangles. */
    predicate Triangulated()
      reads this
    {
      BuffersAligned() && |vertices| % 3 == 0
    }

    constructor ()
      ensures vertices == [] && triangles == [] && colors == []
      ensures analyzedVertices == [] && neighboursList == []
      ensures mins == [] && maxs == [] && saddles == []
      ensures Triangulated()
    {
      vertices, triangles, colors := [], [], [];
      analyzedVertices, neighboursList := [], [];
      mins, maxs, saddles := [], [], [];
    }

    /** Appends one corner, its own index and its colour; no deduplication. */
    method AddVertex(v: Vector3, color: Vector3)
      modifies this`vertices, this`triangles, this`colors
      ensures vertices == old(vertices) + [v]
      ensures triangles == old(triangles) + [|old(vertices)|]
      ensures colors == old(colors) + [color.x, color.y, color.z]
      ensures old(BuffersAligned()) ==> BuffersAligned()
    {
      vertices := vertices + [v];
      triangles := triangles + [|vertices| - 1];
      colors := colors + [color.x];
      colors := colors + [color.y];
      colors := colors + [color.z];
    }

    /** Appends the three corners of a triangle, coloured red, green and blue. */
    method AddTriangle(triangle: Triangle)
      modifies this`vertices, this`triangles, this`colors
      ensures vertices == old(vertices) + [triangle.v0, triangle.v1, triangle.v2]
      ensures triangles == old(triangles) + [|old(vertices)|, |old(vertices)| + 1, |old(vertices)| + 2]
      ensures colors == old(colors) + [1.0, 0.0, 0.0, 0.0, 1.0, 0.0, 0.0, 0.0, 1.0]
      ensures |vertices| == |old(vertices)| + 3
      ensures old(BuffersAligned()) ==> BuffersAligned()
      ensures old(Triangulated()) ==> Triangulated() && Indexable(vertices, triangles)
    {
      AddVertex(triangle.v0, Red);
      AddVertex(triangle.v1, Green);
      AddVertex(triangle.v2, Blue);
      if old(Triangulated()) {
        TriangulatedIsIndexable();
      }
    }

    /** Aligned buffers of whole triangles are valid input for the adjacency builder. */
    lemma TriangulatedIsIndexable()
      requires Triangulated()
      ensures Indexable(vertices, triangles)
    {
    }

    /**
     * Rebuilds analyzedVertices and neighboursList from scratch: the result is
     * the adjacency of the whole index buffer, whatever the lists held before.
     */
    method AnalyzeVertices()
      requires Indexable(vertices, triangles)
      modifies this`analyzedVertices, this`neighboursList
      ensures Analysis(analyzedVertices, neighboursList) == Scan(vertices, triangles, |triangles|)
      ensures |analyzedVertices| == |neighboursList|
      ensures Separated(analyzedVertices)
      ensures forall c :: 0 <= c < |triangles| ==> Covers(analyzedVertices, Corner(vertices, triangles, c))
    {
      analyzedVertices := [];
      neighboursList := [];
      var i := 0;
      while i < |triangles|
        invariant 0 <= i <= |triangles| && i % 3 == 0
        invariant Analysis(analyzedVertices, neighboursList) == Scan(vertices, triangles, i)
      {
        NextTriangleFits(i, |triangles|);
        AnalyzeTriangle(i);
        i := i + 3;
      }
      ScanSeparated(vertices, triangles, |triangles|);
      ScanCovers(vertices, triangles, |triangles|);
    }

    /** The three corners of the triangle starting at slot i, in order. */
    method AnalyzeTriangle(i: nat)
      requires Indexable(vertices, triangles) && i % 3 == 0 && i + 3 <= |triangles|
      requires Analysis(analyzedVertices, neighboursList) == Scan(vertices, triangles, i)
      modifies this`analyzedVertices, this`neighboursList
      ensures Analysis(analyzedVertices, neighboursList) == Scan(vertices, triangles, i + 3)
    {
      ghost var vs, ts := vertices, triangles;
      var j := 0;
      while j < 3
        invariant 0 <= j <= 3 && vertices == vs && triangles == ts
        invariant Analysis(analyzedVertices, neighboursList) == Scan(vs, ts, i + j)
      {
        AnalyzeCorner(i, j);
        j := j + 1;
      }
    }

    /**
     * The body of AnalyzeVertices for corner j of the triangle starting at
     * slot i: a new position gets the list [v1, v2]; a known one gains v1 and
     * v2 where no element of its list equals them.
     */
    method AnalyzeCorner(i: nat, j: nat)
      requires Indexable(vertices, triangles) && i % 3 == 0 && j < 3 && i + 3 <= |triangles|
      requires |analyzedVertices| == |neighboursList|
      modifies this`analyzedVertices, this`neighboursList
      ensures Analysis(analyzedVertices, neighboursList)
           == Step(old(Analysis(analyzedVertices, neighboursList)),
                   vertices[triangles[i + j]], vertices[triangles[i + 1]], vertices[triangles[i + 2]])
      ensures old(Analysis(analyzedVertices, neighboursList)) == Scan(vertices, triangles, i + j)
              ==> Analysis(analyzedVertices, neighboursList) == Scan(vertices, triangles, i + j + 1)
    {
      ScanNext(vertices, triangles, i, j);
      ghost var before := Analysis(analyzedVertices, neighboursList);
      var v := vertices[triangles[i + j]];
      var index := IndexOfMatch(analyzedVertices, v);
      if index == -1 {
        var neighbours := [vertices[triangles[i + 1]], vertices[triangles[i + 2]]];
        analyzedVertices := analyzedVertices + [v];
        neighboursList := neighboursList + [neighbours];
      } else {
        var v1 := vertices[triangles[i + 1]];
        var v2 := vertices[triangles[i + 2]];
        var containsV1, containsV2 := ScanNeighbours(neighboursList[index], v1, v2);
        ghost var grown := before.neighboursList[index];
        if !containsV1 {
          neighboursList := neighboursList[index := neighboursList[index] + [v1]];
          grown := grown + [v1];
        }
        if !containsV2 {
          neighboursList := neighboursList[index := neighboursList[index] + [v2]];
          grown := grown + [v2];
        }
        assert neighboursList == before.neighboursList[index := grown];
        assert grown == before.neighboursList[index] + (if containsV1 then [] else [v1]) + (if containsV2 then [] else [v2]);
        StepOfKnown(before, v, v1, v2, index, containsV1, containsV2);
      }
    }

    static lemma NextTriangleFits(i: int, n: int)
      requires 0 <= i < n && i % 3 == 0 && n % 3 == 0
      ensures i + 3 <= n && (i + 3) % 3 == 0
    {
    }

    /** The corner after the first i + j is corner j of the triangle starting at slot i. */
    static lemma ScanNext(vs: seq<Vector3>, ts: seq<nat>, i: nat, j: nat)
      requires Indexable(vs, ts) && i % 3 == 0 && j < 3 && i + 3 <= |ts|
      ensures Scan(vs, ts, i + j + 1) == Step(Scan(vs, ts, i + j), vs[ts[i + j]], vs[ts[i + 1]], vs[ts[i + 2]])
    {
      assert (i + j) - (i + j) % 3 == i;
    }

    /**
     * Clears the three output lists and reports, in index order, every
     * analysed position that is a minimum (maximum) of y among its
     * neighbours. Saddles are never reported.
     */
    method FindCriticalPoints()
      requires |analyzedVertices| <= |neighboursList|
      modifies this`mins, this`maxs, this`saddles
      ensures saddles == []
      ensures mins == Critical(analyzedVertices, neighboursList, Minimum, |analyzedVertices|)
      ensures maxs == Critical(analyzedVertices, neighboursList, Maximum, |analyzedVertices|)
    {
      mins := [];
      maxs := [];
      saddles := [];
      var i := 0;
      while i < |analyzedVertices|
        invariant 0 <= i <= |analyzedVertices|
        invariant mins == Critical(analyzedVertices, neighboursList, Minimum, i)
        invariant maxs == Critical(analyzedVertices, neighboursList, Maximum, i)
        invariant saddles == []
      {
        var currPos := analyzedVertices[i];
        var isMax, isMin := Classify(currPos, neighboursList[i]);
        if isMin {
          mins := mins + [currPos];
        }
        if isMax {
          maxs := maxs + [currPos];
        }
        i := i + 1;
      }
    }
  }

  /** Two runs of the adjacency builder in a row leave the same lists. */
  method AnalyzeVerticesTwice(mesh: Mesh) returns (first: seq<Vector3>, firstLists: seq<seq<Vector3>>)
    requires Indexable(mesh.vertices, mesh.triangles)
    modifies mesh`analyzedVertices, mesh`neighboursList
    ensures mesh.analyzedVertices == first && mesh.neighboursList == firstLists
  {
    mesh.AnalyzeVertices();
    first, firstLists := mesh.analyzedVertices, mesh.neighboursList;
    mesh.AnalyzeVertices();
  }

  /**
   * The pipeline: after AnalyzeVertices and FindCriticalPoints, an analysed
   * position is reported as a minimum (maximum) exactly when no neighbour in
   * its list lies lower (higher).
   */
  method AnalyzeAndClassify(mesh: Mesh)
    requires Indexable(mesh.vertices, mesh.triangles)
    modifies mesh`analyzedVertices, mesh`neighboursList, mesh`mins, mesh`maxs, mesh`saddles
    ensures mesh.saddles == []
    ensures |mesh.analyzedVertices| == |mesh.neighboursList|
    ensures forall i :: 0 <= i < |mesh.analyzedVertices| ==>
      && (mesh.analyzedVertices[i] in mesh.mins <==> IsExtremum(Minimum, mesh.analyzedVertices[i], mesh.neighboursList[i]))
      && (mesh.analyzedVertices[i] in mesh.maxs <==> IsExtremum(Maximum, mesh.analyzedVertices[i], mesh.neighboursList[i]))
  {
    mesh.AnalyzeVertices();
    mesh.FindCriticalPoints();
    SeparatedDistinct(mesh.analyzedVertices);
    forall i | 0 <= i < |mesh.analyzedVertices|
      ensures && (mesh.analyzedVertices[i] in mesh.mins <==> IsExtremum(Minimum, mesh.analyzedVertices[i], mesh.neighboursList[i]))
              && (mesh.analyzedVertices[i] in mesh.maxs <==> IsExtremum(Maximum, mesh.analyzedVertices[i], mesh.neighboursList[i]))
    {
      CriticalMembership(mesh.analyzedVertices, mesh.neighboursList, Minimum, i);
      CriticalMembership(mesh.analyzedVertices, mesh.neighboursList, Maximum, i);
    }
  }
}
