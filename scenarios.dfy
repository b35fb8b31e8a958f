// Worked meshes that show what the adjacency builder and the classifier do
// as written: the candidate neighbours of every corner are the triangle's
// second and third corners, so a second or third corner lists itself, a
// position that sits only in first slots is nobody's neighbour, and the
// relation is not symmetric.

module Scenarios {
  import opened Geometry
  import opened Adjacency
  import opened CriticalPoints
  import opened Meshes

  const A := Vector3(0.0, 0.0, 0.0)
  const B := Vector3(1.0, 0.0, 0.0)
  const C := Vector3(0.0, 1.0, 0.0)
  const D := Vector3(1.0, 1.0, 2.0)

  /** The buffers AddTriangle builds for the triangles (A, B, C) and (B, C, D). */
  const SharedEdgeVertices := [A, B, C, B, C, D]
  const SharedEdgeTriangles: seq<nat> := [0, 1, 2, 3, 4, 5]

  /** A corner with no analysed match opens a new entry holding its triangle's second and third slots. */
  lemma ScanOpens(vs: seq<Vector3>, ts: seq<nat>, n: nat, a: Analysis, v: Vector3, v1: Vector3, v2: Vector3)
    requires Indexable(vs, ts) && 0 < n <= |ts| && Scan(vs, ts, n - 1) == a
    requires v == Corner(vs, ts, n - 1) && v1 == SecondCorner(vs, ts, n - 1) && v2 == ThirdCorner(vs, ts, n - 1)
    requires FirstMatch(a.analyzedVertices, v) == -1
    ensures Scan(vs, ts, n) == Analysis(a.analyzedVertices + [v], a.neighboursList + [[v1, v2]])
  {
  }

  /** A corner matching entry index appends the slots that entry's list does not mention yet. */
  lemma ScanExtends(vs: seq<Vector3>, ts: seq<nat>, n: nat, a: Analysis, v: Vector3, v1: Vector3, v2: Vector3,
                    index: int, grown: seq<Vector3>)
    requires Indexable(vs, ts) && 0 < n <= |ts| && Scan(vs, ts, n - 1) == a
    requires v == Corner(vs, ts, n - 1) && v1 == SecondCorner(vs, ts, n - 1) && v2 == ThirdCorner(vs, ts, n - 1)
    requires index == FirstMatch(a.analyzedVertices, v) && index != -1
    requires grown == a.neighboursList[index]
      + (if Mentions(a.neighboursList[index], v1) then [] else [v1])
      + (if Mentions(a.neighboursList[index], v2) then [] else [v2])
    ensures Scan(vs, ts, n) == Analysis(a.analyzedVertices, a.neighboursList[index := grown])
  {
  }

  /** An index whose position matches v, with no match before it, is the first match. */
  lemma FirstMatchAt(analyzed: seq<Vector3>, v: Vector3, i: nat)
    requires i < |analyzed| && Equals(v, analyzed[i])
    requires forall k :: 0 <= k < i ==> !Equals(v, analyzed[k])
    ensures FirstMatch(analyzed, v) == i
  {
    FirstMatchSpec(analyzed, v);
  }

  /** The corners of the shared-edge buffers and their triangles' second and third slots. */
  lemma SharedEdgeCorners(vs: seq<Vector3>, ts: seq<nat>)
    requires vs == SharedEdgeVertices && ts == SharedEdgeTriangles
    ensures Indexable(vs, ts)
    ensures Corner(vs, ts, 0) == A && SecondCorner(vs, ts, 0) == B && ThirdCorner(vs, ts, 0) == C
    ensures Corner(vs, ts, 1) == B && SecondCorner(vs, ts, 1) == B && ThirdCorner(vs, ts, 1) == C
    ensures Corner(vs, ts, 2) == C && SecondCorner(vs, ts, 2) == B && ThirdCorner(vs, ts, 2) == C
    ensures Corner(vs, ts, 3) == B && SecondCorner(vs, ts, 3) == C && ThirdCorner(vs, ts, 3) == D
    ensures Corner(vs, ts, 4) == C && SecondCorner(vs, ts, 4) == C && ThirdCorner(vs, ts, 4) == D
    ensures Corner(vs, ts, 5) == D && SecondCorner(vs, ts, 5) == C && ThirdCorner(vs, ts, 5) == D
  {
  }

  /** The matches the adjacency builder meets on the shared-edge mesh. */
  lemma SharedEdgeMatches()
    ensures FirstMatch([A], B) == -1 && FirstMatch([A, B], C) == -1
    ensures FirstMatch([A, B, C], B) == 1 && FirstMatch([A, B, C], C) == 2
    ensures FirstMatch([A, B, C], D) == -1
    ensures Mentions([B, C], C) && !Mentions([B, C], D)
  {
    assert FirstMatch([A], B) == -1 by {
      assert !Equals(B, A);
    }
    assert FirstMatch([A, B], C) == -1 by {
      assert !Equals(C, A) && !Equals(C, B);
    }
    assert FirstMatch([A, B, C], B) == 1 by {
      assert !Equals(B, A) && Equals(B, B);
    }
    assert FirstMatch([A, B, C], C) == 2 by {
      assert !Equals(C, A) && !Equals(C, B) && Equals(C, C);
      FirstMatchAt([A, B, C], C, 2);
    }
    assert FirstMatch([A, B, C], D) == -1 by {
      assert !Equals(D, A) && !Equals(D, B) && !Equals(D, C);
      FirstMatchSpec([A, B, C], D);
    }
    assert Mentions([B, C], C) by {
      assert Equals([B, C][1], C);
    }
    assert !Equals(B, D) && !Equals(C, D);
  }

  lemma SharedEdgeFirstTriangle(vs: seq<Vector3>, ts: seq<nat>)
    requires vs == SharedEdgeVertices && ts == SharedEdgeTriangles
    ensures Indexable(vs, ts)
    ensures Scan(vs, ts, 3) == Analysis([A, B, C], [[B, C], [B, C], [B, C]])
  {
    SharedEdgeCorners(vs, ts);
    SharedEdgeMatches();
    ScanOpens(vs, ts, 1, Analysis([], []), A, B, C);
    ScanOpens(vs, ts, 2, Analysis([A], [[B, C]]), B, B, C);
    ScanOpens(vs, ts, 3, Analysis([A, B], [[B, C], [B, C]]), C, B, C);
  }

  /**
   * Two triangles sharing the edge BC. B and C list themselves, A is in no
   * list, and C is a neighbour of A while A is not a neighbour of C.
   */
  lemma SharedEdgeAdjacency(vs: seq<Vector3>, ts: seq<nat>)
    requires vs == SharedEdgeVertices && ts == SharedEdgeTriangles
    ensures Indexable(vs, ts)
    ensures Scan(vs, ts, |ts|) == Analysis([A, B, C, D], [[B, C], [B, C, D], [B, C, D], [C, D]])
  {
    SharedEdgeFirstTriangle(vs, ts);
    SharedEdgeCorners(vs, ts);
    SharedEdgeMatches();
    ScanExtends(vs, ts, 4, Analysis([A, B, C], [[B, C], [B, C], [B, C]]), B, C, D, 1, [B, C, D]);
    ScanExtends(vs, ts, 5, Analysis([A, B, C], [[B, C], [B, C, D], [B, C]]), C, C, D, 2, [B, C, D]);
    ScanOpens(vs, ts, 6, Analysis([A, B, C], [[B, C], [B, C, D], [B, C, D]]), D, C, D);
  }

  /**
   * Heights of A, B, C, D are 0, 0, 1, 1. A and B see nothing lower, C sees
   * nothing higher, and D, whose list holds only C and itself, sees neither.
   */
  lemma SharedEdgeCriticalPoints()
    ensures Critical([A, B, C, D], [[B, C], [B, C, D], [B, C, D], [C, D]], Minimum, 4) == [A, B, D]
    ensures Critical([A, B, C, D], [[B, C], [B, C, D], [B, C, D], [C, D]], Maximum, 4) == [C, D]
  {
    var keys, lists := [A, B, C, D], [[B, C], [B, C, D], [B, C, D], [C, D]];
    assert IsExtremum(Minimum, A, lists[0]) && !IsExtremum(Maximum, A, lists[0]) by {
      assert lists[0][1].y > A.y;
    }
    assert IsExtremum(Minimum, B, lists[1]) && !IsExtremum(Maximum, B, lists[1]) by {
      assert lists[1][1].y > B.y;
    }
    assert !IsExtremum(Minimum, C, lists[2]) && IsExtremum(Maximum, C, lists[2]) by {
      assert lists[2][0].y < C.y;
    }
    assert IsExtremum(Minimum, D, lists[3]) && IsExtremum(Maximum, D, lists[3]);
    assert Critical(keys, lists, Minimum, 1) == [A];
    assert Critical(keys, lists, Minimum, 2) == [A, B];
    assert Critical(keys, lists, Minimum, 3) == [A, B];
    assert Critical(keys, lists, Maximum, 1) == [];
    assert Critical(keys, lists, Maximum, 2) == [];
    assert Critical(keys, lists, Maximum, 3) == [C];
  }

  /**
   * Building the shared-edge mesh with AddTriangle and running the pipeline
   * reports A, B and D as minima and C and D as maxima.
   */
  method SharedEdgePipeline() returns (mins: seq<Vector3>, maxs: seq<Vector3>)
    ensures mins == [A, B, D] && maxs == [C, D]
  {
    var mesh := new Mesh();
    mesh.AddTriangle(Triangle(A, B, C));
    mesh.AddTriangle(Triangle(B, C, D));
    assert mesh.vertices == SharedEdgeVertices && mesh.triangles == SharedEdgeTriangles;
    SharedEdgeAdjacency(mesh.vertices, mesh.triangles);
    mesh.AnalyzeVertices();
    mesh.FindCriticalPoints();
    SharedEdgeCriticalPoints();
    mins, maxs := mesh.mins, mesh.maxs;
  }

  const P := Vector3(0.0, 0.0, 0.0)
  const P' := Vector3(0.0, 0.0, 0.000001)
  const Q := Vector3(1.0, 0.0, 0.0)
  const R := Vector3(0.0, 1.0, 0.0)
  const S := Vector3(0.0, 0.0, 1.0)
  const U := Vector3(1.0, 1.0, 1.0)

  /** The corners of the tolerance buffers and their triangles' second and third slots. */
  lemma ToleranceCorners(vs: seq<Vector3>, ts: seq<nat>)
    requires vs == [P, Q, R, P', S, U] && ts == [0, 1, 2, 3, 4, 5]
    ensures Indexable(vs, ts)
    ensures Corner(vs, ts, 0) == P && SecondCorner(vs, ts, 0) == Q && ThirdCorner(vs, ts, 0) == R
    ensures Corner(vs, ts, 1) == Q && SecondCorner(vs, ts, 1) == Q && ThirdCorner(vs, ts, 1) == R
    ensures Corner(vs, ts, 2) == R && SecondCorner(vs, ts, 2) == Q && ThirdCorner(vs, ts, 2) == R
    ensures Corner(vs, ts, 3) == P' && SecondCorner(vs, ts, 3) == S && ThirdCorner(vs, ts, 3) == U
    ensures Corner(vs, ts, 4) == S && SecondCorner(vs, ts, 4) == S && ThirdCorner(vs, ts, 4) == U
    ensures Corner(vs, ts, 5) == U && SecondCorner(vs, ts, 5) == S && ThirdCorner(vs, ts, 5) == U
  {
  }

  /** The matches the adjacency builder meets on the tolerance mesh. */
  lemma ToleranceMatches()
    ensures FirstMatch([P], Q) == -1 && FirstMatch([P, Q], R) == -1
    ensures FirstMatch([P, Q, R], P') == 0 && FirstMatch([P, Q, R], S) == -1
    ensures FirstMatch([P, Q, R, S], U) == -1
    ensures !Mentions([Q, R], S) && !Mentions([Q, R], U)
  {
    assert FirstMatch([P], Q) == -1 by {
      assert !Equals(Q, P);
    }
    assert FirstMatch([P, Q], R) == -1 by {
      assert !Equals(R, P) && !Equals(R, Q);
    }
    assert FirstMatch([P, Q, R], P') == 0 by {
      assert Equals(P', P);
    }
    assert FirstMatch([P, Q, R], S) == -1 by {
      assert !Equals(S, P) && !Equals(S, Q) && !Equals(S, R);
      FirstMatchSpec([P, Q, R], S);
    }
    assert FirstMatch([P, Q, R, S], U) == -1 by {
      assert !Equals(U, P) && !Equals(U, Q) && !Equals(U, R) && !Equals(U, S);
      FirstMatchSpec([P, Q, R, S], U);
    }
    assert !Equals(Q, S) && !Equals(R, S) && !Equals(Q, U) && !Equals(R, U);
  }

  lemma ToleranceFirstTriangle(vs: seq<Vector3>, ts: seq<nat>)
    requires vs == [P, Q, R, P', S, U] && ts == [0, 1, 2, 3, 4, 5]
    ensures Indexable(vs, ts)
    ensures Scan(vs, ts, 3) == Analysis([P, Q, R], [[Q, R], [Q, R], [Q, R]])
  {
    ToleranceCorners(vs, ts);
    ToleranceMatches();
    ScanOpens(vs, ts, 1, Analysis([], []), P, Q, R);
    ScanOpens(vs, ts, 2, Analysis([P], [[Q, R]]), Q, Q, R);
    ScanOpens(vs, ts, 3, Analysis([P, Q], [[Q, R], [Q, R]]), R, Q, R);
  }

  /**
   * Corners 1e-6 apart from different triangles (P in (P, Q, R), P' in
   * (P', S, U)) merge into the one entry of P, whose list gains S and U.
   */
  lemma ToleranceMerge(vs: seq<Vector3>, ts: seq<nat>)
    requires vs == [P, Q, R, P', S, U] && ts == [0, 1, 2, 3, 4, 5]
    ensures Indexable(vs, ts)
    ensures Scan(vs, ts, |ts|) == Analysis([P, Q, R, S, U], [[Q, R, S, U], [Q, R], [Q, R], [S, U], [S, U]])
  {
    ToleranceFirstTriangle(vs, ts);
    ToleranceCorners(vs, ts);
    ToleranceMatches();
    ScanExtends(vs, ts, 4, Analysis([P, Q, R], [[Q, R], [Q, R], [Q, R]]), P', S, U, 0, [Q, R, S, U]);
    ScanOpens(vs, ts, 5, Analysis([P, Q, R], [[Q, R, S, U], [Q, R], [Q, R]]), S, S, U);
    ScanOpens(vs, ts, 6, Analysis([P, Q, R, S], [[Q, R, S, U], [Q, R], [Q, R], [S, U]]), U, S, U);
  }
}
