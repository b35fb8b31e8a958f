// The adjacency builder of Mesh::AnalyzeVertices, as a function of the vertex
// and index buffers.
//
// The builder walks the index buffer three indices (one triangle) at a time
// and, for each corner j of triangle i, looks up the first analysed position
// equal to vertices[triangles[i + j]]. The candidate neighbours it records are
// always vertices[triangles[i + 1]] and vertices[triangles[i + 2]], whatever j
// is. `Scan(vs, ts, n)` is the pair of lists after the first n corners.

module Adjacency {
  import opened Geometry

  /** The two parallel lists the builder fills: distinct positions and their neighbour lists. */
  datatype Analysis = Analysis(analyzedVertices: seq<Vector3>, neighboursList: seq<seq<Vector3>>)
  {
    predicate Parallel() {
      |analyzedVertices| == |neighboursList|
    }
  }

  /** Whole triangles only, and every index names a vertex. */
  predicate Indexable(vs: seq<Vector3>, ts: seq<nat>) {
    |ts| % 3 == 0 && forall c :: 0 <= c < |ts| ==> ts[c] < |vs|
  }

  /** The position of corner c of the index buffer. */
  function Corner(vs: seq<Vector3>, ts: seq<nat>, c: nat): Vector3
    requires Indexable(vs, ts) && c < |ts|
  {
    vs[ts[c]]
  }

  /** Corner 1 of the triangle holding corner c: the first candidate neighbour. */
  function SecondCorner(vs: seq<Vector3>, ts: seq<nat>, c: nat): Vector3
    requires Indexable(vs, ts) && c < |ts|
  {
    vs[ts[c - c % 3 + 1]]
  }

  /** Corner 2 of the triangle holding corner c: the second candidate neighbour. */
  function ThirdCorner(vs: seq<Vector3>, ts: seq<nat>, c: nat): Vector3
    requires Indexable(vs, ts) && c < |ts|
  {
    vs[ts[c - c % 3 + 2]]
  }

  /** The index of the first analysed position equal to v, or -1 when there is none. */
  function FirstMatch(analyzed: seq<Vector3>, v: Vector3): (index: int)
    ensures -1 <= index < |analyzed|
  {
    if |analyzed| == 0 then -1
    else if Equals(v, analyzed[0]) then 0
    else
      var rest := FirstMatch(analyzed[1..], v);
      if rest == -1 then -1 else rest + 1
  }

  /**
   * FirstMatch is -1 exactly when no analysed position equals v; otherwise
   * it is an index whose position equals v, with no equal position before it.
   */
  lemma {:induction false} FirstMatchSpec(analyzed: seq<Vector3>, v: Vector3)
    ensures var index := FirstMatch(analyzed, v);
      && (index == -1 <==> forall k :: 0 <= k < |analyzed| ==> !Equals(v, analyzed[k]))
      && (index != -1 ==> Equals(v, analyzed[index]))
      && (forall k :: 0 <= k < index ==> !Equals(v, analyzed[k]))
  {
    if |analyzed| > 0 && !Equals(v, analyzed[0]) {
      FirstMatchSpec(analyzed[1..], v);
      forall k | 1 <= k < |analyzed|
        ensures analyzed[k] == analyzed[1..][k - 1]
      {
      }
    }
  }

  /** Some element of a neighbour list equals p. */
  predicate Mentions(neighbours: seq<Vector3>, p: Vector3) {
    exists k :: 0 <= k < |neighbours| && Equals(neighbours[k], p)
  }

  /** Some analysed position is equal to p. */
  predicate Covers(analyzed: seq<Vector3>, p: Vector3) {
    exists k :: 0 <= k < |analyzed| && Equals(p, analyzed[k])
  }

  /** One corner v of a triangle whose candidate neighbours are v1 and v2. */
  function Step(a: Analysis, v: Vector3, v1: Vector3, v2: Vector3): (r: Analysis)
    requires a.Parallel()
    ensures r.Parallel()
  {
    var index := FirstMatch(a.analyzedVertices, v);
    if index == -1 then
      Analysis(a.analyzedVertices + [v], a.neighboursList + [[v1, v2]])
    else
      var ns := a.neighboursList[index];
      var grown := ns + (if Mentions(ns, v1) then [] else [v1]) + (if Mentions(ns, v2) then [] else [v2]);
      Analysis(a.analyzedVertices, a.neighboursList[index := grown])
  }

  /** The lists after the first n corners of the index buffer, starting from empty lists. */
  function Scan(vs: seq<Vector3>, ts: seq<nat>, n: nat): (r: Analysis)
    requires Indexable(vs, ts) && n <= |ts|
    ensures r.Parallel()
    ensures |r.analyzedVertices| <= n
  {
    if n == 0 then Analysis([], [])
    else
      Step(Scan(vs, ts, n - 1), Corner(vs, ts, n - 1), SecondCorner(vs, ts, n - 1), ThirdCorner(vs, ts, n - 1))
  }

  /** b extends a: positions and every existing list only had elements appended. */
  predicate Grows(a: Analysis, b: Analysis) {
    && a.analyzedVertices <= b.analyzedVertices
    && |a.neighboursList| <= |b.neighboursList|
    && forall k :: 0 <= k < |a.neighboursList| ==> a.neighboursList[k] <= b.neighboursList[k]
  }

  /** Every entry of r was created by one of the first n corners. */
  predicate Seeded(vs: seq<Vector3>, ts: seq<nat>, n: nat, r: Analysis)
    requires Indexable(vs, ts) && n <= |ts| && r.Parallel()
  {
    forall k :: 0 <= k < |r.analyzedVertices| ==> HasCreator(vs, ts, n, r.analyzedVertices[k], r.neighboursList[k])
  }

  /** One of the first n corners created the entry (key, ns). */
  predicate HasCreator(vs: seq<Vector3>, ts: seq<nat>, n: nat, key: Vector3, ns: seq<Vector3>)
    requires Indexable(vs, ts) && n <= |ts|
  {
    exists c: nat :: c < n && CreatedBy(vs, ts, c, key, ns)
  }

  /** Every recorded neighbour of r was contributed by one of the first n corners. */
  predicate Traced(vs: seq<Vector3>, ts: seq<nat>, n: nat, r: Analysis)
    requires Indexable(vs, ts) && n <= |ts| && r.Parallel()
  {
    forall k, m :: 0 <= k < |r.analyzedVertices| && 0 <= m < |r.neighboursList[k]| ==>
      HasContributor(vs, ts, n, r.analyzedVertices[k], r.neighboursList[k][m])
  }

  /** One of the first n corners, equal to key, recorded p as its neighbour. */
  predicate HasContributor(vs: seq<Vector3>, ts: seq<nat>, n: nat, key: Vector3, p: Vector3)
    requires Indexable(vs, ts) && n <= |ts|
  {
    exists c: nat :: c < n && Contributes(vs, ts, c, key, p)
  }

  /** No analysed position is equal to an earlier one. */
  predicate Separated(analyzed: seq<Vector3>) {
    forall i, j :: 0 <= i < j < |analyzed| ==> !Equals(analyzed[j], analyzed[i])
  }

  /** Corner c created the entry (key, ns): key is that corner and ns starts with its two seeds. */
  predicate CreatedBy(vs: seq<Vector3>, ts: seq<nat>, c: nat, key: Vector3, ns: seq<Vector3>)
    requires Indexable(vs, ts) && c < |ts|
  {
    key == Corner(vs, ts, c) && 2 <= |ns| && ns[0] == SecondCorner(vs, ts, c) && ns[1] == ThirdCorner(vs, ts, c)
  }

  /** Corner c, equal to key, recorded p as a neighbour of key. */
  predicate Contributes(vs: seq<Vector3>, ts: seq<nat>, c: nat, key: Vector3, p: Vector3)
    requires Indexable(vs, ts) && c < |ts|
  {
    Equals(Corner(vs, ts, c), key) && (p == SecondCorner(vs, ts, c) || p == ThirdCorner(vs, ts, c))
  }

  /**
   * What one corner does. A new position gets the entry [v1, v2]. A known
   * position keeps its key; its list keeps every element in order and gains
   * v1 exactly when no element already in the list equals v1 and v2 exactly
   * when none equals v2, each once and v1 first; no other list changes.
   */
  lemma StepSpec(a: Analysis, v: Vector3, v1: Vector3, v2: Vector3)
    requires a.Parallel()
    ensures var r := Step(a, v, v1, v2); var index := FirstMatch(a.analyzedVertices, v);
      && (index == -1 ==>
            r.analyzedVertices == a.analyzedVertices + [v] && r.neighboursList == a.neighboursList + [[v1, v2]])
      && (index != -1 ==>
            && r.analyzedVertices == a.analyzedVertices
            && |r.neighboursList| == |a.neighboursList|
            && (forall k :: 0 <= k < |a.neighboursList| && k != index ==> r.neighboursList[k] == a.neighboursList[k])
            && a.neighboursList[index] <= r.neighboursList[index]
            && |r.neighboursList[index]| == |a.neighboursList[index]|
                 + (if Mentions(a.neighboursList[index], v1) then 0 else 1)
                 + (if Mentions(a.neighboursList[index], v2) then 0 else 1)
            && (forall m :: |a.neighboursList[index]| <= m < |r.neighboursList[index]| ==>
                  (r.neighboursList[index][m] == v1 || r.neighboursList[index][m] == v2)
                  && !Mentions(a.neighboursList[index], r.neighboursList[index][m]))
            && (!Mentions(a.neighboursList[index], v1) ==> v1 in r.neighboursList[index][|a.neighboursList[index]|..])
            && (!Mentions(a.neighboursList[index], v2) ==> v2 in r.neighboursList[index][|a.neighboursList[index]|..])
            && (!Mentions(a.neighboursList[index], v1) ==> r.neighboursList[index][|a.neighboursList[index]|] == v1))
  {
    var index := FirstMatch(a.analyzedVertices, v);
    if index != -1 {
      var ns := a.neighboursList[index];
      var added := (if Mentions(ns, v1) then [] else [v1]) + (if Mentions(ns, v2) then [] else [v2]);
      var grown := ns + added;
      assert grown == ns + (if Mentions(ns, v1) then [] else [v1]) + (if Mentions(ns, v2) then [] else [v2]);
      assert grown[|ns|..] == added;
      forall m | |ns| <= m < |grown|
        ensures (grown[m] == v1 || grown[m] == v2) && !Mentions(ns, grown[m])
      {
        assert grown[m] == added[m - |ns|];
      }
    }
  }

  /** A step for a known position, as the builder's two scans compute it. */
  lemma StepOfKnown(a: Analysis, v: Vector3, v1: Vector3, v2: Vector3, index: int, containsV1: bool, containsV2: bool)
    requires a.Parallel() && index == FirstMatch(a.analyzedVertices, v) && index != -1
    requires containsV1 == Mentions(a.neighboursList[index], v1)
    requires containsV2 == Mentions(a.neighboursList[index], v2)
    ensures Step(a, v, v1, v2) == Analysis(a.analyzedVertices, a.neighboursList[index :=
              a.neighboursList[index] + (if containsV1 then [] else [v1]) + (if containsV2 then [] else [v2])])
  {
  }

  /** A step only appends: keys and every existing list keep their prefix. */
  lemma StepGrows(a: Analysis, v: Vector3, v1: Vector3, v2: Vector3)
    requires a.Parallel()
    ensures Grows(a, Step(a, v, v1, v2))
    ensures |Step(a, v, v1, v2).analyzedVertices| <= |a.analyzedVertices| + 1
  {
    StepSpec(a, v, v1, v2);
  }

  lemma PrefixTransitive<T>(a: seq<T>, b: seq<T>, c: seq<T>)
    requires a <= b && b <= c
    ensures a <= c
  {
    assert a == b[..|a|] && b == c[..|b|];
    assert c[..|b|][..|a|] == c[..|a|];
  }

  lemma GrowsTransitive(a: Analysis, b: Analysis, c: Analysis)
    requires Grows(a, b) && Grows(b, c)
    ensures Grows(a, c)
  {
    PrefixTransitive(a.analyzedVertices, b.analyzedVertices, c.analyzedVertices);
    forall k | 0 <= k < |a.neighboursList|
      ensures a.neighboursList[k] <= c.neighboursList[k]
    {
      PrefixTransitive(a.neighboursList[k], b.neighboursList[k], c.neighboursList[k]);
    }
  }

  /** Later states extend earlier ones: positions and lists are append-only across corners. */
  lemma {:induction false} ScanGrows(vs: seq<Vector3>, ts: seq<nat>, m: nat, n: nat)
    requires Indexable(vs, ts) && m <= n <= |ts|
    ensures Grows(Scan(vs, ts, m), Scan(vs, ts, n))
  {
    if m < n {
      ScanGrows(vs, ts, m, n - 1);
      var prev := Scan(vs, ts, n - 1);
      StepGrows(prev, Corner(vs, ts, n - 1), SecondCorner(vs, ts, n - 1), ThirdCorner(vs, ts, n - 1));
      GrowsTransitive(Scan(vs, ts, m), prev, Scan(vs, ts, n));
    }
  }

  /** No entry of analyzedVertices is equal to an earlier entry. */
  lemma {:induction false} ScanSeparated(vs: seq<Vector3>, ts: seq<nat>, n: nat)
    requires Indexable(vs, ts) && n <= |ts|
    ensures Separated(Scan(vs, ts, n).analyzedVertices)
  {
    if n > 0 {
      ScanSeparated(vs, ts, n - 1);
      var prev := Scan(vs, ts, n - 1);
      StepSpec(prev, Corner(vs, ts, n - 1), SecondCorner(vs, ts, n - 1), ThirdCorner(vs, ts, n - 1));
      FirstMatchSpec(prev.analyzedVertices, Corner(vs, ts, n - 1));
    }
  }

  /** Positions no two of which are equal within tolerance are pairwise different. */
  lemma SeparatedDistinct(analyzed: seq<Vector3>)
    requires Separated(analyzed)
    ensures forall i, j :: 0 <= i < j < |analyzed| ==> analyzed[i] != analyzed[j]
  {
    forall i, j | 0 <= i < j < |analyzed|
      ensures analyzed[i] != analyzed[j]
    {
      EqualsReflexive(analyzed[i]);
    }
  }

  lemma CoversPrefix(analyzed: seq<Vector3>, longer: seq<Vector3>, p: Vector3)
    requires analyzed <= longer && Covers(analyzed, p)
    ensures Covers(longer, p)
  {
    var k :| 0 <= k < |analyzed| && Equals(p, analyzed[k]);
    assert longer[k] == analyzed[k];
  }

  /** Every processed corner is equal to some entry of analyzedVertices. */
  lemma {:induction false} ScanCovers(vs: seq<Vector3>, ts: seq<nat>, n: nat)
    requires Indexable(vs, ts) && n <= |ts|
    ensures forall c :: 0 <= c < n ==> Covers(Scan(vs, ts, n).analyzedVertices, Corner(vs, ts, c))
  {
    if n > 0 {
      ScanCovers(vs, ts, n - 1);
      var prev, cur := Scan(vs, ts, n - 1), Scan(vs, ts, n);
      var v, v1, v2 := Corner(vs, ts, n - 1), SecondCorner(vs, ts, n - 1), ThirdCorner(vs, ts, n - 1);
      assert cur == Step(prev, v, v1, v2);
      StepSpec(prev, v, v1, v2);
      StepGrows(prev, v, v1, v2);
      FirstMatchSpec(prev.analyzedVertices, v);
      forall c | 0 <= c < n
        ensures Covers(cur.analyzedVertices, Corner(vs, ts, c))
      {
        if c < n - 1 {
          CoversPrefix(prev.analyzedVertices, cur.analyzedVertices, Corner(vs, ts, c));
        } else {
          var index := FirstMatch(prev.analyzedVertices, v);
          if index == -1 {
            EqualsReflexive(v);
            assert cur.analyzedVertices[|prev.analyzedVertices|] == v;
          } else {
            assert cur.analyzedVertices[index] == prev.analyzedVertices[index];
          }
        }
      }
    }
  }

  /** One corner keeps every entry seeded by the corner that created it. */
  lemma SeededStep(vs: seq<Vector3>, ts: seq<nat>, n: nat, prev: Analysis, cur: Analysis)
    requires Indexable(vs, ts) && 0 < n <= |ts| && prev.Parallel() && Seeded(vs, ts, n - 1, prev)
    requires cur == Step(prev, Corner(vs, ts, n - 1), SecondCorner(vs, ts, n - 1), ThirdCorner(vs, ts, n - 1))
    ensures Seeded(vs, ts, n, cur)
  {
    var v, v1, v2 := Corner(vs, ts, n - 1), SecondCorner(vs, ts, n - 1), ThirdCorner(vs, ts, n - 1);
    StepSpec(prev, v, v1, v2);
    StepGrows(prev, v, v1, v2);
    forall k | 0 <= k < |cur.analyzedVertices|
      ensures HasCreator(vs, ts, n, cur.analyzedVertices[k], cur.neighboursList[k])
    {
      if k < |prev.analyzedVertices| {
        var c: nat :| c < n - 1 && CreatedBy(vs, ts, c, prev.analyzedVertices[k], prev.neighboursList[k]);
        assert cur.analyzedVertices[k] == prev.analyzedVertices[k];
        assert prev.neighboursList[k] <= cur.neighboursList[k];
        assert CreatedBy(vs, ts, c, cur.analyzedVertices[k], cur.neighboursList[k]);
      } else {
        assert CreatedBy(vs, ts, n - 1, cur.analyzedVertices[k], cur.neighboursList[k]);
      }
    }
  }

  /**
   * Every entry was created by a corner equal to its key, and its list still
   * starts with that corner's two seeds (so it has at least two elements).
   */
  lemma {:induction false} ScanSeeds(vs: seq<Vector3>, ts: seq<nat>, n: nat)
    requires Indexable(vs, ts) && n <= |ts|
    ensures Seeded(vs, ts, n, Scan(vs, ts, n))
  {
    if n > 0 {
      ScanSeeds(vs, ts, n - 1);
      SeededStep(vs, ts, n, Scan(vs, ts, n - 1), Scan(vs, ts, n));
    }
  }

  /** One corner keeps every recorded neighbour traced to the corner that contributed it. */
  lemma TracedStep(vs: seq<Vector3>, ts: seq<nat>, n: nat, prev: Analysis, cur: Analysis)
    requires Indexable(vs, ts) && 0 < n <= |ts| && prev.Parallel() && Traced(vs, ts, n - 1, prev)
    requires cur == Step(prev, Corner(vs, ts, n - 1), SecondCorner(vs, ts, n - 1), ThirdCorner(vs, ts, n - 1))
    ensures Traced(vs, ts, n, cur)
  {
    var v, v1, v2 := Corner(vs, ts, n - 1), SecondCorner(vs, ts, n - 1), ThirdCorner(vs, ts, n - 1);
    StepSpec(prev, v, v1, v2);
    FirstMatchSpec(prev.analyzedVertices, v);
    var index := FirstMatch(prev.analyzedVertices, v);
    forall k, m | 0 <= k < |cur.analyzedVertices| && 0 <= m < |cur.neighboursList[k]|
      ensures HasContributor(vs, ts, n, cur.analyzedVertices[k], cur.neighboursList[k][m])
    {
      var p := cur.neighboursList[k][m];
      if k < |prev.analyzedVertices| && m < |prev.neighboursList[k]| {
        var c: nat :| c < n - 1 && Contributes(vs, ts, c, prev.analyzedVertices[k], prev.neighboursList[k][m]);
        assert cur.analyzedVertices[k] == prev.analyzedVertices[k];
        assert cur.neighboursList[k][m] == prev.neighboursList[k][m];
        assert Contributes(vs, ts, c, cur.analyzedVertices[k], p);
      } else if index == -1 {
        EqualsReflexive(v);
        assert Contributes(vs, ts, n - 1, cur.analyzedVertices[k], p);
      } else {
        assert k == index;
        assert Contributes(vs, ts, n - 1, cur.analyzedVertices[k], p);
      }
    }
  }

  /**
   * Every recorded neighbour p of an entry was put there by a corner equal to
   * that entry's key: p is the second or third corner of that corner's triangle.
   */
  lemma {:induction false} ScanProvenance(vs: seq<Vector3>, ts: seq<nat>, n: nat)
    requires Indexable(vs, ts) && n <= |ts|
    ensures Traced(vs, ts, n, Scan(vs, ts, n))
  {
    if n > 0 {
      ScanProvenance(vs, ts, n - 1);
      TracedStep(vs, ts, n, Scan(vs, ts, n - 1), Scan(vs, ts, n));
    }
  }

  /** Any index with a match and no match before it is FirstMatch's answer. */
  lemma FirstMatchUnique(analyzed: seq<Vector3>, v: Vector3, i: nat)
    requires i < |analyzed| && Equals(v, analyzed[i])
    requires forall k :: 0 <= k < i ==> !Equals(v, analyzed[k])
    ensures FirstMatch(analyzed, v) == i
  {
    FirstMatchSpec(analyzed, v);
  }

  /** A list that extends one mentioning p mentions p too. */
  lemma MentionsPrefix(ns: seq<Vector3>, longer: seq<Vector3>, p: Vector3)
    requires ns <= longer && Mentions(ns, p)
    ensures Mentions(longer, p)
  {
    var k :| 0 <= k < |ns| && Equals(ns[k], p);
    assert longer[k] == ns[k];
  }

  /**
   * The builder keeps its promise to every corner: after n corners, the
   * entry that corner c (c < n) matches mentions both of c's candidates.
   */
  lemma {:induction false} ScanRecordsCandidates(vs: seq<Vector3>, ts: seq<nat>, n: nat, c: nat)
    requires Indexable(vs, ts) && c < n <= |ts|
    ensures var r := Scan(vs, ts, n); var index := FirstMatch(r.analyzedVertices, Corner(vs, ts, c));
      && 0 <= index
      && Mentions(r.neighboursList[index], SecondCorner(vs, ts, c))
      && Mentions(r.neighboursList[index], ThirdCorner(vs, ts, c))
  {
    var prev := Scan(vs, ts, n - 1);
    var v, v1, v2 := Corner(vs, ts, n - 1), SecondCorner(vs, ts, n - 1), ThirdCorner(vs, ts, n - 1);
    var cur := Scan(vs, ts, n);
    assert cur == Step(prev, v, v1, v2);
    StepSpec(prev, v, v1, v2);
    StepGrows(prev, v, v1, v2);
    var p, p1, p2 := Corner(vs, ts, c), SecondCorner(vs, ts, c), ThirdCorner(vs, ts, c);
    if c < n - 1 {
      ScanRecordsCandidates(vs, ts, n - 1, c);
      var index := FirstMatch(prev.analyzedVertices, p);
      FirstMatchSpec(prev.analyzedVertices, p);
      FirstMatchUnique(cur.analyzedVertices, p, index);
      MentionsPrefix(prev.neighboursList[index], cur.neighboursList[index], p1);
      MentionsPrefix(prev.neighboursList[index], cur.neighboursList[index], p2);
    } else {
      EqualsReflexive(v);
      EqualsReflexive(v1);
      EqualsReflexive(v2);
      var index := FirstMatch(prev.analyzedVertices, v);
      FirstMatchSpec(prev.analyzedVertices, v);
      if index == -1 {
        FirstMatchUnique(cur.analyzedVertices, v, |prev.analyzedVertices|);
        assert cur.neighboursList[|prev.analyzedVertices|] == [v1, v2];
        assert Mentions([v1, v2], v1) && Mentions([v1, v2], v2) by {
          assert [v1, v2][0] == v1 && [v1, v2][1] == v2;
        }
      } else {
        var ns, grown := prev.neighboursList[index], cur.neighboursList[index];
        if Mentions(ns, v1) {
          MentionsPrefix(ns, grown, v1);
        } else {
          var m :| 0 <= m < |grown[|ns|..]| && grown[|ns|..][m] == v1;
          assert grown[|ns| + m] == v1;
        }
        if Mentions(ns, v2) {
          MentionsPrefix(ns, grown, v2);
        } else {
          var m :| 0 <= m < |grown[|ns|..]| && grown[|ns|..][m] == v2;
          assert grown[|ns| + m] == v2;
        }
      }
    }
  }

  /** The slot of the triangle's second and third corner hold c's candidate neighbours. */
  lemma CandidateSlots(vs: seq<Vector3>, ts: seq<nat>, c: nat)
    requires Indexable(vs, ts) && c < |ts|
    ensures var base := c - c % 3;
      && 0 <= base && base + 2 < |ts| && (base + 1) % 3 == 1 && (base + 2) % 3 == 2
      && SecondCorner(vs, ts, c) == Corner(vs, ts, base + 1)
      && ThirdCorner(vs, ts, c) == Corner(vs, ts, base + 2)
  {
  }

  /**
   * As written, the neighbours come from the second and third slots only:
   * every recorded neighbour is the position at some index-buffer slot d
   * with d % 3 != 0 (the same position may also sit in a first slot
   * elsewhere).
   */
  lemma ScanNeverFirstCorner(vs: seq<Vector3>, ts: seq<nat>, n: nat)
    requires Indexable(vs, ts) && n <= |ts|
    ensures var r := Scan(vs, ts, n);
      forall k, m :: 0 <= k < |r.analyzedVertices| && 0 <= m < |r.neighboursList[k]| ==>
        exists d: nat :: d < |ts| && d % 3 != 0 && r.neighboursList[k][m] == Corner(vs, ts, d)
  {
    ScanProvenance(vs, ts, n);
    var r := Scan(vs, ts, n);
    forall k, m | 0 <= k < |r.analyzedVertices| && 0 <= m < |r.neighboursList[k]|
      ensures exists d: nat :: d < |ts| && d % 3 != 0 && r.neighboursList[k][m] == Corner(vs, ts, d)
    {
      var c: nat :| c < n && Contributes(vs, ts, c, r.analyzedVertices[k], r.neighboursList[k][m]);
      CandidateSlots(vs, ts, c);
      var base := c - c % 3;
      if r.neighboursList[k][m] == SecondCorner(vs, ts, c) {
        assert r.neighboursList[k][m] == Corner(vs, ts, base + 1);
      } else {
        assert r.neighboursList[k][m] == Corner(vs, ts, base + 2);
      }
    }
  }

  /** A position that sits in no second or third slot is in no neighbour list. */
  lemma FirstSlotOnlyIsNobodysNeighbour(vs: seq<Vector3>, ts: seq<nat>, n: nat, p: Vector3)
    requires Indexable(vs, ts) && n <= |ts|
    requires forall d :: 0 <= d < |ts| && d % 3 != 0 ==> Corner(vs, ts, d) != p
    ensures var r := Scan(vs, ts, n);
      forall k :: 0 <= k < |r.analyzedVertices| ==> p !in r.neighboursList[k]
  {
    ScanProvenance(vs, ts, n);
    var r := Scan(vs, ts, n);
    forall k, m | 0 <= k < |r.analyzedVertices| && 0 <= m < |r.neighboursList[k]|
      ensures r.neighboursList[k][m] != p
    {
      var c: nat :| c < n && Contributes(vs, ts, c, r.analyzedVertices[k], r.neighboursList[k][m]);
      CandidateSlots(vs, ts, c);
    }
  }
}
