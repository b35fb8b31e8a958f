// The critical-point classifier of Mesh::FindCriticalPoints, as a function of
// the analysed positions and their neighbour lists. A position is a minimum
// when no neighbour lies lower (in y) and a maximum when no neighbour lies
// higher; a position may be both.

module CriticalPoints {
  import opened Geometry

  datatype Extremum = Minimum | Maximum

  /** p is a minimum (maximum) of y among its neighbours ns. */
  predicate IsExtremum(kind: Extremum, p: Vector3, ns: seq<Vector3>) {
    match kind
    case Minimum => forall j :: 0 <= j < |ns| ==> ns[j].y >= p.y
    case Maximum => forall j :: 0 <= j < |ns| ==> ns[j].y <= p.y
  }

  /** The first n analysed positions that are extrema of the given kind, in index order. */
  function Critical(analyzed: seq<Vector3>, neighbours: seq<seq<Vector3>>, kind: Extremum, n: nat): seq<Vector3>
    requires n <= |analyzed| <= |neighbours|
  {
    if n == 0 then []
    else
      Critical(analyzed, neighbours, kind, n - 1)
      + (if IsExtremum(kind, analyzed[n - 1], neighbours[n - 1]) then [analyzed[n - 1]] else [])
  }

  /** The indices, below n, of the analysed positions that are extrema of the given kind. */
  function CriticalIndices(analyzed: seq<Vector3>, neighbours: seq<seq<Vector3>>, kind: Extremum, n: nat): seq<nat>
    requires n <= |analyzed| <= |neighbours|
  {
    if n == 0 then []
    else
      CriticalIndices(analyzed, neighbours, kind, n - 1)
      + (if IsExtremum(kind, analyzed[n - 1], neighbours[n - 1]) then [n - 1] else [])
  }

  /**
   * The selected indices are strictly increasing and are exactly the indices
   * below n whose position is an extremum of the kind.
   */
  lemma {:induction false} CriticalIndicesExact(analyzed: seq<Vector3>, neighbours: seq<seq<Vector3>>, kind: Extremum, n: nat)
    requires n <= |analyzed| <= |neighbours|
    ensures var ix := CriticalIndices(analyzed, neighbours, kind, n);
      && (forall s, t :: 0 <= s < t < |ix| ==> ix[s] < ix[t])
      && (forall t :: 0 <= t < |ix| ==> ix[t] < n)
      && (forall i: nat :: i in ix <==> i < n && IsExtremum(kind, analyzed[i], neighbours[i]))
  {
    if n > 0 {
      CriticalIndicesExact(analyzed, neighbours, kind, n - 1);
    }
  }

  /**
   * The classifier's output is a subsequence of the analysed positions: the
   * t-th output is the position at the t-th selected index.
   */
  lemma {:induction false} CriticalIsSubsequence(analyzed: seq<Vector3>, neighbours: seq<seq<Vector3>>, kind: Extremum, n: nat)
    requires n <= |analyzed| <= |neighbours|
    ensures var ix, r := CriticalIndices(analyzed, neighbours, kind, n), Critical(analyzed, neighbours, kind, n);
      && |r| == |ix|
      && forall t :: 0 <= t < |r| ==> ix[t] < |analyzed| && r[t] == analyzed[ix[t]]
  {
    if n > 0 {
      CriticalIsSubsequence(analyzed, neighbours, kind, n - 1);
      CriticalIndicesExact(analyzed, neighbours, kind, n - 1);
    }
  }

  /**
   * When the analysed positions are pairwise different (as the adjacency
   * builder makes them), position i is reported iff it is an extremum.
   */
  lemma CriticalMembership(analyzed: seq<Vector3>, neighbours: seq<seq<Vector3>>, kind: Extremum, i: nat)
    requires |analyzed| <= |neighbours| && i < |analyzed|
    requires forall s, t :: 0 <= s < t < |analyzed| ==> analyzed[s] != analyzed[t]
    ensures analyzed[i] in Critical(analyzed, neighbours, kind, |analyzed|)
            <==> IsExtremum(kind, analyzed[i], neighbours[i])
  {
    var n := |analyzed|;
    var ix, r := CriticalIndices(analyzed, neighbours, kind, n), Critical(analyzed, neighbours, kind, n);
    CriticalIndicesExact(analyzed, neighbours, kind, n);
    CriticalIsSubsequence(analyzed, neighbours, kind, n);
    if IsExtremum(kind, analyzed[i], neighbours[i]) {
      assert i in ix;
      var t :| 0 <= t < |ix| && ix[t] == i;
      assert r[t] == analyzed[i];
    } else {
      forall t | 0 <= t < |r|
        ensures r[t] != analyzed[i]
      {
        assert ix[t] in ix;
      }
    }
  }

  /**
   * A position is both a minimum and a maximum exactly when every neighbour
   * has its height; in particular a position without neighbours is both.
   */
  lemma PlateauIsBoth(p: Vector3, ns: seq<Vector3>)
    ensures IsExtremum(Minimum, p, ns) && IsExtremum(Maximum, p, ns)
            <==> forall j :: 0 <= j < |ns| ==> ns[j].y == p.y
  {
  }
}
