// Points of the mesh core: Vector3 (a position), Vector4 (a position with a
// scalar value w) and Triangle, with the tolerance equality the adjacency
// builder merges positions by.
//
// Coordinates are exact reals. `Distance(a, b) <= EPSILON` is modelled by the
// equivalent test on the squared distance, `SquaredDistance(a, b) <= EPSILON^2`
// (both sides are non-negative), so no square root is needed.

module Geometry {

  /** The fixed tolerance of point equality. */
  const EPSILON: real := 0.00001

  datatype Vector3 = Vector3(x: real, y: real, z: real)

  /** A position extended by a scalar field value `w`. */
  datatype Vector4 = Vector4(x: real, y: real, z: real, w: real)
  {
    /** The positional part a Vector4 inherits from Vector3. */
    function Position(): Vector3 {
      Vector3(x, y, z)
    }
  }

  datatype Triangle = Triangle(v0: Vector3, v1: Vector3, v2: Vector3)

  function Abs(r: real): real {
    if r < 0.0 then -r else r
  }

  function SquaredDistance(a: Vector3, b: Vector3): real {
    (b.x - a.x) * (b.x - a.x) + (b.y - a.y) * (b.y - a.y) + (b.z - a.z) * (b.z - a.z)
  }

  /** `a.Equals(b)` of the source: the two positions are at most EPSILON apart. */
  predicate Equals(a: Vector3, b: Vector3) {
    SquaredDistance(a, b) <= EPSILON * EPSILON
  }

  /** `a.Equals(b)` for two Vector4: equal positions and values at most EPSILON apart. */
  predicate Equals4(a: Vector4, b: Vector4) {
    Equals(a.Position(), b.Position()) && Abs(a.w - b.w) <= EPSILON
  }

  lemma EqualsReflexive(a: Vector3)
    ensures Equals(a, a)
  {
  }

  lemma EqualsSymmetric(a: Vector3, b: Vector3)
    ensures Equals(a, b) <==> Equals(b, a)
  {
  }

  /**
   * Equality lies between two boxes: points within EPSILON/2 in every
   * coordinate are equal, and equal points are within EPSILON in every
   * coordinate.
   */
  lemma EqualsBoundedByTolerance(a: Vector3, b: Vector3)
    ensures Abs(a.x - b.x) <= EPSILON / 2.0 && Abs(a.y - b.y) <= EPSILON / 2.0 && Abs(a.z - b.z) <= EPSILON / 2.0
            ==> Equals(a, b)
    ensures Equals(a, b) ==> Abs(a.x - b.x) <= EPSILON && Abs(a.y - b.y) <= EPSILON && Abs(a.z - b.z) <= EPSILON
  {
    if Abs(a.x - b.x) <= EPSILON / 2.0 && Abs(a.y - b.y) <= EPSILON / 2.0 && Abs(a.z - b.z) <= EPSILON / 2.0 {
      WithinBox(a, b);
    }
    if Equals(a, b) {
      var dx, dy, dz := b.x - a.x, b.y - a.y, b.z - a.z;
      assert dx * dx >= 0.0 && dy * dy >= 0.0 && dz * dz >= 0.0;
      SquareBound(b.x - a.x, SquaredDistance(a, b));
      SquareBound(b.y - a.y, SquaredDistance(a, b));
      SquareBound(b.z - a.z, SquaredDistance(a, b));
    }
  }

  /** Three coordinate gaps of at most EPSILON/2 keep the squared distance within EPSILON^2. */
  lemma WithinBox(a: Vector3, b: Vector3)
    requires Abs(a.x - b.x) <= EPSILON / 2.0 && Abs(a.y - b.y) <= EPSILON / 2.0 && Abs(a.z - b.z) <= EPSILON / 2.0
    ensures Equals(a, b)
  {
    var dx, dy, dz := b.x - a.x, b.y - a.y, b.z - a.z;
    var q := EPSILON * EPSILON / 4.0;
    SquareAtMost(dx);
    SquareAtMost(dy);
    SquareAtMost(dz);
    assert SquaredDistance(a, b) == dx * dx + dy * dy + dz * dz;
    assert dx * dx + dy * dy + dz * dz <= 3.0 * q;
  }

  /** If |d| <= EPSILON/2 then d*d <= EPSILON^2/4. */
  lemma SquareAtMost(d: real)
    requires Abs(d) <= EPSILON / 2.0
    ensures d * d <= EPSILON * EPSILON / 4.0
  {
    var e := EPSILON / 2.0;
    var m := Abs(d);
    assert d * d == m * m;
    assert m * m <= e * m <= e * e;
  }

  /** If d*d <= s <= EPSILON^2 then |d| <= EPSILON. */
  lemma SquareBound(d: real, s: real)
    requires d * d <= s <= EPSILON * EPSILON
    ensures Abs(d) <= EPSILON
  {
  }

  /**
   * Tolerance equality is not transitive: three points 8e-6 apart on a line
   * are pairwise equal to their neighbour but the outer two are not.
   */
  lemma EqualsNotTransitive()
    ensures exists a, b, c :: Equals(a, b) && Equals(b, c) && !Equals(a, c)
  {
    var a := Vector3(0.0, 0.0, 0.0);
    var b := Vector3(0.000008, 0.0, 0.0);
    var c := Vector3(0.000016, 0.0, 0.0);
    assert Equals(a, b) && Equals(b, c) && !Equals(a, c);
  }

  /** Points 1e-6 apart along z merge; points 2e-5 apart do not. */
  lemma EqualsWithinTolerance()
    ensures Equals(Vector3(0.0, 0.0, 0.0), Vector3(0.0, 0.0, 0.000001))
    ensures !Equals(Vector3(0.0, 0.0, 0.0), Vector3(0.0, 0.0, 0.00002))
  {
  }

  lemma Equals4Reflexive(a: Vector4)
    ensures Equals4(a, a)
  {
  }

  lemma Equals4Symmetric(a: Vector4, b: Vector4)
    ensures Equals4(a, b) <==> Equals4(b, a)
  {
  }
}
