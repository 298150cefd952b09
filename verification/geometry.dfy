/** Planar vectors and the triangle-area score of a flight path. */
module Geometry {

  /** A planar vector: east and north components (metres, or metres per second for a rate). */
  datatype Vec = Vec(east: real, north: real)

  /** The launch point; every path is evaluated as drift relative to it. */
  const Origin: Vec := Vec(0.0, 0.0)

  const SquareMetresPerSquareKilometre: real := 1000000.0

  function Add(a: Vec, b: Vec): Vec {
    Vec(a.east + b.east, a.north + b.north)
  }

  function Sub(a: Vec, b: Vec): Vec {
    Vec(a.east - b.east, a.north - b.north)
  }

  function Scale(a: Vec, k: real): Vec {
    Vec(a.east * k, a.north * k)
  }

  /** The offset from a to a + d is d. */
  lemma SubAddCancel(a: Vec, d: Vec)
    ensures Sub(Add(a, d), a) == d
  {
  }

  /** The z component of the cross product of two planar vectors. */
  function Cross(a: Vec, b: Vec): real {
    a.east * b.north - b.east * a.north
  }

  function Abs(x: real): (r: real)
    ensures r >= 0.0
    ensures r == x || r == -x
  {
    if x < 0.0 then -x else x
  }

  /** Three points lie on one line exactly when the edges leaving p0 have zero cross product. */
  ghost predicate Collinear(p0: Vec, p1: Vec, p2: Vec) {
    Cross(Sub(p1, p0), Sub(p2, p0)) == 0.0
  }

  /** The area, in square kilometres, of the triangle p0 p1 p2 (half the absolute cross
      product of the edges p1 - p0 and p2 - p0, divided by 10^6 to turn m² into km²). */
  function TriangleAreaKm2(p0: Vec, p1: Vec, p2: Vec): (area: real)
    ensures area >= 0.0
    ensures area == 0.0 <==> Collinear(p0, p1, p2)
  {
    0.5 * Abs((p1.east - p0.east) * (p2.north - p0.north) - (p2.east - p0.east) * (p1.north - p0.north))
      / SquareMetresPerSquareKilometre
  }

  /** The area does not depend on which of the two far corners is listed first. */
  lemma AreaSymmetric(p0: Vec, p1: Vec, p2: Vec)
    ensures TriangleAreaKm2(p0, p1, p2) == TriangleAreaKm2(p0, p2, p1)
  {
  }

  /** Shifting all three corners by the same offset keeps the area. */
  lemma AreaTranslationInvariant(p0: Vec, p1: Vec, p2: Vec, d: Vec)
    ensures TriangleAreaKm2(Add(p0, d), Add(p1, d), Add(p2, d)) == TriangleAreaKm2(p0, p1, p2)
  {
  }

  /** Cross product is bilinear in scaling. */
  lemma CrossScale(a: Vec, b: Vec, s: real, t: real)
    ensures Cross(Scale(a, s), Scale(b, t)) == s * t * Cross(a, b)
  {
    calc {
      Cross(Scale(a, s), Scale(b, t));
      (a.east * s) * (b.north * t) - (b.east * t) * (a.north * s);
      s * t * (a.east * b.north) - s * t * (b.east * a.north);
      s * t * Cross(a, b);
    }
  }

  /** Half of t1 * t2 * |v1 × v2|, in km²: the area swept by drifting along v1 for t1 seconds
      and then along v2 for t2 seconds. */
  function DriftArea(v1: Vec, t1: real, v2: Vec, t2: real): real {
    0.5 * (t1 * t2) * Abs(Cross(v1, v2)) / SquareMetresPerSquareKilometre
  }

  /** A two-leg path from the origin, first along rate v1 for t1 seconds and then along v2 for
      t2 seconds, encloses an area proportional to t1 * t2 and to |v1 × v2|. */
  lemma TwoLegArea(v1: Vec, t1: real, v2: Vec, t2: real)
    requires t1 >= 0.0 && t2 >= 0.0
    ensures TriangleAreaKm2(Origin, Scale(v1, t1), Add(Scale(v1, t1), Scale(v2, t2))) == DriftArea(v1, t1, v2, t2)
  {
    var a := Scale(v1, t1);
    var b := Scale(v2, t2);
    CrossFromOrigin(a, b);
    CrossScale(v1, v2, t1, t2);
    AbsScale(t1 * t2, Cross(v1, v2));
  }

  /** The triangle spanned by a leg a from the origin followed by a leg b has the edge cross
      product a × b. */
  lemma CrossFromOrigin(a: Vec, b: Vec)
    ensures TriangleAreaKm2(Origin, a, Add(a, b)) == 0.5 * Abs(Cross(a, b)) / SquareMetresPerSquareKilometre
  {
    assert (a.east - 0.0) * (a.north + b.north - 0.0) - (a.east + b.east - 0.0) * (a.north - 0.0)
        == Cross(a, b);
  }

  /** A non-negative factor comes out of the absolute value unchanged. */
  lemma AbsScale(k: real, x: real)
    requires k >= 0.0
    ensures Abs(k * x) == k * Abs(x)
  {
    if x < 0.0 {
      assert k * x <= 0.0;
    } else {
      assert k * x >= 0.0;
    }
  }

  /** Drifting twice on the same wind never leaves a line through the origin. */
  lemma DriftAreaSameWind(v: Vec, t1: real, t2: real)
    ensures DriftArea(v, t1, v, t2) == 0.0
  {
    assert Cross(v, v) == 0.0;
  }

  /** The same, for a path given by its three corners. */
  lemma TwoLegAreaAt(v1: Vec, t1: real, v2: Vec, t2: real, p0: Vec, p1: Vec, p2: Vec)
    requires t1 >= 0.0 && t2 >= 0.0
    requires p0 == Origin
    requires Sub(p1, p0) == Scale(v1, t1) && Sub(p2, p1) == Scale(v2, t2)
    ensures TriangleAreaKm2(p0, p1, p2) == DriftArea(v1, t1, v2, t2)
  {
    assert p1 == Scale(v1, t1);
    assert p2 == Add(Scale(v1, t1), Scale(v2, t2));
    TwoLegArea(v1, t1, v2, t2);
  }

  /** Drift areas compare as the products of their leg times. */
  lemma DriftAreaCompare(v1: Vec, v2: Vec, a: real, b: real, c: real, d: real)
    ensures a * b == c * d ==> DriftArea(v1, a, v2, b) == DriftArea(v1, c, v2, d)
    ensures a * b <= c * d ==> DriftArea(v1, a, v2, b) <= DriftArea(v1, c, v2, d)
    ensures a * b < c * d && Cross(v1, v2) != 0.0 ==> DriftArea(v1, a, v2, b) < DriftArea(v1, c, v2, d)
  {
    var x := Abs(Cross(v1, v2));
    if a * b <= c * d {
      assert (a * b) * x <= (c * d) * x;
    }
    if a * b < c * d && Cross(v1, v2) != 0.0 {
      assert x > 0.0;
      assert (a * b) * x < (c * d) * x;
    }
  }
}
