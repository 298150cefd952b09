/** One-dimensional piecewise-linear interpolation with the boundary clamping of numpy's
    `interp`: between two bracketing samples the value is the straight line through them,
    below the first sample it is the first value, above the last sample the last value. */
module Interpolation {
  import opened Ordering

  /** A sample point (x, y) of the interpolated function. */
  datatype Point = Point(x: real, y: real)

  function Xs(pts: seq<Point>): (xs: seq<real>)
    ensures |xs| == |pts|
    ensures forall i :: 0 <= i < |pts| ==> xs[i] == pts[i].x
  {
    seq(|pts|, i requires 0 <= i < |pts| => pts[i].x)
  }

  /** The sample abscissae strictly increase (no two samples share an x). */
  ghost predicate ValidSamples(pts: seq<Point>) {
    |pts| > 0 && Increasing(Xs(pts))
  }

  /** The smallest and largest sampled y value. */
  function MinY(pts: seq<Point>): real
    requires |pts| > 0
  {
    if |pts| == 1 then pts[0].y
    else var m := MinY(pts[1..]); if pts[0].y <= m then pts[0].y else m
  }

  function MaxY(pts: seq<Point>): real
    requires |pts| > 0
  {
    if |pts| == 1 then pts[0].y
    else var m := MaxY(pts[1..]); if pts[0].y >= m then pts[0].y else m
  }

  /** The bounds are sampled values. */
  lemma {:induction false} MinYAttained(pts: seq<Point>)
    requires |pts| > 0
    ensures exists i :: 0 <= i < |pts| && pts[i].y == MinY(pts)
  {
    if |pts| > 1 {
      MinYAttained(pts[1..]);
      var j :| 0 <= j < |pts[1..]| && pts[1..][j].y == MinY(pts[1..]);
      if pts[0].y > MinY(pts[1..]) {
        assert pts[j + 1].y == MinY(pts);
      } else {
        assert pts[0].y == MinY(pts);
      }
    } else {
      assert pts[0].y == MinY(pts);
    }
  }

  lemma {:induction false} MaxYAttained(pts: seq<Point>)
    requires |pts| > 0
    ensures exists i :: 0 <= i < |pts| && pts[i].y == MaxY(pts)
  {
    if |pts| > 1 {
      MaxYAttained(pts[1..]);
      var j :| 0 <= j < |pts[1..]| && pts[1..][j].y == MaxY(pts[1..]);
      if pts[0].y < MaxY(pts[1..]) {
        assert pts[j + 1].y == MaxY(pts);
      } else {
        assert pts[0].y == MaxY(pts);
      }
    } else {
      assert pts[0].y == MaxY(pts);
    }
  }

  /** The interpolated value lies between two of the sampled values. */
  lemma InterpWithinSamples(pts: seq<Point>, x: real)
    requires ValidSamples(pts)
    ensures exists i, j :: 0 <= i < |pts| && 0 <= j < |pts| && pts[i].y <= Interp(pts, x) <= pts[j].y
  {
    MinYAttained(pts);
    MaxYAttained(pts);
  }

  /** The straight line through a and b, evaluated at x, written as numpy evaluates it:
      slope times the offset from a, plus a's value. */
  function Lerp(a: Point, b: Point, x: real): real
    requires a.x < b.x
  {
    (b.y - a.y) / (b.x - a.x) * (x - a.x) + a.y
  }

  lemma UnitFraction(n: real, d: real)
    requires 0.0 <= n <= d && d > 0.0
    ensures 0.0 <= n / d <= 1.0
  {
  }

  /** On the segment a..b the line stays between the two end values. */
  lemma LerpBetween(a: Point, b: Point, x: real)
    requires a.x <= x <= b.x && a.x < b.x
    ensures a.y <= b.y ==> a.y <= Lerp(a, b, x) <= b.y
    ensures b.y <= a.y ==> b.y <= Lerp(a, b, x) <= a.y
  {
    var w := (x - a.x) / (b.x - a.x);
    UnitFraction(x - a.x, b.x - a.x);
    var d := b.y - a.y;
    assert Lerp(a, b, x) == a.y + w * d;
    if d <= 0.0 {
      assert (1.0 - w) * d <= 0.0;
      assert w * d >= d;
    } else {
      assert (1.0 - w) * d >= 0.0;
      assert w * d <= d;
    }
  }

  /** The interpolated value at x; it never leaves the range of the sampled values. */
  function Interp(pts: seq<Point>, x: real): (y: real)
    requires ValidSamples(pts)
    ensures MinY(pts) <= y <= MaxY(pts)
    decreases |pts|
  {
    if |pts| == 1 || x <= pts[0].x then pts[0].y
    else if x < pts[1].x then
      LerpBetween(pts[0], pts[1], x);
      Lerp(pts[0], pts[1], x)
    else
      assert ValidSamples(pts[1..]) by {
        assert forall i :: 0 <= i < |pts| - 1 ==> Xs(pts[1..])[i] == Xs(pts)[i + 1];
      }
      Interp(pts[1..], x)
  }

  /** Querying exactly at a sampled x gives back that sample's y. */
  lemma {:induction false} InterpAtSample(pts: seq<Point>, i: int)
    requires ValidSamples(pts)
    requires 0 <= i < |pts|
    ensures Interp(pts, pts[i].x) == pts[i].y
    decreases |pts|
  {
    if i > 0 {
      assert Xs(pts)[0] < Xs(pts)[i];
      assert 1 <= i ==> Xs(pts)[1] <= Xs(pts)[i];
      assert ValidSamples(pts[1..]) by {
        assert forall k :: 0 <= k < |pts| - 1 ==> Xs(pts[1..])[k] == Xs(pts)[k + 1];
      }
      InterpAtSample(pts[1..], i - 1);
    }
  }

  /** Below (or at) the lowest sample the first value is held: no extrapolation. */
  lemma InterpClampBelow(pts: seq<Point>, x: real)
    requires ValidSamples(pts)
    requires x <= pts[0].x
    ensures Interp(pts, x) == pts[0].y
  {
  }

  /** Above (or at) the highest sample the last value is held: no extrapolation. */
  lemma {:induction false} InterpClampAbove(pts: seq<Point>, x: real)
    requires ValidSamples(pts)
    requires pts[|pts| - 1].x <= x
    ensures Interp(pts, x) == pts[|pts| - 1].y
    decreases |pts|
  {
    if |pts| > 1 {
      assert Xs(pts)[0] < Xs(pts)[|pts| - 1];
      assert Xs(pts)[1] <= Xs(pts)[|pts| - 1];
      assert ValidSamples(pts[1..]) by {
        assert forall k :: 0 <= k < |pts| - 1 ==> Xs(pts[1..])[k] == Xs(pts)[k + 1];
      }
      InterpClampAbove(pts[1..], x);
    }
  }

  /** Between two neighbouring samples the value is the straight line through them. */
  lemma {:induction false} InterpBetweenSamples(pts: seq<Point>, i: int, x: real)
    requires ValidSamples(pts)
    requires 0 <= i < |pts| - 1
    requires pts[i].x <= x <= pts[i + 1].x
    ensures pts[i].x < pts[i + 1].x
    ensures Interp(pts, x) == Lerp(pts[i], pts[i + 1], x)
    decreases |pts|
  {
    assert Xs(pts)[i] < Xs(pts)[i + 1];
    if i == 0 {
      LerpAtEnds(pts[0], pts[1]);
      if x == pts[0].x {
      } else if x == pts[1].x {
        ValidTail(pts);
        InterpClampBelow(pts[1..], x);
        assert Interp(pts, x) == Interp(pts[1..], x);
      }
    } else {
      assert Xs(pts)[0] < Xs(pts)[i];
      assert Xs(pts)[1] <= Xs(pts)[i];
      ValidTail(pts);
      InterpBetweenSamples(pts[1..], i - 1, x);
    }
  }

  /** With two samples, a query strictly between them lies on the line through them. */
  lemma InterpTwoPoints(a: Point, b: Point, x: real)
    requires a.x < x < b.x
    ensures ValidSamples([a, b])
    ensures Interp([a, b], x) == Lerp(a, b, x)
  {
    assert Xs([a, b])[0] == a.x && Xs([a, b])[1] == b.x;
  }

  /** Halfway between two samples the line through them takes the mean of their values. */
  lemma LerpMidpoint(a: Point, b: Point)
    requires a.x < b.x
    ensures Lerp(a, b, (a.x + b.x) / 2.0) == (a.y + b.y) / 2.0
  {
    var d := b.x - a.x;
    var slope := (b.y - a.y) / d;
    assert (a.x + b.x) / 2.0 - a.x == d / 2.0;
    assert slope * (d / 2.0) == (slope * d) / 2.0;
    assert slope * d == b.y - a.y;
  }

  /** Dropping the first of several samples leaves valid samples. */
  lemma ValidTail(pts: seq<Point>)
    requires ValidSamples(pts) && |pts| > 1
    ensures ValidSamples(pts[1..])
  {
    assert forall k :: 0 <= k < |pts| - 1 ==> Xs(pts[1..])[k] == Xs(pts)[k + 1];
  }

  /** The line through two samples passes through both of them. */
  lemma LerpAtEnds(a: Point, b: Point)
    requires a.x < b.x
    ensures Lerp(a, b, a.x) == a.y
    ensures Lerp(a, b, b.x) == b.y
  {
    var d := b.x - a.x;
    assert (b.y - a.y) / d * d == b.y - a.y;
  }

  /** With two samples, halfway between them the interpolation is the mean of their values. */
  lemma InterpMidpoint(a: Point, b: Point)
    requires a.x < b.x
    ensures ValidSamples([a, b])
    ensures Interp([a, b], (a.x + b.x) / 2.0) == (a.y + b.y) / 2.0
  {
    InterpTwoPoints(a, b, (a.x + b.x) / 2.0);
    LerpMidpoint(a, b);
  }
}
