/** Conversion of a wind reading into a drift-rate vector, and drift over a time span. */
module Kinematics {
  import opened Geometry

  /** The transcendental part of the conversion, left uninterpreted: the value of pi and the
      sine and cosine of an angle in radians. */
  datatype Trig = Trig(pi: real, sin: real -> real, cos: real -> real)

  const KmhPerMetrePerSecond: real := 3.6

  /** Degrees to radians. */
  function Radians(trig: Trig, degrees: real): real {
    degrees * trig.pi / 180.0
  }

  /** Drift rate in m/s for wind of the given direction and speed in km/h: east is
      speed * sin(direction), north is speed * cos(direction). */
  function WindVector(trig: Trig, directionDeg: real, speedKmh: real): Vec {
    var rad := Radians(trig, directionDeg);
    var speedMs := speedKmh / KmhPerMetrePerSecond;
    Vec(speedMs * trig.sin(rad), speedMs * trig.cos(rad))
  }

  /** Displacement in metres after drifting at a constant rate for a number of seconds. */
  function Displacement(rate: Vec, seconds: real): Vec {
    Scale(rate, seconds)
  }

  /** When sin² + cos² = 1 at the bearing, the drift rate has magnitude speed / 3.6. */
  lemma WindVectorMagnitude(trig: Trig, directionDeg: real, speedKmh: real)
    requires var rad := Radians(trig, directionDeg);
             trig.sin(rad) * trig.sin(rad) + trig.cos(rad) * trig.cos(rad) == 1.0
    ensures var v := WindVector(trig, directionDeg, speedKmh);
            v.east * v.east + v.north * v.north
              == (speedKmh / KmhPerMetrePerSecond) * (speedKmh / KmhPerMetrePerSecond)
  {
    var rad := Radians(trig, directionDeg);
    var m := speedKmh / KmhPerMetrePerSecond;
    var s := trig.sin(rad);
    var c := trig.cos(rad);
    calc {
      (m * s) * (m * s) + (m * c) * (m * c);
      m * m * (s * s + c * c);
      m * m;
    }
  }

  /** Wind from bearing 0 at 36 km/h drifts due north at 10 m/s. */
  lemma WindVectorDueNorth(trig: Trig)
    requires trig.sin(0.0) == 0.0 && trig.cos(0.0) == 1.0
    ensures WindVector(trig, 0.0, 36.0) == Vec(0.0, 10.0)
  {
  }

  /** Wind at bearing 90 and 36 km/h drifts due east at 10 m/s. */
  lemma WindVectorDueEast(trig: Trig)
    requires trig.sin(trig.pi / 2.0) == 1.0 && trig.cos(trig.pi / 2.0) == 0.0
    ensures WindVector(trig, 90.0, 36.0) == Vec(10.0, 0.0)
  {
    assert Radians(trig, 90.0) == trig.pi / 2.0;
  }

  /** Doubling the speed doubles the drift: the vector is linear in speed. */
  lemma WindVectorLinearInSpeed(trig: Trig, directionDeg: real, speedKmh: real, k: real)
    ensures WindVector(trig, directionDeg, k * speedKmh) == Scale(WindVector(trig, directionDeg, speedKmh), k)
  {
  }
}
