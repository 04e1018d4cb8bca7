/** From the angle that the orientation sensor reads to the angle that stabilisation measures. */
module Attitude {
  import opened Bus
  import opened RealArithmetic
  import opened Trigonometry
  import opened OrientationValues
  import K = CircleMovingAverage
  import S = Stabilization

  /** The angle in [0, 360) that points the same way. */
  function WithinTurn(a: real): real {
    S.TurnedBack(a, (a / 360.0).Floor)
  }

  /** The last samples that the circular average covers all have this angle. */
  ghost predicate Steady(taken: seq<Sample>, c: Coordinate, a: real) {
    && |taken| >= AngleSize(c)
    && forall i :: |taken| - AngleSize(c) <= i < |taken| ==> Angle(taken[i], c) == a
  }

  lemma ThereAndBack(a: real, trig: Trig)
    ensures Degrees(Radians(a, trig), trig) == a
  {
    var u, w := trig.pi / 180.0, 180.0 / trig.pi;
    TimesRatio(180.0, trig.pi);
    assert u * w == 1.0;
    assert (a * u) * w == a * (u * w);
  }

  lemma RadiansTurn(a: real, k: int, trig: Trig)
    ensures Radians(S.TurnedBack(a, k), trig) == trig.Turned(Radians(a, trig), -k)
  {
    var p, q := trig.pi / 180.0, k as real;
    assert (a - 360.0 * q) * p == a * p - (q * p) * 360.0;
    assert q * (2.0 * trig.pi) == (q * p) * 360.0;
    assert -q * (2.0 * trig.pi) == -(q * (2.0 * trig.pi));
  }

  lemma SameFraction(a: real, trig: Trig)
    ensures Radians(a, trig) / trig.Turn() == a / 360.0
  {
    var x, y := Radians(a, trig), trig.Turn();
    assert x == (a / 360.0) * y;
    TimesRatio(x, y);
    Cancels(x / y, a / 360.0, y);
  }

  lemma Cancels(x: real, y: real, z: real)
    requires z > 0.0 && x * z == y * z
    ensures x == y
  {
    assert (x - y) * z == 0.0;
  }

  /** Reducing in radians is reducing in degrees. */
  lemma ReducedDegrees(a: real, trig: Trig)
    ensures Degrees(trig.Reduced(Radians(a, trig)), trig) == WithinTurn(a)
    ensures trig.Reduced(Radians(a, trig)) == Radians(WithinTurn(a), trig)
  {
    hide Radians, Degrees, Functions.Turned, Functions.Turn, S.TurnedBack;
    SameFraction(a, trig);
    RadiansTurn(a, (a / 360.0).Floor, trig);
    ThereAndBack(WithinTurn(a), trig);
  }

  lemma HalfTurnDegrees(a: real, trig: Trig)
    ensures Radians(a, trig) == trig.pi <==> a == 180.0
    ensures Degrees(0.0, trig) == 0.0
  {
    ThereAndBack(a, trig);
    ThereAndBack(180.0, trig);
    assert Radians(180.0, trig) == trig.pi;
    hide Radians;
  }

  /** What is published for a steady angle: the angle within one turn, and 0 for the half turn (an exception of exact
      reals: no double is pi). */
  lemma SteadyAnglePublished(taken: seq<Sample>, c: Coordinate, a: real, trig: Trig)
    requires trig.Lawful() && Steady(taken, c, a)
    ensures MeanAngle(taken, c, trig) == if WithinTurn(a) == 180.0 then 0.0 else WithinTurn(a)
  {
    hide Functions.Lawful, Functions.Reduced, Radians, Degrees, K.Report, WithinTurn, Angle, AngleSize;
    var angles := Angles(taken, c, trig);
    assert K.Steady(angles, AngleSize(c), Radians(a, trig));
    K.SteadyReport(angles, AngleSize(c), Radians(a, trig), trig);
    ReducedDegrees(a, trig);
    HalfTurnDegrees(WithinTurn(a), trig);
  }

  lemma WithinTurnIs(a: real)
    ensures 0.0 <= WithinTurn(a) < 360.0
    ensures 0.0 <= a < 360.0 ==> WithinTurn(a) == a
    ensures -360.0 <= a < 0.0 ==> WithinTurn(a) == a + 360.0
  {
  }

  /** The angles about x and z are taken over as they are published: a steady one comes through unchanged if and only
      if it is at least 0 and below 360 degrees and not 180. */
  lemma OtherAxesMeasuredExactly(taken: seq<Sample>, c: Coordinate, a: real, trig: Trig, s: S.Sensors)
    requires trig.Lawful() && Steady(taken, c, a) && !c.Y?
    requires (if c.X? then s.x else s.z) == MeanAngle(taken, c, trig)
    ensures S.Measured(s)[if c.X? then 0 else 2] == a <==> 0.0 <= a < 360.0 && a != 180.0
  {
    hide MeanAngle, WithinTurn, Functions.Lawful, Steady;
    SteadyAnglePublished(taken, c, a, trig);
    WithinTurnIs(a);
  }

  /** A steady pitch comes through the sensor's filter and the stabilisation's measurement unchanged if and only if
      it is at least -90 and below 270 degrees and not 180. */
  lemma PitchMeasuredExactly(taken: seq<Sample>, a: real, trig: Trig, s: S.Sensors)
    requires trig.Lawful() && Steady(taken, Y, a) && s.y == MeanAngle(taken, Y, trig)
    ensures S.Measured(s)[1] == a <==> -90.0 <= a < 270.0 && a != 180.0
  {
    hide MeanAngle, WithinTurn, Functions.Lawful, Steady;
    SteadyAnglePublished(taken, Y, a, trig);
    WithinTurnIs(a);
  }
}
