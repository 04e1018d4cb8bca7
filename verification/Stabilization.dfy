/** Attitude and depth stabilisation: errors, regulators and the resulting move vector. */
module Stabilization {
  import opened RealArithmetic
  import opened StaticVector
  import P = Pid

  /** Rotation about x, y, z in degrees, and depth. */
  datatype Sensors = Sensors(x: real, y: real, z: real, depth: real)

  /** The y angle moved from [270, 360) to [-90, 0). */
  function Measured(s: Sensors): P.Lanes {
    [s.x, if s.y >= 270.0 then s.y - 360.0 else s.y, s.z, s.depth]
  }

  /** The correction of angle errors beyond half a turn. */
  function Folded(e: real): real {
    if e > 180.0 then 360.0 - e else if e < -180.0 then 360.0 + e else e
  }

  function Errors(target: seq<real>, s: Sensors): P.Lanes
    requires |target| == 4
  {
    var e := P.Difference(target, Measured(s));
    [Folded(e[0]), e[1], Folded(e[2]), e[3]]
  }

  // ---------------------------------------------------------------- what the fold and the measured angle mean

  /** e moved by whole turns of 360 degrees. */
  function TurnedBack(e: real, k: int): real {
    e - 360.0 * k as real
  }

  function HalfTurns(j: int): real {
    180.0 * j as real
  }

  function Magnitude(x: real): real {
    if x >= 0.0 then x else -x
  }

  /** A folded error lies within half a turn if and only if the error is within one and a half turns. */
  lemma FoldedInHalfTurn(e: real)
    ensures -180.0 <= Folded(e) <= 180.0 <==> -540.0 <= e <= 540.0
  {
  }

  /** The magnitude of a folded error is the distance of the error to the nearest whole turn, attained by one of
      them, if and only if the error is within one and a half turns. */
  lemma FoldedIsDistance(e: real)
    ensures exists k: int :: Magnitude(Folded(e)) == Magnitude(TurnedBack(e, k))
    ensures (forall k: int :: Magnitude(Folded(e)) <= Magnitude(TurnedBack(e, k))) <==> -540.0 <= e <= 540.0
  {
    assert Magnitude(Folded(e)) ==
      Magnitude(TurnedBack(e, if e > 180.0 then 1 else if e < -180.0 then -1 else 0));
    if !(-540.0 <= e <= 540.0) {
      var k := NearestTurn(e);
      assert Magnitude(Folded(e)) > 180.0 >= Magnitude(TurnedBack(e, k));
    }
  }

  lemma NearestTurn(e: real) returns (k: int)
    ensures -180.0 <= TurnedBack(e, k) <= 180.0
  {
    k := ((e + 180.0) / 360.0).Floor;
  }

  /** A folded error points the same way as the error, so that it differs from it by whole turns, if and only if
      the error is at most half a turn or a multiple of it: a larger one is reflected and keeps its sign. */
  lemma FoldedSameWay(e: real)
    ensures (exists k: int :: Folded(e) == TurnedBack(e, k)) <==>
      e <= 180.0 || exists j: int :: e == HalfTurns(j)
  {
    if e < -180.0 {
      assert Folded(e) == TurnedBack(e, -1);
    } else if e <= 180.0 {
      assert Folded(e) == TurnedBack(e, 0);
    } else {
      if exists k: int :: Folded(e) == TurnedBack(e, k) {
        var k: int :| Folded(e) == TurnedBack(e, k);
        assert e == HalfTurns(k + 1);
      }
      if exists j: int :: e == HalfTurns(j) {
        var j: int :| e == HalfTurns(j);
        assert Folded(e) == TurnedBack(e, j - 1);
      }
    }
  }

  /** An error of 270 degrees is a quarter turn back; the fold answers a quarter turn forward. */
  lemma FoldedOppositeWay()
    ensures Folded(270.0) == 90.0 && TurnedBack(270.0, 1) == -90.0
    ensures !exists k: int :: Folded(270.0) == TurnedBack(270.0, k)
  {
    FoldedSameWay(270.0);
  }

  /** A y angle in [0, 360) is measured as the angle in [-90, 270) that points the same way. */
  lemma MeasuredPitch(s: Sensors)
    requires 0.0 <= s.y < 360.0
    ensures -90.0 <= Measured(s)[1] < 270.0
    ensures exists k: int :: Measured(s)[1] == TurnedBack(s.y, k)
    ensures Measured(s)[0] == s.x && Measured(s)[2] == s.z && Measured(s)[3] == s.depth
  {
    assert Measured(s)[1] == TurnedBack(s.y, if s.y >= 270.0 then 1 else 0);
  }

  // ---------------------------------------------------------------- what the errors are

  /** At the target there is no error; raising the target raises the errors about y and in depth by as much. Those two
      are plain differences, and so are the others up to half a turn, beyond which they are folded. */
  lemma ErrorsExactly(target: seq<real>, s: Sensors, x: real)
    requires |target| == 4
    ensures var e, y := Errors(target, s), if s.y >= 270.0 then s.y - 360.0 else s.y;
      && e[0] == Folded(target[0] - s.x) && (-180.0 <= target[0] - s.x <= 180.0 ==> e[0] == target[0] - s.x)
      && e[1] == target[1] - y
      && e[2] == Folded(target[2] - s.z) && (-180.0 <= target[2] - s.z <= 180.0 ==> e[2] == target[2] - s.z)
      && e[3] == target[3] - s.depth
      && (target == [s.x, y, s.z, s.depth] ==> e == P.ZEROS)
    ensures Errors(target[1 := target[1] + x], s) == Errors(target, s)[1 := Errors(target, s)[1] + x]
    ensures Errors(target[3 := target[3] + x], s) == Errors(target, s)[3 := Errors(target, s)[3] + x]
  {
  }

  /** Regulator outputs turned into forces and moments; disabled axes give zero. */
  function RawMove(pids: P.Lanes, enabled: seq<bool>, sinX: real, cosX: real, sinY: real, cosY: real): (m: seq<real>)
    requires |enabled| == 4
    ensures |m| == 6
  {
    [if enabled[3] then Times(-pids[3], sinY) else 0.0,
     if enabled[3] then Times(Times(pids[3], sinX), cosX) else 0.0,
     if enabled[3] then Times(Times(pids[3], cosX), cosY) else 0.0,
     if enabled[0] then -pids[0] else 0.0,
     if enabled[1] then -pids[1] else 0.0,
     if enabled[2] then -pids[2] else 0.0]
  }

  /** The regulator that drives each move component. */
  function Axis(component: nat): nat
    requires component < 6
    ensures Axis(component) < 4
  {
    if component < 3 then 3 else component - 3
  }

  /** A correction is limited to one unit per component and leaves disabled axes alone. */
  ghost predicate Limited(move: seq<real>, enabled: seq<bool>)
    requires |enabled| == 4
  {
    && |move| == 6
    && forall c :: 0 <= c < 6 ==> -1.0 <= move[c] <= 1.0 && (!enabled[Axis(c)] ==> move[c] == 0.0)
  }

  /** The move that regulator outputs ask for, limited to one unit; `sin` and `cos` take degrees. */
  function Correction(output: P.Lanes, enabled: seq<bool>, s: Sensors, sin: real -> real, cos: real -> real): seq<real>
    requires |enabled| == 4
  {
    var m := Measured(s);
    Normalized(RawMove(output, enabled, sin(m[0]), cos(m[0]), sin(m[1]), cos(m[1])), 1.0)
  }

  lemma CorrectionIsLimited(output: P.Lanes, enabled: seq<bool>, s: Sensors, sin: real -> real, cos: real -> real)
    requires |enabled| == 4
    ensures Limited(Correction(output, enabled, s, sin, cos), enabled)
  {
    hide RawMove, Normalized, Limited;
    var m := Measured(s);
    MoveIsLimited(output, enabled, sin(m[0]), cos(m[0]), sin(m[1]), cos(m[1]));
  }

  lemma MoveIsLimited(pids: P.Lanes, enabled: seq<bool>, sinX: real, cosX: real, sinY: real, cosY: real)
    requires |enabled| == 4
    ensures Limited(Normalized(RawMove(pids, enabled, sinX, cosX, sinY, cosY), 1.0), enabled)
  {
    var raw := RawMove(pids, enabled, sinX, cosX, sinY, cosY);
    NormalizedBound(raw, 1.0);
    var k := NormalizedFactor(raw, 1.0);
    assert forall c :: 0 <= c < 6 && !enabled[Axis(c)] ==> raw[c] == 0.0;
  }

  lemma CorrectionIs(output: P.Lanes, enabled: seq<bool>, s: Sensors, sin: real -> real, cos: real -> real)
    requires |enabled| == 4
    ensures var m := Measured(s);
      Correction(output, enabled, s, sin, cos)
        == Normalized(RawMove(output, enabled, sin(m[0]), cos(m[0]), sin(m[1]), cos(m[1])), 1.0)
  {
    hide RawMove, Normalized;
  }

  // ---------------------------------------------------------------- what the correction does

  /** The move turns against every enabled attitude output, pushes with the force of the depth output along the axes
      of the tilted robot, and is scaled down by one factor k, no more than its largest component needs. */
  ghost predicate Drives(move: seq<real>, output: P.Lanes, enabled: seq<bool>,
                         sinX: real, cosX: real, sinY: real, cosY: real, k: real)
    requires |enabled| == 4
  {
    var force := if enabled[3] then Times(k, output[3]) else 0.0;
    && 0.0 < k <= 1.0 && |move| == 6
    && (forall a :: 0 <= a < 3 ==> move[3 + a] == if enabled[a] then -Times(k, output[a]) else 0.0)
    && move[0] == -Times(force, sinY)
    && move[1] == Times(Times(force, sinX), cosX)
    && move[2] == Times(Times(force, cosX), cosY)
    && (k == 1.0 || exists c :: 0 <= c < 6 && Meets(move[c], 1.0))
  }

  lemma TimesAssociates(x: real, y: real, z: real)
    ensures Times(Times(x, y), z) == Times(x, Times(y, z))
  {
  }

  /** k passes through the products. */
  lemma ForceScaled(f: real, k: real, x: real, y: real)
    ensures Times(Times(-f, x), k) == -Times(Times(k, f), x)
    ensures Times(Times(Times(f, x), y), k) == Times(Times(Times(k, f), x), y)
  {
    hide Times;
    TimesNegates(f, x);
    TimesNegates(Times(f, x), k);
    TimesCommutes(Times(f, x), k);
    TimesAssociates(k, f, x);
    TimesCommutes(Times(Times(f, x), y), k);
    TimesAssociates(k, Times(f, x), y);
  }

  lemma RawMoveDrives(output: P.Lanes, enabled: seq<bool>, sinX: real, cosX: real, sinY: real, cosY: real)
    requires |enabled| == 4
    ensures Drives(RawMove(output, enabled, sinX, cosX, sinY, cosY), output, enabled, sinX, cosX, sinY, cosY, 1.0)
  {
  }

  lemma NormalizedDrives(output: P.Lanes, enabled: seq<bool>, sinX: real, cosX: real, sinY: real, cosY: real)
    returns (k: real)
    requires |enabled| == 4
    ensures Drives(Normalized(RawMove(output, enabled, sinX, cosX, sinY, cosY), 1.0),
                   output, enabled, sinX, cosX, sinY, cosY, k)
  {
    hide Times, Normalized, Meets;
    var raw := RawMove(output, enabled, sinX, cosX, sinY, cosY);
    k := NormalizedFactor(raw, 1.0);
    var move := Normalized(raw, 1.0);
    ForceScaled(output[3], k, sinY, 0.0);
    ForceScaled(output[3], k, sinX, cosX);
    ForceScaled(output[3], k, cosX, cosY);
    TimesOne(sinX);
    TimesOne(cosX);
    TimesOne(sinY);
    TimesOne(cosY);
    TimesOne(k);
    forall a | 0 <= a < 3
      ensures move[3 + a] == if enabled[a] then -Times(k, output[a]) else 0.0
    {
      TimesNegates(output[a], k);
      TimesCommutes(output[a], k);
    }
  }

  /** For every output, attitude and choice of axes. */
  lemma CorrectionDrives(output: P.Lanes, enabled: seq<bool>, s: Sensors, sin: real -> real, cos: real -> real)
    returns (k: real)
    requires |enabled| == 4
    ensures var y := if s.y >= 270.0 then s.y - 360.0 else s.y;
      Drives(Correction(output, enabled, s, sin, cos), output, enabled, sin(s.x), cos(s.x), sin(y), cos(y), k)
  {
    hide RawMove, Normalized, Drives;
    var m := Measured(s);
    k := NormalizedDrives(output, enabled, sin(m[0]), cos(m[0]), sin(m[1]), cos(m[1]));
  }

  /** On a level robot the depth output pushes along z alone; with the nose at a right angle, along x alone. */
  lemma LevelAndUpright(move: seq<real>, output: P.Lanes, enabled: seq<bool>,
                        sinX: real, cosX: real, sinY: real, cosY: real, k: real)
    requires |enabled| == 4 && enabled[3] && Drives(move, output, enabled, sinX, cosX, sinY, cosY, k)
    ensures sinX == sinY == 0.0 && cosX == cosY == 1.0 ==> move[..3] == [0.0, 0.0, Times(k, output[3])]
    ensures sinX == cosY == 0.0 && cosX == sinY == 1.0 ==> move[..3] == [-Times(k, output[3]), 0.0, 0.0]
  {
    hide Times, Meets;
    var force := Times(k, output[3]);
    TimesOne(force);
    TimesOne(sinX);
    TimesOne(cosX);
    TimesOne(cosY);
  }

  /** A vector of the robot's frame in the frame of the earth: turned about x, then about y. */
  function ToEarth(f: seq<real>, sinX: real, cosX: real, sinY: real, cosY: real): seq<real>
    requires |f| == 3
  {
    var y := Times(cosX, f[1]) - Times(sinX, f[2]);
    var z := Times(sinX, f[1]) + Times(cosX, f[2]);
    [Times(cosY, f[0]) + Times(sinY, z), y, Times(cosY, z) - Times(sinY, f[0])]
  }

  lemma ToEarthAdds(f: seq<real>, d: real, sinX: real, cosX: real, sinY: real, cosY: real)
    requires |f| == 3
    ensures var e := ToEarth(f, sinX, cosX, sinY, cosY);
      ToEarth([f[0], f[1] + d, f[2]], sinX, cosX, sinY, cosY)
        == [e[0] + Times(sinY, Times(sinX, d)), e[1] + Times(cosX, d), e[2] + Times(cosY, Times(sinX, d))]
  {
    hide Times;
    TimesCommutes(cosX, f[1] + d);
    TimesCommutes(cosX, f[1]);
    TimesCommutes(cosX, d);
    TimesCommutes(sinX, f[1] + d);
    TimesCommutes(sinX, f[1]);
    TimesCommutes(sinX, d);
    TimesDistributes(f[1], d, cosX);
    TimesDistributes(f[1], d, sinX);
    var z, w := Times(sinX, f[1]) + Times(cosX, f[2]), Times(sinX, d);
    TimesCommutes(sinY, z + w);
    TimesCommutes(sinY, z);
    TimesCommutes(sinY, w);
    TimesCommutes(cosY, z + w);
    TimesCommutes(cosY, z);
    TimesCommutes(cosY, w);
    TimesDistributes(z, w, sinY);
    TimesDistributes(z, w, cosY);
  }

  /** The vertical force f, seen from the tilted robot. */
  function Upward(f: real, sinX: real, cosX: real, sinY: real, cosY: real): (v: seq<real>)
    ensures |v| == 3
  {
    [-Times(f, sinY), Times(Times(f, sinX), cosY), Times(Times(f, cosX), cosY)]
  }

  predicate OnCircle(sin: real, cos: real) {
    Square(sin) + Square(cos) == 1.0
  }

  /** f s and f c, with s and c on the circle, turned back give f and nothing across. */
  lemma TurnedBackToAxis(f: real, s: real, c: real)
    requires OnCircle(s, c)
    ensures Times(s, Times(f, s)) + Times(c, Times(f, c)) == f
    ensures Times(c, Times(f, s)) == Times(s, Times(f, c))
  {
    hide Times;
    TimesCommutes(s, Times(f, s));
    TimesCommutes(c, Times(f, c));
    TimesAssociates(f, s, s);
    TimesAssociates(f, c, c);
    TimesCommutes(f, Times(s, s));
    TimesCommutes(f, Times(c, c));
    TimesDistributes(Times(s, s), Times(c, c), f);
    TimesOne(f);
    TimesCommutes(c, Times(f, s));
    TimesCommutes(s, Times(f, c));
    TimesAssociates(f, s, c);
    TimesAssociates(f, c, s);
    TimesCommutes(s, c);
  }

  lemma UpwardIsVertical(f: real, sinX: real, cosX: real, sinY: real, cosY: real)
    requires OnCircle(sinX, cosX) && OnCircle(sinY, cosY)
    ensures ToEarth(Upward(f, sinX, cosX, sinY, cosY), sinX, cosX, sinY, cosY) == [0.0, 0.0, f]
  {
    hide Times, OnCircle;
    var g := Times(f, cosY);
    Swapped(f, sinX, cosY);
    Swapped(f, cosX, cosY);
    TurnedBackToAxis(g, sinX, cosX);
    TurnedBackToAxis(f, sinY, cosY);
    TimesNegates(cosY, Times(f, sinY));
    TimesNegates(sinY, Times(f, sinY));
  }

  lemma Swapped(f: real, x: real, y: real)
    ensures Times(Times(f, x), y) == Times(Times(f, y), x)
  {
    hide Times;
    TimesAssociates(f, x, y);
    TimesAssociates(f, y, x);
    TimesCommutes(x, y);
  }

  /** The depth correction is a vertical push of the size asked for if and only if there is nothing to push, the robot
      does not lean to the side, or its two cosines agree: the sideways component has the cosine about x where that
      about y is needed. */
  lemma DepthForceVerticalExactly(move: seq<real>, output: P.Lanes, enabled: seq<bool>,
                                  sinX: real, cosX: real, sinY: real, cosY: real, k: real)
    requires |enabled| == 4 && enabled[3] && Drives(move, output, enabled, sinX, cosX, sinY, cosY, k)
    requires OnCircle(sinX, cosX) && OnCircle(sinY, cosY)
    ensures ToEarth(move[..3], sinX, cosX, sinY, cosY) == [0.0, 0.0, Times(k, output[3])]
       <==> output[3] == 0.0 || sinX == 0.0 || cosX == cosY
  {
    hide Times, OnCircle, ToEarth;
    var f := Times(k, output[3]);
    var lean := Times(f, sinX);
    var d := Times(lean, cosX - cosY);
    var v := Upward(f, sinX, cosX, sinY, cosY);
    UpwardIsVertical(f, sinX, cosX, sinY, cosY);
    ToEarthAdds(v, d, sinX, cosX, sinY, cosY);
    TimesCommutes(lean, cosX - cosY);
    TimesCommutes(lean, cosX);
    TimesCommutes(lean, cosY);
    TimesDistributes(cosX, cosY, lean);
    assert move[..3] == [v[0], v[1] + d, v[2]];
    SidewaysShows(d, sinX, cosX, sinY, cosY);
    ZeroProduct(k, output[3]);
    ZeroProduct(f, sinX);
    ZeroProduct(lean, cosX - cosY);
  }

  lemma ZeroProduct(x: real, y: real)
    ensures Times(x, y) == 0.0 <==> x == 0.0 || y == 0.0
  {
  }

  /** No sideways push goes unnoticed. */
  lemma SidewaysShows(d: real, sinX: real, cosX: real, sinY: real, cosY: real)
    requires OnCircle(sinX, cosX) && OnCircle(sinY, cosY)
    ensures Times(sinY, Times(sinX, d)) == Times(cosX, d) == Times(cosY, Times(sinX, d)) == 0.0 <==> d == 0.0
  {
    SquareZero(0.0);
    hide Times, Square;
    ZeroProduct(cosX, d);
    ZeroProduct(sinX, d);
    ZeroProduct(sinY, Times(sinX, d));
    ZeroProduct(cosY, Times(sinX, d));
  }

  method MeasureErrors(target: seq<real>, s: Sensors) returns (measuredValues: P.Lanes, errors: P.Lanes)
    requires |target| == 4
    ensures measuredValues == Measured(s) && errors == Errors(target, s)
  {
    measuredValues := [s.x, s.y, s.z, s.depth];
    if measuredValues[1] >= 270.0 {
      measuredValues := measuredValues[1 := measuredValues[1] - 360.0];
    }
    errors := P.Difference(target, measuredValues);
    if errors[0] > 180.0 {
      errors := errors[0 := 360.0 - errors[0]];
    } else if errors[0] < -180.0 {
      errors := errors[0 := 360.0 + errors[0]];
    }
    if errors[2] > 180.0 {
      errors := errors[2 := 360.0 - errors[2]];
    } else if errors[2] < -180.0 {
      errors := errors[2 := 360.0 + errors[2]];
    }
    assert measuredValues == Measured(s);
    assert errors == Errors(target, s);
  }

  method FormMove(pids: P.Lanes, enabled: seq<bool>, sinX: real, cosX: real, sinY: real, cosY: real)
    returns (newMove: array<real>)
    requires |enabled| == 4
    ensures fresh(newMove) && newMove[..] == RawMove(pids, enabled, sinX, cosX, sinY, cosY)
    ensures Drives(newMove[..], pids, enabled, sinX, cosX, sinY, cosY, 1.0)
  {
    RawMoveDrives(pids, enabled, sinX, cosX, sinY, cosY);
    hide Drives;
    var Fx, Fy, Fz := 0.0, 0.0, 0.0;
    if enabled[3] {
      Fx := Times(-pids[3], sinY);
      Fy := Times(Times(pids[3], sinX), cosX);
      Fz := Times(Times(pids[3], cosX), cosY);
    }
    var Mx := if enabled[0] then -pids[0] else 0.0;
    var My := if enabled[1] then -pids[1] else 0.0;
    var Mz := if enabled[2] then -pids[2] else 0.0;
    newMove := new real[6] [Fx, Fy, Fz, Mx, My, Mz];
  }

  class Stabilization {
    const pids: P.PIDArray

    ghost predicate Valid()
      reads this, pids, pids.pArray, pids.iArray, pids.dArray
      reads pids.iArray.sums, pids.dArray.prevErrors, pids.dArray.values
    {
      pids.Valid() && pids.Ready()
    }

    constructor (p: array<real>, i: array<real>, d: array<real>)
      requires p.Length == i.Length == d.Length == 4
      ensures Valid() && pids.history == []
      ensures fresh(pids) && fresh(pids.iArray.sums) && fresh(pids.dArray.prevErrors) && fresh(pids.dArray.values)
      ensures fresh(pids.pArray) && fresh(pids.iArray) && fresh(pids.dArray)
    {
      pids := new P.PIDArray(p, i, d);
    }

    method Calculate(dt: real, target: seq<real>, enabled: seq<bool>, s: Sensors,
                     sin: real -> real, cos: real -> real)
      returns (newMove: array<real>)
      requires Valid() && dt > 0.0 && |target| == |enabled| == 4
      modifies pids, pids.iArray.sums, pids.dArray.prevErrors, pids.dArray.values
      ensures Valid()
      ensures pids.history == old(pids.history) + [P.Update(dt, Errors(target, s), pids.pArray.coefficients[..],
                                                            pids.iArray.coefficients[..], pids.dArray.coefficients[..])]
      ensures fresh(newMove) && Limited(newMove[..], enabled)
      ensures newMove[..] == Correction(P.Output(pids.history), enabled, s, sin, cos)
      ensures var y := if s.y >= 270.0 then s.y - 360.0 else s.y;
        exists k: real ::
          Drives(newMove[..], P.Output(pids.history), enabled, sin(s.x), cos(s.x), sin(y), cos(y), k)
    {
      var measuredValues, errors := MeasureErrors(target, s);
      var output := pids.Calculate(dt, errors);
      hide *;
      CorrectionIs(output[..], enabled, s, sin, cos);
      var sinX, cosX := sin(measuredValues[0]), cos(measuredValues[0]);
      var sinY, cosY := sin(measuredValues[1]), cos(measuredValues[1]);
      newMove := FormMove(output[..], enabled, sinX, cosX, sinY, cosY);
      MoveIsLimited(output[..], enabled, sinX, cosX, sinY, cosY);
      Normalize(newMove, 1.0);
      ghost var k := CorrectionDrives(output[..], enabled, s, sin, cos);
    }

    method Reset()
      requires Valid()
      modifies pids, pids.iArray.sums, pids.dArray.prevErrors
      ensures Valid() && pids.history == old(pids.history) + [P.Event.Reset]
    {
      pids.Reset();
    }
  }
}
