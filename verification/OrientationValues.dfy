/** From raw BNO055 samples to published data: unpacking, then a moving average for each acceleration and a circular
    one for each angle. */
module OrientationValues {
  import opened Bus
  import opened Trigonometry
  import M = MovingAverage
  import K = CircleMovingAverage
  import R = Ring

  datatype Coordinate = X | Y | Z

  const ACCELERATION_SIZE: nat := 10

  /** How many angles each circular average covers. */
  function AngleSize(c: Coordinate): (n: nat)
    ensures n > 0
  {
    if c.Z? then 20 else 10
  }

  /** The longest of the windows. */
  const LONGEST: nat := 20

  /** The accuracy fields of the status: system, gyroscope, accelerometer, magnetometer. */
  function Accuracy(status: Byte): seq<Byte> {
    [(status >> 6) & 3, (status >> 4) & 3, (status >> 2) & 3, status & 3]
  }

  function ByteAt(block: seq<Byte>, i: nat): int {
    if i < |block| then block[i] as int else 0
  }

  /** Two bytes, least significant first, in two's complement. */
  function Int16(block: seq<Byte>, i: nat): int {
    var u := ByteAt(block, i) + 256 * ByteAt(block, i + 1);
    if u < 0x8000 then u else u - 0x1_0000
  }

  function Int8(b: Byte): int {
    if b < 0x80 then b as int else b as int - 0x100
  }

  /** In metres per second squared. */
  function Acceleration(s: Sample, c: Coordinate): real {
    if s.OrientationSample? then Int16(s.acceleration, match c case X => 0 case Y => 2 case Z => 4) as real / 100.0
    else 0.0
  }

  /** In degrees, about the axes of the robot: the device lists z first and counts y the other way. */
  function Angle(s: Sample, c: Coordinate): real {
    if s.OrientationSample? then
      match c
      case X => Int16(s.euler, 4) as real / 16.0
      case Y => -(Int16(s.euler, 2) as real) / 16.0
      case Z => Int16(s.euler, 0) as real / 16.0
    else 0.0
  }

  function Radians(degrees: real, trig: Trig): real
  {
    degrees * (trig.pi / 180.0)
  }

  function Degrees(radians: real, trig: Trig): real
  {
    radians * (180.0 / trig.pi)
  }

  function Accelerations(taken: seq<Sample>, c: Coordinate): (v: seq<real>)
    ensures |v| == |taken|
  {
    seq(|taken|, i requires 0 <= i < |taken| => Acceleration(taken[i], c))
  }

  function Angles(taken: seq<Sample>, c: Coordinate, trig: Trig): (v: seq<real>)
    ensures |v| == |taken|
  {
    seq(|taken|, i requires 0 <= i < |taken| => Radians(Angle(taken[i], c), trig))
  }

  lemma NoLanes(trig: Trig)
    ensures forall c: Coordinate :: Angles([], c, trig) == [] && Accelerations([], c) == []
  {
  }

  lemma LanesNext(taken: seq<Sample>, s: Sample, c: Coordinate, trig: Trig)
    ensures Accelerations(taken + [s], c) == Accelerations(taken, c) + [Acceleration(s, c)]
    ensures Angles(taken + [s], c, trig) == Angles(taken, c, trig) + [Radians(Angle(s, c), trig)]
  {
    hide Acceleration, Angle, Radians;
  }

  function MeanAcceleration(taken: seq<Sample>, c: Coordinate): real {
    M.MeanOf(Accelerations(taken, c), ACCELERATION_SIZE)
  }

  /** The circular average of the last angles, in degrees. */
  function MeanAngle(taken: seq<Sample>, c: Coordinate, trig: Trig): real
  {
    Degrees(K.Report(Angles(taken, c, trig), AngleSize(c), trig), trig)
  }

  const INITIAL := OrientationData([0, 0, 0, 0], Axes(0.0, 0.0, 0.0), Axes(0.0, 0.0, 0.0), 0)

  /** What is published once these samples have been taken. Accuracy and temperature are those of the last one. */
  function Filtered(taken: seq<Sample>, trig: Trig): Data
  {
    if taken == [] || !taken[|taken| - 1].OrientationSample? then INITIAL
    else
      var last := taken[|taken| - 1];
      OrientationData(
        Accuracy(last.status),
        Axes(MeanAcceleration(taken, X), MeanAcceleration(taken, Y), MeanAcceleration(taken, Z)),
        Axes(MeanAngle(taken, X, trig), MeanAngle(taken, Y, trig), MeanAngle(taken, Z, trig)),
        Int8(last.temperature))
  }

  /** The same as a function of the samples alone. */
  function Maker(trig: Trig): seq<Sample> -> Data {
    taken => Filtered(taken, trig)
  }

  // ---------------------------------------------------------------- how far back a publication depends

  lemma MeanAccelerationSince(earlier: seq<Sample>, since: seq<Sample>, c: Coordinate)
    requires |since| >= ACCELERATION_SIZE
    ensures MeanAcceleration(earlier + since, c) == MeanAcceleration(since, c)
  {
    hide Acceleration, M.Sum;
    assert Accelerations(earlier + since, c) == Accelerations(earlier, c) + Accelerations(since, c);
    R.WindowOfSuffix(Accelerations(earlier, c), Accelerations(since, c), ACCELERATION_SIZE, 0.0);
  }

  /** Until ten samples have been taken since some point, an acceleration is published free of older ones if and only
      if those still covered add up to zero. */
  lemma AccelerationSinceExactly(earlier: seq<Sample>, since: seq<Sample>, c: Coordinate)
    requires |since| <= ACCELERATION_SIZE
    ensures MeanAcceleration(earlier + since, c) == MeanAcceleration(since, c) <==>
      M.Sum(R.Window(Accelerations(earlier, c), ACCELERATION_SIZE - |since|, 0.0)) == 0.0
  {
    hide Acceleration, M.Sum, M.MeanOf;
    assert Accelerations(earlier + since, c) == Accelerations(earlier, c) + Accelerations(since, c);
    M.MeanOfSplit(Accelerations(earlier, c), Accelerations(since, c), ACCELERATION_SIZE);
  }

  lemma MeanAngleSince(earlier: seq<Sample>, since: seq<Sample>, c: Coordinate, trig: Trig)
    requires |since| >= AngleSize(c)
    ensures MeanAngle(earlier + since, c, trig) == MeanAngle(since, c, trig)
  {
    hide Angle, Radians, Degrees, K.Mean, K.Unit, K.ArcOf, AngleSize;
    var a, b := Angles(earlier, c, trig), Angles(since, c, trig);
    assert Angles(earlier + since, c, trig) == a + b;
    hide Angles;
    assert K.Units(a + b, trig) == K.Units(a, trig) + K.Units(b, trig);
    R.WindowOfSuffix(K.Units(a, trig), K.Units(b, trig), AngleSize(c), K.ORIGIN);
  }

  /** With twenty samples of its own, the rest of a history decides what is published. */
  lemma FilteredSince(earlier: seq<Sample>, since: seq<Sample>, trig: Trig)
    requires |since| >= LONGEST
    ensures Filtered(earlier + since, trig) == Filtered(since, trig)
  {
    hide MeanAcceleration, MeanAngle, Accuracy, Int8;
    forall c: Coordinate
      ensures MeanAcceleration(earlier + since, c) == MeanAcceleration(since, c)
      ensures MeanAngle(earlier + since, c, trig) == MeanAngle(since, c, trig)
    {
      MeanAccelerationSince(earlier, since, c);
      MeanAngleSince(earlier, since, c, trig);
    }
  }

  // ---------------------------------------------------------------- the filters

  class Filters {
    const trig: Trig
    const eulerX: K.Filter
    const eulerY: K.Filter
    const eulerZ: K.Filter
    const accelerationX: M.Filter
    const accelerationY: M.Filter
    const accelerationZ: M.Filter

    function Footprint(): set<object> {
      {eulerX, eulerX.elements, eulerY, eulerY.elements, eulerZ, eulerZ.elements,
       accelerationX, accelerationX.elements, accelerationY, accelerationY.elements,
       accelerationZ, accelerationZ.elements}
    }

    /** No two filters share their elements. */
    ghost predicate Apart() {
      var ex, ey, ez := eulerX.elements, eulerY.elements, eulerZ.elements;
      var ax, ay, az := accelerationX.elements, accelerationY.elements, accelerationZ.elements;
      && eulerX != eulerY && eulerX != eulerZ && eulerY != eulerZ
      && accelerationX != accelerationY && accelerationX != accelerationZ && accelerationY != accelerationZ
      && ex != ey && ex != ez && ex != ax && ex != ay && ex != az
      && ey != ez && ey != ax && ey != ay && ey != az
      && ez != ax && ez != ay && ez != az
      && ax != ay && ax != az && ay != az
    }

    ghost predicate Valid()
      reads Footprint()
    {
      && Apart()
      && eulerX.Valid() && eulerY.Valid() && eulerZ.Valid()
      && accelerationX.Valid() && accelerationY.Valid() && accelerationZ.Valid()
      && eulerX.trig == eulerY.trig == eulerZ.trig == trig
      && eulerX.size == AngleSize(X) && eulerY.size == AngleSize(Y) && eulerZ.size == AngleSize(Z)
      && accelerationX.size == accelerationY.size == accelerationZ.size == ACCELERATION_SIZE
    }

    /** The filters have been fed the values of these samples. */
    ghost predicate Fed(taken: seq<Sample>)
      reads Footprint()
    {
      && Valid()
      && eulerX.history == Angles(taken, X, trig) && eulerY.history == Angles(taken, Y, trig)
      && eulerZ.history == Angles(taken, Z, trig)
      && accelerationX.history == Accelerations(taken, X) && accelerationY.history == Accelerations(taken, Y)
      && accelerationZ.history == Accelerations(taken, Z)
    }

    /** Nothing has been fed yet. */
    ghost predicate Empty()
      reads Footprint()
    {
      && Valid()
      && eulerX.history == eulerY.history == eulerZ.history == []
      && accelerationX.history == accelerationY.history == accelerationZ.history == []
    }

    lemma EmptyIsFed()
      requires Empty()
      ensures Fed([])
    {
      NoLanes(trig);
      hide Valid, Angles, Accelerations;
    }

    constructor (trig: Trig)
      ensures fresh(Footprint()) && this.trig == trig && Empty()
    {
      hide K.Filter.Valid, M.Filter.Valid, AngleSize;
      this.trig := trig;
      eulerX := new K.Filter(AngleSize(X), trig);
      eulerY := new K.Filter(AngleSize(Y), trig);
      eulerZ := new K.Filter(AngleSize(Z), trig);
      accelerationX := new M.Filter(ACCELERATION_SIZE);
      accelerationY := new M.Filter(ACCELERATION_SIZE);
      accelerationZ := new M.Filter(ACCELERATION_SIZE);
    }

    method Apply(ghost taken: seq<Sample>, s: Sample) returns (data: Data)
      requires Fed(taken) && s.OrientationSample?
      modifies Footprint()
      ensures Fed(taken + [s])
      ensures data == Filtered(taken + [s], trig)
    {
      hide Acceleration, Angle, Radians, Degrees, Accuracy, Int8, M.MeanOf, K.Report, AngleSize, Accelerations, Angles;
      hide K.MeanVector, K.Filter.Valid, M.Filter.Valid;
      LanesNext(taken, s, X, trig);
      LanesNext(taken, s, Y, trig);
      LanesNext(taken, s, Z, trig);
      var ex := eulerX.Apply(Radians(Angle(s, X), trig));
      var ey := eulerY.Apply(Radians(Angle(s, Y), trig));
      var ez := eulerZ.Apply(Radians(Angle(s, Z), trig));
      var ax := accelerationX.Apply(Acceleration(s, X));
      var ay := accelerationY.Apply(Acceleration(s, Y));
      var az := accelerationZ.Apply(Acceleration(s, Z));
      data := OrientationData(Accuracy(s.status), Axes(ax, ay, az),
                              Axes(Degrees(ex, trig), Degrees(ey, trig), Degrees(ez, trig)), Int8(s.temperature));
    }
  }
}
