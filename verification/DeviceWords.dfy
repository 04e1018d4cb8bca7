/** What the BNO055 puts on the bus for a motion, and what is published for it. */
module DeviceWords {
  import opened Bus
  import opened Trigonometry
  import opened OrientationValues
  import A = Attitude
  import K = CircleMovingAverage
  import M = MovingAverage
  import R = Ring
  import Bno055
  import opened Publications
  import opened SensorMachine
  import opened Published

  // ---------------------------------------------------------------- the device's side

  type Int16Value = x: int | -0x8000 <= x < 0x8000

  /** The byte with the value n. */
  function ToByte(n: nat): (b: Byte)
    requires n < 256
    ensures b as int == n
  {
    if n == 0 then 0 else Next(ToByte(n - 1))
  }

  function Next(b: Byte): (r: Byte)
    requires b as int < 255
    ensures r as int == b as int + 1
  {
    b + 1
  }

  /** One register pair: two's complement, low byte first. */
  function Registers(x: Int16Value): (b: seq<Byte>)
    ensures |b| == 2
  {
    [ToByte(x % 0x1_0000 % 256), ToByte(x % 0x1_0000 / 256)]
  }

  /** Three register pairs in a row. */
  function Block(a: Int16Value, b: Int16Value, c: Int16Value): (block: seq<Byte>)
    ensures |block| == 6
  {
    Registers(a) + Registers(b) + Registers(c)
  }

  /** Four fields of two bits, the first one on top. */
  function StatusByte(system: Byte, gyroscope: Byte, accelerometer: Byte, magnetometer: Byte): Byte {
    ((system * 4 + gyroscope) * 4 + accelerometer) * 4 + magnetometer
  }

  function CelsiusByte(t: int): Byte
    requires -128 <= t < 128
  {
    ToByte(t % 256)
  }

  // ---------------------------------------------------------------- and back

  lemma RegistersReturn(block: seq<Byte>, i: nat, x: Int16Value)
    requires i + 2 <= |block| && block[i..i + 2] == Registers(x)
    ensures Int16(block, i) == x
  {
    assert block[i] == block[i..i + 2][0] && block[i + 1] == block[i..i + 2][1];
  }

  lemma BlockReturns(a: Int16Value, b: Int16Value, c: Int16Value)
    ensures Int16(Block(a, b, c), 0) == a && Int16(Block(a, b, c), 2) == b && Int16(Block(a, b, c), 4) == c
  {
    hide Int16, Registers;
    var block := Block(a, b, c);
    assert block[0..2] == Registers(a) && block[2..4] == Registers(b) && block[4..6] == Registers(c);
    RegistersReturn(block, 0, a);
    RegistersReturn(block, 2, b);
    RegistersReturn(block, 4, c);
  }

  lemma StatusReturns(system: Byte, gyroscope: Byte, accelerometer: Byte, magnetometer: Byte)
    requires system < 4 && gyroscope < 4 && accelerometer < 4 && magnetometer < 4
    ensures Accuracy(StatusByte(system, gyroscope, accelerometer, magnetometer))
         == [system, gyroscope, accelerometer, magnetometer]
  {
  }

  lemma CelsiusReturns(t: int)
    requires -128 <= t < 128
    ensures Int8(CelsiusByte(t)) == t
  {
    hide ToByte;
    var b := CelsiusByte(t);
    assert b < 0x80 <==> b as int < 128;
  }

  /** What one sample says, for every 16-bit value of the nine registers: accelerations in hundredths, in the order
      x, y, z; angles in sixteenths of a degree, heading about z, roll backwards about y, pitch about x. */
  lemma WordsReturn(s: Sample, ax: Int16Value, ay: Int16Value, az: Int16Value,
                    heading: Int16Value, roll: Int16Value, pitch: Int16Value)
    requires s.OrientationSample?
    ensures s.acceleration == Block(ax, ay, az) ==>
      Acceleration(s, X) == ax as real / 100.0 && Acceleration(s, Y) == ay as real / 100.0
      && Acceleration(s, Z) == az as real / 100.0
    ensures s.euler == Block(heading, roll, pitch) ==>
      Angle(s, X) == pitch as real / 16.0 && Angle(s, Y) == -(roll as real / 16.0)
      && Angle(s, Z) == heading as real / 16.0
  {
    hide Int16, Block;
    BlockReturns(ax, ay, az);
    BlockReturns(heading, roll, pitch);
  }

  // ---------------------------------------------------------------- what is published for a steady device

  /** What a device holding still reports. */
  datatype Motion = Motion(ax: Int16Value, ay: Int16Value, az: Int16Value,
                           heading: Int16Value, roll: Int16Value, pitch: Int16Value)

  /** Its two blocks stand in the sample. */
  predicate Says(s: Sample, m: Motion) {
    && s.OrientationSample?
    && s.acceleration == Block(m.ax, m.ay, m.az)
    && s.euler == Block(m.heading, m.roll, m.pitch)
  }

  /** An angle as it is published once the average is full. */
  function Shown(a: real): real {
    if A.WithinTurn(a) == 180.0 then 0.0 else A.WithinTurn(a)
  }

  lemma SaidAngle(s: Sample, m: Motion, c: Coordinate)
    requires Says(s, m)
    ensures Angle(s, c) == AngleOf(m, c) && Acceleration(s, c) == AccelerationOf(m, c)
  {
    hide Angle, Acceleration, Block;
    WordsReturn(s, m.ax, m.ay, m.az, m.heading, m.roll, m.pitch);
  }

  function AngleOf(m: Motion, c: Coordinate): real {
    match c
    case X => m.pitch as real / 16.0
    case Y => -(m.roll as real / 16.0)
    case Z => m.heading as real / 16.0
  }

  function AccelerationOf(m: Motion, c: Coordinate): real {
    (match c case X => m.ax case Y => m.ay case Z => m.az) as real / 100.0
  }

  lemma StillAngle(taken: seq<Sample>, m: Motion, c: Coordinate, trig: Trig)
    requires trig.Lawful() && |taken| >= 20 && forall i :: |taken| - 20 <= i < |taken| ==> Says(taken[i], m)
    ensures MeanAngle(taken, c, trig) == Shown(AngleOf(m, c))
  {
    hide Functions.Lawful, Says, A.WithinTurn, MeanAngle, Angle, AngleOf, Acceleration;
    forall i | |taken| - 20 <= i < |taken|
      ensures Angle(taken[i], c) == AngleOf(m, c)
    {
      SaidAngle(taken[i], m, c);
    }
    A.SteadyAnglePublished(taken, c, AngleOf(m, c), trig);
  }

  lemma StillAcceleration(taken: seq<Sample>, m: Motion, c: Coordinate)
    requires |taken| >= 10 && forall i :: |taken| - 10 <= i < |taken| ==> Says(taken[i], m)
    ensures MeanAcceleration(taken, c) == AccelerationOf(m, c)
  {
    hide Says, M.MeanOf, AccelerationOf, Acceleration;
    var values := Accelerations(taken, c);
    forall i | |taken| - 10 <= i < |taken|
      ensures values[i] == AccelerationOf(m, c)
    {
      SaidAngle(taken[i], m, c);
    }
    M.SteadyMean(values, 10, AccelerationOf(m, c));
  }

  /** With twenty samples of a device holding still, whatever came before: its accelerations, its three angles within
      one turn (over exact reals, 0 for 180 degrees), and the status and temperature of the last sample. */
  lemma StillDevicePublished(taken: seq<Sample>, m: Motion, status: seq<Byte>, t: int, trig: Trig)
    requires trig.Lawful() && |taken| >= 20 && forall i :: |taken| - 20 <= i < |taken| ==> Says(taken[i], m)
    requires |status| == 4 && forall i :: 0 <= i < 4 ==> status[i] < 4
    requires -128 <= t < 128
    requires var last := taken[|taken| - 1];
      && last.OrientationSample?
      && last.status == StatusByte(status[0], status[1], status[2], status[3])
      && last.temperature == CelsiusByte(t)
    ensures Filtered(taken, trig) == OrientationData(
      status,
      Axes(m.ax as real / 100.0, m.ay as real / 100.0, m.az as real / 100.0),
      Axes(Shown(m.pitch as real / 16.0), Shown(-(m.roll as real / 16.0)), Shown(m.heading as real / 16.0)),
      t)
  {
    hide Functions.Lawful, Shown, Block, MeanAngle, MeanAcceleration, Accuracy, Int8, StatusByte, CelsiusByte;
    assert Says(taken[|taken| - 1], m);
    forall c: Coordinate
      ensures MeanAngle(taken, c, trig) == Shown(AngleOf(m, c)) && MeanAcceleration(taken, c) == AccelerationOf(m, c)
    {
      hide Says, AngleOf, AccelerationOf;
      StillAngle(taken, m, c, trig);
      StillAcceleration(taken, m, c);
    }
    StatusReturns(status[0], status[1], status[2], status[3]);
    assert status == [status[0], status[1], status[2], status[3]];
    CelsiusReturns(t);
  }

  /** The same in every run, for the answers that the bus gave: if the last twenty samples were read from a device
      holding still, its motion is what is published. */
  lemma StillDeviceInRun(fd: nat, sensor: SensorState, steps: seq<Step>, k: nat, m: Motion, status: seq<Byte>, t: int)
    requires sensor.Shaped() && sensor.Unstarted() && sensor.Orientation? && sensor.bno.trig.Lawful()
    requires var trace := Run(Registered(fd, sensor), steps).trace; 4 <= k < |trace| && trace[k].Publish?
    requires var taken := SamplesOf(Run(Registered(fd, sensor), steps).trace[..k + 1]);
      |taken| >= 20 && forall i :: |taken| - 20 <= i < |taken| ==> Says(taken[i], m)
    requires |status| == 4 && forall i :: 0 <= i < 4 ==> status[i] < 4
    requires -128 <= t < 128
    requires var trace := Run(Registered(fd, sensor), steps).trace;
      && AnswerOf(trace[k - 4]).At(0) == StatusByte(status[0], status[1], status[2], status[3])
      && AnswerOf(trace[k - 1]).At(0) == CelsiusByte(t)
    ensures Run(Registered(fd, sensor), steps).trace[k].data == OrientationData(
      status,
      Axes(m.ax as real / 100.0, m.ay as real / 100.0, m.az as real / 100.0),
      Axes(Shown(m.pitch as real / 16.0), Shown(-(m.roll as real / 16.0)), Shown(m.heading as real / 16.0)),
      t)
  {
    hide Run, Shown, Says, Filtered, StatusByte, CelsiusByte, Functions.Lawful, SamplesOf, Bno055.ConfiguredSince;
    hide SameButHeading, LastTakenSince;
    var i, polls := OrientationPublished(fd, sensor, steps, k);
    var trace := Run(Registered(fd, sensor), steps).trace;
    var taken := SamplesOf(trace[..k + 1]);
    LastSample(trace, k);
    Bno055.JustifiedAccesses(trace, k, sensor.bno.mode);
    StillDevicePublished(taken, m, status, t, sensor.bno.trig);
  }

  lemma LastSample(trace: seq<Event>, k: nat)
    requires k < |trace| && trace[k].Publish?
    ensures var taken := SamplesOf(trace[..k + 1]); |taken| > 0 && taken[|taken| - 1] == trace[k].sample
  {
    assert trace[..k + 1][..k] == trace[..k];
  }

  /** Before that, after k samples of it from the start: k tenths of the acceleration, and angles whose cosine is k
      tenths (k twentieths about z) of their own. */
  lemma StillDeviceEarly(taken: seq<Sample>, m: Motion, c: Coordinate, trig: Trig)
    requires trig.Lawful() && forall i :: 0 <= i < |taken| ==> Says(taken[i], m)
    ensures |taken| < 10 ==> MeanAcceleration(taken, c) == |taken| as real * AccelerationOf(m, c) / 10.0
    ensures var n, a := if c.Z? then 20 else 10, Radians(AngleOf(m, c), trig);
      0 < |taken| < n && trig.sin(a) != 0.0 ==>
        trig.cos(Radians(MeanAngle(taken, c, trig), trig)) == |taken| as real / n as real * trig.cos(a)
  {
    hide Functions.Lawful, Says, M.MeanOf, AccelerationOf, Acceleration, AngleOf, Angle, Radians, Degrees, K.Report;
    forall i | 0 <= i < |taken|
      ensures Acceleration(taken[i], c) == AccelerationOf(m, c) && Angle(taken[i], c) == AngleOf(m, c)
    {
      SaidAngle(taken[i], m, c);
    }
    M.SteadyMean(Accelerations(taken, c), 10, AccelerationOf(m, c));
    if 0 < |taken| < if c.Z? then 20 else 10 {
      K.EarlyReport(Angles(taken, c, trig), if c.Z? then 20 else 10, Radians(AngleOf(m, c), trig), trig);
      BackAndThere(K.Report(Angles(taken, c, trig), AngleSize(c), trig), trig);
    }
  }

  lemma BackAndThere(x: real, trig: Trig)
    ensures Radians(Degrees(x, trig), trig) == x
  {
    var u, w := trig.pi / 180.0, 180.0 / trig.pi;
    assert u * trig.pi == trig.pi * u;
    assert w * trig.pi == 180.0;
    assert w * u == 1.0;
    assert (x * w) * u == x * (w * u);
  }
}
