/** The compensation against its formula in rational numbers, with all coefficients written out. */
module Datasheet {
  import opened RealArithmetic
  import opened Compensation
  import opened Bus
  import P = PressureValues

  // ---------------------------------------------------------------- the formula

  function Ratio(x: real, y: real): real
    requires y != 0.0
  {
    x / y
  }

  /** The second-order terms for a temperature of t hundredths of a degree. */
  ghost function IdealSens(t: int): real {
    var u, v := (t - 2000) as real, (t + 1500) as real;
    if t >= 2000 then 0.0
    else Ratio(Times(5.0, Square(u)), 8.0) + if t <= -1600 then Times(4.0, Square(v)) else 0.0
  }

  ghost function IdealOff(t: int): real {
    var u, v := (t - 2000) as real, (t + 1500) as real;
    if t >= 2000 then Ratio(Square(u), 16.0)
    else Ratio(Times(3.0, Square(u)), 2.0) + if t <= -1600 then Times(7.0, Square(v)) else 0.0
  }

  ghost function IdealTemp(dT: int, t: int): real {
    if t >= 2000 then Ratio(Times(2.0, Square(dT as real)), 137438953472.0)
    else Ratio(Times(3.0, Square(dT as real)), 8589934592.0)
  }

  /** The deviation from the reference temperature. */
  ghost function Deviation(m: Measure, c: seq<Word>): int
    requires |c| == 8
  {
    m.d2 - 256 * c[5] as int
  }

  /** In hundredths of a degree, before the second-order term. */
  ghost function IdealTemperature(m: Measure, c: seq<Word>): real
    requires |c| == 8
  {
    2000.0 + Times(Deviation(m, c) as real, c[6] as real) / 8388608.0
  }

  /** In tenths of a millibar. */
  ghost function IdealPressure(m: Measure, c: seq<Word>, t: int): real
    requires |c| == 8
  {
    var d := Deviation(m, c) as real;
    var sens := 32768.0 * c[1] as real + Times(c[3] as real, d) / 256.0 - IdealSens(t);
    var off := 65536.0 * c[2] as real + Times(c[4] as real, d) / 128.0 - IdealOff(t);
    (Times(m.d1 as real, sens) / 2097152.0 - off) / 8192.0
  }

  // ---------------------------------------------------------------- second order

  lemma QuadReal(k: int, x: int, realK: real)
    requires realK == k as real
    ensures Quad(k, x) as real == Times(realK, Square(x as real))
  {
    QuadIs(k, x);
    hide Quad;
    RealProduct(x, x);
    RealProduct(k, x * x);
  }

  predicate Near(x: real, y: real, bound: real) {
    -bound < x - y < bound
  }

  lemma TruncNear(a: int, b: int)
    requires b > 0
    ensures Near(TruncDiv(a, b) as real, a as real / b as real, 1.0)
  {
    hide TruncDiv;
    TruncDivError(a, b);
  }

  /** k x^2 / d, truncated. */
  lemma QuadNear(k: int, x: int, d: int, realK: real, realD: real)
    requires d > 0 && realK == k as real && realD == d as real
    ensures Near(TruncDiv(Quad(k, x), d) as real, Ratio(Times(realK, Square(x as real)), realD), 1.0)
  {
    hide TruncDiv, Quad, Square, Times;
    QuadReal(k, x, realK);
    TruncNear(Quad(k, x), d);
  }

  lemma SensAccuracy(t: int)
    ensures Near(SensI(t) as real, IdealSens(t), 1.0)
  {
    hide TruncDiv, Quad, Square, Times, Ratio;
    QuadNear(5, t - 2000, 8, 5.0, 8.0);
    QuadReal(4, t + 1500, 4.0);
  }

  lemma OffAccuracy(t: int)
    ensures Near(OffI(t) as real, IdealOff(t), 1.0)
  {
    hide TruncDiv, Quad, Square, Times, Ratio;
    QuadNear(3, t - 2000, 2, 3.0, 2.0);
    QuadNear(1, t - 2000, 16, 1.0, 16.0);
    TimesOne(Square((t - 2000) as real));
    QuadReal(7, t + 1500, 7.0);
  }

  lemma TwiceSquared(x: int)
    ensures 2 * Quad(1, x) == Quad(2, x)
  {
    QuadIs(1, x);
    QuadIs(2, x);
  }

  lemma TempAccuracy(dT: int, t: int)
    ensures Near(TempI(dT, t) as real, IdealTemp(dT, t), 1.0)
  {
    hide TruncDiv, Quad, Square, Times, Ratio;
    QuadNear(3, dT, 8589934592, 3.0, 8589934592.0);
    TwiceSquared(dT);
    QuadNear(2, dT, 137438953472, 2.0, 137438953472.0);
  }

  /** Each second-order term is within one unit of its formula. */
  lemma SecondOrderAccuracy(dT: int, t: int)
    ensures Near(SensI(t) as real, IdealSens(t), 1.0)
    ensures Near(OffI(t) as real, IdealOff(t), 1.0)
    ensures Near(TempI(dT, t) as real, IdealTemp(dT, t), 1.0)
  {
    hide *;
    SensAccuracy(t);
    OffAccuracy(t);
    TempAccuracy(dT, t);
  }

  // ---------------------------------------------------------------- first order

  lemma SumNear(base: int, scale: int, k: int, dT: int, d: int)
    requires d > 0
    ensures Near((base * scale + TruncDiv(k * dT, d)) as real,
                 scale as real * base as real + Times(k as real, dT as real) / d as real, 1.0)
  {
    hide TruncDiv, ExactSum, Times;
    SumError(base, scale, k, dT, d);
    ExactSumIs(base, scale, k, dT, d);
  }

  lemma ExactSumIs(base: int, scale: int, k: int, dT: int, d: int)
    requires d > 0
    ensures ExactSum(base, scale, k, dT, d) == scale as real * base as real + Times(k as real, dT as real) / d as real
  {
  }

  lemma FirstOrderAccuracy(m: Measure, c: seq<Word>)
    requires |c| == 8
    ensures DT(m, c) == Deviation(m, c)
    ensures var dT := DT(m, c);
      && Near(Sens(dT, c) as real, 32768.0 * c[1] as real + Times(c[3] as real, dT as real) / 256.0, 1.0)
      && Near(Off(dT, c) as real, 65536.0 * c[2] as real + Times(c[4] as real, dT as real) / 128.0, 1.0)
      && Near(Temperature(dT, c) as real, IdealTemperature(m, c), 1.0)
  {
    hide TruncDiv, Times;
    var dT := DT(m, c);
    SumNear(c[1], 32768, c[3], dT, 256);
    SumNear(c[2], 65536, c[4], dT, 128);
    SumNear(2000, 1, dT, c[6], 8388608);
  }

  // ---------------------------------------------------------------- the results

  /** An error of less than two units in the sensitivity moves the product by less than sixteen. */
  lemma ProductNear(d: real, s: real, x: real)
    requires 0.0 <= d <= 16777215.0 && Near(s, x, 2.0)
    ensures Near(Times(d, s) / 2097152.0, Times(d, x) / 2097152.0, 16.0)
  {
    hide Times;
    TimesCommutes(d, s);
    TimesCommutes(d, x);
    TimesDistributes(s, x, d);
    TimesMonotone(s - x, 2.0, d);
    TimesMonotone(-2.0, s - x, d);
    Doubled(d);
  }

  lemma Doubled(d: real)
    ensures Times(2.0, d) == 2.0 * d && Times(-2.0, d) == -2.0 * d
  {
  }

  lemma PressureNear(d1: int, sens2: int, off2: int, sens: real, off: real)
    requires 0 <= d1 < 0x100_0000 && Near(sens2 as real, sens, 2.0) && Near(off2 as real, off, 2.0)
    ensures Near(PressureFrom(d1, sens2, off2) as real, (Times(d1 as real, sens) / 2097152.0 - off) / 8192.0,
                 1.0 + 19.0 / 8192.0)
  {
    hide TruncDiv, Times;
    TruncNear(d1 * sens2, 2097152);
    ProductReal(d1, sens2);
    TruncNear(TruncDiv(d1 * sens2, 2097152) - off2, 8192);
    ProductNear(d1 as real, sens2 as real, sens);
  }

  lemma ProductReal(a: int, b: int)
    ensures (a * b) as real == Times(a as real, b as real)
  {
    RealProduct(a, b);
  }

  /** What is lost when the second-order offset is stored: nothing in range, and 2^32 below it. */
  function Lost(m: Measure, c: seq<Word>): int
    requires |c| == 8
  {
    if InRange(DT(m, c), Temperature(DT(m, c), c)) then 0 else 0x1_0000_0000
  }

  lemma StoredOffset(m: Measure, c: seq<Word>)
    requires |c| == 8 && Defined(DT(m, c), Temperature(DT(m, c), c))
    ensures Wrap32(OffI(Temperature(DT(m, c), c))) == OffI(Temperature(DT(m, c), c)) - Lost(m, c)
  {
    CalculateOverflowsExactly(m, c);
    var dT := DT(m, c);
    var t := Temperature(dT, c);
    hide ArithmeticFits, SensI, TempI, Temperature, DT, TruncDiv;
    if !InRange(dT, t) {
      QuadIs(3, t - 2000);
      QuadIs(7, t + 1500);
      hide Quad;
      SquareLower(t - 2000, 18722);
      SquareLower(t + 1500, 15222);
      SquareBound(t - 2000, 20724);
      SquareBound(t + 1500, 17224);
    }
  }

  /** For every calibration and 24-bit reading on which no signed arithmetic overflows, the pressure is within
      1 + 19/8192 units of the formula, or as close to 524288 units below it when the stored offset loses bits; the
      temperature is within two hundredths of a degree; and the depth goes with the pressure. */
  lemma CalculateAccuracy(m: Measure, c: seq<Word>, density: real)
    requires |c| == 8 && density != 0.0 && Defined(DT(m, c), Temperature(DT(m, c), c))
    ensures var t, data := Temperature(DT(m, c), c), Compensated(m, c, density);
      && Near(10000.0 * data.pressure,
              IdealPressure(m, c, t) - (if InRange(DT(m, c), t) then 0.0 else 524288.0), 1.0 + 19.0 / 8192.0)
      && Near(100.0 * data.temperature, IdealTemperature(m, c) - IdealTemp(Deviation(m, c), t), 2.0)
      && data.depth == (100000.0 * data.pressure - 101300.0) / (density * 9.80665)
  {
    var dT := DT(m, c);
    var t := Temperature(dT, c);
    StoredOffset(m, c);
    hide TruncDiv, DT, Temperature, SensI, OffI, TempI, Sens, Off, InRange, Defined, Wrap32, PressureFrom;
    hide IdealSens, IdealOff, IdealTemp, IdealTemperature, Deviation, Times;
    FirstOrderAccuracy(m, c);
    SecondOrderAccuracy(dT, t);
    var sens := 32768.0 * c[1] as real + Times(c[3] as real, dT as real) / 256.0 - IdealSens(t);
    var off := 65536.0 * c[2] as real + Times(c[4] as real, dT as real) / 128.0 - IdealOff(t);
    PressureNear(m.d1, Sens(dT, c) - SensI(t), Off(dT, c) - (OffI(t) - Lost(m, c)), sens, off + Lost(m, c) as real);
  }

  /** The same for a raw sample, in fresh water of 997 kilograms per cubic metre. */
  lemma SampleAccuracy(s: Sample, overflowing: P.Overflowing)
    requires P.Computable(s)
    ensures var m, c := Measure(s.d1, s.d2), P.Words(s.calibration);
      var t, data := Temperature(DT(m, c), c), P.Computed(s, overflowing);
      && Near(10000.0 * data.pressure,
              IdealPressure(m, c, t) - (if InRange(DT(m, c), t) then 0.0 else 524288.0), 1.0 + 19.0 / 8192.0)
      && Near(100.0 * data.temperature, IdealTemperature(m, c) - IdealTemp(Deviation(m, c), t), 2.0)
      && data.depth == (100000.0 * data.pressure - 101300.0) / (997.0 * 9.80665)
  {
    hide DT, Temperature, Defined, InRange, IdealPressure, IdealTemp, IdealTemperature, Compensated, Near;
    CalculateAccuracy(Measure(s.d1, s.d2), P.Words(s.calibration), P.FLUID_DENSITY);
  }

  /** At ten degrees, in a calibration as real sensors have it: 10.00 degrees and 3.9537 bar. */
  lemma TenDegrees()
    ensures var m := Measure(4958179, 8270488);
      && Temperature(DT(m, SAMPLE_CALIBRATION), SAMPLE_CALIBRATION) == 1000
      && Pressure(m, SAMPLE_CALIBRATION) == 39537
  {
  }
}
