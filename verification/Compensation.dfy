/** The integer temperature compensation of the MS5837 pressure sensor. */
module Compensation {
  import opened RealArithmetic

  newtype int32 = x: int | -0x8000_0000 <= x < 0x8000_0000
  newtype int64 = x: int | -0x8000_0000_0000_0000 <= x < 0x8000_0000_0000_0000

  type Word = w: int | 0 <= w < 0x1_0000
  type Reading = r: int | 0 <= r < 0x100_0000

  /** Raw pressure and temperature readings, 24 bits each. */
  datatype Measure = Measure(d1: Reading, d2: Reading)

  datatype Data = Data(pressure: real, depth: real, temperature: real)

  /** C++ integer division: toward zero. */
  function TruncDiv(a: int, b: int): (q: int)
    requires b > 0
    ensures a >= 0 ==> b * q <= a < b * q + b
    ensures a <= 0 ==> b * q - b < a <= b * q
  {
    if a >= 0 then a / b else -((-a) / b)
  }

  function TruncDiv32(a: int32, b: int32): (q: int32)
    requires b > 0
    ensures q as int == TruncDiv(a as int, b as int)
  {
    TruncDivShrinks(a as int, b as int);
    TruncDiv(a as int, b as int) as int32
  }

  function TruncDiv64(a: int64, b: int64): (q: int64)
    requires b > 0
    ensures q as int == TruncDiv(a as int, b as int)
  {
    TruncDivShrinks(a as int, b as int);
    TruncDiv(a as int, b as int) as int64
  }

  lemma MulMonotone(a: int, b: int, c: int)
    requires a <= b && c >= 0
    ensures a * c <= b * c
  {
  }

  lemma TruncDivSign(a: int, b: int)
    requires b > 0
    ensures a >= 0 ==> TruncDiv(a, b) >= 0
    ensures a <= 0 ==> TruncDiv(a, b) <= 0
  {
    hide TruncDiv;
    var q := TruncDiv(a, b);
    if a >= 0 && q <= -1 {
      MulMonotone(q, -1, b);
    }
    if a <= 0 && q >= 1 {
      MulMonotone(1, q, b);
    }
  }

  lemma TruncDivShrinks(a: int, b: int)
    requires b > 0
    ensures a >= 0 ==> 0 <= TruncDiv(a, b) <= a
    ensures a <= 0 ==> a <= TruncDiv(a, b) <= 0
  {
    hide TruncDiv;
    TruncDivSign(a, b);
    var q := TruncDiv(a, b);
    if a >= 0 {
      MulMonotone(1, b, q);
    } else {
      MulMonotone(1, b, -q);
    }
  }

  lemma TruncDivMonotone(a: int, b: int, d: int)
    requires d > 0 && a <= b
    ensures TruncDiv(a, d) <= TruncDiv(b, d)
  {
    hide TruncDiv;
    TruncDivSign(a, d);
    TruncDivSign(b, d);
    var q, r := TruncDiv(a, d), TruncDiv(b, d);
    if q > r {
      MulMonotone(r + 1, q, d);
      assert false;
    }
  }

  lemma RealProduct(a: int, b: int)
    ensures (a * b) as real == a as real * b as real
  {
  }

  lemma RealQuotientError(q: real, a: real, b: real)
    requires b > 0.0 && -b < a - b * q < b
    ensures -1.0 < q - a / b < 1.0
  {
    var x := a / b;
    assert b * x == a;
    RealBelowOne(q, x, a, b);
  }

  lemma RealBelowOne(q: real, x: real, a: real, b: real)
    requires b > 0.0 && b * x == a && -b < a - b * q < b
    ensures -1.0 < q - x < 1.0
  {
    assert b * (x - q) == b * x - b * q;
    UnitFactor(x - q, b, b * (x - q));
  }

  lemma UnitFactor(e: real, b: real, p: real)
    requires b > 0.0 && p == b * e && -b < p < b
    ensures -1.0 < e < 1.0
  {
    assert b * -e == -(b * e);
    if e >= 1.0 {
      TimesMonotone(1.0, e, b);
      assert false;
    }
    if e <= -1.0 {
      TimesMonotone(1.0, -e, b);
      assert false;
    }
  }

  /** Truncation loses less than one unit. */
  lemma TruncDivError(a: int, b: int)
    requires b > 0
    ensures -1.0 < TruncDiv(a, b) as real - a as real / b as real < 1.0
  {
    hide TruncDiv;
    var q := TruncDiv(a, b);
    assert -b < a - b * q < b;
    RealProduct(b, q);
    assert (a - b * q) as real == a as real - b as real * q as real;
    RealQuotientError(q as real, a as real, b as real);
  }

  // ---------------------------------------------------------------- what is computed

  /** Difference between the reading and the reference temperature. */
  function DT(m: Measure, c: seq<Word>): int
    requires |c| == 8
  {
    m.d2 - c[5] as int * 256
  }

  function Sens(dT: int, c: seq<Word>): int
    requires |c| == 8
  {
    c[1] as int * 32768 + TruncDiv(c[3] as int * dT, 256)
  }

  function Off(dT: int, c: seq<Word>): int
    requires |c| == 8
  {
    c[2] as int * 65536 + TruncDiv(c[4] as int * dT, 128)
  }

  /** First-order temperature, in hundredths of a degree. */
  function Temperature(dT: int, c: seq<Word>): int
    requires |c| == 8
  {
    2000 + TruncDiv(dT * c[6] as int, 8388608)
  }

  predicate Cold(t: int) {
    t < 2000
  }

  /** The guard compares a truncated quotient with -15, so it starts only at -1600. */
  predicate VeryCold(t: int) {
    t <= -1600
  }

  lemma GuardsInHundredths(t: int)
    ensures TruncDiv(t, 100) < 20 <==> Cold(t)
    ensures TruncDiv(t, 100) < -15 <==> VeryCold(t)
  {
  }

  /** k * x * x, a product under a name. */
  function Quad(k: int, x: int): int {
    k * x * x
  }

  function Quad32(k: int32, x: int32): (r: int32)
    requires Fits32(k as int * x as int) && Fits32(Quad(k as int, x as int))
    ensures r as int == Quad(k as int, x as int)
  {
    k * x * x
  }

  function Quad64(k: int64, x: int64): (r: int64)
    requires Fits64(k as int * x as int) && Fits64(Quad(k as int, x as int))
    ensures r as int == Quad(k as int, x as int)
  {
    k * x * x
  }

  function TempI(dT: int, t: int): int {
    if Cold(t) then TruncDiv(Quad(3, dT), 8589934592) else TruncDiv(2 * Quad(1, dT), 137438953472)
  }

  function OffI(t: int): int {
    if Cold(t) then
      TruncDiv(Quad(3, t - 2000), 2) + (if VeryCold(t) then Quad(7, t + 1500) else 0)
    else TruncDiv(Quad(1, t - 2000), 16)
  }

  function SensI(t: int): int {
    if Cold(t) then
      TruncDiv(Quad(5, t - 2000), 8) + (if VeryCold(t) then Quad(4, t + 1500) else 0)
    else 0
  }

  function PressureFrom(d1: int, sens2: int, off2: int): int {
    TruncDiv(TruncDiv(d1 * sens2, 2097152) - off2, 8192)
  }

  /** The pressure for a given second-order offset. */
  function PressureWith(m: Measure, c: seq<Word>, offI: int): int
    requires |c| == 8
  {
    var dT := DT(m, c);
    PressureFrom(m.d1, Sens(dT, c) - SensI(Temperature(dT, c)), Off(dT, c) - offI)
  }

  function Pressure(m: Measure, c: seq<Word>): int
    requires |c| == 8
  {
    PressureWith(m, c, OffI(Temperature(DT(m, c), c)))
  }

  function ReportedTemperature(m: Measure, c: seq<Word>): int
    requires |c| == 8
  {
    var dT := DT(m, c);
    var t := Temperature(dT, c);
    t - TempI(dT, t)
  }

  // ---------------------------------------------------------------- machine widths

  predicate Fits32(x: int) {
    -0x8000_0000 <= x < 0x8000_0000
  }

  predicate Fits64(x: int) {
    -0x8000_0000_0000_0000 <= x < 0x8000_0000_0000_0000
  }

  /** Fits 64 bits, whatever 32-bit value is added. */
  predicate FitsSum(x: int) {
    Fits64(x - 0x8000_0000) && Fits64(x + 0x7FFF_FFFF)
  }

  /** Narrowing to 32 bits keeps the low ones, in two's complement. */
  function Wrap32(x: int): (r: int)
    ensures Fits32(r)
    ensures Fits32(x) ==> r == x
  {
    (x + 0x8000_0000) % 0x1_0000_0000 - 0x8000_0000
  }

  /** Every product and sum formed for the second-order terms fits the type C++ computes it in. */
  predicate ArithmeticFits(dT: int, t: int) {
    && Fits32(t - 2000)
    && if Cold(t) then
         && Fits64(3 * dT) && Fits64(Quad(3, dT))
         && Fits32(3 * (t - 2000)) && Fits32(Quad(3, t - 2000))
         && Fits32(5 * (t - 2000)) && Fits32(Quad(5, t - 2000))
         && Fits64(7 * (t + 1500)) && FitsSum(Quad(7, t + 1500))
         && Fits64(4 * (t + 1500)) && FitsSum(Quad(4, t + 1500))
       else
         Fits32(Quad(1, t - 2000)) && Fits32(Quad(1, dT)) && Fits32(2 * Quad(1, dT))
  }

  /** The terms fit the 32-bit variables they are stored in. */
  predicate StoresFit(dT: int, t: int) {
    Fits32(TempI(dT, t)) && Fits32(OffI(t)) && Fits32(SensI(t))
  }

  predicate SecondOrderFits(dT: int, t: int) {
    ArithmeticFits(dT, t) && StoresFit(dT, t)
  }

  /** The caller-checkable range in which no signed arithmetic overflows. */
  predicate Defined(dT: int, t: int) {
    if Cold(t) then -18724 <= t else -32767 <= dT <= 32767
  }

  /** The caller-checkable range in which, beyond that, no stored term loses bits. */
  predicate InRange(dT: int, t: int) {
    if Cold(t) then -16721 <= t else -32767 <= dT <= 32767
  }

  lemma MulBound(a: int, b: int, m: int, n: int)
    requires -m <= a <= m && -n <= b <= n
    ensures -(m * n) <= a * b <= m * n
  {
    if a >= 0 {
      MulMonotone(b, n, a);
      MulMonotone(-n, b, a);
      MulMonotone(a, m, n);
    } else {
      MulMonotone(b, n, -a);
      MulMonotone(-n, b, -a);
      MulMonotone(-a, m, n);
    }
  }

  lemma TruncDivBound(a: int, n: int, d: int)
    requires d > 0 && -(n * d) <= a <= n * d
    ensures -n <= TruncDiv(a, d) <= n
  {
    hide TruncDiv;
    TruncDivMonotone(a, n * d, d);
    TruncDivMonotone(-(n * d), a, d);
    TruncDivExact(n, d);
    TruncDivExact(-n, d);
  }

  lemma TruncDivExact(n: int, d: int)
    requires d > 0
    ensures TruncDiv(n * d, d) == n
  {
    hide TruncDiv;
    var q := TruncDiv(n * d, d);
    if q < n {
      MulMonotone(q + 1, n, d);
    } else if q > n {
      MulMonotone(n + 1, q, d);
    }
  }

  /** First-order values always fit: every 16-bit calibration, every 24-bit reading. */
  lemma FirstOrderBounds(m: Measure, c: seq<Word>)
    requires |c| == 8
    ensures var dT := DT(m, c);
      && -0x100_0000 < dT < 0x100_0000
      && -0x100_0000_0000 < c[3] as int * dT < 0x100_0000_0000
      && -0x100_0000_0000 < c[4] as int * dT < 0x100_0000_0000
      && -0x100_0000_0000 < dT * c[6] as int < 0x100_0000_0000
      && -0x1_0000_0000 <= Sens(dT, c) < 0x2_0000_0000
      && -0x2_0000_0000 <= Off(dT, c) < 0x4_0000_0000
      && -129072 <= Temperature(dT, c) <= 133072
  {
    hide TruncDiv;
    var dT := DT(m, c);
    MulBound(c[3] as int, dT, 0xFFFF, 0xFF_FFFF);
    MulBound(c[4] as int, dT, 0xFFFF, 0xFF_FFFF);
    MulBound(dT, c[6] as int, 0xFF_FFFF, 0xFFFF);
    TruncDivBound(c[3] as int * dT, 0x1_0000_0000, 256);
    TruncDivBound(c[4] as int * dT, 0x2_0000_0000, 128);
    TruncDivBound(dT * c[6] as int, 131072, 8388608);
  }

  /** Square of a bounded value. */
  lemma SquareBound(x: int, n: int)
    requires -n <= x <= n
    ensures 0 <= x * x <= n * n
  {
    MulBound(x, x, n, n);
  }

  lemma SquareLower(x: int, n: int)
    requires 0 <= n && (x >= n || x <= -n)
    ensures x * x >= n * n
  {
    if x >= n {
      MulMonotone(n, x, n);
      MulMonotone(n, x, x);
    } else {
      MulMonotone(n, -x, n);
      MulMonotone(n, -x, -x);
    }
  }

  /** What a first-order temperature can be. */
  predicate Possible(dT: int, t: int) {
    && -0x100_0000 < dT < 0x100_0000 && -129072 <= t <= 133072
    && (!Cold(t) && -32767 <= dT <= 32767 ==> t <= 2256)
  }

  /** The arithmetic is free of overflow, and nothing at all is lost, exactly in the two ranges. */
  lemma NoOverflowExactly(dT: int, t: int)
    requires Possible(dT, t)
    ensures ArithmeticFits(dT, t) <==> Defined(dT, t)
    ensures SecondOrderFits(dT, t) <==> InRange(dT, t)
  {
    if Cold(t) {
      ColdDefined(dT, t);
      ColdExactly(dT, t);
    } else {
      WarmExactly(dT, t);
    }
  }

  lemma WarmExactly(dT: int, t: int)
    requires Possible(dT, t) && !Cold(t)
    ensures ArithmeticFits(dT, t) <==> Defined(dT, t)
    ensures SecondOrderFits(dT, t) <==> InRange(dT, t)
    ensures Defined(dT, t) ==> TempI(dT, t) == 0
  {
    if Defined(dT, t) {
      SquareBound(dT, 32767);
      SquareBound(t - 2000, 256);
    } else {
      SquareLower(dT, 32768);
    }
  }

  lemma ColdDefined(dT: int, t: int)
    requires Possible(dT, t) && Cold(t)
    ensures ArithmeticFits(dT, t) <==> Defined(dT, t)
    ensures Defined(dT, t) ==> Fits32(TempI(dT, t)) && Fits32(SensI(t))
  {
    var u, v := t - 2000, t + 1500;
    QuadIs(3, dT);
    QuadIs(3, u);
    QuadIs(5, u);
    QuadIs(7, v);
    QuadIs(4, v);
    hide Quad;
    if Defined(dT, t) {
      SquareBound(dT, 0x100_0000);
      SquareBound(u, 20724);
      SquareBound(v, 17224);
      TruncDivBound(Quad(3, dT), 98304, 8589934592);
    } else {
      SquareLower(u, 20725);
    }
  }

  lemma ColdExactly(dT: int, t: int)
    requires Possible(dT, t) && Cold(t)
    requires ArithmeticFits(dT, t) <==> Defined(dT, t)
    requires Defined(dT, t) ==> Fits32(TempI(dT, t)) && Fits32(SensI(t))
    ensures SecondOrderFits(dT, t) <==> InRange(dT, t)
  {
    hide ArithmeticFits, SensI, TempI;
    var u, v := t - 2000, t + 1500;
    QuadIs(3, dT);
    QuadIs(3, u);
    QuadIs(5, u);
    QuadIs(7, v);
    QuadIs(4, v);
    hide Quad;
    if InRange(dT, t) {
      SquareBound(u, 18721);
      SquareBound(v, if VeryCold(t) then 15221 else 3500);
    } else {
      SquareLower(u, 18722);
      SquareLower(v, 15222);
      assert OffI(t) == TruncDiv(Quad(3, u), 2) + Quad(7, v);
    }
  }

  lemma QuadIs(k: int, x: int)
    ensures Quad(k, x) == k * (x * x)
  {
  }

  // ---------------------------------------------------------------- the method

  /** In the range, a sum of bounded products cannot leave 64 bits and the pressure cannot leave 32. */
  lemma FinalBounds(d1: int, sens2: int, off2: int)
    requires 0 <= d1 < 0x100_0000
    requires -0x2_8000_0000 <= sens2 <= 0x2_8000_0000 && -0x5_0000_0000 <= off2 <= 0x5_0000_0000
    ensures Fits64(d1 * sens2)
    ensures Fits64(TruncDiv(d1 * sens2, 2097152) - off2)
    ensures Fits32(PressureFrom(d1, sens2, off2))
  {
    hide TruncDiv;
    MulBound(d1, sens2, 0x100_0000, 0x2_8000_0000);
    TruncDivBound(d1 * sens2, 0x14_0000_0000, 2097152);
    TruncDivBound(TruncDiv(d1 * sens2, 2097152) - off2, 0xC8_0000, 8192);
  }

  lemma WarmTemperature(dT: int, c: seq<Word>)
    requires |c| == 8 && -32767 <= dT <= 32767
    ensures Temperature(dT, c) <= 2256
  {
    hide TruncDiv;
    MulBound(dT, c[6] as int, 32767, 0xFFFF);
    TruncDivMonotone(dT * c[6] as int, 256 * 8388608, 8388608);
    TruncDivExact(256, 8388608);
  }

  lemma FirstOrderPossible(m: Measure, c: seq<Word>)
    requires |c| == 8
    ensures Possible(DT(m, c), Temperature(DT(m, c), c))
  {
    FirstOrderBounds(m, c);
    var dT := DT(m, c);
    hide TruncDiv, Temperature;
    if -32767 <= dT <= 32767 {
      WarmTemperature(dT, c);
    }
  }

  /** For all calibrations and readings: no signed arithmetic overflows exactly in the first range, and no stored
      term loses bits either exactly in the second. */
  lemma CalculateOverflowsExactly(m: Measure, c: seq<Word>)
    requires |c| == 8
    ensures var dT := DT(m, c);
      var t := Temperature(dT, c);
      && (ArithmeticFits(dT, t) <==> Defined(dT, t))
      && (SecondOrderFits(dT, t) <==> InRange(dT, t))
  {
    hide *;
    FirstOrderPossible(m, c);
    NoOverflowExactly(DT(m, c), Temperature(DT(m, c), c));
  }

  /** A warm reading above 22.56 degrees is outside the range of the 32-bit square. */
  lemma WarmLimit(m: Measure, c: seq<Word>)
    requires |c| == 8 && Temperature(DT(m, c), c) > 2256
    ensures !ArithmeticFits(DT(m, c), Temperature(DT(m, c), c))
  {
    CalculateOverflowsExactly(m, c);
    hide TruncDiv, ArithmeticFits, SecondOrderFits, Temperature;
    if -32767 <= DT(m, c) <= 32767 {
      WarmTemperature(DT(m, c), c);
    }
  }

  /** Calibration words of the size that real sensors have. */
  const SAMPLE_CALIBRATION: seq<Word> := [0, 34982, 36352, 20328, 22354, 33464, 28312, 0]

  /** At 23.37 degrees the 32-bit square of dT overflows. */
  lemma WarmOverflows()
    ensures var m, c := Measure(0, 8666784), SAMPLE_CALIBRATION;
      && DT(m, c) == 100000 && Temperature(DT(m, c), c) == 2337
      && !ArithmeticFits(DT(m, c), Temperature(DT(m, c), c))
  {
  }

  /** At -170 degrees, which extreme words can produce, the arithmetic is still exact, but the stored offset is
      not. */
  lemma ColdLosesBits()
    ensures var m, c := Measure(0, 14344921), [0, 0, 0, 0, 0, 65535, 65535, 0];
      var t := Temperature(DT(m, c), c);
      && t == -17000 && ArithmeticFits(DT(m, c), t)
      && OffI(t) == 2223250000 && Wrap32(OffI(t)) == -2071717296
  {
  }

  /** What Calculate returns: the formulas above, with the second-order offset as it is stored. */
  function Compensated(m: Measure, c: seq<Word>, fluidDensity: real): Data
    requires |c| == 8 && fluidDensity != 0.0
  {
    var pressure := PressureWith(m, c, Wrap32(OffI(Temperature(DT(m, c), c)))) as real;
    Data(pressure * 0.001 / 10.0,
         (pressure * 10.0 - 101300.0) / (fluidDensity * 9.80665),
         ReportedTemperature(m, c) as real / 100.0)
  }

  /** In the second range the stored offset is the offset. */
  lemma CompensatedInRange(m: Measure, c: seq<Word>, fluidDensity: real)
    requires |c| == 8 && fluidDensity != 0.0 && InRange(DT(m, c), Temperature(DT(m, c), c))
    ensures Compensated(m, c, fluidDensity) ==
      Data(Pressure(m, c) as real * 0.001 / 10.0,
           (Pressure(m, c) as real * 10.0 - 101300.0) / (fluidDensity * 9.80665),
           ReportedTemperature(m, c) as real / 100.0)
  {
    CalculateOverflowsExactly(m, c);
    hide ArithmeticFits, InRange, TempI, SensI, OffI, Temperature, DT, PressureWith, ReportedTemperature;
  }

  method Calculate(m: Measure, c: seq<Word>, fluidDensity: real) returns (data: Data)
    requires |c| == 8 && fluidDensity != 0.0
    requires Defined(DT(m, c), Temperature(DT(m, c), c))
    ensures data == Compensated(m, c, fluidDensity)
  {
    hide TruncDiv, Defined, InRange, Wrap32;
    FirstOrderBounds(m, c);
    CalculateOverflowsExactly(m, c);
    var SENSi: int32, OFFi: int32, Ti: int32 := 0, 0, 0;

    var dT: int32 := (m.d2 as int64 - c[5] as int64 * 256) as int32;
    var SENS: int64 := c[1] as int64 * 32768 + TruncDiv64(c[3] as int64 * dT as int64, 256);
    var OFF: int64 := c[2] as int64 * 65536 + TruncDiv64(c[4] as int64 * dT as int64, 128);
    var temperature: int32 := (2000 + TruncDiv64(dT as int64 * c[6] as int64, 8388608)) as int32;

    DefinedStores(m, c);
    SENSi, OFFi, Ti := SecondOrder(dT, temperature);

    var OFF2: int64 := OFF - OFFi as int64;
    var SENS2: int64 := SENS - SENSi as int64;
    FinalBounds(m.d1, SENS2 as int, OFF2 as int);
    var pressure: int32 := TruncDiv64(TruncDiv64(m.d1 as int64 * SENS2, 2097152) - OFF2, 8192) as int32;

    ghost var t := Temperature(DT(m, c), c);
    assert pressure as int == PressureWith(m, c, Wrap32(OffI(t)));
    assert (temperature - Ti) as int == ReportedTemperature(m, c);
    hide PressureWith, ReportedTemperature;
    data := Data(pressure as real * 0.001 / 10.0,
                 (pressure as real * 10.0 - 101300.0) / (fluidDensity * 9.80665),
                 (temperature - Ti) as real / 100.0);
  }

  lemma DefinedStores(m: Measure, c: seq<Word>)
    requires |c| == 8 && Defined(DT(m, c), Temperature(DT(m, c), c))
    ensures var dT := DT(m, c);
      var t := Temperature(dT, c);
      Fits32(TempI(dT, t)) && Fits32(SensI(t))
  {
    FirstOrderPossible(m, c);
    var dT := DT(m, c);
    var t := Temperature(dT, c);
    hide TruncDiv, DT, Temperature, Possible;
    if Cold(t) {
      ColdDefined(dT, t);
    } else {
      WarmExactly(dT, t);
    }
  }

  /** The three temperature regimes; the sum of the very cold offset is narrowed when it is stored. */
  method SecondOrder(dT: int32, temperature: int32) returns (SENSi: int32, OFFi: int32, Ti: int32)
    requires ArithmeticFits(dT as int, temperature as int)
    requires Fits32(TempI(dT as int, temperature as int)) && Fits32(SensI(temperature as int))
    ensures SENSi as int == SensI(temperature as int)
    ensures OFFi as int == Wrap32(OffI(temperature as int))
    ensures Ti as int == TempI(dT as int, temperature as int)
  {
    hide TruncDiv, Wrap32, Quad;
    GuardsInHundredths(temperature as int);
    if TruncDiv32(temperature, 100) < 20 {
      Ti := TruncDiv64(Quad64(3, dT as int64), 8589934592) as int32;
      OFFi := TruncDiv32(Quad32(3, temperature - 2000), 2);
      SENSi := TruncDiv32(Quad32(5, temperature - 2000), 8);
      if TruncDiv32(temperature, 100) < -15 {
        OFFi := AddStored(OFFi, Quad64(7, temperature as int64 + 1500));
        SENSi := AddStored(SENSi, Quad64(4, temperature as int64 + 1500));
      }
    } else {
      Ti := TruncDiv64((2 * Quad32(1, dT)) as int64, 137438953472) as int32;
      OFFi := TruncDiv32(Quad32(1, temperature - 2000), 16);
      SENSi := 0;
    }
  }

  /** A 64-bit sum stored back in its 32-bit variable. */
  function AddStored(x: int32, y: int64): (r: int32)
    requires Fits64(x as int + y as int)
    ensures r as int == Wrap32(x as int + y as int)
  {
    Wrap32(x as int + y as int) as int32
  }

  // ---------------------------------------------------------------- accuracy and monotonicity

  /** base * scale + k * dT / d, without truncation. */
  ghost function ExactSum(base: int, scale: int, k: int, dT: int, d: int): real
    requires d > 0
  {
    base as real * scale as real + k as real * dT as real / d as real
  }

  ghost function ExactPressureFrom(d1: int, sens2: real, off2: real): real {
    (d1 as real * sens2 / 2097152.0 - off2) / 8192.0
  }

  /** The compensation formula without any truncation, for given second-order terms. */
  ghost function ExactPressure(m: Measure, c: seq<Word>, sensI: int, offI: int): real
    requires |c| == 8
  {
    var sens := ExactSum(c[1], 32768, c[3], DT(m, c), 256);
    var off := ExactSum(c[2], 65536, c[4], DT(m, c), 128);
    ExactPressureFrom(m.d1, sens - sensI as real, off - offI as real)
  }

  /** All truncations together move the pressure by less than 1 + 10/8192 units. */
  lemma PressureAccuracy(m: Measure, c: seq<Word>)
    requires |c| == 8
    ensures var t := Temperature(DT(m, c), c);
      -(1.0 + 10.0 / 8192.0)
        < Pressure(m, c) as real - ExactPressure(m, c, SensI(t), OffI(t))
        < 1.0 + 10.0 / 8192.0
  {
    var dT := DT(m, c);
    var t := Temperature(dT, c);
    hide TruncDiv, SensI, OffI, Temperature, DT, ExactSum, Sens, Off, PressureFrom, ExactPressureFrom;
    SumError(c[1], 32768, c[3], dT, 256);
    SumError(c[2], 65536, c[4], dT, 128);
    SensIs(dT, c);
    PressureError(m.d1, Sens(dT, c) - SensI(t), Off(dT, c) - OffI(t),
                  ExactSum(c[1], 32768, c[3], dT, 256) - SensI(t) as real,
                  ExactSum(c[2], 65536, c[4], dT, 128) - OffI(t) as real);
  }

  lemma SensIs(dT: int, c: seq<Word>)
    requires |c| == 8
    ensures Sens(dT, c) == c[1] as int * 32768 + TruncDiv(c[3] as int * dT, 256)
    ensures Off(dT, c) == c[2] as int * 65536 + TruncDiv(c[4] as int * dT, 128)
  {
  }

  lemma SumError(base: int, scale: int, k: int, dT: int, d: int)
    requires d > 0
    ensures -1.0 < (base * scale + TruncDiv(k * dT, d)) as real - ExactSum(base, scale, k, dT, d) < 1.0
  {
    hide TruncDiv;
    TruncDivError(k * dT, d);
    RealProduct(k, dT);
    RealProduct(base, scale);
    assert (base * scale + TruncDiv(k * dT, d)) as real == (base * scale) as real + TruncDiv(k * dT, d) as real;
  }

  lemma PressureError(d1: int, sens2: int, off2: int, xSens2: real, xOff2: real)
    requires 0 <= d1 < 0x100_0000
    requires -1.0 < sens2 as real - xSens2 < 1.0 && -1.0 < off2 as real - xOff2 < 1.0
    ensures -(1.0 + 10.0 / 8192.0)
      < PressureFrom(d1, sens2, off2) as real - ExactPressureFrom(d1, xSens2, xOff2)
      < 1.0 + 10.0 / 8192.0
  {
    hide TruncDiv;
    TruncDivError(d1 * sens2, 2097152);
    RealProduct(d1, sens2);
    var inner := TruncDiv(d1 * sens2, 2097152) - off2;
    TruncDivError(inner, 8192);
    ScaledError(d1 as real, sens2 as real, xSens2);
  }

  lemma DividedError(d: real, e: real, p: real, p': real)
    requires 0.0 <= d <= 16777215.0 && -1.0 < e < 1.0 && p - p' == d * e
    ensures -8.0 < p / 2097152.0 - p' / 2097152.0 < 8.0
  {
    TimesMonotone(e, 1.0, d);
    TimesMonotone(-e, 1.0, d);
    assert d * -e == -(d * e);
  }

  lemma ScaledError(d: real, s: real, x: real)
    requires 0.0 <= d <= 16777215.0 && -1.0 < s - x < 1.0
    ensures -8.0 < d * s / 2097152.0 - d * x / 2097152.0 < 8.0
  {
    assert d * s - d * x == d * (s - x);
    DividedError(d, s - x, d * s, d * x);
  }

  /** For a fixed temperature reading, more raw pressure never reads as less while SENS2 is not negative. */
  lemma PressureMonotone(m: Measure, m': Measure, c: seq<Word>)
    requires |c| == 8 && m.d1 <= m'.d1 && m.d2 == m'.d2
    ensures var t := Temperature(DT(m, c), c);
      var sens2 := Sens(DT(m, c), c) - SensI(t);
      && (sens2 >= 0 ==> Pressure(m, c) <= Pressure(m', c))
      && (sens2 <= 0 ==> Pressure(m, c) >= Pressure(m', c))
  {
    hide TruncDiv, SensI, OffI, Temperature, Sens, Off;
    var dT := DT(m, c);
    var t := Temperature(dT, c);
    var sens2, off2 := Sens(dT, c) - SensI(t), Off(dT, c) - OffI(t);
    assert Pressure(m, c) == PressureFrom(m.d1, sens2, off2);
    assert Pressure(m', c) == PressureFrom(m'.d1, sens2, off2);
    hide Pressure;
    PressureOrder(m.d1, m'.d1, sens2, off2);
  }

  lemma PressureOrder(d: int, d': int, sens2: int, off2: int)
    requires d <= d'
    ensures sens2 >= 0 ==> PressureFrom(d, sens2, off2) <= PressureFrom(d', sens2, off2)
    ensures sens2 <= 0 ==> PressureFrom(d, sens2, off2) >= PressureFrom(d', sens2, off2)
  {
    hide TruncDiv;
    if sens2 >= 0 {
      MulMonotone(d, d', sens2);
      PressureFromMonotone(d * sens2, d' * sens2, off2);
    }
    if sens2 <= 0 {
      MulMonotone(d, d', -sens2);
      NegatedFactor(d, sens2);
      NegatedFactor(d', sens2);
      PressureFromMonotone(d' * sens2, d * sens2, off2);
    }
  }

  lemma NegatedFactor(a: int, b: int)
    ensures a * -b == -(a * b)
  {
  }

  lemma PressureFromMonotone(p: int, p': int, off2: int)
    requires p <= p'
    ensures TruncDiv(TruncDiv(p, 2097152) - off2, 8192) <= TruncDiv(TruncDiv(p', 2097152) - off2, 8192)
  {
    hide TruncDiv;
    TruncDivMonotone(p, p', 2097152);
    TruncDivMonotone(TruncDiv(p, 2097152) - off2, TruncDiv(p', 2097152) - off2, 8192);
  }

  /** The reported temperature never falls as the raw temperature reading rises, across all regimes, wherever no
      signed arithmetic overflows. */
  lemma TemperatureMonotone(m: Measure, m': Measure, c: seq<Word>)
    requires |c| == 8 && m.d2 <= m'.d2
    requires Defined(DT(m, c), Temperature(DT(m, c), c))
    requires Defined(DT(m', c), Temperature(DT(m', c), c))
    ensures ReportedTemperature(m, c) <= ReportedTemperature(m', c)
  {
    var dT, dT' := DT(m, c), DT(m', c);
    var t, t' := Temperature(dT, c), Temperature(dT', c);
    hide TruncDiv;
    MulMonotone(dT, dT', c[6] as int);
    TruncDivMonotone(dT * c[6] as int, dT' * c[6] as int, 8388608);
    assert t <= t';
    if Cold(t') {
      ColdCorrection(dT, c);
      ColdCorrection(dT', c);
      SquareFalls(dT, dT');
      QuadIs(3, dT);
      QuadIs(3, dT');
      hide Quad;
      TruncDivMonotone(Quad(3, dT'), Quad(3, dT), 8589934592);
    } else {
      WarmCorrection(dT', c);
      if Cold(t) {
        ColdCorrection(dT, c);
      } else {
        WarmCorrection(dT, c);
      }
    }
  }

  lemma SquareFalls(x: int, y: int)
    requires x <= y <= 0
    ensures y * y <= x * x
  {
    SquareLower(x, -y);
  }

  lemma ColdCorrection(dT: int, c: seq<Word>)
    requires |c| == 8 && Cold(Temperature(dT, c))
    ensures dT < 0 && TempI(dT, Temperature(dT, c)) >= 0
  {
    hide TruncDiv;
    TruncDivSign(dT * c[6] as int, 8388608);
    if dT >= 0 {
      MulMonotone(0, dT, c[6] as int);
    }
    SquareBound(dT, if dT >= 0 then dT else -dT);
    QuadIs(3, dT);
    hide Quad;
    TruncDivSign(Quad(3, dT), 8589934592);
  }

  lemma WarmCorrection(dT: int, c: seq<Word>)
    requires |c| == 8 && !Cold(Temperature(dT, c)) && -32767 <= dT <= 32767
    ensures TempI(dT, Temperature(dT, c)) == 0
  {
    SquareBound(dT, 32767);
  }
}
