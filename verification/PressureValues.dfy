/** From raw MS5837 samples to published data: compensation, then a moving average of two for each value. */
module PressureValues {
  import opened Bus
  import C = Compensation
  import M = MovingAverage
  import R = Ring

  /** In kilograms per cubic metre; no caller sets another one. */
  const FLUID_DENSITY := 997.0

  const FILTER_SIZE: nat := 2

  /** What the compensation yields for samples on which its signed arithmetic overflows, which C++ leaves open. */
  type Overflowing = Sample -> C.Data

  const NOTHING := C.Data(0.0, 0.0, 0.0)

  function Words(calibration: seq<bv16>): (words: seq<C.Word>)
    ensures |words| == |calibration|
  {
    seq(|calibration|, i requires 0 <= i < |calibration| => calibration[i] as nat)
  }

  /** Two 24-bit readings and eight words. */
  predicate Readable(s: Sample) {
    s.PressureSample? && s.d1 < 0x100_0000 && s.d2 < 0x100_0000 && |s.calibration| == 8
  }

  function MeasureOf(s: Sample): C.Measure
    requires Readable(s)
  {
    C.Measure(s.d1, s.d2)
  }

  predicate Computable(s: Sample) {
    && Readable(s)
    && var dT := C.DT(MeasureOf(s), Words(s.calibration));
       C.Defined(dT, C.Temperature(dT, Words(s.calibration)))
  }

  /** What the compensation returns for a sample. */
  function Computed(s: Sample, overflowing: Overflowing): C.Data {
    if Computable(s) then C.Compensated(MeasureOf(s), Words(s.calibration), FLUID_DENSITY) else overflowing(s)
  }

  method Calculated(s: Sample, overflowing: Overflowing) returns (data: C.Data)
    ensures data == Computed(s, overflowing)
  {
    hide C.DT, C.Temperature, C.Defined, C.Compensated;
    if Computable(s) {
      data := C.Calculate(MeasureOf(s), Words(s.calibration), FLUID_DENSITY);
    } else {
      data := overflowing(s);
    }
  }

  function Depths(taken: seq<Sample>, overflowing: Overflowing): (v: seq<real>)
    ensures |v| == |taken|
  {
    seq(|taken|, i requires 0 <= i < |taken| => Computed(taken[i], overflowing).depth)
  }

  function Pressures(taken: seq<Sample>, overflowing: Overflowing): (v: seq<real>)
    ensures |v| == |taken|
  {
    seq(|taken|, i requires 0 <= i < |taken| => Computed(taken[i], overflowing).pressure)
  }

  function Temperatures(taken: seq<Sample>, overflowing: Overflowing): (v: seq<real>)
    ensures |v| == |taken|
  {
    seq(|taken|, i requires 0 <= i < |taken| => Computed(taken[i], overflowing).temperature)
  }

  /** What is published once these samples have been taken. */
  function Filtered(taken: seq<Sample>, overflowing: Overflowing): Data {
    PressureData(
      M.MeanOf(Pressures(taken, overflowing), FILTER_SIZE),
      M.MeanOf(Depths(taken, overflowing), FILTER_SIZE),
      M.MeanOf(Temperatures(taken, overflowing), FILTER_SIZE))
  }

  /** The same as a function of the samples alone. */
  function Maker(overflowing: Overflowing): seq<Sample> -> Data {
    taken => Filtered(taken, overflowing)
  }

  lemma LanesNext(taken: seq<Sample>, s: Sample, overflowing: Overflowing)
    ensures Depths(taken + [s], overflowing) == Depths(taken, overflowing) + [Computed(s, overflowing).depth]
    ensures Pressures(taken + [s], overflowing) == Pressures(taken, overflowing) + [Computed(s, overflowing).pressure]
    ensures Temperatures(taken + [s], overflowing)
         == Temperatures(taken, overflowing) + [Computed(s, overflowing).temperature]
  {
    hide Computed;
  }

  lemma MeanOfTwo(values: seq<real>)
    requires values != []
    ensures var n := |values|;
      M.MeanOf(values, 2) == (values[n - 1] + if n >= 2 then values[n - 2] else 0.0) / 2.0
  {
    var w := R.Window(values, 2, 0.0);
    R.WindowAt(values, 2, 0.0);
    M.SumNext(w, 0);
    M.SumNext(w, 1);
    assert w[..0] == [] && w[..2] == w;
  }

  /** Published are the means of the last two computed values; the first publication averages with zeros. */
  lemma FilteredIs(taken: seq<Sample>, overflowing: Overflowing)
    requires taken != []
    ensures var n := |taken|;
      var last := Computed(taken[n - 1], overflowing);
      var before := if n >= 2 then Computed(taken[n - 2], overflowing) else NOTHING;
      Filtered(taken, overflowing) == PressureData((last.pressure + before.pressure) / 2.0,
                                              (last.depth + before.depth) / 2.0,
                                              (last.temperature + before.temperature) / 2.0)
  {
    hide Computed, M.MeanOf;
    MeanOfTwo(Pressures(taken, overflowing));
    MeanOfTwo(Depths(taken, overflowing));
    MeanOfTwo(Temperatures(taken, overflowing));
  }

  /** Before anything is taken, that is zeros. */
  lemma FilteredNothing(overflowing: Overflowing)
    ensures Filtered([], overflowing) == PressureData(0.0, 0.0, 0.0)
  {
    hide Computed;
    var w := R.Window([], 2, 0.0);
    R.WindowAt([], 2, 0.0);
    M.SumNext(w, 0);
    M.SumNext(w, 1);
    assert w[..0] == [] && w[..2] == w;
    assert Pressures([], overflowing) == Depths([], overflowing) == Temperatures([], overflowing) == [];
  }

  /** With two samples of its own, the rest of a history decides what is published. */
  lemma FilteredSince(earlier: seq<Sample>, since: seq<Sample>, overflowing: Overflowing)
    requires |since| >= FILTER_SIZE
    ensures Filtered(earlier + since, overflowing) == Filtered(since, overflowing)
  {
    hide Computed, Filtered;
    FilteredIs(earlier + since, overflowing);
    FilteredIs(since, overflowing);
  }

  /** No compensated sample is zero throughout: where the pressure is zero, the depth is not. */
  lemma CompensatedVisible(s: Sample, overflowing: Overflowing)
    requires Computable(s)
    ensures Computed(s, overflowing) != NOTHING
  {
    hide C.PressureWith, C.ReportedTemperature, C.DT, C.Temperature, C.OffI, C.Wrap32, C.Defined;
    var m, c := MeasureOf(s), Words(s.calibration);
    var pressure := C.PressureWith(m, c, C.Wrap32(C.OffI(C.Temperature(C.DT(m, c), c)))) as real;
    ZeroDepth(pressure, FLUID_DENSITY * 9.80665);
  }

  lemma ZeroDepth(pressure: real, weight: real)
    requires weight > 0.0
    ensures pressure * 0.001 / 10.0 == 0.0 ==> (pressure * 10.0 - 101300.0) / weight != 0.0
  {
  }

  /** The first sample since some point is published free of what was taken before it if and only if nothing was, or
      the last thing computed was zero throughout. */
  lemma FirstSinceExactly(earlier: seq<Sample>, s: Sample, overflowing: Overflowing)
    ensures Filtered(earlier + [s], overflowing) == Filtered([s], overflowing) <==>
      earlier == [] || Computed(earlier[|earlier| - 1], overflowing) == NOTHING
  {
    hide Computed, Filtered;
    FilteredIs(earlier + [s], overflowing);
    FilteredIs([s], overflowing);
  }

  /** The three filters of the sensor. */
  class Filters {
    const depth: M.Filter
    const pressure: M.Filter
    const temperature: M.Filter

    function Footprint(): set<object> {
      {depth, depth.elements, pressure, pressure.elements, temperature, temperature.elements}
    }

    ghost predicate Valid()
      reads Footprint()
    {
      && depth != pressure && depth != temperature && pressure != temperature
      && depth.elements != pressure.elements && depth.elements != temperature.elements
      && pressure.elements != temperature.elements
      && depth.Valid() && pressure.Valid() && temperature.Valid()
      && depth.size == pressure.size == temperature.size == FILTER_SIZE
    }

    /** The filters have been fed the values computed for these samples. */
    ghost predicate Fed(taken: seq<Sample>, overflowing: Overflowing)
      reads Footprint()
    {
      && Valid()
      && depth.history == Depths(taken, overflowing)
      && pressure.history == Pressures(taken, overflowing)
      && temperature.history == Temperatures(taken, overflowing)
    }

    constructor ()
      ensures fresh(Footprint())
      ensures forall overflowing: Overflowing :: Fed([], overflowing)
    {
      depth := new M.Filter(FILTER_SIZE);
      pressure := new M.Filter(FILTER_SIZE);
      temperature := new M.Filter(FILTER_SIZE);
    }

    method Apply(ghost taken: seq<Sample>, s: Sample, overflowing: Overflowing) returns (data: Data)
      requires Fed(taken, overflowing)
      modifies Footprint()
      ensures Fed(taken + [s], overflowing)
      ensures data == Filtered(taken + [s], overflowing)
    {
      hide Computed, M.MeanOf, M.Filter.Valid, Depths, Pressures, Temperatures;
      var value := Calculated(s, overflowing);
      LanesNext(taken, s, overflowing);
      var d := depth.Apply(value.depth);
      var p := pressure.Apply(value.pressure);
      var t := temperature.Apply(value.temperature);
      data := PressureData(p, d, t);
    }
  }
}
