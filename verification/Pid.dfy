/** Four parallel PID regulators as a function of everything they were given. */
module Pid {
  import opened RealArithmetic

  /** Four lanes. */
  type Lanes = s: seq<real> | |s| == 4 witness [0.0, 0.0, 0.0, 0.0]

  const ZEROS: Lanes := [0.0, 0.0, 0.0, 0.0]

  function Plus(a: Lanes, b: Lanes): Lanes {
    seq(4, l requires 0 <= l < 4 => a[l] + b[l])
  }

  function Product(a: Lanes, b: Lanes): Lanes {
    seq(4, l requires 0 <= l < 4 => Times(a[l], b[l]))
  }

  function Scaled(k: real, a: Lanes): Lanes {
    seq(4, l requires 0 <= l < 4 => Times(k, a[l]))
  }

  function Difference(a: Lanes, b: Lanes): Lanes {
    seq(4, l requires 0 <= l < 4 => a[l] - b[l])
  }

  function Divided(a: Lanes, k: real): Lanes
    requires k != 0.0
  {
    seq(4, l requires 0 <= l < 4 => a[l] / k)
  }

  lemma PlusZeros(a: Lanes)
    ensures Plus(ZEROS, a) == a
  {
  }

  /** A rise, or a fall by less than this, of the lane 2 error lets the derivative follow. */
  const THRESHOLD: real := 0.000001

  /** One call: an update with the coefficients in force, or a reset. */
  datatype Event =
    | Update(dt: real, errors: Lanes, p: Lanes, i: Lanes, d: Lanes)
    | Reset
  {
    predicate Timed() {
      Update? ==> dt > 0.0
    }
  }

  type History = h: seq<Event> | forall k :: 0 <= k < |h| ==> h[k].Timed() witness []

  // ---------------------------------------------------------------- closed forms over the history

  /** The number of calls up to and including the last reset. */
  function SegmentStart(h: History): (n: nat)
    ensures n <= |h|
    ensures n > 0 ==> h[n - 1].Reset?
    ensures forall k :: n <= k < |h| ==> h[k].Update?
  {
    if |h| == 0 || h[|h| - 1].Reset? then |h| else SegmentStart(h[..|h| - 1])
  }

  /** i * dt * e summed over the updates from call `from` on. */
  function SumFrom(h: History, from: nat, lane: nat): real
    requires lane < 4 && from <= |h| && forall k :: from <= k < |h| ==> h[k].Update?
  {
    if from == |h| then 0.0
    else SumFrom(h[..|h| - 1], from, lane) + Increment(h[|h| - 1], lane)
  }

  function Increment(e: Event, lane: nat): real
    requires lane < 4 && e.Update?
  {
    Times(e.i[lane], Times(e.dt, e.errors[lane]))
  }

  function Integral(h: History, lane: nat): real
    requires lane < 4
  {
    SumFrom(h, SegmentStart(h), lane)
  }

  /** The errors of the call before call k, zero at the start and after a reset. */
  function ErrorsBefore(h: History, k: nat): Lanes
    requires k <= |h|
  {
    if k > 0 && h[k - 1].Update? then h[k - 1].errors else ZEROS
  }

  /** Call k refreshes the derivative. */
  predicate Refreshes(h: History, k: nat)
    requires k < |h|
  {
    h[k].Update? && ErrorsBefore(h, k)[2] - h[k].errors[2] < THRESHOLD
  }

  function Slope(h: History, k: nat, lane: nat): real
    requires lane < 4 && k < |h| && h[k].Update?
  {
    Times(h[k].d[lane], (h[k].errors[lane] - ErrorsBefore(h, k)[lane]) / h[k].dt)
  }

  /** The last call that refreshed the derivative, or |h| when none did. */
  function LastRefresh(h: History): (n: nat)
    ensures n <= |h|
    ensures n < |h| ==> Refreshes(h, n)
    ensures forall k :: 0 <= k < |h| && (k > n || n == |h|) ==> !Refreshes(h, k)
  {
    LastRefreshBefore(h, |h|)
  }

  function LastRefreshBefore(h: History, end: nat): (n: nat)
    requires end <= |h|
    ensures n < end || n == |h|
    ensures n < end ==> Refreshes(h, n)
    ensures forall k :: 0 <= k < end && (k > n || n == |h|) ==> !Refreshes(h, k)
  {
    if end == 0 then |h| else if Refreshes(h, end - 1) then end - 1 else LastRefreshBefore(h, end - 1)
  }

  function Derivative(h: History, lane: nat): real
    requires lane < 4
  {
    var n := LastRefresh(h);
    if n == |h| then 0.0 else Slope(h, n, lane)
  }

  function Integrals(h: History): Lanes {
    seq(4, l requires 0 <= l < 4 => Integral(h, l))
  }

  function Derivatives(h: History): Lanes {
    seq(4, l requires 0 <= l < 4 => Derivative(h, l))
  }

  /** What the regulators answer to the last call of a history that ends in an update. */
  function Output(h: History): Lanes
    requires |h| > 0 && h[|h| - 1].Update?
  {
    var e := h[|h| - 1];
    seq(4, l requires 0 <= l < 4 => Times(e.p[l], e.errors[l]) + Integral(h, l) + Derivative(h, l))
  }

  // ---------------------------------------------------------------- one more call

  lemma RefreshesPrefix(h: History, e: Event, k: nat)
    requires e.Timed() && k < |h|
    ensures Refreshes(h + [e], k) == Refreshes(h, k)
    ensures ErrorsBefore(h + [e], k) == ErrorsBefore(h, k)
  {
    assert (h + [e])[k] == h[k] && (k > 0 ==> (h + [e])[k - 1] == h[k - 1]);
  }

  /** The derivative follows a refreshing call and is held through every other call, resets included. */
  lemma DerivativeNext(h: History, e: Event, lane: nat)
    requires e.Timed() && lane < 4
    ensures Derivative(h + [e], lane) ==
      if Refreshes(h + [e], |h|) then Slope(h + [e], |h|, lane) else Derivative(h, lane)
  {
    var h' := h + [e];
    var n, n' := LastRefresh(h), LastRefresh(h');
    hide LastRefresh;
    forall k | 0 <= k < |h|
      ensures Refreshes(h', k) == Refreshes(h, k)
    {
      RefreshesPrefix(h, e, k);
    }
    if Refreshes(h', |h|) {
      assert n' == |h|;
    } else if n < |h| {
      RefreshesPrefix(h, e, n);
      assert n' == n;
    } else {
      assert n' == |h'|;
    }
  }

  lemma IntegralNext(h: History, e: Event, lane: nat)
    requires e.Timed() && lane < 4
    ensures Integral(h + [e], lane) == if e.Update? then Integral(h, lane) + Increment(e, lane) else 0.0
  {
    assert (h + [e])[..|h|] == h;
  }

  /** The values that the derivative part holds after one call. */
  function NextValues(values: Lanes, previous: Lanes, dt: real, errors: Lanes, d: Lanes): Lanes
    requires dt > 0.0
  {
    if previous[2] - errors[2] < THRESHOLD then Product(d, Divided(Difference(errors, previous), dt)) else values
  }

  lemma IntegralsNext(h: History, dt: real, errors: Lanes, p: Lanes, i: Lanes, d: Lanes)
    requires dt > 0.0
    ensures Integrals(h + [Update(dt, errors, p, i, d)]) == Plus(Integrals(h), Product(i, Scaled(dt, errors)))
  {
    var e := Update(dt, errors, p, i, d);
    forall l | 0 <= l < 4
      ensures Integral(h + [e], l) == Integral(h, l) + Times(i[l], Times(dt, errors[l]))
    {
      IntegralNext(h, e, l);
    }
    hide Integral, Times;
  }

  lemma DerivativesNext(h: History, dt: real, errors: Lanes, p: Lanes, i: Lanes, d: Lanes)
    requires dt > 0.0
    ensures Derivatives(h + [Update(dt, errors, p, i, d)]) ==
      NextValues(Derivatives(h), ErrorsBefore(h, |h|), dt, errors, d)
  {
    var e := Update(dt, errors, p, i, d);
    var h', previous := h + [e], ErrorsBefore(h, |h|);
    assert ErrorsBefore(h', |h|) == previous;
    forall l | 0 <= l < 4
      ensures Derivative(h', l) ==
        (if previous[2] - errors[2] < THRESHOLD then Times(d[l], (errors[l] - previous[l]) / dt) else Derivative(h, l))
    {
      hide Derivative, Times, ErrorsBefore;
      DerivativeNext(h, e, l);
    }
    hide Derivative, Times, ErrorsBefore;
  }

  lemma UpdateNext(h: History, dt: real, errors: Lanes, p: Lanes, i: Lanes, d: Lanes)
    requires dt > 0.0
    ensures var h' := h + [Update(dt, errors, p, i, d)];
      && ErrorsBefore(h', |h'|) == errors
      && Integrals(h') == Plus(Integrals(h), Product(i, Scaled(dt, errors)))
      && Derivatives(h') == NextValues(Derivatives(h), ErrorsBefore(h, |h|), dt, errors, d)
      && Output(h') == Plus(Plus(Product(p, errors), Integrals(h')), Derivatives(h'))
  {
    IntegralsNext(h, dt, errors, p, i, d);
    DerivativesNext(h, dt, errors, p, i, d);
    hide Integral, Derivative, Times, NextValues, Scaled;
  }

  lemma ResetNext(h: History)
    ensures Integrals(h + [Event.Reset]) == ZEROS
    ensures Derivatives(h + [Event.Reset]) == Derivatives(h)
    ensures ErrorsBefore(h + [Event.Reset], |h| + 1) == ZEROS
  {
    forall l | 0 <= l < 4
      ensures Integral(h + [Event.Reset], l) == 0.0
      ensures Derivative(h + [Event.Reset], l) == Derivative(h, l)
    {
      IntegralNext(h, Event.Reset, l);
      DerivativeNext(h, Event.Reset, l);
    }
  }

  // ---------------------------------------------------------------- answers to simple inputs

  /** What one lane adds up for the rising errors v, 2 v, 3 v, ... or for n equal ones. */
  function Triangle(n: nat): nat {
    if n == 0 then 0 else Triangle(n - 1) + n
  }

  /** After anything at all and a reset: n updates with the errors v, 2 v, ..., n v. */
  function Rising(h: History, dt: real, v: Lanes, p: Lanes, i: Lanes, d: Lanes, n: nat): (r: History)
    requires dt > 0.0
    ensures |r| == |h| + 1 + n
  {
    if n == 0 then h + [Event.Reset]
    else Rising(h, dt, v, p, i, d, n - 1) + [Update(dt, Scaled(n as real, v), p, i, d)]
  }

  /** After anything at all and a reset: n updates with the same errors. */
  function Steady(h: History, dt: real, e: Lanes, p: Lanes, i: Lanes, d: Lanes, n: nat): (r: History)
    requires dt > 0.0
    ensures |r| == |h| + 1 + n
  {
    if n == 0 then h + [Event.Reset] else Steady(h, dt, e, p, i, d, n - 1) + [Update(dt, e, p, i, d)]
  }

  lemma NoChange(x: real, dt: real)
    requires dt > 0.0
    ensures (x - x) / dt == 0.0
  {
  }

  lemma OneMoreTimes(n: nat, x: real)
    ensures Times((n + 1) as real, x) == Times(n as real, x) + x
    ensures Times(0 as real, x) == 0.0
  {
  }

  /** The state behind n equal errors. */
  lemma {:induction false} SteadyState(h: History, dt: real, e: Lanes, p: Lanes, i: Lanes, d: Lanes, n: nat, l: nat)
    requires dt > 0.0 && l < 4
    ensures var s := Steady(h, dt, e, p, i, d, n);
      && Integral(s, l) == Times(n as real, Times(i[l], Times(dt, e[l])))
      && ErrorsBefore(s, |s|) == (if n == 0 then ZEROS else e)
      && Derivative(s, l) ==
           (if n >= 2 then 0.0
            else if n == 1 && -e[2] < 0.000001 then Times(d[l], e[l] / dt)
            else Derivative(h, l))
  {
    hide Times, Integral, Derivative, ErrorsBefore, Output;
    if n == 0 {
      OneMoreTimes(0, Times(i[l], Times(dt, e[l])));
      ResetLane(h, l);
    } else {
      SteadyState(h, dt, e, p, i, d, n - 1, l);
      OneMoreTimes(n - 1, Times(i[l], Times(dt, e[l])));
      UpdateLane(Steady(h, dt, e, p, i, d, n - 1), dt, e, p, i, d, l);
      TimesOne(d[l]);
      NoChange(e[l], dt);
    }
  }

  lemma ResetLane(h: History, l: nat)
    requires l < 4
    ensures Integral(h + [Event.Reset], l) == 0.0 && Derivative(h + [Event.Reset], l) == Derivative(h, l)
    ensures ErrorsBefore(h + [Event.Reset], |h| + 1) == ZEROS
  {
    IntegralNext(h, Event.Reset, l);
    DerivativeNext(h, Event.Reset, l);
  }

  /** One update, lane by lane. */
  lemma UpdateLane(h: History, dt: real, e: Lanes, p: Lanes, i: Lanes, d: Lanes, l: nat)
    requires dt > 0.0 && l < 4
    ensures var h', before := h + [Update(dt, e, p, i, d)], ErrorsBefore(h, |h|);
      && ErrorsBefore(h', |h'|) == e
      && Integral(h', l) == Integral(h, l) + Times(i[l], Times(dt, e[l]))
      && Derivative(h', l) ==
           (if before[2] - e[2] < 0.000001 then Times(d[l], (e[l] - before[l]) / dt) else Derivative(h, l))
      && Output(h')[l] == Times(p[l], e[l]) + Integral(h', l) + Derivative(h', l)
  {
    var u := Update(dt, e, p, i, d);
    assert ErrorsBefore(h + [u], |h|) == ErrorsBefore(h, |h|);
    IntegralNext(h, u, l);
    DerivativeNext(h, u, l);
  }

  /** To a steady error the regulators answer p e + n i dt e, after any history that ends in a reset; the derivative
      shows in the first answer only, where the error counts as a jump from zero. */
  lemma SteadyError(h: History, dt: real, e: Lanes, p: Lanes, i: Lanes, d: Lanes, n: nat, l: nat)
    requires dt > 0.0 && l < 4 && n > 0
    ensures Output(Steady(h, dt, e, p, i, d, n))[l]
         == Times(p[l], e[l]) + Times(n as real, Times(i[l], Times(dt, e[l])))
          + (if n >= 2 then 0.0 else if -e[2] < 0.000001 then Times(d[l], e[l] / dt) else Derivative(h, l))
  {
    hide Times, Integral, Derivative, ErrorsBefore, Output;
    SteadyState(h, dt, e, p, i, d, n, l);
    UpdateLane(Steady(h, dt, e, p, i, d, n - 1), dt, e, p, i, d, l);
  }

  lemma RisingStep(n: nat, x: real, y: real)
    ensures Times((n + 1) as real, x) - Times(n as real, x) == x
    ensures Times(y, Times((n + 1) as real, x)) == Times((n + 1) as real, Times(y, x))
  {
  }

  lemma ScaledAt(v: Lanes, n: nat, l: nat)
    requires l < 4
    ensures Scaled(n as real, v)[l] == Times(n as real, v[l]) && Scaled(n as real, v)[2] == Times(n as real, v[2])
    ensures n == 0 ==> Scaled(n as real, v) == ZEROS
  {
    if n == 0 {
      forall k | 0 <= k < 4
        ensures Times(0.0, v[k]) == 0.0
      {
      }
    }
  }

  lemma TriangleStart()
    ensures Triangle(0) == 0
  {
  }

  lemma TriangleStep(n: nat, x: real)
    requires n > 0
    ensures Times(Triangle(n) as real, x) == Times(Triangle(n - 1) as real, x) + Times(n as real, x)
  {
    assert Triangle(n) as real == Triangle(n - 1) as real + n as real;
    hide Triangle;
  }

  /** The state behind errors that rise by v with every update. */
  lemma {:induction false} RisingState(h: History, dt: real, v: Lanes, p: Lanes, i: Lanes, d: Lanes, n: nat, l: nat)
    requires dt > 0.0 && l < 4
    ensures var s := Rising(h, dt, v, p, i, d, n);
      && Integral(s, l) == Times(Triangle(n) as real, Times(i[l], Times(dt, v[l])))
      && ErrorsBefore(s, |s|) == Scaled(n as real, v)
      && Derivative(s, l) == if n > 0 && -v[2] < 0.000001 then Times(d[l], v[l] / dt) else Derivative(h, l)
  {
    hide Times, Integral, Derivative, ErrorsBefore, Output, Scaled, Triangle;
    ScaledAt(v, n, l);
    if n == 0 {
      OneMoreTimes(0, Times(i[l], Times(dt, v[l])));
      ResetLane(h, l);
      TriangleStart();
    } else {
      ScaledAt(v, n - 1, l);
      RisingState(h, dt, v, p, i, d, n - 1, l);
      UpdateLane(Rising(h, dt, v, p, i, d, n - 1), dt, Scaled(n as real, v), p, i, d, l);
      RisingStep(n - 1, v[l], dt);
      RisingStep(n - 1, v[2], dt);
      RisingStep(n - 1, Times(dt, v[l]), i[l]);
      TriangleStep(n, Times(i[l], Times(dt, v[l])));
    }
  }

  /** To errors that rise at a steady rate they answer with the derivative d v / dt throughout, unless the error of
      lane 2 falls: then the derivative of all lanes stays what it was before the reset. */
  lemma RisingError(h: History, dt: real, v: Lanes, p: Lanes, i: Lanes, d: Lanes, n: nat, l: nat)
    requires dt > 0.0 && l < 4 && n > 0
    ensures Output(Rising(h, dt, v, p, i, d, n))[l]
         == Times(p[l], Times(n as real, v[l])) + Times(Triangle(n) as real, Times(i[l], Times(dt, v[l])))
          + (if -v[2] < 0.000001 then Times(d[l], v[l] / dt) else Derivative(h, l))
  {
    hide Times, Integral, Derivative, ErrorsBefore, Output, Scaled, Triangle;
    ScaledAt(v, n, l);
    RisingState(h, dt, v, p, i, d, n, l);
    UpdateLane(Rising(h, dt, v, p, i, d, n - 1), dt, Scaled(n as real, v), p, i, d, l);
  }

  // ---------------------------------------------------------------- the regulators

  class PArray {
    var coefficients: array<real>

    constructor (coefficients: array<real>)
      ensures this.coefficients == coefficients
    {
      this.coefficients := coefficients;
    }

    method SetArray(coefficients: array<real>)
      modifies this
      ensures this.coefficients == coefficients
    {
      this.coefficients := coefficients;
    }

    method Add(errors: Lanes, out: array<real>)
      requires coefficients.Length == 4 == out.Length && out != coefficients
      modifies out
      ensures out[..] == Plus(old(out[..]), Product(coefficients[..], errors))
    {
      forall l | 0 <= l < 4 {
        out[l] := out[l] + Times(coefficients[l], errors[l]);
      }
    }
  }

  class IArray {
    var coefficients: array<real>
    const sums: array<real>

    constructor (coefficients: array<real>)
      ensures this.coefficients == coefficients
      ensures fresh(sums) && sums[..] == ZEROS
    {
      this.coefficients := coefficients;
      sums := new real[4](_ => 0.0);
    }

    method SetArray(coefficients: array<real>)
      modifies this
      ensures this.coefficients == coefficients
    {
      this.coefficients := coefficients;
    }

    method Add(dt: real, errors: Lanes, out: array<real>)
      requires coefficients.Length == 4 == out.Length == sums.Length
      requires out != coefficients && out != sums && sums != coefficients
      modifies sums, out
      ensures sums[..] == Plus(old(sums[..]), Product(coefficients[..], Scaled(dt, errors)))
      ensures out[..] == Plus(old(out[..]), sums[..])
    {
      forall l | 0 <= l < 4 {
        sums[l] := sums[l] + Times(coefficients[l], Times(dt, errors[l]));
      }
      forall l | 0 <= l < 4 {
        out[l] := out[l] + sums[l];
      }
    }

    method Reset()
      requires sums.Length == 4
      modifies sums
      ensures sums[..] == ZEROS
    {
      forall l | 0 <= l < 4 {
        sums[l] := 0.0;
      }
    }
  }

  class DArray {
    var coefficients: array<real>
    const prevErrors: array<real>
    const values: array<real>

    constructor (coefficients: array<real>)
      ensures this.coefficients == coefficients
      ensures fresh(prevErrors) && fresh(values) && prevErrors != values
      ensures prevErrors[..] == ZEROS && values[..] == ZEROS
    {
      this.coefficients := coefficients;
      prevErrors := new real[4](_ => 0.0);
      values := new real[4](_ => 0.0);
    }

    method SetArray(coefficients: array<real>)
      modifies this
      ensures this.coefficients == coefficients
    {
      this.coefficients := coefficients;
    }

    method Add(dt: real, errors: Lanes, out: array<real>)
      requires dt > 0.0
      requires coefficients.Length == 4 == out.Length == prevErrors.Length == values.Length
      requires out != coefficients && out != prevErrors && out != values
      requires prevErrors != values && prevErrors != coefficients && values != coefficients
      modifies prevErrors, values, out
      ensures values[..] == NextValues(old(values[..]), old(prevErrors[..]), dt, errors, coefficients[..])
      ensures out[..] == Plus(old(out[..]), values[..])
      ensures prevErrors[..] == errors
    {
      if prevErrors[2] - errors[2] < THRESHOLD {
        forall l | 0 <= l < 4 {
          values[l] := errors[l] - prevErrors[l];
        }
        forall l | 0 <= l < 4 {
          values[l] := values[l] / dt;
        }
        forall l | 0 <= l < 4 {
          values[l] := Times(coefficients[l], values[l]);
        }
      }
      forall l | 0 <= l < 4 {
        out[l] := out[l] + values[l];
      }
      forall l | 0 <= l < 4 {
        prevErrors[l] := errors[l];
      }
    }

    method Reset()
      requires prevErrors.Length == 4
      modifies prevErrors
      ensures prevErrors[..] == ZEROS
    {
      forall l | 0 <= l < 4 {
        prevErrors[l] := 0.0;
      }
    }
  }

  class PIDArray {
    const pArray: PArray
    const iArray: IArray
    const dArray: DArray
    ghost var history: History

    /** Accumulators, previous errors and held derivative are the closed forms of the history. */
    ghost predicate Valid()
      reads this, pArray, iArray, dArray, iArray.sums, dArray.prevErrors, dArray.values
    {
      && iArray.sums.Length == dArray.prevErrors.Length == dArray.values.Length == 4
      && dArray.prevErrors != dArray.values
      && iArray.sums != dArray.prevErrors && iArray.sums != dArray.values
      && iArray.sums[..] == Integrals(history)
      && dArray.prevErrors[..] == ErrorsBefore(history, |history|)
      && dArray.values[..] == Derivatives(history)
    }

    /** The coefficient arrays set by the caller, distinct from the state. */
    ghost predicate Ready()
      reads this, pArray, iArray, dArray
    {
      var state := {iArray.sums, dArray.prevErrors, dArray.values};
      && pArray.coefficients.Length == iArray.coefficients.Length == dArray.coefficients.Length == 4
      && pArray.coefficients !in state && iArray.coefficients !in state && dArray.coefficients !in state
    }

    constructor (p: array<real>, i: array<real>, d: array<real>)
      requires p.Length == i.Length == d.Length == 4
      ensures Valid() && Ready() && history == []
      ensures pArray.coefficients == p && iArray.coefficients == i && dArray.coefficients == d
      ensures fresh(pArray) && fresh(iArray) && fresh(dArray)
      ensures fresh(iArray.sums) && fresh(dArray.prevErrors) && fresh(dArray.values)
    {
      pArray := new PArray(p);
      iArray := new IArray(i);
      dArray := new DArray(d);
      history := [];
    }

    method Calculate(dt: real, errors: Lanes) returns (output: array<real>)
      requires Valid() && Ready() && dt > 0.0
      modifies this, iArray.sums, dArray.prevErrors, dArray.values
      ensures Valid() && Ready()
      ensures history == old(history) + [Update(dt, errors, pArray.coefficients[..],
                                                iArray.coefficients[..], dArray.coefficients[..])]
      ensures fresh(output) && output[..] == Output(history)
    {
      ghost var h := history;
      ghost var p, i, d := pArray.coefficients[..], iArray.coefficients[..], dArray.coefficients[..];
      UpdateNext(h, dt, errors, p, i, d);
      output := new real[4](_ => 0.0);
      assert output[..] == ZEROS;
      PlusZeros(Product(p, errors));
      hide Integrals, Derivatives, ErrorsBefore, Output, Product, Plus, NextValues, Scaled;
      pArray.Add(errors, output);
      iArray.Add(dt, errors, output);
      dArray.Add(dt, errors, output);
      history := h + [Update(dt, errors, p, i, d)];
    }

    method Reset()
      requires Valid()
      modifies this, iArray.sums, dArray.prevErrors
      ensures Valid() && history == old(history) + [Event.Reset]
    {
      ResetNext(history);
      hide Integrals, Derivatives, ErrorsBefore;
      iArray.Reset();
      dArray.Reset();
      history := history + [Event.Reset];
    }
  }
}
