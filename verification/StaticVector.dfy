/** Fixed-size float vectors: four-lane blocks and a tail, against the plain definitions.
    Floats are modelled as reals. */
module StaticVector {
  import opened RealArithmetic

  // ---------------------------------------------------------------- block and tail

  const SIZEOF_FLOAT: nat := 4

  function IterationCount(size: nat): nat {
    size * SIZEOF_FLOAT / 16
  }

  function Alignment(size: nat): nat {
    (size * SIZEOF_FLOAT % 16) / SIZEOF_FLOAT
  }

  /** Blocks of four followed by the tail cover every index exactly once. */
  lemma BlocksAndTail(size: nat)
    ensures 4 * IterationCount(size) + Alignment(size) == size
    ensures Alignment(size) < 4
  {
  }

  // ---------------------------------------------------------------- plain definitions

  function Abs(x: real): real {
    if x >= 0.0 then x else -x
  }

  function Max(x: real, y: real): real {
    if y > x then y else x
  }

  function MaxAbs(s: seq<real>): (m: real)
    ensures m >= 0.0
  {
    if |s| == 0 then 0.0 else Max(MaxAbs(s[..|s| - 1]), Abs(s[|s| - 1]))
  }

  /** MaxAbs is the least upper bound of the magnitudes: it bounds all of them and, unless zero, is one of them. */
  lemma {:induction false} MaxAbsIsMaximum(s: seq<real>) returns (at: nat)
    ensures forall i :: 0 <= i < |s| ==> Abs(s[i]) <= MaxAbs(s)
    ensures MaxAbs(s) > 0.0 ==> at < |s| && Abs(s[at]) == MaxAbs(s)
  {
    at := 0;
    if |s| == 0 {
    } else {
      var front := s[..|s| - 1];
      at := MaxAbsIsMaximum(front);
      assert forall i :: 0 <= i < |front| ==> front[i] == s[i];
      if Abs(s[|s| - 1]) > MaxAbs(front) {
        at := |s| - 1;
      }
    }
  }

  lemma MaxAbsNext(s: seq<real>, i: nat)
    requires i < |s|
    ensures MaxAbs(s[..i + 1]) == Max(MaxAbs(s[..i]), Abs(s[i]))
  {
    assert s[..i + 1][..i] == s[..i];
  }

  function Scaled(s: seq<real>, k: real): seq<real> {
    seq(|s|, i requires 0 <= i < |s| => Times(s[i], k))
  }

  function Shifted(s: seq<real>, k: real): seq<real> {
    seq(|s|, i requires 0 <= i < |s| => s[i] + k)
  }

  /** What normalisation to an amplitude leaves. A zero vector has an infinite coefficient and stays. */
  function Normalized(s: seq<real>, amplitude: real): seq<real>
    requires amplitude > 0.0 || MaxAbs(s) > 0.0
  {
    if MaxAbs(s) == 0.0 || amplitude / MaxAbs(s) >= 1.0 then s else Scaled(s, amplitude / MaxAbs(s))
  }

  function Dot(u: seq<real>, v: seq<real>): real
    requires |u| == |v|
  {
    if |u| == 0 then 0.0 else Dot(u[..|u| - 1], v[..|v| - 1]) + Times(u[|u| - 1], v[|v| - 1])
  }

  lemma DotNext(u: seq<real>, v: seq<real>, i: nat)
    requires i < |u| == |v|
    ensures Dot(u[..i + 1], v[..i + 1]) == Dot(u[..i], v[..i]) + Times(u[i], v[i])
  {
    assert u[..i + 1][..i] == u[..i] && v[..i + 1][..i] == v[..i];
  }

  // ---------------------------------------------------------------- the operations

  method MultiplyBy(a: array<real>, value: real)
    modifies a
    ensures a[..] == Scaled(old(a[..]), value)
  {
    hide Times;
    BlocksAndTail(a.Length);
    var iterationCount, alignment := IterationCount(a.Length), Alignment(a.Length);
    for i := 0 to iterationCount
      invariant forall j :: 0 <= j < 4 * i ==> a[j] == Times(old(a[j]), value)
      invariant forall j :: 4 * i <= j < a.Length ==> a[j] == old(a[j])
    {
      a[4 * i], a[4 * i + 1], a[4 * i + 2], a[4 * i + 3] :=
        Times(a[4 * i], value), Times(a[4 * i + 1], value), Times(a[4 * i + 2], value), Times(a[4 * i + 3], value);
    }
    if alignment == 0 {
      return;
    }
    for i := a.Length - alignment to a.Length
      invariant forall j :: 0 <= j < i ==> a[j] == Times(old(a[j]), value)
      invariant forall j :: i <= j < a.Length ==> a[j] == old(a[j])
    {
      a[i] := Times(a[i], value);
    }
  }

  method AddTo(a: array<real>, value: real)
    modifies a
    ensures a[..] == Shifted(old(a[..]), value)
  {
    BlocksAndTail(a.Length);
    var iterationCount, alignment := IterationCount(a.Length), Alignment(a.Length);
    for i := 0 to iterationCount
      invariant forall j :: 0 <= j < 4 * i ==> a[j] == old(a[j]) + value
      invariant forall j :: 4 * i <= j < a.Length ==> a[j] == old(a[j])
    {
      a[4 * i], a[4 * i + 1], a[4 * i + 2], a[4 * i + 3] :=
        a[4 * i] + value, a[4 * i + 1] + value, a[4 * i + 2] + value, a[4 * i + 3] + value;
    }
    if alignment == 0 {
      return;
    }
    for i := a.Length - alignment to a.Length
      invariant forall j :: 0 <= j < i ==> a[j] == old(a[j]) + value
      invariant forall j :: i <= j < a.Length ==> a[j] == old(a[j])
    {
      a[i] := a[i] + value;
    }
  }

  lemma MaxAbsEmpty()
    ensures MaxAbs([]) == 0.0
  {
  }

  /** The largest magnitude: the lane maxima of the whole blocks, then the tail. */
  method BlockMaxAbs(s: seq<real>) returns (maxValue: real)
    ensures maxValue == MaxAbs(s)
  {
    hide MaxAbs, Abs, IterationCount, Alignment;
    BlocksAndTail(|s|);
    MaxAbsEmpty();
    var iterationCount, alignment := IterationCount(|s|), Alignment(|s|);
    maxValue := 0.0;
    for i := 0 to iterationCount
      invariant maxValue == MaxAbs(s[..4 * i])
    {
      MaxAbsNext(s, 4 * i);
      MaxAbsNext(s, 4 * i + 1);
      MaxAbsNext(s, 4 * i + 2);
      MaxAbsNext(s, 4 * i + 3);
      var value := Max(Max(Abs(s[4 * i]), Abs(s[4 * i + 1])), Max(Abs(s[4 * i + 2]), Abs(s[4 * i + 3])));
      if value > maxValue {
        maxValue := value;
      }
    }
    if alignment != 0 {
      for i := |s| - alignment to |s|
        invariant maxValue == MaxAbs(s[..i])
      {
        MaxAbsNext(s, i);
        var absValue := Abs(s[i]);
        if absValue > maxValue {
          maxValue := absValue;
        }
      }
    }
    assert s[..|s|] == s;
  }

  /** The float form: blocks of four lanes, then the tail. */
  method Normalize(a: array<real>, amplitude: real)
    requires amplitude > 0.0 || MaxAbs(a[..]) > 0.0
    modifies a
    ensures a[..] == Normalized(old(a[..]), amplitude)
  {
    var maxValue := BlockMaxAbs(a[..]);
    if maxValue == 0.0 {
      return;
    }
    var coefficient := amplitude / maxValue;
    if coefficient >= 1.0 {
      return;
    }
    MultiplyBy(a, coefficient);
  }

  /** The generic form: one element at a time. */
  method NormalizeScalar(a: array<real>, amplitude: real)
    requires amplitude > 0.0 || MaxAbs(a[..]) > 0.0
    modifies a
    ensures a[..] == Normalized(old(a[..]), amplitude)
  {
    var maxValue := 0.0;
    ghost var s := a[..];
    assert MaxAbs([]) == 0.0;
    hide MaxAbs, Abs, Times;
    for i := 0 to a.Length
      invariant a[..] == s
      invariant maxValue == MaxAbs(s[..i])
    {
      MaxAbsNext(s, i);
      var absValue := Abs(a[i]);
      if absValue > maxValue {
        maxValue := absValue;
      }
    }
    assert s[..a.Length] == s;
    if maxValue == 0.0 {
      return;
    }
    var coefficient := amplitude / maxValue;
    if coefficient < 1.0 {
      for i := 0 to a.Length
        invariant forall j :: 0 <= j < i ==> a[j] == Times(s[j], coefficient)
        invariant forall j :: i <= j < a.Length ==> a[j] == s[j]
      {
        a[i] := Times(a[i], coefficient);
      }
    }
  }

  method DotProduct(l: seq<real>, r: seq<real>) returns (value: real)
    requires |l| == |r|
    ensures value == Dot(l, r)
  {
    BlocksAndTail(|l|);
    var iterationCount, alignment := IterationCount(|l|), Alignment(|l|);
    value := 0.0;
    for i := 0 to iterationCount
      invariant value == Dot(l[..4 * i], r[..4 * i])
    {
      DotNext(l, r, 4 * i);
      DotNext(l, r, 4 * i + 1);
      DotNext(l, r, 4 * i + 2);
      DotNext(l, r, 4 * i + 3);
      hide Dot, Times;
      var b0, b1 := Times(l[4 * i], r[4 * i]), Times(l[4 * i + 1], r[4 * i + 1]);
      var b2, b3 := Times(l[4 * i + 2], r[4 * i + 2]), Times(l[4 * i + 3], r[4 * i + 3]);
      value := value + ((b0 + b1) + (b2 + b3));
    }
    assert l[..|l|] == l && r[..|r|] == r;
    if alignment == 0 {
      return;
    }
    for i := |l| - alignment to |l|
      invariant value == Dot(l[..i], r[..i])
    {
      DotNext(l, r, i);
      value := value + Times(l[i], r[i]);
    }
  }

  // ---------------------------------------------------------------- what normalisation guarantees

  lemma AbsTimes(x: real, k: real)
    requires k >= 0.0
    ensures Abs(Times(x, k)) == Times(Abs(x), k)
  {
  }

  lemma MaxTimes(x: real, y: real, k: real)
    requires k >= 0.0
    ensures Max(Times(x, k), Times(y, k)) == Times(Max(x, y), k)
  {
    hide Times;
    if y > x {
      TimesMonotone(x, y, k);
    } else {
      TimesMonotone(y, x, k);
    }
  }

  lemma {:induction false} MaxAbsScaled(s: seq<real>, k: real)
    requires k >= 0.0
    ensures MaxAbs(Scaled(s, k)) == Times(MaxAbs(s), k)
  {
    if |s| == 0 {
    } else {
      var front, last := s[..|s| - 1], s[|s| - 1];
      MaxAbsScaled(front, k);
      var r := Scaled(s, k);
      hide Times, Abs, Max;
      assert r[..|s| - 1] == Scaled(front, k);
      AbsTimes(last, k);
      MaxTimes(MaxAbs(front), Abs(last), k);
    }
  }

  /** A vector that fits is untouched; one that does not is scaled by one factor onto the amplitude exactly. */
  lemma NormalizedExactly(s: seq<real>, amplitude: real)
    requires amplitude > 0.0
    ensures MaxAbs(s) <= amplitude ==> Normalized(s, amplitude) == s
    ensures MaxAbs(s) > amplitude ==>
      && MaxAbs(Normalized(s, amplitude)) == amplitude
      && 0.0 < amplitude / MaxAbs(s) < 1.0
      && Normalized(s, amplitude) == Scaled(s, amplitude / MaxAbs(s))
  {
    if MaxAbs(s) > 0.0 {
      hide MaxAbs, Times, Scaled;
      Quotient(amplitude, MaxAbs(s));
      if MaxAbs(s) > amplitude {
        MaxAbsScaled(s, amplitude / MaxAbs(s));
      }
    }
  }

  lemma Quotient(amplitude: real, m: real)
    requires m > 0.0 && amplitude > 0.0
    ensures amplitude / m > 0.0 && Times(m, amplitude / m) == amplitude
    ensures amplitude / m < 1.0 <==> m > amplitude
  {
    var k := amplitude / m;
    TimesRatio(amplitude, m);
    hide Times;
    TimesCommutes(k, m);
    TimesOne(m);
    if k <= 0.0 {
      TimesMonotone(k, 0.0, m);
    } else if k < 1.0 {
      TimesStrict(k, 1.0, m);
    } else {
      TimesMonotone(1.0, k, m);
    }
  }

  /** No component exceeds the amplitude. */
  lemma NormalizedBound(s: seq<real>, amplitude: real)
    requires amplitude > 0.0
    ensures |Normalized(s, amplitude)| == |s|
    ensures forall i :: 0 <= i < |s| ==> -amplitude <= Normalized(s, amplitude)[i] <= amplitude
  {
    NormalizedExactly(s, amplitude);
    var r := Normalized(s, amplitude);
    var at := MaxAbsIsMaximum(r);
    assert forall i :: 0 <= i < |r| ==> Abs(r[i]) <= amplitude;
  }

  lemma NormalizedIdempotent(s: seq<real>, amplitude: real)
    requires amplitude > 0.0
    ensures Normalized(Normalized(s, amplitude), amplitude) == Normalized(s, amplitude)
  {
    hide MaxAbs, Normalized, Scaled;
    NormalizedExactly(s, amplitude);
    NormalizedExactly(Normalized(s, amplitude), amplitude);
  }

  predicate Meets(x: real, amplitude: real) {
    x == amplitude || x == -amplitude
  }

  lemma NormalizedMeets(s: seq<real>, amplitude: real)
    requires amplitude > 0.0 && MaxAbs(s) > amplitude
    ensures exists i :: 0 <= i < |s| && Meets(Normalized(s, amplitude)[i], amplitude)
  {
    NormalizedExactly(s, amplitude);
    var r := Normalized(s, amplitude);
    hide Normalized, MaxAbs;
    var at := MaxAbsIsMaximum(r);
    assert Meets(r[at], amplitude);
  }

  /** One common factor in (0, 1] for every component, no smaller than needed: it is 1, or some component meets the
      amplitude. Zero components stay zero. */
  lemma NormalizedFactor(s: seq<real>, amplitude: real) returns (k: real)
    requires amplitude > 0.0
    ensures 0.0 < k <= 1.0
    ensures |Normalized(s, amplitude)| == |s|
    ensures forall i :: 0 <= i < |s| ==> Normalized(s, amplitude)[i] == Times(s[i], k)
    ensures forall i :: 0 <= i < |s| && s[i] == 0.0 ==> Normalized(s, amplitude)[i] == 0.0
    ensures k == 1.0 || exists i :: 0 <= i < |s| && Meets(Normalized(s, amplitude)[i], amplitude)
  {
    NormalizedExactly(s, amplitude);
    hide MaxAbs, Meets;
    if MaxAbs(s) > amplitude {
      NormalizedMeets(s, amplitude);
    }
    k := if MaxAbs(s) <= amplitude then 1.0 else amplitude / MaxAbs(s);
    hide Normalized, Times;
    forall i | 0 <= i < |s|
      ensures Normalized(s, amplitude)[i] == Times(s[i], k)
    {
      TimesOne(s[i]);
    }
    TimesOne(k);
  }
}
