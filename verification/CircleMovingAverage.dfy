/** A moving average of angles: a ring of (cosine, sine) pairs and what is read off their mean. */
module CircleMovingAverage {
  import opened RealArithmetic
  import opened Ring
  import opened Trigonometry
  import M = MovingAverage

  /** The cosine and sine of an angle, or a mean of such pairs. */
  datatype Point = Point(x: real, y: real)

  const ORIGIN := Point(0.0, 0.0)

  function Norm2(p: Point): real {
    Square(p.x) + Square(p.y)
  }

  function Plus(p: Point, q: Point): Point {
    Point(p.x + q.x, p.y + q.y)
  }

  function Xs(s: seq<Point>): (xs: seq<real>)
    ensures |xs| == |s|
  {
    seq(|s|, i requires 0 <= i < |s| => s[i].x)
  }

  function Ys(s: seq<Point>): (ys: seq<real>)
    ensures |ys| == |s|
  {
    seq(|s|, i requires 0 <= i < |s| => s[i].y)
  }

  /** Vector sum, coordinate by coordinate. */
  function Sum(s: seq<Point>): Point {
    Point(M.Sum(Xs(s)), M.Sum(Ys(s)))
  }

  function Mean(s: seq<Point>): Point
    requires |s| > 0
  {
    Point(Sum(s).x / |s| as real, Sum(s).y / |s| as real)
  }

  /** The answer for a mean vector: the arc cosine of its x alone, in the half plane of its y, and 0 on the axis. */
  function ArcOf(p: Point, trig: Trig): real {
    if p.y > 0.0 then trig.acos(p.x) else if p.y < 0.0 then 2.0 * trig.pi - trig.acos(p.x) else 0.0
  }

  /** The unit vector of an angle. */
  function Unit(t: real, trig: Trig): Point {
    Point(trig.cos(t), trig.sin(t))
  }

  lemma UnitInDisc(t: real, trig: Trig)
    requires trig.Lawful()
    ensures Norm2(Unit(t, trig)) == 1.0
  {
    hide Square;
    assert trig.LawsAt(t);
  }

  lemma SumNext(s: seq<Point>, i: nat)
    requires i < |s|
    ensures Sum(s[..i + 1]) == Plus(Sum(s[..i]), s[i])
  {
    M.SumNext(Xs(s), i);
    M.SumNext(Ys(s), i);
    hide M.Sum;
    assert Xs(s)[..i + 1] == Xs(s[..i + 1]) && Xs(s)[..i] == Xs(s[..i]);
    assert Ys(s)[..i + 1] == Ys(s[..i + 1]) && Ys(s)[..i] == Ys(s[..i]);
  }

  /** The order in which the ring stores the window does not matter to its sum. */
  lemma SumUnrolled(ring: seq<Point>, index: nat)
    requires index <= |ring|
    ensures Sum(Unrolled(ring, index)) == Sum(ring)
  {
    hide M.Sum;
    M.SumUnrolled(Xs(ring), index);
    M.SumUnrolled(Ys(ring), index);
    assert Xs(Unrolled(ring, index)) == Unrolled(Xs(ring), index);
    assert Ys(Unrolled(ring, index)) == Unrolled(Ys(ring), index);
  }

  // ---------------------------------------------------------------- the mean stays in the unit disc

  lemma Lagrange(a: real, b: real, x: real, y: real)
    ensures Square(Times(a, x) + Times(b, y)) + Square(Times(a, y) - Times(b, x)) ==
      Times(Square(a) + Square(b), Square(x) + Square(y))
  {
  }

  /** Cauchy-Schwarz against a vector of at most unit length. */
  lemma InnerBound(a: real, b: real, x: real, y: real, n: real)
    requires n >= 0.0 && Square(a) + Square(b) <= Square(n) && Square(x) + Square(y) <= 1.0
    ensures Times(a, x) + Times(b, y) <= n
  {
    hide Times, Square;
    Lagrange(a, b, x, y);
    var p, q := Square(a) + Square(b), Square(x) + Square(y);
    SquareNonNegative(a);
    SquareNonNegative(b);
    SquareNonNegative(Times(a, y) - Times(b, x));
    TimesMonotone(q, 1.0, p);
    TimesCommutes(q, p);
    TimesOne(p);
    SquareOrder(Times(a, x) + Times(b, y), n);
  }

  /** n vectors of at most unit length add up to a vector of length at most n. */
  lemma {:induction false} SumInDisc(s: seq<Point>)
    requires forall i :: 0 <= i < |s| ==> Norm2(s[i]) <= 1.0
    ensures Norm2(Sum(s)) <= Square(|s| as real)
  {
    if |s| == 0 {
      assert Sum(s) == ORIGIN;
    } else {
      var front, last := s[..|s| - 1], s[|s| - 1];
      SumInDisc(front);
      var v, n := Sum(front), |front| as real;
      SumNext(s, |s| - 1);
      assert s[..|s|] == s;
      hide Square, Times, Sum;
      InnerBound(v.x, v.y, last.x, last.y, n);
      SquareSum(v.x, last.x);
      SquareSum(v.y, last.y);
      SquareSuccessor(n);
      assert |s| as real == n + 1.0;
    }
  }

  lemma SquareSuccessor(n: real)
    ensures Square(n + 1.0) == Square(n) + 2.0 * n + 1.0
  {
    hide Times;
    SquareSum(n, 1.0);
    TimesOne(n);
    TimesOne(1.0);
  }

  lemma MeanInDisc(s: seq<Point>)
    requires |s| > 0 && forall i :: 0 <= i < |s| ==> Norm2(s[i]) <= 1.0
    ensures Norm2(Mean(s)) <= 1.0
    ensures -1.0 <= Mean(s).x <= 1.0 && -1.0 <= Mean(s).y <= 1.0
  {
    SumInDisc(s);
    assert Square(1.0) == 1.0;
    hide Sum, Square, Times;
    var n := |s| as real;
    RatioInDisc(Sum(s).x, Sum(s).y, n);
    SquareNonNegative(Mean(s).x);
    SquareNonNegative(Mean(s).y);
    SquareOrder(Mean(s).x, 1.0);
    SquareOrder(Mean(s).y, 1.0);
  }

  lemma RatioInDisc(x: real, y: real, n: real)
    requires n > 0.0 && Square(x) + Square(y) <= Square(n)
    ensures Square(x / n) + Square(y / n) <= 1.0
  {
    TimesPositive(n, n);
    assert Square(n) > 0.0;
    hide Square, Times;
    SquareOfProduct(x / n, n);
    SquareOfProduct(y / n, n);
    TimesRatio(x, n);
    TimesRatio(y, n);
    var r := Square(x / n) + Square(y / n);
    TimesDistributes(Square(x / n), Square(y / n), Square(n));
    TimesOne(Square(n));
    if r > 1.0 {
      TimesStrict(1.0, r, Square(n));
    }
  }

  // ---------------------------------------------------------------- the filter

  /** Neighbouring elements paired up as the vector loop reads them. */
  function Pairs(elements: seq<real>): (p: seq<Point>)
    ensures |p| == |elements| / 2
  {
    seq(|elements| / 2, i requires 0 <= i < |elements| / 2 => Point(elements[2 * i], elements[2 * i + 1]))
  }

  /** The unit vectors of the angles received. */
  function Units(angles: seq<real>, trig: Trig): (p: seq<Point>)
    ensures |p| == |angles|
  {
    seq(|angles|, i requires 0 <= i < |angles| => Unit(angles[i], trig))
  }

  lemma UnitsNext(angles: seq<real>, value: real, trig: Trig)
    ensures Units(angles + [value], trig) == Units(angles, trig) + [Unit(value, trig)]
  {
    hide Unit;
  }

  /** The mean of the last n unit vectors. */
  function MeanVector(angles: seq<real>, n: nat, trig: Trig): Point
    requires n > 0
  {
    Mean(Window(Units(angles, trig), n, ORIGIN))
  }

  /** What the filter answers after these angles. */
  function Report(angles: seq<real>, n: nat, trig: Trig): real
    requires n > 0
  {
    ArcOf(MeanVector(angles, n, trig), trig)
  }

  /** The argument of the arc cosine is always in its domain. */
  lemma MeanVectorInDisc(angles: seq<real>, n: nat, trig: Trig)
    requires n > 0 && trig.Lawful()
    ensures Norm2(MeanVector(angles, n, trig)) <= 1.0
    ensures -1.0 <= MeanVector(angles, n, trig).x <= 1.0
  {
    hide Norm2, Window, Unit, Functions.Lawful;
    var units := Units(angles, trig);
    forall i | 0 <= i < |units|
      ensures Norm2(units[i]) <= 1.0
    {
      UnitInDisc(angles[i], trig);
    }
    hide Units;
    WindowInDisc(units, n);
    MeanInDisc(Window(units, n, ORIGIN));
  }

  class Filter {
    const size: nat
    const trig: Trig
    const elements: array<real>
    var index: nat
    ghost var history: seq<real>

    ghost predicate Valid()
      reads this, elements
    {
      && 0 < size && elements.Length == 2 * size
      && index <= 2 * size && index % 2 == 0
      && Unrolled(Pairs(elements[..]), index / 2) == Window(Units(history, trig), size, ORIGIN)
    }

    constructor (size: nat, trig: Trig)
      requires size > 0
      ensures Valid() && history == [] && this.size == size && this.trig == trig
      ensures fresh(elements)
    {
      this.size, this.trig := size, trig;
      elements := new real[2 * size](_ => 0.0);
      index := 0;
      history := [];
    }

    /** The cosine and sine of the angle overwrite the oldest pair. */
    method Store(value: real)
      requires Valid()
      modifies this, elements
      ensures Valid() && history == old(history) + [value]
    {
      hide Window, Unrolled, Pairs, Units, Functions.Lawful;
      if index == 2 * size {
        UnrolledFromEnd(Pairs(elements[..]));
        index := 0;
      }
      ghost var slot := index / 2;
      ghost var before := elements[..];
      RingAdvances(Pairs(before), slot, Units(history, trig), Unit(value, trig), ORIGIN);
      UnitsNext(history, value, trig);
      elements[index] := trig.cos(value);
      index := index + 1;
      elements[index] := trig.sin(value);
      index := index + 1;
      PairStored(before, slot, trig.cos(value), trig.sin(value));
      history := history + [value];
    }

    /** After any number of calls: the arc cosine of the mean cosine of the last `size` angles, which is always in
        its domain, in the half plane of the mean sine. */
    method Apply(value: real) returns (angle: real)
      requires Valid()
      modifies this, elements
      ensures Valid() && history == old(history) + [value]
      ensures angle == Report(history, size, trig)
      ensures trig.Lawful() ==> -1.0 <= MeanVector(history, size, trig).x <= 1.0
    {
      hide Sum, Window, Unrolled, Units, Pairs, Functions.Lawful;
      Store(value);
      SumUnrolled(Pairs(elements[..]), index / 2);
      if trig.Lawful() {
        MeanVectorInDisc(history, size, trig);
      }
      var cosSin := SumPairs();
      cosSin := Point(cosSin.x / size as real, cosSin.y / size as real);
      if cosSin.y > 0.0 {
        return trig.acos(cosSin.x);
      }
      if cosSin.y < 0.0 {
        return 2.0 * trig.pi - trig.acos(cosSin.x);
      }
      return 0.0;
    }

    /** The accumulation loop over two-lane vectors. */
    method SumPairs() returns (cosSin: Point)
      requires 0 < size && elements.Length == 2 * size
      ensures cosSin == Sum(Pairs(elements[..]))
    {
      ghost var ring := Pairs(elements[..]);
      cosSin := ORIGIN;
      SumNone(ring);
      hide Sum;
      for i := 0 to size
        invariant cosSin == Sum(ring[..i])
      {
        SumNext(ring, i);
        cosSin := Plus(Point(elements[2 * i], elements[2 * i + 1]), cosSin);
      }
      assert ring[..size] == ring;
    }
  }

  lemma SumNone(s: seq<Point>)
    ensures Sum(s[..0]) == ORIGIN
  {
  }

  lemma UnrolledFromEnd(ring: seq<Point>)
    ensures Unrolled(ring, |ring|) == Unrolled(ring, 0)
  {
  }

  lemma PairStored(before: seq<real>, slot: nat, cos: real, sin: real)
    requires 2 * slot + 1 < |before|
    ensures Pairs(before[2 * slot := cos][2 * slot + 1 := sin]) == Pairs(before)[slot := Point(cos, sin)]
  {
  }

  lemma WindowInDisc(history: seq<Point>, n: nat)
    requires forall i :: 0 <= i < |history| ==> Norm2(history[i]) <= 1.0
    ensures forall i :: 0 <= i < n ==> Norm2(Window(history, n, ORIGIN)[i]) <= 1.0
  {
    OriginInDisc();
    hide Norm2, Window;
    WindowAt(history, n, ORIGIN);
  }

  lemma OriginInDisc()
    ensures Norm2(ORIGIN) <= 1.0
  {
    TimesOne(0.0);
    hide Times;
  }

  // ---------------------------------------------------------------- steady input

  /** The last n inputs were all this one. */
  predicate Steady(angles: seq<real>, n: nat, theta: real) {
    0 < n <= |angles| && forall i :: |angles| - n <= i < |angles| ==> angles[i] == theta
  }

  lemma {:induction false} SumConstant(n: nat, p: Point)
    ensures Sum(Filled(n, p)) == Point(n as real * p.x, n as real * p.y)
  {
    if n == 0 {
    } else {
      SumConstant(n - 1, p);
      SumNext(Filled(n, p), n - 1);
      assert Filled(n, p)[..n - 1] == Filled(n - 1, p) && Filled(n, p)[..n] == Filled(n, p);
      hide Sum;
      assert n as real * p.x == (n - 1) as real * p.x + p.x;
      assert n as real * p.y == (n - 1) as real * p.y + p.y;
    }
  }

  /** After n equal angles the mean is that angle's own unit vector. */
  lemma SteadyMean(angles: seq<real>, n: nat, theta: real, trig: Trig)
    requires Steady(angles, n, theta)
    ensures MeanVector(angles, n, trig) == Unit(theta, trig)
  {
    hide Sum, Window, Unit;
    WindowConstant(Units(angles, trig), n, Unit(theta, trig), ORIGIN);
    SumConstant(n, Unit(theta, trig));
  }

  /** The report of a steady angle, for every angle: the one in [0, 2 pi) that points the same way, and 0 for the
      half turn. No double is the exact half turn, so this exception belongs to the reals alone. */
  lemma SteadyReport(angles: seq<real>, n: nat, theta: real, trig: Trig)
    requires Steady(angles, n, theta) && trig.Lawful()
    ensures Report(angles, n, trig) == if trig.Reduced(theta) == trig.pi then 0.0 else trig.Reduced(theta)
  {
    var t, k := trig.Reduced(theta), (theta / trig.Turn()).Floor;
    assert trig.LawsAt(t);
    hide Square, Functions.Reduced, Functions.LawsAt, Times, MeanVector;
    ReducedInTurn(trig, theta);
    TurnsInvisible(trig, t, k);
    SteadyMean(angles, n, theta, trig);
    ZeroSines(trig);
    if t > trig.pi {
      LowerHalf(trig, t);
    }
  }

  /** A steady angle is reported back itself if and only if it lies in [0, 2 pi) and is not the half turn; its
      direction is reported if and only if it is not an odd multiple of the half turn. */
  lemma SteadyAngleExactly(angles: seq<real>, n: nat, theta: real, trig: Trig)
    requires Steady(angles, n, theta) && trig.Lawful()
    ensures Report(angles, n, trig) == theta <==> 0.0 <= theta < trig.Turn() && theta != trig.pi
    ensures trig.SameDirection(Report(angles, n, trig), theta) <==> !trig.SameDirection(theta, trig.pi)
  {
    var report := Report(angles, n, trig);
    SteadyReport(angles, n, theta, trig);
    ReducedInTurn(trig, theta);
    ReducedItself(trig, theta);
    ReducedItself(trig, trig.pi);
    ReducedItself(trig, report);
    hide Report, Functions.Reduced;
    SameDirectionExactly(trig, report, theta);
    SameDirectionExactly(trig, theta, trig.pi);
  }

  /** A negative angle above the negative half turn is reported one turn further on. */
  lemma NegativeAngleReported(angles: seq<real>, n: nat, theta: real, trig: Trig)
    requires Steady(angles, n, theta) && trig.Lawful() && -trig.pi < theta < 0.0
    ensures Report(angles, n, trig) == theta + trig.Turn() != theta
  {
    SteadyReport(angles, n, theta, trig);
    hide Report;
    NextTurn(trig, theta, 0);
    assert trig.SameDirection(theta + trig.Turn(), theta);
    hide Functions.Reduced;
    SameDirectionExactly(trig, theta + trig.Turn(), theta);
    ReducedItself(trig, theta + trig.Turn());
  }

  // ---------------------------------------------------------------- where the answer points

  /** The vector of length r in the direction t. */
  function Ray(r: real, t: real, trig: Trig): Point {
    Point(Times(r, trig.cos(t)), Times(r, trig.sin(t)))
  }

  ghost predicate PointsAlong(p: Point, t: real, trig: Trig) {
    exists r: real :: r > 0.0 && p == Ray(r, t, trig)
  }

  /** What the answer is, for every mean vector: off the axis, the angle on the same side of it with the mean cosine
      as its own cosine. */
  lemma ArcIs(p: Point, trig: Trig)
    requires trig.Lawful() && Norm2(p) <= 1.0
    ensures var t := ArcOf(p, trig);
      && (p.y > 0.0 ==> 0.0 < t < trig.pi && trig.sin(t) > 0.0)
      && (p.y < 0.0 ==> trig.pi < t < trig.Turn() && trig.sin(t) < 0.0)
      && (p.y == 0.0 ==> t == 0.0)
      && (p.y != 0.0 ==> trig.cos(t) == p.x && Square(p.x) + Square(trig.sin(t)) == 1.0)
  {
    hide Square;
    SquareZero(p.y);
    SquareNonNegative(p.y);
    CosineInDomain(p);
    var a := trig.acos(p.x);
    assert trig.ArcAt(p.x) && trig.LawsAt(a) && trig.LawsAt(-a);
    ZeroSines(trig);
    HalfTurnCosine(trig);
    if p.y != 0.0 {
      assert Square(p.x) < 1.0;
      assert Square(trig.sin(a)) > 0.0;
      SquareZero(trig.sin(a));
    }
    if p.y < 0.0 {
      SquareNegates(trig.sin(a));
      assert -a + trig.Turn() == ArcOf(p, trig);
    }
  }

  lemma CosineInDomain(p: Point)
    requires Norm2(p) <= 1.0
    ensures -1.0 <= p.x <= 1.0
  {
    SquareOfOne();
    hide Square;
    SquareNonNegative(p.y);
    SquareOrder(p.x, 1.0);
  }

  lemma SquareOfOne()
    ensures Square(1.0) == 1.0
  {
  }

  /** The answer points along the mean vector if and only if, off the axis, that vector has unit length or no x, and
      on the axis its x is positive. */
  lemma ArcPointsExactly(p: Point, trig: Trig)
    requires trig.Lawful() && Norm2(p) <= 1.0
    ensures PointsAlong(p, ArcOf(p, trig), trig) <==>
      (p.y != 0.0 && (Norm2(p) == 1.0 || p.x == 0.0)) || (p.y == 0.0 && p.x > 0.0)
  {
    hide Functions.Lawful, Square, Times, ArcOf;
    ArcIs(p, trig);
    ZeroAngle(trig);
    var t := ArcOf(p, trig);
    if p.y == 0.0 {
      TimesOne(p.x);
      assert p.x > 0.0 ==> p == Ray(p.x, t, trig);
      if PointsAlong(p, t, trig) {
        var r :| r > 0.0 && p == Ray(r, t, trig);
        TimesOne(r);
      }
    } else {
      RayLength(p, t, trig);
      if Norm2(p) == 1.0 || p.x == 0.0 {
        OffAxisPoints(p, t, trig);
      }
    }
  }

  lemma ZeroAngle(trig: Trig)
    requires trig.Lawful()
    ensures trig.cos(0.0) == 1.0 && trig.sin(0.0) == 0.0
  {
    ZeroSines(trig);
  }

  /** With the cosine equal to x, only a unit length or a zero x fits a ray. */
  lemma RayLength(p: Point, t: real, trig: Trig)
    requires trig.cos(t) == p.x && Square(p.x) + Square(trig.sin(t)) == 1.0
    ensures PointsAlong(p, t, trig) ==> Norm2(p) == 1.0 || p.x == 0.0
  {
    hide Square, Times;
    if PointsAlong(p, t, trig) && p.x != 0.0 {
      var r :| r > 0.0 && p == Ray(r, t, trig);
      TimesOne(p.x);
      TimesCancels(r, 1.0, p.x);
      TimesOne(trig.sin(t));
    }
  }

  lemma OffAxisPoints(p: Point, t: real, trig: Trig)
    requires trig.cos(t) == p.x && Square(p.x) + Square(trig.sin(t)) == 1.0
    requires p.y > 0.0 ==> trig.sin(t) > 0.0
    requires p.y < 0.0 ==> trig.sin(t) < 0.0
    requires p.y != 0.0 && (Norm2(p) == 1.0 || p.x == 0.0)
    ensures PointsAlong(p, t, trig)
  {
    hide Square, Times;
    var s := trig.sin(t);
    if p.x == 0.0 {
      SquareZero(0.0);
      SquareIsOne(s);
      var r := if p.y > 0.0 then p.y else -p.y;
      TimesOne(r);
      TimesNegates(r, 1.0);
      assert p == Ray(r, t, trig);
    } else {
      SquareNegates(p.y);
      SquareNegates(s);
      if p.y > 0.0 {
        SquareInjective(p.y, s);
      } else {
        SquareInjective(-p.y, -s);
      }
      TimesOne(p.x);
      TimesOne(s);
      assert p == Ray(1.0, t, trig);
    }
  }

  // ---------------------------------------------------------------- when the mean vector has unit length

  /** Only n equal unit vectors add up to a vector of length n. */
  lemma {:induction false} SumOnCircle(s: seq<Point>)
    requires |s| > 0 && forall i :: 0 <= i < |s| ==> Norm2(s[i]) <= 1.0
    requires Norm2(Sum(s)) == Square(|s| as real)
    ensures Norm2(s[0]) == 1.0 && forall i :: 0 <= i < |s| ==> s[i] == s[0]
  {
    hide Square, Times, Sum;
    var front, last := s[..|s| - 1], s[|s| - 1];
    var v, n := Sum(front), |front| as real;
    LastOnCircle(s);
    if |front| == 0 {
    } else {
      SumOnCircle(front);
      var u := front[0];
      assert front == Filled(|front|, u);
      SumConstant(|front|, u);
      InnerOfMultiple(v, n, u, last);
      UnitInner(u, last);
    }
  }

  /** Every inequality on the way to the bound is an equality. */
  lemma LastOnCircle(s: seq<Point>)
    requires |s| > 0 && forall i :: 0 <= i < |s| ==> Norm2(s[i]) <= 1.0
    requires Norm2(Sum(s)) == Square(|s| as real)
    ensures var v, last := Sum(s[..|s| - 1]), s[|s| - 1];
      && Norm2(v) == Square((|s| - 1) as real) && Norm2(last) == 1.0
      && Times(v.x, last.x) + Times(v.y, last.y) == (|s| - 1) as real
  {
    hide Square, Times, Sum;
    var front, last := s[..|s| - 1], s[|s| - 1];
    var v, n := Sum(front), |front| as real;
    SumNext(s, |s| - 1);
    assert s[..|s|] == s;
    SumInDisc(front);
    SquareSum(v.x, last.x);
    SquareSum(v.y, last.y);
    SquareSuccessor(n);
    assert |s| as real == n + 1.0;
    InnerBound(v.x, v.y, last.x, last.y, n);
  }

  lemma InnerOfMultiple(v: Point, n: real, u: Point, last: Point)
    requires n > 0.0 && v == Point(n * u.x, n * u.y) && Times(v.x, last.x) + Times(v.y, last.y) == n
    ensures Times(u.x, last.x) + Times(u.y, last.y) == 1.0
  {
    var inner := Times(u.x, last.x) + Times(u.y, last.y);
    assert Times(inner, n) == Times(1.0, n);
    TimesCancels(inner, 1.0, n);
  }

  lemma UnitInner(u: Point, v: Point)
    requires Norm2(u) == Norm2(v) == 1.0 && Times(u.x, v.x) + Times(u.y, v.y) == 1.0
    ensures u == v
  {
    hide Square, Times;
    SquareDifference(u.x, v.x);
    SquareDifference(u.y, v.y);
    SquareNonNegative(u.x - v.x);
    SquareNonNegative(u.y - v.y);
    SquareZero(u.x - v.x);
    SquareZero(u.y - v.y);
  }

  /** The ring is full, and the angles in it all point the same way. */
  ghost predicate Together(angles: seq<real>, n: nat, trig: Trig) {
    && |angles| >= n > 0
    && forall i :: |angles| - n <= i < |angles| ==> trig.SameDirection(angles[i], angles[|angles| - 1])
  }

  lemma MeanOnCircle(s: seq<Point>)
    requires |s| > 0 && forall i :: 0 <= i < |s| ==> Norm2(s[i]) <= 1.0
    ensures Norm2(Mean(s)) == 1.0 <==> Norm2(s[0]) == 1.0 && forall i :: 0 <= i < |s| ==> s[i] == s[0]
  {
    hide Sum, Square, Times;
    var n := |s| as real;
    RatioOnCircle(Sum(s).x, Sum(s).y, n);
    if Norm2(Mean(s)) == 1.0 {
      SumOnCircle(s);
    }
    if Norm2(s[0]) == 1.0 && forall i :: 0 <= i < |s| ==> s[i] == s[0] {
      assert s == Filled(|s|, s[0]);
      MeanConstant(|s|, s[0]);
    }
  }

  lemma MeanConstant(n: nat, p: Point)
    requires n > 0
    ensures Mean(Filled(n, p)) == p
  {
    hide Sum;
    SumConstant(n, p);
  }

  lemma RatioOnCircle(x: real, y: real, n: real)
    requires n > 0.0
    ensures Square(x / n) + Square(y / n) == 1.0 <==> Square(x) + Square(y) == Square(n)
  {
    SquareZero(n);
    hide Square, Times;
    SquareOfProduct(x / n, n);
    SquareOfProduct(y / n, n);
    TimesRatio(x, n);
    TimesRatio(y, n);
    var r := Square(x / n) + Square(y / n);
    TimesDistributes(Square(x / n), Square(y / n), Square(n));
    TimesOne(Square(n));
    if Square(x) + Square(y) == Square(n) {
      TimesCancels(r, 1.0, Square(n));
    }
  }

  /** The mean vector has unit length if and only if the ring is full of angles that all point the same way. */
  lemma MeanOnCircleExactly(angles: seq<real>, n: nat, trig: Trig)
    requires n > 0 && trig.Lawful()
    ensures Norm2(MeanVector(angles, n, trig)) == 1.0 <==> Together(angles, n, trig)
  {
    hide Norm2, Window, Unit, Functions.Lawful, Functions.SameDirection, Mean, Units;
    var w := Window(Units(angles, trig), n, ORIGIN);
    UnitsOnCircle(angles, trig);
    WindowInDisc(Units(angles, trig), n);
    MeanOnCircle(w);
    if |angles| < n {
      WindowAt(Units(angles, trig), n, ORIGIN);
      OriginLength();
    } else {
      FullWindow(angles, n, trig);
      TogetherIsConstant(angles, n, w, trig);
    }
  }

  lemma UnitsOnCircle(angles: seq<real>, trig: Trig)
    requires trig.Lawful()
    ensures forall i :: 0 <= i < |angles| ==> Norm2(Units(angles, trig)[i]) == 1.0
  {
    hide Norm2, Unit, Functions.Lawful;
    forall i | 0 <= i < |angles|
      ensures Norm2(Units(angles, trig)[i]) == 1.0
    {
      UnitInDisc(angles[i], trig);
    }
  }

  /** In a full ring, equal pairs are angles that point the same way, and all pairs lie on the circle. */
  lemma FullWindow(angles: seq<real>, n: nat, trig: Trig)
    requires 0 < n <= |angles| && trig.Lawful()
    ensures var w, d := Window(Units(angles, trig), n, ORIGIN), |angles| - n;
      && Norm2(w[0]) == 1.0
      && forall i :: d <= i < |angles| ==>
           (trig.SameDirection(angles[i], angles[|angles| - 1]) <==> w[i - d] == w[n - 1])
  {
    hide Norm2, Window, Unit, Functions.Lawful, Functions.SameDirection;
    var w, d := Window(Units(angles, trig), n, ORIGIN), |angles| - n;
    WindowAt(Units(angles, trig), n, ORIGIN);
    UnitsOnCircle(angles, trig);
    forall i | d <= i < |angles|
      ensures trig.SameDirection(angles[i], angles[|angles| - 1]) <==> w[i - d] == w[n - 1]
    {
      assert w[i - d] == Unit(angles[i], trig) && w[n - 1] == Unit(angles[|angles| - 1], trig);
      UnitsEqual(angles[i], angles[|angles| - 1], trig);
    }
  }

  lemma OriginLength()
    ensures Norm2(ORIGIN) == 0.0
  {
  }

  lemma UnitsEqual(a: real, b: real, trig: Trig)
    requires trig.Lawful()
    ensures Unit(a, trig) == Unit(b, trig) <==> trig.SameDirection(a, b)
  {
    SamePairExactly(trig, a, b);
  }

  lemma TogetherIsConstant(angles: seq<real>, n: nat, w: seq<Point>, trig: Trig)
    requires 0 < n <= |angles| && |w| == n
    requires forall i :: |angles| - n <= i < |angles| ==>
      (trig.SameDirection(angles[i], angles[|angles| - 1]) <==> w[i - (|angles| - n)] == w[n - 1])
    ensures Together(angles, n, trig) <==> forall i :: 0 <= i < n ==> w[i] == w[0]
  {
    hide Functions.SameDirection;
    var d := |angles| - n;
    if Together(angles, n, trig) {
      forall i | 0 <= i < n
        ensures w[i] == w[n - 1]
      {
        assert trig.SameDirection(angles[i + d], angles[|angles| - 1]);
      }
    }
  }

  /** Over every history: the answer points along the mean vector if and only if the ring is full of angles that all
      point the same way and are off the axis, or the mean vector lies on the y axis or the positive x axis. */
  lemma ReportPointsExactly(angles: seq<real>, n: nat, trig: Trig)
    requires n > 0 && trig.Lawful()
    ensures var p := MeanVector(angles, n, trig);
      PointsAlong(p, Report(angles, n, trig), trig) <==>
        (p.y != 0.0 && (Together(angles, n, trig) || p.x == 0.0)) || (p.y == 0.0 && p.x > 0.0)
  {
    hide Norm2, MeanVector, Functions.Lawful, Together, ArcOf, PointsAlong;
    MeanVectorInDisc(angles, n, trig);
    MeanOnCircleExactly(angles, n, trig);
    ArcPointsExactly(MeanVector(angles, n, trig), trig);
  }

  /** Over every history: what the answer is. */
  lemma ReportIs(angles: seq<real>, n: nat, trig: Trig)
    requires n > 0 && trig.Lawful()
    ensures var p, t := MeanVector(angles, n, trig), Report(angles, n, trig);
      && (p.y > 0.0 ==> 0.0 < t < trig.pi && trig.cos(t) == p.x)
      && (p.y < 0.0 ==> trig.pi < t < trig.Turn() && trig.cos(t) == p.x)
      && (p.y == 0.0 ==> t == 0.0)
  {
    hide MeanVector, Functions.Lawful, Square;
    MeanVectorInDisc(angles, n, trig);
    ArcIs(MeanVector(angles, n, trig), trig);
  }

  /** A vector points one way only. */
  lemma OneDirection(p: Point, t: real, u: real, trig: Trig)
    requires trig.Lawful() && PointsAlong(p, t, trig) && PointsAlong(p, u, trig)
    ensures trig.SameDirection(t, u)
  {
    hide Functions.Lawful, Functions.SameDirection, Square, Times;
    var q :| q > 0.0 && p == Ray(q, t, trig);
    var r :| r > 0.0 && p == Ray(r, u, trig);
    UnitInDisc(t, trig);
    UnitInDisc(u, trig);
    RaySquare(q, t, trig);
    RaySquare(r, u, trig);
    SquareInjective(q, r);
    TimesCommutes(q, trig.cos(t));
    TimesCommutes(q, trig.cos(u));
    TimesCommutes(q, trig.sin(t));
    TimesCommutes(q, trig.sin(u));
    TimesCancels(trig.cos(t), trig.cos(u), q);
    TimesCancels(trig.sin(t), trig.sin(u), q);
    SamePairExactly(trig, t, u);
  }

  lemma RaySquare(r: real, t: real, trig: Trig)
    requires Norm2(Unit(t, trig)) == 1.0
    ensures Norm2(Ray(r, t, trig)) == Square(r)
  {
    hide Square, Times;
    SquareOfProduct(r, trig.cos(t));
    SquareOfProduct(r, trig.sin(t));
    TimesCommutes(Square(r), Square(trig.cos(t)));
    TimesCommutes(Square(r), Square(trig.sin(t)));
    TimesDistributes(Square(trig.cos(t)), Square(trig.sin(t)), Square(r));
    TimesOne(Square(r));
  }

  lemma SameRay(p: Point, t: real, u: real, trig: Trig)
    requires trig.Lawful() && PointsAlong(p, t, trig) && trig.SameDirection(t, u)
    ensures PointsAlong(p, u, trig)
  {
    hide Functions.Lawful, Functions.SameDirection, Times;
    SamePairExactly(trig, t, u);
    var r :| r > 0.0 && p == Ray(r, t, trig);
    assert p == Ray(r, u, trig);
  }

  // ---------------------------------------------------------------- before the ring is full

  lemma SumConcat(s: seq<Point>, t: seq<Point>)
    ensures Sum(s + t) == Plus(Sum(s), Sum(t))
  {
    hide M.Sum;
    M.SumConcat(Xs(s), Xs(t));
    M.SumConcat(Ys(s), Ys(t));
    assert Xs(s + t) == Xs(s) + Xs(t) && Ys(s + t) == Ys(s) + Ys(t);
  }

  /** With k < n equal angles received, the mean vector has their direction and the length k / n. */
  lemma EarlyMean(angles: seq<real>, n: nat, theta: real, trig: Trig)
    requires 0 < |angles| < n && forall i :: 0 <= i < |angles| ==> angles[i] == theta
    ensures MeanVector(angles, n, trig) == Ray(|angles| as real / n as real, theta, trig)
  {
    hide Sum, Window;
    var k, u := |angles|, Unit(theta, trig);
    var empty, full := Filled(n - k, ORIGIN), Filled(k, u);
    assert Units(angles, trig) == full;
    WindowAt(full, n, ORIGIN);
    assert Window(full, n, ORIGIN) == empty + full;
    SumConcat(empty, full);
    SumConstant(n - k, ORIGIN);
    SumConstant(k, u);
    EarlyRatio(k as real, n as real, trig.cos(theta));
    EarlyRatio(k as real, n as real, trig.sin(theta));
  }

  lemma EarlyRatio(k: real, n: real, x: real)
    requires n > 0.0
    ensures k * x / n == Times(k / n, x)
  {
  }

  lemma RatioBetween(k: nat, n: nat)
    requires 0 < k < n
    ensures 0.0 < k as real / n as real < 1.0
  {
  }

  /** Before the ring is full, a steady angle off the axes is answered by another direction: the cosine of the answer
      is k / n of its own. The direction is right only on the y axis and on the positive x axis. */
  lemma EarlyReport(angles: seq<real>, n: nat, theta: real, trig: Trig)
    requires trig.Lawful()
    requires 0 < |angles| < n && forall i :: 0 <= i < |angles| ==> angles[i] == theta
    ensures var t := Report(angles, n, trig);
      && (trig.sin(theta) != 0.0 ==> trig.cos(t) == Times(|angles| as real / n as real, trig.cos(theta)))
      && (trig.SameDirection(t, theta) <==>
           if trig.sin(theta) != 0.0 then trig.cos(theta) == 0.0 else trig.cos(theta) > 0.0)
  {
    hide Functions.Lawful, Functions.SameDirection, MeanVector, Report, Times, Square;
    var p, t, q := MeanVector(angles, n, trig), Report(angles, n, trig), |angles| as real / n as real;
    RatioBetween(|angles|, n);
    EarlyMean(angles, n, theta, trig);
    assert PointsAlong(p, theta, trig);
    ReportIs(angles, n, trig);
    ReportPointsExactly(angles, n, trig);
    assert !Together(angles, n, trig);
    if PointsAlong(p, t, trig) {
      OneDirection(p, t, theta, trig);
    }
    if trig.SameDirection(t, theta) {
      SymmetricDirection(t, theta, trig);
      SameRay(p, theta, t, trig);
    }
    TimesSign(q, trig.cos(theta));
    TimesSign(q, trig.sin(theta));
  }

  lemma SymmetricDirection(a: real, b: real, trig: Trig)
    requires trig.SameDirection(a, b)
    ensures trig.SameDirection(b, a)
  {
    SameDirectionExactly(trig, a, b);
    SameDirectionExactly(trig, b, a);
  }

  lemma TimesSign(q: real, x: real)
    requires q > 0.0
    ensures Times(q, x) == 0.0 <==> x == 0.0
    ensures Times(q, x) > 0.0 <==> x > 0.0
  {
    if x > 0.0 {
      TimesPositive(q, x);
    } else if x < 0.0 {
      TimesPositive(q, -x);
      TimesNegates(q, x);
    }
  }

  // ---------------------------------------------------------------- angles that cancel

  /** The last 2 m inputs alternated between a and -a. */
  predicate Alternates(angles: seq<real>, m: nat, a: real) {
    && |angles| >= 2 * m > 0
    && forall i :: 0 <= i < 2 * m ==> angles[|angles| - 2 * m + i] == if i % 2 == 0 then a else -a
  }

  function Alternating(m: nat, a: real, trig: Trig): (s: seq<Point>)
    ensures |s| == 2 * m
  {
    seq(2 * m, i => Unit(if i % 2 == 0 then a else -a, trig))
  }

  lemma {:induction false} SumAlternating(m: nat, a: real, trig: Trig)
    requires trig.Lawful()
    ensures Sum(Alternating(m, a, trig)) == Point((2 * m) as real * trig.cos(a), 0.0)
  {
    if m == 0 {
      assert Alternating(0, a, trig) == [];
    } else {
      hide Sum, Unit, Functions.Lawful, Alternating;
      SumAlternating(m - 1, a, trig);
      NextPair(m, a, trig);
      OppositeUnits(a, trig);
      TwoMore(2 * m - 2, trig.cos(a));
    }
  }

  lemma NextPair(m: nat, a: real, trig: Trig)
    requires m > 0
    ensures Sum(Alternating(m, a, trig)) == Plus(Plus(Sum(Alternating(m - 1, a, trig)), Unit(a, trig)), Unit(-a, trig))
  {
    hide Sum, Unit;
    var s := Alternating(m, a, trig);
    assert s[..2 * m - 2] == Alternating(m - 1, a, trig) && s[..2 * m] == s;
    SumNext(s, 2 * m - 2);
    SumNext(s, 2 * m - 1);
  }

  lemma OppositeUnits(a: real, trig: Trig)
    requires trig.Lawful()
    ensures Unit(a, trig) == Point(trig.cos(a), trig.sin(a)) && Unit(-a, trig) == Point(trig.cos(a), -trig.sin(a))
  {
    hide Square;
    assert trig.LawsAt(a);
  }

  lemma TwoMore(n: nat, x: real)
    ensures (n + 2) as real * x == n as real * x + x + x
  {
  }

  /** Angles that alternate between a and -a cancel their sines: the answer is 0, although the mean vector points
      along the half turn when the cosine of a is negative. */
  lemma OppositeAnglesReported(angles: seq<real>, m: nat, a: real, trig: Trig)
    requires trig.Lawful() && Alternates(angles, m, a)
    ensures MeanVector(angles, 2 * m, trig) == Point(trig.cos(a), 0.0)
    ensures Report(angles, 2 * m, trig) == 0.0
    ensures trig.cos(a) < 0.0 ==>
      && PointsAlong(MeanVector(angles, 2 * m, trig), trig.pi, trig)
      && !trig.SameDirection(Report(angles, 2 * m, trig), trig.pi)
  {
    hide Functions.Lawful, Functions.SameDirection, Sum, Window, Unit, Times;
    AlternatingWindow(angles, m, a, trig);
    SumAlternating(m, a, trig);
    MeanOfMultiple((2 * m) as real, trig.cos(a));
    var c := trig.cos(a);
    ZeroSines(trig);
    HalfTurnCosine(trig);
    ZeroAngle(trig);
    SamePairExactly(trig, 0.0, trig.pi);
    if c < 0.0 {
      TimesOne(-c);
      TimesNegates(-c, 1.0);
      assert Point(c, 0.0) == Ray(-c, trig.pi, trig);
    }
  }

  lemma MeanOfMultiple(n: real, x: real)
    requires n > 0.0
    ensures n * x / n == x
  {
  }

  lemma AlternatingWindow(angles: seq<real>, m: nat, a: real, trig: Trig)
    requires Alternates(angles, m, a)
    ensures Window(Units(angles, trig), 2 * m, ORIGIN) == Alternating(m, a, trig)
  {
    hide Unit, Window;
    WindowAt(Units(angles, trig), 2 * m, ORIGIN);
  }
}
