/** What is assumed of sine, cosine and arc cosine, and what whole turns do to an angle. */
module Trigonometry {
  import opened RealArithmetic

  datatype Functions = Functions(sin: real -> real, cos: real -> real, acos: real -> real, pi: real)
  {
    /** The laws at one angle: unit circle, parity, period, a positive sine in the upper half plane, and an arc
        cosine that inverts the cosine there. */
    ghost predicate LawsAt(t: real) {
      && Square(cos(t)) + Square(sin(t)) == 1.0
      && sin(-t) == -sin(t) && cos(-t) == cos(t)
      && sin(t + Turn()) == sin(t) && cos(t + Turn()) == cos(t)
      && (0.0 < t < pi ==> sin(t) > 0.0)
      && (0.0 <= t <= pi ==> acos(cos(t)) == t)
    }

    /** The arc cosine of x in [-1, 1] lies in [0, pi] and has x as its cosine. */
    ghost predicate ArcAt(x: real) {
      -1.0 <= x <= 1.0 ==> 0.0 <= acos(x) <= pi && cos(acos(x)) == x
    }

    ghost predicate Lawful() {
      && cos(0.0) == 1.0
      && (forall t :: LawsAt(t))
      && (forall x :: ArcAt(x))
    }

    function Turn(): real {
      2.0 * pi
    }

    /** The angle k whole turns further on. */
    function Turned(t: real, k: int): real {
      t + Times(k as real, Turn())
    }

    /** The angle in [0, 2 pi) that points the same way. */
    function Reduced(t: real): real
      requires pi > 0.0
    {
      Turned(t, -(t / Turn()).Floor)
    }

    /** a and b differ by whole turns. */
    ghost predicate SameDirection(a: real, b: real) {
      exists k: int :: a == Turned(b, k)
    }
  }

  type Trig = f: Functions | f.pi > 0.0 witness Functions(_ => 0.0, _ => 1.0, _ => 0.0, 3.0)

  lemma NextTurn(trig: Trig, t: real, k: int)
    ensures trig.Turned(t, k + 1) == trig.Turned(t, k) + trig.Turn()
    ensures trig.Turned(t, 0) == t
    ensures trig.Turned(trig.Turned(t, k), -k) == t
  {
    hide Functions.Turn;
    TimesDistributes(k as real, -1.0, trig.Turn());
    TimesNegates(1.0, trig.Turn());
    TimesNegates(k as real, trig.Turn());
    TimesOne(trig.Turn());
  }

  /** Sine and cosine do not see whole turns. */
  lemma {:induction false} TurnsInvisible(trig: Trig, t: real, k: int)
    requires trig.Lawful()
    ensures trig.sin(trig.Turned(t, k)) == trig.sin(t) && trig.cos(trig.Turned(t, k)) == trig.cos(t)
    decreases if k >= 0 then k else -k
  {
    hide Functions.Turn, Functions.Turned, Times, Square;
    NextTurn(trig, t, k);
    if k == 0 {
    } else if k > 0 {
      TurnsInvisible(trig, t, k - 1);
      NextTurn(trig, t, k - 1);
      assert trig.LawsAt(trig.Turned(t, k - 1));
    } else {
      TurnsInvisible(trig, t, k + 1);
      assert trig.LawsAt(trig.Turned(t, k));
    }
  }

  lemma ReducedInTurn(trig: Trig, t: real)
    ensures 0.0 <= trig.Reduced(t) < trig.Turn()
    ensures trig.SameDirection(trig.Reduced(t), t)
    ensures t == trig.Turned(trig.Reduced(t), (t / trig.Turn()).Floor)
  {
    var turn := trig.Turn();
    var k := (t / turn).Floor;
    hide Times;
    TimesRatio(t, turn);
    TimesMonotone(k as real, t / turn, turn);
    TimesStrict(t / turn, k as real + 1.0, turn);
    TimesDistributes(k as real, 1.0, turn);
    TimesOne(turn);
    TimesNegates(k as real, turn);
    NextTurn(trig, t, -k);
    assert trig.Reduced(t) == trig.Turned(t, -k);
  }

  /** Within one turn, the same direction is the same angle. */
  lemma OneTurn(trig: Trig, a: real, b: real, k: int)
    requires 0.0 <= a < trig.Turn() && 0.0 <= b < trig.Turn() && a == trig.Turned(b, k)
    ensures a == b
  {
    var turn := trig.Turn();
    hide Times;
    TimesOne(turn);
    TimesNegates(1.0, turn);
    if k >= 1 {
      TimesMonotone(1.0, k as real, turn);
      assert false;
    }
    if k <= -1 {
      TimesMonotone(k as real, -1.0, turn);
      assert false;
    }
  }

  lemma TurnsAdd(trig: Trig, t: real, j: int, k: int)
    ensures trig.Turned(trig.Turned(t, j), k) == trig.Turned(t, j + k)
  {
    hide Functions.Turn;
    TimesDistributes(j as real, -(k as real), trig.Turn());
    TimesNegates(k as real, trig.Turn());
  }

  /** Two angles point the same way exactly when their reduced angles are equal. */
  lemma SameDirectionExactly(trig: Trig, a: real, b: real)
    ensures trig.SameDirection(a, b) <==> trig.Reduced(a) == trig.Reduced(b)
  {
    ReducedInTurn(trig, a);
    ReducedInTurn(trig, b);
    var i, j := (a / trig.Turn()).Floor, (b / trig.Turn()).Floor;
    hide Functions.Turn, Functions.Turned, Functions.Reduced;
    NextTurn(trig, trig.Reduced(b), j);
    if trig.Reduced(a) == trig.Reduced(b) {
      TurnsAdd(trig, b, -j, i);
    }
    if trig.SameDirection(a, b) {
      var k: int :| a == trig.Turned(b, k);
      NextTurn(trig, trig.Reduced(a), i);
      TurnsAdd(trig, trig.Reduced(b), j, k);
      TurnsAdd(trig, trig.Reduced(b), j + k, -i);
      OneTurn(trig, trig.Reduced(a), trig.Reduced(b), j + k - i);
    }
  }

  /** An angle within one turn is its own reduction. */
  lemma ReducedItself(trig: Trig, t: real)
    ensures trig.Reduced(t) == t <==> 0.0 <= t < trig.Turn()
  {
    ReducedInTurn(trig, t);
    hide Functions.Reduced;
    if 0.0 <= t < trig.Turn() {
      OneTurn(trig, t, trig.Reduced(t), (t / trig.Turn()).Floor);
    }
  }

  /** The half turn has no sine, and neither has the angle zero. */
  lemma ZeroSines(trig: Trig)
    requires trig.Lawful()
    ensures trig.sin(0.0) == 0.0 && trig.sin(trig.pi) == 0.0
  {
    hide Square;
    assert trig.LawsAt(0.0) && trig.LawsAt(-trig.pi);
    assert -trig.pi + trig.Turn() == trig.pi && -(-trig.pi) == trig.pi && -0.0 == 0.0;
  }

  /** Beyond the half turn the sine is negative and the cosine is that of the angle mirrored. */
  lemma LowerHalf(trig: Trig, t: real)
    requires trig.Lawful() && trig.pi < t < trig.Turn()
    ensures trig.sin(t) < 0.0 && trig.acos(trig.cos(t)) == trig.Turn() - t
  {
    hide Square;
    var mirrored := trig.Turn() - t;
    assert trig.LawsAt(mirrored) && trig.LawsAt(-mirrored);
    assert -mirrored + trig.Turn() == t;
  }

  /** An angle within one turn is determined by its cosine and the sign of its sine. */
  lemma AngleFromPair(trig: Trig, t: real)
    requires trig.Lawful() && 0.0 <= t < trig.Turn()
    ensures t == if trig.sin(t) < 0.0 then trig.Turn() - trig.acos(trig.cos(t)) else trig.acos(trig.cos(t))
  {
    hide Square;
    ZeroSines(trig);
    assert trig.LawsAt(t);
    if t > trig.pi {
      LowerHalf(trig, t);
    }
  }

  /** Two angles have the same cosine and sine exactly when they point the same way. */
  lemma SamePairExactly(trig: Trig, a: real, b: real)
    requires trig.Lawful()
    ensures trig.cos(a) == trig.cos(b) && trig.sin(a) == trig.sin(b) <==> trig.SameDirection(a, b)
  {
    hide Functions.Lawful, Functions.Reduced, Functions.Turned, Functions.SameDirection;
    var i, j := (a / trig.Turn()).Floor, (b / trig.Turn()).Floor;
    ReducedInTurn(trig, a);
    ReducedInTurn(trig, b);
    TurnsInvisible(trig, trig.Reduced(a), i);
    TurnsInvisible(trig, trig.Reduced(b), j);
    AngleFromPair(trig, trig.Reduced(a));
    AngleFromPair(trig, trig.Reduced(b));
    SameDirectionExactly(trig, a, b);
  }

  lemma HalfTurnCosine(trig: Trig)
    requires trig.Lawful()
    ensures trig.cos(trig.pi) == -1.0
  {
    hide Square;
    ZeroSines(trig);
    SquareZero(0.0);
    assert trig.LawsAt(0.0) && trig.LawsAt(trig.pi);
    SquareIsOne(trig.cos(trig.pi));
  }
}
