/** Products of reals under a name, so that proofs can use their laws one at a time. */
module RealArithmetic {

  function Times(x: real, y: real): real {
    x * y
  }

  function Square(x: real): real {
    Times(x, x)
  }

  lemma TimesOne(x: real)
    ensures Times(x, 1.0) == x == Times(1.0, x) && Times(x, 0.0) == 0.0 == Times(0.0, x)
  {
  }

  lemma TimesCommutes(x: real, y: real)
    ensures Times(x, y) == Times(y, x)
  {
  }

  lemma TimesDistributes(x: real, y: real, z: real)
    ensures Times(x + y, z) == Times(x, z) + Times(y, z)
    ensures Times(x - y, z) == Times(x, z) - Times(y, z)
  {
  }

  lemma TimesNegates(x: real, y: real)
    ensures Times(-x, y) == -Times(x, y) == Times(x, -y)
  {
  }

  lemma TimesPositive(x: real, y: real)
    requires x > 0.0 && y > 0.0
    ensures Times(x, y) > 0.0
  {
  }

  lemma TimesNonNegative(x: real, y: real)
    requires x >= 0.0 && y >= 0.0
    ensures Times(x, y) >= 0.0
  {
  }

  lemma TimesMonotone(x: real, y: real, z: real)
    requires x <= y && z >= 0.0
    ensures Times(x, z) <= Times(y, z)
  {
    TimesDistributes(y, x, z);
    TimesNonNegative(y - x, z);
  }

  lemma TimesStrict(x: real, y: real, z: real)
    requires x < y && z > 0.0
    ensures Times(x, z) < Times(y, z)
  {
    TimesDistributes(y, x, z);
    TimesPositive(y - x, z);
  }

  lemma TimesRatio(x: real, y: real)
    requires y != 0.0
    ensures Times(x / y, y) == x
  {
  }

  lemma SquareNonNegative(x: real)
    ensures Square(x) >= 0.0
  {
  }

  /** (x + y)^2 */
  lemma SquareSum(x: real, y: real)
    ensures Square(x + y) == Square(x) + 2.0 * Times(x, y) + Square(y)
  {
  }

  lemma SquareOfProduct(x: real, y: real)
    ensures Square(Times(x, y)) == Times(Square(x), Square(y))
  {
  }

  lemma SquareIncreases(x: real, y: real)
    requires 0.0 <= x < y
    ensures Square(x) < Square(y)
  {
    hide Times;
    TimesMonotone(x, y, x);
    TimesStrict(x, y, y);
    TimesCommutes(x, y);
  }

  /** Order of squares is order of magnitudes. */
  lemma SquareOrder(x: real, y: real)
    requires y >= 0.0 && Square(x) <= Square(y)
    ensures -y <= x <= y
  {
    TimesNegates(x, -x);
    TimesNegates(x, x);
    assert Square(-x) == Square(x);
    hide Square;
    if x > y {
      SquareIncreases(y, x);
    } else if -x > y {
      SquareIncreases(y, -x);
    }
  }

  lemma SquareZero(x: real)
    ensures Square(x) == 0.0 <==> x == 0.0
    ensures Square(x) > 0.0 <==> x != 0.0
  {
    if x > 0.0 {
      TimesPositive(x, x);
    } else if x < 0.0 {
      TimesPositive(-x, -x);
      SquareNegates(x);
    }
  }

  lemma SquareNegates(x: real)
    ensures Square(-x) == Square(x)
  {
  }

  /** (x - y)^2 */
  lemma SquareDifference(x: real, y: real)
    ensures Square(x - y) == Square(x) - 2.0 * Times(x, y) + Square(y)
  {
  }

  /** A non-negative number is determined by its square. */
  lemma SquareInjective(x: real, y: real)
    requires x >= 0.0 && y >= 0.0 && Square(x) == Square(y)
    ensures x == y
  {
    hide Square, Times;
    SquareOrder(x, y);
    SquareOrder(y, x);
  }

  lemma SquareIsOne(x: real)
    requires Square(x) == 1.0
    ensures x == 1.0 || x == -1.0
  {
    SquareNegates(x);
    TimesOne(1.0);
    if x >= 0.0 {
      SquareInjective(x, 1.0);
    } else {
      SquareInjective(-x, 1.0);
    }
  }

  lemma TimesCancels(x: real, y: real, z: real)
    requires z != 0.0 && Times(x, z) == Times(y, z)
    ensures x == y
  {
    assert Times(x - y, z) == 0.0;
  }
}
