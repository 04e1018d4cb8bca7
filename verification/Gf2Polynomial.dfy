/** Polynomials over GF(2), written as natural numbers: bit i is the coefficient of x^i.
    Every polynomial has exactly one such number, so equality of polynomials is `==`. */
module Gf2Polynomial {

  function Half(a: nat): (h: nat)
    ensures a > 0 ==> h < a
  {
    a / 2
  }

  predicate Odd(a: nat) {
    a % 2 == 1
  }

  /** The polynomial x * h, plus 1 when `odd`. */
  function Join(h: nat, odd: bool): nat {
    if odd then 2 * h + 1 else 2 * h
  }

  lemma SameHalves(a: nat, b: nat)
    requires Half(a) == Half(b) && Odd(a) == Odd(b)
    ensures a == b
  {
  }

  lemma Halves(h: nat, odd: bool)
    ensures Half(Join(h, odd)) == h && Odd(Join(h, odd)) == odd
  {
  }

  /** Addition of polynomials: exclusive or, coefficient by coefficient. */
  function Xor(a: nat, b: nat): nat
    decreases a + b
  {
    if a == 0 && b == 0 then 0 else Join(Xor(Half(a), Half(b)), Odd(a) != Odd(b))
  }

  /** Multiplication of polynomials, by the coefficients of the first factor. */
  function Mul(a: nat, b: nat): nat {
    if a == 0 then 0 else Xor(if Odd(a) then b else 0, Join(Mul(Half(a), b), false))
  }

  /** Multiplication by x^n. */
  function Shift(p: nat, n: nat): nat {
    if n == 0 then p else Join(Shift(p, n - 1), false)
  }

  ghost predicate Divides(g: nat, p: nat) {
    exists q: nat :: p == Mul(q, g)
  }

  /** p and r differ by a multiple of g. */
  ghost predicate Congruent(p: nat, r: nat, g: nat) {
    Divides(g, Xor(p, r))
  }

  // Addition

  lemma XorSplit(a: nat, b: nat)
    ensures Half(Xor(a, b)) == Xor(Half(a), Half(b))
    ensures Odd(Xor(a, b)) == (Odd(a) != Odd(b))
  {
  }

  lemma XorJoin(a: nat, i: bool, b: nat, j: bool)
    ensures Xor(Join(a, i), Join(b, j)) == Join(Xor(a, b), i != j)
  {
    hide *;
    Halves(a, i);
    Halves(b, j);
    Halves(Xor(a, b), i != j);
    XorSplit(Join(a, i), Join(b, j));
    SameHalves(Xor(Join(a, i), Join(b, j)), Join(Xor(a, b), i != j));
  }

  lemma {:induction false} XorZero(a: nat)
    ensures Xor(a, 0) == a == Xor(0, a)
  {
    if a == 0 {
    } else {
      XorZero(Half(a));
    }
  }

  lemma {:induction false} XorCommutes(a: nat, b: nat)
    ensures Xor(a, b) == Xor(b, a)
    decreases a + b
  {
    if a + b == 0 {
    } else {
      XorCommutes(Half(a), Half(b));
    }
  }

  lemma {:induction false} XorSelf(a: nat)
    ensures Xor(a, a) == 0
  {
    if a == 0 {
    } else {
      XorSelf(Half(a));
    }
  }

  lemma {:induction false} XorAssociates(a: nat, b: nat, c: nat)
    ensures Xor(Xor(a, b), c) == Xor(a, Xor(b, c))
    decreases a + b + c
  {
    if a + b + c == 0 {
    } else {
      assert Half(a) + Half(b) + Half(c) < a + b + c;
      hide *;
      XorAssociates(Half(a), Half(b), Half(c));
      XorSplit(a, b);
      XorSplit(b, c);
      XorSplit(Xor(a, b), c);
      XorSplit(a, Xor(b, c));
      SameHalves(Xor(Xor(a, b), c), Xor(a, Xor(b, c)));
    }
  }

  /** A sum is zero only when its terms are equal. */
  lemma XorIsZero(a: nat, b: nat)
    requires Xor(a, b) == 0
    ensures a == b
  {
    hide *;
    XorAssociates(a, b, b);
    XorSelf(b);
    XorZero(a);
    XorZero(b);
  }

  /** (a + b) + (c + d) == (a + c) + (b + d) */
  lemma XorSwap(a: nat, b: nat, c: nat, d: nat)
    ensures Xor(Xor(a, b), Xor(c, d)) == Xor(Xor(a, c), Xor(b, d))
  {
    hide *;
    XorAssociates(a, b, Xor(c, d));
    XorAssociates(b, c, d);
    XorCommutes(b, c);
    XorAssociates(c, b, d);
    XorAssociates(a, c, Xor(b, d));
  }

  /** The top exponent survives adding a polynomial of lower degree. */
  lemma {:induction false} XorKeepsDegree(a: nat, b: nat, n: nat)
    requires a < Shift(1, n) <= b
    ensures Xor(a, b) >= Shift(1, n)
  {
    if n == 0 {
      XorZero(b);
    } else {
      assert Half(a) < Shift(1, n - 1) <= Half(b);
      XorKeepsDegree(Half(a), Half(b), n - 1);
      XorSplit(a, b);
    }
  }

  lemma {:induction false} XorBound(a: nat, b: nat, n: nat)
    requires a < Shift(1, n) && b < Shift(1, n)
    ensures Xor(a, b) < Shift(1, n)
  {
    if n == 0 {
    } else {
      assert Half(a) < Shift(1, n - 1) && Half(b) < Shift(1, n - 1);
      XorBound(Half(a), Half(b), n - 1);
      XorSplit(a, b);
    }
  }

  // Shifts

  lemma {:induction false} ShiftXor(a: nat, b: nat, n: nat)
    ensures Xor(Shift(a, n), Shift(b, n)) == Shift(Xor(a, b), n)
  {
    if n == 0 {
    } else {
      ShiftXor(a, b, n - 1);
      XorJoin(Shift(a, n - 1), false, Shift(b, n - 1), false);
    }
  }

  lemma {:induction false} ShiftSum(p: nat, m: nat, n: nat)
    ensures Shift(Shift(p, m), n) == Shift(p, m + n)
  {
    if n == 0 {
    } else {
      ShiftSum(p, m, n - 1);
    }
  }

  lemma {:induction false} ShiftBound(a: nat, m: nat, n: nat)
    requires a < Shift(1, m)
    ensures Shift(a, n) < Shift(1, m + n)
  {
    if n == 0 {
    } else {
      ShiftBound(a, m, n - 1);
    }
  }

  /** Adding below the shifted part is arithmetic addition. */
  lemma {:induction false} XorBelowShift(a: nat, b: nat, n: nat)
    requires b < Shift(1, n)
    ensures Xor(Shift(a, n), b) == Shift(a, n) + b
  {
    if n == 0 {
      XorZero(a);
    } else {
      assert Half(b) < Shift(1, n - 1);
      XorBelowShift(a, Half(b), n - 1);
      assert b == Join(Half(b), Odd(b));
      XorJoin(Shift(a, n - 1), false, Half(b), Odd(b));
    }
  }

  // Multiplication

  lemma MulUnfold(a: nat, g: nat)
    ensures Mul(a, g) == Xor(if Odd(a) then g else 0, Join(Mul(Half(a), g), false))
  {
  }

  lemma {:induction false} MulDistributes(a: nat, b: nat, g: nat)
    ensures Mul(Xor(a, b), g) == Xor(Mul(a, g), Mul(b, g))
    decreases a + b
  {
    if a + b != 0 {
      assert Half(a) + Half(b) < a + b;
      hide *;
      MulDistributes(Half(a), Half(b), g);
      XorSplit(a, b);
      var ga, gb := if Odd(a) then g else 0, if Odd(b) then g else 0;
      var x, y := Mul(Half(a), g), Mul(Half(b), g);
      MulUnfold(a, g);
      MulUnfold(b, g);
      MulUnfold(Xor(a, b), g);
      XorSelf(g);
      XorZero(g);
      XorZero(0);
      XorJoin(x, false, y, false);
      XorSwap(ga, Join(x, false), gb, Join(y, false));
    } else {
      XorZero(0);
    }
  }

  lemma {:induction false} MulShift(a: nat, g: nat, n: nat)
    ensures Mul(Shift(a, n), g) == Shift(Mul(a, g), n)
  {
    if n == 0 {
    } else {
      MulShift(a, g, n - 1);
      Halves(Shift(a, n - 1), false);
      MulUnfold(Shift(a, n), g);
      XorZero(Join(Mul(Shift(a, n - 1), g), false));
    }
  }

  lemma {:induction false} MulShiftRight(a: nat, g: nat, n: nat)
    ensures Mul(a, Shift(g, n)) == Shift(Mul(a, g), n)
    decreases n
  {
    if n == 0 {
    } else {
      MulShiftRight(a, g, n - 1);
      MulDouble(a, Shift(g, n - 1));
    }
  }

  lemma {:induction false} MulDouble(a: nat, g: nat)
    ensures Mul(a, Join(g, false)) == Join(Mul(a, g), false)
  {
    if a == 0 {
    } else {
      MulDouble(Half(a), g);
      var c := if Odd(a) then g else 0;
      XorJoin(c, false, Join(Mul(Half(a), g), false), false);
    }
  }

  /** A non-zero multiple of g has at least the degree n of g. */
  lemma {:induction false} MultipleDegree(q: nat, g: nat, n: nat)
    requires q > 0 && Shift(1, n) <= g < Shift(1, n + 1)
    ensures Mul(q, g) >= Shift(1, n)
  {
    MulUnfold(q, g);
    if q == 1 {
      XorZero(g);
    } else {
      MultipleDegree(Half(q), g, n);
      XorKeepsDegree(if Odd(q) then g else 0, Join(Mul(Half(q), g), false), n + 1);
    }
  }

  // Congruence modulo g is an equivalence that respects addition and shifts.

  lemma CongruentSelf(p: nat, g: nat)
    ensures Congruent(p, p, g)
  {
    XorSelf(p);
    assert Mul(0, g) == 0;
  }

  lemma CongruentSum(p: nat, r: nat, p': nat, r': nat, g: nat)
    requires Congruent(p, r, g) && Congruent(p', r', g)
    ensures Congruent(Xor(p, p'), Xor(r, r'), g)
  {
    hide Xor, Mul;
    var q: nat :| Xor(p, r) == Mul(q, g);
    var q': nat :| Xor(p', r') == Mul(q', g);
    MulDistributes(q, q', g);
    XorSwap(p, r, p', r');
  }

  lemma CongruentSymmetric(p: nat, r: nat, g: nat)
    requires Congruent(p, r, g)
    ensures Congruent(r, p, g)
  {
    XorCommutes(p, r);
  }

  lemma CongruentTransitive(p: nat, r: nat, s: nat, g: nat)
    requires Congruent(p, r, g) && Congruent(r, s, g)
    ensures Congruent(p, s, g)
  {
    hide Xor, Mul;
    var q: nat :| Xor(p, r) == Mul(q, g);
    var q': nat :| Xor(r, s) == Mul(q', g);
    MulDistributes(q, q', g);
    XorAssociates(p, r, Xor(r, s));
    XorAssociates(r, r, s);
    XorSelf(r);
    XorZero(s);
  }

  lemma CongruentShift(p: nat, r: nat, g: nat, n: nat)
    requires Congruent(p, r, g)
    ensures Congruent(Shift(p, n), Shift(r, n), g)
  {
    hide Xor, Mul, Shift;
    var q: nat :| Xor(p, r) == Mul(q, g);
    ShiftXor(p, r, n);
    MulShift(q, g, n);
  }

  /** Adding the modulus does not change the class. */
  lemma CongruentModulus(p: nat, g: nat)
    ensures Congruent(p, Xor(p, g), g)
  {
    assert Mul(1, g) == Xor(g, 0);
    hide Xor, Mul;
    XorAssociates(p, p, g);
    XorSelf(p);
    XorZero(g);
  }

  /** Two residues below the degree of g that represent the same class are equal. */
  lemma ResidueUnique(p: nat, r: nat, s: nat, g: nat, n: nat)
    requires Shift(1, n) <= g < Shift(1, n + 1)
    requires r < Shift(1, n) && s < Shift(1, n)
    requires Congruent(p, r, g) && Congruent(p, s, g)
    ensures r == s
  {
    hide Xor, Shift;
    CongruentSymmetric(p, r, g);
    CongruentTransitive(r, p, s, g);
    var q: nat :| Xor(r, s) == Mul(q, g);
    XorBound(r, s, n);
    if q > 0 {
      MultipleDegree(q, g, n);
      assert false;
    }
    XorIsZero(r, s);
  }
}
