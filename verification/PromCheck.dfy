/** The check that MS5837 initialisation applies to the calibration PROM, and the errors it detects. */
module PromCheck {
  import opened Gf2Polynomial
  import opened Crc4

  /** Number of data bits: seven words without the check nibble at the top of word 0. */
  const DATA_BITS: nat := 108

  /** The stored nibble is the remainder computed over the rest of the image. */
  ghost predicate CrcMatches(words: seq<bv16>)
    requires |words| == 8
  {
    IsRemainder(Shift(Image(Masked(words)[..7]), 12), Poly(TopNibbleOf(words[0])))
  }

  /** The comparison made after the seven words have been read. */
  method CheckProm(prom: array<bv16>) returns (accepted: bool)
    requires prom.Length == 8
    modifies prom
    ensures accepted <==> CrcMatches(old(prom[..]))
    ensures prom[..] == Masked(old(prom[..]))
  {
    ghost var words := prom[..];
    var crcRead := prom[0] >> 12;
    var crcCalculated := CRC4(prom);
    hide *;
    accepted := crcCalculated == crcRead;
    assert prom[..7] == prom[..][..7];
    CrcMatchesExactly(words, crcCalculated);
  }

  lemma CrcMatchesExactly(words: seq<bv16>, crc: bv16)
    requires |words| == 8
    requires IsRemainder(Shift(Image(Masked(words)[..7]), 12), Poly(crc))
    ensures CrcMatches(words) <==> crc == words[0] >> 12
  {
    hide Image, Poly, Shift, IsRemainder;
    if CrcMatches(words) {
      RemainderUnique(Shift(Image(Masked(words)[..7]), 12), Poly(crc), Poly(TopNibbleOf(words[0])));
      PolyInjective(crc, TopNibbleOf(words[0]));
    }
  }

  lemma {:induction false} PolyPositive(x: bv16)
    requires x != 0
    ensures Poly(x) != 0
  {
    if LowBit(x) {
    } else {
      EvenDown(x);
      PolyPositive(Down(x));
    }
  }

  lemma EvenDown(x: bv16)
    requires x != 0 && !LowBit(x)
    ensures 0 != Down(x) < x
  {
  }

  lemma PolyInjective(x: bv16, y: bv16)
    requires Poly(x) == Poly(y)
    ensures x == y
  {
    PolyFlip(x, y);
    XorSelf(Poly(x));
    if Flip(x, y) != 0 {
      PolyPositive(Flip(x, y));
    }
    FlipZero(x, y);
  }

  lemma FlipZero(x: bv16, y: bv16)
    ensures Flip(x, y) == 0 ==> x == y
  {
  }

  // ---------------------------------------------------------------- the check as a linear code

  /** p without its coefficients at x^n and above. */
  function Low(p: nat, n: nat): nat {
    Xor(p, Shift(High(p, n), n))
  }

  /** The polynomial that the modulus has to divide for an image to pass: the data times x^12, plus the nibble. */
  function CodeWord(image: nat): nat {
    Xor(Shift(Low(image, DATA_BITS), 12), High(image, DATA_BITS))
  }

  lemma {:induction false} HighXor(a: nat, b: nat, n: nat)
    ensures High(Xor(a, b), n) == Xor(High(a, n), High(b, n))
  {
    if n == 0 {
    } else {
      HighXor(a, b, n - 1);
      XorSplit(High(a, n - 1), High(b, n - 1));
    }
  }

  lemma CodeWordXor(a: nat, b: nat)
    ensures CodeWord(Xor(a, b)) == Xor(CodeWord(a), CodeWord(b))
  {
    hide Xor, High, Shift;
    var n := DATA_BITS;
    HighXor(a, b, n);
    ShiftXor(High(a, n), High(b, n), n);
    XorSwap(a, b, Shift(High(a, n), n), Shift(High(b, n), n));
    assert Low(Xor(a, b), n) == Xor(Low(a, n), Low(b, n));
    ShiftXor(Low(a, n), Low(b, n), 12);
    XorSwap(Shift(Low(a, n), 12), Shift(Low(b, n), 12), High(a, n), High(b, n));
  }

  lemma {:induction false} ImageFront(w: bv16, rest: seq<bv16>)
    ensures Image([w] + rest) == Xor(Shift(Poly(w), 16 * |rest|), Image(rest))
  {
    hide *;
    var all := [w] + rest;
    ImageLast(all);
    if |rest| == 0 {
      assert all == [w] && all[..0] == [] == rest;
      EmptyImage();
      ShiftNothing(Poly(w));
      ShiftZero(16);
      XorZero(Poly(w));
    } else {
      var init, last := rest[..|rest| - 1], rest[|rest| - 1];
      ImageFront(w, init);
      ImageLast(rest);
      assert all[..|all| - 1] == [w] + init;
      ShiftXor(Shift(Poly(w), 16 * |init|), Image(init), 16);
      ShiftSum(Poly(w), 16 * |init|, 16);
      assert 16 * |init| + 16 == 16 * |rest|;
      XorAssociates(Shift(Poly(w), 16 * |rest|), Shift(Image(init), 16), Poly(last));
    }
  }

  lemma {:induction false} ShiftZero(n: nat)
    ensures Shift(0, n) == 0
  {
    if n == 0 {
    } else {
      ShiftZero(n - 1);
    }
  }

  lemma {:induction false} ShiftMonotone(m: nat, n: nat)
    requires m <= n
    ensures Shift(1, m) <= Shift(1, n)
    decreases n - m
  {
    if m == n {
    } else {
      ShiftMonotone(m + 1, n);
    }
  }

  lemma ShiftNothing(p: nat)
    ensures Shift(p, 0) == p
  {
  }

  lemma EmptyImage()
    ensures Image([]) == 0 && Shift(1, 0) == 1
  {
  }

  lemma ImageLast(words: seq<bv16>)
    requires words != []
    ensures Image(words) == Xor(Shift(Image(words[..|words| - 1]), 16), Poly(words[|words| - 1]))
  {
    hide Xor, Shift, Poly;
  }

  lemma {:induction false} ImageBound(words: seq<bv16>)
    ensures Image(words) < Shift(1, 16 * |words|)
  {
    hide *;
    if |words| != 0 {
      var init, last := words[..|words| - 1], words[|words| - 1];
      ImageBound(init);
      ImageLast(words);
      ShiftBound(Image(init), 16 * |init|, 16);
      PolyBound(last);
      ShiftMonotone(16, 16 * |words|);
      XorBound(Shift(Image(init), 16), Poly(last), 16 * |words|);
    } else {
      EmptyImage();
    }
  }

  function Raised(nibble: bv16): bv16 {
    nibble << 12
  }

  lemma RaisedPoly(nibble: bv16)
    requires nibble < 0x10
    ensures Poly(Raised(nibble)) == Shift(Poly(nibble), 12)
  {
    PolyShiftLeft(nibble);
    hide Poly;
  }

  lemma ClearTopBound(w: bv16)
    ensures Poly(ClearTop(w)) < Shift(1, 12)
  {
    NibbleAndRest(w);
    hide ClearTop, Poly;
    PolyBound(ClearTop(w));
  }

  lemma NibbleAndRest(w: bv16)
    ensures Flip(Raised(TopNibbleOf(w)), ClearTop(w)) == w && TopNibbleOf(w) < 0x10 && ClearTop(w) < 0x1000
  {
  }

  /** The image splits into the check nibble, at x^108 and above, and the masked image below. */
  lemma ImageSplit(words: seq<bv16>)
    requires |words| == 8
    ensures High(Image(words[..7]), DATA_BITS) == Poly(TopNibbleOf(words[0]))
    ensures Low(Image(words[..7]), DATA_BITS) == Image(Masked(words)[..7])
  {
    var w, rest := words[0], words[1..7];
    hide *;
    DataBits();
    FrontWord(words);
    ImageFront(w, rest);
    ImageFront(ClearTop(w), rest);
    ImageBound(rest);
    ImageSplitPoly(w, Image(rest));
    DataBelowNibble(w, Image(rest));
    HighLow(Poly(TopNibbleOf(w)), Image([ClearTop(w)] + rest), DATA_BITS);
  }

  lemma DataBits()
    ensures DATA_BITS == 108
  {
  }

  lemma FrontWord(words: seq<bv16>)
    requires |words| == 8
    ensures words[..7] == [words[0]] + words[1..7] && Masked(words)[..7] == [ClearTop(words[0])] + words[1..7]
  {
    hide ClearTop;
  }

  lemma DataBelowNibble(w: bv16, rest: nat)
    requires rest < Shift(1, 96)
    ensures Xor(Shift(Poly(ClearTop(w)), 96), rest) < Shift(1, DATA_BITS)
  {
    hide *;
    DataBits();
    ClearTopBound(w);
    ShiftBound(Poly(ClearTop(w)), 12, 96);
    ShiftMonotone(96, 108);
    XorBound(Shift(Poly(ClearTop(w)), 96), rest, 108);
  }

  lemma HighLow(c: nat, d: nat, n: nat)
    requires d < Shift(1, n)
    ensures High(Xor(Shift(c, n), d), n) == c && Low(Xor(Shift(c, n), d), n) == d
  {
    hide Xor, Shift, High;
    HighOfShift(c, d, n);
    XorCommutes(Shift(c, n), d);
    XorAssociates(d, Shift(c, n), Shift(c, n));
    XorSelf(Shift(c, n));
    XorZero(d);
  }

  lemma ImageSplitPoly(w: bv16, rest: nat)
    ensures Xor(Shift(Poly(w), 96), rest)
         == Xor(Shift(Poly(TopNibbleOf(w)), 108), Xor(Shift(Poly(ClearTop(w)), 96), rest))
  {
    hide *;
    NibbleAndRest(w);
    RaisedPoly(TopNibbleOf(w));
    PolyFlip(Raised(TopNibbleOf(w)), ClearTop(w));
    ShiftXor(Shift(Poly(TopNibbleOf(w)), 12), Poly(ClearTop(w)), 96);
    ShiftSum(Poly(TopNibbleOf(w)), 12, 96);
    XorAssociates(Shift(Poly(TopNibbleOf(w)), 108), Shift(Poly(ClearTop(w)), 96), rest);
  }

  /** An image passes exactly when x^4 + x + 1 divides its code word. */
  lemma AcceptedIffDivides(words: seq<bv16>)
    requires |words| == 8
    ensures CrcMatches(words) <==> Divides(MODULUS, CodeWord(Image(words[..7])))
  {
    hide Xor, Shift, Image, High, Low, Mul, Poly;
    ImageSplit(words);
    PolyBound(TopNibbleOf(words[0]));
    TopFourBits(words[0]);
    ModulusFacts();
  }

  lemma DividesSum(g: nat, a: nat, b: nat)
    requires Divides(g, a)
    ensures Divides(g, Xor(a, b)) <==> Divides(g, b)
  {
    hide Xor, Mul;
    var q: nat :| a == Mul(q, g);
    if Divides(g, b) {
      var r: nat :| b == Mul(r, g);
      MulDistributes(q, r, g);
    }
    if Divides(g, Xor(a, b)) {
      var r: nat :| Xor(a, b) == Mul(r, g);
      MulDistributes(q, r, g);
      XorAssociates(a, a, b);
      XorSelf(a);
      XorZero(b);
    }
  }

  // ---------------------------------------------------------------- divisibility by x^4 + x + 1

  lemma OddMul(q: nat, g: nat)
    requires Odd(g)
    ensures Odd(Mul(q, g)) == Odd(q)
    ensures !Odd(q) ==> Half(Mul(q, g)) == Mul(Half(q), g)
  {
    var tail := Join(Mul(Half(q), g), false);
    MulUnfold(q, g);
    hide Mul, Xor;
    Halves(Mul(Half(q), g), false);
    XorSplit(if Odd(q) then g else 0, tail);
    XorZero(tail);
  }

  /** x has no common factor with an odd polynomial. */
  lemma {:induction false} DividesShift(g: nat, p: nat, n: nat)
    requires Odd(g)
    ensures Divides(g, Shift(p, n)) <==> Divides(g, p)
  {
    if n == 0 {
    } else {
      DividesShift(g, p, n - 1);
      var s := Shift(p, n - 1);
      Halves(s, false);
      hide Mul, Shift;
      assert Shift(p, n) == Join(s, false);
      if Divides(g, s) {
        var q: nat :| s == Mul(q, g);
        MulShift(q, g, 1);
        ShiftOnce(q);
        ShiftOnce(s);
        assert Shift(p, n) == Mul(Shift(q, 1), g);
      }
      if Divides(g, Shift(p, n)) {
        var q: nat :| Shift(p, n) == Mul(q, g);
        OddMul(q, g);
        assert s == Mul(Half(q), g);
      }
    }
  }

  lemma ShiftOnce(p: nat)
    ensures Shift(p, 1) == Join(p, false)
  {
  }

  lemma SmallNotDivisible(b: nat)
    requires 0 < b < 16
    ensures !Divides(MODULUS, b)
  {
    if Divides(MODULUS, b) {
      var q: nat :| b == Mul(q, MODULUS);
      ModulusFacts();
      assert q != 0;
      MultipleDegree(q, MODULUS, 4);
      assert false;
    }
  }

  const POWERS: seq<nat> := [1, 2, 4, 8, 3, 6, 12, 11, 5, 10, 7, 14, 15, 13, 9]

  lemma ReducedDoubles()
    ensures Xor(16, MODULUS) == 3 && Xor(24, MODULUS) == 11 && Xor(22, MODULUS) == 5 && Xor(20, MODULUS) == 7
    ensures Xor(28, MODULUS) == 15 && Xor(30, MODULUS) == 13 && Xor(26, MODULUS) == 9 && Xor(18, MODULUS) == 1
  {
    assert Join(Join(Join(2, false), true), true) == MODULUS;
    SmallXor(2, false, false);
    SmallXor(2, false, true);
    SmallXor(2, true, false);
    SmallXor(2, true, true);
    SmallXor(3, false, false);
    SmallXor(3, false, true);
    SmallXor(3, true, false);
    SmallXor(3, true, true);
  }

  /** The four-step sum of x^3 * h + ... + 0 with the modulus, x^3 * 2 + x + 1. */
  lemma SmallXor(h: nat, i: bool, j: bool)
    requires h == 2 || h == 3
    ensures Xor(Join(Join(Join(h, i), j), false), Join(Join(Join(2, false), true), true)) ==
      Join(Join(Join(h - 2, i), !j), true)
  {
    assert Xor(h, 2) == h - 2;
    hide *;
    XorJoin(h, i, 2, false);
    XorJoin(Join(h, i), j, Join(2, false), true);
    XorJoin(Join(Join(h, i), j), false, Join(Join(2, false), true), true);
  }

  lemma PowersStep(i: nat)
    requires i < 15
    ensures POWERS[if i == 14 then 0 else i + 1] ==
      if POWERS[i] < 8 then 2 * POWERS[i] else Xor(2 * POWERS[i], MODULUS)
    ensures POWERS[i] == 1 <==> i == 0
    ensures POWERS[i] < 16
  {
    hide Xor;
    ReducedDoubles();
  }

  /** x^k leaves one of fifteen remainders, in a cycle. */
  lemma {:induction false} PowerRemainder(k: nat)
    ensures IsRemainder(Shift(1, k), POWERS[k % 15])
  {
    if k == 0 {
      CongruentSelf(1, MODULUS);
    } else {
      PowerRemainder(k - 1);
      NextIndex(k);
      assert Shift(1, k) == Join(Shift(1, k - 1), false);
      hide Shift, Xor, Congruent;
      PowersStep((k - 1) % 15);
      PowersStep(k % 15);
      ShiftOnce(Shift(1, k - 1));
      PowerTimesX(Shift(1, k - 1), POWERS[(k - 1) % 15], POWERS[k % 15]);
    }
  }

  lemma NextIndex(k: nat)
    requires k > 0
    ensures k % 15 == if (k - 1) % 15 == 14 then 0 else (k - 1) % 15 + 1
  {
  }

  lemma PowerTimesX(p: nat, r: nat, s: nat)
    requires Congruent(p, r, MODULUS)
    requires s == if r < 8 then 2 * r else Xor(2 * r, MODULUS)
    ensures Congruent(Shift(p, 1), s, MODULUS)
  {
    ShiftOnce(r);
    hide Xor, Shift, Congruent;
    CongruentShift(p, r, MODULUS, 1);
    if r >= 8 {
      CongruentModulus(2 * r, MODULUS);
      CongruentTransitive(Shift(p, 1), 2 * r, s, MODULUS);
    }
  }

  /** x has order 15: x^i + x^j is divisible exactly when 15 divides the distance. */
  lemma TwoPowers(i: nat, j: nat)
    requires i < j
    ensures Divides(MODULUS, Xor(Shift(1, i), Shift(1, j))) <==> (j - i) % 15 == 0
  {
    hide Xor, Shift;
    var d := j - i;
    PowerRemainder(d);
    PowersStep(d % 15);
    ShiftXor(1, Shift(1, d), i);
    ShiftSum(1, d, i);
    DividesShift(MODULUS, Xor(1, Shift(1, d)), i);
    XorCommutes(1, Shift(1, d));
    assert Congruent(Shift(1, d), 1, MODULUS) <==> Divides(MODULUS, Xor(1, Shift(1, d)));
    if Congruent(Shift(1, d), 1, MODULUS) {
      RemainderUnique(Shift(1, d), 1, POWERS[d % 15]);
    }
  }

  // ---------------------------------------------------------------- detected errors

  /** x^120 is 1, because 15 divides 120: moving a polynomial by 120 places does not change its class. */
  lemma {:induction false} CyclicShift(p: nat)
    ensures Congruent(Shift(p, 120), p, MODULUS)
  {
    hide *;
    if p == 0 {
      ShiftZero(120);
      CongruentSelf(0, MODULUS);
    } else {
      var h, low := Half(p), if Odd(p) then 1 else 0;
      HalfLess(p);
      CyclicShift(h);
      CongruentShift(Shift(h, 120), h, MODULUS, 1);
      ShiftSum(h, 120, 1);
      ShiftSum(h, 1, 120);
      LowTerm(low);
      CongruentSum(Shift(h, 121), Shift(h, 1), Shift(low, 120), low, MODULUS);
      ShiftXor(Shift(h, 1), low, 120);
      HalfAndLow(p);
    }
  }

  lemma LowTerm(low: nat)
    requires low <= 1
    ensures Congruent(Shift(low, 120), low, MODULUS)
  {
    hide Shift, Congruent;
    if low == 1 {
      PowerRemainder(120);
    } else {
      ShiftZero(120);
      CongruentSelf(0, MODULUS);
    }
  }

  lemma HalfLess(p: nat)
    requires p > 0
    ensures Half(p) < p
  {
  }

  lemma HalfAndLow(p: nat)
    ensures Xor(Shift(Half(p), 1), if Odd(p) then 1 else 0) == p
  {
    var h := Half(p);
    ShiftOnce(h);
    XorZero(h);
    hide Xor, Shift;
    XorJoin(h, false, 0, Odd(p));
    SameHalves(Join(h, Odd(p)), p);
  }

  /** The code word is the image moved by twelve places, round a cycle of 120. */
  lemma CodeWordCyclic(image: nat)
    ensures Congruent(Shift(image, 12), CodeWord(image), MODULUS)
  {
    hide *;
    DataBits();
    var low, high := Low(image, DATA_BITS), High(image, DATA_BITS);
    LowAndHigh(image);
    ShiftXor(low, Shift(high, 108), 12);
    ShiftSum(high, 108, 12);
    CyclicShift(high);
    CongruentSelf(Shift(low, 12), MODULUS);
    CongruentSum(Shift(low, 12), Shift(low, 12), Shift(high, 120), high, MODULUS);
  }

  lemma LowAndHigh(image: nat)
    ensures Xor(Low(image, DATA_BITS), Shift(High(image, DATA_BITS), DATA_BITS)) == image
    ensures CodeWord(image) == Xor(Shift(Low(image, DATA_BITS), 12), High(image, DATA_BITS))
  {
    hide Xor, Shift, High;
    var top := Shift(High(image, DATA_BITS), DATA_BITS);
    XorAssociates(image, top, top);
    XorSelf(top);
    XorZero(image);
  }

  lemma CongruentDivides(p: nat, r: nat, g: nat)
    requires Congruent(p, r, g)
    ensures Divides(g, p) <==> Divides(g, r)
  {
    hide Divides, Xor;
    XorCommutes(p, r);
    XorAssociates(p, p, r);
    XorSelf(p);
    XorZero(r);
    XorAssociates(r, r, p);
    XorSelf(r);
    XorZero(p);
    if Divides(g, p) {
      DividesSum(g, p, Xor(p, r));
    }
    if Divides(g, r) {
      DividesSum(g, r, Xor(p, r));
    }
  }

  /** Whether a changed image passes depends only on the change, nibble included: it passes exactly when the modulus
      divides the change. */
  lemma ErrorDecides(words: seq<bv16>, words': seq<bv16>, error: nat)
    requires |words| == |words'| == 8 && CrcMatches(words)
    requires Image(words'[..7]) == Xor(Image(words[..7]), error)
    ensures CrcMatches(words') <==> Divides(MODULUS, error)
  {
    assert Odd(MODULUS);
    hide *;
    AcceptedIffDivides(words);
    AcceptedIffDivides(words');
    CodeWordXor(Image(words[..7]), error);
    DividesSum(MODULUS, CodeWord(Image(words[..7])), CodeWord(error));
    CodeWordCyclic(error);
    CongruentDivides(Shift(error, 12), CodeWord(error), MODULUS);
    DividesShift(MODULUS, error, 12);
  }

  /** A non-zero burst of at most four bits is always rejected, wherever it starts. */
  lemma BurstRejected(words: seq<bv16>, words': seq<bv16>, burst: nat, k: nat)
    requires |words| == |words'| == 8 && CrcMatches(words)
    requires 0 < burst < 16 && Image(words'[..7]) == Xor(Image(words[..7]), Shift(burst, k))
    ensures !CrcMatches(words')
  {
    assert Odd(MODULUS);
    hide *;
    ErrorDecides(words, words', Shift(burst, k));
    DividesShift(MODULUS, burst, k);
    SmallNotDivisible(burst);
  }

  /** So is a single changed bit. */
  lemma SingleBitRejected(words: seq<bv16>, words': seq<bv16>, k: nat)
    requires |words| == |words'| == 8 && CrcMatches(words)
    requires Image(words'[..7]) == Xor(Image(words[..7]), Shift(1, k))
    ensures !CrcMatches(words')
  {
    hide *;
    BurstRejected(words, words', 1, k);
  }

  /** Two changed bits pass exactly when their distance is a multiple of 15. */
  lemma DoubleBitExactly(words: seq<bv16>, words': seq<bv16>, i: nat, j: nat)
    requires |words| == |words'| == 8 && CrcMatches(words)
    requires i < j && Image(words'[..7]) == Xor(Image(words[..7]), Xor(Shift(1, i), Shift(1, j)))
    ensures CrcMatches(words') <==> (j - i) % 15 == 0
  {
    hide *;
    ErrorDecides(words, words', Xor(Shift(1, i), Shift(1, j)));
    TwoPowers(i, j);
  }
}
