/** The period of the CRC register: how far apart two flipped bits must be to cancel. */
module CrcPeriod {
  import opened Arithmetic
  import opened Crc16

  // The register as a polynomial ------------------------------------------------------------

  /** A polynomial over two elements, modulo x^16 + x^12 + x^5 + 1. */
  datatype Poly = Poly(
    c15: bool, c14: bool, c13: bool, c12: bool, c11: bool, c10: bool, c9: bool, c8: bool,
    c7: bool, c6: bool, c5: bool, c4: bool, c3: bool, c2: bool, c1: bool, c0: bool)

  /** Coefficients written as four hexadecimal digits. */
  function Hex(a: nat, b: nat, c: nat, d: nat): Poly {
    Poly(a >= 8, a % 8 >= 4, a % 4 >= 2, a % 2 == 1, b >= 8, b % 8 >= 4, b % 4 >= 2, b % 2 == 1,
         c >= 8, c % 8 >= 4, c % 4 >= 2, c % 2 == 1, d >= 8, d % 8 >= 4, d % 4 >= 2, d % 2 == 1)
  }

  function TimesX(p: Poly): Poly {
    Poly(p.c14, p.c13, p.c12, p.c11 != p.c15, p.c10, p.c9, p.c8, p.c7,
         p.c6, p.c5, p.c4 != p.c15, p.c3, p.c2, p.c1, p.c0, p.c15)
  }

  /** The register holds the highest power first. */
  function OfReg(r: Reg): Poly {
    Poly(r[0], r[1], r[2], r[3], r[4], r[5], r[6], r[7], r[8], r[9], r[10], r[11], r[12], r[13], r[14], r[15])
  }

  lemma Listed(r: Reg)
    ensures r == [r[0], r[1], r[2], r[3], r[4], r[5], r[6], r[7], r[8], r[9], r[10], r[11], r[12], r[13], r[14], r[15]]
  {
  }

  lemma SameReg(r: Reg, s: Reg)
    requires OfReg(r) == OfReg(s)
    ensures r == s
  {
    Listed(r);
    Listed(s);
  }

  /** A step of the register multiplies by x. */
  lemma StepIsTimesX(r: Reg)
    ensures OfReg(RegStep(r)) == TimesX(OfReg(r))
  {
  }

  /** x^n */
  function X(n: nat): Poly {
    if n == 0 then Hex(0x0, 0x0, 0x0, 0x1) else TimesX(X(n - 1))
  }

  lemma {:induction false} StepsAreTimesX(r: Reg, m: nat, n: nat)
    requires OfReg(r) == X(m)
    ensures OfReg(RegSteps(r, n)) == X(m + n)
  {
    if n > 0 {
      StepsAreTimesX(r, m, n - 1);
      StepIsTimesX(RegSteps(r, n - 1));
    }
  }

  lemma TimesXInjective(p: Poly, q: Poly)
    ensures TimesX(p) == TimesX(q) <==> p == q
  {
  }

  lemma {:induction false} Shift(a: nat, b: nat, n: nat)
    ensures X(a + n) == X(b + n) <==> X(a) == X(b)
  {
    if n > 0 {
      Shift(a, b, n - 1);
      TimesXInjective(X(a + n - 1), X(b + n - 1));
    }
  }

  // Squaring ---------------------------------------------------------------------------------

  /** The square has the same coefficients at twice the powers; those from x^16 up
      are reduced. */
  function Square(p: Poly): Poly {
    Poly(
      p.c13,
      (((p.c7 != p.c9) != p.c11) != p.c13),
      p.c12,
      (((p.c6 != p.c8) != p.c10) != p.c12),
      ((p.c11 != p.c13) != p.c15),
      ((p.c5 != p.c13) != p.c15),
      ((p.c10 != p.c12) != p.c14),
      (((p.c4 != p.c12) != p.c14) != p.c15),
      (((p.c9 != p.c11) != p.c13) != p.c15),
      ((((p.c3 != p.c11) != p.c13) != p.c14) != p.c15),
      (((p.c8 != p.c10) != p.c12) != p.c14),
      (((p.c2 != p.c10) != p.c12) != p.c14),
      p.c15,
      ((((p.c1 != p.c9) != p.c11) != p.c13) != p.c15),
      p.c14,
      ((((p.c0 != p.c8) != p.c10) != p.c12) != p.c14)
    )
  }

  lemma SquareStep12(p: Poly)
    ensures var s, t := Square(TimesX(p)), TimesX(TimesX(Square(p)));
      s.c15 == t.c15 && s.c14 == t.c14 && s.c13 == t.c13 && s.c12 == t.c12
  {
  }

  lemma SquareStep8(p: Poly)
    ensures var s, t := Square(TimesX(p)), TimesX(TimesX(Square(p)));
      s.c11 == t.c11 && s.c10 == t.c10 && s.c9 == t.c9 && s.c8 == t.c8
  {
  }

  lemma SquareStep4(p: Poly)
    ensures var s, t := Square(TimesX(p)), TimesX(TimesX(Square(p)));
      s.c7 == t.c7 && s.c6 == t.c6 && s.c5 == t.c5 && s.c4 == t.c4
  {
  }

  lemma SquareStep0(p: Poly)
    ensures var s, t := Square(TimesX(p)), TimesX(TimesX(Square(p)));
      s.c3 == t.c3 && s.c2 == t.c2 && s.c1 == t.c1 && s.c0 == t.c0
  {
  }

  /** Squaring multiplies by x twice where the original multiplies once. */
  lemma SquareStep(p: Poly)
    ensures Square(TimesX(p)) == TimesX(TimesX(Square(p)))
  {
    SquareStep12(p);
    SquareStep8(p);
    SquareStep4(p);
    SquareStep0(p);
  }

  lemma {:induction false} SquareDoubles(n: nat)
    ensures Square(X(n)) == X(2 * n)
  {
    if n > 0 {
      SquareDoubles(n - 1);
      SquareStep(X(n - 1));
      assert X(2 * n) == TimesX(X(2 * n - 1)) && X(2 * n - 1) == TimesX(X(2 * n - 2));
    }
  }

  function Raised(p: Poly, odd: bool): Poly {
    if odd then TimesX(Square(p)) else Square(p)
  }

  /** x^n is `p`, kept out of the way of the evaluation of `p`. */
  ghost predicate IsPower(n: nat, p: Poly) {
    forall k: nat :: k == n ==> X(k) == p
  }

  /** From x^(n / 2) to x^n. */
  lemma Climb(n: nat, half: Poly, whole: Poly)
    requires IsPower(n / 2, half) && whole == Raised(half, n % 2 == 1)
    ensures IsPower(n, whole)
  {
    SquareDoubles(n / 2);
    assert X(n / 2) == half;
  }

  // Four powers by repeated squaring. The exponents are given by quotient and remainder, so
  // that the verifier does not unroll them.

  lemma Power1(n: nat)
    requires n == 1
    ensures IsPower(n, Hex(0x0, 0x0, 0x0, 0x2))
  {
  }

  lemma Power15(n: nat)
    requires n / 5 == 3 && n % 5 == 0
    ensures IsPower(n, Hex(0x8, 0x0, 0x0, 0x0))
  {
    Power1(n / 8);
    Climb(n / 4, Hex(0x0, 0x0, 0x0, 0x2), Hex(0x0, 0x0, 0x0, 0x8));
    Climb(n / 2, Hex(0x0, 0x0, 0x0, 0x8), Hex(0x0, 0x0, 0x8, 0x0));
    Climb(n, Hex(0x0, 0x0, 0x8, 0x0), Hex(0x8, 0x0, 0x0, 0x0));
  }

  lemma Power13(n: nat)
    requires n / 4 == 3 && n % 4 == 1
    ensures IsPower(n, Hex(0x2, 0x0, 0x0, 0x0))
  {
    Power1(n / 8);
    Climb(n / 4, Hex(0x0, 0x0, 0x0, 0x2), Hex(0x0, 0x0, 0x0, 0x8));
    Climb(n / 2, Hex(0x0, 0x0, 0x0, 0x8), Hex(0x0, 0x0, 0x4, 0x0));
    Climb(n, Hex(0x0, 0x0, 0x4, 0x0), Hex(0x2, 0x0, 0x0, 0x0));
  }

  lemma Power217(n: nat)
    requires n / 31 == 7 && n % 31 == 0
    ensures IsPower(n, Hex(0x4, 0x8, 0xE, 0x3))
  {
    Power13(n / 16);
    Climb(n / 8, Hex(0x2, 0x0, 0x0, 0x0), Hex(0x8, 0x9, 0xA, 0x9));
    Climb(n / 4, Hex(0x8, 0x9, 0xA, 0x9), Hex(0x1, 0x1, 0x6, 0x8));
    Climb(n / 2, Hex(0x1, 0x1, 0x6, 0x8), Hex(0x3, 0x7, 0x5, 0x0));
    Climb(n, Hex(0x3, 0x7, 0x5, 0x0), Hex(0x4, 0x8, 0xE, 0x3));
  }

  lemma Power16(n: nat)
    requires n / 4 == 4 && n % 4 == 0
    ensures IsPower(n, Hex(0x1, 0x0, 0x2, 0x1))
  {
    Power1(n / 16);
    Climb(n / 8, Hex(0x0, 0x0, 0x0, 0x2), Hex(0x0, 0x0, 0x0, 0x4));
    Climb(n / 4, Hex(0x0, 0x0, 0x0, 0x4), Hex(0x0, 0x0, 0x1, 0x0));
    Climb(n / 2, Hex(0x0, 0x0, 0x1, 0x0), Hex(0x0, 0x1, 0x0, 0x0));
    Climb(n, Hex(0x0, 0x1, 0x0, 0x0), Hex(0x1, 0x0, 0x2, 0x1));
  }

  lemma Power132(n: nat)
    requires n / 11 == 12 && n % 11 == 0
    ensures IsPower(n, Hex(0x4, 0xE, 0x8, 0xA))
  {
    Power16(n / 8);
    Climb(n / 4, Hex(0x1, 0x0, 0x2, 0x1), Hex(0x6, 0xE, 0x6, 0x0));
    Climb(n / 2, Hex(0x6, 0xE, 0x6, 0x0), Hex(0xC, 0x1, 0xC, 0x6));
    Climb(n, Hex(0xC, 0x1, 0xC, 0x6), Hex(0x4, 0xE, 0x8, 0xA));
  }

  lemma Power1057(n: nat)
    requires n / 151 == 7 && n % 151 == 0
    ensures IsPower(n, Hex(0xF, 0x2, 0xA, 0xF))
  {
    Power132(n / 8);
    Climb(n / 4, Hex(0x4, 0xE, 0x8, 0xA), Hex(0x5, 0x9, 0x4, 0x6));
    Climb(n / 2, Hex(0x5, 0x9, 0x4, 0x6), Hex(0x7, 0x8, 0xB, 0x3));
    Climb(n, Hex(0x7, 0x8, 0xB, 0x3), Hex(0xF, 0x2, 0xA, 0xF));
  }

  lemma Power9(n: nat)
    requires n / 4 == 2 && n % 4 == 1
    ensures IsPower(n, Hex(0x0, 0x2, 0x0, 0x0))
  {
    Power1(n / 8);
    Climb(n / 4, Hex(0x0, 0x0, 0x0, 0x2), Hex(0x0, 0x0, 0x0, 0x4));
    Climb(n / 2, Hex(0x0, 0x0, 0x0, 0x4), Hex(0x0, 0x0, 0x1, 0x0));
    Climb(n, Hex(0x0, 0x0, 0x1, 0x0), Hex(0x0, 0x2, 0x0, 0x0));
  }

  lemma Power146(n: nat)
    requires n / 73 == 2 && n % 73 == 0
    ensures IsPower(n, Hex(0x4, 0x3, 0x8, 0x8))
  {
    Power9(n / 16);
    Climb(n / 8, Hex(0x0, 0x2, 0x0, 0x0), Hex(0x4, 0x0, 0x8, 0x4));
    Climb(n / 4, Hex(0x4, 0x0, 0x8, 0x4), Hex(0x4, 0x3, 0x6, 0x3));
    Climb(n / 2, Hex(0x4, 0x3, 0x6, 0x3), Hex(0x8, 0xF, 0xA, 0x6));
    Climb(n, Hex(0x8, 0xF, 0xA, 0x6), Hex(0x4, 0x3, 0x8, 0x8));
  }

  lemma Power1170(n: nat)
    requires n / 117 == 10 && n % 117 == 0
    ensures IsPower(n, Hex(0x0, 0x1, 0x6, 0x3))
  {
    Power146(n / 8);
    Climb(n / 4, Hex(0x4, 0x3, 0x8, 0x8), Hex(0x1, 0x3, 0x9, 0x6));
    Climb(n / 2, Hex(0x1, 0x3, 0x9, 0x6), Hex(0x4, 0x5, 0x0, 0x0));
    Climb(n, Hex(0x4, 0x5, 0x0, 0x0), Hex(0x0, 0x1, 0x6, 0x3));
  }

  lemma Power4681(n: nat)
    requires n / 151 == 31 && n % 151 == 0
    ensures IsPower(n, Hex(0x2, 0xC, 0x4, 0x2))
  {
    Power1170(n / 4);
    Climb(n / 2, Hex(0x0, 0x1, 0x6, 0x3), Hex(0x0, 0x4, 0x2, 0x4));
    Climb(n, Hex(0x0, 0x4, 0x2, 0x4), Hex(0x2, 0xC, 0x4, 0x2));
  }

  lemma Power256(n: nat)
    requires n / 16 == 16 && n % 16 == 0
    ensures IsPower(n, Hex(0x8, 0xE, 0x2, 0x9))
  {
    Power16(n / 16);
    Climb(n / 8, Hex(0x1, 0x0, 0x2, 0x1), Hex(0x3, 0x7, 0x3, 0x0));
    Climb(n / 4, Hex(0x3, 0x7, 0x3, 0x0), Hex(0xB, 0x8, 0x6, 0x1));
    Climb(n / 2, Hex(0xB, 0x8, 0x6, 0x1), Hex(0xA, 0xE, 0xF, 0xC));
    Climb(n, Hex(0xA, 0xE, 0xF, 0xC), Hex(0x8, 0xE, 0x2, 0x9));
  }

  lemma Power4096(n: nat)
    requires n / 64 == 64 && n % 64 == 0
    ensures IsPower(n, Hex(0xA, 0xA, 0x9, 0xE))
  {
    Power256(n / 16);
    Climb(n / 8, Hex(0x8, 0xE, 0x2, 0x9), Hex(0x1, 0x3, 0xF, 0xC));
    Climb(n / 4, Hex(0x1, 0x3, 0xF, 0xC), Hex(0x3, 0x6, 0xC, 0x4));
    Climb(n / 2, Hex(0x3, 0x6, 0xC, 0x4), Hex(0xF, 0xD, 0x5, 0x0));
    Climb(n, Hex(0xF, 0xD, 0x5, 0x0), Hex(0xA, 0xA, 0x9, 0xE));
  }

  lemma Power32768(n: nat)
    requires n / 256 == 128 && n % 256 == 0
    ensures IsPower(n, Hex(0x0, 0x0, 0x0, 0x2))
  {
    Power4096(n / 8);
    Climb(n / 4, Hex(0xA, 0xA, 0x9, 0xE), Hex(0x8, 0x8, 0x1, 0xC));
    Climb(n / 2, Hex(0x8, 0x8, 0x1, 0xC), Hex(0x4, 0x4, 0x5, 0x8));
    Climb(n, Hex(0x4, 0x4, 0x5, 0x8), Hex(0x0, 0x0, 0x0, 0x2));
  }

  // The period ------------------------------------------------------------------------------

  const PERIOD := 32767 // 7 * 31 * 151

  predicate IsPeriod(n: nat) {
    n / 217 == 151 && n % 217 == 0
  }

  /** n steps bring the register back to where it was, from wherever it started. */
  ghost predicate ComesRound(n: nat) {
    forall m: nat, k: nat :: k == m + n ==> X(k) == X(m)
  }

  lemma RoundFrom(n: nat, d: nat)
    ensures X(n + d) == X(n) <==> ComesRound(d)
  {
    if X(n + d) == X(n) {
      forall m: nat, k: nat | k == m + d ensures X(k) == X(m) {
        Shift(d, 0, n);
        Shift(d, 0, m);
        assert X(d + n) == X(n + d) && X(0 + n) == X(n) && X(d + m) == X(k) && X(0 + m) == X(m);
      }
    }
  }

  lemma RoundAgain(a: nat, b: nat)
    requires ComesRound(a)
    ensures ComesRound(a + b) <==> ComesRound(b)
  {
    RoundFrom(a, b);
    RoundFrom(0, a + b);
    assert X(0 + a) == X(0) && X(0 + (a + b)) == X(a + b);
  }

  lemma {:induction false} RoundTimes(a: nat, k: nat)
    requires ComesRound(a)
    ensures ComesRound(a * k)
  {
    if k == 0 {
      RoundFrom(0, 0);
    } else {
      var b := a * (k - 1);
      assert a * k == a + b by { Distribute(k, 1, a); }
      RoundTimes(a, k - 1);
      RoundAgain(a, b);
    }
  }

  lemma FullTurn(n: nat)
    requires IsPeriod(n)
    ensures ComesRound(n)
  {
    Power32768(1 + n);
    Power1(1);
    SamePower(1, n, Hex(0x0, 0x0, 0x0, 0x2));
  }

  lemma SamePower(m: nat, n: nat, p: Poly)
    requires IsPower(m, p) && IsPower(m + n, p)
    ensures ComesRound(n)
  {
    assert X(m + n) == X(m);
    RoundFrom(m, n);
  }

  lemma NotRound(n: nat, p: Poly)
    requires IsPower(n, p) && p != Hex(0x0, 0x0, 0x0, 0x1)
    ensures !ComesRound(n)
  {
    RoundFrom(0, n);
    assert X(0 + n) == X(n) == p;
  }

  lemma NoSmallerTurn(a: nat, b: nat, c: nat)
    requires a / 31 == 7 && a % 31 == 0 && b / 151 == 7 && b % 151 == 0 && c / 151 == 31 && c % 151 == 0
    ensures !ComesRound(a) && !ComesRound(b) && !ComesRound(c)
  {
    Power217(a);
    NotRound(a, Hex(0x4, 0x8, 0xE, 0x3));
    Power1057(b);
    NotRound(b, Hex(0xF, 0x2, 0xA, 0xF));
    Power4681(c);
    NotRound(c, Hex(0x2, 0xC, 0x4, 0x2));
  }

  // Numbers below a prime have inverses -------------------------------------------------------

  lemma SmallFactor(p: nat, r: nat)
    requires p == 7 || p == 31 || p == 151
    requires 2 <= r <= 12 && r < p
    ensures p % r != 0
  {
    assert r == 2 || r == 3 || r == 4 || r == 5 || r == 6 || r == 7
        || r == 8 || r == 9 || r == 10 || r == 11 || r == 12;
  }

  lemma IsPrime(p: nat, r: nat)
    requires p == 7 || p == 31 || p == 151
    requires 2 <= r < p
    ensures p % r != 0
  {
    var k := p / r;
    assert p == r * k + p % r;
    if r <= 12 {
      SmallFactor(p, r);
    } else if p % r == 0 {
      OtherFactor(p, r, k);
      QuotientAndRemainder(p, k, r, 0);
      SmallFactor(p, k);
    }
  }

  /** Of two factors the smaller is at most twelve. */
  lemma OtherFactor(p: nat, r: nat, k: nat)
    requires p == r * k && p <= 151 && r > 12
    ensures k <= 12
  {
    if k > 12 {
      ProductGrows(13, r, k);
    }
  }

  /** By Euclid's division: p == m * r + s, and s has an inverse already. */
  lemma {:induction false} Inverse(r: nat, p: nat) returns (j: nat, q: nat)
    requires (p == 7 || p == 31 || p == 151) && 0 < r < p
    ensures r * j == p * q + 1
    decreases r
  {
    if r == 1 {
      j, q := 1, 0;
    } else {
      var m, s := p / r, p % r;
      IsPrime(p, r);
      var i, t := Inverse(s, p);
      j, q := CarryInverse(r, p, m, s, i, t);
    }
  }

  lemma CarryInverse(r: nat, p: nat, m: nat, s: nat, i: nat, t: nat) returns (j: nat, q: nat)
    requires p == r * m + s && s * i == p * t + 1 && r > 0
    ensures r * j == p * q + 1
  {
    // r * ((p - m) * i) == r * (p * i) - (p - s) * i
    ProductGrows(1, r, m);
    ProductGrows(1, r, i);
    j, q := (p - m) * i, r * i - i + t;
    Distribute(p, m, i);
    Distribute(p * i, m * i, r);
    Associate(r, m, i);
    Distribute(p, s, i);
    Associate(p, i, r);
    Distribute(r * i - i, t, p);
    Distribute(r * i, i, p);
    Commute(r, j);
    Commute(p, q);
    Commute(r, m * i);
    Commute(i, r);
    Commute(p, r * i);
    Commute(p, i);
    Commute(p, t);
  }

  lemma Commute(a: int, b: int)
    ensures a * b == b * a
  {
  }

  // The period ---------------------------------------------------------------------------------

  /** A turn that is no multiple of the prime p would make PERIOD / p one as well. */
  lemma MultipleOf(d: nat, p: nat, rest: nat, full: nat)
    requires ComesRound(d) && !ComesRound(rest) && IsPeriod(full)
    requires (p == 7 || p == 31 || p == 151) && p * rest == full
    ensures d % p == 0
  {
    if d % p != 0 {
      var k, turns := LandsOn(d, p, rest);
      RoundTimes(d, k);
      FullTurn(full);
      RoundTimes(full, turns);
      RoundAgain(full * turns, rest);
    }
  }

  lemma LandsOn(d: nat, p: nat, rest: nat) returns (k: nat, turns: nat)
    requires (p == 7 || p == 31 || p == 151) && d % p != 0
    ensures d * k == (p * rest) * turns + rest
  {
    var m, r := d / p, d % p;
    var j, q := Inverse(r, p);
    k, turns := j * rest, m * j + q;
    Products(d, p, m, r, j, q, rest);
  }

  lemma Products(d: nat, p: nat, m: nat, r: nat, j: nat, q: nat, rest: nat)
    requires d == p * m + r && r * j == p * q + 1
    ensures d * (j * rest) == (p * rest) * (m * j + q) + rest
  {
    var t := m * j + q;
    Distribute(p * m, r, j);
    Associate(p, m, j);
    Distribute(m * j, q, p);
    Commute(p, m * j);
    Commute(p, q);
    Commute(p, t);
    assert d * j == p * t + 1;
    Associate(d, j, rest);
    Distribute(p * t, 1, rest);
    Associate(p, t, rest);
    Associate(p, rest, t);
    Commute(t, rest);
  }

  /** The register comes round exactly every PERIOD steps. */
  lemma Period(d: nat)
    ensures ComesRound(d) <==> d % PERIOD == 0
  {
    OnlyFullTurns(d, 217, 1057, 4681, PERIOD);
  }

  lemma OnlyFullTurns(d: nat, a: nat, b: nat, c: nat, full: nat)
    requires a / 31 == 7 && a % 31 == 0 && b / 151 == 7 && b % 151 == 0 && c / 151 == 31 && c % 151 == 0
    requires IsPeriod(full)
    ensures ComesRound(d) <==> d % full == 0
  {
    if d % full == 0 {
      FullTurn(full);
      RoundTimes(full, d / full);
    }
    if ComesRound(d) {
      NoSmallerTurn(a, b, c);
      MultipleOf(d, 151, a, full);
      MultipleOf(d, 31, b, full);
      MultipleOf(d, 7, c, full);
      Coprime(d);
    }
  }

  lemma Coprime(d: nat)
    requires d % 7 == 0 && d % 31 == 0 && d % 151 == 0
    ensures d % PERIOD == 0
  {
    var a, b, c := d / 7, d / 31, d / 151;
    var e := 9 * b - 2 * a;
    assert d == 7 * a && d == 31 * b && d == 151 * c;
    assert d == 217 * e;
    assert d == 32767 * (135 * c - 194 * e);
    QuotientAndRemainder(d, PERIOD, 135 * c - 194 * e, 0);
  }

  // Two flipped bits ------------------------------------------------------------------------------

  /** Only the bits at `i` and `j` are wrong. */
  predicate TwoBits(e: seq<bool>, i: nat, j: nat) {
    i < j < |e| && e[i] && e[j] && forall k :: 0 <= k < |e| && k != i && k != j ==> !e[k]
  }

  /** The bit that leaves the register first is x^15. */
  lemma FirstBit()
    ensures OfReg(ZERO[0 := true]) == Hex(0x8, 0x0, 0x0, 0x0)
  {
  }

  lemma TwoBitsLeave(n: nat, gap: nat) returns (r: Reg)
    requires IsPower(n, Hex(0x8, 0x0, 0x0, 0x0))
    ensures r == RegSteps(FeedBit(ZERO, true), gap)
    ensures OfReg(ZERO[0 := true]) == X(n) && OfReg(r) == X(n + (1 + gap))
  {
    var top: Reg := ZERO[0 := true];
    FirstBit();
    assert X(n) == Hex(0x8, 0x0, 0x0, 0x0);
    assert FeedBit(ZERO, true) == RegStep(top);
    StepIsTimesX(top);
    StepsAreTimesX(RegStep(top), n + 1, gap);
    r := RegSteps(RegStep(top), gap);
  }

  lemma SecondBitCancels(r: Reg)
    ensures FeedBit(r, true) == ZERO <==> r == ZERO[0 := true]
  {
    StepKernel(r[0 := !r[0]]);
    if r[0 := !r[0]] == ZERO {
      assert r == ZERO[0 := true] by {
        assert forall i :: 1 <= i < 16 ==> r[i] == ZERO[i];
      }
    }
  }

  /** Two flipped bits go unnoticed exactly when a multiple of 32767 places apart. */
  lemma TwoBitsUnnoticed(e: seq<bool>, i: nat, j: nat)
    requires TwoBits(e, i, j)
    ensures Unnoticed(e) <==> (j - i) % PERIOD == 0
  {
    TwoBitsMeet(e, i, j, j - i);
    Period(j - i);
  }

  lemma TwoBitsMeet(e: seq<bool>, i: nat, j: nat, d: nat)
    requires TwoBits(e, i, j) && d == j - i
    ensures Unnoticed(e) <==> ComesRound(d)
  {
    FedTwoBits(e, i, j);
    SecondCancelsFirst(15, d - 1);
  }

  lemma SecondCancelsFirst(n: nat, gap: nat)
    requires n == 15
    ensures FeedBit(RegSteps(FeedBit(ZERO, true), gap), true) == ZERO <==> ComesRound(1 + gap)
  {
    Power15(n);
    var r := SecondMeetsFirst(n, gap);
    SecondBitCancels(r);
  }

  lemma SecondMeetsFirst(n: nat, gap: nat) returns (r: Reg)
    requires IsPower(n, Hex(0x8, 0x0, 0x0, 0x0))
    ensures r == RegSteps(FeedBit(ZERO, true), gap)
    ensures r == ZERO[0 := true] <==> ComesRound(1 + gap)
  {
    r := TwoBitsLeave(n, gap);
    RoundFrom(n, 1 + gap);
    if ComesRound(1 + gap) {
      SameReg(r, ZERO[0 := true]);
    }
  }

  lemma GapThenBit(r: Reg, n: nat)
    ensures FeedBits(r, Zeros(n) + [true]) == FeedBit(RegSteps(r, n), true)
  {
    FeedZeros(r, n);
    assert (Zeros(n) + [true])[..n] == Zeros(n);
  }

  lemma TwoBitsSplit(e: seq<bool>, i: nat, j: nat)
    requires TwoBits(e, i, j)
    ensures e == (Zeros(i) + [true]) + (Zeros(j - i - 1) + [true]) + Zeros(|e| - j - 1)
  {
  }

  lemma FedTwoBits(e: seq<bool>, i: nat, j: nat)
    requires TwoBits(e, i, j)
    ensures Unnoticed(e) <==> FeedBit(RegSteps(FeedBit(ZERO, true), j - i - 1), true) == ZERO
  {
    TwoBitsSplit(e, i, j);
    FedInTurn(Zeros(i) + [true], Zeros(j - i - 1) + [true], |e| - j - 1);
    GapThenBit(ZERO, i);
    StepsKernel(ZERO, i);
    GapThenBit(FeedBit(ZERO, true), j - i - 1);
  }

  /** Zeros at the end make no difference. */
  lemma FedInTurn(first: seq<bool>, second: seq<bool>, n: nat)
    ensures Unnoticed(first + second + Zeros(n)) <==> FeedBits(FeedBits(ZERO, first), second) == ZERO
  {
    FeedBitsConcat(ZERO, first, second);
    FeedBitsConcat(ZERO, first + second, Zeros(n));
    var r := FeedBits(FeedBits(ZERO, first), second);
    FeedZeros(r, n);
    StepsKernel(r, n);
  }
}
