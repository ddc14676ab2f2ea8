/** Where the checksum starts, and its published check value. */
module CrcCheck {
  import opened Bytes
  import opened Crc16
  import opened CrcPeriod

  lemma {:induction false} Ones(n: nat)
    ensures WordBits(Pow2(n) - 1, n) == seq(n, _ => true)
  {
    if n > 0 {
      Ones(n - 1);
      assert (Pow2(n) - 1) / 2 == Pow2(n - 1) - 1 && (Pow2(n) - 1) % 2 == 1;
      assert seq(n, _ => true) == seq(n - 1, _ => true) + [true];
    }
  }

  /** The checksum of a message is what its bits, fed in order, make of a register of
      sixteen ones. */
  lemma CrcStartsFromOnes(data: seq<u8>)
    ensures WordBits(Crc(data), 16) == FeedBits(seq(16, _ => true), Bits(data))
  {
    FeedIsBits(INIT, data);
    Widths2();
    Ones(16);
  }

  // Feeding bits, whatever they are fed to ----------------------------------------------------

  function Fold<P>(f: (P, bool) -> P, p: P, bits: seq<bool>): P {
    if bits == [] then p else f(Fold(f, p, bits[..|bits| - 1]), bits[|bits| - 1])
  }

  lemma {:induction false} FoldConcat<P>(f: (P, bool) -> P, p: P, u: seq<bool>, v: seq<bool>)
    ensures Fold(f, p, u + v) == Fold(f, Fold(f, p, u), v)
  {
    if v == [] {
      assert u + v == u;
    } else {
      assert (u + v)[..|u + v| - 1] == u + v[..|v| - 1];
      FoldConcat(f, p, u, v[..|v| - 1]);
    }
  }

  lemma FoldFour<P>(f: (P, bool) -> P, p: P, a: bool, b: bool, c: bool, d: bool)
    ensures Fold(f, p, [a, b, c, d]) == f(f(f(f(p, a), b), c), d)
  {
    assert [a][..0] == [] && Fold(f, p, [a]) == f(p, a);
    assert [a, b][..1] == [a] && Fold(f, p, [a, b]) == f(f(p, a), b);
    assert [a, b, c][..2] == [a, b] && Fold(f, p, [a, b, c]) == f(f(f(p, a), b), c);
    assert [a, b, c, d][..3] == [a, b, c];
  }

  /** Where one kind of content tracks another bit by bit, it tracks it throughout. */
  lemma {:induction false} FoldTracks<Q, P>(g: (Q, bool) -> Q, f: (P, bool) -> P, h: Q -> P, q: Q, bits: seq<bool>)
    requires forall x, b :: h(g(x, b)) == f(h(x), b)
    ensures h(Fold(g, q, bits)) == Fold(f, h(q), bits)
  {
    if bits != [] {
      FoldTracks(g, f, h, q, bits[..|bits| - 1]);
    }
  }

  lemma {:induction false} FeedBitsIsFold(r: Reg, bits: seq<bool>)
    ensures FeedBits(r, bits) == Fold(FeedBit, r, bits)
  {
    if bits != [] {
      FeedBitsIsFold(r, bits[..|bits| - 1]);
    }
  }

  // Feeding a polynomial ------------------------------------------------------------------------

  function FeedPoly(p: Poly, bit: bool): Poly {
    TimesX(p.(c15 := p.c15 != bit))
  }

  lemma FeedBitIsPoly(r: Reg, bit: bool)
    ensures OfReg(FeedBit(r, bit)) == FeedPoly(OfReg(r), bit)
  {
    StepIsTimesX(r[0 := r[0] != bit]);
  }

  lemma FedIsFolded(r: Reg, bits: seq<bool>)
    ensures OfReg(FeedBits(r, bits)) == Fold(FeedPoly, OfReg(r), bits)
  {
    FeedBitsIsFold(r, bits);
    forall x: Reg, b ensures OfReg(FeedBit(x, b)) == FeedPoly(OfReg(x), b) {
      FeedBitIsPoly(x, b);
    }
    FoldTracks(FeedBit, FeedPoly, OfReg, r, bits);
  }

  /** Feeding the low four bits of `h`, most significant first. */
  function FeedDigit<P>(f: (P, bool) -> P, p: P, h: nat): P {
    f(f(f(f(p, h >= 8), h % 8 >= 4), h % 4 >= 2), h % 2 == 1)
  }

  lemma LastBit(x: nat, n: nat)
    requires n > 0
    ensures WordBits(x, n) == WordBits(x / 2, n - 1) + [x % 2 == 1]
  {
  }

  lemma DigitBits(h: nat)
    requires h < 16
    ensures WordBits(h, 4) == [h >= 8, h % 8 >= 4, h % 4 >= 2, h % 2 == 1]
  {
    var a, b, c := h / 2, h / 4, h / 8;
    LastBit(h, 4);
    LastBit(a, 3);
    LastBit(b, 2);
    LastBit(c, 1);
    assert a / 2 == b && b / 2 == c;
    assert WordBits(c / 2, 0) == [];
  }

  lemma Sixteen(n: nat)
    requires n == 4
    ensures Pow2(n) == 16
  {
    assert Pow2(n - 2) == 4 && Pow2(n - 1) == 8;
  }

  lemma TwoDigits(hi: nat, lo: nat, n: nat)
    requires hi < 16 && lo < 16 && n == 4
    ensures WordBits(16 * hi + lo, n + n) == WordBits(hi, n) + WordBits(lo, n)
  {
    Sixteen(n);
    WordBitsAppend(hi, lo, n, n);
  }

  lemma ByteBits(hi: nat, lo: nat)
    requires hi < 16 && lo < 16
    ensures WordBits(16 * hi + lo, 8) == WordBits(hi, 4) + WordBits(lo, 4)
  {
    TwoDigits(hi, lo, 4);
  }

  lemma FoldByte<P>(f: (P, bool) -> P, p: P, hi: nat, lo: nat)
    requires hi < 16 && lo < 16
    ensures Fold(f, p, WordBits(16 * hi + lo, 8)) == FeedDigit(f, FeedDigit(f, p, hi), lo)
  {
    ByteBits(hi, lo);
    FoldConcat(f, p, WordBits(hi, 4), WordBits(lo, 4));
    DigitBits(hi);
    FoldFour(f, p, hi >= 8, hi % 8 >= 4, hi % 4 >= 2, hi % 2 == 1);
    DigitBits(lo);
    FoldFour(f, FeedDigit(f, p, hi), lo >= 8, lo % 8 >= 4, lo % 4 >= 2, lo % 2 == 1);
  }

  // The check value --------------------------------------------------------------------------

  /** The ASCII digits from 1 to n. */
  function Digits(n: nat): seq<u8>
    requires n <= 9
  {
    seq(n, i requires 0 <= i < n => 0x31 + i)
  }

  /** What the first `n` digits make of ones is `q`, kept out of the way of the
      evaluation of `q`. */
  ghost predicate HoldsAfter<P>(f: (P, bool) -> P, p: P, n: nat, q: P) {
    forall k: nat :: k == n && k <= 9 ==> Fold(f, p, Bits(Digits(k))) == q
  }

  lemma NextDigit<P>(f: (P, bool) -> P, p: P, n: nat, before: P, after: P)
    requires 1 <= n <= 9 && HoldsAfter(f, p, n - 1, before)
    requires after == FeedDigit(f, FeedDigit(f, before, 3), n)
    ensures HoldsAfter(f, p, n, after)
  {
    var last: u8 := 0x30 + n;
    assert Digits(n)[..n - 1] == Digits(n - 1) && Digits(n)[n - 1] == last;
    FoldConcat(f, p, Bits(Digits(n - 1)), WordBits(last, 8));
    FoldByte(f, before, 3, n);
  }

  /** Four bits at once: the four that leave the top of `p`, changed by `a` to `d`, come
      back at x^12, x^5 and 1. */
  function Turned(p: Poly, a: bool, b: bool, c: bool, d: bool): Poly {
    var t3, t2, t1, t0 := p.c15 != a, p.c14 != b, p.c13 != c, p.c12 != d;
    Poly(p.c11 != t3, p.c10 != t2, p.c9 != t1, p.c8 != t0,
         p.c7, p.c6, p.c5, p.c4 != t3, p.c3 != t2, p.c2 != t1, p.c1 != t0, p.c0,
         t3, t2, t1, t0)
  }

  function TurnedTwice(p: Poly, a: bool, b: bool): Poly {
    var t1, t0 := p.c15 != a, p.c14 != b;
    Poly(p.c13, p.c12, p.c11 != t1, p.c10 != t0, p.c9, p.c8, p.c7, p.c6,
         p.c5, p.c4 != t1, p.c3 != t0, p.c2, p.c1, p.c0, t1, t0)
  }

  lemma TwoTurns(p: Poly, a: bool, b: bool)
    ensures FeedPoly(FeedPoly(p, a), b) == TurnedTwice(p, a, b)
  {
  }

  lemma TwiceTwo(p: Poly, a: bool, b: bool, c: bool, d: bool)
    ensures TurnedTwice(TurnedTwice(p, a, b), c, d) == Turned(p, a, b, c, d)
  {
  }

  lemma FourTurns(p: Poly, a: bool, b: bool, c: bool, d: bool)
    ensures FeedPoly(FeedPoly(FeedPoly(FeedPoly(p, a), b), c), d) == Turned(p, a, b, c, d)
  {
    TwoTurns(p, a, b);
    TwoTurns(FeedPoly(FeedPoly(p, a), b), c, d);
    TwiceTwo(p, a, b, c, d);
  }

  /** On the digit `h` of the message. */
  function TurnedBy(p: Poly, h: nat): Poly {
    Turned(p, h >= 8, h % 8 >= 4, h % 4 >= 2, h % 2 == 1)
  }

  lemma DigitTurns(p: Poly, h: nat)
    ensures FeedDigit(FeedPoly, p, h) == TurnedBy(p, h)
  {
    FourTurns(p, h >= 8, h % 8 >= 4, h % 4 >= 2, h % 2 == 1);
  }

  /** What the first `n` digits make of a register of ones. */
  ghost predicate Holds(n: nat, q: Poly) {
    HoldsAfter(FeedPoly, Hex(0xF, 0xF, 0xF, 0xF), n, q)
  }

  lemma Next(n: nat, before: Poly, middle: Poly, after: Poly)
    requires 1 <= n <= 9 && Holds(n - 1, before)
    requires middle == TurnedBy(before, 3) && after == TurnedBy(middle, n)
    ensures Holds(n, after)
  {
    DigitTurns(before, 3);
    DigitTurns(middle, n);
    NextDigit(FeedPoly, Hex(0xF, 0xF, 0xF, 0xF), n, before, after);
  }

  lemma Holds0(n: nat)
    requires n == 0
    ensures Holds(n, Hex(0xF, 0xF, 0xF, 0xF))
  {
    assert Digits(n) == [];
  }

  lemma Holds1(n: nat)
    requires n == 1
    ensures Holds(n, Hex(0xC, 0x7, 0x8, 0x2))
  {
    Holds0(n - 1);
    Next(n, Hex(0xF, 0xF, 0xF, 0xF), Hex(0x3, 0xE, 0x7, 0xC), Hex(0xC, 0x7, 0x8, 0x2));
  }

  lemma Holds2(n: nat)
    requires n == 2
    ensures Holds(n, Hex(0x3, 0xD, 0xB, 0xA))
  {
    Holds1(n - 1);
    Next(n, Hex(0xC, 0x7, 0x8, 0x2), Hex(0x8, 0x9, 0xC, 0xF), Hex(0x3, 0xD, 0xB, 0xA));
  }

  lemma Holds3(n: nat)
    requires n == 3
    ensures Holds(n, Hex(0x5, 0xB, 0xC, 0xE))
  {
    Holds2(n - 1);
    Next(n, Hex(0x3, 0xD, 0xB, 0xA), Hex(0xD, 0xB, 0xA, 0x0), Hex(0x5, 0xB, 0xC, 0xE));
  }

  lemma Holds4(n: nat)
    requires n == 4
    ensures Holds(n, Hex(0x5, 0x3, 0x4, 0x9))
  {
    Holds3(n - 1);
    Next(n, Hex(0x5, 0xB, 0xC, 0xE), Hex(0xD, 0xC, 0x2, 0x6), Hex(0x5, 0x3, 0x4, 0x9));
  }

  lemma Holds5(n: nat)
    requires n == 5
    ensures Holds(n, Hex(0x4, 0x5, 0x6, 0x0))
  {
    Holds4(n - 1);
    Next(n, Hex(0x5, 0x3, 0x4, 0x9), Hex(0x5, 0x4, 0x5, 0x6), Hex(0x4, 0x5, 0x6, 0x0));
  }

  lemma Holds6(n: nat)
    requires n == 6
    ensures Holds(n, Hex(0x2, 0xE, 0xF, 0x4))
  {
    Holds5(n - 1);
    Next(n, Hex(0x4, 0x5, 0x6, 0x0), Hex(0x2, 0x6, 0xE, 0x7), Hex(0x2, 0xE, 0xF, 0x4));
  }

  lemma Holds7(n: nat)
    requires n == 7
    ensures Holds(n, Hex(0x7, 0x7, 0x1, 0x8))
  {
    Holds6(n - 1);
    Next(n, Hex(0x2, 0xE, 0xF, 0x4), Hex(0xF, 0xF, 0x6, 0x1), Hex(0x7, 0x7, 0x1, 0x8));
  }

  lemma Holds8(n: nat)
    requires n == 8
    ensures Holds(n, Hex(0xA, 0x1, 0x2, 0xB))
  {
    Holds7(n - 1);
    Next(n, Hex(0x7, 0x7, 0x1, 0x8), Hex(0x3, 0x1, 0x0, 0x4), Hex(0xA, 0x1, 0x2, 0xB));
  }

  lemma Holds9(n: nat)
    requires n == 9
    ensures Holds(n, Hex(0x2, 0x9, 0xB, 0x1))
  {
    Holds8(n - 1);
    Next(n, Hex(0xA, 0x1, 0x2, 0xB), Hex(0x8, 0x3, 0x9, 0x9), Hex(0x2, 0x9, 0xB, 0x1));
  }

  lemma WordOfBytes(hi: nat, lo: nat, n: nat)
    requires hi < 0x100 && lo < 0x100 && n == 8
    ensures WordBits(0x100 * hi + lo, n + n) == WordBits(hi, n) + WordBits(lo, n)
  {
    Widths2();
    WordBitsAppend(hi, lo, n, n);
  }

  lemma DigitsListed(a: nat, b: nat, c: nat, d: nat)
    requires a < 16 && b < 16 && c < 16 && d < 16
    ensures OfReg(WordBits(a, 4) + WordBits(b, 4) + (WordBits(c, 4) + WordBits(d, 4))) == Hex(a, b, c, d)
  {
    DigitBits(a);
    DigitBits(b);
    DigitBits(c);
    DigitBits(d);
  }

  lemma OnesAre()
    ensures OfReg(seq(16, _ => true)) == Hex(0xF, 0xF, 0xF, 0xF)
  {
  }

  lemma FedOnes(bits: seq<bool>, q: Poly)
    requires Fold(FeedPoly, Hex(0xF, 0xF, 0xF, 0xF), bits) == q
    ensures OfReg(FeedBits(seq(16, _ => true), bits)) == q
  {
    OnesAre();
    FedIsFolded(seq(16, _ => true), bits);
  }

  /** The published check value: the checksum of the ASCII digits "123456789". */
  lemma CheckValue()
    ensures Crc([0x31, 0x32, 0x33, 0x34, 0x35, 0x36, 0x37, 0x38, 0x39]) == 0x29B1
  {
    var data: seq<u8> := [0x31, 0x32, 0x33, 0x34, 0x35, 0x36, 0x37, 0x38, 0x39];
    assert data == Digits(9);
    CrcStartsFromOnes(data);
    Holds9(9);
    FedOnes(Bits(data), Hex(0x2, 0x9, 0xB, 0x1));
    WordOfBytes(0x29, 0xB1, 8);
    ByteBits(0x2, 0x9);
    ByteBits(0xB, 0x1);
    DigitsListed(0x2, 0x9, 0xB, 0x1);
    SameReg(WordBits(Crc(data), 16), WordBits(0x29B1, 16));
    Widths2();
    WordBitsInjective(Crc(data), 0x29B1, 16);
  }
}
