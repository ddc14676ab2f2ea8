/** CRC-16/CCITT-FALSE (polynomial 0x1021, initial value 0xFFFF, unreflected, no
    final xor) and the errors it is guaranteed to detect.

    The byte-at-a-time loop over a 16-bit word is related to a register of
    sixteen bits fed one message bit at a time. In that form the register is
    linear over exclusive-or, so whether a corruption goes unnoticed depends only
    on its error pattern and not on the packet. */
module Crc16 {
  import opened Bytes

  const POLY: u16 := 0x1021
  const INIT: u16 := 0xFFFF

  // Machine words ---------------------------------------------------------------

  function Pow2(n: nat): (p: nat)
    ensures p > 0
  {
    if n == 0 then 1 else 2 * Pow2(n - 1)
  }

  /** `a ^ b` on words of `n` bits. */
  function XorWord(a: nat, b: nat, n: nat): (r: nat)
    ensures r < Pow2(n)
  {
    if n == 0 then 0 else 2 * XorWord(a / 2, b / 2, n - 1) + if a % 2 != b % 2 then 1 else 0
  }

  lemma Widths2()
    ensures Pow2(8) == 0x100 && Pow2(15) == 0x8000 && Pow2(16) == 0x1_0000
  {
    assert Pow2(4) == 2 * (2 * (2 * Pow2(1)));
    assert Pow2(8) == 2 * (2 * (2 * (2 * Pow2(4))));
    assert Pow2(12) == 2 * (2 * (2 * (2 * Pow2(8))));
    assert Pow2(15) == 2 * (2 * (2 * Pow2(12)));
  }

  function Xor16(a: u16, b: u16): u16 {
    Widths2();
    XorWord(a, b, 16)
  }

  /** `a << 1` on a 16-bit word. */
  function Shl1(a: u16): u16 {
    a * 2 % 0x1_0000
  }

  /** `(b as u16) << 8` */
  function Shl8(b: u8): u16 {
    b * 0x100
  }

  // The algorithm ----------------------------------------------------------------

  /** One turn of the inner loop; `crc & 0x8000 != 0` is `crc >= 0x8000`. */
  function BitStep(crc: u16): u16 {
    if crc >= 0x8000 then Xor16(Shl1(crc), POLY) else Shl1(crc)
  }

  function BitSteps(crc: u16, n: nat): u16 {
    if n == 0 then crc else BitStep(BitSteps(crc, n - 1))
  }

  function FeedByte(crc: u16, b: u8): u16 {
    BitSteps(Xor16(crc, Shl8(b)), 8)
  }

  function Feed(crc: u16, data: seq<u8>): u16 {
    if data == [] then crc else FeedByte(Feed(crc, data[..|data| - 1]), data[|data| - 1])
  }

  function Crc(data: seq<u8>): u16 {
    Feed(INIT, data)
  }

  method Crc16Ccitt(data: seq<u8>) returns (crc: u16)
    ensures crc == Crc(data)
  {
    crc := INIT;
    for i := 0 to |data|
      invariant crc == Feed(INIT, data[..i])
    {
      ghost var before := crc;
      crc := Xor16(crc, Shl8(data[i]));
      for k := 0 to 8
        invariant crc == BitSteps(Xor16(before, Shl8(data[i])), k)
      {
        crc := if crc >= 0x8000 then Xor16(Shl1(crc), POLY) else Shl1(crc);
      }
      assert data[..i + 1][..i] == data[..i];
    }
    assert data[..|data|] == data;
  }

  lemma {:induction false} FeedConcat(crc: u16, p: seq<u8>, q: seq<u8>)
    ensures Feed(crc, p + q) == Feed(Feed(crc, p), q)
  {
    if q == [] {
      assert p + q == p;
    } else {
      assert (p + q)[..|p + q| - 1] == p + q[..|q| - 1];
      FeedConcat(crc, p, q[..|q| - 1]);
    }
  }

  // Bit strings --------------------------------------------------------------------

  function Xor(p: seq<bool>, q: seq<bool>): (r: seq<bool>)
    requires |p| == |q|
    ensures |r| == |p|
    ensures forall i :: 0 <= i < |p| ==> r[i] == (p[i] != q[i])
  {
    seq(|p|, i requires 0 <= i < |p| => p[i] != q[i])
  }

  function Zeros(n: nat): (z: seq<bool>)
    ensures |z| == n
    ensures forall i :: 0 <= i < n ==> !z[i]
  {
    seq(n, _ => false)
  }

  function Weight(bits: seq<bool>): (w: nat)
    ensures w <= |bits|
  {
    if bits == [] then 0 else Weight(bits[..|bits| - 1]) + if bits[|bits| - 1] then 1 else 0
  }

  /** The `n` low bits of `x`, most significant first. */
  function WordBits(x: nat, n: nat): (bits: seq<bool>)
    ensures |bits| == n
  {
    if n == 0 then [] else WordBits(x / 2, n - 1) + [x % 2 == 1]
  }

  function Bits(data: seq<u8>): (bits: seq<bool>)
    ensures |bits| == 8 * |data|
  {
    if data == [] then [] else Bits(data[..|data| - 1]) + WordBits(data[|data| - 1], 8)
  }

  lemma {:induction false} WordBitsXor(a: nat, b: nat, n: nat)
    ensures WordBits(XorWord(a, b, n), n) == Xor(WordBits(a, n), WordBits(b, n))
  {
    if n != 0 {
      WordBitsXor(a / 2, b / 2, n - 1);
      assert XorWord(a, b, n) / 2 == XorWord(a / 2, b / 2, n - 1);
    }
  }

  lemma {:induction false} WordBitsTail(x: nat, n: nat)
    ensures WordBits(x, n + 1)[1..] == WordBits(x, n)
  {
    if n != 0 {
      WordBitsTail(x / 2, n - 1);
      assert WordBits(x, n + 1)[1..] == WordBits(x / 2, n)[1..] + [x % 2 == 1];
    }
  }

  /** Only the `n` low bits matter. */
  lemma {:induction false} WordBitsMod(x: nat, k: nat, n: nat)
    ensures WordBits(x + k * Pow2(n), n) == WordBits(x, n)
  {
    if n != 0 {
      assert k * Pow2(n) == 2 * (k * Pow2(n - 1));
      assert (x + k * Pow2(n)) / 2 == x / 2 + k * Pow2(n - 1);
      WordBitsMod(x / 2, k, n - 1);
    }
  }

  lemma {:induction false} WordBitsTop(x: nat, n: nat)
    requires x < Pow2(n + 1)
    ensures WordBits(x, n + 1)[0] <==> x >= Pow2(n)
  {
    if n != 0 {
      WordBitsTop(x / 2, n - 1);
    }
  }

  lemma {:induction false} WordBitsInjective(x: nat, y: nat, n: nat)
    requires x < Pow2(n) && y < Pow2(n)
    requires WordBits(x, n) == WordBits(y, n)
    ensures x == y
  {
    if n != 0 {
      var p, q := WordBits(x, n), WordBits(y, n);
      assert p[..n - 1] == WordBits(x / 2, n - 1) && q[..n - 1] == WordBits(y / 2, n - 1);
      assert p[n - 1] == q[n - 1];
      WordBitsInjective(x / 2, y / 2, n - 1);
    }
  }

  /** The byte `b` moved up eight places. */
  lemma {:induction false} WordBitsRaise(b: nat, n: nat, k: nat)
    ensures WordBits(b * Pow2(k), n + k) == WordBits(b, n) + Zeros(k)
  {
    if k == 0 {
      assert WordBits(b, n) + Zeros(0) == WordBits(b, n);
    } else {
      var x := b * Pow2(k);
      assert x == 2 * (b * Pow2(k - 1));
      assert x / 2 == b * Pow2(k - 1) && x % 2 == 0;
      WordBitsRaise(b, n, k - 1);
      assert Zeros(k) == Zeros(k - 1) + [false];
    }
  }

  lemma {:induction false} WordBitsAppend(hi: nat, lo: nat, n: nat, k: nat)
    requires lo < Pow2(k)
    ensures WordBits(hi * Pow2(k) + lo, n + k) == WordBits(hi, n) + WordBits(lo, k)
  {
    if k == 0 {
      assert WordBits(hi, n) + [] == WordBits(hi, n);
    } else {
      var x := hi * Pow2(k) + lo;
      assert hi * Pow2(k) == 2 * (hi * Pow2(k - 1));
      assert x / 2 == hi * Pow2(k - 1) + lo / 2 && x % 2 == lo % 2;
      WordBitsAppend(hi, lo / 2, n, k - 1);
    }
  }

  // The register -------------------------------------------------------------------

  type Reg = r: seq<bool> | |r| == 16 witness seq(16, _ => false)

  const ZERO: Reg := Zeros(16)

  /** The positions that x^12 + x^5 + 1 feeds back into. */
  predicate Tap(i: int) {
    i == 3 || i == 10 || i == 15
  }

  function RegStep(r: Reg): (s: Reg)
    ensures forall i :: 0 <= i < 15 ==> s[i] == (r[i + 1] != (r[0] && Tap(i)))
    ensures s[15] == r[0]
  {
    seq(16, i requires 0 <= i < 16 => (i < 15 && r[i + 1]) != (r[0] && Tap(i)))
  }

  function RegSteps(r: Reg, n: nat): Reg {
    if n == 0 then r else RegStep(RegSteps(r, n - 1))
  }

  function FeedBit(r: Reg, bit: bool): Reg {
    RegStep(r[0 := r[0] != bit])
  }

  function FeedBits(r: Reg, bits: seq<bool>): Reg {
    if bits == [] then r else FeedBit(FeedBits(r, bits[..|bits| - 1]), bits[|bits| - 1])
  }

  function RegXor(r: Reg, s: Reg): Reg {
    Xor(r, s)
  }

  lemma {:induction false} FeedBitsConcat(r: Reg, p: seq<bool>, q: seq<bool>)
    ensures FeedBits(r, p + q) == FeedBits(FeedBits(r, p), q)
  {
    if q == [] {
      assert p + q == p;
    } else {
      assert (p + q)[..|p + q| - 1] == p + q[..|q| - 1];
      FeedBitsConcat(r, p, q[..|q| - 1]);
    }
  }

  lemma StepLinear(r: Reg, s: Reg)
    ensures RegStep(RegXor(r, s)) == RegXor(RegStep(r), RegStep(s))
  {
  }

  lemma FeedBitLinear(r: Reg, s: Reg, p: bool, q: bool)
    ensures FeedBit(RegXor(r, s), p != q) == RegXor(FeedBit(r, p), FeedBit(s, q))
  {
    var r', s' := r[0 := r[0] != p], s[0 := s[0] != q];
    assert RegXor(r, s)[0 := RegXor(r, s)[0] != (p != q)] == RegXor(r', s');
    StepLinear(r', s');
  }

  lemma XorZero(r: Reg, s: Reg)
    ensures RegXor(r, ZERO) == r
    ensures RegXor(r, s) == ZERO <==> r == s
  {
    if RegXor(r, s) == ZERO {
      forall i | 0 <= i < 16 ensures r[i] == s[i] { assert RegXor(r, s)[i] == ZERO[i]; }
    }
  }

  /** Feeding two messages to two registers and comparing the results is feeding
      the difference of the messages to the difference of the registers. */
  lemma {:induction false} FeedBitsLinear(r: Reg, s: Reg, p: seq<bool>, q: seq<bool>)
    requires |p| == |q|
    ensures FeedBits(RegXor(r, s), Xor(p, q)) == RegXor(FeedBits(r, p), FeedBits(s, q))
  {
    if p != [] {
      var n := |p| - 1;
      assert Xor(p, q)[..n] == Xor(p[..n], q[..n]);
      FeedBitsLinear(r, s, p[..n], q[..n]);
      FeedBitLinear(FeedBits(r, p[..n]), FeedBits(s, q[..n]), p[n], q[n]);
    }
  }

  /** Because the polynomial has a constant term, only zero steps to zero. */
  lemma StepKernel(r: Reg)
    ensures RegStep(r) == ZERO <==> r == ZERO
  {
    if RegStep(r) == ZERO {
      assert !r[0] by { assert RegStep(r)[15] == ZERO[15]; }
      forall i | 1 <= i < 16 ensures !r[i] { assert RegStep(r)[i - 1] == ZERO[i - 1]; }
    }
  }

  lemma {:induction false} StepsKernel(r: Reg, n: nat)
    ensures RegSteps(r, n) == ZERO <==> r == ZERO
  {
    if n != 0 {
      StepsKernel(r, n - 1);
      StepKernel(RegSteps(r, n - 1));
    }
  }

  lemma {:induction false} FeedZeros(r: Reg, n: nat)
    ensures FeedBits(r, Zeros(n)) == RegSteps(r, n)
  {
    if n != 0 {
      assert Zeros(n)[..n - 1] == Zeros(n - 1);
      FeedZeros(r, n - 1);
      var s := RegSteps(r, n - 1);
      assert s[0 := s[0] != false] == s;
    }
  }

  // The word is the register ---------------------------------------------------------

  lemma PolyTaps()
    ensures forall i :: 0 <= i < 16 ==> WordBits(POLY, 16)[i] == Tap(i)
  {
    Widths2();
    WordBitsAppend(0x10, 0x21, 8, 8);
    PolyBytes();
  }

  lemma PolyBytes()
    ensures WordBits(0x10, 8) == [false, false, false, true, false, false, false, false]
    ensures WordBits(0x21, 8) == [false, false, true, false, false, false, false, true]
  {
    WordBitsAppend(0x1, 0x0, 4, 4);
    WordBitsAppend(0x2, 0x1, 4, 4);
    Nibbles();
    assert Pow2(4) == 0x10 by { assert Pow2(4) == 2 * (2 * (2 * Pow2(1))); }
  }

  lemma Nibbles()
    ensures WordBits(0, 4) == [false, false, false, false] && WordBits(1, 4) == [false, false, false, true]
    ensures WordBits(2, 4) == [false, false, true, false]
  {
    assert WordBits(0, 2) == [false, false] && WordBits(0, 3) == [false, false, false];
    assert WordBits(1, 3) == [false, false, true];
  }

  /** `y` is `2 * x` cut down to `n` bits. */
  lemma ShiftDropsTop(x: nat, y: nat, k: nat, n: nat)
    requires n > 0 && y + k * Pow2(n) == 2 * x
    ensures WordBits(y, n) == WordBits(x, n)[1..] + [false]
  {
    WordBitsMod(y, k, n);
    WordBitsTail(x, n - 1);
    assert 2 * x / 2 == x && 2 * x % 2 == 0;
  }

  lemma WordTop(x: u16)
    ensures WordBits(x, 16)[0] <==> x >= 0x8000
  {
    Widths2();
    WordBitsTop(x, 15);
  }

  lemma WordShift(x: u16)
    ensures WordBits(Shl1(x), 16) == WordBits(x, 16)[1..] + [false]
  {
    Widths2();
    ShiftDropsTop(x, Shl1(x), 2 * x / 0x1_0000, 16);
  }

  lemma TappedStep(x: u16)
    requires x >= 0x8000
    ensures WordBits(BitStep(x), 16) == RegStep(WordBits(x, 16))
  {
    WordTop(x);
    WordShift(x);
    WordBitsXor(Shl1(x), POLY, 16);
    PolyTaps();
  }

  lemma WordStep(x: u16)
    ensures WordBits(BitStep(x), 16) == RegStep(WordBits(x, 16))
  {
    if x >= 0x8000 {
      TappedStep(x);
    } else {
      WordTop(x);
      WordShift(x);
    }
  }

  lemma {:induction false} WordSteps(x: u16, n: nat)
    ensures WordBits(BitSteps(x, n), 16) == RegSteps(WordBits(x, 16), n)
  {
    if n != 0 {
      WordSteps(x, n - 1);
      WordStep(BitSteps(x, n - 1));
    }
  }

  /** Folding a whole message word in first and then stepping is feeding its bits
      one by one; what has not been fed yet is still waiting, moved up. */
  lemma {:induction false} FeedWord(r: Reg, w: Reg, n: nat)
    requires n <= 16
    ensures RegSteps(RegXor(r, w), n) == RegXor(FeedBits(r, w[..n]), w[n..] + Zeros(n))
  {
    if n == 0 {
      assert w[0..] + Zeros(0) == w;
    } else {
      FeedWord(r, w, n - 1);
      var f, bit := FeedBits(r, w[..n - 1]), w[n - 1];
      assert w[..n][..n - 1] == w[..n - 1];
      FeedOne(f, bit, w[n - 1..] + Zeros(n - 1));
      ShiftedOut(w, n);
    }
  }

  /** Stepping with the top of `rest` folded in is feeding that bit. */
  lemma FeedOne(f: Reg, bit: bool, rest: Reg)
    requires rest[0] == bit
    ensures RegStep(RegXor(f, rest)) == RegXor(FeedBit(f, bit), rest[1..] + [false])
  {
    var top, low: Reg := ZERO[0 := bit], rest[0 := false];
    assert RegXor(f, rest) == RegXor(RegXor(f, top), low);
    StepLinear(RegXor(f, top), low);
    assert RegXor(f, top) == f[0 := f[0] != bit];
    assert RegStep(low) == rest[1..] + [false];
  }

  lemma ShiftedOut(w: Reg, n: nat)
    requires 0 < n <= 16
    ensures var rest := w[n - 1..] + Zeros(n - 1);
      rest[0] == w[n - 1] && rest[1..] + [false] == w[n..] + Zeros(n)
  {
  }

  /** Feeding a register its own contents empties it, and nothing else does. */
  lemma FeedWhole(r: Reg, w: Reg)
    ensures FeedBits(r, w) == ZERO <==> r == w
  {
    FeedWord(r, w, 16);
    assert w[..16] == w && w[16..] + Zeros(16) == ZERO;
    XorZero(FeedBits(r, w), w);
    StepsKernel(RegXor(r, w), 16);
    XorZero(r, w);
  }

  lemma FeedByteIsBits(crc: u16, b: u8)
    ensures WordBits(FeedByte(crc, b), 16) == FeedBits(WordBits(crc, 16), WordBits(b, 8))
  {
    Widths2();
    var r, w: Reg := WordBits(crc, 16), WordBits(Shl8(b), 16);
    ByteOnTop(b);
    WordBitsXor(crc, Shl8(b), 16);
    WordSteps(Xor16(crc, Shl8(b)), 8);
    FeedWord(r, w, 8);
    XorZero(FeedBits(r, WordBits(b, 8)), ZERO);
  }

  lemma ByteOnTop(b: u8)
    ensures var w := WordBits(Shl8(b), 16); w[..8] == WordBits(b, 8) && w[8..] + Zeros(8) == ZERO
  {
    Widths2();
    WordBitsRaise(b, 8, 8);
  }

  lemma {:induction false} FeedIsBits(crc: u16, data: seq<u8>)
    ensures WordBits(Feed(crc, data), 16) == FeedBits(WordBits(crc, 16), Bits(data))
  {
    if data != [] {
      var n := |data| - 1;
      FeedIsBits(crc, data[..n]);
      FeedByteIsBits(Feed(crc, data[..n]), data[n]);
      FeedBitsConcat(WordBits(crc, 16), Bits(data[..n]), WordBits(data[n], 8));
    }
  }

  // Which corruptions go unnoticed -----------------------------------------------------

  /** An error pattern the checksum cannot see. */
  predicate Unnoticed(e: seq<bool>) {
    FeedBits(ZERO, e) == ZERO
  }

  /** Two messages of equal length have the same checksum exactly when their
      difference is an unnoticed pattern. */
  lemma SameCrcIffUnnoticed(p: seq<u8>, q: seq<u8>)
    requires |p| == |q|
    ensures Crc(p) == Crc(q) <==> Unnoticed(Xor(Bits(p), Bits(q)))
  {
    Widths2();
    var r := WordBits(INIT, 16);
    FeedIsBits(INIT, p);
    FeedIsBits(INIT, q);
    XorZero(r, r);
    FeedBitsLinear(r, r, Bits(p), Bits(q));
    XorZero(FeedBits(r, Bits(p)), FeedBits(r, Bits(q)));
    if FeedBits(r, Bits(p)) == FeedBits(r, Bits(q)) {
      WordBitsInjective(Crc(p), Crc(q), 16);
    }
  }

  lemma {:induction false} BitsOfBE(s: seq<u8>)
    ensures Bits(s) == WordBits(FromBE(s), 8 * |s|)
  {
    if s != [] {
      var n := |s| - 1;
      BitsOfBE(s[..n]);
      Widths2();
      WordBitsAppend(FromBE(s[..n]), s[n], 8 * n, 8);
    }
  }

  /** A message followed by sixteen check bits leaves the register empty exactly
      when the check bits are the message's checksum. */
  lemma ResidueIsZero(data: seq<u8>, check: seq<u8>)
    requires |check| == 2
    ensures Crc(data + check) == 0 <==> U16(check) == Crc(data)
  {
    var r, w := WordBits(Crc(data), 16), WordBits(U16(check), 16);
    FeedConcat(INIT, data, check);
    FeedIsBits(Crc(data), check);
    BitsOfBE(check);
    FeedWhole(r, w);
    assert WordBits(0, 16) == ZERO by { WordBitsRaise(0, 0, 16); }
    Widths2();
    if r == w { WordBitsInjective(Crc(data), U16(check), 16); }
    if FeedBits(r, w) == ZERO { WordBitsInjective(Crc(data + check), 0, 16); }
  }

  /** The first wrong bit is at `lo` and all wrong bits lie within sixteen places. */
  predicate Burst(e: seq<bool>, lo: nat) {
    && lo < |e|
    && e[lo]
    && forall i :: 0 <= i < |e| && e[i] ==> lo <= i < lo + 16
  }

  /** A register that at most fifteen further bits can empty has nothing beyond
      those fifteen places. */
  lemma {:induction false} EmptiedWithin(d: Reg, rest: seq<bool>)
    requires |rest| <= 15
    requires FeedBits(d, rest) == ZERO
    ensures forall i :: |rest| <= i < 16 ==> !d[i]
    decreases |rest|
  {
    if rest != [] {
      var e := FeedBit(d, rest[0]);
      assert rest == [rest[0]] + rest[1..];
      FeedBitsConcat(d, [rest[0]], rest[1..]);
      assert FeedBits(d, [rest[0]]) == e by { assert [rest[0]][..0] == []; }
      EmptiedWithin(e, rest[1..]);
      assert !e[15];
      forall i | |rest| <= i < 16 ensures !d[i] {
        assert e[i - 1] == d[i];
      }
    }
  }

  lemma BurstNoticed(e: seq<bool>, lo: nat)
    requires Burst(e, lo)
    ensures !Unnoticed(e)
  {
    var hi := if lo + 16 < |e| then lo + 16 else |e|;
    var before, window, after := e[..lo], e[lo + 1..hi], e[hi..];
    assert before == Zeros(lo) && after == Zeros(|e| - hi);
    assert e == ((before + [true]) + window) + after;
    FeedZeros(ZERO, lo);
    StepsKernel(ZERO, lo);
    var d := FeedBit(ZERO, true);
    FeedBitsConcat(ZERO, before, [true]);
    assert FeedBits(ZERO, [true]) == d by { assert [true][..0] == []; }
    FeedBitsConcat(ZERO, before + [true], window);
    FeedBitsConcat(ZERO, (before + [true]) + window, after);
    var f := FeedBits(d, window);
    FeedZeros(f, |after|);
    StepsKernel(f, |after|);
    assert d[15];
    if f == ZERO {
      EmptiedWithin(d, window);
    }
  }

  /** Sixteen is the limit: the polynomial itself, seventeen places long, goes unnoticed
      wherever it falls. */
  lemma SeventeenUnnoticed(lo: nat, n: nat) returns (e: seq<bool>)
    requires lo + 17 <= n
    ensures |e| == n && e[lo] && (forall i :: 0 <= i < n && e[i] ==> lo <= i < lo + 17) && Unnoticed(e)
  {
    var before, after, d := Zeros(lo), Zeros(n - lo - 17), FeedBit(ZERO, true);
    var start := before + [true];
    e := start + d + after;
    FeedZeros(ZERO, lo);
    StepsKernel(ZERO, lo);
    assert start[..lo] == before;
    assert FeedBits(ZERO, start) == d;
    FeedBitsConcat(ZERO, start, d);
    FeedWhole(d, d);
    FeedBitsConcat(ZERO, start + d, after);
    FeedZeros(ZERO, |after|);
    StepsKernel(ZERO, |after|);
  }

  lemma {:induction false} WeightConcat(p: seq<bool>, q: seq<bool>)
    ensures Weight(p + q) == Weight(p) + Weight(q)
  {
    if q == [] {
      assert p + q == p;
    } else {
      assert (p + q)[..|p + q| - 1] == p + q[..|q| - 1];
      WeightConcat(p, q[..|q| - 1]);
    }
  }

  lemma {:induction false} WeightZeros(n: nat)
    ensures Weight(Zeros(n)) == 0
  {
    if n != 0 {
      assert Zeros(n)[..n - 1] == Zeros(n - 1);
      WeightZeros(n - 1);
    }
  }

  lemma WeightOne(bit: bool)
    ensures Weight([bit]) == if bit then 1 else 0
  {
    assert [bit][..0] == [];
  }

  lemma {:induction false} WeightXor(p: seq<bool>, q: seq<bool>)
    requires |p| == |q|
    ensures Weight(Xor(p, q)) % 2 == (Weight(p) + Weight(q)) % 2
  {
    if p != [] {
      var n, x := |p| - 1, Xor(p, q);
      assert x[..n] == Xor(p[..n], q[..n]);
      WeightXor(p[..n], q[..n]);
      ParityStep(Weight(x[..n]), Weight(p[..n]), Weight(q[..n]), p[n], q[n]);
    }
  }

  lemma ParityStep(x: nat, a: nat, b: nat, p: bool, q: bool)
    requires x % 2 == (a + b) % 2
    ensures (x + if p != q then 1 else 0) % 2 == ((a + if p then 1 else 0) + (b + if q then 1 else 0)) % 2
  {
  }

  lemma SetTop(bit: bool)
    ensures Weight(ZERO[0 := bit]) == if bit then 1 else 0
  {
    assert ZERO[0 := bit] == [bit] + Zeros(15);
    WeightConcat([bit], Zeros(15));
    WeightOne(bit);
    WeightZeros(15);
  }

  /** The polynomial has an even number of terms, so a step never changes whether
      the number of set bits is odd. */
  lemma StepKeepsParity(r: Reg)
    ensures Weight(RegStep(r)) % 2 == Weight(r) % 2
  {
    ShiftedWeight(r);
    if r[0] {
      TappedWeight(r);
    } else {
      assert RegStep(r) == r[1..] + [false];
    }
  }

  lemma ShiftedWeight(r: Reg)
    ensures Weight(r) == Weight(r[1..] + [false]) + if r[0] then 1 else 0
  {
    assert r == [r[0]] + r[1..];
    WeightConcat([r[0]], r[1..]);
    WeightConcat(r[1..], [false]);
    WeightOne(r[0]);
    WeightOne(false);
  }

  const TAPS: seq<bool> := ((((Zeros(3) + [true]) + Zeros(6)) + [true]) + Zeros(4)) + [true]

  lemma TappedWeight(r: Reg)
    requires r[0]
    ensures Weight(RegStep(r)) % 2 == (Weight(r[1..] + [false]) + 1) % 2
  {
    var shifted: Reg := r[1..] + [false];
    assert RegStep(r) == Xor(shifted, TAPS);
    WeightXor(shifted, TAPS);
    TapsWeight();
  }

  lemma TapsWeight()
    ensures Weight(TAPS) == 3
  {
    WeightZeros(3);
    WeightZeros(6);
    WeightZeros(4);
    WeightOne(true);
    WeightConcat(Zeros(3), [true]);
    WeightConcat(Zeros(3) + [true], Zeros(6));
    WeightConcat((Zeros(3) + [true]) + Zeros(6), [true]);
    WeightConcat(((Zeros(3) + [true]) + Zeros(6)) + [true], Zeros(4));
    WeightConcat((((Zeros(3) + [true]) + Zeros(6)) + [true]) + Zeros(4), [true]);
  }

  lemma {:induction false} FeedKeepsParity(e: seq<bool>)
    ensures Weight(FeedBits(ZERO, e)) % 2 == Weight(e) % 2
  {
    if e == [] {
      WeightZeros(16);
    } else {
      var n := |e| - 1;
      FeedKeepsParity(e[..n]);
      var r := FeedBits(ZERO, e[..n]);
      assert r[0 := r[0] != e[n]] == Xor(r, ZERO[0 := e[n]]);
      WeightXor(r, ZERO[0 := e[n]]);
      SetTop(e[n]);
      StepKeepsParity(r[0 := r[0] != e[n]]);
    }
  }

  lemma OddNoticed(e: seq<bool>)
    requires Weight(e) % 2 == 1
    ensures !Unnoticed(e)
  {
    FeedKeepsParity(e);
    WeightZeros(16);
  }
}
