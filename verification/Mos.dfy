/** ITU-T G.107 E-model: R-factor and mean opinion score from measured latency,
    jitter and loss. Scores are computed over the reals. */
module Mos {
  import opened Arithmetic

  datatype Codec = G711 | G711Plc | G729 | G722 | Opus {
    /** Equipment impairment Ie. */
    function Ie(): real {
      match this
      case G711 => 0.0
      case G711Plc => 0.0
      case G729 => 11.0
      case G722 => 8.0
      case Opus => 7.0
    }

    /** Packet-loss robustness Bpl. */
    function Bpl(): real {
      match this
      case G711 => 4.3
      case G711Plc => 25.1
      case G729 => 19.0
      case G722 => 18.0
      case Opus => 22.0
    }

    predicate IsWideband() {
      G722? || Opus?
    }

    /** Base and ceiling of the transmission rating on this codec's scale. */
    function RMax(): real {
      if IsWideband() then 129.0 else 93.2
    }

    function Ceiling(): real {
      if IsWideband() then MOS_CEIL_WB else MOS_CEIL_NB
    }
  }

  datatype MosInput = MosInput(rttUs: nat, jitterUs: nat, lossPct: real, codec: Codec, jitterBufferMs: real)

  datatype MosScore = MosScore(codec: Codec, rFactor: real, mos: real, effectiveDelayMs: real)

  const A := 0.0
  const MOS_FLOOR := 1.0
  const MOS_CEIL_NB := 4.5
  const MOS_CEIL_WB := 4.8

  function Clamp(v: real, lo: real, hi: real): real {
    if v < lo then lo else if v > hi then hi else v
  }

  function DelayImpairment(delayMs: real): real {
    if delayMs < 100.0 then
      0.0
    else
      var h := if delayMs - 177.3 < 0.0 then 0.0 else 1.0;
      0.024 * delayMs + 0.11 * (delayMs - 177.3) * h
  }

  /** Share of packets that arrive too late for the de-jitter buffer, in percent.
      Without jitter only a negative buffer gets here, and the quotient is
      infinite before it is capped. */
  function LateLossPct(jitterMs: real, bufferMs: real): real {
    if jitterMs > bufferMs then
      var pct := if jitterMs == 0.0 then 100.0 else (jitterMs - bufferMs) / jitterMs * 100.0;
      if pct < 100.0 then pct else 100.0
    else
      0.0
  }

  function LossImpairment(codec: Codec, loss: real): real
    requires loss >= 0.0
  {
    codec.Ie() + (95.0 - codec.Ie()) * loss / (loss + codec.Bpl())
  }

  /** The interior piece of the G.107 Annex B curve. */
  function Cubic(x: real): real {
    1.0 + 0.035 * x + x * (x - 60.0) * (100.0 - x) * 0.000007
  }

  function Curve(x: real): real {
    if x <= 0.0 then MOS_FLOOR else if x >= 100.0 then MOS_CEIL_NB else Cubic(x)
  }

  function RToMos(r: real, codec: Codec): real {
    var x := if codec.IsWideband() then r / codec.RMax() * 100.0 else r;
    if codec.IsWideband() then
      var stretch := (MOS_CEIL_WB - MOS_FLOOR) / (MOS_CEIL_NB - MOS_FLOOR);
      Clamp(MOS_FLOOR + (Curve(x) - MOS_FLOOR) * stretch, MOS_FLOOR, MOS_CEIL_WB)
    else
      Clamp(Curve(x), MOS_FLOOR, MOS_CEIL_NB)
  }

  function EffectiveDelay(input: MosInput): real {
    input.rttUs as real / 1000.0 / 2.0 + input.jitterBufferMs
  }

  function TotalLoss(input: MosInput): (loss: real)
    ensures 0.0 <= loss <= 100.0
  {
    Clamp(input.lossPct + LateLossPct(input.jitterUs as real / 1000.0, input.jitterBufferMs), 0.0, 100.0)
  }

  /** The transmission rating before rounding. */
  function Rating(input: MosInput): (r: real)
    ensures 0.0 <= r <= input.codec.RMax()
  {
    var r0 := input.codec.RMax();
    Clamp(r0 - DelayImpairment(EffectiveDelay(input)) - LossImpairment(input.codec, TotalLoss(input)) + A, 0.0, r0)
  }

  function Score(input: MosInput): MosScore
  {
    var r := Rating(input);
    MosScore(input.codec, Round2(r), Round2(RToMos(r, input.codec)), Round2(EffectiveDelay(input)))
  }

  // What the score is -------------------------------------------------------------------

  /** The figures for each codec: equipment impairment, loss robustness, and the top of
      its rating scale. */
  predicate HasFigures(codec: Codec, ie: real, bpl: real, top: real) {
    || (codec == G711 && ie == 0.0 && bpl == 4.3 && top == 93.2)
    || (codec == G711Plc && ie == 0.0 && bpl == 25.1 && top == 93.2)
    || (codec == G729 && ie == 11.0 && bpl == 19.0 && top == 93.2)
    || (codec == G722 && ie == 8.0 && bpl == 18.0 && top == 129.0)
    || (codec == Opus && ie == 7.0 && bpl == 22.0 && top == 129.0)
  }

  /** Free below 100 ms; from there 24 thousandths a millisecond, and past the knee at
      177.3 ms another 110. */
  predicate IsDelayCost(delay: real, cost: real) {
    && (delay < 100.0 ==> cost == 0.0)
    && (100.0 <= delay < 177.3 ==> 1000.0 * cost == 24.0 * delay)
    && (177.3 <= delay ==> 1000.0 * cost == 24.0 * delay + 110.0 * (delay - 177.3))
  }

  /** Of every `jitter` milliseconds those past the buffer are late, at most all. */
  predicate IsLateShare(jitter: real, buffer: real, pct: real) {
    && (jitter <= buffer ==> pct == 0.0)
    && (buffer < jitter && buffer >= 0.0 ==> pct * jitter == 100.0 * (jitter - buffer))
    && (buffer < jitter && buffer < 0.0 ==> pct == 100.0)
  }

  predicate IsCappedSum(a: real, b: real, sum: real) {
    && (a + b < 0.0 ==> sum == 0.0)
    && (0.0 <= a + b <= 100.0 ==> sum == a + b)
    && (a + b > 100.0 ==> sum == 100.0)
  }

  /** What is left of `top` after both impairments, within the scale. */
  predicate IsLeft(top: real, delayCost: real, lossCost: real, rating: real) {
    var left := top - delayCost - lossCost;
    && (left < 0.0 ==> rating == 0.0)
    && (0.0 <= left <= top ==> rating == left)
    && (left > top ==> rating == top)
  }

  lemma FiguresOf(codec: Codec)
    ensures HasFigures(codec, codec.Ie(), codec.Bpl(), codec.RMax())
  {
  }

  lemma DelayCost(delay: real)
    ensures IsDelayCost(delay, DelayImpairment(delay))
  {
  }

  lemma LateShare(jitter: real, buffer: real)
    requires jitter >= 0.0
    ensures IsLateShare(jitter, buffer, LateLossPct(jitter, buffer))
  {
    if jitter > buffer && jitter > 0.0 {
      var share := (jitter - buffer) / jitter;
      assert share * jitter == jitter - buffer;
      if buffer < 0.0 {
        QuotientLe(1.0, 1.0, jitter - buffer, jitter);
      } else {
        QuotientLe(jitter - buffer, jitter, 1.0, 1.0);
      }
      assert buffer >= 0.0 ==> share * 100.0 * jitter == 100.0 * (jitter - buffer);
    }
  }

  lemma LossCost(codec: Codec, loss: real)
    requires loss >= 0.0
    ensures (LossImpairment(codec, loss) - codec.Ie()) * (loss + codec.Bpl()) == (95.0 - codec.Ie()) * loss
  {
  }

  lemma LossSum(input: MosInput)
    ensures IsCappedSum(input.lossPct, LateLossPct(input.jitterUs as real / 1000.0, input.jitterBufferMs),
              TotalLoss(input))
  {
  }

  /** Half the round trip and the buffer make the delay; the rating is the top of the
      codec's scale less the cost of delay and of loss. */
  lemma RatingLeft(input: MosInput)
    ensures IsLeft(input.codec.RMax(), DelayImpairment(input.rttUs as real / 2000.0 + input.jitterBufferMs),
              LossImpairment(input.codec, TotalLoss(input)), Rating(input))
  {
    assert EffectiveDelay(input) == input.rttUs as real / 2000.0 + input.jitterBufferMs;
  }

  /** What is reported, each figure to the nearest hundredth. */
  lemma Reported(input: MosInput)
    ensures var s, r := Score(input), Rating(input);
      && s.codec == input.codec
      && r - 0.005 <= s.rFactor <= r + 0.005
      && RToMos(r, input.codec) - 0.005 <= s.mos <= RToMos(r, input.codec) + 0.005
    ensures var delay := input.rttUs as real / 2000.0 + input.jitterBufferMs;
      delay - 0.005 <= Score(input).effectiveDelayMs <= delay + 0.005
  {
    RoundNearest(Rating(input));
    RoundNearest(RToMos(Rating(input), input.codec));
    RoundNearest(EffectiveDelay(input));
    assert EffectiveDelay(input) == input.rttUs as real / 2000.0 + input.jitterBufferMs;
  }

  lemma CubicScaled(r: real)
    ensures 1000000.0 * Cubic(r) == 1000000.0 + 35000.0 * r + 7.0 * (r * (r - 60.0) * (100.0 - r))
  {
  }

  /** `c` millionths, kept between 1 and 4.5, is the narrowband score of `r`. */
  predicate IsNarrowbandScore(r: real, c: real, mos: real) {
    && 1.0 <= mos <= 4.5
    && (r <= 0.0 ==> mos == 1.0)
    && (r >= 100.0 ==> mos == 4.5)
    && (0.0 < r < 100.0 && c >= 1000000.0 ==> 1000000.0 * mos == c)
    && (0.0 < r < 100.0 && c < 1000000.0 ==> mos == 1.0)
  }

  lemma CurveClamped(r: real, codec: Codec, c: real)
    requires codec != G722 && codec != Opus && 1000000.0 * Cubic(r) == c
    ensures IsNarrowbandScore(r, c, RToMos(r, codec))
  {
    CurveBelowCeiling(r);
    var y := Cubic(r);
    assert c < 1000000.0 <==> y < 1.0;
  }

  /** The score of a narrowband rating: the curve of section B.4 of G.107, kept between
      1 and 4.5. */
  lemma NarrowbandScore(r: real, codec: Codec)
    requires codec != G722 && codec != Opus
    ensures IsNarrowbandScore(r, 1000000.0 + 35000.0 * r + 7.0 * (r * (r - 60.0) * (100.0 - r)), RToMos(r, codec))
  {
    CubicScaled(r);
    CurveClamped(r, codec, 1000000.0 + 35000.0 * r + 7.0 * (r * (r - 60.0) * (100.0 - r)));
  }

  /** A wideband rating is scored as the narrowband rating at the same part of its
      scale of 129, with the 3.5 points above the floor stretched to 3.8. */
  lemma WidebandScore(r: real, wide: Codec, narrow: Codec)
    requires (wide == G722 || wide == Opus) && narrow != G722 && narrow != Opus
    ensures 3.5 * (RToMos(r, wide) - 1.0) == 3.8 * (RToMos(r / 129.0 * 100.0, narrow) - 1.0)
  {
    CurveBelowCeiling(r / 129.0 * 100.0);
  }

  // Each stage is monotone ---------------------------------------------------------

  lemma DelayMonotone(d: real, e: real)
    requires d <= e
    ensures DelayImpairment(d) <= DelayImpairment(e)
  {
  }

  lemma LateLossMonotone(j: real, k: real, buffer: real)
    requires 0.0 <= j <= k
    ensures LateLossPct(j, buffer) <= LateLossPct(k, buffer)
  {
    if buffer < 0.0 {
      if j > 0.0 { QuotientLe(1.0, 1.0, j - buffer, j); }
      if k > 0.0 { QuotientLe(1.0, 1.0, k - buffer, k); }
    } else if j > buffer {
      assert (j - buffer) * k <= (k - buffer) * j by {
        assert (k - buffer) * j - (j - buffer) * k == buffer * (k - j);
      }
      QuotientLe(j - buffer, j, k - buffer, k);
    } else if k > buffer {
      QuotientLe(0.0, 1.0, k - buffer, k);
    }
  }

  lemma ProductNegative(t: real, z: real)
    requires t < 0.0 < z
    ensures t * z < 0.0
  {
  }

  lemma QuotientLe(a: real, b: real, c: real, d: real)
    requires b > 0.0 && d > 0.0 && a * d <= c * b
    ensures a / b <= c / d
  {
    var x, y := a / b, c / d;
    assert x * (b * d) == a * d by { assert x * b == a; }
    assert y * (b * d) == c * b by { assert y * d == c; }
    assert (y - x) * (b * d) == c * b - a * d;
    if y < x {
      ProductNegative(y - x, b * d);
    }
  }

  lemma ProductNonNegative(t: real, z: real)
    requires 0.0 <= t && 0.0 <= z
    ensures 0.0 <= t * z
  {
  }

  lemma LossTerm(w: real, p: real, q: real, b: real, b': real)
    requires 0.0 <= w && 0.0 <= p <= q && 0.0 < b' <= b
    ensures w * p / (p + b) <= w * q / (q + b')
  {
    assert p * b' <= q * b by {
      ProductNonNegative(p, b - b');
      ProductNonNegative(q - p, b);
    }
    QuotientLe(p, p + b, q, q + b');
    ScaledQuotient(w, p, p + b);
    ScaledQuotient(w, q, q + b');
    ProductNonNegative(w, q / (q + b') - p / (p + b));
  }

  lemma ScaledQuotient(w: real, x: real, z: real)
    requires z > 0.0
    ensures w * x / z == w * (x / z)
  {
  }

  /** A lossier path costs more; a more robust codec with the same Ie costs less. */
  lemma LossImpairmentMonotone(c: Codec, d: Codec, p: real, q: real)
    requires 0.0 <= p <= q && c.Ie() == d.Ie() && d.Bpl() <= c.Bpl()
    ensures LossImpairment(c, p) <= LossImpairment(d, q)
  {
    LossTerm(95.0 - c.Ie(), p, q, c.Bpl(), d.Bpl());
  }

  // The curve -------------------------------------------------------------------------

  /** The cubic dips below the floor near zero, so it is the clamp that makes the
      score monotone. */
  lemma CubicDips()
    ensures Cubic(3.0) < Cubic(0.0) == MOS_FLOOR
  {
  }

  function Base(x: real): real {
    160.0 * x - x * x - 1000.0
  }

  function Slope(x: real, y: real): real {
    Base(x) + y * (160.0 - x - y)
  }

  lemma CubicFactors(x: real)
    ensures Cubic(x) == 1.0 + (x * Base(x)) * 0.000007
  {
  }

  lemma CubicDifference(x: real, y: real)
    ensures Cubic(y) - Cubic(x) == ((y - x) * Slope(x, y)) * 0.000007
  {
  }

  lemma SlopeNonNegative(x: real, y: real)
    requires 0.0 < x <= y <= 100.0 && Base(x) >= 0.0
    ensures Slope(x, y) >= 0.0
  {
    if x + y <= 160.0 {
      ProductNonNegative(y, 160.0 - x - y);
    } else {
      var u, v := 100.0 - x, 100.0 - y;
      ProductNonNegative(u, 40.0 - u);
      ProductNonNegative(u, 40.0 - v);
      ProductNonNegative(v, 40.0 - v);
      assert Slope(x, y) == 1000.0 + 140.0 * (u + v) - (u * u + u * v + v * v);
    }
  }

  /** Where the cubic has climbed back to the floor it only rises from there. */
  lemma CubicRises(x: real, y: real)
    requires 0.0 < x <= y <= 100.0
    requires Cubic(x) >= MOS_FLOOR
    ensures Cubic(x) <= Cubic(y)
  {
    CubicFactors(x);
    if Base(x) < 0.0 {
      ProductNegative(Base(x), x);
    }
    SlopeNonNegative(x, y);
    CubicDifference(x, y);
    assert (y - x) * Slope(x, y) >= 0.0;
  }

  lemma CurveMonotone(x: real, y: real)
    requires x <= y
    ensures Clamp(Curve(x), MOS_FLOOR, MOS_CEIL_NB) <= Clamp(Curve(y), MOS_FLOOR, MOS_CEIL_NB)
  {
    if 0.0 < x < 100.0 && Cubic(x) >= MOS_FLOOR {
      CubicRises(x, if y < 100.0 then y else 100.0);
      assert Cubic(100.0) == MOS_CEIL_NB;
    }
  }

  lemma CurveBelowCeiling(x: real)
    ensures Curve(x) <= MOS_CEIL_NB
  {
    if 0.0 < x < 100.0 && Cubic(x) >= MOS_FLOOR {
      CubicRises(x, 100.0);
    }
  }

  lemma RToMosMonotone(r: real, s: real, codec: Codec)
    requires r <= s
    ensures RToMos(r, codec) <= RToMos(s, codec)
  {
    if codec.IsWideband() {
      CurveMonotone(r / 129.0 * 100.0, s / 129.0 * 100.0);
      CurveBelowCeiling(r / 129.0 * 100.0);
      CurveBelowCeiling(s / 129.0 * 100.0);
    } else {
      CurveMonotone(r, s);
    }
  }

  // Main results ------------------------------------------------------------------------

  /** `worse` has at least the latency, jitter and loss of `better`, over the same
      codec and the same buffer. */
  predicate NoBetter(worse: MosInput, better: MosInput) {
    && worse.codec == better.codec
    && worse.jitterBufferMs == better.jitterBufferMs
    && worse.rttUs >= better.rttUs
    && worse.jitterUs >= better.jitterUs
    && worse.lossPct >= better.lossPct
  }

  lemma RatingMonotone(worse: MosInput, better: MosInput)
    requires NoBetter(worse, better)
    ensures Rating(worse) <= Rating(better)
  {
    DelayMonotone(EffectiveDelay(better), EffectiveDelay(worse));
    LateLossMonotone(better.jitterUs as real / 1000.0, worse.jitterUs as real / 1000.0, better.jitterBufferMs);
    LossImpairmentMonotone(better.codec, better.codec, TotalLoss(better), TotalLoss(worse));
  }

  /** More latency, more jitter or more loss never raises either score. */
  lemma ScoreMonotone(worse: MosInput, better: MosInput)
    requires NoBetter(worse, better)
    ensures Score(worse).mos <= Score(better).mos
    ensures Score(worse).rFactor <= Score(better).rFactor
  {
    RatingMonotone(worse, better);
    RToMosMonotone(Rating(worse), Rating(better), better.codec);
    RoundMonotone(RToMos(Rating(worse), better.codec), RToMos(Rating(better), better.codec));
    RoundMonotone(Rating(worse), Rating(better));
  }

  /** Scores stay on the published scales, rounding included. */
  lemma ScoreInRange(input: MosInput)
    ensures 0.0 <= Score(input).rFactor <= input.codec.RMax()
    ensures MOS_FLOOR <= Score(input).mos <= input.codec.Ceiling()
  {
    RatingInRange(Rating(input), input.codec);
    MosInRange(RToMos(Rating(input), input.codec), input.codec);
  }

  lemma RatingInRange(r: real, codec: Codec)
    requires 0.0 <= r <= codec.RMax()
    ensures 0.0 <= Round2(r) <= codec.RMax()
  {
    RoundMonotone(0.0, r);
    RoundMonotone(r, codec.RMax());
    assert Round2(93.2) == 93.2 && Round2(129.0) == 129.0;
  }

  lemma MosInRange(mos: real, codec: Codec)
    requires MOS_FLOOR <= mos <= codec.Ceiling()
    ensures MOS_FLOOR <= Round2(mos) <= codec.Ceiling()
  {
    RoundMonotone(MOS_FLOOR, mos);
    RoundMonotone(mos, codec.Ceiling());
    assert Round2(1.0) == 1.0 && Round2(4.5) == 4.5 && Round2(4.8) == 4.8;
  }

  /** The effective delay is the documented one, half the round trip and twice the
      jitter, only where the buffer happens to be twice the jitter deep. */
  lemma DelayIsAsDocumented(input: MosInput)
    ensures EffectiveDelay(input) == input.rttUs as real / 2000.0 + 2.0 * (input.jitterUs as real / 1000.0) <==>
      input.jitterBufferMs == input.jitterUs as real / 500.0
  {
  }

  /** With the default buffer of 60 ms and no jitter, 100 ms round trip count as 110 ms,
      not as the documented 50. */
  lemma DelayExample(loss: real, codec: Codec)
    ensures EffectiveDelay(MosInput(100_000, 0, loss, codec, 60.0)) == 110.0
  {
  }

  /** Jitter that fits the buffer costs nothing. */
  lemma JitterWithinBufferIsAbsorbed(input: MosInput)
    requires input.jitterUs as real / 1000.0 <= input.jitterBufferMs
    ensures Score(input) == Score(input.(jitterUs := 0))
  {
  }

  /** The ends of each scale: a perfect narrowband path scores 4.41, a perfect
      wideband one reaches the wideband ceiling, a broken one is on the floor. */
  lemma ScaleEnds(codec: Codec)
    ensures Round2(RToMos(codec.RMax(), codec)) == if codec.IsWideband() then MOS_CEIL_WB else 4.41
    ensures RToMos(0.0, codec) == MOS_FLOOR
  {
    var perfect := Cubic(93.2);
    assert 4.405 <= perfect < 4.415;
    assert (perfect * 100.0 + 0.5).Floor == 441;
    assert 129.0 / 129.0 * 100.0 == 100.0;
  }

  /** Loss concealment never hurts. */
  lemma ConcealmentNeverHurts(input: MosInput)
    requires input.codec == G711
    ensures Score(input).mos <= Score(input.(codec := G711Plc)).mos
  {
    var plc := input.(codec := G711Plc);
    LossImpairmentMonotone(G711Plc, G711, TotalLoss(input), TotalLoss(input));
    assert Rating(input) <= Rating(plc);
    RToMosMonotone(Rating(input), Rating(plc), G711);
    RoundMonotone(RToMos(Rating(input), G711), RToMos(Rating(plc), G711Plc));
  }
}
