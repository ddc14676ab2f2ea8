/** The metrics computed from one probe session's samples. Latencies are whole
    microseconds. */
module Stats {
  import opened Wrappers
  import opened Arithmetic
  import opened Sorting
  import opened PairSums
  import opened SetSizes

  datatype Sample = Sample(seqNo: nat, reflectorSeq: Option<nat>, rttNs: nat, arrivalIndex: nat)

  datatype RttStats = RttStats(minUs: nat, avgUs: nat, maxUs: nat, stddevUs: nat, p50Us: nat, p95Us: nat, p99Us: nat)

  datatype JitterStats = JitterStats(ipdvAvgUs: nat, pdvP95Us: nat)

  datatype LossStats = LossStats(
    sent: nat, received: nat, forwardLost: nat, reverseLost: nat, unknownDirection: nat, lossPct: real)

  datatype ReorderStats = ReorderStats(reordered: nat, maxDisplacement: nat, duplicated: nat)

  predicate AtMost(a: nat, b: nat) { a <= b }
  predicate BySeq(a: Sample, b: Sample) { a.seqNo <= b.seqNo }
  predicate ByArrival(a: Sample, b: Sample) { a.arrivalIndex <= b.arrivalIndex }

  function Sum(s: seq<nat>): nat {
    if s == [] then 0 else Sum(s[..|s| - 1]) + s[|s| - 1]
  }

  // Integer square root -------------------------------------------------------------

  predicate IsRoot(r: nat, n: nat) {
    r * r <= n < (r + 1) * (r + 1)
  }

  lemma RootUnique(r: nat, s: nat, n: nat)
    requires IsRoot(r, n) && IsRoot(s, n)
    ensures r == s
  {
    if r < s {
      Squares(r + 1, s);
    } else if s < r {
      Squares(s + 1, r);
    }
  }

  lemma Squares(a: nat, b: nat)
    ensures a <= b <==> a * a <= b * b
  {
    if a <= b {
      ProductGrows(a, b, a);
      ProductGrows(a, b, b);
    } else {
      ProductGrows(b + 1, a, a);
      ProductGrows(b, a, b);
    }
  }

  lemma SquareNonNegative(d: int)
    ensures d * d >= 0
  {
  }

  lemma SquareOfSum(a: int, b: int)
    ensures (a + b) * (a + b) == (a - b) * (a - b) + 4 * (a * b)
  {
  }

  lemma SquareOfDouble(c: int)
    ensures (2 * c) * (2 * c) == 4 * (c * c)
  {
  }

  /** The square of a mean is at least the product. */
  lemma MeanSquare(a: nat, b: nat, c: nat)
    requires a + b <= 2 * c
    ensures a * b <= c * c
  {
    SquareOfSum(a, b);
    SquareNonNegative(a - b);
    Squares(a + b, 2 * c);
    SquareOfDouble(c);
  }

  /** Newton's step from above never falls below the root. */
  lemma NewtonStaysAbove(x: nat, n: nat)
    requires x > 0
    ensures var y := (x + n / x) / 2; (y + 1) * (y + 1) > n
  {
    var q := n / x;
    assert n == q * x + n % x;
    Distribute(q, 1, x);
    MeanSquare(q + 1, x, (x + q) / 2 + 1);
  }

  /** Where Newton's step stops falling, the root has been reached. */
  lemma NewtonStops(x: nat, n: nat)
    requires x > 0 && (x + n / x) / 2 >= x
    ensures x * x <= n
  {
    var q := n / x;
    assert n == q * x + n % x;
    ProductGrows(x, q, x);
  }

  method Isqrt(n: nat) returns (r: nat)
    ensures IsRoot(r, n)
  {
    if n == 0 {
      return 0;
    }
    var x := n;
    var y := (x + 1) / 2;
    assert n / n == 1 by { QuotientAndRemainder(n, n, 1, 0); }
    assert (n + 1) * (n + 1) > n by { Distribute(n, 1, n + 1); }
    while y < x
      invariant 0 < x <= n && y == (x + n / x) / 2
      invariant (x + 1) * (x + 1) > n
      decreases x
    {
      NewtonStaysAbove(x, n);
      assert n / x >= 1 by { QuotientBounds(1, x, n); }
      x := y;
      y := (x + n / x) / 2;
    }
    NewtonStops(x, n);
    r := x;
  }

  // Percentiles ----------------------------------------------------------------------------

  /** Nearest rank, for a whole-number percentage. */
  function Percentile(sorted: seq<nat>, p: nat): nat {
    if sorted == [] then
      0
    else
      var rank := (p * |sorted| + 99) / 100;
      var at := SaturatingSub(rank, 1);
      sorted[if at < |sorted| then at else |sorted| - 1]
  }

  function CountUpTo(s: seq<nat>, v: nat): (c: nat)
    ensures c <= |s|
  {
    if s == [] then 0 else CountUpTo(s[..|s| - 1], v) + if s[|s| - 1] <= v then 1 else 0
  }

  lemma {:induction false} CountInsert(s: seq<nat>, x: nat, v: nat)
    ensures CountUpTo(InsertBy(s, x, AtMost), v) == CountUpTo(s, v) + if x <= v then 1 else 0
  {
    if s == [] || s[|s| - 1] <= x {
      assert (s + [x])[..|s|] == s;
    } else {
      CountInsert(s[..|s| - 1], x, v);
      assert InsertBy(s, x, AtMost) == InsertBy(s[..|s| - 1], x, AtMost) + [s[|s| - 1]];
    }
  }

  lemma {:induction false} CountSorted(s: seq<nat>, v: nat)
    ensures CountUpTo(SortBy(s, AtMost), v) == CountUpTo(s, v)
  {
    if s != [] {
      CountSorted(s[..|s| - 1], v);
      CountInsert(SortBy(s[..|s| - 1], AtMost), s[|s| - 1], v);
    }
  }

  lemma {:induction false} CountInSorted(s: seq<nat>, k: nat, v: nat)
    requires SortedBy(s, AtMost) && k < |s|
    ensures v >= s[k] ==> CountUpTo(s, v) >= k + 1
    ensures v < s[k] ==> CountUpTo(s, v) <= k
  {
    var n := |s| - 1;
    assert forall i, j :: 0 <= i < j < |s| ==> s[i] <= s[j];
    if k < n {
      CountInSorted(s[..n], k, v);
      assert s[k] <= s[n];
    } else if n > 0 {
      assert s[n - 1] <= s[n];
      if v >= s[n] { CountInSorted(s[..n], n - 1, v); }
    }
  }

  lemma RankBounds(p: nat, n: nat) returns (rank: nat)
    requires n > 0 && 1 <= p <= 100
    ensures rank == (p * n + 99) / 100
    ensures 1 <= rank <= n && 100 * rank >= p * n && 100 * (rank - 1) < p * n
  {
    ProductGrows(p, 100, n);
    ProductGrows(1, p, n);
    rank := (p * n + 99) / 100;
  }

  lemma PercentileAt(t: seq<nat>, p: nat) returns (rank: nat)
    requires t != [] && 1 <= p <= 100
    ensures 1 <= rank <= |t| && 100 * rank >= p * |t| && 100 * (rank - 1) < p * |t|
    ensures Percentile(t, p) == t[rank - 1]
  {
    rank := RankBounds(p, |t|);
  }

  lemma PercentileCounts(t: seq<nat>, p: nat, v: nat)
    requires t != [] && 1 <= p <= 100 && SortedBy(t, AtMost)
    ensures var q := Percentile(t, p);
      && q in t
      && (v >= q ==> 100 * CountUpTo(t, v) >= p * |t|)
      && (v < q ==> 100 * CountUpTo(t, v) < p * |t|)
  {
    var rank := PercentileAt(t, p);
    CountInSorted(t, rank - 1, v);
  }

  /** `q` is the smallest sample that at least `p` percent of the samples do not exceed. */
  ghost predicate IsRank(s: seq<nat>, p: nat, q: nat) {
    q in s && forall v: nat :: v >= q <==> 100 * CountUpTo(s, v) >= p * |s|
  }

  /** The p-th percentile is the smallest sample that at least p percent of the
      samples do not exceed. */
  lemma PercentileIsNearestRank(s: seq<nat>, p: nat)
    requires s != [] && 1 <= p <= 100
    ensures IsRank(s, p, Percentile(SortBy(s, AtMost), p))
  {
    var t := SortBy(s, AtMost);
    SortBySorts(s, AtMost);
    assert t != [];
    PercentileCounts(t, p, 0);
    assert Percentile(t, p) in multiset(t);
    forall v: nat ensures v >= Percentile(t, p) <==> 100 * CountUpTo(s, v) >= p * |s| {
      PercentileCounts(t, p, v);
      CountSorted(s, v);
    }
  }

  lemma PercentileMonotone(t: seq<nat>, p: nat, q: nat)
    requires t != [] && SortedBy(t, AtMost) && p <= q
    ensures t[0] <= Percentile(t, p) <= Percentile(t, q) <= t[|t| - 1]
  {
    ProductGrows(p, q, |t|);
    assert forall i, j :: 0 <= i < j < |t| ==> t[i] <= t[j];
  }

  // Round-trip statistics ---------------------------------------------------------------

  function Micros(samples: seq<Sample>): (us: seq<nat>)
    ensures |us| == |samples| && forall i :: 0 <= i < |us| ==> us[i] == samples[i].rttNs / 1000
  {
    if samples == [] then [] else Micros(samples[..|samples| - 1]) + [samples[|samples| - 1].rttNs / 1000]
  }

  function SumSquares(us: seq<nat>, avg: nat): nat {
    if us == [] then
      0
    else
      var d := AbsDiff(us[|us| - 1], avg);
      SumSquares(us[..|us| - 1], avg) + d * d
  }

  function Mean(total: nat, n: nat): nat
    requires n > 0
  {
    total / n
  }

  lemma MeanIs(total: nat, n: nat)
    requires n > 0
    ensures Mean(total, n) * n <= total < (Mean(total, n) + 1) * n
  {
    assert total == Mean(total, n) * n + total % n;
    Distribute(Mean(total, n), 1, n);
  }

  lemma {:induction false} SumInsert(s: seq<nat>, x: nat)
    ensures Sum(InsertBy(s, x, AtMost)) == Sum(s) + x
  {
    if s == [] || s[|s| - 1] <= x {
      assert (s + [x])[..|s|] == s;
    } else {
      var init, last := s[..|s| - 1], s[|s| - 1];
      SumInsert(init, x);
      assert (InsertBy(init, x, AtMost) + [last])[..|InsertBy(init, x, AtMost)|] == InsertBy(init, x, AtMost);
    }
  }

  lemma {:induction false} SumSorted(s: seq<nat>)
    ensures Sum(SortBy(s, AtMost)) == Sum(s)
  {
    if s != [] {
      SumSorted(s[..|s| - 1]);
      SumInsert(SortBy(s[..|s| - 1], AtMost), s[|s| - 1]);
    }
  }

  function SumOfSquares(s: seq<nat>): nat {
    if s == [] then 0 else SumOfSquares(s[..|s| - 1]) + s[|s| - 1] * s[|s| - 1]
  }

  lemma {:induction false} SumOfSquaresInsert(s: seq<nat>, x: nat)
    ensures SumOfSquares(InsertBy(s, x, AtMost)) == SumOfSquares(s) + x * x
  {
    if s == [] || s[|s| - 1] <= x {
      assert (s + [x])[..|s|] == s;
    } else {
      var init, last := s[..|s| - 1], s[|s| - 1];
      SumOfSquaresInsert(init, x);
      assert (InsertBy(init, x, AtMost) + [last])[..|InsertBy(init, x, AtMost)|] == InsertBy(init, x, AtMost);
    }
  }

  lemma {:induction false} SumOfSquaresSorted(s: seq<nat>)
    ensures SumOfSquares(SortBy(s, AtMost)) == SumOfSquares(s)
  {
    if s != [] {
      SumOfSquaresSorted(s[..|s| - 1]);
      SumOfSquaresInsert(SortBy(s[..|s| - 1], AtMost), s[|s| - 1]);
    }
  }

  lemma SquareOfDifference(x: nat, a: nat)
    ensures AbsDiff(x, a) * AbsDiff(x, a) + 2 * (a * x) == x * x + a * a
  {
    var d := if x >= a then x - a else a - x;
    var lo := if x >= a then a else x;
    SquareOfSum(lo + d, lo);
    SquareOfSum(lo, d);
    Distribute(lo, d, lo);
  }

  lemma OneMoreDeviation(a: nat, x: nat, n: nat, sum: nat, squares: nat, deviations: nat)
    requires deviations + 2 * (a * sum) == squares + n * (a * a)
    ensures deviations + AbsDiff(x, a) * AbsDiff(x, a) + 2 * (a * (sum + x)) == squares + x * x + (n + 1) * (a * a)
  {
    SquareOfDifference(x, a);
    Distribute(sum, x, a);
    Distribute(n, 1, a * a);
  }

  /** The sum of squared deviations from `a`: that of the squares, less twice `a` times
      the sum, plus the square of `a` for each. */
  lemma {:induction false} DeviationsSquared(us: seq<nat>, a: nat)
    ensures SumSquares(us, a) + 2 * (a * Sum(us)) == SumOfSquares(us) + |us| * (a * a)
  {
    if us != [] {
      var n, x := |us| - 1, us[|us| - 1];
      DeviationsSquared(us[..n], a);
      OneMoreDeviation(a, x, n, Sum(us[..n]), SumOfSquares(us[..n]), SumSquares(us[..n], a));
    }
  }

  /** The summary of sorted microseconds `t`, but for the standard deviation. */
  function Summary(t: seq<nat>, stddev: nat): RttStats
    requires t != []
  {
    RttStats(t[0], Mean(Sum(t), |t|), t[|t| - 1], stddev, Percentile(t, 50), Percentile(t, 95), Percentile(t, 99))
  }

  ghost predicate IsRttStats(t: seq<nat>, r: RttStats)
    requires t != []
  {
    r == Summary(t, r.stddevUs) && IsRoot(r.stddevUs, Mean(SumSquares(t, r.avgUs), |t|))
  }

  /** `m` is the whole part of `total / n`. */
  predicate IsMean(m: int, total: int, n: nat) {
    m * n <= total < (m + 1) * n
  }

  /** What each figure is of the round trips `us`, in whatever order they come. The
      standard deviation is the whole root of the mean of (x - avg)^2, which is summed as
      x^2 - 2 avg x + avg^2. */
  ghost predicate Summarises(r: RttStats, us: seq<nat>) {
    && r.minUs in us && r.maxUs in us && (forall i :: 0 <= i < |us| ==> r.minUs <= us[i] <= r.maxUs)
    && IsMean(r.avgUs, Sum(us), |us|)
    && IsRank(us, 50, r.p50Us) && IsRank(us, 95, r.p95Us) && IsRank(us, 99, r.p99Us)
    && exists variance: nat :: IsRoot(r.stddevUs, variance) &&
         IsMean(variance, SumOfSquares(us) - 2 * (r.avgUs * Sum(us)) + |us| * (r.avgUs * r.avgUs), |us|)
  }

  lemma SummaryIsRight(us: seq<nat>, r: RttStats)
    requires us != [] && SortBy(us, AtMost) != [] && IsRttStats(SortBy(us, AtMost), r)
    ensures Summarises(r, us)
  {
    var t := SortBy(us, AtMost);
    EndsAreExtremes(us);
    SumSorted(us);
    SumOfSquaresSorted(us);
    DeviationsSquared(t, r.avgUs);
    MeanIs(Sum(t), |t|);
    MeanIs(SumSquares(t, r.avgUs), |t|);
    PercentileIsNearestRank(us, 50);
    PercentileIsNearestRank(us, 95);
    PercentileIsNearestRank(us, 99);
  }

  lemma EndsAreExtremes(us: seq<nat>)
    requires us != []
    ensures var t := SortBy(us, AtMost);
      && |t| == |us| && t[0] in us && t[|t| - 1] in us
      && forall i :: 0 <= i < |us| ==> t[0] <= us[i] <= t[|t| - 1]
  {
    var t := SortBy(us, AtMost);
    SortBySorts(us, AtMost);
    SortByMembers(us, AtMost);
    assert t[0] in t && t[|t| - 1] in t;
    forall i | 0 <= i < |us| ensures t[0] <= us[i] <= t[|t| - 1] {
      assert us[i] in t;
      var k :| 0 <= k < |t| && t[k] == us[i];
      assert k > 0 ==> AtMost(t[0], t[k]);
      assert k < |t| - 1 ==> AtMost(t[k], t[|t| - 1]);
    }
  }

  method RttStatsOf(samples: seq<Sample>) returns (r: Option<RttStats>)
    ensures r.None? <==> samples == []
    ensures r.Some? ==> Summarises(r.value, Micros(samples))
    ensures r.Some? ==> |SortBy(Micros(samples), AtMost)| > 0 && IsRttStats(SortBy(Micros(samples), AtMost), r.value)
  {
    if samples == [] {
      return None;
    }
    var us := SortBy(Micros(samples), AtMost);
    assert |us| == |samples| by { SortBySorts(Micros(samples), AtMost); }
    r := Summarise(us);
    SummaryIsRight(Micros(samples), r.value);
  }

  method Summarise(us: seq<nat>) returns (r: Option<RttStats>)
    requires us != []
    ensures r.Some? && IsRttStats(us, r.value)
  {
    var n := |us|;
    var avg := Mean(Sum(us), n);
    var stddev := Isqrt(Mean(SumSquares(us, avg), n));
    return Some(Summary(us, stddev));
  }

  lemma {:induction false} SumBounds(s: seq<nat>, lo: nat, hi: nat)
    requires forall i :: 0 <= i < |s| ==> lo <= s[i] <= hi
    ensures |s| * lo <= Sum(s) <= |s| * hi
  {
    if s != [] {
      var n := |s| - 1;
      SumBounds(s[..n], lo, hi);
      Distribute(n, 1, lo);
      Distribute(n, 1, hi);
    }
  }

  lemma {:induction false} SumSquaresBound(s: seq<nat>, avg: nat, w: nat)
    requires forall i :: 0 <= i < |s| ==> AbsDiff(s[i], avg) <= w
    ensures SumSquares(s, avg) <= |s| * (w * w)
  {
    if s != [] {
      var n := |s| - 1;
      SumSquaresBound(s[..n], avg, w);
      Squares(AbsDiff(s[n], avg), w);
      Distribute(n, 1, w * w);
    }
  }

  lemma MeanBounds(total: nat, n: nat, lo: nat, hi: nat)
    requires n > 0 && n * lo <= total <= n * hi
    ensures lo <= Mean(total, n) <= hi
  {
    QuotientBounds(lo, n, total);
    var q := total / n;
    assert total == q * n + total % n;
    if q >= hi + 1 {
      ProductGrows(hi + 1, q, n);
      Distribute(hi, 1, n);
    }
  }

  lemma MeanAndDeviation(t: seq<nat>, lo: nat, hi: nat, stddev: nat)
    requires t != [] && forall i :: 0 <= i < |t| ==> lo <= t[i] <= hi
    requires IsRoot(stddev, Mean(SumSquares(t, Mean(Sum(t), |t|)), |t|))
    ensures lo <= Mean(Sum(t), |t|) <= hi && lo <= hi && stddev <= hi - lo
  {
    var n, avg := |t|, Mean(Sum(t), |t|);
    assert lo <= t[0] <= hi;
    var w := hi - lo;
    SumBounds(t, lo, hi);
    MeanBounds(Sum(t), n, lo, hi);
    SumSquaresBound(t, avg, w);
    MeanBounds(SumSquares(t, avg), n, 0, w * w);
    Squares(stddev, w);
  }

  /** Every summary lies in the range of the samples, and the percentiles in order. */
  lemma RttStatsOrdered(t: seq<nat>, r: RttStats)
    requires t != [] && SortedBy(t, AtMost) && IsRttStats(t, r)
    ensures r.minUs <= r.avgUs <= r.maxUs
    ensures r.stddevUs <= r.maxUs - r.minUs
    ensures r.minUs <= r.p50Us <= r.p95Us <= r.p99Us <= r.maxUs
  {
    var n := |t|;
    forall i | 0 <= i < n ensures r.minUs <= t[i] <= r.maxUs {
      assert i > 0 ==> t[0] <= t[i];
      assert i < n - 1 ==> t[i] <= t[n - 1];
    }
    MeanAndDeviation(t, r.minUs, r.maxUs, r.stddevUs);
    PercentileMonotone(t, 50, 95);
    PercentileMonotone(t, 95, 99);
  }

  // Jitter ----------------------------------------------------------------------------------

  /** Round-trip differences between consecutively sent packets that both returned. */
  function Deltas(bySeq: seq<Sample>): seq<nat> {
    if |bySeq| < 2 then
      []
    else
      var a, b := bySeq[|bySeq| - 2], bySeq[|bySeq| - 1];
      Deltas(bySeq[..|bySeq| - 1]) + if b.seqNo == a.seqNo + 1 then [AbsDiff(b.rttNs / 1000, a.rttNs / 1000)] else []
  }

  function Deviations(us: seq<nat>, median: nat): (devs: seq<nat>)
    ensures |devs| == |us|
    ensures forall i :: 0 <= i < |us| ==>
      devs[i] == if us[i] >= median then us[i] - median else median - us[i]
  {
    if us == [] then [] else Deviations(us[..|us| - 1], median) + [AbsDiff(us[|us| - 1], median)]
  }

  function JitterFrom(samples: seq<Sample>, deltas: seq<nat>): Option<JitterStats> {
    if deltas == [] then
      None
    else
      var us := SortBy(Micros(samples), AtMost);
      var devs := SortBy(Deviations(us, Percentile(us, 50)), AtMost);
      Some(JitterStats(Mean(Sum(deltas), |deltas|), Percentile(devs, 95)))
  }

  function Jitter(samples: seq<Sample>): Option<JitterStats> {
    if |samples| < 2 then None else JitterFrom(samples, Deltas(SortBy(samples, BySeq)))
  }

  method DeltasOf(bySeq: seq<Sample>) returns (deltas: seq<nat>)
    requires bySeq != []
    ensures deltas == Deltas(bySeq)
  {
    deltas := [];
    for i := 0 to |bySeq| - 1
      invariant deltas == Deltas(bySeq[..i + 1])
    {
      assert bySeq[..i + 2][..i + 1] == bySeq[..i + 1];
      if bySeq[i + 1].seqNo == bySeq[i].seqNo + 1 {
        deltas := deltas + [AbsDiff(bySeq[i + 1].rttNs / 1000, bySeq[i].rttNs / 1000)];
      }
    }
    assert bySeq[..|bySeq|] == bySeq;
  }

  method JitterStatsOf(samples: seq<Sample>) returns (r: Option<JitterStats>)
    ensures r == Jitter(samples)
  {
    if |samples| < 2 {
      return None;
    }
    var bySeq := SortBy(samples, BySeq);
    assert |bySeq| == |samples| by { SortBySorts(samples, BySeq); }
    var deltas := DeltasOf(bySeq);
    return JitterFrom(samples, deltas);
  }

  // What the differences are, without reference to any order: one for each two samples
  // whose sequence numbers are neighbours.

  predicate Neighbours(a: Sample, b: Sample) {
    a.seqNo == b.seqNo + 1 || b.seqNo == a.seqNo + 1
  }

  function Us(s: Sample): nat {
    s.rttNs / 1000
  }

  function GapCount(a: Sample, b: Sample): nat {
    if Neighbours(a, b) then 1 else 0
  }

  function GapSize(a: Sample, b: Sample): nat {
    if Neighbours(a, b) then AbsDiff(Us(a), Us(b)) else 0
  }

  ghost predicate StrictlyRising(t: seq<Sample>) {
    forall i, j :: 0 <= i < j < |t| ==> t[i].seqNo < t[j].seqNo
  }

  /** In strict sequence order only the one before can be a neighbour. */
  lemma NeighbourIsBefore(t: seq<Sample>, i: nat)
    requires StrictlyRising(t) && i + 2 < |t|
    ensures !Neighbours(t[i], t[|t| - 1])
  {
    var n := |t| - 1;
    assert t[i].seqNo < t[n - 1].seqNo < t[n].seqNo;
  }

  lemma DeltasStep(t: seq<Sample>)
    requires StrictlyRising(t) && |t| >= 2
    ensures var n := |t| - 1;
      var before, gap := Deltas(t[..n]), GapSize(t[n - 1], t[n]);
      Deltas(t) == before + if Neighbours(t[n - 1], t[n]) then [gap] else []
  {
    var n := |t| - 1;
    assert t[n - 1].seqNo < t[n].seqNo;
    assert Us(t[n]) == t[n].rttNs / 1000 && Us(t[n - 1]) == t[n - 1].rttNs / 1000;
  }

  lemma SumAppend(d: seq<nat>, gap: nat)
    ensures Sum(d + [gap]) == Sum(d) + gap
  {
    assert (d + [gap])[..|d|] == d;
  }

  lemma {:induction false} DeltasAreGaps(t: seq<Sample>)
    requires StrictlyRising(t)
    ensures |Deltas(t)| == PairSum(t, GapCount) && Sum(Deltas(t)) == PairSum(t, GapSize)
  {
    if |t| >= 2 {
      var n := |t| - 1;
      DeltasAreGaps(t[..n]);
      forall i | 0 <= i < n - 1 ensures !Neighbours(t[i], t[n]) {
        NeighbourIsBefore(t, i);
      }
      SumToLast(t[..n], t[n], GapCount);
      SumToLast(t[..n], t[n], GapSize);
      DeltasStep(t);
      SumAppend(Deltas(t[..n]), GapSize(t[n - 1], t[n]));
      assert Deltas(t[..n]) + [] == Deltas(t[..n]);
    } else if |t| == 1 {
      assert t[..0] == [];
    }
  }

  ghost predicate NumbersDiffer(samples: seq<Sample>) {
    forall i, j :: 0 <= i < j < |samples| ==> samples[i].seqNo != samples[j].seqNo
  }

  lemma SortedRises(samples: seq<Sample>)
    requires NumbersDiffer(samples)
    ensures StrictlyRising(SortBy(samples, BySeq))
  {
    var number := (s: Sample) => s.seqNo;
    assert AllDiffer(samples, number);
    SortKeepsDifferent(samples, BySeq, number);
    SortBySorts(samples, BySeq);
    var t := SortBy(samples, BySeq);
    forall i, j | 0 <= i < j < |t| ensures t[i].seqNo < t[j].seqNo {
      assert BySeq(t[i], t[j]) && number(t[i]) != number(t[j]);
    }
  }

  lemma DeltasOfSorted(samples: seq<Sample>)
    requires NumbersDiffer(samples)
    ensures var d := Deltas(SortBy(samples, BySeq));
      |d| == PairSum(samples, GapCount) && Sum(d) == PairSum(samples, GapSize)
  {
    SortedRises(samples);
    DeltasAreGaps(SortBy(samples, BySeq));
    SortKeepsPairSum(samples, BySeq, GapCount);
    SortKeepsPairSum(samples, BySeq, GapSize);
  }

  lemma TooFewToDiffer(samples: seq<Sample>)
    requires |samples| < 2
    ensures PairSum(samples, GapCount) == 0
  {
    if |samples| == 1 {
      assert samples[..0] == [];
    }
  }

  /** The IPDV figure: the mean difference over all pairs of samples with neighbouring
      sequence numbers, in whatever order; and there are jitter figures exactly when
      there are such pairs. */
  lemma IpdvIsMeanGap(samples: seq<Sample>)
    requires NumbersDiffer(samples)
    ensures var pairs, j := PairSum(samples, GapCount), Jitter(samples);
      && (j.None? <==> pairs == 0)
      && (j.Some? ==> j.value.ipdvAvgUs == Mean(PairSum(samples, GapSize), pairs))
  {
    DeltasOfSorted(samples);
    if |samples| < 2 {
      TooFewToDiffer(samples);
    }
  }

  ghost predicate HasNeighbours(samples: seq<Sample>) {
    exists i, j :: 0 <= i < |samples| && 0 <= j < |samples| && samples[j].seqNo == samples[i].seqNo + 1
  }

  lemma {:induction false} DeltasOfNeighbours(t: seq<Sample>, i: nat, j: nat)
    requires SortedBy(t, BySeq) && i < |t| && j < |t| && t[j].seqNo == t[i].seqNo + 1
    ensures Deltas(t) != []
  {
    var n := |t| - 1;
    assert j < i ==> BySeq(t[j], t[i]);
    if j < n {
      DeltasOfNeighbours(t[..n], i, j);
    } else {
      assert BySeq(t[n - 1], t[n]) && (i < n - 1 ==> BySeq(t[i], t[n - 1]));
      if t[n - 1].seqNo == t[n].seqNo {
        DeltasOfNeighbours(t[..n], i, n - 1);
      }
    }
  }

  lemma {:induction false} NeighboursOfDeltas(t: seq<Sample>) returns (k: nat)
    requires Deltas(t) != []
    ensures k + 1 < |t| && t[k + 1].seqNo == t[k].seqNo + 1
  {
    var n := |t| - 1;
    if t[n].seqNo == t[n - 1].seqNo + 1 {
      k := n - 1;
    } else {
      k := NeighboursOfDeltas(t[..n]);
      assert t[..n][k] == t[k] && t[..n][k + 1] == t[k + 1];
    }
  }

  lemma NeighboursCarry(s: seq<Sample>, t: seq<Sample>)
    requires HasNeighbours(s) && forall x :: x in s ==> x in t
    ensures HasNeighbours(t)
  {
    var i, j :| 0 <= i < |s| && 0 <= j < |s| && s[j].seqNo == s[i].seqNo + 1;
    assert s[i] in t && s[j] in t;
    var k :| 0 <= k < |t| && t[k] == s[i];
    var l :| 0 <= l < |t| && t[l] == s[j];
  }

  lemma DeltasIffNeighbours(t: seq<Sample>)
    requires SortedBy(t, BySeq)
    ensures Deltas(t) != [] <==> HasNeighbours(t)
  {
    if HasNeighbours(t) {
      var i, j :| 0 <= i < |t| && 0 <= j < |t| && t[j].seqNo == t[i].seqNo + 1;
      DeltasOfNeighbours(t, i, j);
    }
    if Deltas(t) != [] {
      var k := NeighboursOfDeltas(t);
    }
  }

  /** Whatever was duplicated, there are jitter figures exactly when some two samples
      have neighbouring numbers. */
  lemma JitterIffNeighbours(samples: seq<Sample>)
    ensures Jitter(samples).Some? <==> HasNeighbours(samples)
  {
    var t := SortBy(samples, BySeq);
    SortBySorts(samples, BySeq);
    SortByMembers(samples, BySeq);
    DeltasIffNeighbours(t);
    if HasNeighbours(samples) {
      NeighboursCarry(samples, t);
    } else if HasNeighbours(t) {
      NeighboursCarry(t, samples);
    }
  }

  ghost predicate GapsWithin(samples: seq<Sample>, lo: nat, hi: nat) {
    forall a, b :: a in samples && b in samples && Neighbours(a, b) ==> lo <= GapSize(a, b) <= hi
  }

  lemma {:induction false} DeltasWithin(t: seq<Sample>, lo: nat, hi: nat)
    requires GapsWithin(t, lo, hi)
    ensures forall k :: 0 <= k < |Deltas(t)| ==> lo <= Deltas(t)[k] <= hi
  {
    if |t| >= 2 {
      var n := |t| - 1;
      assert forall a :: a in t[..n] ==> a in t;
      DeltasWithin(t[..n], lo, hi);
      assert t[n - 1] in t && t[n] in t;
      assert t[n].seqNo == t[n - 1].seqNo + 1 ==> lo <= GapSize(t[n], t[n - 1]) <= hi;
    }
  }

  /** Whatever was duplicated and whichever copy the sort puts first, the IPDV figure
      lies between the smallest and the largest gap of neighbours. */
  lemma IpdvWithinGaps(samples: seq<Sample>, lo: nat, hi: nat)
    requires GapsWithin(samples, lo, hi) && Jitter(samples).Some?
    ensures lo <= Jitter(samples).value.ipdvAvgUs <= hi
  {
    var t := SortBy(samples, BySeq);
    SortByMembers(samples, BySeq);
    DeltasWithin(t, lo, hi);
    SumBounds(Deltas(t), lo, hi);
    MeanBounds(Sum(Deltas(t)), |Deltas(t)|, lo, hi);
  }

  /** Two copies of one number with different round trips, and the next number: which
      copy is compared depends on the order of the copies. */
  lemma JitterDependsOnCopies()
    ensures var a, b, c := Sample(0, None, 1000, 0), Sample(0, None, 3000, 0), Sample(1, None, 1000, 0);
      && Jitter([a, b, c]).Some? && Jitter([b, a, c]).Some?
      && Jitter([a, b, c]).value.ipdvAvgUs == 2 && Jitter([b, a, c]).value.ipdvAvgUs == 0
  {
    var a, b, c := Sample(0, None, 1000, 0), Sample(0, None, 3000, 0), Sample(1, None, 1000, 0);
    ThreeSorted(a, b, c);
    ThreeSorted(b, a, c);
  }

  lemma ThreeSorted(a: Sample, b: Sample, c: Sample)
    requires a.seqNo == b.seqNo == 0 && c.seqNo == 1
    ensures Jitter([a, b, c]).Some?
    ensures Jitter([a, b, c]).value.ipdvAvgUs == GapSize(b, c)
  {
    var s := [a, b, c];
    assert s[..2] == [a, b] && [a, b][..1] == [a] && [a][..0] == [];
    assert SortBy([a], BySeq) == [a];
    assert SortBy([a, b], BySeq) == [a, b];
    assert SortBy(s, BySeq) == s;
    assert Deltas([a, b]) == [];
    assert Us(b) == b.rttNs / 1000 && Us(c) == c.rttNs / 1000;
    assert s[|s| - 2] == b && s[|s| - 1] == c && s[..|s| - 1] == [a, b];
    assert Deltas(s) == [] + [GapSize(b, c)];
    SumAppend([], GapSize(b, c));
    assert [] + [GapSize(b, c)] == [GapSize(b, c)];
  }

  /** The PDV figure: the least deviation from the median that at least 95 percent do
      not exceed. `us` are the round trips in order, `devs` their deviations. */
  lemma PdvIsPercentile(samples: seq<Sample>) returns (us: seq<nat>, median: nat, devs: seq<nat>)
    requires Jitter(samples).Some?
    ensures multiset(us) == multiset(Micros(samples)) && IsRank(us, 50, median)
    ensures |devs| == |us| && forall i :: 0 <= i < |us| ==>
      devs[i] == if us[i] >= median then us[i] - median else median - us[i]
    ensures IsRank(devs, 95, Jitter(samples).value.pdvP95Us)
  {
    AtMostOrders();
    us := SortBy(Micros(samples), AtMost);
    SortBySorts(Micros(samples), AtMost);
    median := Percentile(us, 50);
    PercentileIsNearestRank(us, 50);
    SortForgetsOrder(us, Micros(samples), AtMost);
    devs := Deviations(us, median);
    PercentileIsNearestRank(devs, 95);
  }

  lemma AtMostOrders()
    ensures Ordering(AtMost)
  {
  }

  /** A sample without the record of when it arrived. */
  function Core(s: Sample): Sample {
    s.(arrivalIndex := 0)
  }

  function Cores(samples: seq<Sample>): (c: seq<Sample>)
    ensures |c| == |samples|
    ensures forall i :: 0 <= i < |samples| ==> c[i] == Core(samples[i])
  {
    if samples == [] then [] else Cores(samples[..|samples| - 1]) + [Core(samples[|samples| - 1])]
  }

  lemma {:induction false} InsertCore(s: seq<Sample>, x: Sample)
    ensures InsertBy(Cores(s), Core(x), BySeq) == Cores(InsertBy(s, x, BySeq))
  {
    if s == [] || BySeq(s[|s| - 1], x) {
      assert (s + [x])[..|s|] == s;
    } else {
      var init, last := s[..|s| - 1], s[|s| - 1];
      InsertCore(init, x);
      var r := InsertBy(init, x, BySeq);
      assert (r + [last])[..|r|] == r;
    }
  }

  lemma {:induction false} SortCores(s: seq<Sample>)
    ensures SortBy(Cores(s), BySeq) == Cores(SortBy(s, BySeq))
  {
    if s != [] {
      SortCores(s[..|s| - 1]);
      InsertCore(SortBy(s[..|s| - 1], BySeq), s[|s| - 1]);
    }
  }

  lemma {:induction false} DeltasOfCores(s: seq<Sample>)
    ensures Deltas(Cores(s)) == Deltas(s)
  {
    if |s| >= 2 {
      DeltasOfCores(s[..|s| - 1]);
    }
  }

  lemma {:induction false} MicrosConcat(s: seq<Sample>, t: seq<Sample>)
    ensures Micros(s + t) == Micros(s) + Micros(t)
  {
    if t == [] {
      assert s + t == s;
    } else {
      assert (s + t)[..|s + t| - 1] == s + t[..|t| - 1];
      MicrosConcat(s, t[..|t| - 1]);
    }
  }

  lemma MicrosAround(a: seq<Sample>, x: Sample, b: seq<Sample>)
    ensures Micros(a + [x] + b) == Micros(a) + [x.rttNs / 1000] + Micros(b)
    ensures Micros(a + b) == Micros(a) + Micros(b)
  {
    MicrosConcat(a, b);
    MicrosConcat(a + [x], b);
    assert (a + [x])[..|a|] == a;
  }

  lemma MicrosInserted(r: seq<Sample>, s: seq<Sample>, a: seq<Sample>, x: Sample, b: seq<Sample>)
    requires r == a + [x] + b && s == a + b
    ensures multiset(Micros(r)) == multiset(Micros(s) + [x.rttNs / 1000])
  {
    MicrosAround(a, x, b);
    MovedLast(Micros(a), Micros(b), x.rttNs / 1000);
  }

  lemma MovedLast(u: seq<nat>, v: seq<nat>, y: nat)
    ensures multiset(u + [y] + v) == multiset(u + v + [y])
  {
  }

  lemma {:induction false} SortMicros(s: seq<Sample>)
    ensures multiset(Micros(SortBy(s, BySeq))) == multiset(Micros(s))
  {
    if s != [] {
      SortMicros(s[..|s| - 1]);
      var t, last := SortBy(s[..|s| - 1], BySeq), s[|s| - 1];
      var k := InsertPlace(t, last, BySeq);
      assert t == t[..k] + t[k..];
      MicrosInserted(SortBy(s, BySeq), t, t[..k], last, t[k..]);
    }
  }

  lemma {:induction false} MicrosOfCores(s: seq<Sample>)
    ensures Micros(Cores(s)) == Micros(s)
  {
    if s != [] {
      MicrosOfCores(s[..|s| - 1]);
    }
  }

  /** Jitter is a property of the packets, not of the order they came home in: two
      sets of replies that agree on everything but arrival report the same jitter. */
  lemma JitterIgnoresArrival(s: seq<Sample>, t: seq<Sample>)
    requires multiset(Cores(s)) == multiset(Cores(t))
    requires Identifies(Cores(s), BySeq)
    ensures Jitter(s) == Jitter(t)
  {
    assert |multiset(Cores(s))| == |s| && |multiset(Cores(t))| == |t|;
    SameDeltas(s, t);
    SameMicros(s, t);
  }

  lemma SameDeltas(s: seq<Sample>, t: seq<Sample>)
    requires multiset(Cores(s)) == multiset(Cores(t)) && Identifies(Cores(s), BySeq)
    ensures Deltas(SortBy(s, BySeq)) == Deltas(SortBy(t, BySeq))
  {
    SortForgetsOrder(Cores(s), Cores(t), BySeq);
    SortCores(s);
    SortCores(t);
    DeltasOfCores(SortBy(s, BySeq));
    DeltasOfCores(SortBy(t, BySeq));
  }

  lemma SameMicros(s: seq<Sample>, t: seq<Sample>)
    requires multiset(Cores(s)) == multiset(Cores(t)) && Identifies(Cores(s), BySeq)
    ensures SortBy(Micros(s), AtMost) == SortBy(Micros(t), AtMost)
  {
    SortForgetsOrder(Cores(s), Cores(t), BySeq);
    SortMicros(Cores(s));
    SortMicros(Cores(t));
    MicrosOfCores(s);
    MicrosOfCores(t);
    SortForgetsOrder(Micros(s), Micros(t), AtMost);
  }

  // Reordering and duplication ----------------------------------------------------------------

  /** Arrivals preceded by a higher sequence number (section 3.3 of RFC 4737). */
  function Reordered(arrivals: seq<nat>): (c: nat)
    ensures c <= |arrivals|
  {
    if arrivals == [] then
      0
    else
      var n := |arrivals| - 1;
      Reordered(arrivals[..n]) + if exists i :: 0 <= i < n && arrivals[i] > arrivals[n] then 1 else 0
  }

  /** The largest drop from any arrival to any later one, or zero. */
  ghost predicate IsLargestInversion(arrivals: seq<nat>, d: nat) {
    && (forall i, j :: 0 <= i < j < |arrivals| ==> arrivals[i] <= arrivals[j] + d)
    && (d > 0 ==> exists i, j :: 0 <= i < j < |arrivals| && arrivals[i] == arrivals[j] + d)
  }

  ghost predicate IsHighWater(s: seq<nat>, high: nat) {
    (exists i :: 0 <= i < |s| && s[i] == high) && forall i :: 0 <= i < |s| ==> s[i] <= high
  }

  function Seqs(samples: seq<Sample>): (s: seq<nat>)
    ensures |s| == |samples| && forall i :: 0 <= i < |s| ==> s[i] == samples[i].seqNo
  {
    seq(|samples|, i requires 0 <= i < |samples| => samples[i].seqNo)
  }

  function Distinct(s: seq<nat>): set<nat> {
    set x | x in s
  }

  function DropRepeats(sorted: seq<nat>): seq<nat> {
    if |sorted| < 2 then
      sorted
    else
      var n := |sorted| - 1;
      DropRepeats(sorted[..n]) + if sorted[n] == sorted[n - 1] then [] else [sorted[n]]
  }

  lemma OneMoreDistinct(s: seq<nat>, x: nat)
    ensures |Distinct(s + [x])| == |Distinct(s)| + if x in s then 0 else 1
  {
    assert Distinct(s + [x]) == Distinct(s) + {x};
    OneMoreElement(Distinct(s), x);
  }

  /** Sorting and dropping repeats counts the different values. */
  lemma {:induction false} RepeatsDropped(t: seq<nat>)
    requires SortedBy(t, AtMost)
    ensures |DropRepeats(t)| == |Distinct(t)|
  {
    if t != [] {
      var n := |t| - 1;
      RepeatsDropped(t[..n]);
      assert t == t[..n] + [t[n]];
      OneMoreDistinct(t[..n], t[n]);
      RepeatIsNeighbour(t);
    } else {
      assert Distinct(t) == {};
    }
  }

  /** In a sorted sequence a value seen before was seen just before. */
  lemma RepeatIsNeighbour(t: seq<nat>)
    requires SortedBy(t, AtMost) && t != []
    ensures var n := |t| - 1;
      t[n] in t[..n] <==> n > 0 && t[n - 1] == t[n]
  {
    var n := |t| - 1;
    if t[n] in t[..n] {
      var i :| 0 <= i < n && t[..n][i] == t[n];
      assert i < n - 1 ==> t[i] <= t[n - 1];
      assert t[n - 1] <= t[n];
    } else if n > 0 {
      assert t[..n][n - 1] == t[n - 1];
    }
  }

  /** Copies of a sequence number already seen: sort, drop repeats, compare lengths. */
  method DuplicatedIn(seqs: seq<nat>) returns (duplicated: nat)
    ensures duplicated + |Distinct(seqs)| == |seqs|
  {
    var seen := SortBy(seqs, AtMost);
    SortBySorts(seqs, AtMost);
    var total := |seen|;
    RepeatsDropped(seen);
    SameDistinct(seen, seqs);
    DistinctBound(seqs);
    seen := DropRepeats(seen);
    duplicated := total - |seen|;
  }

  /** What the pass knows of the arrivals `s` it has seen. */
  ghost predicate Scanned(s: seq<nat>, first: bool, highWater: nat, reordered: nat, maxDisplacement: nat) {
    && (first <==> s == [])
    && (!first ==> IsHighWater(s, highWater))
    && reordered == Reordered(s) && IsLargestInversion(s, maxDisplacement)
  }

  lemma ScanStep(arrivals: seq<nat>, k: nat, first: bool, high: nat, reordered: nat, d: nat)
    requires k < |arrivals| && Scanned(arrivals[..k], first, high, reordered, d)
    ensures var x := arrivals[k];
      var overtaken := !first && x < high;
      var gap := SaturatingSub(high, x);
      Scanned(arrivals[..k + 1], false, if overtaken then high else x, reordered + (if overtaken then 1 else 0),
              if overtaken && gap > d then gap else d)
  {
    ReorderedStep(arrivals, k, high);
    HighWaterStep(arrivals, k, high);
    InversionStep(arrivals, k, high, d);
  }

  /** One pass along the high-water mark. */
  method Overtaken(arrivals: seq<nat>) returns (reordered: nat, maxDisplacement: nat)
    ensures reordered == Reordered(arrivals) && IsLargestInversion(arrivals, maxDisplacement)
  {
    var highWater: nat, first := 0, true;
    reordered, maxDisplacement := 0, 0;
    for k := 0 to |arrivals|
      invariant Scanned(arrivals[..k], first, highWater, reordered, maxDisplacement)
    {
      var seqNo := arrivals[k];
      ScanStep(arrivals, k, first, highWater, reordered, maxDisplacement);
      if first {
        highWater, first := seqNo, false;
        continue;
      }
      if seqNo < highWater {
        reordered := reordered + 1;
        maxDisplacement := if maxDisplacement > highWater - seqNo then maxDisplacement else highWater - seqNo;
      } else {
        highWater := seqNo;
      }
    }
    assert arrivals[..|arrivals|] == arrivals;
  }

  method ReorderStatsOf(samples: seq<Sample>) returns (r: ReorderStats)
    ensures var arrivals := Seqs(SortBy(samples, ByArrival));
      && r.reordered == Reordered(arrivals)
      && IsLargestInversion(arrivals, r.maxDisplacement)
    ensures ArrivalsDiffer(samples) ==> r.reordered == |Late(samples)| && IsLargestDrop(samples, r.maxDisplacement)
    ensures r.duplicated + |Distinct(Seqs(samples))| == |samples|
  {
    if ArrivalsDiffer(samples) {
      LateAreReordered(samples);
    }
    var duplicated := DuplicatedIn(Seqs(samples));
    var reordered, maxDisplacement := Overtaken(Seqs(SortBy(samples, ByArrival)));
    if ArrivalsDiffer(samples) {
      DropIsInversion(samples, maxDisplacement);
    }
    return ReorderStats(reordered, maxDisplacement, duplicated);
  }

  lemma ReorderedStep(arrivals: seq<nat>, k: nat, high: nat)
    requires k < |arrivals| && (k > 0 ==> IsHighWater(arrivals[..k], high))
    ensures Reordered(arrivals[..k + 1]) == Reordered(arrivals[..k]) + (if k > 0 && arrivals[k] < high then 1 else 0)
  {
    var s, t := arrivals[..k], arrivals[..k + 1];
    assert t[..k] == s;
    if k > 0 {
      var top :| 0 <= top < k && s[top] == high;
      assert t[top] == high;
      assert forall i :: 0 <= i < k ==> t[i] == s[i];
    }
  }

  lemma HighWaterStep(arrivals: seq<nat>, k: nat, high: nat)
    requires k < |arrivals| && (k > 0 ==> IsHighWater(arrivals[..k], high))
    ensures IsHighWater(arrivals[..k + 1], if k > 0 && arrivals[k] < high then high else arrivals[k])
  {
    var s, t := arrivals[..k], arrivals[..k + 1];
    assert t[k] == arrivals[k];
    assert forall i :: 0 <= i < k ==> t[i] == s[i];
  }

  lemma InversionKept(s: seq<nat>, x: nat, d: nat)
    requires IsLargestInversion(s, d) && forall i :: 0 <= i < |s| ==> s[i] <= x + d
    ensures IsLargestInversion(s + [x], d)
  {
    var t := s + [x];
    if d > 0 {
      var i, j :| 0 <= i < j < |s| && s[i] == s[j] + d;
      assert t[i] == t[j] + d;
    }
  }

  lemma InversionGrows(s: seq<nat>, x: nat, d: nat, gap: nat)
    requires IsLargestInversion(s, d) && gap > d && IsHighWater(s, x + gap)
    ensures IsLargestInversion(s + [x], gap)
  {
    var t := s + [x];
    var top :| 0 <= top < |s| && s[top] == x + gap;
    assert t[top] == t[|s|] + gap;
    forall i, j | 0 <= i < j < |t| ensures t[i] <= t[j] + gap {
      if j < |s| {
        assert s[i] <= s[j] + d;
      }
    }
  }

  lemma InversionStep(arrivals: seq<nat>, k: nat, high: nat, d: nat)
    requires k < |arrivals| && (k > 0 ==> IsHighWater(arrivals[..k], high))
    requires IsLargestInversion(arrivals[..k], d)
    ensures var gap := SaturatingSub(high, arrivals[k]);
      IsLargestInversion(arrivals[..k + 1], if k > 0 && gap > d then gap else d)
  {
    var s, x := arrivals[..k], arrivals[k];
    var gap := SaturatingSub(high, x);
    assert arrivals[..k + 1] == s + [x];
    if k > 0 && gap > d {
      InversionGrows(s, x, d, gap);
    } else {
      InversionKept(s, x, d);
    }
  }

  lemma SameDistinct(s: seq<nat>, t: seq<nat>)
    requires multiset(s) == multiset(t)
    ensures Distinct(s) == Distinct(t)
  {
    forall x ensures x in s <==> x in t {
      assert x in s <==> x in multiset(s);
    }
  }

  lemma {:induction false} DistinctBound(s: seq<nat>)
    ensures |Distinct(s)| <= |s|
  {
    if s != [] {
      var n := |s| - 1;
      DistinctBound(s[..n]);
      assert s == s[..n] + [s[n]];
      assert Distinct(s) == Distinct(s[..n]) + {s[n]};
    } else {
      assert Distinct(s) == {};
    }
  }

  /** Both reordering metrics vanish exactly when nothing overtook anything. */
  lemma {:induction false} NoReorderingIffInOrder(arrivals: seq<nat>, d: nat)
    requires IsLargestInversion(arrivals, d)
    ensures var inOrder := forall i, j :: 0 <= i < j < |arrivals| ==> arrivals[i] <= arrivals[j];
      (Reordered(arrivals) == 0 <==> inOrder) && (d == 0 <==> inOrder)
  {
    ReorderedZero(arrivals);
    if d > 0 {
      var i, j :| 0 <= i < j < |arrivals| && arrivals[i] == arrivals[j] + d;
      assert arrivals[i] > arrivals[j];
    }
  }

  lemma {:induction false} ReorderedZero(arrivals: seq<nat>)
    ensures Reordered(arrivals) == 0 <==> forall i, j :: 0 <= i < j < |arrivals| ==> arrivals[i] <= arrivals[j]
  {
    if arrivals != [] {
      var n := |arrivals| - 1;
      ReorderedZero(arrivals[..n]);
      assert forall i :: 0 <= i < n ==> arrivals[..n][i] == arrivals[i];
    }
  }

  // The same figures of the samples themselves, whatever order they are held in.

  ghost predicate ArrivalsDiffer(samples: seq<Sample>) {
    forall i, j :: 0 <= i < j < |samples| ==> samples[i].arrivalIndex != samples[j].arrivalIndex
  }

  /** The samples that arrived after one with a higher sequence number. */
  ghost function Late(samples: seq<Sample>): set<Sample> {
    set s | s in samples && exists t :: t in samples && t.arrivalIndex < s.arrivalIndex && t.seqNo > s.seqNo
  }

  ghost predicate DropsWithin(samples: seq<Sample>, d: nat) {
    forall s, t :: s in samples && t in samples && t.arrivalIndex < s.arrivalIndex ==> t.seqNo <= s.seqNo + d
  }

  ghost predicate DropsBy(samples: seq<Sample>, d: nat) {
    exists s, t :: s in samples && t in samples && t.arrivalIndex < s.arrivalIndex && t.seqNo == s.seqNo + d
  }

  /** The furthest any sample fell behind one that arrived before it, or zero. */
  ghost predicate IsLargestDrop(samples: seq<Sample>, d: nat) {
    DropsWithin(samples, d) && (d > 0 ==> DropsBy(samples, d))
  }

  ghost predicate Arriving(t: seq<Sample>) {
    forall i, j :: 0 <= i < j < |t| ==> t[i].arrivalIndex < t[j].arrivalIndex
  }

  lemma SortedArrives(samples: seq<Sample>)
    requires ArrivalsDiffer(samples)
    ensures Arriving(SortBy(samples, ByArrival))
    ensures forall x :: x in SortBy(samples, ByArrival) <==> x in samples
  {
    var index := (s: Sample) => s.arrivalIndex;
    assert AllDiffer(samples, index);
    SortKeepsDifferent(samples, ByArrival, index);
    SortBySorts(samples, ByArrival);
    SortByMembers(samples, ByArrival);
    var t := SortBy(samples, ByArrival);
    forall i, j | 0 <= i < j < |t| ensures t[i].arrivalIndex < t[j].arrivalIndex {
      assert ByArrival(t[i], t[j]) && index(t[i]) != index(t[j]);
    }
  }

  lemma LateStep(t: seq<Sample>)
    requires Arriving(t) && t != []
    ensures var n := |t| - 1;
      |Late(t)| == |Late(t[..n])| + if exists i :: 0 <= i < n && t[i].seqNo > t[n].seqNo then 1 else 0
  {
    var n := |t| - 1;
    var init, last := t[..n], t[n];
    assert t == init + [last];
    forall x | x in init ensures x.arrivalIndex < last.arrivalIndex {
      var i :| 0 <= i < n && init[i] == x;
      assert t[i] == x;
    }
    if i :| 0 <= i < n && t[i].seqNo > last.seqNo {
      assert t[i] in init;
      assert Late(t) == Late(init) + {last};
    } else {
      assert Late(t) == Late(init);
    }
  }

  lemma ReorderedLast(t: seq<Sample>)
    requires t != []
    ensures var n := |t| - 1;
      Reordered(Seqs(t)) ==
        Reordered(Seqs(t[..n])) + if exists i :: 0 <= i < n && t[i].seqNo > t[n].seqNo then 1 else 0
  {
    var n := |t| - 1;
    assert Seqs(t)[..n] == Seqs(t[..n]);
    if i :| 0 <= i < n && t[i].seqNo > t[n].seqNo {
      assert Seqs(t)[i] > Seqs(t)[n];
    }
  }

  lemma {:induction false} LateInOrder(t: seq<Sample>)
    requires Arriving(t)
    ensures Reordered(Seqs(t)) == |Late(t)|
  {
    if t == [] {
      assert Late(t) == {};
    } else {
      LateInOrder(t[..|t| - 1]);
      LateStep(t);
      ReorderedLast(t);
    }
  }

  lemma LateAreReordered(samples: seq<Sample>)
    requires ArrivalsDiffer(samples)
    ensures Reordered(Seqs(SortBy(samples, ByArrival))) == |Late(samples)|
  {
    var t := SortBy(samples, ByArrival);
    SortedArrives(samples);
    LateInOrder(t);
    assert Late(t) == Late(samples);
  }

  lemma DropInOrder(arriving: seq<Sample>, d: nat)
    requires Arriving(arriving) && IsLargestInversion(Seqs(arriving), d)
    ensures DropsWithin(arriving, d)
  {
    forall s, t | s in arriving && t in arriving && t.arrivalIndex < s.arrivalIndex ensures t.seqNo <= s.seqNo + d {
      var j :| 0 <= j < |arriving| && arriving[j] == s;
      var i :| 0 <= i < |arriving| && arriving[i] == t;
      assert i < j;
      assert Seqs(arriving)[i] <= Seqs(arriving)[j] + d;
    }
  }

  lemma DropReached(arriving: seq<Sample>, d: nat)
    requires Arriving(arriving) && IsLargestInversion(Seqs(arriving), d) && d > 0
    ensures DropsBy(arriving, d)
  {
    var i, j :| 0 <= i < j < |arriving| && Seqs(arriving)[i] == Seqs(arriving)[j] + d;
    var s, t := arriving[j], arriving[i];
    assert s in arriving && t in arriving && t.arrivalIndex < s.arrivalIndex && t.seqNo == s.seqNo + d;
  }

  lemma DropIsInversion(samples: seq<Sample>, d: nat)
    requires ArrivalsDiffer(samples)
    requires IsLargestInversion(Seqs(SortBy(samples, ByArrival)), d)
    ensures IsLargestDrop(samples, d)
  {
    var arriving := SortBy(samples, ByArrival);
    SortedArrives(samples);
    DropInOrder(arriving, d);
    if d > 0 {
      DropReached(arriving, d);
    }
  }

  /** Both figures are zero exactly when packets arrived in the order they were sent. */
  lemma NothingLateIffInOrder(samples: seq<Sample>, d: nat)
    requires IsLargestDrop(samples, d)
    ensures var inOrder := forall s, t ::
        s in samples && t in samples && t.arrivalIndex < s.arrivalIndex ==> t.seqNo <= s.seqNo;
      (|Late(samples)| == 0 <==> inOrder) && (d == 0 <==> inOrder)
  {
    if s, t :| s in samples && t in samples && t.arrivalIndex < s.arrivalIndex && t.seqNo > s.seqNo {
      assert s in Late(samples);
    } else {
      assert Late(samples) == {};
    }
  }

  // Loss ----------------------------------------------------------------------------------------

  predicate AllCounted(samples: seq<Sample>) {
    forall i :: 0 <= i < |samples| ==> samples[i].reflectorSeq.Some?
  }

  function Highest(samples: seq<Sample>): (h: nat)
    requires samples != [] && AllCounted(samples)
  {
    var n := |samples| - 1;
    var last := samples[n].reflectorSeq.value;
    if n == 0 then last else
      var h := Highest(samples[..n]);
      if h > last then h else last
  }

  function Loss(sent: nat, samples: seq<Sample>): LossStats {
    var received := |samples|;
    var missing := SaturatingSub(sent, received);
    var pct := Round2(if sent == 0 then 0.0 else missing as real / sent as real * 100.0);
    if !AllCounted(samples) || samples == [] then
      LossStats(sent, received, 0, 0, missing, pct)
    else
      var generated := Highest(samples) + 1;
      var reverse := SaturatingSub(generated, received);
      LossStats(sent, received, SaturatingSub(missing, reverse), if reverse < missing then reverse else missing, 0, pct)
  }

  lemma RatioAtMostOne(a: real, b: real)
    requires 0.0 <= a <= b && b > 0.0
    ensures 0.0 <= a / b <= 1.0
  {
  }

  /** Whatever the samples, the three parts add up to what is missing. */
  lemma LossPartsAddUp(sent: nat, samples: seq<Sample>)
    ensures var l := Loss(sent, samples);
      && l.forwardLost + l.reverseLost + l.unknownDirection == SaturatingSub(sent, |samples|)
      && 0.0 <= l.lossPct <= 100.0
  {
    if sent > 0 {
      var a, b := SaturatingSub(sent, |samples|) as real, sent as real;
      RatioAtMostOne(a, b);
      RoundMonotone(0.0, a / b * 100.0);
      RoundMonotone(a / b * 100.0, 100.0);
    }
  }

  /** The percentage is that of the packets sent that are missing, to the nearest
      hundredth; without a counter on every sample no direction is claimed; with them,
      what the highest counter shows was answered and did not come back was lost on the
      way back, and the rest on the way out. */
  lemma LossExactly(sent: nat, samples: seq<Sample>)
    ensures var l := Loss(sent, samples);
      var missing: nat := if sent > |samples| then sent - |samples| else 0;
      && l.sent == sent && l.received == |samples|
      && (sent == 0 ==> l.lossPct == 0.0)
      && (sent > 0 ==> var exact := 100.0 * (missing as real / sent as real);
            exact - 0.005 <= l.lossPct <= exact + 0.005)
      && ((samples == [] || exists s :: s in samples && s.reflectorSeq.None?) ==>
            l.forwardLost == 0 && l.reverseLost == 0 && l.unknownDirection == missing)
  {
    RoundNearest(if sent == 0 then 0.0 else SaturatingSub(sent, |samples|) as real / sent as real * 100.0);
    if s :| s in samples && s.reflectorSeq.None? {
      var i :| 0 <= i < |samples| && samples[i] == s;
    }
  }

  lemma {:induction false} HighestIs(samples: seq<Sample>, high: nat)
    requires samples != [] && AllCounted(samples)
    requires forall i :: 0 <= i < |samples| ==> samples[i].reflectorSeq.value <= high
    requires exists i :: 0 <= i < |samples| && samples[i].reflectorSeq == Some(high)
    ensures Highest(samples) == high
  {
    var n := |samples| - 1;
    HighestBound(samples, high);
    var i :| 0 <= i < |samples| && samples[i].reflectorSeq == Some(high);
    HighestReaches(samples, i);
  }

  lemma {:induction false} HighestBound(samples: seq<Sample>, high: nat)
    requires samples != [] && AllCounted(samples)
    requires forall i :: 0 <= i < |samples| ==> samples[i].reflectorSeq.value <= high
    ensures Highest(samples) <= high
  {
    var n := |samples| - 1;
    if n > 0 {
      HighestBound(samples[..n], high);
    }
  }

  lemma {:induction false} HighestReaches(samples: seq<Sample>, i: nat)
    requires i < |samples| && AllCounted(samples)
    ensures samples[i].reflectorSeq.value <= Highest(samples)
  {
    var n := |samples| - 1;
    if i < n {
      HighestReaches(samples[..n], i);
    }
  }

  /** With a counter on every sample, `high` the highest of them. */
  lemma AttributedExactly(sent: nat, samples: seq<Sample>, high: nat)
    requires forall i :: 0 <= i < |samples| ==>
      samples[i].reflectorSeq.Some? && samples[i].reflectorSeq.value <= high
    requires exists i :: 0 <= i < |samples| && samples[i].reflectorSeq == Some(high)
    ensures var l := Loss(sent, samples);
      var missing: nat := if sent > |samples| then sent - |samples| else 0;
      var unreturned: nat := if high + 1 > |samples| then high + 1 - |samples| else 0;
      && l.unknownDirection == 0
      && l.reverseLost == (if unreturned < missing then unreturned else missing)
      && l.forwardLost == missing - l.reverseLost
  {
    HighestIs(samples, high);
  }
}
