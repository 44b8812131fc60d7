/** What a path remembers of its probes (internal/pathpolicy/path.go), and when it is pruned (manager.go). */
module PathMetrics {
  import opened Bytes
  import opened Arithmetic
  import opened Seqs

  const MAX_SAMPLES := 20
  const ALPHA := 0.3
  const STALE_AFTER := 30 * 60 * 1_000_000_000 // nanoseconds

  /** A probe result: round-trip time and arrival in nanoseconds. */
  datatype Probe = Probe(rtt: int, success: bool, at: int)

  // ----- The specification over probe histories -----

  function Successes(h: seq<Probe>): seq<int> {
    if h == [] then []
    else Successes(h[..|h| - 1]) + (if h[|h| - 1].success then [h[|h| - 1].rtt] else [])
  }

  function Recent(s: seq<int>): (r: seq<int>)
    ensures |r| <= MAX_SAMPLES
  {
    if |s| <= MAX_SAMPLES then s else s[|s| - MAX_SAMPLES..]
  }

  /** The round-trip times of the last successful probes, at most twenty. */
  function Window(h: seq<Probe>): seq<int> {
    Recent(Successes(h))
  }

  /** One more sample in the window; the oldest leaves a full one. */
  function Shifted(w: seq<int>, rtt: int): seq<int> {
    if |w| + 1 > MAX_SAMPLES then (w + [rtt])[1..] else w + [rtt]
  }

  function Observed(p: Probe): real {
    if p.success then 1.0 else 0.0
  }

  /** The exponentially weighted success rate. */
  function Rate(h: seq<Probe>): real {
    if h == [] then 0.0
    else if |h| == 1 then Observed(h[0])
    else ALPHA * Observed(h[|h| - 1]) + (1.0 - ALPHA) * Rate(h[..|h| - 1])
  }

  function Sum(s: seq<int>): int {
    if s == [] then 0 else Sum(s[..|s| - 1]) + s[|s| - 1]
  }

  /** Go's integer division, which truncates toward zero. */
  function TruncDiv(x: int, n: nat): int
    requires n > 0
  {
    if x >= 0 then x / n else -(-x / n)
  }

  function Average(w: seq<int>): int
    requires w != []
  {
    TruncDiv(Sum(w), |w|)
  }

  /** Σ (x - avg)². */
  function SquaredDeviation(w: seq<int>, avg: int): int {
    if w == [] then 0
    else SquaredDeviation(w[..|w| - 1], avg) + (w[|w| - 1] - avg) * (w[|w| - 1] - avg)
  }

  /** The conversion of a float to an integer, which truncates toward zero. */
  function Trunc(x: real): int {
    if x >= 0.0 then x.Floor else -(-x).Floor
  }

  /** The standard deviation about the truncated average; zero until there are two samples. */
  function Jitter(sqrt: real -> real, w: seq<int>): int {
    if |w| <= 1 then 0 else Trunc(sqrt(SquaredDeviation(w, Average(w)) as real / |w| as real))
  }

  /** Bytes per second over half a round trip, for one 53-byte probe. */
  function Estimate(rtt: int): real
    requires rtt > 0
  {
    53.0 / (rtt as real / 1_000_000_000.0) * 2.0
  }

  /** The estimate of the last successful probe that took any time. */
  function Throughput(h: seq<Probe>): real {
    if h == [] then 0.0
    else if h[|h| - 1].success && h[|h| - 1].rtt > 0 then Estimate(h[|h| - 1].rtt)
    else Throughput(h[..|h| - 1])
  }

  ghost predicate IsMax(m: int, s: seq<int>) {
    m in s && forall x | x in s :: x <= m
  }

  class Metrics {
    const sqrt: real -> real
    var avgRTT: int
    var p95RTT: int
    var jitter: int
    var throughputEstimate: real
    var successRate: real
    var lastProbed: int
    var sampleCount: nat
    var rttSamples: seq<int>
    ghost var history: seq<Probe>

    ghost predicate Valid()
      reads this
    {
      && sampleCount == |history|
      && rttSamples == Window(history)
      && successRate == Rate(history)
      && (history != [] ==> lastProbed == history[|history| - 1].at)
      && (rttSamples != [] ==> avgRTT == Average(rttSamples) && IsMax(p95RTT, rttSamples))
      && jitter == Jitter(sqrt, rttSamples)
      && throughputEstimate == Throughput(history)
    }

    constructor (sqrt: real -> real)
      ensures Valid() && history == [] && this.sqrt == sqrt
    {
      this.sqrt, jitter, throughputEstimate := sqrt, 0, 0.0;
      avgRTT, p95RTT, successRate, lastProbed, sampleCount, rttSamples, history := 0, 0, 0.0, 0, 0, [], [];
    }

    method RecordProbe(rtt: int, success: bool, now: int)
      requires Valid()
      modifies this
      ensures Valid() && history == old(history) + [Probe(rtt, success, now)]
    {
      hide Successes, Recent, Window, Average, Jitter, Estimate, IsMax, Shifted;
      ThroughputGrows(history, Probe(rtt, success, now));
      HistoryGrows(history, Probe(rtt, success, now));
      history := history + [Probe(rtt, success, now)];
      lastProbed := now;
      sampleCount := sampleCount + 1;
      if success {
        RecordRtt(rtt);
      }
      var observed := if success then 1.0 else 0.0;
      if sampleCount == 1 {
        successRate := observed;
      } else {
        successRate := ALPHA * observed + (1.0 - ALPHA) * successRate;
      }
    }

    /** The part of `RecordProbe` for a successful probe. */
    method RecordRtt(rtt: int)
      requires jitter == Jitter(sqrt, rttSamples)
      modifies `rttSamples, `avgRTT, `p95RTT, `jitter, `throughputEstimate
      ensures rttSamples == Shifted(old(rttSamples), rtt) && rttSamples != []
      ensures avgRTT == Average(rttSamples) && IsMax(p95RTT, rttSamples) && jitter == Jitter(sqrt, rttSamples)
      ensures throughputEstimate == if rtt > 0 then Estimate(rtt) else old(throughputEstimate)
    {
      hide Average, IsMax, SquaredDeviation, Trunc, Estimate;
      rttSamples := rttSamples + [rtt];
      if |rttSamples| > MAX_SAMPLES {
        rttSamples := rttSamples[1..];
      }
      avgRTT := Mean(rttSamples);
      p95RTT := Largest(rttSamples);
      if |rttSamples| > 1 {
        var deviation := Deviation(rttSamples, avgRTT);
        jitter := Trunc(sqrt(deviation as real / |rttSamples| as real));
      }
      if rtt > 0 {
        throughputEstimate := Estimate(rtt);
      }
    }

    static method Mean(s: seq<int>) returns (avg: int)
      requires s != []
      ensures avg == Average(s)
    {
      var total := 0;
      for i := 0 to |s|
        invariant total == Sum(s[..i])
      {
        assert s[..i + 1][..i] == s[..i];
        total := total + s[i];
      }
      assert s[..|s|] == s;
      return TruncDiv(total, |s|);
    }

    static method Deviation(s: seq<int>, avg: int) returns (total: int)
      ensures total == SquaredDeviation(s, avg)
    {
      total := 0;
      for i := 0 to |s|
        invariant total == SquaredDeviation(s[..i], avg)
      {
        assert s[..i + 1][..i] == s[..i];
        total := total + (s[i] - avg) * (s[i] - avg);
      }
      assert s[..|s|] == s;
    }

    static method Largest(s: seq<int>) returns (m: int)
      requires s != []
      ensures IsMax(m, s)
    {
      m := s[0];
      for i := 0 to |s|
        invariant m in s && forall j | 0 <= j < i :: s[j] <= m
      {
        if s[i] > m {
          m := s[i];
        }
      }
    }
  }

  lemma SuccessesGrow(h: seq<Probe>, p: Probe)
    ensures Successes(h + [p]) == if p.success then Successes(h) + [p.rtt] else Successes(h)
  {
    assert (h + [p])[..|h|] == h;
  }

  lemma RecentShifts(s: seq<int>, x: int)
    ensures Recent(s + [x]) == Shifted(Recent(s), x)
  {
  }

  lemma RateGrows(h: seq<Probe>, p: Probe)
    ensures Rate(h + [p]) ==
            if h == [] then Observed(p) else ALPHA * Observed(p) + (1.0 - ALPHA) * Rate(h)
  {
    assert (h + [p])[..|h|] == h;
  }

  /** Appending and dropping the oldest keeps exactly the window. */
  lemma HistoryGrows(h: seq<Probe>, p: Probe)
    ensures Window(h + [p]) == if p.success then Shifted(Window(h), p.rtt) else Window(h)
    ensures Rate(h + [p]) ==
            if h == [] then Observed(p) else ALPHA * Observed(p) + (1.0 - ALPHA) * Rate(h)
  {
    hide Successes, Recent, Shifted, Rate;
    SuccessesGrow(h, p);
    RecentShifts(Successes(h), p.rtt);
    RateGrows(h, p);
  }

  lemma ThroughputGrows(h: seq<Probe>, p: Probe)
    ensures Throughput(h + [p]) == if p.success && p.rtt > 0 then Estimate(p.rtt) else Throughput(h)
  {
    assert (h + [p])[..|h|] == h;
  }

  // ----- What the numbers mean -----

  lemma {:induction false} SumBounds(s: seq<int>, lo: int, hi: int)
    requires forall i | 0 <= i < |s| :: lo <= s[i] <= hi
    ensures |s| * lo <= Sum(s) <= |s| * hi
  {
    if s != [] {
      SumBounds(s[..|s| - 1], lo, hi);
      assert |s| * lo == (|s| - 1) * lo + lo && |s| * hi == (|s| - 1) * hi + hi;
    }
  }

  lemma QuotientBounds(x: int, n: nat, lo: int, hi: int)
    requires n > 0 && n * lo <= x <= n * hi
    ensures lo <= TruncDiv(x, n) <= hi
  {
    if x >= 0 {
      DivBounds(x, n, lo, hi);
    } else {
      assert n * -hi == -(n * hi) && n * -lo == -(n * lo);
      DivBounds(-x, n, -hi, -lo);
    }
  }

  lemma DivBounds(x: nat, n: nat, lo: int, hi: int)
    requires n > 0 && n * lo <= x <= n * hi
    ensures lo <= x / n <= hi
  {
    var q := x / n;
    assert n * q <= x < n * (q + 1);
    Cancel(n, lo, q + 1);
    Cancel(n, q, hi + 1);
    assert n * (hi + 1) == n * hi + n;
  }

  lemma Cancel(n: nat, a: int, b: int)
    requires n > 0
    ensures n * a < n * b ==> a < b
  {
    if a >= b {
      assert n * a - n * b == n * (a - b);
    }
  }

  /** Smallest sample ≤ AvgRTT ≤ P95RTT, and P95RTT is the largest sample, over the last twenty successes. */
  lemma RttsOrdered(m: Metrics, smallest: int)
    requires m.Valid() && Window(m.history) != []
    requires smallest in Window(m.history) && forall x | x in Window(m.history) :: smallest <= x
    ensures smallest <= m.avgRTT <= m.p95RTT && IsMax(m.p95RTT, Window(m.history))
  {
    var w := Window(m.history);
    assert forall i | 0 <= i < |w| :: w[i] in w;
    AverageWithin(w, smallest, m.p95RTT);
  }

  /** A nonnegative square root of everything nonnegative. */
  ghost predicate IsRoot(sqrt: real -> real) {
    forall x | x >= 0.0 :: sqrt(x) >= 0.0 && sqrt(x) * sqrt(x) == x
  }

  lemma SquareWithin(x: int, d: int)
    requires -d <= x <= d
    ensures 0 <= x * x <= d * d
  {
    var y := if x < 0 then -x else x;
    assert x * x == y * y;
    assert y * y <= y * d <= d * d;
  }

  lemma {:induction false} DeviationBounds(w: seq<int>, avg: int, d: int)
    requires forall i | 0 <= i < |w| :: -d <= w[i] - avg <= d
    ensures 0 <= SquaredDeviation(w, avg) <= |w| * (d * d)
  {
    if w != [] {
      DeviationBounds(w[..|w| - 1], avg, d);
      SquareWithin(w[|w| - 1] - avg, d);
      assert |w| * (d * d) == (|w| - 1) * (d * d) + d * d;
    }
  }

  lemma QuotientWithin(x: int, n: nat, b: int)
    requires n > 0 && 0 <= x <= n * b
    ensures 0.0 <= x as real / n as real <= b as real
  {
    var q := x as real / n as real;
    assert q * n as real == x as real;
    assert (n * b) as real == n as real * b as real;
    CancelFactor(b as real, q, n as real);
    CancelFactor(q, 0.0, n as real);
  }

  lemma RootWithin(sqrt: real -> real, q: real, d: int)
    requires IsRoot(sqrt) && d >= 0 && 0.0 <= q <= (d * d) as real
    ensures 0 <= Trunc(sqrt(q)) <= d
  {
    assert (d * d) as real == d as real * d as real;
    SquaresOrder(sqrt(q), d as real);
  }

  lemma AverageWithin(w: seq<int>, lo: int, hi: int)
    requires w != [] && forall i | 0 <= i < |w| :: lo <= w[i] <= hi
    ensures lo <= Average(w) <= hi
  {
    SumBounds(w, lo, hi);
    QuotientBounds(Sum(w), |w|, lo, hi);
  }

  lemma JitterBounds(sqrt: real -> real, w: seq<int>, lo: int, hi: int)
    requires IsRoot(sqrt) && w != [] && forall i | 0 <= i < |w| :: lo <= w[i] <= hi
    ensures 0 <= Jitter(sqrt, w) <= hi - lo
  {
    hide Average, IsRoot, Trunc, SquaredDeviation;
    AverageWithin(w, lo, hi);
    assert lo <= w[0] <= hi;
    var deviation := SquaredDeviation(w, Average(w));
    DeviationBounds(w, Average(w), hi - lo);
    QuotientWithin(deviation, |w|, (hi - lo) * (hi - lo));
    RootWithin(sqrt, deviation as real / |w| as real, hi - lo);
  }

  /** The jitter is never negative, nor more than the spread of the window. */
  lemma JitterWithinSpread(m: Metrics, smallest: int)
    requires m.Valid() && Window(m.history) != [] && IsRoot(m.sqrt)
    requires smallest in Window(m.history) && forall x | x in Window(m.history) :: smallest <= x
    ensures 0 <= m.jitter <= m.p95RTT - smallest
  {
    hide Jitter, Window, Average, IsRoot;
    var w := Window(m.history);
    assert forall i | 0 <= i < |w| :: w[i] in w;
    JitterBounds(m.sqrt, w, smallest, m.p95RTT);
  }

  lemma {:induction false} RateInUnit(h: seq<Probe>)
    ensures 0.0 <= Rate(h) <= 1.0
  {
    if |h| > 1 {
      RateInUnit(h[..|h| - 1]);
    }
  }

  function Pow(x: real, n: nat): real {
    if n == 0 then 1.0 else x * Pow(x, n - 1)
  }

  /** A success `j` probes ago still holds the rate at 0.3·0.7ʲ or above. */
  lemma {:induction false} SuccessLingers(h: seq<Probe>, j: nat)
    requires j < |h| && h[|h| - 1 - j].success
    ensures Rate(h) >= ALPHA * Pow(1.0 - ALPHA, j)
  {
    var f := h[..|h| - 1];
    if j > 0 {
      SuccessLingers(f, j - 1);
      assert (1.0 - ALPHA) * Rate(f) >= (1.0 - ALPHA) * (ALPHA * Pow(1.0 - ALPHA, j - 1));
    } else if |h| > 1 {
      RateInUnit(f);
    }
  }

  ghost predicate LastFailed(h: seq<Probe>, n: nat) {
    n <= |h| && forall i | |h| - n <= i < |h| :: !h[i].success
  }

  lemma {:induction false} PowPositive(n: nat)
    ensures Pow(1.0 - ALPHA, n) > 0.0
  {
    if n > 0 {
      PowPositive(n - 1);
    }
  }

  /** `n` failures in a row bring the rate down to 0.7ⁿ at most. */
  lemma {:induction false} FailuresDecay(h: seq<Probe>, n: nat)
    requires LastFailed(h, n)
    ensures Rate(h) <= Pow(1.0 - ALPHA, n)
  {
    RateInUnit(h);
    if n > 0 {
      assert !h[|h| - 1].success;
      FailuresDecay(h[..|h| - 1], n - 1);
      PowPositive(n);
    }
  }

  // ----- The numbers, written out -----

  lemma {:induction false} SumConcat(v: seq<int>, w: seq<int>)
    ensures Sum(v + w) == Sum(v) + Sum(w)
    decreases |w|
  {
    if w == [] {
      assert v + w == v;
    } else {
      SumConcat(v, w[..|w| - 1]);
      assert (v + w)[..|v + w| - 1] == v + w[..|w| - 1];
    }
  }

  lemma SumOne(x: int)
    ensures Sum([x]) == x
  {
  }

  lemma {:induction false} SumReordered(v: seq<int>, w: seq<int>)
    requires multiset(v) == multiset(w)
    ensures Sum(v) == Sum(w) && |v| == |w|
    decreases |v|
  {
    assert |v| == |multiset(v)| == |multiset(w)| == |w|;
    if v != [] {
      var k := |v| - 1;
      assert v[k] in multiset(w);
      var i :| 0 <= i < |w| && w[i] == v[k];
      WithoutCounts(v, k);
      WithoutCounts(w, i);
      SumReordered(Without(v, k), Without(w, i));
      SumWithout(v, k);
      SumWithout(w, i);
    }
  }

  lemma SumWithout(v: seq<int>, i: nat)
    requires i < |v|
    ensures Sum(v) == Sum(Without(v, i)) + v[i]
  {
    hide Sum;
    assert v == v[..i] + [v[i]] + v[i + 1..];
    SumOfThree(v[..i], v[i], v[i + 1..]);
  }

  lemma SumOfThree(v: seq<int>, x: int, w: seq<int>)
    ensures Sum(v + [x] + w) == Sum(v + w) + x
  {
    SumConcat(v + [x], w);
    SumConcat(v, [x]);
    SumConcat(v, w);
    SumOne(x);
  }

  /** AvgRTT is the mean of the window, rounded toward zero, whatever the order of the samples. */
  lemma AverageIsMean(w: seq<int>)
    requires w != []
    ensures Sum(w) >= 0 ==> |w| * Average(w) <= Sum(w) < |w| * (Average(w) + 1)
    ensures Sum(w) <= 0 ==> |w| * (Average(w) - 1) < Sum(w) <= |w| * Average(w)
  {
    hide Sum, TruncDiv;
    if Sum(w) >= 0 {
      TruncBetween(Sum(w), |w|);
    }
    if Sum(w) <= 0 {
      TruncBetween(-Sum(w), |w|);
      TruncOdd(Sum(w), |w|);
      Negated(|w|, TruncDiv(-Sum(w), |w|));
    }
  }

  lemma TruncBetween(x: nat, n: nat)
    requires n > 0
    ensures n * TruncDiv(x, n) <= x < n * (TruncDiv(x, n) + 1)
  {
  }

  lemma TruncOdd(x: int, n: nat)
    requires n > 0
    ensures TruncDiv(-x, n) == -TruncDiv(x, n)
  {
  }

  lemma Negated(n: nat, q: int)
    ensures n * -q == -(n * q) && n * (-q - 1) == -(n * (q + 1))
  {
  }

  lemma AverageReordered(v: seq<int>, w: seq<int>)
    requires multiset(v) == multiset(w) && v != []
    ensures w != [] && Average(v) == Average(w)
  {
    SumReordered(v, w);
  }

  lemma {:induction false} DeviationConcat(v: seq<int>, w: seq<int>, avg: int)
    ensures SquaredDeviation(v + w, avg) == SquaredDeviation(v, avg) + SquaredDeviation(w, avg)
    decreases |w|
  {
    if w == [] {
      assert v + w == v;
    } else {
      DeviationConcat(v, w[..|w| - 1], avg);
      assert (v + w)[..|v + w| - 1] == v + w[..|w| - 1];
    }
  }

  lemma DeviationOne(x: int, avg: int)
    ensures SquaredDeviation([x], avg) == (x - avg) * (x - avg)
  {
  }

  lemma {:induction false} DeviationNonnegative(w: seq<int>, avg: int)
    ensures SquaredDeviation(w, avg) >= 0
  {
    if w != [] {
      DeviationNonnegative(w[..|w| - 1], avg);
      SquareOfInt(w[|w| - 1] - avg);
    }
  }

  lemma SquareOfInt(x: int)
    ensures x * x >= 0
  {
  }

  lemma RootBetween(r: real, q: real)
    requires r >= 0.0 && r * r == q
    ensures Trunc(r) >= 0
    ensures Trunc(r) as real * Trunc(r) as real <= q < (Trunc(r) + 1) as real * (Trunc(r) + 1) as real
  {
    var j := Trunc(r);
    assert j as real <= r < (j + 1) as real;
    SquaresInOrder(j as real, r);
    SquaresInOrder(r, (j + 1) as real);
  }

  lemma SquaresInOrder(x: real, y: real)
    requires 0.0 <= x <= y
    ensures x * x <= y * y && (x < y ==> x * x < y * y)
  {
    assert y * y - x * x == (y - x) * (y + x);
    if x < y {
      ProductPositive(y - x, y + x);
    }
  }

  /** The jitter of two or more samples is the root of the mean squared deviation from AvgRTT, rounded down. */
  lemma JitterIsDeviation(sqrt: real -> real, w: seq<int>)
    requires IsRoot(sqrt) && |w| > 1
    ensures var j, n := Jitter(sqrt, w), |w| as real;
            && j >= 0 && Times(n, j as real * j as real) <= SquaredDeviation(w, Average(w)) as real
            && (SquaredDeviation(w, Average(w)) as real) < Times(n, (j + 1) as real * (j + 1) as real)
  {
    hide Trunc, Average, SquaredDeviation;
    var d, n := SquaredDeviation(w, Average(w)), |w| as real;
    DeviationNonnegative(w, Average(w));
    var q := d as real / n;
    QuotientOf(d as real, n);
    assert IsRoot(sqrt) && q >= 0.0;
    RootBetween(sqrt(q), q);
    TimesOrder(n, (Jitter(sqrt, w) as real) * (Jitter(sqrt, w) as real), q);
    TimesOrder(n, q, ((Jitter(sqrt, w) + 1) as real) * ((Jitter(sqrt, w) + 1) as real));
  }

  lemma QuotientOf(d: real, n: real)
    requires d >= 0.0 && n > 0.0
    ensures d / n >= 0.0 && Times(n, d / n) == d
  {
    CancelFactor(d / n, 0.0, n);
  }

  lemma TimesOrder(n: real, x: real, y: real)
    requires n > 0.0
    ensures x <= y ==> Times(n, x) <= Times(n, y)
    ensures x < y ==> Times(n, x) < Times(n, y)
  {
    if x < y {
      ProductPositive(n, y - x);
    }
  }

  /** Estimates are 53 bytes per half a round trip: times the nanoseconds, 106 bytes per second. */
  lemma EstimateIs(rtt: int)
    requires rtt > 0
    ensures Estimate(rtt) * rtt as real == 106_000_000_000.0
  {
    var x := rtt as real;
    var s := x / 1_000_000_000.0;
    assert s > 0.0 && s * 1_000_000_000.0 == x;
    assert 53.0 / s * s == 53.0;
  }

  /** The estimate is that of the last successful probe that took any time, and zero if there was none. */
  lemma {:induction false} ThroughputOfLast(h: seq<Probe>, i: int)
    requires -1 <= i < |h| && (i >= 0 ==> h[i].success && h[i].rtt > 0)
    requires forall j | i < j < |h| :: !(h[j].success && h[j].rtt > 0)
    ensures Throughput(h) == if i >= 0 then Estimate(h[i].rtt) else 0.0
    decreases |h|
  {
    if i < |h| - 1 {
      ThroughputOfLast(h[..|h| - 1], i);
    }
  }

  function SucceedsAt(h: seq<Probe>): int -> bool {
    k => 0 <= k < |h| && h[k].success
  }

  function Rtts(h: seq<Probe>): (rs: seq<int>)
    ensures |rs| == |h| && forall i | 0 <= i < |h| :: rs[i] == h[i].rtt
  {
    seq(|h|, i requires 0 <= i < |h| => h[i].rtt)
  }

  lemma SuccessesStep(h: seq<Probe>, n: nat)
    requires n < |h|
    ensures Successes(h[..n + 1])
         == if SucceedsAt(h)(n) then Successes(h[..n]) + [Rtts(h)[n]] else Successes(h[..n])
  {
    assert h[..n + 1][..n] == h[..n];
  }

  lemma {:induction false} SuccessPositions(h: seq<Probe>, n: nat) returns (ps: seq<nat>)
    requires n <= |h|
    ensures Positions(ps, n, SucceedsAt(h)) && PickedBy(Successes(h[..n]), Rtts(h), ps)
  {
    hide Positions, PickedBy, Successes, SucceedsAt, Rtts;
    ps := [];
    if n == 0 {
      NoSuccesses();
      NoPositions(Rtts(h), SucceedsAt(h));
    } else {
      ps := SuccessPositions(h, n - 1);
      PositionsGrow(ps, n - 1, SucceedsAt(h));
      SuccessesStep(h, n - 1);
      if SucceedsAt(h)(n - 1) {
        PickedGrows(Successes(h[..n - 1]), Rtts(h), ps, n - 1);
        ps := ps + [n - 1];
      }
    }
  }

  lemma NoSuccesses()
    ensures Successes([]) == []
  {
  }

  /** The window holds the round-trip times of the last twenty successful probes at most, in order. */
  lemma WindowIsLastSuccesses(h: seq<Probe>) returns (ps: seq<nat>)
    ensures Positions(ps, |h|, SucceedsAt(h))
    ensures |Window(h)| == Min(20, |ps|)
    ensures forall j | 0 <= j < |Window(h)| ::
              ps[|ps| - |Window(h)| + j] < |h| && Window(h)[j] == h[ps[|ps| - |Window(h)| + j]].rtt
  {
    hide Successes, Positions;
    ps := SuccessPositions(h, |h|);
    assert h[..|h|] == h;
  }

  /** What a success at position `i` of `n` probes adds to the rate. */
  function Share(n: nat, i: nat): real
    requires i < n
  {
    if i == 0 then Pow(0.7, n - 1) else 0.3 * Pow(0.7, n - 1 - i)
  }

  /** The shares of the successes among the first `k` of `n` probes. */
  function Shares(h: seq<Probe>, n: nat, k: nat): real
    requires k <= n && k <= |h|
  {
    if k == 0 then 0.0 else Shares(h, n, k - 1) + (if h[k - 1].success then Share(n, k - 1) else 0.0)
  }

  lemma {:induction false} SharesFade(h: seq<Probe>, n: nat, k: nat)
    requires k <= n && k <= |h|
    ensures Shares(h, n + 1, k) == 0.7 * Shares(h, n, k)
  {
    if k > 0 {
      SharesFade(h, n, k - 1);
    }
  }

  lemma {:induction false} SharesFront(h: seq<Probe>, n: nat, k: nat, m: nat)
    requires k <= n && k <= m <= |h|
    ensures Shares(h[..m], n, k) == Shares(h, n, k)
  {
    if k > 0 {
      SharesFront(h, n, k - 1, m);
    }
  }

  /** The success rate weighs the first probe by 0.7ⁿ⁻¹ and each later one, `j` probes back, by 0.3·0.7ʲ. */
  lemma {:induction false} RateIsShares(h: seq<Probe>)
    ensures Rate(h) == Shares(h, |h|, |h|)
  {
    var n := |h|;
    if n == 1 {
      assert Shares(h, 1, 1) == Observed(h[0]);
    } else if n > 1 {
      RateIsShares(h[..n - 1]);
      SharesFront(h, n - 1, n - 1, n - 1);
      SharesFade(h, n - 1, n - 1);
      assert Pow(0.7, 0) == 1.0;
    }
  }

  // ----- Pruning -----

  ghost predicate Chronological(h: seq<Probe>) {
    forall i, j | 0 <= i <= j < |h| :: h[i].at <= h[j].at
  }

  /** The test of `pruneStalePaths`, as a predicate of the probe history. */
  predicate Stale(h: seq<Probe>, now: int) {
    |h| > 0 && Rate(h) < 0.1 && now - h[|h| - 1].at > STALE_AFTER
  }

  /** A pruned path failed its last four probes, or all it ever had, and was not probed at all for half an hour. */
  lemma PrunedOnlyWhenDead(h: seq<Probe>, now: int)
    requires Stale(h, now) && Chronological(h)
    ensures LastFailed(h, if |h| < 4 then |h| else 4)
    ensures forall i | 0 <= i < |h| :: now - h[i].at > STALE_AFTER
  {
    forall i | 0 <= i < |h| && i >= |h| - 4 ensures !h[i].success {
      if h[i].success {
        SuccessLingers(h, |h| - 1 - i);
        PowersOfDecay();
      }
    }
  }

  lemma PowersOfDecay()
    ensures Pow(0.7, 0) == 1.0 && Pow(0.7, 1) == 0.7 && Pow(0.7, 2) == 0.49 && Pow(0.7, 3) == 0.343
    ensures Pow(0.7, 7) < 0.1
  {
    assert Pow(0.7, 3) == 0.7 * Pow(0.7, 2);
    assert Pow(0.7, 4) == 0.7 * Pow(0.7, 3);
    assert Pow(0.7, 5) == 0.7 * Pow(0.7, 4);
    assert Pow(0.7, 6) == 0.7 * Pow(0.7, 5);
    assert Pow(0.7, 7) == 0.7 * Pow(0.7, 6);
  }

  /** After seven failures in a row, pruning waits for nothing but half an hour without any probe. */
  lemma DeadPathPrunedExactlyWhen(h: seq<Probe>, now: int)
    requires LastFailed(h, 7)
    ensures Stale(h, now) <==> now - h[|h| - 1].at > STALE_AFTER
  {
    FailuresDecay(h, 7);
    PowersOfDecay();
  }

  /** Half an hour is 1800 seconds, and must have passed: after eight failures that alone decides. */
  lemma PrunedAfterHalfAnHour(h: seq<Probe>)
    requires |h| == 8 && LastFailed(h, 8)
    ensures var last := h[7].at; !Stale(h, last + 1_800_000_000_000) && Stale(h, last + 1_800_000_000_001)
  {
    assert LastFailed(h, 7);
    DeadPathPrunedExactlyWhen(h, h[7].at + 1_800_000_000_000);
    DeadPathPrunedExactlyWhen(h, h[7].at + 1_800_000_000_001);
  }

  /** What pruning is documented to look for: no success within the time limit. */
  predicate NoSuccessLately(h: seq<Probe>, now: int) {
    forall i | 0 <= i < |h| && h[i].success :: now - h[i].at > STALE_AFTER
  }

  /** A pruned path is one the documentation means; the converse is what can fail. */
  lemma PrunedHadNoSuccessLately(h: seq<Probe>, now: int)
    requires Chronological(h) && Stale(h, now)
    ensures NoSuccessLately(h, now)
  {
    PrunedOnlyWhenDead(h, now);
  }

  /**
   * Exactly when pruning does what its documentation says. With no probe for half an hour the success rate decides;
   * with one, the path stays, which is right only if it answered within that time.
   */
  lemma PrunedAsDocumentedExactlyWhen(h: seq<Probe>, now: int)
    requires Chronological(h)
    ensures (Stale(h, now) <==> NoSuccessLately(h, now))
            <==> h != [] && if now - h[|h| - 1].at > STALE_AFTER then Rate(h) < 0.1 else !NoSuccessLately(h, now)
  {
    if Stale(h, now) {
      PrunedHadNoSuccessLately(h, now);
    }
    if h != [] && now - h[|h| - 1].at > STALE_AFTER {
      assert forall i | 0 <= i < |h| :: h[i].at <= h[|h| - 1].at;
    }
  }

  /** A path that answered its only probe and then fell silent keeps its rate, and is never pruned. */
  lemma SilentPathStays(rtt: int, at: int, now: int)
    requires now - at > STALE_AFTER
    ensures var h := [Probe(rtt, true, at)];
            Chronological(h) && NoSuccessLately(h, now) && !Stale(h, now)
  {
  }

  /** A path whose probes, five minutes apart, all fail is not pruned while they go on. */
  lemma FailingPathStays(rtt: int)
    ensures var five := 5 * 60 * 1_000_000_000;
            var h := seq(7, i => Probe(rtt, false, i * five));
            Chronological(h) && LastFailed(h, 7) && NoSuccessLately(h, 7 * five) && !Stale(h, 7 * five)
  {
  }

  /** Whatever its history, a path probed within the last half hour is not pruned. */
  lemma ProbedLatelyStays(h: seq<Probe>, p: Probe, now: int)
    requires now - p.at <= STALE_AFTER
    ensures !Stale(h + [p], now)
  {
  }

  class Path {
    const id: string
    const metrics: Metrics

    constructor (id: string, sqrt: real -> real)
      ensures this.id == id && fresh(metrics) && metrics.Valid() && metrics.history == []
    {
      this.id := id;
      metrics := new Metrics(sqrt);
    }
  }

  lemma RemovalStep(all: map<string, Path>, dead: set<string>, rest: set<string>, id: string)
    requires id in rest
    ensures id in all - (dead - rest) <==> id in all
    ensures all - (dead - (rest - {id})) == if id in dead then all - (dead - rest) - {id} else all - (dead - rest)
  {
    assert dead - (rest - {id}) == (dead - rest) + (if id in dead then {id} else {});
  }

  class PathSet {
    var paths: map<string, Path>

    ghost predicate Valid()
      reads this, set id | id in paths :: paths[id].metrics
    {
      forall id | id in paths :: paths[id].id == id && paths[id].metrics.Valid()
    }

    constructor ()
      ensures Valid() && paths == map[]
    {
      paths := map[];
    }

    method Add(p: Path)
      requires Valid() && p.metrics.Valid()
      modifies this
      ensures Valid() && paths == old(paths)[p.id := p]
    {
      paths := paths[p.id := p];
    }

    method Remove(id: string)
      requires Valid()
      modifies this
      ensures Valid() && paths == old(paths) - {id}
    {
      paths := paths - {id};
    }

    /** `Best`: in any order of the map, a path of the highest score above -1. */
    method Best(score: string -> real) returns (best: Option<string>)
      ensures best.None? <==> forall id | id in paths :: score(id) <= -1.0
      ensures best.Some? ==> best.value in paths && forall id | id in paths :: score(id) <= score(best.value)
    {
      best := None;
      var bestScore := -1.0;
      var rest := paths.Keys;
      while rest != {}
        invariant rest <= paths.Keys
        invariant best.None? ==> bestScore == -1.0
        invariant best.Some? ==> best.value in paths && score(best.value) == bestScore > -1.0
        invariant forall id | id in paths && id !in rest :: score(id) <= bestScore
      {
        var id :| id in rest;
        if score(id) > bestScore {
          best, bestScore := Some(id), score(id);
        }
        rest := rest - {id};
      }
    }

    /** One path set of `pruneStalePaths`: exactly the stale paths go. */
    method PruneStale(now: int)
      requires Valid()
      modifies this
      ensures Valid()
      ensures paths == map id | id in old(paths) && !Stale(old(paths)[id].metrics.history, now) :: old(paths)[id]
    {
      hide Stale, Metrics.Valid;
      ghost var before, dead := paths, set id | id in paths && Stale(paths[id].metrics.history, now);
      var rest := paths.Keys;
      while rest != {}
        invariant rest <= before.Keys && Valid() && paths == before - (dead - rest)
        decreases rest
      {
        var id :| id in rest;
        var stale := IsStale(paths[id], now);
        assert stale <==> id in dead;
        RemovalStep(before, dead, rest, id);
        if stale {
          Remove(paths[id].id);
        }
        rest := rest - {id};
      }
      assert dead - {} == dead;
    }

    static method IsStale(p: Path, now: int) returns (stale: bool)
      requires p.metrics.Valid()
      ensures stale <==> Stale(p.metrics.history, now)
    {
      stale := p.metrics.sampleCount > 0 && p.metrics.successRate < 0.1 && now - p.metrics.lastProbed > STALE_AFTER;
    }
  }
}
