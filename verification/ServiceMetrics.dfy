/** Request counters and latencies of one service, used one call at a time. Interleaved use is in
    `MetricsInterleaved`. */
module ServiceMetrics {
  import opened Histogram
  import opened Sequences

  const LATENCY_BOUNDS: seq<nat> := [10, 50, 100, 250, 500, 1000, 2500, 5000, 10000, 30000, 60000]

  datatype Outcome = Succeeded | Failed | TimedOut

  /** One finished request. */
  datatype End = End(latency: nat, outcome: Outcome)

  datatype RequestMetrics = RequestMetrics(
    total: nat,
    success: nat,
    failure: nat,
    timeout: nat,
    latencyAvg: nat,
    latencyP50: nat,
    latencyP95: nat,
    latencyP99: nat,
    latencyMax: nat)

  function OutcomeOf(success: bool, isTimeout: bool): Outcome {
    if isTimeout then TimedOut else if success then Succeeded else Failed
  }

  function Latencies(ends: seq<End>): (ls: seq<nat>)
    ensures |ls| == |ends|
  {
    seq(|ends|, i requires 0 <= i < |ends| => ends[i].latency)
  }

  function Tally(ends: seq<End>, o: Outcome): nat {
    if ends == [] then 0 else Tally(Front(ends), o) + if Last(ends).outcome == o then 1 else 0
  }

  function Sum(ends: seq<End>): nat {
    if ends == [] then 0 else Sum(Front(ends)) + Last(ends).latency
  }

  function Maximum(ends: seq<End>): nat {
    if ends == [] then 0
    else
      var m := Maximum(Front(ends));
      if Last(ends).latency > m then Last(ends).latency else m
  }

  lemma PushEnd(ends: seq<End>, e: End)
    ensures Sum(ends + [e]) == Sum(ends) + e.latency
    ensures Maximum(ends + [e]) == if e.latency > Maximum(ends) then e.latency else Maximum(ends)
    ensures forall o :: Tally(ends + [e], o) == Tally(ends, o) + if e.outcome == o then 1 else 0
    ensures Latencies(ends + [e]) == Latencies(ends) + [e.latency]
  {
    assert (ends + [e])[..|ends|] == ends;
  }

  /** The recorded maximum is a bound on every latency and is one of them. */
  lemma {:induction false} MaximumIsMax(ends: seq<End>)
    ensures forall i :: 0 <= i < |ends| ==> ends[i].latency <= Maximum(ends)
    ensures ends != [] ==> exists i :: 0 <= i < |ends| && ends[i].latency == Maximum(ends)
  {
    if ends != [] {
      var init := Front(ends);
      MaximumIsMax(init);
      if Last(ends).latency <= Maximum(init) && init != [] {
        var i :| 0 <= i < |init| && init[i].latency == Maximum(init);
        assert ends[i].latency == Maximum(ends);
      } else if Last(ends).latency > Maximum(init) {
        assert Last(ends).latency == Maximum(ends);
      } else {
        assert ends[0].latency == Maximum(ends);
      }
    }
  }

  lemma {:induction false} TallyIsTotal(ends: seq<End>)
    ensures Tally(ends, Succeeded) + Tally(ends, Failed) + Tally(ends, TimedOut) == |ends|
  {
    if ends != [] {
      TallyIsTotal(Front(ends));
    }
  }

  lemma {:induction false} SumBounded(ends: seq<End>)
    ensures Sum(ends) <= |ends| * Maximum(ends)
  {
    if ends != [] {
      var init := Front(ends);
      SumBounded(init);
      OneMore(Sum(init), |init|, Maximum(init), Last(ends).latency, Maximum(ends));
    }
  }

  lemma OneMore(sum: nat, n: nat, max: nat, x: nat, max': nat)
    requires sum <= n * max && max <= max' && x <= max'
    ensures sum + x <= (n + 1) * max'
  {
    MulMonotone(n, max, max');
  }

  lemma MulMonotone(n: nat, a: nat, b: nat)
    requires a <= b
    ensures n * a <= n * b
  {
  }

  lemma AverageBounded(sum: nat, count: nat, max: nat)
    requires count > 0 && sum <= count * max
    ensures sum / count <= max
  {
    var q := sum / count;
    assert count * q <= sum;
    if q > max {
      MulMonotone(count, max + 1, q);
    }
  }

  /** The three percentiles of a snapshot. */
  function Quantile(ends: seq<End>, p: real, total: nat): nat {
    PercentileOf(LATENCY_BOUNDS, Latencies(ends), p, total)
  }

  lemma QuantilesOrdered(ends: seq<End>, total: nat)
    ensures Quantile(ends, 50.0, total) <= Quantile(ends, 95.0, total) <= Quantile(ends, 99.0, total)
  {
    PercentileMonotone(LATENCY_BOUNDS, Latencies(ends), 50.0, 95.0, total);
    PercentileMonotone(LATENCY_BOUNDS, Latencies(ends), 95.0, 99.0, total);
  }

  lemma MeanBounded(ends: seq<End>)
    requires ends != []
    ensures Sum(ends) / |ends| <= Maximum(ends)
  {
    SumBounded(ends);
    AverageBounded(Sum(ends), |ends|, Maximum(ends));
  }

  class ServiceMetrics {
    var requestsTotal: nat
    var requestsSuccess: nat
    var requestsFailure: nat
    var requestsTimeout: nat
    var latencySum: nat
    var latencyCount: nat
    var latencyMax: nat
    var activeRequests: nat
    const histogram: Histogram
    ghost var started: nat
    ghost var ends: seq<End>

    ghost function Repr(): set<object>
      reads this, histogram
    {
      {this, histogram, histogram.buckets}
    }

    /** Every start is still active or has ended with exactly one outcome, and the latency figures
        are those of the ended requests. */
    ghost predicate Valid()
      reads this, histogram, histogram.buckets
    {
      && histogram.Valid()
      && histogram.bounds == LATENCY_BOUNDS
      && requestsTotal == started == activeRequests + |ends|
      && requestsSuccess == Tally(ends, Succeeded)
      && requestsFailure == Tally(ends, Failed)
      && requestsTimeout == Tally(ends, TimedOut)
      && latencyCount == |ends|
      && latencySum == Sum(ends)
      && latencyMax == Maximum(ends)
      && histogram.observed == Latencies(ends)
    }

    constructor ()
      ensures Valid() && fresh(Repr()) && started == 0 && ends == []
    {
      requestsTotal, requestsSuccess, requestsFailure, requestsTimeout := 0, 0, 0, 0;
      latencySum, latencyCount, latencyMax, activeRequests := 0, 0, 0, 0;
      histogram := new Histogram(LATENCY_BOUNDS);
      started, ends := 0, [];
    }

    method RequestStart()
      requires Valid()
      modifies this
      ensures Valid() && started == old(started) + 1 && ends == old(ends)
      ensures requestsTotal == old(requestsTotal) + 1 && activeRequests == old(activeRequests) + 1
    {
      requestsTotal := requestsTotal + 1;
      activeRequests := activeRequests + 1;
      started := started + 1;
    }

    /** Ends one of the active requests. A timeout counts as that whatever else is said of it. */
    method RequestEnd(latency: nat, success: bool, isTimeout: bool)
      requires Valid() && activeRequests > 0
      modifies Repr()
      ensures Valid() && started == old(started)
      ensures ends == old(ends) + [End(latency, OutcomeOf(success, isTimeout))]
      ensures requestsTimeout == old(requestsTimeout) + if isTimeout then 1 else 0
      ensures requestsSuccess == old(requestsSuccess) + if success && !isTimeout then 1 else 0
      ensures requestsFailure == old(requestsFailure) + if !success && !isTimeout then 1 else 0
      ensures activeRequests == old(activeRequests) - 1
    {
      ghost var e := End(latency, OutcomeOf(success, isTimeout));
      PushEnd(ends, e);
      hide Tally, Sum, Maximum, Latencies, BucketCount;
      activeRequests := activeRequests - 1;
      latencyCount := latencyCount + 1;
      latencySum := latencySum + latency;
      if latency > latencyMax {
        latencyMax := latency;
      }
      histogram.Observe(latency);
      if isTimeout {
        requestsTimeout := requestsTimeout + 1;
      } else if success {
        requestsSuccess := requestsSuccess + 1;
      } else {
        requestsFailure := requestsFailure + 1;
      }
      ends := ends + [e];
    }

    /** Percentiles are ranked against the total number of requests started, not of those ended. */
    method Snapshot() returns (m: RequestMetrics)
      requires Valid()
      ensures m.total == started == activeRequests + m.success + m.failure + m.timeout
      ensures m.success == Tally(ends, Succeeded) && m.failure == Tally(ends, Failed) && m.timeout == Tally(ends, TimedOut)
      ensures m.latencyAvg == if ends == [] then 0 else Sum(ends) / |ends|
      ensures started == 0 ==> m == RequestMetrics(0, 0, 0, 0, 0, 0, 0, 0, 0)
      ensures Total(histogram.buckets[..]) == latencyCount == m.success + m.failure + m.timeout
      ensures m.latencyAvg <= m.latencyMax && m.latencyMax == Maximum(ends)
      ensures m.latencyP50 <= m.latencyP95 <= m.latencyP99
      ensures m.latencyP50 == Quantile(ends, 50.0, m.total)
      ensures m.latencyP95 == Quantile(ends, 95.0, m.total)
      ensures m.latencyP99 == Quantile(ends, 99.0, m.total)
    {
      hide PercentileOf, Tally, Sum, Maximum, Latencies;
      var total := requestsTotal;
      var p50 := histogram.Percentile(50.0, total);
      var p95 := histogram.Percentile(95.0, total);
      var p99 := histogram.Percentile(99.0, total);
      QuantilesOrdered(ends, total);
      NothingEnded(total);
      TallyIsTotal(ends);
      BucketsSumToCount(LATENCY_BOUNDS, Latencies(ends), histogram.buckets[..]);
      if latencyCount > 0 {
        MeanBounded(ends);
      }
      m := RequestMetrics(total, requestsSuccess, requestsFailure, requestsTimeout,
                          if latencyCount > 0 then latencySum / latencyCount else 0,
                          p50, p95, p99, latencyMax);
    }
  }

  lemma NothingEnded(total: nat)
    ensures Sum([]) == 0 && Maximum([]) == 0
    ensures total == 0 ==> forall p :: Quantile([], p, total) == 0
  {
  }

  /** With every request ended, a snapshot percentile is a rank of the latencies themselves. */
  lemma QuiescentPercentile(ends: seq<End>, p: real)
    requires ends != [] && 0.0 < p <= 100.0
    ensures 1 <= Target(p, |ends|) <= |ends|
    ensures Quantile(ends, p, |ends|) ==
            RoundUp(LATENCY_BOUNDS, Sorted(Latencies(ends))[Target(p, |ends|) - 1])
  {
    TargetWithinTotal(p, |ends|);
  }

  /** For all latencies of `n` ended requests, a snapshot percentile is the one it would be without the
      `active` ones exactly when they do not move the rank. */
  lemma ActiveHarmlessIffSameRank(n: nat, active: nat, p: real)
    requires n > 0 && 0.0 < p <= 100.0
    ensures (forall ends: seq<End> :: |ends| == n ==> Quantile(ends, p, active + n) == Quantile(ends, p, n))
            <==> Target(p, active + n) == Target(p, n)
  {
    TargetWithinTotal(p, n);
    hide Target, PercentileOf;
    if Target(p, active + n) == Target(p, n) {
      forall ends: seq<End> | |ends| == n ensures Quantile(ends, p, active + n) == Quantile(ends, p, n) {
        SameTarget(LATENCY_BOUNDS, Latencies(ends), p, n, active + n);
      }
    } else {
      var obs := DifferentTarget(LATENCY_BOUNDS, n, p, n, active + n);
      var ends := EndsWith(obs);
      assert Quantile(ends, p, active + n) != Quantile(ends, p, n);
    }
  }

  /** Ended requests with the given latencies. */
  function EndsWith(obs: seq<nat>): (ends: seq<End>)
    ensures |ends| == |obs| && Latencies(ends) == obs
  {
    seq(|obs|, i requires 0 <= i < |obs| => End(obs[i], Succeeded))
  }

  lemma Rank99(n: nat, active: nat)
    requires n > 0
    ensures 1 <= Target(99.0, active + n)
    ensures Target(99.0, active + n) > n <==> 99 * active > n
  {
    var total := active + n;
    TargetWithinTotal(99.0, total);
    assert total as real * 99.0 / 100.0 > n as real <==> 99 * active > n;
  }

  /** The 99th percentile of `n` ended requests is the last bound however fast they all were exactly when
      there is more than one active request to every 99 ended ones. */
  lemma ActiveSkewsIffOneIn99(n: nat, active: nat)
    requires n > 0
    ensures (forall ends: seq<End> :: |ends| == n ==> Quantile(ends, 99.0, active + n) == 60000) <==> 99 * active > n
  {
    Rank99(n, active);
    hide Target;
    if 99 * active > n {
      forall ends: seq<End> | |ends| == n ensures Quantile(ends, 99.0, active + n) == 60000 {
      }
    } else {
      var ends := EndsWith(TwoLevels(0, n, 60000, 0));
      TwoLevelsPercentile(LATENCY_BOUNDS, 0, n, 60000, 0, 99.0, active + n);
      assert Quantile(ends, 99.0, active + n) == 10;
    }
  }
}
