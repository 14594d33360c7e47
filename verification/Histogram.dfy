/** The latency histogram: buckets filled by binary search, percentiles read off the buckets, and the
    proof that they are percentiles of the raw observations. */
module Histogram {
  import opened Sequences

  predicate StrictlyIncreasing(bounds: seq<nat>) {
    forall i, j :: 0 <= i < j < |bounds| ==> bounds[i] < bounds[j]
  }

  // ---------- percentiles of raw observations ----------

  function Insert(x: nat, t: seq<nat>): seq<nat> {
    if t == [] then [x]
    else if x <= t[0] then [x] + t
    else [t[0]] + Insert(x, t[1..])
  }

  function Sorted(s: seq<nat>): (t: seq<nat>)
    ensures |t| == |s|
  {
    if s == [] then []
    else
      InsertLength(s[0], Sorted(s[1..]));
      Insert(s[0], Sorted(s[1..]))
  }

  lemma {:induction false} InsertLength(x: nat, t: seq<nat>)
    ensures |Insert(x, t)| == |t| + 1
    ensures multiset(Insert(x, t)) == multiset(t) + multiset{x}
  {
    if t != [] {
      assert t == [t[0]] + t[1..];
      if x > t[0] {
        InsertLength(x, t[1..]);
      }
    }
  }

  lemma {:induction false} InsertKeepsOrder(x: nat, t: seq<nat>)
    requires NonDecreasing(t)
    ensures NonDecreasing(Insert(x, t))
    ensures Insert(x, t)[0] == if t == [] || x <= t[0] then x else t[0]
  {
    if t != [] && x > t[0] {
      InsertKeepsOrder(x, t[1..]);
      ConsOrdered(t[0], Insert(x, t[1..]));
    } else {
      ConsOrdered(x, t);
    }
  }

  lemma ConsOrdered(x: nat, t: seq<nat>)
    requires NonDecreasing(t) && (t == [] || x <= t[0])
    ensures NonDecreasing([x] + t)
  {
  }

  lemma {:induction false} SortedAscends(s: seq<nat>)
    ensures NonDecreasing(Sorted(s))
  {
    if s != [] {
      SortedAscends(s[1..]);
      InsertKeepsOrder(s[0], Sorted(s[1..]));
      hide Insert, NonDecreasing;
    }
  }

  lemma {:induction false} SortedRearranges(s: seq<nat>)
    ensures multiset(Sorted(s)) == multiset(s)
  {
    if s != [] {
      SortedRearranges(s[1..]);
      InsertLength(s[0], Sorted(s[1..]));
      hide Insert;
      assert s == [s[0]] + s[1..];
    }
  }

  /** `Sorted` is the ascending arrangement of the same values. */
  lemma SortedIsSort(s: seq<nat>)
    ensures NonDecreasing(Sorted(s))
    ensures multiset(Sorted(s)) == multiset(s)
  {
    SortedAscends(s);
    SortedRearranges(s);
  }

  /** The smallest bound at or above `x`, or the last bound when `x` exceeds them all. */
  function RoundUp(bounds: seq<nat>, x: nat): nat
    requires bounds != []
  {
    if |bounds| == 1 || x <= bounds[0] then bounds[0] else RoundUp(bounds[1..], x)
  }

  lemma {:induction false} RoundUpAt(bounds: seq<nat>, x: nat, i: nat)
    requires i < |bounds|
    requires forall j :: 0 <= j < i ==> bounds[j] < x
    requires x <= bounds[i] || i == |bounds| - 1
    ensures RoundUp(bounds, x) == bounds[i]
  {
    if i > 0 {
      assert bounds[0] < x;
      RoundUpAt(bounds[1..], x, i - 1);
    }
  }

  lemma {:induction false} RoundUpMonotone(bounds: seq<nat>, x: nat, y: nat)
    requires bounds != [] && StrictlyIncreasing(bounds) && x <= y
    ensures RoundUp(bounds, x) <= RoundUp(bounds, y)
    ensures bounds[0] <= RoundUp(bounds, x) <= bounds[|bounds| - 1]
  {
    if |bounds| > 1 {
      var rest := bounds[1..];
      assert rest[0] == bounds[1] && rest[|rest| - 1] == bounds[|bounds| - 1];
      RoundUpMonotone(rest, x, y);
      RoundUpMonotone(rest, y, y);
    }
  }

  /** `(total as f64 * p / 100.0).ceil() as u64`, without rounding: the cast turns negatives to 0. */
  function Target(p: real, total: nat): nat {
    var rank := -((-(total as real * p / 100.0)).Floor);
    if rank < 0 then 0 else rank
  }

  /** The percentile as the raw observations define it: the bound covering the observation of rank
      `Target`, counting from the smallest. */
  function PercentileOf(bounds: seq<nat>, obs: seq<nat>, p: real, total: nat): nat {
    if total == 0 then 0
    else if bounds == [] then 100
    else
      var k := Target(p, total);
      if k == 0 then bounds[0]
      else if k <= |obs| then RoundUp(bounds, Sorted(obs)[k - 1])
      else bounds[|bounds| - 1]
  }

  lemma TargetMonotone(p: real, q: real, total: nat)
    requires p <= q
    ensures Target(p, total) <= Target(q, total)
  {
    var t := total as real;
    assert t * p <= t * q;
    assert t * p / 100.0 <= t * q / 100.0;
  }

  lemma TargetWithinTotal(p: real, total: nat)
    requires 0.0 < p <= 100.0 && total > 0
    ensures 1 <= Target(p, total) <= total
  {
    var t := total as real;
    assert 0.0 < t * p <= t * 100.0;
  }

  /** Higher percentiles are never smaller, whatever `total` is passed. */
  lemma PercentileMonotone(bounds: seq<nat>, obs: seq<nat>, p: real, q: real, total: nat)
    requires StrictlyIncreasing(bounds) && p <= q
    ensures PercentileOf(bounds, obs, p, total) <= PercentileOf(bounds, obs, q, total)
  {
    if total > 0 && bounds != [] {
      TargetMonotone(p, q, total);
      SortedIsSort(obs);
      var k, l := Target(p, total), Target(q, total);
      if 1 <= k <= |obs| {
        var y := if l <= |obs| then l - 1 else k - 1;
        RoundUpMonotone(bounds, Sorted(obs)[k - 1], Sorted(obs)[y]);
      } else if 1 <= l <= |obs| {
        RoundUpMonotone(bounds, Sorted(obs)[l - 1], Sorted(obs)[l - 1]);
      }
    }
  }

  /** The rank is the least whole number not below the exact `total * p / 100`. */
  lemma TargetIsCeiling(p: real, total: nat)
    requires p >= 0.0
    ensures Target(p, total) as real * 100.0 >= total as real * p
    ensures Target(p, total) > 0 ==> (Target(p, total) - 1) as real * 100.0 < total as real * p
  {
    var exact := total as real * p / 100.0;
    assert exact >= 0.0;
    var rank := -((-exact).Floor);
    assert rank as real >= exact && (rank - 1) as real < exact;
  }

  // ---------- counting by bucket ----------

  function CountAtMost(s: seq<nat>, b: nat): (c: nat)
    ensures c <= |s|
  {
    if s == [] then 0 else CountAtMost(s[1..], b) + if s[0] <= b then 1 else 0
  }

  /** Values in the bucket that ends at bound `i`, or beyond the last bound. */
  predicate InBucket(bounds: seq<nat>, i: nat, x: nat)
    requires i <= |bounds|
  {
    && (i > 0 ==> bounds[i - 1] < x)
    && (i < |bounds| ==> x <= bounds[i])
  }

  function BucketCount(bounds: seq<nat>, i: nat, obs: seq<nat>): nat
    requires i <= |bounds|
  {
    if obs == [] then 0 else BucketCount(bounds, i, obs[1..]) + if InBucket(bounds, i, obs[0]) then 1 else 0
  }

  lemma {:induction false} BucketCountPush(bounds: seq<nat>, i: nat, obs: seq<nat>, x: nat)
    requires i <= |bounds|
    ensures BucketCount(bounds, i, obs + [x]) ==
            BucketCount(bounds, i, obs) + if InBucket(bounds, i, x) then 1 else 0
  {
    if obs == [] {
      assert obs + [x] == [x];
    } else {
      assert (obs + [x])[1..] == obs[1..] + [x];
      BucketCountPush(bounds, i, obs[1..], x);
    }
  }

  /** Observations in the first `i` buckets. */
  function Cumulative(bounds: seq<nat>, i: nat, obs: seq<nat>): nat
    requires i <= |bounds| + 1
  {
    if i == 0 then 0 else if i <= |bounds| then CountAtMost(obs, bounds[i - 1]) else |obs|
  }

  lemma {:induction false} CumulativeStep(bounds: seq<nat>, i: nat, obs: seq<nat>)
    requires StrictlyIncreasing(bounds) && i <= |bounds|
    ensures Cumulative(bounds, i + 1, obs) == Cumulative(bounds, i, obs) + BucketCount(bounds, i, obs)
  {
    if obs != [] {
      CumulativeStep(bounds, i, obs[1..]);
    }
  }

  lemma {:induction false} CountInsert(x: nat, t: seq<nat>, b: nat)
    ensures CountAtMost(Insert(x, t), b) == CountAtMost(t, b) + if x <= b then 1 else 0
  {
    if t != [] {
      if x <= t[0] {
        assert ([x] + t)[1..] == t;
      } else {
        CountInsert(x, t[1..], b);
        assert ([t[0]] + Insert(x, t[1..]))[1..] == Insert(x, t[1..]);
      }
    }
  }

  lemma {:induction false} CountSorted(s: seq<nat>, b: nat)
    ensures CountAtMost(Sorted(s), b) == CountAtMost(s, b)
  {
    if s != [] {
      CountSorted(s[1..], b);
      CountInsert(s[0], Sorted(s[1..]), b);
    }
  }

  lemma {:induction false} CountIsRank(t: seq<nat>, b: nat, k: nat)
    requires NonDecreasing(t) && k < |t|
    ensures t[k] <= b <==> k < CountAtMost(t, b)
  {
    if k > 0 {
      CountIsRank(t[1..], b, k - 1);
      if t[0] > b {
        NoneAtMost(t, b);
      }
    } else if t[0] > b {
      NoneAtMost(t, b);
    }
  }

  lemma {:induction false} NoneAtMost(t: seq<nat>, b: nat)
    requires NonDecreasing(t) && (t == [] || t[0] > b)
    ensures CountAtMost(t, b) == 0
  {
    if t != [] {
      NoneAtMost(t[1..], b);
    }
  }

  /** The cumulative count reaches rank `k` at the first bound covering the observation of rank `k`. */
  lemma CumulativeReaches(bounds: seq<nat>, i: nat, obs: seq<nat>, k: nat)
    requires i < |bounds| && 1 <= k <= |obs|
    ensures Cumulative(bounds, i + 1, obs) >= k <==> Sorted(obs)[k - 1] <= bounds[i]
  {
    SortedIsSort(obs);
    CountSorted(obs, bounds[i]);
    CountIsRank(Sorted(obs), bounds[i], k - 1);
  }

  /** What a percentile means, without sorting: the first bound with at least `Target` observations at or
      below it, or the last bound if none has as many. */
  lemma PercentileIsFirstBound(bounds: seq<nat>, obs: seq<nat>, p: real, total: nat, i: nat)
    requires StrictlyIncreasing(bounds) && i < |bounds| && total > 0
    requires i < |bounds| - 1 ==> CountAtMost(obs, bounds[i]) >= Target(p, total)
    requires i > 0 ==> CountAtMost(obs, bounds[i - 1]) < Target(p, total)
    ensures PercentileOf(bounds, obs, p, total) == bounds[i]
  {
    var k := Target(p, total);
    if 1 <= k <= |obs| {
      var x := Sorted(obs)[k - 1];
      SortedIsSort(obs);
      forall j | 0 <= j < i ensures bounds[j] < x {
        CountSorted(obs, bounds[i - 1]);
        CountIsRank(Sorted(obs), bounds[i - 1], k - 1);
      }
      CountSorted(obs, bounds[i]);
      CountIsRank(Sorted(obs), bounds[i], k - 1);
      RoundUpAt(bounds, x, i);
    }
  }

  /** With nothing counted every percentile is 0; a histogram without bounds answers 100 instead of one. */
  lemma PercentileDegenerate(bounds: seq<nat>, obs: seq<nat>, p: real, total: nat)
    ensures total == 0 ==> PercentileOf(bounds, obs, p, total) == 0
    ensures total > 0 && bounds == [] ==> PercentileOf(bounds, obs, p, total) == 100
  {
  }

  function Total(counts: seq<nat>): nat {
    if counts == [] then 0 else Total(Front(counts)) + Last(counts)
  }

  lemma {:induction false} BucketsSumTo(bounds: seq<nat>, obs: seq<nat>, counts: seq<nat>, n: nat)
    requires StrictlyIncreasing(bounds) && n <= |counts| == |bounds| + 1
    requires forall i :: 0 <= i <= |bounds| ==> counts[i] == BucketCount(bounds, i, obs)
    ensures Total(counts[..n]) == Cumulative(bounds, n, obs)
  {
    if n > 0 {
      BucketsSumTo(bounds, obs, counts, n - 1);
      CumulativeStep(bounds, n - 1, obs);
      assert Front(counts[..n]) == counts[..n - 1];
    }
  }

  /** The buckets, the one beyond the last bound included, hold every observation once. */
  lemma BucketsSumToCount(bounds: seq<nat>, obs: seq<nat>, counts: seq<nat>)
    requires StrictlyIncreasing(bounds) && |counts| == |bounds| + 1
    requires forall i :: 0 <= i <= |bounds| ==> counts[i] == BucketCount(bounds, i, obs)
    ensures Total(counts) == |obs|
  {
    BucketsSumTo(bounds, obs, counts, |counts|);
    assert counts[..|counts|] == counts;
  }

  lemma {:induction false} SortedFixed(s: seq<nat>)
    requires NonDecreasing(s)
    ensures Sorted(s) == s
  {
    if s != [] {
      SortedFixed(s[1..]);
      assert s == [s[0]] + s[1..];
    }
  }

  /** `low` observations of one value followed by `high` of a larger one. */
  function TwoLevels(a: nat, low: nat, b: nat, high: nat): (obs: seq<nat>)
    ensures |obs| == low + high
    ensures forall i :: 0 <= i < |obs| ==> obs[i] == if i < low then a else b
  {
    seq(low + high, i => if i < low then a else b)
  }

  lemma TwoLevelsPercentile(bounds: seq<nat>, a: nat, low: nat, b: nat, high: nat, p: real, total: nat)
    requires bounds != [] && StrictlyIncreasing(bounds) && a <= bounds[0] && b == bounds[|bounds| - 1] && a <= b
    requires total > 0 && Target(p, total) >= 1
    ensures PercentileOf(bounds, TwoLevels(a, low, b, high), p, total) ==
            if Target(p, total) <= low then bounds[0] else bounds[|bounds| - 1]
  {
    var obs := TwoLevels(a, low, b, high);
    SortedFixed(obs);
    RoundUpAt(bounds, a, 0);
    RoundUpAt(bounds, b, |bounds| - 1);
  }

  lemma SameTarget(bounds: seq<nat>, obs: seq<nat>, p: real, total: nat, total': nat)
    requires total > 0 && total' > 0 && Target(p, total) == Target(p, total')
    ensures PercentileOf(bounds, obs, p, total) == PercentileOf(bounds, obs, p, total')
  {
  }

  /** If two totals give different ranks, there are observations on which it shows. */
  lemma DifferentTarget(bounds: seq<nat>, n: nat, p: real, total: nat, total': nat) returns (obs: seq<nat>)
    requires StrictlyIncreasing(bounds) && |bounds| >= 2
    requires 0 < n <= total <= total' && 1 <= Target(p, total) <= n && Target(p, total) != Target(p, total')
    ensures |obs| == n && PercentileOf(bounds, obs, p, total) != PercentileOf(bounds, obs, p, total')
  {
    var k, top := Target(p, total), bounds[|bounds| - 1];
    TargetGrows(p, total, total');
    obs := TwoLevels(0, k, top, n - k);
    TwoLevelsPercentile(bounds, 0, k, top, n - k, p, total);
    TwoLevelsPercentile(bounds, 0, k, top, n - k, p, total');
  }

  lemma TargetGrows(p: real, total: nat, total': nat)
    requires total <= total' && Target(p, total) >= 1
    ensures Target(p, total) <= Target(p, total')
  {
    var t, t' := total as real, total' as real;
    assert t * p > 0.0;
    assert p > 0.0;
    assert t * p <= t' * p;
  }

  // ---------- the object ----------

  class Histogram {
    const bounds: seq<nat>
    const buckets: array<nat>
    ghost var observed: seq<nat>

    ghost predicate Valid()
      reads this, buckets
    {
      && StrictlyIncreasing(bounds)
      && buckets.Length == |bounds| + 1
      && forall i :: 0 <= i <= |bounds| ==> buckets[i] == BucketCount(bounds, i, observed)
    }

    constructor (bounds: seq<nat>)
      requires StrictlyIncreasing(bounds)
      ensures Valid() && fresh(buckets) && this.bounds == bounds && observed == []
    {
      this.bounds := bounds;
      buckets := new nat[|bounds| + 1](_ => 0);
      observed := [];
    }

    /** Where `binary_search` finds `value`, or where it would insert it. */
    method Search(value: nat) returns (index: nat)
      requires StrictlyIncreasing(bounds)
      ensures index <= |bounds|
      ensures forall i :: 0 <= i <= |bounds| ==> (InBucket(bounds, i, value) <==> i == index)
    {
      var lo, hi := 0, |bounds|;
      while lo < hi
        invariant 0 <= lo <= hi <= |bounds|
        invariant forall i :: 0 <= i < lo ==> bounds[i] < value
        invariant forall i :: hi <= i < |bounds| ==> value <= bounds[i]
      {
        var mid := (lo + hi) / 2;
        if bounds[mid] == value {
          return mid;
        } else if bounds[mid] < value {
          lo := mid + 1;
        } else {
          hi := mid;
        }
      }
      index := lo;
    }

    method Observe(value: nat)
      requires Valid()
      modifies this, buckets
      ensures Valid() && observed == old(observed) + [value]
    {
      var index := Search(value);
      forall i | 0 <= i <= |bounds|
        ensures BucketCount(bounds, i, observed + [value]) ==
                BucketCount(bounds, i, observed) + if i == index then 1 else 0
      {
        BucketCountPush(bounds, i, observed, value);
      }
      buckets[index] := buckets[index] + 1;
      observed := observed + [value];
    }

    /** Read off the buckets alone, this is the percentile of the raw observations. */
    method Percentile(p: real, total: nat) returns (r: nat)
      requires Valid()
      ensures r == PercentileOf(bounds, observed, p, total)
    {
      if total == 0 {
        return 0;
      }
      var target := Target(p, total);
      hide Target, BucketCount, Sorted, RoundUp, CountAtMost;
      var cumulative := 0;
      for i := 0 to buckets.Length
        invariant cumulative == Cumulative(bounds, i, observed)
        invariant i > 0 ==> cumulative < target
      {
        CumulativeStep(bounds, i, observed);
        cumulative := cumulative + buckets[i];
        if cumulative >= target {
          if bounds != [] {
            FoundAt(bounds, observed, target, i);
          }
          if i < |bounds| {
            return bounds[i];
          } else {
            return if |bounds| > 0 then bounds[|bounds| - 1] else 100;
          }
        }
      }
      r := if |bounds| > 0 then bounds[|bounds| - 1] else 100;
    }
  }

  /** The bucket at which the scan stops is the one that decides the percentile. */
  lemma FoundAt(bounds: seq<nat>, obs: seq<nat>, target: nat, i: nat)
    requires StrictlyIncreasing(bounds) && bounds != [] && i <= |bounds|
    requires Cumulative(bounds, i + 1, obs) >= target
    requires i > 0 ==> Cumulative(bounds, i, obs) < target
    ensures target == 0 ==> i == 0
    ensures target > 0 ==> target <= |obs|
    ensures target > 0 ==> RoundUp(bounds, Sorted(obs)[target - 1]) ==
                           bounds[if i < |bounds| then i else |bounds| - 1]
  {
    if target > 0 {
      var x := Sorted(obs)[target - 1];
      var last := if i < |bounds| then i else |bounds| - 1;
      if i < |bounds| {
        CumulativeReaches(bounds, i, obs, target);
      }
      if i > 0 {
        CumulativeReaches(bounds, i - 1, obs, target);
      }
      forall j | 0 <= j < last ensures bounds[j] < x {
        assert i > 0 && bounds[j] <= bounds[i - 1];
      }
      RoundUpAt(bounds, x, last);
    }
  }
}
