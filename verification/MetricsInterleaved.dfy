/** Request counters and latencies of one service shared by many requests: every atomic access is a step,
    and the starts and ends of different requests interleave freely. */
module MetricsInterleaved {
  import opened Wrappers
  import opened Sequences
  import opened Counting
  import H = Histogram
  import opened ServiceMetrics

  /** Named after the access the request does next. Inside the compare-exchange loop it carries the maximum
      it last loaded (`seen`) and how many exchanges it has lost (`lost`). */
  datatype Pc =
    | CountActive
    | Active
    | CountLatency(end: End)
    | AddLatency(end: End)
    | LoadMax(end: End, lost: nat)
    | ExchangeMax(end: End, seen: nat, lost: nat)
    | CountBucket(end: End)
    | CountOutcome(end: End)
    | Done(end: End)

  /** `given` is how each request was said to end, once it was. */
  datatype Sys = Sys(
    total: nat,
    active: int,
    success: int,
    failure: int,
    timeout: int,
    count: int,
    sum: int,
    max: nat,
    buckets: seq<int>,
    pcs: seq<Pc>,
    given: seq<Option<End>>)

  /** `end` is how the request ends, where the step is the first of its end. */
  datatype Move = Begin | Advance(task: nat, end: End)

  const BUCKETS: nat := |LATENCY_BOUNDS| + 1

  function Start(): Sys {
    Sys(0, 0, 0, 0, 0, 0, 0, 0, seq(BUCKETS, _ => 0), [], [])
  }

  /** The bucket whose range holds `x`. */
  function BucketOf(x: nat): (b: nat)
    ensures b < BUCKETS
    ensures forall i :: 0 <= i < BUCKETS ==> (H.InBucket(LATENCY_BOUNDS, i, x) <==> i == b)
  {
    if x <= 10 then 0 else if x <= 50 then 1 else if x <= 100 then 2 else if x <= 250 then 3
    else if x <= 500 then 4 else if x <= 1000 then 5 else if x <= 2500 then 6 else if x <= 5000 then 7
    else if x <= 10000 then 8 else if x <= 30000 then 9 else if x <= 60000 then 10 else 11
  }

  function Next(s: Sys, pc: Pc, end: End): Option<Pc> {
    match pc
    case CountActive => Some(Active)
    case Active => Some(CountLatency(end))
    case CountLatency(e) => Some(AddLatency(e))
    case AddLatency(e) => Some(LoadMax(e, 0))
    case LoadMax(e, lost) => Some(if e.latency <= s.max then CountBucket(e) else ExchangeMax(e, s.max, lost))
    case ExchangeMax(e, seen, lost) => Some(if s.max == seen then CountBucket(e) else LoadMax(e, lost + 1))
    case CountBucket(e) => Some(CountOutcome(e))
    case CountOutcome(e) => Some(Done(e))
    case Done(_) => None
  }

  function Touch(s: Sys, pc: Pc): Sys {
    match pc
    case CountActive => s.(active := s.active + 1)
    case Active => s.(active := s.active - 1)
    case CountLatency(_) => s.(count := s.count + 1)
    case AddLatency(e) => s.(sum := s.sum + e.latency)
    case ExchangeMax(e, seen, _) => if s.max == seen then s.(max := e.latency) else s
    case CountBucket(e) =>
      var b := BucketOf(e.latency);
      if b < |s.buckets| then s.(buckets := s.buckets[b := s.buckets[b] + 1]) else s
    case CountOutcome(e) =>
      (match e.outcome
       case Succeeded => s.(success := s.success + 1)
       case Failed => s.(failure := s.failure + 1)
       case TimedOut => s.(timeout := s.timeout + 1))
    case _ => s
  }

  function Step(s: Sys, i: nat, end: End): Option<Sys>
    requires i < |s.pcs|
  {
    match Next(s, s.pcs[i], end)
    case None => None
    case Some(pc') =>
      Some(Touch(s, s.pcs[i]).(pcs := s.pcs[i := pc'], given := Said(s.given, i, s.pcs[i], end)))
  }

  function Said(given: seq<Option<End>>, i: nat, pc: Pc, end: End): seq<Option<End>> {
    if pc.Active? && i < |given| then given[i := Some(end)] else given
  }

  function Apply(s: Sys, m: Move): Option<Sys> {
    match m
    case Begin => Some(s.(total := s.total + 1, pcs := s.pcs + [CountActive], given := s.given + [None]))
    case Advance(i, end) => if i < |s.pcs| then Step(s, i, end) else None
  }

  /** The state after a run from the start; `None` if some move of it is not possible. */
  function Play(ms: seq<Move>): Option<Sys> {
    if ms == [] then Some(Start())
    else
      match Play(Front(ms))
      case Some(s) => Apply(s, Last(ms))
      case None => None
  }

  // ---------- the invariant ----------

  predicate HasCountedLatency(pc: Pc) {
    HasAddedLatency(pc) || pc.AddLatency?
  }

  predicate HasAddedLatency(pc: Pc) {
    pc.LoadMax? || pc.ExchangeMax? || HasMax(pc)
  }

  /** Past the compare-exchange loop. */
  predicate HasMax(pc: Pc) {
    pc.CountBucket? || HasBucket(pc)
  }

  predicate HasBucket(pc: Pc) {
    pc.CountOutcome? || pc.Done?
  }

  function One(b: bool): nat {
    if b then 1 else 0
  }

  function ActiveWeight(pc: Pc): nat { One(pc.Active?) }
  function CountWeight(pc: Pc): nat { One(HasCountedLatency(pc)) }
  function SumWeight(pc: Pc): nat { if HasAddedLatency(pc) then pc.end.latency else 0 }
  function OutcomeWeight(o: Outcome): Pc -> nat { (pc: Pc) => One(pc.Done? && pc.end.outcome == o) }
  function BucketWeight(b: nat): Pc -> nat { (pc: Pc) => One(HasBucket(pc) && BucketOf(pc.end.latency) == b) }

  /** Started or ending, between two accesses of the same call. */
  function BetweenWeight(pc: Pc): nat { One(!pc.Active? && !pc.Done?) }

  predicate Gauges(s: Sys) {
    && s.total == |s.pcs|
    && s.active == Weigh(s.pcs, ActiveWeight)
    && s.count == Weigh(s.pcs, CountWeight)
    && s.sum == Weigh(s.pcs, SumWeight)
  }

  predicate Outcomes(s: Sys) {
    && s.success == Weigh(s.pcs, OutcomeWeight(Succeeded))
    && s.failure == Weigh(s.pcs, OutcomeWeight(Failed))
    && s.timeout == Weigh(s.pcs, OutcomeWeight(TimedOut))
  }

  predicate Buckets(s: Sys) {
    |s.buckets| == BUCKETS && forall b :: 0 <= b < BUCKETS ==> s.buckets[b] == Weigh(s.pcs, BucketWeight(b))
  }

  predicate PcInv(max: nat, pc: Pc) {
    && (HasMax(pc) ==> pc.end.latency <= max)
    && (pc.LoadMax? ==> pc.lost <= max && (pc.lost == 0 || pc.lost <= pc.end.latency))
    && (pc.ExchangeMax? ==> pc.lost <= pc.seen <= max && pc.seen < pc.end.latency)
  }

  /** The recorded maximum covers every request past its loop, and is the latency of one of them. */
  predicate MaxInv(max: nat, pcs: seq<Pc>) {
    && (forall i :: 0 <= i < |pcs| ==> PcInv(max, pcs[i]))
    && (max == 0 || exists i :: 0 <= i < |pcs| && HasMax(pcs[i]) && pcs[i].end.latency == max)
  }

  /** Every request under way to its end is ending the way it was said to. */
  predicate EndsAsGiven(s: Sys) {
    && |s.given| == |s.pcs|
    && forall i :: 0 <= i < |s.pcs| ==>
         s.given[i] == if s.pcs[i].CountActive? || s.pcs[i].Active? then None else Some(s.pcs[i].end)
  }

  lemma EndsAsGivenStep(s: Sys, i: nat, end: End)
    requires EndsAsGiven(s) && i < |s.pcs| && Step(s, i, end).Some?
    ensures EndsAsGiven(Step(s, i, end).value)
  {
  }

  predicate Inv(s: Sys) {
    EndsAsGiven(s) && Gauges(s) && Outcomes(s) && Buckets(s) && MaxInv(s.max, s.pcs)
  }

  lemma GaugesStep(s: Sys, i: nat, end: End)
    requires Gauges(s) && i < |s.pcs| && Step(s, i, end).Some?
    ensures Gauges(Step(s, i, end).value)
  {
    var pc' := Next(s, s.pcs[i], end).value;
    hide Weigh;
    WeighUpdate(s.pcs, i, pc', ActiveWeight);
    WeighUpdate(s.pcs, i, pc', CountWeight);
    WeighUpdate(s.pcs, i, pc', SumWeight);
  }

  lemma OutcomesStep(s: Sys, i: nat, end: End)
    requires Outcomes(s) && i < |s.pcs| && Step(s, i, end).Some?
    ensures Outcomes(Step(s, i, end).value)
  {
    var pc' := Next(s, s.pcs[i], end).value;
    hide Weigh;
    WeighUpdate(s.pcs, i, pc', OutcomeWeight(Succeeded));
    WeighUpdate(s.pcs, i, pc', OutcomeWeight(Failed));
    WeighUpdate(s.pcs, i, pc', OutcomeWeight(TimedOut));
  }

  lemma BucketsStep(s: Sys, i: nat, end: End)
    requires Buckets(s) && i < |s.pcs| && Step(s, i, end).Some?
    ensures Buckets(Step(s, i, end).value)
  {
    var s' := Step(s, i, end).value;
    hide Weigh;
    forall b | 0 <= b < BUCKETS ensures s'.buckets[b] == Weigh(s'.pcs, BucketWeight(b)) {
      WeighUpdate(s.pcs, i, s'.pcs[i], BucketWeight(b));
    }
  }

  lemma MaxStep(s: Sys, i: nat, end: End)
    requires MaxInv(s.max, s.pcs) && i < |s.pcs| && Step(s, i, end).Some?
    ensures MaxInv(Step(s, i, end).value.max, Step(s, i, end).value.pcs)
  {
    var s' := Step(s, i, end).value;
    assert PcInv(s.max, s.pcs[i]);
    assert s.max <= s'.max && PcInv(s'.max, s'.pcs[i]);
    forall j | 0 <= j < |s'.pcs| ensures PcInv(s'.max, s'.pcs[j]) {
      assert PcInv(s.max, s.pcs[j]);
    }
    if s'.max == s.max && s.max > 0 {
      var j :| 0 <= j < |s.pcs| && HasMax(s.pcs[j]) && s.pcs[j].end.latency == s.max;
      assert HasMax(s'.pcs[j]) && s'.pcs[j].end.latency == s'.max;
    } else if s'.max != s.max {
      assert HasMax(s'.pcs[i]) && s'.pcs[i].end.latency == s'.max;
    }
  }

  lemma GaugesBegin(s: Sys, s': Sys)
    requires Gauges(s) && Outcomes(s)
    requires s' == s.(total := s.total + 1, pcs := s.pcs + [CountActive], given := s'.given)
    ensures Gauges(s') && Outcomes(s')
  {
    hide Weigh;
    WeighPush(s.pcs, CountActive, ActiveWeight);
    WeighPush(s.pcs, CountActive, CountWeight);
    WeighPush(s.pcs, CountActive, SumWeight);
    WeighPush(s.pcs, CountActive, OutcomeWeight(Succeeded));
    WeighPush(s.pcs, CountActive, OutcomeWeight(Failed));
    WeighPush(s.pcs, CountActive, OutcomeWeight(TimedOut));
  }

  lemma BucketsBegin(s: Sys, s': Sys)
    requires Buckets(s) && s'.buckets == s.buckets && s'.pcs == s.pcs + [CountActive]
    ensures Buckets(s')
  {
    hide Weigh;
    forall b | 0 <= b < BUCKETS ensures s'.buckets[b] == Weigh(s'.pcs, BucketWeight(b)) {
      WeighPush(s.pcs, CountActive, BucketWeight(b));
    }
  }

  lemma MaxBegin(max: nat, pcs: seq<Pc>)
    requires MaxInv(max, pcs)
    ensures MaxInv(max, pcs + [CountActive])
  {
    if max > 0 {
      var j :| 0 <= j < |pcs| && HasMax(pcs[j]) && pcs[j].end.latency == max;
      assert (pcs + [CountActive])[j] == pcs[j];
    }
  }

  lemma BeginInv(s: Sys)
    requires Inv(s)
    ensures Inv(s.(total := s.total + 1, pcs := s.pcs + [CountActive], given := s.given + [None]))
  {
    var s' := s.(total := s.total + 1, pcs := s.pcs + [CountActive], given := s.given + [None]);
    GaugesBegin(s, s');
    BucketsBegin(s, s');
    MaxBegin(s.max, s.pcs);
    hide Gauges, Outcomes, Buckets, MaxInv;
  }

  lemma {:induction false} RunInv(ms: seq<Move>)
    requires Play(ms).Some?
    ensures Inv(Play(ms).value)
  {
    if ms != [] {
      RunInv(Front(ms));
      var s := Play(Front(ms)).value;
      hide EndsAsGiven, Gauges, Outcomes, Buckets, MaxInv, Step;
      match Last(ms)
      case Begin => BeginInv(s);
      case Advance(i, end) =>
        EndsAsGivenStep(s, i, end);
        GaugesStep(s, i, end);
        OutcomesStep(s, i, end);
        BucketsStep(s, i, end);
        MaxStep(s, i, end);
    }
  }

  // ---------- the laws ----------

  lemma {:induction false} Partition(pcs: seq<Pc>)
    ensures |pcs| == Weigh(pcs, ActiveWeight) + Weigh(pcs, BetweenWeight) + Weigh(pcs, OutcomeWeight(Succeeded))
                     + Weigh(pcs, OutcomeWeight(Failed)) + Weigh(pcs, OutcomeWeight(TimedOut))
  {
    if pcs != [] {
      Partition(Front(pcs));
    }
  }

  /** At every moment a counted request is active, has one outcome, or is between two accesses of its own
      start or end. */
  lemma RequestsConserved(ms: seq<Move>)
    requires Play(ms).Some?
    ensures var s := Play(ms).value;
            && 0 <= s.active
            && s.total == s.active + s.success + s.failure + s.timeout + Weigh(s.pcs, BetweenWeight)
  {
    RunInv(ms);
    Partition(Play(ms).value.pcs);
  }

  /** An exchange is lost only because the maximum has strictly grown since it was loaded, and a request
      loses no more exchanges than the latency it carries. */
  lemma LostExchangeMeansGrowth(ms: seq<Move>, i: nat, end: End)
    requires Play(ms).Some? && i < |Play(ms).value.pcs| && Play(ms).value.pcs[i].ExchangeMax?
    ensures var s := Play(ms).value;
            var pc := s.pcs[i];
            && pc.lost < pc.end.latency
            && Step(s, i, end).Some?
            && (Step(s, i, end).value.pcs[i].LoadMax? <==> s.max > pc.seen)
            && (Step(s, i, end).value.pcs[i].CountBucket? <==> s.max == pc.seen)
  {
    RunInv(ms);
    assert PcInv(Play(ms).value.max, Play(ms).value.pcs[i]);
  }

  predicate AtRest(pcs: seq<Pc>) {
    forall i :: 0 <= i < |pcs| ==> pcs[i].Done?
  }

  function EndsOf(pcs: seq<Pc>): (ends: seq<End>)
    requires AtRest(pcs)
    ensures |ends| == |pcs|
    ensures forall i :: 0 <= i < |pcs| ==> ends[i] == pcs[i].end
  {
    seq(|pcs|, i requires 0 <= i < |pcs| => pcs[i].end)
  }

  lemma {:induction false} RestGauges(pcs: seq<Pc>)
    requires AtRest(pcs)
    ensures Weigh(pcs, ActiveWeight) == 0 && Weigh(pcs, CountWeight) == |pcs|
    ensures Weigh(pcs, SumWeight) == Sum(EndsOf(pcs))
  {
    if pcs != [] {
      RestGauges(Front(pcs));
      assert Front(EndsOf(pcs)) == EndsOf(Front(pcs));
    }
  }

  lemma {:induction false} RestOutcomes(pcs: seq<Pc>, o: Outcome)
    requires AtRest(pcs)
    ensures Weigh(pcs, OutcomeWeight(o)) == Tally(EndsOf(pcs), o)
  {
    if pcs != [] {
      RestOutcomes(Front(pcs), o);
      assert Front(EndsOf(pcs)) == EndsOf(Front(pcs));
    }
  }

  lemma {:induction false} RestBuckets(pcs: seq<Pc>, b: nat)
    requires AtRest(pcs) && b < BUCKETS
    ensures Weigh(pcs, BucketWeight(b)) == H.BucketCount(LATENCY_BOUNDS, b, Latencies(EndsOf(pcs)))
  {
    if pcs != [] {
      RestBuckets(Front(pcs), b);
      var ls := Latencies(EndsOf(Front(pcs)));
      H.BucketCountPush(LATENCY_BOUNDS, b, ls, Last(pcs).end.latency);
      assert Latencies(EndsOf(pcs)) == ls + [Last(pcs).end.latency];
    }
  }

  lemma RestMax(max: nat, pcs: seq<Pc>)
    requires AtRest(pcs) && MaxInv(max, pcs)
    ensures max == Maximum(EndsOf(pcs))
  {
    var ends := EndsOf(pcs);
    MaximumIsMax(ends);
    if ends != [] {
      var i :| 0 <= i < |ends| && ends[i].latency == Maximum(ends);
      assert PcInv(max, pcs[i]);
    }
    if max > 0 {
      var j :| 0 <= j < |pcs| && HasMax(pcs[j]) && pcs[j].end.latency == max;
      assert ends[j].latency == max;
    }
  }

  /** Whenever no request is in progress the fields are what the same requests would have left one after
      another: nothing was lost to interleaving, and the recorded maximum is the true one. */
  lemma RestIsSequential(ms: seq<Move>)
    requires Play(ms).Some? && AtRest(Play(ms).value.pcs)
    ensures var s := Play(ms).value;
            var ends := EndsOf(s.pcs);
            && s.active == 0 && s.total == s.count == |ends| == |s.given|
            && (forall i :: 0 <= i < |ends| ==> s.given[i] == Some(ends[i]))
            && s.success == Tally(ends, Succeeded)
            && s.failure == Tally(ends, Failed)
            && s.timeout == Tally(ends, TimedOut)
            && s.sum == Sum(ends)
            && s.max == Maximum(ends)
            && |s.buckets| == BUCKETS
            && forall b :: 0 <= b < BUCKETS ==> s.buckets[b] == H.BucketCount(LATENCY_BOUNDS, b, Latencies(ends))
  {
    RunInv(ms);
    var s := Play(ms).value;
    hide Weigh, MaxInv, Play, Sum, Tally, Maximum, Latencies;
    RestGauges(s.pcs);
    RestOutcomes(s.pcs, Succeeded);
    RestOutcomes(s.pcs, Failed);
    RestOutcomes(s.pcs, TimedOut);
    RestMax(s.max, s.pcs);
    forall b | 0 <= b < BUCKETS
      ensures s.buckets[b] == H.BucketCount(LATENCY_BOUNDS, b, Latencies(EndsOf(s.pcs)))
    {
      RestBuckets(s.pcs, b);
    }
  }
}
