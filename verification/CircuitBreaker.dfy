/** The circuit breaker used by one task at a time: the object, and what its state says about the
    events it has seen. Interleaved use is in `BreakerInterleaved`. */
module CircuitBreaker {
  import opened Wrappers
  import opened Clock
  import opened Sequences

  datatype CircuitState = Closed | Open | HalfOpen

  datatype Settings = Settings(threshold: nat, timeout: nat)

  /** `record_success`, `record_failure` and a look at `state`, the last two with the clock. */
  datatype Event = Success | Failure(at: Time) | Look(at: Time)

  type Trace = seq<Event>

  /** The fields of the breaker. */
  datatype Core = Core(failures: nat, state: CircuitState, lastFailure: Option<Time>)

  const FRESH := Core(0, Closed, None)

  predicate TimedOut(c: Settings, core: Core, now: Time) {
    core.lastFailure.Some? && Elapsed(now, core.lastFailure.value) > c.timeout
  }

  function Step(c: Settings, core: Core, e: Event): Core {
    match e
    case Success => Core(0, if core.state.HalfOpen? then Closed else core.state, core.lastFailure)
    case Failure(at) =>
      Core(core.failures + 1, if core.failures + 1 >= c.threshold then Open else core.state, Some(at))
    case Look(at) =>
      if core.state.Open? && TimedOut(c, core, at) then core.(state := HalfOpen) else core
  }

  function After(c: Settings, tr: Trace): Core {
    if tr == [] then FRESH else Step(c, After(c, Front(tr)), Last(tr))
  }

  lemma AfterStep(c: Settings, tr: Trace, e: Event)
    ensures After(c, tr + [e]) == Step(c, After(c, tr), e)
  {
    assert Front(tr + [e]) == tr;
  }

  class Breaker {
    const settings: Settings
    var failures: nat
    var successes: nat
    var state: CircuitState
    var lastFailure: Option<Time>
    ghost var trace: Trace

    ghost predicate Valid()
      reads this
    {
      After(settings, trace) == Core(failures, state, lastFailure)
    }

    constructor (settings: Settings)
      ensures Valid() && this.settings == settings && trace == []
    {
      this.settings := settings;
      failures, successes, state, lastFailure := 0, 0, Closed, None;
      trace := [];
    }

    method RecordSuccess()
      requires Valid()
      modifies this
      ensures Valid() && trace == old(trace) + [Success]
      ensures successes == old(successes) + 1
    {
      AfterStep(settings, trace, Success);
      successes := successes + 1;
      failures := 0;
      if state == HalfOpen {
        state := Closed;
      }
      trace := trace + [Success];
    }

    method RecordFailure(now: Time)
      requires Valid()
      modifies this
      ensures Valid() && trace == old(trace) + [Failure(now)]
      ensures successes == old(successes)
    {
      AfterStep(settings, trace, Failure(now));
      failures := failures + 1;
      lastFailure := Some(now);
      if failures >= settings.threshold {
        state := Open;
      }
      trace := trace + [Failure(now)];
    }

    /** Looking at the state may change it. */
    method State(now: Time) returns (s: CircuitState)
      requires Valid()
      modifies this
      ensures Valid() && trace == old(trace) + [Look(now)]
      ensures s == state && successes == old(successes)
    {
      AfterStep(settings, trace, Look(now));
      trace := trace + [Look(now)];
      s := state;
      if s == Open && lastFailure.Some? {
        if Elapsed(now, lastFailure.value) > settings.timeout {
          state := HalfOpen;
          s := HalfOpen;
        }
      }
    }

    method CanExecute(now: Time) returns (r: Result<()>)
      requires Valid()
      modifies this
      ensures Valid() && trace == old(trace) + [Look(now)]
      ensures r == if After(settings, trace).state.Open? then Err(ConnectionFailed) else Ok(())
    {
      var s := State(now);
      r := if s == Open then Err(ConnectionFailed) else Ok(());
    }
  }

  // ---------- what the trace alone says ----------

  /** Failures since the last success. */
  function Run(tr: Trace): nat {
    if tr == [] then 0
    else
      match Last(tr)
      case Success => 0
      case Failure(_) => Run(Front(tr)) + 1
      case Look(_) => Run(Front(tr))
  }

  function LatestFailure(tr: Trace): Option<Time> {
    if tr == [] then None
    else if Last(tr).Failure? then Some(Last(tr).at)
    else LatestFailure(Front(tr))
  }

  /** The events up to and including number `i`. */
  function Through(tr: Trace, i: nat): (r: Trace)
    requires i < |tr|
    ensures |r| == i + 1
  {
    tr[..i + 1]
  }

  /** Event `i` is a failure that completes a run of at least `threshold`. */
  predicate Trips(c: Settings, tr: Trace, i: nat)
    requires i < |tr|
  {
    tr[i].Failure? && Run(Through(tr, i)) >= c.threshold
  }

  /** Event `i` is a look more than `timeout` after the latest failure before it. */
  predicate Heals(c: Settings, tr: Trace, i: nat)
    requires i < |tr|
  {
    && tr[i].Look?
    && LatestFailure(tr[..i]).Some?
    && Elapsed(tr[i].at, LatestFailure(tr[..i]).value) > c.timeout
  }

  ghost predicate NeverTripped(c: Settings, tr: Trace) {
    forall j | 0 <= j < |tr| :: !Trips(c, tr, j)
  }

  ghost predicate LastTrip(c: Settings, tr: Trace, o: nat) {
    && o < |tr| && Trips(c, tr, o)
    && forall j | o < j < |tr| :: !Trips(c, tr, j)
  }

  ghost predicate Unhealed(c: Settings, tr: Trace, o: nat) {
    forall j | o < j < |tr| :: !Heals(c, tr, j)
  }

  ghost predicate FirstHeal(c: Settings, tr: Trace, o: nat, q: nat) {
    && o < q < |tr| && Heals(c, tr, q)
    && forall j | o < j < q :: !Heals(c, tr, j)
  }

  ghost predicate SuccessAfter(tr: Trace, q: int) {
    exists s: nat :: q < s < |tr| && tr[s].Success?
  }

  /** Tripped, and not looked at late enough since. */
  ghost predicate SaysOpen(c: Settings, tr: Trace) {
    exists o: nat :: LastTrip(c, tr, o) && Unhealed(c, tr, o)
  }

  /** Tripped, then looked at late enough, and no success since that look. */
  ghost predicate SaysHalfOpen(c: Settings, tr: Trace) {
    exists o: nat, q: nat :: LastTrip(c, tr, o) && FirstHeal(c, tr, o, q) && !SuccessAfter(tr, q)
  }

  /** Never tripped, or a success came after the first late look since the last trip. */
  ghost predicate SaysClosed(c: Settings, tr: Trace) {
    || NeverTripped(c, tr)
    || exists o: nat, q: nat :: LastTrip(c, tr, o) && FirstHeal(c, tr, o, q) && SuccessAfter(tr, q)
  }

  // ---------- sequential laws ----------

  /** The counter is the trailing run of failures and `last_failure` is the latest one. */
  lemma {:induction false} CounterIsRun(c: Settings, tr: Trace)
    ensures After(c, tr).failures == Run(tr)
    ensures After(c, tr).lastFailure == LatestFailure(tr)
  {
    if tr != [] {
      CounterIsRun(c, Front(tr));
    }
  }

  lemma {:induction false} OpenHasFailure(c: Settings, tr: Trace)
    ensures !After(c, tr).state.Closed? ==> After(c, tr).lastFailure.Some?
  {
    if tr != [] {
      OpenHasFailure(c, Front(tr));
    }
  }

  lemma {:induction false} ClosedMeansShortRun(c: Settings, tr: Trace)
    requires c.threshold >= 1
    ensures After(c, tr).state.Closed? ==> Run(tr) < c.threshold
  {
    CounterIsRun(c, tr);
    if tr != [] {
      ClosedMeansShortRun(c, Front(tr));
      CounterIsRun(c, Front(tr));
    }
  }

  ghost predicate ShortIfClosed(c: Settings, tr: Trace) {
    After(c, tr).state.Closed? ==> Run(tr) < c.threshold
  }

  /** Closed always means that the current run is short of the threshold exactly when there is a
      threshold to be short of: a breaker with threshold zero starts closed with a run that meets it. */
  lemma ClosedShortIffThreshold(c: Settings)
    ensures (forall tr :: ShortIfClosed(c, tr)) <==> c.threshold >= 1
  {
    if c.threshold >= 1 {
      forall tr ensures ShortIfClosed(c, tr) {
        ClosedMeansShortRun(c, tr);
      }
    } else {
      assert !ShortIfClosed(c, []);
    }
  }

  /** No event leads from Open straight to Closed, and only a success leads from HalfOpen there. */
  lemma NeverStraightToClosed(c: Settings, tr: Trace, e: Event)
    requires !After(c, tr).state.Closed? && After(c, tr + [e]).state.Closed?
    ensures After(c, tr).state.HalfOpen? && e.Success?
  {
    AfterStep(c, tr, e);
  }

  /** A failure while HalfOpen reopens exactly when the run reaches the threshold. */
  lemma HalfOpenFailure(c: Settings, tr: Trace, at: Time)
    requires After(c, tr).state.HalfOpen?
    ensures var after := After(c, tr + [Failure(at)]).state;
            && (after.Open? <==> Run(tr) + 1 >= c.threshold)
            && (after.HalfOpen? <==> Run(tr) + 1 < c.threshold)
  {
    CounterIsRun(c, tr);
    AfterStep(c, tr, Failure(at));
  }

  lemma {:induction false} RunGrows(tr: Trace, o: nat)
    requires o < |tr| && !SuccessAfter(tr, o)
    ensures Run(tr) >= Run(Through(tr, o))
  {
    if o == |tr| - 1 {
      assert Through(tr, o) == tr;
    } else {
      var init := Front(tr);
      assert forall s: nat | o < s < |init| :: init[s] == tr[s];
      RunGrows(init, o);
      assert Through(init, o) == Through(tr, o);
      assert !tr[|tr| - 1].Success?;
    }
  }

  /** If nothing succeeded since the breaker last tripped, the first failure reopens it. */
  lemma FirstFailureReopens(c: Settings, tr: Trace, o: nat, at: Time)
    requires After(c, tr).state.HalfOpen?
    requires LastTrip(c, tr, o) && !SuccessAfter(tr, o)
    ensures After(c, tr + [Failure(at)]).state.Open?
  {
    RunGrows(tr, o);
    HalfOpenFailure(c, tr, at);
  }

  /** A success recorded while Open clears the run, and then a failure in HalfOpen can be absorbed. */
  lemma FailureAbsorbedAfterLateSuccess()
    ensures var c := Settings(2, 10);
            var tr := [Failure(0), Failure(1), Success, Look(20)];
            After(c, tr).state.HalfOpen? && After(c, tr + [Failure(21)]).state.HalfOpen?
  {
    var c := Settings(2, 10);
    var t1 := [] + [Failure(0)];
    var t2 := t1 + [Failure(1)];
    var t3 := t2 + [Success];
    var t4 := t3 + [Look(20)];
    AfterStep(c, [], Failure(0));
    AfterStep(c, t1, Failure(1));
    AfterStep(c, t2, Success);
    AfterStep(c, t3, Look(20));
    AfterStep(c, t4, Failure(21));
    assert t4 == [Failure(0), Failure(1), Success, Look(20)];
  }

  // ---------- the state read off the trace ----------

  lemma EarlierUnchanged(c: Settings, tr: Trace, i: nat)
    requires tr != [] && i < |tr| - 1
    ensures Trips(c, tr, i) == Trips(c, Front(tr), i)
    ensures Heals(c, tr, i) == Heals(c, Front(tr), i)
    ensures tr[i] == Front(tr)[i]
  {
    assert Through(Front(tr), i) == Through(tr, i);
    assert Front(tr)[..i] == tr[..i];
  }

  lemma LatestEvent(c: Settings, tr: Trace)
    requires tr != []
    ensures var n := |tr| - 1;
            && (Trips(c, tr, n) <==> Last(tr).Failure? && After(c, Front(tr)).failures + 1 >= c.threshold)
            && (Heals(c, tr, n) <==> Last(tr).Look? && TimedOut(c, After(c, Front(tr)), Last(tr).at))
  {
    CounterIsRun(c, Front(tr));
    CounterIsRun(c, tr);
    assert Through(tr, |tr| - 1) == tr;
  }

  lemma Extend(c: Settings, tr: Trace, o: nat)
    requires tr != [] && !Trips(c, tr, |tr| - 1)
    ensures NeverTripped(c, Front(tr)) ==> NeverTripped(c, tr)
    ensures LastTrip(c, Front(tr), o) ==> LastTrip(c, tr, o)
  {
    forall j: nat | j < |tr| - 1 ensures Trips(c, tr, j) == Trips(c, Front(tr), j) {
      EarlierUnchanged(c, tr, j);
    }
  }

  lemma ExtendHeal(c: Settings, tr: Trace, o: nat)
    requires tr != [] && Unhealed(c, Front(tr), o) && o < |tr| - 1
    ensures Heals(c, tr, |tr| - 1) ==> FirstHeal(c, tr, o, |tr| - 1)
    ensures !Heals(c, tr, |tr| - 1) ==> Unhealed(c, tr, o)
  {
    forall j: nat | j < |tr| - 1 ensures Heals(c, tr, j) == Heals(c, Front(tr), j) {
      EarlierUnchanged(c, tr, j);
    }
  }

  lemma ExtendAfterHeal(c: Settings, tr: Trace, o: nat, q: nat)
    requires tr != [] && FirstHeal(c, Front(tr), o, q)
    ensures FirstHeal(c, tr, o, q)
    ensures SuccessAfter(tr, q) <==> SuccessAfter(Front(tr), q) || Last(tr).Success?
  {
    forall j: nat | j < |tr| - 1 ensures Heals(c, tr, j) == Heals(c, Front(tr), j) && tr[j] == Front(tr)[j] {
      EarlierUnchanged(c, tr, j);
    }
    if SuccessAfter(Front(tr), q) {
      var s: nat :| q < s < |Front(tr)| && Front(tr)[s].Success?;
      assert tr[s].Success?;
    }
    if Last(tr).Success? {
      assert tr[|tr| - 1].Success?;
    }
  }

  lemma FreshTrip(c: Settings, tr: Trace)
    requires tr != [] && Trips(c, tr, |tr| - 1)
    ensures SaysOpen(c, tr)
  {
    assert LastTrip(c, tr, |tr| - 1) && Unhealed(c, tr, |tr| - 1);
  }

  ghost predicate Says(c: Settings, tr: Trace, state: CircuitState) {
    match state
    case Closed => SaysClosed(c, tr)
    case Open => SaysOpen(c, tr)
    case HalfOpen => SaysHalfOpen(c, tr)
  }

  lemma {:induction false} StateIsSaid(c: Settings, tr: Trace)
    ensures Says(c, tr, After(c, tr).state)
  {
    if tr == [] {
      assert NeverTripped(c, tr);
    } else {
      StateIsSaid(c, Front(tr));
      LatestEvent(c, tr);
      if Trips(c, tr, |tr| - 1) {
        FreshTrip(c, tr);
      } else {
        match After(c, Front(tr)).state
        case Closed => FromClosed(c, tr);
        case Open => FromOpen(c, tr);
        case HalfOpen => FromHalfOpen(c, tr);
      }
    }
  }

  lemma FromClosed(c: Settings, tr: Trace)
    requires tr != [] && !Trips(c, tr, |tr| - 1) && SaysClosed(c, Front(tr))
    ensures SaysClosed(c, tr)
  {
    if NeverTripped(c, Front(tr)) {
      Extend(c, tr, 0);
    } else {
      var o: nat, q: nat :| LastTrip(c, Front(tr), o) && FirstHeal(c, Front(tr), o, q) && SuccessAfter(Front(tr), q);
      Extend(c, tr, o);
      ExtendAfterHeal(c, tr, o, q);
    }
  }

  lemma FromOpen(c: Settings, tr: Trace)
    requires tr != [] && !Trips(c, tr, |tr| - 1) && SaysOpen(c, Front(tr))
    ensures Heals(c, tr, |tr| - 1) ==> SaysHalfOpen(c, tr)
    ensures !Heals(c, tr, |tr| - 1) ==> SaysOpen(c, tr)
  {
    var o: nat :| LastTrip(c, Front(tr), o) && Unhealed(c, Front(tr), o);
    Extend(c, tr, o);
    ExtendHeal(c, tr, o);
    assert !SuccessAfter(tr, |tr| - 1);
  }

  lemma FromHalfOpen(c: Settings, tr: Trace)
    requires tr != [] && !Trips(c, tr, |tr| - 1) && SaysHalfOpen(c, Front(tr))
    ensures if Last(tr).Success? then SaysClosed(c, tr) else SaysHalfOpen(c, tr)
  {
    var o: nat, q: nat :| LastTrip(c, Front(tr), o) && FirstHeal(c, Front(tr), o, q) && !SuccessAfter(Front(tr), q);
    Extend(c, tr, o);
    ExtendAfterHeal(c, tr, o, q);
  }

  /** The trace never says two things: last trips and first heals are unique. */
  lemma SaysOneThing(c: Settings, tr: Trace, s: CircuitState, s': CircuitState)
    requires Says(c, tr, s) && Says(c, tr, s')
    ensures s == s'
  {
    forall o: nat, o': nat | LastTrip(c, tr, o) && LastTrip(c, tr, o') ensures o == o' {
    }
    forall o: nat, q: nat, q': nat | FirstHeal(c, tr, o, q) && FirstHeal(c, tr, o, q') ensures q == q' {
    }
    forall o: nat, q: nat | FirstHeal(c, tr, o, q) ensures !Unhealed(c, tr, o) {
    }
    forall o: nat | LastTrip(c, tr, o) ensures !NeverTripped(c, tr) {
    }
  }

  /** The breaker's state is exactly what the whole trace says, described without running it. */
  lemma StateReadOffTrace(c: Settings, tr: Trace, s: CircuitState)
    ensures After(c, tr).state == s <==> Says(c, tr, s)
  {
    StateIsSaid(c, tr);
    if Says(c, tr, s) {
      SaysOneThing(c, tr, s, After(c, tr).state);
    }
  }
}
