/** The circuit breaker shared by many tasks: every atomic access and every lock section is a
    separate step, and the steps of different calls interleave freely. */
module BreakerInterleaved {
  import opened Wrappers
  import opened Clock
  import opened Sequences
  import opened Counting
  import opened CircuitBreaker

  /** Writes to the failure counter. */
  datatype Access = Increment | Reset

  datatype Call = CallSuccess | CallFailure | CallState

  /** Where a task stands inside its call. A failing call remembers how many counter writes had
      happened when it began (`start`) and when it loaded the counter (`seen`), and the time it began
      at (`since`). */
  datatype Pc =
    | Idle
    | SuccessCounted
    | SuccessReset
    | FailureBegun(start: nat, since: Time)
    | FailureTimed(start: nat, since: Time, at: Time)
    | FailureStamped(start: nat)
    | FailureLoaded(start: nat, seen: nat, failures: nat)
    | SawOpen
    | FoundExpired
    | Returned(answer: CircuitState)

  datatype Sys = Sys(
    failures: nat,
    successes: nat,
    state: CircuitState,
    lastFailure: Option<Time>,
    now: Time,
    log: seq<Access>,
    pcs: seq<Pc>)

  datatype Move = Tick(later: nat) | Begin(task: nat, call: Call) | Advance(task: nat)

  function Start(tasks: nat): Sys {
    Sys(0, 0, Closed, None, 0, [], seq(tasks, _ => Idle))
  }

  /** Some task holds the read lock on `last_failure` while it writes `state`. */
  predicate LastFailureLocked(s: Sys) {
    exists i :: 0 <= i < |s.pcs| && s.pcs[i].FoundExpired?
  }

  function At(s: Sys, i: nat, pc: Pc): Sys
    requires i < |s.pcs|
  {
    s.(pcs := s.pcs[i := pc])
  }

  /** The first access of a call. */
  function BeginCall(s: Sys, i: nat, call: Call): Sys
    requires i < |s.pcs|
  {
    match call
    case CallSuccess => At(s.(successes := s.successes + 1), i, SuccessCounted)
    case CallFailure =>
      At(s.(failures := s.failures + 1, log := s.log + [Increment]), i, FailureBegun(|s.log| + 1, s.now))
    case CallState => At(s, i, if s.state.Open? then SawOpen else Returned(s.state))
  }

  /** The next access of a call under way; `None` when it is blocked or over. */
  function AdvanceCall(c: Settings, s: Sys, i: nat): Option<Sys>
    requires i < |s.pcs|
  {
    match s.pcs[i]
    case Idle => None
    case SuccessCounted => Some(At(s.(failures := 0, log := s.log + [Reset]), i, SuccessReset))
    case SuccessReset => Some(At(s.(state := if s.state.HalfOpen? then Closed else s.state), i, Idle))
    case FailureBegun(start, since) => Some(At(s, i, FailureTimed(start, since, s.now)))
    case FailureTimed(start, _, at) =>
      if LastFailureLocked(s) then None
      else Some(At(s.(lastFailure := Some(at)), i, FailureStamped(start)))
    case FailureStamped(start) => Some(At(s, i, FailureLoaded(start, |s.log|, s.failures)))
    case FailureLoaded(_, _, failures) =>
      Some(At(s.(state := if failures >= c.threshold then Open else s.state), i, Idle))
    case SawOpen =>
      Some(At(s, i,
              if s.lastFailure.Some? && Elapsed(s.now, s.lastFailure.value) > c.timeout
              then FoundExpired else Returned(Open)))
    case FoundExpired => Some(At(s.(state := HalfOpen), i, Returned(HalfOpen)))
    case Returned(_) => Some(At(s, i, Idle))
  }

  function Apply(c: Settings, s: Sys, m: Move): Option<Sys> {
    match m
    case Tick(later) => Some(s.(now := s.now + later))
    case Begin(i, call) => if i < |s.pcs| && s.pcs[i].Idle? then Some(BeginCall(s, i, call)) else None
    case Advance(i) => if i < |s.pcs| then AdvanceCall(c, s, i) else None
  }

  function Play(c: Settings, s: Sys, ms: seq<Move>): Option<Sys>
    decreases |ms|
  {
    if ms == [] then Some(s)
    else
      match Apply(c, s, ms[0])
      case Some(s') => Play(c, s', ms[1..])
      case None => None
  }

  ghost predicate Reachable(c: Settings, tasks: nat, s: Sys) {
    exists ms: seq<Move> :: Play(c, Start(tasks), ms) == Some(s)
  }

  // ---------- the invariant ----------

  /** Increments since the last reset. */
  function Streak(log: seq<Access>): nat {
    if log == [] then 0
    else if Last(log).Reset? then 0
    else Streak(Front(log)) + 1
  }

  predicate PcInv(s: Sys, pc: Pc) {
    match pc
    case FailureBegun(start, since) => start <= |s.log| && since <= s.now
    case FailureTimed(start, since, at) => start <= |s.log| && since <= at <= s.now
    case FailureStamped(start) => start <= |s.log| && s.lastFailure.Some?
    case FailureLoaded(start, seen, failures) =>
      start <= seen <= |s.log| && failures == Streak(s.log[..seen]) && s.lastFailure.Some?
    case SawOpen => s.lastFailure.Some?
    case FoundExpired => s.lastFailure.Some?
    case _ => true
  }

  predicate Inv(s: Sys) {
    && s.failures == Streak(s.log)
    && (!s.state.Closed? ==> s.lastFailure.Some?)
    && (s.lastFailure.Some? ==> s.lastFailure.value <= s.now)
    && forall i :: 0 <= i < |s.pcs| ==> PcInv(s, s.pcs[i])
  }

  lemma StreakStep(log: seq<Access>)
    ensures Streak(log + [Increment]) == Streak(log) + 1
    ensures Streak(log + [Reset]) == 0
  {
    assert (log + [Increment])[..|log|] == log;
  }

  /** What tasks know stays true when others extend the log and set `last_failure`. */
  lemma PcInvStable(s: Sys, s': Sys, pc: Pc)
    requires PcInv(s, pc)
    requires s.log <= s'.log && s.now <= s'.now && (s.lastFailure.Some? ==> s'.lastFailure.Some?)
    ensures PcInv(s', pc)
  {
    if pc.FailureLoaded? {
      assert s'.log[..pc.seen] == s.log[..pc.seen];
    }
  }

  lemma InvAt(s: Sys, s': Sys, i: nat, pc: Pc)
    requires Inv(s) && i < |s.pcs|
    requires s'.pcs == s.pcs[i := pc] && PcInv(s', pc)
    requires s.log <= s'.log && s.now == s'.now && (s.lastFailure.Some? ==> s'.lastFailure.Some?)
    requires s'.lastFailure.Some? ==> s'.lastFailure.value <= s'.now
    requires s'.failures == Streak(s'.log)
    requires !s'.state.Closed? ==> s'.lastFailure.Some?
    ensures Inv(s')
  {
    forall j | 0 <= j < |s'.pcs| ensures PcInv(s', s'.pcs[j]) {
      if j != i {
        PcInvStable(s, s', s.pcs[j]);
      }
    }
  }

  lemma InvBegin(s: Sys, i: nat, call: Call)
    requires Inv(s) && i < |s.pcs| && s.pcs[i].Idle?
    ensures Inv(BeginCall(s, i, call))
  {
    StreakStep(s.log);
    var s' := BeginCall(s, i, call);
    InvAt(s, s', i, s'.pcs[i]);
  }

  lemma InvAdvance(c: Settings, s: Sys, i: nat)
    requires Inv(s) && i < |s.pcs| && AdvanceCall(c, s, i).Some?
    ensures Inv(AdvanceCall(c, s, i).value)
  {
    StreakStep(s.log);
    assert s.log[..|s.log|] == s.log;
    var s' := AdvanceCall(c, s, i).value;
    assert PcInv(s, s.pcs[i]);
    InvAt(s, s', i, s'.pcs[i]);
  }

  lemma InvStep(c: Settings, s: Sys, m: Move)
    requires Inv(s) && Apply(c, s, m).Some?
    ensures Inv(Apply(c, s, m).value)
  {
    match m
    case Tick(later) =>
      var s' := Apply(c, s, m).value;
      forall i | 0 <= i < |s'.pcs| ensures PcInv(s', s'.pcs[i]) {
        PcInvStable(s, s', s.pcs[i]);
      }
    case Begin(i, call) => InvBegin(s, i, call);
    case Advance(i) => InvAdvance(c, s, i);
  }

  lemma {:induction false} InvPlay(c: Settings, s: Sys, ms: seq<Move>)
    requires Inv(s) && Play(c, s, ms).Some?
    ensures Inv(Play(c, s, ms).value)
    decreases |ms|
  {
    if ms != [] {
      InvStep(c, s, ms[0]);
      InvPlay(c, Apply(c, s, ms[0]).value, ms[1..]);
    }
  }

  lemma ReachableInv(c: Settings, tasks: nat, s: Sys)
    requires Reachable(c, tasks, s)
    ensures Inv(s)
  {
    var ms: seq<Move> :| Play(c, Start(tasks), ms) == Some(s);
    InvPlay(c, Start(tasks), ms);
  }

  // ---------- what every interleaving keeps ----------

  /** The counter is the number of increments since the last reset, and an open breaker always has
      a failure time to expire. */
  lemma CounterAndStamp(c: Settings, tasks: nat, s: Sys)
    requires Reachable(c, tasks, s)
    ensures s.failures == Streak(s.log)
    ensures s.state.Open? ==> s.lastFailure.Some?
  {
    ReachableInv(c, tasks, s);
  }

  /** A call that saw Open decides by the clock alone: it never finds the failure time missing, and
      nobody can move that time between its decision and its write. */
  lemma SawOpenDecidesByClock(c: Settings, tasks: nat, s: Sys, i: nat)
    requires Reachable(c, tasks, s) && i < |s.pcs| && s.pcs[i].SawOpen?
    ensures s.lastFailure.Some?
    ensures var s' := AdvanceCall(c, s, i).value;
            && (Elapsed(s.now, s.lastFailure.value) > c.timeout <==> s'.pcs[i].FoundExpired?)
            && (s'.pcs[i].FoundExpired? ==>
                  forall j :: 0 <= j < |s'.pcs| && s'.pcs[j].FailureTimed? ==> AdvanceCall(c, s', j).None?)
  {
    ReachableInv(c, tasks, s);
    assert PcInv(s, s.pcs[i]);
    var s' := AdvanceCall(c, s, i).value;
    if s'.pcs[i].FoundExpired? {
      assert LastFailureLocked(s');
    }
  }

  /** No move is one of task `i`. */
  predicate OfOthers(ms: seq<Move>, i: nat) {
    forall k :: 0 <= k < |ms| ==> ms[k].Tick? || ms[k].task != i
  }

  /** Others never move a task, and while it is about to write HalfOpen they cannot touch the failure
      time either. */
  lemma {:induction false} OthersLeaveAlone(c: Settings, s: Sys, i: nat, ms: seq<Move>)
    requires i < |s.pcs| && OfOthers(ms, i) && Play(c, s, ms).Some?
    ensures var s' := Play(c, s, ms).value;
            && i < |s'.pcs| && s'.pcs[i] == s.pcs[i]
            && (s.pcs[i].FoundExpired? ==> s'.lastFailure == s.lastFailure)
    decreases |ms|
  {
    if ms != [] {
      assert ms[0].Tick? || ms[0].task != i;
      if s.pcs[i].FoundExpired? {
        assert LastFailureLocked(s);
      }
      OthersLeaveAlone(c, Apply(c, s, ms[0]).value, i, ms[1..]);
    }
  }

  /** Open never sticks. A look that finds the breaker Open and then, after anything other calls may do,
      reads the clock more than `timeout` after the last failure, answers HalfOpen and leaves the breaker
      HalfOpen, again whatever other calls do before it writes; the failure time it decided by still
      stands then. */
  lemma OpenNeverSticks(c: Settings, tasks: nat, s: Sys, i: nat, before: seq<Move>, between: seq<Move>)
    requires Reachable(c, tasks, s) && i < |s.pcs| && s.pcs[i].Idle? && s.state.Open?
    requires OfOthers(before, i) && OfOthers(between, i)
    requires Play(c, BeginCall(s, i, CallState), before).Some?
    ensures var s1 := Play(c, BeginCall(s, i, CallState), before).value;
            && i < |s1.pcs| && s1.lastFailure.Some? && AdvanceCall(c, s1, i).Some?
            && (Elapsed(s1.now, s1.lastFailure.value) > c.timeout && Play(c, AdvanceCall(c, s1, i).value, between).Some? ==>
                  var s2 := Play(c, AdvanceCall(c, s1, i).value, between).value;
                  && i < |s2.pcs| && AdvanceCall(c, s2, i).Some?
                  && s2.lastFailure == s1.lastFailure
                  && AdvanceCall(c, s2, i).value == s2.(state := HalfOpen, pcs := s2.pcs[i := Returned(HalfOpen)]))
  {
    ReachableInv(c, tasks, s);
    InvBegin(s, i, CallState);
    var s0 := BeginCall(s, i, CallState);
    OthersLeaveAlone(c, s0, i, before);
    InvPlay(c, s0, before);
    var s1 := Play(c, s0, before).value;
    hide Play;
    assert PcInv(s1, s1.pcs[i]);
    if Elapsed(s1.now, s1.lastFailure.value) > c.timeout && Play(c, AdvanceCall(c, s1, i).value, between).Some? {
      OthersLeaveAlone(c, AdvanceCall(c, s1, i).value, i, between);
    }
  }

  /** Every write of Open, whether it changes the state or not, is preceded within the same call by a
      moment at which the increments since the last reset numbered at least the threshold. */
  lemma OpenWriteJustified(c: Settings, tasks: nat, s: Sys, i: nat) returns (start: nat, moment: nat)
    requires Reachable(c, tasks, s) && i < |s.pcs|
    requires s.pcs[i].FailureLoaded? && s.pcs[i].failures >= c.threshold
    ensures AdvanceCall(c, s, i).Some? && AdvanceCall(c, s, i).value.state.Open?
    ensures start == s.pcs[i].start
    ensures start <= moment <= |s.log| && Streak(s.log[..moment]) >= c.threshold
  {
    ReachableInv(c, tasks, s);
    var pc := s.pcs[i];
    assert PcInv(s, pc);
    start, moment := pc.start, pc.seen;
  }

  // ---------- every change of the state, and nothing else ----------

  /** Task `i` makes move `m` at a point of its call that satisfies `p`. */
  predicate MovesAt(s: Sys, m: Move, p: Pc -> bool) {
    m.Advance? && m.task < |s.pcs| && p(s.pcs[m.task])
  }

  /** The breaker closes exactly when a successful call, at its last access, finds it HalfOpen: a success
      never closes an Open breaker. */
  lemma ClosesIff(c: Settings, s: Sys, m: Move)
    requires Apply(c, s, m).Some?
    ensures !s.state.Closed? && Apply(c, s, m).value.state.Closed? <==>
            s.state.HalfOpen? && MovesAt(s, m, (pc: Pc) => pc.SuccessReset?)
  {
  }

  /** It leaves Open exactly by the write of a look that found the timeout passed, and then it is HalfOpen. */
  lemma LeavesOpenIff(c: Settings, s: Sys, m: Move)
    requires Apply(c, s, m).Some? && s.state.Open?
    ensures !Apply(c, s, m).value.state.Open? <==> MovesAt(s, m, (pc: Pc) => pc.FoundExpired?)
    ensures !Apply(c, s, m).value.state.Open? ==> Apply(c, s, m).value.state.HalfOpen?
  {
  }

  /** It becomes HalfOpen only by such a write, and such a write always makes it so. */
  lemma HalfOpensIff(c: Settings, s: Sys, m: Move)
    requires Apply(c, s, m).Some?
    ensures MovesAt(s, m, (pc: Pc) => pc.FoundExpired?) ==> Apply(c, s, m).value.state.HalfOpen?
    ensures !s.state.HalfOpen? && Apply(c, s, m).value.state.HalfOpen? ==> MovesAt(s, m, (pc: Pc) => pc.FoundExpired?)
  {
  }

  /** It opens exactly when a failing call, at its last access, has loaded a count of at least the
      threshold. */
  lemma OpensIff(c: Settings, s: Sys, m: Move)
    requires Apply(c, s, m).Some? && !s.state.Open?
    ensures Apply(c, s, m).value.state.Open? <==>
            MovesAt(s, m, (pc: Pc) => pc.FailureLoaded? && pc.failures >= c.threshold)
  {
  }

  /** A failing call stamps the breaker with a time it read itself, between its beginning and now. */
  lemma StampWithinCall(c: Settings, tasks: nat, s: Sys, i: nat)
    requires Reachable(c, tasks, s) && i < |s.pcs| && s.pcs[i].FailureTimed?
    requires AdvanceCall(c, s, i).Some?
    ensures var s' := AdvanceCall(c, s, i).value;
            s'.lastFailure.Some? && s.pcs[i].since <= s'.lastFailure.value <= s.now
  {
    ReachableInv(c, tasks, s);
    assert PcInv(s, s.pcs[i]);
  }

  /** No step but such a stamp changes the failure time. */
  lemma StampedByFailureOnly(c: Settings, s: Sys, m: Move)
    requires Apply(c, s, m).Some? && Apply(c, s, m).value.lastFailure != s.lastFailure
    ensures MovesAt(s, m, (pc: Pc) => pc.FailureTimed?)
  {
  }

  /** What a look answers: the state it loads, unless that is Open and the timeout has passed. */
  lemma LookAnswers(c: Settings, s: Sys, i: nat)
    requires i < |s.pcs|
    ensures s.pcs[i].Idle? && !s.state.Open? ==> BeginCall(s, i, CallState).pcs[i] == Returned(s.state)
    ensures s.pcs[i].Idle? && s.state.Open? ==> !BeginCall(s, i, CallState).pcs[i].Returned?
    ensures s.pcs[i].SawOpen? && s.lastFailure.Some? && Elapsed(s.now, s.lastFailure.value) <= c.timeout ==>
              AdvanceCall(c, s, i) == Some(At(s, i, Returned(Open)))
  {
  }

  // ---------- the counters against the calls made ----------

  /** Calls of kind `call` begun in a run. */
  function Begun(ms: seq<Move>, call: Call): nat {
    if ms == [] then 0 else Begun(Front(ms), call) + if Last(ms).Begin? && Last(ms).call == call then 1 else 0
  }

  function Accesses(log: seq<Access>, a: Access): nat {
    if log == [] then 0 else Accesses(Front(log), a) + if Last(log) == a then 1 else 0
  }

  predicate IsSuccessCounted(pc: Pc) { pc.SuccessCounted? }

  predicate Kept(s: Sys, successes: nat, failures: nat) {
    && s.successes == successes == Accesses(s.log, Reset) + Count(s.pcs, IsSuccessCounted)
    && failures == Accesses(s.log, Increment)
  }

  lemma AccessesPush(log: seq<Access>, a: Access, b: Access)
    ensures Accesses(log + [a], b) == Accesses(log, b) + if a == b then 1 else 0
  {
    assert Front(log + [a]) == log;
  }

  lemma KeptBegin(s: Sys, i: nat, call: Call, successes: nat, failures: nat)
    requires Kept(s, successes, failures) && i < |s.pcs| && s.pcs[i].Idle?
    ensures Kept(BeginCall(s, i, call),
                 successes + if call.CallSuccess? then 1 else 0,
                 failures + if call.CallFailure? then 1 else 0)
  {
    hide Count, Accesses;
    AccessesPush(s.log, Increment, Increment);
    AccessesPush(s.log, Increment, Reset);
    CountUpdate(s.pcs, i, BeginCall(s, i, call).pcs[i], IsSuccessCounted);
  }

  lemma KeptAdvance(c: Settings, s: Sys, i: nat, successes: nat, failures: nat)
    requires Kept(s, successes, failures) && i < |s.pcs| && AdvanceCall(c, s, i).Some?
    ensures Kept(AdvanceCall(c, s, i).value, successes, failures)
  {
    hide Count, Accesses;
    AccessesPush(s.log, Reset, Increment);
    AccessesPush(s.log, Reset, Reset);
    CountUpdate(s.pcs, i, AdvanceCall(c, s, i).value.pcs[i], IsSuccessCounted);
  }

  lemma KeptStep(c: Settings, s: Sys, m: Move, successes: nat, failures: nat)
    requires Kept(s, successes, failures) && Apply(c, s, m).Some?
    ensures Kept(Apply(c, s, m).value,
                 successes + if m.Begin? && m.call.CallSuccess? then 1 else 0,
                 failures + if m.Begin? && m.call.CallFailure? then 1 else 0)
  {
    hide Kept, AdvanceCall, BeginCall;
    match m
    case Tick(_) => TickKeeps(s, Apply(c, s, m).value, successes, failures);
    case Begin(i, call) => KeptBegin(s, i, call, successes, failures);
    case Advance(i) => KeptAdvance(c, s, i, successes, failures);
  }

  lemma TickKeeps(s: Sys, s': Sys, successes: nat, failures: nat)
    requires Kept(s, successes, failures) && s' == s.(now := s'.now)
    ensures Kept(s', successes, failures)
  {
  }

  lemma {:induction false} KeptPlay(c: Settings, s: Sys, ms: seq<Move>, successes: nat, failures: nat)
    requires Kept(s, successes, failures) && Play(c, s, ms).Some?
    ensures Kept(Play(c, s, ms).value, successes + Begun(ms, CallSuccess), failures + Begun(ms, CallFailure))
    decreases |ms|
  {
    if ms != [] {
      var init, m := Front(ms), Last(ms);
      assert ms == init + [m];
      PlaySplit(c, s, init, m);
      KeptPlay(c, s, init, successes, failures);
      KeptStep(c, Play(c, s, init).value, m, successes + Begun(init, CallSuccess), failures + Begun(init, CallFailure));
    }
  }

  lemma {:induction false} PlaySplit(c: Settings, s: Sys, ms: seq<Move>, m: Move)
    requires Play(c, s, ms + [m]).Some?
    ensures Play(c, s, ms).Some? && Play(c, s, ms + [m]) == Apply(c, Play(c, s, ms).value, m)
    decreases |ms|
  {
    if ms == [] {
      assert ms + [m] == [m] && [m][1..] == [];
    } else {
      assert (ms + [m])[1..] == ms[1..] + [m] && (ms + [m])[0] == ms[0];
      PlaySplit(c, Apply(c, s, ms[0]).value, ms[1..], m);
    }
  }

  /** Every failing call increments the counter once, every successful one resets it once, a step after
      it is counted, and the counter is written by nothing else. */
  lemma CounterWrites(c: Settings, tasks: nat, ms: seq<Move>)
    requires Play(c, Start(tasks), ms).Some?
    ensures var s := Play(c, Start(tasks), ms).value;
            && s.successes == Begun(ms, CallSuccess)
            && Accesses(s.log, Increment) == Begun(ms, CallFailure)
            && Accesses(s.log, Reset) + Count(s.pcs, IsSuccessCounted) == Begun(ms, CallSuccess)
  {
    CountZero(Start(tasks).pcs, IsSuccessCounted);
    KeptPlay(c, Start(tasks), ms, 0, 0);
  }

  // ---------- what interleaving loses ----------

  /** `state` turns from Closed to HalfOpen. */
  predicate Revives(c: Settings, s: Sys, m: Move) {
    s.state.Closed? && Apply(c, s, m).Some? && Apply(c, s, m).value.state.HalfOpen?
  }

  /** With one task, a call that saw Open still sees it. */
  predicate LooksAreFresh(s: Sys) {
    |s.pcs| <= 1 && forall i :: 0 <= i < |s.pcs| && (s.pcs[i].SawOpen? || s.pcs[i].FoundExpired?) ==> s.state.Open?
  }

  lemma {:induction false} AloneIsFresh(c: Settings, s: Sys, ms: seq<Move>)
    requires LooksAreFresh(s) && Play(c, s, ms).Some?
    ensures LooksAreFresh(Play(c, s, ms).value)
    decreases |ms|
  {
    if ms != [] {
      AloneIsFresh(c, Apply(c, s, ms[0]).value, ms[1..]);
    }
  }

  lemma AloneNeverRevives(c: Settings, tasks: nat, s: Sys, m: Move)
    requires tasks <= 1 && Reachable(c, tasks, s)
    ensures !Revives(c, s, m)
  {
    var ms: seq<Move> :| Play(c, Start(tasks), ms) == Some(s);
    AloneIsFresh(c, Start(tasks), ms);
  }

  lemma {:induction false} PlayPush(c: Settings, s: Sys, ms: seq<Move>, m: Move)
    requires Play(c, s, ms).Some?
    ensures Play(c, s, ms + [m]) == Apply(c, Play(c, s, ms).value, m)
    decreases |ms|
  {
    if ms == [] {
      assert ms + [m] == [m] && [m][1..] == [];
    } else {
      assert (ms + [m])[1..] == ms[1..] + [m];
      PlayPush(c, Apply(c, s, ms[0]).value, ms[1..], m);
    }
  }

  lemma Go(c: Settings, tasks: nat, s: Sys, m: Move) returns (s': Sys)
    requires Reachable(c, tasks, s) && Apply(c, s, m).Some?
    ensures Reachable(c, tasks, s') && Some(s') == Apply(c, s, m)
  {
    var ms: seq<Move> :| Play(c, Start(tasks), ms) == Some(s);
    PlayPush(c, Start(tasks), ms, m);
    s' := Apply(c, s, m).value;
    assert Play(c, Start(tasks), ms + [m]) == Some(s');
  }

  predicate AllIdle(s: Sys, tasks: nat) {
    |s.pcs| == tasks && forall i :: 0 <= i < tasks ==> s.pcs[i].Idle?
  }

  /** One task's whole failing call, with nobody else about. */
  lemma WholeFailure(c: Settings, tasks: nat, s: Sys) returns (s': Sys)
    requires Reachable(c, tasks, s) && tasks > 0 && AllIdle(s, tasks)
    ensures Reachable(c, tasks, s') && AllIdle(s', tasks)
    ensures s'.failures == s.failures + 1 && s'.lastFailure == Some(s.now) && s'.now == s.now
    ensures s'.state == if s.failures + 1 >= c.threshold then Open else s.state
  {
    hide Reachable;
    s' := Go(c, tasks, s, Begin(0, CallFailure));
    s' := Go(c, tasks, s', Advance(0));
    assert s'.pcs == s.pcs[0 := FailureTimed(|s.log| + 1, s.now, s.now)];
    s' := Go(c, tasks, s', Advance(0));
    s' := Go(c, tasks, s', Advance(0));
    assert s'.pcs == s.pcs[0 := FailureLoaded(|s.log| + 1, |s.log| + 1, s.failures + 1)];
    s' := Go(c, tasks, s', Advance(0));
    assert s'.pcs == s.pcs;
  }

  lemma {:induction false} Failing(c: Settings, tasks: nat, n: nat) returns (s: Sys)
    requires tasks > 0
    ensures Reachable(c, tasks, s) && AllIdle(s, tasks) && s.failures == n && s.now == 0
    ensures n > 0 && n >= c.threshold ==> s.state.Open? && s.lastFailure == Some(0)
  {
    if n == 0 {
      s := Start(tasks);
      assert Play(c, s, []) == Some(s);
    } else {
      s := Failing(c, tasks, n - 1);
      s := WholeFailure(c, tasks, s);
    }
  }

  /** Two looks at an expired open breaker, the first of them not yet written back. */
  lemma DelayedLook(c: Settings, tasks: nat) returns (s: Sys)
    requires tasks >= 2
    ensures Reachable(c, tasks, s) && s.state.HalfOpen? && |s.pcs| == tasks
    ensures s.pcs[0].FoundExpired? && s.pcs[1].Returned?
  {
    s := Failing(c, tasks, c.threshold + 1);
    hide Reachable;
    s := Go(c, tasks, s, Tick(c.timeout + 1));
    s := Go(c, tasks, s, Begin(0, CallState));
    s := Go(c, tasks, s, Advance(0));
    assert s.pcs[0].FoundExpired? && s.pcs[1].Idle? && s.state.Open?;
    s := Go(c, tasks, s, Begin(1, CallState));
    s := Go(c, tasks, s, Advance(1));
    assert s.pcs[0].FoundExpired? && s.pcs[1].FoundExpired?;
    s := Go(c, tasks, s, Advance(1));
  }

  lemma RevivedByLateLook(c: Settings, tasks: nat) returns (s: Sys, m: Move)
    requires tasks >= 2
    ensures Reachable(c, tasks, s) && Revives(c, s, m)
  {
    s := DelayedLook(c, tasks);
    hide Reachable;
    s := Go(c, tasks, s, Advance(1));
    s := Go(c, tasks, s, Begin(1, CallSuccess));
    assert s.pcs[0].FoundExpired? && s.pcs[1].SuccessCounted? && s.state.HalfOpen?;
    s := Go(c, tasks, s, Advance(1));
    s := Go(c, tasks, s, Advance(1));
    m := Advance(0);
  }

  /** The sequential law that HalfOpen is never entered from Closed holds, whatever the settings, exactly
      for at most one task: with two, a late write in `state()` can turn a breaker that another call
      has closed back to HalfOpen. */
  lemma HalfOpenNotFromClosedIffAlone(c: Settings, tasks: nat)
    ensures (forall s, m :: Reachable(c, tasks, s) ==> !Revives(c, s, m)) <==> tasks <= 1
  {
    if tasks <= 1 {
      forall s, m | Reachable(c, tasks, s) ensures !Revives(c, s, m) {
        AloneNeverRevives(c, tasks, s, m);
      }
    } else {
      var s, m := RevivedByLateLook(c, tasks);
    }
  }
}
