/** The sliding-window admission rule shared by both rate limiters, as a function of the full
    history of calls, and the laws it obeys. Times are clock readings in lock order. */
module SlidingWindow {
  import opened Clock
  import opened Sequences

  datatype Policy = Policy(maxRequests: nat, window: nat)

  predicate UpTo(ts: seq<Time>, now: Time) {
    forall i :: 0 <= i < |ts| ==> ts[i] <= now
  }

  /** The entries `retain` keeps at time `now`. */
  function Retain(log: seq<Time>, now: Time, window: nat): (kept: seq<Time>)
    ensures |kept| <= |log|
  {
    if log == [] then []
    else
      var kept := Retain(Front(log), now, window);
      if Elapsed(now, Last(log)) < window then kept + [Last(log)] else kept
  }

  /** A list of request numbers, in order. */
  predicate IsSchedule(ts: seq<Time>, idx: seq<nat>) {
    && (forall i :: 0 <= i < |idx| ==> idx[i] < |ts|)
    && (forall i, j :: 0 <= i < j < |idx| ==> idx[i] < idx[j])
  }

  function TimesOf(ts: seq<Time>, idx: seq<nat>): (log: seq<Time>)
    requires forall i :: 0 <= i < |idx| ==> idx[i] < |ts|
    ensures |log| == |idx|
  {
    seq(|idx|, k requires 0 <= k < |idx| => ts[idx[k]])
  }

  /** The full admission log after the calls `ts`: each call is decided from the whole log of
      earlier admissions, nothing is ever pruned here. */
  function Log(p: Policy, ts: seq<Time>): seq<Time> {
    if ts == [] then []
    else
      var log := Log(p, Front(ts));
      if |Retain(log, Last(ts), p.window)| < p.maxRequests then log + [Last(ts)] else log
  }

  /** How many earlier admissions still count against a call at time `now`. */
  function Live(p: Policy, ts: seq<Time>, now: Time): nat {
    |Retain(Log(p, ts), now, p.window)|
  }

  predicate Admits(p: Policy, ts: seq<Time>, now: Time) {
    Live(p, ts, now) < p.maxRequests
  }

  function Remaining(p: Policy, ts: seq<Time>, now: Time): nat {
    if Live(p, ts, now) <= p.maxRequests then p.maxRequests - Live(p, ts, now) else 0
  }

  lemma LogStep(p: Policy, ts: seq<Time>, now: Time)
    ensures Log(p, ts + [now]) == if Admits(p, ts, now) then Log(p, ts) + [now] else Log(p, ts)
  {
    assert Front(ts + [now]) == ts;
  }

  /** The numbers of the requests admitted among `ts`. */
  function Admitted(p: Policy, ts: seq<Time>): (idx: seq<nat>)
    ensures IsSchedule(ts, idx)
  {
    if ts == [] then []
    else
      var prior := Admitted(p, Front(ts));
      if Admits(p, Front(ts), Last(ts)) then prior + [|ts| - 1] else prior
  }

  lemma {:induction false} AdmittedAreLog(p: Policy, ts: seq<Time>)
    ensures TimesOf(ts, Admitted(p, ts)) == Log(p, ts)
  {
    if ts != [] {
      var prior := Admitted(p, Front(ts));
      AdmittedAreLog(p, Front(ts));
      assert TimesOf(ts, prior) == TimesOf(Front(ts), prior);
      assert TimesOf(ts, prior + [|ts| - 1]) == TimesOf(ts, prior) + [Last(ts)];
    }
  }

  lemma ScheduleSorted(ts: seq<Time>, idx: seq<nat>)
    requires NonDecreasing(ts) && IsSchedule(ts, idx)
    ensures NonDecreasing(TimesOf(ts, idx))
  {
    var log := TimesOf(ts, idx);
    forall i, j | 0 <= i <= j < |log| ensures log[i] <= log[j] {
      assert idx[i] in idx && idx[j] in idx;
      assert i == j || idx[i] < idx[j];
    }
  }

  lemma {:induction false} LogUpTo(p: Policy, ts: seq<Time>, now: Time)
    requires UpTo(ts, now)
    ensures UpTo(Log(p, ts), now)
  {
    if ts != [] {
      LogUpTo(p, Front(ts), now);
    }
  }

  lemma {:induction false} LogSorted(p: Policy, ts: seq<Time>)
    requires NonDecreasing(ts)
    ensures NonDecreasing(Log(p, ts))
  {
    if ts != [] {
      LogSorted(p, Front(ts));
      LogUpTo(p, Front(ts), Last(ts));
      AppendSorted(Log(p, Front(ts)), Last(ts), Last(ts));
      hide NonDecreasing, UpTo, Retain;
    }
  }

  // ---------- pruning ----------

  /** Pruning early and again later keeps the same entries as pruning once, later. */
  lemma {:induction false} RetainAgain(log: seq<Time>, earlier: Time, now: Time, window: nat)
    requires earlier <= now
    ensures Retain(Retain(log, earlier, window), now, window) == Retain(log, now, window)
  {
    if log != [] {
      RetainAgain(Front(log), earlier, now, window);
      var kept := Retain(Front(log), earlier, window);
      assert Front(kept + [Last(log)]) == kept;
    }
  }

  /** `stored`, last pruned at `at`, stands for the full log: filtered to the window they agree, and
      unless the window is empty `stored` is that filtered log itself. */
  predicate StandsFor(stored: seq<Time>, log: seq<Time>, at: Time, window: nat) {
    && Retain(stored, at, window) == Retain(log, at, window)
    && (window > 0 ==> stored == Retain(log, at, window))
  }

  /** What a limiter does to its list at time `now` keeps it standing for the full log, and the
      count it decides by is the full log's. */
  lemma PrunedListAgrees(stored: seq<Time>, log: seq<Time>, at: Time, now: Time, window: nat)
    requires at <= now && StandsFor(stored, log, at, window)
    ensures var kept := Retain(stored, now, window);
            && kept == Retain(log, now, window)
            && StandsFor(kept, log, now, window)
            && StandsFor(kept + [now], log + [now], now, window)
  {
    RetainAgain(log, at, now, window);
    RetainAgain(stored, at, now, window);
    RetainAgain(log, now, now, window);
    var kept := Retain(log, now, window);
    assert Front(log + [now]) == log;
    assert Front(kept + [now]) == kept;
  }

  /** `stored` is a limiter's list after the calls `ts`, last pruned at `at`. */
  predicate Tracks(p: Policy, stored: seq<Time>, ts: seq<Time>, at: Time) {
    && NonDecreasing(ts) && UpTo(ts, at)
    && StandsFor(stored, Log(p, ts), at, p.window)
  }

  /** One call decides as the full log does, and leaves a list that stands for the new full log. */
  lemma LimiterStep(p: Policy, stored: seq<Time>, ts: seq<Time>, at: Time, now: Time)
    requires at <= now && Tracks(p, stored, ts, at)
    ensures var kept := Retain(stored, now, p.window);
            && (|kept| < p.maxRequests <==> Admits(p, ts, now))
            && Tracks(p, if |kept| < p.maxRequests then kept + [now] else kept, ts + [now], now)
  {
    PrunedListAgrees(stored, Log(p, ts), at, now, p.window);
    LogStep(p, ts, now);
    AppendSorted(ts, at, now);
    hide Log, Retain, NonDecreasing, UpTo;
  }

  lemma AppendSorted(ts: seq<Time>, at: Time, now: Time)
    requires NonDecreasing(ts) && UpTo(ts, at) && at <= now
    ensures NonDecreasing(ts + [now]) && UpTo(ts + [now], now)
  {
  }

  /** A client's entry in the per-client table, last pruned by that client's last call. */
  predicate TracksClient(p: Policy, stored: seq<Time>, ts: seq<Time>, clock: Time) {
    ts != [] && Last(ts) <= clock && Tracks(p, stored, ts, Last(ts))
  }

  lemma ClientStep(p: Policy, stored: seq<Time>, ts: seq<Time>, clock: Time, now: Time)
    requires clock <= now
    requires (stored == [] && ts == []) || TracksClient(p, stored, ts, clock)
    ensures var kept := Retain(stored, now, p.window);
            && (|kept| < p.maxRequests <==> Admits(p, ts, now))
            && TracksClient(p, if |kept| < p.maxRequests then kept + [now] else kept, ts + [now], now)
  {
    LimiterStep(p, stored, ts, if ts == [] then 0 else Last(ts), now);
  }

  lemma ClientWaits(p: Policy, stored: seq<Time>, ts: seq<Time>, clock: Time, now: Time)
    requires clock <= now && TracksClient(p, stored, ts, clock)
    ensures TracksClient(p, stored, ts, now)
  {
  }

  /** Reading the free allowance, with or without pruning. */
  lemma LimiterRead(p: Policy, stored: seq<Time>, ts: seq<Time>, at: Time, now: Time)
    requires at <= now && Tracks(p, stored, ts, at)
    ensures var kept := Retain(stored, now, p.window);
            && Remaining(p, ts, now) == (if |kept| <= p.maxRequests then p.maxRequests - |kept| else 0)
            && Tracks(p, kept, ts, now)
  {
    PrunedListAgrees(stored, Log(p, ts), at, now, p.window);
  }

  // ---------- the window limit ----------

  /** Admissions in the half-open interval from `a` to `a + len`. */
  function CountIn(log: seq<Time>, a: int, len: nat): (c: nat)
    ensures c <= |log|
  {
    if log == [] then 0
    else CountIn(Front(log), a, len) + if a <= Last(log) < a + len then 1 else 0
  }

  /** Every half-open interval as long as the window holds at most the allowed number. */
  ghost predicate Respects(p: Policy, log: seq<Time>) {
    forall a: int :: CountIn(log, a, p.window) <= p.maxRequests
  }

  /** The same limit said of the log's own entries: any entry and the one `maxRequests` later are
      at least a window apart. */
  ghost predicate Spaced(p: Policy, log: seq<Time>) {
    forall k, m {:trigger log[k], log[m]} ::
      0 <= k && m == k + p.maxRequests && m < |log| ==> log[m] - log[k] >= p.window
  }

  function CountBelow(log: seq<Time>, b: int): (c: nat)
    ensures c <= |log|
  {
    if log == [] then 0 else CountBelow(Front(log), b) + if Last(log) < b then 1 else 0
  }

  lemma {:induction false} CountBelowIsRank(log: seq<Time>, b: int)
    requires NonDecreasing(log)
    ensures forall j :: 0 <= j < |log| ==> (log[j] < b <==> j < CountBelow(log, b))
  {
    if log != [] {
      CountBelowIsRank(Front(log), b);
      assert forall j :: 0 <= j < |log| - 1 ==> Front(log)[j] == log[j] <= Last(log);
    }
  }

  lemma {:induction false} CountInIsDifference(log: seq<Time>, a: int, len: nat)
    ensures CountIn(log, a, len) == CountBelow(log, a + len) - CountBelow(log, a)
  {
    if log != [] {
      CountInIsDifference(Front(log), a, len);
    }
  }

  /** What `retain` keeps is what lies within the last window. */
  lemma {:induction false} RetainCounts(log: seq<Time>, now: Time, window: nat)
    requires UpTo(log, now)
    ensures |Retain(log, now, window)| == |log| - CountBelow(log, now - window + 1)
  {
    if log != [] {
      RetainCounts(Front(log), now, window);
    }
  }

  lemma {:induction false} AllBelow(log: seq<Time>, now: Time)
    requires UpTo(log, now)
    ensures CountBelow(log, now + 1) == |log|
  {
    if log != [] {
      AllBelow(Front(log), now);
    }
  }

  lemma CrowdedNotSpaced(p: Policy, log: seq<Time>, a: int)
    requires NonDecreasing(log)
    requires CountIn(log, a, p.window) > p.maxRequests
    ensures !Spaced(p, log)
  {
    CountInIsDifference(log, a, p.window);
    CountBelowIsRank(log, a);
    CountBelowIsRank(log, a + p.window);
    var k := CountBelow(log, a);
    var m := k + p.maxRequests;
    assert m < CountBelow(log, a + p.window) && log[m] - log[k] < p.window;
  }

  lemma CloseNotRespects(p: Policy, log: seq<Time>, k: nat, m: nat)
    requires NonDecreasing(log)
    requires m == k + p.maxRequests && m < |log| && log[m] - log[k] < p.window
    ensures CountIn(log, log[k], p.window) > p.maxRequests
  {
    var a := log[k];
    CountInIsDifference(log, a, p.window);
    CountBelowIsRank(log, a);
    CountBelowIsRank(log, a + p.window);
  }

  lemma RespectsIffSpaced(p: Policy, log: seq<Time>)
    requires NonDecreasing(log)
    ensures Respects(p, log) <==> Spaced(p, log)
  {
    forall k, m | 0 <= k && m == k + p.maxRequests && m < |log| && log[m] - log[k] < p.window
      ensures !Respects(p, log)
    {
      CloseNotRespects(p, log, k, m);
      assert CountIn(log, log[k], p.window) > p.maxRequests;
    }
    forall a: int | CountIn(log, a, p.window) > p.maxRequests
      ensures !Spaced(p, log)
    {
      CrowdedNotSpaced(p, log, a);
    }
  }

  /** Adding an admission keeps the log spaced exactly because the count of live entries is below
      the allowance. */
  lemma SpacedStep(p: Policy, log: seq<Time>, now: Time)
    requires NonDecreasing(log) && UpTo(log, now) && Spaced(p, log)
    requires |Retain(log, now, p.window)| < p.maxRequests
    ensures Spaced(p, log + [now])
  {
    RetainCounts(log, now, p.window);
    CountBelowIsRank(log, now - p.window + 1);
  }

  lemma {:induction false} LogSpaced(p: Policy, ts: seq<Time>)
    requires NonDecreasing(ts)
    ensures Spaced(p, Log(p, ts))
  {
    if ts != [] {
      var init, now := Front(ts), Last(ts);
      LogSpaced(p, init);
      LogSorted(p, init);
      LogUpTo(p, init, now);
      if |Retain(Log(p, init), now, p.window)| < p.maxRequests {
        SpacedStep(p, Log(p, init), now);
      }
    }
  }

  /** Window safety: at no moment has any window-long interval received more than its share. */
  lemma WindowSafety(p: Policy, ts: seq<Time>)
    requires NonDecreasing(ts)
    ensures Respects(p, Log(p, ts))
  {
    LogSpaced(p, ts);
    LogSorted(p, ts);
    RespectsIffSpaced(p, Log(p, ts));
  }

  /** A request is refused exactly when the last window already holds the full allowance, neither
      more nor less. */
  lemma RefusedIffFull(p: Policy, ts: seq<Time>, now: Time)
    requires NonDecreasing(ts) && UpTo(ts, now)
    ensures Live(p, ts, now) == CountIn(Log(p, ts), now - p.window + 1, p.window)
    ensures !Admits(p, ts, now) <==> CountIn(Log(p, ts), now - p.window + 1, p.window) == p.maxRequests
  {
    LogUpTo(p, ts, now);
    WindowSafety(p, ts);
    LiveCount(p, Log(p, ts), now);
  }

  lemma LiveCount(p: Policy, log: seq<Time>, now: Time)
    requires UpTo(log, now)
    ensures |Retain(log, now, p.window)| == CountIn(log, now - p.window + 1, p.window)
  {
    var edge := now - p.window + 1;
    assert edge + p.window == now + 1;
    RetainCounts(log, now, p.window);
    AllBelow(log, now);
    CountInIsDifference(log, edge, p.window);
  }

  // ---------- greedy optimality ----------

  lemma {:induction false} AdmittedPrefix(p: Policy, ts: seq<Time>, n: nat)
    requires n <= |ts|
    ensures Admitted(p, ts[..n]) <= Admitted(p, ts)
    ensures forall k :: |Admitted(p, ts[..n])| <= k < |Admitted(p, ts)| ==> n <= Admitted(p, ts)[k]
    decreases |ts| - n
  {
    if n == |ts| {
      assert ts[..n] == ts;
    } else {
      AdmittedPrefix(p, ts, n + 1);
      assert Front(ts[..n + 1]) == ts[..n];
    }
  }

  /** A call is admitted if the admission `maxRequests` before it, should there be one, has left the
      window. */
  lemma AdmitsWhenRoom(p: Policy, ts: seq<Time>, now: Time)
    requires NonDecreasing(ts) && UpTo(ts, now)
    requires p.maxRequests > 0
    requires var log := Log(p, ts);
             |log| >= p.maxRequests ==> now - log[|log| - p.maxRequests] >= p.window
    ensures Admits(p, ts, now)
  {
    LogSorted(p, ts);
    LogUpTo(p, ts, now);
    FewLive(p, Log(p, ts), now);
  }

  lemma FewLive(p: Policy, log: seq<Time>, now: Time)
    requires NonDecreasing(log) && UpTo(log, now)
    requires p.maxRequests > 0
    requires |log| >= p.maxRequests ==> now - log[|log| - p.maxRequests] >= p.window
    ensures |Retain(log, now, p.window)| < p.maxRequests
  {
    var edge := now - p.window + 1;
    RetainCounts(log, now, p.window);
    CountBelowIsRank(log, edge);
  }

  lemma AdmittedStep(p: Policy, ts: seq<Time>, n: nat)
    requires n < |ts| && Admits(p, ts[..n], ts[n])
    ensures Admitted(p, ts[..n + 1]) == Admitted(p, ts[..n]) + [n]
  {
    assert Front(ts[..n + 1]) == ts[..n];
  }

  /** Exchange argument: request by request, the limiter is never behind a schedule that respects
      the window limit. The one exception is a policy with neither an allowance nor a window. */
  lemma {:induction false} GreedyOptimal(p: Policy, ts: seq<Time>, s: seq<nat>, i: nat)
    requires NonDecreasing(ts) && IsSchedule(ts, s) && Respects(p, TimesOf(ts, s))
    requires p.maxRequests > 0 || p.window > 0
    requires i < |s|
    ensures i < |Admitted(p, ts)| && Admitted(p, ts)[i] <= s[i]
  {
    NonEmptyNeedsAllowance(p, ts, s);
    if i > 0 {
      GreedyOptimal(p, ts, s, i - 1);
    }
    if i >= p.maxRequests {
      GreedyOptimal(p, ts, s, i - p.maxRequests);
    }
    GreedyCatchesUp(p, ts, s, i);
  }

  lemma NonEmptyNeedsAllowance(p: Policy, ts: seq<Time>, s: seq<nat>)
    requires IsSchedule(ts, s) && Respects(p, TimesOf(ts, s))
    requires p.maxRequests > 0 || p.window > 0
    requires s != []
    ensures p.maxRequests > 0
  {
    var log := TimesOf(ts, s);
    assert CountIn(log, Last(log), p.window) <= p.maxRequests;
  }

  /** The step of the exchange argument: having kept up so far, the limiter keeps up with `s[i]`. */
  lemma GreedyCatchesUp(p: Policy, ts: seq<Time>, s: seq<nat>, i: nat)
    requires NonDecreasing(ts) && IsSchedule(ts, s) && Respects(p, TimesOf(ts, s))
    requires i < |s| && p.maxRequests > 0
    requires i > 0 ==> i <= |Admitted(p, ts)| && Admitted(p, ts)[i - 1] <= s[i - 1]
    requires i >= p.maxRequests ==> Admitted(p, ts)[i - p.maxRequests] <= s[i - p.maxRequests]
    ensures i < |Admitted(p, ts)| && Admitted(p, ts)[i] <= s[i]
  {
    hide Log, Admitted;
    var n := s[i];
    assert i > 0 ==> s[i - 1] < n;
    var g := AdmittedBefore(p, ts, n, i);
    if |g| == i {
      OldestLeft(p, ts, s, i, g);
      AdmittedNow(p, ts, n);
    }
  }

  lemma AdmittedBefore(p: Policy, ts: seq<Time>, n: nat, i: nat) returns (g: seq<nat>)
    requires n < |ts|
    requires i > 0 ==> i <= |Admitted(p, ts)| && Admitted(p, ts)[i - 1] < n
    ensures g == Admitted(p, ts[..n]) && i <= |g|
    ensures g <= Admitted(p, ts)
    ensures i < |g| ==> Admitted(p, ts)[i] < n
  {
    g := Admitted(p, ts[..n]);
    AdmittedPrefix(p, ts, n);
    hide Admitted;
    FirstBeyond(Admitted(p, ts), g, i, n);
  }

  lemma AdmittedNow(p: Policy, ts: seq<Time>, n: nat)
    requires NonDecreasing(ts) && n < |ts| && p.maxRequests > 0
    requires var log := Log(p, ts[..n]);
             |log| >= p.maxRequests ==> ts[n] - log[|log| - p.maxRequests] >= p.window
    ensures var i := |Admitted(p, ts[..n])|;
            i < |Admitted(p, ts)| && Admitted(p, ts)[i] == n
  {
    PrefixSorted(ts, n);
    AdmitsWhenRoom(p, ts[..n], ts[n]);
    AdmittedStep(p, ts, n);
    AdmittedPrefix(p, ts, n + 1);
    hide Admitted;
    var g' := Admitted(p, ts[..n + 1]);
    assert g'[|g'| - 1] == n;
  }

  /** Where the `i`-th entry of `all` lies when its entries below `n` are `g`. */
  lemma FirstBeyond(all: seq<nat>, g: seq<nat>, i: nat, n: nat)
    requires g <= all && forall k :: |g| <= k < |all| ==> n <= all[k]
    requires forall k :: 0 <= k < |g| ==> g[k] < n
    requires i > 0 ==> i <= |all| && all[i - 1] < n
    ensures i <= |g| && forall j :: 0 <= j < |g| ==> all[j] == g[j]
    ensures i < |g| ==> all[i] < n
  {
  }

  lemma PrefixSorted(ts: seq<Time>, n: nat)
    requires NonDecreasing(ts) && n < |ts|
    ensures NonDecreasing(ts[..n]) && UpTo(ts[..n], ts[n])
  {
  }

  lemma LogAt(p: Policy, ts: seq<Time>, n: nat, g: seq<nat>)
    requires n <= |ts| && g == Admitted(p, ts[..n])
    ensures |Log(p, ts[..n])| == |g|
    ensures forall j :: 0 <= j < |g| ==> g[j] < n && Log(p, ts[..n])[j] == ts[g[j]]
  {
    AdmittedAreLog(p, ts[..n]);
  }

  /** In a schedule that respects the limit, entries `maxRequests` apart are a window apart. */
  lemma ScheduleGap(p: Policy, ts: seq<Time>, s: seq<nat>, j: nat, i: nat)
    requires NonDecreasing(ts) && IsSchedule(ts, s) && Respects(p, TimesOf(ts, s))
    requires i == j + p.maxRequests && i < |s|
    ensures ts[s[i]] - ts[s[j]] >= p.window
  {
    var log := TimesOf(ts, s);
    ScheduleSorted(ts, s);
    RespectsIffSpaced(p, log);
    hide Respects, NonDecreasing, IsSchedule;
    assert log[i] - log[j] >= p.window;
  }

  /** The admission `maxRequests` before the `i`-th has left the window by `s[i]`, because it came no
      later than the schedule's own. */
  lemma OldestLeft(p: Policy, ts: seq<Time>, s: seq<nat>, i: nat, g: seq<nat>)
    requires NonDecreasing(ts) && IsSchedule(ts, s) && Respects(p, TimesOf(ts, s))
    requires 0 < p.maxRequests && i < |s|
    requires g == Admitted(p, ts[..s[i]]) && |g| == i
    requires i >= p.maxRequests ==> g[i - p.maxRequests] <= s[i - p.maxRequests]
    ensures var log := Log(p, ts[..s[i]]);
            |log| >= p.maxRequests ==> ts[s[i]] - log[|log| - p.maxRequests] >= p.window
  {
    LogAt(p, ts, s[i], g);
    if i >= p.maxRequests {
      var j := i - p.maxRequests;
      ScheduleGap(p, ts, s, j, i);
      hide Respects, Log, Admitted;
      assert ts[g[j]] <= ts[s[j]];
    }
  }

  /** How many entries of a schedule fall among the first `n` requests. */
  function CountBefore(s: seq<nat>, n: nat): nat {
    if s == [] then 0 else CountBefore(Front(s), n) + if Last(s) < n then 1 else 0
  }

  lemma {:induction false} CountBeforeIsRank(s: seq<nat>, n: nat)
    requires forall i, j :: 0 <= i < j < |s| ==> s[i] < s[j]
    ensures CountBefore(s, n) <= |s|
    ensures forall j :: 0 <= j < |s| ==> (s[j] < n <==> j < CountBefore(s, n))
  {
    if s != [] {
      CountBeforeIsRank(Front(s), n);
    }
  }

  /** On every prefix of the requests the limiter has admitted at least as many as any schedule
      that respects the window limit. */
  lemma GreedyAdmitsMost(p: Policy, ts: seq<Time>, s: seq<nat>, n: nat)
    requires NonDecreasing(ts) && IsSchedule(ts, s) && Respects(p, TimesOf(ts, s))
    requires p.maxRequests > 0 || p.window > 0
    ensures CountBefore(s, n) <= CountBefore(Admitted(p, ts), n)
  {
    var g := Admitted(p, ts);
    CountBeforeIsRank(s, n);
    CountBeforeIsRank(g, n);
    var c := CountBefore(s, n);
    if c > 0 {
      GreedyOptimal(p, ts, s, c - 1);
      assert s[c - 1] < n;
    }
  }

  /** The excluded policy really is an exception: no interval is too full, yet nothing is admitted. */
  lemma GreedyNotOptimalForEmptyPolicy(p: Policy, ts: seq<Time>, s: seq<nat>)
    requires p.maxRequests == 0 && p.window == 0
    requires IsSchedule(ts, s)
    ensures Respects(p, TimesOf(ts, s)) && Admitted(p, ts) == []
  {
    NothingInEmptyInterval(TimesOf(ts, s));
    NothingAdmitted(p, ts);
  }

  /** The limiter does at least as well as `s` on every prefix of `ts`. */
  ghost predicate NeverBehind(p: Policy, ts: seq<Time>, s: seq<nat>) {
    forall n: nat :: CountBefore(s, n) <= CountBefore(Admitted(p, ts), n)
  }

  /** On a given non-empty sequence of requests, no schedule that respects the window limit beats the
      limiter, exactly when the policy has an allowance or a window. */
  lemma GreedyBestIffAllowanceOrWindow(p: Policy, ts: seq<Time>)
    requires NonDecreasing(ts) && ts != []
    ensures (forall s :: IsSchedule(ts, s) && Respects(p, TimesOf(ts, s)) ==> NeverBehind(p, ts, s))
            <==> p.maxRequests > 0 || p.window > 0
  {
    if p.maxRequests > 0 || p.window > 0 {
      forall s | IsSchedule(ts, s) && Respects(p, TimesOf(ts, s)) ensures NeverBehind(p, ts, s) {
        forall n: nat ensures CountBefore(s, n) <= CountBefore(Admitted(p, ts), n) {
          GreedyAdmitsMost(p, ts, s, n);
        }
      }
    } else {
      var s: seq<nat> := [0];
      assert IsSchedule(ts, s);
      GreedyNotOptimalForEmptyPolicy(p, ts, s);
      assert Front(s) == [];
      assert CountBefore(s, 1) == 1 && CountBefore([], 1) == 0;
    }
  }

  lemma {:induction false} NothingInEmptyInterval(log: seq<Time>)
    ensures forall a: int :: CountIn(log, a, 0) == 0
  {
    if log != [] {
      NothingInEmptyInterval(Front(log));
    }
  }

  lemma {:induction false} NothingAdmitted(p: Policy, ts: seq<Time>)
    requires p.maxRequests == 0
    ensures Admitted(p, ts) == []
  {
    if ts != [] {
      NothingAdmitted(p, Front(ts));
    }
  }

  // ---------- what `remaining` promises ----------

  /** The calls `ts` followed by `k` more at the instant `now`. */
  function Burst(ts: seq<Time>, now: Time, k: nat): seq<Time> {
    if k == 0 then ts else Burst(ts, now, k - 1) + [now]
  }

  lemma LiveGrows(p: Policy, ts: seq<Time>, now: Time)
    requires p.window > 0 && Live(p, ts, now) < p.maxRequests
    ensures Live(p, ts + [now], now) == Live(p, ts, now) + 1
  {
    LogStep(p, ts, now);
    RetainPush(Log(p, ts), now, p.window);
  }

  lemma {:induction false} BurstFills(p: Policy, ts: seq<Time>, now: Time, k: nat)
    requires p.window > 0 && Live(p, ts, now) + k <= p.maxRequests
    ensures Live(p, Burst(ts, now, k), now) == Live(p, ts, now) + k
  {
    hide Live;
    if k > 0 {
      BurstFills(p, ts, now, k - 1);
      LiveGrows(p, Burst(ts, now, k - 1), now);
    }
  }

  lemma RetainPush(log: seq<Time>, now: Time, window: nat)
    requires window > 0
    ensures Retain(log + [now], now, window) == Retain(log, now, window) + [now]
  {
    assert Front(log + [now]) == log;
  }

  /** `remaining == r` means the next `r` calls at that instant are admitted; the one after them is
      refused, unless the window is empty and calls never add up. */
  lemma RemainingIsExact(p: Policy, ts: seq<Time>, now: Time, k: nat)
    requires NonDecreasing(ts) && UpTo(ts, now)
    requires k <= Remaining(p, ts, now)
    ensures k < Remaining(p, ts, now) ==> Admits(p, Burst(ts, now, k), now)
    ensures k == Remaining(p, ts, now) ==>
              (Admits(p, Burst(ts, now, k), now) <==> p.window == 0 && p.maxRequests > 0)
  {
    RefusedIffFull(p, ts, now);
    if p.window > 0 {
      WindowSafety(p, ts);
      BurstFills(p, ts, now, k);
    } else {
      NothingRetained(Log(p, ts), now);
      NothingRetained(Log(p, Burst(ts, now, k)), now);
    }
  }

  lemma {:induction false} NothingRetained(log: seq<Time>, now: Time)
    ensures Retain(log, now, 0) == []
  {
    if log != [] {
      NothingRetained(Front(log), now);
    }
  }
}
