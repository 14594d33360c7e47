/** The two stateful rate limiters. Both keep only a pruned list of admission times; both are proved
    to answer as the full-history rule of `SlidingWindow` does. */
module RateLimiters {
  import opened Clock
  import opened Sequences
  import opened SlidingWindow
  import Wire

  /** A client's name, as UTF-8 bytes. */
  type ClientId = Wire.Bytes

  /** `Vec::retain` on a list of admission times. */
  method RetainLive(log: seq<Time>, now: Time, window: nat) returns (kept: seq<Time>)
    ensures kept == Retain(log, now, window)
  {
    kept := [];
    for i := 0 to |log|
      invariant kept == Retain(log[..i], now, window)
    {
      assert Front(log[..i + 1]) == log[..i];
      if Elapsed(now, log[i]) < window {
        kept := kept + [log[i]];
      }
    }
    assert log[..|log|] == log;
  }

  /** The limiter of src/utils.rs: one list of admission times. */
  class SingleLimiter {
    const policy: Policy
    var requests: seq<Time>
    ghost var calls: seq<Time>
    ghost var clock: Time

    ghost predicate Valid()
      reads this
    {
      Tracks(policy, requests, calls, clock)
    }

    constructor (policy: Policy)
      ensures Valid() && this.policy == policy && calls == [] && clock == 0
    {
      this.policy := policy;
      requests, calls, clock := [], [], 0;
    }

    method TryAcquire(now: Time) returns (ok: bool)
      requires Valid() && clock <= now
      modifies this
      ensures Valid() && clock == now && calls == old(calls) + [now]
      ensures ok == Admits(policy, old(calls), now)
    {
      var kept := RetainLive(requests, now, policy.window);
      LimiterStep(policy, requests, calls, clock, now);
      ok := |kept| < policy.maxRequests;
      requests := if ok then kept + [now] else kept;
      calls, clock := calls + [now], now;
    }

    /** Reading the free allowance prunes the list but is not a call. */
    method Available(now: Time) returns (free: nat)
      requires Valid() && clock <= now
      modifies this
      ensures Valid() && clock == now && calls == old(calls)
      ensures free == Remaining(policy, calls, now)
    {
      LimiterRead(policy, requests, calls, clock, now);
      requests := RetainLive(requests, now, policy.window);
      clock := now;
      free := if |requests| <= policy.maxRequests then policy.maxRequests - |requests| else 0;
    }

    /** Polls every `POLL` time units until admitted: at the latest on the first poll a full window
        after the start. Without an allowance it would never return. */
    method Acquire(start: Time) returns (at: Time, ghost refused: nat)
      requires Valid() && clock <= start
      requires policy.maxRequests > 0
      modifies this
      ensures Valid() && clock == at == start + POLL * refused
      ensures at < start + policy.window + POLL
      ensures Log(policy, calls) == Log(policy, old(calls)) + [at]
    {
      ghost var log := Log(policy, calls);
      at, refused := start, 0;
      LogUpTo(policy, calls, start);
      hide Admits, Tracks, Log, UpTo;
      while true
        invariant Valid() && clock <= at == start + POLL * refused
        invariant Log(policy, calls) == log
        invariant at < start + policy.window + POLL
        decreases start + policy.window + POLL - at
      {
        PollStep(policy, calls, log, start, at);
        var ok := TryAcquire(at);
        if ok {
          return;
        }
        at, refused := at + POLL, refused + 1;
      }
    }
  }

  const POLL: nat := 10

  /** A poll is admitted, or refused while the window may still be full. */
  lemma PollStep(p: Policy, ts: seq<Time>, log: seq<Time>, start: Time, now: Time)
    requires p.maxRequests > 0 && UpTo(log, start) && Log(p, ts) == log
    ensures Admits(p, ts, now) ==> Log(p, ts + [now]) == log + [now]
    ensures !Admits(p, ts, now) ==> Log(p, ts + [now]) == log && now < start + p.window
  {
    LogStep(p, ts, now);
    if now >= start + p.window {
      AllExpired(log, start, now, p.window);
    }
  }

  /** The calls `ts` followed by the first `k` polls of an `acquire` begun at `start`. */
  function Polled(ts: seq<Time>, start: Time, k: nat): seq<Time> {
    if k == 0 then ts else Polled(ts, start, k - 1) + [start + POLL * (k - 1)]
  }

  ghost predicate PollAdmitted(p: Policy, ts: seq<Time>, start: Time, k: nat) {
    Admits(p, Polled(ts, start, k), start + POLL * k)
  }

  lemma {:induction false} RefusedPollsLeaveLog(p: Policy, ts: seq<Time>, start: Time, k: nat)
    requires p.maxRequests > 0 && UpTo(Log(p, ts), start)
    requires forall j :: 0 <= j < k ==> !PollAdmitted(p, ts, start, j)
    ensures Log(p, Polled(ts, start, k)) == Log(p, ts)
  {
    if k > 0 {
      RefusedPollsLeaveLog(p, ts, start, k - 1);
      assert !PollAdmitted(p, ts, start, k - 1);
      PollStep(p, Polled(ts, start, k - 1), Log(p, ts), start, start + POLL * (k - 1));
    }
  }

  lemma RefusedPollIsEarly(p: Policy, ts: seq<Time>, start: Time, k: nat)
    requires p.maxRequests > 0 && UpTo(Log(p, ts), start) && Log(p, Polled(ts, start, k)) == Log(p, ts)
    requires !PollAdmitted(p, ts, start, k)
    ensures POLL * k < p.window
  {
    PollStep(p, Polled(ts, start, k), Log(p, ts), start, start + POLL * k);
  }

  lemma FirstAdmittedPoll(p: Policy, ts: seq<Time>, start: Time) returns (k: nat)
    requires UpTo(ts, start) && p.maxRequests > 0
    ensures PollAdmitted(p, ts, start, k)
  {
    LogUpTo(p, ts, start);
    hide PollAdmitted, Log, UpTo, Polled;
    k := 0;
    while !PollAdmitted(p, ts, start, k)
      invariant forall j :: 0 <= j < k ==> !PollAdmitted(p, ts, start, j)
      invariant POLL * k < p.window + POLL
      decreases p.window + POLL - POLL * k
    {
      RefusedPollsLeaveLog(p, ts, start, k);
      RefusedPollIsEarly(p, ts, start, k);
      k := k + 1;
    }
  }

  /** An `acquire` that has the limiter to itself ends exactly when there is an allowance: without one every
      poll is refused, for ever. */
  lemma AcquireEndsIffAllowance(p: Policy, ts: seq<Time>, start: Time)
    requires UpTo(ts, start)
    ensures (exists k: nat :: PollAdmitted(p, ts, start, k)) <==> p.maxRequests > 0
  {
    if p.maxRequests > 0 {
      var k := FirstAdmittedPoll(p, ts, start);
    }
  }

  lemma {:induction false} AllExpired(log: seq<Time>, start: Time, now: Time, window: nat)
    requires UpTo(log, start) && now >= start + window
    ensures Retain(log, now, window) == []
  {
    if log != [] {
      AllExpired(Front(log), start, now, window);
    }
  }

  /** The limiter of src/auth.rs: one list of admission times for each client. */
  class ClientLimiter {
    const policy: Policy
    var requests: map<ClientId, seq<Time>>
    /** Every client's calls since it was first seen or last reset. */
    ghost var calls: map<ClientId, seq<Time>>
    ghost var clock: Time

    ghost function History(client: ClientId): seq<Time>
      reads this
    {
      if client in calls then calls[client] else []
    }

    ghost predicate Valid()
      reads this
    {
      && requests.Keys == calls.Keys
      && forall c <- calls ::
           TracksClient(policy, requests[c], calls[c], clock)
    }

    constructor (policy: Policy)
      ensures Valid() && this.policy == policy && calls == map[] && clock == 0
    {
      this.policy := policy;
      requests, calls, clock := map[], map[], 0;
    }

    /** The same answer a `SingleLimiter` with this client's history would give; no other client's
        history or list changes. */
    method Check(client: ClientId, now: Time) returns (ok: bool)
      requires Valid() && clock <= now
      modifies this
      ensures Valid() && clock == now
      ensures ok == Admits(policy, old(History(client)), now)
      ensures calls == old(calls)[client := old(History(client)) + [now]]
      ensures requests - {client} == old(requests) - {client}
    {
      hide TracksClient, Admits, Retain;
      ghost var before := History(client);
      var stored := if client in requests then requests[client] else [];
      var kept := RetainLive(stored, now, policy.window);
      ClientStep(policy, stored, before, clock, now);
      forall c | c in calls ensures TracksClient(policy, requests[c], calls[c], now) {
        ClientWaits(policy, requests[c], calls[c], clock, now);
      }
      ok := |kept| < policy.maxRequests;
      var after := if ok then kept + [now] else kept;
      requests := requests[client := after];
      calls, clock := calls[client := before + [now]], now;
    }

    /** Reads the free allowance without pruning. */
    method RemainingFor(client: ClientId, now: Time) returns (free: nat)
      requires Valid() && clock <= now
      ensures free == Remaining(policy, History(client), now)
    {
      if client in requests {
        var valid := RetainLive(requests[client], now, policy.window);
        LimiterRead(policy, requests[client], calls[client], Last(calls[client]), now);
        free := if |valid| <= policy.maxRequests then policy.maxRequests - |valid| else 0;
      } else {
        assert Log(policy, []) == [];
        free := policy.maxRequests;
      }
    }

    method Reset(client: ClientId)
      requires Valid()
      modifies this
      ensures Valid() && clock == old(clock)
      ensures calls == old(calls) - {client} && History(client) == []
      ensures requests - {client} == old(requests) - {client}
    {
      hide TracksClient;
      requests := requests - {client};
      calls := calls - {client};
    }
  }
}
