/** What lets a call through the production pool and what closes it: the breaker's answers, shutting down,
    the semaphore, and the closing of the idle clients. */
module ProductionPoolDoor {
  import opened Wrappers
  import opened Counting
  import opened Sequences
  import opened ProductionPool

  lemma DiaryReads(pc: Pc)
    ensures pc == Done(Rejected) <==> DiaryOf(pc).verdict == Some(false)
    ensures WasCounted(pc) || pc.CountTotal? <==> DiaryOf(pc).verdict == Some(true)
    ensures IsFinished(pc) ==> DiaryOf(pc).outcome == Some(pc.end.outcome)
    ensures DiaryOf(pc).outcome.Some? && pc.Done? ==> IsFinished(pc)
  {
  }

  /** Each call does as it is told. It is turned away as rejected exactly if the breaker refused it, it is
      counted only if the breaker admitted it, and it ends as its own client call ended. */
  lemma CallsDoAsTold(limit: nat, ms: seq<Move>, i: nat)
    requires Play(limit, ms).Some? && i < |Play(limit, ms).value.pcs|
    ensures var s := Play(limit, ms).value;
            && |s.diaries| == |s.pcs|
            && (s.pcs[i] == Done(Rejected) <==> s.diaries[i].verdict == Some(false))
            && (WasCounted(s.pcs[i]) || s.pcs[i].CountTotal? <==> s.diaries[i].verdict == Some(true))
            && (IsFinished(s.pcs[i]) ==> s.diaries[i].outcome == Some(s.pcs[i].end.outcome))
            && (s.diaries[i].outcome.Some? && s.pcs[i].Done? ==> IsFinished(s.pcs[i]))
  {
    RunInv(limit, ms);
    DiaryReads(Play(limit, ms).value.pcs[i]);
    hide Counters, Permits, Exclusive, Locked, DiaryOf, WasCounted, Play;
  }

  predicate AnswersAre(ms: seq<Move>, admitted: bool) {
    forall k :: 0 <= k < |ms| && ms[k].Advance? ==> ms[k].admitted == admitted
  }

  lemma {:induction false} VerdictsAre(limit: nat, ms: seq<Move>, admitted: bool)
    requires Play(limit, ms).Some? && AnswersAre(ms, admitted)
    ensures var s := Play(limit, ms).value;
            forall i :: 0 <= i < |s.diaries| && s.diaries[i].verdict.Some? ==> s.diaries[i].verdict == Some(admitted)
  {
    if ms != [] {
      VerdictsAre(limit, Front(ms), admitted);
      assert Last(ms).Advance? ==> Last(ms).admitted == admitted;
      hide Next, Touch, Book;
    }
  }

  predicate IsCloser(pc: Pc) {
    pc.SetShutdown? || pc.CloseSemaphore? || pc.LockPool? || pc.Draining? || pc.Closed?
  }

  /** Still before the breaker, or turned away. */
  predicate IsOutside(pc: Pc) {
    pc.CheckShutdown? || pc.CheckBreaker? || IsCloser(pc) || pc == Done(ShutDown) || pc == Done(Rejected)
  }

  predicate Untouched(s: Sys) {
    && s.metrics == NO_METRICS
    && s.pool.idle == [] && s.pool.created == 0 && s.pool.permits == s.limit
    && forall i :: 0 <= i < |s.pcs| ==> IsOutside(s.pcs[i])
  }

  lemma UntouchedStep(s: Sys, i: nat, outcome: Outcome)
    requires Untouched(s) && i < |s.pcs| && Step(s, i, false, outcome).Some?
    ensures Untouched(Step(s, i, false, outcome).value)
  {
    assert IsOutside(s.pcs[i]);
  }

  /** Behind a breaker that refuses every call nothing is counted, no permit is taken and no client is ever
      made: all calls are still outside, or were turned away. */
  lemma {:induction false} AllRefused(limit: nat, ms: seq<Move>)
    requires Play(limit, ms).Some? && AnswersAre(ms, false)
    ensures Untouched(Play(limit, ms).value)
  {
    if ms != [] {
      AllRefused(limit, Front(ms));
      hide Step;
      match Last(ms)
      case Call =>
      case Close =>
      case Advance(i, admitted, outcome) =>
        assert !admitted;
        UntouchedStep(Play(limit, Front(ms)).value, i, outcome);
    }
  }

  /** Behind a breaker that admits every call none is rejected. */
  lemma NoneRejected(limit: nat, ms: seq<Move>)
    requires Play(limit, ms).Some? && AnswersAre(ms, true)
    ensures var s := Play(limit, ms).value;
            forall i :: 0 <= i < |s.pcs| ==> s.pcs[i] != Done(Rejected)
  {
    var s := Play(limit, ms).value;
    VerdictsAre(limit, ms, true);
    forall i | 0 <= i < |s.pcs| ensures s.pcs[i] != Done(Rejected) {
      CallsDoAsTold(limit, ms, i);
    }
  }

  /** Shutting down and closing the semaphore are for good. */
  predicate Follows(s: Sys, s': Sys) {
    && (s.pool.shutdown ==> s'.pool.shutdown)
    && (s.pool.semaphoreClosed ==> s'.pool.semaphoreClosed)
    && |s.pcs| <= |s'.pcs|
  }

  predicate AtTheDoor(pc: Pc) {
    pc.CheckShutdown? || pc == Done(ShutDown) || IsCloser(pc)
  }

  lemma ShutStep(s: Sys, m: Move, n: nat)
    requires Apply(s, m).Some? && s.pool.shutdown && n <= |s.pcs|
    requires forall i :: n <= i < |s.pcs| ==> AtTheDoor(s.pcs[i])
    ensures var s' := Apply(s, m).value;
            && Follows(s, s')
            && forall i :: n <= i < |s'.pcs| ==> AtTheDoor(s'.pcs[i])
  {
  }

  /** A call that arrives after the pool is shut down is told so and does nothing else. */
  lemma {:induction false} ShutForLaterCalls(limit: nat, ms: seq<Move>, later: seq<Move>)
    requires ms <= later && Play(limit, ms).Some? && Play(limit, later).Some?
    requires Play(limit, ms).value.pool.shutdown
    ensures var s, s' := Play(limit, ms).value, Play(limit, later).value;
            && Follows(s, s')
            && forall i :: |s.pcs| <= i < |s'.pcs| ==> AtTheDoor(s'.pcs[i])
    decreases |later|
  {
    if |later| > |ms| {
      assert ms <= Front(later);
      ShutForLaterCalls(limit, ms, Front(later));
      ShutStep(Play(limit, Front(later)).value, Last(later), |Play(limit, ms).value.pcs|);
    } else {
      assert ms == later;
    }
  }

  lemma GrantStep(s: Sys, m: Move, i: nat)
    requires Apply(s, m).Some? && s.pool.semaphoreClosed
    requires i < |Apply(s, m).value.pcs| && HoldsPermit(Apply(s, m).value.pcs[i])
    ensures i < |s.pcs| && HoldsPermit(s.pcs[i]) && Apply(s, m).value.pool.semaphoreClosed
  {
  }

  lemma ClosedStays(s: Sys, m: Move)
    requires Apply(s, m).Some? && s.pool.semaphoreClosed
    ensures Apply(s, m).value.pool.semaphoreClosed
  {
  }

  /** Once the semaphore is closed no further permit is granted: who holds one then held one before. */
  lemma {:induction false} NoPermitAfterClose(limit: nat, ms: seq<Move>, later: seq<Move>, i: nat)
    requires ms <= later && Play(limit, ms).Some? && Play(limit, later).Some?
    requires Play(limit, ms).value.pool.semaphoreClosed
    ensures var s, s' := Play(limit, ms).value, Play(limit, later).value;
            && s'.pool.semaphoreClosed
            && (i < |s'.pcs| && HoldsPermit(s'.pcs[i]) ==> i < |s.pcs| && HoldsPermit(s.pcs[i]))
    decreases |later|
  {
    if |later| > |ms| {
      assert ms <= Front(later);
      NoPermitAfterClose(limit, ms, Front(later), i);
      var u := Play(limit, Front(later)).value;
      ClosedStays(u, Last(later));
      if i < |Play(limit, later).value.pcs| && HoldsPermit(Play(limit, later).value.pcs[i]) {
        GrantStep(u, Last(later), i);
      }
    } else {
      assert ms == later;
    }
  }

  predicate NobodyShut(s: Sys) {
    && !s.pool.shutdown && !s.pool.semaphoreClosed
    && forall i :: 0 <= i < |s.pcs| ==>
         !IsCloser(s.pcs[i]) && !s.pcs[i].UncountRefused? && s.pcs[i] != Done(ShutDown) && s.pcs[i] != Done(Refused)
  }

  lemma OpenStep(s: Sys, i: nat, admitted: bool, outcome: Outcome)
    requires NobodyShut(s) && i < |s.pcs| && Step(s, i, admitted, outcome).Some?
    ensures NobodyShut(Step(s, i, admitted, outcome).value)
  {
  }

  predicate CloserHasShut(pool: Pool, pc: Pc) {
    && (IsCloser(pc) && !pc.SetShutdown? ==> pool.shutdown)
    && (pc.LockPool? || pc.Draining? || pc.Closed? ==> pool.semaphoreClosed)
  }

  lemma ShutKept(s: Sys, i: nat, admitted: bool, outcome: Outcome)
    requires i < |s.pcs| && Step(s, i, admitted, outcome).Some?
    requires forall k :: 0 <= k < |s.pcs| ==> CloserHasShut(s.pool, s.pcs[k])
    ensures var s' := Step(s, i, admitted, outcome).value;
            forall k :: 0 <= k < |s'.pcs| ==> CloserHasShut(s'.pool, s'.pcs[k])
  {
    assert CloserHasShut(s.pool, s.pcs[i]);
  }

  /** A close first shuts the pool down, then closes the semaphore, and only then turns to the idle clients. */
  lemma {:induction false} CloseShutsFirst(limit: nat, ms: seq<Move>)
    requires Play(limit, ms).Some?
    ensures var s := Play(limit, ms).value;
            forall i :: 0 <= i < |s.pcs| ==> CloserHasShut(s.pool, s.pcs[i])
  {
    if ms != [] {
      CloseShutsFirst(limit, Front(ms));
      hide Step;
      match Last(ms)
      case Advance(i, admitted, outcome) => ShutKept(Play(limit, Front(ms)).value, i, admitted, outcome);
      case _ =>
    }
  }

  /** As long as nobody closes the pool, no call is told that it is shutting down and none is refused a
      permit. */
  lemma {:induction false} OpenWithoutClose(limit: nat, ms: seq<Move>)
    requires Play(limit, ms).Some? && forall k :: 0 <= k < |ms| ==> !ms[k].Close?
    ensures NobodyShut(Play(limit, ms).value)
  {
    if ms != [] {
      OpenWithoutClose(limit, Front(ms));
      hide Step;
      assert !Last(ms).Close?;
      match Last(ms)
      case Call =>
      case Advance(i, admitted, outcome) => OpenStep(Play(limit, Front(ms)).value, i, admitted, outcome);
    }
  }

  /** When a close ends, it has closed every idle client, in order, and leaves the list empty and unlocked. */
  lemma CloseClosesAllIdle(limit: nat, ms: seq<Move>, i: nat, admitted: bool, outcome: Outcome)
    requires Play(limit, ms).Some? && i < |Play(limit, ms).value.pcs|
    requires Play(limit, ms).value.pcs[i].Draining?
    requires Step(Play(limit, ms).value, i, admitted, outcome).Some?
    ensures var s := Play(limit, ms).value;
            var s' := Step(s, i, admitted, outcome).value;
            && s.pcs[i].closed <= s.pool.idle
            && (s'.pcs[i].Closed? <==> s.pcs[i].closed == s.pool.idle)
            && (s'.pcs[i].Closed? ==> s'.pool.idle == [] && !s'.pool.locked)
            && (!s'.pcs[i].Closed? ==> s'.pool == s.pool)
  {
    RunInv(limit, ms);
  }

  /** The client given back last is the one the next call takes. */
  lemma ReturnedIsTakenNext(s: Sys, i: nat, j: nat, admitted: bool, outcome: Outcome)
    requires i < |s.pcs| && j < |s.pcs| && s.pcs[i].GiveBack? && s.pcs[j].TakeClient? && !s.pool.locked
    ensures Step(s, i, admitted, outcome).Some?
    ensures var s1 := Step(s, i, admitted, outcome).value;
            && Step(s1, j, admitted, outcome).Some?
            && var s2 := Step(s1, j, admitted, outcome).value;
               s2.pcs[j] == Calling(s.pcs[i].client) && s2.pool == s.pool
  {
  }

  lemma CanMove(pool: Pool, pc: Pc, admitted: bool, outcome: Outcome)
    requires !AtRest(pc) && !(pc.Acquire? && pool.permits <= 0)
    requires pool.locked ==> pc.Draining?
    ensures Next(pool, pc, admitted, outcome).Some?
  {
  }

  /** Unless the limit is zero the pool cannot get stuck: while a task is unfinished, some task can move. */
  lemma NoDeadlock(limit: nat, ms: seq<Move>, i: nat, admitted: bool, outcome: Outcome) returns (j: nat)
    requires limit > 0 && Play(limit, ms).Some? && i < |Play(limit, ms).value.pcs|
    requires !AtRest(Play(limit, ms).value.pcs[i])
    ensures j < |Play(limit, ms).value.pcs| && Step(Play(limit, ms).value, j, admitted, outcome).Some?
  {
    RunInv(limit, ms);
    var s := Play(limit, ms).value;
    hide Counters, Diaries, Exclusive, Next, Play, Count, Touch, Book, Record;
    if s.pool.locked {
      j :| 0 <= j < |s.pcs| && s.pcs[j].Draining?;
    } else if s.pcs[i].Acquire? && s.pool.permits <= 0 {
      CountZero(s.pcs, HoldsPermit);
      j :| 0 <= j < |s.pcs| && HoldsPermit(s.pcs[j]);
    } else {
      j := i;
    }
    CanMove(s.pool, s.pcs[j], admitted, outcome);
  }
}
