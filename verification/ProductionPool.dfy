/** The production pool: calls (single or from a batch, which take the same steps) and `close`, as
    tasks whose atomic accesses, lock sections and semaphore operations interleave freely. Calls are
    not cancelled from outside. */
module ProductionPool {
  import opened Wrappers
  import opened Counting
  import opened Sequences

  type Client = nat

  /** How the inner client call ended: a response, an error, or the pool's own timeout. */
  datatype Outcome = Response | Failure | TimedOut

  datatype End = ShutDown | Rejected | Refused | Finished(outcome: Outcome)

  /** Named after the access the task does next. */
  datatype Pc =
    | CheckShutdown
    | CheckBreaker
    | CountTotal
    | CountActive
    | Acquire
    | UncountRefused
    | TakeClient
    | Calling(client: Client)
    | GiveBack(client: Client, outcome: Outcome)
    | Release(outcome: Outcome)
    | Uncount(outcome: Outcome)
    | Report(outcome: Outcome)
    | CountTimeout
    | CountOutcome(outcome: Outcome)
    | Done(end: End)
    | SetShutdown
    | CloseSemaphore
    | LockPool
    | Draining(closed: seq<Client>)
    | Closed

  /** The shared resources. */
  datatype Pool = Pool(
    shutdown: bool,
    semaphoreClosed: bool,
    permits: int,
    idle: seq<Client>,
    created: nat,
    locked: bool)

  /** The shared counters; the last two count what was recorded in the circuit breaker. */
  datatype Metrics = Metrics(
    total: int,
    active: int,
    succeeded: int,
    failed: int,
    timeouts: int,
    successReports: int,
    failureReports: int)

  const NO_METRICS := Metrics(0, 0, 0, 0, 0, 0, 0)

  /** What one call was told by the breaker and by its client, and what it recorded in the breaker: true
      for a success. */
  datatype Diary = Diary(verdict: Option<bool>, outcome: Option<Outcome>, reported: seq<bool>)

  const BLANK := Diary(None, None, [])

  datatype Sys = Sys(limit: nat, pool: Pool, metrics: Metrics, pcs: seq<Pc>, diaries: seq<Diary>)

  /** `admitted` is the breaker's answer and `outcome` the client call's, where the step asks for one. */
  datatype Move = Call | Close | Advance(task: nat, admitted: bool, outcome: Outcome)

  function Start(limit: nat): Sys {
    Sys(limit, Pool(false, false, limit, [], 0, false), NO_METRICS, [], [])
  }

  /** The client a task takes: the one returned last, or a new one if none is idle. */
  function Pick(pool: Pool): Client {
    if pool.idle != [] then pool.idle[|pool.idle| - 1] else pool.created
  }

  /** Where a task goes when it does its next access; `None` while it is blocked, and at the end. */
  function Next(pool: Pool, pc: Pc, admitted: bool, outcome: Outcome): Option<Pc> {
    match pc
    case CheckShutdown => Some(if pool.shutdown then Done(ShutDown) else CheckBreaker)
    case CheckBreaker => Some(if admitted then CountTotal else Done(Rejected))
    case CountTotal => Some(CountActive)
    case CountActive => Some(Acquire)
    case Acquire =>
      if pool.semaphoreClosed then Some(UncountRefused)
      else if pool.permits > 0 then Some(TakeClient)
      else None
    case UncountRefused => Some(Done(Refused))
    case TakeClient => if pool.locked then None else Some(Calling(Pick(pool)))
    case Calling(client) => Some(GiveBack(client, outcome))
    case GiveBack(_, o) => if pool.locked then None else Some(Release(o))
    case Release(o) => Some(Uncount(o))
    case Uncount(o) => Some(Report(o))
    case Report(o) => Some(if o.TimedOut? then CountTimeout else CountOutcome(o))
    case CountTimeout => Some(CountOutcome(TimedOut))
    case CountOutcome(o) => Some(Done(Finished(o)))
    case SetShutdown => Some(CloseSemaphore)
    case CloseSemaphore => Some(LockPool)
    case LockPool => if pool.locked then None else Some(Draining([]))
    case Draining(closed) =>
      Some(if |closed| < |pool.idle| then Draining(closed + [pool.idle[|closed|]]) else Closed)
    case Done(_) | Closed => None
  }

  /** What the access does to the shared resources. `close` keeps the pool locked while it closes the
      idle clients one by one. */
  function Touch(pool: Pool, pc: Pc): Pool {
    match pc
    case Acquire => if pool.semaphoreClosed then pool else pool.(permits := pool.permits - 1)
    case TakeClient =>
      if pool.idle != [] then pool.(idle := pool.idle[..|pool.idle| - 1])
      else pool.(created := pool.created + 1)
    case GiveBack(client, _) => pool.(idle := pool.idle + [client])
    case Release(_) => pool.(permits := pool.permits + 1)
    case SetShutdown => pool.(shutdown := true)
    case CloseSemaphore => pool.(semaphoreClosed := true)
    case LockPool => pool.(locked := true)
    case Draining(closed) => if |closed| < |pool.idle| then pool else pool.(idle := [], locked := false)
    case _ => pool
  }

  /** What the access does to the shared counters. */
  function Book(m: Metrics, pc: Pc): Metrics {
    match pc
    case CountTotal => m.(total := m.total + 1)
    case CountActive => m.(active := m.active + 1)
    case UncountRefused => m.(active := m.active - 1)
    case Uncount(_) => m.(active := m.active - 1)
    case Report(o) =>
      if o.Response? then m.(successReports := m.successReports + 1)
      else m.(failureReports := m.failureReports + 1)
    case CountTimeout => m.(timeouts := m.timeouts + 1)
    case CountOutcome(o) =>
      if o.Response? then m.(succeeded := m.succeeded + 1) else m.(failed := m.failed + 1)
    case _ => m
  }

  /** What a task was told by, or recorded with, this access. */
  function Note(d: Diary, pc: Pc, admitted: bool, outcome: Outcome): Diary {
    match pc
    case CheckBreaker => d.(verdict := Some(admitted))
    case Calling(_) => d.(outcome := Some(outcome))
    case Report(o) => d.(reported := d.reported + [o.Response?])
    case _ => d
  }

  function Record(diaries: seq<Diary>, i: nat, pc: Pc, admitted: bool, outcome: Outcome): seq<Diary> {
    if i < |diaries| then diaries[i := Note(diaries[i], pc, admitted, outcome)] else diaries
  }

  function Step(s: Sys, i: nat, admitted: bool, outcome: Outcome): Option<Sys>
    requires i < |s.pcs|
  {
    match Next(s.pool, s.pcs[i], admitted, outcome)
    case None => None
    case Some(pc') =>
      Some(Sys(s.limit, Touch(s.pool, s.pcs[i]), Book(s.metrics, s.pcs[i]), s.pcs[i := pc'],
               Record(s.diaries, i, s.pcs[i], admitted, outcome)))
  }

  function Apply(s: Sys, m: Move): Option<Sys> {
    match m
    case Call => Some(s.(pcs := s.pcs + [CheckShutdown], diaries := s.diaries + [BLANK]))
    case Close => Some(s.(pcs := s.pcs + [SetShutdown], diaries := s.diaries + [BLANK]))
    case Advance(i, admitted, outcome) => if i < |s.pcs| then Step(s, i, admitted, outcome) else None
  }

  /** The state after a run of a fresh pool; `None` if some move of it is not possible. */
  function Play(limit: nat, ms: seq<Move>): Option<Sys> {
    if ms == [] then Some(Start(limit))
    else
      match Play(limit, Front(ms))
      case Some(s) => Apply(s, Last(ms))
      case None => None
  }

  // ---------- who is where ----------

  predicate HasClient(pc: Pc) { pc.Calling? || pc.GiveBack? }
  predicate HoldsBarePermit(pc: Pc) { pc.TakeClient? || pc.Release? }
  predicate HoldsPermit(pc: Pc) { HasClient(pc) || HoldsBarePermit(pc) }

  predicate IsActive(pc: Pc) {
    pc.Acquire? || pc.UncountRefused? || HoldsPermit(pc) || pc.Uncount?
  }

  /** Counted in `total`. */
  predicate WasCounted(pc: Pc) {
    pc.CountActive? || IsActive(pc) || IsSettling(pc) || pc == Done(Refused) || (pc.Done? && pc.end.Finished?)
  }

  predicate IsCountingIn(pc: Pc) { pc.CountActive? }
  predicate IsRefused(pc: Pc) { pc == Done(Refused) }
  predicate HasSucceeded(pc: Pc) { pc == Done(Finished(Response)) }
  predicate HasErred(pc: Pc) { pc == Done(Finished(Failure)) }
  predicate HasTimedOut(pc: Pc) { pc == Done(Finished(TimedOut)) }
  predicate HasFailed(pc: Pc) { HasErred(pc) || HasTimedOut(pc) }

  /** Between giving up its active count and counting its outcome. */
  predicate IsSettling(pc: Pc) { pc.Report? || pc.CountTimeout? || pc.CountOutcome? }

  /** Between its report and the count of its outcome. */
  predicate IsReportedSuccess(pc: Pc) { pc == CountOutcome(Response) }
  predicate IsReportedFailure(pc: Pc) { pc.CountTimeout? || (pc.CountOutcome? && !pc.outcome.Response?) }
  predicate IsFinished(pc: Pc) { pc.Done? && pc.end.Finished? }
  predicate WasReportedSuccess(pc: Pc) { IsReportedSuccess(pc) || HasSucceeded(pc) }
  predicate WasReportedFailure(pc: Pc) { IsReportedFailure(pc) || HasFailed(pc) }

  /** Its timeout is counted, its failure not yet. */
  predicate IsTimeoutOnly(pc: Pc) { pc == CountOutcome(TimedOut) }
  predicate HasCountedTimeout(pc: Pc) { IsTimeoutOnly(pc) || HasTimedOut(pc) }

  // ---------- the counters ----------

  predicate Counters(m: Metrics, pcs: seq<Pc>) {
    && m.total == Count(pcs, WasCounted)
    && m.active == Count(pcs, IsActive)
    && m.succeeded == Count(pcs, HasSucceeded)
    && m.failed == Count(pcs, HasFailed)
    && m.timeouts == Count(pcs, HasCountedTimeout)
    && m.successReports == Count(pcs, WasReportedSuccess)
    && m.failureReports == Count(pcs, WasReportedFailure)
  }

  /** A counter and the tasks it counts change together when a task goes from `pc` to `pc'`. */
  predicate Moved(before: int, after: int, p: Pc -> bool, pc: Pc, pc': Pc) {
    after - before == (if p(pc') then 1 else 0) - (if p(pc) then 1 else 0)
  }

  predicate GaugesMoved(m: Metrics, m': Metrics, pc: Pc, pc': Pc) {
    && Moved(m.total, m'.total, WasCounted, pc, pc')
    && Moved(m.active, m'.active, IsActive, pc, pc')
  }

  predicate OutcomesMoved(m: Metrics, m': Metrics, pc: Pc, pc': Pc) {
    && Moved(m.succeeded, m'.succeeded, HasSucceeded, pc, pc')
    && Moved(m.failed, m'.failed, HasFailed, pc, pc')
  }

  predicate ReportsMoved(m: Metrics, m': Metrics, pc: Pc, pc': Pc) {
    && Moved(m.timeouts, m'.timeouts, HasCountedTimeout, pc, pc')
    && Moved(m.successReports, m'.successReports, WasReportedSuccess, pc, pc')
    && Moved(m.failureReports, m'.failureReports, WasReportedFailure, pc, pc')
  }

  lemma BookTotal(m: Metrics, pool: Pool, pc: Pc, admitted: bool, outcome: Outcome)
    requires Next(pool, pc, admitted, outcome).Some?
    ensures Moved(m.total, Book(m, pc).total, WasCounted, pc, Next(pool, pc, admitted, outcome).value)
  {
  }

  lemma BookActive(m: Metrics, pool: Pool, pc: Pc, admitted: bool, outcome: Outcome)
    requires Next(pool, pc, admitted, outcome).Some?
    ensures Moved(m.active, Book(m, pc).active, IsActive, pc, Next(pool, pc, admitted, outcome).value)
  {
  }

  lemma BookGauges(m: Metrics, pool: Pool, pc: Pc, admitted: bool, outcome: Outcome)
    requires Next(pool, pc, admitted, outcome).Some?
    ensures GaugesMoved(m, Book(m, pc), pc, Next(pool, pc, admitted, outcome).value)
  {
    BookTotal(m, pool, pc, admitted, outcome);
    BookActive(m, pool, pc, admitted, outcome);
    hide Moved, Next, Book;
  }

  lemma BookOutcomes(m: Metrics, pool: Pool, pc: Pc, admitted: bool, outcome: Outcome)
    requires Next(pool, pc, admitted, outcome).Some?
    ensures OutcomesMoved(m, Book(m, pc), pc, Next(pool, pc, admitted, outcome).value)
  {
  }

  lemma BookTimeouts(m: Metrics, pool: Pool, pc: Pc, admitted: bool, outcome: Outcome)
    requires Next(pool, pc, admitted, outcome).Some?
    ensures Moved(m.timeouts, Book(m, pc).timeouts, HasCountedTimeout, pc, Next(pool, pc, admitted, outcome).value)
  {
  }

  lemma BookSuccessReports(m: Metrics, pool: Pool, pc: Pc, admitted: bool, outcome: Outcome)
    requires Next(pool, pc, admitted, outcome).Some?
    ensures Moved(m.successReports, Book(m, pc).successReports, WasReportedSuccess, pc,
                  Next(pool, pc, admitted, outcome).value)
  {
  }

  lemma BookFailureReports(m: Metrics, pool: Pool, pc: Pc, admitted: bool, outcome: Outcome)
    requires Next(pool, pc, admitted, outcome).Some?
    ensures Moved(m.failureReports, Book(m, pc).failureReports, WasReportedFailure, pc,
                  Next(pool, pc, admitted, outcome).value)
  {
  }

  lemma BookReports(m: Metrics, pool: Pool, pc: Pc, admitted: bool, outcome: Outcome)
    requires Next(pool, pc, admitted, outcome).Some?
    ensures ReportsMoved(m, Book(m, pc), pc, Next(pool, pc, admitted, outcome).value)
  {
    BookTimeouts(m, pool, pc, admitted, outcome);
    BookSuccessReports(m, pool, pc, admitted, outcome);
    BookFailureReports(m, pool, pc, admitted, outcome);
    hide Moved, Next, Book;
  }

  lemma CountersAt(m: Metrics, m': Metrics, pcs: seq<Pc>, i: nat, pc': Pc)
    requires Counters(m, pcs) && i < |pcs|
    requires GaugesMoved(m, m', pcs[i], pc') && OutcomesMoved(m, m', pcs[i], pc') && ReportsMoved(m, m', pcs[i], pc')
    ensures Counters(m', pcs[i := pc'])
  {
    CountUpdate(pcs, i, pc', WasCounted);
    CountUpdate(pcs, i, pc', IsActive);
    CountUpdate(pcs, i, pc', HasSucceeded);
    CountUpdate(pcs, i, pc', HasFailed);
    CountUpdate(pcs, i, pc', HasCountedTimeout);
    CountUpdate(pcs, i, pc', WasReportedSuccess);
    CountUpdate(pcs, i, pc', WasReportedFailure);
  }

  lemma CountersPush(m: Metrics, pcs: seq<Pc>, pc: Pc)
    requires Counters(m, pcs) && (pc.CheckShutdown? || pc.SetShutdown?)
    ensures Counters(m, pcs + [pc])
  {
    CountPush(pcs, pc, WasCounted);
    CountPush(pcs, pc, IsActive);
    CountPush(pcs, pc, HasSucceeded);
    CountPush(pcs, pc, HasFailed);
    CountPush(pcs, pc, HasCountedTimeout);
    CountPush(pcs, pc, WasReportedSuccess);
    CountPush(pcs, pc, WasReportedFailure);
  }

  // ---------- permits and clients ----------

  predicate Permits(limit: nat, pool: Pool, pcs: seq<Pc>) {
    && pool.permits + Count(pcs, HoldsPermit) == limit
    && pool.permits >= 0
    && |pool.idle| + Count(pcs, HasClient) <= limit
  }

  lemma TouchFollows(pool: Pool, pc: Pc, admitted: bool, outcome: Outcome)
    requires Next(pool, pc, admitted, outcome).Some?
    ensures var pool', pc' := Touch(pool, pc), Next(pool, pc, admitted, outcome).value;
            && Moved(-pool.permits, -pool'.permits, HoldsPermit, pc, pc')
            && (pool.permits >= 0 ==> pool'.permits >= 0)
            && (Moved(-|pool.idle|, -|pool'.idle|, HasClient, pc, pc')
                || (pc.TakeClient? && HasClient(pc') && pool.idle == pool'.idle == [])
                || (pc.Draining? && pool'.idle == [] && !HasClient(pc')))
  {
  }

  lemma PermitsAt(limit: nat, pool: Pool, pcs: seq<Pc>, i: nat, admitted: bool, outcome: Outcome)
    requires Permits(limit, pool, pcs) && i < |pcs|
    requires Next(pool, pcs[i], admitted, outcome).Some?
    ensures Permits(limit, Touch(pool, pcs[i]), pcs[i := Next(pool, pcs[i], admitted, outcome).value])
  {
    var pc' := Next(pool, pcs[i], admitted, outcome).value;
    TouchFollows(pool, pcs[i], admitted, outcome);
    hide Touch, Next, Count;
    CountUpdate(pcs, i, pc', HoldsPermit);
    CountUpdate(pcs, i, pc', HasClient);
    CountSplit(pcs, HoldsPermit, HasClient, HoldsBarePermit);
    CountZero(pcs, HoldsBarePermit);
  }

  /** Every client is idle once or held by one call, never both. */
  predicate Exclusive(pool: Pool, pcs: seq<Pc>) {
    && (forall j :: 0 <= j < |pool.idle| ==> pool.idle[j] < pool.created)
    && (forall i :: 0 <= i < |pcs| && HasClient(pcs[i]) ==> pcs[i].client < pool.created)
    && (forall j, k :: 0 <= j < k < |pool.idle| ==> pool.idle[j] != pool.idle[k])
    && (forall i, j :: 0 <= i < |pcs| && HasClient(pcs[i]) && 0 <= j < |pool.idle| ==> pcs[i].client != pool.idle[j])
    && (forall i, k :: 0 <= i < k < |pcs| && HasClient(pcs[i]) && HasClient(pcs[k]) ==> pcs[i].client != pcs[k].client)
  }

  lemma ExclusiveQuiet(pool: Pool, pool': Pool, pcs: seq<Pc>, i: nat, pc': Pc)
    requires Exclusive(pool, pcs) && i < |pcs|
    requires pool'.created == pool.created && (pool'.idle == pool.idle || pool'.idle == [])
    requires HasClient(pc') ==> HasClient(pcs[i]) && pc'.client == pcs[i].client
    ensures Exclusive(pool', pcs[i := pc'])
  {
  }

  lemma ExclusiveTake(pool: Pool, pcs: seq<Pc>, i: nat)
    requires Exclusive(pool, pcs) && i < |pcs| && pcs[i].TakeClient?
    ensures Exclusive(Touch(pool, TakeClient), pcs[i := Calling(Pick(pool))])
  {
  }

  lemma ExclusiveGive(pool: Pool, pcs: seq<Pc>, i: nat)
    requires Exclusive(pool, pcs) && i < |pcs| && pcs[i].GiveBack?
    ensures Exclusive(Touch(pool, pcs[i]), pcs[i := Release(pcs[i].outcome)])
  {
  }

  lemma ExclusiveAt(pool: Pool, pcs: seq<Pc>, i: nat, admitted: bool, outcome: Outcome)
    requires Exclusive(pool, pcs) && i < |pcs|
    requires Next(pool, pcs[i], admitted, outcome).Some?
    ensures Exclusive(Touch(pool, pcs[i]), pcs[i := Next(pool, pcs[i], admitted, outcome).value])
  {
    hide Exclusive;
    if pcs[i].TakeClient? {
      ExclusiveTake(pool, pcs, i);
    } else if pcs[i].GiveBack? {
      ExclusiveGive(pool, pcs, i);
    } else {
      ExclusiveQuiet(pool, Touch(pool, pcs[i]), pcs, i, Next(pool, pcs[i], admitted, outcome).value);
    }
  }

  /** The diary of a task at `pc`: it passed the breaker exactly if it was admitted, it ends with the outcome
      its own client call had, and it has recorded that outcome once, when it is past its report. */
  function DiaryOf(pc: Pc): Diary {
    match pc
    case Done(Rejected) => Diary(Some(false), None, [])
    case CountTotal | CountActive | Acquire | UncountRefused | TakeClient => Diary(Some(true), None, [])
    case Calling(_) | Done(Refused) => Diary(Some(true), None, [])
    case GiveBack(_, o) => Diary(Some(true), Some(o), [])
    case Release(o) => Diary(Some(true), Some(o), [])
    case Uncount(o) => Diary(Some(true), Some(o), [])
    case Report(o) => Diary(Some(true), Some(o), [])
    case CountTimeout => Diary(Some(true), Some(TimedOut), [false])
    case CountOutcome(o) => Diary(Some(true), Some(o), [o.Response?])
    case Done(Finished(o)) => Diary(Some(true), Some(o), [o.Response?])
    case _ => BLANK
  }

  predicate Diaries(diaries: seq<Diary>, pcs: seq<Pc>) {
    |diaries| == |pcs| && forall i :: 0 <= i < |pcs| ==> diaries[i] == DiaryOf(pcs[i])
  }

  lemma DiariesAt(diaries: seq<Diary>, pool: Pool, pcs: seq<Pc>, i: nat, admitted: bool, outcome: Outcome)
    requires Diaries(diaries, pcs) && i < |pcs|
    requires Next(pool, pcs[i], admitted, outcome).Some?
    ensures Diaries(Record(diaries, i, pcs[i], admitted, outcome), pcs[i := Next(pool, pcs[i], admitted, outcome).value])
  {
    var pc' := Next(pool, pcs[i], admitted, outcome).value;
    assert DiaryOf(pc') == Note(DiaryOf(pcs[i]), pcs[i], admitted, outcome);
    hide Next, DiaryOf, Note;
  }

  // ---------- the pool's lock ----------

  /** A closing task has the pool locked, alone, and the idle clients it has closed are the first of the idle
      list. */
  predicate Locked(pool: Pool, pcs: seq<Pc>) {
    && (pool.locked <==> exists i :: 0 <= i < |pcs| && pcs[i].Draining?)
    && (forall i, k :: 0 <= i < |pcs| && 0 <= k < |pcs| && pcs[i].Draining? && pcs[k].Draining? ==> i == k)
    && (forall i :: 0 <= i < |pcs| && pcs[i].Draining? ==> pcs[i].closed <= pool.idle)
  }

  lemma LockedAt(pool: Pool, pcs: seq<Pc>, i: nat, admitted: bool, outcome: Outcome)
    requires Locked(pool, pcs) && i < |pcs|
    requires Next(pool, pcs[i], admitted, outcome).Some?
    ensures Locked(Touch(pool, pcs[i]), pcs[i := Next(pool, pcs[i], admitted, outcome).value])
  {
    var pool', pc' := Touch(pool, pcs[i]), Next(pool, pcs[i], admitted, outcome).value;
    assert pool.locked && !pcs[i].Draining? ==> pool'.idle == pool.idle && pool'.locked && !pc'.Draining?;
    assert pc'.Draining? <==> pcs[i].LockPool? || (pcs[i].Draining? && |pcs[i].closed| < |pool.idle|);
    assert pcs[i].Draining? ==> (pool'.locked <==> pc'.Draining?) && (pc'.Draining? ==> pool' == pool && pc'.closed <= pool.idle);
    assert !pool.locked && !pcs[i].LockPool? ==> !pool'.locked && !pc'.Draining?;
    assert pcs[i].LockPool? ==> !pool.locked && pool'.locked && pc' == Draining([]);
    hide Next, Touch;
    var pcs' := pcs[i := pc'];
    if pool'.locked && pc'.Draining? {
      assert pcs'[i].Draining?;
    } else if pool'.locked {
      var k :| 0 <= k < |pcs| && pcs[k].Draining?;
      assert pcs'[k].Draining?;
    }
  }

  lemma LockedPush(pool: Pool, pcs: seq<Pc>, pc: Pc)
    requires Locked(pool, pcs) && (pc.CheckShutdown? || pc.SetShutdown?)
    ensures Locked(pool, pcs + [pc])
  {
    if pool.locked {
      var k :| 0 <= k < |pcs| && pcs[k].Draining?;
      assert (pcs + [pc])[k].Draining?;
    }
  }

  predicate Inv(s: Sys) {
    && Counters(s.metrics, s.pcs)
    && Diaries(s.diaries, s.pcs)
    && Locked(s.pool, s.pcs)
    && Permits(s.limit, s.pool, s.pcs)
    && Exclusive(s.pool, s.pcs)
  }

  lemma PermitsPush(limit: nat, pool: Pool, pcs: seq<Pc>, pc: Pc)
    requires Permits(limit, pool, pcs) && (pc.CheckShutdown? || pc.SetShutdown?)
    ensures Permits(limit, pool, pcs + [pc])
  {
    hide Count;
    CountPush(pcs, pc, HoldsPermit);
    CountPush(pcs, pc, HasClient);
  }

  lemma ExclusivePush(pool: Pool, pcs: seq<Pc>, pc: Pc)
    requires Exclusive(pool, pcs) && (pc.CheckShutdown? || pc.SetShutdown?)
    ensures Exclusive(pool, pcs + [pc])
  {
  }

  lemma DiariesPush(diaries: seq<Diary>, pcs: seq<Pc>, pc: Pc)
    requires Diaries(diaries, pcs) && (pc.CheckShutdown? || pc.SetShutdown?)
    ensures Diaries(diaries + [BLANK], pcs + [pc])
  {
  }

  lemma InvPush(s: Sys, pc: Pc)
    requires Inv(s) && (pc.CheckShutdown? || pc.SetShutdown?)
    ensures Inv(s.(pcs := s.pcs + [pc], diaries := s.diaries + [BLANK]))
  {
    hide Counters, Permits, Exclusive, Diaries, Locked;
    CountersPush(s.metrics, s.pcs, pc);
    PermitsPush(s.limit, s.pool, s.pcs, pc);
    ExclusivePush(s.pool, s.pcs, pc);
    DiariesPush(s.diaries, s.pcs, pc);
    LockedPush(s.pool, s.pcs, pc);
  }

  lemma InvStep(s: Sys, i: nat, admitted: bool, outcome: Outcome)
    requires Inv(s) && i < |s.pcs| && Step(s, i, admitted, outcome).Some?
    ensures Inv(Step(s, i, admitted, outcome).value)
  {
    hide Counters, Diaries, Locked, Permits, Exclusive, Next, Touch, Book, Record, GaugesMoved, OutcomesMoved, ReportsMoved;
    BookGauges(s.metrics, s.pool, s.pcs[i], admitted, outcome);
    BookOutcomes(s.metrics, s.pool, s.pcs[i], admitted, outcome);
    BookReports(s.metrics, s.pool, s.pcs[i], admitted, outcome);
    CountersAt(s.metrics, Book(s.metrics, s.pcs[i]), s.pcs, i, Next(s.pool, s.pcs[i], admitted, outcome).value);
    PermitsAt(s.limit, s.pool, s.pcs, i, admitted, outcome);
    ExclusiveAt(s.pool, s.pcs, i, admitted, outcome);
    DiariesAt(s.diaries, s.pool, s.pcs, i, admitted, outcome);
    LockedAt(s.pool, s.pcs, i, admitted, outcome);
  }

  lemma {:induction false} RunInv(limit: nat, ms: seq<Move>)
    requires Play(limit, ms).Some?
    ensures Play(limit, ms).value.limit == limit && Inv(Play(limit, ms).value)
  {
    if ms != [] {
      RunInv(limit, Front(ms));
      hide Inv, Step;
      var s := Play(limit, Front(ms)).value;
      match Last(ms)
      case Call => InvPush(s, CheckShutdown);
      case Close => InvPush(s, SetShutdown);
      case Advance(i, admitted, outcome) =>
        InvStep(s, i, admitted, outcome);
        LimitFixed(s, i, admitted, outcome);
    }
  }

  lemma LimitFixed(s: Sys, i: nat, admitted: bool, outcome: Outcome)
    requires i < |s.pcs| && Step(s, i, admitted, outcome).Some?
    ensures Step(s, i, admitted, outcome).value.limit == s.limit
  {
  }

  // ---------- the laws ----------

  /** Idle and checked-out clients together never exceed the concurrency limit, permits are never
      lost, and no client serves two calls. */
  lemma ClientsBounded(limit: nat, ms: seq<Move>)
    requires Play(limit, ms).Some?
    ensures var s := Play(limit, ms).value;
            && |s.pool.idle| + Count(s.pcs, HasClient) <= limit
            && s.pool.permits + Count(s.pcs, HoldsPermit) == limit
            && Exclusive(s.pool, s.pcs)
  {
    RunInv(limit, ms);
  }

  function One(b: bool): nat {
    if b then 1 else 0
  }

  lemma OnePlace(pc: Pc)
    ensures One(WasCounted(pc)) ==
            One(HasSucceeded(pc)) + One(HasFailed(pc)) + One(IsActive(pc))
            + One(IsRefused(pc)) + One(IsSettling(pc)) + One(IsCountingIn(pc))
    ensures One(WasReportedSuccess(pc)) == One(HasSucceeded(pc)) + One(IsReportedSuccess(pc))
    ensures One(WasReportedFailure(pc)) == One(HasFailed(pc)) + One(IsReportedFailure(pc))
    ensures One(HasFailed(pc)) == One(HasErred(pc)) + One(HasTimedOut(pc))
    ensures One(HasCountedTimeout(pc)) == One(HasTimedOut(pc)) + One(IsTimeoutOnly(pc))
  {
    if pc.Done? && pc.end.Finished? {
      assert pc.end.outcome.Response? || pc.end.outcome.Failure? || pc.end.outcome.TimedOut?;
    }
  }

  lemma {:induction false} TotalSplits(pcs: seq<Pc>)
    ensures Count(pcs, WasCounted) ==
            Count(pcs, HasSucceeded) + Count(pcs, HasFailed) + Count(pcs, IsActive)
            + Count(pcs, IsRefused) + Count(pcs, IsSettling) + Count(pcs, IsCountingIn)
    ensures Count(pcs, WasReportedSuccess) == Count(pcs, HasSucceeded) + Count(pcs, IsReportedSuccess)
    ensures Count(pcs, WasReportedFailure) == Count(pcs, HasFailed) + Count(pcs, IsReportedFailure)
    ensures Count(pcs, HasFailed) == Count(pcs, HasErred) + Count(pcs, HasTimedOut)
    ensures Count(pcs, HasCountedTimeout) == Count(pcs, HasTimedOut) + Count(pcs, IsTimeoutOnly)
  {
    hide WasCounted, HasSucceeded, HasFailed, IsActive, IsRefused, IsSettling, IsCountingIn;
    hide WasReportedSuccess, WasReportedFailure, IsReportedSuccess, IsReportedFailure, HasErred, HasTimedOut, HasCountedTimeout, IsTimeoutOnly;
    if pcs != [] {
      TotalSplits(pcs[1..]);
      OnePlace(pcs[0]);
    }
  }

  /** Every request counted is successful, failed, active, refused a permit, or a task between two
      of its own counter accesses. */
  lemma RequestsConserved(limit: nat, ms: seq<Move>)
    requires Play(limit, ms).Some?
    ensures var s := Play(limit, ms).value;
            s.metrics.total == s.metrics.succeeded + s.metrics.failed + s.metrics.active + Count(s.pcs, IsRefused)
                       + Count(s.pcs, IsSettling) + Count(s.pcs, IsCountingIn)
  {
    RunInv(limit, ms);
    TotalSplits(Play(limit, ms).value.pcs);
  }

  /** Each call that gets a permit and finishes records its own outcome in the breaker, exactly once, and
      no other task records anything. So the successes recorded are those counted and those about to
      be, and likewise the failures. */
  lemma OneReportEach(limit: nat, ms: seq<Move>)
    requires Play(limit, ms).Some?
    ensures var s := Play(limit, ms).value;
            && |s.diaries| == |s.pcs|
            && (forall i :: 0 <= i < |s.pcs| ==> s.diaries[i] == DiaryOf(s.pcs[i]))
            && s.metrics.successReports == s.metrics.succeeded + Count(s.pcs, IsReportedSuccess)
            && s.metrics.failureReports == s.metrics.failed + Count(s.pcs, IsReportedFailure)
  {
    RunInv(limit, ms);
    TotalSplits(Play(limit, ms).value.pcs);
  }

  /** Timeouts are counted before the failure they are part of, so they exceed the failures at most by
      the calls caught between the two counts. */
  lemma TimeoutsNearFailures(limit: nat, ms: seq<Move>)
    requires Play(limit, ms).Some?
    ensures var s := Play(limit, ms).value;
            s.metrics.timeouts <= s.metrics.failed + Count(s.pcs, IsTimeoutOnly)
  {
    RunInv(limit, ms);
    TotalSplits(Play(limit, ms).value.pcs);
  }

  /** At any moment the timeouts are within the failures exactly while the calls caught between the two
      counts do not outnumber the plain failures. */
  lemma TimeoutsAgainstFailures(limit: nat, ms: seq<Move>)
    requires Play(limit, ms).Some?
    ensures var s := Play(limit, ms).value;
            s.metrics.timeouts <= s.metrics.failed <==> Count(s.pcs, IsTimeoutOnly) <= Count(s.pcs, HasErred)
  {
    RunInv(limit, ms);
    TotalSplits(Play(limit, ms).value.pcs);
  }

  predicate NeverGranted(pc: Pc) {
    !HoldsPermit(pc) && !pc.Uncount? && !IsSettling(pc) && !IsFinished(pc)
  }

  lemma StaysUngranted(pool: Pool, pc: Pc, admitted: bool, outcome: Outcome)
    requires pool.permits <= 0 && NeverGranted(pc) && Next(pool, pc, admitted, outcome).Some?
    ensures NeverGranted(Next(pool, pc, admitted, outcome).value)
  {
  }

  lemma UngrantedStep(s: Sys, i: nat, admitted: bool, outcome: Outcome)
    requires s.pool.permits <= 0 && i < |s.pcs| && Step(s, i, admitted, outcome).Some?
    requires forall k :: 0 <= k < |s.pcs| ==> NeverGranted(s.pcs[k])
    ensures var s' := Step(s, i, admitted, outcome).value;
            forall k :: 0 <= k < |s'.pcs| ==> NeverGranted(s'.pcs[k])
  {
    StaysUngranted(s.pool, s.pcs[i], admitted, outcome);
    hide NeverGranted, Next, Touch, Book, Record;
  }

  lemma {:induction false} NoPermitNoTimeout(ms: seq<Move>)
    requires Play(0, ms).Some?
    ensures var s := Play(0, ms).value;
            forall i :: 0 <= i < |s.pcs| ==> NeverGranted(s.pcs[i])
  {
    if ms != [] {
      NoPermitNoTimeout(Front(ms));
      RunInv(0, Front(ms));
      var s := Play(0, Front(ms)).value;
      assert s.pool.permits <= 0 by {
        hide Counters, Diaries, Locked, Exclusive;
      }
      hide Inv, Step;
      match Last(ms)
      case Advance(i, admitted, outcome) => UngrantedStep(s, i, admitted, outcome);
      case _ =>
    }
  }

  lemma Go(limit: nat, s: Sys, ms: seq<Move>, m: Move) returns (s': Sys, ms': seq<Move>)
    requires Play(limit, ms) == Some(s) && Apply(s, m).Some?
    ensures Play(limit, ms') == Some(s') && Some(s') == Apply(s, m)
  {
    ms' := ms + [m];
    assert Front(ms') == ms && Last(ms') == m;
    s' := Apply(s, m).value;
  }

  lemma CallHoldsPermit(limit: nat) returns (s: Sys, ms: seq<Move>)
    requires limit > 0
    ensures Play(limit, ms) == Some(s)
    ensures s == Sys(limit, Pool(false, false, limit - 1, [], 0, false), NO_METRICS.(total := 1, active := 1),
                     [TakeClient], [Diary(Some(true), None, [])])
  {
    s, ms := Go(limit, Start(limit), [], Call);
    hide Play;
    s, ms := Go(limit, s, ms, Advance(0, true, TimedOut));
    s, ms := Go(limit, s, ms, Advance(0, true, TimedOut));
    assert s.pcs == [CountTotal];
    s, ms := Go(limit, s, ms, Advance(0, true, TimedOut));
    s, ms := Go(limit, s, ms, Advance(0, true, TimedOut));
    assert s.pcs == [Acquire];
    s, ms := Go(limit, s, ms, Advance(0, true, TimedOut));
  }

  lemma CallTimedOut(limit: nat) returns (s: Sys, ms: seq<Move>)
    requires limit > 0
    ensures Play(limit, ms) == Some(s)
    ensures s == Sys(limit, Pool(false, false, limit - 1, [], 1, false), NO_METRICS.(total := 1, active := 1),
                     [GiveBack(0, TimedOut)], [Diary(Some(true), Some(TimedOut), [])])
  {
    s, ms := CallHoldsPermit(limit);
    hide Play;
    s, ms := Go(limit, s, ms, Advance(0, true, TimedOut));
    assert s.pcs == [Calling(0)];
    s, ms := Go(limit, s, ms, Advance(0, true, TimedOut));
  }

  lemma CallReleased(limit: nat) returns (s: Sys, ms: seq<Move>)
    requires limit > 0
    ensures Play(limit, ms) == Some(s)
    ensures s == Sys(limit, Pool(false, false, limit, [0], 1, false), NO_METRICS.(total := 1),
                     [Report(TimedOut)], [Diary(Some(true), Some(TimedOut), [])])
  {
    s, ms := CallTimedOut(limit);
    hide Play;
    s, ms := Go(limit, s, ms, Advance(0, true, TimedOut));
    s, ms := Go(limit, s, ms, Advance(0, true, TimedOut));
    assert s.pcs == [Uncount(TimedOut)];
    s, ms := Go(limit, s, ms, Advance(0, true, TimedOut));
  }

  /** There is a moment at which the metrics show a timeout and no failure. */
  lemma TimeoutBeforeFailure(limit: nat) returns (s: Sys, ms: seq<Move>)
    requires limit > 0
    ensures Play(limit, ms) == Some(s) && s.metrics.timeouts == 1 && s.metrics.failed == 0
  {
    s, ms := CallReleased(limit);
    hide Play;
    s, ms := Go(limit, s, ms, Advance(0, true, TimedOut));
    assert s.pcs == [CountTimeout];
    s, ms := Go(limit, s, ms, Advance(0, true, TimedOut));
  }

  /** The metrics never show more timeouts than failures exactly in a pool that lets no call through. */
  lemma TimeoutsWithinFailuresIffNoPermits(limit: nat)
    ensures (forall ms :: Play(limit, ms).Some? ==>
                            Play(limit, ms).value.metrics.timeouts <= Play(limit, ms).value.metrics.failed)
            <==> limit == 0
  {
    if limit == 0 {
      forall ms | Play(limit, ms).Some?
        ensures Play(limit, ms).value.metrics.timeouts <= Play(limit, ms).value.metrics.failed
      {
        TimeoutsNearFailures(limit, ms);
        NoPermitNoTimeout(ms);
        CountZero(Play(limit, ms).value.pcs, IsTimeoutOnly);
      }
    } else {
      var s, ms := TimeoutBeforeFailure(limit);
      assert Play(limit, ms).value.metrics.timeouts > Play(limit, ms).value.metrics.failed;
    }
  }

  predicate AtRest(pc: Pc) {
    pc.Done? || pc.Closed?
  }

  lemma NobodyBetween(pcs: seq<Pc>)
    requires forall i :: 0 <= i < |pcs| ==> AtRest(pcs[i])
    ensures Count(pcs, IsActive) == Count(pcs, IsSettling) == Count(pcs, IsCountingIn) == 0
    ensures Count(pcs, IsReportedSuccess) == Count(pcs, IsReportedFailure) == 0
    ensures Count(pcs, IsTimeoutOnly) == Count(pcs, HoldsPermit) == 0
  {
    hide Count;
    CountZero(pcs, IsActive);
    CountZero(pcs, IsSettling);
    CountZero(pcs, IsCountingIn);
    CountZero(pcs, IsReportedSuccess);
    CountZero(pcs, IsReportedFailure);
    CountZero(pcs, IsTimeoutOnly);
    CountZero(pcs, HoldsPermit);
  }

  /** When every call has ended, the books balance: nothing is active, every permit is back, and each
      counted request succeeded, failed or was refused. */
  lemma BooksBalanceAtRest(limit: nat, ms: seq<Move>)
    requires Play(limit, ms).Some?
    requires forall i :: 0 <= i < |Play(limit, ms).value.pcs| ==> AtRest(Play(limit, ms).value.pcs[i])
    ensures var s := Play(limit, ms).value;
            && s.metrics.active == 0 && s.pool.permits == limit
            && s.metrics.total == s.metrics.succeeded + s.metrics.failed + Count(s.pcs, IsRefused)
            && s.metrics.successReports == s.metrics.succeeded && s.metrics.failureReports == s.metrics.failed
            && s.metrics.timeouts <= s.metrics.failed
  {
    var pcs := Play(limit, ms).value.pcs;
    RunInv(limit, ms);
    TotalSplits(pcs);
    NobodyBetween(pcs);
    hide AtRest, Count, Exclusive;
  }
}
