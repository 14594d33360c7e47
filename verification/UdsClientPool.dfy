/** The bounded client pool: calls, batch elements and `close` as tasks whose steps interleave, with
    the reservation counter kept outside the pool's lock. */
module UdsClientPool {
  import opened Wrappers
  import opened Counting
  import opened Sequences

  type Client = nat

  /** Values of the machine's counter type. */
  const WORD: int := 0x1_0000_0000_0000_0000

  /** How a call came by its client. */
  datatype Origin = Reused | Reserved | Unreserved(batch: bool)

  /** Named after the access the task does next. `batch` marks an element of a batch, which does not
      retry; `kept` is whether the call's result let its client be pooled. */
  datatype Pc =
    | Acquire(batch: bool)
    | Pop(batch: bool)
    | Reserve(batch: bool)
    | Unreserve(batch: bool)
    | Retry(left: nat)
    | Calling(client: Client, origin: Origin)
    | PutBack(client: Client)
    | Release(kept: bool)
    | Done(kept: bool)
    | CloseLock
    | Draining(closed: seq<Client>)
    | CloseStore
    | Closed

  /** The shared resources; `reservations` is the shared counter, `made` numbers the clients. */
  datatype Pool = Pool(permits: int, idle: seq<Client>, made: nat, locked: bool, reservations: int)

  /** What has happened: reservations given out, those given out since `close` last reset the counter (the
      current epoch), and the tasks that reset found between their increment and its undo; and the clients
      put back, found one too many, taken from the idle list, and closed on it. */
  datatype Tally = Tally(
    granted: nat,
    epoch: nat,
    stranded: nat,
    pooled: nat,
    thrown: nat,
    reused: nat,
    cleared: nat)

  /** How often one call found the idle list empty, and what it was told about keeping its client. */
  datatype Diary = Diary(misses: nat, told: Option<bool>)

  const BLANK := Diary(0, None)

  datatype Sys = Sys(limit: nat, poolSize: nat, pool: Pool, tally: Tally, pcs: seq<Pc>, diaries: seq<Diary>)

  /** `keep` is whether the call's result lets its client be pooled. */
  datatype Move = Call(batch: bool) | Close | Advance(task: nat, keep: bool)

  function Start(limit: nat, poolSize: nat): Sys {
    Sys(limit, poolSize, Pool(limit, [], 0, false, 0), Tally(0, 0, 0, 0, 0, 0, 0), [], [])
  }

  /** What a load of the counter yields. */
  function Wrapped(counter: int): int {
    counter % WORD
  }

  predicate Grants(pool: Pool, poolSize: nat) {
    Wrapped(pool.reservations) < poolSize
  }

  /** The task looks for an idle client. */
  predicate Looks(pc: Pc) {
    pc.Pop? || (pc.Retry? && pc.left > 0)
  }

  /** The task makes a client of its own. */
  predicate Makes(pool: Pool, poolSize: nat, pc: Pc) {
    (pc.Reserve? && Grants(pool, poolSize)) || (pc.Unreserve? && pc.batch) || (pc.Retry? && pc.left == 0)
  }

  function Next(pool: Pool, poolSize: nat, pc: Pc, keep: bool): Option<Pc> {
    match pc
    case Acquire(batch) => if pool.permits > 0 then Some(Pop(batch)) else None
    case Pop(batch) =>
      if pool.locked then None else if pool.idle != [] then Some(Calling(Last(pool.idle), Reused)) else Some(Reserve(batch))
    case Reserve(batch) => Some(if Grants(pool, poolSize) then Calling(pool.made, Reserved) else Unreserve(batch))
    case Unreserve(batch) => Some(if batch then Calling(pool.made, Unreserved(true)) else Retry(3))
    case Retry(left) =>
      if left == 0 then Some(Calling(pool.made, Unreserved(false)))
      else if pool.locked then None
      else Some(if pool.idle != [] then Calling(Last(pool.idle), Reused) else Retry(left - 1))
    case Calling(client, _) => Some(if keep then PutBack(client) else Release(false))
    case PutBack(_) => if pool.locked then None else Some(Release(true))
    case Release(kept) => Some(Done(kept))
    case CloseLock => if pool.locked then None else Some(Draining([]))
    case Draining(closed) =>
      Some(if |closed| < |pool.idle| then Draining(closed + [pool.idle[|closed|]]) else CloseStore)
    case CloseStore => Some(Closed)
    case Done(_) | Closed => None
  }

  function Touch(pool: Pool, poolSize: nat, pc: Pc): Pool {
    match pc
    case Acquire(_) => pool.(permits := pool.permits - 1)
    case Pop(_) => if pool.idle != [] then pool.(idle := Front(pool.idle)) else pool
    case Reserve(_) =>
      pool.(reservations := pool.reservations + 1, made := pool.made + if Grants(pool, poolSize) then 1 else 0)
    case Unreserve(batch) =>
      pool.(reservations := pool.reservations - 1, made := pool.made + if batch then 1 else 0)
    case Retry(left) =>
      if left == 0 then pool.(made := pool.made + 1)
      else if pool.idle != [] then pool.(idle := Front(pool.idle)) else pool
    case PutBack(client) => if |pool.idle| < poolSize then pool.(idle := pool.idle + [client]) else pool
    case Release(_) => pool.(permits := pool.permits + 1)
    case CloseLock => pool.(locked := true)
    case Draining(closed) => if |closed| < |pool.idle| then pool else pool.(idle := [])
    case CloseStore => pool.(reservations := 0, locked := false)
    case _ => pool
  }

  function Book(t: Tally, s: Sys, pc: Pc): Tally {
    match pc
    case Reserve(_) =>
      if Grants(s.pool, s.poolSize) then t.(granted := t.granted + 1, epoch := t.epoch + 1) else t
    case PutBack(_) =>
      if |s.pool.idle| < s.poolSize then t.(pooled := t.pooled + 1) else t.(thrown := t.thrown + 1)
    case Draining(closed) => if |closed| < |s.pool.idle| then t else t.(cleared := t.cleared + |s.pool.idle|)
    case CloseStore => t.(epoch := 0, stranded := Count(s.pcs, IsUnreserving))
    case _ => if Looks(pc) && s.pool.idle != [] then t.(reused := t.reused + 1) else t
  }

  function Note(d: Diary, pool: Pool, pc: Pc, keep: bool): Diary {
    if Looks(pc) && pool.idle == [] then d.(misses := d.misses + 1)
    else if pc.Calling? then d.(told := Some(keep))
    else d
  }

  function Record(diaries: seq<Diary>, i: nat, pool: Pool, pc: Pc, keep: bool): seq<Diary> {
    if i < |diaries| then diaries[i := Note(diaries[i], pool, pc, keep)] else diaries
  }

  function Step(s: Sys, i: nat, keep: bool): Option<Sys>
    requires i < |s.pcs|
  {
    match Next(s.pool, s.poolSize, s.pcs[i], keep)
    case None => None
    case Some(pc') =>
      Some(Sys(s.limit, s.poolSize, Touch(s.pool, s.poolSize, s.pcs[i]), Book(s.tally, s, s.pcs[i]),
               s.pcs[i := pc'], Record(s.diaries, i, s.pool, s.pcs[i], keep)))
  }

  function Apply(s: Sys, m: Move): Option<Sys> {
    match m
    case Call(batch) => Some(s.(pcs := s.pcs + [Acquire(batch)], diaries := s.diaries + [BLANK]))
    case Close => Some(s.(pcs := s.pcs + [CloseLock], diaries := s.diaries + [BLANK]))
    case Advance(i, keep) => if i < |s.pcs| then Step(s, i, keep) else None
  }

  function Play(limit: nat, poolSize: nat, ms: seq<Move>): Option<Sys> {
    if ms == [] then Some(Start(limit, poolSize))
    else
      match Play(limit, poolSize, Front(ms))
      case Some(s) => Apply(s, Last(ms))
      case None => None
  }

  /** The closes started in a run. */
  function Closes(ms: seq<Move>): nat {
    if ms == [] then 0 else Closes(Front(ms)) + if Last(ms).Close? then 1 else 0
  }

  // ---------- who is where ----------

  predicate HasClient(pc: Pc) { pc.Calling? || pc.PutBack? }

  predicate HoldsPermit(pc: Pc) {
    pc.Pop? || pc.Reserve? || pc.Unreserve? || pc.Retry? || HasClient(pc) || pc.Release?
  }

  /** Has counted itself in without a grant and not yet counted itself out. */
  predicate IsUnreserving(pc: Pc) { pc.Unreserve? }

  predicate HasLock(pc: Pc) { pc.Draining? || pc.CloseStore? }
  predicate IsClosing(pc: Pc) { pc.CloseLock? || HasLock(pc) }

  /** Has or had a client. */
  predicate GotClient(pc: Pc) { HasClient(pc) || pc.Release? || pc.Done? }

  /** Is past putting its client back. */
  predicate WasKept(pc: Pc) { (pc.Release? || pc.Done?) && pc.kept }

  // ---------- permits and reservations ----------

  /** Kept by every run. */
  predicate Bounds(s: Sys) {
    && s.pool.permits + Count(s.pcs, HoldsPermit) == s.limit
    && 0 <= s.pool.permits
    && |s.pool.idle| <= s.poolSize
    && s.tally.stranded <= s.limit && s.tally.stranded <= |s.pcs|
  }

  /** The counter is the grants of the current epoch plus the tasks about to undo their increment, less
      those whose increment the reset wiped out. */
  predicate Law(s: Sys) {
    s.pool.reservations == s.tally.epoch + Count(s.pcs, IsUnreserving) - s.tally.stranded
  }

  predicate Unclosed(s: Sys) {
    Count(s.pcs, IsClosing) == 0 && s.tally.epoch == s.tally.granted && s.tally.stranded == 0
  }

  lemma BoundsStep(s: Sys, i: nat, keep: bool)
    requires Bounds(s) && i < |s.pcs| && Step(s, i, keep).Some?
    ensures Bounds(Step(s, i, keep).value)
  {
    CountWeaker(s.pcs, IsUnreserving, HoldsPermit);
    hide Count, Record, Wrapped;
    CountUpdate(s.pcs, i, Next(s.pool, s.poolSize, s.pcs[i], keep).value, HoldsPermit);
  }

  lemma LawStep(s: Sys, i: nat, keep: bool)
    requires Law(s) && i < |s.pcs| && Step(s, i, keep).Some?
    ensures Law(Step(s, i, keep).value)
  {
    hide Count, Record, Wrapped;
    CountUpdate(s.pcs, i, Next(s.pool, s.poolSize, s.pcs[i], keep).value, IsUnreserving);
  }

  lemma UnclosedStep(s: Sys, i: nat, keep: bool)
    requires Unclosed(s) && i < |s.pcs| && Step(s, i, keep).Some?
    ensures Unclosed(Step(s, i, keep).value)
  {
    hide Count, Record, Wrapped;
    CountZero(s.pcs, IsClosing);
    CountUpdate(s.pcs, i, Next(s.pool, s.poolSize, s.pcs[i], keep).value, IsClosing);
  }

  predicate EpochBounded(s: Sys) {
    |s.pcs| + s.poolSize < WORD ==> s.tally.epoch <= s.poolSize + s.tally.stranded
  }

  lemma EpochStep(s: Sys, i: nat, keep: bool)
    requires Bounds(s) && Law(s) && EpochBounded(s) && i < |s.pcs| && Step(s, i, keep).Some?
    ensures EpochBounded(Step(s, i, keep).value)
  {
    hide Record, Next, Touch, Count;
    if |s.pcs| + s.poolSize < WORD && s.pcs[i].Reserve? && Grants(s.pool, s.poolSize) {
      WrappedBelowZero(s.pool.reservations);
    }
  }

  lemma WrappedBelowZero(n: int)
    ensures -WORD <= n < WORD ==> Wrapped(n) == if n < 0 then n + WORD else n
  {
  }

  // ---------- clients ----------

  /** Every client is idle once or held by one call, never both. */
  predicate Exclusive(pool: Pool, pcs: seq<Pc>) {
    && (forall j :: 0 <= j < |pool.idle| ==> pool.idle[j] < pool.made)
    && (forall i :: 0 <= i < |pcs| && HasClient(pcs[i]) ==> pcs[i].client < pool.made)
    && (forall j, k :: 0 <= j < k < |pool.idle| ==> pool.idle[j] != pool.idle[k])
    && (forall i, j :: 0 <= i < |pcs| && HasClient(pcs[i]) && 0 <= j < |pool.idle| ==> pcs[i].client != pool.idle[j])
    && (forall i, k :: 0 <= i < k < |pcs| && HasClient(pcs[i]) && HasClient(pcs[k]) ==> pcs[i].client != pcs[k].client)
  }

  lemma ExclusiveQuiet(pool: Pool, pool': Pool, pcs: seq<Pc>, i: nat, pc': Pc)
    requires Exclusive(pool, pcs) && i < |pcs|
    requires pool'.made == pool.made && (pool'.idle == pool.idle || pool'.idle == [])
    requires HasClient(pc') ==> HasClient(pcs[i]) && pc'.client == pcs[i].client
    ensures Exclusive(pool', pcs[i := pc'])
  {
  }

  lemma ExclusiveTake(pool: Pool, pool': Pool, pcs: seq<Pc>, i: nat, pc': Pc)
    requires Exclusive(pool, pcs) && i < |pcs| && HasClient(pc') && pool.idle != []
    requires pool'.made == pool.made && pool'.idle == Front(pool.idle) && pc'.client == Last(pool.idle)
    ensures Exclusive(pool', pcs[i := pc'])
  {
  }

  lemma ExclusiveMake(pool: Pool, pool': Pool, pcs: seq<Pc>, i: nat, pc': Pc)
    requires Exclusive(pool, pcs) && i < |pcs| && HasClient(pc')
    requires pool'.made == pool.made + 1 && pool'.idle == pool.idle && pc'.client == pool.made
    ensures Exclusive(pool', pcs[i := pc'])
  {
  }

  lemma ExclusiveGive(pool: Pool, pool': Pool, pcs: seq<Pc>, i: nat, pc': Pc)
    requires Exclusive(pool, pcs) && i < |pcs| && HasClient(pcs[i]) && !HasClient(pc')
    requires pool'.made == pool.made && pool'.idle == pool.idle + [pcs[i].client]
    ensures Exclusive(pool', pcs[i := pc'])
  {
  }

  /** The four things a step can do with clients. */
  lemma ClientSteps(pool: Pool, poolSize: nat, pc: Pc, keep: bool)
    requires Next(pool, poolSize, pc, keep).Some?
    ensures var pool', pc' := Touch(pool, poolSize, pc), Next(pool, poolSize, pc, keep).value;
            if Looks(pc) && pool.idle != [] then
              HasClient(pc') && pool'.made == pool.made && pool'.idle == Front(pool.idle) && pc'.client == Last(pool.idle)
            else if Makes(pool, poolSize, pc) then
              HasClient(pc') && pool'.made == pool.made + 1 && pool'.idle == pool.idle && pc'.client == pool.made
            else if pc.PutBack? && |pool.idle| < poolSize then
              !HasClient(pc') && pool'.made == pool.made && pool'.idle == pool.idle + [pc.client]
            else
              && pool'.made == pool.made
              && (pool'.idle == pool.idle || (pc.Draining? && pool'.idle == []))
              && (HasClient(pc') ==> HasClient(pc) && pc'.client == pc.client)
  {
    hide Grants;
  }

  lemma ExclusiveStep(s: Sys, i: nat, keep: bool)
    requires Exclusive(s.pool, s.pcs) && i < |s.pcs| && Step(s, i, keep).Some?
    ensures Exclusive(Step(s, i, keep).value.pool, Step(s, i, keep).value.pcs)
  {
    var pc, pool' := s.pcs[i], Touch(s.pool, s.poolSize, s.pcs[i]);
    var pc' := Next(s.pool, s.poolSize, pc, keep).value;
    ClientSteps(s.pool, s.poolSize, pc, keep);
    hide Exclusive, Next, Touch, Book, Record, Looks, Makes;
    if Looks(pc) && s.pool.idle != [] {
      ExclusiveTake(s.pool, pool', s.pcs, i, pc');
    } else if Makes(s.pool, s.poolSize, pc) {
      ExclusiveMake(s.pool, pool', s.pcs, i, pc');
    } else if pc.PutBack? && |s.pool.idle| < s.poolSize {
      ExclusiveGive(s.pool, pool', s.pcs, i, pc');
    } else {
      ExclusiveQuiet(s.pool, pool', s.pcs, i, pc');
    }
  }

  /** Clients made or taken from the idle list are with a call or were; clients put back are idle, taken
      again, or closed; and the calls told to keep their client have put it back or found the list full. */
  predicate Population(s: Sys) {
    && s.pool.made + s.tally.reused == Count(s.pcs, GotClient)
    && |s.pool.idle| + s.tally.reused + s.tally.cleared == s.tally.pooled
    && s.tally.pooled + s.tally.thrown == Count(s.pcs, WasKept)
  }

  /** What a step does to the figures of `Population`. */
  lemma PopulationMoves(s: Sys, i: nat, keep: bool)
    requires i < |s.pcs| && Step(s, i, keep).Some?
    ensures var s' := Step(s, i, keep).value;
            var pc, pc' := s.pcs[i], s'.pcs[i];
            && s'.pool.made + s'.tally.reused - s.pool.made - s.tally.reused ==
               (if GotClient(pc') then 1 else 0) - (if GotClient(pc) then 1 else 0)
            && |s'.pool.idle| + s'.tally.reused + s'.tally.cleared - s'.tally.pooled ==
               |s.pool.idle| + s.tally.reused + s.tally.cleared - s.tally.pooled
  {
    hide Count, Record, Wrapped, WasKept;
  }

  lemma KeptMoves(s: Sys, i: nat, keep: bool)
    requires i < |s.pcs| && Step(s, i, keep).Some?
    ensures var s' := Step(s, i, keep).value;
            s'.tally.pooled + s'.tally.thrown - s.tally.pooled - s.tally.thrown ==
            (if WasKept(s'.pcs[i]) then 1 else 0) - (if WasKept(s.pcs[i]) then 1 else 0)
  {
    hide Count, Record, Wrapped, Touch, Grants;
  }

  lemma PopulationStep(s: Sys, i: nat, keep: bool)
    requires Population(s) && i < |s.pcs| && Step(s, i, keep).Some?
    ensures Population(Step(s, i, keep).value)
  {
    PopulationMoves(s, i, keep);
    KeptMoves(s, i, keep);
    var s' := Step(s, i, keep).value;
    assert s'.pcs == s.pcs[i := s'.pcs[i]];
    hide Step, Count, GotClient, WasKept;
    CountUpdate(s.pcs, i, s'.pcs[i], GotClient);
    CountUpdate(s.pcs, i, s'.pcs[i], WasKept);
  }

  // ---------- the pool's lock, and each call's diary ----------

  /** A closing task has the pool locked, alone, and the idle clients it has closed are the first of the idle
      list. */
  predicate Locked(pool: Pool, pcs: seq<Pc>) {
    && (pool.locked <==> exists i :: 0 <= i < |pcs| && HasLock(pcs[i]))
    && (forall i, k :: 0 <= i < |pcs| && 0 <= k < |pcs| && HasLock(pcs[i]) && HasLock(pcs[k]) ==> i == k)
    && (forall i :: 0 <= i < |pcs| && pcs[i].Draining? ==> pcs[i].closed <= pool.idle)
    && (forall i :: 0 <= i < |pcs| && pcs[i].CloseStore? ==> pool.idle == [])
  }

  /** What a step does to the lock. */
  lemma LockMoves(pool: Pool, poolSize: nat, pc: Pc, keep: bool)
    requires Next(pool, poolSize, pc, keep).Some?
    requires pc.Draining? ==> pc.closed <= pool.idle
    ensures var pool', pc' := Touch(pool, poolSize, pc), Next(pool, poolSize, pc, keep).value;
            && (pool.locked && !HasLock(pc) ==> pool'.locked && pool'.idle == pool.idle && !HasLock(pc'))
            && (!pool.locked && !HasLock(pc) ==> (pool'.locked <==> HasLock(pc')))
            && (HasLock(pc) ==> (HasLock(pc') <==> !pc.CloseStore?) && (pc.CloseStore? ==> !pool'.locked))
            && (HasLock(pc') ==> HasLock(pc) || (!pool.locked && pool'.locked && pc' == Draining([])))
            && (HasLock(pc) && HasLock(pc') ==> pool'.locked == pool.locked)
            && (pc'.Draining? ==> pool'.idle == pool.idle && pc'.closed <= pool.idle)
            && (pc'.CloseStore? ==> pool'.idle == [])
  {
    hide Wrapped;
  }

  lemma LockedStep(s: Sys, i: nat, keep: bool)
    requires Locked(s.pool, s.pcs) && i < |s.pcs| && Step(s, i, keep).Some?
    ensures Locked(Step(s, i, keep).value.pool, Step(s, i, keep).value.pcs)
  {
    LockMoves(s.pool, s.poolSize, s.pcs[i], keep);
    var pool', pcs' := Step(s, i, keep).value.pool, Step(s, i, keep).value.pcs;
    assert pool' == Touch(s.pool, s.poolSize, s.pcs[i]);
    assert pcs' == s.pcs[i := Next(s.pool, s.poolSize, s.pcs[i], keep).value];
    hide Next, Touch, Step;
    if pool'.locked && HasLock(pcs'[i]) {
    } else if pool'.locked {
      var k :| 0 <= k < |s.pcs| && HasLock(s.pcs[k]);
      assert HasLock(pcs'[k]);
    }
  }

  /** A task at `pc` has looked in vain as often as that implies (a call gives up looking after four times), and
      goes on from its call as it was told. */
  predicate Obeys(d: Diary, pc: Pc) {
    match pc
    case Acquire(_) | Pop(_) => d == BLANK
    case Reserve(_) | Unreserve(_) => d == Diary(1, None)
    case Retry(left) => left <= 3 && d == Diary(4 - left, None)
    case Calling(_, origin) =>
      && d.told.None?
      && (origin.Reserved? || origin == Unreserved(true) ==> d.misses == 1)
      && (origin == Unreserved(false) ==> d.misses == 4)
    case PutBack(_) => d.told == Some(true)
    case Release(kept) => d.told == Some(kept)
    case Done(kept) => d.told == Some(kept)
    case _ => d == BLANK
  }

  predicate Diaries(s: Sys) {
    |s.diaries| == |s.pcs| && forall i :: 0 <= i < |s.pcs| ==> Obeys(s.diaries[i], s.pcs[i])
  }

  lemma ObeysStep(d: Diary, pool: Pool, poolSize: nat, pc: Pc, keep: bool)
    requires Obeys(d, pc) && Next(pool, poolSize, pc, keep).Some?
    ensures Obeys(Note(d, pool, pc, keep), Next(pool, poolSize, pc, keep).value)
  {
    hide Wrapped;
  }

  lemma DiariesStep(s: Sys, i: nat, keep: bool)
    requires Diaries(s) && i < |s.pcs| && Step(s, i, keep).Some?
    ensures Diaries(Step(s, i, keep).value)
  {
    ObeysStep(s.diaries[i], s.pool, s.poolSize, s.pcs[i], keep);
    hide Obeys, Note, Next, Touch, Book;
  }

  // ---------- all runs ----------

  predicate Inv(s: Sys) {
    && Bounds(s) && Law(s) && EpochBounded(s)
    && Exclusive(s.pool, s.pcs) && Population(s)
    && Locked(s.pool, s.pcs) && Diaries(s)
  }

  lemma Fixed(s: Sys, m: Move)
    requires Apply(s, m).Some?
    ensures var s' := Apply(s, m).value;
            s'.limit == s.limit && s'.poolSize == s.poolSize && |s.pcs| <= |s'.pcs|
  {
  }

  lemma CountsPush(s: Sys, s': Sys, pc: Pc)
    requires Bounds(s) && Law(s) && EpochBounded(s) && Population(s) && (pc.Acquire? || pc.CloseLock?)
    requires s' == s.(pcs := s.pcs + [pc], diaries := s.diaries + [BLANK])
    ensures Bounds(s') && Law(s') && EpochBounded(s') && Population(s')
    ensures Unclosed(s) && pc.Acquire? ==> Unclosed(s')
  {
    hide Count;
    CountPush(s.pcs, pc, HoldsPermit);
    CountPush(s.pcs, pc, IsUnreserving);
    CountPush(s.pcs, pc, IsClosing);
    CountPush(s.pcs, pc, GotClient);
    CountPush(s.pcs, pc, WasKept);
  }

  lemma ExclusivePush(pool: Pool, pcs: seq<Pc>, pc: Pc)
    requires Exclusive(pool, pcs) && (pc.Acquire? || pc.CloseLock?)
    ensures Exclusive(pool, pcs + [pc])
  {
  }

  lemma LockedPush(pool: Pool, pcs: seq<Pc>, pc: Pc)
    requires Locked(pool, pcs) && (pc.Acquire? || pc.CloseLock?)
    ensures Locked(pool, pcs + [pc])
  {
    if pool.locked {
      var k :| 0 <= k < |pcs| && HasLock(pcs[k]);
      assert HasLock((pcs + [pc])[k]);
    }
  }

  lemma PushInv(s: Sys, s': Sys, pc: Pc)
    requires Inv(s) && (pc.Acquire? || pc.CloseLock?)
    requires s' == s.(pcs := s.pcs + [pc], diaries := s.diaries + [BLANK])
    ensures Inv(s') && (Unclosed(s) && pc.Acquire? ==> Unclosed(s'))
  {
    CountsPush(s, s', pc);
    ExclusivePush(s.pool, s.pcs, pc);
    LockedPush(s.pool, s.pcs, pc);
    hide Bounds, Law, EpochBounded, Exclusive, Population, Locked, Unclosed;
  }

  lemma StepInv(s: Sys, i: nat, keep: bool)
    requires Inv(s) && i < |s.pcs| && Step(s, i, keep).Some?
    ensures Inv(Step(s, i, keep).value)
    ensures Unclosed(s) ==> Unclosed(Step(s, i, keep).value)
  {
    hide Bounds, Law, EpochBounded, Exclusive, Population, Locked, Diaries, Unclosed, Step;
    BoundsStep(s, i, keep);
    LawStep(s, i, keep);
    EpochStep(s, i, keep);
    ExclusiveStep(s, i, keep);
    PopulationStep(s, i, keep);
    LockedStep(s, i, keep);
    DiariesStep(s, i, keep);
    if Unclosed(s) {
      UnclosedStep(s, i, keep);
    }
  }

  lemma {:induction false} RunInv(limit: nat, poolSize: nat, ms: seq<Move>)
    requires Play(limit, poolSize, ms).Some?
    ensures var s := Play(limit, poolSize, ms).value;
            s.limit == limit && s.poolSize == poolSize && Inv(s) && (Closes(ms) == 0 ==> Unclosed(s))
  {
    if ms != [] {
      RunInv(limit, poolSize, Front(ms));
      var s := Play(limit, poolSize, Front(ms)).value;
      Fixed(s, Last(ms));
      hide Step, Inv, Unclosed;
      match Last(ms)
      case Call(batch) => PushInv(s, Apply(s, Last(ms)).value, Acquire(batch));
      case Close => PushInv(s, Apply(s, Last(ms)).value, CloseLock);
      case Advance(i, keep) => StepInv(s, i, keep);
    }
  }

  // ---------- the laws ----------

  /** In every run, closed or not, at most `limit` calls hold a permit and the idle list stays within
      the pool size. */
  lemma PermitsAndIdleBounded(limit: nat, poolSize: nat, ms: seq<Move>)
    requires Play(limit, poolSize, ms).Some?
    ensures var s := Play(limit, poolSize, ms).value;
            && Count(s.pcs, HoldsPermit) + s.pool.permits == limit
            && Count(s.pcs, HoldsPermit) <= limit
            && |s.pool.idle| <= poolSize
  {
    RunInv(limit, poolSize, ms);
  }

  /** Without `close`, the counter is the reservations granted plus the tasks about to undo their
      increment, and no more than `poolSize` reservations are ever granted. */
  lemma ReservationsExact(limit: nat, poolSize: nat, ms: seq<Move>)
    requires Play(limit, poolSize, ms).Some? && Closes(ms) == 0
    ensures var s := Play(limit, poolSize, ms).value;
            && s.pool.reservations == s.tally.granted + Count(s.pcs, IsUnreserving)
            && (|s.pcs| + poolSize < WORD ==> s.tally.granted <= poolSize)
  {
    RunInv(limit, poolSize, ms);
  }

  /** With any number of closes: the counter is that of the current epoch, less the tasks the last reset
      found between increment and undo. So it is exact for the epoch if and only if there were none,
      it is never further off than `limit`, and the epoch grants at most that many too many. */
  lemma ReservationsByEpoch(limit: nat, poolSize: nat, ms: seq<Move>)
    requires Play(limit, poolSize, ms).Some?
    ensures var s := Play(limit, poolSize, ms).value;
            && s.pool.reservations == s.tally.epoch + Count(s.pcs, IsUnreserving) - s.tally.stranded
            && (s.pool.reservations == s.tally.epoch + Count(s.pcs, IsUnreserving) <==> s.tally.stranded == 0)
            && s.tally.stranded <= limit
            && (|s.pcs| + poolSize < WORD ==> s.tally.epoch <= poolSize + s.tally.stranded)
  {
    RunInv(limit, poolSize, ms);
  }

  /** While the counter is below zero, which it never is by more than `limit`, it reads as a huge number
      and a task that asks for a reservation is refused. */
  lemma NoGrantBelowZero(limit: nat, poolSize: nat, ms: seq<Move>, i: nat, keep: bool)
    requires Play(limit, poolSize, ms).Some? && limit + poolSize <= WORD
    requires var s := Play(limit, poolSize, ms).value;
             s.pool.reservations < 0 && i < |s.pcs| && s.pcs[i].Reserve?
    ensures var s := Play(limit, poolSize, ms).value;
            && Wrapped(s.pool.reservations) >= WORD - limit
            && Step(s, i, keep).Some?
            && var s' := Step(s, i, keep).value;
               i < |s'.pcs| && s'.pcs[i].Unreserve? && s'.tally.granted == s.tally.granted
  {
    RunInv(limit, poolSize, ms);
    WrappedBelowZero(Play(limit, poolSize, ms).value.pool.reservations);
  }

  /** No client serves two calls, and none is lost: each is with a call, idle, closed by a close, or was thrown
      away because its call said so or the list was full. */
  lemma ClientsAccounted(limit: nat, poolSize: nat, ms: seq<Move>)
    requires Play(limit, poolSize, ms).Some?
    ensures var s := Play(limit, poolSize, ms).value;
            && Exclusive(s.pool, s.pcs)
            && s.pool.made + s.tally.reused == Count(s.pcs, GotClient)
            && |s.pool.idle| + s.tally.reused + s.tally.cleared == s.tally.pooled
            && s.tally.pooled + s.tally.thrown == Count(s.pcs, WasKept)
  {
    RunInv(limit, poolSize, ms);
  }

  /** A call keeps its client exactly as its result says, and one that makes a client without a reservation
      has looked for an idle one four times, or once as an element of a batch. */
  lemma CallsDoAsTold(limit: nat, poolSize: nat, ms: seq<Move>, i: nat)
    requires Play(limit, poolSize, ms).Some? && i < |Play(limit, poolSize, ms).value.pcs|
    ensures var s := Play(limit, poolSize, ms).value;
            && |s.diaries| == |s.pcs|
            && (s.pcs[i].PutBack? ==> s.diaries[i].told == Some(true))
            && (s.pcs[i].Done? ==> s.diaries[i].told == Some(s.pcs[i].kept))
            && (s.pcs[i].Calling? && s.pcs[i].origin.Unreserved? ==>
                  s.diaries[i].misses == if s.pcs[i].origin.batch then 1 else 4)
  {
    RunInv(limit, poolSize, ms);
    assert Obeys(Play(limit, poolSize, ms).value.diaries[i], Play(limit, poolSize, ms).value.pcs[i]);
  }

  /** A client put back while there is room is idle again, and the next call that looks takes that very
      client, without a reservation. */
  lemma ReturnedIsTakenNext(s: Sys, i: nat, j: nat, keep: bool)
    requires i < |s.pcs| && j < |s.pcs| && i != j && s.pcs[i].PutBack? && Looks(s.pcs[j]) && !s.pool.locked
    requires |s.pool.idle| < s.poolSize
    ensures Step(s, i, keep).Some?
    ensures var s1 := Step(s, i, keep).value;
            && s1.pool == s.pool.(idle := s.pool.idle + [s.pcs[i].client])
            && Step(s1, j, keep).Some?
            && var s2 := Step(s1, j, keep).value;
               && s2.pcs[j] == Calling(s.pcs[i].client, Reused)
               && s2.pool == s.pool && s2.tally.granted == s.tally.granted
  {
    hide Count, Wrapped;
    assert Front(s.pool.idle + [s.pcs[i].client]) == s.pool.idle;
  }

  /** A close closes every idle client, in order, before it empties the list and resets the counter. */
  lemma CloseClosesAllIdle(limit: nat, poolSize: nat, ms: seq<Move>, i: nat, keep: bool)
    requires Play(limit, poolSize, ms).Some? && i < |Play(limit, poolSize, ms).value.pcs|
    requires Play(limit, poolSize, ms).value.pcs[i].Draining?
    ensures Step(Play(limit, poolSize, ms).value, i, keep).Some?
    ensures var s := Play(limit, poolSize, ms).value;
            var s' := Step(s, i, keep).value;
            && s.pcs[i].closed <= s.pool.idle
            && (s'.pcs[i].CloseStore? <==> s.pcs[i].closed == s.pool.idle)
            && (s'.pcs[i].CloseStore? ==> s'.pool == s.pool.(idle := []))
            && (!s'.pcs[i].CloseStore? ==> s'.pool == s.pool)
  {
    RunInv(limit, poolSize, ms);
  }

  predicate AtRest(pc: Pc) {
    pc.Done? || pc.Closed?
  }

  lemma CanMove(pool: Pool, poolSize: nat, pc: Pc, keep: bool)
    requires !AtRest(pc) && !(pc.Acquire? && pool.permits <= 0)
    requires pool.locked ==> HasLock(pc)
    ensures Next(pool, poolSize, pc, keep).Some?
  {
  }

  /** Unless the limit is zero the pool cannot get stuck: while a task is unfinished, some task can move. */
  lemma NoDeadlock(limit: nat, poolSize: nat, ms: seq<Move>, i: nat, keep: bool) returns (j: nat)
    requires limit > 0 && Play(limit, poolSize, ms).Some? && i < |Play(limit, poolSize, ms).value.pcs|
    requires !AtRest(Play(limit, poolSize, ms).value.pcs[i])
    ensures j < |Play(limit, poolSize, ms).value.pcs| && Step(Play(limit, poolSize, ms).value, j, keep).Some?
  {
    RunInv(limit, poolSize, ms);
    var s := Play(limit, poolSize, ms).value;
    hide Law, EpochBounded, Exclusive, Population, Diaries, Next, Play, Count, Touch, Book, Record;
    if s.pool.locked {
      j :| 0 <= j < |s.pcs| && HasLock(s.pcs[j]);
    } else if s.pcs[i].Acquire? && s.pool.permits <= 0 {
      CountZero(s.pcs, HoldsPermit);
      j :| 0 <= j < |s.pcs| && HoldsPermit(s.pcs[j]);
    } else {
      j := i;
    }
    CanMove(s.pool, s.poolSize, s.pcs[j], keep);
  }

  // ---------- when the counter goes below zero ----------

  lemma Go(s: Sys, ms: seq<Move>, m: Move) returns (s': Sys, ms': seq<Move>)
    requires Play(s.limit, s.poolSize, ms) == Some(s) && Apply(s, m).Some?
    ensures s'.limit == s.limit && s'.poolSize == s.poolSize && Some(s') == Apply(s, m)
    ensures ms' == ms + [m] && Play(s.limit, s.poolSize, ms') == Some(s')
    ensures Closes(ms') == Closes(ms) + if m.Close? then 1 else 0
  {
    ms' := ms + [m];
    assert Front(ms') == ms && Last(ms') == m;
    Fixed(s, m);
    s' := Apply(s, m).value;
  }

  /** Nobody holds a permit or the lock, nothing is idle, and `n` reservations are counted. */
  predicate Settled(s: Sys, limit: nat, poolSize: nat, n: nat) {
    && s.limit == limit && s.poolSize == poolSize && s.pool.permits == limit
    && s.pool.idle == [] && !s.pool.locked && s.pool.reservations == n
  }

  /** A new call gets as far as asking for a reservation. */
  lemma Asks(s: Sys, ms: seq<Move>, n: nat) returns (s': Sys, ms': seq<Move>, i: nat)
    requires Play(s.limit, s.poolSize, ms) == Some(s) && Settled(s, s.limit, s.poolSize, n) && s.limit > 0
    ensures Play(s.limit, s.poolSize, ms') == Some(s') && Closes(ms') == Closes(ms)
    ensures i < |s'.pcs| && s'.pcs[i] == Reserve(false)
    ensures Settled(s'.(pool := s'.pool.(permits := s'.pool.permits + 1)), s.limit, s.poolSize, n)
  {
    hide Play, Closes;
    i := |s.pcs|;
    s', ms' := Go(s, ms, Call(false));
    s', ms' := Go(s', ms', Advance(i, false));
    assert s'.pcs[i] == Pop(false);
    s', ms' := Go(s', ms', Advance(i, false));
  }

  /** Call after call takes a reservation and then throws its client away. */
  lemma {:induction false} Reserving(limit: nat, poolSize: nat, n: nat) returns (s: Sys, ms: seq<Move>)
    requires limit > 0 && n <= poolSize < WORD
    ensures Play(limit, poolSize, ms) == Some(s) && Closes(ms) == 0
    ensures Settled(s, limit, poolSize, n)
  {
    if n == 0 {
      s, ms := Start(limit, poolSize), [];
    } else {
      s, ms := Reserving(limit, poolSize, n - 1);
      hide Play, Closes;
      var i;
      s, ms, i := Asks(s, ms, n - 1);
      s, ms := Go(s, ms, Advance(i, false));
      assert s.pcs[i].Calling?;
      s, ms := Go(s, ms, Advance(i, false));
      assert s.pcs[i].Release?;
      s, ms := Go(s, ms, Advance(i, false));
    }
  }

  lemma ResetTooEarly(limit: nat, poolSize: nat) returns (s: Sys, ms: seq<Move>, i: nat, j: nat)
    requires limit > 0 && poolSize < WORD
    ensures limit == s.limit && poolSize == s.poolSize && Play(limit, poolSize, ms) == Some(s) && Closes(ms) == 1
    ensures i < |s.pcs| && j < |s.pcs| && s.pcs[i].Unreserve? && s.pcs[j].CloseStore?
  {
    s, ms := Reserving(limit, poolSize, poolSize);
    hide Play, Closes;
    s, ms, i := Asks(s, ms, poolSize);
    s, ms := Go(s, ms, Advance(i, false));
    assert s.pcs[i].Unreserve?;
    j := |s.pcs|;
    s, ms := Go(s, ms, Close);
    s, ms := Go(s, ms, Advance(j, false));
    assert s.pcs[j].Draining?;
    s, ms := Go(s, ms, Advance(j, false));
  }

  /** A close that resets the counter between a task's increment and its undo takes it below zero. */
  lemma CloseBreaksCounter(limit: nat, poolSize: nat) returns (s: Sys, ms: seq<Move>)
    requires limit > 0 && poolSize < WORD
    ensures Play(limit, poolSize, ms) == Some(s) && Closes(ms) == 1
    ensures s.pool.reservations == -1 && Wrapped(s.pool.reservations) == WORD - 1
  {
    var i, j;
    s, ms, i, j := ResetTooEarly(limit, poolSize);
    hide Play, Closes, Count;
    s, ms := Go(s, ms, Advance(j, false));
    assert s.pcs[i].Unreserve? && s.pool.reservations == 0;
    s, ms := Go(s, ms, Advance(i, false));
  }

  /** Over all runs with at most `closes` closes the counter stays at or above zero exactly when there is
      no close or no permit: in any pool that can be used at all, one close is enough to break it. */
  lemma CounterKeptIffNeverClosed(limit: nat, poolSize: nat, closes: nat)
    requires poolSize < WORD
    ensures (forall ms :: Play(limit, poolSize, ms).Some? && Closes(ms) <= closes ==>
                            Play(limit, poolSize, ms).value.pool.reservations >= 0)
            <==> closes == 0 || limit == 0
  {
    if closes == 0 || limit == 0 {
      forall ms | Play(limit, poolSize, ms).Some? && Closes(ms) <= closes
        ensures Play(limit, poolSize, ms).value.pool.reservations >= 0
      {
        RunInv(limit, poolSize, ms);
      }
    } else {
      var s, ms := CloseBreaksCounter(limit, poolSize);
      assert Closes(ms) <= closes && Play(limit, poolSize, ms).value.pool.reservations == -1;
    }
  }
}
