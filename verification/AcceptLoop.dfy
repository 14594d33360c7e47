/** The count of active connections that the accept loops of one process share: every access is a step,
    and any number of loops and connection tasks interleave. */
module AcceptLoop {
  import opened Wrappers
  import opened Counting

  /** Named after what the loop does next: accept a connection and load the count, add to the count, or
      spawn the connection's task. */
  datatype Loop = Accepting | Admitting | Spawning

  /** A task that crashes never takes itself off the count. */
  datatype Task = Serving | Ended | Crashed

  datatype Sys = Sys(limit: nat, active: int, loops: seq<Loop>, tasks: seq<Task>)

  datatype Move = Advance(loop: nat) | End(task: nat) | Crash(task: nat)

  function Start(limit: nat, loops: nat): Sys {
    Sys(limit, 0, seq(loops, _ => Accepting), [])
  }

  /** What a loop's next access does. A connection that arrives while the count is at the limit is
      dropped. */
  function Loops(s: Sys, i: nat): Sys
    requires i < |s.loops|
  {
    match s.loops[i]
    case Accepting => if s.active >= s.limit then s else s.(loops := s.loops[i := Admitting])
    case Admitting => s.(active := s.active + 1, loops := s.loops[i := Spawning])
    case Spawning => s.(loops := s.loops[i := Accepting], tasks := s.tasks + [Serving])
  }

  function Apply(s: Sys, m: Move): Option<Sys> {
    match m
    case Advance(i) => if i < |s.loops| then Some(Loops(s, i)) else None
    case End(i) =>
      if i < |s.tasks| && s.tasks[i].Serving?
      then Some(s.(active := s.active - 1, tasks := s.tasks[i := Ended])) else None
    case Crash(i) =>
      if i < |s.tasks| && s.tasks[i].Serving? then Some(s.(tasks := s.tasks[i := Crashed])) else None
  }

  function Play(s: Sys, ms: seq<Move>): Option<Sys>
    decreases |ms|
  {
    if ms == [] then Some(s)
    else
      match Apply(s, ms[0])
      case Some(s') => Play(s', ms[1..])
      case None => None
  }

  ghost predicate Reachable(limit: nat, loops: nat, s: Sys) {
    exists ms :: Play(Start(limit, loops), ms) == Some(s)
  }

  // ---------- the invariant ----------

  predicate IsAdmitting(l: Loop) { l.Admitting? }
  predicate IsSpawning(l: Loop) { l.Spawning? }
  predicate IsServing(t: Task) { t.Serving? }
  predicate HasCrashed(t: Task) { t.Crashed? }

  /** The most the count can reach: loops that have seen it below the limit all add to it. */
  function Ceiling(limit: nat, loops: nat): nat {
    if limit == 0 || loops == 0 then 0 else limit + loops - 1
  }

  predicate Counted(s: Sys) {
    s.active == Count(s.loops, IsSpawning) + Count(s.tasks, IsServing) + Count(s.tasks, HasCrashed)
  }

  predicate Bounded(s: Sys) {
    s.active + Count(s.loops, IsAdmitting) <= Ceiling(s.limit, |s.loops|)
  }

  predicate Inv(s: Sys) {
    Counted(s) && Bounded(s)
  }

  /** Connections accepted, and those past the load of the count. */
  function Begun(s: Sys): nat {
    |s.tasks| + Count(s.loops, IsAdmitting) + Count(s.loops, IsSpawning)
  }

  lemma LoopStep(s: Sys, i: nat)
    requires Inv(s) && i < |s.loops|
    ensures Inv(Loops(s, i))
    ensures Begun(Loops(s, i)) == Begun(s) + if s.loops[i].Accepting? && s.active < s.limit then 1 else 0
  {
    hide Count;
    var l := Loops(s, i).loops[i];
    CountUpdate(s.loops, i, l, IsAdmitting);
    CountUpdate(s.loops, i, l, IsSpawning);
    CountPush(s.tasks, Serving, IsServing);
    CountPush(s.tasks, Serving, HasCrashed);
  }

  lemma TaskStep(s: Sys, i: nat, t: Task)
    requires i < |s.tasks| && s.tasks[i].Serving?
    ensures Count(s.tasks[i := t], IsServing) == Count(s.tasks, IsServing) - if t.Serving? then 0 else 1
    ensures Count(s.tasks[i := t], HasCrashed) == Count(s.tasks, HasCrashed) + if t.Crashed? then 1 else 0
  {
    CountUpdate(s.tasks, i, t, IsServing);
    CountUpdate(s.tasks, i, t, HasCrashed);
  }

  lemma InvStep(s: Sys, m: Move)
    requires Inv(s) && Apply(s, m).Some?
    ensures var s' := Apply(s, m).value;
            && Inv(s') && s'.limit == s.limit && |s'.loops| == |s.loops|
            && Count(s'.tasks, HasCrashed) >= Count(s.tasks, HasCrashed)
            && (Begun(s') == Begun(s) || s.active < s.limit)
  {
    hide Count;
    match m
    case Advance(i) =>
      LoopStep(s, i);
      CountPush(s.tasks, Serving, HasCrashed);
    case End(i) => TaskStep(s, i, Ended);
    case Crash(i) => TaskStep(s, i, Crashed);
  }

  lemma {:induction false} RunInv(s: Sys, ms: seq<Move>)
    requires Inv(s) && Play(s, ms).Some?
    ensures var s' := Play(s, ms).value;
            Inv(s') && s'.limit == s.limit && |s'.loops| == |s.loops|
    decreases |ms|
  {
    if ms != [] {
      InvStep(s, ms[0]);
      hide Inv, Apply;
      RunInv(Apply(s, ms[0]).value, ms[1..]);
    }
  }

  lemma StartInv(limit: nat, loops: nat)
    ensures Inv(Start(limit, loops))
  {
    CountZero(Start(limit, loops).loops, IsAdmitting);
    CountZero(Start(limit, loops).loops, IsSpawning);
  }

  lemma ReachableInv(limit: nat, loops: nat, s: Sys)
    requires Reachable(limit, loops, s)
    ensures Inv(s) && s.limit == limit && |s.loops| == loops
  {
    var ms :| Play(Start(limit, loops), ms) == Some(s);
    StartInv(limit, loops);
    RunInv(Start(limit, loops), ms);
  }

  // ---------- the laws ----------

  /** The count is the connections being served or about to be, plus every crashed one, and it stays
      within the limit for one loop but only within `loops - 1` of it for several. */
  lemma ActiveIsCounted(limit: nat, loops: nat, s: Sys)
    requires Reachable(limit, loops, s)
    ensures s.active == Count(s.loops, IsSpawning) + Count(s.tasks, IsServing) + Count(s.tasks, HasCrashed)
    ensures 0 <= s.active <= Ceiling(limit, loops)
  {
    ReachableInv(limit, loops, s);
  }

  /** Crashes wear the limit away: once as many connections have crashed as the limit allows, only
      those already past the check are ever served. */
  lemma {:induction false} CrashesUseUpLimit(limit: nat, loops: nat, s: Sys, ms: seq<Move>)
    requires Reachable(limit, loops, s) && Count(s.tasks, HasCrashed) >= limit
    requires Play(s, ms).Some?
    ensures Begun(Play(s, ms).value) == Begun(s)
    decreases |ms|
  {
    if ms != [] {
      ReachableInv(limit, loops, s);
      InvStep(s, ms[0]);
      var s' := Go(limit, loops, s, ms[0]);
      hide Reachable, Apply, Count;
      CrashesUseUpLimit(limit, loops, s', ms[1..]);
    }
  }

  predicate Idle(s: Sys) {
    && (forall i :: 0 <= i < |s.loops| ==> s.loops[i].Accepting?)
    && (forall i :: 0 <= i < |s.tasks| ==> !s.tasks[i].Serving?)
  }

  /** Steps until every loop is back at its accept and every connection has ended. */
  function Unfinished(s: Sys): nat {
    3 * Count(s.loops, IsAdmitting) + 2 * Count(s.loops, IsSpawning) + Count(s.tasks, IsServing)
  }

  lemma IdleCounts(s: Sys)
    requires Inv(s) && Idle(s)
    ensures s.active == Count(s.tasks, HasCrashed)
  {
    CountZero(s.loops, IsSpawning);
    CountZero(s.tasks, IsServing);
  }

  lemma NextMove(s: Sys) returns (m: Move)
    requires !Idle(s)
    ensures m.Advance? ==> m.loop < |s.loops| && !s.loops[m.loop].Accepting?
    ensures m.End? ==> m.task < |s.tasks| && s.tasks[m.task].Serving?
    ensures !m.Crash? && Apply(s, m).Some?
  {
    if i: nat :| i < |s.loops| && !s.loops[i].Accepting? {
      m := Advance(i);
    } else {
      var i: nat :| i < |s.tasks| && s.tasks[i].Serving?;
      m := End(i);
    }
  }

  lemma MoveFinishes(s: Sys, m: Move)
    requires Inv(s)
    requires m.Advance? ==> m.loop < |s.loops| && !s.loops[m.loop].Accepting?
    requires m.End? ==> m.task < |s.tasks| && s.tasks[m.task].Serving?
    requires !m.Crash?
    ensures var s' := Apply(s, m).value;
            && Unfinished(s') < Unfinished(s) && Begun(s') == Begun(s)
            && Count(s'.tasks, HasCrashed) == Count(s.tasks, HasCrashed)
  {
    hide Count;
    match m
    case Advance(i) =>
      LoopStep(s, i);
      CountUpdate(s.loops, i, Loops(s, i).loops[i], IsAdmitting);
      CountUpdate(s.loops, i, Loops(s, i).loops[i], IsSpawning);
      CountPush(s.tasks, Serving, IsServing);
      CountPush(s.tasks, Serving, HasCrashed);
    case End(i) => TaskStep(s, i, Ended);
  }

  /** Fewer crashes than the limit leave room: let everything finish, and one more is accepted. */
  lemma {:induction false} AcceptOneMore(s: Sys) returns (ms: seq<Move>)
    requires Inv(s) && |s.loops| > 0 && Count(s.tasks, HasCrashed) < s.limit
    ensures Play(s, ms).Some? && Begun(Play(s, ms).value) == Begun(s) + 1
    decreases Unfinished(s)
  {
    if Idle(s) {
      IdleCounts(s);
      LoopStep(s, 0);
      ms := [Advance(0)];
      assert ms[1..] == [];
    } else {
      var m := NextMove(s);
      InvStep(s, m);
      MoveFinishes(s, m);
      var rest := AcceptOneMore(Apply(s, m).value);
      ms := [m] + rest;
      assert ms[1..] == rest;
    }
  }

  ghost predicate NeverAcceptsAgain(s: Sys) {
    forall ms :: Play(s, ms).Some? ==> Begun(Play(s, ms).value) == Begun(s)
  }

  /** From any state on, no further connection is ever accepted exactly when at least as many have crashed
      as the limit allows. */
  lemma RefusesForGoodIffCrashes(limit: nat, loops: nat, s: Sys)
    requires Reachable(limit, loops, s) && loops > 0
    ensures NeverAcceptsAgain(s) <==> Count(s.tasks, HasCrashed) >= limit
  {
    ReachableInv(limit, loops, s);
    if Count(s.tasks, HasCrashed) >= limit {
      forall ms | Play(s, ms).Some? ensures Begun(Play(s, ms).value) == Begun(s) {
        CrashesUseUpLimit(limit, loops, s, ms);
      }
    } else {
      var ms := AcceptOneMore(s);
      assert Play(s, ms).Some? && Begun(Play(s, ms).value) != Begun(s);
    }
  }

  lemma {:induction false} PlayPush(s: Sys, ms: seq<Move>, m: Move)
    requires Play(s, ms).Some?
    ensures Play(s, ms + [m]) == Apply(Play(s, ms).value, m)
    decreases |ms|
  {
    if ms == [] {
      assert ms + [m] == [m] && [m][1..] == [];
    } else {
      assert (ms + [m])[1..] == ms[1..] + [m];
      PlayPush(Apply(s, ms[0]).value, ms[1..], m);
    }
  }

  lemma Go(limit: nat, loops: nat, s: Sys, m: Move) returns (s': Sys)
    requires Reachable(limit, loops, s) && Apply(s, m).Some?
    ensures Reachable(limit, loops, s') && Some(s') == Apply(s, m)
  {
    var ms :| Play(Start(limit, loops), ms) == Some(s);
    PlayPush(Start(limit, loops), ms, m);
    s' := Apply(s, m).value;
    assert Play(Start(limit, loops), ms + [m]) == Some(s');
  }

  predicate AllAccepting(s: Sys, limit: nat, loops: nat, active: nat) {
    s.limit == limit && s.active == active && s.loops == seq(loops, _ => Accepting)
  }

  /** One loop alone can bring the count to any value up to the limit. */
  lemma {:induction false} FillTo(limit: nat, loops: nat, active: nat) returns (s: Sys)
    requires loops > 0 && active <= limit
    ensures Reachable(limit, loops, s) && AllAccepting(s, limit, loops, active)
  {
    if active == 0 {
      s := Start(limit, loops);
      assert Play(s, []) == Some(s);
    } else {
      var t := FillTo(limit, loops, active - 1);
      hide Reachable;
      s := Go(limit, loops, t, Advance(0));
      s := Go(limit, loops, s, Advance(0));
      s := Go(limit, loops, s, Advance(0));
      assert s.loops == t.loops;
    }
  }

  /** Two loops that both load the count just below the limit take it beyond. */
  lemma TwoLoopsExceed(limit: nat, loops: nat) returns (s: Sys)
    requires loops >= 2 && limit >= 1
    ensures Reachable(limit, loops, s) && s.active == limit + 1
  {
    s := FillTo(limit, loops, limit - 1);
    hide Reachable;
    s := Go(limit, loops, s, Advance(0));
    s := Go(limit, loops, s, Advance(1));
    assert s.loops[0].Admitting? && s.loops[1].Admitting?;
    s := Go(limit, loops, s, Advance(0));
    s := Go(limit, loops, s, Advance(1));
  }

  /** The count is kept within `max_connections` in every interleaving exactly when at most one accept
      loop uses it, or nothing is allowed at all. */
  lemma LimitKeptIffOneLoop(limit: nat, loops: nat)
    ensures (forall s :: Reachable(limit, loops, s) ==> s.active <= limit) <==> loops <= 1 || limit == 0
  {
    if loops <= 1 || limit == 0 {
      forall s | Reachable(limit, loops, s) ensures s.active <= limit {
        ActiveIsCounted(limit, loops, s);
      }
    } else {
      var s := TwoLoopsExceed(limit, loops);
    }
  }
}
