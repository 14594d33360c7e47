/** The connection counters under concurrency: every atomic access is a step, and connections open
    and close in any interleaving. */
module ConnectionTracker {
  import opened Wrappers
  import opened Counting
  import opened Sequences

  /** A connection's progress through `connection_opened` and `connection_closed`. Inside the
      compare-exchange loop it carries the active count it took (`mine`), the peak it last loaded
      (`seen`) and how many exchanges it has lost (`lost`). */
  datatype Pc =
    | Counted
    | Contending(mine: int, lost: nat)
    | Exchanging(mine: int, seen: int, lost: nat)
    | Open
    | Leaving
    | Gone

  datatype Sys = Sys(total: nat, active: int, peak: int, closed: nat, pcs: seq<Pc>)

  datatype Move = Arrive | Advance(conn: nat)

  const START := Sys(0, 0, 0, 0, [])

  predicate InLoop(pc: Pc) {
    pc.Contending? || pc.Exchanging?
  }

  /** Counted as active right now. */
  predicate IsActive(pc: Pc) {
    InLoop(pc) || pc.Open?
  }

  function At(s: Sys, i: nat, pc: Pc): Sys
    requires i < |s.pcs|
  {
    s.(pcs := s.pcs[i := pc])
  }

  /** One atomic access. An open connection's next access is the first one of its close. */
  function Step(s: Sys, i: nat): Option<Sys>
    requires i < |s.pcs|
  {
    match s.pcs[i]
    case Counted =>
      var mine := s.active + 1;
      Some(At(s.(active := mine), i, Contending(mine, 0)))
    case Contending(mine, lost) =>
      Some(At(s, i, if mine <= s.peak then Open else Exchanging(mine, s.peak, lost)))
    case Exchanging(mine, seen, lost) =>
      if s.peak == seen then Some(At(s.(peak := mine), i, Open))
      else Some(At(s, i, Contending(mine, lost + 1)))
    case Open => Some(At(s.(active := s.active - 1), i, Leaving))
    case Leaving => Some(At(s.(closed := s.closed + 1), i, Gone))
    case Gone => None
  }

  function Apply(s: Sys, m: Move): Option<Sys> {
    match m
    case Arrive => Some(s.(total := s.total + 1, pcs := s.pcs + [Counted]))
    case Advance(i) => if i < |s.pcs| then Step(s, i) else None
  }

  /** The state after a run from the start; `None` if some move of it is not possible. */
  function Play(ms: seq<Move>): Option<Sys> {
    if ms == [] then Some(START)
    else
      match Play(Front(ms))
      case Some(s) => Apply(s, Last(ms))
      case None => None
  }

  function Max(a: int, b: int): int {
    if a < b then b else a
  }

  /** The largest active count at any moment of a run. */
  function HighWater(ms: seq<Move>): int
    requires Play(ms).Some?
  {
    if ms == [] then 0 else Max(HighWater(Front(ms)), Play(ms).value.active)
  }

  // ---------- the invariant ----------

  predicate PcInv(peak: int, high: int, pc: Pc) {
    match pc
    case Contending(mine, lost) => 1 <= mine <= high && lost <= mine && lost <= peak
    case Exchanging(mine, seen, lost) => seen < mine <= high && seen <= peak && lost <= seen
    case _ => true
  }

  predicate ContendsFor(pc: Pc, high: int) {
    InLoop(pc) && pc.mine == high
  }

  predicate IsCounted(pc: Pc) { pc.Counted? }
  predicate IsLeaving(pc: Pc) { pc.Leaving? }
  predicate IsGone(pc: Pc) { pc.Gone? }

  /** `high` is the historical maximum: the recorded peak never exceeds it, and if it falls short then
      some opener inside its loop is still carrying it. */
  predicate PeakInv(s: Sys, high: int) {
    && s.active <= high && s.peak <= high
    && (forall i :: 0 <= i < |s.pcs| ==> PcInv(s.peak, high, s.pcs[i]))
    && (s.peak == high || exists i :: 0 <= i < |s.pcs| && ContendsFor(s.pcs[i], high))
  }

  predicate CountInv(s: Sys) {
    && s.total == |s.pcs|
    && s.active == Count(s.pcs, IsActive)
    && s.closed == Count(s.pcs, IsGone)
  }

  lemma CountStep(s: Sys, m: Move)
    requires CountInv(s) && Apply(s, m).Some?
    ensures CountInv(Apply(s, m).value)
  {
    match m
    case Arrive =>
      CountPush(s.pcs, Counted, IsActive);
      CountPush(s.pcs, Counted, IsGone);
    case Advance(i) =>
      var pc := Step(s, i).value.pcs[i];
      CountUpdate(s.pcs, i, pc, IsActive);
      CountUpdate(s.pcs, i, pc, IsGone);
  }

  lemma PeakAt(s: Sys, high: int, s': Sys, high': int, i: nat)
    requires PeakInv(s, high) && i < |s.pcs| && |s'.pcs| == |s.pcs|
    requires s'.pcs == s.pcs[i := s'.pcs[i]]
    requires high <= high' && s.peak <= s'.peak <= high' && s'.active <= high'
    requires PcInv(s'.peak, high', s'.pcs[i])
    requires s'.peak == high' || ContendsFor(s'.pcs[i], high') ||
             (high == high' && s.peak < high && !ContendsFor(s.pcs[i], high))
    ensures PeakInv(s', high')
  {
    forall j | 0 <= j < |s'.pcs| ensures PcInv(s'.peak, high', s'.pcs[j]) {
      assert PcInv(s.peak, high, s.pcs[j]);
    }
    if s'.peak != high' && !ContendsFor(s'.pcs[i], high') {
      var j :| 0 <= j < |s.pcs| && ContendsFor(s.pcs[j], high);
      assert ContendsFor(s'.pcs[j], high');
    }
  }

  lemma PeakStep(s: Sys, high: int, m: Move)
    requires CountInv(s) && PeakInv(s, high) && Apply(s, m).Some?
    ensures var s' := Apply(s, m).value; PeakInv(s', Max(high, s'.active))
  {
    var s' := Apply(s, m).value;
    match m
    case Arrive =>
      if s.peak != high {
        var j :| 0 <= j < |s.pcs| && ContendsFor(s.pcs[j], high);
        assert ContendsFor(s'.pcs[j], high);
      }
    case Advance(i) =>
      assert PcInv(s.peak, high, s.pcs[i]);
      PeakAt(s, high, s', Max(high, s'.active), i);
  }

  lemma {:induction false} RunInv(ms: seq<Move>)
    requires Play(ms).Some?
    ensures CountInv(Play(ms).value) && PeakInv(Play(ms).value, HighWater(ms))
  {
    if ms != [] {
      RunInv(Front(ms));
      CountStep(Play(Front(ms)).value, Last(ms));
      PeakStep(Play(Front(ms)).value, HighWater(Front(ms)), Last(ms));
    }
  }

  // ---------- the laws ----------

  /** The recorded peak never exceeds the historical maximum of active connections, and equals it
      whenever no opener is inside its compare-exchange loop. */
  lemma PeakIsHighWater(ms: seq<Move>)
    requires Play(ms).Some?
    ensures var s := Play(ms).value;
            && s.peak <= HighWater(ms)
            && ((forall i :: 0 <= i < |s.pcs| ==> !InLoop(s.pcs[i])) ==> s.peak == HighWater(ms))
  {
    RunInv(ms);
  }

  /** An exchange fails only because the peak has strictly grown since it was loaded, so the gap
      between what an opener carries and the peak it loaded shrinks with every failure; an opener
      loses fewer exchanges than the active count it carries. */
  lemma LostExchangeMeansGrowth(ms: seq<Move>, i: nat)
    requires Play(ms).Some? && i < |Play(ms).value.pcs|
    requires Play(ms).value.pcs[i].Exchanging?
    ensures var s := Play(ms).value;
            var pc := s.pcs[i];
            && pc.lost < pc.mine <= HighWater(ms)
            && (Step(s, i).value.pcs[i].Contending? <==> s.peak > pc.seen)
            && (Step(s, i).value.pcs[i].Contending? ==> Step(s, i).value.pcs[i].lost == pc.lost + 1)
  {
    RunInv(ms);
    var s := Play(ms).value;
    assert PcInv(s.peak, HighWater(ms), s.pcs[i]);
  }

  lemma {:induction false} Partition(pcs: seq<Pc>)
    ensures Count(pcs, IsActive) + Count(pcs, IsGone) + Count(pcs, IsCounted) + Count(pcs, IsLeaving) == |pcs|
  {
    if pcs != [] {
      Partition(pcs[1..]);
    }
  }

  /** Every connection ever counted is active, closed, or between two accesses of one call. */
  lemma ConnectionsConserved(ms: seq<Move>)
    requires Play(ms).Some?
    ensures var s := Play(ms).value;
            && 0 <= s.active
            && s.total == s.active + s.closed + Count(s.pcs, IsCounted) + Count(s.pcs, IsLeaving)
  {
    RunInv(ms);
    Partition(Play(ms).value.pcs);
  }
}
