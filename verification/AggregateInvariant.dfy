/** What the aggregate of one metric row keeps: sums of latest values, and snapshots behind only by what is pending. */
module AggregateInvariant {
  import opened Seqs
  import opened Events
  import opened Measurement
  import opened Tallies
  import opened Aggregate

  datatype Step = Arrive(contribution: Contribution) | ClockReaches(clock: int) | WatermarkReaches(watermark: int)

  ghost function Next(r: Rules, s: State, step: Step): State {
    match step
    case Arrive(c) => Process(r, s, c)
    case ClockReaches(p) => AdvanceClock(s, p)
    case WatermarkReaches(w) => AdvanceWatermark(s, w)
  }

  predicate Accepts(r: Rules, s: State, step: Step) { step.Arrive? && s.watermark < Cleanup(step.contribution, r) }

  /** The contributions accepted since the last snapshot. */
  ghost function NextPending(r: Rules, s: State, pending: seq<Contribution>, step: Step): seq<Contribution> {
    if Accepts(r, s, step) then pending + [step.contribution]
    else if |Next(r, s, step).out| > |s.out| then [] else pending
  }

  function ReceiptsOf(cs: seq<Contribution>): set<string> { set c | c in cs && c.receipt != "" :: c.receipt }

  ghost predicate Earliest(cs: seq<Contribution>, receivedAt: nat) {
    (forall c :: c in cs ==> receivedAt <= c.receivedAt) && exists c :: c in cs && c.receivedAt == receivedAt
  }

  /** A snapshot that announces exactly what was pending. */
  ghost predicate Announces(snapshot: Snapshot, pending: seq<Contribution>) {
    && snapshot.visible.Keys == ReceiptsOf(pending)
    && (forall id :: id in snapshot.visible ==>
          exists c :: c in pending && c.receipt == id && snapshot.visible[id] == Visibility(c.receivedAt, c.sourceTime))
    && (pending != [] ==> Earliest(pending, snapshot.receivedAt))
  }

  /** The row is open: its total is current and its timers are armed. */
  ghost predicate Open(r: Rules, s: State, cleanup: int)
    requires s.aggregate.Some?
  {
    && s.contributions != map[] && s.aggregate.value.values == Sum(s.contributions)
    && s.watermark < cleanup && s.cleanupTimers == {cleanup}
    && (s.nextEmit.None? ==> s.out != [] && s.out[|s.out| - 1].values == s.aggregate.value.values)
  }

  /** The row holds nothing: no contribution has come, or its final snapshot has been emitted. */
  ghost predicate Vacant(s: State) {
    s.contributions == map[] && s.nextEmit.None? && s.cleanupTimers == {}
  }

  ghost predicate Inv(r: Rules, s: State, cleanup: int, pending: seq<Contribution>) {
    && (if s.aggregate.Some? then Open(r, s, cleanup) && Announces(Current(s), pending)
        else Vacant(s) && s.receipts == map[])
    && s.emitTimers == (if s.nextEmit.Some? then {s.nextEmit.value} else {})
    && (pending == [] <==> s.nextEmit.None?)
  }

  lemma AcceptKeeps(r: Rules, s: State, cleanup: int, pending: seq<Contribution>, c: Contribution)
    requires Inv(r, s, cleanup, pending) && Cleanup(c, r) == cleanup && s.watermark < cleanup
    ensures Inv(r, Accept(r, s, c), cleanup, pending + [c])
  {
    var s' := Accept(r, s, c);
    SumReplaced(s.contributions, c.id, ValuesOf(c));
    assert c.id in s'.contributions;
    AnnouncesOneMore(r, s, pending, c);
  }

  lemma {:induction false} AnnouncesOneMore(r: Rules, s: State, pending: seq<Contribution>, c: Contribution)
    requires pending == [] <==> s.nextEmit.None?
    requires s.aggregate.Some? ==> Announces(Current(s), pending)
    requires s.aggregate.None? ==> s.receipts == map[] && s.nextEmit.None?
    ensures Announces(Current(Accept(r, s, c)), pending + [c])
  {
    var after := Current(Accept(r, s, c));
    var all := pending + [c];
    assert forall d :: d in all <==> d in pending || d == c;
    assert ReceiptsOf(all) == if c.receipt == "" then ReceiptsOf(pending) else ReceiptsOf(pending) + {c.receipt};
    assert s.receipts.Keys == ReceiptsOf(pending);
    forall id | id in after.visible
      ensures exists d :: d in all && d.receipt == id && after.visible[id] == Visibility(d.receivedAt, d.sourceTime)
    {
      if id == c.receipt {
        assert c in all;
      } else {
        var d :| d in pending && d.receipt == id && s.receipts[id] == Visibility(d.receivedAt, d.sourceTime);
        assert d in all;
      }
    }
    if pending != [] {
      var d :| d in pending && d.receivedAt == s.aggregate.value.receivedAt;
      assert d in all;
    }
    assert c in all;
  }

  /** At most one emit timer is armed, so it fires at most once however far the clock jumps. */
  lemma EmitsOnce(s: State)
    requires s.emitTimers == (if s.nextEmit.Some? then {s.nextEmit.value} else {})
    ensures FireEmits(s)
         == if s.nextEmit.Some? && s.nextEmit.value <= s.clock then EmitTimer(s.(emitTimers := {})) else s
  {
    if s.nextEmit.Some? && s.nextEmit.value <= s.clock {
      var due := Due(s.emitTimers, s.clock);
      assert s.nextEmit.value in due;
      var s1 := s.(emitTimers := {});
      assert s.emitTimers - {Least(due)} == {};
      assert Due(EmitTimer(s1).emitTimers, s.clock) == {};
    } else {
      assert Due(s.emitTimers, s.clock) == {};
    }
  }

  lemma CleansOnce(s: State, cleanup: int)
    requires s.cleanupTimers == {cleanup} || s.cleanupTimers == {}
    ensures FireCleanups(s) ==
            if s.cleanupTimers == {cleanup} && cleanup <= s.watermark then CleanupTimer(s.(cleanupTimers := {})) else s
  {
    if s.cleanupTimers == {cleanup} && cleanup <= s.watermark {
      var due := Due(s.cleanupTimers, s.watermark);
      assert cleanup in due;
      var s1 := s.(cleanupTimers := {});
      assert s.cleanupTimers - {Least(due)} == {};
      assert Due(CleanupTimer(s1).cleanupTimers, s.watermark) == {};
    } else {
      assert Due(s.cleanupTimers, s.watermark) == {};
    }
  }

  /** Every step keeps the invariant, for any interleaving of contributions, clock and watermarks. */
  lemma StepKeeps(r: Rules, s: State, cleanup: int, pending: seq<Contribution>, step: Step)
    requires Inv(r, s, cleanup, pending) && (step.Arrive? ==> Cleanup(step.contribution, r) == cleanup)
    ensures Inv(r, Next(r, s, step), cleanup, NextPending(r, s, pending, step))
  {
    match step
    case Arrive(c) =>
      if s.watermark < cleanup { AcceptKeeps(r, s, cleanup, pending, c); }
    case ClockReaches(p) =>
      if s.clock < p { EmitsOnce(s.(clock := p)); }
    case WatermarkReaches(w) =>
      if s.watermark < w { CleansOnce(s.(watermark := w), cleanup); }
  }

  /** A snapshot is the sum of the latest values and announces exactly what was accepted since the one before it. */
  lemma SnapshotIsCurrent(r: Rules, s: State, cleanup: int, pending: seq<Contribution>, step: Step)
    requires Inv(r, s, cleanup, pending) && (step.Arrive? ==> Cleanup(step.contribution, r) == cleanup)
    requires Next(r, s, step).out != s.out
    ensures s.aggregate.Some? && Next(r, s, step).out == s.out + [Current(s)]
    ensures Current(s).values == Sum(s.contributions) && Announces(Current(s), pending)
  {
    match step
    case Arrive(c) =>
    case ClockReaches(p) =>
      if s.clock < p { EmitsOnce(s.(clock := p)); }
    case WatermarkReaches(w) =>
      if s.watermark < w { CleansOnce(s.(watermark := w), cleanup); }
  }

  lemma MinusThenPlus(a: Tally, b: Tally)
    ensures Plus(Minus(a, b), b) == a
  {
  }

  lemma RepeatMovesNothing(r: Rules, s: State, c: Contribution)
    requires s.aggregate.Some? && c.id in s.contributions && s.contributions[c.id] == ValuesOf(c)
    ensures Accept(r, s, c).contributions == s.contributions
    ensures Accept(r, s, c).aggregate.value.values == s.aggregate.value.values
  {
    MinusThenPlus(s.aggregate.value.values, ValuesOf(c));
  }

  lemma StaysClosed(r: Rules, s: State, cleanup: int, pending: seq<Contribution>, step: Step)
    requires Inv(r, s, cleanup, pending) && cleanup <= s.watermark
    requires step.Arrive? ==> Cleanup(step.contribution, r) == cleanup
    ensures s.aggregate.None? && s.emitTimers == {} && Next(r, s, step).out == s.out
    ensures cleanup <= Next(r, s, step).watermark
  {
    match step
    case Arrive(c) =>
    case ClockReaches(p) =>
      if s.clock < p { EmitsOnce(s.(clock := p)); }
    case WatermarkReaches(w) =>
      if s.watermark < w { CleansOnce(s.(watermark := w), cleanup); }
  }

  // Whole runs.

  /** The latest value of each contribution in `cs`. */
  function Fold(cs: seq<Contribution>): Latest {
    if cs == [] then map[] else Fold(cs[..|cs| - 1])[cs[|cs| - 1].id := ValuesOf(cs[|cs| - 1])]
  }

  datatype Trace = Trace(state: State, pending: seq<Contribution>, accepted: seq<Contribution>)

  ghost function Run(r: Rules, steps: seq<Step>): Trace {
    if steps == [] then Trace(INITIAL, [], [])
    else
      var t, step := Run(r, steps[..|steps| - 1]), steps[|steps| - 1];
      Trace(Next(r, t.state, step), NextPending(r, t.state, t.pending, step),
            if Accepts(r, t.state, step) then t.accepted + [step.contribution] else t.accepted)
  }

  ghost predicate OfRow(r: Rules, steps: seq<Step>, cleanup: int) {
    forall n :: 0 <= n < |steps| && steps[n].Arrive? ==> Cleanup(steps[n].contribution, r) == cleanup
  }

  /** While the row is open its total is that of everything accepted; once it is closed, the last snapshot's is. */
  ghost predicate TotalsAccepted(t: Trace, cleanup: int) {
    var s := t.state;
    if s.watermark < cleanup then s.contributions == Fold(t.accepted)
    else t.accepted != [] ==> s.out != [] && s.out[|s.out| - 1].values == Sum(Fold(t.accepted))
  }

  lemma {:induction false} AcceptTotals(r: Rules, s: State, accepted: seq<Contribution>, c: Contribution)
    requires s.contributions == Fold(accepted)
    ensures Accept(r, s, c).contributions == Fold(accepted + [c])
  {
    assert (accepted + [c])[..|accepted|] == accepted;
  }

  /** Nothing but the watermark closes a row, and closing it emits its total. */
  lemma {:induction false} WatermarkTotals(r: Rules, t: Trace, cleanup: int, w: int)
    requires Inv(r, t.state, cleanup, t.pending) && TotalsAccepted(t, cleanup)
    requires t.accepted == [] <==> Fold(t.accepted) == map[]
    ensures TotalsAccepted(t.(state := AdvanceWatermark(t.state, w)), cleanup)
  {
    if t.state.watermark < w { CleansOnce(t.state.(watermark := w), cleanup); }
  }

  lemma {:induction false} ClockTotals(r: Rules, t: Trace, cleanup: int, p: int)
    requires Inv(r, t.state, cleanup, t.pending) && TotalsAccepted(t, cleanup)
    ensures TotalsAccepted(t.(state := AdvanceClock(t.state, p)), cleanup)
  {
    if t.state.clock < p { EmitsOnce(t.state.(clock := p)); }
  }

  lemma {:induction false} StepTotals(r: Rules, t: Trace, cleanup: int, step: Step)
    requires Inv(r, t.state, cleanup, t.pending) && TotalsAccepted(t, cleanup)
    requires t.accepted == [] <==> Fold(t.accepted) == map[]
    requires step.Arrive? ==> Cleanup(step.contribution, r) == cleanup
    ensures var accepted := if Accepts(r, t.state, step) then t.accepted + [step.contribution] else t.accepted;
            TotalsAccepted(Trace(Next(r, t.state, step), NextPending(r, t.state, t.pending, step), accepted), cleanup)
  {
    match step
    case Arrive(c) => if t.state.watermark < cleanup { AcceptTotals(r, t.state, t.accepted, c); }
    case ClockReaches(p) => ClockTotals(r, t, cleanup, p);
    case WatermarkReaches(w) => WatermarkTotals(r, t, cleanup, w);
  }

  lemma FoldOfSome(cs: seq<Contribution>)
    ensures cs == [] <==> Fold(cs) == map[]
  {
    if cs != [] { assert cs[|cs| - 1].id in Fold(cs); }
  }

  lemma {:induction false} RunKeeps(r: Rules, steps: seq<Step>, cleanup: int)
    requires OfRow(r, steps, cleanup) && NO_WATERMARK < cleanup
    ensures var t := Run(r, steps); Inv(r, t.state, cleanup, t.pending) && TotalsAccepted(t, cleanup)
  {
    if steps != [] {
      var init, step := steps[..|steps| - 1], steps[|steps| - 1];
      RunKeeps(r, init, cleanup);
      var t := Run(r, init);
      FoldOfSome(t.accepted);
      StepKeeps(r, t.state, cleanup, t.pending, step);
      StepTotals(r, t, cleanup, step);
    }
  }

  /** In any run, receiving again what is already counted moves no counter while the row is open, and is dropped once it
      is closed. */
  lemma RepeatingChangesNothing(r: Rules, steps: seq<Step>, c: Contribution, cleanup: int)
    requires OfRow(r, steps + [Arrive(c)], cleanup) && NO_WATERMARK < cleanup
    requires var latest := Fold(Run(r, steps).accepted); c.id in latest && latest[c.id] == ValuesOf(c)
    ensures var t, t' := Run(r, steps), Run(r, steps + [Arrive(c)]);
            && t'.state.contributions == t.state.contributions && t'.state.out == t.state.out
            && t'.state.aggregate.Some? == t.state.aggregate.Some? == (t.state.watermark < cleanup)
            && (t.state.aggregate.Some? ==> t'.state.aggregate.value.values == t.state.aggregate.value.values)
  {
    var all := steps + [Arrive(c)];
    assert all[..|steps|] == steps && all[|steps|].contribution == c;
    assert OfRow(r, steps, cleanup) by { assert forall n :: 0 <= n < |steps| ==> steps[n] == all[n]; }
    RunKeeps(r, steps, cleanup);
    var s := Run(r, steps).state;
    if s.aggregate.Some? && s.watermark < cleanup { RepeatMovesNothing(r, s, c); }
  }

  /** Once the watermark has passed the end of a row's retention, nothing is held, and no run emits anything again. */
  lemma {:induction false} NothingAfterCleanup(r: Rules, before: seq<Step>, more: seq<Step>, cleanup: int)
    requires OfRow(r, before + more, cleanup) && NO_WATERMARK < cleanup && cleanup <= Run(r, before).state.watermark
    ensures var t, t' := Run(r, before), Run(r, before + more);
            && cleanup <= t'.state.watermark && t'.state.out == t.state.out
            && t'.state.aggregate.None? && t'.state.emitTimers == {}
  {
    if more == [] {
      assert before + more == before;
      RunKeeps(r, before, cleanup);
      StaysClosed(r, Run(r, before).state, cleanup, Run(r, before).pending, ClockReaches(0));
    } else {
      var init, steps := more[..|more| - 1], before + more;
      assert steps[..|steps| - 1] == before + init;
      NothingAfterCleanup(r, before, init, cleanup);
      RunKeeps(r, before + init, cleanup);
      RunKeeps(r, steps, cleanup);
      var t := Run(r, before + init);
      StaysClosed(r, t.state, cleanup, t.pending, steps[|steps| - 1]);
      StaysClosed(r, Run(r, steps).state, cleanup, Run(r, steps).pending, ClockReaches(0));
    }
  }

  /** Whatever a reader sees when nothing is pending is the total of everything accepted so far. */
  lemma QuietMeansCurrent(r: Rules, steps: seq<Step>, cleanup: int)
    requires OfRow(r, steps, cleanup) && NO_WATERMARK < cleanup
    requires Run(r, steps).state.nextEmit.None? && Run(r, steps).accepted != []
    ensures var t := Run(r, steps);
            t.state.out != [] && t.state.out[|t.state.out| - 1].values == Sum(Fold(t.accepted))
  {
    RunKeeps(r, steps, cleanup);
    FoldOfSome(Run(r, steps).accepted);
  }
}
