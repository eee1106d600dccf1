/** How far a metric row may lag behind, and what it never takes in. */
module Staleness {
  import opened Seqs
  import opened Events
  import opened Measurement
  import opened Tallies
  import opened Aggregate
  import opened AggregateInvariant

  /** A pending emission lies ahead, within one interval. */
  ghost predicate Due(r: Rules, s: State) {
    s.nextEmit.Some? ==> s.clock < s.nextEmit.value <= s.clock + r.emit
  }

  lemma StepIsDue(r: Rules, s: State, cleanup: int, pending: seq<Contribution>, step: Step)
    requires r.emit > 0 && Inv(r, s, cleanup, pending) && Due(r, s)
    requires step.Arrive? ==> Cleanup(step.contribution, r) == cleanup
    ensures Due(r, Next(r, s, step))
  {
    match step
    case Arrive(_) =>
    case ClockReaches(p) =>
      if s.clock < p { EmitsOnce(s.(clock := p)); }
    case WatermarkReaches(w) =>
      if s.watermark < w { CleansOnce(s.(watermark := w), cleanup); }
  }

  lemma RowInit(r: Rules, steps: seq<Step>, n: nat, cleanup: int)
    requires OfRow(r, steps, cleanup) && n <= |steps|
    ensures OfRow(r, steps[..n], cleanup)
  {
  }

  /** In any run, a pending emission lies ahead of the clock by at most the interval. */
  lemma {:induction false} EmissionIsDue(r: Rules, steps: seq<Step>, cleanup: int)
    requires r.emit > 0 && OfRow(r, steps, cleanup) && NO_WATERMARK < cleanup
    ensures var s := Run(r, steps).state; s.nextEmit.Some? ==> s.clock < s.nextEmit.value <= s.clock + r.emit
  {
    if steps != [] {
      var init := steps[..|steps| - 1];
      RowInit(r, steps, |init|, cleanup);
      EmissionIsDue(r, init, cleanup);
      RunKeeps(r, init, cleanup);
      StepIsDue(r, Run(r, init).state, cleanup, Run(r, init).pending, steps[|init|]);
    }
  }

  /** Step `m` emits a snapshot of everything accepted before it, `c` included, that names the receipt of `c`. */
  ghost predicate Announced(r: Rules, steps: seq<Step>, m: nat, c: Contribution)
    requires m < |steps|
  {
    var before, after := Run(r, steps[..m]), Run(r, steps[..m + 1]);
    && |after.state.out| == |before.state.out| + 1 && c in before.accepted
    && var snapshot := after.state.out[|before.state.out|];
       snapshot.values == Sum(Fold(before.accepted)) && (c.receipt != "" ==> c.receipt in snapshot.visible)
  }

  ghost predicate AnnouncedSince(r: Rules, steps: seq<Step>, n: nat, c: Contribution) {
    exists m :: n < m < |steps| && Announced(r, steps, m, c)
  }

  /** The contribution accepted at step `n` is still to be announced, by then. */
  ghost predicate Outstanding(t: Trace, c: Contribution, deadline: int) {
    && c in t.pending && c in t.accepted
    && t.state.nextEmit.Some? && t.state.nextEmit.value <= deadline
  }

  lemma AnnouncedLater(r: Rules, steps: seq<Step>, n: nat, c: Contribution)
    requires steps != [] && AnnouncedSince(r, steps[..|steps| - 1], n, c)
    ensures AnnouncedSince(r, steps, n, c)
  {
    var init := steps[..|steps| - 1];
    var m :| n < m < |init| && Announced(r, init, m, c);
    assert init[..m] == steps[..m] && init[..m + 1] == steps[..m + 1];
    assert Announced(r, steps, m, c);
  }

  /** A step that emits nothing leaves the pending emission where it was. */
  lemma SilentStep(r: Rules, s: State, cleanup: int, pending: seq<Contribution>, step: Step)
    requires Inv(r, s, cleanup, pending) && (step.Arrive? ==> Cleanup(step.contribution, r) == cleanup)
    requires Next(r, s, step).out == s.out && s.nextEmit.Some?
    ensures Next(r, s, step).nextEmit == s.nextEmit
  {
    match step
    case Arrive(_) =>
    case ClockReaches(p) =>
      if s.clock < p { EmitsOnce(s.(clock := p)); }
    case WatermarkReaches(w) =>
      if s.watermark < w { CleansOnce(s.(watermark := w), cleanup); }
  }

  lemma OutstandingStep(r: Rules, steps: seq<Step>, n: nat, c: Contribution, deadline: int, cleanup: int)
    requires OfRow(r, steps, cleanup) && NO_WATERMARK < cleanup && n + 1 < |steps|
    requires Outstanding(Run(r, steps[..|steps| - 1]), c, deadline)
    ensures Outstanding(Run(r, steps), c, deadline) || AnnouncedSince(r, steps, n, c)
  {
    var init, step := steps[..|steps| - 1], steps[|steps| - 1];
    var t := Run(r, init);
    RowInit(r, steps, |init|, cleanup);
    RunKeeps(r, init, cleanup);
    if Next(r, t.state, step).out == t.state.out {
      SilentStep(r, t.state, cleanup, t.pending, step);
    } else {
      SnapshotIsCurrent(r, t.state, cleanup, t.pending, step);
      assert c.receipt != "" ==> c.receipt in ReceiptsOf(t.pending);
      assert steps[..|init|] == init && steps[..|init| + 1] == steps;
      assert Announced(r, steps, |init|, c);
    }
  }

  /** The instant at which a contribution is accepted. */
  ghost function AcceptedAt(r: Rules, steps: seq<Step>, n: nat): int
    requires n < |steps|
  {
    Run(r, steps[..n]).state.clock
  }

  lemma {:induction false} OutstandingOrAnnounced(r: Rules, steps: seq<Step>, n: nat, c: Contribution, cleanup: int)
    requires r.emit > 0 && OfRow(r, steps, cleanup) && NO_WATERMARK < cleanup && n < |steps| && steps[n] == Arrive(c)
    requires Accepts(r, Run(r, steps[..n]).state, steps[n])
    ensures Outstanding(Run(r, steps), c, AcceptedAt(r, steps, n) + r.emit) || AnnouncedSince(r, steps, n, c)
    decreases |steps|
  {
    var init := steps[..|steps| - 1];
    RowInit(r, steps, |init|, cleanup);
    if n == |init| {
      EmissionIsDue(r, init, cleanup);
      RunKeeps(r, init, cleanup);
    } else {
      assert init[..n] == steps[..n];
      OutstandingOrAnnounced(r, init, n, c, cleanup);
      if AnnouncedSince(r, init, n, c) { AnnouncedLater(r, steps, n, c); }
      else { OutstandingStep(r, steps, n, c, AcceptedAt(r, steps, n) + r.emit, cleanup); }
    }
  }

  /** Bounded staleness: once the clock has reached the instant of acceptance plus the interval, a snapshot emitted
      since then sums up everything accepted before it, this contribution included, and announces its receipt. */
  lemma StalenessIsBounded(r: Rules, steps: seq<Step>, n: nat, c: Contribution, cleanup: int)
    requires r.emit > 0 && OfRow(r, steps, cleanup) && NO_WATERMARK < cleanup && n < |steps| && steps[n] == Arrive(c)
    requires Run(r, steps[..n]).state.watermark < c.row.window + r.window + r.retention
    requires Run(r, steps[..n]).state.clock + r.emit <= Run(r, steps).state.clock
    ensures exists m :: n < m < |steps| && Announced(r, steps, m, c)
  {
    OutstandingOrAnnounced(r, steps, n, c, cleanup);
    EmissionIsDue(r, steps, cleanup);
  }

  /** `c` arrives at step `n`, when the end of its row's retention has come or has not. */
  ghost predicate ArrivesAt(r: Rules, steps: seq<Step>, n: nat, c: Contribution, late: bool)
    requires n < |steps|
  {
    steps[n] == Arrive(c) && (late <==> c.row.window + r.window + r.retention <= Run(r, steps[..n]).state.watermark)
  }

  ghost predicate Arrives(r: Rules, steps: seq<Step>, c: Contribution, late: bool) {
    exists n :: 0 <= n < |steps| && ArrivesAt(r, steps, n, c, late)
  }

  lemma OneMoreArrival(r: Rules, init: seq<Step>, step: Step, c: Contribution, late: bool)
    ensures Arrives(r, init + [step], c, late)
            <==> Arrives(r, init, c, late)
                 || (step == Arrive(c) && (late <==> Cleanup(c, r) <= Run(r, init).state.watermark))
  {
    var steps := init + [step];
    forall n | 0 <= n < |init|
      ensures ArrivesAt(r, steps, n, c, late) <==> ArrivesAt(r, init, n, c, late)
    {
      assert steps[..n] == init[..n];
    }
    assert steps[..|init|] == init;
    if Arrives(r, init, c, late) {
      var n :| 0 <= n < |init| && ArrivesAt(r, init, n, c, late);
      assert ArrivesAt(r, steps, n, c, late);
    }
    if step == Arrive(c) && (late <==> Cleanup(c, r) <= Run(r, init).state.watermark) {
      assert ArrivesAt(r, steps, |init|, c, late);
    }
  }

  /** What arrives is accepted exactly while its row is retained, and otherwise set aside: nothing is lost. */
  lemma {:induction false} FrozenExactly(r: Rules, steps: seq<Step>, c: Contribution)
    ensures c in Run(r, steps).accepted <==> Arrives(r, steps, c, false)
    ensures c in Run(r, steps).state.frozen <==> Arrives(r, steps, c, true)
  {
    if steps != [] {
      var init, step := steps[..|steps| - 1], steps[|steps| - 1];
      assert steps == init + [step];
      FrozenExactly(r, init, c);
      OnlyArrivalsFreeze(r, Run(r, init).state, step);
      OneMoreArrival(r, init, step, c, false);
      OneMoreArrival(r, init, step, c, true);
    }
  }

  lemma OnlyArrivalsFreeze(r: Rules, s: State, step: Step)
    ensures step.Arrive? && Cleanup(step.contribution, r) <= s.watermark ==>
              Next(r, s, step).frozen == s.frozen + [step.contribution]
    ensures !step.Arrive? || s.watermark < Cleanup(step.contribution, r) ==> Next(r, s, step).frozen == s.frozen
  {
    match step
    case Arrive(_) =>
    case ClockReaches(p) => EmitsFreezeNothing(s.(clock := p));
    case WatermarkReaches(w) => CleanupsFreezeNothing(s.(watermark := w));
  }

  lemma {:induction false} EmitsFreezeNothing(s: State)
    ensures FireEmits(s).frozen == s.frozen
    decreases |s.emitTimers|
  {
    var due := Seqs.Due(s.emitTimers, s.clock);
    if due != {} {
      var s1 := s.(emitTimers := s.emitTimers - {Least(due)});
      assert s1.emitTimers < s.emitTimers;
      EmitsFreezeNothing(EmitTimer(s1));
    }
  }

  lemma {:induction false} CleanupsFreezeNothing(s: State)
    ensures FireCleanups(s).frozen == s.frozen
    decreases |s.cleanupTimers|
  {
    var due := Seqs.Due(s.cleanupTimers, s.watermark);
    if due != {} {
      var s1 := s.(cleanupTimers := s.cleanupTimers - {Least(due)});
      assert s1.cleanupTimers < s.cleanupTimers;
      CleanupsFreezeNothing(CleanupTimer(s1));
    }
  }
}
