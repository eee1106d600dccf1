/** Which events the joins report for a replay, over whole runs, and for what. */
module Signals {
  import opened Seqs
  import opened Events
  import opened Measurement
  import C = ConversionJoin
  import CI = ConversionInvariant
  import CO = ConversionOutcomes
  import E = ExposureJoin
  import EI = ExposureInvariant
  import J = JoinVerdicts

  // The exposure join.

  lemma {:induction false} FiringSignalsNothing(r: Rules, s: E.State, w: int)
    ensures E.FireDue(r, s, w).signals == s.signals
    decreases |s.timers|
  {
    var due := Due(s.timers, w);
    if due != {} {
      var t := Least(due);
      assert s.timers - {t} < s.timers;
      E.FireStep(r, s, w, t);
      FiringSignalsNothing(r, E.OnTimer(r, s.(timers := s.timers - {t}), t), w);
    }
  }

  /** The event arrives at step `n`, when its retention is over. */
  ghost predicate LateArrival(r: Rules, steps: seq<EI.Step>, n: nat, e: Event)
    requires r.window > 0 && n < |steps|
  {
    steps[n] == EI.Arrive(e) && e.time + r.retention <= J.ExposureRun(r, steps[..n]).watermark
  }

  /** Over any run: the exposure join reports exactly what arrives after its own retention. */
  lemma {:induction false} LateEventsAreReported(r: Rules, steps: seq<EI.Step>, signal: Signal)
    requires r.window > 0
    ensures signal in J.ExposureRun(r, steps).signals
            <==> signal.code == LateReplayRequired
                 && exists n :: 0 <= n < |steps| && LateArrival(r, steps, n, signal.event)
  {
    if steps != [] {
      var init, step := steps[..|steps| - 1], steps[|steps| - 1];
      assert steps == init + [step] && steps[..|init|] == init;
      LateEventsAreReported(r, init, signal);
      ExposureStepReports(r, J.ExposureRun(r, init), step, signal);
      assert LateArrival(r, steps, |init|, signal.event)
             <==> step == EI.Arrive(signal.event)
                  && signal.event.time + r.retention <= J.ExposureRun(r, init).watermark;
      forall n | 0 <= n < |init|
        ensures LateArrival(r, steps, n, signal.event) <==> LateArrival(r, init, n, signal.event)
      {
        assert steps[..n] == init[..n];
      }
    }
  }

  lemma ExposureStepReports(r: Rules, s: E.State, step: EI.Step, signal: Signal)
    requires r.window > 0
    ensures signal in EI.Next(r, s, step).signals
            <==> signal in s.signals
                 || (signal.code == LateReplayRequired && step == EI.Arrive(signal.event)
                     && signal.event.time + r.retention <= s.watermark)
  {
    match step
    case Arrive(_) =>
    case Tick(w) =>
      if s.watermark < w { FiringSignalsNothing(r, s.(watermark := w), w); }
  }

  // The conversion join.

  lemma {:induction false} TimeoutsSignalled(vs: seq<Event>, signal: Signal)
    ensures signal in C.TimeoutSignals(vs) <==> signal.code == ConversionTimedOut && signal.event in vs
  {
    if vs != [] {
      assert vs == vs[..|vs| - 1] + [vs[|vs| - 1]];
      TimeoutsSignalled(vs[..|vs| - 1], signal);
    }
  }

  /** Whatever stops waiting while timers fire is reported as timed out, and nothing else is. */
  ghost predicate Reports(s: C.State, s': C.State, signal: Signal) {
    signal in s'.signals
    <==> signal in s.signals
         || (signal.code == ConversionTimedOut && signal.event in s.waiting && signal.event !in s'.waiting)
  }

  lemma TimerReports(r: Rules, s: C.State, t: int, signal: Signal)
    requires r.window > 0
    ensures Reports(s, C.OnTimer(r, s, t), signal)
    ensures signal.event in C.OnTimer(r, s, t).waiting ==> signal.event in s.waiting
  {
    var due := Filter(s.waiting, Overdue(r.wait, t));
    TimeoutsSignalled(due, signal);
    FilterMember(s.waiting, Overdue(r.wait, t), signal.event);
    FilterMember(s.waiting, Early(r.wait, t), signal.event);
  }

  lemma {:induction false} FiringReports(r: Rules, s: C.State, w: int, signal: Signal)
    requires r.window > 0
    ensures Reports(s, C.FireDue(r, s, w), signal)
    ensures signal.event in C.FireDue(r, s, w).waiting ==> signal.event in s.waiting
    decreases |s.waiting|, |s.timers|
  {
    var due := Due(s.timers, w);
    if due != {} {
      var t := Least(due);
      var s0 := s.(timers := s.timers - {t});
      C.FireStep(r, s, w, t);
      C.FiringProgresses(r, s, t);
      TimerReports(r, s0, t, signal);
      FiringReports(r, C.OnTimer(r, s0, t), w, signal);
    }
  }

  /** What a step of the conversion join is to report: an input after its retention; a conversion that stops waiting
      because a deadline passed; a click that is held first, if its link failed; and a click that comes while a timeout
      is remembered. */
  ghost predicate Calls(r: Rules, s: C.State, s': C.State, step: CI.Step, signal: Signal) {
    match signal.code
    case LateReplayRequired =>
      step.Arrive? && C.InputEvent(step.input) == signal.event && signal.event.time + r.retention <= s.watermark
    case ConversionTimedOut => step.Tick? && signal.event in s.waiting && signal.event !in s'.waiting
    case LinkProblem(reason) =>
      && step.Arrive? && step.input.OfClick? && step.input.click.click == signal.event
      && s.watermark < signal.event.time + r.retention
      && s.click.None? && step.input.click.reason == reason != LinkOK
    case LateClickReplayRequired =>
      && step.Arrive? && step.input.OfClick? && step.input.click.click == signal.event
      && s.watermark < signal.event.time + r.retention && s.expired
  }

  lemma TickReports(r: Rules, s: C.State, w: int, signal: Signal)
    requires r.window > 0
    ensures signal in C.Advance(r, s, w).signals
            <==> signal in s.signals || Calls(r, s, C.Advance(r, s, w), CI.Tick(w), signal)
  {
    if s.watermark < w { FiringReports(r, s.(watermark := w), w, signal); }
  }

  lemma ClickReports(r: Rules, s: C.State, c: LinkedClick, signal: Signal)
    requires r.window > 0 && s.watermark < c.click.time + r.retention
    ensures signal in C.ProcessClick(r, s, c).signals
            <==> signal in s.signals
                 || (signal == Signal(c.click, LinkProblem(c.reason)) && s.click.None? && c.reason != LinkOK)
                 || (signal == Signal(c.click, LateClickReplayRequired) && s.expired)
  {
    var s1 := C.HoldClick(r, s, c);
    assert signal in s1.signals
           <==> signal in s.signals
                || (signal == Signal(c.click, LinkProblem(c.reason)) && s.click.None? && c.reason != LinkOK);
    assert C.ProcessClick(r, s, c).signals
           == if s.expired then s1.signals + [Signal(c.click, LateClickReplayRequired)] else s1.signals;
  }

  lemma ConversionReportsNothing(r: Rules, s: C.State, v: Event)
    requires r.window > 0
    ensures C.ProcessConversion(r, s, v).signals == s.signals
  {
  }

  lemma StepReports(r: Rules, s: C.State, step: CI.Step, signal: Signal)
    requires r.window > 0
    ensures var s' := CI.Next(r, s, step);
            signal in s'.signals <==> signal in s.signals || Calls(r, s, s', step, signal)
  {
    match step
    case Tick(w) => TickReports(r, s, w, signal);
    case Arrive(OfClick(c)) =>
      if !C.Late(step.input, s, r) { ClickReports(r, s, c, signal); }
    case Arrive(OfConversion(v)) =>
      if !C.Late(step.input, s, r) { ConversionReportsNothing(r, s, v); }
  }

  ghost predicate CalledAt(r: Rules, steps: seq<CI.Step>, n: nat, signal: Signal)
    requires r.window > 0 && n < |steps|
  {
    Calls(r, CO.Run(r, steps[..n]), CO.Run(r, steps[..n + 1]), steps[n], signal)
  }

  ghost predicate Called(r: Rules, steps: seq<CI.Step>, signal: Signal)
    requires r.window > 0
  {
    exists n :: 0 <= n < |steps| && CalledAt(r, steps, n, signal)
  }

  lemma CalledOneMore(r: Rules, init: seq<CI.Step>, step: CI.Step, signal: Signal)
    requires r.window > 0
    ensures Called(r, init + [step], signal)
            <==> Called(r, init, signal) || CalledAt(r, init + [step], |init|, signal)
  {
    var steps := init + [step];
    forall n | 0 <= n < |init|
      ensures CalledAt(r, steps, n, signal) <==> CalledAt(r, init, n, signal)
    {
      assert steps[..n] == init[..n] && steps[..n + 1] == init[..n + 1];
    }
  }

  lemma CalledLast(r: Rules, init: seq<CI.Step>, step: CI.Step, signal: Signal)
    requires r.window > 0
    ensures signal in CO.Run(r, init + [step]).signals
            <==> signal in CO.Run(r, init).signals || CalledAt(r, init + [step], |init|, signal)
  {
    var steps := init + [step];
    assert steps[..|init|] == init && steps[..|init| + 1] == steps;
    StepReports(r, CO.Run(r, init), step, signal);
  }

  /** Over any run: the conversion join reports exactly what its steps call for. */
  lemma {:induction false} ReportsAreExact(r: Rules, steps: seq<CI.Step>, signal: Signal)
    requires r.window > 0
    ensures signal in CO.Run(r, steps).signals <==> exists n :: 0 <= n < |steps| && CalledAt(r, steps, n, signal)
  {
    if steps != [] {
      var init, step := steps[..|steps| - 1], steps[|steps| - 1];
      assert steps == init + [step];
      ReportsAreExact(r, init, signal);
      CalledLast(r, init, step, signal);
      CalledOneMore(r, init, step, signal);
    }
  }
}
