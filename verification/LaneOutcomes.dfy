/** The consequences for one lane: no legal match is lost to waiting, to retention or to a frozen row, and a lane whose
    promises are kept ends exactly as the batch calculation says. */
module LaneOutcomes {
  import opened Seqs
  import opened Events
  import opened Measurement
  import opened Streams
  import opened Lane
  import opened LaneRun
  import E = ExposureJoin
  import C = ConversionJoin
  import EI = ExposureInvariant
  import CI = ConversionInvariant
  import CO = ConversionOutcomes
  import LE = LaneExposure
  import LC = LaneConversion

  /** The last thing said of a conversion. */
  function Latest(log: seq<Association>, k: Link): Option<Association> {
    var h := CO.History(log, k);
    if h == [] then None else Some(h[|h| - 1])
  }

  /** An arrived conversion is still waiting, below its deadline, or has a verdict that is the last thing said of it. */
  lemma WaitingOrJudged(r: Rules, u: World, s: State, v: Event)
    requires ValidRules(r) && WellFormed(u) && Inv(r, u, s) && v in s.arrived
    ensures || (v in s.conversion.waiting && s.conversion.watermark < v.time + r.wait)
            || (Latest(s.conversion.associations, ConversionLink(v)).Some?
                && !Latest(s.conversion.associations, ConversionLink(v)).value.status.Pending?)
  {
    var k := ConversionLink(v);
    var h := CO.History(s.conversion.associations, k);
    assert CO.AccountedFor(s.conversion, k);
    assert h != [] && CO.WellOrdered(h);
    if CO.IsPending(h[|h| - 1]) {
      var w :| w in s.conversion.waiting && ConversionLink(w) == k;
      assert w in s.arrived && w == v;
    }
  }

  /** What is said of an arrived conversion, once it is not a wait, is what the batch calculation says of it. */
  lemma VerdictIsRight(r: Rules, u: World, s: State, v: Event, a: Association)
    requires ValidRules(r) && WellFormed(u) && Inv(r, u, s) && !Missed(r, u, s)
    requires v in s.arrived && !Excused(u, v, r)
    requires a in CO.History(s.conversion.associations, ConversionLink(v)) && !a.status.Pending?
    ensures LC.SameVerdict(a, C.Settled(v, FinalClick(u, r), r), u, r)
  {
    FilterMember(s.conversion.associations, CO.About(ConversionLink(v)), a);
    assert LC.RightVerdict(r, u, s.arrived, a);
    var w :| w in s.arrived && a.key == ConversionLink(w)
             && (Excused(u, w, r) || LC.SameVerdict(a, C.Settled(w, FinalClick(u, r), r), u, r));
    assert w == v;
  }

  lemma OwedVerdictIsMatched(r: Rules, u: World, s: State, v: Event, a: Association)
    requires ValidRules(r) && WellFormed(u) && Inv(r, u, s) && !Missed(r, u, s)
    requires v in s.arrived && v in u.promised && MatchLegal(u, v, r)
    requires a in CO.History(s.conversion.associations, ConversionLink(v)) && !a.status.Pending?
    ensures a.status.MatchedStatus?
  {
    VerdictIsRight(r, u, s, v, a);
  }

  /** A promised conversion that has arrived, its click having arrived too, waits below its deadline or is matched. */
  lemma WaitsOrIsMatched(r: Rules, u: World, s: State, v: Event)
    requires ValidRules(r) && WellFormed(u) && Inv(r, u, s) && !Missed(r, u, s)
    requires v in s.arrived && v in u.promised && MatchLegal(u, v, r)
    ensures || (v in s.conversion.waiting && s.conversion.watermark < v.time + r.wait)
            || (Latest(s.conversion.associations, ConversionLink(v)).Some?
                && Latest(s.conversion.associations, ConversionLink(v)).value.status.MatchedStatus?)
  {
    var h := CO.History(s.conversion.associations, ConversionLink(v));
    WaitingOrJudged(r, u, s, v);
    if h != [] && !h[|h| - 1].status.Pending? { OwedVerdictIsMatched(r, u, s, v, h[|h| - 1]); }
  }

  /** Waiting for an exposure never costs a legal conversion. Nothing is promised of the impression or of any other
      conversion: it is enough that the click reached the exposure join, and the conversion the conversion join, while
      the watermark of each was below the conversion's deadline. */
  lemma WaitingForExposureIsFree(r: Rules, u: World, steps: seq<Step>, v: Event)
    requires ValidRules(r) && WellFormed(u) && u.promised == {v} && !u.linkPromised
    requires AllowedRun(r, u, steps) && MatchLegal(u, v, r)
    requires v in Run(r, u, steps).arrived && Run(r, u, steps).clickSeen
    ensures var s := Run(r, u, steps);
            || (v in s.conversion.waiting && s.conversion.watermark < v.time + r.wait)
            || (Latest(s.conversion.associations, ConversionLink(v)).Some?
                && Latest(s.conversion.associations, ConversionLink(v)).value.status.MatchedStatus?)
  {
    RunKeeps(r, u, steps);
    WaitsOrIsMatched(r, u, Run(r, u, steps), v);
  }

  /** The same events with nothing promised of them. */
  function Unpromised(u: World): World { u.(linkPromised := false, promised := {}) }

  lemma StepWithoutPromises(r: Rules, u: World, s: State, step: Step)
    requires r.window > 0 && Allowed(r, u, s, step)
    ensures Allowed(r, Unpromised(u), s, step) && Next(r, Unpromised(u), s, step) == Next(r, u, s, step)
  {
  }

  /** Promises restrict runs; they do not change them, and what promises nothing cannot be missed. */
  lemma {:induction false} RunWithoutPromises(r: Rules, u: World, steps: seq<Step>)
    requires ValidRules(r) && AllowedRun(r, u, steps)
    ensures AllowedRun(r, Unpromised(u), steps) && Run(r, Unpromised(u), steps) == Run(r, u, steps)
    ensures !Missed(r, Unpromised(u), Run(r, u, steps))
  {
    if steps != [] {
      RunWithoutPromises(r, u, steps[..|steps| - 1]);
      StepWithoutPromises(r, u, Run(r, u, steps[..|steps| - 1]), steps[|steps| - 1]);
    }
  }

  /** A click that the conversion join has dropped could match no conversion that is still before its own deadline,
      whichever pairs meet in time or do not. */
  lemma DroppedClickIsSpent(r: Rules, u: World, steps: seq<Step>, v: Event)
    requires ValidRules(r) && WellFormed(u) && AllowedRun(r, u, steps) && MatchLegal(u, v, r)
    requires Run(r, u, steps).delivered.Some? && Run(r, u, steps).conversion.click.None?
    ensures v.time + r.wait <= Run(r, u, steps).conversion.watermark
  {
    RunWithoutPromises(r, u, steps);
    RunKeeps(r, Unpromised(u), steps);
    RetentionCoversMatch(u.click.value, v, r);
  }

  /** An impression that the exposure join has dropped could be linked to no click that is still before its own
      deadline. */
  lemma DroppedImpressionIsSpent(r: Rules, u: World, steps: seq<Step>, click: Event)
    requires ValidRules(r) && WellFormed(u) && AllowedRun(r, u, steps)
    requires u.impression.Some? && LegalExposure(u.impression.value, click, r)
    requires Run(r, u, steps).impressionSeen && Run(r, u, steps).exposure.impression.None?
    ensures click.time + r.wait <= Run(r, u, steps).exposure.watermark
  {
    RunKeeps(r, u, steps);
    RetentionCoversLink(u.impression.value, click, r);
  }

  /** A consumer of a metric stream stands no further than the watermarks it has read. */
  ghost predicate Follows(log: seq<Message<Contribution>>, p: nat, watermark: int)
    requires p <= |log|
  {
    watermark <= NO_WATERMARK || exists j :: 0 <= j < p && log[j].Mark? && watermark <= log[j].watermark
  }

  /** No contribution of either join reaches the aggregate after its row has been frozen. */
  lemma NeverFrozen(r: Rules, u: World, steps: seq<Step>, log: seq<Message<Contribution>>, p: nat, watermark: int)
    requires ValidRules(r) && WellFormed(u) && AllowedRun(r, u, steps)
    requires log == Run(r, u, steps).exposure.metrics || log == Run(r, u, steps).conversion.metrics
    requires p < |log| && log[p].Record? && Follows(log, p, watermark)
    ensures watermark < Cleanup(log[p].value, r)
  {
    RunKeeps(r, u, steps);
    assert EI.ContributionTimely(r, log, p);
  }

  // What the exposure join contributes.

  ghost predicate ImpressionCounted(r: Rules, u: World, s: State)
    requires r.window > 0
  {
    forall m :: Record(m) in s.exposure.metrics <==>
      s.impressionSeen && u.impression.Some? && m in ImpressionMetrics(u.impression.value, r)
  }

  lemma {:induction false} FiringAddsNoMetrics(r: Rules, s: E.State, w: int)
    ensures E.FireDue(r, s, w).metrics == s.metrics
    decreases |s.timers|
  {
    var due := Due(s.timers, w);
    if due != {} {
      var t := Least(due);
      E.FireStep(r, s, w, t);
      assert s.timers - {t} < s.timers;
      FiringAddsNoMetrics(r, E.OnTimer(r, s.(timers := s.timers - {t}), t), w);
    }
  }

  lemma MarkAddsNoRecord(log: seq<Message<Contribution>>, w: int, m: Contribution)
    ensures Record(m) in log + [Mark(w)] <==> Record(m) in log
  {
  }

  lemma TickCounts(r: Rules, u: World, s: State, w: int)
    requires r.window > 0 && ImpressionCounted(r, u, s)
    ensures ImpressionCounted(r, u, Next(r, u, s, ExposureTicks(w)))
  {
    if s.exposure.watermark < w {
      FiringAddsNoMetrics(r, s.exposure.(watermark := w), w);
      forall m
        ensures Record(m) in s.exposure.metrics + [Mark(w)] <==> Record(m) in s.exposure.metrics
      {
        MarkAddsNoRecord(s.exposure.metrics, w, m);
      }
    }
  }

  lemma ArrivalCounts(r: Rules, u: World, s: State, e: Event)
    requires ValidRules(r) && WellFormed(u) && Inv(r, u, s) && Allowed(r, u, s, ExposureArrives(e))
             && ImpressionCounted(r, u, s)
    ensures ImpressionCounted(r, u, Next(r, u, s, ExposureArrives(e)))
  {
    if u.impression == Some(e) {
      LC.LogAppended(s.exposure.metrics, ImpressionMetrics(e, r));
    } else {
      assert E.Process(r, s.exposure, e).metrics == s.exposure.metrics;
    }
  }

  lemma OtherStepsCount(r: Rules, u: World, s: State, step: Step)
    requires r.window > 0 && ImpressionCounted(r, u, s) && !step.ExposureArrives? && !step.ExposureTicks?
    ensures ImpressionCounted(r, u, Next(r, u, s, step))
  {
    assert Next(r, u, s, step).exposure == s.exposure && Next(r, u, s, step).impressionSeen == s.impressionSeen;
  }

  lemma StepCounts(r: Rules, u: World, s: State, step: Step)
    requires ValidRules(r) && WellFormed(u) && Inv(r, u, s) && Allowed(r, u, s, step) && ImpressionCounted(r, u, s)
    ensures ImpressionCounted(r, u, Next(r, u, s, step))
  {
    match step
    case ExposureArrives(e) => ArrivalCounts(r, u, s, e);
    case ExposureTicks(w) => TickCounts(r, u, s, w);
    case _ => OtherStepsCount(r, u, s, step);
  }

  lemma {:induction false} RunCounts(r: Rules, u: World, steps: seq<Step>)
    requires ValidRules(r) && WellFormed(u) && AllowedRun(r, u, steps)
    ensures ImpressionCounted(r, u, Run(r, u, steps))
  {
    if steps != [] {
      RunKeeps(r, u, steps[..|steps| - 1]);
      RunCounts(r, u, steps[..|steps| - 1]);
      StepCounts(r, u, Run(r, u, steps[..|steps| - 1]), steps[|steps| - 1]);
    }
  }

  /** Everything has arrived, everything sent has been delivered, and every deadline has passed. */
  ghost predicate Finished(r: Rules, u: World, s: State) {
    && (u.impression.Some? ==> s.impressionSeen) && (u.click.Some? ==> s.clickSeen) && s.arrived == u.conversions
    && s.read == |s.exposure.out|
    && (u.click.Some? ==> u.click.value.time + r.wait <= s.exposure.watermark)
    && forall v :: v in u.conversions ==> v.time + r.wait <= s.conversion.watermark
  }

  /** All that the batch calculation attributes to the events of this lane. */
  ghost predicate FinalContribution(r: Rules, u: World, m: Contribution)
    requires r.window > 0
  {
    || (u.impression.Some? && m in ImpressionMetrics(u.impression.value, r))
    || (u.click.Some? && m in ClickMetrics(FinalClick(u, r).value, r))
    || exists v :: v in u.conversions && m in C.SettledMetrics(v, FinalClick(u, r), r)
  }

  ghost predicate Contributed(s: State, m: Contribution) {
    Record(m) in s.exposure.metrics || Record(m) in s.conversion.metrics
  }

  /** Once nothing more is to come, the click has been delivered and no conversion waits. */
  lemma FinishedIsSettled(r: Rules, u: World, s: State)
    requires ValidRules(r) && WellFormed(u) && Inv(r, u, s) && Finished(r, u, s)
    ensures !Missed(r, u, s) && s.conversion.waiting == [] && (u.click.Some? ==> s.delivered.Some?)
  {
    assert forall v :: LE.Owed(u, v, r) ==> u.click.Some?;
    if s.conversion.waiting != [] {
      CI.WaitingIsBounded(r, s.conversion, s.conversion.waiting[0]);
    }
    if u.click.Some? {
      assert u.click.value !in s.exposure.waiting;
      var j :| LE.Carries(s.exposure.out, j, u.key);
    }
  }

  lemma FinishedOutcome(r: Rules, u: World, s: State, v: Event)
    requires ValidRules(r) && WellFormed(u) && FullyPromised(u, r) && Inv(r, u, s) && Finished(r, u, s)
    requires v in u.conversions
    ensures Latest(s.conversion.associations, ConversionLink(v)).Some?
    ensures OutcomeOf(Latest(s.conversion.associations, ConversionLink(v)).value)
            == OutcomeOf(C.Settled(v, FinalClick(u, r), r))
  {
    FinishedIsSettled(r, u, s);
    WaitingOrJudged(r, u, s, v);
    var h := CO.History(s.conversion.associations, ConversionLink(v));
    VerdictIsRight(r, u, s, v, h[|h| - 1]);
  }

  lemma FinishedContributions(r: Rules, u: World, s: State, m: Contribution)
    requires ValidRules(r) && WellFormed(u) && FullyPromised(u, r) && Inv(r, u, s) && Finished(r, u, s)
    requires ImpressionCounted(r, u, s)
    ensures Contributed(s, m) <==> FinalContribution(r, u, m)
  {
    FinishedIsSettled(r, u, s);
    if Record(m) in s.conversion.metrics {
      assert LC.RightContribution(r, u, s.arrived, m);
    }
    if u.click.Some? && m in ClickMetrics(FinalClick(u, r).value, r) {
      assert LC.AllLogged(s.conversion.metrics, ClickMetrics(FinalClick(u, r).value, r));
    }
    if v :| v in u.conversions && m in C.SettledMetrics(v, FinalClick(u, r), r) {
      assert LC.AllLogged(s.conversion.metrics, C.SettledMetrics(v, FinalClick(u, r), r));
    }
  }

  /** Whatever the arrival order, the watermarks and the progress of either join: a finished lane whose legal pairs met
      in time has the batch calculation's outcome for every conversion and exactly its contributions. */
  lemma LaneRefinesBatch(r: Rules, u: World, steps: seq<Step>)
    requires ValidRules(r) && WellFormed(u) && FullyPromised(u, r)
    requires AllowedRun(r, u, steps) && Finished(r, u, Run(r, u, steps))
    ensures var s := Run(r, u, steps);
            && (forall v :: v in u.conversions ==>
                  Latest(s.conversion.associations, ConversionLink(v)).Some?
                  && OutcomeOf(Latest(s.conversion.associations, ConversionLink(v)).value)
                  == OutcomeOf(C.Settled(v, FinalClick(u, r), r)))
            && (forall m :: Contributed(s, m) <==> FinalContribution(r, u, m))
  {
    var s := Run(r, u, steps);
    RunKeeps(r, u, steps);
    RunCounts(r, u, steps);
    forall v | v in u.conversions
      ensures Latest(s.conversion.associations, ConversionLink(v)).Some?
      ensures OutcomeOf(Latest(s.conversion.associations, ConversionLink(v)).value)
              == OutcomeOf(C.Settled(v, FinalClick(u, r), r))
    {
      FinishedOutcome(r, u, s, v);
    }
    forall m
      ensures Contributed(s, m) <==> FinalContribution(r, u, m)
    {
      FinishedContributions(r, u, s, m);
    }
  }
}
