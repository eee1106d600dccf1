/** End to end: any run of the joins over clean events, feeding any runs of the aggregates, against the batch
    calculation. The joins contribute what the batch calculation adds up, whatever the schedule; the aggregates then end
    with its rows, exactly if no click without an impression has conversions that disagree. */
module Pipeline {
  import opened Seqs
  import opened Events
  import opened Measurement
  import opened Tallies
  import opened Dimensions
  import opened Streams
  import opened Oracle
  import opened Counting
  import opened Batch
  import opened BatchTotals
  import G = Aggregate
  import A = AggregateInvariant
  import C = ConversionJoin
  import L = Lane
  import LR = LaneRun
  import LO = LaneOutcomes

  /** What one impression key and one click key went through. Lanes that share an impression or a click are views of one
      operator's history; nothing here depends on their being told apart. */
  datatype Course = Course(world: L.World, steps: seq<LR.Step>)

  ghost function End(r: Rules, l: Course): LR.State
    requires r.window > 0
  {
    LR.Run(r, l.world, l.steps)
  }

  /** The events that the run holds for the keys of this lane. */
  ghost predicate Projects(events: seq<Event>, u: L.World) {
    && u.click == Find(Table(events, Click), u.key)
    && (u.click.Some? ==> u.impression == Find(Table(events, Impression), ImpressionLink(u.click.value)))
    && (u.impression.Some? ==> u.impression.value in events && u.impression.value.kind.Impression?)
    && (forall v :: v in u.conversions <==> v in events && v.kind.Conversion? && ClickLink(v) == u.key)
  }

  /** The lane ran to its end, dropped nothing as late, and its legal pairs met in time. */
  ghost predicate Complete(r: Rules, l: Course)
    requires r.window > 0
  {
    && L.FullyPromised(l.world, r) && LR.AllowedRun(r, l.world, l.steps) && LO.Finished(r, l.world, End(r, l))
  }

  predicate Holds(u: L.World, e: Event) { u.impression == Some(e) || u.click == Some(e) || e in u.conversions }

  /** Every event ran in some lane. */
  ghost predicate Covers(events: seq<Event>, r: Rules, lanes: seq<Course>)
    requires r.window > 0
  {
    && (forall l :: l in lanes ==> Projects(events, l.world) && Complete(r, l))
    && (forall e :: e in events ==> exists l :: l in lanes && Holds(l.world, e))
  }

  lemma ProjectionIsWellFormed(events: seq<Event>, u: L.World)
    requires Distinct(events, BusinessKey) && Projects(events, u)
    ensures L.WellFormed(u)
  {
    TableHolds(events, Click, u.key);
    forall v, w | v in u.conversions && w in u.conversions && ConversionLink(v) == ConversionLink(w)
      ensures v == w
    {
      KeyIsOneElement(events, BusinessKey, v, w);
    }
  }

  /** An event of a lane is an event of the run, and contributes in the lane what it contributes in the batch. */
  lemma HeldEvents(events: seq<Event>, r: Rules, u: L.World, e: Event)
    requires Distinct(events, BusinessKey) && Projects(events, u) && Holds(u, e)
    ensures e in events
    ensures e.kind.Click? ==> u.click == Some(e) && L.FinalClick(u, r) == Some(LinkOf(events, e, r))
    ensures e.kind.Conversion? ==> e in u.conversions && L.FinalClick(u, r) == LinkedClickOf(events, e, r)
    ensures e.kind.Impression? ==> u.impression == Some(e)
  {
    TableHolds(events, Click, u.key);
  }

  lemma LaneContributes(events: seq<Event>, r: Rules, l: Course, m: Contribution)
    requires ValidRules(r) && Distinct(events, BusinessKey) && Projects(events, l.world) && Complete(r, l)
    ensures LO.Contributed(End(r, l), m) <==> exists e :: Holds(l.world, e) && m in ContributionsOf(events, e, r)
  {
    var u := l.world;
    ProjectionIsWellFormed(events, u);
    LO.LaneRefinesBatch(r, u, l.steps);
    assert LO.Contributed(End(r, l), m) <==> LO.FinalContribution(r, u, m);
    forall e | Holds(u, e)
      ensures m in ContributionsOf(events, e, r) ==> LO.FinalContribution(r, u, m)
      ensures u.impression == Some(e) ==> ContributionsOf(events, e, r) == ImpressionMetrics(e, r)
      ensures u.click == Some(e) ==> ContributionsOf(events, e, r) == ClickMetrics(L.FinalClick(u, r).value, r)
      ensures e in u.conversions ==> ContributionsOf(events, e, r) == C.SettledMetrics(e, L.FinalClick(u, r), r)
    {
      HeldEvents(events, r, u, e);
    }
    if u.impression.Some? { assert Holds(u, u.impression.value); }
    if u.click.Some? { assert Holds(u, u.click.value); }
  }

  ghost predicate SomeLaneContributed(r: Rules, lanes: seq<Course>, m: Contribution)
    requires r.window > 0
  {
    exists l :: l in lanes && LO.Contributed(End(r, l), m)
  }

  /** The joins contribute exactly what the batch calculation counts: nothing is lost, nothing is invented. */
  lemma JoinsContributeTheBatch(events: seq<Event>, r: Rules, lanes: seq<Course>, m: Contribution)
    requires ValidRules(r) && Distinct(events, BusinessKey) && Covers(events, r, lanes)
    ensures SomeLaneContributed(r, lanes, m) <==> m in ContributedBy(events, Ordered(events), r)
  {
    OrderedIsReordered(events);
    ContributedMember(events, Ordered(events), r, m);
    forall l | l in lanes
      ensures LO.Contributed(End(r, l), m) <==> exists e :: Holds(l.world, e) && m in ContributionsOf(events, e, r)
    {
      LaneContributes(events, r, l, m);
    }
    if SomeLaneContributed(r, lanes, m) {
      var l :| l in lanes && LO.Contributed(End(r, l), m);
      var e :| Holds(l.world, e) && m in ContributionsOf(events, e, r);
      HeldEvents(events, r, l.world, e);
    }
  }

  /** Every conversion ends with the status, experiment and variant that the batch calculation gives it. */
  lemma EveryConversionEndsAsInBatch(events: seq<Event>, r: Rules, lanes: seq<Course>, l: Course, v: Event)
    requires ValidRules(r) && Distinct(events, BusinessKey) && Covers(events, r, lanes)
    requires l in lanes && v.kind.Conversion? && Holds(l.world, v)
    ensures var last := LO.Latest(End(r, l).conversion.associations, ConversionLink(v));
            last.Some? && OutcomeOf(last.value) == OutcomeOf(AssociationOf(events, v, r))
  {
    ProjectionIsWellFormed(events, l.world);
    HeldEvents(events, r, l.world, v);
    LO.LaneRefinesBatch(r, l.world, l.steps);
    AssociationsAgree(events, v, r);
  }

  // The aggregates.

  /** The contribution is read from a join's metric stream by a consumer standing at `watermark`. */
  ghost predicate Read(r: Rules, l: Course, m: Contribution, watermark: int)
    requires r.window > 0
  {
    exists log, p :: (log == End(r, l).exposure.metrics || log == End(r, l).conversion.metrics)
                     && 0 <= p < |log| && log[p] == Record(m) && LO.Follows(log, p, watermark)
  }

  /** The aggregate of one row reads each of its contributions at least once, in any order, never ahead of the stream
      that it comes from; nothing else reaches it. Clock and watermark move freely in between. */
  ghost predicate Fed(r: Rules, ds: seq<Dimension>, lanes: seq<Course>, key: MetricKey, steps: seq<A.Step>)
    requires r.window > 0
  {
    && (forall n :: 0 <= n < |steps| && steps[n].Arrive? ==> Arrived(r, ds, lanes, key, steps, n))
    && (forall m :: SomeLaneContributed(r, lanes, m) && RowOf(m, ds) == key ==> A.Arrive(m) in steps)
  }

  ghost predicate Arrived(r: Rules, ds: seq<Dimension>, lanes: seq<Course>, key: MetricKey, steps: seq<A.Step>, n: nat)
    requires r.window > 0 && n < |steps| && steps[n].Arrive?
  {
    && RowOf(steps[n].contribution, ds) == key
    && exists l :: l in lanes && Read(r, l, steps[n].contribution, A.Run(r, steps[..n]).state.watermark)
  }

  function CleanupOf(key: MetricKey, r: Rules): nat { key.row.window + r.window + r.retention }

  lemma ReadIsTimely(r: Rules, l: Course, m: Contribution, watermark: int)
    requires ValidRules(r) && L.WellFormed(l.world) && LR.AllowedRun(r, l.world, l.steps) && Read(r, l, m, watermark)
    ensures watermark < Cleanup(m, r) && LO.Contributed(End(r, l), m)
  {
    var log, p :| (log == End(r, l).exposure.metrics || log == End(r, l).conversion.metrics)
                  && 0 <= p < |log| && log[p] == Record(m) && LO.Follows(log, p, watermark);
    LO.NeverFrozen(r, l.world, l.steps, log, p, watermark);
    assert Record(m) in log;
  }

  /** The part of a run's feed that has been read. */
  ghost predicate FedSoFar(r: Rules, ds: seq<Dimension>, lanes: seq<Course>, key: MetricKey, steps: seq<A.Step>)
    requires r.window > 0
  {
    forall n :: 0 <= n < |steps| && steps[n].Arrive? ==> Arrived(r, ds, lanes, key, steps, n)
  }

  lemma FedInit(r: Rules, ds: seq<Dimension>, lanes: seq<Course>, key: MetricKey, steps: seq<A.Step>)
    requires r.window > 0 && steps != [] && FedSoFar(r, ds, lanes, key, steps)
    ensures FedSoFar(r, ds, lanes, key, steps[..|steps| - 1])
  {
    var init := steps[..|steps| - 1];
    forall n | 0 <= n < |init| && init[n].Arrive?
      ensures Arrived(r, ds, lanes, key, init, n)
    {
      assert init[n] == steps[n] && init[..n] == steps[..n];
      assert Arrived(r, ds, lanes, key, steps, n);
    }
  }

  /** Nothing that is read comes too late: the aggregate accepts exactly what arrives. */
  lemma {:induction false} EverythingIsAccepted(events: seq<Event>, r: Rules, ds: seq<Dimension>, lanes: seq<Course>,
                                                key: MetricKey, steps: seq<A.Step>, m: Contribution)
    requires ValidRules(r) && Distinct(events, BusinessKey) && Covers(events, r, lanes)
             && FedSoFar(r, ds, lanes, key, steps)
    ensures m in A.Run(r, steps).accepted <==> A.Arrive(m) in steps
    ensures A.Arrive(m) in steps ==> RowOf(m, ds) == key && SomeLaneContributed(r, lanes, m)
  {
    if steps != [] {
      var init, last := steps[..|steps| - 1], steps[|steps| - 1];
      assert steps == init + [last];
      FedInit(r, ds, lanes, key, steps);
      EverythingIsAccepted(events, r, ds, lanes, key, init, m);
      if last.Arrive? {
        assert Arrived(r, ds, lanes, key, steps, |init|);
        var l :| l in lanes && Read(r, l, last.contribution, A.Run(r, init).state.watermark);
        ProjectionIsWellFormed(events, l.world);
        ReadIsTimely(r, l, last.contribution, A.Run(r, init).state.watermark);
      }
    }
  }

  /** The value that a row's snapshots end with. */
  function FinalValue(t: A.Trace): Tally { if t.state.out == [] then ZERO else t.state.out[|t.state.out| - 1].values }

  lemma {:induction false} NothingInNothingOut(r: Rules, steps: seq<A.Step>, cleanup: int)
    requires A.OfRow(r, steps, cleanup) && NO_WATERMARK < cleanup && A.Run(r, steps).accepted == []
    ensures A.Run(r, steps).state.out == [] && A.Run(r, steps).state.aggregate.None?
  {
    if steps != [] {
      var init, step := steps[..|steps| - 1], steps[|steps| - 1];
      var t := A.Run(r, init);
      NothingInNothingOut(r, init, cleanup);
      A.RunKeeps(r, init, cleanup);
      if A.Next(r, t.state, step).out != t.state.out {
        A.SnapshotIsCurrent(r, t.state, cleanup, t.pending, step);
      }
      StaysEmpty(r, t.state, cleanup, t.pending, step);
    }
  }

  lemma StaysEmpty(r: Rules, s: G.State, cleanup: int, pending: seq<Contribution>, step: A.Step)
    requires A.Inv(r, s, cleanup, pending) && s.aggregate.None? && !A.Accepts(r, s, step)
    requires step.Arrive? ==> Cleanup(step.contribution, r) == cleanup
    ensures A.Next(r, s, step).aggregate.None?
  {
    match step
    case Arrive(c) =>
    case ClockReaches(p) =>
      if s.clock < p { A.EmitsOnce(s.(clock := p)); }
    case WatermarkReaches(w) =>
      if s.watermark < w { A.CleansOnce(s.(watermark := w), cleanup); }
  }

  /** The last snapshot of a row, once no emission is pending, is the fold of the batch contributions of that row. */
  lemma SnapshotsEndAsRowTotals(events: seq<Event>, r: Rules, ds: seq<Dimension>, lanes: seq<Course>, key: MetricKey,
                                steps: seq<A.Step>)
    requires ValidRules(r) && Distinct(events, BusinessKey) && Covers(events, r, lanes) && Fed(r, ds, lanes, key, steps)
    requires A.Run(r, steps).state.nextEmit.None?
    ensures FinalValue(A.Run(r, steps)) == Sum(RowFold(ContributedBy(events, Ordered(events), r), key, ds))
  {
    var t, ms := A.Run(r, steps), ContributedBy(events, Ordered(events), r);
    assert FedSoFar(r, ds, lanes, key, steps);
    forall n | 0 <= n < |steps| && steps[n].Arrive?
      ensures Cleanup(steps[n].contribution, r) == CleanupOf(key, r)
    {
      assert Arrived(r, ds, lanes, key, steps, n);
    }
    forall m
      ensures m in t.accepted <==> m in Filter(ms, OfKey(key, ds))
    {
      EverythingIsAccepted(events, r, ds, lanes, key, steps, m);
      JoinsContributeTheBatch(events, r, lanes, m);
      FilterMember(ms, OfKey(key, ds), m);
    }
    SameValuesInRow(events, r, ds, key);
    FoldOfSameSet(t.accepted, Filter(ms, OfKey(key, ds)));
    if t.accepted == [] {
      NothingInNothingOut(r, steps, CleanupOf(key, r));
    } else {
      A.QuietMeansCurrent(r, steps, CleanupOf(key, r));
    }
  }

  lemma SameValuesInRow(events: seq<Event>, r: Rules, ds: seq<Dimension>, key: MetricKey)
    requires r.window > 0 && Distinct(events, BusinessKey)
    ensures var row := Filter(ContributedBy(events, Ordered(events), r), OfKey(key, ds));
            forall a, b :: a in row && b in row && a.id == b.id ==> ValuesOf(a) == ValuesOf(b)
  {
    var ms := ContributedBy(events, Ordered(events), r);
    OrderedIsReordered(events);
    OnlyClaimsRepeat(events, Ordered(events), r, ds);
    var row := Filter(ms, OfKey(key, ds));
    forall a, b | a in row && b in row && a.id == b.id
      ensures ValuesOf(a) == ValuesOf(b)
    {
      FilterMember(ms, OfKey(key, ds), a);
      FilterMember(ms, OfKey(key, ds), b);
      SameIdSameValues(ms, a, b);
    }
  }

  /** A run of the aggregate for every row. */
  ghost predicate AllFedAndQuiet(r: Rules, ds: seq<Dimension>, lanes: seq<Course>, rows: MetricKey -> seq<A.Step>)
    requires r.window > 0
  {
    forall key :: Fed(r, ds, lanes, key, rows(key)) && A.Run(r, rows(key)).state.nextEmit.None?
  }

  /** The whole pipeline meets the batch calculation. Whatever the arrival order, the schedule of watermarks and timers,
      the duplication between joins and aggregates: the final value of every metric row is the batch calculation's,
      exactly if the conversions of every click without an impression agree on region and version. */
  lemma PipelineMeetsCalculation(events: seq<Event>, r: Rules, ds: seq<Dimension>, lanes: seq<Course>,
                                 rows: MetricKey -> seq<A.Step>)
    requires ValidRules(r) && Distinct(events, BusinessKey) && Covers(events, r, lanes)
             && AllFedAndQuiet(r, ds, lanes, rows)
    ensures (forall key :: FinalValue(A.Run(r, rows(key))) == At(Rows(AddedBy(events, Ordered(events), r, ds)), key))
            <==> UnlinkedConversionsAgree(events, r)
  {
    var ms, metrics := ContributedBy(events, Ordered(events), r), Rows(AddedBy(events, Ordered(events), r, ds));
    AggregationMeetsCalculation(events, r, ds);
    forall key
      ensures FinalValue(A.Run(r, rows(key))) == Sum(RowFold(ms, key, ds))
    {
      SnapshotsEndAsRowTotals(events, r, ds, lanes, key, rows(key));
    }
  }
}
