/** Every set of clean events has a run that takes all of them through: the schedules that the end-to-end results speak
    of exist, whatever the events. */
module Schedules {
  import opened Seqs
  import opened Events
  import opened Measurement
  import opened Streams
  import opened Dimensions
  import opened Oracle
  import opened Batch
  import opened Pipeline
  import L = Lane
  import LR = LaneRun
  import LO = LaneOutcomes
  import E = ExposureJoin
  import C = ConversionJoin
  import A = AggregateInvariant
  import S = Staleness
  import Counting

  // One lane.

  lemma RunOneMore(r: Rules, u: L.World, steps: seq<LR.Step>, step: LR.Step)
    requires r.window > 0 && LR.AllowedRun(r, u, steps) && LR.Allowed(r, u, LR.Run(r, u, steps), step)
    ensures LR.AllowedRun(r, u, steps + [step])
    ensures LR.Run(r, u, steps + [step]) == LR.Next(r, u, LR.Run(r, u, steps), step)
  {
    assert (steps + [step])[..|steps|] == steps;
  }

  /** Everything is promised to meet in time. */
  predicate PromisesAll(u: L.World) { u.linkPromised && u.promised == u.conversions }

  /** A run in which no watermark has come yet. */
  ghost predicate Early(r: Rules, u: L.World, steps: seq<LR.Step>)
    requires r.window > 0
  {
    var s := LR.Run(r, u, steps);
    && LR.AllowedRun(r, u, steps)
    && s.exposure.watermark == s.conversion.watermark == s.other == s.mark == NO_WATERMARK && s.read == 0
  }

  lemma ProcessingKeepsTime(r: Rules, s: E.State, t: C.State, e: Event)
    requires r.window > 0
    ensures E.Process(r, s, e).watermark == s.watermark
    ensures C.Process(r, t, C.OfConversion(e)).watermark == t.watermark
  {
  }

  /** The impression and the click, if there are any. */
  lemma {:induction false} ExposureCanArrive(r: Rules, u: L.World) returns (steps: seq<LR.Step>)
    requires ValidRules(r) && L.WellFormed(u)
    ensures Early(r, u, steps) && LR.Run(r, u, steps).arrived == {}
    ensures (u.impression.Some? ==> LR.Run(r, u, steps).impressionSeen)
    ensures (u.click.Some? ==> LR.Run(r, u, steps).clickSeen)
  {
    steps := [];
    if u.impression.Some? {
      var step := LR.ExposureArrives(u.impression.value);
      RunOneMore(r, u, steps, step);
      ProcessingKeepsTime(r, LR.Run(r, u, steps).exposure, LR.Run(r, u, steps).conversion, u.impression.value);
      steps := steps + [step];
    }
    if u.click.Some? {
      var step := LR.ExposureArrives(u.click.value);
      RunOneMore(r, u, steps, step);
      ProcessingKeepsTime(r, LR.Run(r, u, steps).exposure, LR.Run(r, u, steps).conversion, u.click.value);
      steps := steps + [step];
    }
  }

  /** `t` has `vs` more conversions than `s`, and otherwise as much. */
  ghost predicate MoreArrived(s: LR.State, t: LR.State, vs: set<Event>) {
    t.arrived == s.arrived + vs && t.impressionSeen == s.impressionSeen && t.clickSeen == s.clickSeen
  }

  lemma MoreArrivedTwice(s: LR.State, t: LR.State, w: LR.State, v: Event, vs: set<Event>)
    requires v in vs && MoreArrived(s, t, {v}) && MoreArrived(t, w, vs - {v})
    ensures MoreArrived(s, w, vs)
  {
    assert {v} + (vs - {v}) == vs;
  }

  lemma OneConversionArrives(r: Rules, u: L.World, before: seq<LR.Step>, v: Event)
    requires ValidRules(r) && Early(r, u, before) && v in u.conversions && v !in LR.Run(r, u, before).arrived
    ensures var steps := before + [LR.ConversionArrives(v)];
            Early(r, u, steps) && MoreArrived(LR.Run(r, u, before), LR.Run(r, u, steps), {v})
  {
    RunOneMore(r, u, before, LR.ConversionArrives(v));
    ProcessingKeepsTime(r, LR.Run(r, u, before).exposure, LR.Run(r, u, before).conversion, v);
  }

  lemma {:induction false} ConversionsCanArrive(r: Rules, u: L.World, before: seq<LR.Step>, vs: set<Event>)
    returns (steps: seq<LR.Step>)
    requires ValidRules(r) && Early(r, u, before) && vs <= u.conversions && vs !! LR.Run(r, u, before).arrived
    ensures Early(r, u, steps) && MoreArrived(LR.Run(r, u, before), LR.Run(r, u, steps), vs)
    decreases |vs|
  {
    steps := before;
    if vs != {} {
      var v :| v in vs;
      OneConversionArrives(r, u, before, v);
      var next := before + [LR.ConversionArrives(v)];
      assert vs - {v} !! LR.Run(r, u, next).arrived;
      steps := ConversionsCanArrive(r, u, next, vs - {v});
      MoreArrivedTwice(LR.Run(r, u, before), LR.Run(r, u, next), LR.Run(r, u, steps), v, vs);
    }
  }

  /** `t` has read further than `s`, up to `read`, and stands at least at every mark in between. */
  ghost predicate ReadOn(s: LR.State, t: LR.State, read: nat) {
    && t.exposure == s.exposure && t.read == read && t.other == s.other
    && t.arrived == s.arrived && t.impressionSeen == s.impressionSeen && t.clickSeen == s.clickSeen
    && s.mark <= t.mark
    && forall j :: s.read <= j < read && j < |s.exposure.out| && s.exposure.out[j].Mark? ==>
         s.exposure.out[j].watermark <= t.mark
  }

  lemma ReadOnTwice(s: LR.State, t: LR.State, v: LR.State, read: nat)
    requires ReadOn(s, t, s.read + 1) && ReadOn(t, v, read)
    ensures ReadOn(s, v, read)
  {
  }

  lemma DeliveringReads(r: Rules, u: L.World, s: LR.State)
    requires r.window > 0 && s.read < |s.exposure.out|
    ensures ReadOn(s, LR.Next(r, u, s, LR.Deliver), s.read + 1)
  {
  }

  /** The reader delivers what is left. */
  lemma {:induction false} OutputCanBeDelivered(r: Rules, u: L.World, before: seq<LR.Step>)
    returns (steps: seq<LR.Step>)
    requires r.window > 0 && LR.AllowedRun(r, u, before)
    requires LR.Run(r, u, before).read <= |LR.Run(r, u, before).exposure.out|
    ensures LR.AllowedRun(r, u, steps)
    ensures var s := LR.Run(r, u, before); ReadOn(s, LR.Run(r, u, steps), |s.exposure.out|)
    decreases |LR.Run(r, u, before).exposure.out| - LR.Run(r, u, before).read
  {
    steps := before;
    var s := LR.Run(r, u, before);
    if s.read < |s.exposure.out| {
      RunOneMore(r, u, before, LR.Deliver);
      DeliveringReads(r, u, s);
      steps := OutputCanBeDelivered(r, u, before + [LR.Deliver]);
      ReadOnTwice(s, LR.Run(r, u, before + [LR.Deliver]), LR.Run(r, u, steps), |s.exposure.out|);
    }
  }

  lemma AdvancingReaches(r: Rules, s: E.State, t: C.State, w: int)
    requires r.window > 0
    ensures E.Advance(r, s, w).watermark == if w <= s.watermark then s.watermark else w
    ensures s.watermark < w ==>
              var out := E.Advance(r, s, w).out; out != [] && out[|out| - 1] == Mark(w)
    ensures C.Advance(r, t, w).watermark == if w <= t.watermark then t.watermark else w
  {
    if s.watermark < w { FiringKeepsWatermark(r, s.(watermark := w), w); }
    if t.watermark < w { ConversionFiringKeepsWatermark(r, t.(watermark := w), w); }
  }

  lemma {:induction false} FiringKeepsWatermark(r: Rules, s: E.State, w: int)
    ensures E.FireDue(r, s, w).watermark == s.watermark
    decreases |s.timers|
  {
    var due := Due(s.timers, w);
    if due != {} {
      var t := Least(due);
      assert s.timers - {t} < s.timers;
      E.FireStep(r, s, w, t);
      FiringKeepsWatermark(r, E.OnTimer(r, s.(timers := s.timers - {t}), t), w);
    }
  }

  lemma {:induction false} ConversionFiringKeepsWatermark(r: Rules, s: C.State, w: int)
    requires r.window > 0
    ensures C.FireDue(r, s, w).watermark == s.watermark
    decreases |s.waiting|, |s.timers|
  {
    var due := Due(s.timers, w);
    if due != {} {
      var t := Least(due);
      C.FireStep(r, s, w, t);
      C.FiringProgresses(r, s, t);
      ConversionFiringKeepsWatermark(r, C.OnTimer(r, s.(timers := s.timers - {t}), t), w);
    }
  }

  /** An instant by which every deadline of the lane has passed. */
  ghost predicate PastAll(r: Rules, u: L.World, w: int) {
    && 0 <= w && (u.click.Some? ==> u.click.value.time + r.wait <= w)
    && forall v :: v in u.conversions ==> v.time + r.wait <= w
  }

  lemma {:induction false} SomeEnd(r: Rules, vs: set<Event>, at: int) returns (w: int)
    ensures at <= w && forall v :: v in vs ==> v.time + r.wait <= w
    decreases |vs|
  {
    w := at;
    if vs != {} {
      var v :| v in vs;
      w := SomeEnd(r, vs - {v}, if at < v.time + r.wait then v.time + r.wait else at);
      forall x | x in vs
        ensures x.time + r.wait <= w
      {
        assert x == v || x in vs - {v};
      }
    }
  }

  /** Once everything has arrived, the watermark can pass every deadline and everything be delivered. */
  lemma {:induction false} LaneCanFinish(r: Rules, u: L.World, arrived: seq<LR.Step>, w: int)
    returns (steps: seq<LR.Step>)
    requires ValidRules(r) && L.WellFormed(u) && Early(r, u, arrived) && PastAll(r, u, w)
    requires var s := LR.Run(r, u, arrived);
             && s.arrived == u.conversions
             && (u.impression.Some? ==> s.impressionSeen) && (u.click.Some? ==> s.clickSeen)
    ensures LR.AllowedRun(r, u, steps) && LO.Finished(r, u, LR.Run(r, u, steps))
  {
    var s := LR.Run(r, u, arrived);
    RunOneMore(r, u, arrived, LR.ExposureTicks(w));
    AdvancingReaches(r, s.exposure, s.conversion, w);
    var delivered := OutputCanBeDelivered(r, u, arrived + [LR.ExposureTicks(w)]);
    var t := LR.Run(r, u, delivered);
    RunOneMore(r, u, delivered, LR.OtherInputTicks(w));
    AdvancingReaches(r, t.exposure, t.conversion, LR.Min(t.mark, w));
    steps := delivered + [LR.OtherInputTicks(w)];
  }

  /** Every lane has a complete run. */
  lemma LaneCanComplete(r: Rules, u: L.World) returns (steps: seq<LR.Step>)
    requires ValidRules(r) && L.WellFormed(u) && PromisesAll(u)
    ensures Complete(r, Course(u, steps))
  {
    var exposed := ExposureCanArrive(r, u);
    var arrived := ConversionsCanArrive(r, u, exposed, u.conversions);
    var w := SomeEnd(r, u.conversions, if u.click.Some? then u.click.value.time + r.wait else 0);
    steps := LaneCanFinish(r, u, arrived, w);
  }

  // All lanes of a set of events.

  /** The lane of one click key; without a click of that key, it may carry an impression. */
  function WorldOf(events: seq<Event>, key: Link, impression: Option<Event>): L.World {
    var click := Find(Table(events, Click), key);
    var vs := set v | v in events && v.kind.Conversion? && ClickLink(v) == key;
    L.World(key, if click.Some? then Find(Table(events, Impression), ImpressionLink(click.value)) else impression,
            click, vs, true, vs)
  }

  lemma WorldProjects(events: seq<Event>, key: Link, impression: Option<Event>)
    requires Distinct(events, BusinessKey)
    requires impression.Some? ==> impression.value in events && impression.value.kind.Impression?
    ensures var u := WorldOf(events, key, impression); Projects(events, u) && PromisesAll(u) && L.WellFormed(u)
  {
    var u := WorldOf(events, key, impression);
    TableHolds(events, Click, key);
    if u.click.Some? { TableHolds(events, Impression, ImpressionLink(u.click.value)); }
    ProjectionIsWellFormed(events, u);
  }

  /** A text longer than those of all clicks. */
  lemma {:induction false} SomeFreshKey(events: seq<Event>) returns (key: Link)
    ensures forall e :: e in events && e.kind.Click? ==> |e.clickId| < |key.id|
  {
    if events == [] {
      key := Link("", "", "");
    } else {
      var init, last := events[..|events| - 1], events[|events| - 1];
      assert events == init + [last];
      key := SomeFreshKey(init);
      if |key.id| <= |last.clickId| { key := key.(id := last.clickId + "x"); }
    }
  }

  /** Every event is held by some lane. */
  lemma LaneOf(events: seq<Event>, e: Event) returns (u: L.World)
    requires Distinct(events, BusinessKey) && e in events
    ensures Projects(events, u) && PromisesAll(u) && L.WellFormed(u) && Holds(u, e)
  {
    match e.kind
    case Impression =>
      var key := SomeFreshKey(events);
      u := WorldOf(events, key, Some(e));
      WorldProjects(events, key, Some(e));
      TableHolds(events, Click, key);
    case Click =>
      u := WorldOf(events, ClickLink(e), None);
      WorldProjects(events, ClickLink(e), None);
      TableHolds(events, Click, ClickLink(e));
      KeyIsOneElement(events, BusinessKey, e, u.click.value);
    case Conversion =>
      u := WorldOf(events, ClickLink(e), None);
      WorldProjects(events, ClickLink(e), None);
  }

  lemma {:induction false} LanesCanCover(events: seq<Event>, r: Rules, es: seq<Event>) returns (lanes: seq<Course>)
    requires ValidRules(r) && Distinct(events, BusinessKey) && forall e :: e in es ==> e in events
    ensures forall l :: l in lanes ==> Projects(events, l.world) && Complete(r, l)
    ensures forall e :: e in es ==> exists l :: l in lanes && Holds(l.world, e)
  {
    if es == [] {
      lanes := [];
    } else {
      var init, last := es[..|es| - 1], es[|es| - 1];
      assert es == init + [last];
      var rest := LanesCanCover(events, r, init);
      var u := LaneOf(events, last);
      var steps := LaneCanComplete(r, u);
      lanes := rest + [Course(u, steps)];
      assert Course(u, steps) in lanes && forall l :: l in rest ==> l in lanes;
    }
  }

  // The aggregates of such a run.

  function Arrivals(ms: seq<Contribution>): (steps: seq<A.Step>)
    ensures |steps| == |ms| && forall n :: 0 <= n < |ms| ==> steps[n] == A.Arrive(ms[n])
  {
    if ms == [] then [] else Arrivals(ms[..|ms| - 1]) + [A.Arrive(ms[|ms| - 1])]
  }

  /** A row's contributions, one after the other, and then the clock moves on by the interval. */
  function FeedOf(events: seq<Event>, r: Rules, ds: seq<Dimension>, key: MetricKey): seq<A.Step>
    requires r.window > 0
  {
    Arrivals(Filter(ContributedBy(events, Ordered(events), r), Counting.OfKey(key, ds))) + [A.ClockReaches(r.emit)]
  }

  lemma {:induction false} ArrivalsKeepTime(r: Rules, steps: seq<A.Step>)
    requires forall n :: 0 <= n < |steps| ==> steps[n].Arrive?
    ensures A.Run(r, steps).state.watermark == NO_WATERMARK && A.Run(r, steps).state.clock == 0
  {
    if steps != [] { ArrivalsKeepTime(r, steps[..|steps| - 1]); }
  }

  lemma FeedIsQuiet(r: Rules, steps: seq<A.Step>, cleanup: int)
    requires r.emit > 0 && A.OfRow(r, steps, cleanup) && NO_WATERMARK < cleanup
    requires forall n :: 0 <= n < |steps| ==> steps[n].Arrive?
    ensures A.Run(r, steps + [A.ClockReaches(r.emit)]).state.nextEmit.None?
  {
    var s := A.Run(r, steps).state;
    ArrivalsKeepTime(r, steps);
    S.EmissionIsDue(r, steps, cleanup);
    A.RunKeeps(r, steps, cleanup);
    assert (steps + [A.ClockReaches(r.emit)])[..|steps|] == steps;
    A.EmitsOnce(s.(clock := r.emit));
  }

  lemma FeedIsRead(events: seq<Event>, r: Rules, ds: seq<Dimension>, lanes: seq<Course>, key: MetricKey, n: nat)
    requires ValidRules(r) && Distinct(events, BusinessKey) && Covers(events, r, lanes)
    requires n < |FeedOf(events, r, ds, key)| && FeedOf(events, r, ds, key)[n].Arrive?
    ensures Arrived(r, ds, lanes, key, FeedOf(events, r, ds, key), n)
  {
    var steps := FeedOf(events, r, ds, key);
    var m := steps[n].contribution;
    FeedHolds(events, r, ds, key, n);
    JoinsContributeTheBatch(events, r, lanes, m);
    var l :| l in lanes && LO.Contributed(End(r, l), m);
    LaneIsRead(r, l, m);
  }

  lemma FeedHolds(events: seq<Event>, r: Rules, ds: seq<Dimension>, key: MetricKey, n: nat)
    requires r.window > 0 && n < |FeedOf(events, r, ds, key)| && FeedOf(events, r, ds, key)[n].Arrive?
    ensures var steps := FeedOf(events, r, ds, key);
            && steps[n].contribution in ContributedBy(events, Ordered(events), r)
            && Counting.RowOf(steps[n].contribution, ds) == key
            && A.Run(r, steps[..n]).state.watermark == NO_WATERMARK
  {
    var ms := Filter(ContributedBy(events, Ordered(events), r), Counting.OfKey(key, ds));
    var steps := FeedOf(events, r, ds, key);
    assert n < |ms| && ms[n] == steps[n].contribution && ms[n] in ms;
    FilterMember(ContributedBy(events, Ordered(events), r), Counting.OfKey(key, ds), ms[n]);
    ArrivalsKeepTime(r, steps[..n]);
  }

  lemma LaneIsRead(r: Rules, l: Course, m: Contribution)
    requires r.window > 0 && LO.Contributed(End(r, l), m)
    ensures Read(r, l, m, NO_WATERMARK)
  {
    var log := if Record(m) in End(r, l).exposure.metrics then End(r, l).exposure.metrics
               else End(r, l).conversion.metrics;
    var p :| 0 <= p < |log| && log[p] == Record(m);
    assert LO.Follows(log, p, NO_WATERMARK);
  }

  lemma FeedTakesAll(events: seq<Event>, r: Rules, ds: seq<Dimension>, key: MetricKey, m: Contribution)
    requires r.window > 0 && m in ContributedBy(events, Ordered(events), r) && Counting.RowOf(m, ds) == key
    ensures A.Arrive(m) in FeedOf(events, r, ds, key)
  {
    var all := ContributedBy(events, Ordered(events), r);
    var ms := Filter(all, Counting.OfKey(key, ds));
    FilterMember(all, Counting.OfKey(key, ds), m);
    var n :| 0 <= n < |ms| && ms[n] == m;
    assert FeedOf(events, r, ds, key)[n] == A.Arrive(m);
  }

  lemma FeedEndsQuiet(events: seq<Event>, r: Rules, ds: seq<Dimension>, key: MetricKey)
    requires ValidRules(r)
    ensures A.Run(r, FeedOf(events, r, ds, key)).state.nextEmit.None?
  {
    var all := ContributedBy(events, Ordered(events), r);
    var ms := Filter(all, Counting.OfKey(key, ds));
    forall n | 0 <= n < |Arrivals(ms)|
      ensures Cleanup(Arrivals(ms)[n].contribution, r) == CleanupOf(key, r)
    {
      assert ms[n] in ms;
      FilterMember(all, Counting.OfKey(key, ds), ms[n]);
    }
    FeedIsQuiet(r, Arrivals(ms), CleanupOf(key, r));
  }

  lemma FeedIsComplete(events: seq<Event>, r: Rules, ds: seq<Dimension>, lanes: seq<Course>, key: MetricKey)
    requires ValidRules(r) && Distinct(events, BusinessKey) && Covers(events, r, lanes)
    ensures Fed(r, ds, lanes, key, FeedOf(events, r, ds, key))
  {
    var steps := FeedOf(events, r, ds, key);
    forall n | 0 <= n < |steps| && steps[n].Arrive?
      ensures Arrived(r, ds, lanes, key, steps, n)
    {
      FeedIsRead(events, r, ds, lanes, key, n);
    }
    forall m | SomeLaneContributed(r, lanes, m) && Counting.RowOf(m, ds) == key
      ensures A.Arrive(m) in steps
    {
      JoinsContributeTheBatch(events, r, lanes, m);
      FeedTakesAll(events, r, ds, key, m);
    }
  }

  lemma SomeRun(events: seq<Event>, r: Rules, ds: seq<Dimension>)
    returns (lanes: seq<Course>, rows: MetricKey -> seq<A.Step>)
    requires ValidRules(r) && Distinct(events, BusinessKey)
    ensures Covers(events, r, lanes) && AllFedAndQuiet(r, ds, lanes, rows)
  {
    lanes := LanesCanCover(events, r, events);
    rows := key => FeedOf(events, r, ds, key);
    forall key
      ensures Fed(r, ds, lanes, key, rows(key)) && A.Run(r, rows(key)).state.nextEmit.None?
    {
      FeedIsComplete(events, r, ds, lanes, key);
      FeedEndsQuiet(events, r, ds, key);
    }
  }

  /** Whatever the events: some lanes take all of them through to the end, and some feeding of the rows leaves nothing
      pending. */
  lemma SomeRunCompletes(events: seq<Event>, r: Rules, ds: seq<Dimension>)
    requires ValidRules(r) && Distinct(events, BusinessKey)
    ensures exists lanes, rows :: Covers(events, r, lanes) && AllFedAndQuiet(r, ds, lanes, rows)
  {
    var lanes, rows := SomeRun(events, r, ds);
  }
}
