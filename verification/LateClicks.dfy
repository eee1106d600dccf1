/** When a conversion was given up on and its click arrives after all: who is told that a replay is needed. Timers fire
    in ascending order, so that the memory of the latest timeout only grows while no conversion comes after its own
    deadline; a conversion that does come after it can shorten that memory, and the last lemmas here give a run in which
    a missed match then goes unreported. */
module LateClicks {
  import opened Seqs
  import opened Events
  import opened Measurement
  import opened Streams
  import opened ConversionJoin
  import opened ConversionInvariant
  import opened ConversionOutcomes

  function IsTimeout(): Association -> bool { (a: Association) => a.reason.ClickNotFound? }

  /** The conversions given up on, in the order in which that happened. */
  function TimedOut(log: seq<Association>): seq<Association> { Filter(log, IsTimeout()) }

  /** Until when the latest timeout calls for a replay, if `now` is before that. */
  function Memory(r: Rules, timeouts: seq<Association>, now: int): Option<int> {
    if timeouts != [] && now < timeouts[|timeouts| - 1].time + r.retention
    then Some(timeouts[|timeouts| - 1].time + r.retention) else None
  }

  /** Before any click is held, the operator remembers exactly the latest timeout, and only while it is retained. */
  ghost predicate Remembers(r: Rules, s: State, now: int) {
    && s.click.None?
    && s.expiredUntil == Memory(r, TimedOut(s.associations), now)
    && s.expired == s.expiredUntil.Some?
  }

  /** Timeouts happened in event-time order, each no earlier than its deadline. */
  ghost predicate Punctual(r: Rules, timeouts: seq<Association>, now: int) {
    && (forall i, j :: 0 <= i < j < |timeouts| ==> timeouts[i].time <= timeouts[j].time)
    && (forall a :: a in timeouts ==> a.time + r.wait <= now)
  }

  lemma {:induction false} AllTimeouts(vs: seq<Event>, r: Rules)
    ensures TimedOut(SettledAll(vs, None, r)) == SettledAll(vs, None, r)
    ensures |SettledAll(vs, None, r)| == |vs|
    ensures forall j :: 0 <= j < |vs| ==> SettledAll(vs, None, r)[j].time == vs[j].time
  {
    if vs != [] {
      var init, last := vs[..|vs| - 1], vs[|vs| - 1];
      AllTimeouts(init, r);
      FilterAppend(SettledAll(init, None, r), [Settled(last, None, r)], IsTimeout());
    }
  }

  /** What a timer does to the memory of timeouts while no click is held. */
  lemma OnTimerMemory(r: Rules, s: State, t: int)
    requires r.window > 0 && s.click.None?
    ensures var s', due := OnTimer(r, s, t), Filter(s.waiting, Overdue(r.wait, t));
            var until := if due == [] then s.expiredUntil else Some(due[|due| - 1].time + r.retention);
            && s'.click.None?
            && s'.expiredUntil == (if until.Some? && t >= until.value then None else until)
            && s'.expired == (!(until.Some? && t >= until.value) && (s.expired || due != []))
  {
  }

  lemma TimerTimeouts(r: Rules, s: State, seen: int, now: int, t: int)
    requires ValidRules(r) && Safe(r, s, seen, now)
    requires t in s.timers && forall u :: u in s.timers ==> t <= u
    ensures var due := Filter(s.waiting, Overdue(r.wait, t));
            var added := SettledAll(due, None, r);
            && TimedOut(OnTimer(r, s.(timers := s.timers - {t}), t).associations) == TimedOut(s.associations) + added
            && |added| == |due|
            && forall j :: 0 <= j < |added| ==> added[j].time == due[j].time && added[j].time + r.wait == t
  {
    var due := Filter(s.waiting, Overdue(r.wait, t));
    OnTimerShape(r, s.(timers := s.timers - {t}), t);
    AllTimeouts(due, r);
    FilterAppend(s.associations, SettledAll(due, None, r), IsTimeout());
    forall j | 0 <= j < |due|
      ensures due[j].time + r.wait == t
    {
      DueExactly(r, s, seen, now, t, due[j]);
    }
  }

  /** The memory after a timer, from the memory before it and the conversions given up on. */
  lemma RemembersAfter(r: Rules, before: State, after: State, due: seq<Event>, added: seq<Association>, now: int,
                       t: int)
    requires Remembers(r, before, now) && now < t && |added| == |due|
    requires forall j :: 0 <= j < |added| ==> added[j].time == due[j].time
    requires after.click.None? && TimedOut(after.associations) == TimedOut(before.associations) + added
    requires var until := if due == [] then before.expiredUntil else Some(due[|due| - 1].time + r.retention);
             && after.expiredUntil == (if until.Some? && t >= until.value then None else until)
             && after.expired == (!(until.Some? && t >= until.value) && (before.expired || due != []))
    ensures Remembers(r, after, t)
  {
    MemoryAppended(r, TimedOut(before.associations), due, added, now, t);
  }

  lemma TimerRemembers(r: Rules, s: State, seen: int, now: int, t: int)
    requires ValidRules(r) && Safe(r, s, seen, now) && Remembers(r, s, now)
    requires t in s.timers && forall u :: u in s.timers ==> t <= u
    ensures Remembers(r, OnTimer(r, s.(timers := s.timers - {t}), t), t)
  {
    var due := Filter(s.waiting, Overdue(r.wait, t));
    var s0 := s.(timers := s.timers - {t});
    OnTimerMemory(r, s0, t);
    TimerTimeouts(r, s, seen, now, t);
    RemembersAfter(r, s, OnTimer(r, s0, t), due, SettledAll(due, None, r), now, t);
  }

  lemma MemoryAppended(r: Rules, before: seq<Association>, due: seq<Event>, added: seq<Association>, now: int, t: int)
    requires now < t && |added| == |due| && forall j :: 0 <= j < |added| ==> added[j].time == due[j].time
    ensures var until := if due == [] then Memory(r, before, now) else Some(due[|due| - 1].time + r.retention);
            Memory(r, before + added, t) == if until.Some? && t >= until.value then None else until
  {
    if due == [] {
      assert before + added == before;
    } else {
      assert (before + added)[|before + added| - 1] == added[|added| - 1];
    }
  }

  lemma TimerPunctual(r: Rules, s: State, seen: int, now: int, t: int)
    requires ValidRules(r) && Safe(r, s, seen, now) && Punctual(r, TimedOut(s.associations), now)
    requires t in s.timers && forall u :: u in s.timers ==> t <= u
    ensures Punctual(r, TimedOut(OnTimer(r, s.(timers := s.timers - {t}), t).associations), t)
  {
    TimerTimeouts(r, s, seen, now, t);
    PunctualAppended(r, TimedOut(s.associations), SettledAll(Filter(s.waiting, Overdue(r.wait, t)), None, r), now, t);
  }

  lemma PunctualAppended(r: Rules, before: seq<Association>, added: seq<Association>, now: int, t: int)
    requires Punctual(r, before, now) && now <= t
    requires forall a :: a in added ==> a.time + r.wait == t
    ensures Punctual(r, before + added, t)
  {
    var all := before + added;
    forall i, j | 0 <= i < j < |all|
      ensures all[i].time <= all[j].time
    {
      if j >= |before| {
        assert all[j] in added;
        assert if i < |before| then all[i] in before else all[i] in added;
      }
    }
  }

  lemma {:induction false} FiringRemembers(r: Rules, s: State, seen: int, now: int, w: int)
    requires ValidRules(r) && Safe(r, s, seen, now) && now <= w && Remembers(r, s, now)
    ensures Remembers(r, FireDue(r, s, w), w)
    ensures Punctual(r, TimedOut(s.associations), now) ==> Punctual(r, TimedOut(FireDue(r, s, w).associations), w)
    decreases |s.waiting|, |s.timers|
  {
    var due := Due(s.timers, w);
    if due != {} {
      var t := Least(due);
      forall u | u in s.timers
        ensures t <= u
      {
        assert u <= w ==> u in due;
      }
      FireStep(r, s, w, t);
      FiringProgresses(r, s, t);
      ConversionInvariant.TimerKeeps(r, s, seen, now, t);
      TimerRemembers(r, s, seen, now, t);
      if Punctual(r, TimedOut(s.associations), now) { TimerPunctual(r, s, seen, now, t); }
      FiringRemembers(r, OnTimer(r, s.(timers := s.timers - {t}), t), seen, t, w);
    } else if s.expiredUntil.Some? {
      assert s.expiredUntil.value !in due;
    }
  }

  /** Neither a click that is held nor a conversion given up on at the moment it arrives. */
  ghost predicate OnTime(r: Rules, s: State, step: Step) {
    step.Arrive? && step.input.OfConversion? && !Late(step.input, s, r) ==> s.watermark < step.input.event.time + r.wait
  }

  lemma TimeoutsOneMore(log: seq<Association>, a: Association)
    ensures TimedOut(log + [a]) == if a.reason.ClickNotFound? then TimedOut(log) + [a] else TimedOut(log)
  {
    FilterAppend(log, [a], IsTimeout());
  }

  /** A conversion that arrives past its deadline is given up on at once. */
  lemma GivenUpAtOnce(r: Rules, s: State, v: Event)
    requires ValidRules(r) && s.click.None? && v.time + r.wait <= s.watermark
    ensures var s' := ProcessConversion(r, s, v);
            && s'.associations == s.associations + [Settled(v, None, r)] && s'.click.None?
            && s'.expired && s'.expiredUntil == Some(v.time + r.retention)
  {
    assert SettledAll([v], None, r) == [Settled(v, None, r)];
  }

  /** A conversion that arrives before it is announced as waiting, if it is new. */
  lemma PutToWait(r: Rules, s: State, v: Event)
    requires ValidRules(r) && s.click.None? && s.watermark < v.time + r.wait
    ensures var s' := ProcessConversion(r, s, v);
            && (s'.associations == s.associations
                 || s'.associations == s.associations + [Associate(v, None, AwaitingClick)])
            && s'.click.None? && s'.expired == s.expired && s'.expiredUntil == s.expiredUntil
  {
  }

  lemma ArrivalRemembers(r: Rules, s: State, v: Event)
    requires ValidRules(r) && Inv(r, s) && Remembers(r, s, s.watermark) && v.kind.Conversion?
    requires s.watermark < v.time + r.retention
    ensures Remembers(r, ProcessConversion(r, s, v), s.watermark)
    ensures OnTime(r, s, Arrive(OfConversion(v))) ==>
              TimedOut(ProcessConversion(r, s, v).associations) == TimedOut(s.associations)
  {
    TimeoutsOneMore(s.associations, Settled(v, None, r));
    TimeoutsOneMore(s.associations, Associate(v, None, AwaitingClick));
    if v.time + r.wait <= s.watermark { GivenUpAtOnce(r, s, v); } else { PutToWait(r, s, v); }
  }

  lemma StepRemembers(r: Rules, s: State, step: Step)
    requires ValidRules(r) && Inv(r, s) && Remembers(r, s, s.watermark) && Proper(r, s, step)
    requires step.Arrive? && step.input.OfClick? ==> Late(step.input, s, r)
    ensures Remembers(r, Next(r, s, step), Next(r, s, step).watermark)
    ensures Punctual(r, TimedOut(s.associations), s.watermark) && OnTime(r, s, step) ==>
              Punctual(r, TimedOut(Next(r, s, step).associations), Next(r, s, step).watermark)
  {
    match step
    case Tick(w) =>
      if s.watermark < w {
        FiringRemembers(r, s.(watermark := w), s.watermark, s.watermark, w);
        ConversionInvariant.FiringKeeps(r, s.(watermark := w), s.watermark, s.watermark, w);
      }
    case Arrive(OfConversion(v)) =>
      if !Late(step.input, s, r) { ArrivalRemembers(r, s, v); }
    case Arrive(OfClick(c)) =>
  }

  /** A run in which every click so far came too late to be held. */
  ghost predicate NoClickYet(r: Rules, steps: seq<Step>)
    requires r.window > 0
  {
    forall n :: 0 <= n < |steps| && steps[n].Arrive? && steps[n].input.OfClick? ==> LateAt(r, steps, n)
  }

  /** A run in which no conversion came after its own deadline without being late altogether. */
  ghost predicate OnTimeRun(r: Rules, steps: seq<Step>)
    requires r.window > 0
  {
    forall n :: 0 <= n < |steps| ==> OnTime(r, Run(r, steps[..n]), steps[n])
  }

  lemma {:induction false} RunRemembers(r: Rules, steps: seq<Step>)
    requires ValidRules(r) && ProperRun(r, steps) && NoClickYet(r, steps)
    ensures Remembers(r, Run(r, steps), Run(r, steps).watermark)
    ensures OnTimeRun(r, steps) ==> Punctual(r, TimedOut(Run(r, steps).associations), Run(r, steps).watermark)
  {
    if steps != [] {
      var init, last := steps[..|steps| - 1], steps[|steps| - 1];
      PrefixProper(r, steps);
      assert forall n :: 0 <= n < |init| ==> init[n] == steps[n] && init[..n] == steps[..n];
      assert steps[..|init|] == init;
      assert last.Arrive? && last.input.OfClick? ==> LateAt(r, steps, |init|);
      forall n | 0 <= n < |init| && init[n].Arrive? && init[n].input.OfClick?
        ensures LateAt(r, init, n)
      {
        assert LateAt(r, steps, n);
      }
      RunRemembers(r, init);
      RunKeeps(r, init);
      StepRemembers(r, Run(r, init), last);
      if OnTimeRun(r, steps) {
        assert OnTime(r, Run(r, steps[..|init|]), steps[|init|]);
        forall n | 0 <= n < |init|
          ensures OnTime(r, Run(r, init[..n]), init[n])
        {
          assert OnTime(r, Run(r, steps[..n]), steps[n]);
        }
      }
    }
  }

  /** Whether the arrival of `c` reports that a replay is needed. */
  ghost predicate Reported(r: Rules, s: State, c: LinkedClick)
    requires r.window > 0
  {
    var after := Next(r, s, Arrive(OfClick(c))).signals;
    exists n :: |s.signals| <= n < |after| && (after[n] == Signal(c.click, LateReplayRequired)
                                               || after[n] == Signal(c.click, LateClickReplayRequired))
  }

  lemma ReportedWhen(r: Rules, s: State, c: LinkedClick)
    requires r.window > 0 && s.click.None?
    ensures Reported(r, s, c) <==> Late(OfClick(c), s, r) || s.expired
  {
    var after := Next(r, s, Arrive(OfClick(c))).signals;
    if Late(OfClick(c), s, r) {
      assert after[|s.signals|] == Signal(c.click, LateReplayRequired);
    } else if s.expired {
      assert after[|after| - 1] == Signal(c.click, LateClickReplayRequired);
    }
  }

  /** The first click of a key is reported exactly when it is late itself, or the latest timeout is still remembered. */
  lemma ReportedExactly(r: Rules, steps: seq<Step>, c: LinkedClick)
    requires ValidRules(r) && ProperRun(r, steps) && NoClickYet(r, steps)
    ensures var s := Run(r, steps);
            Reported(r, s, c) <==> s.watermark >= c.click.time + r.retention
                                   || Memory(r, TimedOut(s.associations), s.watermark).Some?
  {
    RunRemembers(r, steps);
    ReportedWhen(r, Run(r, steps), c);
  }

  lemma StillRemembered(r: Rules, timeouts: seq<Association>, v: Event, click: Event, now: int)
    requires ValidRules(r) && Punctual(r, timeouts, now) && Settled(v, None, r) in timeouts && LegalMatch(click, v, r)
    ensures now >= click.time + r.retention || Memory(r, timeouts, now).Some?
  {
    var j :| 0 <= j < |timeouts| && timeouts[j] == Settled(v, None, r);
    assert v.time <= timeouts[|timeouts| - 1].time;
  }

  /** If no conversion came after its own deadline, a click that would have matched a conversion given up on is
      reported whenever it arrives. */
  lemma NoSilentDivergence(r: Rules, steps: seq<Step>, v: Event, c: LinkedClick)
    requires ValidRules(r) && ProperRun(r, steps) && NoClickYet(r, steps) && OnTimeRun(r, steps)
    requires Settled(v, None, r) in Run(r, steps).associations && LegalMatch(c.click, v, r)
    ensures Reported(r, Run(r, steps), c)
  {
    RunRemembers(r, steps);
    ReportedExactly(r, steps, c);
    FilterMember(Run(r, steps).associations, IsTimeout(), Settled(v, None, r));
    StillRemembered(r, TimedOut(Run(r, steps).associations), v, c.click, Run(r, steps).watermark);
  }

  const SHORT_MEMORY := Rules(100, 10, 1, 110, 1, 1)

  function Sample(kind: Kind, time: nat, conversion: string): Event {
    Event(kind, "e", time, "a", "p", "u", "c", "r", "v", "i", "k", conversion, "x", "y", "USD", 1, "receipt", 0)
  }

  function SilentRun(): seq<Step> {
    [Arrive(OfConversion(First())), Tick(1010), Arrive(OfConversion(Second())), Tick(1016)]
  }

  lemma OneTimer(r: Rules, s: State, w: int, t: int)
    requires r.window > 0 && s.watermark < w && t <= w
    requires t in s.timers && forall u :: u in s.timers ==> u == t || w < u
    requires var s1 := OnTimer(r, s.(watermark := w, timers := s.timers - {t}), t); forall u :: u in s1.timers ==> w < u
    ensures Advance(r, s, w) == var s1 := OnTimer(r, s.(watermark := w, timers := s.timers - {t}), t);
                                s1.(metrics := s1.metrics + [Mark(w)])
  {
    var s0 := s.(watermark := w);
    FireStep(r, s0, w, t);
    var s1 := OnTimer(r, s0.(timers := s0.timers - {t}), t);
    assert Due(s1.timers, w) == {};
  }

  function First(): Event { Sample(Conversion, 1000, "first") }

  function Second(): Event { Sample(Conversion, 905, "second") }

  function ItsClick(): LinkedClick { LinkedClick(Sample(Click, 950, ""), ImpressionNotFound, None) }

  /** The first conversion waits for its click, its timer armed. */
  lemma FirstWaits()
    ensures var s := Process(SHORT_MEMORY, INITIAL, OfConversion(First()));
            && s.click.None? && s.waiting == [First()] && s.timers == {1010} && s.expiredUntil == None
               && s.watermark == NO_WATERMARK
            && s.associations == [Associate(First(), None, AwaitingClick)]
  {
  }

  lemma FirstIsDue()
    ensures Filter([First()], Overdue(SHORT_MEMORY.wait, 1010)) == [First()]
            && Filter([First()], Early(SHORT_MEMORY.wait, 1010)) == []
    ensures Expiries([First()], SHORT_MEMORY) == {1110}
    ensures SettledAll([First()], None, SHORT_MEMORY) == [Settled(First(), None, SHORT_MEMORY)]
  {
  }

  lemma FirstIsGivenUp(s0: State)
    requires s0.click.None? && s0.waiting == [First()] && s0.timers == {1010} && s0.expiredUntil == None
             && s0.watermark == NO_WATERMARK
    requires s0.associations == [Associate(First(), None, AwaitingClick)]
    ensures var s := Advance(SHORT_MEMORY, s0, 1010);
            && s.click.None? && s.waiting == [] && s.timers == {1110} && s.watermark == 1010
            && s.associations == [Associate(First(), None, AwaitingClick), Settled(First(), None, SHORT_MEMORY)]
  {
    FirstIsDue();
    var s1 := s0.(watermark := 1010, timers := s0.timers - {1010});
    assert OnTimer(SHORT_MEMORY, s1, 1010).timers == {1110};
    OneTimer(SHORT_MEMORY, s0, 1010, 1010);
  }

  /** The state once the first conversion has been given up on. */
  lemma FirstTimesOut()
    ensures var s := Run(SHORT_MEMORY, SilentRun()[..2]);
            && s.click.None? && s.waiting == [] && s.timers == {1110} && s.watermark == 1010
            && s.associations == [Associate(First(), None, AwaitingClick), Settled(First(), None, SHORT_MEMORY)]
  {
    var first, second := Arrive(OfConversion(First())), Tick(1010);
    FirstWaits();
    FirstIsGivenUp(Next(SHORT_MEMORY, INITIAL, first));
    RunOfTwo(SHORT_MEMORY, first, second);
    assert SilentRun()[..2] == [first, second];
  }

  lemma RunOfTwo(r: Rules, first: Step, second: Step)
    requires r.window > 0
    ensures Run(r, [first, second]) == Next(r, Next(r, INITIAL, first), second)
  {
    assert [first, second][..1] == [first] && [first][..0] == [];
    assert Run(r, [first]) == Next(r, Run(r, []), first);
  }

  lemma SecondIsGivenUp(s1: State)
    requires s1.click.None? && s1.waiting == [] && s1.timers == {1110} && s1.watermark == 1010
    requires Settled(First(), None, SHORT_MEMORY) in s1.associations
    ensures var s2 := Process(SHORT_MEMORY, s1, OfConversion(Second()));
            && s2.timers == {1110, 1015} && s2.expiredUntil == Some(1015) && s2.waiting == [] && s2.click.None?
            && s2.watermark == 1010 && Settled(First(), None, SHORT_MEMORY) in s2.associations
  {
    assert SettledAll([Second()], None, SHORT_MEMORY) == [Settled(Second(), None, SHORT_MEMORY)];
  }

  lemma MemoryRunsOut(s2: State)
    requires s2.timers == {1110, 1015} && s2.expiredUntil == Some(1015) && s2.waiting == [] && s2.click.None?
             && s2.watermark == 1010
    ensures var s := Advance(SHORT_MEMORY, s2, 1016);
            s.click.None? && !s.expired && s.watermark == 1016 && s.associations == s2.associations
  {
    var s3 := s2.(watermark := 1016, timers := s2.timers - {1015});
    assert OnTimer(SHORT_MEMORY, s3, 1015).timers == {1110};
    OneTimer(SHORT_MEMORY, s2, 1016, 1015);
  }

  /** The state once the second conversion's shorter memory has run out. */
  lemma SecondForgets()
    ensures var s := Run(SHORT_MEMORY, SilentRun());
            s.click.None? && !s.expired && s.watermark == 1016 && Settled(First(), None, SHORT_MEMORY) in s.associations
  {
    var r, steps := SHORT_MEMORY, SilentRun();
    FirstTimesOut();
    assert steps[..3][..2] == steps[..2];
    SecondIsGivenUp(Run(r, steps[..2]));
    MemoryRunsOut(Run(r, steps[..3]));
  }

  lemma SilentRunIsProper()
    ensures ProperRun(SHORT_MEMORY, SilentRun()) && NoClickYet(SHORT_MEMORY, SilentRun())
  {
    var r, steps := SHORT_MEMORY, SilentRun();
    assert ConversionLink(First()).id == "first" && ConversionLink(Second()).id == "second";
    forall n | 0 <= n < |steps|
      ensures Proper(r, Run(r, steps[..n]), steps[n])
    {
    }
  }

  /** The run meets every hypothesis of the guarantee but one: its second conversion comes after its own deadline. */
  lemma SecondIsNotOnTime()
    ensures !OnTimeRun(SHORT_MEMORY, SilentRun())
  {
    FirstTimesOut();
    assert !OnTime(SHORT_MEMORY, Run(SHORT_MEMORY, SilentRun()[..2]), SilentRun()[2]);
  }

  /** Without that condition the guarantee fails: the first conversion is given up on at its deadline, a second that
      comes after its own deadline shortens the memory of it, and the click of both then arrives unreported. */
  lemma SilentDivergence()
    ensures ValidRules(SHORT_MEMORY) && ProperRun(SHORT_MEMORY, SilentRun()) && NoClickYet(SHORT_MEMORY, SilentRun())
    ensures !OnTimeRun(SHORT_MEMORY, SilentRun())
    ensures var s := Run(SHORT_MEMORY, SilentRun());
            && Settled(First(), None, SHORT_MEMORY) in s.associations
            && LegalMatch(ItsClick().click, First(), SHORT_MEMORY)
            && !Reported(SHORT_MEMORY, s, ItsClick())
  {
    SecondForgets();
    SilentRunIsProper();
    SecondIsNotOnTime();
    ReportedWhen(SHORT_MEMORY, Run(SHORT_MEMORY, SilentRun()), ItsClick());
  }
}
