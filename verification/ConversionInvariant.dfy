/** What every step of the conversion join keeps, for any arrival order and any watermarks: whatever is held has a timer
    that ends its holding, no conversion waits beside a held click, and no contribution is sent behind a watermark that
    freezes its row. */
module ConversionInvariant {
  import opened Seqs
  import opened Events
  import opened Measurement
  import opened Streams
  import opened ConversionJoin
  import opened ExposureInvariant

  datatype Step = Arrive(input: Input) | Tick(watermark: int)

  ghost function Next(r: Rules, s: State, step: Step): State
    requires r.window > 0
  {
    match step
    case Arrive(x) => Process(r, s, x)
    case Tick(w) => Advance(r, s, w)
  }

  ghost predicate MetricsTimely(r: Rules, log: seq<Message<Contribution>>) {
    forall p :: 0 <= p < |log| && log[p].Record? ==> ContributionTimely(r, log, p)
  }

  /** Whatever is held has a timer that ends its holding; timers up to `now` have fired. */
  ghost predicate Armed(r: Rules, s: State, now: int) {
    && (forall t :: t in s.timers ==> now < t)
    && (forall v :: v in s.waiting ==> v.kind.Conversion? && v.time + r.wait in s.timers)
    && Distinct(s.waiting, BusinessKey)
    && (s.click.Some? ==> s.waiting == [] && s.click.value.click.time + r.retention in s.timers)
    && (s.expiredUntil.Some? ==> s.expiredUntil.value in s.timers)
    && (s.expired ==> s.expiredUntil.Some?)
  }

  /** The metric stream has marks up to `seen`, and no contribution behind the mark that would freeze its row. */
  ghost predicate LogSafe(r: Rules, log: seq<Message<Contribution>>, seen: int)
  {
    MarksUpTo(log, seen) && MetricsTimely(r, log)
  }

  /** The timing invariant: `seen` is the last watermark forwarded, `now` the instant up to which timers have fired. */
  ghost predicate Safe(r: Rules, s: State, seen: int, now: int)
  {
    seen <= now && Armed(r, s, now) && LogSafe(r, s.metrics, seen)
  }

  ghost predicate Inv(r: Rules, s: State) { Safe(r, s, s.watermark, s.watermark) }

  /** A conversion settled while its click, if any, is still retained contributes only to rows that are not frozen. */
  lemma SettledTimely(r: Rules, v: Event, click: Option<LinkedClick>, seen: int)
    requires r.window > 0 && seen < v.time + r.retention
    requires click.Some? ==> seen < click.value.click.time + r.retention
    ensures forall c :: c in SettledMetrics(v, click, r) ==> seen < Cleanup(c, r)
  {
  }

  lemma {:induction false} SettledAllTimely(r: Rules, vs: seq<Event>, click: Option<LinkedClick>, seen: int)
    requires r.window > 0
    requires forall v :: v in vs ==> seen < v.time + r.retention
    requires click.Some? ==> seen < click.value.click.time + r.retention
    ensures forall c :: c in SettledMetricsAll(vs, click, r) ==> seen < Cleanup(c, r)
  {
    if vs != [] {
      SettledAllTimely(r, vs[..|vs| - 1], click, seen);
      SettledTimely(r, vs[|vs| - 1], click, seen);
    }
  }

  lemma SettleKeepsLog(r: Rules, s: State, vs: seq<Event>, click: Option<LinkedClick>, seen: int)
    requires r.window > 0 && MarksUpTo(s.metrics, seen) && MetricsTimely(r, s.metrics)
    requires forall v :: v in vs ==> seen < v.time + r.retention
    requires click.Some? ==> seen < click.value.click.time + r.retention
    ensures var m := Settle(r, s, vs, click).metrics; MarksUpTo(m, seen) && MetricsTimely(r, m)
  {
    SettledAllTimely(r, vs, click, seen);
    MetricsAppended(r, s.metrics, SettledMetricsAll(vs, click, r), seen);
  }

  /** A click is timely when neither it nor the impression it carries is late. */
  predicate TimelyClick(r: Rules, c: LinkedClick, watermark: int) {
    watermark < c.click.time + r.retention && (c.impression.Some? ==> watermark < c.impression.value.time + r.retention)
  }

  lemma ClickKeeps(r: Rules, s: State, c: LinkedClick)
    requires ValidRules(r) && Inv(r, s) && TimelyClick(r, c, s.watermark)
    ensures Inv(r, ProcessClick(r, s, c))
  {
    var seen := s.watermark;
    var s1 := HoldClick(r, s, c);
    if s.click.None? {
      MetricsAppended(r, s.metrics, ClickMetrics(c, r), seen);
    }
    SettleKeepsLog(r, s1, s1.waiting, s1.click, seen);
  }

  lemma {:induction false} ConversionKeeps(r: Rules, s: State, v: Event)
    requires ValidRules(r) && Inv(r, s) && v.kind.Conversion? && s.watermark < v.time + r.retention
    ensures Inv(r, ProcessConversion(r, s, v))
  {
    var seen := s.watermark;
    if s.click.Some? {
      SettleKeepsLog(r, s, [v], s.click, seen);
    } else if v.time + r.wait <= s.watermark {
      SettleKeepsLog(r, s, [v], None, seen);
    } else {
      WaitingKeeps(r, s, v);
    }
  }

  /** A conversion joins those that wait for the click, unless it waits already. */
  lemma WaitingKeeps(r: Rules, s: State, v: Event)
    requires ValidRules(r) && Inv(r, s) && v.kind.Conversion? && s.click.None? && s.watermark < v.time + r.wait
    ensures Inv(r, ProcessConversion(r, s, v))
  {
    var s' := ProcessConversion(r, s, v);
    assert s'.waiting == if Holds(s.waiting, v) then s.waiting else s.waiting + [v];
    assert Distinct(s'.waiting, BusinessKey);
  }

  lemma ProcessKeeps(r: Rules, s: State, x: Input)
    requires ValidRules(r) && Inv(r, s)
    requires x.OfConversion? ==> x.event.kind.Conversion?
    requires x.OfClick? && !Late(x, s, r) ==> TimelyClick(r, x.click, s.watermark)
    ensures Inv(r, Process(r, s, x))
  {
    if !Late(x, s, r) {
      match x
      case OfClick(c) => ClickKeeps(r, s, c);
      case OfConversion(v) => ConversionKeeps(r, s, v);
    }
  }

  /** What a timer finds waiting past its deadline was due exactly then. */
  lemma DueExactly(r: Rules, s: State, seen: int, now: int, t: int, v: Event)
    requires Safe(r, s, seen, now)
    requires t in s.timers && forall u :: u in s.timers ==> t <= u
    requires v in Filter(s.waiting, Overdue(r.wait, t))
    ensures v in s.waiting && v.time + r.wait == t
  {
    FilterMember(s.waiting, Overdue(r.wait, t), v);
  }

  lemma DueAndKept(r: Rules, s: State, seen: int, now: int, t: int)
    requires ValidRules(r) && Safe(r, s, seen, now)
    requires t in s.timers && forall u :: u in s.timers ==> t <= u
    ensures Divides(r, s, Filter(s.waiting, Overdue(r.wait, t)), Filter(s.waiting, Early(r.wait, t)), t)
  {
    forall v | v in Filter(s.waiting, Overdue(r.wait, t))
      ensures v in s.waiting && v.time + r.wait == t
    {
      DueExactly(r, s, seen, now, t, v);
    }
    forall v | v in Filter(s.waiting, Early(r.wait, t))
      ensures v in s.waiting && t < v.time + r.wait
    {
      FilterMember(s.waiting, Early(r.wait, t), v);
    }
    FilterDistinct(s.waiting, Early(r.wait, t), BusinessKey);
  }

  /** What a timer leaves held, field by field, when `due` are given up on. */
  predicate Leaves(r: Rules, s: State, s': State, due: seq<Event>, t: int) {
    var until := if due == [] then s.expiredUntil else Some(due[|due| - 1].time + r.retention);
    && s'.timers == s.timers + Expiries(due, r)
    && (s'.click.Some? ==> s'.click == s.click && t < s.click.value.click.time + r.retention)
    && (s'.expiredUntil.Some? ==> s'.expiredUntil == until && t < until.value)
    && (s'.expired ==> (s.expired || due != []) && s'.expiredUntil == until)
  }

  lemma OnTimerLeaves(r: Rules, s: State, t: int)
    requires r.window > 0
    ensures Leaves(r, s, OnTimer(r, s, t), Filter(s.waiting, Overdue(r.wait, t)), t)
    ensures OnTimer(r, s, t).waiting == Filter(s.waiting, Early(r.wait, t))
  {
  }

  /** How the conversions waiting before a timer divide. */
  ghost predicate Divides(r: Rules, s: State, due: seq<Event>, kept: seq<Event>, t: int) {
    && (forall v :: v in due ==> v in s.waiting && v.time + r.wait == t)
    && (forall v :: v in kept ==> v in s.waiting && t < v.time + r.wait)
    && Distinct(kept, BusinessKey)
  }

  lemma TimerArms(r: Rules, s: State, seen: int, now: int, t: int)
    requires ValidRules(r) && Safe(r, s, seen, now)
    requires t in s.timers && forall u :: u in s.timers ==> t <= u
    ensures Armed(r, OnTimer(r, s.(timers := s.timers - {t}), t), t)
  {
    var s0, due := s.(timers := s.timers - {t}), Filter(s.waiting, Overdue(r.wait, t));
    DueAndKept(r, s, seen, now, t);
    OnTimerLeaves(r, s0, t);
    StillArmed(r, s, s0, OnTimer(r, s0, t), due, now, t);
  }

  lemma StillArmed(r: Rules, s: State, s0: State, s': State, due: seq<Event>, now: int, t: int)
    requires ValidRules(r) && Armed(r, s, now) && t in s.timers && forall u :: u in s.timers ==> t <= u
    requires s0 == s.(timers := s.timers - {t}) && Leaves(r, s0, s', due, t) && Divides(r, s, due, s'.waiting, t)
    ensures Armed(r, s', t)
  {
    forall u | u in s'.timers
      ensures t < u
    {
      if u in Expiries(due, r) {
        var v :| v in due && v.time + r.retention == u;
      }
    }
    if due != [] { assert due[|due| - 1] in due; }
    assert s'.waiting == [] || s'.waiting[0] in s'.waiting;
  }

  lemma TimerKeepsLog(r: Rules, s: State, seen: int, now: int, t: int)
    requires ValidRules(r) && Safe(r, s, seen, now)
    requires t in s.timers && forall u :: u in s.timers ==> t <= u
    ensures LogSafe(r, OnTimer(r, s.(timers := s.timers - {t}), t).metrics, seen)
  {
    DueAndKept(r, s, seen, now, t);
    SettleKeepsLog(r, s.(timers := s.timers - {t}), Filter(s.waiting, Overdue(r.wait, t)), None, seen);
  }

  lemma TimerKeeps(r: Rules, s: State, seen: int, now: int, t: int)
    requires ValidRules(r) && Safe(r, s, seen, now)
    requires t in s.timers && forall u :: u in s.timers ==> t <= u
    ensures Safe(r, OnTimer(r, s.(timers := s.timers - {t}), t), seen, t)
  {
    TimerArms(r, s, seen, now, t);
    TimerKeepsLog(r, s, seen, now, t);
  }

  lemma {:induction false} FiringKeeps(r: Rules, s: State, seen: int, now: int, w: int)
    requires ValidRules(r) && Safe(r, s, seen, now) && now <= w
    ensures Safe(r, FireDue(r, s, w), seen, w)
    ensures FireDue(r, s, w).watermark == s.watermark
    ensures forall v :: v in FireDue(r, s, w).waiting ==> v in s.waiting
    decreases |s.waiting|, |s.timers|
  {
    var due := Due(s.timers, w);
    if due != {} {
      var t := Least(due);
      forall u | u in s.timers
        ensures t <= u
      {
        assert u <= w ==> u in due;
      }
      FireStep(r, s, w, t);
      FiringProgresses(r, s, t);
      TimerKeeps(r, s, seen, now, t);
      forall v | v in Filter(s.waiting, Early(r.wait, t))
        ensures v in s.waiting
      {
        FilterMember(s.waiting, Early(r.wait, t), v);
      }
      FiringKeeps(r, OnTimer(r, s.(timers := s.timers - {t}), t), seen, t, w);
    } else {
      forall t | t in s.timers
        ensures w < t
      {
        assert t !in due;
      }
    }
  }

  lemma MarkKeepsLog(r: Rules, log: seq<Message<Contribution>>, seen: int, w: int)
    requires MarksUpTo(log, seen) && MetricsTimely(r, log) && seen <= w
    ensures MarksUpTo(log + [Mark(w)], w) && MetricsTimely(r, log + [Mark(w)])
  {
    var after := log + [Mark(w)];
    forall p | 0 <= p < |after| && after[p].Record?
      ensures ContributionTimely(r, after, p)
    {
      assert ContributionTimely(r, log, p);
    }
  }

  lemma MarkKeeps(r: Rules, s: State, seen: int, w: int)
    requires Safe(r, s, seen, w)
    ensures Safe(r, s.(metrics := s.metrics + [Mark(w)]), w, w)
  {
    MarkKeepsLog(r, s.metrics, seen, w);
  }

  lemma AdvanceKeeps(r: Rules, s: State, w: int)
    requires ValidRules(r) && Inv(r, s)
    ensures Inv(r, Advance(r, s, w))
    ensures forall v :: v in Advance(r, s, w).waiting ==> v in s.waiting
  {
    if s.watermark < w {
      FiringKeeps(r, s.(watermark := w), s.watermark, s.watermark, w);
      MarkKeeps(r, FireDue(r, s.(watermark := w), w), s.watermark, w);
    }
  }

  lemma StepKeeps(r: Rules, s: State, step: Step)
    requires ValidRules(r) && Inv(r, s)
    requires step.Arrive? && step.input.OfConversion? ==> step.input.event.kind.Conversion?
    requires step.Arrive? && step.input.OfClick? && !Late(step.input, s, r) ==>
             TimelyClick(r, step.input.click, s.watermark)
    ensures Inv(r, Next(r, s, step))
    ensures forall v :: v in Next(r, s, step).waiting ==> v in s.waiting || step == Step.Arrive(OfConversion(v))
  {
    match step
    case Arrive(x) => ProcessKeeps(r, s, x);
    case Tick(w) => AdvanceKeeps(r, s, w);
  }

  /** A conversion waits only below its deadline, with the timer that ends the wait armed, and never beside a held
      click. */
  lemma WaitingIsBounded(r: Rules, s: State, v: Event)
    requires Inv(r, s) && v in s.waiting
    ensures s.watermark < v.time + r.wait && v.time + r.wait in s.timers && s.click.None?
  {
  }
}
