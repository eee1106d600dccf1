/** The operator that settles conversions against their click: its state for one click key. */
module ConversionJoin {
  import opened Seqs
  import opened Events
  import opened Measurement
  import opened Streams

  datatype Input = OfClick(click: LinkedClick) | OfConversion(event: Event)

  function InputTime(x: Input): nat { if x.OfClick? then x.click.click.time else x.event.time }

  function InputEvent(x: Input): Event { if x.OfClick? then x.click.click else x.event }

  datatype State = State(
    click: Option<LinkedClick>, waiting: seq<Event>, expired: bool, expiredUntil: Option<int>,
    timers: set<int>, watermark: int,
    associations: seq<Association>, metrics: seq<Message<Contribution>>, signals: seq<Signal>)

  const INITIAL := State(None, [], false, None, {}, NO_WATERMARK, [], [], [])

  /** How a conversion ends against the click that is held, if any. */
  function Settled(v: Event, click: Option<LinkedClick>, r: Rules): Association {
    Associate(v, click, ConversionReason(click, v, r))
  }

  function SettledMetrics(v: Event, click: Option<LinkedClick>, r: Rules): seq<Contribution>
    requires r.window > 0
  {
    ConversionMetrics(v, click, ConversionReason(click, v, r), r)
  }

  function SettledAll(vs: seq<Event>, click: Option<LinkedClick>, r: Rules): seq<Association> {
    if vs == [] then [] else SettledAll(vs[..|vs| - 1], click, r) + [Settled(vs[|vs| - 1], click, r)]
  }

  function SettledMetricsAll(vs: seq<Event>, click: Option<LinkedClick>, r: Rules): seq<Contribution>
    requires r.window > 0
  {
    if vs == [] then [] else SettledMetricsAll(vs[..|vs| - 1], click, r) + SettledMetrics(vs[|vs| - 1], click, r)
  }

  function TimeoutSignals(vs: seq<Event>): seq<Signal> {
    if vs == [] then [] else TimeoutSignals(vs[..|vs| - 1]) + [Signal(vs[|vs| - 1], ConversionTimedOut)]
  }

  function Settle(r: Rules, s: State, vs: seq<Event>, click: Option<LinkedClick>): State
    requires r.window > 0
  {
    s.(associations := s.associations + SettledAll(vs, click, r),
       metrics := s.metrics + Records(SettledMetricsAll(vs, click, r)))
  }

  lemma SettledOneMore(vs: seq<Event>, i: nat, click: Option<LinkedClick>, r: Rules)
    requires r.window > 0 && i < |vs|
    ensures SettledAll(vs[..i + 1], click, r) == SettledAll(vs[..i], click, r) + [Settled(vs[i], click, r)]
    ensures Records(SettledMetricsAll(vs[..i + 1], click, r))
         == Records(SettledMetricsAll(vs[..i], click, r)) + Records(SettledMetrics(vs[i], click, r))
  {
    assert vs[..i + 1][..i] == vs[..i];
    RecordsAppend(SettledMetricsAll(vs[..i], click, r), SettledMetrics(vs[i], click, r));
  }

  lemma TimedOutOneMore(vs: seq<Event>, i: nat, r: Rules)
    requires i < |vs|
    ensures TimeoutSignals(vs[..i + 1]) == TimeoutSignals(vs[..i]) + [Signal(vs[i], ConversionTimedOut)]
    ensures Expiries(vs[..i + 1], r) == Expiries(vs[..i], r) + {vs[i].time + r.retention}
  {
    assert vs[..i + 1][..i] == vs[..i];
    assert vs[..i + 1] == vs[..i] + [vs[i]];
  }

  /** Conversions given up on at once: the last of them says until when a late click calls for a replay. */
  function TimeOut(r: Rules, s: State, vs: seq<Event>): State
    requires r.window > 0
  {
    Settle(r, s, vs, None).(
      signals := s.signals + TimeoutSignals(vs),
      expired := s.expired || vs != [],
      expiredUntil := if vs == [] then s.expiredUntil else Some(vs[|vs| - 1].time + r.retention),
      timers := s.timers + Expiries(vs, r))
  }

  function Expiries(vs: seq<Event>, r: Rules): set<int> { set v | v in vs :: v.time + r.retention }

  function HoldClick(r: Rules, s: State, c: LinkedClick): State
    requires r.window > 0
  {
    if s.click.Some? then s
    else s.(click := Some(c), metrics := s.metrics + Records(ClickMetrics(c, r)),
            signals := if c.reason.LinkOK? then s.signals else s.signals + [Signal(c.click, LinkProblem(c.reason))])
  }

  function ProcessClick(r: Rules, s: State, c: LinkedClick): State
    requires r.window > 0
  {
    var s1 := HoldClick(r, s, c);
    Settle(r, s1, s1.waiting, s1.click).(
      waiting := [],
      signals := if s.expired then s1.signals + [Signal(c.click, LateClickReplayRequired)] else s1.signals,
      timers := s1.timers + {c.click.time + r.retention})
  }

  predicate Holds(waiting: seq<Event>, e: Event) { exists w :: w in waiting && BusinessKey(w) == BusinessKey(e) }

  function ProcessConversion(r: Rules, s: State, v: Event): State
    requires r.window > 0
  {
    if s.click.Some? then Settle(r, s, [v], s.click)
    else if v.time + r.wait <= s.watermark then
      Settle(r, s, [v], None).(expired := true, expiredUntil := Some(v.time + r.retention),
                               timers := s.timers + {v.time + r.retention})
    else
      var s1 := if Holds(s.waiting, v) then s
                else s.(waiting := s.waiting + [v],
                        associations := s.associations + [Associate(v, None, AwaitingClick)]);
      s1.(timers := s1.timers + {v.time + r.wait})
  }

  predicate Late(x: Input, s: State, r: Rules) { InputTime(x) + r.retention <= s.watermark }

  function Process(r: Rules, s: State, x: Input): State
    requires r.window > 0
  {
    if Late(x, s, r) then s.(signals := s.signals + [Signal(InputEvent(x), LateReplayRequired)])
    else match x
      case OfClick(c) => ProcessClick(r, s, c)
      case OfConversion(v) => ProcessConversion(r, s, v)
  }

  /** The held click is dropped at the end of its retention, and with it the memory of past timeouts. */
  function DropClick(r: Rules, s: State, t: int): State {
    if s.click.Some? && s.click.value.click.time + r.retention <= t then s.(click := None, expired := false) else s
  }

  function ForgetTimeouts(s: State, t: int): State {
    if s.expiredUntil.Some? && t >= s.expiredUntil.value then s.(expired := false, expiredUntil := None) else s
  }

  function OnTimer(r: Rules, s: State, t: int): State
    requires r.window > 0
  {
    var s1 := TimeOut(r, s, Filter(s.waiting, Overdue(r.wait, t))).(waiting := Filter(s.waiting, Early(r.wait, t)));
    ForgetTimeouts(DropClick(r, s1, t), t)
  }

  lemma {:induction false} EarlyOrOverdue(vs: seq<Event>, span: nat, t: int)
    ensures |Filter(vs, Early(span, t))| + |Filter(vs, Overdue(span, t))| == |vs|
  {
    if vs != [] { EarlyOrOverdue(vs[1..], span, t); }
  }

  /** Fires the armed timers that `w` has reached, earliest first; a timeout may arm more of them. */
  ghost function FireDue(r: Rules, s: State, w: int): State
    requires r.window > 0
    decreases |s.waiting|, |s.timers|
  {
    var due := Due(s.timers, w);
    if due == {} then s
    else
      var t := Least(due);
      var s1 := s.(timers := s.timers - {t});
      EarlyOrOverdue(s.waiting, r.wait, t);
      assert s1.timers < s.timers;
      FireDue(r, OnTimer(r, s1, t), w)
  }

  lemma {:induction false} FireStep(r: Rules, s: State, w: int, t: int)
    requires r.window > 0
    requires t in Due(s.timers, w) && forall u :: u in Due(s.timers, w) ==> t <= u
    ensures FireDue(r, s, w) == FireDue(r, OnTimer(r, s.(timers := s.timers - {t}), t), w)
  {
    assert t == Least(Due(s.timers, w));
  }

  lemma FiringProgresses(r: Rules, s: State, t: int)
    requires r.window > 0 && t in s.timers
    ensures var s1 := OnTimer(r, s.(timers := s.timers - {t}), t);
            |s1.waiting| < |s.waiting| || (|s1.waiting| == |s.waiting| && |s1.timers| < |s.timers|)
  {
    EarlyOrOverdue(s.waiting, r.wait, t);
    assert s.timers - {t} < s.timers;
  }

  ghost function Advance(r: Rules, s: State, w: int): State
    requires r.window > 0
  {
    if w <= s.watermark then s
    else
      var s1 := FireDue(r, s.(watermark := w), w);
      s1.(metrics := s1.metrics + [Mark(w)])
  }

  /** The same operator as the job keeps it: fields updated in place, record by record and timer by timer. */
  class Operator {
    const rules: Rules
    var click: Option<LinkedClick>
    var waiting: seq<Event>
    var expired: bool
    var expiredUntil: Option<int>
    var timers: set<int>
    var watermark: int
    var associations: seq<Association>
    var metrics: seq<Message<Contribution>>
    var signals: seq<Signal>

    ghost function Model(): State
      reads this
    {
      State(click, waiting, expired, expiredUntil, timers, watermark, associations, metrics, signals)
    }

    constructor (rules: Rules)
      ensures this.rules == rules && Model() == INITIAL
    {
      this.rules := rules;
      click, waiting, expired, expiredUntil := None, [], false, None;
      timers, watermark := {}, NO_WATERMARK;
      associations, metrics, signals := [], [], [];
    }

    /** Emits how each of `vs` ends against `c`. */
    method Emit(vs: seq<Event>, c: Option<LinkedClick>)
      requires rules.window > 0
      modifies this`associations, this`metrics
      ensures associations == old(associations) + SettledAll(vs, c, rules)
      ensures metrics == old(metrics) + Records(SettledMetricsAll(vs, c, rules))
    {
      var settled, contributed := [], [];
      var i := 0;
      while i < |vs|
        invariant 0 <= i <= |vs|
        invariant settled == SettledAll(vs[..i], c, rules)
        invariant contributed == Records(SettledMetricsAll(vs[..i], c, rules))
        modifies {}
      {
        var reason := ConversionReason(c, vs[i], rules);
        settled := settled + [Associate(vs[i], c, reason)];
        contributed := contributed + Records(ConversionMetrics(vs[i], c, reason, rules));
        assert Settled(vs[i], c, rules).reason == reason;
        SettledOneMore(vs, i, c, rules);
        i := i + 1;
      }
      assert vs[..i] == vs;
      associations := associations + settled;
      metrics := metrics + contributed;
    }

    method ProcessElement(x: Input)
      requires rules.window > 0
      modifies this
      ensures Model() == Process(rules, old(Model()), x)
    {
      if InputTime(x) + rules.retention <= watermark {
        signals := signals + [Signal(InputEvent(x), LateReplayRequired)];
        return;
      }
      match x
      case OfClick(c) => ClickArrives(c);
      case OfConversion(v) => ConversionArrives(v);
    }

    method ClickArrives(c: LinkedClick)
      requires rules.window > 0
      modifies this
      ensures Model() == ProcessClick(rules, old(Model()), c)
    {
      if click.None? {
        click := Some(c);
        metrics := metrics + Records(ClickMetrics(c, rules));
        if !c.reason.LinkOK? { signals := signals + [Signal(c.click, LinkProblem(c.reason))]; }
      }
      assert Model() == HoldClick(rules, old(Model()), c);
      Emit(waiting, click);
      waiting := [];
      if expired { signals := signals + [Signal(c.click, LateClickReplayRequired)]; }
      timers := timers + {c.click.time + rules.retention};
    }

    method ConversionArrives(v: Event)
      requires rules.window > 0
      modifies this
      ensures Model() == ProcessConversion(rules, old(Model()), v)
    {
      if click.Some? || v.time + rules.wait <= watermark {
        Emit([v], click);
        if click.None? {
          expired, expiredUntil := true, Some(v.time + rules.retention);
          timers := timers + {v.time + rules.retention};
        }
      } else {
        var held := AlreadyWaiting(v);
        if !held {
          waiting := waiting + [v];
          associations := associations + [Associate(v, None, AwaitingClick)];
        }
        timers := timers + {v.time + rules.wait};
      }
    }

    method AlreadyWaiting(v: Event) returns (held: bool)
      ensures held <==> Holds(waiting, v)
    {
      held := false;
      var i := 0;
      while i < |waiting|
        invariant 0 <= i <= |waiting|
        invariant held <==> Holds(waiting[..i], v)
      {
        held := held || BusinessKey(waiting[i]) == BusinessKey(v);
        assert waiting[..i + 1] == waiting[..i] + [waiting[i]];
        i := i + 1;
      }
      assert waiting[..i] == waiting;
    }

    /** Splits what is waiting into what is overdue at `t` and what is not. */
    method Split(t: int) returns (overdue: seq<Event>, early: seq<Event>)
      ensures overdue == Filter(waiting, Overdue(rules.wait, t)) && early == Filter(waiting, Early(rules.wait, t))
    {
      overdue, early := [], [];
      var i := 0;
      while i < |waiting|
        invariant 0 <= i <= |waiting|
        invariant overdue == Filter(waiting[..i], Overdue(rules.wait, t))
        invariant early == Filter(waiting[..i], Early(rules.wait, t))
        modifies {}
      {
        assert waiting[..i + 1] == waiting[..i] + [waiting[i]];
        FilterAppend(waiting[..i], [waiting[i]], Overdue(rules.wait, t));
        FilterAppend(waiting[..i], [waiting[i]], Early(rules.wait, t));
        if waiting[i].time + rules.wait <= t { overdue := overdue + [waiting[i]]; }
        else { early := early + [waiting[i]]; }
        i := i + 1;
      }
      assert waiting[..i] == waiting;
    }

    method GiveUp(vs: seq<Event>)
      requires rules.window > 0
      modifies this
      ensures Model() == TimeOut(rules, old(Model()), vs)
    {
      Emit(vs, None);
      var reported, instants := Timeouts(vs);
      signals := signals + reported;
      timers := timers + instants;
      if vs != [] { expired, expiredUntil := true, Some(vs[|vs| - 1].time + rules.retention); }
    }

    method Timeouts(vs: seq<Event>) returns (reported: seq<Signal>, instants: set<int>)
      ensures reported == TimeoutSignals(vs) && instants == Expiries(vs, rules)
    {
      reported, instants := [], {};
      var i := 0;
      while i < |vs|
        invariant 0 <= i <= |vs|
        invariant reported == TimeoutSignals(vs[..i]) && instants == Expiries(vs[..i], rules)
      {
        reported := reported + [Signal(vs[i], ConversionTimedOut)];
        instants := instants + {vs[i].time + rules.retention};
        TimedOutOneMore(vs, i, rules);
        i := i + 1;
      }
      assert vs[..i] == vs;
    }

    method TimerFired(t: int)
      requires rules.window > 0
      modifies this
      ensures Model() == OnTimer(rules, old(Model()), t)
    {
      var overdue, early := Split(t);
      GiveUp(overdue);
      waiting := early;
      if click.Some? && click.value.click.time + rules.retention <= t {
        click, expired := None, false;
      }
      if expiredUntil.Some? && t >= expiredUntil.value {
        expired, expiredUntil := false, None;
      }
    }

    method AdvanceWatermark(w: int)
      requires rules.window > 0
      modifies this
      ensures Model() == Advance(rules, old(Model()), w)
    {
      if w <= watermark { return; }
      watermark := w;
      FireTimers(w);
      metrics := metrics + [Mark(w)];
    }

    method FireTimers(w: int)
      requires rules.window > 0
      modifies this
      ensures Model() == FireDue(rules, old(Model()), w)
      decreases |waiting|, |timers|
    {
      if Due(timers, w) == {} { return; }
      LeastExists(Due(timers, w));
      var t :| t in Due(timers, w) && forall u :: u in Due(timers, w) ==> t <= u;
      FireStep(rules, Model(), w, t);
      FiringProgresses(rules, Model(), t);
      timers := timers - {t};
      TimerFired(t);
      FireTimers(w);
    }
  }
}
