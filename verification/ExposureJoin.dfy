/** The operator that links clicks to impressions: its state for one impression key. */
module ExposureJoin {
  import opened Seqs
  import opened Events
  import opened Measurement
  import opened Streams

  /** `out` and `metrics` are the operator's outputs so far, with the watermarks it forwarded between them. */
  datatype State = State(
    impression: Option<Event>, waiting: seq<Event>, timers: set<int>, watermark: int,
    out: seq<Message<LinkedClick>>, metrics: seq<Message<Contribution>>, signals: seq<Signal>)

  const INITIAL := State(None, [], {}, NO_WATERMARK, [], [], [])

  function Emit(s: State, clicks: seq<LinkedClick>): State {
    s.(out := s.out + Records(clicks))
  }

  function EnrichAll(clicks: seq<Event>, impression: Option<Event>, r: Rules): seq<LinkedClick> {
    Map(clicks, c => Enrich(c, impression, r))
  }

  predicate Late(e: Event, s: State, r: Rules) { e.time + r.retention <= s.watermark }

  predicate Holds(waiting: seq<Event>, e: Event) { exists w :: w in waiting && BusinessKey(w) == BusinessKey(e) }

  function ProcessImpression(r: Rules, s: State, e: Event): State
    requires r.window > 0
  {
    var s1 := if s.impression.Some? then s
              else s.(impression := Some(e), metrics := s.metrics + Records(ImpressionMetrics(e, r)));
    Emit(s1, EnrichAll(s1.waiting, s1.impression, r)).(waiting := [], timers := s1.timers + {e.time + r.retention})
  }

  function ProcessClick(r: Rules, s: State, e: Event): State {
    if s.impression.Some? then Emit(s, [Enrich(e, s.impression, r)])
    else if e.time + r.wait <= s.watermark then Emit(s, [Enrich(e, None, r)])
    else s.(waiting := if Holds(s.waiting, e) then s.waiting else s.waiting + [e],
            timers := s.timers + {e.time + r.wait})
  }

  function Process(r: Rules, s: State, e: Event): State
    requires r.window > 0
  {
    if Late(e, s, r) then s.(signals := s.signals + [Signal(e, LateReplayRequired)])
    else if e.kind.Impression? then ProcessImpression(r, s, e)
    else ProcessClick(r, s, e)
  }

  function OnTimer(r: Rules, s: State, t: int): State {
    Emit(s, EnrichAll(Filter(s.waiting, Overdue(r.wait, t)), None, r)).(
      waiting := Filter(s.waiting, Early(r.wait, t)),
      impression := if s.impression.Some? && s.impression.value.time + r.retention <= t then None else s.impression)
  }

  /** Fires the armed timers that `w` has reached, earliest first. */
  ghost function FireDue(r: Rules, s: State, w: int): State
    decreases |s.timers|
  {
    var due := Due(s.timers, w);
    if due == {} then s
    else
      var t := Least(due);
      assert s.timers - {t} < s.timers;
      FireDue(r, OnTimer(r, s.(timers := s.timers - {t}), t), w)
  }

  lemma FireStep(r: Rules, s: State, w: int, t: int)
    requires t in Due(s.timers, w) && forall u :: u in Due(s.timers, w) ==> t <= u
    ensures FireDue(r, s, w) == FireDue(r, OnTimer(r, s.(timers := s.timers - {t}), t), w)
  {
    assert t == Least(Due(s.timers, w));
  }

  /** A watermark that does not grow changes nothing; one that grows fires timers and is then forwarded. */
  ghost function Advance(r: Rules, s: State, w: int): State {
    if w <= s.watermark then s
    else
      var s1 := FireDue(r, s.(watermark := w), w);
      s1.(out := s1.out + [Mark(w)], metrics := s1.metrics + [Mark(w)])
  }

  /** The same operator as the job keeps it: fields updated in place, record by record and timer by timer. */
  class Operator {
    const rules: Rules
    var impression: Option<Event>
    var waiting: seq<Event>
    var timers: set<int>
    var watermark: int
    var out: seq<Message<LinkedClick>>
    var metrics: seq<Message<Contribution>>
    var signals: seq<Signal>

    ghost function Model(): State
      reads this
    {
      State(impression, waiting, timers, watermark, out, metrics, signals)
    }

    constructor (rules: Rules)
      ensures this.rules == rules && Model() == INITIAL
    {
      this.rules := rules;
      impression, waiting, timers, watermark := None, [], {}, NO_WATERMARK;
      out, metrics, signals := [], [], [];
    }

    method Collect(clicks: seq<Event>, linked: Option<Event>)
      modifies this`out
      ensures out == old(out) + Records(EnrichAll(clicks, linked, rules))
    {
      var i := 0;
      while i < |clicks|
        invariant 0 <= i <= |clicks|
        invariant out == old(out) + Records(EnrichAll(clicks[..i], linked, rules))
      {
        out := out + [Record(Enrich(clicks[i], linked, rules))];
        assert clicks[..i + 1] == clicks[..i] + [clicks[i]];
        i := i + 1;
      }
      assert clicks[..i] == clicks;
    }

    method ProcessElement(e: Event)
      requires rules.window > 0
      modifies this
      ensures Model() == Process(rules, old(Model()), e)
    {
      if e.time + rules.retention <= watermark {
        signals := signals + [Signal(e, LateReplayRequired)];
        return;
      }
      if e.kind.Impression? {
        if impression.None? {
          impression := Some(e);
          metrics := metrics + Records(ImpressionMetrics(e, rules));
        }
        Collect(waiting, impression);
        waiting := [];
        timers := timers + {e.time + rules.retention};
      } else if impression.Some? {
        Collect([e], impression);
      } else if e.time + rules.wait <= watermark {
        Collect([e], None);
      } else {
        var held := false;
        var i := 0;
        while i < |waiting|
          invariant 0 <= i <= |waiting|
          invariant held <==> Holds(waiting[..i], e)
        {
          held := held || BusinessKey(waiting[i]) == BusinessKey(e);
          assert waiting[..i + 1] == waiting[..i] + [waiting[i]];
          i := i + 1;
        }
        assert waiting[..i] == waiting;
        if !held { waiting := waiting + [e]; }
        timers := timers + {e.time + rules.wait};
      }
    }

    method TimerFired(t: int)
      modifies this
      ensures Model() == OnTimer(rules, old(Model()), t)
    {
      var kept, released := [], [];
      var i := 0;
      while i < |waiting|
        invariant 0 <= i <= |waiting|
        invariant released == Filter(waiting[..i], Overdue(rules.wait, t))
        invariant kept == Filter(waiting[..i], Early(rules.wait, t))
        modifies {}
      {
        assert waiting[..i + 1] == waiting[..i] + [waiting[i]];
        FilterAppend(waiting[..i], [waiting[i]], Overdue(rules.wait, t));
        FilterAppend(waiting[..i], [waiting[i]], Early(rules.wait, t));
        if waiting[i].time + rules.wait <= t { released := released + [waiting[i]]; }
        else { kept := kept + [waiting[i]]; }
        i := i + 1;
      }
      assert waiting[..i] == waiting;
      Collect(released, None);
      waiting := kept;
      if impression.Some? && impression.value.time + rules.retention <= t { impression := None; }
    }

    method AdvanceWatermark(w: int)
      modifies this
      ensures Model() == Advance(rules, old(Model()), w)
    {
      if w <= watermark { return; }
      watermark := w;
      ghost var start := Model();
      while Due(timers, w) != {}
        invariant watermark == w
        invariant FireDue(rules, Model(), w) == FireDue(rules, start, w)
        decreases |timers|
      {
        LeastExists(Due(timers, w));
        var t :| t in Due(timers, w) && forall u :: u in Due(timers, w) ==> t <= u;
        FireStep(rules, Model(), w, t);
        timers := timers - {t};
        TimerFired(t);
      }
      out := out + [Mark(w)];
      metrics := metrics + [Mark(w)];
    }
  }
}
