/** What every step of the exposure join keeps, for any arrival order and any watermarks: whatever is held has an armed
    timer, no click waits beside a held impression, and nothing is sent behind a watermark that makes it late. */
module ExposureInvariant {
  import opened Seqs
  import opened Events
  import opened Measurement
  import opened Streams
  import opened ExposureJoin

  datatype Step = Arrive(event: Event) | Tick(watermark: int)

  ghost function Next(r: Rules, s: State, step: Step): State
    requires r.window > 0
  {
    match step
    case Arrive(e) => Process(r, s, e)
    case Tick(w) => Advance(r, s, w)
  }

  ghost predicate MarksUpTo<T>(log: seq<Message<T>>, seen: int) {
    forall j :: 0 <= j < |log| && log[j].Mark? ==> log[j].watermark <= seen
  }

  /** A linked click leaves before any watermark at which it, or the impression it carries, would be late. */
  ghost predicate ClickTimely(r: Rules, log: seq<Message<LinkedClick>>, p: nat)
    requires p < |log| && log[p].Record?
  {
    var c := log[p].value;
    && MarksBelow(log, p, c.click.time + r.retention)
    && (c.impression.Some? ==> MarksBelow(log, p, c.impression.value.time + r.retention))
  }

  /** A contribution leaves before any watermark at which its row is frozen. */
  ghost predicate ContributionTimely(r: Rules, log: seq<Message<Contribution>>, p: nat)
    requires p < |log| && log[p].Record?
  {
    MarksBelow(log, p, Cleanup(log[p].value, r))
  }

  ghost predicate LogsTimely(r: Rules, s: State) {
    && (forall p :: 0 <= p < |s.out| && s.out[p].Record? ==> ClickTimely(r, s.out, p))
    && (forall p :: 0 <= p < |s.metrics| && s.metrics[p].Record? ==> ContributionTimely(r, s.metrics, p))
  }

  /** The invariant while timers fire: `seen` is the last watermark that was forwarded. */
  ghost predicate Safe(r: Rules, s: State, seen: int) {
    && (forall e :: e in s.waiting ==> e.kind.Click? && seen < e.time + r.wait && e.time + r.wait in s.timers)
    && Distinct(s.waiting, BusinessKey)
    && (s.impression.Some? ==>
          var i := s.impression.value;
          i.kind.Impression? && s.waiting == [] && seen < i.time + r.retention && i.time + r.retention in s.timers)
    && MarksUpTo(s.out, seen) && MarksUpTo(s.metrics, seen)
    && LogsTimely(r, s)
  }

  ghost predicate Inv(r: Rules, s: State) {
    && Safe(r, s, s.watermark)
    && (forall t :: t in s.timers ==> s.watermark < t)
  }

  lemma ClicksAppended(r: Rules, log: seq<Message<LinkedClick>>, clicks: seq<LinkedClick>, seen: int)
    requires MarksUpTo(log, seen)
    requires forall p :: 0 <= p < |log| && log[p].Record? ==> ClickTimely(r, log, p)
    requires forall c :: c in clicks ==>
               seen < c.click.time + r.retention
                   && (c.impression.Some? ==> seen < c.impression.value.time + r.retention)
    ensures MarksUpTo(log + Records(clicks), seen)
    ensures forall p :: 0 <= p < |log + Records(clicks)| && (log + Records(clicks))[p].Record?
                        ==> ClickTimely(r, log + Records(clicks), p)
  {
    var after := log + Records(clicks);
    forall p | 0 <= p < |after| && after[p].Record?
      ensures ClickTimely(r, after, p)
    {
      if p < |log| {
        assert ClickTimely(r, log, p);
        assert forall j :: 0 <= j < p ==> after[j] == log[j];
      } else {
        assert after[p].value == clicks[p - |log|];
        assert clicks[p - |log|] in clicks;
        assert forall j :: 0 <= j < p && after[j].Mark? ==> j < |log| && after[j] == log[j];
      }
    }
  }

  lemma MetricsAppended(r: Rules, log: seq<Message<Contribution>>, cs: seq<Contribution>, seen: int)
    requires MarksUpTo(log, seen)
    requires forall p :: 0 <= p < |log| && log[p].Record? ==> ContributionTimely(r, log, p)
    requires forall c :: c in cs ==> seen < Cleanup(c, r)
    ensures MarksUpTo(log + Records(cs), seen)
    ensures forall p :: 0 <= p < |log + Records(cs)| && (log + Records(cs))[p].Record?
                        ==> ContributionTimely(r, log + Records(cs), p)
  {
    var after := log + Records(cs);
    forall p | 0 <= p < |after| && after[p].Record?
      ensures ContributionTimely(r, after, p)
    {
      if p < |log| {
        assert ContributionTimely(r, log, p);
        assert forall j :: 0 <= j < p ==> after[j] == log[j];
      } else {
        assert after[p].value == cs[p - |log|];
        assert forall j :: 0 <= j < p && after[j].Mark? ==> j < |log| && after[j] == log[j];
      }
    }
  }

  lemma MarkAppended(r: Rules, s: State, w: int)
    requires LogsTimely(r, s)
    ensures LogsTimely(r, s.(out := s.out + [Mark(w)], metrics := s.metrics + [Mark(w)]))
  {
    var after := s.(out := s.out + [Mark(w)], metrics := s.metrics + [Mark(w)]);
    forall p | 0 <= p < |after.out| && after.out[p].Record?
      ensures ClickTimely(r, after.out, p)
    {
      assert ClickTimely(r, s.out, p);
      assert forall j :: 0 <= j < p ==> after.out[j] == s.out[j];
    }
    forall p | 0 <= p < |after.metrics| && after.metrics[p].Record?
      ensures ContributionTimely(r, after.metrics, p)
    {
      assert ContributionTimely(r, s.metrics, p);
      assert forall j :: 0 <= j < p ==> after.metrics[j] == s.metrics[j];
    }
  }

  /** The members of an enriched batch, each linked to the impression only when the link is legal. */
  lemma {:induction false} EnrichMembers(clicks: seq<Event>, i: Option<Event>, r: Rules, c: LinkedClick)
    ensures c in EnrichAll(clicks, i, r) <==> c.click in clicks && c == Enrich(c.click, i, r)
  {
    var all := EnrichAll(clicks, i, r);
    if c in all {
      var k :| 0 <= k < |all| && all[k] == c;
      assert all[k] == Enrich(clicks[k], i, r);
    }
    if c.click in clicks && c == Enrich(c.click, i, r) {
      var k :| 0 <= k < |clicks| && clicks[k] == c.click;
      assert all[k] == c;
    }
  }

  lemma ImpressionKeeps(r: Rules, s: State, e: Event)
    requires ValidRules(r) && Inv(r, s) && e.kind.Impression? && !Late(e, s, r)
    ensures Inv(r, ProcessImpression(r, s, e))
  {
    var seen := s.watermark;
    var s1 := if s.impression.Some? then s
              else s.(impression := Some(e), metrics := s.metrics + Records(ImpressionMetrics(e, r)));
    if s.impression.None? {
      MetricsAppended(r, s.metrics, ImpressionMetrics(e, r), seen);
    }
    var batch := EnrichAll(s1.waiting, s1.impression, r);
    forall c | c in batch
      ensures seen < c.click.time + r.retention && (c.impression.Some? ==> seen < c.impression.value.time + r.retention)
    {
      EnrichMembers(s1.waiting, s1.impression, r, c);
    }
    ClicksAppended(r, s1.out, batch, seen);
  }

  lemma ClickKeeps(r: Rules, s: State, e: Event)
    requires ValidRules(r) && Inv(r, s) && e.kind.Click? && !Late(e, s, r)
    ensures Inv(r, ProcessClick(r, s, e))
  {
    var c := Enrich(e, s.impression, r);
    ClicksAppended(r, s.out, [c], s.watermark);
  }

  lemma ProcessKeeps(r: Rules, s: State, e: Event)
    requires ValidRules(r) && Inv(r, s) && !e.kind.Conversion?
    ensures Inv(r, Process(r, s, e))
  {
    if !Late(e, s, r) {
      if e.kind.Impression? { ImpressionKeeps(r, s, e); } else { ClickKeeps(r, s, e); }
    }
  }

  /** Firing the earliest armed timer. */
  lemma TimerKeeps(r: Rules, s: State, seen: int, t: int)
    requires ValidRules(r) && Safe(r, s, seen) && seen < t
    requires t in s.timers && forall u :: u in s.timers ==> t <= u
    ensures Safe(r, OnTimer(r, s.(timers := s.timers - {t}), t), seen)
  {
    var s1 := s.(timers := s.timers - {t});
    var batch := Filter(s.waiting, Overdue(r.wait, t));
    var clicks := EnrichAll(batch, None, r);
    forall c | c in clicks
      ensures seen < c.click.time + r.retention && c.impression.None?
    {
      EnrichMembers(batch, None, r, c);
      FilterMember(s.waiting, Overdue(r.wait, t), c.click);
    }
    ClicksAppended(r, s.out, clicks, seen);
    var kept := Filter(s.waiting, Early(r.wait, t));
    FilterDistinct(s.waiting, Early(r.wait, t), BusinessKey);
    forall e | e in kept
      ensures e in s.waiting && e.time + r.wait > t
    {
      FilterMember(s.waiting, Early(r.wait, t), e);
    }
  }

  lemma {:induction false} FiringKeeps(r: Rules, s: State, seen: int, w: int)
    requires ValidRules(r) && Safe(r, s, seen)
    requires forall t :: t in s.timers ==> seen < t
    ensures Safe(r, FireDue(r, s, w), seen)
    ensures FireDue(r, s, w).watermark == s.watermark
    ensures forall t :: t in FireDue(r, s, w).timers ==> w < t && t in s.timers
    decreases |s.timers|
  {
    var due := Due(s.timers, w);
    if due != {} {
      var t := Least(due);
      forall u | u in s.timers
        ensures t <= u
      {
        assert u <= w ==> u in due;
      }
      TimerKeeps(r, s, seen, t);
      FiringKeeps(r, OnTimer(r, s.(timers := s.timers - {t}), t), seen, w);
    } else {
      forall t | t in s.timers
        ensures w < t
      {
        assert t !in due;
      }
    }
  }

  /** Forwarding the mark once every timer it reached has fired. */
  lemma MarkKeeps(r: Rules, s: State, seen: int, w: int)
    requires Safe(r, s, seen) && seen <= w == s.watermark && forall t :: t in s.timers ==> w < t
    ensures Inv(r, s.(out := s.out + [Mark(w)], metrics := s.metrics + [Mark(w)]))
  {
    MarkAppended(r, s, w);
  }

  lemma {:induction false} AdvanceKeeps(r: Rules, s: State, w: int)
    requires ValidRules(r) && Inv(r, s)
    ensures Inv(r, Advance(r, s, w))
  {
    if s.watermark < w {
      var s0 := s.(watermark := w);
      FiringKeeps(r, s0, s.watermark, w);
      MarkKeeps(r, FireDue(r, s0, w), s.watermark, w);
    }
  }

  /** Every step keeps the invariant. */
  lemma StepKeeps(r: Rules, s: State, step: Step)
    requires ValidRules(r) && Inv(r, s)
    requires step.Arrive? ==> !step.event.kind.Conversion?
    ensures Inv(r, Next(r, s, step))
  {
    match step
    case Arrive(e) => ProcessKeeps(r, s, e);
    case Tick(w) => AdvanceKeeps(r, s, w);
  }
}
