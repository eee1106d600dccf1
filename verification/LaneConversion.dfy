/** What the conversion join says of one click's conversions, against what is true of them once everything is known. The
    click that was delivered agrees with the known one and is held for as long as a conversion can match it; every
    verdict and every contribution that follows agrees with the batch calculation, unless a click was missed that had
    been promised in time for a conversion that it matches. */
module LaneConversion {
  import opened Seqs
  import opened Events
  import opened Measurement
  import opened Streams
  import opened Lane
  import opened ConversionJoin
  import opened ConversionInvariant

  /** The same click carrying the same impression, if that is sure; the recorded reason of a failed link may differ. */
  predicate Agrees(c: LinkedClick, u: World, r: Rules) {
    && u.click == Some(c.click)
    && (LinkSure(u, r) ==> c.impression == FinalClick(u, r).value.impression)
  }

  /** The same status and, where the link is sure, the same experiment and variant. */
  predicate SameVerdict(a: Association, b: Association, u: World, r: Rules) {
    a.status == b.status && (LinkSure(u, r) ==> OutcomeOf(a) == OutcomeOf(b))
  }

  lemma AgreeingClicksSettleAlike(v: Event, c: LinkedClick, u: World, r: Rules)
    requires r.window > 0 && Agrees(c, u, r)
    ensures SameVerdict(Settled(v, Some(c), r), Settled(v, FinalClick(u, r), r), u, r)
    ensures LinkSure(u, r) ==> SettledMetrics(v, Some(c), r) == SettledMetrics(v, FinalClick(u, r), r)
    ensures LinkSure(u, r) ==> ClickMetrics(c, r) == ClickMetrics(FinalClick(u, r).value, r)
  {
  }

  lemma IllegalSettlesAsAbsent(v: Event, u: World, r: Rules)
    requires r.window > 0 && !MatchLegal(u, v, r)
    ensures OutcomeOf(Settled(v, None, r)) == OutcomeOf(Settled(v, FinalClick(u, r), r))
    ensures SettledMetrics(v, None, r) == SettledMetrics(v, FinalClick(u, r), r)
  {
    var c := FinalClick(u, r);
    UnmatchedReasonsAgree(v, None, ConversionReason(None, v, r), c, ConversionReason(c, v, r), r);
  }

  /** A verdict that agrees with the batch calculation. */
  ghost predicate RightVerdict(r: Rules, u: World, arrived: set<Event>, a: Association) {
    || a.status.Pending?
    || exists v :: v in arrived && a.key == ConversionLink(v)
                   && (Excused(u, v, r) || SameVerdict(a, Settled(v, FinalClick(u, r), r), u, r))
  }

  /** A contribution that the batch calculation makes too. */
  ghost predicate RightContribution(r: Rules, u: World, arrived: set<Event>, m: Contribution)
    requires r.window > 0
  {
    || (u.click.Some? && m in ClickMetrics(FinalClick(u, r).value, r))
    || exists v :: v in arrived && m in SettledMetrics(v, FinalClick(u, r), r)
  }

  ghost predicate AllLogged(log: seq<Message<Contribution>>, cs: seq<Contribution>) {
    forall c :: c in cs ==> Record(c) in log
  }

  /** How the held click relates to the one that was delivered; `now` is the instant up to which timers have fired. */
  ghost predicate ClickHeld(r: Rules, u: World, s: State, delivered: Option<LinkedClick>, now: int) {
    && (s.click.Some? ==> s.click == delivered)
    && (delivered.Some? ==> Agrees(delivered.value, u, r))
    && (delivered.Some? && s.click.None? ==> delivered.value.click.time + r.retention <= now)
  }

  ghost predicate Sound(r: Rules, u: World, s: State, arrived: set<Event>)
    requires r.window > 0
  {
    && (forall a :: a in s.associations ==> RightVerdict(r, u, arrived, a))
    && (FullyPromised(u, r) ==> forall m :: Record(m) in s.metrics ==> RightContribution(r, u, arrived, m))
  }

  ghost predicate Complete(r: Rules, u: World, s: State, arrived: set<Event>, delivered: Option<LinkedClick>)
    requires r.window > 0
  {
    FullyPromised(u, r) ==>
      && (forall v :: v in arrived && v !in s.waiting ==> AllLogged(s.metrics, SettledMetrics(v, FinalClick(u, r), r)))
      && (delivered.Some? && u.click.Some? ==> AllLogged(s.metrics, ClickMetrics(FinalClick(u, r).value, r)))
  }

  ghost predicate Good(r: Rules, u: World, s: State, arrived: set<Event>, delivered: Option<LinkedClick>, now: int)
    requires r.window > 0
  {
    && ClickHeld(r, u, s, delivered, now)
    && arrived <= u.conversions
    && (forall w :: w in s.waiting ==> w in arrived)
    && Sound(r, u, s, arrived)
    && Complete(r, u, s, arrived, delivered)
  }

  lemma {:induction false} SettledMembers(vs: seq<Event>, c: Option<LinkedClick>, r: Rules)
    requires r.window > 0
    ensures forall a :: a in SettledAll(vs, c, r) <==> exists v :: v in vs && a == Settled(v, c, r)
    ensures forall m :: m in SettledMetricsAll(vs, c, r) <==> exists v :: v in vs && m in SettledMetrics(v, c, r)
  {
    if vs != [] {
      var init, last := vs[..|vs| - 1], vs[|vs| - 1];
      assert vs == init + [last];
      assert forall v :: v in vs <==> v in init || v == last;
      SettledMembers(init, c, r);
    }
  }

  lemma LogAppended(log: seq<Message<Contribution>>, cs: seq<Contribution>)
    ensures forall m :: Record(m) in log + Records(cs) <==> Record(m) in log || m in cs
  {
    forall m | m in cs
      ensures Record(m) in log + Records(cs)
    {
      var j :| 0 <= j < |cs| && cs[j] == m;
      assert (log + Records(cs))[|log| + j] == Record(m);
    }
  }

  /** Settling a batch of arrived conversions rightly: against a click that agrees, or against none
      when none is legal. */
  lemma BatchSettled(r: Rules, u: World, s: State, arrived: set<Event>, vs: seq<Event>, c: Option<LinkedClick>)
    requires r.window > 0 && Sound(r, u, s, arrived) && arrived <= u.conversions
    requires forall v :: v in vs ==> v in arrived
    requires c.Some? ==> Agrees(c.value, u, r)
    requires c.None? ==> forall v :: v in vs ==> !MatchLegal(u, v, r) || Excused(u, v, r)
    ensures var s' := Settle(r, s, vs, c);
            && Sound(r, u, s', arrived)
            && (FullyPromised(u, r) ==>
                  forall v :: v in vs ==> AllLogged(s'.metrics, SettledMetrics(v, FinalClick(u, r), r)))
            && (forall m :: Record(m) in s.metrics ==> Record(m) in s'.metrics)
  {
    SettledMembers(vs, c, r);
    LogAppended(s.metrics, SettledMetricsAll(vs, c, r));
    forall v | v in vs
      ensures Excused(u, v, r) || SameVerdict(Settled(v, c, r), Settled(v, FinalClick(u, r), r), u, r)
      ensures FullyPromised(u, r) ==> SettledMetrics(v, c, r) == SettledMetrics(v, FinalClick(u, r), r)
    {
      if c.Some? { AgreeingClicksSettleAlike(v, c.value, u, r); }
      else if !MatchLegal(u, v, r) { IllegalSettlesAsAbsent(v, u, r); }
    }
  }

  lemma ClickDelivered(r: Rules, u: World, s: State, arrived: set<Event>, c: LinkedClick)
    requires ValidRules(r) && Inv(r, s) && Good(r, u, s, arrived, None, s.watermark) && Agrees(c, u, r)
    ensures Good(r, u, ProcessClick(r, s, c), arrived, Some(c), s.watermark)
  {
    var s1 := HoldClick(r, s, c);
    LogAppended(s.metrics, ClickMetrics(c, r));
    AgreeingClicksSettleAlike(c.click, c, u, r);
    BatchSettled(r, u, s1, arrived, s1.waiting, s1.click);
  }

  lemma ConversionArrives(r: Rules, u: World, s: State, arrived: set<Event>, delivered: Option<LinkedClick>, v: Event)
    requires ValidRules(r) && Inv(r, s) && Good(r, u, s, arrived, delivered, s.watermark)
    requires v in u.conversions && v !in arrived && v.kind.Conversion?
    requires forall w :: w in s.waiting ==> BusinessKey(w) != BusinessKey(v)
    requires MatchLegal(u, v, r) && v in u.promised ==> s.watermark < v.time + r.wait
    ensures Good(r, u, ProcessConversion(r, s, v), arrived + {v}, delivered, s.watermark)
  {
    Widened(r, u, s, arrived, v);
    if s.click.Some? {
      BatchSettled(r, u, s, arrived + {v}, [v], s.click);
    } else if v.time + r.wait <= s.watermark {
      BatchSettled(r, u, s, arrived + {v}, [v], None);
    }
    assert v in [v];
  }

  lemma Widened(r: Rules, u: World, s: State, arrived: set<Event>, v: Event)
    requires r.window > 0 && Sound(r, u, s, arrived)
    ensures Sound(r, u, s, arrived + {v})
  {
    forall a | a in s.associations
      ensures RightVerdict(r, u, arrived + {v}, a)
    {
      assert RightVerdict(r, u, arrived, a);
    }
    forall m | Record(m) in s.metrics && FullyPromised(u, r)
      ensures RightContribution(r, u, arrived + {v}, m)
    {
      assert RightContribution(r, u, arrived, m);
    }
  }

  /** No conversion that the click matches is given up on before `w` unless the click was delivered. */
  ghost predicate NoneMissed(r: Rules, u: World, arrived: set<Event>, delivered: Option<LinkedClick>, w: int) {
    delivered.None? ==> forall v :: v in arrived && MatchLegal(u, v, r) && v in u.promised ==> w < v.time + r.wait
  }

  lemma OverdueOrEarly(r: Rules, vs: seq<Event>, t: int, v: Event)
    ensures v in Filter(vs, Overdue(r.wait, t)) <==> v in vs && v.time + r.wait <= t
    ensures v in Filter(vs, Early(r.wait, t)) <==> v in vs && t < v.time + r.wait
  {
    FilterMember(vs, Overdue(r.wait, t), v);
    FilterMember(vs, Early(r.wait, t), v);
  }

  /** What a timer finds overdue is rightly given up on. */
  lemma OverdueIsHopeless(r: Rules, u: World, s: State, arrived: set<Event>, delivered: Option<LinkedClick>, seen: int,
                          now: int, t: int, w: int, v: Event)
    requires ValidRules(r) && Safe(r, s, seen, now) && Good(r, u, s, arrived, delivered, now) && t <= w
    requires t in s.timers && forall x :: x in s.timers ==> t <= x
    requires NoneMissed(r, u, arrived, delivered, w) && v in Filter(s.waiting, Overdue(r.wait, t))
    ensures !MatchLegal(u, v, r) || Excused(u, v, r)
  {
    DueExactly(r, s, seen, now, t, v);
    if MatchLegal(u, v, r) { RetentionCoversMatch(u.click.value, v, r); }
  }

  lemma GivenUpCompletes(r: Rules, u: World, s: State, s': State, arrived: set<Event>, delivered: Option<LinkedClick>,
                         due: seq<Event>)
    requires r.window > 0 && Complete(r, u, s, arrived, delivered)
    requires forall m :: Record(m) in s.metrics ==> Record(m) in s'.metrics
    requires FullyPromised(u, r) ==>
               forall v :: v in due ==> AllLogged(s'.metrics, SettledMetrics(v, FinalClick(u, r), r))
    requires forall v :: v in s.waiting ==> v in due || v in s'.waiting
    ensures Complete(r, u, s', arrived, delivered)
  {
  }

  lemma {:induction false} TimerSettles(r: Rules, u: World, s: State, arrived: set<Event>,
                                        delivered: Option<LinkedClick>, seen: int, now: int, t: int, w: int)
    requires ValidRules(r) && Safe(r, s, seen, now) && Good(r, u, s, arrived, delivered, now) && t <= w
    requires t in s.timers && forall x :: x in s.timers ==> t <= x
    requires NoneMissed(r, u, arrived, delivered, w)
    ensures Good(r, u, OnTimer(r, s.(timers := s.timers - {t}), t), arrived, delivered, t)
  {
    var due, kept := Filter(s.waiting, Overdue(r.wait, t)), Filter(s.waiting, Early(r.wait, t));
    forall v
      ensures v in due <==> v in s.waiting && v.time + r.wait <= t
      ensures v in kept <==> v in s.waiting && t < v.time + r.wait
    {
      OverdueOrEarly(r, s.waiting, t, v);
    }
    forall v | v in due
      ensures !MatchLegal(u, v, r) || Excused(u, v, r)
    {
      OverdueIsHopeless(r, u, s, arrived, delivered, seen, now, t, w, v);
    }
    var s0 := s.(timers := s.timers - {t});
    BatchSettled(r, u, s0, arrived, due, None);
    GivenUpCompletes(r, u, s, OnTimer(r, s0, t), arrived, delivered, due);
  }

  lemma {:induction false} FiringSettles(r: Rules, u: World, s: State, arrived: set<Event>,
                                         delivered: Option<LinkedClick>, seen: int, now: int, w: int)
    requires ValidRules(r) && Safe(r, s, seen, now) && Good(r, u, s, arrived, delivered, now) && now <= w
    requires NoneMissed(r, u, arrived, delivered, w)
    ensures Good(r, u, FireDue(r, s, w), arrived, delivered, w)
    decreases |s.waiting|, |s.timers|
  {
    var due := Due(s.timers, w);
    if due != {} {
      var t := Least(due);
      forall x | x in s.timers
        ensures t <= x
      {
        assert x <= w ==> x in due;
      }
      FireStep(r, s, w, t);
      FiringProgresses(r, s, t);
      TimerKeeps(r, s, seen, now, t);
      TimerSettles(r, u, s, arrived, delivered, seen, now, t, w);
      FiringSettles(r, u, OnTimer(r, s.(timers := s.timers - {t}), t), arrived, delivered, seen, t, w);
    }
  }

  lemma Ticks(r: Rules, u: World, s: State, arrived: set<Event>, delivered: Option<LinkedClick>, w: int)
    requires ValidRules(r) && Inv(r, s) && Good(r, u, s, arrived, delivered, s.watermark)
    requires NoneMissed(r, u, arrived, delivered, w)
    ensures var s' := Advance(r, s, w); Good(r, u, s', arrived, delivered, s'.watermark)
  {
    if s.watermark < w {
      var s0 := s.(watermark := w);
      FiringSettles(r, u, s0, arrived, delivered, s.watermark, s.watermark, w);
      FiringKeeps(r, s0, s.watermark, s.watermark, w);
      MarkSettled(r, u, FireDue(r, s0, w), arrived, delivered, w);
    }
  }

  lemma MarkSettled(r: Rules, u: World, s: State, arrived: set<Event>, delivered: Option<LinkedClick>, w: int)
    requires r.window > 0 && Good(r, u, s, arrived, delivered, w)
    ensures Good(r, u, s.(metrics := s.metrics + [Mark(w)]), arrived, delivered, w)
  {
    assert forall m :: Record(m) in s.metrics + [Mark(w)] <==> Record(m) in s.metrics;
  }
}
