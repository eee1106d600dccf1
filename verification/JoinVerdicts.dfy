/** What the joins decide over whole runs, said of the fields of the events that arrived: every verdict is that of the
    click held at its moment, every link that of the impression held at its moment, and each says of the two what is
    true of them. */
module JoinVerdicts {
  import opened Seqs
  import opened Events
  import opened Measurement
  import opened Streams
  import opened Attribution
  import C = ConversionJoin
  import CI = ConversionInvariant
  import CO = ConversionOutcomes
  import E = ExposureJoin
  import EI = ExposureInvariant

  // Conversions against their click.

  /** The inputs that reach the operator's instance of one click key. */
  predicate OfClickKey(x: C.Input, k: Link) {
    match x
    case OfClick(c) => c.click.kind.Click? && Link(c.click.advertiser, c.click.app, c.click.clickId) == k
    case OfConversion(v) => v.kind.Conversion? && Link(v.advertiser, v.app, v.clickId) == k
  }

  ghost predicate Keyed(steps: seq<CI.Step>, k: Link) {
    forall n :: 0 <= n < |steps| && steps[n].Arrive? ==> OfClickKey(steps[n].input, k)
  }

  function ClickIn(held: Option<LinkedClick>): seq<Event> { if held.Some? then [held.value.click] else [] }

  /** A wait for the click of `v`. */
  predicate Awaits(v: Event, a: Association) {
    && a.key == Link(v.advertiser, v.app, v.conversionId) && a.click == Link(v.advertiser, v.app, v.clickId)
    && a.time == v.time && a.receipt == v.receipt
    && a.status.Pending? && a.reason.AwaitingClick? && a.experiment == a.variant == "unknown"
  }

  /** A verdict on `v` against the click that is held, if any. */
  ghost predicate Judges(v: Event, held: Option<LinkedClick>, a: Association, r: Rules) {
    && a.key == Link(v.advertiser, v.app, v.conversionId) && a.click == Link(v.advertiser, v.app, v.clickId)
    && a.time == v.time && a.receipt == v.receipt
    && a.status == (if held.Some? && MayMatch(held.value.click, v, r) then MatchedStatus else Unmatched)
    && MatchedBecause(ClickIn(held), v, a.reason, r)
    && (if held.Some? && MayMatch(held.value.click, v, r) && held.value.impression.Some? then
          var i := held.value.impression.value; a.experiment == i.experiment && a.variant == i.variant
        else a.experiment == a.variant == "unknown")
  }

  lemma SettledJudges(v: Event, held: Option<LinkedClick>, r: Rules, k: Link)
    requires OfClickKey(C.OfConversion(v), k) && (held.Some? ==> OfClickKey(C.OfClick(held.value), k))
    ensures Judges(v, held, C.Settled(v, held, r), r)
  {
    if held.Some? { assert held.value.click in ClickIn(held) && Names(held.value.click, v); }
  }

  lemma {:induction false} SettledAt(vs: seq<Event>, held: Option<LinkedClick>, r: Rules)
    ensures |C.SettledAll(vs, held, r)| == |vs|
    ensures forall p :: 0 <= p < |vs| ==> C.SettledAll(vs, held, r)[p] == C.Settled(vs[p], held, r)
  {
    if vs != [] { SettledAt(vs[..|vs| - 1], held, r); }
  }

  /** Position `p` of the longer log is a verdict on some of `vs` against `held`. */
  ghost predicate NewVerdict(vs: seq<Event>, held: Option<LinkedClick>, r: Rules, a: Association) {
    exists v :: v in vs && a == C.Settled(v, held, r)
  }

  lemma {:induction false} AppendSays(log: seq<Association>, vs: seq<Event>, held: Option<LinkedClick>, r: Rules,
                                      p: nat)
    requires |log| <= p < |log + C.SettledAll(vs, held, r)|
    ensures NewVerdict(vs, held, r, (log + C.SettledAll(vs, held, r))[p])
  {
    SettledAt(vs, held, r);
    assert (log + C.SettledAll(vs, held, r))[p] == C.Settled(vs[p - |log|], held, r) && vs[p - |log|] in vs;
  }

  lemma {:induction false} SettleSays(r: Rules, s: C.State, vs: seq<Event>, held: Option<LinkedClick>)
    requires r.window > 0
    ensures var after := C.Settle(r, s, vs, held).associations;
            && s.associations <= after
            && forall p :: |s.associations| <= p < |after| ==> NewVerdict(vs, held, r, after[p])
  {
    var after := C.Settle(r, s, vs, held).associations;
    assert after == s.associations + C.SettledAll(vs, held, r);
    forall p | |s.associations| <= p < |after|
      ensures NewVerdict(vs, held, r, after[p])
    {
      AppendSays(s.associations, vs, held, r, p);
    }
  }

  lemma TimerSays(r: Rules, s: C.State, t: int)
    requires r.window > 0
    ensures var s' := C.OnTimer(r, s, t);
            && s.associations <= s'.associations
            && (forall p :: |s.associations| <= p < |s'.associations| ==>
                  NewVerdict(s.waiting, None, r, s'.associations[p]))
            && (forall v :: v in s'.waiting ==> v in s.waiting) && (s'.click.Some? ==> s.click.Some?)
            && (s.waiting == [] ==> s'.waiting == [] && s'.associations == s.associations)
  {
    var due := Filter(s.waiting, Overdue(r.wait, t));
    SettleSays(r, s, due, None);
    var after := C.OnTimer(r, s, t).associations;
    forall p | |s.associations| <= p < |after|
      ensures NewVerdict(s.waiting, None, r, after[p])
    {
      var v :| v in due && after[p] == C.Settled(v, None, r);
      FilterMember(s.waiting, Overdue(r.wait, t), v);
    }
    forall v
      ensures v in C.OnTimer(r, s, t).waiting ==> v in s.waiting
    {
      FilterMember(s.waiting, Early(r.wait, t), v);
    }
  }

  /** Everything new in the log gives up on something that waited, no click being held. */
  ghost predicate GivenUp(r: Rules, s: C.State, s': C.State) {
    && (|s.associations| < |s'.associations| ==> s.click.None?)
    && forall p :: |s.associations| <= p < |s'.associations| ==> NewVerdict(s.waiting, None, r, s'.associations[p])
  }

  /** Firing gives up on what waits; nothing waits beside a held click. */
  lemma {:induction false} FiringSays(r: Rules, s: C.State, w: int)
    requires r.window > 0 && (s.click.Some? ==> s.waiting == [])
    ensures var s' := C.FireDue(r, s, w);
            && s.associations <= s'.associations
            && (forall v :: v in s'.waiting ==> v in s.waiting) && (s'.click.Some? ==> s.click == s'.click)
            && GivenUp(r, s, s')
    decreases |s.waiting|, |s.timers|
  {
    var due := Due(s.timers, w);
    if due != {} {
      var t := Least(due);
      var s0 := s.(timers := s.timers - {t});
      var s1 := C.OnTimer(r, s0, t);
      C.FireStep(r, s, w, t);
      C.FiringProgresses(r, s, t);
      TimerSays(r, s0, t);
      FiringSays(r, s1, w);
      GivenUpOn(r, s, s1, C.FireDue(r, s, w));
    }
  }

  lemma GivenUpOn(r: Rules, s: C.State, s1: C.State, s': C.State)
    requires s.associations <= s1.associations <= s'.associations && (s.click.Some? ==> s.waiting == [])
    requires forall v :: v in s1.waiting ==> v in s.waiting
    requires forall p :: |s.associations| <= p < |s1.associations| ==>
               NewVerdict(s.waiting, None, r, s1.associations[p])
    requires GivenUp(r, s1, s')
    ensures GivenUp(r, s, s')
  {
    forall p | |s.associations| <= p < |s'.associations|
      ensures s.waiting != [] && NewVerdict(s.waiting, None, r, s'.associations[p])
    {
      if |s1.associations| <= p {
        assert NewVerdict(s1.waiting, None, r, s'.associations[p]);
        var v :| v in s1.waiting && s'.associations[p] == C.Settled(v, None, r);
        assert v in s.waiting;
      } else {
        assert NewVerdict(s.waiting, None, r, s1.associations[p]) && s'.associations[p] == s1.associations[p];
        var v :| v in s.waiting && s'.associations[p] == C.Settled(v, None, r);
      }
    }
    if |s.associations| < |s'.associations| {
      assert NewVerdict(s.waiting, None, r, s'.associations[|s.associations|]);
    }
  }

  /** The click that a step judges against. */
  ghost function HeldBy(s: C.State, s': C.State, step: CI.Step): Option<LinkedClick> {
    if step.Arrive? then s'.click else s.click
  }

  ghost predicate SaidOf(s: C.State, s': C.State, step: CI.Step, r: Rules, v: Event, a: Association) {
    && (v in s.waiting || step == CI.Arrive(C.OfConversion(v)))
    && (Awaits(v, a) || a == C.Settled(v, HeldBy(s, s', step), r))
  }

  ghost predicate SaidOfSome(s: C.State, s': C.State, step: CI.Step, r: Rules, a: Association) {
    exists v :: SaidOf(s, s', step, r, v, a)
  }

  lemma ClickSays(r: Rules, s: C.State, c: LinkedClick)
    requires r.window > 0
    ensures var s', step := C.ProcessClick(r, s, c), CI.Arrive(C.OfClick(c));
            && s.associations <= s'.associations && s'.waiting == []
            && (s'.click == s.click || s'.click == Some(c))
            && forall p :: |s.associations| <= p < |s'.associations| ==>
                 SaidOfSome(s, s', step, r, s'.associations[p])
  {
    var s1, s', step := C.HoldClick(r, s, c), C.ProcessClick(r, s, c), CI.Arrive(C.OfClick(c));
    SettleSays(r, s1, s1.waiting, s1.click);
    forall p | |s.associations| <= p < |s'.associations|
      ensures SaidOfSome(s, s', step, r, s'.associations[p])
    {
      assert NewVerdict(s1.waiting, s1.click, r, s'.associations[p]);
      var v :| v in s1.waiting && s'.associations[p] == C.Settled(v, s1.click, r);
      assert SaidOf(s, s', step, r, v, s'.associations[p]);
    }
  }

  lemma ConversionSays(r: Rules, s: C.State, v: Event)
    requires r.window > 0
    ensures var s', step := C.ProcessConversion(r, s, v), CI.Arrive(C.OfConversion(v));
            && s.associations <= s'.associations && s'.click == s.click
            && (forall w :: w in s'.waiting ==> w in s.waiting || w == v)
            && forall p :: |s.associations| <= p < |s'.associations| ==>
                 SaidOfSome(s, s', step, r, s'.associations[p])
  {
    var s', step := C.ProcessConversion(r, s, v), CI.Arrive(C.OfConversion(v));
    SettleSays(r, s, [v], s.click);
    forall p | |s.associations| <= p < |s'.associations|
      ensures SaidOfSome(s, s', step, r, s'.associations[p])
    {
      assert NewVerdict([v], s.click, r, s'.associations[p]) || Awaits(v, s'.associations[p]);
      assert SaidOf(s, s', step, r, v, s'.associations[p]);
    }
  }

  lemma StepSays(r: Rules, s: C.State, step: CI.Step)
    requires r.window > 0 && CI.Inv(r, s)
    ensures var s' := CI.Next(r, s, step);
            && s.associations <= s'.associations
            && (forall v :: v in s'.waiting ==> v in s.waiting || step == CI.Arrive(C.OfConversion(v)))
            && (s'.click.Some? ==> s'.click == s.click || step == CI.Arrive(C.OfClick(s'.click.value)))
            && forall p :: |s.associations| <= p < |s'.associations| ==>
                 SaidOfSome(s, s', step, r, s'.associations[p])
  {
    match step
    case Tick(w) =>
      var s' := CI.Next(r, s, step);
      if s.watermark < w { FiringSays(r, s.(watermark := w), w); }
      forall p | |s.associations| <= p < |s'.associations|
        ensures SaidOfSome(s, s', step, r, s'.associations[p])
      {
        assert NewVerdict(s.waiting, None, r, s'.associations[p]);
        var v :| v in s.waiting && s'.associations[p] == C.Settled(v, None, r);
        assert SaidOf(s, s', step, r, v, s'.associations[p]);
      }
    case Arrive(OfClick(c)) =>
      if !C.Late(step.input, s, r) { ClickSays(r, s, c); }
    case Arrive(OfConversion(v)) =>
      if !C.Late(step.input, s, r) { ConversionSays(r, s, v); }
  }

  ghost predicate HeldIn(s: C.State, steps: seq<CI.Step>) {
    && (forall v :: v in s.waiting ==> CI.Arrive(C.OfConversion(v)) in steps)
    && (s.click.Some? ==> CI.Arrive(C.OfClick(s.click.value)) in steps)
  }

  lemma {:induction false} HeldStays(r: Rules, s: C.State, init: seq<CI.Step>, step: CI.Step)
    requires r.window > 0 && CI.Inv(r, s) && HeldIn(s, init)
    ensures HeldIn(CI.Next(r, s, step), init + [step])
  {
    StepSays(r, s, step);
  }

  /** The operator's invariant held before every step. */
  ghost predicate Sane(r: Rules, steps: seq<CI.Step>)
    requires r.window > 0
  {
    steps != [] ==> Sane(r, steps[..|steps| - 1]) && CI.Inv(r, CO.Run(r, steps[..|steps| - 1]))
  }

  lemma {:induction false} ProperIsSane(r: Rules, steps: seq<CI.Step>)
    requires ValidRules(r) && CO.ProperRun(r, steps)
    ensures Sane(r, steps)
  {
    if steps != [] {
      CO.PrefixProper(r, steps);
      CO.RunKeeps(r, steps[..|steps| - 1]);
      ProperIsSane(r, steps[..|steps| - 1]);
    }
  }

  /** What a run holds has arrived in it. */
  lemma {:induction false} HeldHasArrived(r: Rules, steps: seq<CI.Step>)
    requires r.window > 0 && Sane(r, steps)
    ensures HeldIn(CO.Run(r, steps), steps)
  {
    if steps != [] {
      var init, step := steps[..|steps| - 1], steps[|steps| - 1];
      assert steps == init + [step];
      HeldHasArrived(r, init);
      HeldStays(r, CO.Run(r, init), init, step);
    }
  }

  /** By the end of `steps`, `a` may be said of `v`, which has arrived, as the click held has, and it is true. */
  ghost predicate TrulySaid(steps: seq<CI.Step>, held: Option<LinkedClick>, v: Event, a: Association, r: Rules) {
    && CI.Arrive(C.OfConversion(v)) in steps && (Awaits(v, a) || Judges(v, held, a, r))
    && (held.Some? ==> CI.Arrive(C.OfClick(held.value)) in steps)
  }

  /** Position `p` of the log is said in step `n`, of the conversion `v`. */
  ghost predicate SaidIn(r: Rules, steps: seq<CI.Step>, p: nat, n: nat, v: Event)
    requires r.window > 0 && n < |steps| && p < |CO.Run(r, steps).associations|
  {
    var s, s', a := CO.Run(r, steps[..n]), CO.Run(r, steps[..n + 1]), CO.Run(r, steps).associations[p];
    |s.associations| <= p < |s'.associations| && TrulySaid(steps[..n + 1], HeldBy(s, s', steps[n]), v, a, r)
  }

  /** What the last step says is said of something that waited or comes with it. */
  lemma {:induction false} SaidOfLast(r: Rules, init: seq<CI.Step>, step: CI.Step, p: nat) returns (v: Event)
    requires r.window > 0 && CI.Inv(r, CO.Run(r, init))
    requires |CO.Run(r, init).associations| <= p < |CI.Next(r, CO.Run(r, init), step).associations|
    ensures var s, s' := CO.Run(r, init), CI.Next(r, CO.Run(r, init), step);
            SaidOf(s, s', step, r, v, s'.associations[p])
  {
    var s, s' := CO.Run(r, init), CI.Next(r, CO.Run(r, init), step);
    StepSays(r, s, step);
    assert SaidOfSome(s, s', step, r, s'.associations[p]);
    v :| SaidOf(s, s', step, r, v, s'.associations[p]);
  }

  lemma ArrivedInKey(steps: seq<CI.Step>, k: Link, x: C.Input)
    requires Keyed(steps, k) && CI.Arrive(x) in steps
    ensures OfClickKey(x, k)
  {
    var n :| 0 <= n < |steps| && steps[n] == CI.Arrive(x);
  }

  /** What is said in a step is said of what has arrived by then, and is true of it. */
  lemma {:induction false} SaidIsTrue(r: Rules, init: seq<CI.Step>, step: CI.Step, k: Link, v: Event, a: Association)
    requires r.window > 0 && Sane(r, init) && Sane(r, init + [step]) && Keyed(init + [step], k)
    requires CO.Run(r, init + [step]) == CI.Next(r, CO.Run(r, init), step)
    requires SaidOf(CO.Run(r, init), CO.Run(r, init + [step]), step, r, v, a)
    ensures TrulySaid(init + [step], HeldBy(CO.Run(r, init), CO.Run(r, init + [step]), step), v, a, r)
  {
    var steps, held := init + [step], HeldBy(CO.Run(r, init), CO.Run(r, init + [step]), step);
    HeldHasArrived(r, init);
    HeldHasArrived(r, steps);
    ArrivedInKey(steps, k, C.OfConversion(v));
    if held.Some? { ArrivedInKey(steps, k, C.OfClick(held.value)); }
    SettledJudges(v, held, r, k);
  }

  lemma {:induction false} SaidLast(r: Rules, steps: seq<CI.Step>, k: Link, p: nat) returns (v: Event)
    requires r.window > 0 && Sane(r, steps) && Keyed(steps, k) && steps != []
    requires |CO.Run(r, steps[..|steps| - 1]).associations| <= p < |CO.Run(r, steps).associations|
    ensures SaidIn(r, steps, p, |steps| - 1, v)
  {
    var init, step := steps[..|steps| - 1], steps[|steps| - 1];
    assert steps == init + [step];
    v := SaidOfLast(r, init, step, p);
    SaidIsTrue(r, init, step, k, v, CO.Run(r, steps).associations[p]);
    SaidInLast(r, steps, p, v);
  }

  lemma {:induction false} SaidInLast(r: Rules, steps: seq<CI.Step>, p: nat, v: Event)
    requires r.window > 0 && steps != [] && p < |CO.Run(r, steps).associations|
    requires |CO.Run(r, steps[..|steps| - 1]).associations| <= p
    requires var held := HeldBy(CO.Run(r, steps[..|steps| - 1]), CO.Run(r, steps), steps[|steps| - 1]);
             TrulySaid(steps, held, v, CO.Run(r, steps).associations[p], r)
    ensures SaidIn(r, steps, p, |steps| - 1, v)
  {
    assert steps[..|steps|] == steps;
  }

  lemma {:induction false} SaidLater(r: Rules, steps: seq<CI.Step>, p: nat, n: nat, v: Event)
    requires r.window > 0 && steps != [] && n < |steps| - 1 && p < |CO.Run(r, steps[..|steps| - 1]).associations|
    requires CO.Run(r, steps[..|steps| - 1]).associations <= CO.Run(r, steps).associations
    requires SaidIn(r, steps[..|steps| - 1], p, n, v)
    ensures SaidIn(r, steps, p, n, v)
  {
    var init := steps[..|steps| - 1];
    assert init[..n] == steps[..n] && init[..n + 1] == steps[..n + 1];
  }

  /** Over any run: everything the join says is said of a conversion that has arrived, and is a wait for its click or
      the verdict against the click held at that moment: matched exactly if the conversion is due to that click by user,
      campaign and time, unmatched with what is true of the two if not, or if no click is held. */
  lemma {:induction false} VerdictsAreTrue(r: Rules, steps: seq<CI.Step>, k: Link, p: nat)
    requires ValidRules(r) && CO.ProperRun(r, steps) && Keyed(steps, k) && p < |CO.Run(r, steps).associations|
    ensures exists n, v :: 0 <= n < |steps| && SaidIn(r, steps, p, n, v)
  {
    ProperIsSane(r, steps);
    var n, v := SaidWhere(r, steps, k, p);
  }

  lemma {:induction false} LogGrows(r: Rules, steps: seq<CI.Step>)
    requires r.window > 0 && Sane(r, steps) && steps != []
    ensures CO.Run(r, steps[..|steps| - 1]).associations <= CO.Run(r, steps).associations
  {
    StepSays(r, CO.Run(r, steps[..|steps| - 1]), steps[|steps| - 1]);
  }

  lemma {:induction false} SaidWhere(r: Rules, steps: seq<CI.Step>, k: Link, p: nat) returns (n: nat, v: Event)
    requires r.window > 0 && Sane(r, steps) && Keyed(steps, k) && p < |CO.Run(r, steps).associations|
    ensures n < |steps| && SaidIn(r, steps, p, n, v)
  {
    var init := steps[..|steps| - 1];
    LogGrows(r, steps);
    if p < |CO.Run(r, init).associations| {
      n, v := SaidWhere(r, init, k, p);
      SaidLater(r, steps, p, n, v);
    } else {
      n := |init|;
      v := SaidLast(r, steps, k, p);
    }
  }

  // Clicks against their impression.

  predicate OfImpressionKey(e: Event, k: Link) {
    !e.kind.Conversion? && Link(e.advertiser, e.app, e.impressionId) == k
  }

  ghost predicate ShownAlike(steps: seq<EI.Step>, k: Link) {
    forall n :: 0 <= n < |steps| && steps[n].Arrive? ==> OfImpressionKey(steps[n].event, k)
  }

  ghost function ExposureRun(r: Rules, steps: seq<EI.Step>): E.State
    requires r.window > 0
  {
    if steps == [] then E.INITIAL else EI.Next(r, ExposureRun(r, steps[..|steps| - 1]), steps[|steps| - 1])
  }

  ghost predicate ProperExposure(r: Rules, steps: seq<EI.Step>)
    requires r.window > 0
  {
    forall n :: 0 <= n < |steps| && steps[n].Arrive? ==> !steps[n].event.kind.Conversion?
  }

  function ImpressionIn(held: Option<Event>): seq<Event> { if held.Some? then [held.value] else [] }

  /** The click as it leaves: linked to the impression held, if the two may be linked, and otherwise to none. */
  ghost predicate Links(e: Event, held: Option<Event>, c: LinkedClick, r: Rules) {
    && c.click == e
    && c.impression == (if held.Some? && MayLink(held.value, e, r) then held else None)
    && LinkedBecause(ImpressionIn(held), e, c.reason, r)
  }

  lemma EnrichedLinks(e: Event, held: Option<Event>, r: Rules, k: Link)
    requires e.kind.Click? && OfImpressionKey(e, k)
    requires held.Some? ==> held.value.kind.Impression? && OfImpressionKey(held.value, k)
    ensures Links(e, held, Enrich(e, held, r), r)
  {
    if held.Some? { assert held.value in ImpressionIn(held) && Shows(held.value, e); }
  }

  ghost predicate NewClick(es: seq<Event>, held: Option<Event>, r: Rules, m: Message<LinkedClick>) {
    m.Record? && exists e :: e in es && m.value == Enrich(e, held, r)
  }

  lemma {:induction false} AppendSends(log: seq<Message<LinkedClick>>, es: seq<Event>, held: Option<Event>, r: Rules,
                                       p: nat)
    requires |log| <= p < |log + Records(E.EnrichAll(es, held, r))|
    ensures NewClick(es, held, r, (log + Records(E.EnrichAll(es, held, r)))[p])
  {
    var e := es[p - |log|];
    assert E.EnrichAll(es, held, r)[p - |log|] == Enrich(e, held, r);
    assert e in es && (log + Records(E.EnrichAll(es, held, r)))[p] == Record(Enrich(e, held, r));
  }

  lemma {:induction false} EmitSends(s: E.State, es: seq<Event>, held: Option<Event>, r: Rules)
    ensures var after := E.Emit(s, E.EnrichAll(es, held, r)).out;
            && s.out <= after
            && forall p :: |s.out| <= p < |after| ==> NewClick(es, held, r, after[p])
  {
    var after := E.Emit(s, E.EnrichAll(es, held, r)).out;
    forall p | |s.out| <= p < |after|
      ensures NewClick(es, held, r, after[p])
    {
      AppendSends(s.out, es, held, r, p);
    }
  }

  ghost predicate Released(r: Rules, s: E.State, s': E.State) {
    && (|s.out| < |s'.out| ==> s.impression.None?)
    && forall p :: |s.out| <= p < |s'.out| ==> NewClick(s.waiting, None, r, s'.out[p])
  }

  lemma TimerSends(r: Rules, s: E.State, t: int)
    ensures var s' := E.OnTimer(r, s, t);
            && s.out <= s'.out && (forall e :: e in s'.waiting ==> e in s.waiting)
            && (s'.impression.Some? ==> s.impression == s'.impression)
            && (forall p :: |s.out| <= p < |s'.out| ==> NewClick(s.waiting, None, r, s'.out[p]))
            && (s.waiting == [] ==> s'.waiting == [] && s'.out == s.out)
  {
    var due := Filter(s.waiting, Overdue(r.wait, t));
    EmitSends(s, due, None, r);
    var s' := E.OnTimer(r, s, t);
    forall p | |s.out| <= p < |s'.out|
      ensures NewClick(s.waiting, None, r, s'.out[p])
    {
      var e :| e in due && s'.out[p].value == Enrich(e, None, r);
      FilterMember(s.waiting, Overdue(r.wait, t), e);
    }
    forall e
      ensures e in s'.waiting ==> e in s.waiting
    {
      FilterMember(s.waiting, Early(r.wait, t), e);
    }
  }

  lemma {:induction false} FiringSends(r: Rules, s: E.State, w: int)
    requires s.impression.Some? ==> s.waiting == []
    ensures var s' := E.FireDue(r, s, w);
            && s.out <= s'.out && (forall e :: e in s'.waiting ==> e in s.waiting)
            && (s'.impression.Some? ==> s.impression == s'.impression)
            && Released(r, s, s')
    decreases |s.timers|
  {
    var due := Due(s.timers, w);
    if due != {} {
      var t := Least(due);
      var s0 := s.(timers := s.timers - {t});
      var s1 := E.OnTimer(r, s0, t);
      assert s.timers - {t} < s.timers;
      E.FireStep(r, s, w, t);
      TimerSends(r, s0, t);
      FiringSends(r, s1, w);
      ReleasedOn(r, s, s1, E.FireDue(r, s, w));
    }
  }

  lemma ReleasedOn(r: Rules, s: E.State, s1: E.State, s': E.State)
    requires s.out <= s1.out <= s'.out && (s.impression.Some? ==> s.waiting == [])
    requires forall e :: e in s1.waiting ==> e in s.waiting
    requires forall p :: |s.out| <= p < |s1.out| ==> NewClick(s.waiting, None, r, s1.out[p])
    requires Released(r, s1, s')
    ensures Released(r, s, s')
  {
    forall p | |s.out| <= p < |s'.out|
      ensures s.waiting != [] && NewClick(s.waiting, None, r, s'.out[p])
    {
      if |s1.out| <= p {
        assert NewClick(s1.waiting, None, r, s'.out[p]);
        var e :| e in s1.waiting && s'.out[p].value == Enrich(e, None, r);
        assert e in s.waiting;
      } else {
        assert NewClick(s.waiting, None, r, s1.out[p]) && s'.out[p] == s1.out[p];
        var e :| e in s.waiting && s'.out[p].value == Enrich(e, None, r);
      }
    }
    if |s.out| < |s'.out| { assert NewClick(s.waiting, None, r, s'.out[|s.out|]); }
  }

  /** The impression that a step links to. */
  ghost function HeldFor(s: E.State, s': E.State, step: EI.Step): Option<Event> {
    if step.Arrive? then s'.impression else s.impression
  }

  ghost predicate SentOf(s: E.State, s': E.State, step: EI.Step, r: Rules, e: Event, m: Message<LinkedClick>) {
    m.Record? && (e in s.waiting || (step == EI.Arrive(e) && e.kind.Click?))
    && m.value == Enrich(e, HeldFor(s, s', step), r)
  }

  /** Whatever a step sends is a mark or a click linked to what was held. */
  ghost predicate Sends(s: E.State, s': E.State, step: EI.Step, r: Rules) {
    && s.out <= s'.out
    && forall p :: |s.out| <= p < |s'.out| && s'.out[p].Record? ==> exists e :: SentOf(s, s', step, r, e, s'.out[p])
  }

  lemma ArrivalSends(r: Rules, s: E.State, e: Event)
    requires r.window > 0 && EI.Inv(r, s) && !e.kind.Conversion?
    ensures Sends(s, E.Process(r, s, e), EI.Arrive(e), r)
  {
    var s', step := E.Process(r, s, e), EI.Arrive(e);
    EmitSends(s, s.waiting, s'.impression, r);
    EmitSends(s, [e], s'.impression, r);
    forall p | |s.out| <= p < |s'.out| && s'.out[p].Record?
      ensures exists x :: SentOf(s, s', step, r, x, s'.out[p])
    {
      if e.kind.Impression? {
        assert NewClick(s.waiting, s'.impression, r, s'.out[p]);
        var x :| x in s.waiting && s'.out[p].value == Enrich(x, s'.impression, r);
        assert SentOf(s, s', step, r, x, s'.out[p]);
      } else {
        assert SentOf(s, s', step, r, e, s'.out[p]);
      }
    }
  }

  lemma TickSends(r: Rules, s: E.State, w: int)
    requires r.window > 0 && EI.Inv(r, s)
    ensures Sends(s, E.Advance(r, s, w), EI.Tick(w), r)
  {
    var s' := E.Advance(r, s, w);
    if s.watermark < w {
      var s0 := s.(watermark := w);
      FiringSends(r, s0, w);
      var s1 := E.FireDue(r, s0, w);
      forall p | |s.out| <= p < |s'.out| && s'.out[p].Record?
        ensures exists x :: SentOf(s, s', EI.Tick(w), r, x, s'.out[p])
      {
        assert p < |s1.out| && s'.out[p] == s1.out[p] && NewClick(s0.waiting, None, r, s1.out[p]);
        var x :| x in s.waiting && s'.out[p].value == Enrich(x, None, r);
        assert SentOf(s, s', EI.Tick(w), r, x, s'.out[p]);
      }
    }
  }

  lemma StepHolds(r: Rules, s: E.State, step: EI.Step)
    requires r.window > 0 && EI.Inv(r, s) && (step.Arrive? ==> !step.event.kind.Conversion?)
    ensures var s' := EI.Next(r, s, step);
            && Sends(s, s', step, r)
            && (forall e :: e in s'.waiting ==> e in s.waiting || (step == EI.Arrive(e) && e.kind.Click?))
            && (s'.impression.Some? ==> s'.impression == s.impression
                                        || (step == EI.Arrive(s'.impression.value) && step.event.kind.Impression?))
  {
    match step
    case Tick(w) =>
      TickSends(r, s, w);
      if s.watermark < w { FiringSends(r, s.(watermark := w), w); }
    case Arrive(e) => ArrivalSends(r, s, e);
  }

  ghost predicate ShownIn(s: E.State, steps: seq<EI.Step>) {
    && (forall e :: e in s.waiting ==> EI.Arrive(e) in steps && e.kind.Click?)
    && (s.impression.Some? ==> EI.Arrive(s.impression.value) in steps && s.impression.value.kind.Impression?)
  }

  lemma {:induction false} ExposureHasArrived(r: Rules, steps: seq<EI.Step>)
    requires ValidRules(r) && ProperExposure(r, steps)
    ensures var s := ExposureRun(r, steps);
            EI.Inv(r, s) && ShownIn(s, steps)
  {
    if steps != [] {
      var init := steps[..|steps| - 1];
      assert steps == init + [steps[|init|]];
      ExposureHasArrived(r, init);
      StepHolds(r, ExposureRun(r, init), steps[|init|]);
      EI.StepKeeps(r, ExposureRun(r, init), steps[|init|]);
    }
  }

  /** By the end of `steps`, the click `e` may leave as `m`, it and the impression held having arrived. */
  ghost predicate TrulySent(steps: seq<EI.Step>, held: Option<Event>, e: Event, m: LinkedClick, r: Rules) {
    && EI.Arrive(e) in steps && e.kind.Click? && Links(e, held, m, r)
    && (held.Some? ==> EI.Arrive(held.value) in steps)
  }

  /** Position `p` of the output is sent in step `n`, and carries the click `e`. */
  ghost predicate SentIn(r: Rules, steps: seq<EI.Step>, p: nat, n: nat, e: Event)
    requires r.window > 0 && n < |steps| && p < |ExposureRun(r, steps).out| && ExposureRun(r, steps).out[p].Record?
  {
    var s, s', m := ExposureRun(r, steps[..n]), ExposureRun(r, steps[..n + 1]), ExposureRun(r, steps).out[p];
    |s.out| <= p < |s'.out| && TrulySent(steps[..n + 1], HeldFor(s, s', steps[n]), e, m.value, r)
  }

  lemma {:induction false} SentOfLast(r: Rules, s: E.State, step: EI.Step, p: nat) returns (e: Event)
    requires r.window > 0 && EI.Inv(r, s) && (step.Arrive? ==> !step.event.kind.Conversion?)
    requires |s.out| <= p < |EI.Next(r, s, step).out| && EI.Next(r, s, step).out[p].Record?
    ensures SentOf(s, EI.Next(r, s, step), step, r, e, EI.Next(r, s, step).out[p])
  {
    StepHolds(r, s, step);
    e :| SentOf(s, EI.Next(r, s, step), step, r, e, EI.Next(r, s, step).out[p]);
  }

  lemma ShownInKey(steps: seq<EI.Step>, k: Link, e: Event)
    requires ShownAlike(steps, k) && EI.Arrive(e) in steps
    ensures OfImpressionKey(e, k)
  {
    var n :| 0 <= n < |steps| && steps[n] == EI.Arrive(e);
  }

  lemma {:induction false} SentIsTrue(r: Rules, s: E.State, init: seq<EI.Step>, step: EI.Step, k: Link, e: Event,
                                      m: Message<LinkedClick>)
    requires r.window > 0 && ShownAlike(init + [step], k) && ShownIn(s, init)
    requires var s' := EI.Next(r, s, step); ShownIn(s', init + [step]) && SentOf(s, s', step, r, e, m)
    ensures TrulySent(init + [step], HeldFor(s, EI.Next(r, s, step), step), e, m.value, r)
  {
    var steps, held := init + [step], HeldFor(s, EI.Next(r, s, step), step);
    assert EI.Arrive(e) in steps;
    ShownInKey(steps, k, e);
    if held.Some? { ShownInKey(steps, k, held.value); }
    EnrichedLinks(e, held, r, k);
  }

  lemma {:induction false} SentLast(r: Rules, steps: seq<EI.Step>, k: Link, p: nat) returns (e: Event)
    requires ValidRules(r) && ProperExposure(r, steps) && ShownAlike(steps, k) && steps != []
    requires |ExposureRun(r, steps[..|steps| - 1]).out| <= p < |ExposureRun(r, steps).out|
             && ExposureRun(r, steps).out[p].Record?
    ensures SentIn(r, steps, p, |steps| - 1, e)
  {
    var init, step := steps[..|steps| - 1], steps[|steps| - 1];
    assert steps == init + [step];
    ExposureHasArrived(r, init);
    ExposureHasArrived(r, steps);
    e := SentOfLast(r, ExposureRun(r, init), step, p);
    SentIsTrue(r, ExposureRun(r, init), init, step, k, e, ExposureRun(r, steps).out[p]);
    assert steps[..|steps|] == steps;
  }

  lemma SentLater(r: Rules, steps: seq<EI.Step>, p: nat, n: nat, e: Event)
    requires r.window > 0 && steps != [] && n < |steps| - 1 && p < |ExposureRun(r, steps[..|steps| - 1]).out|
    requires ExposureRun(r, steps[..|steps| - 1]).out <= ExposureRun(r, steps).out
    requires ExposureRun(r, steps[..|steps| - 1]).out[p].Record? && SentIn(r, steps[..|steps| - 1], p, n, e)
    ensures SentIn(r, steps, p, n, e)
  {
    var init := steps[..|steps| - 1];
    assert init[..n] == steps[..n] && init[..n + 1] == steps[..n + 1];
  }

  lemma {:induction false} SentWhere(r: Rules, steps: seq<EI.Step>, k: Link, p: nat) returns (n: nat, e: Event)
    requires ValidRules(r) && ProperExposure(r, steps) && ShownAlike(steps, k)
    requires p < |ExposureRun(r, steps).out| && ExposureRun(r, steps).out[p].Record?
    ensures n < |steps| && SentIn(r, steps, p, n, e)
  {
    var init := steps[..|steps| - 1];
    ExposureHasArrived(r, init);
    StepHolds(r, ExposureRun(r, init), steps[|init|]);
    if p < |ExposureRun(r, init).out| {
      n, e := SentWhere(r, init, k, p);
      SentLater(r, steps, p, n, e);
    } else {
      n := |init|;
      e := SentLast(r, steps, k, p);
    }
  }

  /** Over any run: every click that leaves has arrived, and carries the impression held at that moment exactly if it
      may be linked to it by user, campaign and time; otherwise it says what is true of the two, or that none is held.
      */
  lemma LinksAreTrue(r: Rules, steps: seq<EI.Step>, k: Link, p: nat)
    requires ValidRules(r) && ProperExposure(r, steps) && ShownAlike(steps, k)
    requires p < |ExposureRun(r, steps).out| && ExposureRun(r, steps).out[p].Record?
    ensures exists n, e :: 0 <= n < |steps| && SentIn(r, steps, p, n, e)
  {
    var n, e := SentWhere(r, steps, k, p);
  }
}
