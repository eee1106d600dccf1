/** Over every run of the conversion join: each conversion is announced as waiting at most once and
    judged exactly once. */
module ConversionOutcomes {
  import opened Seqs
  import opened Events
  import opened Measurement
  import opened ConversionJoin
  import opened ConversionInvariant

  function About(k: Link): Association -> bool { (a: Association) => a.key == k }

  /** Everything the operator has said about one conversion, oldest first. */
  function History(log: seq<Association>, k: Link): seq<Association> { Filter(log, About(k)) }

  predicate IsPending(a: Association) { a.status.Pending? }

  /** Nothing, a wait, a verdict, or a wait and then a verdict. */
  predicate WellOrdered(h: seq<Association>) {
    |h| <= 2 && (|h| == 2 ==> IsPending(h[0]) && !IsPending(h[1]))
  }

  predicate OnlyWaits(h: seq<Association>) { |h| == 1 && IsPending(h[0]) }

  predicate Pends(waiting: seq<Event>, k: Link) { exists v :: v in waiting && ConversionLink(v) == k }

  ghost predicate AccountedFor(s: State, k: Link) {
    && WellOrdered(History(s.associations, k))
    && (Pends(s.waiting, k) <==> OnlyWaits(History(s.associations, k)))
  }

  ghost predicate Accounted(s: State) { forall k :: AccountedFor(s, k) }

  lemma LastIsNew(vs: seq<Event>)
    requires vs != [] && Distinct(vs, BusinessKey) && forall v :: v in vs ==> v.kind.Conversion?
    ensures Distinct(vs[..|vs| - 1], BusinessKey)
    ensures forall v :: v in vs[..|vs| - 1] ==> ConversionLink(v) != ConversionLink(vs[|vs| - 1])
  {
    forall j | 0 <= j < |vs| - 1
      ensures ConversionLink(vs[j]) != ConversionLink(vs[|vs| - 1])
    {
      assert BusinessKey(vs[j]) != BusinessKey(vs[|vs| - 1]) && vs[j] in vs && vs[|vs| - 1] in vs;
    }
  }

  lemma HistoryOneMore(log: seq<Association>, a: Association, k: Link)
    ensures History(log + [a], k) == History(log, k) + if a.key == k then [a] else []
  {
    FilterAppend(log, [a], About(k));
  }

  /** A batch of conversions with distinct keys adds one verdict to each of them and none to any other. */
  lemma {:induction false} HistoryOfSettled(vs: seq<Event>, click: Option<LinkedClick>, r: Rules, k: Link)
    requires Distinct(vs, BusinessKey) && forall v :: v in vs ==> v.kind.Conversion?
    ensures !Pends(vs, k) ==> History(SettledAll(vs, click, r), k) == []
    ensures forall v ::
            v in vs && ConversionLink(v) == k ==> History(SettledAll(vs, click, r), k) == [Settled(v, click, r)]
  {
    if vs != [] {
      var init, last := vs[..|vs| - 1], vs[|vs| - 1];
      assert vs == init + [last];
      LastIsNew(vs);
      HistoryOfSettled(init, click, r, k);
      HistoryOneMore(SettledAll(init, click, r), Settled(last, click, r), k);
      if !Pends(vs, k) { PendsOneMore(init, last, k); }
      if ConversionLink(last) == k { assert !Pends(init, k); }
    }
  }

  lemma PendsOneMore(vs: seq<Event>, v: Event, k: Link)
    ensures Pends(vs + [v], k) <==> Pends(vs, k) || ConversionLink(v) == k
  {
    assert v in vs + [v] && forall w :: w in vs ==> w in vs + [v];
  }

  lemma VerdictsAppended(r: Rules, log: seq<Association>, vs: seq<Event>, click: Option<LinkedClick>, k: Link)
    requires Distinct(vs, BusinessKey) && forall v :: v in vs ==> v.kind.Conversion?
    requires Pends(vs, k) ==> OnlyWaits(History(log, k))
    requires WellOrdered(History(log, k))
    ensures var h := History(log + SettledAll(vs, click, r), k);
            WellOrdered(h) && History(log, k) <= h && (Pends(vs, k) ==> !OnlyWaits(h))
                && (!Pends(vs, k) ==> h == History(log, k))
  {
    FilterAppend(log, SettledAll(vs, click, r), About(k));
    HistoryOfSettled(vs, click, r, k);
  }

  /** What a step may do to one conversion's history: extend it, and start it only when that conversion arrives. */
  ghost predicate Extends(s: State, s': State, step: Step, k: Link) {
    && History(s.associations, k) <= History(s'.associations, k)
    && (History(s.associations, k) == [] && History(s'.associations, k) != [] ==>
          step.Arrive? && step.input.OfConversion? && ConversionLink(step.input.event) == k)
  }

  lemma ClickAccounted(r: Rules, s: State, c: LinkedClick, k: Link)
    requires ValidRules(r) && Inv(r, s) && AccountedFor(s, k)
    ensures AccountedFor(ProcessClick(r, s, c), k) && Extends(s, ProcessClick(r, s, c), Arrive(OfClick(c)), k)
  {
    VerdictsAppended(r, s.associations, s.waiting, HoldClick(r, s, c).click, k);
  }

  /** One association appended, and its conversion put among those waiting exactly if the association is a wait. */
  lemma OneMoreAccounted(log: seq<Association>, waiting: seq<Event>, a: Association, v: Event, k: Link)
    requires a.key == ConversionLink(v) && History(log, a.key) == [] && !Pends(waiting, a.key)
    requires WellOrdered(History(log, k)) && (Pends(waiting, k) <==> OnlyWaits(History(log, k)))
    ensures var h := History(log + [a], k);
            && WellOrdered(h) && History(log, k) <= h && (h != History(log, k) ==> k == a.key)
            && (k == a.key ==> h == [a])
            && (Pends(if IsPending(a) then waiting + [v] else waiting, k) <==> OnlyWaits(h))
  {
    HistoryOneMore(log, a, k);
    PendsOneMore(waiting, v, k);
  }

  lemma ConversionAccounted(r: Rules, s: State, v: Event, k: Link)
    requires ValidRules(r) && Inv(r, s) && v.kind.Conversion? && AccountedFor(s, k)
    requires History(s.associations, ConversionLink(v)) == []
    requires AccountedFor(s, ConversionLink(v))
    ensures AccountedFor(ProcessConversion(r, s, v), k)
    ensures Extends(s, ProcessConversion(r, s, v), Arrive(OfConversion(v)), k)
    ensures History(ProcessConversion(r, s, v).associations, ConversionLink(v)) != []
  {
    var a := OneAppended(r, s, v);
    OneMoreAccounted(s.associations, s.waiting, a, v, k);
    OneMoreAccounted(s.associations, s.waiting, a, v, ConversionLink(v));
  }

  /** A conversion that is not held already is spoken of once when it arrives. */
  lemma OneAppended(r: Rules, s: State, v: Event) returns (a: Association)
    requires ValidRules(r) && v.kind.Conversion? && !Pends(s.waiting, ConversionLink(v))
    requires forall w :: w in s.waiting ==> w.kind.Conversion?
    ensures var s' := ProcessConversion(r, s, v);
            && a.key == ConversionLink(v) && s'.associations == s.associations + [a]
            && s'.waiting == if IsPending(a) then s.waiting + [v] else s.waiting
  {
    var s' := ProcessConversion(r, s, v);
    assert SettledAll([v], s.click, r) == [Settled(v, s.click, r)];
    assert SettledAll([v], None, r) == [Settled(v, None, r)];
    forall w | w in s.waiting
      ensures BusinessKey(w) != BusinessKey(v)
    {
      assert ConversionLink(w) != ConversionLink(v);
    }
    assert !Holds(s.waiting, v);
    a := s'.associations[|s'.associations| - 1];
  }

  lemma SplitPends(r: Rules, waiting: seq<Event>, t: int, k: Link)
    requires Distinct(waiting, BusinessKey) && forall v :: v in waiting ==> v.kind.Conversion?
    ensures Pends(waiting, k)
            <==> Pends(Filter(waiting, Overdue(r.wait, t)), k) || Pends(Filter(waiting, Early(r.wait, t)), k)
    ensures !(Pends(Filter(waiting, Overdue(r.wait, t)), k) && Pends(Filter(waiting, Early(r.wait, t)), k))
  {
    var due, kept := Filter(waiting, Overdue(r.wait, t)), Filter(waiting, Early(r.wait, t));
    forall v
      ensures v in due <==> v in waiting && v.time + r.wait <= t
      ensures v in kept <==> v in waiting && v.time + r.wait > t
    {
      FilterMember(waiting, Overdue(r.wait, t), v);
      FilterMember(waiting, Early(r.wait, t), v);
    }
    forall u, v | u in kept && v in due
      ensures ConversionLink(u) != ConversionLink(v)
    {
      var i :| 0 <= i < |waiting| && waiting[i] == u;
      var j :| 0 <= j < |waiting| && waiting[j] == v;
      assert BusinessKey(u) != BusinessKey(v);
    }
    if Pends(waiting, k) {
      var v :| v in waiting && ConversionLink(v) == k;
      assert v in due || v in kept;
    }
  }

  lemma OnTimerShape(r: Rules, s: State, t: int)
    requires r.window > 0
    ensures OnTimer(r, s, t).waiting == Filter(s.waiting, Early(r.wait, t))
    ensures OnTimer(r, s, t).associations == s.associations + SettledAll(Filter(s.waiting, Overdue(r.wait, t)), None, r)
  {
  }

  lemma TimerAccounted(r: Rules, s: State, seen: int, now: int, t: int, k: Link)
    requires ValidRules(r) && Safe(r, s, seen, now) && AccountedFor(s, k)
    requires t in s.timers
    ensures var s' := OnTimer(r, s.(timers := s.timers - {t}), t);
            AccountedFor(s', k) && Extends(s, s', Tick(t), k)
  {
    var s0 := s.(timers := s.timers - {t});
    var due := Filter(s.waiting, Overdue(r.wait, t));
    OnTimerShape(r, s0, t);
    SplitPends(r, s.waiting, t, k);
    FilterDistinct(s.waiting, Overdue(r.wait, t), BusinessKey);
    forall v | v in due
      ensures v.kind.Conversion?
    {
      FilterMember(s.waiting, Overdue(r.wait, t), v);
    }
    VerdictsAppended(r, s.associations, due, None, k);
  }

  lemma {:induction false} FiringAccounted(r: Rules, s: State, seen: int, now: int, w: int, k: Link)
    requires ValidRules(r) && Safe(r, s, seen, now) && now <= w && AccountedFor(s, k)
    ensures AccountedFor(FireDue(r, s, w), k) && Extends(s, FireDue(r, s, w), Tick(w), k)
    decreases |s.waiting|, |s.timers|
  {
    var due := Due(s.timers, w);
    if due != {} {
      var t := Least(due);
      forall u | u in s.timers
        ensures t <= u
      {
        assert u <= w ==> u in due;
      }
      FireStep(r, s, w, t);
      FiringProgresses(r, s, t);
      ConversionInvariant.TimerKeeps(r, s, seen, now, t);
      TimerAccounted(r, s, seen, now, t, k);
      FiringAccounted(r, OnTimer(r, s.(timers := s.timers - {t}), t), seen, t, w, k);
    }
  }

  /** The steps a job may take: records of the right kinds, clicks that the channel delivered in time. */
  ghost predicate Proper(r: Rules, s: State, step: Step) {
    match step
    case Tick(_) => true
    case Arrive(OfConversion(v)) => v.kind.Conversion?
    case Arrive(OfClick(c)) => !Late(step.input, s, r) ==> TimelyClick(r, c, s.watermark)
  }

  lemma StepAccounted(r: Rules, s: State, step: Step, k: Link)
    requires ValidRules(r) && Inv(r, s) && Accounted(s) && Proper(r, s, step)
    requires step.Arrive? && step.input.OfConversion? ==>
             History(s.associations, ConversionLink(step.input.event)) == []
    ensures AccountedFor(Next(r, s, step), k) && Extends(s, Next(r, s, step), step, k)
    ensures step.Arrive? && step.input.OfConversion? ==>
              (Late(step.input, s, r) <==>
               History(Next(r, s, step).associations, ConversionLink(step.input.event)) == [])
  {
    assert AccountedFor(s, k);
    match step
    case Tick(w) =>
      if s.watermark < w { FiringAccounted(r, s.(watermark := w), s.watermark, s.watermark, w, k); }
    case Arrive(OfClick(c)) =>
      if !Late(step.input, s, r) { ClickAccounted(r, s, c, k); }
    case Arrive(OfConversion(v)) =>
      assert AccountedFor(s, ConversionLink(v));
      if !Late(step.input, s, r) { ConversionAccounted(r, s, v, k); }
  }

  /** The state after a run, from the operator's initial state. */
  ghost function Run(r: Rules, steps: seq<Step>): State
    requires r.window > 0
  {
    if steps == [] then INITIAL else Next(r, Run(r, steps[..|steps| - 1]), steps[|steps| - 1])
  }

  ghost predicate IsConversion(step: Step, k: Link) {
    step.Arrive? && step.input.OfConversion? && ConversionLink(step.input.event) == k
  }

  /** A run in which no two conversions share a key. */
  ghost predicate ProperRun(r: Rules, steps: seq<Step>)
    requires r.window > 0
  {
    && (forall n :: 0 <= n < |steps| ==> Proper(r, Run(r, steps[..n]), steps[n]))
    && (forall m, n, k :: 0 <= m < n < |steps| && IsConversion(steps[m], k) ==> !IsConversion(steps[n], k))
  }

  /** How a conversion stands in `s`: never mentioned if it came late, otherwise unjudged exactly while it waits. */
  ghost predicate Stands(late: bool, s: State, k: Link) {
    var h := History(s.associations, k);
    if late then h == [] else h != [] && WellOrdered(h) && (IsPending(h[|h| - 1]) <==> Pends(s.waiting, k))
  }

  ghost predicate LateAt(r: Rules, steps: seq<Step>, n: nat)
    requires r.window > 0 && n < |steps| && steps[n].Arrive?
  {
    Late(steps[n].input, Run(r, steps[..n]), r)
  }

  lemma StillStands(late: bool, s: State, s': State, step: Step, k: Link)
    requires Stands(late, s, k) && Extends(s, s', step, k) && !IsConversion(step, k) && AccountedFor(s', k)
    ensures Stands(late, s', k)
  {
  }

  lemma PrefixProper(r: Rules, steps: seq<Step>)
    requires r.window > 0 && ProperRun(r, steps) && steps != []
    ensures ProperRun(r, steps[..|steps| - 1])
    ensures Proper(r, Run(r, steps[..|steps| - 1]), steps[|steps| - 1])
  {
    var init := steps[..|steps| - 1];
    forall n | 0 <= n < |init|
      ensures Proper(r, Run(r, init[..n]), init[n])
    {
      assert init[..n] == steps[..n];
    }
  }

  /** A key no conversion of the run carries has no history. */
  lemma {:induction false} RunKeeps(r: Rules, steps: seq<Step>)
    requires ValidRules(r) && ProperRun(r, steps)
    ensures Inv(r, Run(r, steps)) && Accounted(Run(r, steps))
    ensures forall u :: u in Run(r, steps).waiting ==>
              exists m :: 0 <= m < |steps| && steps[m] == Arrive(OfConversion(u))
    ensures forall k :: (forall n :: 0 <= n < |steps| ==> !IsConversion(steps[n], k)) ==>
                          History(Run(r, steps).associations, k) == []
  {
    if steps != [] {
      var init, last := steps[..|steps| - 1], steps[|steps| - 1];
      PrefixProper(r, steps);
      RunKeeps(r, init);
      var s := Run(r, init);
      ConversionInvariant.StepKeeps(r, s, last);
      if last.Arrive? && last.input.OfConversion? {
        assert IsConversion(last, ConversionLink(last.input.event));
      }
      forall u | u in Run(r, steps).waiting
        ensures exists m :: 0 <= m < |steps| && steps[m] == Arrive(OfConversion(u))
      {
        if u in s.waiting {
          var m :| 0 <= m < |init| && init[m] == Arrive(OfConversion(u));
          assert steps[m] == init[m];
        } else {
          assert steps[|steps| - 1] == Arrive(OfConversion(u));
        }
      }
      forall k
        ensures AccountedFor(Run(r, steps), k)
        ensures (forall n :: 0 <= n < |steps| ==> !IsConversion(steps[n], k)) ==>
                  History(Run(r, steps).associations, k) == []
      {
        StepAccounted(r, s, last, k);
        if forall n :: 0 <= n < |steps| ==> !IsConversion(steps[n], k) {
          assert forall n :: 0 <= n < |init| ==> init[n] == steps[n];
          assert !IsConversion(steps[|steps| - 1], k);
        }
      }
    }
  }

  lemma AccountedStands(late: bool, s: State, k: Link)
    requires AccountedFor(s, k) && (late <==> History(s.associations, k) == [])
    ensures Stands(late, s, k)
  {
  }

  lemma RunIsAccounted(r: Rules, steps: seq<Step>, k: Link)
    requires ValidRules(r) && ProperRun(r, steps)
    ensures AccountedFor(Run(r, steps), k)
  {
    RunKeeps(r, steps);
  }

  lemma StandsWhenItArrives(r: Rules, steps: seq<Step>, k: Link)
    requires ValidRules(r) && ProperRun(r, steps) && steps != [] && IsConversion(steps[|steps| - 1], k)
    ensures Stands(LateAt(r, steps, |steps| - 1), Run(r, steps), k)
  {
    RunIsAccounted(r, steps, k);
    LastStepAccounted(r, steps, k);
    AccountedStands(LateAt(r, steps, |steps| - 1), Run(r, steps), k);
  }

  lemma StandsLater(r: Rules, steps: seq<Step>, n: nat, k: Link)
    requires ValidRules(r) && ProperRun(r, steps) && n + 1 < |steps| && IsConversion(steps[n], k)
    requires Stands(LateAt(r, steps, n), Run(r, steps[..|steps| - 1]), k)
    ensures Stands(LateAt(r, steps, n), Run(r, steps), k)
  {
    RunIsAccounted(r, steps, k);
    LastStepAccounted(r, steps, k);
    assert !IsConversion(steps[|steps| - 1], k);
    StillStands(LateAt(r, steps, n), Run(r, steps[..|steps| - 1]), Run(r, steps), steps[|steps| - 1], k);
  }

  /** Every conversion that was not late has been announced as pending at most once and judged at most once, in that
      order, and is unjudged exactly while it waits; a late one is never announced at all. */
  lemma {:induction false} OneOutcome(r: Rules, steps: seq<Step>, n: nat, k: Link)
    requires ValidRules(r) && ProperRun(r, steps) && n < |steps| && IsConversion(steps[n], k)
    ensures Stands(LateAt(r, steps, n), Run(r, steps), k)
  {
    if n == |steps| - 1 {
      StandsWhenItArrives(r, steps, k);
    } else {
      PrefixProper(r, steps);
      OneOutcome(r, steps[..|steps| - 1], n, k);
      assert steps[..|steps| - 1][..n] == steps[..n];
      StandsLater(r, steps, n, k);
    }
  }

  lemma {:induction false} LastStepAccounted(r: Rules, steps: seq<Step>, k: Link)
    requires ValidRules(r) && ProperRun(r, steps) && steps != []
    ensures var init, last := Run(r, steps[..|steps| - 1]), steps[|steps| - 1];
            && Extends(init, Run(r, steps), last, k)
            && (IsConversion(last, k) ==>
                  && History(init.associations, k) == []
                  && (Late(last.input, init, r) <==> History(Run(r, steps).associations, k) == []))
  {
    var init, last := steps[..|steps| - 1], steps[|steps| - 1];
    PrefixProper(r, steps);
    RunKeeps(r, init);
    if last.Arrive? && last.input.OfConversion? {
      assert IsConversion(last, ConversionLink(last.input.event));
      assert forall n :: 0 <= n < |init| ==> init[n] == steps[n];
    }
    StepAccounted(r, Run(r, init), last, k);
  }

  /** Once the watermark has passed a conversion's deadline it has its verdict, and it is the last thing said of it. */
  lemma {:induction false} JudgedAtDeadline(r: Rules, steps: seq<Step>, n: nat, k: Link)
    requires ValidRules(r) && ProperRun(r, steps) && n < |steps| && IsConversion(steps[n], k)
    requires !LateAt(r, steps, n)
    requires Run(r, steps).watermark >= steps[n].input.event.time + r.wait
    ensures var h := History(Run(r, steps).associations, k);
            h != [] && WellOrdered(h) && !IsPending(h[|h| - 1])
  {
    OneOutcome(r, steps, n, k);
    RunKeeps(r, steps);
    var s := Run(r, steps);
    forall u | u in s.waiting
      ensures ConversionLink(u) != k
    {
      WaitingIsBounded(r, s, u);
      var m :| 0 <= m < |steps| && steps[m] == Arrive(OfConversion(u));
      assert m != n;
      assert IsConversion(steps[m], ConversionLink(u));
    }
  }
}
