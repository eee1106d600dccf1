/** Both joins and the channel between them, under any schedule: what the conversions of one click end as. The invariant
    combines those of the joins with the position of the channel's reader: the click is delivered exactly once, never
    behind a watermark that would have ended the wait of a conversion it matches, and while no promise was missed,
    everything the conversion join has said agrees with the batch calculation. */
module LaneRun {
  import opened Seqs
  import opened Events
  import opened Streams
  import opened Lane
  import E = ExposureJoin
  import C = ConversionJoin
  import EI = ExposureInvariant
  import CI = ConversionInvariant
  import CO = ConversionOutcomes
  import LE = LaneExposure
  import LC = LaneConversion

  /** `read` is how much of the exposure join's output was delivered, `mark` the last watermark among it, `other` the
      least watermark of the conversion join's remaining inputs. The last four fields record what has arrived. */
  datatype State = State(
    exposure: E.State, conversion: C.State, read: nat, mark: int, other: int,
    impressionSeen: bool, clickSeen: bool, arrived: set<Event>, delivered: Option<LinkedClick>)

  const INITIAL := State(E.INITIAL, C.INITIAL, 0, NO_WATERMARK, NO_WATERMARK, false, false, {}, None)

  datatype Step =
    | ExposureArrives(event: Event)
    | ExposureTicks(watermark: int)
    | ConversionArrives(event: Event)
    | OtherInputTicks(watermark: int)
    | Deliver

  function Min(a: int, b: int): int { if a <= b then a else b }

  function Max(a: int, b: int): int { if a <= b then b else a }

  ghost function Next(r: Rules, u: World, s: State, step: Step): State
    requires r.window > 0
  {
    match step
    case ExposureArrives(e) =>
      s.(exposure := E.Process(r, s.exposure, e),
         impressionSeen := s.impressionSeen || u.impression == Some(e), clickSeen := s.clickSeen || u.click == Some(e))
    case ExposureTicks(w) => s.(exposure := E.Advance(r, s.exposure, w))
    case ConversionArrives(v) =>
      s.(conversion := C.Process(r, s.conversion, C.OfConversion(v)), arrived := s.arrived + {v})
    case OtherInputTicks(w) =>
      var other := Max(s.other, w);
      s.(other := other, conversion := C.Advance(r, s.conversion, Min(s.mark, other)))
    case Deliver =>
      if |s.exposure.out| <= s.read then s
      else match s.exposure.out[s.read]
        case Mark(w) =>
          var mark := Max(s.mark, w);
          s.(read := s.read + 1, mark := mark, conversion := C.Advance(r, s.conversion, Min(mark, s.other)))
        case Record(c) =>
          if ClickLink(c.click) != u.key then s.(read := s.read + 1)
          else s.(read := s.read + 1, delivered := Some(c), conversion := C.Process(r, s.conversion, C.OfClick(c)))
  }

  /** Business keys do not repeat, nothing comes too late to be processed, and promised pairs meet in time. */
  ghost predicate Allowed(r: Rules, u: World, s: State, step: Step) {
    match step
    case ExposureArrives(e) =>
      || (u.impression == Some(e) && !s.impressionSeen && !E.Late(e, s.exposure, r)
          && (LinkLegal(u, r) && u.linkPromised ==> s.exposure.watermark < u.click.value.time + r.wait))
      || (u.click == Some(e) && !s.clickSeen && !E.Late(e, s.exposure, r)
          && (LinkLegal(u, r) && u.linkPromised ==> s.exposure.watermark < e.time + r.wait)
          && forall v :: LE.Owed(u, v, r) ==> s.exposure.watermark < v.time + r.wait)
      || (e.kind.Click? && ClickLink(e) != u.key)
    case ConversionArrives(v) =>
      && v in u.conversions && v !in s.arrived && !C.Late(C.OfConversion(v), s.conversion, r)
      && (LE.Owed(u, v, r) ==> s.conversion.watermark < v.time + r.wait)
    case _ => true
  }

  /** The states that allowed steps lead to. */
  ghost function Run(r: Rules, u: World, steps: seq<Step>): State
    requires r.window > 0
  {
    if steps == [] then INITIAL else Next(r, u, Run(r, u, steps[..|steps| - 1]), steps[|steps| - 1])
  }

  ghost predicate AllowedRun(r: Rules, u: World, steps: seq<Step>)
    requires r.window > 0
  {
    steps == [] || (AllowedRun(r, u, steps[..|steps| - 1])
                    && Allowed(r, u, Run(r, u, steps[..|steps| - 1]), steps[|steps| - 1]))
  }

  /** A promise that can no longer be kept, because what has not arrived yet is already too late. */
  ghost predicate ImpressionMissed(r: Rules, u: World, s: State) {
    LinkLegal(u, r) && u.linkPromised && !s.impressionSeen && u.click.value.time + r.wait <= s.exposure.watermark
  }

  ghost predicate ClickMissed(r: Rules, u: World, s: State) {
    !s.clickSeen && exists v :: LE.Owed(u, v, r) && v.time + r.wait <= s.exposure.watermark
  }

  ghost predicate Missed(r: Rules, u: World, s: State) { ImpressionMissed(r, u, s) || ClickMissed(r, u, s) }

  /** The reader has passed exactly the first `read` messages. */
  ghost predicate Reader(u: World, s: State) {
    && s.read <= |s.exposure.out|
    && (s.mark == NO_WATERMARK || exists j :: 0 <= j < s.read && s.exposure.out[j] == Mark(s.mark))
    && NO_WATERMARK <= s.exposure.watermark
    && s.conversion.watermark <= s.mark
    && (s.delivered.None? ==> forall j :: LE.Carries(s.exposure.out, j, u.key) ==> s.read <= j)
    && (s.delivered.Some? ==> exists j :: LE.Carries(s.exposure.out, j, u.key) && j < s.read)
  }

  /** Only conversions that arrived have been spoken of, and each of them has. */
  ghost predicate Spoken(u: World, s: State) {
    && s.arrived <= u.conversions
    && (forall w :: w in s.conversion.waiting ==> w in s.arrived)
    && (forall k :: (forall v :: v in s.arrived ==> ConversionLink(v) != k) ==>
         CO.History(s.conversion.associations, k) == [])
    && (forall v :: v in s.arrived ==> CO.History(s.conversion.associations, ConversionLink(v)) != [])
  }

  ghost predicate Inv(r: Rules, u: World, s: State)
    requires r.window > 0
  {
    && EI.Inv(r, s.exposure)
    && LE.Good(r, u, s.exposure, s.impressionSeen, s.clickSeen, s.exposure.watermark)
    && CI.Inv(r, s.conversion) && CO.Accounted(s.conversion)
    && Reader(u, s) && Spoken(u, s)
    && (!Missed(r, u, s) ==> LC.Good(r, u, s.conversion, s.arrived, s.delivered, s.conversion.watermark))
  }

  lemma MissedIsFinal(r: Rules, u: World, s: State, step: Step)
    requires ValidRules(r) && WellFormed(u) && Allowed(r, u, s, step) && Missed(r, u, s)
    requires Next(r, u, s, step).exposure.watermark >= s.exposure.watermark
    ensures Missed(r, u, Next(r, u, s, step))
  {
    if ClickMissed(r, u, s) {
      var v :| LE.Owed(u, v, r) && v.time + r.wait <= s.exposure.watermark;
      assert LE.Owed(u, v, r) && v.time + r.wait <= Next(r, u, s, step).exposure.watermark;
    }
  }

  // The exposure side.

  lemma {:induction false} FiringOnlyAppends(r: Rules, s: E.State, w: int)
    ensures s.out <= E.FireDue(r, s, w).out
    ensures E.FireDue(r, s, w).watermark == s.watermark
    decreases |s.timers|
  {
    var due := Due(s.timers, w);
    if due != {} {
      var t := Least(due);
      E.FireStep(r, s, w, t);
      assert s.timers - {t} < s.timers;
      FiringOnlyAppends(r, E.OnTimer(r, s.(timers := s.timers - {t}), t), w);
    }
  }

  lemma ArrivalOnlyAppends(r: Rules, s: E.State, e: Event)
    requires r.window > 0
    ensures s.out <= E.Process(r, s, e).out && E.Process(r, s, e).watermark == s.watermark
  {
  }

  lemma TickOnlyAppends(r: Rules, s: E.State, w: int)
    ensures s.out <= E.Advance(r, s, w).out && s.watermark <= E.Advance(r, s, w).watermark
  {
    if s.watermark < w { FiringOnlyAppends(r, s.(watermark := w), w); }
  }

  /** Messages already delivered do not change. */
  lemma ReaderStays(u: World, s: State, exposure: E.State)
    requires Reader(u, s) && s.exposure.out <= exposure.out && s.exposure.watermark <= exposure.watermark
    ensures Reader(u, s.(exposure := exposure))
  {
    var s' := s.(exposure := exposure);
    if s.mark != NO_WATERMARK {
      var j :| 0 <= j < s.read && s.exposure.out[j] == Mark(s.mark);
      assert s'.exposure.out[j] == Mark(s.mark);
    }
    if s.delivered.Some? {
      var j :| LE.Carries(s.exposure.out, j, u.key) && j < s.read;
      assert LE.Carries(s'.exposure.out, j, u.key);
    } else {
      forall j | LE.Carries(s'.exposure.out, j, u.key)
        ensures s.read <= j
      {
        assert j < |s.exposure.out| ==> LE.Carries(s.exposure.out, j, u.key);
      }
    }
  }

  lemma ExposureArrivesKeeps(r: Rules, u: World, s: State, e: Event)
    requires ValidRules(r) && WellFormed(u) && Inv(r, u, s) && Allowed(r, u, s, ExposureArrives(e))
    ensures Inv(r, u, Next(r, u, s, ExposureArrives(e)))
  {
    EI.ProcessKeeps(r, s.exposure, e);
    ArrivalOnlyAppends(r, s.exposure, e);
    ReaderStays(u, s, E.Process(r, s.exposure, e));
    if u.impression == Some(e) { LE.ImpressionArrives(r, u, s.exposure, e, s.clickSeen); }
    else if u.click == Some(e) { LE.ClickArrives(r, u, s.exposure, e, s.impressionSeen); }
    else { LE.OtherClickArrives(r, u, s.exposure, e, s.impressionSeen, s.clickSeen); }
    if Missed(r, u, s) { MissedIsFinal(r, u, s, ExposureArrives(e)); }
  }

  lemma ExposureTicksKeeps(r: Rules, u: World, s: State, w: int)
    requires ValidRules(r) && WellFormed(u) && Inv(r, u, s)
    ensures Inv(r, u, Next(r, u, s, ExposureTicks(w)))
  {
    EI.AdvanceKeeps(r, s.exposure, w);
    TickOnlyAppends(r, s.exposure, w);
    ReaderStays(u, s, E.Advance(r, s.exposure, w));
    LE.Ticks(r, u, s.exposure, w, s.impressionSeen, s.clickSeen);
    if Missed(r, u, s) { MissedIsFinal(r, u, s, ExposureTicks(w)); }
  }

  // The conversion side.

  lemma ConversionArrivesKeeps(r: Rules, u: World, s: State, v: Event)
    requires ValidRules(r) && WellFormed(u) && Inv(r, u, s) && Allowed(r, u, s, ConversionArrives(v))
    ensures Inv(r, u, Next(r, u, s, ConversionArrives(v)))
  {
    CI.StepKeeps(r, s.conversion, CI.Arrive(C.OfConversion(v)));
    SpeaksOnce(r, u, s, v);
    ProcessKeepsWatermark(r, s.conversion, C.OfConversion(v));
    if !Missed(r, u, s) { ArrivalSettles(r, u, s, v); }
  }

  lemma ProcessKeepsWatermark(r: Rules, c: C.State, x: C.Input)
    requires r.window > 0
    ensures C.Process(r, c, x).watermark == c.watermark
  {
  }

  lemma ArrivalSettles(r: Rules, u: World, s: State, v: Event)
    requires ValidRules(r) && WellFormed(u) && Inv(r, u, s) && Allowed(r, u, s, ConversionArrives(v))
             && !Missed(r, u, s)
    ensures var c' := C.Process(r, s.conversion, C.OfConversion(v));
            LC.Good(r, u, c', s.arrived + {v}, s.delivered, c'.watermark)
  {
    forall w | w in s.conversion.waiting
      ensures BusinessKey(w) != BusinessKey(v)
    {
      assert w in u.conversions && w != v;
    }
    LC.ConversionArrives(r, u, s.conversion, s.arrived, s.delivered, v);
    ProcessKeepsWatermark(r, s.conversion, C.OfConversion(v));
  }

  /** What is spoken of after a conversion arrived, given how every history was extended. */
  lemma SpokenAfter(u: World, s: State, s': State, step: CI.Step, v: Event)
    requires Spoken(u, s) && s'.arrived == s.arrived + {v} && v in u.conversions && step == CI.Arrive(C.OfConversion(v))
    requires forall k :: CO.Extends(s.conversion, s'.conversion, step, k)
    requires CO.History(s'.conversion.associations, ConversionLink(v)) != []
    requires forall w :: w in s'.conversion.waiting ==> w in s.conversion.waiting || w == v
    ensures Spoken(u, s')
  {
    forall w | w in s'.arrived
      ensures CO.History(s'.conversion.associations, ConversionLink(w)) != []
    {
      assert CO.Extends(s.conversion, s'.conversion, step, ConversionLink(w));
    }
    forall k | forall w :: w in s'.arrived ==> ConversionLink(w) != k
      ensures CO.History(s'.conversion.associations, k) == []
    {
      assert CO.Extends(s.conversion, s'.conversion, step, k);
      assert v in s'.arrived;
    }
  }

  /** How a conversion that is new to the join extends the histories. */
  lemma ArrivalExtends(r: Rules, c: C.State, v: Event)
    requires ValidRules(r) && CI.Inv(r, c) && CO.Accounted(c) && v.kind.Conversion?
    requires CO.History(c.associations, ConversionLink(v)) == [] && !C.Late(C.OfConversion(v), c, r)
    ensures var c' := C.Process(r, c, C.OfConversion(v));
            && (forall k :: CO.AccountedFor(c', k) && CO.Extends(c, c', CI.Arrive(C.OfConversion(v)), k))
            && CO.History(c'.associations, ConversionLink(v)) != []
            && (forall w :: w in c'.waiting ==> w in c.waiting || w == v)
  {
    var step := CI.Arrive(C.OfConversion(v));
    CI.StepKeeps(r, c, step);
    CO.StepAccounted(r, c, step, ConversionLink(v));
    forall k
      ensures CO.AccountedFor(CI.Next(r, c, step), k) && CO.Extends(c, CI.Next(r, c, step), step, k)
    {
      CO.StepAccounted(r, c, step, k);
    }
  }

  lemma SpeaksOnce(r: Rules, u: World, s: State, v: Event)
    requires ValidRules(r) && WellFormed(u) && Inv(r, u, s) && Allowed(r, u, s, ConversionArrives(v))
    ensures var s' := Next(r, u, s, ConversionArrives(v)); CO.Accounted(s'.conversion) && Spoken(u, s')
  {
    assert forall w :: w in s.arrived ==> ConversionLink(w) != ConversionLink(v);
    ArrivalExtends(r, s.conversion, v);
    SpokenAfter(u, s, Next(r, u, s, ConversionArrives(v)), CI.Arrive(C.OfConversion(v)), v);
  }

  /** A step of the conversion join that no conversion takes adds no new key to what has been spoken of. */
  lemma StillSpoken(r: Rules, u: World, s: State, step: CI.Step)
    requires ValidRules(r) && Inv(r, u, s) && CO.Proper(r, s.conversion, step)
    requires step.Arrive? ==> step.input.OfClick?
    ensures var c' := CI.Next(r, s.conversion, step);
            CI.Inv(r, c') && CO.Accounted(c') && Spoken(u, s.(conversion := c'))
  {
    var c, c' := s.conversion, CI.Next(r, s.conversion, step);
    CI.StepKeeps(r, c, step);
    forall k
      ensures CO.AccountedFor(c', k) && CO.Extends(c, c', step, k)
    {
      CO.StepAccounted(r, c, step, k);
    }
    forall w | w in s.arrived
      ensures CO.History(c'.associations, ConversionLink(w)) != []
    {
      assert CO.Extends(c, c', step, ConversionLink(w));
    }
    forall k | forall w :: w in s.arrived ==> ConversionLink(w) != k
      ensures CO.History(c'.associations, k) == []
    {
      assert CO.Extends(c, c', step, k);
    }
  }

  // The channel between them.

  /** The watermark that the next message would bring the channel to. */
  function NextMark(s: State): int {
    if s.read < |s.exposure.out| && s.exposure.out[s.read].Mark? then Max(s.mark, s.exposure.out[s.read].watermark)
    else s.mark
  }

  lemma MarkIsBehind(r: Rules, u: World, s: State)
    requires EI.Inv(r, s.exposure) && Reader(u, s)
    ensures s.mark <= s.exposure.watermark && NextMark(s) <= s.exposure.watermark
  {
    if s.mark != NO_WATERMARK {
      var j :| 0 <= j < s.read && s.exposure.out[j] == Mark(s.mark);
      assert s.exposure.out[j].Mark?;
    }
  }

  lemma MarksBefore(u: World, s: State, j: nat, bound: nat)
    requires Reader(u, s) && s.read <= j < |s.exposure.out| && s.exposure.out[j].Record?
    requires MarksBelow(s.exposure.out, j, bound)
    ensures s.mark < bound && NextMark(s) < bound
  {
    if s.mark != NO_WATERMARK {
      var i :| 0 <= i < s.read && s.exposure.out[i] == Mark(s.mark);
      assert s.exposure.out[i].Mark? && s.exposure.out[i].watermark < bound;
    }
  }

  /** The click overtakes every watermark at which a conversion owed to it would be given up on. */
  lemma ClickComesFirst(r: Rules, u: World, s: State)
    requires ValidRules(r) && WellFormed(u) && Inv(r, u, s) && !Missed(r, u, s)
    ensures LC.NoneMissed(r, u, s.arrived, s.delivered, NextMark(s))
    ensures LC.NoneMissed(r, u, s.arrived, s.delivered, s.mark)
  {
    MarkIsBehind(r, u, s);
    forall v | v in s.arrived && MatchLegal(u, v, r) && v in u.promised && s.delivered.None?
      ensures NextMark(s) < v.time + r.wait && s.mark < v.time + r.wait
    {
      assert LE.Owed(u, v, r);
      RetentionCoversMatch(u.click.value, v, r);
      if s.clickSeen && u.click.value !in s.exposure.waiting {
        var j :| LE.Carries(s.exposure.out, j, u.key);
        assert MarksBelow(s.exposure.out, j, v.time + r.wait);
        MarksBefore(u, s, j, v.time + r.wait);
      }
    }
  }

  lemma ConversionTicks(r: Rules, u: World, s: State, w: int, mark: int)
    requires ValidRules(r) && WellFormed(u) && Inv(r, u, s) && w <= mark && s.mark <= mark <= NextMark(s)
    ensures var c := C.Advance(r, s.conversion, w);
            && CI.Inv(r, c) && CO.Accounted(c) && Spoken(u, s.(conversion := c)) && c.watermark <= mark
            && (!Missed(r, u, s) ==> LC.Good(r, u, c, s.arrived, s.delivered, c.watermark))
  {
    StillSpoken(r, u, s, CI.Tick(w));
    AdvanceReaches(r, s.conversion, w);
    if !Missed(r, u, s) {
      ClickComesFirst(r, u, s);
      LC.Ticks(r, u, s.conversion, s.arrived, s.delivered, w);
    }
  }

  lemma AdvanceReaches(r: Rules, c: C.State, w: int)
    requires ValidRules(r) && CI.Inv(r, c)
    ensures C.Advance(r, c, w).watermark == Max(c.watermark, w)
  {
    if c.watermark < w { CI.FiringKeeps(r, c.(watermark := w), c.watermark, c.watermark, w); }
  }

  /** What is missed shows on the exposure side alone. */
  lemma SameMissed(r: Rules, u: World, s: State, s': State)
    requires s'.exposure == s.exposure && s'.impressionSeen == s.impressionSeen && s'.clickSeen == s.clickSeen
    ensures Missed(r, u, s') <==> Missed(r, u, s)
  {
  }

  lemma SameReader(u: World, s: State, other: int, c: C.State)
    requires Reader(u, s) && c.watermark <= s.mark
    ensures Reader(u, s.(other := other, conversion := c))
  {
  }

  lemma OtherInputTicked(r: Rules, u: World, s: State, other: int, c: C.State)
    requires r.window > 0 && Inv(r, u, s) && c.watermark <= s.mark
    requires CI.Inv(r, c) && CO.Accounted(c) && Spoken(u, s.(conversion := c))
    requires !Missed(r, u, s) ==> LC.Good(r, u, c, s.arrived, s.delivered, c.watermark)
    ensures Inv(r, u, s.(other := other, conversion := c))
  {
    SameMissed(r, u, s, s.(other := other, conversion := c));
    SameReader(u, s, other, c);
  }

  lemma NextOnOtherInput(r: Rules, u: World, s: State, w: int)
    requires r.window > 0
    ensures Next(r, u, s, OtherInputTicks(w))
         == s.(other := Max(s.other, w), conversion := C.Advance(r, s.conversion, Min(s.mark, Max(s.other, w))))
  {
  }

  lemma OtherInputTicksKeeps(r: Rules, u: World, s: State, w: int)
    requires ValidRules(r) && WellFormed(u) && Inv(r, u, s)
    ensures Inv(r, u, Next(r, u, s, OtherInputTicks(w)))
  {
    var other := Max(s.other, w);
    ConversionTicks(r, u, s, Min(s.mark, other), s.mark);
    OtherInputTicked(r, u, s, other, C.Advance(r, s.conversion, Min(s.mark, other)));
    NextOnOtherInput(r, u, s, w);
  }

  lemma ReaderMarks(u: World, s: State, c: C.State)
    requires Reader(u, s) && s.read < |s.exposure.out| && s.exposure.out[s.read].Mark? && c.watermark <= NextMark(s)
    ensures Reader(u, s.(read := s.read + 1, mark := NextMark(s), conversion := c))
  {
    var out := s.exposure.out;
    if s.delivered.Some? {
      var j :| LE.Carries(out, j, u.key) && j < s.read;
      assert j < s.read + 1;
    }
    if NextMark(s) == s.mark && s.mark != NO_WATERMARK {
      var i :| 0 <= i < s.read && out[i] == Mark(s.mark);
      assert i < s.read + 1;
    }
  }

  lemma MarkTaken(r: Rules, u: World, s: State, c: C.State)
    requires r.window > 0 && Inv(r, u, s) && s.read < |s.exposure.out| && s.exposure.out[s.read].Mark?
             && c.watermark <= NextMark(s)
    requires CI.Inv(r, c) && CO.Accounted(c) && Spoken(u, s.(conversion := c))
    requires !Missed(r, u, s) ==> LC.Good(r, u, c, s.arrived, s.delivered, c.watermark)
    ensures Inv(r, u, s.(read := s.read + 1, mark := NextMark(s), conversion := c))
  {
    SameMissed(r, u, s, s.(read := s.read + 1, mark := NextMark(s), conversion := c));
    ReaderMarks(u, s, c);
  }

  lemma NextOnMark(r: Rules, u: World, s: State)
    requires r.window > 0 && s.read < |s.exposure.out| && s.exposure.out[s.read].Mark?
    ensures Next(r, u, s, Deliver)
         == s.(read := s.read + 1, mark := NextMark(s),
               conversion := C.Advance(r, s.conversion, Min(NextMark(s), s.other)))
  {
  }

  lemma MarkDelivered(r: Rules, u: World, s: State)
    requires ValidRules(r) && WellFormed(u) && Inv(r, u, s)
    requires s.read < |s.exposure.out| && s.exposure.out[s.read].Mark?
    ensures Inv(r, u, Next(r, u, s, Deliver))
  {
    var w := Min(NextMark(s), s.other);
    ConversionTicks(r, u, s, w, NextMark(s));
    MarkTaken(r, u, s, C.Advance(r, s.conversion, w));
    NextOnMark(r, u, s);
  }

  lemma ReaderMoves(u: World, s: State)
    requires Reader(u, s) && s.read < |s.exposure.out| && s.exposure.out[s.read].Record?
    requires forall i, j :: LE.Carries(s.exposure.out, i, u.key) && LE.Carries(s.exposure.out, j, u.key) ==> i == j
    ensures !LE.Carries(s.exposure.out, s.read, u.key) ==> Reader(u, s.(read := s.read + 1))
    ensures LE.Carries(s.exposure.out, s.read, u.key) ==>
              s.delivered.None? && Reader(u, s.(read := s.read + 1, delivered := Some(s.exposure.out[s.read].value)))
  {
    if s.mark != NO_WATERMARK {
      var j :| 0 <= j < s.read && s.exposure.out[j] == Mark(s.mark);
      assert j < s.read + 1;
    }
    if s.delivered.Some? {
      var j :| LE.Carries(s.exposure.out, j, u.key) && j < s.read;
      assert j < s.read + 1 && !LE.Carries(s.exposure.out, s.read, u.key);
    }
  }

  /** The channel delivers the click before it, or the impression it carries, is late. */
  lemma DeliveredTimely(r: Rules, u: World, s: State)
    requires EI.Inv(r, s.exposure) && Reader(u, s) && LE.Carries(s.exposure.out, s.read, u.key)
    ensures CI.TimelyClick(r, s.exposure.out[s.read].value, s.conversion.watermark)
  {
    var c := s.exposure.out[s.read].value;
    assert EI.ClickTimely(r, s.exposure.out, s.read);
    MarksBefore(u, s, s.read, c.click.time + r.retention);
    if c.impression.Some? { MarksBefore(u, s, s.read, c.impression.value.time + r.retention); }
  }

  lemma DeliverySettles(r: Rules, u: World, s: State)
    requires ValidRules(r) && Inv(r, u, s) && LE.Carries(s.exposure.out, s.read, u.key) && s.delivered.None?
    requires !Missed(r, u, s)
    ensures var c := s.exposure.out[s.read].value;
            var c' := C.Process(r, s.conversion, C.OfClick(c));
            LC.Good(r, u, c', s.arrived, Some(c), c'.watermark)
  {
    DeliveredTimely(r, u, s);
    LC.ClickDelivered(r, u, s.conversion, s.arrived, s.exposure.out[s.read].value);
    ProcessKeepsWatermark(r, s.conversion, C.OfClick(s.exposure.out[s.read].value));
  }

  /** The lane after the click was delivered, whatever the conversion join made of it. */
  lemma ClickTaken(r: Rules, u: World, s: State, c: C.State)
    requires r.window > 0 && Inv(r, u, s) && LE.Carries(s.exposure.out, s.read, u.key)
    requires CI.Inv(r, c) && CO.Accounted(c) && Spoken(u, s.(conversion := c)) && c.watermark == s.conversion.watermark
    requires !Missed(r, u, s) ==> LC.Good(r, u, c, s.arrived, Some(s.exposure.out[s.read].value), c.watermark)
    ensures Inv(r, u, s.(read := s.read + 1, delivered := Some(s.exposure.out[s.read].value), conversion := c))
  {
    SameMissed(r, u, s, s.(read := s.read + 1, delivered := Some(s.exposure.out[s.read].value), conversion := c));
    ReaderMoves(u, s);
  }

  lemma ClickProcessed(r: Rules, u: World, s: State)
    requires ValidRules(r) && WellFormed(u) && Inv(r, u, s) && LE.Carries(s.exposure.out, s.read, u.key)
    ensures s.delivered.None?
    ensures var click := s.exposure.out[s.read].value;
            var c := C.Process(r, s.conversion, C.OfClick(click));
            && CI.Inv(r, c) && CO.Accounted(c) && Spoken(u, s.(conversion := c))
               && c.watermark == s.conversion.watermark
            && (!Missed(r, u, s) ==> LC.Good(r, u, c, s.arrived, Some(click), c.watermark))
  {
    var x := C.OfClick(s.exposure.out[s.read].value);
    ReaderMoves(u, s);
    DeliveredTimely(r, u, s);
    StillSpoken(r, u, s, CI.Arrive(x));
    ProcessKeepsWatermark(r, s.conversion, x);
    if !Missed(r, u, s) { DeliverySettles(r, u, s); }
  }

  lemma NextOnClick(r: Rules, u: World, s: State)
    requires r.window > 0 && LE.Carries(s.exposure.out, s.read, u.key)
    ensures var click := s.exposure.out[s.read].value;
            Next(r, u, s, Deliver)
            == s.(read := s.read + 1, delivered := Some(click),
                  conversion := C.Process(r, s.conversion, C.OfClick(click)))
  {
  }

  lemma ClickDelivered(r: Rules, u: World, s: State)
    requires ValidRules(r) && WellFormed(u) && Inv(r, u, s) && LE.Carries(s.exposure.out, s.read, u.key)
    ensures Inv(r, u, Next(r, u, s, Deliver))
  {
    ClickProcessed(r, u, s);
    ClickTaken(r, u, s, C.Process(r, s.conversion, C.OfClick(s.exposure.out[s.read].value)));
    NextOnClick(r, u, s);
  }

  /** A click of another key passes by. */
  lemma OtherClickPassed(r: Rules, u: World, s: State)
    requires r.window > 0 && Inv(r, u, s) && s.read < |s.exposure.out| && s.exposure.out[s.read].Record?
    requires !LE.Carries(s.exposure.out, s.read, u.key)
    ensures Inv(r, u, Next(r, u, s, Deliver))
  {
    SameMissed(r, u, s, s.(read := s.read + 1));
    ReaderMoves(u, s);
    assert Next(r, u, s, Deliver) == s.(read := s.read + 1);
  }

  lemma DeliverKeeps(r: Rules, u: World, s: State)
    requires ValidRules(r) && WellFormed(u) && Inv(r, u, s)
    ensures Inv(r, u, Next(r, u, s, Deliver))
  {
    if s.read < |s.exposure.out| {
      if s.exposure.out[s.read].Mark? { MarkDelivered(r, u, s); }
      else if LE.Carries(s.exposure.out, s.read, u.key) { ClickDelivered(r, u, s); }
      else { OtherClickPassed(r, u, s); }
    }
  }

  /** Every allowed step, in any order and at any progress of either operator, keeps the invariant. */
  lemma StepKeeps(r: Rules, u: World, s: State, step: Step)
    requires ValidRules(r) && WellFormed(u) && Inv(r, u, s) && Allowed(r, u, s, step)
    ensures Inv(r, u, Next(r, u, s, step))
  {
    match step
    case ExposureArrives(e) => ExposureArrivesKeeps(r, u, s, e);
    case ExposureTicks(w) => ExposureTicksKeeps(r, u, s, w);
    case ConversionArrives(v) => ConversionArrivesKeeps(r, u, s, v);
    case OtherInputTicks(w) => OtherInputTicksKeeps(r, u, s, w);
    case Deliver => DeliverKeeps(r, u, s);
  }

  lemma {:induction false} RunKeeps(r: Rules, u: World, steps: seq<Step>)
    requires ValidRules(r) && WellFormed(u) && AllowedRun(r, u, steps)
    ensures Inv(r, u, Run(r, u, steps))
  {
    if steps != [] {
      RunKeeps(r, u, steps[..|steps| - 1]);
      StepKeeps(r, u, Run(r, u, steps[..|steps| - 1]), steps[|steps| - 1]);
    }
  }
}
