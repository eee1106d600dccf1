/** How clicks and conversions end, said of the fields of events. */
module EndToEnd {
  import opened Seqs
  import opened Events
  import opened Measurement
  import opened Oracle
  import opened Attribution
  import opened Pipeline
  import B = Batch
  import L = Lane
  import LR = LaneRun
  import LO = LaneOutcomes
  import LE = LaneExposure

  /** Whatever the schedule: a conversion ends matched exactly if there is a click that it is due to, with the
      experiment and variant of the impression that this click may be linked to, if there is one. */
  lemma ConversionsEndByFields(events: seq<Event>, r: Rules, lanes: seq<Course>, l: Course, v: Event)
    requires ValidRules(r) && OneOfEach(events) && Covers(events, r, lanes)
    requires l in lanes && v.kind.Conversion? && Holds(l.world, v)
    ensures var last := LO.Latest(End(r, l).conversion.associations, Link(v.advertiser, v.app, v.conversionId));
            && last.Some?
            && last.value.status == (if Matchable(events, v, r) then MatchedStatus else Unmatched)
            && (forall c, i :: Attributed(events, v, c, i, r) ==>
                  last.value.experiment == i.experiment && last.value.variant == i.variant)
            && ((forall c, i :: !Attributed(events, v, c, i, r)) ==>
                 last.value.experiment == last.value.variant == "unknown")
  {
    DistinctIs(events);
    EveryConversionEndsAsInBatch(events, r, lanes, l, v);
    AssociationTells(events, v, r);
  }

  /** The click of a complete lane was sent, with its final link. */
  lemma ClickWasSent(r: Rules, l: Course, c: Event)
    requires ValidRules(r) && L.WellFormed(l.world) && Complete(r, l) && l.world.click == Some(c)
    ensures exists j :: LE.Carries(End(r, l).exposure.out, j, l.world.key)
    ensures forall j :: LE.Carries(End(r, l).exposure.out, j, l.world.key) ==>
              var sent := End(r, l).exposure.out[j].value;
              sent.click == c && sent.impression == L.FinalClick(l.world, r).value.impression
  {
    var u, s := l.world, End(r, l);
    LR.RunKeeps(r, u, l.steps);
    LO.FinishedIsSettled(r, u, s);
    assert !LE.ImpressionMissed(r, u, s.impressionSeen, s.exposure.watermark);
  }

  /** Every click leaves the exposure join, linked to exactly the impression that it may be linked to. */
  lemma ClicksLeaveByFields(events: seq<Event>, r: Rules, lanes: seq<Course>, l: Course, c: Event)
    requires ValidRules(r) && OneOfEach(events) && Covers(events, r, lanes)
    requires l in lanes && c.kind.Click? && Holds(l.world, c)
    ensures exists j :: LE.Carries(End(r, l).exposure.out, j, l.world.key)
    ensures forall j, i :: LE.Carries(End(r, l).exposure.out, j, l.world.key) ==>
              var sent := End(r, l).exposure.out[j].value;
              && sent.click == c && (sent.impression == Some(i) <==> i in events && MayLink(i, c, r))
              && (sent.impression.Some? <==> Linkable(events, c, r))
  {
    DistinctIs(events);
    ProjectionIsWellFormed(events, l.world);
    HeldEvents(events, r, l.world, c);
    ClickWasSent(r, l, c);
    B.LinksAgree(events, c, r);
    forall i
      ensures LinkedImpression(events, c, r) == Some(i) <==> i in events && MayLink(i, c, r)
      ensures LinkedImpression(events, c, r).Some? <==> Linkable(events, c, r)
    {
      LinkedExactly(events, c, r, i);
    }
  }

  /** A conversion that is due to its click is never lost to a wait: it is enough that the click reached the exposure
      join, and the conversion the conversion join, before the conversion's deadline. */
  lemma DueConversionsAreMatched(r: Rules, u: L.World, steps: seq<LR.Step>, v: Event)
    requires ValidRules(r) && L.WellFormed(u) && u.promised == {v} && !u.linkPromised && v in u.conversions
    requires LR.AllowedRun(r, u, steps) && u.click.Some? && MayMatch(u.click.value, v, r)
    requires v in LR.Run(r, u, steps).arrived && LR.Run(r, u, steps).clickSeen
    ensures var s := LR.Run(r, u, steps);
            var last := LO.Latest(s.conversion.associations, Link(v.advertiser, v.app, v.conversionId));
            || (v in s.conversion.waiting && s.conversion.watermark < v.time + r.wait)
            || (last.Some? && last.value.status.MatchedStatus?)
  {
    LO.WaitingForExposureIsFree(r, u, steps, v);
  }
}
