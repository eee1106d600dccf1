/** The business definitions: when events link, and what each of them contributes to which metric row. */
module Measurement {
  import opened Seqs
  import opened Events

  function ExposureReason(impression: Option<Event>, click: Event, r: Rules): LinkReason {
    match impression
    case None => ImpressionNotFound
    case Some(i) =>
      if !SameIdentity(i, click) then ImpressionIdentityMismatch
      else if i.campaign != click.campaign then ImpressionCampaignMismatch
      else if click.time < i.time then ClickBeforeImpression
      else if click.time - i.time > r.attribution then ImpressionWindowExceeded
      else LinkOK
  }

  function ConversionReason(click: Option<LinkedClick>, conversion: Event, r: Rules): MatchReason {
    match click
    case None => ClickNotFound
    case Some(c) =>
      if !SameIdentity(c.click, conversion) then IdentityMismatch
      else if c.click.campaign != conversion.campaign then CampaignMismatch
      else if conversion.time < c.click.time then ClickAfterConversion
      else if conversion.time - c.click.time > r.attribution then AttributionWindowExceeded
      else Matched
  }

  /** A click as it leaves the exposure join: linked only when the link is legal. */
  function Enrich(click: Event, impression: Option<Event>, r: Rules): LinkedClick {
    var reason := ExposureReason(impression, click, r);
    LinkedClick(click, reason, if reason.LinkOK? then impression else None)
  }

  predicate LegalExposure(impression: Event, click: Event, r: Rules) {
    ExposureReason(Some(impression), click, r).LinkOK?
  }

  /** Whether a conversion may be attributed to a click; the click's own link is not consulted. */
  predicate LegalMatch(click: Event, conversion: Event, r: Rules) {
    ConversionReason(Some(LinkedClick(click, LinkOK, None)), conversion, r).Matched?
  }

  datatype Cohort = Occurrence | ByImpression | ByClick | ConversionValue

  datatype Counter = Impressions | Clicks | MatchedConversions | UnmatchedConversions | ConvertedClicks | ValueMinor

  /** A metric row before the campaign's channel is looked up. */
  datatype Row = Row(
    advertiser: string, app: string, campaign: string, region: string, appVersion: string,
    experiment: string, variant: string, currency: string, window: nat, cohort: Cohort)

  datatype Identity = BusinessIdentity(business: Business) | ClickIdentity(click: Link)

  datatype ContributionId = ContributionId(identity: Identity, cohort: Cohort, currency: string, counter: Counter)

  datatype Contribution = Contribution(
    row: Row, id: ContributionId, value: nat, time: nat, receipt: string, receivedAt: nat, sourceTime: nat)

  const ALL_CURRENCIES := "ALL"

  /** The start of the window that holds an instant. */
  function WindowStart(time: nat, r: Rules): (start: nat)
    requires r.window > 0
    ensures start <= time < start + r.window
  {
    time / r.window * r.window
  }

  function Contribute(e: Event, impression: Option<Event>, time: nat, cohort: Cohort,
                      currency: string, counter: Counter, value: nat, r: Rules): Contribution
    requires r.window > 0
  {
    var dimension := if impression.Some? then impression.value else e;
    var identity := if counter.ConvertedClicks? then ClickIdentity(ClickLink(e)) else BusinessIdentity(BusinessKey(e));
    Contribution(
      Row(e.advertiser, e.app, dimension.campaign, dimension.region, dimension.appVersion,
          if impression.Some? then impression.value.experiment else "unknown",
          if impression.Some? then impression.value.variant else "unknown",
          currency, WindowStart(time, r), cohort),
      ContributionId(identity, cohort, currency, counter), value, time, e.receipt, e.receivedAt, e.time)
  }

  function ImpressionMetrics(e: Event, r: Rules): seq<Contribution>
    requires r.window > 0
  {
    [ Contribute(e, Some(e), e.time, Occurrence, ALL_CURRENCIES, Impressions, 1, r),
      Contribute(e, Some(e), e.time, ByImpression, ALL_CURRENCIES, Impressions, 1, r) ]
  }

  function ClickMetrics(c: LinkedClick, r: Rules): seq<Contribution>
    requires r.window > 0
  {
    [ Contribute(c.click, c.impression, c.click.time, Occurrence, ALL_CURRENCIES, Clicks, 1, r),
      Contribute(c.click, c.impression, c.click.time, ByClick, ALL_CURRENCIES, Clicks, 1, r) ]
    + if c.impression.None? then []
      else [ Contribute(c.click, c.impression, c.impression.value.time, ByImpression, ALL_CURRENCIES, Clicks, 1, r) ]
  }

  /** The impression a conversion inherits: only a matched one inherits any. */
  function Inherited(click: Option<LinkedClick>, reason: MatchReason): Option<Event> {
    if reason.Matched? && click.Some? then click.value.impression else None
  }

  function ConversionMetrics(v: Event, click: Option<LinkedClick>, reason: MatchReason, r: Rules): seq<Contribution>
    requires r.window > 0
    requires reason.Matched? ==> click.Some?
  {
    var i := Inherited(click, reason);
    if reason.Matched? then
      var t := click.value.click.time;
      [ Contribute(v, i, v.time, Occurrence, ALL_CURRENCIES, MatchedConversions, 1, r),
        Contribute(v, i, t, ByClick, ALL_CURRENCIES, MatchedConversions, 1, r),
        Contribute(v, i, t, ByClick, ALL_CURRENCIES, ConvertedClicks, 1, r),
        Contribute(v, i, t, ConversionValue, v.currency, MatchedConversions, 1, r),
        Contribute(v, i, t, ConversionValue, v.currency, ValueMinor, v.value, r) ]
    else
      [ Contribute(v, i, v.time, Occurrence, ALL_CURRENCIES, UnmatchedConversions, 1, r) ]
  }

  datatype Status = Pending | MatchedStatus | Unmatched

  datatype Association = Association(
    key: Link, click: Link, status: Status, reason: MatchReason,
    experiment: string, variant: string, time: nat, receipt: string)

  function Associate(v: Event, click: Option<LinkedClick>, reason: MatchReason): Association {
    var i := Inherited(click, reason);
    Association(
      ConversionLink(v), ClickLink(v),
      if reason.AwaitingClick? then Pending else if reason.Matched? then MatchedStatus else Unmatched, reason,
      if i.Some? then i.value.experiment else "unknown",
      if i.Some? then i.value.variant else "unknown", v.time, v.receipt)
  }

  /** What a reader of results compares: everything but the reason of a conversion that was not matched. */
  datatype Outcome = Outcome(status: Status, experiment: string, variant: string)

  function OutcomeOf(a: Association): Outcome { Outcome(a.status, a.experiment, a.variant) }

  /** Both halves of a conversion's effect depend on its click only through whether it is matched. */
  lemma UnmatchedReasonsAgree(v: Event, c1: Option<LinkedClick>, r1: MatchReason, c2: Option<LinkedClick>,
                              r2: MatchReason, r: Rules)
    requires r.window > 0
    requires !r1.Matched? && !r2.Matched? && !r1.AwaitingClick? && !r2.AwaitingClick?
    ensures ConversionMetrics(v, c1, r1, r) == ConversionMetrics(v, c2, r2, r)
    ensures OutcomeOf(Associate(v, c1, r1)) == OutcomeOf(Associate(v, c2, r2))
            == Outcome(Unmatched, "unknown", "unknown")
  {
  }

  /** The instant at which the aggregate of a contribution's row freezes. */
  function Cleanup(c: Contribution, r: Rules): nat { c.row.window + r.window + r.retention }
}
