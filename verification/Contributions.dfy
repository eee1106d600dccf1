/** What the joins contribute, said of the events. */
module Contributions {
  import opened Seqs
  import opened Events
  import opened Measurement
  import opened Oracle
  import opened Attribution
  import opened Pipeline
  import B = Batch
  import BT = BatchTotals
  import Cells

  /** The identifier that an event was given of its own kind. */
  function OwnId(e: Event): string {
    match e.kind
    case Impression => e.impressionId
    case Click => e.clickId
    case Conversion => e.conversionId
  }

  /** What a counter counts of an event. */
  predicate CountsOf(k: Counter, e: Event, value: nat) {
    match k
    case Impressions => e.kind.Impression? && value == 1
    case Clicks => e.kind.Click? && value == 1
    case MatchedConversions => e.kind.Conversion? && value == 1
    case UnmatchedConversions => e.kind.Conversion? && value == 1
    case ConvertedClicks => e.kind.Conversion? && value == 1
    case ValueMinor => e.kind.Conversion? && value == e.value
  }

  /** The contribution is one of this event. */
  predicate Tells(e: Event, m: Contribution, r: Rules)
    requires r.window > 0
  {
    && m.receipt == e.receipt && m.receivedAt == e.receivedAt && m.sourceTime == e.time
    && m.row.advertiser == e.advertiser && m.row.app == e.app
    && m.row.window <= m.time < m.row.window + r.window && m.row.window % r.window == 0
    && m.row.cohort == m.id.cohort && m.row.currency == m.id.currency
    && CountsOf(m.id.counter, e, m.value)
    && m.id.identity == (if m.id.counter.ConvertedClicks? then ClickIdentity(Link(e.advertiser, e.app, e.clickId))
                         else BusinessIdentity(Business(e.kind, Link(e.advertiser, e.app, OwnId(e)))))
  }

  lemma ContributeTells(e: Event, i: Option<Event>, t: nat, cohort: Cohort, currency: string, k: Counter, n: nat,
                        r: Rules)
    requires r.window > 0 && CountsOf(k, e, n)
    ensures Tells(e, Contribute(e, i, t, cohort, currency, k, n, r), r)
  {
    Cells.OneWindow(t, WindowStart(t, r), r.window);
  }

  lemma ContributionTells(events: seq<Event>, e: Event, r: Rules, m: Contribution)
    requires r.window > 0 && m in B.ContributionsOf(events, e, r)
    ensures Tells(e, m, r)
  {
    match e.kind
    case Impression =>
      ContributeTells(e, Some(e), e.time, m.id.cohort, ALL_CURRENCIES, Impressions, 1, r);
    case Click =>
      var c := B.LinkOf(events, e, r);
      ContributeTells(e, c.impression, e.time, m.id.cohort, ALL_CURRENCIES, Clicks, 1, r);
      if c.impression.Some? {
        ContributeTells(e, c.impression, c.impression.value.time, m.id.cohort, ALL_CURRENCIES, Clicks, 1, r);
      }
    case Conversion => ConversionTells(e, B.LinkedClickOf(events, e, r), r, m);
  }

  lemma ConversionTells(v: Event, c: Option<LinkedClick>, r: Rules, m: Contribution)
    requires r.window > 0 && v.kind.Conversion? && m in ConversionMetrics(v, c, ConversionReason(c, v, r), r)
    ensures Tells(v, m, r)
  {
    var reason := ConversionReason(c, v, r);
    var i := Inherited(c, reason);
    if reason.Matched? {
      var t := c.value.click.time;
      ContributeTells(v, i, v.time, Occurrence, ALL_CURRENCIES, MatchedConversions, 1, r);
      ContributeTells(v, i, t, ByClick, ALL_CURRENCIES, MatchedConversions, 1, r);
      ContributeTells(v, i, t, ByClick, ALL_CURRENCIES, ConvertedClicks, 1, r);
      ContributeTells(v, i, t, ConversionValue, v.currency, MatchedConversions, 1, r);
      ContributeTells(v, i, t, ConversionValue, v.currency, ValueMinor, v.value, r);
    } else {
      ContributeTells(v, i, v.time, Occurrence, ALL_CURRENCIES, UnmatchedConversions, 1, r);
    }
  }

  /** Whatever the schedule: every contribution of the joins is one of an event of the run, with that event's receipt
      and arrival. */
  lemma ContributionsTell(events: seq<Event>, r: Rules, lanes: seq<Course>, m: Contribution)
    requires ValidRules(r) && OneOfEach(events) && Covers(events, r, lanes) && SomeLaneContributed(r, lanes, m)
    ensures exists e :: e in events && Tells(e, m, r)
  {
    DistinctIs(events);
    JoinsContributeTheBatch(events, r, lanes, m);
    B.ContributedMember(events, Ordered(events), r, m);
    var e :| e in Ordered(events) && m in B.ContributionsOf(events, e, r);
    ContributionTells(events, e, r, m);
    BT.OrderedIsReordered(events);
  }

  /** Every event is announced: some contribution of the joins carries its receipt. */
  lemma EveryEventContributes(events: seq<Event>, r: Rules, lanes: seq<Course>, e: Event)
    requires ValidRules(r) && OneOfEach(events) && Covers(events, r, lanes) && e in events
    ensures exists m :: SomeLaneContributed(r, lanes, m) && m.receipt == e.receipt && m.receivedAt == e.receivedAt
  {
    DistinctIs(events);
    var m := B.ContributionsOf(events, e, r)[0];
    ContributionTells(events, e, r, m);
    BT.OrderedIsReordered(events);
    B.ContributedMember(events, Ordered(events), r, m);
    JoinsContributeTheBatch(events, r, lanes, m);
  }
}
