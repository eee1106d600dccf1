/** One impression, the click it may have caused and the conversions of that click: what each join
    owes to the others. */
module Lane {
  import opened Seqs
  import opened Events
  import opened Measurement

  /** The events of one click key, whenever and in whatever order they arrive. Both optional events may never happen.
      `promised` are the conversions that, if the click matches them, meet it before their wait is over, and
      `linkPromised` says the same of the impression and the click. */
  datatype World = World(
    key: Link, impression: Option<Event>, click: Option<Event>, conversions: set<Event>,
    linkPromised: bool, promised: set<Event>)

  ghost predicate WellFormed(u: World) {
    && (u.impression.Some? ==> u.impression.value.kind.Impression?)
    && (u.click.Some? ==> u.click.value.kind.Click? && ClickLink(u.click.value) == u.key)
    && (forall v :: v in u.conversions ==> v.kind.Conversion? && ClickLink(v) == u.key)
    && (forall v, w :: v in u.conversions && w in u.conversions && ConversionLink(v) == ConversionLink(w) ==> v == w)
  }

  /** The click with the link that the batch calculation gives it: the whole world is known to it at once. */
  function FinalClick(u: World, r: Rules): Option<LinkedClick> {
    if u.click.Some? then Some(Enrich(u.click.value, u.impression, r)) else None
  }

  predicate LinkLegal(u: World, r: Rules) {
    u.impression.Some? && u.click.Some? && LegalExposure(u.impression.value, u.click.value, r)
  }

  predicate MatchLegal(u: World, v: Event, r: Rules) {
    u.click.Some? && LegalMatch(u.click.value, v, r)
  }

  /** The link that the click will carry is settled by the promise, or by the link being illegal anyway. */
  predicate LinkSure(u: World, r: Rules) { u.linkPromised || !LinkLegal(u, r) }

  /** A legal match that nothing promises to bring together in time. */
  predicate Excused(u: World, v: Event, r: Rules) { MatchLegal(u, v, r) && v !in u.promised }

  /** Every legal pair of this world is promised to meet in time. */
  ghost predicate FullyPromised(u: World, r: Rules) {
    LinkSure(u, r) && forall v :: v in u.conversions ==> !Excused(u, v, r)
  }

  /** A legal pair leaves the earlier of the two retained until the later one's wait is over. */
  lemma RetentionCoversMatch(click: Event, v: Event, r: Rules)
    requires ValidRules(r) && LegalMatch(click, v, r)
    ensures click.time + r.wait <= v.time + r.wait <= click.time + r.retention
  {
  }

  lemma RetentionCoversLink(impression: Event, click: Event, r: Rules)
    requires ValidRules(r) && LegalExposure(impression, click, r)
    ensures impression.time + r.wait <= click.time + r.wait <= impression.time + r.retention
  {
  }
}
