/** The batch calculation: one pass over all clean events, with everything known from the start. */
module Oracle {
  import opened Seqs
  import opened Events
  import opened Measurement
  import opened Tallies
  import opened Dimensions
  import N = Normalize

  datatype MetricKey = MetricKey(row: Row, channel: string)

  /** The key of a metric row: the dimensions of the attributed impression, or of the event itself. */
  function KeyFor(e: Event, impression: Option<Event>, t: nat, cohort: Cohort, currency: string, r: Rules,
                  ds: seq<Dimension>): MetricKey
    requires r.window > 0
  {
    var attribution := if impression.Some? then impression.value else e;
    MetricKey(
      Row(e.advertiser, e.app, attribution.campaign, attribution.region, attribution.appVersion,
          if impression.Some? then impression.value.experiment else "unknown",
          if impression.Some? then impression.value.variant else "unknown",
          currency, t / r.window * r.window, cohort),
      ChannelAt(ds, attribution.campaign, t))
  }

  function LinkReasonOf(impression: Option<Event>, click: Event, r: Rules): LinkReason {
    if impression.None? then ImpressionNotFound
    else if !SameIdentity(impression.value, click) then ImpressionIdentityMismatch
    else if impression.value.campaign != click.campaign then ImpressionCampaignMismatch
    else if impression.value.time > click.time then ClickBeforeImpression
    else if click.time - impression.value.time > r.attribution then ImpressionWindowExceeded
    else LinkOK
  }

  function MatchReasonOf(click: Option<Event>, conversion: Event, r: Rules): MatchReason {
    if click.None? then ClickNotFound
    else if !SameIdentity(click.value, conversion) then IdentityMismatch
    else if click.value.campaign != conversion.campaign then CampaignMismatch
    else if click.value.time > conversion.time then ClickAfterConversion
    else if conversion.time - click.value.time > r.attribution then AttributionWindowExceeded
    else Matched
  }

  datatype Addition = Addition(key: MetricKey, values: Tally)

  function ImpressionAdditions(i: Event, r: Rules, ds: seq<Dimension>): seq<Addition>
    requires r.window > 0
  {
    [ Addition(KeyFor(i, Some(i), i.time, Occurrence, ALL_CURRENCIES, r, ds), ZERO.(impressions := 1)),
      Addition(KeyFor(i, Some(i), i.time, ByImpression, ALL_CURRENCIES, r, ds), ZERO.(impressions := 1)) ]
  }

  function ClickAdditions(c: Event, linked: Option<Event>, r: Rules, ds: seq<Dimension>): seq<Addition>
    requires r.window > 0
  {
    [ Addition(KeyFor(c, linked, c.time, Occurrence, ALL_CURRENCIES, r, ds), ZERO.(clicks := 1)),
      Addition(KeyFor(c, linked, c.time, ByClick, ALL_CURRENCIES, r, ds), ZERO.(clicks := 1)) ]
    + if linked.None? then []
      else [ Addition(KeyFor(c, linked, linked.value.time, ByImpression, ALL_CURRENCIES, r, ds), ZERO.(clicks := 1)) ]
  }

  /** `first` says that no earlier conversion of the same click was matched. */
  function ConversionAdditions(v: Event, click: Option<Event>, linked: Option<Event>, first: bool, r: Rules,
                               ds: seq<Dimension>): seq<Addition>
    requires r.window > 0
  {
    if click.None? || !MatchReasonOf(click, v, r).Matched? then
      [ Addition(KeyFor(v, None, v.time, Occurrence, ALL_CURRENCIES, r, ds), ZERO.(unmatched := 1)) ]
    else
      [ Addition(KeyFor(v, linked, v.time, Occurrence, ALL_CURRENCIES, r, ds), ZERO.(matched := 1)),
        Addition(KeyFor(v, linked, click.value.time, ByClick, ALL_CURRENCIES, r, ds),
                 ZERO.(matched := 1, converted := if first then 1 else 0)),
        Addition(KeyFor(v, linked, click.value.time, ConversionValue, v.currency, r, ds),
                 ZERO.(matched := 1, value := v.value)) ]
  }

  /** Events of one kind by their identifier, a later one replacing an earlier one. */
  function Table(events: seq<Event>, kind: Kind): map<Link, Event> {
    if events == [] then map[]
    else
      var before, e := Table(events[..|events| - 1], kind), events[|events| - 1];
      if e.kind == kind then before[BusinessKey(e).link := e] else before
  }

  function Find(table: map<Link, Event>, k: Link): Option<Event> { if k in table then Some(table[k]) else None }

  /** The impression a click is linked to, if that link is legal. */
  function LinkedImpression(events: seq<Event>, c: Event, r: Rules): Option<Event> {
    var i := Find(Table(events, Impression), ImpressionLink(c));
    if LinkReasonOf(i, c, r).LinkOK? then i else None
  }

  /** What is signalled of a click whose link is not legal. */
  function SignalOf(events: seq<Event>, c: Event, r: Rules): seq<N.Quality> {
    var reason := LinkReasonOf(Find(Table(events, Impression), ImpressionLink(c)), c, r);
    if reason.LinkOK? then [] else [N.Quality(c.receipt, N.LinkSignal(reason))]
  }

  function SignalsOf(events: seq<Event>, clicks: seq<Event>, r: Rules): seq<N.Quality> {
    if clicks == [] then []
    else SignalsOf(events, clicks[..|clicks| - 1], r) + SignalOf(events, clicks[|clicks| - 1], r)
  }

  function ClickOf(events: seq<Event>, v: Event): Option<Event> { Find(Table(events, Click), ClickLink(v)) }

  /** The linked impression of a conversion's click. */
  function JoinedOf(events: seq<Event>, v: Event, r: Rules): Option<Event> {
    var c := ClickOf(events, v);
    if c.Some? then LinkedImpression(events, c.value, r) else None
  }

  predicate IsMatched(events: seq<Event>, v: Event, r: Rules) { MatchReasonOf(ClickOf(events, v), v, r).Matched? }

  /** The clicks that some matched conversion among `es` has. */
  function Converted(events: seq<Event>, es: seq<Event>, r: Rules): set<Link> {
    set v | v in es && v.kind.Conversion? && IsMatched(events, v, r) :: ClickLink(v)
  }

  /** No conversion of `before` was matched to the click of `v`. */
  predicate IsFirst(events: seq<Event>, before: seq<Event>, v: Event, r: Rules) {
    ClickLink(v) !in Converted(events, before, r)
  }

  function OfKind(kind: Kind): Event -> bool { (e: Event) => e.kind == kind }

  /** The events in the order in which the calculation counts them. */
  function Ordered(events: seq<Event>): seq<Event> {
    Filter(events, OfKind(Impression)) + Filter(events, OfKind(Click)) + Filter(events, OfKind(Conversion))
  }

  /** What one event adds when `before` were counted before it; all of `events` are known. */
  function AdditionsOf(events: seq<Event>, before: seq<Event>, e: Event, r: Rules, ds: seq<Dimension>): seq<Addition>
    requires r.window > 0
  {
    match e.kind
    case Impression => ImpressionAdditions(e, r, ds)
    case Click => ClickAdditions(e, LinkedImpression(events, e, r), r, ds)
    case Conversion =>
      ConversionAdditions(e, ClickOf(events, e), JoinedOf(events, e, r), IsFirst(events, before, e, r), r, ds)
  }

  function AddedBy(events: seq<Event>, es: seq<Event>, r: Rules, ds: seq<Dimension>): seq<Addition>
    requires r.window > 0
  {
    if es == [] then []
    else AddedBy(events, es[..|es| - 1], r, ds) + AdditionsOf(events, es[..|es| - 1], es[|es| - 1], r, ds)
  }

  /** The metric rows that a list of additions leaves. */
  function Rows(adds: seq<Addition>): map<MetricKey, Tally> {
    if adds == [] then map[]
    else AddTo(Rows(adds[..|adds| - 1]), adds[|adds| - 1])
  }

  function AddTo(metrics: map<MetricKey, Tally>, a: Addition): map<MetricKey, Tally> {
    metrics[a.key := Plus(if a.key in metrics then metrics[a.key] else ZERO, a.values)]
  }

  /** The total that a list of additions gives one key. */
  function Total(adds: seq<Addition>, key: MetricKey): Tally {
    if adds == [] then ZERO
    else
      var before, a := Total(adds[..|adds| - 1], key), adds[|adds| - 1];
      if a.key == key then Plus(before, a.values) else before
  }

  lemma {:induction false} RowsAreTotals(adds: seq<Addition>, key: MetricKey)
    ensures Total(adds, key) == if key in Rows(adds) then Rows(adds)[key] else ZERO
    ensures key in Rows(adds) <==> exists a :: a in adds && a.key == key
  {
    if adds != [] {
      RowsAreTotals(adds[..|adds| - 1], key);
      assert adds == adds[..|adds| - 1] + [adds[|adds| - 1]];
    }
  }

  function AssociationOf(events: seq<Event>, v: Event, r: Rules): Association {
    var reason := MatchReasonOf(ClickOf(events, v), v, r);
    var i := if reason.Matched? then JoinedOf(events, v, r) else None;
    Association(ConversionLink(v), ClickLink(v), if reason.Matched? then MatchedStatus else Unmatched, reason,
                if i.Some? then i.value.experiment else "unknown", if i.Some? then i.value.variant else "unknown",
                v.time, v.receipt)
  }

  function AssociationsOf(events: seq<Event>, vs: seq<Event>, r: Rules): seq<Association> {
    if vs == [] then [] else AssociationsOf(events, vs[..|vs| - 1], r) + [AssociationOf(events, vs[|vs| - 1], r)]
  }

  // The calculation as it runs: tables filled, rows and sets updated in place.

  method AddAll(metrics: map<MetricKey, Tally>, more: seq<Addition>, ghost adds: seq<Addition>)
    returns (rows: map<MetricKey, Tally>)
    requires metrics == Rows(adds)
    ensures rows == Rows(adds + more)
  {
    rows := metrics;
    var i := 0;
    assert adds + more[..0] == adds;
    while i < |more|
      invariant 0 <= i <= |more|
      invariant rows == Rows(adds + more[..i])
    {
      var a := more[i];
      rows := rows[a.key := Plus(if a.key in rows then rows[a.key] else ZERO, a.values)];
      assert (adds + more[..i + 1])[..|adds| + i] == adds + more[..i];
      i := i + 1;
    }
    assert more[..i] == more;
  }

  method Index(events: seq<Event>, kind: Kind) returns (table: map<Link, Event>, listed: seq<Event>)
    ensures table == Table(events, kind) && listed == Filter(events, OfKind(kind))
  {
    table, listed := map[], [];
    var i := 0;
    while i < |events|
      invariant 0 <= i <= |events|
      invariant table == Table(events[..i], kind) && listed == Filter(events[..i], OfKind(kind))
    {
      assert events[..i + 1] == events[..i] + [events[i]] && events[..i + 1][..i] == events[..i];
      FilterAppend(events[..i], [events[i]], OfKind(kind));
      if events[i].kind == kind {
        table := table[BusinessKey(events[i]).link := events[i]];
        listed := listed + [events[i]];
      }
      i := i + 1;
    }
    assert events[..i] == events;
  }

  lemma OneMore(events: seq<Event>, base: seq<Event>, es: seq<Event>, i: nat, r: Rules, ds: seq<Dimension>)
    requires r.window > 0 && i < |es|
    ensures AddedBy(events, base + es[..i + 1], r, ds)
         == AddedBy(events, base + es[..i], r, ds) + AdditionsOf(events, base + es[..i], es[i], r, ds)
  {
    var all := base + es[..i + 1];
    assert all[..|all| - 1] == base + es[..i] && all[|all| - 1] == es[i];
  }

  method AddEvent(metrics: map<MetricKey, Tally>, more: seq<Addition>, ghost events: seq<Event>, ghost base: seq<Event>,
                  ghost es: seq<Event>, ghost i: nat, ghost r: Rules, ghost ds: seq<Dimension>)
    returns (rows: map<MetricKey, Tally>)
    requires r.window > 0 && i < |es|
    requires metrics == Rows(AddedBy(events, base + es[..i], r, ds))
    requires more == AdditionsOf(events, base + es[..i], es[i], r, ds)
    ensures rows == Rows(AddedBy(events, base + es[..i + 1], r, ds))
  {
    ghost var adds := AddedBy(events, base + es[..i], r, ds);
    OneMore(events, base, es, i, r, ds);
    rows := AddAll(metrics, more, adds);
  }

  method CountImpressions(ghost events: seq<Event>, shown: seq<Event>, before: map<MetricKey, Tally>,
                          ghost base: seq<Event>, r: Rules, ds: seq<Dimension>)
    returns (metrics: map<MetricKey, Tally>)
    requires r.window > 0 && before == Rows(AddedBy(events, base, r, ds))
    requires forall e :: e in shown ==> e.kind.Impression?
    ensures metrics == Rows(AddedBy(events, base + shown, r, ds))
  {
    metrics := before;
    var i := 0;
    assert base + shown[..0] == base;
    while i < |shown|
      invariant 0 <= i <= |shown|
      invariant metrics == Rows(AddedBy(events, base + shown[..i], r, ds))
    {
      assert shown[i] in shown;
      var more := ImpressionAdditions(shown[i], r, ds);
      metrics := AddEvent(metrics, more, events, base, shown, i, r, ds);
      i := i + 1;
    }
    assert shown[..i] == shown;
  }

  lemma OneMoreConverted(events: seq<Event>, base: seq<Event>, vs: seq<Event>, i: nat, r: Rules)
    requires i < |vs| && vs[i].kind.Conversion?
    ensures Converted(events, base + vs[..i + 1], r)
         == if IsMatched(events, vs[i], r) then Converted(events, base + vs[..i], r) + {ClickLink(vs[i])}
            else Converted(events, base + vs[..i], r)
  {
    assert base + vs[..i + 1] == base + vs[..i] + [vs[i]];
  }

  lemma OneMoreAssociation(events: seq<Event>, vs: seq<Event>, i: nat, r: Rules)
    requires i < |vs|
    ensures AssociationsOf(events, vs[..i + 1], r)
            == AssociationsOf(events, vs[..i], r) + [AssociationOf(events, vs[i], r)]
  {
    assert vs[..i + 1][..i] == vs[..i];
  }

  /** An unmatched conversion adds nothing that its click's link could change. */
  lemma LinkMattersOnlyIfMatched(v: Event, click: Option<Event>, i: Option<Event>, j: Option<Event>, first: bool,
                                 r: Rules, ds: seq<Dimension>)
    requires r.window > 0 && (MatchReasonOf(click, v, r).Matched? ==> i == j)
    ensures ConversionAdditions(v, click, i, first, r, ds) == ConversionAdditions(v, click, j, first, r, ds)
  {
  }

  /** The table of links that the clicks leave, a later click replacing an earlier one. */
  function Joins(events: seq<Event>, clicks: seq<Event>, r: Rules): map<Link, Option<Event>> {
    if clicks == [] then map[]
    else
      var init, c := Joins(events, clicks[..|clicks| - 1], r), clicks[|clicks| - 1];
      init[ClickLink(c) := LinkedImpression(events, c, r)]
  }

  lemma {:induction false} JoinsHold(events: seq<Event>, clicks: seq<Event>, r: Rules, c: Event)
    requires Distinct(clicks, ClickLink) && c in clicks
    ensures ClickLink(c) in Joins(events, clicks, r)
            && Joins(events, clicks, r)[ClickLink(c)] == LinkedImpression(events, c, r)
  {
    var init, last := clicks[..|clicks| - 1], clicks[|clicks| - 1];
    assert clicks == init + [last];
    if c != last {
      JoinsHold(events, init, r, c);
      var j :| 0 <= j < |init| && init[j] == c;
      assert ClickLink(clicks[j]) != ClickLink(clicks[|init|]);
    }
  }

  lemma OneMoreClick(events: seq<Event>, clicks: seq<Event>, i: nat, r: Rules)
    requires i < |clicks|
    ensures Joins(events, clicks[..i + 1], r)
         == Joins(events, clicks[..i], r)[ClickLink(clicks[i]) := LinkedImpression(events, clicks[i], r)]
    ensures SignalsOf(events, clicks[..i + 1], r) == SignalsOf(events, clicks[..i], r) + SignalOf(events, clicks[i], r)
  {
    assert clicks[..i + 1][..i] == clicks[..i];
  }

  /** The link of one click, and what is signalled if it has none. */
  method LinkClick(impressions: map<Link, Event>, ghost events: seq<Event>, c: Event, r: Rules)
    returns (impression: Option<Event>, signal: seq<N.Quality>)
    requires impressions == Table(events, Impression)
    ensures impression == LinkedImpression(events, c, r) && signal == SignalOf(events, c, r)
  {
    impression, signal := Find(impressions, ImpressionLink(c)), [];
    var reason := LinkReasonOf(impression, c, r);
    if !reason.LinkOK? {
      impression, signal := None, [N.Quality(c.receipt, N.LinkSignal(reason))];
    }
  }

  /** What counting the clicks keeps up to date. */
  datatype Clicked = Clicked(metrics: map<MetricKey, Tally>, joined: map<Link, Option<Event>>, signals: seq<N.Quality>)

  ghost predicate ClicksCounted(s: Clicked, events: seq<Event>, base: seq<Event>, clicks: seq<Event>, r: Rules,
                                ds: seq<Dimension>)
    requires r.window > 0
  {
    && s.metrics == Rows(AddedBy(events, base + clicks, r, ds))
    && s.joined == Joins(events, clicks, r) && s.signals == SignalsOf(events, clicks, r)
  }

  method CountClick(s: Clicked, impressions: map<Link, Event>, ghost events: seq<Event>, ghost base: seq<Event>,
                    clicks: seq<Event>, i: nat, r: Rules, ds: seq<Dimension>)
    returns (s': Clicked)
    requires r.window > 0 && i < |clicks| && impressions == Table(events, Impression) && clicks[i].kind.Click?
    requires ClicksCounted(s, events, base, clicks[..i], r, ds)
    ensures ClicksCounted(s', events, base, clicks[..i + 1], r, ds)
  {
    OneMoreClick(events, clicks, i, r);
    var impression, signal := LinkClick(impressions, events, clicks[i], r);
    var more := ClickAdditions(clicks[i], impression, r, ds);
    var metrics := AddEvent(s.metrics, more, events, base, clicks, i, r, ds);
    s' := Clicked(metrics, s.joined[ClickLink(clicks[i]) := impression], s.signals + signal);
  }

  method CountClicks(ghost events: seq<Event>, impressions: map<Link, Event>, clicks: seq<Event>,
                     before: map<MetricKey, Tally>, ghost base: seq<Event>, r: Rules, ds: seq<Dimension>)
    returns (s: Clicked)
    requires r.window > 0 && impressions == Table(events, Impression) && before == Rows(AddedBy(events, base, r, ds))
    requires forall c :: c in clicks ==> c.kind.Click?
    ensures ClicksCounted(s, events, base, clicks, r, ds)
  {
    s := Clicked(before, map[], []);
    var i := 0;
    assert base + clicks[..0] == base;
    while i < |clicks|
      invariant 0 <= i <= |clicks|
      invariant ClicksCounted(s, events, base, clicks[..i], r, ds)
    {
      assert clicks[i] in clicks;
      s := CountClick(s, impressions, events, base, clicks, i, r, ds);
      i := i + 1;
    }
    assert clicks[..i] == clicks;
  }

  /** One conversion: its association, and the additions it makes. */
  method SettleConversion(ghost events: seq<Event>, clicks: map<Link, Event>, joined: map<Link, Option<Event>>,
                          ghost before: seq<Event>, converted: set<Link>, v: Event, r: Rules, ds: seq<Dimension>)
    returns (association: Association, more: seq<Addition>, matched: bool)
    requires r.window > 0 && clicks == Table(events, Click) && converted == Converted(events, before, r)
             && v.kind.Conversion?
    requires forall k :: k in clicks ==> k in joined && joined[k] == LinkedImpression(events, clicks[k], r)
    ensures association == AssociationOf(events, v, r) && matched == IsMatched(events, v, r)
    ensures more == AdditionsOf(events, before, v, r, ds)
  {
    var click := Find(clicks, ClickLink(v));
    var reason := MatchReasonOf(click, v, r);
    matched := reason.Matched?;
    var impression := if matched then joined[ClickLink(v)] else None;
    assert matched ==> impression == JoinedOf(events, v, r);
    association := Association(
      ConversionLink(v), ClickLink(v), if matched then MatchedStatus else Unmatched, reason,
      if impression.Some? then impression.value.experiment else "unknown",
      if impression.Some? then impression.value.variant else "unknown", v.time, v.receipt);
    more := ConversionAdditions(v, click, impression, ClickLink(v) !in converted, r, ds);
    LinkMattersOnlyIfMatched(v, click, impression, JoinedOf(events, v, r), ClickLink(v) !in converted, r, ds);
  }

  /** What counting the conversions keeps up to date. */
  datatype Settled = Settled(metrics: map<MetricKey, Tally>, converted: set<Link>, associations: seq<Association>)

  ghost predicate ConversionsCounted(s: Settled, events: seq<Event>, base: seq<Event>, vs: seq<Event>, r: Rules,
                                     ds: seq<Dimension>)
    requires r.window > 0
  {
    && s.metrics == Rows(AddedBy(events, base + vs, r, ds))
    && s.converted == Converted(events, base + vs, r) && s.associations == AssociationsOf(events, vs, r)
  }

  method CountConversion(s: Settled, clicks: map<Link, Event>, joined: map<Link, Option<Event>>,
                         ghost events: seq<Event>, ghost base: seq<Event>, vs: seq<Event>, i: nat, r: Rules,
                         ds: seq<Dimension>)
    returns (s': Settled)
    requires r.window > 0 && i < |vs| && clicks == Table(events, Click) && vs[i].kind.Conversion?
    requires forall k :: k in clicks ==> k in joined && joined[k] == LinkedImpression(events, clicks[k], r)
    requires ConversionsCounted(s, events, base, vs[..i], r, ds)
    ensures ConversionsCounted(s', events, base, vs[..i + 1], r, ds)
  {
    var association, more, matched :=
      SettleConversion(events, clicks, joined, base + vs[..i], s.converted, vs[i], r, ds);
    OneMoreConverted(events, base, vs, i, r);
    OneMoreAssociation(events, vs, i, r);
    var metrics := AddEvent(s.metrics, more, events, base, vs, i, r, ds);
    s' := Settled(metrics, if matched then s.converted + {ClickLink(vs[i])} else s.converted,
                  s.associations + [association]);
  }

  method CountConversions(ghost events: seq<Event>, clicks: map<Link, Event>, joined: map<Link, Option<Event>>,
                          vs: seq<Event>, before: map<MetricKey, Tally>, ghost base: seq<Event>, r: Rules,
                          ds: seq<Dimension>)
    returns (s: Settled)
    requires r.window > 0 && clicks == Table(events, Click) && before == Rows(AddedBy(events, base, r, ds))
    requires forall k :: k in clicks ==> k in joined && joined[k] == LinkedImpression(events, clicks[k], r)
    requires (forall v :: v in vs ==> v.kind.Conversion?) && (forall e :: e in base ==> !e.kind.Conversion?)
    ensures ConversionsCounted(s, events, base, vs, r, ds)
  {
    s := Settled(before, {}, []);
    var i := 0;
    assert base + vs[..0] == base;
    while i < |vs|
      invariant 0 <= i <= |vs|
      invariant ConversionsCounted(s, events, base, vs[..i], r, ds)
    {
      assert vs[i] in vs;
      s := CountConversion(s, clicks, joined, events, base, vs, i, r, ds);
      i := i + 1;
    }
    assert vs[..i] == vs;
  }

  lemma {:induction false} TableHolds(events: seq<Event>, kind: Kind, k: Link)
    ensures k in Table(events, kind) <==> exists e :: e in events && e.kind == kind && BusinessKey(e).link == k
    ensures k in Table(events, kind) ==>
              Table(events, kind)[k] in events && Table(events, kind)[k].kind == kind
                  && BusinessKey(Table(events, kind)[k]).link == k
  {
    if events != [] {
      TableHolds(events[..|events| - 1], kind, k);
      assert events == events[..|events| - 1] + [events[|events| - 1]];
    }
  }

  lemma KindsAreSorted(events: seq<Event>, kind: Kind)
    ensures forall e :: e in Filter(events, OfKind(kind)) <==> e in events && e.kind == kind
  {
    forall e
      ensures e in Filter(events, OfKind(kind)) <==> e in events && e.kind == kind
    {
      FilterMember(events, OfKind(kind), e);
    }
  }

  lemma ClicksAreDistinct(events: seq<Event>)
    requires Distinct(events, BusinessKey)
    ensures Distinct(Filter(events, OfKind(Click)), ClickLink)
  {
    FilterDistinct(events, OfKind(Click), BusinessKey);
    KindsAreSorted(events, Click);
    var clicks := Filter(events, OfKind(Click));
    forall i, j | 0 <= i < j < |clicks|
      ensures ClickLink(clicks[i]) != ClickLink(clicks[j])
    {
      assert clicks[i] in clicks && clicks[j] in clicks;
      assert BusinessKey(clicks[i]) != BusinessKey(clicks[j]);
    }
  }

  /** Every tabulated click was joined to the impression it links to. */
  lemma ClicksAreJoined(events: seq<Event>, r: Rules)
    requires Distinct(events, BusinessKey)
    ensures var clicks, joined := Table(events, Click), Joins(events, Filter(events, OfKind(Click)), r);
            forall k :: k in clicks ==> k in joined && joined[k] == LinkedImpression(events, clicks[k], r)
  {
    var clicks := Table(events, Click);
    KindsAreSorted(events, Click);
    ClicksAreDistinct(events);
    forall k | k in clicks
      ensures k in Joins(events, Filter(events, OfKind(Click)), r)
              && Joins(events, Filter(events, OfKind(Click)), r)[k] == LinkedImpression(events, clicks[k], r)
    {
      TableHolds(events, Click, k);
      JoinsHold(events, Filter(events, OfKind(Click)), r, clicks[k]);
    }
  }

  method Calculate(events: seq<Event>, r: Rules, ds: seq<Dimension>)
    returns (metrics: map<MetricKey, Tally>, associations: seq<Association>, signals: seq<N.Quality>)
    requires r.window > 0 && Distinct(events, BusinessKey)
    ensures metrics == Rows(AddedBy(events, Ordered(events), r, ds))
    ensures signals == SignalsOf(events, Filter(events, OfKind(Click)), r)
    ensures associations == AssociationsOf(events, Filter(events, OfKind(Conversion)), r)
  {
    var impressions, shown := Index(events, Impression);
    var clicks, clicked := Index(events, Click);
    var _, conversions := Index(events, Conversion);
    KindsAreSorted(events, Impression);
    KindsAreSorted(events, Click);
    KindsAreSorted(events, Conversion);
    metrics := CountImpressions(events, shown, map[], [], r, ds);
    assert [] + shown == shown;
    var counted := CountClicks(events, impressions, clicked, metrics, shown, r, ds);
    ClicksAreJoined(events, r);
    var settled :=
      CountConversions(events, clicks, counted.joined, conversions, counted.metrics, shown + clicked, r, ds);
    metrics, associations, signals := settled.metrics, settled.associations, counted.signals;
  }
}
