/** The batch calculation over tables on disk: the same lineage, associations and metric rows as in memory, in the same
    order. */
module DiskReference {
  import opened Seqs
  import opened Events
  import opened Measurement
  import opened Tallies
  import opened Dimensions
  import opened Normalize
  import opened Oracle
  import opened Compare
  import opened Dictionaries
  import opened Sorting
  import opened Disk
  import opened Reference

  /** How everything that the calculation stores is written and read back. */
  datatype Codecs = Codecs(
    event: Codec<Event>, quality: Codec<Quality>, link: Codec<Link>, business: Codec<Business>, flag: Codec<bool>,
    joined: Codec<Option<Event>>, metric: Codec<MetricKey>, tally: Codec<Tally>, association: Codec<Association>)

  ghost predicate AllLawful(c: Codecs) {
    && Lawful(c.event) && Lawful(c.quality) && Lawful(c.link) && Lawful(c.business) && Lawful(c.flag)
    && Lawful(c.joined) && Lawful(c.metric) && Lawful(c.tally) && Lawful(c.association)
  }

  // The first pass.

  datatype CleanTables = CleanTables(
    events: DiskSequence<Event>, quality: DiskSequence<Quality>,
    seenIds: DiskMap<Link, bool>, seenKeys: DiskMap<Business, bool>)
  {
    ghost predicate Valid()
      reads events, quality, seenIds, seenKeys
    {
      events.Valid() && quality.Valid() && seenIds.Valid() && seenKeys.Valid()
    }

    ghost function Model(): State
      requires Valid()
      reads events, quality, seenIds, seenKeys
    {
      State(events.Model(), quality.Model(), Keys(seenIds.Model()), Keys(seenKeys.Model()))
    }
  }

  method RefuseOnDisk(t: CleanTables, x: Record, d: Disposition)
    requires t.Valid()
    modifies t.quality
    ensures t.Valid() && t.Model() == Say(old(t.Model()), x, d)
  {
    t.quality.Append(Quality(x.receipt, d));
  }

  method RepeatOnDisk(t: CleanTables, x: Record, id: Link, d: Disposition)
    requires t.Valid() && t.seenIds as object != t.seenKeys
    modifies t.quality, t.seenIds
    ensures t.Valid()
    ensures t.Model() == Say(old(t.Model()), x, d).(seenIds := old(t.Model()).seenIds + {id})
  {
    t.seenIds.Add(id, true);
    t.quality.Append(Quality(x.receipt, d));
  }

  method AcceptOnDisk(t: CleanTables, x: Record, e: Event)
    requires t.Valid() && t.seenIds as object != t.seenKeys
    modifies t.events, t.quality, t.seenIds, t.seenKeys
    ensures t.Valid()
    ensures var s := old(t.Model());
            t.Model() == Say(s, x, Cleaned).(events := s.events + [e], seenIds := s.seenIds + {EventIdKey(e)},
                                             seenKeys := s.seenKeys + {BusinessKey(e)})
  {
    t.seenIds.Add(EventIdKey(e), true);
    t.seenKeys.Add(BusinessKey(e), true);
    t.events.Append(e);
    t.quality.Append(Quality(x.receipt, Cleaned));
  }

  method TakeOnDisk(t: CleanTables, p: Policy, x: Record)
    requires t.Valid() && t.seenIds as object != t.seenKeys
    modifies t.events, t.quality, t.seenIds, t.seenKeys
    ensures t.Valid() && t.Model() == Take(p, old(t.Model()), x)
  {
    var refusal := Refusal(p, x);
    if refusal.Some? {
      RefuseOnDisk(t, x, refusal.value);
      return;
    }
    var e := CleanEvent(x);
    var idSeen := t.seenIds.Contains(EventIdKey(e));
    var keySeen := t.seenKeys.Contains(BusinessKey(e));
    if idSeen || keySeen {
      RepeatOnDisk(t, x, EventIdKey(e), if idSeen then DuplicateEventId else DuplicateBusinessKey);
    } else {
      AcceptOnDisk(t, x, e);
    }
  }

  method CreateCleanTables(c: Codecs) returns (t: CleanTables)
    requires AllLawful(c)
    ensures t.Valid() && t.seenIds as object != t.seenKeys && t.Model() == EMPTY
    ensures fresh(t.events) && fresh(t.quality) && fresh(t.seenIds) && fresh(t.seenKeys)
  {
    var events := new DiskSequence(c.event);
    var quality := new DiskSequence(c.quality);
    var seenIds := new DiskMap(c.link, c.flag);
    var seenKeys := new DiskMap(c.business, c.flag);
    t := CleanTables(events, quality, seenIds, seenKeys);
  }

  lemma TakenOneMore(p: Policy, records: seq<Record>, i: nat)
    requires i < |records|
    ensures TakeAll(p, records[..i + 1]) == Take(p, TakeAll(p, records[..i]), records[i])
  {
    assert records[..i + 1][..i] == records[..i];
  }

  method TakeNthOnDisk(t: CleanTables, p: Policy, records: seq<Record>, i: nat)
    requires t.Valid() && t.seenIds as object != t.seenKeys && i < |records| && t.Model() == TakeAll(p, records[..i])
    modifies t.events, t.quality, t.seenIds, t.seenKeys
    ensures t.Valid() && t.Model() == TakeAll(p, records[..i + 1])
  {
    TakenOneMore(p, records, i);
    TakeOnDisk(t, p, records[i]);
  }

  /** The first pass over tables that are empty. */
  method NormalizeOnDisk(t: CleanTables, p: Policy, records: seq<Record>)
    requires t.Valid() && t.seenIds as object != t.seenKeys && t.Model() == EMPTY
    modifies t.events, t.quality, t.seenIds, t.seenKeys
    ensures t.Valid() && t.Model() == TakeAll(p, records)
  {
    var i := 0;
    assert records[..0] == [];
    while i < |records|
      invariant 0 <= i <= |records| && t.Valid() && t.Model() == TakeAll(p, records[..i])
    {
      TakeNthOnDisk(t, p, records, i);
      i := i + 1;
    }
    assert records[..i] == records;
  }

  // The event tables.

  function EntriesOf(es: seq<Event>): (d: seq<Entry<Link, Event>>)
    ensures |d| == |es| && forall i :: 0 <= i < |es| ==> d[i] == Entry(BusinessKey(es[i]).link, es[i])
  {
    if es == [] then [] else EntriesOf(es[..|es| - 1]) + [Entry(BusinessKey(es[|es| - 1]).link, es[|es| - 1])]
  }

  lemma EntriesAreUnique(es: seq<Event>, kind: Kind)
    requires Distinct(es, BusinessKey) && forall e :: e in es ==> e.kind == kind
    ensures OneEntryPerKey(EntriesOf(es))
  {
    forall i, j | 0 <= i < j < |es|
      ensures EntriesOf(es)[i].key != EntriesOf(es)[j].key
    {
      assert es[i] in es && es[j] in es;
      assert BusinessKey(es[i]) != BusinessKey(es[j]);
    }
  }

  lemma KindIsListed(events: seq<Event>, kind: Kind)
    requires Distinct(events, BusinessKey)
    ensures OneEntryPerKey(EntriesOf(Filter(events, OfKind(kind))))
    ensures forall e :: e in Filter(events, OfKind(kind)) <==> e in events && e.kind == kind
  {
    FilterDistinct(events, OfKind(kind), BusinessKey);
    KindsAreSorted(events, kind);
    EntriesAreUnique(Filter(events, OfKind(kind)), kind);
  }

  lemma {:induction false} TableLookup(events: seq<Event>, kind: Kind, k: Link)
    requires Distinct(events, BusinessKey)
    ensures Lookup(EntriesOf(Filter(events, OfKind(kind))), k) == Find(Table(events, kind), k)
  {
    var es := Filter(events, OfKind(kind));
    KindIsListed(events, kind);
    TableHolds(events, kind, k);
    LookupIs(EntriesOf(es), k);
    forall i | 0 <= i < |es|
      ensures es[i] in events && es[i].kind == kind && EntriesOf(es)[i].key == BusinessKey(es[i]).link
    {
      assert es[i] in es;
    }
    if k in Table(events, kind) {
      var i :| 0 <= i < |es| && es[i] == Table(events, kind)[k];
      assert EntriesOf(es)[i] == Entry(k, es[i]);
    }
  }

  lemma OneMoreOfKind(es: seq<Event>, i: nat, kind: Kind)
    requires i < |es|
    ensures Filter(es[..i + 1], OfKind(kind))
         == if es[i].kind == kind then Filter(es[..i], OfKind(kind)) + [es[i]] else Filter(es[..i], OfKind(kind))
  {
    assert es[..i + 1] == es[..i] + [es[i]];
    FilterAppend(es[..i], [es[i]], OfKind(kind));
  }

  lemma {:induction false} PutNewEvent(before: seq<Event>, e: Event)
    requires OneEntryPerKey(EntriesOf(before + [e]))
    ensures OneEntryPerKey(EntriesOf(before))
    ensures Put(EntriesOf(before), BusinessKey(e).link, e) == EntriesOf(before + [e])
  {
    var d, all := EntriesOf(before), EntriesOf(before + [e]);
    assert (before + [e])[..|before|] == before && all == d + [Entry(BusinessKey(e).link, e)];
    forall i, j | 0 <= i < j < |d|
      ensures d[i].key != d[j].key
    {
      assert all[i] == d[i] && all[j] == d[j];
    }
    forall i | 0 <= i < |d|
      ensures d[i].key != BusinessKey(e).link
    {
      assert all[i].key != all[|d|].key;
    }
    LookupAbsent(d, BusinessKey(e).link);
    PutNew(d, BusinessKey(e).link, e);
  }

  /** The table of one kind, after these events have been read. */
  ghost predicate Indexes(table: DiskMap<Link, Event>, es: seq<Event>, kind: Kind)
    reads table
  {
    table.Valid() && table.Model() == EntriesOf(Filter(es, OfKind(kind)))
  }

  lemma PrefixDistinct(es: seq<Event>, i: nat)
    requires Distinct(es, BusinessKey) && i <= |es|
    ensures Distinct(es[..i], BusinessKey)
  {
  }

  method IndexEventOnDisk(table: DiskMap<Link, Event>, es: seq<Event>, i: nat, kind: Kind)
    requires i < |es| && Distinct(es, BusinessKey) && Indexes(table, es[..i], kind)
    modifies table
    ensures Indexes(table, es[..i + 1], kind)
  {
    OneMoreOfKind(es, i, kind);
    if es[i].kind == kind {
      PrefixDistinct(es, i + 1);
      KindIsListed(es[..i + 1], kind);
      PutNewEvent(Filter(es[..i], OfKind(kind)), es[i]);
      table.Set(BusinessKey(es[i]).link, es[i]);
    }
  }

  /** A dictionary of the events of one kind, filled by reading the clean events once. */
  method IndexOnDisk(events: DiskSequence<Event>, kind: Kind, c: Codecs) returns (table: DiskMap<Link, Event>)
    requires events.Valid() && AllLawful(c) && Distinct(events.Model(), BusinessKey)
    ensures fresh(table) && Indexes(table, events.Model(), kind)
  {
    var es := events.All();
    table := new DiskMap(c.link, c.event);
    var i := 0;
    while i < |es|
      invariant 0 <= i <= |es| && fresh(table) && Indexes(table, es[..i], kind)
    {
      IndexEventOnDisk(table, es, i, kind);
      i := i + 1;
    }
    assert es[..i] == es;
  }

  // The metric rows.

  /** Adding to a copy of a row: without the write back, the addition would be lost. */
  method AddOnDisk(metrics: DiskMap<MetricKey, Tally>, a: Addition)
    requires metrics.Valid()
    modifies metrics
    ensures metrics.Valid() && metrics.Model() == AddInMemory(old(metrics.Model()), a)
  {
    ghost var before := metrics.Model();
    var row := metrics.SetDefault(a.key, ZERO);
    row := Plus(row, a.values);
    if Lookup(before, a.key).None? { PutTwice(before, a.key, ZERO, row); }
    metrics.Set(a.key, row);
  }

  /** Adding to a dictionary, in order. */
  function AddMore(d: seq<Entry<MetricKey, Tally>>, more: seq<Addition>): seq<Entry<MetricKey, Tally>> {
    if more == [] then d else AddInMemory(AddMore(d, more[..|more| - 1]), more[|more| - 1])
  }

  lemma {:induction false} AddedMore(adds: seq<Addition>, more: seq<Addition>)
    ensures AddMore(AddAllInMemory(adds), more) == AddAllInMemory(adds + more)
  {
    if more == [] {
      assert adds + more == adds;
    } else {
      AddedMore(adds, more[..|more| - 1]);
      assert (adds + more)[..|adds + more| - 1] == adds + more[..|more| - 1];
    }
  }

  lemma AddOneMore(d: seq<Entry<MetricKey, Tally>>, more: seq<Addition>, n: nat)
    requires n < |more|
    ensures AddMore(d, more[..n + 1]) == AddInMemory(AddMore(d, more[..n]), more[n])
  {
    assert more[..n + 1][..n] == more[..n];
  }

  method AddAllInOrder(metrics: DiskMap<MetricKey, Tally>, more: seq<Addition>)
    requires metrics.Valid()
    modifies metrics
    ensures metrics.Valid() && metrics.Model() == AddMore(old(metrics.Model()), more)
  {
    ghost var before := metrics.Model();
    var n := 0;
    while n < |more|
      invariant 0 <= n <= |more| && metrics.Valid() && metrics.Model() == AddMore(before, more[..n])
    {
      AddOneMore(before, more, n);
      AddOnDisk(metrics, more[n]);
      n := n + 1;
    }
    assert more[..n] == more;
  }

  method AddAllOnDisk(metrics: DiskMap<MetricKey, Tally>, more: seq<Addition>, ghost adds: seq<Addition>)
    requires metrics.Valid() && metrics.Model() == AddAllInMemory(adds)
    modifies metrics
    ensures metrics.Valid() && metrics.Model() == AddAllInMemory(adds + more)
  {
    AddedMore(adds, more);
    AddAllInOrder(metrics, more);
  }

  /** The metric rows on disk are those that these events leave. */
  ghost predicate Counts(metrics: DiskMap<MetricKey, Tally>, events: seq<Event>, es: seq<Event>, r: Rules,
                         ds: seq<Dimension>)
    requires r.window > 0
    reads metrics
  {
    metrics.Valid() && metrics.Model() == AddAllInMemory(AddedBy(events, es, r, ds))
  }

  method AddEventOnDisk(metrics: DiskMap<MetricKey, Tally>, more: seq<Addition>, ghost events: seq<Event>,
                        ghost es: seq<Event>, ghost e: Event, ghost r: Rules, ghost ds: seq<Dimension>)
    requires r.window > 0 && Counts(metrics, events, es, r, ds)
    requires more == AdditionsOf(events, es, e, r, ds)
    modifies metrics
    ensures Counts(metrics, events, es + [e], r, ds)
  {
    assert (es + [e])[..|es + [e]| - 1] == es;
    AddAllOnDisk(metrics, more, AddedBy(events, es, r, ds));
  }

  lemma OneMore<T>(es: seq<T>, i: nat)
    requires i < |es|
    ensures es[..i + 1] == es[..i] + [es[i]]
  {
  }

  lemma OneMoreAfter<T>(base: seq<T>, es: seq<T>, i: nat)
    requires i < |es|
    ensures base + es[..i + 1] == base + es[..i] + [es[i]]
  {
  }

  method CountImpressionOnDisk(metrics: DiskMap<MetricKey, Tally>, e: Event, ghost events: seq<Event>,
                               ghost shown: seq<Event>, ghost i: nat, r: Rules, ds: seq<Dimension>)
    requires r.window > 0 && i < |shown| && shown[i] == e && e.kind.Impression?
    requires Counts(metrics, events, shown[..i], r, ds)
    modifies metrics
    ensures Counts(metrics, events, shown[..i + 1], r, ds)
  {
    OneMore(shown, i);
    AddEventOnDisk(metrics, ImpressionAdditions(e, r, ds), events, shown[..i], e, r, ds);
  }

  /** The impressions, read in the order in which they were stored. */
  method CountImpressionsOnDisk(metrics: DiskMap<MetricKey, Tally>, shown: seq<Event>, ghost events: seq<Event>,
                                r: Rules, ds: seq<Dimension>)
    requires r.window > 0 && (forall e :: e in shown ==> e.kind.Impression?) && Counts(metrics, events, [], r, ds)
    modifies metrics
    ensures Counts(metrics, events, shown, r, ds)
  {
    var i := 0;
    assert shown[..0] == [];
    while i < |shown|
      invariant 0 <= i <= |shown| && Counts(metrics, events, shown[..i], r, ds)
    {
      assert shown[i] in shown;
      CountImpressionOnDisk(metrics, shown[i], events, shown, i, r, ds);
      i := i + 1;
    }
    assert shown[..i] == shown;
  }

  // The clicks.

  /** The links and the lineage on disk. */
  ghost predicate Links(joined: DiskMap<Link, Option<Event>>, quality: DiskSequence<Quality>,
                        links: map<Link, Option<Event>>, lineage: seq<Quality>)
    reads joined, quality
  {
    joined.Valid() && Represents(joined.Model(), links) && quality.Valid() && quality.Model() == lineage
  }

  method FindOnDisk(table: DiskMap<Link, Event>, k: Link, ghost events: seq<Event>, ghost kind: Kind)
    returns (e: Option<Event>)
    requires Indexes(table, events, kind) && Distinct(events, BusinessKey)
    ensures e == Find(Table(events, kind), k)
  {
    TableLookup(events, kind, k);
    e := table.Get(k);
  }

  method SignalOnDisk(quality: DiskSequence<Quality>, receipt: string, reason: LinkReason)
    requires quality.Valid()
    modifies quality
    ensures quality.Valid()
    ensures quality.Model()
         == old(quality.Model()) + if reason.LinkOK? then [] else [Quality(receipt, LinkSignal(reason))]
  {
    if !reason.LinkOK? { quality.Append(Quality(receipt, LinkSignal(reason))); }
  }

  method LinkOnDisk(impressions: DiskMap<Link, Event>, quality: DiskSequence<Quality>, ghost events: seq<Event>,
                    e: Event, r: Rules)
    returns (impression: Option<Event>)
    requires quality.Valid() && Indexes(impressions, events, Impression) && Distinct(events, BusinessKey)
    modifies quality
    ensures quality.Valid() && quality.Model() == old(quality.Model()) + SignalOf(events, e, r)
    ensures impression == LinkedImpression(events, e, r)
  {
    impression := FindOnDisk(impressions, ImpressionLink(e), events, Impression);
    var reason := LinkReasonOf(impression, e, r);
    SignalOnDisk(quality, e.receipt, reason);
    if !reason.LinkOK? { impression := None; }
  }

  /** A dictionary that is to hold what `m` holds, given one more entry. */
  method NoteOnDisk<V(==, !new)>(table: DiskMap<Link, V>, key: Link, value: V, ghost m: map<Link, V>)
    requires table.Valid() && Represents(table.Model(), m)
    modifies table
    ensures table.Valid() && Represents(table.Model(), m[key := value])
  {
    RepresentsPut(table.Model(), m, key, value);
    table.Set(key, value);
  }

  method LinkClickOnDisk(impressions: DiskMap<Link, Event>, joined: DiskMap<Link, Option<Event>>,
                         quality: DiskSequence<Quality>, ghost events: seq<Event>, e: Event,
                         ghost links: map<Link, Option<Event>>, ghost lineage: seq<Quality>, r: Rules)
    returns (impression: Option<Event>)
    requires Indexes(impressions, events, Impression) && Distinct(events, BusinessKey)
    requires Links(joined, quality, links, lineage)
    modifies joined, quality
    ensures Links(joined, quality, links[ClickLink(e) := impression], lineage + SignalOf(events, e, r))
    ensures impression == LinkedImpression(events, e, r)
  {
    impression := LinkOnDisk(impressions, quality, events, e, r);
    NoteOnDisk(joined, ClickLink(e), impression, links);
  }

  method CountClickOnDisk(metrics: DiskMap<MetricKey, Tally>, e: Event, impression: Option<Event>,
                          ghost events: seq<Event>, ghost base: seq<Event>, ghost clicks: seq<Event>, ghost i: nat,
                          r: Rules, ds: seq<Dimension>)
    requires r.window > 0 && i < |clicks| && clicks[i] == e && e.kind.Click?
    requires impression == LinkedImpression(events, e, r) && Counts(metrics, events, base + clicks[..i], r, ds)
    modifies metrics
    ensures Counts(metrics, events, base + clicks[..i + 1], r, ds)
  {
    OneMoreAfter(base, clicks, i);
    AddEventOnDisk(metrics, ClickAdditions(e, impression, r, ds), events, base + clicks[..i], e, r, ds);
  }

  lemma OneMoreLinked(events: seq<Event>, clicks: seq<Event>, i: nat, lineage: seq<Quality>, r: Rules)
    requires i < |clicks|
    ensures lineage + SignalsOf(events, clicks[..i + 1], r)
         == lineage + SignalsOf(events, clicks[..i], r) + SignalOf(events, clicks[i], r)
    ensures Joins(events, clicks[..i + 1], r)
         == Joins(events, clicks[..i], r)[ClickLink(clicks[i]) := LinkedImpression(events, clicks[i], r)]
  {
    OneMoreClick(events, clicks, i, r);
  }

  /** The table that clicks are linked by, and those that they change. */
  datatype ClickTables = ClickTables(
    impressions: DiskMap<Link, Event>, joined: DiskMap<Link, Option<Event>>, quality: DiskSequence<Quality>,
    metrics: DiskMap<MetricKey, Tally>)

  predicate ClicksApart(t: ClickTables) {
    t.joined as object != t.metrics && t.impressions as object != t.joined && t.impressions as object != t.metrics
  }

  /** What the tables hold after these clicks. */
  ghost predicate ClicksOnDisk(t: ClickTables, events: seq<Event>, base: seq<Event>, clicks: seq<Event>,
                               lineage: seq<Quality>, r: Rules, ds: seq<Dimension>)
    requires r.window > 0
    reads t.impressions, t.joined, t.quality, t.metrics
  {
    match t
    case ClickTables(impressions, joined, quality, metrics) =>
      && Indexes(impressions, events, Impression) && Counts(metrics, events, base + clicks, r, ds)
      && Links(joined, quality, Joins(events, clicks, r), lineage + SignalsOf(events, clicks, r))
  }

  method TakeClickOnDisk(t: ClickTables, clicks: seq<Event>, i: nat, ghost events: seq<Event>, ghost base: seq<Event>,
                         ghost lineage: seq<Quality>, r: Rules, ds: seq<Dimension>)
    requires r.window > 0 && i < |clicks| && clicks[i].kind.Click? && Distinct(events, BusinessKey) && ClicksApart(t)
    requires ClicksOnDisk(t, events, base, clicks[..i], lineage, r, ds)
    modifies t.joined, t.quality, t.metrics
    ensures ClicksOnDisk(t, events, base, clicks[..i + 1], lineage, r, ds)
  {
    ghost var links, lines := Joins(events, clicks[..i], r), lineage + SignalsOf(events, clicks[..i], r);
    var impression := LinkClickOnDisk(t.impressions, t.joined, t.quality, events, clicks[i], links, lines, r);
    OneMoreLinked(events, clicks, i, lineage, r);
    CountClickOnDisk(t.metrics, clicks[i], impression, events, base, clicks, i, r, ds);
  }

  /** The clicks, read in the order in which they were stored. */
  method TakeClicksOnDisk(t: ClickTables, clicks: seq<Event>, ghost events: seq<Event>, ghost base: seq<Event>,
                          ghost lineage: seq<Quality>, r: Rules, ds: seq<Dimension>)
    requires r.window > 0 && (forall e :: e in clicks ==> e.kind.Click?) && Distinct(events, BusinessKey)
    requires ClicksApart(t) && ClicksOnDisk(t, events, base, [], lineage, r, ds)
    modifies t.joined, t.quality, t.metrics
    ensures ClicksOnDisk(t, events, base, clicks, lineage, r, ds)
  {
    var i := 0;
    assert clicks[..0] == [];
    while i < |clicks|
      invariant 0 <= i <= |clicks| && ClicksOnDisk(t, events, base, clicks[..i], lineage, r, ds)
    {
      assert clicks[i] in clicks;
      TakeClickOnDisk(t, clicks, i, events, base, lineage, r, ds);
      i := i + 1;
    }
    assert clicks[..i] == clicks;
  }

  // The conversions.

  /** The clicks that were claimed and the associations, on disk. */
  ghost predicate Settles(converted: DiskMap<Link, bool>, associations: DiskSequence<Association>, claimed: set<Link>,
                          said: seq<Association>)
    reads converted, associations
  {
    converted.Valid() && Keys(converted.Model()) == claimed && associations.Valid() && associations.Model() == said
  }

  /** The tables that the conversions are looked up in. */
  ghost predicate Known(clicks: DiskMap<Link, Event>, joined: DiskMap<Link, Option<Event>>, events: seq<Event>,
                        r: Rules)
    reads clicks, joined
  {
    && Indexes(clicks, events, Click) && joined.Valid()
    && Represents(joined.Model(), Joins(events, Filter(events, OfKind(Click)), r))
  }

  lemma JoinsAnswer(events: seq<Event>, v: Event, r: Rules)
    requires Distinct(events, BusinessKey) && ClickOf(events, v).Some?
    ensures var joins := Joins(events, Filter(events, OfKind(Click)), r);
            ClickLink(v) in joins && joins[ClickLink(v)] == JoinedOf(events, v, r)
  {
    TableHolds(events, Click, ClickLink(v));
    KindsAreSorted(events, Click);
    ClicksAreDistinct(events);
    JoinsHold(events, Filter(events, OfKind(Click)), r, ClickOf(events, v).value);
  }

  method JudgeOnDisk(clicks: DiskMap<Link, Event>, joined: DiskMap<Link, Option<Event>>, ghost events: seq<Event>,
                     e: Event, r: Rules)
    returns (click: Option<Event>, reason: MatchReason, impression: Option<Event>)
    requires Known(clicks, joined, events, r) && Distinct(events, BusinessKey)
    ensures click == ClickOf(events, e) && reason == MatchReasonOf(click, e, r)
    ensures impression == if reason.Matched? then JoinedOf(events, e, r) else None
  {
    click := FindOnDisk(clicks, ClickLink(e), events, Click);
    reason := MatchReasonOf(click, e, r);
    impression := None;
    if reason.Matched? {
      JoinsAnswer(events, e, r);
      var held := joined.Get(ClickLink(e));
      if held.Some? { impression := held.value; }
    }
  }

  method SettleOnDisk(converted: DiskMap<Link, bool>, associations: DiskSequence<Association>, a: Association, k: Link,
                      matched: bool, ghost claimed: set<Link>, ghost said: seq<Association>)
    returns (first: bool)
    requires Settles(converted, associations, claimed, said)
    modifies converted, associations
    ensures Settles(converted, associations, if matched then claimed + {k} else claimed, said + [a])
    ensures first <==> k !in claimed
  {
    associations.Append(a);
    var held := converted.Contains(k);
    first := !held;
    if matched { converted.Add(k, true); }
  }

  lemma OneMoreSettled(events: seq<Event>, base: seq<Event>, vs: seq<Event>, i: nat, r: Rules)
    requires i < |vs| && vs[i].kind.Conversion?
    ensures Converted(events, base + vs[..i + 1], r)
         == if IsMatched(events, vs[i], r) then Converted(events, base + vs[..i], r) + {ClickLink(vs[i])}
            else Converted(events, base + vs[..i], r)
    ensures AssociationsOf(events, vs[..i + 1], r)
            == AssociationsOf(events, vs[..i], r) + [AssociationOf(events, vs[i], r)]
  {
    OneMoreConverted(events, base, vs, i, r);
    OneMoreAssociation(events, vs, i, r);
  }

  /** What is said of a conversion, from its click and the link of that click. */
  function Said(v: Event, reason: MatchReason, impression: Option<Event>): Association {
    Association(
      ConversionLink(v), ClickLink(v), if reason.Matched? then MatchedStatus else Unmatched, reason,
      if impression.Some? then impression.value.experiment else "unknown",
      if impression.Some? then impression.value.variant else "unknown", v.time, v.receipt)
  }

  /** Judged from the tables, a conversion is said and adds what the calculation says and adds. */
  lemma JudgedAlike(events: seq<Event>, before: seq<Event>, v: Event, click: Option<Event>, reason: MatchReason,
                    impression: Option<Event>, first: bool, r: Rules, ds: seq<Dimension>)
    requires r.window > 0 && v.kind.Conversion? && click == ClickOf(events, v) && reason == MatchReasonOf(click, v, r)
    requires impression == (if reason.Matched? then JoinedOf(events, v, r) else None)
    requires first <==> ClickLink(v) !in Converted(events, before, r)
    ensures Said(v, reason, impression) == AssociationOf(events, v, r) && (reason.Matched? <==> IsMatched(events, v, r))
    ensures ConversionAdditions(v, click, impression, first, r, ds) == AdditionsOf(events, before, v, r, ds)
  {
    LinkMattersOnlyIfMatched(v, click, impression, JoinedOf(events, v, r), first, r, ds);
  }

  method TakeConversionOnDisk(clicks: DiskMap<Link, Event>, joined: DiskMap<Link, Option<Event>>,
                              converted: DiskMap<Link, bool>, associations: DiskSequence<Association>, v: Event,
                              ghost events: seq<Event>, ghost before: seq<Event>, ghost said: seq<Association>,
                                  r: Rules,
                              ds: seq<Dimension>)
    returns (more: seq<Addition>)
    requires r.window > 0 && v.kind.Conversion? && Known(clicks, joined, events, r) && Distinct(events, BusinessKey)
    requires Settles(converted, associations, Converted(events, before, r), said)
    modifies converted, associations
    ensures Settles(converted, associations,
                    if IsMatched(events, v, r) then Converted(events, before, r) + {ClickLink(v)}
                    else Converted(events, before, r),
                    said + [AssociationOf(events, v, r)])
    ensures more == AdditionsOf(events, before, v, r, ds)
  {
    ghost var claimed := Converted(events, before, r);
    var click, reason, impression := JudgeOnDisk(clicks, joined, events, v, r);
    var first := SettleOnDisk(converted, associations, Said(v, reason, impression), ClickLink(v), reason.Matched?,
                              claimed, said);
    JudgedAlike(events, before, v, click, reason, impression, first, r, ds);
    more := ConversionAdditions(v, click, impression, first, r, ds);
  }

  /** The tables that conversions are looked up in, and those that they change. */
  datatype ConversionTables = ConversionTables(
    clicks: DiskMap<Link, Event>, joined: DiskMap<Link, Option<Event>>, converted: DiskMap<Link, bool>,
    associations: DiskSequence<Association>, metrics: DiskMap<MetricKey, Tally>)

  predicate Apart(t: ConversionTables) {
    && t.clicks as object != t.converted && t.clicks as object != t.metrics && t.joined as object != t.converted
    && t.joined as object != t.metrics && t.converted as object != t.metrics
  }

  /** What the tables hold after these conversions. */
  ghost predicate ConversionsOnDisk(t: ConversionTables, events: seq<Event>, base: seq<Event>, vs: seq<Event>, r: Rules,
                                    ds: seq<Dimension>)
    requires r.window > 0
    reads t.clicks, t.joined, t.converted, t.associations, t.metrics
  {
    match t
    case ConversionTables(clicks, joined, converted, associations, metrics) =>
      && Known(clicks, joined, events, r) && Counts(metrics, events, base + vs, r, ds)
      && Settles(converted, associations, Converted(events, base + vs, r), AssociationsOf(events, vs, r))
  }

  method CountConversionOnDisk(t: ConversionTables, vs: seq<Event>, i: nat, ghost events: seq<Event>,
                               ghost base: seq<Event>, r: Rules, ds: seq<Dimension>)
    requires r.window > 0 && i < |vs| && vs[i].kind.Conversion? && Distinct(events, BusinessKey) && Apart(t)
    requires ConversionsOnDisk(t, events, base, vs[..i], r, ds)
    modifies t.converted, t.associations, t.metrics
    ensures ConversionsOnDisk(t, events, base, vs[..i + 1], r, ds)
  {
    ghost var before, said := base + vs[..i], AssociationsOf(events, vs[..i], r);
    OneMoreAfter(base, vs, i);
    OneMoreSettled(events, base, vs, i, r);
    var more :=
      TakeConversionOnDisk(t.clicks, t.joined, t.converted, t.associations, vs[i], events, before, said, r, ds);
    AddEventOnDisk(t.metrics, more, events, before, vs[i], r, ds);
  }

  method CountConversionsOnDisk(t: ConversionTables, vs: seq<Event>, ghost events: seq<Event>, ghost base: seq<Event>,
                                r: Rules, ds: seq<Dimension>)
    requires r.window > 0 && (forall v :: v in vs ==> v.kind.Conversion?) && Distinct(events, BusinessKey) && Apart(t)
    requires ConversionsOnDisk(t, events, base, [], r, ds)
    modifies t.converted, t.associations, t.metrics
    ensures ConversionsOnDisk(t, events, base, vs, r, ds)
  {
    var i := 0;
    assert vs[..0] == [];
    while i < |vs|
      invariant 0 <= i <= |vs| && ConversionsOnDisk(t, events, base, vs[..i], r, ds)
    {
      assert vs[i] in vs;
      CountConversionOnDisk(t, vs, i, events, base, r, ds);
      i := i + 1;
    }
    assert vs[..i] == vs;
  }

  // The calculation.

  lemma ValuesOfEntries(es: seq<Event>)
    ensures Dictionaries.Values(EntriesOf(es)) == es
  {
  }

  /** The events of one kind, in the order in which they are found. */
  method ListOnDisk(events: DiskSequence<Event>, kind: Kind) returns (es: seq<Event>)
    requires events.Valid()
    ensures es == Filter(events.Model(), OfKind(kind))
  {
    var all := events.All();
    es := [];
    var i := 0;
    while i < |all|
      invariant 0 <= i <= |all| && es == Filter(all[..i], OfKind(kind))
    {
      OneMoreOfKind(all, i, kind);
      if all[i].kind == kind { es := es + [all[i]]; }
      i := i + 1;
    }
    assert all[..i] == all;
  }

  /** The values of an event table: the events of its kind. */
  method ValuesOnDisk(table: DiskMap<Link, Event>, ghost events: seq<Event>, ghost kind: Kind) returns (es: seq<Event>)
    requires Indexes(table, events, kind)
    ensures es == Filter(events, OfKind(kind)) && forall e :: e in es ==> e.kind == kind
  {
    ValuesOfEntries(Filter(events, OfKind(kind)));
    KindsAreSorted(events, kind);
    es := table.Values();
  }

  lemma NoClicksYet(t: ClickTables, events: seq<Event>, base: seq<Event>, lineage: seq<Quality>, r: Rules,
                    ds: seq<Dimension>)
    requires r.window > 0 && Indexes(t.impressions, events, Impression) && Counts(t.metrics, events, base, r, ds)
    requires t.joined.Valid() && t.joined.Model() == [] && t.quality.Valid() && t.quality.Model() == lineage
    ensures ClicksOnDisk(t, events, base, [], lineage, r, ds)
  {
    assert base + [] == base && lineage + [] == lineage;
  }

  /** Metric rows, links and signals of the impressions and the clicks, from tables that are empty. */
  method CountExposureOnDisk(t: ClickTables, shown: seq<Event>, clicked: seq<Event>, ghost events: seq<Event>,
                             ghost lineage: seq<Quality>, r: Rules, ds: seq<Dimension>)
    requires r.window > 0 && Distinct(events, BusinessKey) && ClicksApart(t)
             && Indexes(t.impressions, events, Impression)
    requires (forall e :: e in shown ==> e.kind.Impression?) && forall e :: e in clicked ==> e.kind.Click?
    requires t.joined.Valid() && t.joined.Model() == [] && t.metrics.Valid() && t.metrics.Model() == []
    requires t.quality.Valid() && t.quality.Model() == lineage
    modifies t.joined, t.quality, t.metrics
    ensures ClicksOnDisk(t, events, shown, clicked, lineage, r, ds)
  {
    CountImpressionsOnDisk(t.metrics, shown, events, r, ds);
    NoClicksYet(t, events, shown, lineage, r, ds);
    TakeClicksOnDisk(t, clicked, events, shown, lineage, r, ds);
  }

  lemma NoConversionsYet(t: ConversionTables, events: seq<Event>, base: seq<Event>, r: Rules, ds: seq<Dimension>)
    requires r.window > 0 && Known(t.clicks, t.joined, events, r) && Counts(t.metrics, events, base, r, ds)
    requires t.converted.Valid() && t.converted.Model() == [] && t.associations.Valid() && t.associations.Model() == []
    requires forall e :: e in base ==> !e.kind.Conversion?
    ensures ConversionsOnDisk(t, events, base, [], r, ds)
  {
    assert base + [] == base;
    assert Converted(events, base, r) == {};
  }

  /** What is counted before the conversions. */
  function ExposureOf(events: seq<Event>): seq<Event> {
    Filter(events, OfKind(Impression)) + Filter(events, OfKind(Click))
  }

  lemma ExposureIsKnown(t: ClickTables, clicks: DiskMap<Link, Event>, events: seq<Event>, lineage: seq<Quality>,
                        r: Rules, ds: seq<Dimension>)
    requires r.window > 0 && Indexes(clicks, events, Click)
    requires ClicksOnDisk(t, events, Filter(events, OfKind(Impression)), Filter(events, OfKind(Click)), lineage, r, ds)
    ensures Known(clicks, t.joined, events, r) && Counts(t.metrics, events, ExposureOf(events), r, ds)
    ensures t.quality.Valid()
    ensures t.quality.Model() == lineage + SignalsOf(events, Filter(events, OfKind(Click)), r)
  {
  }

  /** Tables for the clicks, with nothing in those that counting fills. */
  method CreateClickTables(impressions: DiskMap<Link, Event>, quality: DiskSequence<Quality>, c: Codecs)
    returns (t: ClickTables)
    requires AllLawful(c)
    ensures t.impressions == impressions && t.quality == quality && fresh(t.joined) && fresh(t.metrics)
    ensures t.joined.Valid() && t.joined.Model() == [] && t.metrics.Valid() && t.metrics.Model() == []
    ensures t.joined as object != t.metrics
  {
    var joined := new DiskMap(c.link, c.joined);
    var metrics := new DiskMap(c.metric, c.tally);
    t := ClickTables(impressions, joined, quality, metrics);
  }

  /** The event tables of the exposure, and empty tables beside them. */
  method PrepareExposure(events: DiskSequence<Event>, quality: DiskSequence<Quality>, c: Codecs)
    returns (clicks: DiskMap<Link, Event>, t: ClickTables)
    requires AllLawful(c) && events.Valid() && Distinct(events.Model(), BusinessKey)
    ensures Indexes(t.impressions, events.Model(), Impression) && Indexes(clicks, events.Model(), Click)
    ensures t.quality == quality && fresh(clicks) && fresh(t.impressions) && fresh(t.joined) && fresh(t.metrics)
    ensures t.joined.Valid() && t.joined.Model() == [] && t.metrics.Valid() && t.metrics.Model() == []
    ensures ClicksApart(t) && clicks as object != t.joined && clicks as object != t.metrics
  {
    var impressions := IndexOnDisk(events, Impression, c);
    clicks := IndexOnDisk(events, Click, c);
    t := CreateClickTables(impressions, quality, c);
  }

  /** Metric rows, links and signals of the exposure. */
  method ExposeOnDisk(t: ClickTables, clicks: DiskMap<Link, Event>, ghost events: seq<Event>,
                      ghost lineage: seq<Quality>, r: Rules, ds: seq<Dimension>)
    requires r.window > 0 && Distinct(events, BusinessKey) && ClicksApart(t)
    requires Indexes(t.impressions, events, Impression) && Indexes(clicks, events, Click)
    requires t.joined.Valid() && t.joined.Model() == [] && t.metrics.Valid() && t.metrics.Model() == []
    requires t.quality.Valid() && t.quality.Model() == lineage
    requires clicks as object != t.joined && clicks as object != t.metrics
    modifies t.joined, t.quality, t.metrics
    ensures Known(clicks, t.joined, events, r) && Counts(t.metrics, events, ExposureOf(events), r, ds)
    ensures t.quality.Valid()
    ensures t.quality.Model() == lineage + SignalsOf(events, Filter(events, OfKind(Click)), r)
  {
    var shown := ValuesOnDisk(t.impressions, events, Impression);
    var clicked := ValuesOnDisk(clicks, events, Click);
    CountExposureOnDisk(t, shown, clicked, events, lineage, r, ds);
    ExposureIsKnown(t, clicks, events, lineage, r, ds);
  }

  lemma ConversionsAreDone(t: ConversionTables, events: seq<Event>, r: Rules, ds: seq<Dimension>)
    requires r.window > 0
    requires ConversionsOnDisk(t, events, ExposureOf(events), Filter(events, OfKind(Conversion)), r, ds)
    ensures t.metrics.Valid() && t.metrics.Model() == AddAllInMemory(AddedIn(events, r, ds))
    ensures t.associations.Valid() && t.associations.Model() == AssociationsIn(events, r)
  {
  }

  lemma ExposureHasNoConversions(events: seq<Event>)
    ensures forall e :: e in ExposureOf(events) ==> !e.kind.Conversion?
  {
    KindsAreSorted(events, Impression);
    KindsAreSorted(events, Click);
  }

  /** Empty tables for the conversions, beside what the exposure left. */
  method CreateConversionTables(clicks: DiskMap<Link, Event>, joined: DiskMap<Link, Option<Event>>,
                                metrics: DiskMap<MetricKey, Tally>, ghost events: seq<Event>, r: Rules,
                                ds: seq<Dimension>, c: Codecs)
    returns (t: ConversionTables)
    requires r.window > 0 && AllLawful(c) && clicks as object != metrics && joined as object != metrics
    requires Known(clicks, joined, events, r) && Counts(metrics, events, ExposureOf(events), r, ds)
    ensures t.clicks == clicks && t.joined == joined && t.metrics == metrics && Apart(t)
    ensures fresh(t.converted) && fresh(t.associations) && ConversionsOnDisk(t, events, ExposureOf(events), [], r, ds)
  {
    var converted := new DiskMap(c.link, c.flag);
    var associations := new DiskSequence(c.association);
    t := ConversionTables(clicks, joined, converted, associations, metrics);
    ExposureHasNoConversions(events);
    NoConversionsYet(t, events, ExposureOf(events), r, ds);
  }

  /** The conversions: their associations, and the metric rows completed. */
  method ConvertOnDisk(t: ConversionTables, vs: seq<Event>, ghost events: seq<Event>, r: Rules, ds: seq<Dimension>)
    requires r.window > 0 && Distinct(events, BusinessKey) && Apart(t) && vs == Filter(events, OfKind(Conversion))
    requires ConversionsOnDisk(t, events, ExposureOf(events), [], r, ds)
    modifies t.converted, t.associations, t.metrics
    ensures t.metrics.Valid() && t.metrics.Model() == AddAllInMemory(AddedIn(events, r, ds))
    ensures t.associations.Valid() && t.associations.Model() == AssociationsIn(events, r)
  {
    KindsAreSorted(events, Conversion);
    CountConversionsOnDisk(t, vs, events, ExposureOf(events), r, ds);
    ConversionsAreDone(t, events, r, ds);
  }

  lemma ResultsCommute(d: seq<Entry<MetricKey, Tally>>, texts: Texts)
    requires OneEntryPerKey(d) && Canonical(texts)
    ensures Distinct(d, ByKey(texts.metric))
    ensures ResultsOf(SortBy(d, ByKey(texts.metric))) == SortBy(ResultsOf(d), ByMetric(texts))
  {
    var sorted := SortBy(d, ByKey(texts.metric));
    SortIncreases(d, ByKey(texts.metric));
    RowNamesAreDistinct(d, texts);
    SortIncreases(ResultsOf(d), ByMetric(texts));
    forall m
      ensures m in ResultsOf(sorted) <==> m in SortBy(ResultsOf(d), ByMetric(texts))
    {
      SortMember(d, ByKey(texts.metric), Entry(m.key, m.values));
      SortMember(ResultsOf(d), ByMetric(texts), m);
      ResultsMember(sorted, m);
      ResultsMember(d, m);
    }
    OneListing(ResultsOf(sorted), SortBy(ResultsOf(d), ByMetric(texts)), ByMetric(texts));
  }

  lemma ResultsMember(d: seq<Entry<MetricKey, Tally>>, m: MetricResult)
    ensures m in ResultsOf(d) <==> Entry(m.key, m.values) in d
  {
    if m in ResultsOf(d) {
      var i :| 0 <= i < |d| && ResultsOf(d)[i] == m;
      assert d[i] == Entry(m.key, m.values);
    }
    if Entry(m.key, m.values) in d {
      var i :| 0 <= i < |d| && d[i] == Entry(m.key, m.values);
      assert ResultsOf(d)[i] == m;
    }
  }

  /** The results, each table listed by the names of its rows. */
  method ListResults(metrics: DiskMap<MetricKey, Tally>, associations: DiskSequence<Association>, texts: Texts)
    returns (output: Output)
    requires metrics.Valid() && associations.Valid() && Canonical(texts)
    requires Distinct(associations.Model(), ByAssociation(texts))
    ensures output == Output(SortBy(ResultsOf(metrics.Model()), ByMetric(texts)),
                             SortBy(associations.Model(), ByAssociation(texts)))
  {
    ResultsCommute(metrics.Model(), texts);
    var rows := metrics.Ordered(texts.metric);
    var listed := associations.Ordered(ByAssociation(texts));
    output := Output(ResultsOf(rows), listed);
  }

  /** The metric rows, associations and signals of clean events, with every container on disk. */
  method AttributeOnDisk(events: DiskSequence<Event>, quality: DiskSequence<Quality>, ghost es: seq<Event>,
                         ghost lineage: seq<Quality>, r: Rules, ds: seq<Dimension>, c: Codecs)
    returns (t: ConversionTables)
    requires r.window > 0 && AllLawful(c) && events.Valid() && events.Model() == es && Distinct(es, BusinessKey)
    requires quality.Valid() && quality.Model() == lineage
    modifies quality
    ensures quality.Valid() && quality.Model() == lineage + SignalsOf(es, Filter(es, OfKind(Click)), r)
    ensures t.metrics.Valid() && t.metrics.Model() == AddAllInMemory(AddedIn(es, r, ds))
    ensures t.associations.Valid() && t.associations.Model() == AssociationsIn(es, r)
  {
    var vs := ListOnDisk(events, Conversion);
    var clicks, exposure := PrepareExposure(events, quality, c);
    ExposeOnDisk(exposure, clicks, es, lineage, r, ds);
    t := CreateConversionTables(clicks, exposure.joined, exposure.metrics, es, r, ds, c);
    ConvertOnDisk(t, vs, es, r, ds);
  }

  /** Everything on disk, the result is that of the calculation in memory: the same lineage, the same associations and
      the same metric rows, in the same order. */
  method CalculateOnDisk(p: Policy, r: Rules, ds: seq<Dimension>, texts: Texts, records: seq<Record>, c: Codecs)
    returns (result: Result)
    requires r.window > 0 && Canonical(texts) && AllLawful(c)
    ensures result == ResultOf(p, r, ds, texts, records)
  {
    var t := CreateCleanTables(c);
    NormalizeOnDisk(t, p, records);
    ghost var s := TakeAll(p, records);
    KeysAreUnique(p, records);
    NamesAreDistinct(s.events, r, texts);
    var clean := t.events.Count();
    var tables := AttributeOnDisk(t.events, t.quality, s.events, s.quality, r, ds, c);
    var quality := t.quality.All();
    var output := ListResults(tables.metrics, tables.associations, texts);
    result := Result(quality, |records|, clean, output);
  }
}
