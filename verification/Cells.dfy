/** Every cell of the calculation as a count of events: which events a metric row counts, said of their fields, of the
    impression and the click that they are attributed to, and of the row. */
module Cells {
  import opened Seqs
  import opened Events
  import opened Measurement
  import opened Tallies
  import opened Dimensions
  import opened Oracle
  import opened Attribution
  import B = Batch
  import BT = BatchTotals
  import P = Pipeline
  import RO = Reordering

  /** The row holds the instant `t` of an event attributed to `i`, in this cohort and currency. */
  predicate InCell(key: MetricKey, e: Event, i: Option<Event>, t: nat, cohort: Cohort, currency: string, r: Rules,
                   ds: seq<Dimension>)
    requires r.window > 0
  {
    var whose := if i.Some? then i.value else e;
    && key.row.advertiser == e.advertiser && key.row.app == e.app
    && key.row.campaign == whose.campaign && key.row.region == whose.region && key.row.appVersion == whose.appVersion
    && key.row.experiment == (if i.Some? then i.value.experiment else "unknown")
    && key.row.variant == (if i.Some? then i.value.variant else "unknown")
    && key.row.currency == currency && key.row.cohort == cohort
    && key.row.window <= t < key.row.window + r.window && key.row.window % r.window == 0
    && key.channel == ChannelAt(ds, whose.campaign, t)
  }

  lemma MultipleIsLarge(d: int, w: int)
    requires w > 0
    ensures (d >= 1 ==> w <= d * w) && (d <= -1 ==> d * w <= -w)
  {
  }

  lemma SmallMultiple(d: int, w: int)
    requires w > 0 && -w < d * w < w
    ensures d == 0
  {
    MultipleIsLarge(d, w);
  }

  lemma MultipleLeavesNothing(q: nat, w: nat)
    requires w > 0
    ensures q * w % w == 0
  {
    var m, rest := q * w / w, q * w % w;
    assert (q - m) * w == rest;
    SmallMultiple(q - m, w);
  }

  lemma SameMultiple(t: nat, n: nat, w: nat)
    requires w > 0 && n <= t < n + w && n % w == 0
    ensures t / w * w == n
  {
    var p, q := t / w, n / w;
    assert t == p * w + t % w && n == q * w;
    assert (p - q) * w == t - t % w - n;
    SmallMultiple(p - q, w);
  }

  /** There is one multiple of a length within that length below an instant. */
  lemma OneWindow(t: nat, n: nat, w: nat)
    requires w > 0
    ensures t / w * w == n <==> n <= t < n + w && n % w == 0
  {
    if t / w * w == n { MultipleLeavesNothing(t / w, w); }
    if n <= t < n + w && n % w == 0 { SameMultiple(t, n, w); }
  }

  lemma KeyIsCell(key: MetricKey, e: Event, i: Option<Event>, t: nat, cohort: Cohort, currency: string, r: Rules,
                  ds: seq<Dimension>)
    requires r.window > 0
    ensures KeyFor(e, i, t, cohort, currency, r, ds) == key <==> InCell(key, e, i, t, cohort, currency, r, ds)
  {
    OneWindow(t, key.row.window, r.window);
  }

  /** The impression that a click may be linked to. */
  ghost function ImpressionOf(events: seq<Event>, c: Event, r: Rules): Option<Event> {
    if i :| i in events && MayLink(i, c, r) then Some(i) else None
  }

  /** The click that a conversion is due to. */
  ghost function ClickDue(events: seq<Event>, v: Event, r: Rules): Option<Event> {
    if c :| c in events && MayMatch(c, v, r) then Some(c) else None
  }

  lemma FoundImpression(events: seq<Event>, c: Event, r: Rules)
    requires OneOfEach(events)
    ensures ImpressionOf(events, c, r) == LinkedImpression(events, c, r)
  {
    var i := ImpressionOf(events, c, r);
    LinkedExactly(events, c, r, if i.Some? then i.value else c);
  }

  lemma FoundClick(events: seq<Event>, v: Event, r: Rules)
    requires OneOfEach(events)
    ensures ClickDue(events, v, r) == if IsMatched(events, v, r) then ClickOf(events, v) else None
  {
    MatchedExactly(events, v, r);
    var c := ClickDue(events, v, r);
    if c.Some? { ClickIs(events, v, c.value); }
  }

  // Which events a row counts.

  predicate ShownHere(e: Event, key: MetricKey, r: Rules, ds: seq<Dimension>)
    requires r.window > 0
  {
    e.kind.Impression? && (InCell(key, e, Some(e), e.time, Occurrence, "ALL", r, ds)
                           || InCell(key, e, Some(e), e.time, ByImpression, "ALL", r, ds))
  }

  ghost predicate ClickedHere(events: seq<Event>, c: Event, key: MetricKey, r: Rules, ds: seq<Dimension>)
    requires r.window > 0
  {
    c.kind.Click? && (
      var i := ImpressionOf(events, c, r);
      || InCell(key, c, i, c.time, Occurrence, "ALL", r, ds) || InCell(key, c, i, c.time, ByClick, "ALL", r, ds)
      || (i.Some? && InCell(key, c, i, i.value.time, ByImpression, "ALL", r, ds)))
  }

  /** A conversion that is due to a click, by its own time, by that of the click, or with its value. */
  ghost predicate DueHere(events: seq<Event>, v: Event, key: MetricKey, cohort: Cohort, r: Rules, ds: seq<Dimension>)
    requires r.window > 0
  {
    v.kind.Conversion? && ClickDue(events, v, r).Some? && (
      var c := ClickDue(events, v, r).value;
      var i := ImpressionOf(events, c, r);
      match cohort
      case Occurrence => InCell(key, v, i, v.time, Occurrence, "ALL", r, ds)
      case ByClick => InCell(key, v, i, c.time, ByClick, "ALL", r, ds)
      case ConversionValue => InCell(key, v, i, c.time, ConversionValue, v.currency, r, ds)
      case ByImpression => false)
  }

  ghost predicate MatchedHere(events: seq<Event>, v: Event, key: MetricKey, r: Rules, ds: seq<Dimension>)
    requires r.window > 0
  {
    DueHere(events, v, key, Occurrence, r, ds) || DueHere(events, v, key, ByClick, r, ds)
    || DueHere(events, v, key, ConversionValue, r, ds)
  }

  ghost predicate UnmatchedHere(events: seq<Event>, v: Event, key: MetricKey, r: Rules, ds: seq<Dimension>)
    requires r.window > 0
  {
    v.kind.Conversion? && ClickDue(events, v, r).None? && InCell(key, v, None, v.time, Occurrence, "ALL", r, ds)
  }

  ghost function Shown(key: MetricKey, r: Rules, ds: seq<Dimension>): Event -> bool
    requires r.window > 0
  {
    (e: Event) => ShownHere(e, key, r, ds)
  }

  ghost function Clicked(events: seq<Event>, key: MetricKey, r: Rules, ds: seq<Dimension>): Event -> bool
    requires r.window > 0
  {
    (e: Event) => ClickedHere(events, e, key, r, ds)
  }

  ghost function MatchedIn(events: seq<Event>, key: MetricKey, r: Rules, ds: seq<Dimension>): Event -> bool
    requires r.window > 0
  {
    (e: Event) => MatchedHere(events, e, key, r, ds)
  }

  ghost function UnmatchedIn(events: seq<Event>, key: MetricKey, r: Rules, ds: seq<Dimension>): Event -> bool
    requires r.window > 0
  {
    (e: Event) => UnmatchedHere(events, e, key, r, ds)
  }

  ghost function ValuedIn(events: seq<Event>, key: MetricKey, r: Rules, ds: seq<Dimension>): Event -> bool
    requires r.window > 0
  {
    (e: Event) => DueHere(events, e, key, ConversionValue, r, ds)
  }

  function ValueSum(vs: seq<Event>): nat { if vs == [] then 0 else ValueSum(vs[..|vs| - 1]) + vs[|vs| - 1].value }

  function One(b: bool): nat { if b then 1 else 0 }

  // What one event adds to a row.

  lemma TotalOfOne(a: Addition, key: MetricKey)
    ensures Total([a], key) == if a.key == key then Plus(ZERO, a.values) else ZERO
  {
    assert [a][..0] == [];
  }

  lemma TotalOfTwo(a: Addition, b: Addition, key: MetricKey)
    requires a.key != b.key
    ensures Total([a, b], key) == if a.key == key then Plus(ZERO, a.values)
                                  else if b.key == key then Plus(ZERO, b.values) else ZERO
  {
    assert [a, b][..1] == [a];
    TotalOfOne(a, key);
  }

  lemma TotalOfThree(a: Addition, b: Addition, c: Addition, key: MetricKey)
    requires a.key != b.key && b.key != c.key && a.key != c.key
    ensures Total([a, b, c], key) == if a.key == key then Plus(ZERO, a.values)
                                     else if b.key == key then Plus(ZERO, b.values)
                                     else if c.key == key then Plus(ZERO, c.values) else ZERO
  {
    assert [a, b, c][..2] == [a, b];
    TotalOfTwo(a, b, key);
  }

  /** What an event is counted as in one row: everything but the converted clicks. */
  datatype Counts = Counts(impressions: nat, clicks: nat, matched: nat, unmatched: nat, value: nat)

  const NOT_COUNTED := Counts(0, 0, 0, 0, 0)

  predicate Counted(t: Tally, n: Counts) {
    && t.impressions == n.impressions && t.clicks == n.clicks && t.matched == n.matched && t.unmatched == n.unmatched
    && t.value == n.value
  }

  lemma ImpressionAdds(e: Event, r: Rules, ds: seq<Dimension>, key: MetricKey)
    requires r.window > 0 && e.kind.Impression?
    ensures Counted(Total(ImpressionAdditions(e, r, ds), key),
                    NOT_COUNTED.(impressions := One(ShownHere(e, key, r, ds))))
  {
    var a := Addition(KeyFor(e, Some(e), e.time, Occurrence, ALL_CURRENCIES, r, ds), ZERO.(impressions := 1));
    var b := Addition(KeyFor(e, Some(e), e.time, ByImpression, ALL_CURRENCIES, r, ds), ZERO.(impressions := 1));
    assert ImpressionAdditions(e, r, ds) == [a, b] && a.key.row.cohort != b.key.row.cohort;
    TotalOfTwo(a, b, key);
    KeyIsCell(key, e, Some(e), e.time, Occurrence, "ALL", r, ds);
    KeyIsCell(key, e, Some(e), e.time, ByImpression, "ALL", r, ds);
  }

  lemma ClickAdds(events: seq<Event>, c: Event, r: Rules, ds: seq<Dimension>, key: MetricKey)
    requires r.window > 0 && c.kind.Click? && OneOfEach(events)
    ensures Counted(Total(ClickAdditions(c, LinkedImpression(events, c, r), r, ds), key),
                    NOT_COUNTED.(clicks := One(ClickedHere(events, c, key, r, ds))))
  {
    var i := ImpressionOf(events, c, r);
    FoundImpression(events, c, r);
    var a := Addition(KeyFor(c, i, c.time, Occurrence, ALL_CURRENCIES, r, ds), ZERO.(clicks := 1));
    var b := Addition(KeyFor(c, i, c.time, ByClick, ALL_CURRENCIES, r, ds), ZERO.(clicks := 1));
    KeyIsCell(key, c, i, c.time, Occurrence, "ALL", r, ds);
    KeyIsCell(key, c, i, c.time, ByClick, "ALL", r, ds);
    assert a.key.row.cohort != b.key.row.cohort;
    if i.Some? {
      var d := Addition(KeyFor(c, i, i.value.time, ByImpression, ALL_CURRENCIES, r, ds), ZERO.(clicks := 1));
      KeyIsCell(key, c, i, i.value.time, ByImpression, "ALL", r, ds);
      assert ClickAdditions(c, i, r, ds) == [a, b, d] && d.key.row.cohort != a.key.row.cohort;
      TotalOfThree(a, b, d, key);
    } else {
      assert ClickAdditions(c, i, r, ds) == [a, b];
      TotalOfTwo(a, b, key);
    }
  }

  /** A matched conversion, against its click and the click's impression. */
  lemma MatchedAddsTo(v: Event, c: Event, i: Option<Event>, first: bool, r: Rules, ds: seq<Dimension>, key: MetricKey)
    requires r.window > 0 && MatchReasonOf(Some(c), v, r).Matched?
    ensures var now, then', worth := InCell(key, v, i, v.time, Occurrence, "ALL", r, ds),
                InCell(key, v, i, c.time, ByClick, "ALL", r, ds),
                InCell(key, v, i, c.time, ConversionValue, v.currency, r, ds);
            Counted(Total(ConversionAdditions(v, Some(c), i, first, r, ds), key),
                    NOT_COUNTED.(matched := One(now || then' || worth), value := if worth then v.value else 0))
  {
    var a := Addition(KeyFor(v, i, v.time, Occurrence, ALL_CURRENCIES, r, ds), ZERO.(matched := 1));
    var b := Addition(KeyFor(v, i, c.time, ByClick, ALL_CURRENCIES, r, ds),
                      ZERO.(matched := 1, converted := if first then 1 else 0));
    var d := Addition(KeyFor(v, i, c.time, ConversionValue, v.currency, r, ds), ZERO.(matched := 1, value := v.value));
    KeyIsCell(key, v, i, v.time, Occurrence, "ALL", r, ds);
    KeyIsCell(key, v, i, c.time, ByClick, "ALL", r, ds);
    KeyIsCell(key, v, i, c.time, ConversionValue, v.currency, r, ds);
    assert ConversionAdditions(v, Some(c), i, first, r, ds) == [a, b, d];
    assert a.key.row.cohort != b.key.row.cohort && d.key.row.cohort !in {a.key.row.cohort, b.key.row.cohort};
    TotalOfThree(a, b, d, key);
  }

  lemma MatchedAdds(events: seq<Event>, v: Event, first: bool, r: Rules, ds: seq<Dimension>, key: MetricKey)
    requires r.window > 0 && v.kind.Conversion? && OneOfEach(events) && IsMatched(events, v, r)
    ensures Counted(Total(ConversionAdditions(v, ClickOf(events, v), JoinedOf(events, v, r), first, r, ds), key),
                    NOT_COUNTED.(matched := One(MatchedHere(events, v, key, r, ds)),
                                 value := if DueHere(events, v, key, ConversionValue, r, ds) then v.value else 0))
  {
    FoundClick(events, v, r);
    var c := ClickOf(events, v).value;
    FoundImpression(events, c, r);
    MatchedAddsTo(v, c, ImpressionOf(events, c, r), first, r, ds, key);
  }

  lemma UnmatchedAdds(events: seq<Event>, v: Event, first: bool, r: Rules, ds: seq<Dimension>, key: MetricKey)
    requires r.window > 0 && v.kind.Conversion? && OneOfEach(events) && !IsMatched(events, v, r)
    ensures Counted(Total(ConversionAdditions(v, ClickOf(events, v), JoinedOf(events, v, r), first, r, ds), key),
                    NOT_COUNTED.(unmatched := One(UnmatchedHere(events, v, key, r, ds))))
  {
    FoundClick(events, v, r);
    var a := Addition(KeyFor(v, None, v.time, Occurrence, ALL_CURRENCIES, r, ds), ZERO.(unmatched := 1));
    KeyIsCell(key, v, None, v.time, Occurrence, "ALL", r, ds);
    assert ConversionAdditions(v, ClickOf(events, v), JoinedOf(events, v, r), first, r, ds) == [a];
    TotalOfOne(a, key);
  }

  ghost function CountsOf(events: seq<Event>, e: Event, key: MetricKey, r: Rules, ds: seq<Dimension>): Counts
    requires r.window > 0
  {
    Counts(One(ShownHere(e, key, r, ds)), One(ClickedHere(events, e, key, r, ds)),
           One(MatchedHere(events, e, key, r, ds)), One(UnmatchedHere(events, e, key, r, ds)),
           if DueHere(events, e, key, ConversionValue, r, ds) then e.value else 0)
  }

  lemma EventAdds(events: seq<Event>, before: seq<Event>, e: Event, r: Rules, ds: seq<Dimension>, key: MetricKey)
    requires r.window > 0 && OneOfEach(events)
    ensures Counted(Total(AdditionsOf(events, before, e, r, ds), key), CountsOf(events, e, key, r, ds))
  {
    match e.kind
    case Impression => ImpressionAdds(e, r, ds, key);
    case Click => ClickAdds(events, e, r, ds, key);
    case Conversion =>
      FoundClick(events, e, r);
      if IsMatched(events, e, r) { MatchedAdds(events, e, IsFirst(events, before, e, r), r, ds, key); }
      else { UnmatchedAdds(events, e, IsFirst(events, before, e, r), r, ds, key); }
  }

  // What all events add.

  function PlusCounts(a: Counts, b: Counts): Counts {
    Counts(a.impressions + b.impressions, a.clicks + b.clicks, a.matched + b.matched, a.unmatched + b.unmatched,
           a.value + b.value)
  }

  ghost function AllCounts(events: seq<Event>, es: seq<Event>, key: MetricKey, r: Rules, ds: seq<Dimension>): Counts
    requires r.window > 0
  {
    Counts(|Filter(es, Shown(key, r, ds))|, |Filter(es, Clicked(events, key, r, ds))|,
           |Filter(es, MatchedIn(events, key, r, ds))|, |Filter(es, UnmatchedIn(events, key, r, ds))|,
           ValueSum(Filter(es, ValuedIn(events, key, r, ds))))
  }

  lemma CountOneMore(es: seq<Event>, e: Event, p: Event -> bool)
    ensures |Filter(es + [e], p)| == |Filter(es, p)| + One(p(e))
    ensures ValueSum(Filter(es + [e], p)) == ValueSum(Filter(es, p)) + if p(e) then e.value else 0
  {
    FilterOneMore(es, e, p);
    var f := Filter(es, p);
    assert (f + [e])[..|f|] == f;
  }

  lemma AllCountsOneMore(events: seq<Event>, es: seq<Event>, e: Event, key: MetricKey, r: Rules, ds: seq<Dimension>)
    requires r.window > 0
    ensures AllCounts(events, es + [e], key, r, ds)
            == PlusCounts(AllCounts(events, es, key, r, ds), CountsOf(events, e, key, r, ds))
  {
    CountOneMore(es, e, Shown(key, r, ds));
    CountOneMore(es, e, Clicked(events, key, r, ds));
    CountOneMore(es, e, MatchedIn(events, key, r, ds));
    CountOneMore(es, e, UnmatchedIn(events, key, r, ds));
    CountOneMore(es, e, ValuedIn(events, key, r, ds));
  }

  lemma CountedPlus(a: Tally, b: Tally, m: Counts, n: Counts)
    requires Counted(a, m) && Counted(b, n)
    ensures Counted(Plus(a, b), PlusCounts(m, n))
  {
  }

  lemma {:induction false} TotalsAreCounts(events: seq<Event>, es: seq<Event>, key: MetricKey, r: Rules,
                                           ds: seq<Dimension>)
    requires r.window > 0 && OneOfEach(events)
    ensures Counted(Total(AddedBy(events, es, r, ds), key), AllCounts(events, es, key, r, ds))
  {
    if es != [] {
      var before, e := es[..|es| - 1], es[|es| - 1];
      assert es == before + [e];
      TotalsAreCounts(events, before, key, r, ds);
      EventAdds(events, before, e, r, ds, key);
      B.TotalAppend(AddedBy(events, before, r, ds), AdditionsOf(events, before, e, r, ds), key);
      AllCountsOneMore(events, before, e, key, r, ds);
      CountedPlus(Total(AddedBy(events, before, r, ds), key), Total(AdditionsOf(events, before, e, r, ds), key),
                  AllCounts(events, before, key, r, ds), CountsOf(events, e, key, r, ds));
    }
  }

  lemma {:induction false} KindFiltered(es: seq<Event>, kind: Kind, other: Kind, p: Event -> bool)
    requires forall e :: p(e) ==> e.kind == kind
    ensures Filter(Filter(es, OfKind(other)), p) == if other == kind then Filter(es, p) else []
  {
    if es != [] {
      var before, e := es[..|es| - 1], es[|es| - 1];
      assert es == before + [e];
      KindFiltered(before, kind, other, p);
      FilterOneMore(before, e, OfKind(other));
      FilterOneMore(before, e, p);
      FilterOneMore(Filter(before, OfKind(other)), e, p);
    }
  }

  /** Events of one kind come in their own order, however the kinds are ordered. */
  lemma OrderedFilters(es: seq<Event>, kind: Kind, p: Event -> bool)
    requires forall e :: p(e) ==> e.kind == kind
    ensures Filter(Ordered(es), p) == Filter(es, p)
  {
    var i, c, v := Filter(es, OfKind(Impression)), Filter(es, OfKind(Click)), Filter(es, OfKind(Conversion));
    FilterAppend(i + c, v, p);
    FilterAppend(i, c, p);
    KindFiltered(es, kind, Impression, p);
    KindFiltered(es, kind, Click, p);
    KindFiltered(es, kind, Conversion, p);
  }

  // The clicks that a row counts as converted.

  /** The conversion at `n` is the first that is due to the click of key `k`. */
  ghost predicate Claims(events: seq<Event>, n: nat, k: Link, r: Rules)
    requires n < |events|
  {
    && events[n].kind.Conversion? && ClickDue(events, events[n], r).Some?
    && Link(events[n].advertiser, events[n].app, events[n].clickId) == k
    && forall m :: 0 <= m < n && events[m].kind.Conversion? && ClickDue(events, events[m], r).Some? ==>
         Link(events[m].advertiser, events[m].app, events[m].clickId) != k
  }

  lemma MatchedIs(events: seq<Event>, v: Event, r: Rules)
    requires OneOfEach(events)
    ensures BT.MatchedConversion(events, v, r) <==> v.kind.Conversion? && ClickDue(events, v, r).Some?
  {
    FoundClick(events, v, r);
    MatchedExactly(events, v, r);
  }

  lemma {:induction false} FirstClaimAt(events: seq<Event>, es: seq<Event>, k: Link, r: Rules)
    requires OneOfEach(events)
    ensures var v := RO.FirstClaim(events, es, k, r);
            v.Some? <==> exists n :: 0 <= n < |es| && FirstAt(events, es, n, k, r)
    ensures var v := RO.FirstClaim(events, es, k, r);
            forall n :: 0 <= n < |es| && FirstAt(events, es, n, k, r) ==> v == Some(es[n])
  {
    if es != [] {
      var before, e := es[..|es| - 1], es[|es| - 1];
      assert es == before + [e];
      FirstClaimAt(events, before, k, r);
      RO.FirstClaimStep(events, before, e, k, r);
      RO.FirstClaimIs(events, before, k, r);
      FirstAtOneMore(events, before, e, k, r);
    }
  }

  ghost predicate FirstAt(events: seq<Event>, es: seq<Event>, n: nat, k: Link, r: Rules)
    requires n < |es|
  {
    && BT.MatchedConversion(events, es[n], r) && ClickLink(es[n]) == k
    && forall m :: 0 <= m < n && BT.MatchedConversion(events, es[m], r) ==> ClickLink(es[m]) != k
  }

  lemma FirstAtOneMore(events: seq<Event>, before: seq<Event>, e: Event, k: Link, r: Rules)
    ensures forall n :: 0 <= n < |before| ==>
              (FirstAt(events, before + [e], n, k, r) <==> FirstAt(events, before, n, k, r))
    ensures FirstAt(events, before + [e], |before|, k, r)
            <==> BT.MatchedConversion(events, e, r) && ClickLink(e) == k && RO.FirstClaim(events, before, k, r).None?
  {
    RO.FirstClaimIs(events, before, k, r);
    var es := before + [e];
    assert forall m :: 0 <= m < |before| ==> es[m] == before[m];
    if RO.FirstClaim(events, before, k, r).Some? {
      var v := RO.FirstClaim(events, before, k, r).value;
      var m :| 0 <= m < |before| && before[m] == v;
      assert es[m] == v;
    } else {
      forall m | 0 <= m < |before| && BT.MatchedConversion(events, es[m], r)
        ensures ClickLink(es[m]) != k
      {
        assert es[m] in before && ClickLink(es[m]) in Converted(events, before, r);
      }
    }
  }

  /** The first conversion that is due to the click of key `k` falls, by the time of that click, into this row. */
  ghost predicate ClaimedHere(events: seq<Event>, k: Link, key: MetricKey, r: Rules, ds: seq<Dimension>)
    requires r.window > 0
  {
    exists n :: 0 <= n < |events| && Claims(events, n, k, r) && DueHere(events, events[n], key, ByClick, r, ds)
  }

  lemma ClaimIs(events: seq<Event>, v: Event, key: MetricKey, r: Rules, ds: seq<Dimension>)
    requires r.window > 0 && OneOfEach(events)
    ensures RO.ClaimsIn(events, Some(v), key, r, ds) <==> DueHere(events, v, key, ByClick, r, ds)
  {
    MatchedIs(events, v, r);
    if BT.MatchedConversion(events, v, r) {
      FoundClick(events, v, r);
      var c := ClickOf(events, v).value;
      FoundImpression(events, c, r);
      B.MatchesAgree(events, v, r);
      KeyIsCell(key, v, ImpressionOf(events, c, r), c.time, ByClick, "ALL", r, ds);
      B.KeysAgree(v, ImpressionOf(events, c, r), c.time, ByClick, ALL_CURRENCIES, ConvertedClicks, 1, r, ds);
    }
  }

  lemma FirstIs(events: seq<Event>, n: nat, k: Link, r: Rules)
    requires OneOfEach(events) && n < |events|
    ensures FirstAt(events, events, n, k, r) <==> Claims(events, n, k, r)
  {
    forall m | 0 <= m < |events|
      ensures BT.MatchedConversion(events, events[m], r)
              <==> events[m].kind.Conversion? && ClickDue(events, events[m], r).Some?
    {
      MatchedIs(events, events[m], r);
    }
  }

  lemma ClaimedIs(events: seq<Event>, k: Link, key: MetricKey, r: Rules, ds: seq<Dimension>)
    requires r.window > 0 && OneOfEach(events)
    ensures k in RO.ClaimedIn(events, Ordered(events), key, r, ds) <==> ClaimedHere(events, k, key, r, ds)
  {
    RO.ClaimedMember(events, Ordered(events), key, k, r, ds);
    RO.FirstClaimOrdered(events, k, r);
    FirstClaimAt(events, events, k, r);
    forall n | 0 <= n < |events|
      ensures FirstAt(events, events, n, k, r) <==> Claims(events, n, k, r)
      ensures RO.ClaimsIn(events, Some(events[n]), key, r, ds) <==> DueHere(events, events[n], key, ByClick, r, ds)
    {
      FirstIs(events, n, k, r);
      ClaimIs(events, events[n], key, r, ds);
    }
  }

  // Which rows there are.

  function Marks(t: Tally): int { t.impressions + t.clicks + t.matched + t.unmatched }

  lemma {:induction false} MarksOfTotal(adds: seq<Addition>, key: MetricKey)
    requires forall a :: a in adds ==> Marks(a.values) == 1
    ensures 0 <= Marks(Total(adds, key)) && (0 < Marks(Total(adds, key)) <==> exists a :: a in adds && a.key == key)
  {
    if adds != [] {
      var init, last := adds[..|adds| - 1], adds[|adds| - 1];
      assert adds == init + [last];
      MarksOfTotal(init, key);
    }
  }

  lemma EventMarks(events: seq<Event>, before: seq<Event>, e: Event, r: Rules, ds: seq<Dimension>, n: nat)
    requires r.window > 0 && n < |AdditionsOf(events, before, e, r, ds)|
    ensures Marks(AdditionsOf(events, before, e, r, ds)[n].values) == 1
  {
  }

  lemma {:induction false} EveryAdditionMarks(events: seq<Event>, es: seq<Event>, r: Rules, ds: seq<Dimension>)
    requires r.window > 0
    ensures forall a :: a in AddedBy(events, es, r, ds) ==> Marks(a.values) == 1
  {
    if es != [] {
      var before, e := es[..|es| - 1], es[|es| - 1];
      EveryAdditionMarks(events, before, r, ds);
      forall a | a in AdditionsOf(events, before, e, r, ds)
        ensures Marks(a.values) == 1
      {
        var n :| 0 <= n < |AdditionsOf(events, before, e, r, ds)| && AdditionsOf(events, before, e, r, ds)[n] == a;
        EventMarks(events, before, e, r, ds, n);
      }
    }
  }

  ghost function RowAt(events: seq<Event>, key: MetricKey, r: Rules, ds: seq<Dimension>): Option<Tally>
    requires r.window > 0
  {
    var rows := Rows(AddedBy(events, Ordered(events), r, ds));
    if key in rows then Some(rows[key]) else None
  }

  lemma RowCounts(events: seq<Event>, key: MetricKey, r: Rules, ds: seq<Dimension>)
    requires r.window > 0 && OneOfEach(events)
    ensures var row := RowAt(events, key, r, ds);
            Counted(if row.Some? then row.value else ZERO, AllCounts(events, events, key, r, ds))
  {
    TotalsAreCounts(events, Ordered(events), key, r, ds);
    OrderedCounts(events, key, r, ds);
    RowsAreTotals(AddedBy(events, Ordered(events), r, ds), key);
  }

  lemma OrderedCounts(events: seq<Event>, key: MetricKey, r: Rules, ds: seq<Dimension>)
    requires r.window > 0
    ensures AllCounts(events, Ordered(events), key, r, ds) == AllCounts(events, events, key, r, ds)
  {
    OrderedFilters(events, Impression, Shown(key, r, ds));
    OrderedFilters(events, Click, Clicked(events, key, r, ds));
    OrderedFilters(events, Conversion, MatchedIn(events, key, r, ds));
    OrderedFilters(events, Conversion, UnmatchedIn(events, key, r, ds));
    OrderedFilters(events, Conversion, ValuedIn(events, key, r, ds));
  }

  lemma RowExists(events: seq<Event>, key: MetricKey, r: Rules, ds: seq<Dimension>)
    requires r.window > 0 && RowAt(events, key, r, ds).Some?
    ensures 0 < Marks(RowAt(events, key, r, ds).value)
  {
    var adds := AddedBy(events, Ordered(events), r, ds);
    RowsAreTotals(adds, key);
    assert exists a :: a in adds && a.key == key;
    EveryAdditionMarks(events, Ordered(events), r, ds);
    MarksOfTotal(adds, key);
  }

  lemma ConvertedAreClaimed(events: seq<Event>, key: MetricKey, r: Rules, ds: seq<Dimension>)
    requires r.window > 0 && OneOfEach(events)
    ensures var row := RowAt(events, key, r, ds);
            exists claimed: set<Link> ::
              && (if row.Some? then row.value.converted else 0) == |claimed|
              && forall k :: k in claimed <==> ClaimedHere(events, k, key, r, ds)
  {
    var claimed := RO.ClaimedIn(events, Ordered(events), key, r, ds);
    RO.RowConverted(events, key, r, ds);
    forall k
      ensures k in claimed <==> ClaimedHere(events, k, key, r, ds)
    {
      ClaimedIs(events, k, key, r, ds);
    }
  }

  /** Every cell of the calculation, over the fields of events that were each given their own identifier: a row counts
      the impressions shown, the clicks made and the conversions due or not due to a click that fall into it, sums the
      values of the conversions due, and counts as converted the clicks whose first conversion falls into it. No row is
      without events, and where there is no row there are none. */
  lemma CellsAreCounts(events: seq<Event>, key: MetricKey, r: Rules, ds: seq<Dimension>)
    requires r.window > 0 && OneOfEach(events)
    ensures var row := RowAt(events, key, r, ds);
            var t := if row.Some? then row.value else Tally(0, 0, 0, 0, 0, 0);
            && t.impressions == |Filter(events, Shown(key, r, ds))|
            && t.clicks == |Filter(events, Clicked(events, key, r, ds))|
            && t.matched == |Filter(events, MatchedIn(events, key, r, ds))|
            && t.unmatched == |Filter(events, UnmatchedIn(events, key, r, ds))|
            && t.value == ValueSum(Filter(events, ValuedIn(events, key, r, ds)))
            && (row.Some? ==> 0 < t.impressions + t.clicks + t.matched + t.unmatched)
    ensures var row := RowAt(events, key, r, ds);
            exists claimed: set<Link> ::
              && (if row.Some? then row.value.converted else 0) == |claimed|
              && forall k :: k in claimed <==> ClaimedHere(events, k, key, r, ds)
  {
    RowCounts(events, key, r, ds);
    if RowAt(events, key, r, ds).Some? { RowExists(events, key, r, ds); }
    ConvertedAreClaimed(events, key, r, ds);
  }

  /** Conversions that are due to one click without an impression name one region and one application version. */
  ghost predicate Agreeing(events: seq<Event>, r: Rules) {
    forall v, w, c ::
        v in events && w in events && v.kind.Conversion? && w.kind.Conversion?
        && c in events && MayMatch(c, v, r) && MayMatch(c, w, r) && !Linkable(events, c, r) ==>
          v.region == w.region && v.appVersion == w.appVersion
  }

  lemma DueToOne(events: seq<Event>, r: Rules, v: Event, w: Event)
    requires OneOfEach(events) && BT.MatchedConversion(events, v, r) && BT.MatchedConversion(events, w, r)
    requires ClickLink(v) == ClickLink(w)
    ensures exists c :: c in events && MayMatch(c, v, r) && MayMatch(c, w, r) && ClickOf(events, v) == Some(c)
  {
    var c := ClickOf(events, v).value;
    FoundClick(events, v, r);
    FoundClick(events, w, r);
    assert c in events && MayMatch(c, v, r) && MayMatch(c, w, r);
  }

  /** The condition under which the pipeline and the calculation agree, over fields. */
  lemma AgreementIs(events: seq<Event>, r: Rules)
    requires OneOfEach(events)
    ensures BT.UnlinkedConversionsAgree(events, r) <==> Agreeing(events, r)
  {
    forall v, w | v in events && w in events && BT.MatchedConversion(events, v, r) && BT.MatchedConversion(events, w, r)
                  && ClickLink(v) == ClickLink(w) && JoinedOf(events, v, r).None? && Agreeing(events, r)
      ensures v.region == w.region && v.appVersion == w.appVersion
    {
      DueToOne(events, r, v, w);
      var c :| c in events && MayMatch(c, v, r) && MayMatch(c, w, r) && ClickOf(events, v) == Some(c);
      LinkedExactly(events, c, r, c);
    }
    forall v, w, c | v in events && w in events && v.kind.Conversion? && w.kind.Conversion? && c in events
                     && MayMatch(c, v, r) && MayMatch(c, w, r) && !Linkable(events, c, r)
                     && BT.UnlinkedConversionsAgree(events, r)
      ensures v.region == w.region && v.appVersion == w.appVersion
    {
      ClickIs(events, v, c);
      LinkedExactly(events, c, r, c);
      MatchedExactly(events, v, r);
      MatchedExactly(events, w, r);
    }
  }

  /** The whole pipeline, over fields: whatever the schedule, the final value of every row counts the events that fall
      into it, if conversions due to one click without an impression agree on region and version. */
  lemma PipelineCounts(events: seq<Event>, r: Rules, ds: seq<Dimension>, lanes: seq<P.Course>,
                       rows: MetricKey -> seq<P.A.Step>, key: MetricKey)
    requires ValidRules(r) && OneOfEach(events) && P.Covers(events, r, lanes) && P.AllFedAndQuiet(r, ds, lanes, rows)
    requires Agreeing(events, r)
    ensures var t := P.FinalValue(P.A.Run(r, rows(key)));
            && t.impressions == |Filter(events, Shown(key, r, ds))|
            && t.clicks == |Filter(events, Clicked(events, key, r, ds))|
            && t.matched == |Filter(events, MatchedIn(events, key, r, ds))|
            && t.unmatched == |Filter(events, UnmatchedIn(events, key, r, ds))|
            && t.value == ValueSum(Filter(events, ValuedIn(events, key, r, ds)))
            && exists claimed: set<Link> ::
                 t.converted == |claimed| && forall k :: k in claimed <==> ClaimedHere(events, k, key, r, ds)
  {
    DistinctIs(events);
    AgreementIs(events, r);
    P.PipelineMeetsCalculation(events, r, ds, lanes, rows);
    CellsAreCounts(events, key, r, ds);
  }
}
