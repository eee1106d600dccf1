/** The batch calculation's rows are its contributions with every identity counted once; and exactly when the rows that
    aggregate contributions one by one hold the same totals. */
module BatchTotals {
  import opened Seqs
  import opened Events
  import opened Measurement
  import opened Tallies
  import opened Dimensions
  import opened Oracle
  import opened Counting
  import opened Batch

  function ConvertedId(k: Link): ContributionId
  {
    ContributionId(ClickIdentity(k), ByClick, ALL_CURRENCIES, ConvertedClicks)
  }

  predicate MatchedConversion(events: seq<Event>, v: Event, r: Rules) { v.kind.Conversion? && IsMatched(events, v, r) }

  /** A matched conversion's claim on its click. */
  function ConvertedContribution(events: seq<Event>, v: Event, r: Rules): Contribution
    requires r.window > 0 && MatchedConversion(events, v, r)
  {
    var c := LinkedClickOf(events, v, r).value;
    Contribute(v, c.impression, c.click.time, ByClick, ALL_CURRENCIES, ConvertedClicks, 1, r)
  }

  lemma MatchedBlock(events: seq<Event>, v: Event, r: Rules)
    requires r.window > 0 && MatchedConversion(events, v, r)
    ensures LinkedClickOf(events, v, r).Some?
    ensures ContributionsOf(events, v, r) == MatchedContributions(v, LinkedClickOf(events, v, r).value, true, r)
    ensures ConvertedContribution(events, v, r) == ContributionsOf(events, v, r)[2]
  {
    MatchesAgree(events, v, r);
  }

  lemma UnmatchedIsOne(events: seq<Event>, v: Event, r: Rules)
    requires r.window > 0 && v.kind.Conversion? && !IsMatched(events, v, r)
    ensures ContributionsOf(events, v, r)
            == [Contribute(v, None, v.time, Occurrence, ALL_CURRENCIES, UnmatchedConversions, 1, r)]
  {
    MatchesAgree(events, v, r);
  }

  lemma ContributionIds(events: seq<Event>, e: Event, r: Rules, m: Contribution)
    requires r.window > 0 && m in ContributionsOf(events, e, r)
    ensures !OfConvertedClick(m) ==> m.id.identity == BusinessIdentity(BusinessKey(e))
    ensures OfConvertedClick(m) ==> MatchedConversion(events, e, r) && m == ConvertedContribution(events, e, r)
  {
    if e.kind.Conversion? {
      if IsMatched(events, e, r) { MatchedBlock(events, e, r); } else { UnmatchedIsOne(events, e, r); }
    }
  }

  lemma {:induction false} BlockIsDistinct(events: seq<Event>, e: Event, r: Rules, ds: seq<Dimension>)
    requires r.window > 0
    ensures Distinct(ContributionsOf(events, e, r), IdOf())
  {
    match e.kind
    case Impression => ImpressionBlock(e, r, ds);
    case Click => ClickBlock(LinkOf(events, e, r), r, ds);
    case Conversion => ConversionBlock(events, e, r);
  }

  lemma ConversionBlock(events: seq<Event>, v: Event, r: Rules)
    requires r.window > 0 && v.kind.Conversion?
    ensures Distinct(ContributionsOf(events, v, r), IdOf())
  {
    if IsMatched(events, v, r) { MatchedBlock(events, v, r); } else { UnmatchedIsOne(events, v, r); }
  }

  lemma ConvertedIsKnown(events: seq<Event>, es: seq<Event>, r: Rules, k: Link)
    requires r.window > 0
    ensures Known(ContributedBy(events, es, r), ConvertedId(k)) <==> k in Converted(events, es, r)
  {
    var ms := ContributedBy(events, es, r);
    if Known(ms, ConvertedId(k)) {
      var a :| a in ms && a.id == ConvertedId(k);
      ContributedMember(events, es, r, a);
      var e :| e in es && a in ContributionsOf(events, e, r);
      ContributionIds(events, e, r, a);
    }
    if k in Converted(events, es, r) {
      var v :| v in es && MatchedConversion(events, v, r) && ClickLink(v) == k;
      MatchedBlock(events, v, r);
      var m := ConvertedContribution(events, v, r);
      assert m in ContributionsOf(events, v, r);
      ContributedMember(events, es, r, m);
    }
  }

  /** What an event contributes is new, but for the claim of a conversion on a click that is claimed already. */
  lemma KnownBefore(events: seq<Event>, before: seq<Event>, e: Event, r: Rules, m: Contribution)
    requires r.window > 0 && m in ContributionsOf(events, e, r)
    requires forall b :: b in before ==> BusinessKey(b) != BusinessKey(e)
    ensures Known(ContributedBy(events, before, r), m.id) <==> OfConvertedClick(m) && !IsFirst(events, before, e, r)
  {
    ContributionIds(events, e, r, m);
    var ms := ContributedBy(events, before, r);
    if OfConvertedClick(m) {
      ConvertedIsKnown(events, before, r, ClickLink(e));
    } else if Known(ms, m.id) {
      var a :| a in ms && a.id == m.id;
      ContributedMember(events, before, r, a);
      var b :| b in before && a in ContributionsOf(events, b, r);
      ContributionIds(events, b, r, a);
    }
  }

  lemma FreshTotal(events: seq<Event>, before: seq<Event>, e: Event, r: Rules, ds: seq<Dimension>, key: MetricKey)
    requires r.window > 0
    requires forall b :: b in before ==> BusinessKey(b) != BusinessKey(e)
    ensures Total(AsAdditions(Fresh(ContributedBy(events, before, r), ContributionsOf(events, e, r)), ds), key)
         == Total(AdditionsOf(events, before, e, r, ds), key)
  {
    var ms, block := ContributedBy(events, before, r), ContributionsOf(events, e, r);
    forall m | m in block
      ensures Known(ms, m.id) <==> OfConvertedClick(m) && !IsFirst(events, before, e, r)
    {
      KnownBefore(events, before, e, r, m);
    }
    if MatchedConversion(events, e, r) {
      MatchedFreshTotal(events, before, e, r, ds, key);
    } else {
      forall m | m in block
        ensures !Known(ms, m.id)
      {
        ContributionIds(events, e, r, m);
      }
      AllFresh(ms, block);
      UnmatchedTotal(events, before, e, r, ds);
    }
  }

  lemma {:induction false} MatchedFreshTotal(events: seq<Event>, before: seq<Event>, e: Event, r: Rules,
                                             ds: seq<Dimension>, key: MetricKey)
    requires r.window > 0 && MatchedConversion(events, e, r)
    requires forall m :: m in ContributionsOf(events, e, r) ==>
               (Known(ContributedBy(events, before, r), m.id) <==>
                OfConvertedClick(m) && !IsFirst(events, before, e, r))
    ensures Total(AsAdditions(Fresh(ContributedBy(events, before, r), ContributionsOf(events, e, r)), ds), key)
         == Total(AdditionsOf(events, before, e, r, ds), key)
  {
    MatchesAgree(events, e, r);
    MatchedBlock(events, e, r);
    var c := LinkedClickOf(events, e, r).value;
    MatchedFresh(ContributedBy(events, before, r), e, c, IsFirst(events, before, e, r), r);
    MatchedTotal(e, c, IsFirst(events, before, e, r), r, ds, key);
  }

  lemma UnmatchedTotal(events: seq<Event>, before: seq<Event>, e: Event, r: Rules, ds: seq<Dimension>)
    requires r.window > 0 && !MatchedConversion(events, e, r)
    ensures AsAdditions(ContributionsOf(events, e, r), ds) == AdditionsOf(events, before, e, r, ds)
  {
    match e.kind
    case Impression => ImpressionBlock(e, r, ds);
    case Click =>
      LinksAgree(events, e, r);
      ClickBlock(LinkOf(events, e, r), r, ds);
    case Conversion =>
      MatchesAgree(events, e, r);
      UnmatchedBlock(e, LinkedClickOf(events, e, r), IsFirst(events, before, e, r), JoinedOf(events, e, r), r, ds);
  }

  /** The rows of the batch calculation count every identity of the events' contributions once. */
  lemma {:induction false} CalculationCountsOnce(events: seq<Event>, es: seq<Event>, r: Rules, ds: seq<Dimension>,
                                                 key: MetricKey)
    requires r.window > 0 && Distinct(es, BusinessKey)
    ensures Total(AddedBy(events, es, r, ds), key) == CountedOnce(ContributedBy(events, es, r), key, ds)
  {
    if es != [] {
      var before, e := es[..|es| - 1], es[|es| - 1];
      InitIsDistinct(es);
      CalculationCountsOnce(events, before, r, ds, key);
      BlockIsDistinct(events, e, r, ds);
      OnceAppend(ContributedBy(events, before, r), ContributionsOf(events, e, r), key, ds);
      FreshTotal(events, before, e, r, ds, key);
      TotalAppend(AddedBy(events, before, r, ds), AdditionsOf(events, before, e, r, ds), key);
    }
  }

  lemma InitIsDistinct(es: seq<Event>)
    requires es != [] && Distinct(es, BusinessKey)
    ensures Distinct(es[..|es| - 1], BusinessKey)
    ensures forall b :: b in es[..|es| - 1] ==> BusinessKey(b) != BusinessKey(es[|es| - 1])
  {
  }

  lemma UnitRepeatsAppend(ms: seq<Contribution>, block: seq<Contribution>)
    requires UnitRepeats(ms) && Distinct(block, IdOf())
    requires forall a, m :: a in ms && m in block && a.id == m.id ==> OfConvertedClick(a) && a.value == m.value == 1
    ensures UnitRepeats(ms + block)
  {
    var all := ms + block;
    forall i, j | 0 <= i < j < |all|
      ensures all[i].id == all[j].id ==> all[i].id.counter.ConvertedClicks? && all[i].value == all[j].value == 1
    {
      if j < |ms| {
        assert all[i] == ms[i] && all[j] == ms[j];
      } else if i < |ms| {
        assert all[i] in ms && all[j] in block;
      } else {
        assert IdOf()(block[i - |ms|]) != IdOf()(block[j - |ms|]);
      }
    }
  }

  lemma {:induction false} OnlyClaimsRepeat(events: seq<Event>, es: seq<Event>, r: Rules, ds: seq<Dimension>)
    requires r.window > 0 && Distinct(es, BusinessKey)
    ensures UnitRepeats(ContributedBy(events, es, r))
  {
    if es != [] {
      var before, e := es[..|es| - 1], es[|es| - 1];
      InitIsDistinct(es);
      OnlyClaimsRepeat(events, before, r, ds);
      BlockIsDistinct(events, e, r, ds);
      var ms, block := ContributedBy(events, before, r), ContributionsOf(events, e, r);
      forall a, m | a in ms && m in block && a.id == m.id
        ensures OfConvertedClick(a) && a.value == m.value == 1
      {
        KnownBefore(events, before, e, r, m);
        ContributionIds(events, e, r, m);
        ContributedMember(events, before, r, a);
        var b :| b in before && a in ContributionsOf(events, b, r);
        ContributionIds(events, b, r, a);
      }
      UnitRepeatsAppend(ms, block);
    }
  }

  /** Conversions of one click without an impression bring their own region and version: they agree on them. */
  ghost predicate UnlinkedConversionsAgree(events: seq<Event>, r: Rules) {
    forall v, w :: v in events && w in events && MatchedConversion(events, v, r) && MatchedConversion(events, w, r)
                   && ClickLink(v) == ClickLink(w) && JoinedOf(events, v, r).None? ==>
      v.region == w.region && v.appVersion == w.appVersion
  }

  lemma ClaimsGoTogether(events: seq<Event>, v: Event, w: Event, r: Rules, ds: seq<Dimension>)
    requires r.window > 0 && MatchedConversion(events, v, r) && MatchedConversion(events, w, r)
             && ClickLink(v) == ClickLink(w)
    ensures RowOf(ConvertedContribution(events, v, r), ds) == RowOf(ConvertedContribution(events, w, r), ds)
            <==> (JoinedOf(events, v, r).Some? || (v.region == w.region && v.appVersion == w.appVersion))
  {
    MatchesAgree(events, v, r);
    MatchesAgree(events, w, r);
    var a, b := ConvertedContribution(events, v, r), ConvertedContribution(events, w, r);
    assert a.time == b.time && a.row.campaign == b.row.campaign;
    assert a.row == b.row <==> (JoinedOf(events, v, r).Some? || (v.region == w.region && v.appVersion == w.appVersion));
  }

  lemma AgreeingConversionsAgreeOnRows(events: seq<Event>, es: seq<Event>, r: Rules, ds: seq<Dimension>)
    requires r.window > 0 && Distinct(es, BusinessKey) && (forall e :: e in es <==> e in events)
    requires UnlinkedConversionsAgree(events, r)
    ensures RowsAgree(ContributedBy(events, es, r), ds)
  {
    var ms := ContributedBy(events, es, r);
    forall a, b | a in ms && b in ms && a.id == b.id
      ensures RowOf(a, ds) == RowOf(b, ds)
    {
      ContributedMember(events, es, r, a);
      ContributedMember(events, es, r, b);
      var e :| e in es && a in ContributionsOf(events, e, r);
      var f :| f in es && b in ContributionsOf(events, f, r);
      ContributionIds(events, e, r, a);
      ContributionIds(events, f, r, b);
      if OfConvertedClick(a) {
        ClaimsGoTogether(events, e, f, r, ds);
      } else {
        KeyIsOneElement(es, BusinessKey, e, f);
        BlockIsDistinct(events, e, r, ds);
        KeyIsOneElement(ContributionsOf(events, e, r), IdOf(), a, b);
      }
    }
  }

  lemma AgreeingRowsMeanAgreement(events: seq<Event>, es: seq<Event>, r: Rules, ds: seq<Dimension>)
    requires r.window > 0 && (forall e :: e in es <==> e in events)
    requires RowsAgree(ContributedBy(events, es, r), ds)
    ensures UnlinkedConversionsAgree(events, r)
  {
    forall v, w | v in events && w in events && MatchedConversion(events, v, r) && MatchedConversion(events, w, r)
                  && ClickLink(v) == ClickLink(w) && JoinedOf(events, v, r).None?
      ensures v.region == w.region && v.appVersion == w.appVersion
    {
      MatchedBlock(events, v, r);
      MatchedBlock(events, w, r);
      ContributedMember(events, es, r, ConvertedContribution(events, v, r));
      ContributedMember(events, es, r, ConvertedContribution(events, w, r));
      ClaimsGoTogether(events, v, w, r, ds);
    }
  }

  lemma OrderedIsReordered(events: seq<Event>)
    requires Distinct(events, BusinessKey)
    ensures Distinct(Ordered(events), BusinessKey) && forall e :: e in Ordered(events) <==> e in events
  {
    var a, b, c :=
        Filter(events, OfKind(Impression)), Filter(events, OfKind(Click)), Filter(events, OfKind(Conversion));
    FilterDistinct(events, OfKind(Impression), BusinessKey);
    FilterDistinct(events, OfKind(Click), BusinessKey);
    FilterDistinct(events, OfKind(Conversion), BusinessKey);
    KindsAreSorted(events, Impression);
    KindsAreSorted(events, Click);
    KindsAreSorted(events, Conversion);
    DistinctAppend(a, b);
    DistinctAppend(a + b, c);
  }

  lemma DistinctAppend(a: seq<Event>, b: seq<Event>)
    requires Distinct(a, BusinessKey) && Distinct(b, BusinessKey)
    requires forall e, f :: e in a && f in b ==> e.kind != f.kind
    ensures Distinct(a + b, BusinessKey)
  {
    var s := a + b;
    forall i, j | 0 <= i < j < |s|
      ensures BusinessKey(s[i]) != BusinessKey(s[j])
    {
      if j < |a| {
        assert s[i] == a[i] && s[j] == a[j];
      } else if i < |a| {
        assert s[i] in a && s[j] in b;
      } else {
        assert s[i] == b[i - |a|] && s[j] == b[j - |a|];
      }
    }
  }

  /** The value that a set of rows holds under one key. */
  function At(metrics: map<MetricKey, Tally>, key: MetricKey): Tally { if key in metrics then metrics[key] else ZERO }

  /** Rows built by aggregating contributions one by one hold what the batch calculation holds exactly if the
      conversions of every click without an impression agree on region and version. */
  lemma AggregationMeetsCalculation(events: seq<Event>, r: Rules, ds: seq<Dimension>)
    requires r.window > 0 && Distinct(events, BusinessKey)
    ensures var ms, metrics := ContributedBy(events, Ordered(events), r), Rows(AddedBy(events, Ordered(events), r, ds));
            (forall key :: Sum(RowFold(ms, key, ds)) == At(metrics, key)) <==> UnlinkedConversionsAgree(events, r)
  {
    var es := Ordered(events);
    var ms, metrics := ContributedBy(events, es, r), Rows(AddedBy(events, es, r, ds));
    OrderedIsReordered(events);
    OnlyClaimsRepeat(events, es, r, ds);
    AggregationMeetsCounting(ms, ds);
    forall key
      ensures At(metrics, key) == CountedOnce(ms, key, ds)
    {
      CalculationCountsOnce(events, es, r, ds, key);
      RowsAreTotals(AddedBy(events, es, r, ds), key);
    }
    if UnlinkedConversionsAgree(events, r) { AgreeingConversionsAgreeOnRows(events, es, r, ds); }
    if RowsAgree(ms, ds) { AgreeingRowsMeanAgreement(events, es, r, ds); }
  }
}
