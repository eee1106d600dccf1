/** What the batch calculation conserves: its cohorts are different groupings of the same events. */
module Conservation {
  import opened Seqs
  import opened Events
  import opened Measurement
  import opened Tallies
  import opened Dimensions
  import opened Oracle

  /** Which rows to sum: those of a cohort, or those of converted value in one currency. */
  datatype Choice = InCohort(cohort: Cohort) | InCurrency(currency: string)

  predicate Chooses(p: Choice, k: MetricKey) {
    match p
    case InCohort(c) => k.row.cohort == c
    case InCurrency(currency) => k.row.cohort == ConversionValue && k.row.currency == currency
  }

  function Where(metrics: map<MetricKey, Tally>, p: Choice): map<MetricKey, Tally> {
    map k | k in metrics && Chooses(p, k) :: metrics[k]
  }

  /** The sum of all rows that are chosen. */
  ghost function RowSum(metrics: map<MetricKey, Tally>, p: Choice): Tally { Sum(Where(metrics, p)) }

  function Chosen(a: Addition, p: Choice): Tally { if Chooses(p, a.key) then a.values else ZERO }

  function AddedSum(adds: seq<Addition>, p: Choice): Tally {
    if adds == [] then ZERO else Plus(AddedSum(adds[..|adds| - 1], p), Chosen(adds[|adds| - 1], p))
  }

  lemma TallyLaws(a: Tally, b: Tally, c: Tally)
    ensures Plus(Minus(a, b), Plus(b, c)) == Plus(a, c) && Plus(Minus(a, ZERO), Plus(ZERO, c)) == Plus(a, c)
    ensures Plus(a, ZERO) == a && Plus(ZERO, a) == a && Plus(Plus(a, b), c) == Plus(a, Plus(b, c))
  {
  }

  lemma RowSumOneMore(metrics: map<MetricKey, Tally>, a: Addition, p: Choice)
    ensures RowSum(AddTo(metrics, a), p) == Plus(RowSum(metrics, p), Chosen(a, p))
  {
    var prior := if a.key in metrics then metrics[a.key] else ZERO;
    if Chooses(p, a.key) {
      assert Where(AddTo(metrics, a), p) == Where(metrics, p)[a.key := Plus(prior, a.values)];
      SumReplaced(Where(metrics, p), a.key, Plus(prior, a.values));
    } else {
      assert Where(AddTo(metrics, a), p) == Where(metrics, p);
    }
    TallyLaws(RowSum(metrics, p), prior, a.values);
  }

  /** However many rows the additions spread over, summing the rows gives what was added. */
  lemma {:induction false} RowsSumToAdditions(adds: seq<Addition>, p: Choice)
    ensures RowSum(Rows(adds), p) == AddedSum(adds, p)
  {
    if adds == [] {
      assert Where(Rows(adds), p) == map[];
    } else {
      RowsSumToAdditions(adds[..|adds| - 1], p);
      RowSumOneMore(Rows(adds[..|adds| - 1]), adds[|adds| - 1], p);
    }
  }

  lemma {:induction false} AddedSumAppend(a: seq<Addition>, b: seq<Addition>, p: Choice)
    ensures AddedSum(a + b, p) == Plus(AddedSum(a, p), AddedSum(b, p))
  {
    if b == [] {
      assert a + b == a;
      TallyLaws(AddedSum(a, p), ZERO, ZERO);
    } else {
      assert (a + b)[..|a + b| - 1] == a + b[..|b| - 1];
      AddedSumAppend(a, b[..|b| - 1], p);
      TallyLaws(AddedSum(a, p), AddedSum(b[..|b| - 1], p), Chosen(b[|b| - 1], p));
    }
  }

  // What single events add to a cohort.

  function One(b: bool): int { if b then 1 else 0 }

  lemma SumOfOne(adds: seq<Addition>, p: Choice)
    requires |adds| == 1
    ensures AddedSum(adds, p) == Chosen(adds[0], p)
  {
    assert AddedSum(adds[..0], p) == ZERO;
    TallyLaws(Chosen(adds[0], p), ZERO, ZERO);
  }

  lemma SumOfTwo(adds: seq<Addition>, p: Choice)
    requires |adds| == 2
    ensures AddedSum(adds, p) == Plus(Chosen(adds[0], p), Chosen(adds[1], p))
  {
    SumOfOne(adds[..1], p);
  }

  lemma SumOfThree(adds: seq<Addition>, p: Choice)
    requires |adds| == 3
    ensures AddedSum(adds, p) == Plus(Plus(Chosen(adds[0], p), Chosen(adds[1], p)), Chosen(adds[2], p))
  {
    SumOfTwo(adds[..2], p);
  }

  function Within(cohort: Cohort, c: Cohort, values: Tally): Tally { if cohort == c then values else ZERO }

  predicate Adds(a: Addition, cohort: Cohort, values: Tally) { a.key.row.cohort == cohort && a.values == values }

  /** What additions to known cohorts sum to in one of them. */
  lemma ShareOfOne(adds: seq<Addition>, c0: Cohort, v0: Tally, c: Cohort)
    requires |adds| == 1 && Adds(adds[0], c0, v0)
    ensures AddedSum(adds, InCohort(c)) == Within(c0, c, v0)
  {
    SumOfOne(adds, InCohort(c));
  }

  lemma ShareOfTwo(adds: seq<Addition>, c0: Cohort, v0: Tally, c1: Cohort, v1: Tally, c: Cohort)
    requires |adds| == 2 && Adds(adds[0], c0, v0) && Adds(adds[1], c1, v1)
    ensures AddedSum(adds, InCohort(c)) == Plus(Within(c0, c, v0), Within(c1, c, v1))
  {
    SumOfTwo(adds, InCohort(c));
  }

  lemma ShareOfThree(adds: seq<Addition>, c0: Cohort, v0: Tally, c1: Cohort, v1: Tally, c2: Cohort, v2: Tally,
                     c: Cohort)
    requires |adds| == 3 && Adds(adds[0], c0, v0) && Adds(adds[1], c1, v1) && Adds(adds[2], c2, v2)
    ensures AddedSum(adds, InCohort(c)) == Plus(Plus(Within(c0, c, v0), Within(c1, c, v1)), Within(c2, c, v2))
  {
    SumOfThree(adds, InCohort(c));
  }

  lemma ThreeWithin(c0: Cohort, v0: Tally, c1: Cohort, v1: Tally, c2: Cohort, v2: Tally, c: Cohort)
    requires c0 != c1 && c1 != c2 && c0 != c2
    ensures Plus(Plus(Within(c0, c, v0), Within(c1, c, v1)), Within(c2, c, v2))
         == if c == c0 then v0 else if c == c1 then v1 else if c == c2 then v2 else ZERO
  {
    TallyLaws(v0, ZERO, ZERO);
    TallyLaws(v1, ZERO, ZERO);
    TallyLaws(v2, ZERO, ZERO);
  }

  lemma TwoWithin(c0: Cohort, v0: Tally, c1: Cohort, v1: Tally, c: Cohort)
    requires c0 != c1
    ensures Plus(Within(c0, c, v0), Within(c1, c, v1)) == if c == c0 then v0 else if c == c1 then v1 else ZERO
  {
    TallyLaws(v0, ZERO, ZERO);
    TallyLaws(v1, ZERO, ZERO);
  }

  /** What an event adds to each cohort. */
  function Share(events: seq<Event>, before: seq<Event>, e: Event, c: Cohort, r: Rules): Tally {
    match e.kind
    case Impression => if c == Occurrence || c == ByImpression then Tally(1, 0, 0, 0, 0, 0) else ZERO
    case Click =>
      if c == Occurrence || c == ByClick || (c == ByImpression && LinkedImpression(events, e, r).Some?)
      then Tally(0, 1, 0, 0, 0, 0)
      else ZERO
    case Conversion =>
      if !IsMatched(events, e, r) then if c == Occurrence then Tally(0, 0, 0, 1, 0, 0) else ZERO
      else if c == Occurrence then Tally(0, 0, 1, 0, 0, 0)
      else if c == ByClick then Tally(0, 0, 1, 0, One(IsFirst(events, before, e, r)), 0)
      else if c == ConversionValue then Tally(0, 0, 1, 0, 0, e.value)
      else ZERO
  }

  lemma ShareOfTwoIs(adds: seq<Addition>, c0: Cohort, v0: Tally, c1: Cohort, v1: Tally, c: Cohort)
    requires |adds| == 2 && Adds(adds[0], c0, v0) && Adds(adds[1], c1, v1) && c0 != c1
    ensures AddedSum(adds, InCohort(c)) == if c == c0 then v0 else if c == c1 then v1 else ZERO
  {
    ShareOfTwo(adds, c0, v0, c1, v1, c);
    TwoWithin(c0, v0, c1, v1, c);
  }

  lemma ShareOfThreeIs(adds: seq<Addition>, c0: Cohort, v0: Tally, c1: Cohort, v1: Tally, c2: Cohort, v2: Tally,
                       c: Cohort)
    requires |adds| == 3 && Adds(adds[0], c0, v0) && Adds(adds[1], c1, v1) && Adds(adds[2], c2, v2)
    requires c0 != c1 && c1 != c2 && c0 != c2
    ensures AddedSum(adds, InCohort(c)) == if c == c0 then v0 else if c == c1 then v1 else if c == c2 then v2 else ZERO
  {
    ShareOfThree(adds, c0, v0, c1, v1, c2, v2, c);
    ThreeWithin(c0, v0, c1, v1, c2, v2, c);
  }

  lemma ImpressionAdds(e: Event, r: Rules, ds: seq<Dimension>, adds: seq<Addition>)
    requires r.window > 0 && adds == ImpressionAdditions(e, r, ds)
    ensures |adds| == 2 && Adds(adds[0], Occurrence, Tally(1, 0, 0, 0, 0, 0))
            && Adds(adds[1], ByImpression, Tally(1, 0, 0, 0, 0, 0))
  {
  }

  lemma ClickAdds(e: Event, linked: Option<Event>, r: Rules, ds: seq<Dimension>, adds: seq<Addition>)
    requires r.window > 0 && adds == ClickAdditions(e, linked, r, ds)
    ensures |adds| == (if linked.Some? then 3 else 2)
    ensures Adds(adds[0], Occurrence, Tally(0, 1, 0, 0, 0, 0)) && Adds(adds[1], ByClick, Tally(0, 1, 0, 0, 0, 0))
    ensures linked.Some? ==> Adds(adds[2], ByImpression, Tally(0, 1, 0, 0, 0, 0))
  {
  }

  lemma ConversionAdds(v: Event, click: Option<Event>, linked: Option<Event>, first: bool, r: Rules, ds: seq<Dimension>,
                       adds: seq<Addition>)
    requires r.window > 0 && adds == ConversionAdditions(v, click, linked, first, r, ds)
    ensures if MatchReasonOf(click, v, r).Matched? then
              |adds| == 3 && Adds(adds[0], Occurrence, Tally(0, 0, 1, 0, 0, 0))
                  && Adds(adds[1], ByClick, Tally(0, 0, 1, 0, One(first), 0))
              && Adds(adds[2], ConversionValue, Tally(0, 0, 1, 0, 0, v.value)) && adds[2].key.row.currency == v.currency
            else |adds| == 1 && Adds(adds[0], Occurrence, Tally(0, 0, 0, 1, 0, 0))
  {
  }

  lemma EventShare(events: seq<Event>, before: seq<Event>, e: Event, c: Cohort, r: Rules, ds: seq<Dimension>,
                   adds: seq<Addition>)
    requires r.window > 0 && adds == AdditionsOf(events, before, e, r, ds)
    ensures AddedSum(adds, InCohort(c)) == Share(events, before, e, c, r)
  {
    match e.kind
    case Impression =>
      ImpressionAdds(e, r, ds, adds);
      ShareOfTwoIs(adds, Occurrence, Tally(1, 0, 0, 0, 0, 0), ByImpression, Tally(1, 0, 0, 0, 0, 0), c);
    case Click =>
      var one := Tally(0, 1, 0, 0, 0, 0);
      ClickAdds(e, LinkedImpression(events, e, r), r, ds, adds);
      if LinkedImpression(events, e, r).Some? {
        ShareOfThreeIs(adds, Occurrence, one, ByClick, one, ByImpression, one, c);
      } else {
        ShareOfTwoIs(adds, Occurrence, one, ByClick, one, c);
      }
    case Conversion =>
      var click, linked, first := ClickOf(events, e), JoinedOf(events, e, r), IsFirst(events, before, e, r);
      ConversionAdds(e, click, linked, first, r, ds, adds);
      if IsMatched(events, e, r) {
        ShareOfThreeIs(adds, Occurrence, Tally(0, 0, 1, 0, 0, 0), ByClick, Tally(0, 0, 1, 0, One(first), 0),
                       ConversionValue, Tally(0, 0, 1, 0, 0, e.value), c);
      } else {
        ShareOfOne(adds, Occurrence, Tally(0, 0, 0, 1, 0, 0), c);
      }
  }

  // What whole calculations conserve.

  function CohortSum(events: seq<Event>, es: seq<Event>, c: Cohort, r: Rules, ds: seq<Dimension>): Tally
    requires r.window > 0
  {
    AddedSum(AddedBy(events, es, r, ds), InCohort(c))
  }

  function CountOf(es: seq<Event>, kind: Kind): nat { |Filter(es, OfKind(kind))| }

  lemma CountOneMore(before: seq<Event>, e: Event, kind: Kind)
    ensures CountOf(before + [e], kind) == CountOf(before, kind) + One(e.kind == kind)
  {
    FilterAppend(before, [e], OfKind(kind));
  }

  lemma CohortOneMore(events: seq<Event>, es: seq<Event>, c: Cohort, r: Rules, ds: seq<Dimension>)
    requires r.window > 0 && es != []
    ensures CohortSum(events, es, c, r, ds)
         == Plus(CohortSum(events, es[..|es| - 1], c, r, ds), Share(events, es[..|es| - 1], es[|es| - 1], c, r))
  {
    var before, e := es[..|es| - 1], es[|es| - 1];
    AddedSumAppend(AddedBy(events, before, r, ds), AdditionsOf(events, before, e, r, ds), InCohort(c));
    EventShare(events, before, e, c, r, ds, AdditionsOf(events, before, e, r, ds));
  }

  /** Impressions, clicks and conversions are all counted where they occur, every conversion as either
      matched or not. */
  lemma {:induction false} OccurrencesAreAllEvents(events: seq<Event>, es: seq<Event>, r: Rules, ds: seq<Dimension>)
    requires r.window > 0
    ensures var t := CohortSum(events, es, Occurrence, r, ds);
            && t.matched + t.unmatched == CountOf(es, Conversion)
            && t.clicks == CountOf(es, Click) && t.impressions == CountOf(es, Impression)
  {
    if es != [] {
      var before, e := es[..|es| - 1], es[|es| - 1];
      assert es == before + [e];
      OccurrencesAreAllEvents(events, before, r, ds);
      CohortOneMore(events, es, Occurrence, r, ds);
      CountOneMore(before, e, Impression);
      CountOneMore(before, e, Click);
      CountOneMore(before, e, Conversion);
    }
  }

  lemma SharesRegroup(events: seq<Event>, before: seq<Event>, e: Event, r: Rules)
    ensures var here, byClick := Share(events, before, e, Occurrence, r), Share(events, before, e, ByClick, r);
            && here.matched == byClick.matched == Share(events, before, e, ConversionValue, r).matched
            && here.clicks == byClick.clicks
               && here.impressions == Share(events, before, e, ByImpression, r).impressions
  {
  }

  /** The cohorts regroup the same conversions and the same clicks. */
  lemma {:induction false} CohortsRegroup(events: seq<Event>, es: seq<Event>, r: Rules, ds: seq<Dimension>)
    requires r.window > 0
    ensures var here, byClick := CohortSum(events, es, Occurrence, r, ds), CohortSum(events, es, ByClick, r, ds);
            && here.matched == byClick.matched == CohortSum(events, es, ConversionValue, r, ds).matched
            && here.clicks == byClick.clicks
               && here.impressions == CohortSum(events, es, ByImpression, r, ds).impressions
  {
    if es != [] {
      var before := es[..|es| - 1];
      CohortsRegroup(events, before, r, ds);
      CohortOneMore(events, es, Occurrence, r, ds);
      CohortOneMore(events, es, ByClick, r, ds);
      CohortOneMore(events, es, ByImpression, r, ds);
      CohortOneMore(events, es, ConversionValue, r, ds);
      SharesRegroup(events, before, es[|es| - 1], r);
    }
  }

  lemma OneMoreIsOneMore(was: set<Link>, k: Link)
    ensures |was + {k}| == if k in was then |was| else |was| + 1
  {
    if k in was { assert was + {k} == was; }
  }

  lemma ConvertedGrows(events: seq<Event>, before: seq<Event>, e: Event, r: Rules)
    ensures Converted(events, before + [e], r)
         == if e.kind.Conversion? && IsMatched(events, e, r) then Converted(events, before, r) + {ClickLink(e)}
            else Converted(events, before, r)
  {
    assert forall v :: v in before + [e] <==> v in before || v == e;
  }

  lemma OneMoreLink(events: seq<Event>, before: seq<Event>, e: Event, r: Rules)
    ensures |Converted(events, before + [e], r)|
            == |Converted(events, before, r)| + Share(events, before, e, ByClick, r).converted
  {
    ConvertedGrows(events, before, e, r);
    ShareConverted(events, before, e, r);
    OneMoreIsOneMore(Converted(events, before, r), ClickLink(e));
  }

  lemma ShareConverted(events: seq<Event>, before: seq<Event>, e: Event, r: Rules)
    ensures Share(events, before, e, ByClick, r).converted
         == if e.kind.Conversion? && IsMatched(events, e, r) && ClickLink(e) !in Converted(events, before, r) then 1
            else 0
  {
  }

  /** Converted clicks are the distinct clicks that some conversion was matched to. */
  lemma {:induction false} ConvertedAreDistinct(events: seq<Event>, es: seq<Event>, r: Rules, ds: seq<Dimension>)
    requires r.window > 0
    ensures CohortSum(events, es, ByClick, r, ds).converted == |Converted(events, es, r)|
  {
    if es != [] {
      var before, e := es[..|es| - 1], es[|es| - 1];
      assert es == before + [e];
      ConvertedAreDistinct(events, before, r, ds);
      CohortOneMore(events, es, ByClick, r, ds);
      OneMoreLink(events, before, e, r);
    }
  }

  function LinksOf(cs: seq<Event>): set<Link> { set c | c in cs :: ClickLink(c) }

  lemma {:induction false} NoMoreLinksThanClicks(cs: seq<Event>)
    ensures |LinksOf(cs)| <= |cs|
  {
    if cs != [] {
      var init, c := cs[..|cs| - 1], cs[|cs| - 1];
      assert cs == init + [c];
      NoMoreLinksThanClicks(init);
      assert LinksOf(cs) == LinksOf(init) + {ClickLink(c)};
    }
  }

  lemma SubsetIsSmaller(a: set<Link>, b: set<Link>)
    requires a <= b
    ensures |a| <= |b|
  {
    assert b == a + (b - a);
  }

  /** No more clicks convert than there are clicks. */
  lemma ConvertedAreClicks(events: seq<Event>, es: seq<Event>, r: Rules, ds: seq<Dimension>)
    requires r.window > 0 && forall e :: e in es <==> e in events
    ensures CohortSum(events, es, ByClick, r, ds).converted <= CohortSum(events, es, ByClick, r, ds).clicks
  {
    ConvertedAreDistinct(events, es, r, ds);
    OccurrencesAreAllEvents(events, es, r, ds);
    CohortsRegroup(events, es, r, ds);
    var clicks := Filter(es, OfKind(Click));
    KindsAreSorted(es, Click);
    forall k | k in Converted(events, es, r)
      ensures k in LinksOf(clicks)
    {
      TableHolds(events, Click, k);
      assert Table(events, Click)[k] in clicks;
    }
    SubsetIsSmaller(Converted(events, es, r), LinksOf(clicks));
    NoMoreLinksThanClicks(clicks);
  }

  /** The value of the matched conversions of one currency, and their number. */
  function ValueIn(events: seq<Event>, es: seq<Event>, currency: string, r: Rules): Tally {
    if es == [] then ZERO
    else
      var before, v := ValueIn(events, es[..|es| - 1], currency, r), es[|es| - 1];
      if v.kind.Conversion? && IsMatched(events, v, r) && v.currency == currency
      then Plus(before, Tally(0, 0, 1, 0, 0, v.value))
      else before
  }

  predicate AddsNoValue(a: Addition) { a.key.row.cohort != ConversionValue }

  lemma NoValueChosen(a: Addition, currency: string)
    requires AddsNoValue(a)
    ensures Chosen(a, InCurrency(currency)) == ZERO
  {
  }

  lemma {:induction false} OthersAddNoValue(adds: seq<Addition>, currency: string)
    requires forall n :: 0 <= n < |adds| ==> AddsNoValue(adds[n])
    ensures AddedSum(adds, InCurrency(currency)) == ZERO
  {
    if adds != [] {
      OthersAddNoValue(adds[..|adds| - 1], currency);
      NoValueChosen(adds[|adds| - 1], currency);
    }
  }

  lemma LastAddsValue(adds: seq<Addition>, currency: string)
    requires |adds| == 3 && adds[0].key.row.cohort == Occurrence && adds[1].key.row.cohort == ByClick
    requires adds[2].key.row.cohort == ConversionValue
    ensures AddedSum(adds, InCurrency(currency))
         == if adds[2].key.row.currency == currency then adds[2].values else ZERO
  {
    SumOfThree(adds, InCurrency(currency));
    TallyLaws(adds[2].values, ZERO, ZERO);
  }

  lemma EventValue(events: seq<Event>, before: seq<Event>, e: Event, currency: string, r: Rules, ds: seq<Dimension>,
                   adds: seq<Addition>)
    requires r.window > 0 && adds == AdditionsOf(events, before, e, r, ds)
    ensures AddedSum(adds, InCurrency(currency))
         == if e.kind.Conversion? && IsMatched(events, e, r) && e.currency == currency
            then Tally(0, 0, 1, 0, 0, e.value) else ZERO
  {
    match e.kind
    case Impression =>
      ImpressionAdds(e, r, ds, adds);
      OthersAddNoValue(adds, currency);
    case Click =>
      ClickAdds(e, LinkedImpression(events, e, r), r, ds, adds);
      OthersAddNoValue(adds, currency);
    case Conversion =>
      ConversionAdds(e, ClickOf(events, e), JoinedOf(events, e, r), IsFirst(events, before, e, r), r, ds, adds);
      if IsMatched(events, e, r) { LastAddsValue(adds, currency); } else { OthersAddNoValue(adds, currency); }
  }

  /** In every currency, the value rows hold the value of exactly the matched conversions. */
  lemma {:induction false} ValueIsConserved(events: seq<Event>, es: seq<Event>, currency: string, r: Rules,
                                            ds: seq<Dimension>)
    requires r.window > 0
    ensures AddedSum(AddedBy(events, es, r, ds), InCurrency(currency)) == ValueIn(events, es, currency, r)
  {
    if es != [] {
      var before, e := es[..|es| - 1], es[|es| - 1];
      ValueIsConserved(events, before, currency, r, ds);
      AddedSumAppend(AddedBy(events, before, r, ds), AdditionsOf(events, before, e, r, ds), InCurrency(currency));
      EventValue(events, before, e, currency, r, ds, AdditionsOf(events, before, e, r, ds));
      TallyLaws(ValueIn(events, before, currency, r), ZERO, ZERO);
    }
  }

  /** The rows of a calculation, summed over a cohort or a currency. */
  lemma CalculationConserves(events: seq<Event>, r: Rules, ds: seq<Dimension>, metrics: map<MetricKey, Tally>,
                             currency: string)
    requires r.window > 0 && Distinct(events, BusinessKey) && metrics == Rows(AddedBy(events, Ordered(events), r, ds))
    ensures var here, byClick := RowSum(metrics, InCohort(Occurrence)), RowSum(metrics, InCohort(ByClick));
            var value := RowSum(metrics, InCohort(ConversionValue));
            && here.matched + here.unmatched == CountOf(events, Conversion) && here.clicks == CountOf(events, Click)
            && here.impressions == CountOf(events, Impression) == RowSum(metrics, InCohort(ByImpression)).impressions
            && here.matched == byClick.matched == value.matched && here.clicks == byClick.clicks
            && byClick.converted == |Converted(events, events, r)| <= byClick.clicks
            && RowSum(metrics, InCurrency(currency)) == ValueIn(events, Ordered(events), currency, r)
  {
    var es := Ordered(events);
    RowsAreCohorts(events, r, ds, metrics, Occurrence);
    RowsAreCohorts(events, r, ds, metrics, ByClick);
    RowsAreCohorts(events, r, ds, metrics, ByImpression);
    RowsAreCohorts(events, r, ds, metrics, ConversionValue);
    RowsSumToAdditions(AddedBy(events, es, r, ds), InCurrency(currency));
    OrderedHolds(events);
    OccurrencesAreAllEvents(events, es, r, ds);
    CohortsRegroup(events, es, r, ds);
    ConvertedAreDistinct(events, es, r, ds);
    ConvertedAreClicks(events, es, r, ds);
    ValueIsConserved(events, es, currency, r, ds);
    SameConverted(events, es, r);
  }

  lemma RowsAreCohorts(events: seq<Event>, r: Rules, ds: seq<Dimension>, metrics: map<MetricKey, Tally>, c: Cohort)
    requires r.window > 0 && metrics == Rows(AddedBy(events, Ordered(events), r, ds))
    ensures RowSum(metrics, InCohort(c)) == CohortSum(events, Ordered(events), c, r, ds)
  {
    RowsSumToAdditions(AddedBy(events, Ordered(events), r, ds), InCohort(c));
  }

  lemma SameConverted(events: seq<Event>, es: seq<Event>, r: Rules)
    requires forall e :: e in es <==> e in events
    ensures Converted(events, es, r) == Converted(events, events, r)
  {
  }

  lemma {:induction false} FilterTwice(events: seq<Event>, a: Kind, b: Kind)
    ensures Filter(Filter(events, OfKind(a)), OfKind(b)) == if a == b then Filter(events, OfKind(a)) else []
  {
    if events != [] {
      FilterTwice(events[1..], a, b);
      var f := Filter(events, OfKind(a));
      if events[0].kind == a { assert f[1..] == Filter(events[1..], OfKind(a)); }
    }
  }

  lemma OrderedHolds(events: seq<Event>)
    ensures forall e :: e in Ordered(events) <==> e in events
    ensures forall kind :: CountOf(Ordered(events), kind) == CountOf(events, kind)
  {
    KindsAreSorted(events, Impression);
    KindsAreSorted(events, Click);
    KindsAreSorted(events, Conversion);
    var a, b, c :=
        Filter(events, OfKind(Impression)), Filter(events, OfKind(Click)), Filter(events, OfKind(Conversion));
    forall kind
      ensures CountOf(a + b + c, kind) == CountOf(events, kind)
    {
      FilterAppend(a + b, c, OfKind(kind));
      FilterAppend(a, b, OfKind(kind));
      FilterTwice(events, Impression, kind);
      FilterTwice(events, Click, kind);
      FilterTwice(events, Conversion, kind);
    }
  }
}
