/** Two orders of the same events: what the batch calculation makes of each. Tables, links, matches and contributions
    are the same; a row differs only in the clicks it counts as converted, because each is counted where its first
    matched conversion falls. */
module Reordering {
  import opened Seqs
  import opened Events
  import opened Measurement
  import opened Tallies
  import opened Dimensions
  import opened Oracle
  import opened Counting
  import opened Batch
  import opened BatchTotals

  /** The same events in another order, no business key twice in either. */
  ghost predicate Reordered(a: seq<Event>, b: seq<Event>) {
    Distinct(a, BusinessKey) && Distinct(b, BusinessKey) && forall e :: e in a <==> e in b
  }

  lemma TablesMatch(a: seq<Event>, b: seq<Event>, kind: Kind, k: Link)
    requires Reordered(a, b)
    ensures Find(Table(a, kind), k) == Find(Table(b, kind), k)
  {
    TableHolds(a, kind, k);
    TableHolds(b, kind, k);
    if k in Table(a, kind) {
      KeyIsOneElement(a, BusinessKey, Table(a, kind)[k], Table(b, kind)[k]);
    }
  }

  lemma LinksMatch(a: seq<Event>, b: seq<Event>, c: Event, r: Rules)
    requires Reordered(a, b)
    ensures LinkOf(a, c, r) == LinkOf(b, c, r) && LinkedImpression(a, c, r) == LinkedImpression(b, c, r)
  {
    TablesMatch(a, b, Impression, ImpressionLink(c));
  }

  lemma ClicksMatch(a: seq<Event>, b: seq<Event>, v: Event, r: Rules)
    requires Reordered(a, b)
    ensures ClickOf(a, v) == ClickOf(b, v) && LinkedClickOf(a, v, r) == LinkedClickOf(b, v, r)
    ensures JoinedOf(a, v, r) == JoinedOf(b, v, r) && AssociationOf(a, v, r) == AssociationOf(b, v, r)
  {
    TablesMatch(a, b, Click, ClickLink(v));
    if ClickOf(a, v).Some? { LinksMatch(a, b, ClickOf(a, v).value, r); }
  }

  lemma ContributionsMatch(a: seq<Event>, b: seq<Event>, e: Event, r: Rules)
    requires r.window > 0 && Reordered(a, b)
    ensures ContributionsOf(a, e, r) == ContributionsOf(b, e, r)
  {
    LinksMatch(a, b, e, r);
    ClicksMatch(a, b, e, r);
  }

  lemma AgreementMatches(a: seq<Event>, b: seq<Event>, r: Rules)
    requires Reordered(a, b) && UnlinkedConversionsAgree(a, r)
    ensures UnlinkedConversionsAgree(b, r)
  {
    forall v, w | v in b && w in b && MatchedConversion(b, v, r) && MatchedConversion(b, w, r)
                  && ClickLink(v) == ClickLink(w) && JoinedOf(b, v, r).None?
      ensures v.region == w.region && v.appVersion == w.appVersion
    {
      ClicksMatch(a, b, v, r);
      ClicksMatch(a, b, w, r);
    }
  }

  /** Under the agreement, the rows do not depend on the order of the events. */
  lemma RowsMatch(a: seq<Event>, b: seq<Event>, r: Rules, ds: seq<Dimension>, key: MetricKey)
    requires r.window > 0 && Reordered(a, b) && UnlinkedConversionsAgree(a, r)
    ensures At(Rows(AddedBy(a, Ordered(a), r, ds)), key) == At(Rows(AddedBy(b, Ordered(b), r, ds)), key)
  {
    AgreementMatches(a, b, r);
    AggregationMeetsCalculation(a, r, ds);
    AggregationMeetsCalculation(b, r, ds);
    OrderedIsReordered(a);
    OrderedIsReordered(b);
    var ms, ns := ContributedBy(a, Ordered(a), r), ContributedBy(b, Ordered(b), r);
    forall m
      ensures m in ms <==> m in ns
    {
      ContributedMember(a, Ordered(a), r, m);
      ContributedMember(b, Ordered(b), r, m);
      forall e | e in a
        ensures ContributionsOf(a, e, r) == ContributionsOf(b, e, r)
      {
        ContributionsMatch(a, b, e, r);
      }
    }
    SameRowFold(ms, ns, key, ds, a, r);
  }

  lemma SameRowFold(ms: seq<Contribution>, ns: seq<Contribution>, key: MetricKey, ds: seq<Dimension>,
                    events: seq<Event>, r: Rules)
    requires r.window > 0 && Distinct(events, BusinessKey) && ms == ContributedBy(events, Ordered(events), r)
    requires forall m :: m in ms <==> m in ns
    ensures RowFold(ms, key, ds) == RowFold(ns, key, ds)
  {
    var f, g := Filter(ms, OfKey(key, ds)), Filter(ns, OfKey(key, ds));
    OrderedIsReordered(events);
    OnlyClaimsRepeat(events, Ordered(events), r, ds);
    forall m
      ensures m in f <==> m in g
      ensures m in f ==> m in ms
    {
      FilterMember(ms, OfKey(key, ds), m);
      FilterMember(ns, OfKey(key, ds), m);
    }
    forall a, b | a in f && b in f && a.id == b.id
      ensures ValuesOf(a) == ValuesOf(b)
    {
      SameIdSameValues(ms, a, b);
    }
    FoldOfSameSet(g, f);
  }

  // Which row claims a click.

  /** The first conversion of `es` that is matched to the click `k`. */
  function FirstClaim(events: seq<Event>, es: seq<Event>, k: Link, r: Rules): Option<Event> {
    if es == [] then None
    else
      var before, v := FirstClaim(events, es[..|es| - 1], k, r), es[|es| - 1];
      if before.Some? then before
      else if MatchedConversion(events, v, r) && ClickLink(v) == k then Some(v)
      else None
  }

  lemma {:induction false} FirstClaimIs(events: seq<Event>, es: seq<Event>, k: Link, r: Rules)
    ensures var v := FirstClaim(events, es, k, r);
            && (v.Some? <==> k in Converted(events, es, r))
            && (v.Some? ==> v.value in es && MatchedConversion(events, v.value, r) && ClickLink(v.value) == k)
  {
    if es != [] {
      assert es == es[..|es| - 1] + [es[|es| - 1]];
      FirstClaimIs(events, es[..|es| - 1], k, r);
    }
  }

  /** The clicks claimed by a conversion whose contribution falls into the row `key`. */
  function ClaimedIn(events: seq<Event>, es: seq<Event>, key: MetricKey, r: Rules, ds: seq<Dimension>): set<Link>
    requires r.window > 0
  {
    set k | k in Converted(events, es, r) && ClaimsIn(events, FirstClaim(events, es, k, r), key, r, ds)
  }

  predicate ClaimsIn(events: seq<Event>, v: Option<Event>, key: MetricKey, r: Rules, ds: seq<Dimension>)
    requires r.window > 0
  {
    v.Some? && MatchedConversion(events, v.value, r) && RowOf(ConvertedContribution(events, v.value, r), ds) == key
  }

  lemma ConvertedTotal3(a: seq<Addition>, key: MetricKey)
    requires |a| == 3 && a[0].values.converted == 0 && a[2].values.converted == 0
    ensures Total(a, key).converted == if a[1].key == key then a[1].values.converted else 0
  {
    assert a[..2][..1] == a[..1] && a[..1][..0] == a[..0];
    assert Total(a[..0], key) == ZERO;
    assert Total(a[..1], key).converted == 0;
    assert Total(a[..2], key).converted == if a[1].key == key then a[1].values.converted else 0;
  }

  lemma {:induction false} NoConvertedTotal(a: seq<Addition>, key: MetricKey)
    requires forall n :: 0 <= n < |a| ==> a[n].values.converted == 0
    ensures Total(a, key).converted == 0
  {
    if a != [] { NoConvertedTotal(a[..|a| - 1], key); }
  }

  lemma ConvertedByEvent(events: seq<Event>, before: seq<Event>, e: Event, r: Rules, ds: seq<Dimension>, key: MetricKey)
    requires r.window > 0
    ensures Total(AdditionsOf(events, before, e, r, ds), key).converted
         == if ClaimsIn(events, Some(e), key, r, ds) && IsFirst(events, before, e, r) then 1 else 0
  {
    var adds := AdditionsOf(events, before, e, r, ds);
    if MatchedConversion(events, e, r) {
      MatchesAgree(events, e, r);
      var c := LinkedClickOf(events, e, r).value;
      KeysAgree(e, c.impression, c.click.time, ByClick, ALL_CURRENCIES, ConvertedClicks, 1, r, ds);
      ConvertedTotal3(adds, key);
    } else {
      NoConvertedTotal(adds, key);
    }
  }

  lemma FirstClaimStep(events: seq<Event>, before: seq<Event>, e: Event, k: Link, r: Rules)
    ensures FirstClaim(events, before + [e], k, r)
         == if FirstClaim(events, before, k, r).Some? then FirstClaim(events, before, k, r)
            else if MatchedConversion(events, e, r) && ClickLink(e) == k then Some(e) else None
  {
    assert (before + [e])[..|before|] == before;
  }

  lemma FirstClaimOneMore(events: seq<Event>, before: seq<Event>, e: Event, k: Link, r: Rules)
    ensures FirstClaim(events, before + [e], k, r)
         == if k in Converted(events, before, r) then FirstClaim(events, before, k, r)
            else if MatchedConversion(events, e, r) && ClickLink(e) == k then Some(e) else None
  {
    FirstClaimStep(events, before, e, k, r);
    FirstClaimIs(events, before, k, r);
  }

  lemma ClaimedMember(events: seq<Event>, es: seq<Event>, key: MetricKey, k: Link, r: Rules, ds: seq<Dimension>)
    requires r.window > 0
    ensures k in ClaimedIn(events, es, key, r, ds) <==> ClaimsIn(events, FirstClaim(events, es, k, r), key, r, ds)
  {
    FirstClaimIs(events, es, k, r);
  }

  lemma ClaimedOneMore(events: seq<Event>, before: seq<Event>, e: Event, key: MetricKey, r: Rules, ds: seq<Dimension>)
    requires r.window > 0
    ensures |ClaimedIn(events, before + [e], key, r, ds)|
         == |ClaimedIn(events, before, key, r, ds)|
            + if ClaimsIn(events, Some(e), key, r, ds) && IsFirst(events, before, e, r) then 1 else 0
  {
    var was, now := ClaimedIn(events, before, key, r, ds), ClaimedIn(events, before + [e], key, r, ds);
    var news := ClaimsIn(events, Some(e), key, r, ds) && IsFirst(events, before, e, r);
    forall k
      ensures k in now <==> k in was || (news && k == ClickLink(e))
      ensures news && k == ClickLink(e) ==> k !in was
    {
      ClaimedMember(events, before, key, k, r, ds);
      ClaimedMember(events, before + [e], key, k, r, ds);
      FirstClaimOneMore(events, before, e, k, r);
      FirstClaimIs(events, before, k, r);
    }
    if news { assert now == was + {ClickLink(e)}; } else { assert now == was; }
  }

  /** A row's converted clicks are the clicks whose first matched conversion falls into that row. */
  lemma {:induction false} ConvertedAreFirstClaims(events: seq<Event>, es: seq<Event>, key: MetricKey, r: Rules,
                                                   ds: seq<Dimension>)
    requires r.window > 0
    ensures Total(AddedBy(events, es, r, ds), key).converted == |ClaimedIn(events, es, key, r, ds)|
  {
    if es != [] {
      var before, e := es[..|es| - 1], es[|es| - 1];
      assert es == before + [e];
      ConvertedAreFirstClaims(events, before, key, r, ds);
      TotalAppend(AddedBy(events, before, r, ds), AdditionsOf(events, before, e, r, ds), key);
      ConvertedByEvent(events, before, e, r, ds, key);
      ClaimedOneMore(events, before, e, key, r, ds);
    }
  }

  lemma {:induction false} FirstClaimAppend(events: seq<Event>, a: seq<Event>, b: seq<Event>, k: Link, r: Rules)
    ensures FirstClaim(events, a + b, k, r)
         == if FirstClaim(events, a, k, r).Some? then FirstClaim(events, a, k, r) else FirstClaim(events, b, k, r)
  {
    if b == [] {
      assert a + b == a;
    } else {
      assert (a + b)[..|a + b| - 1] == a + b[..|b| - 1];
      FirstClaimAppend(events, a, b[..|b| - 1], k, r);
    }
  }

  lemma {:induction false} FirstClaimFiltered(events: seq<Event>, es: seq<Event>, p: Event -> bool, k: Link, r: Rules)
    requires forall e :: e in es && MatchedConversion(events, e, r) && ClickLink(e) == k ==> p(e)
    ensures FirstClaim(events, Filter(es, p), k, r) == FirstClaim(events, es, k, r)
  {
    if es != [] {
      var before, e := es[..|es| - 1], es[|es| - 1];
      assert es == before + [e];
      FirstClaimFiltered(events, before, p, k, r);
      FilterOneMore(before, e, p);
      FirstClaimStep(events, before, e, k, r);
      FirstClaimStep(events, Filter(before, p), e, k, r);
    }
  }

  lemma FirstClaimOrdered(events: seq<Event>, k: Link, r: Rules)
    ensures FirstClaim(events, Ordered(events), k, r) == FirstClaim(events, events, k, r)
  {
    var a, b, c :=
        Filter(events, OfKind(Impression)), Filter(events, OfKind(Click)), Filter(events, OfKind(Conversion));
    KindsAreSorted(events, Impression);
    KindsAreSorted(events, Click);
    FirstClaimIs(events, a, k, r);
    FirstClaimIs(events, b, k, r);
    FirstClaimAppend(events, a + b, c, k, r);
    FirstClaimAppend(events, a, b, k, r);
    FirstClaimFiltered(events, events, OfKind(Conversion), k, r);
  }

  lemma {:induction false} FirstClaimMatches(a: seq<Event>, b: seq<Event>, es: seq<Event>, k: Link, r: Rules)
    requires Reordered(a, b)
    ensures FirstClaim(a, es, k, r) == FirstClaim(b, es, k, r)
  {
    if es != [] {
      FirstClaimMatches(a, b, es[..|es| - 1], k, r);
      ClicksMatch(a, b, es[|es| - 1], r);
    }
  }

  function OtherThan(key: Business): Event -> bool { (e: Event) => BusinessKey(e) != key }

  /** The same events with `v` moved to the front. */
  function Promote(events: seq<Event>, v: Event): seq<Event> { [v] + Filter(events, OtherThan(BusinessKey(v))) }

  lemma PromoteReorders(events: seq<Event>, v: Event)
    requires Distinct(events, BusinessKey) && v in events
    ensures Reordered(events, Promote(events, v))
  {
    var rest := Filter(events, OtherThan(BusinessKey(v)));
    FilterDistinct(events, OtherThan(BusinessKey(v)), BusinessKey);
    forall e
      ensures e in rest <==> e in events && e != v
    {
      FilterMember(events, OtherThan(BusinessKey(v)), e);
      if e in events && BusinessKey(e) == BusinessKey(v) { KeyIsOneElement(events, BusinessKey, e, v); }
    }
    var all := [v] + rest;
    forall i, j | 0 <= i < j < |all|
      ensures BusinessKey(all[i]) != BusinessKey(all[j])
    {
      FilterMember(events, OtherThan(BusinessKey(v)), rest[j - 1]);
      assert all[j] == rest[j - 1] && (i > 0 ==> all[i] == rest[i - 1]);
    }
  }

  /** Moved to the front, a matched conversion claims its click; every other click is claimed as before. */
  lemma PromotedClaims(events: seq<Event>, v: Event, k: Link, r: Rules)
    requires Distinct(events, BusinessKey) && v in events && MatchedConversion(events, v, r)
    ensures var a := Promote(events, v);
            FirstClaim(a, Ordered(a), k, r) == if k == ClickLink(v) then Some(v) else FirstClaim(events, events, k, r)
  {
    var a, rest := Promote(events, v), Filter(events, OtherThan(BusinessKey(v)));
    PromoteReorders(events, v);
    FirstClaimOrdered(a, k, r);
    FirstClaimMatches(events, a, a, k, r);
    FirstClaimAppend(events, [v], rest, k, r);
    assert [v][..0] == [];
    assert FirstClaim(events, [v], k, r) == if k == ClickLink(v) then Some(v) else None;
    if k != ClickLink(v) {
      forall e | e in events && MatchedConversion(events, e, r) && ClickLink(e) == k
        ensures OtherThan(BusinessKey(v))(e)
      {
        if BusinessKey(e) == BusinessKey(v) { KeyIsOneElement(events, BusinessKey, e, v); }
      }
      FirstClaimFiltered(events, events, OtherThan(BusinessKey(v)), k, r);
    }
  }

  lemma SameClaim(a: seq<Event>, b: seq<Event>, v: Option<Event>, key: MetricKey, r: Rules, ds: seq<Dimension>)
    requires r.window > 0 && Reordered(a, b)
    ensures ClaimsIn(a, v, key, r, ds) <==> ClaimsIn(b, v, key, r, ds)
  {
    if v.Some? { ClicksMatch(a, b, v.value, r); }
  }

  /** The clicks whose claim falls into the row `key` once `v` has been moved to the front. */
  ghost function ClaimedAfter(events: seq<Event>, v: Event, key: MetricKey, r: Rules, ds: seq<Dimension>): set<Link>
    requires r.window > 0
  {
    ClaimedIn(Promote(events, v), Ordered(Promote(events, v)), key, r, ds)
  }

  lemma PromotedMember(events: seq<Event>, v: Event, key: MetricKey, k: Link, r: Rules, ds: seq<Dimension>)
    requires r.window > 0 && Distinct(events, BusinessKey) && v in events && MatchedConversion(events, v, r)
    ensures k in ClaimedAfter(events, v, key, r, ds)
            <==> if k == ClickLink(v) then RowOf(ConvertedContribution(events, v, r), ds) == key
                 else ClaimsIn(events, FirstClaim(events, events, k, r), key, r, ds)
  {
    var a := Promote(events, v);
    PromoteReorders(events, v);
    ClaimedMember(a, Ordered(a), key, k, r, ds);
    PromotedClaims(events, v, k, r);
    SameClaim(events, a, FirstClaim(a, Ordered(a), k, r), key, r, ds);
  }

  lemma RowConverted(events: seq<Event>, key: MetricKey, r: Rules, ds: seq<Dimension>)
    requires r.window > 0
    ensures At(Rows(AddedBy(events, Ordered(events), r, ds)), key).converted
            == |ClaimedIn(events, Ordered(events), key, r, ds)|
  {
    ConvertedAreFirstClaims(events, Ordered(events), key, r, ds);
    RowsAreTotals(AddedBy(events, Ordered(events), r, ds), key);
  }

  /** Two matched conversions of one click, the first of them of the row `key` and the second of another. */
  predicate Rivals(events: seq<Event>, v: Event, w: Event, key: MetricKey, r: Rules, ds: seq<Dimension>)
    requires r.window > 0
  {
    && v in events && w in events
    && MatchedConversion(events, v, r) && MatchedConversion(events, w, r) && ClickLink(v) == ClickLink(w)
    && key == RowOf(ConvertedContribution(events, v, r), ds) != RowOf(ConvertedContribution(events, w, r), ds)
  }

  lemma OneClaimMoves(events: seq<Event>, v: Event, w: Event, key: MetricKey, k: Link, r: Rules, ds: seq<Dimension>)
    requires r.window > 0 && Distinct(events, BusinessKey) && Rivals(events, v, w, key, r, ds)
    ensures k in ClaimedAfter(events, v, key, r, ds)
            <==> k in ClaimedAfter(events, w, key, r, ds) || k == ClickLink(v)
    ensures k == ClickLink(v) ==> k !in ClaimedAfter(events, w, key, r, ds)
  {
    PromotedMember(events, v, key, k, r, ds);
    PromotedMember(events, w, key, k, r, ds);
  }

  lemma {:induction false} OneMoreClaimed(events: seq<Event>, v: Event, w: Event, key: MetricKey, r: Rules,
                                          ds: seq<Dimension>)
    requires r.window > 0 && Distinct(events, BusinessKey) && Rivals(events, v, w, key, r, ds)
    ensures |ClaimedAfter(events, v, key, r, ds)| == |ClaimedAfter(events, w, key, r, ds)| + 1
  {
    var s, t := ClaimedAfter(events, v, key, r, ds), ClaimedAfter(events, w, key, r, ds);
    forall k
      ensures k in s <==> k in t || k == ClickLink(v)
    {
      OneClaimMoves(events, v, w, key, k, r, ds);
    }
    OneClaimMoves(events, v, w, key, ClickLink(v), r, ds);
    OneMoreElement(s, t, ClickLink(v));
  }

  /** Two conversions of one click whose rows differ: whichever comes first takes the click into its own row. */
  lemma OrderMatters(events: seq<Event>, v: Event, w: Event, key: MetricKey, r: Rules, ds: seq<Dimension>)
    requires r.window > 0 && Distinct(events, BusinessKey) && Rivals(events, v, w, key, r, ds)
    ensures var a, b := Promote(events, v), Promote(events, w);
            At(Rows(AddedBy(a, Ordered(a), r, ds)), key).converted
                == At(Rows(AddedBy(b, Ordered(b), r, ds)), key).converted + 1
  {
    RowConverted(Promote(events, v), key, r, ds);
    RowConverted(Promote(events, w), key, r, ds);
    OneMoreClaimed(events, v, w, key, r, ds);
  }
}
