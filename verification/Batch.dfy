/** The batch calculation restated in the vocabulary of the streaming joins: contributions, every
    identity counted once. */
module Batch {
  import opened Seqs
  import opened Events
  import opened Measurement
  import opened Tallies
  import opened Dimensions
  import opened Oracle
  import opened Counting
  import C = ConversionJoin

  /** A click with its link, all impressions being known. */
  function LinkOf(events: seq<Event>, c: Event, r: Rules): LinkedClick {
    Enrich(c, Find(Table(events, Impression), ImpressionLink(c)), r)
  }

  function LinkedClickOf(events: seq<Event>, v: Event, r: Rules): Option<LinkedClick> {
    var c := ClickOf(events, v);
    if c.Some? then Some(LinkOf(events, c.value, r)) else None
  }

  function ContributionsOf(events: seq<Event>, e: Event, r: Rules): seq<Contribution>
    requires r.window > 0
  {
    match e.kind
    case Impression => ImpressionMetrics(e, r)
    case Click => ClickMetrics(LinkOf(events, e, r), r)
    case Conversion => C.SettledMetrics(e, LinkedClickOf(events, e, r), r)
  }

  function ContributedBy(events: seq<Event>, es: seq<Event>, r: Rules): seq<Contribution>
    requires r.window > 0
  {
    if es == [] then [] else ContributedBy(events, es[..|es| - 1], r) + ContributionsOf(events, es[|es| - 1], r)
  }

  lemma {:induction false} ContributedMember(events: seq<Event>, es: seq<Event>, r: Rules, m: Contribution)
    requires r.window > 0
    ensures m in ContributedBy(events, es, r) <==> exists e :: e in es && m in ContributionsOf(events, e, r)
  {
    if es != [] {
      assert es == es[..|es| - 1] + [es[|es| - 1]];
      ContributedMember(events, es[..|es| - 1], r, m);
    }
  }

  // The two programs decide alike.

  /** Two independently written decisions: comparing instants, or the sign of their difference. */
  lemma LinkReasonsAgree(i: Option<Event>, c: Event, r: Rules)
    ensures LinkReasonOf(i, c, r) == ExposureReason(i, c, r)
  {
  }

  lemma MatchReasonsAgree(c: Option<LinkedClick>, v: Event, r: Rules)
    ensures MatchReasonOf(if c.Some? then Some(c.value.click) else None, v, r) == ConversionReason(c, v, r)
  {
  }

  lemma LinksAgree(events: seq<Event>, c: Event, r: Rules)
    ensures LinkedImpression(events, c, r) == LinkOf(events, c, r).impression
  {
    LinkReasonsAgree(Find(Table(events, Impression), ImpressionLink(c)), c, r);
  }

  lemma MatchesAgree(events: seq<Event>, v: Event, r: Rules)
    ensures MatchReasonOf(ClickOf(events, v), v, r) == ConversionReason(LinkedClickOf(events, v, r), v, r)
    ensures ClickOf(events, v).Some? ==> JoinedOf(events, v, r) == LinkedClickOf(events, v, r).value.impression
  {
    MatchReasonsAgree(LinkedClickOf(events, v, r), v, r);
    if ClickOf(events, v).Some? { LinksAgree(events, ClickOf(events, v).value, r); }
  }

  /** The batch association of a conversion is what the conversion join would say if it held the click as finally
      linked. */
  lemma AssociationsAgree(events: seq<Event>, v: Event, r: Rules)
    ensures AssociationOf(events, v, r) == C.Settled(v, LinkedClickOf(events, v, r), r)
  {
    MatchesAgree(events, v, r);
  }

  lemma KeysAgree(e: Event, i: Option<Event>, t: nat, cohort: Cohort, currency: string, counter: Counter, n: nat,
                  r: Rules, ds: seq<Dimension>)
    requires r.window > 0
    ensures KeyFor(e, i, t, cohort, currency, r, ds) == RowOf(Contribute(e, i, t, cohort, currency, counter, n, r), ds)
  {
  }

  // Blocks of contributions as the additions they stand for.

  function AsAddition(m: Contribution, ds: seq<Dimension>): Addition { Addition(RowOf(m, ds), ValuesOf(m)) }

  function AsAdditions(ms: seq<Contribution>, ds: seq<Dimension>): (adds: seq<Addition>)
    ensures |adds| == |ms| && forall n :: 0 <= n < |ms| ==> adds[n] == AsAddition(ms[n], ds)
  {
    if ms == [] then [] else AsAdditions(ms[..|ms| - 1], ds) + [AsAddition(ms[|ms| - 1], ds)]
  }

  lemma TotalOneMore(adds: seq<Addition>, a: Addition, key: MetricKey)
    ensures Total(adds + [a], key) == Plus(Total(adds, key), if a.key == key then a.values else ZERO)
  {
    assert (adds + [a])[..|adds|] == adds;
    Neutral(Total(adds, key));
  }

  /** The part of a block whose identities are new. */
  ghost function Fresh(ms: seq<Contribution>, block: seq<Contribution>): seq<Contribution> {
    if block == [] then []
    else
      var init, m := Fresh(ms, block[..|block| - 1]), block[|block| - 1];
      if Known(ms, m.id) then init else init + [m]
  }

  function IdOf(): Contribution -> ContributionId { (m: Contribution) => m.id }

  lemma {:induction false} OnceAppend(ms: seq<Contribution>, block: seq<Contribution>, key: MetricKey,
                                      ds: seq<Dimension>)
    requires Distinct(block, IdOf())
    ensures CountedOnce(ms + block, key, ds)
            == Plus(CountedOnce(ms, key, ds), Total(AsAdditions(Fresh(ms, block), ds), key))
  {
    if block == [] {
      assert ms + block == ms;
      Neutral(CountedOnce(ms, key, ds));
    } else {
      var init, m := block[..|block| - 1], block[|block| - 1];
      assert block == init + [m] && (ms + block)[..|ms + block| - 1] == ms + init;
      OnceAppend(ms, init, key, ds);
      NewInBlock(init, m);
      assert Known(ms + init, m.id) <==> Known(ms, m.id);
      var news := Fresh(ms, init);
      assert (news + [m])[..|news|] == news;
      TotalOneMore(AsAdditions(news, ds), AsAddition(m, ds), key);
      PlusAssociates(CountedOnce(ms, key, ds), Total(AsAdditions(news, ds), key), Hit(m, key, ds));
    }
  }

  lemma NewInBlock(init: seq<Contribution>, m: Contribution)
    requires Distinct(init + [m], IdOf())
    ensures Distinct(init, IdOf()) && !Known(init, m.id)
  {
    var block := init + [m];
    assert forall j, k ::
           0 <= j < k < |init| ==> IdOf()(block[j]) == IdOf()(init[j]) && IdOf()(block[k]) == IdOf()(init[k]);
    forall a | a in init
      ensures a.id != m.id
    {
      var i :| 0 <= i < |init| && init[i] == a;
      assert IdOf()(block[i]) != IdOf()(block[|init|]);
    }
  }

  lemma PlusAssociates(a: Tally, b: Tally, c: Tally)
    ensures Plus(Plus(a, b), c) == Plus(a, Plus(b, c))
  {
  }

  lemma {:induction false} TotalAppend(a: seq<Addition>, b: seq<Addition>, key: MetricKey)
    ensures Total(a + b, key) == Plus(Total(a, key), Total(b, key))
  {
    if b == [] {
      assert a + b == a;
      Neutral(Total(a, key));
    } else {
      assert (a + b)[..|a + b| - 1] == a + b[..|b| - 1];
      TotalAppend(a, b[..|b| - 1], key);
      PlusAssociates(Total(a, key), Total(b[..|b| - 1], key), b[|b| - 1].values);
    }
  }

  lemma {:induction false} AllFresh(ms: seq<Contribution>, block: seq<Contribution>)
    requires forall m :: m in block ==> !Known(ms, m.id)
    ensures Fresh(ms, block) == block
  {
    if block != [] {
      assert block == block[..|block| - 1] + [block[|block| - 1]];
      AllFresh(ms, block[..|block| - 1]);
    }
  }

  lemma ImpressionBlock(e: Event, r: Rules, ds: seq<Dimension>)
    requires r.window > 0
    ensures Distinct(ImpressionMetrics(e, r), IdOf())
    ensures AsAdditions(ImpressionMetrics(e, r), ds) == ImpressionAdditions(e, r, ds)
  {
  }

  lemma ClickBlock(c: LinkedClick, r: Rules, ds: seq<Dimension>)
    requires r.window > 0
    ensures Distinct(ClickMetrics(c, r), IdOf())
    ensures AsAdditions(ClickMetrics(c, r), ds) == ClickAdditions(c.click, c.impression, r, ds)
  {
  }

  lemma UnmatchedBlock(v: Event, c: Option<LinkedClick>, first: bool, i: Option<Event>, r: Rules, ds: seq<Dimension>)
    requires r.window > 0 && !ConversionReason(c, v, r).Matched?
    ensures Distinct(C.SettledMetrics(v, c, r), IdOf())
    ensures var click := if c.Some? then Some(c.value.click) else None;
            AsAdditions(C.SettledMetrics(v, c, r), ds) == ConversionAdditions(v, click, i, first, r, ds)
  {
    MatchReasonsAgree(c, v, r);
  }

  /** The contributions of a matched conversion, with or without that of its converted click. */
  function MatchedContributions(v: Event, c: LinkedClick, first: bool, r: Rules): seq<Contribution>
    requires r.window > 0
  {
    var i, t := c.impression, c.click.time;
    [ Contribute(v, i, v.time, Occurrence, ALL_CURRENCIES, MatchedConversions, 1, r),
      Contribute(v, i, t, ByClick, ALL_CURRENCIES, MatchedConversions, 1, r) ]
    + (if first then [ Contribute(v, i, t, ByClick, ALL_CURRENCIES, ConvertedClicks, 1, r) ] else [])
    + [ Contribute(v, i, t, ConversionValue, v.currency, MatchedConversions, 1, r),
        Contribute(v, i, t, ConversionValue, v.currency, ValueMinor, v.value, r) ]
  }

  lemma PairAlgebra(t: Tally, a: Tally, b: Tally, hit: bool)
    ensures Plus(Plus(t, if hit then a else ZERO), if hit then b else ZERO) == Plus(t, if hit then Plus(a, b) else ZERO)
  {
    if hit { PlusAssociates(t, a, b); } else { Neutral(t); }
  }

  lemma {:induction false} TotalTwoMore(x: seq<Addition>, a: Addition, b: Addition, key: MetricKey)
    ensures Total(x + [a, b], key) == Plus(Total(x + [a], key), if b.key == key then b.values else ZERO)
  {
    assert x + [a] + [b] == x + [a, b];
    TotalOneMore(x + [a], b, key);
  }

  lemma PairOfTotals(before: Tally, one: Tally, two: Tally, both: Tally, a: Tally, b: Tally, hit: bool)
    requires one == Plus(before, if hit then a else ZERO) && two == Plus(one, if hit then b else ZERO)
    requires both == Plus(before, if hit then Plus(a, b) else ZERO)
    ensures two == both
  {
    PairAlgebra(before, a, b, hit);
  }

  /** Adding two vectors to one row, one after the other or as one. */
  lemma {:induction false} TotalOfPair(x: seq<Addition>, a: Addition, b: Addition, ab: Addition, key: MetricKey)
    requires a.key == b.key == ab.key && ab.values == Plus(a.values, b.values)
    ensures Total(x + [a, b], key) == Total(x + [ab], key)
  {
    TotalOneMore(x, a, key);
    TotalOneMore(x, ab, key);
    TotalTwoMore(x, a, b, key);
    PairOfTotals(Total(x, key), Total(x + [a], key), Total(x + [a, b], key), Total(x + [ab], key), a.values, b.values,
                 a.key == key);
  }

  /** Five additions, of which the second and third, and the last two, go to the same row. */
  lemma {:induction false} TotalOfFive(a: seq<Addition>, b: seq<Addition>, key: MetricKey)
    requires |a| == 5 && |b| == 3 && a[0] == b[0]
    requires a[1].key == a[2].key == b[1].key && b[1].values == Plus(a[1].values, a[2].values)
    requires a[3].key == a[4].key == b[2].key && b[2].values == Plus(a[3].values, a[4].values)
    ensures Total(a, key) == Total(b, key)
  {
    assert a == a[..3] + [a[3], a[4]] && a[..3] == [a[0]] + [a[1], a[2]] && b == [b[0]] + [b[1]] + [b[2]];
    TotalOfPair([a[0]], a[1], a[2], b[1], key);
    TotalOfPair(a[..3], a[3], a[4], b[2], key);
    TotalAppend(a[..3], [b[2]], key);
    TotalAppend([b[0]] + [b[1]], [b[2]], key);
  }

  /** Four additions, of which the last two go to the same row. */
  lemma {:induction false} TotalOfFour(a: seq<Addition>, b: seq<Addition>, key: MetricKey)
    requires |a| == 4 && |b| == 3 && a[0] == b[0] && a[1] == b[1]
    requires a[2].key == a[3].key == b[2].key && b[2].values == Plus(a[2].values, a[3].values)
    ensures Total(a, key) == Total(b, key)
  {
    assert a == [a[0], a[1]] + [a[2], a[3]] && b == [b[0], b[1]] + [b[2]];
    TotalOfPair([a[0], a[1]], a[2], a[3], b[2], key);
  }

  lemma AsContribution(e: Event, i: Option<Event>, t: nat, cohort: Cohort, currency: string, counter: Counter, n: nat,
                       r: Rules, ds: seq<Dimension>)
    requires r.window > 0
    ensures AsAddition(Contribute(e, i, t, cohort, currency, counter, n, r), ds)
         == Addition(KeyFor(e, i, t, cohort, currency, r, ds), Single(counter, n))
  {
  }

  /** What the contributions of a matched conversion are as additions. */
  lemma {:induction false} MatchedAdditions(v: Event, c: LinkedClick, first: bool, r: Rules, ds: seq<Dimension>)
    requires r.window > 0
    ensures var i, t := c.impression, c.click.time;
            var byClick := KeyFor(v, i, t, ByClick, ALL_CURRENCIES, r, ds);
            var value := KeyFor(v, i, t, ConversionValue, v.currency, r, ds);
            AsAdditions(MatchedContributions(v, c, first, r), ds)
            == [ Addition(KeyFor(v, i, v.time, Occurrence, ALL_CURRENCIES, r, ds), ZERO.(matched := 1)),
                 Addition(byClick, ZERO.(matched := 1)) ]
             + (if first then [ Addition(byClick, ZERO.(converted := 1)) ] else [])
             + [ Addition(value, ZERO.(matched := 1)), Addition(value, ZERO.(value := v.value)) ]
  {
    var i, t := c.impression, c.click.time;
    AsContribution(v, i, v.time, Occurrence, ALL_CURRENCIES, MatchedConversions, 1, r, ds);
    AsContribution(v, i, t, ByClick, ALL_CURRENCIES, MatchedConversions, 1, r, ds);
    AsContribution(v, i, t, ByClick, ALL_CURRENCIES, ConvertedClicks, 1, r, ds);
    AsContribution(v, i, t, ConversionValue, v.currency, MatchedConversions, 1, r, ds);
    AsContribution(v, i, t, ConversionValue, v.currency, ValueMinor, v.value, r, ds);
  }

  lemma {:induction false} MergedTotal(a: seq<Addition>, b: seq<Addition>, occurrence: MetricKey, byClick: MetricKey,
                                           value: MetricKey, first: bool, n: nat, key: MetricKey)
    requires b == [ Addition(occurrence, ZERO.(matched := 1)),
                    Addition(byClick, ZERO.(matched := 1, converted := if first then 1 else 0)),
                    Addition(value, ZERO.(matched := 1, value := n)) ]
    requires a == [ Addition(occurrence, ZERO.(matched := 1)), Addition(byClick, ZERO.(matched := 1)) ]
                + (if first then [ Addition(byClick, ZERO.(converted := 1)) ] else [])
                + [ Addition(value, ZERO.(matched := 1)), Addition(value, ZERO.(value := n)) ]
    ensures Total(a, key) == Total(b, key)
  {
    if first { TotalOfFive(a, b, key); } else { TotalOfFour(a, b, key); }
  }

  lemma {:induction false} MatchedTotal(v: Event, c: LinkedClick, first: bool, r: Rules, ds: seq<Dimension>,
                                        key: MetricKey)
    requires r.window > 0 && MatchReasonOf(Some(c.click), v, r).Matched?
    ensures Total(AsAdditions(MatchedContributions(v, c, first, r), ds), key)
         == Total(ConversionAdditions(v, Some(c.click), c.impression, first, r, ds), key)
  {
    var i, t := c.impression, c.click.time;
    MatchedAdditions(v, c, first, r, ds);
    MergedTotal(AsAdditions(MatchedContributions(v, c, first, r), ds),
                ConversionAdditions(v, Some(c.click), i, first, r, ds),
                KeyFor(v, i, v.time, Occurrence, ALL_CURRENCIES, r, ds),
                KeyFor(v, i, t, ByClick, ALL_CURRENCIES, r, ds),
                KeyFor(v, i, t, ConversionValue, v.currency, r, ds), first, v.value, key);
  }

  predicate OfConvertedClick(m: Contribution) { m.id.counter.ConvertedClicks? }

  lemma FreshOneMore(ms: seq<Contribution>, block: seq<Contribution>, m: Contribution)
    ensures Fresh(ms, block + [m]) == if Known(ms, m.id) then Fresh(ms, block) else Fresh(ms, block) + [m]
  {
    assert (block + [m])[..|block|] == block;
  }

  lemma {:induction false} FreshOfFive(ms: seq<Contribution>, a: seq<Contribution>, first: bool)
    requires |a| == 5 && forall n :: 0 <= n < 5 ==> (Known(ms, a[n].id) <==> n == 2 && !first)
    ensures Fresh(ms, a) == [a[0], a[1]] + (if first then [a[2]] else []) + [a[3], a[4]]
  {
    var two := [a[0], a[1]];
    AllFresh(ms, two);
    FreshOneMore(ms, two, a[2]);
    FreshOneMore(ms, two + [a[2]], a[3]);
    FreshOneMore(ms, two + [a[2]] + [a[3]], a[4]);
    assert a == two + [a[2]] + [a[3]] + [a[4]];
  }

  lemma {:induction false} MatchedFresh(ms: seq<Contribution>, v: Event, c: LinkedClick, first: bool, r: Rules)
    requires r.window > 0
    requires forall m ::
             m in MatchedContributions(v, c, true, r) ==> (Known(ms, m.id) <==> OfConvertedClick(m) && !first)
    ensures Fresh(ms, MatchedContributions(v, c, true, r)) == MatchedContributions(v, c, first, r)
  {
    var all := MatchedContributions(v, c, true, r);
    forall n | 0 <= n < 5
      ensures Known(ms, all[n].id) <==> n == 2 && !first
    {
      assert all[n] in all;
    }
    FreshOfFive(ms, all, first);
  }
}
