/** The batch calculation depends on what events say, not on the identifiers, receipts and arrival times they travelled
    under. Blanking those out blanks them out in the tables, leaves every link, match and addition as it was, and
    changes neither a verdict nor whether the conversions of an unlinked click agree on region and version. */
module Content {
  import opened Seqs
  import opened Events
  import opened Dimensions
  import opened Oracle
  import opened Compare
  import BT = BatchTotals

  /** The content of an event: its transport blanked out. */
  function Strip(e: Event): Event { e.(eventId := "", receipt := "", receivedAt := 0) }

  function StripOption(e: Option<Event>): Option<Event> { if e.Some? then Some(Strip(e.value)) else None }

  function StripAll(es: seq<Event>): (r: seq<Event>)
    ensures |r| == |es| && forall n :: 0 <= n < |es| ==> r[n] == Strip(es[n])
  {
    if es == [] then [] else StripAll(es[..|es| - 1]) + [Strip(es[|es| - 1])]
  }

  lemma StripAppend(a: seq<Event>, b: seq<Event>)
    ensures StripAll(a + b) == StripAll(a) + StripAll(b)
  {
  }

  lemma StripMember(es: seq<Event>, e: Event)
    ensures e in StripAll(es) <==> exists f :: f in es && e == Strip(f)
  {
    if e in StripAll(es) {
      var n :| 0 <= n < |es| && StripAll(es)[n] == e;
      assert es[n] in es;
    }
    forall f | f in es && e == Strip(f)
      ensures e in StripAll(es)
    {
      var n :| 0 <= n < |es| && es[n] == f;
      assert StripAll(es)[n] == e;
    }
  }

  lemma StripKeeps(e: Event)
    ensures Strip(e).kind == e.kind && BusinessKey(Strip(e)) == BusinessKey(e)
    ensures ClickLink(Strip(e)) == ClickLink(e) && ImpressionLink(Strip(e)) == ImpressionLink(e)
    ensures ConversionLink(Strip(e)) == ConversionLink(e)
  {
  }

  lemma {:induction false} TableStrips(events: seq<Event>, kind: Kind, k: Link)
    ensures Find(Table(StripAll(events), kind), k) == StripOption(Find(Table(events, kind), k))
  {
    if events != [] {
      var init, e := events[..|events| - 1], events[|events| - 1];
      TableStrips(init, kind, k);
      StripKeeps(e);
      assert StripAll(events)[..|events| - 1] == StripAll(init);
    }
  }

  lemma LinkedStrips(events: seq<Event>, c: Event, r: Rules)
    ensures LinkedImpression(StripAll(events), Strip(c), r) == StripOption(LinkedImpression(events, c, r))
  {
    StripKeeps(c);
    TableStrips(events, Impression, ImpressionLink(c));
  }

  lemma ClickStrips(events: seq<Event>, v: Event, r: Rules)
    ensures ClickOf(StripAll(events), Strip(v)) == StripOption(ClickOf(events, v))
    ensures MatchReasonOf(ClickOf(StripAll(events), Strip(v)), Strip(v), r) == MatchReasonOf(ClickOf(events, v), v, r)
    ensures JoinedOf(StripAll(events), Strip(v), r) == StripOption(JoinedOf(events, v, r))
  {
    StripKeeps(v);
    TableStrips(events, Click, ClickLink(v));
    if ClickOf(events, v).Some? { LinkedStrips(events, ClickOf(events, v).value, r); }
  }

  lemma ConvertedStrips(events: seq<Event>, es: seq<Event>, r: Rules)
    ensures Converted(StripAll(events), StripAll(es), r) == Converted(events, es, r)
  {
    forall k
      ensures k in Converted(StripAll(events), StripAll(es), r) <==> k in Converted(events, es, r)
    {
      if k in Converted(events, es, r) {
        var v :| v in es && v.kind.Conversion? && IsMatched(events, v, r) && ClickLink(v) == k;
        ClickStrips(events, v, r);
        StripKeeps(v);
        StripMember(es, Strip(v));
      }
      if k in Converted(StripAll(events), StripAll(es), r) {
        var w :| w in StripAll(es) && w.kind.Conversion? && IsMatched(StripAll(events), w, r) && ClickLink(w) == k;
        StripMember(es, w);
        var v :| v in es && w == Strip(v);
        ClickStrips(events, v, r);
        StripKeeps(v);
      }
    }
  }

  lemma ImpressionAdditionsStrip(e: Event, r: Rules, ds: seq<Dimension>)
    requires r.window > 0
    ensures ImpressionAdditions(Strip(e), r, ds) == ImpressionAdditions(e, r, ds)
  {
  }

  lemma ClickAdditionsStrip(c: Event, i: Option<Event>, r: Rules, ds: seq<Dimension>)
    requires r.window > 0
    ensures ClickAdditions(Strip(c), StripOption(i), r, ds) == ClickAdditions(c, i, r, ds)
  {
  }

  lemma ConversionAdditionsStrip(v: Event, c: Option<Event>, i: Option<Event>, first: bool, r: Rules,
                                 ds: seq<Dimension>)
    requires r.window > 0
    ensures ConversionAdditions(Strip(v), StripOption(c), StripOption(i), first, r, ds)
            == ConversionAdditions(v, c, i, first, r, ds)
  {
  }

  lemma AdditionsStrip(events: seq<Event>, before: seq<Event>, e: Event, r: Rules, ds: seq<Dimension>)
    requires r.window > 0
    ensures AdditionsOf(StripAll(events), StripAll(before), Strip(e), r, ds) == AdditionsOf(events, before, e, r, ds)
  {
    StripKeeps(e);
    match e.kind
    case Impression => ImpressionAdditionsStrip(e, r, ds);
    case Click =>
      LinkedStrips(events, e, r);
      ClickAdditionsStrip(e, LinkedImpression(events, e, r), r, ds);
    case Conversion =>
      ClickStrips(events, e, r);
      ConvertedStrips(events, before, r);
      ConversionAdditionsStrip(e, ClickOf(events, e), JoinedOf(events, e, r), IsFirst(events, before, e, r), r, ds);
  }

  /** Blanking out the transport of every event changes no addition. */
  lemma {:induction false} CalculationStrips(events: seq<Event>, es: seq<Event>, r: Rules, ds: seq<Dimension>)
    requires r.window > 0
    ensures AddedBy(StripAll(events), StripAll(es), r, ds) == AddedBy(events, es, r, ds)
  {
    if es != [] {
      var before, e := es[..|es| - 1], es[|es| - 1];
      CalculationStrips(events, before, r, ds);
      AdditionsStrip(events, before, e, r, ds);
      assert StripAll(es)[..|es| - 1] == StripAll(before);
    }
  }

  lemma {:induction false} FilterStrips(events: seq<Event>, kind: Kind)
    ensures Filter(StripAll(events), OfKind(kind)) == StripAll(Filter(events, OfKind(kind)))
  {
    if events != [] {
      assert StripAll(events)[1..] == StripAll(events[1..]);
      FilterStrips(events[1..], kind);
      StripAppend([events[0]], Filter(events[1..], OfKind(kind)));
    }
  }

  lemma OrderedStrips(events: seq<Event>)
    ensures Ordered(StripAll(events)) == StripAll(Ordered(events))
  {
    var a, b, c :=
        Filter(events, OfKind(Impression)), Filter(events, OfKind(Click)), Filter(events, OfKind(Conversion));
    FilterStrips(events, Impression);
    FilterStrips(events, Click);
    FilterStrips(events, Conversion);
    StripAppend(a, b);
    StripAppend(a + b, c);
  }

  lemma VerdictStrips(events: seq<Event>, v: Event, r: Rules)
    ensures VerdictOf(AssociationOf(StripAll(events), Strip(v), r)) == VerdictOf(AssociationOf(events, v, r))
  {
    ClickStrips(events, v, r);
  }

  lemma AgreementStrips(events: seq<Event>, r: Rules)
    ensures BT.UnlinkedConversionsAgree(StripAll(events), r) <==> BT.UnlinkedConversionsAgree(events, r)
  {
    var stripped := StripAll(events);
    forall v | v in events
      ensures Strip(v) in stripped && Strip(v).region == v.region && Strip(v).appVersion == v.appVersion
      ensures ClickLink(Strip(v)) == ClickLink(v)
      ensures BT.MatchedConversion(stripped, Strip(v), r) <==> BT.MatchedConversion(events, v, r)
      ensures JoinedOf(stripped, Strip(v), r).None? <==> JoinedOf(events, v, r).None?
    {
      StripMember(events, Strip(v));
      StripKeeps(v);
      ClickStrips(events, v, r);
    }
    forall w | w in stripped
      ensures exists v :: v in events && w == Strip(v)
    {
      StripMember(events, w);
    }
    if BT.UnlinkedConversionsAgree(stripped, r) {
      forall v, w | v in events && w in events && BT.MatchedConversion(events, v, r)
          && BT.MatchedConversion(events, w, r)
                    && ClickLink(v) == ClickLink(w) && JoinedOf(events, v, r).None?
        ensures v.region == w.region && v.appVersion == w.appVersion
      {
        assert Strip(v) in stripped && Strip(w) in stripped;
      }
    }
  }
}
