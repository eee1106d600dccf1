/** Who is attributed to whom and why, said of the fields of events alone. */
module Attribution {
  import opened Seqs
  import opened Events
  import opened Measurement
  import opened Oracle
  import N = Normalize
  import R = Reference

  /** Two events of one kind that an advertiser gave one identifier within one application. */
  predicate SameBusiness(a: Event, b: Event) {
    && a.kind == b.kind && a.advertiser == b.advertiser && a.app == b.app
    && match a.kind
       case Impression => a.impressionId == b.impressionId
       case Click => a.clickId == b.clickId
       case Conversion => a.conversionId == b.conversionId
  }

  ghost predicate OneOfEach(events: seq<Event>) {
    forall i, j :: 0 <= i < j < |events| ==> !SameBusiness(events[i], events[j])
  }

  lemma BusinessIs(a: Event, b: Event)
    ensures BusinessKey(a) == BusinessKey(b) <==> SameBusiness(a, b)
  {
  }

  /** Business keys are distinct exactly if no identifier is given twice. */
  lemma DistinctIs(events: seq<Event>)
    ensures Distinct(events, BusinessKey) <==> OneOfEach(events)
  {
    forall i, j | 0 <= i < j < |events|
      ensures BusinessKey(events[i]) == BusinessKey(events[j]) <==> SameBusiness(events[i], events[j])
    {
      BusinessIs(events[i], events[j]);
    }
  }

  /** The click that a conversion names. */
  predicate Names(c: Event, v: Event) {
    c.kind.Click? && c.advertiser == v.advertiser && c.app == v.app && c.clickId == v.clickId
  }

  /** A conversion is due to the click it names, if both are of one user and one campaign and it follows the click
      within the attribution window. */
  predicate MayMatch(c: Event, v: Event, r: Rules) {
    Names(c, v) && c.user == v.user && c.campaign == v.campaign && c.time <= v.time <= c.time + r.attribution
  }

  /** The impression that a click names. */
  predicate Shows(i: Event, c: Event) {
    i.kind.Impression? && i.advertiser == c.advertiser && i.app == c.app && i.impressionId == c.impressionId
  }

  predicate MayLink(i: Event, c: Event, r: Rules) {
    Shows(i, c) && i.user == c.user && i.campaign == c.campaign && i.time <= c.time <= i.time + r.attribution
  }

  ghost predicate Matchable(events: seq<Event>, v: Event, r: Rules) { exists c :: c in events && MayMatch(c, v, r) }

  ghost predicate Linkable(events: seq<Event>, c: Event, r: Rules) { exists i :: i in events && MayLink(i, c, r) }

  /** Why a conversion is matched or not. */
  ghost predicate MatchedBecause(events: seq<Event>, v: Event, reason: MatchReason, r: Rules) {
    match reason
    case Matched => Matchable(events, v, r)
    case ClickNotFound => forall c :: c in events ==> !Names(c, v)
    case IdentityMismatch => exists c :: c in events && Names(c, v) && c.user != v.user
    case CampaignMismatch => exists c :: c in events && Names(c, v) && c.user == v.user && c.campaign != v.campaign
    case ClickAfterConversion =>
      exists c :: c in events && Names(c, v) && c.user == v.user && c.campaign == v.campaign && v.time < c.time
    case AttributionWindowExceeded =>
      exists c :: c in events && Names(c, v) && c.user == v.user && c.campaign == v.campaign
                  && c.time + r.attribution < v.time
    case AwaitingClick => false
  }

  ghost predicate LinkedBecause(events: seq<Event>, c: Event, reason: LinkReason, r: Rules) {
    match reason
    case LinkOK => Linkable(events, c, r)
    case ImpressionNotFound => forall i :: i in events ==> !Shows(i, c)
    case ImpressionIdentityMismatch => exists i :: i in events && Shows(i, c) && i.user != c.user
    case ImpressionCampaignMismatch =>
      exists i :: i in events && Shows(i, c) && i.user == c.user && i.campaign != c.campaign
    case ClickBeforeImpression =>
      exists i :: i in events && Shows(i, c) && i.user == c.user && i.campaign == c.campaign && c.time < i.time
    case ImpressionWindowExceeded =>
      exists i :: i in events && Shows(i, c) && i.user == c.user && i.campaign == c.campaign
                  && i.time + r.attribution < c.time
  }

  // The tables find what is named.

  lemma OneEvent(events: seq<Event>, a: Event, b: Event)
    requires OneOfEach(events) && a in events && b in events && SameBusiness(a, b)
    ensures a == b
  {
    DistinctIs(events);
    BusinessIs(a, b);
    KeyIsOneElement(events, BusinessKey, a, b);
  }

  lemma ClickIs(events: seq<Event>, v: Event, c: Event)
    requires OneOfEach(events)
    ensures ClickOf(events, v) == Some(c) <==> c in events && Names(c, v)
    ensures ClickOf(events, v).None? ==> forall x :: x in events ==> !Names(x, v)
  {
    var k := ClickLink(v);
    TableHolds(events, Click, k);
    if c in events && Names(c, v) {
      assert BusinessKey(c).link == k;
      OneEvent(events, c, Table(events, Click)[k]);
    }
    forall x | x in events && Names(x, v)
      ensures ClickOf(events, v).Some?
    {
      assert BusinessKey(x).link == k;
    }
  }

  lemma ImpressionIs(events: seq<Event>, c: Event, i: Event)
    requires OneOfEach(events)
    ensures Find(Table(events, Impression), ImpressionLink(c)) == Some(i) <==> i in events && Shows(i, c)
    ensures Find(Table(events, Impression), ImpressionLink(c)).None? ==> forall x :: x in events ==> !Shows(x, c)
  {
    var k := ImpressionLink(c);
    TableHolds(events, Impression, k);
    if i in events && Shows(i, c) {
      assert BusinessKey(i).link == k;
      OneEvent(events, i, Table(events, Impression)[k]);
    }
    forall x | x in events && Shows(x, c)
      ensures k in Table(events, Impression)
    {
      assert BusinessKey(x).link == k;
    }
  }

  /** A click is linked to exactly the impression that it may be linked to. */
  lemma LinkedExactly(events: seq<Event>, c: Event, r: Rules, i: Event)
    requires OneOfEach(events)
    ensures LinkedImpression(events, c, r) == Some(i) <==> i in events && MayLink(i, c, r)
    ensures LinkedImpression(events, c, r).Some? <==> Linkable(events, c, r)
  {
    var found := Find(Table(events, Impression), ImpressionLink(c));
    ImpressionIs(events, c, i);
    if found.Some? { ImpressionIs(events, c, found.value); }
    if x :| x in events && MayLink(x, c, r) { ImpressionIs(events, c, x); }
  }

  lemma LinkReasonIs(events: seq<Event>, c: Event, r: Rules)
    requires OneOfEach(events)
    ensures LinkedBecause(events, c, LinkReasonOf(Find(Table(events, Impression), ImpressionLink(c)), c, r), r)
  {
    var found := Find(Table(events, Impression), ImpressionLink(c));
    if found.Some? { ImpressionIs(events, c, found.value); } else { ImpressionIs(events, c, c); }
  }

  /** A conversion is matched exactly if there is a click that it may be matched to. */
  lemma MatchedExactly(events: seq<Event>, v: Event, r: Rules)
    requires OneOfEach(events)
    ensures IsMatched(events, v, r) <==> Matchable(events, v, r)
    ensures MatchedBecause(events, v, MatchReasonOf(ClickOf(events, v), v, r), r)
  {
    var found := ClickOf(events, v);
    if found.Some? { ClickIs(events, v, found.value); } else { ClickIs(events, v, v); }
    if c :| c in events && MayMatch(c, v, r) { ClickIs(events, v, c); }
  }

  /** The click and impression that a conversion is attributed to. */
  ghost predicate Attributed(events: seq<Event>, v: Event, c: Event, i: Event, r: Rules) {
    c in events && i in events && MayMatch(c, v, r) && MayLink(i, c, r)
  }

  /** What an association says of a conversion. */
  ghost predicate Tells(events: seq<Event>, v: Event, a: Association, r: Rules) {
    && a.key == Link(v.advertiser, v.app, v.conversionId) && a.click == Link(v.advertiser, v.app, v.clickId)
    && a.time == v.time && a.receipt == v.receipt
    && a.status == (if Matchable(events, v, r) then MatchedStatus else Unmatched)
    && MatchedBecause(events, v, a.reason, r)
    && (forall c, i :: Attributed(events, v, c, i, r) ==> a.experiment == i.experiment && a.variant == i.variant)
    && ((forall c, i :: !Attributed(events, v, c, i, r)) ==> a.experiment == a.variant == "unknown")
  }

  lemma AssociationTells(events: seq<Event>, v: Event, r: Rules)
    requires OneOfEach(events)
    ensures Tells(events, v, AssociationOf(events, v, r), r)
  {
    MatchedExactly(events, v, r);
    var a, found := AssociationOf(events, v, r), ClickOf(events, v);
    if found.Some? { ClickIs(events, v, found.value); }
    forall c, i | Attributed(events, v, c, i, r)
      ensures a.experiment == i.experiment && a.variant == i.variant
    {
      ClickIs(events, v, c);
      LinkedExactly(events, c, r, i);
    }
    if IsMatched(events, v, r) && JoinedOf(events, v, r).Some? {
      var i := JoinedOf(events, v, r).value;
      LinkedExactly(events, found.value, r, i);
      assert Attributed(events, v, found.value, i, r);
    }
  }

  /** The associations of the calculation: one of every conversion, in order, true of it in every field. */
  lemma AssociationsTell(events: seq<Event>, r: Rules)
    requires OneOfEach(events)
    ensures var vs := Filter(events, OfKind(Conversion)); var associations := AssociationsOf(events, vs, r);
            |associations| == |vs| && forall n :: 0 <= n < |vs| ==> Tells(events, vs[n], associations[n], r)
  {
    var vs := Filter(events, OfKind(Conversion));
    forall n | 0 <= n < |vs|
      ensures |AssociationsOf(events, vs, r)| == |vs| && Tells(events, vs[n], AssociationsOf(events, vs, r)[n], r)
    {
      R.AssociationAt(events, vs, r, n);
      AssociationTells(events, vs[n], r);
    }
    if vs == [] { assert AssociationsOf(events, vs, r) == []; }
  }

  /** Clicks that are to be signalled: no impression may be linked to them. */
  ghost function Unlinkable(events: seq<Event>, r: Rules): Event -> bool { (c: Event) => !Linkable(events, c, r) }

  ghost predicate Signals(events: seq<Event>, c: Event, q: N.Quality, r: Rules) {
    q.receipt == c.receipt && q.disposition.LinkSignal? && !q.disposition.reason.LinkOK?
    && LinkedBecause(events, c, q.disposition.reason, r)
  }

  /** The signals of the calculation: one of every click that no impression may be linked to, in order, with the reason.
      */
  lemma {:induction false} SignalsTell(events: seq<Event>, clicks: seq<Event>, r: Rules)
    requires OneOfEach(events)
    ensures var unlinked, signals := Filter(clicks, Unlinkable(events, r)), SignalsOf(events, clicks, r);
            |signals| == |unlinked| && forall n :: 0 <= n < |signals| ==> Signals(events, unlinked[n], signals[n], r)
  {
    if clicks != [] {
      var init, c := clicks[..|clicks| - 1], clicks[|clicks| - 1];
      assert clicks == init + [c];
      SignalsTell(events, init, r);
      FilterOneMore(init, c, Unlinkable(events, r));
      LinkReasonIs(events, c, r);
      LinkedExactly(events, c, r, c);
    }
  }
}
