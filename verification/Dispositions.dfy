/** What becomes of every record, said of the records alone: which of them are refused, which are repeats, and of what.
    */
module Dispositions {
  import opened Seqs
  import opened Events
  import opened Normalize
  import opened Attribution

  /** A well-formed record of an enabled schema version that the rules do not filter. */
  predicate PassesRules(p: Policy, x: Record) {
    && x.body.WellFormed? && x.body.schemaVersion in p.schemaVersions && p.effectiveFrom <= x.body.event.time
    && (x.body.regionNamed ==> x.body.event.region !in p.filterRegions)
  }

  /** Two records under one event identifier of one advertiser and application. */
  predicate SameId(x: Record, y: Record) {
    && x.body.WellFormed? && y.body.WellFormed?
    && x.body.event.advertiser == y.body.event.advertiser && x.body.event.app == y.body.event.app
    && x.body.event.eventId == y.body.event.eventId
  }

  function DispositionOf(p: Policy, records: seq<Record>, n: nat): Disposition
    requires n < |TakeAll(p, records).quality|
  {
    TakeAll(p, records).quality[n].disposition
  }

  /** An earlier record that was not refused has the same event identifier. */
  ghost predicate RepeatsId(p: Policy, records: seq<Record>, n: nat)
    requires n < |records|
  {
    exists m :: 0 <= m < n && PassesRules(p, records[m]) && SameId(records[m], records[n])
  }

  /** An earlier record that was accepted is of the same kind and was given the same identifier of that kind. */
  ghost predicate RepeatsBusiness(p: Policy, records: seq<Record>, n: nat)
    requires n < |records| && records[n].body.WellFormed?
  {
    exists m :: 0 <= m < n && Accepted(p, records, m) && SameBusiness(records[m].body.event, records[n].body.event)
  }

  /** The record at `m` became a clean event. */
  ghost predicate Accepted(p: Policy, records: seq<Record>, m: nat)
    requires m < |records|
  {
    records[m].body.WellFormed? && m < |TakeAll(p, records).quality| && DispositionOf(p, records, m).Cleaned?
  }

  /** What the pass should say of the record at `n`, given what it says of those before it. */
  ghost predicate RightlyDisposed(p: Policy, records: seq<Record>, n: nat, d: Disposition)
    requires n < |records|
  {
    var x := records[n];
    match d
    case SchemaInvalid => x.body.Malformed?
    case SchemaVersionDisabled => x.body.WellFormed? && x.body.schemaVersion !in p.schemaVersions
    case RuleFiltered =>
      && x.body.WellFormed? && x.body.schemaVersion in p.schemaVersions
      && (x.body.event.time < p.effectiveFrom || (x.body.regionNamed && x.body.event.region in p.filterRegions))
    case DuplicateEventId => PassesRules(p, x) && RepeatsId(p, records, n)
    case DuplicateBusinessKey => PassesRules(p, x) && !RepeatsId(p, records, n) && RepeatsBusiness(p, records, n)
    case Cleaned => PassesRules(p, x) && !RepeatsId(p, records, n) && !RepeatsBusiness(p, records, n)
    case LinkSignal(_) => false
  }

  ghost predicate IdUsed(p: Policy, records: seq<Record>, id: Link) {
    exists m :: 0 <= m < |records| && PassesRules(p, records[m]) && EventIdKey(records[m].body.event) == id
  }

  ghost predicate KeyUsed(p: Policy, records: seq<Record>, k: Business) {
    exists m :: 0 <= m < |records| && Accepted(p, records, m) && BusinessKey(records[m].body.event) == k
  }

  /** The two sets hold exactly the identifiers that were used. */
  ghost predicate SeenExactly(p: Policy, records: seq<Record>) {
    var s := TakeAll(p, records);
    && (forall id :: id in s.seenIds <==> IdUsed(p, records, id))
    && (forall k :: k in s.seenKeys <==> KeyUsed(p, records, k))
  }

  lemma PassesIs(p: Policy, x: Record)
    ensures Refusal(p, x).None? <==> PassesRules(p, x)
  {
  }

  lemma TakenLast(p: Policy, init: seq<Record>, x: Record)
    ensures TakeAll(p, init + [x]) == Take(p, TakeAll(p, init), x)
    ensures |TakeAll(p, init).quality| == |init| && |TakeAll(p, init + [x]).quality| == |init| + 1
    ensures TakeAll(p, init + [x]).quality[..|init|] == TakeAll(p, init).quality
    ensures forall m :: 0 <= m < |init| ==> (Accepted(p, init + [x], m) <==> Accepted(p, init, m))
  {
    assert (init + [x])[..|init|] == init;
    EveryRecordDisposedOnce(p, init);
    TakeAddsOne(p, TakeAll(p, init), x);
    var s, s' := TakeAll(p, init), TakeAll(p, init + [x]);
    forall m | 0 <= m < |init|
      ensures s'.quality[m] == s.quality[m] && (init + [x])[m] == init[m]
    {
      assert s'.quality[..|init|][m] == s.quality[m];
    }
  }

  lemma SeenBefore(p: Policy, init: seq<Record>, x: Record)
    requires SeenExactly(p, init) && x.body.WellFormed?
    ensures var records := init + [x];
            && (EventIdKey(x.body.event) in TakeAll(p, init).seenIds <==> RepeatsId(p, records, |init|))
            && (BusinessKey(x.body.event) in TakeAll(p, init).seenKeys <==> RepeatsBusiness(p, records, |init|))
  {
    var records := init + [x];
    TakenLast(p, init, x);
    forall m | 0 <= m < |init|
      ensures records[m] == init[m]
      ensures init[m].body.WellFormed? ==>
                (EventIdKey(init[m].body.event) == EventIdKey(x.body.event) <==> SameId(init[m], x))
                && (BusinessKey(init[m].body.event) == BusinessKey(x.body.event)
                    <==> SameBusiness(init[m].body.event, x.body.event))
    {
      if init[m].body.WellFormed? { BusinessIs(init[m].body.event, x.body.event); }
    }
  }

  lemma LastRightlyDisposed(p: Policy, init: seq<Record>, x: Record)
    requires SeenExactly(p, init)
    ensures var records := init + [x];
            |TakeAll(p, records).quality| == |records|
            && RightlyDisposed(p, records, |init|, DispositionOf(p, records, |init|))
  {
    TakenLast(p, init, x);
    PassesIs(p, x);
    if x.body.WellFormed? { SeenBefore(p, init, x); }
  }

  lemma IdsOneMore(p: Policy, init: seq<Record>, x: Record, id: Link)
    ensures IdUsed(p, init + [x], id)
            <==> IdUsed(p, init, id) || (PassesRules(p, x) && EventIdKey(x.body.event) == id)
  {
    var records := init + [x];
    assert records[|init|] == x;
    forall m | 0 <= m < |init|
      ensures records[m] == init[m]
    {
    }
    if m :| 0 <= m < |init| && PassesRules(p, init[m]) && EventIdKey(init[m].body.event) == id {
      assert PassesRules(p, records[m]) && EventIdKey(records[m].body.event) == id;
    }
  }

  lemma KeysOneMore(p: Policy, init: seq<Record>, x: Record, k: Business)
    ensures KeyUsed(p, init + [x], k)
            <==> KeyUsed(p, init, k) || (Accepted(p, init + [x], |init|) && BusinessKey(x.body.event) == k)
  {
    var records := init + [x];
    TakenLast(p, init, x);
    assert records[|init|] == x;
    forall m | 0 <= m < |init|
      ensures records[m] == init[m] && (Accepted(p, records, m) <==> Accepted(p, init, m))
    {
    }
    if m :| 0 <= m < |init| && Accepted(p, init, m) && BusinessKey(init[m].body.event) == k {
      assert Accepted(p, records, m) && BusinessKey(records[m].body.event) == k;
    }
  }

  lemma TakeSees(p: Policy, s: State, x: Record)
    ensures var s' := Take(p, s, x);
            && s'.seenIds == (if PassesRules(p, x) then s.seenIds + {EventIdKey(x.body.event)} else s.seenIds)
            && (|s'.quality| == |s.quality| + 1 && s'.quality[|s.quality|].disposition.Cleaned? ==>
                 x.body.WellFormed? && s'.seenKeys == s.seenKeys + {BusinessKey(x.body.event)})
            && (|s'.quality| == |s.quality| + 1 && !s'.quality[|s.quality|].disposition.Cleaned? ==>
                 s'.seenKeys == s.seenKeys)
  {
    PassesIs(p, x);
  }

  lemma SeenStays(p: Policy, init: seq<Record>, x: Record)
    requires SeenExactly(p, init)
    ensures SeenExactly(p, init + [x])
  {
    TakenLast(p, init, x);
    TakeSees(p, TakeAll(p, init), x);
    assert (init + [x])[|init|] == x;
    forall id
      ensures id in TakeAll(p, init + [x]).seenIds <==> IdUsed(p, init + [x], id)
    {
      IdsOneMore(p, init, x, id);
    }
    forall k
      ensures k in TakeAll(p, init + [x]).seenKeys <==> KeyUsed(p, init + [x], k)
    {
      KeysOneMore(p, init, x, k);
    }
  }

  lemma {:induction false} SeenIs(p: Policy, records: seq<Record>)
    ensures SeenExactly(p, records)
  {
    if records != [] {
      var init, x := records[..|records| - 1], records[|records| - 1];
      assert records == init + [x];
      SeenIs(p, init);
      SeenStays(p, init, x);
    }
  }

  lemma RepeatsAlike(p: Policy, init: seq<Record>, x: Record, n: nat)
    requires n < |init|
    ensures RepeatsId(p, init + [x], n) <==> RepeatsId(p, init, n)
    ensures init[n].body.WellFormed? ==> (RepeatsBusiness(p, init + [x], n) <==> RepeatsBusiness(p, init, n))
  {
    var records := init + [x];
    TakenLast(p, init, x);
    forall m | 0 <= m < |init|
      ensures records[m] == init[m] && (Accepted(p, records, m) <==> Accepted(p, init, m))
    {
    }
  }

  /** Every record is disposed of as it should be: refused for its own content, as a repeated event identifier, as a
      repeated business event, or accepted. */
  lemma {:induction false} DispositionsAreRight(p: Policy, records: seq<Record>, n: nat)
    requires n < |records|
    ensures n < |TakeAll(p, records).quality| && TakeAll(p, records).quality[n].receipt == records[n].receipt
    ensures RightlyDisposed(p, records, n, TakeAll(p, records).quality[n].disposition)
  {
    EveryRecordDisposedOnce(p, records);
    var init, x := records[..|records| - 1], records[|records| - 1];
    assert records == init + [x];
    SeenIs(p, init);
    if n == |init| {
      LastRightlyDisposed(p, init, x);
    } else {
      DispositionsAreRight(p, init, n);
      TakenLast(p, init, x);
      RepeatsAlike(p, init, x, n);
    }
  }

  /** The event is that of the record at `m`, which was accepted, with its receipt and arrival. */
  ghost predicate EventOf(p: Policy, records: seq<Record>, m: nat, e: Event)
    requires m < |records|
  {
    Accepted(p, records, m)
    && e == records[m].body.event.(receipt := records[m].receipt, receivedAt := records[m].receivedAt)
  }

  lemma NewEvent(p: Policy, init: seq<Record>, x: Record, e: Event)
    requires e in TakeAll(p, init + [x]).events && e !in TakeAll(p, init).events
    ensures EventOf(p, init + [x], |init|, e)
  {
    TakenLast(p, init, x);
    TakeAddsOne(p, TakeAll(p, init), x);
  }

  /** Every clean event is an accepted record's, with that record's receipt and arrival and nothing else changed. */
  lemma {:induction false} EventsAreAccepted(p: Policy, records: seq<Record>, e: Event)
    requires e in TakeAll(p, records).events
    ensures exists m :: 0 <= m < |records| && EventOf(p, records, m, e)
  {
    var init, x := records[..|records| - 1], records[|records| - 1];
    assert records == init + [x];
    if e in TakeAll(p, init).events {
      EventsAreAccepted(p, init, e);
      var m :| 0 <= m < |init| && EventOf(p, init, m, e);
      TakenLast(p, init, x);
      assert EventOf(p, records, m, e);
    } else {
      NewEvent(p, init, x, e);
    }
  }
}
