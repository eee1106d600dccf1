/** The streaming cleaner, validation and two chained duplicate filters, against the batch calculation's single pass. */
module Cleaning {
  import opened Seqs
  import opened Events
  import opened Normalize
  import D = Dedup

  datatype Chain = Chain(ids: D.State<Link>, keys: D.State<Business>, events: seq<Event>, quality: seq<Quality>)

  const NOTHING_CLEANED := Chain(D.State(map[], {}, 0), D.State(map[], {}, 0), [], [])

  /** A record reaches the event-identifier filter at `idTime` and, unless it stops there, the business filter at
      `keyTime`. */
  datatype Step =
    | Receive(record: Record, idTime: int, keyTime: int)
    | CleanIds(idTimer: D.Timer<Link>, time: int)
    | CleanKeys(keyTimer: D.Timer<Business>, time: int)

  function Tell(c: Chain, x: Record, d: Disposition): Chain { c.(quality := c.quality + [Quality(x.receipt, d)]) }

  /** The job's own validation. It reads the region of an event that names none as the empty text. */
  function JobRefusal(p: Policy, x: Record): Option<Disposition> {
    if x.body.Malformed? then Some(SchemaInvalid)
    else if x.body.schemaVersion !in p.schemaVersions then Some(SchemaVersionDisabled)
    else
      var region := if x.body.regionNamed then x.body.event.region else "";
      if x.body.event.time < p.effectiveFrom || region in p.filterRegions then Some(RuleFiltered) else None
  }

  function ReceiveRecord(p: Policy, c: Chain, x: Record, idTime: int, keyTime: int, span: nat): Chain {
    var refusal := JobRefusal(p, x);
    if refusal.Some? then Tell(c, x, refusal.value)
    else
      var e := CleanEvent(x);
      var id, key := EventIdKey(e), BusinessKey(e);
      var c1 := c.(ids := D.Offer(c.ids, id, idTime, span));
      if !D.Accepts(c.ids, id, idTime) then Tell(c1, x, DuplicateEventId)
      else
        var c2 := c1.(keys := D.Offer(c.keys, key, keyTime, span));
        if !D.Accepts(c.keys, key, keyTime) then Tell(c2, x, DuplicateBusinessKey)
        else Tell(c2, x, Cleaned).(events := c.events + [e])
  }

  function Next(p: Policy, c: Chain, step: Step, span: nat): Chain {
    match step
    case Receive(x, t1, t2) => ReceiveRecord(p, c, x, t1, t2, span)
    case CleanIds(t, now) => c.(ids := D.Fire(c.ids, t, now))
    case CleanKeys(t, now) => c.(keys := D.Fire(c.keys, t, now))
  }

  /** What the job says of one record, said of its fields and of the identifiers and keys that are remembered. */
  predicate Answers(p: Policy, c: Chain, x: Record, idTime: int, keyTime: int, d: Disposition) {
    match x.body
    case Malformed => d == SchemaInvalid
    case WellFormed(e, version, regionNamed) =>
      var region := if regionNamed then e.region else "";
      var id := Link(e.advertiser, e.app, e.eventId);
      if version !in p.schemaVersions then d == SchemaVersionDisabled
      else if e.time < p.effectiveFrom || region in p.filterRegions then d == RuleFiltered
      else if id in c.ids.expires && idTime < c.ids.expires[id] then d == DuplicateEventId
      else if BusinessKey(e) in c.keys.expires && keyTime < c.keys.expires[BusinessKey(e)] then
        d == DuplicateBusinessKey
      else d == Cleaned
  }

  /** Every record is answered once, and becomes a clean event exactly if it is answered as one. */
  lemma EveryRecordIsAnswered(p: Policy, c: Chain, x: Record, idTime: int, keyTime: int, span: nat)
    ensures var c' := ReceiveRecord(p, c, x, idTime, keyTime, span);
            && |c'.quality| == |c.quality| + 1 && c'.quality[..|c.quality|] == c.quality
            && c'.quality[|c.quality|].receipt == x.receipt
            && Answers(p, c, x, idTime, keyTime, c'.quality[|c.quality|].disposition)
            && c'.events == (if c'.quality[|c.quality|].disposition.Cleaned? && x.body.WellFormed?
                             then c.events + [x.body.event.(receipt := x.receipt, receivedAt := x.receivedAt)]
                             else c.events)
  {
  }

  predicate Allowed(c: Chain, step: Step) {
    match step
    case Receive(_, t1, t2) => c.ids.now <= t1 && c.keys.now <= t2
    case CleanIds(t, now) => D.Allowed(c.ids, D.Cleanup(t, now))
    case CleanKeys(t, now) => D.Allowed(c.keys, D.Cleanup(t, now))
  }

  /** The two filters as the job keeps them, one record at a time. */
  class Cleaner {
    const policy: Policy
    const ids: D.Deduplicate<Link>
    const keys: D.Deduplicate<Business>
    var events: seq<Event>
    var quality: seq<Quality>

    ghost function Model(): Chain
      reads this, ids, keys
    {
      Chain(ids.Model(), keys.Model(), events, quality)
    }

    constructor (policy: Policy, span: nat)
      ensures fresh(ids) && fresh(keys) && ids.span == span && keys.span == span && this.policy == policy
      ensures events == [] && quality == [] && ids.expires == map[] && keys.expires == map[]
    {
      this.policy := policy;
      ids := new D.Deduplicate<Link>(span);
      keys := new D.Deduplicate<Business>(span);
      events, quality := [], [];
    }

    method ProcessElement(x: Record, idTime: int, keyTime: int)
      requires ids.span == keys.span
      modifies this, ids, keys
      ensures Model() == ReceiveRecord(policy, old(Model()), x, idTime, keyTime, ids.span)
    {
      var refusal := JobRefusal(policy, x);
      if refusal.Some? {
        quality := quality + [Quality(x.receipt, refusal.value)];
        return;
      }
      var e := CleanEvent(x);
      var accepted := ids.ProcessElement(EventIdKey(e), idTime);
      if !accepted {
        quality := quality + [Quality(x.receipt, DuplicateEventId)];
        return;
      }
      accepted := keys.ProcessElement(BusinessKey(e), keyTime);
      if !accepted {
        quality := quality + [Quality(x.receipt, DuplicateBusinessKey)];
        return;
      }
      quality := quality + [Quality(x.receipt, Cleaned)];
      events := events + [e];
    }
  }

  // Runs shorter than the promised span.

  function Run(p: Policy, steps: seq<Step>, span: nat): Chain {
    if steps == [] then NOTHING_CLEANED else Next(p, Run(p, steps[..|steps| - 1], span), steps[|steps| - 1], span)
  }

  /** Every instant lies in one span after `from` (at the first filter) or after `since` (at the second). */
  predicate Brief(p: Policy, steps: seq<Step>, span: nat, from: int, since: int) {
    steps == []
    || (Brief(p, steps[..|steps| - 1], span, from, since)
        && Allowed(Run(p, steps[..|steps| - 1], span), steps[|steps| - 1])
        && match steps[|steps| - 1]
           case Receive(_, t1, t2) => from <= t1 < from + span && since <= t2 < since + span
           case CleanIds(_, now) => from <= now < from + span
           case CleanKeys(_, now) => since <= now < since + span)
  }

  function Received(steps: seq<Step>): seq<Record> {
    if steps == [] then []
    else
      var init, last := Received(steps[..|steps| - 1]), steps[|steps| - 1];
      if last.Receive? then init + [last.record] else init
  }

  /** Nothing held expires before the span is over. */
  ghost predicate Young<K(!new)>(s: D.State<K>, bound: int) {
    (forall k :: k in s.expires ==> bound <= s.expires[k]) && (forall t :: t in s.timers ==> bound <= t.time)
  }

  ghost predicate Agree(c: Chain, s: State, from: int, since: int, span: nat) {
    && c.events == s.events && c.quality == s.quality
    && c.ids.expires.Keys == s.seenIds && Young(c.ids, from + span)
    && c.keys.expires.Keys == s.seenKeys && Young(c.keys, since + span)
  }

  lemma OfferStaysYoung<K(!new)>(s: D.State<K>, key: K, t: int, span: nat, from: int)
    requires Young(s, from + span) && from <= t < from + span
    ensures D.Accepts(s, key, t) <==> key !in s.expires
    ensures Young(D.Offer(s, key, t, span), from + span)
    ensures D.Offer(s, key, t, span).expires.Keys == s.expires.Keys + {key}
  {
  }

  /** A run shorter than the span, however the clocks of the two filters differ, cleans as the single pass with two sets
      does: the same events accepted, and every record with the same disposition. */
  lemma {:induction false} BriefRunsClean(p: Policy, steps: seq<Step>, span: nat, from: int, since: int)
    requires "" !in p.filterRegions && Brief(p, steps, span, from, since)
    ensures Agree(Run(p, steps, span), TakeAll(p, Received(steps)), from, since, span)
  {
    if steps != [] {
      var init, step := steps[..|steps| - 1], steps[|steps| - 1];
      BriefRunsClean(p, init, span, from, since);
      var c, s := Run(p, init, span), TakeAll(p, Received(init));
      match step
      case Receive(x, t1, t2) =>
        assert Received(steps)[..|Received(steps)| - 1] == Received(init);
        assert JobRefusal(p, x) == Refusal(p, x);
        if Refusal(p, x).None? {
          OfferStaysYoung(c.ids, EventIdKey(CleanEvent(x)), t1, span, from);
          OfferStaysYoung(c.keys, BusinessKey(CleanEvent(x)), t2, span, since);
        }
      case CleanIds(t, now) =>
        assert false;
      case CleanKeys(t, now) =>
        assert false;
    }
  }

  /** A record that names no region, otherwise in order. */
  function Unplaced(p: Policy, version: int): Record {
    var e :=
      Event(Click, "e", p.effectiveFrom, "a", "p", "u", "c", "unknown", "v", "i", "k", "", "", "", "", 0, "r", 0);
    Record("r", 0, WellFormed(e, version, false))
  }

  lemma OneRecord(p: Policy, x: Record, span: nat, from: nat, since: nat)
    requires span > 0
    ensures Brief(p, [Receive(x, from, since)], span, from, since)
    ensures Run(p, [Receive(x, from, since)], span) == ReceiveRecord(p, NOTHING_CLEANED, x, from, since, span)
    ensures TakeAll(p, Received([Receive(x, from, since)])) == Take(p, EMPTY, x)
  {
    var steps := [Receive(x, from, since)];
    assert steps[..|steps| - 1] == [];
    assert Allowed(Run(p, [], span), steps[0]) && Brief(p, [], span, from, since);
    assert Received(steps) == [x] && [x][..0] == [];
  }

  /** The two cleaners agree on all short runs exactly if the rules do not filter the empty region: the job drops events
      that name no region under such a rule, the single pass keeps them. */
  lemma CleanersAgreeExactly(p: Policy, span: nat, from: nat, since: nat)
    requires span > 0 && p.schemaVersions != {}
    ensures (forall steps :: Brief(p, steps, span, from, since) ==>
               Agree(Run(p, steps, span), TakeAll(p, Received(steps)), from, since, span))
            <==> "" !in p.filterRegions
  {
    if "" !in p.filterRegions {
      forall steps | Brief(p, steps, span, from, since)
        ensures Agree(Run(p, steps, span), TakeAll(p, Received(steps)), from, since, span)
      {
        BriefRunsClean(p, steps, span, from, since);
      }
    } else {
      SomeInstant(p.schemaVersions);
      var version :| version in p.schemaVersions;
      OneRecord(p, Unplaced(p, version), span, from, since);
      assert JobRefusal(p, Unplaced(p, version)) == Some(RuleFiltered) && Refusal(p, Unplaced(p, version)).None?;
    }
  }
}
