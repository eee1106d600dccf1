/** The batch calculation's first pass: which records become clean events, and what becomes of every other one. */
module Normalize {
  import opened Seqs
  import opened Events

  /** A received record. `Malformed` stands for whatever the event schema refuses. An event that names no region is read
      as being of region "unknown", but no filter on regions applies to it. */
  datatype Body = Malformed | WellFormed(event: Event, schemaVersion: int, regionNamed: bool)

  datatype Record = Record(receipt: string, receivedAt: nat, body: Body)

  datatype Policy = Policy(schemaVersions: set<int>, effectiveFrom: nat, filterRegions: set<string>)

  datatype Disposition =
    | SchemaInvalid
    | SchemaVersionDisabled
    | RuleFiltered
    | DuplicateEventId
    | DuplicateBusinessKey
    | Cleaned
    | LinkSignal(reason: LinkReason)

  /** What one row of lineage says of one receipt. A signal is no disposition: it is said besides it. */
  datatype Quality = Quality(receipt: string, disposition: Disposition)

  datatype State = State(events: seq<Event>, quality: seq<Quality>, seenIds: set<Link>, seenKeys: set<Business>)

  const EMPTY := State([], [], {}, {})

  function EventIdKey(e: Event): Link { Link(e.advertiser, e.app, e.eventId) }

  function CleanEvent(x: Record): Event
    requires x.body.WellFormed?
  {
    x.body.event.(receipt := x.receipt, receivedAt := x.receivedAt)
  }

  /** Refused before any duplicate check, for its own content alone. */
  function Refusal(p: Policy, x: Record): Option<Disposition> {
    if x.body.Malformed? then Some(SchemaInvalid)
    else if x.body.schemaVersion !in p.schemaVersions then Some(SchemaVersionDisabled)
    else if x.body.event.time < p.effectiveFrom then Some(RuleFiltered)
    else if x.body.regionNamed && x.body.event.region in p.filterRegions then Some(RuleFiltered)
    else None
  }

  function Say(s: State, x: Record, d: Disposition): State { s.(quality := s.quality + [Quality(x.receipt, d)]) }

  function Take(p: Policy, s: State, x: Record): State {
    var refusal := Refusal(p, x);
    if refusal.Some? then Say(s, x, refusal.value)
    else
      var e := CleanEvent(x);
      var id, key := EventIdKey(e), BusinessKey(e);
      if id in s.seenIds || key in s.seenKeys then
        Say(s, x, if id in s.seenIds then DuplicateEventId else DuplicateBusinessKey).(seenIds := s.seenIds + {id})
      else
        Say(s, x, Cleaned).(events := s.events + [e], seenIds := s.seenIds + {id}, seenKeys := s.seenKeys + {key})
  }

  function TakeAll(p: Policy, records: seq<Record>): State {
    if records == [] then EMPTY else Take(p, TakeAll(p, records[..|records| - 1]), records[|records| - 1])
  }

  /** The pass as it runs: four containers updated record by record. */
  method Run(p: Policy, records: seq<Record>) returns (events: seq<Event>, quality: seq<Quality>)
    ensures events == TakeAll(p, records).events && quality == TakeAll(p, records).quality
  {
    events, quality := [], [];
    var seenIds, seenKeys := {}, {};
    var i := 0;
    while i < |records|
      invariant 0 <= i <= |records|
      invariant State(events, quality, seenIds, seenKeys) == TakeAll(p, records[..i])
    {
      var x := records[i];
      assert records[..i + 1][..i] == records[..i];
      i := i + 1;
      var refusal := Refusal(p, x);
      if refusal.Some? {
        quality := quality + [Quality(x.receipt, refusal.value)];
        continue;
      }
      var e := CleanEvent(x);
      var id, key := EventIdKey(e), BusinessKey(e);
      if id in seenIds || key in seenKeys {
        quality := quality + [Quality(x.receipt, if id in seenIds then DuplicateEventId else DuplicateBusinessKey)];
        seenIds := seenIds + {id};
        continue;
      }
      seenIds, seenKeys := seenIds + {id}, seenKeys + {key};
      events := events + [e];
      quality := quality + [Quality(x.receipt, Cleaned)];
    }
    assert records[..i] == records;
  }

  function IsCleaned(): Quality -> bool { (q: Quality) => q.disposition.Cleaned? }

  function ReceiptOf(): Event -> string { (e: Event) => e.receipt }

  function QualityReceipt(): Quality -> string { (q: Quality) => q.receipt }

  /** One record adds one row of lineage, and a clean event exactly if that row says so. */
  lemma TakeAddsOne(p: Policy, s: State, x: Record)
    ensures var s' := Take(p, s, x);
            && |s'.quality| == |s.quality| + 1 && s'.quality[..|s.quality|] == s.quality
            && s'.quality[|s.quality|].receipt == x.receipt
            && (s'.quality[|s.quality|].disposition.Cleaned? ==>
                 x.body.WellFormed? && s'.events == s.events + [CleanEvent(x)])
            && (!s'.quality[|s.quality|].disposition.Cleaned? ==> s'.events == s.events)
  {
  }

  /** Every record is disposed of exactly once, in order. */
  lemma {:induction false} EveryRecordDisposedOnce(p: Policy, records: seq<Record>)
    ensures |TakeAll(p, records).quality| == |records|
    ensures forall n :: 0 <= n < |records| ==> TakeAll(p, records).quality[n].receipt == records[n].receipt
  {
    if records != [] {
      var init, x := records[..|records| - 1], records[|records| - 1];
      EveryRecordDisposedOnce(p, init);
      TakeAddsOne(p, TakeAll(p, init), x);
    }
  }

  /** The clean events are those that the lineage says are clean, in the same order. */
  lemma {:induction false} CleanedAreTheEvents(p: Policy, records: seq<Record>)
    ensures Map(Filter(TakeAll(p, records).quality, IsCleaned()), QualityReceipt())
            == Map(TakeAll(p, records).events, ReceiptOf())
  {
    if records != [] {
      var init, x := records[..|records| - 1], records[|records| - 1];
      var s0, s := TakeAll(p, init), TakeAll(p, records);
      CleanedAreTheEvents(p, init);
      TakeAddsOne(p, s0, x);
      var q := s.quality[|s0.quality|];
      assert s.quality == s0.quality + [q];
      FilterAppend(s0.quality, [q], IsCleaned());
      if q.disposition.Cleaned? {
        assert Filter([q], IsCleaned()) == [q];
        MapAppend(s0.events, [CleanEvent(x)], ReceiptOf());
        MapAppend(Filter(s0.quality, IsCleaned()), [q], QualityReceipt());
      }
    }
  }

  ghost predicate KeysSeen(s: State) {
    && (forall k :: k in s.seenKeys <==> exists e :: e in s.events && BusinessKey(e) == k)
    && Distinct(s.events, BusinessKey)
  }

  lemma TakeKeepsKeys(p: Policy, s: State, x: Record)
    requires KeysSeen(s)
    ensures KeysSeen(Take(p, s, x))
  {
    var s' := Take(p, s, x);
    if s'.events != s.events {
      var e := CleanEvent(x);
      assert s'.events == s.events + [e] && s'.seenKeys == s.seenKeys + {BusinessKey(e)};
      forall j | 0 <= j < |s.events|
        ensures BusinessKey(s.events[j]) != BusinessKey(e)
      {
        assert s.events[j] in s.events;
      }
      forall k
        ensures k in s'.seenKeys <==> exists f :: f in s'.events && BusinessKey(f) == k
      {
        assert forall f :: f in s'.events <==> f in s.events || f == e;
        assert e in s'.events;
      }
    }
  }

  /** No business key is accepted twice, and the keys refused as seen are exactly those accepted. */
  lemma {:induction false} KeysAreUnique(p: Policy, records: seq<Record>)
    ensures KeysSeen(TakeAll(p, records))
  {
    if records != [] {
      KeysAreUnique(p, records[..|records| - 1]);
      TakeKeepsKeys(p, TakeAll(p, records[..|records| - 1]), records[|records| - 1]);
    }
  }
}
