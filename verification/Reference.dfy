/** The batch calculation from records to listed results, in memory: what the same calculation on disk is held to. */
module Reference {
  import opened Seqs
  import opened Events
  import opened Measurement
  import opened Tallies
  import opened Dimensions
  import opened Normalize
  import opened Oracle
  import opened Compare
  import opened Dictionaries
  import opened Sorting

  /** The texts by which results are named and listed: canonical encodings, so that no two names share one. */
  datatype Texts = Texts(metric: MetricKey -> string, association: Link -> string)

  ghost predicate Injective<T(!new)>(text: T -> string) { forall a, b :: text(a) == text(b) ==> a == b }

  ghost predicate Canonical(texts: Texts) { Injective(texts.metric) && Injective(texts.association) }

  datatype Result = Result(quality: seq<Quality>, inputRecords: nat, cleanEvents: nat, output: Output)

  function ByMetric(texts: Texts): MetricResult -> string { (m: MetricResult) => texts.metric(m.key) }

  function ByAssociation(texts: Texts): Association -> string { (a: Association) => texts.association(a.key) }

  // The metric rows as a dictionary.

  /** Adding to a row that is held by reference: the row itself changes. */
  function AddInMemory(d: seq<Entry<MetricKey, Tally>>, a: Addition): seq<Entry<MetricKey, Tally>> {
    var held := Lookup(d, a.key);
    Put(d, a.key, Plus(if held.Some? then held.value else ZERO, a.values))
  }

  function AddAllInMemory(adds: seq<Addition>): seq<Entry<MetricKey, Tally>> {
    if adds == [] then [] else AddInMemory(AddAllInMemory(adds[..|adds| - 1]), adds[|adds| - 1])
  }

  lemma {:induction false} DictionaryHoldsRows(adds: seq<Addition>)
    ensures Represents(AddAllInMemory(adds), Rows(adds))
  {
    if adds != [] {
      var init, a := adds[..|adds| - 1], adds[|adds| - 1];
      DictionaryHoldsRows(init);
      var held := Lookup(AddAllInMemory(init), a.key);
      RepresentsPut(AddAllInMemory(init), Rows(init), a.key, Plus(if held.Some? then held.value else ZERO, a.values));
    }
  }

  function ResultsOf(d: seq<Entry<MetricKey, Tally>>): (ms: seq<MetricResult>)
    ensures |ms| == |d| && forall i :: 0 <= i < |d| ==> ms[i] == MetricResult(d[i].key, d[i].value)
  {
    if d == [] then [] else ResultsOf(d[..|d| - 1]) + [MetricResult(d[|d| - 1].key, d[|d| - 1].value)]
  }

  // The whole result.

  function LineageOf(p: Policy, r: Rules, records: seq<Record>): seq<Quality> {
    var s := TakeAll(p, records);
    s.quality + SignalsOf(s.events, Filter(s.events, OfKind(Click)), r)
  }

  function AssociationsIn(events: seq<Event>, r: Rules): seq<Association> {
    AssociationsOf(events, Filter(events, OfKind(Conversion)), r)
  }

  function AddedIn(events: seq<Event>, r: Rules, ds: seq<Dimension>): seq<Addition>
    requires r.window > 0
  {
    AddedBy(events, Ordered(events), r, ds)
  }

  /** Lineage in record order with the signals after it; associations and metric rows in the order of their names. */
  function ResultOf(p: Policy, r: Rules, ds: seq<Dimension>, texts: Texts, records: seq<Record>): Result
    requires r.window > 0
  {
    var events := TakeAll(p, records).events;
    Result(
      LineageOf(p, r, records), |records|, |events|,
      Output(SortBy(ResultsOf(AddAllInMemory(AddedIn(events, r, ds))), ByMetric(texts)),
             SortBy(AssociationsIn(events, r), ByAssociation(texts))))
  }

  lemma {:induction false} AssociationAt(events: seq<Event>, vs: seq<Event>, r: Rules, i: nat)
    requires i < |vs|
    ensures |AssociationsOf(events, vs, r)| == |vs|
            && AssociationsOf(events, vs, r)[i] == AssociationOf(events, vs[i], r)
  {
    var init := vs[..|vs| - 1];
    if i < |init| {
      AssociationAt(events, init, r, i);
    } else if init != [] {
      AssociationAt(events, init, r, 0);
    }
  }

  /** Conversions have distinct keys, so no two associations share a name. */
  lemma NamesAreDistinct(events: seq<Event>, r: Rules, texts: Texts)
    requires Distinct(events, BusinessKey) && Canonical(texts)
    ensures Distinct(AssociationsIn(events, r), ByAssociation(texts))
  {
    var vs, associations := Filter(events, OfKind(Conversion)), AssociationsIn(events, r);
    FilterDistinct(events, OfKind(Conversion), BusinessKey);
    if vs != [] { AssociationAt(events, vs, r, 0); }
    forall i, j | 0 <= i < j < |associations|
      ensures ByAssociation(texts)(associations[i]) != ByAssociation(texts)(associations[j])
    {
      AssociationAt(events, vs, r, i);
      AssociationAt(events, vs, r, j);
      assert vs[i] in vs && vs[j] in vs;
      KindsAreSorted(events, Conversion);
      assert BusinessKey(vs[i]) != BusinessKey(vs[j]);
    }
  }

  lemma RowNamesAreDistinct(d: seq<Entry<MetricKey, Tally>>, texts: Texts)
    requires OneEntryPerKey(d) && Canonical(texts)
    ensures Distinct(ResultsOf(d), ByMetric(texts))
  {
  }

  /** The rows of a map, whatever dictionary holds them. */
  lemma ResultsAreRows(d: seq<Entry<MetricKey, Tally>>, metrics: map<MetricKey, Tally>, m: MetricResult)
    requires Represents(d, metrics)
    ensures m in ResultsOf(d) <==> m.key in metrics && metrics[m.key] == m.values
  {
    LookupIs(d, m.key);
    if m in ResultsOf(d) {
      var i :| 0 <= i < |d| && ResultsOf(d)[i] == m;
      assert d[i].key == m.key;
    }
    if m.key in metrics && metrics[m.key] == m.values {
      var i :| 0 <= i < |d| && d[i] == Entry(m.key, m.values);
      assert ResultsOf(d)[i] == m;
    }
  }

  ghost predicate Lists(rows: seq<MetricResult>, metrics: map<MetricKey, Tally>) {
    forall m :: m in rows <==> m.key in metrics && metrics[m.key] == m.values
  }

  /** However the rows of a table are listed without repetition, sorted by name they are the dictionary's, so sorted. */
  lemma SortedRowsAreOne(rows: seq<MetricResult>, metrics: map<MetricKey, Tally>, texts: Texts,
                         d: seq<Entry<MetricKey, Tally>>)
    requires Canonical(texts) && Represents(d, metrics) && Lists(rows, metrics) && Distinct(rows, ByMetric(texts))
    ensures SortBy(rows, ByMetric(texts)) == SortBy(ResultsOf(d), ByMetric(texts))
  {
    RowNamesAreDistinct(d, texts);
    SortIncreases(rows, ByMetric(texts));
    SortIncreases(ResultsOf(d), ByMetric(texts));
    forall m
      ensures m in SortBy(rows, ByMetric(texts)) <==> m in SortBy(ResultsOf(d), ByMetric(texts))
    {
      SortMember(rows, ByMetric(texts), m);
      SortMember(ResultsOf(d), ByMetric(texts), m);
      ResultsAreRows(d, metrics, m);
    }
    OneListing(SortBy(rows, ByMetric(texts)), SortBy(ResultsOf(d), ByMetric(texts)), ByMetric(texts));
  }

  /** The rows of a table in some order. */
  method RowsOf(metrics: map<MetricKey, Tally>, ghost texts: Texts) returns (rows: seq<MetricResult>)
    requires Canonical(texts)
    ensures Lists(rows, metrics) && Distinct(rows, ByMetric(texts))
  {
    rows := [];
    var rest := metrics.Keys;
    while rest != {}
      invariant rest <= metrics.Keys && Distinct(rows, ByMetric(texts))
      invariant forall m :: m in rows <==> m.key in metrics && m.key !in rest && metrics[m.key] == m.values
      decreases rest
    {
      var k :| k in rest;
      forall i | 0 <= i < |rows|
        ensures ByMetric(texts)(rows[i]) != ByMetric(texts)(MetricResult(k, metrics[k]))
      {
        assert rows[i] in rows;
      }
      rows, rest := rows + [MetricResult(k, metrics[k])], rest - {k};
    }
  }

  /** The calculation with containers in memory, sorted at the end. */
  method CalculateInMemory(p: Policy, r: Rules, ds: seq<Dimension>, texts: Texts, records: seq<Record>)
    returns (result: Result)
    requires r.window > 0 && Canonical(texts)
    ensures result == ResultOf(p, r, ds, texts, records)
  {
    var events, quality := Normalize.Run(p, records);
    KeysAreUnique(p, records);
    var metrics, associations, signals := Oracle.Calculate(events, r, ds);
    var rows := RowsOf(metrics, texts);
    DictionaryHoldsRows(AddedIn(events, r, ds));
    SortedRowsAreOne(rows, metrics, texts, AddAllInMemory(AddedIn(events, r, ds)));
    result := Result(quality + signals, |records|, |events|,
                     Output(SortBy(rows, ByMetric(texts)), SortBy(associations, ByAssociation(texts))));
  }

  // What the listed result says.

  function IsDisposition(): Quality -> bool { (q: Quality) => !q.disposition.LinkSignal? }

  lemma {:induction false} SignalsDisposeOfNothing(events: seq<Event>, clicks: seq<Event>, r: Rules)
    ensures Filter(SignalsOf(events, clicks, r), IsDisposition()) == []
  {
    if clicks != [] {
      SignalsDisposeOfNothing(events, clicks[..|clicks| - 1], r);
      FilterAppend(SignalsOf(events, clicks[..|clicks| - 1], r), SignalOf(events, clicks[|clicks| - 1], r),
            IsDisposition());
    }
  }

  lemma {:induction false} LineageDisposes(p: Policy, records: seq<Record>)
    ensures Filter(TakeAll(p, records).quality, IsDisposition()) == TakeAll(p, records).quality
  {
    if records != [] {
      var init, x := records[..|records| - 1], records[|records| - 1];
      LineageDisposes(p, init);
      TakeAddsOne(p, TakeAll(p, init), x);
      var before, after := TakeAll(p, init).quality, TakeAll(p, records).quality;
      assert after == before + [after[|before|]];
      FilterAppend(before, [after[|before|]], IsDisposition());
    }
  }

  /** Among all lineage, signals included, every input record has exactly one disposition, in the order of the input. */
  lemma OneDispositionEach(p: Policy, r: Rules, ds: seq<Dimension>, texts: Texts, records: seq<Record>)
    requires r.window > 0
    ensures var said := Filter(ResultOf(p, r, ds, texts, records).quality, IsDisposition());
            |said| == |records| && forall n :: 0 <= n < |records| ==> said[n].receipt == records[n].receipt
  {
    var s := TakeAll(p, records);
    var signals := SignalsOf(s.events, Filter(s.events, OfKind(Click)), r);
    FilterAppend(s.quality, signals, IsDisposition());
    SignalsDisposeOfNothing(s.events, Filter(s.events, OfKind(Click)), r);
    LineageDisposes(p, records);
    EveryRecordDisposedOnce(p, records);
  }
}
