/** What transport may do to a set of true records without changing the batch calculation's business results. */
module Corruption {
  import opened Seqs
  import opened Events
  import opened Measurement
  import opened Tallies
  import opened Dimensions
  import opened Oracle
  import opened Normalize
  import opened Compare
  import opened Content
  import opened Reordering
  import opened Counting
  import BT = BatchTotals

  /** The same event, under whatever event identifier and receipt. */
  predicate SameContent(x: Record, y: Record) {
    && x.body.WellFormed? && y.body.WellFormed?
    && x.body.schemaVersion == y.body.schemaVersion && x.body.regionNamed == y.body.regionNamed
    && Strip(x.body.event) == Strip(y.body.event)
  }

  ghost predicate IdsDetermineKeys(rs: seq<Record>) {
    forall x, y :: x in rs && y in rs && x.body.WellFormed? && y.body.WellFormed?
                   && EventIdKey(x.body.event) == EventIdKey(y.body.event) ==>
      BusinessKey(x.body.event) == BusinessKey(y.body.event)
  }

  /** Truth: an event identifier names one business event, and a business key has one content. */
  ghost predicate Genuine(truth: seq<Record>) {
    && IdsDetermineKeys(truth)
    && (forall x :: x in truth ==> x.body.WellFormed?)
    && (forall x, y :: x in truth && y in truth && BusinessKey(x.body.event) == BusinessKey(y.body.event) ==>
         SameContent(x, y))
  }

  /** Everything true is delivered. */
  ghost predicate Delivers(truth: seq<Record>, t: seq<Record>) {
    forall x :: x in truth ==> exists y :: y in t && SameContent(x, y)
  }

  /** Nothing well-formed is delivered that is not a copy of something true. */
  ghost predicate Faithful(truth: seq<Record>, t: seq<Record>) {
    forall y :: y in t && y.body.WellFormed? ==> exists x :: x in truth && SameContent(x, y)
  }

  /** Transport: any order, any number of copies under the same or fresh event identifiers, and any
      malformed records. */
  ghost predicate Corrupts(truth: seq<Record>, t: seq<Record>) {
    IdsDetermineKeys(t) && Delivers(truth, t) && Faithful(truth, t)
  }

  predicate Admitted(p: Policy, x: Record) { Refusal(p, x).None? }

  lemma CleanStrips(x: Record)
    requires x.body.WellFormed?
    ensures Strip(CleanEvent(x)) == Strip(x.body.event) && BusinessKey(CleanEvent(x)) == BusinessKey(x.body.event)
    ensures EventIdKey(CleanEvent(x)) == EventIdKey(x.body.event)
  {
  }

  /** Clean events come from admitted records. */
  ghost predicate Sourced(p: Policy, rs: seq<Record>, s: State) {
    forall e :: e in s.events ==> exists x :: x in rs && Admitted(p, x) && e == CleanEvent(x)
  }

  ghost predicate Seen(p: Policy, rs: seq<Record>, s: State) {
    && (forall id :: id in s.seenIds ==> exists x :: x in rs && Admitted(p, x) && EventIdKey(x.body.event) == id)
    && (forall x :: x in rs && Admitted(p, x) ==> BusinessKey(x.body.event) in s.seenKeys)
    && Sourced(p, rs, s)
  }

  lemma TakeSees(p: Policy, rs: seq<Record>, x: Record, s: State)
    requires IdsDetermineKeys(rs + [x]) && Seen(p, rs, s)
    ensures Seen(p, rs + [x], Take(p, s, x))
  {
    var all, s' := rs + [x], Take(p, s, x);
    assert forall y :: y in all <==> y in rs || y == x;
    if Admitted(p, x) {
      CleanStrips(x);
      var id, key := EventIdKey(x.body.event), BusinessKey(x.body.event);
      if id in s.seenIds {
        var y :| y in rs && Admitted(p, y) && EventIdKey(y.body.event) == id;
        assert y in all && x in all;
        assert BusinessKey(y.body.event) == key;
      }
      assert key in s'.seenKeys;
    }
  }

  /** Everything admitted is represented by a clean event of its business key, and every clean event was admitted. */
  lemma {:induction false} AdmittedAreRepresented(p: Policy, rs: seq<Record>)
    requires IdsDetermineKeys(rs)
    ensures Seen(p, rs, TakeAll(p, rs))
  {
    if rs != [] {
      var init, x := rs[..|rs| - 1], rs[|rs| - 1];
      assert rs == init + [x];
      AdmittedAreRepresented(p, init);
      TakeSees(p, init, x, TakeAll(p, init));
    }
  }

  ghost predicate KeyAdmitted(p: Policy, rs: seq<Record>, key: Business) {
    exists y :: y in rs && Admitted(p, y) && BusinessKey(y.body.event) == key
  }

  lemma SeenKeyWasAdmitted(p: Policy, rs: seq<Record>, s: State, key: Business)
    requires Sourced(p, rs, s) && KeysSeen(s) && key in s.seenKeys
    ensures KeyAdmitted(p, rs, key)
  {
    var e :| e in s.events && BusinessKey(e) == key;
    var y := SourceOf(p, rs, s, e);
  }

  /** The record that a clean event came from. */
  lemma SourceOf(p: Policy, rs: seq<Record>, s: State, e: Event) returns (x: Record)
    requires Sourced(p, rs, s) && e in s.events
    ensures x in rs && Admitted(p, x) && BusinessKey(x.body.event) == BusinessKey(e) && Strip(x.body.event) == Strip(e)
  {
    x :| x in rs && Admitted(p, x) && e == CleanEvent(x);
    CleanStrips(x);
  }

  lemma KeySeenExactly(p: Policy, rs: seq<Record>, key: Business)
    requires IdsDetermineKeys(rs)
    ensures key in TakeAll(p, rs).seenKeys <==> KeyAdmitted(p, rs, key)
  {
    AdmittedAreRepresented(p, rs);
    KeysAreUnique(p, rs);
    if key in TakeAll(p, rs).seenKeys { SeenKeyWasAdmitted(p, rs, TakeAll(p, rs), key); }
  }

  lemma IdSeenMeansKeySeen(p: Policy, rs: seq<Record>, x: Record)
    requires IdsDetermineKeys(rs + [x]) && Admitted(p, x) && EventIdKey(x.body.event) in TakeAll(p, rs).seenIds
    ensures KeyAdmitted(p, rs, BusinessKey(x.body.event))
  {
    InitIds(rs, x);
    AdmittedAreRepresented(p, rs);
    var y :| y in rs && Admitted(p, y) && EventIdKey(y.body.event) == EventIdKey(x.body.event);
    assert x in rs + [x] && y in rs + [x];
  }

  lemma InitIds(rs: seq<Record>, x: Record)
    requires IdsDetermineKeys(rs + [x])
    ensures IdsDetermineKeys(rs)
  {
    assert forall y :: y in rs ==> y in rs + [x];
  }

  /** A record is accepted exactly if its business key is the first of its kind. */
  lemma AcceptedIfFirst(p: Policy, rs: seq<Record>, x: Record)
    requires IdsDetermineKeys(rs + [x]) && Admitted(p, x)
    ensures Take(p, TakeAll(p, rs), x).events
         == if KeyAdmitted(p, rs, BusinessKey(x.body.event)) then TakeAll(p, rs).events
            else TakeAll(p, rs).events + [CleanEvent(x)]
  {
    InitIds(rs, x);
    CleanStrips(x);
    KeySeenExactly(p, rs, BusinessKey(x.body.event));
    if EventIdKey(x.body.event) in TakeAll(p, rs).seenIds { IdSeenMeansKeySeen(p, rs, x); }
  }

  lemma SameContentSameFate(p: Policy, x: Record, y: Record)
    requires SameContent(x, y)
    ensures Admitted(p, x) <==> Admitted(p, y)
    ensures BusinessKey(x.body.event) == BusinessKey(y.body.event)
  {
    StripKeeps(x.body.event);
    StripKeeps(y.body.event);
    assert x.body.event.time == Strip(x.body.event).time == y.body.event.time;
    assert x.body.event.region == Strip(x.body.event).region == y.body.event.region;
  }

  lemma CopyOf(p: Policy, truth: seq<Record>, t: seq<Record>, z: Record) returns (x0: Record)
    requires Faithful(truth, t) && z in t && Admitted(p, z)
    ensures x0 in truth && SameContent(x0, z) && Admitted(p, x0)
  {
    x0 :| x0 in truth && SameContent(x0, z);
    SameContentSameFate(p, x0, z);
  }

  lemma CopyIn(p: Policy, truth: seq<Record>, t: seq<Record>, x0: Record) returns (y: Record)
    requires Delivers(truth, t) && x0 in truth && Admitted(p, x0)
    ensures y in t && SameContent(x0, y) && Admitted(p, y)
  {
    y :| y in t && SameContent(x0, y);
    SameContentSameFate(p, x0, y);
  }

  /** A clean event of some transport is, in content, the truth of its business key. */
  lemma CleanIsTrue(p: Policy, truth: seq<Record>, t: seq<Record>, s: State, g: Event) returns (x0: Record)
    requires Faithful(truth, t) && Sourced(p, t, s) && g in s.events
    ensures x0 in truth && Admitted(p, x0) && BusinessKey(g) == BusinessKey(x0.body.event)
            && Strip(g) == Strip(x0.body.event)
  {
    var z := SourceOf(p, t, s, g);
    x0 := CopyOf(p, truth, t, z);
    SameContentSameFate(p, x0, z);
  }

  lemma AdmittedIsClean(p: Policy, t: seq<Record>, y: Record) returns (g: Event)
    requires IdsDetermineKeys(t) && y in t && Admitted(p, y)
    ensures g in TakeAll(p, t).events && BusinessKey(g) == BusinessKey(y.body.event)
  {
    assert KeyAdmitted(p, t, BusinessKey(y.body.event));
    KeySeenExactly(p, t, BusinessKey(y.body.event));
    KeysAreUnique(p, t);
    g :| g in TakeAll(p, t).events && BusinessKey(g) == BusinessKey(y.body.event);
  }

  lemma EventsAreSourced(p: Policy, t: seq<Record>)
    requires IdsDetermineKeys(t)
    ensures Sourced(p, t, TakeAll(p, t))
  {
    AdmittedAreRepresented(p, t);
  }

  lemma OneTruth(truth: seq<Record>, x: Record, y: Record)
    requires Genuine(truth) && x in truth && y in truth && BusinessKey(x.body.event) == BusinessKey(y.body.event)
    ensures SameContent(x, y)
  {
  }

  /** Every admitted truth is represented by a clean event of the same content. */
  lemma TruthIsClean(p: Policy, truth: seq<Record>, t: seq<Record>, x0: Record) returns (g: Event)
    requires Genuine(truth) && Corrupts(truth, t) && x0 in truth && Admitted(p, x0)
    ensures g in TakeAll(p, t).events && Strip(g) == Strip(x0.body.event)
  {
    var y := CopyIn(p, truth, t, x0);
    SameContentSameFate(p, x0, y);
    g := AdmittedIsClean(p, t, y);
    EventsAreSourced(p, t);
    var z0 := CleanIsTrue(p, truth, t, TakeAll(p, t), g);
    OneTruth(truth, z0, x0);
  }

  lemma ContentIncluded(p: Policy, truth: seq<Record>, s: seq<Record>, t: seq<Record>, f: Event)
    requires Genuine(truth) && Corrupts(truth, s) && Corrupts(truth, t) && f in TakeAll(p, s).events
    ensures exists g :: g in TakeAll(p, t).events && Strip(f) == Strip(g)
  {
    EventsAreSourced(p, s);
    var x0 := CleanIsTrue(p, truth, s, TakeAll(p, s), f);
    var g := TruthIsClean(p, truth, t, x0);
  }

  /** Two sets of records with the same contents leave the same contents clean. */
  lemma ContentsIncluded(p: Policy, truth: seq<Record>, s: seq<Record>, t: seq<Record>)
    requires Genuine(truth) && Corrupts(truth, s) && Corrupts(truth, t)
    ensures forall e :: e in StripAll(TakeAll(p, s).events) ==> e in StripAll(TakeAll(p, t).events)
  {
    var a, b := TakeAll(p, s).events, TakeAll(p, t).events;
    forall e | e in StripAll(a)
      ensures e in StripAll(b)
    {
      StripMember(a, e);
      var f :| f in a && e == Strip(f);
      ContentIncluded(p, truth, s, t, f);
      StripMember(b, e);
    }
  }

  lemma StripDistinct(es: seq<Event>)
    requires Distinct(es, BusinessKey)
    ensures Distinct(StripAll(es), BusinessKey)
  {
    forall i, j | 0 <= i < j < |es|
      ensures BusinessKey(StripAll(es)[i]) != BusinessKey(StripAll(es)[j])
    {
      StripKeeps(es[i]);
      StripKeeps(es[j]);
    }
  }

  lemma TruthCorruptsItself(truth: seq<Record>)
    requires Genuine(truth)
    ensures Corrupts(truth, truth)
  {
    RepeatDelivers(truth, truth);
    RepeatIsFaithful(truth, truth);
  }

  lemma CleanAlike(p: Policy, truth: seq<Record>, t: seq<Record>)
    requires Genuine(truth) && Corrupts(truth, t)
    ensures Reordered(StripAll(TakeAll(p, truth).events), StripAll(TakeAll(p, t).events))
  {
    TruthCorruptsItself(truth);
    ContentsIncluded(p, truth, truth, t);
    ContentsIncluded(p, truth, t, truth);
    KeysAreUnique(p, truth);
    KeysAreUnique(p, t);
    StripDistinct(TakeAll(p, truth).events);
    StripDistinct(TakeAll(p, t).events);
  }

  // The results.

  function MetricsOf(p: Policy, r: Rules, ds: seq<Dimension>, records: seq<Record>): map<MetricKey, Tally>
    requires r.window > 0
  {
    var events := TakeAll(p, records).events;
    Rows(AddedBy(events, Ordered(events), r, ds))
  }

  function VerdictsOf(p: Policy, r: Rules, records: seq<Record>): seq<Association> {
    var events := TakeAll(p, records).events;
    AssociationsOf(events, Filter(events, OfKind(Conversion)), r)
  }

  /** `out` lists the results of the calculation, in any order. */
  ghost predicate Calculated(p: Policy, r: Rules, ds: seq<Dimension>, records: seq<Record>, out: Output)
    requires r.window > 0
  {
    var metrics := MetricsOf(p, r, ds, records);
    && (forall m :: m in out.metrics <==> m.key in metrics && metrics[m.key] == m.values)
    && (forall a :: a in out.associations <==> a in VerdictsOf(p, r, records))
  }

  lemma {:induction false} ValuesAre(ms: seq<MetricResult>, metrics: map<MetricKey, Tally>, key: MetricKey)
    requires forall m :: m in ms ==> m.key in metrics && metrics[m.key] == m.values
    ensures Get(Values(ms), key)
         == if key in metrics && MetricResult(key, metrics[key]) in ms && metrics[key] != ZERO then Some(metrics[key])
            else None
  {
    if ms != [] {
      assert ms == ms[..|ms| - 1] + [ms[|ms| - 1]];
      ValuesAre(ms[..|ms| - 1], metrics, key);
    }
  }

  lemma {:induction false} VerdictsAre(associations: seq<Association>, k: Link, v: Verdict)
    requires forall a :: a in associations && a.key == k ==> VerdictOf(a) == v
    ensures Get(Verdicts(associations), k) == if exists a :: a in associations && a.key == k then Some(v) else None
  {
    if associations != [] {
      var init, last := associations[..|associations| - 1], associations[|associations| - 1];
      assert associations == init + [last];
      VerdictsAre(init, k, v);
    }
  }

  lemma {:induction false} AssociationsMember(events: seq<Event>, vs: seq<Event>, r: Rules, a: Association)
    ensures a in AssociationsOf(events, vs, r) <==> exists v :: v in vs && a == AssociationOf(events, v, r)
  {
    if vs != [] {
      assert vs == vs[..|vs| - 1] + [vs[|vs| - 1]];
      AssociationsMember(events, vs[..|vs| - 1], r, a);
    }
  }

  /** The verdict that one conversion key has among the results of distinct events. */
  lemma VerdictAt(events: seq<Event>, r: Rules, associations: seq<Association>, k: Link)
    requires Distinct(events, BusinessKey)
    requires forall a :: a in associations <==> a in AssociationsOf(events, Filter(events, OfKind(Conversion)), r)
    ensures var table := Table(events, Conversion);
            Get(Verdicts(associations), k)
            == if k in table then Some(VerdictOf(AssociationOf(events, table[k], r))) else None
  {
    TableHolds(events, Conversion, k);
    var vs, table := Filter(events, OfKind(Conversion)), Table(events, Conversion);
    KindsAreSorted(events, Conversion);
    forall a | a in associations && a.key == k
      ensures k in table && a == AssociationOf(events, table[k], r)
    {
      AssociationsMember(events, vs, r, a);
      var v :| v in vs && a == AssociationOf(events, v, r);
      KeyIsOneElement(events, BusinessKey, v, table[k]);
    }
    if k in table {
      var a := AssociationOf(events, table[k], r);
      AssociationsMember(events, vs, r, a);
      assert a in associations && a.key == k;
      VerdictsAre(associations, k, VerdictOf(a));
    } else {
      VerdictsAre(associations, k, Verdict(Pending, Matched, "", ""));
    }
  }

  // The comparison of two calculations, said of their rows and conversions.

  ghost predicate SameRows(a: map<MetricKey, Tally>, b: map<MetricKey, Tally>)
  {
    forall key :: BT.At(a, key) == BT.At(b, key)
  }

  lemma OutputsCompare(p: Policy, r: Rules, ds: seq<Dimension>, s: seq<Record>, t: seq<Record>, a: Output, b: Output)
    requires r.window > 0 && Calculated(p, r, ds, s, a) && Calculated(p, r, ds, t, b)
    ensures Values(a.metrics) == Values(b.metrics) <==> SameRows(MetricsOf(p, r, ds, s), MetricsOf(p, r, ds, t))
  {
    var m, n := MetricsOf(p, r, ds, s), MetricsOf(p, r, ds, t);
    forall key
      ensures Get(Values(a.metrics), key) == if BT.At(m, key) != ZERO then Some(BT.At(m, key)) else None
      ensures Get(Values(b.metrics), key) == if BT.At(n, key) != ZERO then Some(BT.At(n, key)) else None
    {
      ValuesAre(a.metrics, m, key);
      ValuesAre(b.metrics, n, key);
      if key in m { assert MetricResult(key, m[key]) in a.metrics; }
      if key in n { assert MetricResult(key, n[key]) in b.metrics; }
    }
    if Values(a.metrics) == Values(b.metrics) {
      forall key
        ensures BT.At(m, key) == BT.At(n, key)
      {
        assert Get(Values(a.metrics), key) == Get(Values(b.metrics), key);
      }
    }
    if SameRows(m, n) {
      forall key
        ensures Get(Values(a.metrics), key) == Get(Values(b.metrics), key)
      {
        assert BT.At(m, key) == BT.At(n, key);
      }
      SameGets(Values(a.metrics), Values(b.metrics));
    }
  }

  lemma SameGets<K(!new), V(!new)>(a: map<K, V>, b: map<K, V>)
    requires forall k :: Get(a, k) == Get(b, k)
    ensures a == b
  {
    assert forall k :: k in a <==> Get(a, k).Some?;
    assert forall k :: k in b <==> Get(b, k).Some?;
    assert forall k :: k in a ==> Get(a, k) == Some(a[k]) && Get(b, k) == Some(b[k]);
  }

  /** Whatever transport did, every conversion keeps its verdict. */
  lemma VerdictsSurvive(p: Policy, r: Rules, ds: seq<Dimension>, truth: seq<Record>, t: seq<Record>, a: Output,
                        b: Output)
    requires r.window > 0 && Genuine(truth) && Corrupts(truth, t) && Calculated(p, r, ds, truth, a)
             && Calculated(p, r, ds, t, b)
    ensures Verdicts(a.associations) == Verdicts(b.associations)
  {
    var e, f := TakeAll(p, truth).events, TakeAll(p, t).events;
    KeysAreUnique(p, truth);
    KeysAreUnique(p, t);
    CleanAlike(p, truth, t);
    forall k
      ensures Get(Verdicts(a.associations), k) == Get(Verdicts(b.associations), k)
    {
      VerdictAt(e, r, a.associations, k);
      VerdictAt(f, r, b.associations, k);
      SameVerdict(e, f, r, k);
    }
    SameGets(Verdicts(a.associations), Verdicts(b.associations));
  }

  lemma SameVerdict(e: seq<Event>, f: seq<Event>, r: Rules, k: Link)
    requires Reordered(StripAll(e), StripAll(f))
    ensures var s, t := Table(e, Conversion), Table(f, Conversion);
            && (k in s <==> k in t)
            && (k in s ==> VerdictOf(AssociationOf(e, s[k], r)) == VerdictOf(AssociationOf(f, t[k], r)))
  {
    TableStrips(e, Conversion, k);
    TableStrips(f, Conversion, k);
    TablesMatch(StripAll(e), StripAll(f), Conversion, k);
    var s, t := Table(e, Conversion), Table(f, Conversion);
    if k in s {
      VerdictStrips(e, s[k], r);
      VerdictStrips(f, t[k], r);
      ClicksMatch(StripAll(e), StripAll(f), Strip(s[k]), r);
    }
  }

  lemma RowsSurvive(p: Policy, r: Rules, ds: seq<Dimension>, truth: seq<Record>, t: seq<Record>)
    requires r.window > 0 && Genuine(truth) && Corrupts(truth, t)
    requires BT.UnlinkedConversionsAgree(TakeAll(p, truth).events, r)
    ensures SameRows(MetricsOf(p, r, ds, truth), MetricsOf(p, r, ds, t))
  {
    var e, f := TakeAll(p, truth).events, TakeAll(p, t).events;
    CleanAlike(p, truth, t);
    AgreementStrips(e, r);
    OrderedStrips(e);
    OrderedStrips(f);
    CalculationStrips(e, Ordered(e), r, ds);
    CalculationStrips(f, Ordered(f), r, ds);
    forall key
      ensures BT.At(MetricsOf(p, r, ds, truth), key) == BT.At(MetricsOf(p, r, ds, t), key)
    {
      RowsMatch(StripAll(e), StripAll(f), r, ds, key);
    }
  }

  // A transport that only repeats one record, ahead of all others.

  lemma KeyAdmittedAhead(p: Policy, init: seq<Record>, x: Record, key: Business)
    requires Admitted(p, x)
    ensures KeyAdmitted(p, [x] + init, key) <==> KeyAdmitted(p, init, key) || BusinessKey(x.body.event) == key
  {
    assert forall z :: z in [x] + init <==> z == x || z in init;
  }

  lemma AdmittedAhead(p: Policy, init: seq<Record>, y: Record, x: Record)
    requires IdsDetermineKeys(([x] + init) + [y]) && Admitted(p, x) && Admitted(p, y)
    ensures var key := BusinessKey(y.body.event);
            && Take(p, TakeAll(p, init), y).events
               == TakeAll(p, init).events + (if KeyAdmitted(p, init, key) then [] else [CleanEvent(y)])
            && Take(p, TakeAll(p, [x] + init), y).events
               == TakeAll(p, [x] + init).events
                  + (if KeyAdmitted(p, init, key) || key == BusinessKey(x.body.event) then [] else [CleanEvent(y)])
  {
    SubIds(init, y, x);
    AcceptedIfFirst(p, init, y);
    AcceptedIfFirst(p, [x] + init, y);
    KeyAdmittedAhead(p, init, x, BusinessKey(y.body.event));
  }

  lemma TakeLast(p: Policy, rs: seq<Record>, y: Record)
    ensures TakeAll(p, rs + [y]) == Take(p, TakeAll(p, rs), y)
  {
    assert (rs + [y])[..|rs|] == rs;
  }

  lemma {:induction false} RepeatedAhead(p: Policy, truth: seq<Record>, x: Record)
    requires IdsDetermineKeys([x] + truth) && Admitted(p, x)
    ensures TakeAll(p, [x] + truth).events
            == [CleanEvent(x)] + Filter(TakeAll(p, truth).events, OtherThan(BusinessKey(x.body.event)))
  {
    if truth == [] {
      assert [x] + truth == [] + [x];
      TakeLast(p, [], x);
    } else {
      var init, y := truth[..|truth| - 1], truth[|truth| - 1];
      assert truth == init + [y] && [x] + truth == ([x] + init) + [y];
      InitIds([x] + init, y);
      RepeatedAhead(p, init, x);
      TakeLast(p, init, y);
      TakeLast(p, [x] + init, y);
      if Admitted(p, y) { RepeatedStep(p, init, y, x); }
    }
  }

  lemma RepeatedStep(p: Policy, init: seq<Record>, y: Record, x: Record)
    requires IdsDetermineKeys(([x] + init) + [y]) && Admitted(p, x) && Admitted(p, y)
    requires TakeAll(p, [x] + init).events
             == [CleanEvent(x)] + Filter(TakeAll(p, init).events, OtherThan(BusinessKey(x.body.event)))
    ensures Take(p, TakeAll(p, [x] + init), y).events
         == [CleanEvent(x)] + Filter(Take(p, TakeAll(p, init), y).events, OtherThan(BusinessKey(x.body.event)))
  {
    AdmittedAhead(p, init, y, x);
    CleanStrips(y);
    FilterOneMore(TakeAll(p, init).events, CleanEvent(y), OtherThan(BusinessKey(x.body.event)));
  }

  lemma SubIds(init: seq<Record>, y: Record, x: Record)
    requires IdsDetermineKeys(([x] + init) + [y])
    ensures IdsDetermineKeys(init + [y])
  {
    assert forall z :: z in init + [y] ==> z in ([x] + init) + [y];
  }

  lemma RepeatDelivers(truth: seq<Record>, t: seq<Record>)
    requires (forall z :: z in truth ==> z in t) && forall x :: x in truth ==> x.body.WellFormed?
    ensures Delivers(truth, t)
  {
    forall x | x in truth
      ensures exists y :: y in t && SameContent(x, y)
    {
      assert x in t && SameContent(x, x);
    }
  }

  lemma RepeatIsFaithful(truth: seq<Record>, t: seq<Record>)
    requires forall z :: z in t ==> z in truth
    ensures Faithful(truth, t)
  {
    forall y | y in t && y.body.WellFormed?
      ensures exists x :: x in truth && SameContent(x, y)
    {
      assert y in truth && SameContent(y, y);
    }
  }

  lemma RepeatIds(truth: seq<Record>, t: seq<Record>)
    requires IdsDetermineKeys(truth) && forall z :: z in t ==> z in truth
    ensures IdsDetermineKeys(t)
  {
  }

  lemma RepeatIsTransport(truth: seq<Record>, t: seq<Record>)
    requires Genuine(truth) && forall z :: z in t <==> z in truth
    ensures Corrupts(truth, t)
  {
    RepeatIds(truth, t);
    RepeatDelivers(truth, t);
    RepeatIsFaithful(truth, t);
  }

  lemma RepeatPromotes(p: Policy, truth: seq<Record>, v: Event) returns (t: seq<Record>)
    requires Genuine(truth) && v in TakeAll(p, truth).events
    ensures Corrupts(truth, t) && TakeAll(p, t).events == Promote(TakeAll(p, truth).events, v)
  {
    EventsAreSourced(p, truth);
    var x :| x in truth && Admitted(p, x) && v == CleanEvent(x);
    CleanStrips(x);
    t := [x] + truth;
    assert forall z :: z in t <==> z in truth;
    RepeatIsTransport(truth, t);
    RepeatedAhead(p, truth, x);
  }

  lemma DisagreementShows(p: Policy, r: Rules, ds: seq<Dimension>, truth: seq<Record>) returns (t: seq<Record>)
    requires r.window > 0 && Genuine(truth) && !BT.UnlinkedConversionsAgree(TakeAll(p, truth).events, r)
    ensures Corrupts(truth, t) && !SameRows(MetricsOf(p, r, ds, truth), MetricsOf(p, r, ds, t))
  {
    var e := TakeAll(p, truth).events;
    KeysAreUnique(p, truth);
    var v, w :| v in e && w in e && BT.MatchedConversion(e, v, r) && BT.MatchedConversion(e, w, r)
                && ClickLink(v) == ClickLink(w) && JoinedOf(e, v, r).None?
                   && !(v.region == w.region && v.appVersion == w.appVersion);
    BT.ClaimsGoTogether(e, v, w, r, ds);
    var key := Counted(e, v, r, ds);
    OrderMatters(e, v, w, key, r, ds);
    var s := RepeatPromotes(p, truth, v);
    t := RepeatPromotes(p, truth, w);
    if SameRows(MetricsOf(p, r, ds, truth), MetricsOf(p, r, ds, t)) {
      assert BT.At(MetricsOf(p, r, ds, truth), key) == BT.At(MetricsOf(p, r, ds, t), key);
      assert BT.At(MetricsOf(p, r, ds, truth), key) != BT.At(MetricsOf(p, r, ds, s), key);
      t := s;
    }
  }

  function Counted(e: seq<Event>, v: Event, r: Rules, ds: seq<Dimension>): MetricKey
    requires r.window > 0 && BT.MatchedConversion(e, v, r)
  {
    RowOf(BT.ConvertedContribution(e, v, r), ds)
  }

  /** Every transport of the truth passes the comparison with the truth exactly if the conversions of every click
      without an impression agree on region and version; the verdicts on conversions survive in any case. */
  lemma TransportIsHarmlessExactly(p: Policy, r: Rules, ds: seq<Dimension>, truth: seq<Record>)
    requires r.window > 0 && Genuine(truth)
    ensures (forall t, a, b :: Corrupts(truth, t) && Calculated(p, r, ds, truth, a) && Calculated(p, r, ds, t, b) ==>
              Passes(a, b))
            <==> BT.UnlinkedConversionsAgree(TakeAll(p, truth).events, r)
  {
    if BT.UnlinkedConversionsAgree(TakeAll(p, truth).events, r) {
      forall t, a, b | Corrupts(truth, t) && Calculated(p, r, ds, truth, a) && Calculated(p, r, ds, t, b)
        ensures Passes(a, b)
      {
        RowsSurvive(p, r, ds, truth, t);
        OutputsCompare(p, r, ds, truth, t, a, b);
        VerdictsSurvive(p, r, ds, truth, t, a, b);
        PassesExactly(a, b);
      }
    } else {
      var t := DisagreementShows(p, r, ds, truth);
      var a := SomeOutput(p, r, ds, truth);
      var b := SomeOutput(p, r, ds, t);
      OutputsCompare(p, r, ds, truth, t, a, b);
      PassesExactly(a, b);
    }
  }

  /** The rows of a table, in some order. */
  lemma {:induction false} SomeListing(metrics: map<MetricKey, Tally>) returns (ms: seq<MetricResult>)
    ensures forall m :: m in ms <==> m.key in metrics && metrics[m.key] == m.values
    decreases |metrics|
  {
    if metrics == map[] {
      ms := [];
    } else {
      var k :| k in metrics;
      var rest := SomeListing(metrics - {k});
      ms := rest + [MetricResult(k, metrics[k])];
    }
  }

  lemma SomeOutput(p: Policy, r: Rules, ds: seq<Dimension>, records: seq<Record>) returns (out: Output)
    requires r.window > 0
    ensures Calculated(p, r, ds, records, out)
  {
    var ms := SomeListing(MetricsOf(p, r, ds, records));
    out := Output(ms, VerdictsOf(p, r, records));
  }
}
