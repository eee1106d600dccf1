/** Comparing two calculations by their business results, whatever the order or the metadata of either. */
module Compare {
  import opened Seqs
  import opened Events
  import opened Measurement
  import opened Tallies
  import opened Oracle

  datatype MetricResult = MetricResult(key: MetricKey, values: Tally)

  /** What is compared of an association. */
  datatype Verdict = Verdict(status: Status, reason: MatchReason, experiment: string, variant: string)

  function VerdictOf(a: Association): Verdict { Verdict(a.status, a.reason, a.experiment, a.variant) }

  datatype Output = Output(metrics: seq<MetricResult>, associations: seq<Association>)

  /** Rows that hold nothing but zeros are not compared; of several rows under one key the last counts. */
  function Values(metrics: seq<MetricResult>): map<MetricKey, Tally> {
    if metrics == [] then map[]
    else
      var before, m := Values(metrics[..|metrics| - 1]), metrics[|metrics| - 1];
      if m.values == ZERO then before else before[m.key := m.values]
  }

  function Verdicts(associations: seq<Association>): map<Link, Verdict> {
    if associations == [] then map[]
    else
      var init, a := Verdicts(associations[..|associations| - 1]), associations[|associations| - 1];
      init[a.key := VerdictOf(a)]
  }

  function Get<K, V>(m: map<K, V>, k: K): Option<V> { if k in m then Some(m[k]) else None }

  /** The keys under which two tables differ. */
  function Differing<K, V(==)>(a: map<K, V>, b: map<K, V>): set<K> {
    set k | k in a.Keys + b.Keys && Get(a, k) != Get(b, k)
  }

  function Differences(expected: Output, actual: Output): nat {
    |Differing(Values(expected.metrics), Values(actual.metrics))|
    + |Differing(Verdicts(expected.associations), Verdicts(actual.associations))|
  }

  predicate Passes(expected: Output, actual: Output) { Differences(expected, actual) == 0 }

  lemma NoneDiffer<K(!new), V(!new)>(a: map<K, V>, b: map<K, V>)
    ensures |Differing(a, b)| == 0 <==> a == b
  {
    if |Differing(a, b)| == 0 {
      forall k
        ensures Get(a, k) == Get(b, k)
      {
        assert k !in Differing(a, b);
      }
      assert forall k :: k in a <==> Get(a, k).Some?;
      assert forall k :: k in b <==> Get(b, k).Some?;
      assert forall k :: k in a ==> Get(a, k) == Some(a[k]) && Get(b, k) == Some(b[k]);
    }
  }

  /** A comparison passes exactly if both sides give every key the same values and every conversion the same verdict. */
  lemma PassesExactly(a: Output, b: Output)
    ensures Passes(a, b)
            <==> Values(a.metrics) == Values(b.metrics) && Verdicts(a.associations) == Verdicts(b.associations)
  {
    NoneDiffer(Values(a.metrics), Values(b.metrics));
    NoneDiffer(Verdicts(a.associations), Verdicts(b.associations));
  }

  // What a comparison looks at, said of the outputs themselves.

  predicate Counts(m: MetricResult) {
    || m.values.impressions != 0 || m.values.clicks != 0 || m.values.matched != 0 || m.values.unmatched != 0
    || m.values.converted != 0 || m.values.value != 0
  }

  ghost predicate CountsOnce(metrics: seq<MetricResult>) {
    forall i, j :: 0 <= i < j < |metrics| && Counts(metrics[i]) && Counts(metrics[j]) ==>
        metrics[i].key != metrics[j].key
  }

  /** No key is given to two rows that count something, or to two associations. */
  ghost predicate SaysOnce(out: Output) {
    && CountsOnce(out.metrics)
    && (forall i, j :: 0 <= i < j < |out.associations| ==> out.associations[i].key != out.associations[j].key)
  }

  predicate SameVerdict(a: Association, b: Association) {
    a.status == b.status && a.reason == b.reason && a.experiment == b.experiment && a.variant == b.variant
  }

  ghost predicate MetricsAgree(a: seq<MetricResult>, b: seq<MetricResult>) {
    forall m :: Counts(m) ==> (m in a <==> m in b)
  }

  predicate HasKey(associations: seq<Association>, k: Link) { exists a :: a in associations && a.key == k }

  ghost predicate VerdictsAgree(a: seq<Association>, b: seq<Association>) {
    && (forall x :: x in a ==> HasKey(b, x.key))
    && (forall y :: y in b ==> HasKey(a, y.key))
    && (forall x, y :: x in a && y in b && x.key == y.key ==> SameVerdict(x, y))
  }

  /** Both sides have the same rows that count something, and associations of the same conversions that agree in status,
      reason, experiment and variant. */
  ghost predicate SameResults(a: Output, b: Output) {
    MetricsAgree(a.metrics, b.metrics) && VerdictsAgree(a.associations, b.associations)
  }

  /** Whatever is said twice is said alike. */
  ghost predicate SaysOneThing(out: Output) { CountsAlike(out.metrics) && JudgesAlike(out.associations) }

  ghost predicate CountsAlike(metrics: seq<MetricResult>) {
    forall m, n :: m in metrics && n in metrics && Counts(m) && Counts(n) && m.key == n.key ==> m == n
  }

  ghost predicate JudgesAlike(associations: seq<Association>) {
    forall x, y :: x in associations && y in associations && x.key == y.key ==> SameVerdict(x, y)
  }

  lemma OnceIsOneThing(out: Output)
    requires SaysOnce(out)
    ensures SaysOneThing(out)
  {
    forall m, n | m in out.metrics && n in out.metrics && Counts(m) && Counts(n) && m.key == n.key
      ensures m == n
    {
      var i :| 0 <= i < |out.metrics| && out.metrics[i] == m;
      var j :| 0 <= j < |out.metrics| && out.metrics[j] == n;
    }
    forall x, y | x in out.associations && y in out.associations && x.key == y.key
      ensures x == y
    {
      var i :| 0 <= i < |out.associations| && out.associations[i] == x;
      var j :| 0 <= j < |out.associations| && out.associations[j] == y;
    }
  }

  lemma {:induction false} ValuesHold(metrics: seq<MetricResult>, m: MetricResult)
    requires CountsAlike(metrics) && Counts(m)
    ensures m in metrics <==> m.key in Values(metrics) && Values(metrics)[m.key] == m.values
  {
    if metrics != [] {
      var init, last := metrics[..|metrics| - 1], metrics[|metrics| - 1];
      assert metrics == init + [last];
      ValuesHold(init, m);
    }
  }

  lemma {:induction false} ValuesCount(metrics: seq<MetricResult>, k: MetricKey)
    requires k in Values(metrics)
    ensures Counts(MetricResult(k, Values(metrics)[k]))
  {
    var init, last := metrics[..|metrics| - 1], metrics[|metrics| - 1];
    if last.key != k || last.values == ZERO { ValuesCount(init, k); }
  }

  lemma {:induction false} VerdictsHold(associations: seq<Association>, a: Association)
    requires JudgesAlike(associations) && a in associations
    ensures a.key in Verdicts(associations) && Verdicts(associations)[a.key] == VerdictOf(a)
  {
    var init, last := associations[..|associations| - 1], associations[|associations| - 1];
    assert associations == init + [last];
    if a.key != last.key { VerdictsHold(init, a); }
  }

  lemma {:induction false} VerdictsKnow(associations: seq<Association>, k: Link)
    requires k in Verdicts(associations)
    ensures HasKey(associations, k)
  {
    var init, last := associations[..|associations| - 1], associations[|associations| - 1];
    assert associations == init + [last];
    if last.key == k { assert last in associations; } else {
      VerdictsKnow(init, k);
      var a :| a in init && a.key == k;
      assert a in associations;
    }
  }

  lemma SameMetrics(a: Output, b: Output)
    requires CountsAlike(a.metrics) && CountsAlike(b.metrics)
    ensures Values(a.metrics) == Values(b.metrics) <==> MetricsAgree(a.metrics, b.metrics)
  {
    var va, vb := Values(a.metrics), Values(b.metrics);
    forall m | Counts(m)
      ensures m in a.metrics <==> m.key in va && va[m.key] == m.values
      ensures m in b.metrics <==> m.key in vb && vb[m.key] == m.values
    {
      ValuesHold(a.metrics, m);
      ValuesHold(b.metrics, m);
    }
    if MetricsAgree(a.metrics, b.metrics) {
      forall k
        ensures k in va ==> k in vb && va[k] == vb[k]
        ensures k in vb ==> k in va
      {
        if k in va { ValuesCount(a.metrics, k); assert MetricResult(k, va[k]) in a.metrics; }
        if k in vb { ValuesCount(b.metrics, k); assert MetricResult(k, vb[k]) in b.metrics; }
      }
    }
  }

  /** The table says of every association what it says, and of nothing else. */
  ghost predicate Describes(v: map<Link, Verdict>, associations: seq<Association>) {
    && (forall x :: x in associations ==> x.key in v && v[x.key] == VerdictOf(x))
    && (forall k :: k in v ==> HasKey(associations, k))
  }

  lemma VerdictsDescribe(associations: seq<Association>)
    requires JudgesAlike(associations)
    ensures Describes(Verdicts(associations), associations)
  {
    forall x | x in associations
      ensures x.key in Verdicts(associations) && Verdicts(associations)[x.key] == VerdictOf(x)
    {
      VerdictsHold(associations, x);
    }
    forall k | k in Verdicts(associations)
      ensures HasKey(associations, k)
    {
      VerdictsKnow(associations, k);
    }
  }

  lemma EqualTablesAgree(v: map<Link, Verdict>, a: seq<Association>, b: seq<Association>)
    requires Describes(v, a) && Describes(v, b)
    ensures VerdictsAgree(a, b)
  {
    forall x | x in a
      ensures HasKey(b, x.key)
    {
      assert x.key in v;
    }
    forall y | y in b
      ensures HasKey(a, y.key)
    {
      assert y.key in v;
    }
  }

  lemma AgreementIsMutual(a: seq<Association>, b: seq<Association>)
    requires VerdictsAgree(a, b)
    ensures VerdictsAgree(b, a)
  {
  }

  lemma AgreeingTablesAreEqual(v: map<Link, Verdict>, w: map<Link, Verdict>, a: seq<Association>, b: seq<Association>)
    requires Describes(v, a) && Describes(w, b) && VerdictsAgree(a, b)
    ensures v == w
  {
    forall k
      ensures k in v ==> k in w && v[k] == w[k]
      ensures k in w ==> k in v
    {
      if k in v { AgreeAt(v, w, a, b, k); }
      if k in w {
        AgreementIsMutual(a, b);
        AgreeAt(w, v, b, a, k);
      }
    }
  }

  lemma AgreeAt(v: map<Link, Verdict>, w: map<Link, Verdict>, a: seq<Association>, b: seq<Association>, k: Link)
    requires Describes(v, a) && Describes(w, b) && VerdictsAgree(a, b) && k in v
    ensures k in w && v[k] == w[k]
  {
    var x :| x in a && x.key == k;
    var y :| y in b && y.key == k;
  }

  lemma SameAssociations(a: Output, b: Output)
    requires JudgesAlike(a.associations) && JudgesAlike(b.associations)
    ensures Verdicts(a.associations) == Verdicts(b.associations) <==> VerdictsAgree(a.associations, b.associations)
  {
    VerdictsDescribe(a.associations);
    VerdictsDescribe(b.associations);
    if Verdicts(a.associations) == Verdicts(b.associations) {
      EqualTablesAgree(Verdicts(a.associations), a.associations, b.associations);
    } else if VerdictsAgree(a.associations, b.associations) {
      AgreeingTablesAreEqual(Verdicts(a.associations), Verdicts(b.associations), a.associations, b.associations);
      assert false;
    }
  }

  /** Outputs that do not contradict themselves pass the comparison exactly if they have the same results. */
  lemma PassesMeans(a: Output, b: Output)
    requires SaysOneThing(a) && SaysOneThing(b)
    ensures Passes(a, b) <==> SameResults(a, b)
  {
    PassesExactly(a, b);
    SameMetrics(a, b);
    SameAssociations(a, b);
  }
}
