/** Publishing a replayed release: rows of the previous release that the new one lacks are published as zeros. */
module Publication {
  import opened Tallies
  import opened Oracle
  import opened Compare

  function KeysOf(metrics: seq<MetricResult>): set<MetricKey> { set m | m in metrics :: m.key }

  /** The zero rows that a baseline calls for. */
  function Zeros(current: set<MetricKey>, baseline: seq<MetricResult>): seq<MetricResult> {
    if baseline == [] then []
    else
      var init, m := Zeros(current, baseline[..|baseline| - 1]), baseline[|baseline| - 1];
      if m.key in current then init else init + [MetricResult(m.key, ZERO)]
  }

  method ZeroFill(metrics: seq<MetricResult>, baseline: seq<MetricResult>) returns (filled: seq<MetricResult>)
    ensures filled == metrics + Zeros(KeysOf(metrics), baseline)
  {
    var current := KeysOf(metrics);
    filled := metrics;
    var i := 0;
    while i < |baseline|
      invariant 0 <= i <= |baseline| && filled == metrics + Zeros(current, baseline[..i])
    {
      assert baseline[..i + 1][..i] == baseline[..i];
      if baseline[i].key !in current { filled := filled + [MetricResult(baseline[i].key, ZERO)]; }
      i := i + 1;
    }
    assert baseline[..i] == baseline;
  }

  lemma {:induction false} ValuesOfZeros(metrics: seq<MetricResult>, zeros: seq<MetricResult>)
    requires forall m :: m in zeros ==> m.values == ZERO
    ensures Values(metrics + zeros) == Values(metrics)
  {
    if zeros == [] {
      assert metrics + zeros == metrics;
    } else {
      var init := zeros[..|zeros| - 1];
      assert (metrics + zeros)[..|metrics + zeros| - 1] == metrics + init;
      assert zeros[|zeros| - 1] in zeros && forall m :: m in init ==> m in zeros;
      ValuesOfZeros(metrics, init);
    }
  }

  lemma {:induction false} ZerosHold(current: set<MetricKey>, baseline: seq<MetricResult>)
    ensures forall m ::
            m in Zeros(current, baseline) ==> m.values == ZERO && m.key !in current && m.key in KeysOf(baseline)
    ensures KeysOf(baseline) <= current + KeysOf(Zeros(current, baseline))
  {
    if baseline != [] {
      var init, m := baseline[..|baseline| - 1], baseline[|baseline| - 1];
      assert baseline == init + [m];
      ZerosHold(current, init);
      var zeros := Zeros(current, init);
      assert m.key !in current ==> MetricResult(m.key, ZERO) in Zeros(current, baseline);
      assert KeysOf(zeros) <= KeysOf(Zeros(current, baseline));
    }
  }

  /** Zero rows make every row of the previous release answer in the new one, and change no comparison with it. */
  lemma ZerosAreNeutral(snapshot: Output, baseline: seq<MetricResult>, other: Output)
    ensures var filled := snapshot.(metrics := snapshot.metrics + Zeros(KeysOf(snapshot.metrics), baseline));
            && KeysOf(baseline) <= KeysOf(filled.metrics) <= KeysOf(snapshot.metrics) + KeysOf(baseline)
            && Differences(filled, other) == Differences(snapshot, other)
            && Differences(other, filled) == Differences(other, snapshot)
  {
    var zeros := Zeros(KeysOf(snapshot.metrics), baseline);
    ZerosHold(KeysOf(snapshot.metrics), baseline);
    ValuesOfZeros(snapshot.metrics, zeros);
    assert KeysOf(snapshot.metrics + zeros) == KeysOf(snapshot.metrics) + KeysOf(zeros);
  }
}
