/** Comparing two streams of results through one table: each side fills its column, and rows whose
    columns differ are counted. */
module CompareStreams {
  import opened Seqs
  import opened Measurement
  import opened Events
  import opened Tallies
  import opened Oracle
  import opened Compare

  /** One row of the comparison table: what either side said of a key. */
  datatype Pair<V> = Pair(expected: Option<V>, actual: Option<V>)

  datatype Side = Expected | Actual

  datatype Keyed<K, V> = Keyed(key: K, value: V)

  function Column<V>(p: Pair<V>, side: Side): Option<V> { if side.Expected? then p.expected else p.actual }

  function WithColumn<V>(p: Pair<V>, side: Side, value: V): Pair<V> {
    if side.Expected? then p.(expected := Some(value)) else p.(actual := Some(value))
  }

  ghost predicate UniqueKeys<K(!new), V(!new)>(rows: seq<Keyed<K, V>>) {
    forall i, j :: 0 <= i < j < |rows| ==> rows[i].key != rows[j].key
  }

  /** The rows of one side as a dictionary, a later row replacing an earlier one. */
  function Dict<K, V>(rows: seq<Keyed<K, V>>): map<K, V> {
    if rows == [] then map[] else Dict(rows[..|rows| - 1])[rows[|rows| - 1].key := rows[|rows| - 1].value]
  }

  lemma {:induction false} DictHolds<K(!new), V(!new)>(rows: seq<Keyed<K, V>>, key: K)
    ensures key in Dict(rows) <==> exists i :: 0 <= i < |rows| && rows[i].key == key
  {
    if rows != [] {
      var init := rows[..|rows| - 1];
      DictHolds(init, key);
      assert forall i :: 0 <= i < |init| ==> init[i] == rows[i];
    }
  }

  /** The column of every key is what one side's dictionary says of it. */
  ghost predicate ColumnIs<K(!new), V(!new)>(table: map<K, Pair<V>>, side: Side, dict: map<K, V>) {
    && (forall k :: k in table ==> Column(table[k], side) == Get(dict, k))
    && (forall k :: k in dict ==> k in table)
  }

  ghost predicate OtherColumn<K(!new), V(!new)>(table: map<K, Pair<V>>, before: map<K, Pair<V>>, side: Side) {
    && (forall k :: k in before ==> k in table && Column(table[k], side) == Column(before[k], side))
    && (forall k :: k in table && k !in before ==> Column(table[k], side).None?)
  }

  function Opposite(side: Side): Side { if side.Expected? then Actual else Expected }

  /** One more row in one side's column leaves the other column alone. */
  lemma ColumnOneMore<K(!new), V(!new)>(table: map<K, Pair<V>>, before: map<K, Pair<V>>, side: Side, dict: map<K, V>,
                                        k: K, v: V)
    requires ColumnIs(table, side, dict) && OtherColumn(table, before, Opposite(side))
    ensures var now := table[k := WithColumn(if k in table then table[k] else Pair(None, None), side, v)];
            ColumnIs(now, side, dict[k := v]) && OtherColumn(now, before, Opposite(side))
  {
  }

  lemma UniqueOneMore<K(!new), V(!new)>(rows: seq<Keyed<K, V>>, row: Keyed<K, V>)
    ensures UniqueKeys(rows + [row]) <==> UniqueKeys(rows) && row.key !in Dict(rows)
    ensures Dict(rows + [row]) == Dict(rows)[row.key := row.value]
  {
    var all := rows + [row];
    assert all[..|rows|] == rows;
    DictHolds(rows, row.key);
    if UniqueKeys(all) {
      forall i, j | 0 <= i < j < |rows|
        ensures rows[i].key != rows[j].key
      {
        assert all[i].key != all[j].key;
      }
      forall i | 0 <= i < |rows|
        ensures rows[i].key != row.key
      {
        assert all[i].key != all[|rows|].key;
      }
    }
  }

  lemma RepeatStays<K(!new), V(!new)>(rows: seq<Keyed<K, V>>, n: nat)
    requires n <= |rows| && !UniqueKeys(rows[..n])
    ensures !UniqueKeys(rows)
  {
    var i, j :| 0 <= i < j < n && rows[..n][i].key == rows[..n][j].key;
    assert rows[i].key == rows[j].key;
  }

  /** One side of one kind: every row upserted into its column, a key met twice refused. */
  method Fill<K(!new), V(!new)>(before: map<K, Pair<V>>, side: Side, rows: seq<Keyed<K, V>>)
    returns (table: map<K, Pair<V>>, ok: bool)
    requires forall k :: k in before ==> Column(before[k], side).None?
    ensures ok <==> UniqueKeys(rows)
    ensures ok ==> ColumnIs(table, side, Dict(rows)) && OtherColumn(table, before, Opposite(side))
    ensures ok ==> forall k :: k in table ==> k in before || k in Dict(rows)
  {
    table, ok := before, true;
    var n := 0;
    while n < |rows|
      invariant 0 <= n <= |rows|
      invariant UniqueKeys(rows[..n])
      invariant ColumnIs(table, side, Dict(rows[..n])) && OtherColumn(table, before, Opposite(side))
      invariant forall k :: k in table ==> k in before || k in Dict(rows[..n])
    {
      var row := rows[n];
      assert rows[..n + 1] == rows[..n] + [row];
      UniqueOneMore(rows[..n], row);
      var prior := if row.key in table then table[row.key] else Pair(None, None);
      if Column(prior, side).Some? {
        RepeatStays(rows, n + 1);
        return table, false;
      }
      ColumnOneMore(table, before, side, Dict(rows[..n]), row.key, row.value);
      table := table[row.key := WithColumn(prior, side, row.value)];
      n := n + 1;
    }
    assert rows[..n] == rows;
  }

  /** The keys whose columns differ. */
  function Unequal<K, V(==)>(table: map<K, Pair<V>>): set<K>
  {
    set k | k in table && table[k].expected != table[k].actual
  }

  lemma UnequalIsDiffering<K(!new), V(!new)>(table: map<K, Pair<V>>, a: map<K, V>, b: map<K, V>)
    requires ColumnIs(table, Expected, a) && ColumnIs(table, Actual, b)
    requires forall k :: k in table ==> k in a || k in b
    ensures Unequal(table) == Differing(a, b)
  {
  }

  /** Both sides of one kind. */
  method CompareKind<K(==, !new), V(==, !new)>(expected: seq<Keyed<K, V>>, actual: seq<Keyed<K, V>>)
    returns (count: nat, ok: bool)
    ensures ok <==> UniqueKeys(expected) && UniqueKeys(actual)
    ensures ok ==> count == |Differing(Dict(expected), Dict(actual))|
  {
    count := 0;
    var table;
    table, ok := Fill(map[], Expected, expected);
    if !ok { return; }
    assert forall k :: k in table ==> Column(table[k], Actual).None?;
    ghost var first := table;
    table, ok := Fill(table, Actual, actual);
    if !ok { return; }
    forall k | k in table
      ensures Column(table[k], Expected) == Get(Dict(expected), k)
    {
      assert k in first || Column(table[k], Expected).None?;
    }
    UnequalIsDiffering(table, Dict(expected), Dict(actual));
    count := |Unequal(table)|;
  }

  /** Rows that hold nothing but zeros are passed over before their key is looked at. */
  function Compared(metrics: seq<MetricResult>): seq<Keyed<MetricKey, Tally>> {
    if metrics == [] then []
    else
      var init, m := Compared(metrics[..|metrics| - 1]), metrics[|metrics| - 1];
      if m.values == ZERO then init else init + [Keyed(m.key, m.values)]
  }

  function Judged(associations: seq<Association>): seq<Keyed<Link, Verdict>> {
    if associations == [] then []
    else
      var init, a := Judged(associations[..|associations| - 1]), associations[|associations| - 1];
      init + [Keyed(a.key, VerdictOf(a))]
  }

  lemma {:induction false} DictOfCompared(metrics: seq<MetricResult>)
    ensures Dict(Compared(metrics)) == Values(metrics)
  {
    if metrics != [] {
      var init, m := metrics[..|metrics| - 1], metrics[|metrics| - 1];
      DictOfCompared(init);
      var rows := Compared(init);
      if m.values != ZERO { assert (rows + [Keyed(m.key, m.values)])[..|rows|] == rows; }
    }
  }

  lemma {:induction false} DictOfJudged(associations: seq<Association>)
    ensures Dict(Judged(associations)) == Verdicts(associations)
  {
    if associations != [] {
      var init, a := associations[..|associations| - 1], associations[|associations| - 1];
      DictOfJudged(init);
      var rows := Judged(init);
      assert (rows + [Keyed(a.key, VerdictOf(a))])[..|rows|] == rows;
    }
  }

  /** Some row among the first `n` counts something under this key. */
  ghost predicate HasRow(metrics: seq<MetricResult>, k: MetricKey) {
    exists i :: 0 <= i < |metrics| && Counts(metrics[i]) && metrics[i].key == k
  }

  lemma {:induction false} ComparedKeys(metrics: seq<MetricResult>, k: MetricKey)
    ensures k in Dict(Compared(metrics)) <==> HasRow(metrics, k)
  {
    if metrics != [] {
      var init, m := metrics[..|metrics| - 1], metrics[|metrics| - 1];
      assert metrics == init + [m];
      ComparedKeys(init, k);
      assert forall i :: 0 <= i < |init| ==> init[i] == metrics[i];
      assert HasRow(metrics, k) <==> HasRow(init, k) || (Counts(m) && m.key == k);
      UniqueOneMore(Compared(init), Keyed(m.key, m.values));
    }
  }

  lemma {:induction false} ComparedOnce(metrics: seq<MetricResult>)
    ensures UniqueKeys(Compared(metrics)) <==> CountsOnce(metrics)
  {
    if metrics != [] {
      var init, m := metrics[..|metrics| - 1], metrics[|metrics| - 1];
      assert metrics == init + [m];
      ComparedOnce(init);
      OnceOneMore(init, m);
      ComparedKeys(init, m.key);
      UniqueOneMore(Compared(init), Keyed(m.key, m.values));
    }
  }

  lemma OnceOneMore(init: seq<MetricResult>, m: MetricResult)
    ensures CountsOnce(init + [m]) <==> CountsOnce(init) && (Counts(m) ==> !HasRow(init, m.key))
  {
    var all := init + [m];
    if CountsOnce(all) {
      forall i, j | 0 <= i < j < |init| && Counts(init[i]) && Counts(init[j])
        ensures init[i].key != init[j].key
      {
        assert all[i] == init[i] && all[j] == init[j];
      }
      if Counts(m) {
        forall i | 0 <= i < |init| && Counts(init[i])
          ensures init[i].key != m.key
        {
          assert all[i] == init[i] && all[|init|] == m;
        }
      }
    }
  }

  lemma {:induction false} JudgedAt(associations: seq<Association>)
    ensures |Judged(associations)| == |associations|
    ensures forall i :: 0 <= i < |associations| ==> Judged(associations)[i].key == associations[i].key
  {
    if associations != [] { JudgedAt(associations[..|associations| - 1]); }
  }

  /** The table takes every row and association of an output exactly if the output says nothing twice. */
  lemma TakenExactly(out: Output)
    ensures UniqueKeys(Compared(out.metrics)) && UniqueKeys(Judged(out.associations)) <==> SaysOnce(out)
  {
    ComparedOnce(out.metrics);
    JudgedAt(out.associations);
  }

  /** The streaming comparison refuses exactly the outputs that repeat a compared key. Otherwise its count is that of
      the comparison in memory, and it passes exactly outputs with the same rows and the same verdicts. */
  method CompareOutputs(expected: Output, actual: Output) returns (passed: bool, count: nat, ok: bool)
    ensures ok <==> SaysOnce(expected) && SaysOnce(actual)
    ensures ok ==> count == Differences(expected, actual) && (passed <==> SameResults(expected, actual))
  {
    passed, count := false, 0;
    TakenExactly(expected);
    TakenExactly(actual);
    var metrics, associations;
    metrics, ok := CompareKind(Compared(expected.metrics), Compared(actual.metrics));
    if !ok { return; }
    associations, ok := CompareKind(Judged(expected.associations), Judged(actual.associations));
    if !ok { return; }
    DictOfCompared(expected.metrics);
    DictOfCompared(actual.metrics);
    DictOfJudged(expected.associations);
    DictOfJudged(actual.associations);
    count := metrics + associations;
    OnceIsOneThing(expected);
    OnceIsOneThing(actual);
    PassesMeans(expected, actual);
    passed := count == 0;
  }
}
