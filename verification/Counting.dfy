/** Two ways of totalling the same contributions: counting each identity once over all rows, and
    once within each row. */
module Counting {
  import opened Seqs
  import opened Measurement
  import opened Tallies
  import opened Dimensions
  import opened Oracle
  import opened AggregateInvariant

  /** The metric row of a contribution, once the campaign's channel has been looked up. */
  function RowOf(m: Contribution, ds: seq<Dimension>): MetricKey
  {
    MetricKey(m.row, ChannelAt(ds, m.row.campaign, m.time))
  }

  function OfKey(key: MetricKey, ds: seq<Dimension>): Contribution -> bool { (m: Contribution) => RowOf(m, ds) == key }

  /** What the aggregate of one row makes of all contributions of that row. */
  function RowFold(ms: seq<Contribution>, key: MetricKey, ds: seq<Dimension>): Latest
  {
    Fold(Filter(ms, OfKey(key, ds)))
  }

  ghost predicate Known(ms: seq<Contribution>, id: ContributionId) { exists a :: a in ms && a.id == id }

  ghost predicate KnownInRow(ms: seq<Contribution>, id: ContributionId, key: MetricKey, ds: seq<Dimension>) {
    exists a :: a in ms && a.id == id && RowOf(a, ds) == key
  }

  function Hit(m: Contribution, key: MetricKey, ds: seq<Dimension>): Tally
  {
    if RowOf(m, ds) == key then ValuesOf(m) else ZERO
  }

  /** The total of one row when an identity counts only where it first appears. */
  ghost function CountedOnce(ms: seq<Contribution>, key: MetricKey, ds: seq<Dimension>): Tally {
    if ms == [] then ZERO
    else
      var init, m := ms[..|ms| - 1], ms[|ms| - 1];
      if Known(init, m.id) then CountedOnce(init, key, ds) else Plus(CountedOnce(init, key, ds), Hit(m, key, ds))
  }

  /** The total of one row when an identity counts once in every row that it appears in. */
  ghost function CountedInRow(ms: seq<Contribution>, key: MetricKey, ds: seq<Dimension>): Tally {
    if ms == [] then ZERO
    else
      var init, m := ms[..|ms| - 1], ms[|ms| - 1];
      if KnownInRow(init, m.id, RowOf(m, ds), ds) then CountedInRow(init, key, ds)
      else Plus(CountedInRow(init, key, ds), Hit(m, key, ds))
  }

  /** Only a converted click is contributed more than once, and always as one. */
  ghost predicate UnitRepeats(ms: seq<Contribution>) {
    forall i, j :: 0 <= i < j < |ms| && ms[i].id == ms[j].id ==>
      ms[i].id.counter.ConvertedClicks? && ms[i].value == ms[j].value == 1
  }

  /** No identity is contributed to two rows. */
  ghost predicate RowsAgree(ms: seq<Contribution>, ds: seq<Dimension>) {
    forall a, b :: a in ms && b in ms && a.id == b.id ==> RowOf(a, ds) == RowOf(b, ds)
  }

  lemma SameIdSameValues(ms: seq<Contribution>, a: Contribution, b: Contribution)
    requires UnitRepeats(ms) && a in ms && b in ms && a.id == b.id
    ensures ValuesOf(a) == ValuesOf(b)
  {
    var i :| 0 <= i < |ms| && ms[i] == a;
    var j :| 0 <= j < |ms| && ms[j] == b;
    if i < j { assert ms[i].value == ms[j].value; } else if j < i { assert ms[j].value == ms[i].value; }
  }

  // A fold depends only on which contributions it holds.

  lemma {:induction false} FoldHolds(cs: seq<Contribution>, a: Contribution)
    requires forall b :: b in cs && a.id == b.id ==> ValuesOf(a) == ValuesOf(b)
    ensures a.id in Fold(cs) <==> Known(cs, a.id)
    ensures a.id in Fold(cs) ==> Fold(cs)[a.id] == ValuesOf(a)
  {
    if cs != [] {
      assert cs == cs[..|cs| - 1] + [cs[|cs| - 1]];
      FoldHolds(cs[..|cs| - 1], a);
    }
  }

  lemma {:induction false} FoldKeysKnown(cs: seq<Contribution>, id: ContributionId)
    ensures id in Fold(cs) <==> Known(cs, id)
  {
    if cs != [] {
      assert cs == cs[..|cs| - 1] + [cs[|cs| - 1]];
      FoldKeysKnown(cs[..|cs| - 1], id);
    }
  }

  /** Order and repetition of the same contributions do not matter to a fold. */
  lemma FoldOfSameSet(cs: seq<Contribution>, ds: seq<Contribution>)
    requires forall m :: m in cs <==> m in ds
    requires forall a, b :: a in ds && b in ds && a.id == b.id ==> ValuesOf(a) == ValuesOf(b)
    ensures Fold(cs) == Fold(ds)
  {
    forall id
      ensures id in Fold(cs) <==> id in Fold(ds)
      ensures id in Fold(cs) && id in Fold(ds) ==> Fold(cs)[id] == Fold(ds)[id]
    {
      FoldKeysKnown(cs, id);
      FoldKeysKnown(ds, id);
      if Known(cs, id) {
        var a :| a in cs && a.id == id;
        FoldHolds(cs, a);
        FoldHolds(ds, a);
      }
    }
  }

  /** The total that the aggregate of a row keeps counts every identity once within that row. */
  lemma {:induction false} RowFoldCounts(ms: seq<Contribution>, key: MetricKey, ds: seq<Dimension>)
    requires UnitRepeats(ms)
    ensures Sum(RowFold(ms, key, ds)) == CountedInRow(ms, key, ds)
  {
    if ms != [] {
      var init, m := ms[..|ms| - 1], ms[|ms| - 1];
      assert ms == init + [m];
      RowFoldCounts(init, key, ds);
      FilterAppend(init, [m], OfKey(key, ds));
      var before := Filter(init, OfKey(key, ds));
      if RowOf(m, ds) == key {
        assert Filter(ms, OfKey(key, ds)) == before + [m] && (before + [m])[..|before|] == before;
        assert RowFold(ms, key, ds) == RowFold(init, key, ds)[m.id := ValuesOf(m)];
        RowHolds(init, m, key, ds);
        SumReplaced(RowFold(init, key, ds), m.id, ValuesOf(m));
        Cancel(CountedInRow(init, key, ds), ValuesOf(m));
      } else {
        assert Filter([m], OfKey(key, ds)) == [];
        assert Filter(ms, OfKey(key, ds)) == before;
        Neutral(CountedInRow(init, key, ds));
      }
    }
  }

  lemma Cancel(a: Tally, b: Tally)
    ensures Plus(Minus(a, b), b) == a && Plus(Minus(a, ZERO), b) == Plus(a, b)
  {
  }

  lemma Neutral(a: Tally)
    ensures Plus(a, ZERO) == a && Plus(ZERO, a) == a
  {
  }

  lemma RowHolds(init: seq<Contribution>, m: Contribution, key: MetricKey, ds: seq<Dimension>)
    requires UnitRepeats(init + [m]) && RowOf(m, ds) == key
    ensures m.id in RowFold(init, key, ds) <==> KnownInRow(init, m.id, key, ds)
    ensures m.id in RowFold(init, key, ds) ==> RowFold(init, key, ds)[m.id] == ValuesOf(m)
  {
    var before := Filter(init, OfKey(key, ds));
    forall b
      ensures b in before <==> b in init && RowOf(b, ds) == key
    {
      FilterMember(init, OfKey(key, ds), b);
    }
    forall b | b in before && b.id == m.id
      ensures ValuesOf(b) == ValuesOf(m)
    {
      SameIdSameValues(init + [m], b, m);
    }
    FoldHolds(before, m);
  }

  // When the two ways agree.

  lemma {:induction false} AgreeingRowsCountTheSame(ms: seq<Contribution>, key: MetricKey, ds: seq<Dimension>)
    requires RowsAgree(ms, ds)
    ensures CountedOnce(ms, key, ds) == CountedInRow(ms, key, ds)
  {
    if ms != [] {
      var init, m := ms[..|ms| - 1], ms[|ms| - 1];
      assert ms == init + [m];
      AgreeingRowsCountTheSame(init, key, ds);
      assert Known(init, m.id) <==> KnownInRow(init, m.id, RowOf(m, ds), ds);
    }
  }

  lemma RepeatIsUnit(init: seq<Contribution>, m: Contribution)
    requires UnitRepeats(init + [m])
    ensures UnitRepeats(init)
    ensures Known(init, m.id) ==> ValuesOf(m) == ZERO.(converted := 1)
  {
    var ms := init + [m];
    assert forall i, j :: 0 <= i < j < |init| ==> ms[i] == init[i] && ms[j] == init[j];
    if Known(init, m.id) {
      var a :| a in init && a.id == m.id;
      var i :| 0 <= i < |init| && init[i] == a;
      assert ms[i].id == ms[|init|].id;
    }
  }

  lemma KnownInRowIsKnown(init: seq<Contribution>, id: ContributionId, key: MetricKey, ds: seq<Dimension>)
    requires KnownInRow(init, id, key, ds)
    ensures Known(init, id)
  {
  }

  /** One more contribution: the row counts whatever the calculation counts, and one more if its identity is known
      elsewhere. */
  lemma OneMoreCount(init: seq<Contribution>, m: Contribution, key: MetricKey, ds: seq<Dimension>)
    requires UnitRepeats(init + [m])
    ensures UnitRepeats(init)
    ensures var once := CountedOnce(init + [m], key, ds).converted - CountedOnce(init, key, ds).converted;
            var inRow := CountedInRow(init + [m], key, ds).converted - CountedInRow(init, key, ds).converted;
            && once <= inRow
            && (Known(init, m.id) && !KnownInRow(init, m.id, key, ds) && key == RowOf(m, ds) ==> once < inRow)
  {
    RepeatIsUnit(init, m);
    var ms, row := init + [m], RowOf(m, ds);
    assert ms[..|ms| - 1] == init;
    var once, inRow := CountedOnce(init, key, ds), CountedInRow(init, key, ds);
    assert CountedOnce(ms, key, ds) == if Known(init, m.id) then once else Plus(once, Hit(m, key, ds));
    assert CountedInRow(ms, key, ds) == if KnownInRow(init, m.id, row, ds) then inRow else Plus(inRow, Hit(m, key, ds));
    if KnownInRow(init, m.id, row, ds) { KnownInRowIsKnown(init, m.id, row, ds); }
  }

  lemma {:induction false} OnceIsAtMost(ms: seq<Contribution>, key: MetricKey, ds: seq<Dimension>)
    requires UnitRepeats(ms)
    ensures CountedOnce(ms, key, ds).converted <= CountedInRow(ms, key, ds).converted
  {
    if ms != [] {
      var init, m := ms[..|ms| - 1], ms[|ms| - 1];
      assert ms == init + [m];
      OneMoreCount(init, m, key, ds);
      OnceIsAtMost(init, key, ds);
    }
  }

  /** An identity that reaches two rows is counted by one row and not by the calculation that counts it once. */
  lemma {:induction false} DisagreeingRowCountsMore(ms: seq<Contribution>, ds: seq<Dimension>) returns (key: MetricKey)
    requires UnitRepeats(ms) && !RowsAgree(ms, ds)
    ensures CountedOnce(ms, key, ds).converted < CountedInRow(ms, key, ds).converted
  {
    var init, m := ms[..|ms| - 1], ms[|ms| - 1];
    assert ms == init + [m];
    if RowsAgree(init, ds) {
      key := RowOf(m, ds);
      var a :| a in init && a.id == m.id && RowOf(a, ds) != RowOf(m, ds);
      assert !KnownInRow(init, m.id, key, ds);
      OneMoreCount(init, m, key, ds);
      OnceIsAtMost(init, key, ds);
    } else {
      OneMoreCount(init, m, RowOf(m, ds), ds);
      key := DisagreeingRowCountsMore(init, ds);
      OneMoreCount(init, m, key, ds);
    }
  }

  /** Row by row aggregation meets the count of each identity once exactly if no identity reaches two rows. */
  lemma AggregationMeetsCounting(ms: seq<Contribution>, ds: seq<Dimension>)
    requires UnitRepeats(ms)
    ensures (forall key :: Sum(RowFold(ms, key, ds)) == CountedOnce(ms, key, ds)) <==> RowsAgree(ms, ds)
  {
    if RowsAgree(ms, ds) {
      forall key
        ensures Sum(RowFold(ms, key, ds)) == CountedOnce(ms, key, ds)
      {
        RowFoldCounts(ms, key, ds);
        AgreeingRowsCountTheSame(ms, key, ds);
      }
    } else {
      var key := DisagreeingRowCountsMore(ms, ds);
      RowFoldCounts(ms, key, ds);
    }
  }
}
