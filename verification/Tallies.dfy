/** Vectors of the six counters, and sums of them over the contributions of a metric row. */
module Tallies {
  import opened Measurement

  datatype Tally = Tally(impressions: int, clicks: int, matched: int, unmatched: int, converted: int, value: int)

  const ZERO := Tally(0, 0, 0, 0, 0, 0)

  function Plus(a: Tally, b: Tally): Tally {
    Tally(a.impressions + b.impressions, a.clicks + b.clicks, a.matched + b.matched,
          a.unmatched + b.unmatched, a.converted + b.converted, a.value + b.value)
  }

  function Minus(a: Tally, b: Tally): Tally {
    Tally(a.impressions - b.impressions, a.clicks - b.clicks, a.matched - b.matched,
          a.unmatched - b.unmatched, a.converted - b.converted, a.value - b.value)
  }

  lemma PlusSwap(a: Tally, b: Tally, c: Tally)
    ensures Plus(a, Plus(b, c)) == Plus(b, Plus(a, c))
  {
  }

  /** A contribution's counter vector: zero but for the one counter it names. */
  function Single(k: Counter, n: int): Tally {
    match k
    case Impressions => ZERO.(impressions := n)
    case Clicks => ZERO.(clicks := n)
    case MatchedConversions => ZERO.(matched := n)
    case UnmatchedConversions => ZERO.(unmatched := n)
    case ConvertedClicks => ZERO.(converted := n)
    case ValueMinor => ZERO.(value := n)
  }

  function ValuesOf(c: Contribution): Tally { Single(c.id.counter, c.value) }

  type Latest = map<ContributionId, Tally>

  ghost function Sum<K(!new)>(m: map<K, Tally>): Tally {
    if m == map[] then ZERO
    else
      var k :| k in m;
      Plus(m[k], Sum(m - {k}))
  }

  /** The order in which the values are added does not matter. */
  lemma {:induction false} SumSplit<K(!new)>(m: map<K, Tally>, k: K)
    requires k in m
    ensures Sum(m) == Plus(m[k], Sum(m - {k}))
    decreases |m|
  {
    var j :| j in m && Sum(m) == Plus(m[j], Sum(m - {j}));
    if j != k {
      var rest := m - {j} - {k};
      assert rest == m - {k} - {j};
      SumSplit(m - {j}, k);
      assert Sum(m - {j}) == Plus(m[k], Sum(rest));
      SumSplit(m - {k}, j);
      assert Sum(m - {k}) == Plus(m[j], Sum(rest));
      PlusSwap(m[j], m[k], Sum(rest));
    }
  }

  /** Replacing one value moves the sum by exactly the difference. */
  lemma SumReplaced<K(!new)>(m: map<K, Tally>, k: K, t: Tally)
    ensures Sum(m[k := t]) == Plus(Minus(Sum(m), if k in m then m[k] else ZERO), t)
  {
    SumSplit(m[k := t], k);
    if k in m {
      SumSplit(m, k);
      assert m[k := t] - {k} == m - {k};
    } else {
      assert m[k := t] - {k} == m;
    }
  }
}
