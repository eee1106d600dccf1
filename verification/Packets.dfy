/** The order in which packets are replayed: one query's ordering, and a stable sort of rows that
    are in source order. */
module Packets {
  import opened Seqs
  import opened Archive
  import opened Strings

  predicate PlaceLess(a: Place, b: Place) {
    || Less(a.topic, b.topic)
    || (a.topic == b.topic && (a.partition < b.partition || (a.partition == b.partition && a.offset < b.offset)))
  }

  /** The arrival order of two packets, as far as arrival tells them apart. */
  predicate Sooner(a: Row, b: Row)
    requires a.value.Packet? && b.value.Packet?
  {
    || a.value.receivedAt < b.value.receivedAt
    || (a.value.receivedAt == b.value.receivedAt
        && (Less(a.value.batch, b.value.batch) || (a.value.batch == b.value.batch && a.value.index < b.value.index)))
  }

  /** The query's ordering: arrival, then source. */
  predicate Before(a: Row, b: Row) {
    a.value.Packet? && b.value.Packet? && (Sooner(a, b) || (!Sooner(b, a) && PlaceLess(a.place, b.place)))
  }

  lemma PlaceOrder(a: Place, b: Place, c: Place)
    ensures PlaceLess(a, b) || a == b || PlaceLess(b, a)
    ensures !(PlaceLess(a, b) && PlaceLess(b, a)) && !PlaceLess(a, a)
    ensures PlaceLess(a, b) && PlaceLess(b, c) ==> PlaceLess(a, c)
  {
    LessTrichotomy(a.topic, b.topic);
    LessTrichotomy(a.topic, a.topic);
    if Less(a.topic, b.topic) && Less(b.topic, c.topic) { LessTransitive(a.topic, b.topic, c.topic); }
  }

  lemma SoonerOrder(a: Row, b: Row, c: Row)
    requires a.value.Packet? && b.value.Packet? && c.value.Packet?
    ensures !(Sooner(a, b) && Sooner(b, a)) && !Sooner(a, a)
    ensures Sooner(a, b) && Sooner(b, c) ==> Sooner(a, c)
    ensures !Sooner(a, b) && !Sooner(b, c) ==> !Sooner(a, c)
  {
    LessTrichotomy(a.value.batch, b.value.batch);
    LessTrichotomy(b.value.batch, c.value.batch);
    LessTrichotomy(a.value.batch, c.value.batch);
    LessTrichotomy(a.value.batch, a.value.batch);
    if Less(a.value.batch, b.value.batch) && Less(b.value.batch, c.value.batch) {
      LessTransitive(a.value.batch, b.value.batch, c.value.batch);
    }
    if Less(b.value.batch, a.value.batch) && Less(c.value.batch, b.value.batch) {
      LessTransitive(c.value.batch, b.value.batch, a.value.batch);
    }
  }

  lemma BeforeOrder(a: Row, b: Row, c: Row)
    ensures !(Before(a, b) && Before(b, a)) && !Before(a, a)
    ensures Before(a, b) && Before(b, c) ==> Before(a, c)
  {
    PlaceOrder(a.place, b.place, c.place);
    if a.value.Packet? && b.value.Packet? && c.value.Packet? {
      SoonerOrder(a, b, c);
      SoonerOrder(b, a, c);
      SoonerOrder(c, b, a);
      SoonerOrder(b, c, a);
      SoonerOrder(a, c, b);
      SoonerOrder(c, a, b);
    }
    if a.value.Packet? {
      SoonerOrder(a, a, a);
      if b.value.Packet? { SoonerOrder(a, b, a); }
    }
  }

  ghost predicate InSourceOrder(s: seq<Row>) { forall i, j :: 0 <= i < j < |s| ==> PlaceLess(s[i].place, s[j].place) }

  ghost predicate InReplayOrder(s: seq<Row>) { forall i, j :: 0 <= i < j < |s| ==> Before(s[i], s[j]) }

  ghost predicate AllPackets(s: seq<Row>) { forall n :: 0 <= n < |s| ==> s[n].value.Packet? }

  /** A stable sort: every element goes behind those that do not come later. */
  function Insert(s: seq<Row>, x: Row): (r: seq<Row>)
    requires x.value.Packet? && forall n :: 0 <= n < |s| ==> s[n].value.Packet?
    ensures forall n :: 0 <= n < |r| ==> r[n].value.Packet?
  {
    if s == [] || !Sooner(x, s[|s| - 1]) then s + [x] else Insert(s[..|s| - 1], x) + [s[|s| - 1]]
  }

  function StableSort(s: seq<Row>): (r: seq<Row>)
    requires forall n :: 0 <= n < |s| ==> s[n].value.Packet?
    ensures forall n :: 0 <= n < |r| ==> r[n].value.Packet?
  {
    if s == [] then [] else Insert(StableSort(s[..|s| - 1]), s[|s| - 1])
  }

  lemma {:induction false} InsertHolds(s: seq<Row>, x: Row, y: Row)
    requires x.value.Packet? && AllPackets(s)
    ensures y in Insert(s, x) <==> y in s || y == x
  {
    if s != [] && Sooner(x, s[|s| - 1]) {
      assert s == s[..|s| - 1] + [s[|s| - 1]];
      InsertHolds(s[..|s| - 1], x, y);
    }
  }

  lemma {:induction false} InsertKeepsOrder(s: seq<Row>, x: Row)
    requires x.value.Packet? && AllPackets(s) && InReplayOrder(s)
    requires forall y :: y in s ==> PlaceLess(y.place, x.place)
    ensures InReplayOrder(Insert(s, x))
  {
    if s != [] {
      var init, last := s[..|s| - 1], s[|s| - 1];
      assert s == init + [last] && last in s;
      if Sooner(x, last) {
        InsertKeepsOrder(init, x);
        var t := Insert(init, x);
        forall y | y in t
          ensures Before(y, last)
        {
          InsertHolds(init, x, y);
          SoonerOrder(x, last, x);
        }
        AppendKeepsOrder(t, last);
      } else {
        forall y | y in s
          ensures Before(y, x)
        {
          if y != last {
            var i :| 0 <= i < |s| && s[i] == y;
            assert i < |s| - 1 && Before(s[i], s[|s| - 1]);
          }
          assert Before(last, x);
          BeforeOrder(y, last, x);
        }
        AppendKeepsOrder(s, x);
      }
    }
  }

  lemma AppendKeepsOrder(s: seq<Row>, x: Row)
    requires InReplayOrder(s) && forall y :: y in s ==> Before(y, x)
    ensures InReplayOrder(s + [x])
  {
  }

  /** Rows in source order, stably sorted by arrival, are in the order of the query. */
  lemma {:induction false} StableSortIsReplayOrder(s: seq<Row>)
    requires AllPackets(s) && InSourceOrder(s)
    ensures InReplayOrder(StableSort(s)) && forall y :: y in StableSort(s) <==> y in s
  {
    if s != [] {
      var init, x := s[..|s| - 1], s[|s| - 1];
      assert s == init + [x];
      StableSortIsReplayOrder(init);
      forall y | y in StableSort(init)
        ensures PlaceLess(y.place, x.place)
      {
        var i :| 0 <= i < |init| && init[i] == y;
        assert s[i] == y;
      }
      InsertKeepsOrder(StableSort(init), x);
      forall y
        ensures y in StableSort(s) <==> y in s
      {
        InsertHolds(StableSort(init), x, y);
      }
    }
  }

  lemma HasOneOrNone(s: seq<Row>)
    ensures s == [] || exists x :: x in s
  {
    if s != [] { assert s[0] in s; }
  }

  lemma OrderHeads(s: seq<Row>, t: seq<Row>)
    requires InReplayOrder(s) && InReplayOrder(t) && s != [] && t != [] && s[0] in t && t[0] in s
    ensures s[0] == t[0]
  {
    BeforeOrder(s[0], t[0], s[0]);
  }

  lemma OrderTail(s: seq<Row>, x: Row)
    requires InReplayOrder(s) && s != []
    ensures x in s[1..] <==> x in s && x != s[0]
  {
    BeforeOrder(s[0], s[0], s[0]);
    assert s == [s[0]] + s[1..];
    if x in s[1..] {
      var i :| 0 <= i < |s[1..]| && s[1..][i] == x;
      assert s[i + 1] == x && Before(s[0], s[i + 1]);
    }
  }

  lemma {:induction false} ReplayOrderIsUnique(s: seq<Row>, t: seq<Row>)
    requires InReplayOrder(s) && InReplayOrder(t) && forall x :: x in s <==> x in t
    ensures s == t
  {
    HasOneOrNone(s);
    HasOneOrNone(t);
    if s != [] {
      assert s[0] in s && t[0] in t;
      OrderHeads(s, t);
      forall x
        ensures x in s[1..] <==> x in t[1..]
      {
        OrderTail(s, x);
        OrderTail(t, x);
      }
      ReplayOrderIsUnique(s[1..], t[1..]);
      assert s == [s[0]] + s[1..] && t == [t[0]] + t[1..];
    }
  }

  // The two readers.

  /** The table's rows in source order. */
  ghost predicate SourceOrdered(table: map<Place, Row>, rows: seq<Row>) {
    InSourceOrder(rows) && forall row :: row in rows <==> row.place in table && table[row.place] == row
  }

  function Wanted(expected: set<string>): Row -> bool
  {
    (row: Row) => row.value.Packet? && row.value.receipt in expected
  }

  /** What the index's query lists: the packets of expected receipts, in its order. */
  ghost predicate Queried(table: map<Place, Row>, expected: set<string>, out: seq<Row>) {
    InReplayOrder(out)
    && forall row :: row in out <==>
         row.place in table && table[row.place] == row && row.value.Packet? && row.value.receipt in expected
  }

  /** Listed packets come by arrival, then batch, then index in the batch, and then by topic, partition and offset. */
  predicate Precedes(a: Row, b: Row) {
    a.value.Packet? && b.value.Packet? && (
      var v, w, p, q := a.value, b.value, a.place, b.place;
      || v.receivedAt < w.receivedAt
      || (v.receivedAt == w.receivedAt && (
            || Less(v.batch, w.batch)
            || (v.batch == w.batch && (
                  || v.index < w.index
                  || (v.index == w.index && (
                        || Less(p.topic, q.topic)
                        || (p.topic == q.topic && (
                              p.partition < q.partition || (p.partition == q.partition && p.offset < q.offset)))))))))
      )
  }

  lemma BeforeIsPrecedes(a: Row, b: Row)
    ensures Before(a, b) <==> Precedes(a, b)
  {
    if a.value.Packet? && b.value.Packet? {
      LessTrichotomy(a.value.batch, b.value.batch);
      LessTrichotomy(b.value.batch, a.value.batch);
    }
  }

  /** What the query lists, and what the replay's stable sort lists with it. */
  lemma ReplayOrderIs(table: map<Place, Row>, expected: set<string>, out: seq<Row>)
    requires Queried(table, expected, out)
    ensures forall i, j :: 0 <= i < j < |out| ==> Precedes(out[i], out[j])
  {
    forall i, j | 0 <= i < j < |out|
      ensures Precedes(out[i], out[j])
    {
      BeforeIsPrecedes(out[i], out[j]);
    }
  }

  lemma {:induction false} FilterInSourceOrder(rows: seq<Row>, p: Row -> bool)
    requires InSourceOrder(rows)
    ensures InSourceOrder(Filter(rows, p))
  {
    if rows != [] {
      FilterInSourceOrder(rows[1..], p);
      if p(rows[0]) {
        var f := Filter(rows[1..], p);
        forall j | 0 <= j < |f|
          ensures PlaceLess(rows[0].place, f[j].place)
        {
          FilterMember(rows[1..], p, f[j]);
          var i :| 0 <= i < |rows[1..]| && rows[1..][i] == f[j];
          assert rows[i + 1] == f[j];
        }
      }
    }
  }

  /** The index's query and the replay's stable sort list the same packets in the same order. */
  lemma QueryEqualsReplay(table: map<Place, Row>, expected: set<string>, rows: seq<Row>, out: seq<Row>)
    requires SourceOrdered(table, rows) && Queried(table, expected, out)
    ensures var packets := Filter(rows, Wanted(expected)); AllPackets(packets) && StableSort(packets) == out
  {
    var packets := Filter(rows, Wanted(expected));
    FilterInSourceOrder(rows, Wanted(expected));
    forall row
      ensures row in packets <==> row in rows && row.value.Packet? && row.value.receipt in expected
    {
      FilterMember(rows, Wanted(expected), row);
    }
    forall n | 0 <= n < |packets|
      ensures packets[n].value.Packet?
    {
      assert packets[n] in packets;
    }
    StableSortIsReplayOrder(packets);
    ReplayOrderIsUnique(StableSort(packets), out);
  }
}
