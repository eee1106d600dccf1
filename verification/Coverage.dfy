/** Counting what is acknowledged, archived and classified: by the index's tables, and by the simple
    reader's records. */
module Coverage {
  import opened Archive
  import opened ArchiveIndex
  import opened ArchiveAgreement
  import opened Strings

  /** What one quality record says of a receipt; signals are no disposition. */
  datatype Lineage = Lineage(receipt: string, disposition: string)

  datatype Report = Report(acknowledged: nat, archived: nat, classified: nat, missing: set<string>,
        pending: set<string>,
                           archiveComplete: bool, lineageComplete: bool)

  predicate Classifies(l: Lineage) { l.disposition != "signal" }

  ghost predicate OneDisposition(lineage: seq<Lineage>) {
    forall a, b :: a in lineage && b in lineage && Classifies(a) && Classifies(b) && a.receipt == b.receipt ==>
        a.disposition == b.disposition
  }

  function Classified(lineage: seq<Lineage>): set<string> { set l | l in lineage && Classifies(l) :: l.receipt }

  method Dispositions(lineage: seq<Lineage>) returns (dispositions: map<string, string>, ok: bool)
    ensures ok <==> OneDisposition(lineage)
    ensures ok ==> dispositions.Keys == Classified(lineage)
  {
    dispositions, ok := map[], true;
    var n := 0;
    while n < |lineage|
      invariant 0 <= n <= |lineage|
      invariant forall j :: 0 <= j < n && Classifies(lineage[j]) ==>
                  lineage[j].receipt in dispositions && dispositions[lineage[j].receipt] == lineage[j].disposition
      invariant forall k :: k in dispositions ==>
                  exists j :: 0 <= j < n && Classifies(lineage[j]) && lineage[j].receipt == k
                              && lineage[j].disposition == dispositions[k]
    {
      var l := lineage[n];
      if Classifies(l) {
        if l.receipt in dispositions && dispositions[l.receipt] != l.disposition {
          var j :| 0 <= j < n && Classifies(lineage[j]) && lineage[j].receipt == l.receipt
                   && lineage[j].disposition == dispositions[l.receipt];
          assert lineage[j] in lineage && l in lineage;
          return dispositions, false;
        }
        dispositions := dispositions[l.receipt := l.disposition];
      }
      n := n + 1;
    }
  }

  function ReportOf(acknowledged: set<string>, archived: set<string>, classified: set<string>): Report {
    Report(|acknowledged|, |acknowledged * archived|, |acknowledged * classified|, acknowledged - archived,
          acknowledged - classified,
           acknowledged != {} && acknowledged <= archived, acknowledged != {} && acknowledged <= classified)
  }

  // The simple reader's side.

  predicate IsRaw(row: Row) { row.value.Packet? }

  /** The raw records by receipt, a later record replacing an earlier one. */
  function RawBy(records: seq<Row>): map<string, Row> {
    if records == [] then map[]
    else
      var before, row := RawBy(records[..|records| - 1]), records[|records| - 1];
      if IsRaw(row) then before[row.value.receipt := row] else before
  }

  predicate RefAgrees(raw: map<string, Row>, ref: AckRef, digest: Value -> string) {
    ref.receipt in raw ==> raw[ref.receipt].place == ref.place && digest(raw[ref.receipt].value) == ref.sha
  }

  predicate AckAgrees(raw: map<string, Row>, v: Value, digest: Value -> string) {
    v.Acknowledgement? ==>
      && v.count == |v.refs| && StringsOf(v.receipts) == ReceiptsOf(v.refs)
      && forall n :: 0 <= n < |v.refs| ==> RefAgrees(raw, v.refs[n], digest)
  }

  function AcknowledgedBy(records: seq<Row>): set<string> {
    set row, k | row in records && row.value.Acknowledgement? && k in row.value.receipts :: k
  }

  method Reconcile(records: seq<Row>, lineage: seq<Lineage>, expected: set<string>, digest: Value -> string)
    returns (report: Report, ok: bool)
    ensures ok <==>
            (forall row :: row in records ==> AckAgrees(RawBy(records), row.value, digest)) && OneDisposition(lineage)
    ensures ok ==> report == ReportOf(expected + AcknowledgedBy(records), RawBy(records).Keys, Classified(lineage))
  {
    report := ReportOf({}, {}, {});
    var raw := IndexRaw(records);
    var acknowledged := expected;
    var n := 0;
    while n < |records|
      invariant 0 <= n <= |records|
      invariant forall j :: 0 <= j < n ==> AckAgrees(raw, records[j].value, digest)
      invariant acknowledged == expected + AcknowledgedBy(records[..n])
    {
      var row := records[n];
      assert row in records && records[..n + 1] == records[..n] + [row];
      if row.value.Acknowledgement? {
        acknowledged := acknowledged + StringsOf(row.value.receipts);
        if !AckAgrees(raw, row.value, digest) { return report, false; }
      }
      n := n + 1;
    }
    assert records[..n] == records;
    var dispositions;
    dispositions, ok := Dispositions(lineage);
    report := ReportOf(acknowledged, raw.Keys, dispositions.Keys);
  }

  method IndexRaw(records: seq<Row>) returns (raw: map<string, Row>)
    ensures raw == RawBy(records)
  {
    raw := map[];
    var n := 0;
    while n < |records|
      invariant 0 <= n <= |records| && raw == RawBy(records[..n])
    {
      assert records[..n + 1][..n] == records[..n];
      if IsRaw(records[n]) { raw := raw[records[n].value.receipt := records[n]]; }
      n := n + 1;
    }
    assert records[..n] == records;
  }

  // The index's side.

  ghost predicate RawRow(ix: Index, row: Row) { row.place in ix.records && ix.records[row.place] == row && IsRaw(row) }

  /** An acknowledged receipt is archived under another identity than was acknowledged. */
  ghost predicate AckConflict(ix: Index, digest: Value -> string) {
    exists row :: RawRow(ix, row) && row.value.receipt in ix.acks
                  && (row.place != ix.acks[row.value.receipt].place
                       || digest(row.value) != ix.acks[row.value.receipt].sha)
  }

  ghost predicate DuplicateReceipt(ix: Index) {
    exists a, b :: RawRow(ix, a) && RawRow(ix, b) && a != b && a.value.receipt == b.value.receipt
  }

  function RawReceipts(ix: Index): set<string>
  {
    set p | p in ix.records && IsRaw(ix.records[p]) :: ix.records[p].value.receipt
  }

  /** What both pairs of queries select. */
  method Conflicts(ix: Index, digest: Value -> string) returns (conflict: bool, duplicate: bool)
    requires forall p :: p in ix.records ==> ix.records[p].place == p
    ensures conflict <==> AckConflict(ix, digest)
    ensures !conflict ==> (duplicate <==> DuplicateReceipt(ix))
  {
    var places := set p | p in ix.records && IsRaw(ix.records[p]) && ix.records[p].value.receipt in ix.acks
                              && (p != ix.acks[ix.records[p].value.receipt].place
                                  || digest(ix.records[p].value) != ix.acks[ix.records[p].value.receipt].sha);
    conflict := places != {};
    if conflict {
      var p :| p in places;
      assert RawRow(ix, ix.records[p]);
    } else {
      forall row | RawRow(ix, row) && row.value.receipt in ix.acks
        ensures row.place == ix.acks[row.value.receipt].place && digest(row.value) == ix.acks[row.value.receipt].sha
      {
        assert row.place !in places;
      }
    }
    var pairs := set p, q | p in ix.records && q in ix.records && p != q && IsRaw(ix.records[p]) && IsRaw(ix.records[q])
                               && ix.records[p].value.receipt == ix.records[q].value.receipt :: (p, q);
    duplicate := pairs != {};
    if duplicate {
      var pq :| pq in pairs;
      assert RawRow(ix, ix.records[pq.0]) && RawRow(ix, ix.records[pq.1]);
    } else {
      forall a, b | RawRow(ix, a) && RawRow(ix, b) && a != b
        ensures a.value.receipt != b.value.receipt
      {
        assert (a.place, b.place) !in pairs;
      }
    }
  }

  /** The counting of the index: expected receipts joined with acknowledgements, subtracted from what is archived and
      classified. */
  method Cover(ix: Index, lineage: seq<Lineage>, expected: set<string>, digest: Value -> string)
    returns (report: Report, ok: bool)
    requires forall p :: p in ix.records ==> ix.records[p].place == p
    ensures ok <==> OneDisposition(lineage) && !AckConflict(ix, digest) && !DuplicateReceipt(ix)
    ensures ok ==> report == ReportOf(expected + ix.acks.Keys, RawReceipts(ix), Classified(lineage))
  {
    report := ReportOf({}, {}, {});
    var scope := expected + ix.acks.Keys;
    var dispositions;
    dispositions, ok := Dispositions(lineage);
    if !ok { return; }
    var conflict, duplicate := Conflicts(ix, digest);
    if conflict || duplicate { return report, false; }
    var raw := RawReceipts(ix);
    var missing := set e | e in scope && e !in raw;
    var pending := set e | e in scope && e !in dispositions;
    SetsSplit(scope, raw, missing);
    SetsSplit(scope, dispositions.Keys, pending);
    report := Report(|scope|, |scope| - |missing|, |scope| - |pending|, missing, pending,
                     |scope| != 0 && |missing| == 0, |scope| != 0 && |pending| == 0);
  }

  lemma SetsSplit(scope: set<string>, held: set<string>, rest: set<string>)
    requires rest == set e | e in scope && e !in held
    ensures rest == scope - held && |scope * held| == |scope| - |rest|
    ensures |rest| == 0 <==> scope <= held
  {
    assert scope == scope * held + rest;
  }

  // Their agreement.

  lemma {:induction false} RawByHolds(records: seq<Row>, k: string)
    ensures k in RawBy(records) <==> exists row :: row in records && IsRaw(row) && row.value.receipt == k
    ensures k in RawBy(records) ==>
            RawBy(records)[k] in records && IsRaw(RawBy(records)[k]) && RawBy(records)[k].value.receipt == k
  {
    if records != [] {
      assert records == records[..|records| - 1] + [records[|records| - 1]];
      RawByHolds(records[..|records| - 1], k);
    }
  }

  ghost predicate ListsTable(table: map<Place, Row>, records: seq<Row>) {
    forall row :: row in records <==> row.place in table && table[row.place] == row
  }

  lemma SameRaw(ix: Index, records: seq<Row>)
    requires ListsTable(ix.records, records) && forall p :: p in ix.records ==> ix.records[p].place == p
    ensures RawBy(records).Keys == RawReceipts(ix)
  {
    forall k
      ensures k in RawBy(records) <==> k in RawReceipts(ix)
    {
      RawByHolds(records, k);
      if k in RawReceipts(ix) {
        var p :| p in ix.records && IsRaw(ix.records[p]) && ix.records[p].value.receipt == k;
        assert ix.records[p] in records;
      }
    }
  }

  lemma SameAcknowledged(ix: Index, records: seq<Row>, rows: iset<Row>)
    requires Holds(ix, rows) && ListsTable(ix.records, records)
    ensures AcknowledgedBy(records) == ix.acks.Keys
  {
    forall k
      ensures k in ix.acks ==> k in AcknowledgedBy(records)
      ensures k in AcknowledgedBy(records) ==> k in ix.acks
    {
      if k in ix.acks {
        var row :| row in rows && row.value.Acknowledgement? && ix.acks[k] in row.value.refs;
        var n :| 0 <= n < |row.value.refs| && row.value.refs[n] == ix.acks[k];
        assert k in ReceiptsOf(row.value.refs) && k in StringsOf(row.value.receipts);
        assert row in records;
      }
      if k in AcknowledgedBy(records) {
        var row :| row in records && row.value.Acknowledgement? && k in row.value.receipts;
        assert row in rows && k in StringsOf(row.value.receipts);
        var n :| 0 <= n < |row.value.refs| && row.value.refs[n].receipt == k;
        assert row.value.refs[n] in row.value.refs;
      }
    }
  }

  lemma AcksAgree(ix: Index, records: seq<Row>, rows: iset<Row>, digest: Value -> string, v: Row)
    requires Holds(ix, rows) && ListsTable(ix.records, records) && !AckConflict(ix, digest) && v in records
    ensures AckAgrees(RawBy(records), v.value, digest)
  {
    if v.value.Acknowledgement? {
      assert v in rows;
      var raw := RawBy(records);
      forall n | 0 <= n < |v.value.refs|
        ensures RefAgrees(raw, v.value.refs[n], digest)
      {
        var ref := v.value.refs[n];
        assert ref in v.value.refs;
        RawByHolds(records, ref.receipt);
        if ref.receipt in raw { assert RawRow(ix, raw[ref.receipt]); }
      }
    }
  }

  /** Whenever the index's coverage returns, reconciling the simple reader's records succeeds too, with the same counts,
      the same missing and pending receipts and the same verdicts. */
  lemma CoverageAgrees(o: Objects, ix: Index, records: seq<Row>, lineage: seq<Lineage>, expected: set<string>,
                       digest: Value -> string)
    requires Indexed(o, ix, digest) && ListsTable(ix.records, records)
    requires OneDisposition(lineage) && !AckConflict(ix, digest) && !DuplicateReceipt(ix)
    ensures forall row :: row in records ==> AckAgrees(RawBy(records), row.value, digest)
    ensures ReportOf(expected + AcknowledgedBy(records), RawBy(records).Keys, Classified(lineage))
         == ReportOf(expected + ix.acks.Keys, RawReceipts(ix), Classified(lineage))
  {
    var rows := RowSet(o, ix.manifests.Keys);
    SameRaw(ix, records);
    SameAcknowledged(ix, records, rows);
    forall row | row in records
      ensures AckAgrees(RawBy(records), row.value, digest)
    {
      AcksAgree(ix, records, rows, digest, row);
    }
  }

  ghost function FirstFew(keys: set<string>, limit: nat): seq<string> {
    var s := Sorted(keys);
    if |s| <= limit then s else s[..limit]
  }

  lemma SortedStep(keys: set<string>, m: string)
    requires keys != {} && m == Strings.Least(keys)
    ensures Sorted(keys) == [m] + Sorted(keys - {m})
  {
  }

  /** The samples of either side: the first of the missing receipts, up to a limit. */
  method Sample(keys: set<string>, limit: nat) returns (sample: seq<string>)
    ensures sample == FirstFew(keys, limit)
  {
    sample := [];
    var rest := keys;
    while |sample| < limit && rest != {}
      invariant |sample| <= limit && Sorted(keys) == sample + Sorted(rest)
      decreases |rest|
    {
      var m := First(rest);
      SortedStep(rest, m);
      assert sample + ([m] + Sorted(rest - {m})) == (sample + [m]) + Sorted(rest - {m});
      sample, rest := sample + [m], rest - {m};
    }
    SortedLists(rest);
  }

  method First(keys: set<string>) returns (m: string)
    requires keys != {}
    ensures m == Strings.Least(keys)
  {
    m :| m in keys;
    var rest := keys - {m};
    ghost var least := Strings.Least(keys);
    while rest != {}
      invariant rest <= keys && m in keys && m !in rest
      invariant forall k :: k in keys && k !in rest && k != m ==> Less(m, k)
      decreases |rest|
    {
      var k :| k in rest;
      LessTrichotomy(m, k);
      if Less(k, m) {
        forall j | j in keys && j !in rest && j != m
          ensures Less(k, j)
        {
          LessTransitive(k, m, j);
        }
        m := k;
      }
      rest := rest - {k};
    }
    LessTrichotomy(m, least);
  }
}
