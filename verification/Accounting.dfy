/** What the two coverage reports say, and when they are refused, said of records, lineage and expected receipts. */
module Accounting {
  import opened Seqs
  import opened Archive
  import opened ArchiveIndex
  import opened Coverage

  // What is counted.

  predicate Acknowledges(records: seq<Row>, id: string) {
    exists row :: row in records && row.value.Acknowledgement? && id in row.value.receipts
  }

  predicate HasPacket(records: seq<Row>, id: string) {
    exists row :: row in records && row.value.Packet? && row.value.receipt == id
  }

  predicate HasDisposition(lineage: seq<Lineage>, id: string) {
    exists l :: l in lineage && l.receipt == id && l.disposition != "signal"
  }

  ghost function AcknowledgedIn(records: seq<Row>, expected: set<string>): iset<string> {
    iset id | id in expected || Acknowledges(records, id)
  }

  ghost function ArchivedIn(records: seq<Row>): iset<string> { iset id | HasPacket(records, id) }

  ghost function ClassifiedIn(lineage: seq<Lineage>): iset<string> { iset id | HasDisposition(lineage, id) }

  /** The report counts these receipts: how many are acknowledged, which of them are not archived, which are not
      classified, and whether any is lacking. Nothing is complete of which nothing is acknowledged. */
  ghost predicate Accounts(report: Report, acknowledged: iset<string>, archived: iset<string>,
                           classified: iset<string>)
  {
    && (exists all: set<string> ::
          |all| == report.acknowledged && forall id :: id in all <==> id in acknowledged)
    && (forall id :: id in report.missing <==> id in acknowledged && id !in archived)
    && (forall id :: id in report.pending <==> id in acknowledged && id !in classified)
    && report.archived + |report.missing| == report.acknowledged
    && report.classified + |report.pending| == report.acknowledged
    && (report.archiveComplete <==> report.acknowledged > 0 && |report.missing| == 0)
    && (report.lineageComplete <==> report.acknowledged > 0 && |report.pending| == 0)
  }

  ghost function Of(s: set<string>): iset<string> { iset id | id in s }

  lemma Split(all: set<string>, part: set<string>)
    ensures |all * part| + |all - part| == |all| && (|all - part| == 0 <==> all <= part)
  {
    assert all == all * part + (all - part);
    if |all - part| == 0 { assert all - part == {}; }
  }

  lemma ReportAccounts(all: set<string>, archived: set<string>, classified: set<string>)
    ensures Accounts(ReportOf(all, archived, classified), Of(all), Of(archived), Of(classified))
  {
    Split(all, archived);
    Split(all, classified);
  }

  lemma ClassifiedIs(lineage: seq<Lineage>)
    ensures ClassifiedIn(lineage) == Of(Classified(lineage))
  {
    forall id
      ensures id in ClassifiedIn(lineage) <==> id in Classified(lineage)
    {
    }
  }

  lemma AcknowledgedIs(records: seq<Row>, id: string)
    ensures Acknowledges(records, id) <==> id in Coverage.AcknowledgedBy(records)
  {
  }

  lemma AcknowledgedAre(records: seq<Row>, expected: set<string>)
    ensures AcknowledgedIn(records, expected) == Of(expected + Coverage.AcknowledgedBy(records))
  {
    forall id
      ensures Acknowledges(records, id) <==> id in Coverage.AcknowledgedBy(records)
    {
      AcknowledgedIs(records, id);
    }
  }

  lemma ArchivedAre(records: seq<Row>)
    ensures ArchivedIn(records) == Of(RawBy(records).Keys)
  {
    forall id
      ensures HasPacket(records, id) <==> id in RawBy(records)
    {
      RawByHolds(records, id);
    }
  }

  /** Reconciling counts the receipts that are expected or acknowledged by some record, those of archived packets, and
      those that have a disposition other than a signal. */
  lemma ReconcileAccounts(records: seq<Row>, lineage: seq<Lineage>, expected: set<string>)
    ensures Accounts(ReportOf(expected + Coverage.AcknowledgedBy(records), RawBy(records).Keys, Classified(lineage)),
                     AcknowledgedIn(records, expected), ArchivedIn(records), ClassifiedIn(lineage))
  {
    ReportAccounts(expected + Coverage.AcknowledgedBy(records), RawBy(records).Keys, Classified(lineage));
    ClassifiedIs(lineage);
    AcknowledgedAre(records, expected);
    ArchivedAre(records);
  }

  ghost function AskedOf(ix: Index, expected: set<string>): iset<string> {
    iset id | id in expected || id in ix.acks
  }

  predicate IndexesPacket(ix: Index, id: string) {
    exists p :: p in ix.records && ix.records[p].value.Packet? && ix.records[p].value.receipt == id
  }

  ghost function PacketsOf(ix: Index): iset<string> {
    iset id | IndexesPacket(ix, id)
  }

  /** The index counts the receipts that are expected or acknowledged, those of indexed packets, and those that have a
      disposition other than a signal. */
  lemma CoverAccounts(ix: Index, lineage: seq<Lineage>, expected: set<string>)
    ensures Accounts(ReportOf(expected + ix.acks.Keys, RawReceipts(ix), Classified(lineage)),
                     AskedOf(ix, expected), PacketsOf(ix), ClassifiedIn(lineage))
  {
    ReportAccounts(expected + ix.acks.Keys, RawReceipts(ix), Classified(lineage));
    ClassifiedIs(lineage);
    assert AskedOf(ix, expected) == Of(expected + ix.acks.Keys) && PacketsOf(ix) == Of(RawReceipts(ix));
  }

  // When it is refused.

  /** Position `k` holds the last packet of this receipt. */
  ghost predicate LastPacket(records: seq<Row>, k: nat, id: string)
    requires k < |records|
  {
    records[k].value.Packet? && records[k].value.receipt == id
    && forall j :: k < j < |records| && records[j].value.Packet? ==> records[j].value.receipt != id
  }

  lemma {:induction false} RawIsLast(records: seq<Row>, id: string, k: nat)
    requires k < |records| && LastPacket(records, k, id)
    ensures id in RawBy(records) && RawBy(records)[id] == records[k]
  {
    var init := records[..|records| - 1];
    if k < |init| {
      assert init[k] == records[k];
      RawIsLast(init, id, k);
    }
  }

  lemma {:induction false} SomeLast(records: seq<Row>, id: string)
    requires id in RawBy(records)
    ensures exists k :: 0 <= k < |records| && LastPacket(records, k, id)
  {
    var init, last := records[..|records| - 1], records[|records| - 1];
    if last.value.Packet? && last.value.receipt == id {
      assert LastPacket(records, |init|, id);
    } else {
      SomeLast(init, id);
      var k :| 0 <= k < |init| && LastPacket(init, k, id);
      assert LastPacket(records, k, id);
    }
  }

  /** An acknowledgement is in order against the records: it names as many receipts as it has references, those of its
      references, and wherever the last packet of one is, its place and digest are those of the reference. */
  ghost predicate InOrder(records: seq<Row>, v: Value, digest: Value -> string) {
    v.Acknowledgement? ==>
      && v.count == |v.refs|
      && (forall id :: id in v.receipts <==> exists n :: 0 <= n < |v.refs| && v.refs[n].receipt == id)
      && (forall n, k :: 0 <= n < |v.refs| && 0 <= k < |records| && LastPacket(records, k, v.refs[n].receipt) ==>
            records[k].place == v.refs[n].place && digest(records[k].value) == v.refs[n].sha)
  }

  lemma RefAgreesIs(records: seq<Row>, ref: AckRef, digest: Value -> string)
    ensures RefAgrees(RawBy(records), ref, digest)
            <==> forall k :: 0 <= k < |records| && LastPacket(records, k, ref.receipt) ==>
                   records[k].place == ref.place && digest(records[k].value) == ref.sha
  {
    forall k | 0 <= k < |records| && LastPacket(records, k, ref.receipt)
      ensures ref.receipt in RawBy(records) && RawBy(records)[ref.receipt] == records[k]
    {
      RawIsLast(records, ref.receipt, k);
    }
    if ref.receipt in RawBy(records) {
      SomeLast(records, ref.receipt);
      var k :| 0 <= k < |records| && LastPacket(records, k, ref.receipt);
    }
  }

  lemma AgreesIsInOrder(records: seq<Row>, v: Value, digest: Value -> string)
    ensures AckAgrees(RawBy(records), v, digest) <==> InOrder(records, v, digest)
  {
    if v.Acknowledgement? {
      forall n | 0 <= n < |v.refs|
        ensures RefAgrees(RawBy(records), v.refs[n], digest)
                <==> forall k :: 0 <= k < |records| && LastPacket(records, k, v.refs[n].receipt) ==>
                       records[k].place == v.refs[n].place && digest(records[k].value) == v.refs[n].sha
      {
        RefAgreesIs(records, v.refs[n], digest);
      }
      NamesAlike(v.receipts, v.refs);
    }
  }

  lemma NamesAlike(receipts: seq<string>, refs: seq<AckRef>)
    ensures StringsOf(receipts) == ReceiptsOf(refs)
            <==> forall id :: id in receipts <==> exists n :: 0 <= n < |refs| && refs[n].receipt == id
  {
    forall id
      ensures id in StringsOf(receipts) <==> id in receipts
      ensures id in ReceiptsOf(refs) <==> exists n :: 0 <= n < |refs| && refs[n].receipt == id
    {
    }
  }

  /** Reconciling is refused exactly if some acknowledgement is out of order or a receipt has two dispositions. */
  lemma ReconcilesExactly(records: seq<Row>, lineage: seq<Lineage>, digest: Value -> string)
    ensures (forall row :: row in records ==> AckAgrees(RawBy(records), row.value, digest)) && OneDisposition(lineage)
            <==> && (forall row :: row in records ==> InOrder(records, row.value, digest))
                 && (forall a, b :: a in lineage && b in lineage && a.disposition != "signal"
                                    && b.disposition != "signal" && a.receipt == b.receipt ==>
                       a.disposition == b.disposition)
  {
    forall row | row in records
      ensures AckAgrees(RawBy(records), row.value, digest) <==> InOrder(records, row.value, digest)
    {
      AgreesIsInOrder(records, row.value, digest);
    }
  }
}
