/** At every commit point the index is the union of its manifests; refreshed, it is the whole archive, as the simple
    reader has it. */
module ArchiveAgreement {
  import opened Seqs
  import opened Archive
  import opened ArchiveIndex

  /** The acknowledgement table holds exactly the references of the acknowledgements among these rows. */
  ghost predicate Acknowledges(acks: map<string, AckRef>, rows: iset<Row>) {
    && (forall k :: k in acks ==> acks[k].receipt == k && Mentioned(acks[k], rows))
    && (forall row, ref :: row in rows && row.value.Acknowledgement? && ref in row.value.refs ==>
          ref.receipt in acks && acks[ref.receipt] == ref)
  }

  ghost predicate Mentioned(ref: AckRef, rows: iset<Row>)
  {
    exists row :: row in rows && row.value.Acknowledgement? && ref in row.value.refs
  }

  ghost predicate AllShaped(rows: iset<Row>) { forall row :: row in rows ==> WellShaped(row.value) }

  /** Acknowledgements do not contradict each other. */
  ghost predicate AcksConsistent(rows: iset<Row>) {
    forall a, b :: Mentioned(a, rows) && Mentioned(b, rows) && a.receipt == b.receipt ==> a == b
  }

  predicate Good(o: Objects, key: string, digest: Value -> string) {
    Verifies(o, key, digest) && o.manifests[key].readable && o.data[o.manifests[key].dataKey].splits
  }

  /** The index holds exactly the rows and acknowledgements of the manifests it has recorded, all of them checked. */
  ghost predicate Indexed(o: Objects, ix: Index, digest: Value -> string) {
    && (forall key :: key in ix.manifests ==> Good(o, key, digest) && ix.manifests[key] == o.manifests[key])
    && Tabulates(ix.records, RowSet(o, ix.manifests.Keys))
    && Acknowledges(ix.acks, RowSet(o, ix.manifests.Keys)) && AllShaped(RowSet(o, ix.manifests.Keys))
  }

  /** What the tables hold while rows are being added. */
  ghost predicate Holds(ix: Index, rows: iset<Row>)
  {
    Tabulates(ix.records, rows) && Acknowledges(ix.acks, rows) && AllShaped(rows)
  }

  ghost predicate Sound(rows: iset<Row>) { Consistent(rows) && AcksConsistent(rows) && AllShaped(rows) }

  lemma HoldsIsSound(ix: Index, rows: iset<Row>)
    requires Holds(ix, rows)
    ensures Sound(rows)
  {
    TabulatedIsConsistent(ix.records, rows);
    forall a, b | Mentioned(a, rows) && Mentioned(b, rows) && a.receipt == b.receipt
      ensures a == b
    {
      assert ix.acks[a.receipt] == a && ix.acks[b.receipt] == b;
    }
  }

  lemma BiggerIsUnsound(a: iset<Row>, b: iset<Row>)
    requires a <= b && !Sound(a)
    ensures !Sound(b)
  {
    if !Consistent(a) { BiggerIsInconsistent(a, b); }
    if !AcksConsistent(a) {
      var x, y :| Mentioned(x, a) && Mentioned(y, a) && x.receipt == y.receipt && x != y;
      assert Mentioned(x, b) && Mentioned(y, b);
    }
  }

  /** The table of acknowledgements, grown by some references. */
  lemma {:induction false} AddAcksHolds(acks: map<string, AckRef>, refs: seq<AckRef>)
    requires forall k :: k in acks ==> acks[k].receipt == k
    ensures var after := AddAcks(acks, refs);
            && (after.Some? ==>
                  && (forall k :: k in acks ==> k in after.value && after.value[k] == acks[k])
                  && (forall ref :: ref in refs ==> ref.receipt in after.value && after.value[ref.receipt] == ref)
                  && (forall k :: k in after.value ==>
                        after.value[k].receipt == k
                            && ((k in acks && acks[k] == after.value[k]) || after.value[k] in refs)))
            && (after.None? ==>
                  exists a, b :: (a in refs || (a.receipt in acks && acks[a.receipt] == a)) && b in refs
                                 && a.receipt == b.receipt && a != b)
  {
    if refs != [] {
      var init, ref := refs[..|refs| - 1], refs[|refs| - 1];
      assert refs == init + [ref];
      AddAcksHolds(acks, init);
      var before := AddAcks(acks, init);
      if before.Some? && AddAcks(acks, refs).None? {
        var a := before.value[ref.receipt];
        assert a != ref && ref in refs;
        assert a in refs || (a.receipt in acks && acks[a.receipt] == a);
      }
    }
  }

  lemma AddRowTabulates(table: map<Place, Row>, rows: iset<Row>, row: Row)
    requires Tabulates(table, rows)
    ensures row.place in table && table[row.place] != row ==> !Consistent(rows + iset{row})
    ensures (row.place in table ==> table[row.place] == row) ==> Tabulates(table[row.place := row], rows + iset{row})
  {
    if row.place in table && table[row.place] != row {
      assert table[row.place] in rows + iset{row} && row in rows + iset{row};
    }
  }

  lemma MentionedOneMore(rows: iset<Row>, row: Row, ref: AckRef)
    ensures Mentioned(ref, rows + iset{row})
            <==> Mentioned(ref, rows) || (row.value.Acknowledgement? && ref in row.value.refs)
  {
    if row.value.Acknowledgement? && ref in row.value.refs { assert row in rows + iset{row}; }
    if Mentioned(ref, rows) {
      var r :| r in rows && r.value.Acknowledgement? && ref in r.value.refs;
      assert r in rows + iset{row};
    }
  }

  lemma AddRowAcknowledges(acks: map<string, AckRef>, rows: iset<Row>, row: Row)
    requires Acknowledges(acks, rows) && row.value.Acknowledgement?
    ensures AddAcks(acks, row.value.refs).Some? ==> Acknowledges(AddAcks(acks, row.value.refs).value, rows + iset{row})
    ensures AddAcks(acks, row.value.refs).None? ==> !AcksConsistent(rows + iset{row})
  {
    AddAcksHolds(acks, row.value.refs);
    var all, after := rows + iset{row}, AddAcks(acks, row.value.refs);
    if after.Some? {
      forall k | k in after.value
        ensures after.value[k].receipt == k && Mentioned(after.value[k], all)
      {
        MentionedOneMore(rows, row, after.value[k]);
      }
    } else {
      var a, b :| (a in row.value.refs || (a.receipt in acks && acks[a.receipt] == a)) && b in row.value.refs
                  && a.receipt == b.receipt && a != b;
      MentionedOneMore(rows, row, a);
      MentionedOneMore(rows, row, b);
      assert Mentioned(a, all) && Mentioned(b, all);
    }
  }

  lemma NoAckAcknowledges(acks: map<string, AckRef>, rows: iset<Row>, row: Row)
    requires Acknowledges(acks, rows) && !row.value.Acknowledgement?
    ensures Acknowledges(acks, rows + iset{row})
  {
    forall k | k in acks
      ensures Mentioned(acks[k], rows + iset{row})
    {
      MentionedOneMore(rows, row, acks[k]);
    }
  }

  lemma AddRowHolds(ix: Index, rows: iset<Row>, row: Row)
    requires Holds(ix, rows)
    ensures AddRow(ix, row).Some? ==> Holds(AddRow(ix, row).value, rows + iset{row})
    ensures AddRow(ix, row).None? ==> !Sound(rows + iset{row})
  {
    AddRowTabulates(ix.records, rows, row);
    assert row in rows + iset{row};
    if row.value.Acknowledgement? {
      AddRowAcknowledges(ix.acks, rows, row);
    } else {
      NoAckAcknowledges(ix.acks, rows, row);
    }
  }

  lemma AddNextHolds(before: Option<Index>, sofar: iset<Row>, row: Row, after: Option<Index>)
    requires if before.Some? then Holds(before.value, sofar) else !Sound(sofar)
    requires after == if before.None? then None else AddRow(before.value, row)
    ensures if after.Some? then Holds(after.value, sofar + iset{row}) else !Sound(sofar + iset{row})
    ensures after.Some? ==> after.value.manifests == before.value.manifests
  {
    if before.Some? {
      AddRowHolds(before.value, sofar, row);
    } else {
      BiggerIsUnsound(sofar, sofar + iset{row});
    }
  }

  lemma RowsOneMore(all: iset<Row>, init: seq<Row>, row: Row)
    ensures all + RowsIn(init + [row]) == all + RowsIn(init) + iset{row}
  {
    assert forall x :: x in init + [row] <==> x in init || x == row;
  }

  lemma {:induction false} AddAllHolds(ix: Index, all: iset<Row>, rows: seq<Row>)
    requires Holds(ix, all)
    ensures AddAll(ix, rows).Some? ==>
            Holds(AddAll(ix, rows).value, all + RowsIn(rows)) && AddAll(ix, rows).value.manifests == ix.manifests
    ensures AddAll(ix, rows).None? ==> !Sound(all + RowsIn(rows))
  {
    if rows == [] {
      assert all + RowsIn(rows) == all;
    } else {
      var init, row := rows[..|rows| - 1], rows[|rows| - 1];
      assert rows == init + [row];
      AddAllHolds(ix, all, init);
      RowsOneMore(all, init, row);
      AddNextHolds(AddAll(ix, init), all + RowsIn(init), row, AddAll(ix, rows));
    }
  }

  lemma RecordedIsIndexed(o: Objects, ix: Index, added: Index, key: string, digest: Value -> string)
    requires Indexed(o, ix, digest) && Good(o, key, digest) && added.manifests == ix.manifests
    requires Holds(added, RowSet(o, ix.manifests.Keys + {key}))
    ensures Indexed(o, added.(manifests := added.manifests[key := o.manifests[key]]), digest)
  {
    assert added.manifests[key := o.manifests[key]].Keys == ix.manifests.Keys + {key};
  }

  /** Loading a manifest adds exactly its rows; it fails exactly if the object is not as it should be or contradicts the
      rest. */
  lemma LoadKeeps(o: Objects, ix: Index, key: string, digest: Value -> string)
    requires Indexed(o, ix, digest)
    ensures var after := Load(o, ix, key, digest);
            && (after.Some? ==>
                 Indexed(o, after.value, digest) && after.value.manifests.Keys == ix.manifests.Keys + {key})
            && (after.None? ==> !Good(o, key, digest) || !Sound(RowSet(o, ix.manifests.Keys + {key})))
  {
    if Good(o, key, digest) {
      AddAllHolds(ix, RowSet(o, ix.manifests.Keys), RowsOf(o, key));
      ArchivedOneMore(o, ix.manifests.Keys, key);
      var added := AddAll(ix, RowsOf(o, key));
      if added.Some? { RecordedIsIndexed(o, ix, added.value, key, digest); }
    }
  }

  /** A listing names no key twice. */
  ghost predicate NoRepeats(keys: seq<string>) { forall i, j :: 0 <= i < j < |keys| ==> keys[i] != keys[j] }

  lemma OneMoreKey(init: seq<string>, key: string)
    ensures NoRepeats(init + [key]) <==> NoRepeats(init) && key !in init
  {
    var keys := init + [key];
    if NoRepeats(keys) {
      forall i, j | 0 <= i < j < |init|
        ensures init[i] != init[j]
      {
        assert keys[i] != keys[j];
      }
      forall i | 0 <= i < |init|
        ensures init[i] != key
      {
        assert keys[i] != keys[|init|];
      }
    }
  }

  /** Something about a listing stands in the way of loading it on top of the manifests known. */
  ghost predicate Obstructed(o: Objects, known: set<string>, keys: seq<string>, digest: Value -> string) {
    || !NoRepeats(keys)
    || (exists key :: key in keys && !Good(o, key, digest))
    || !Sound(RowSet(o, known + KeySet(keys)))
  }

  lemma ObstructionStays(o: Objects, known: set<string>, init: seq<string>, key: string, digest: Value -> string)
    requires Obstructed(o, known, init, digest)
    ensures Obstructed(o, known, init + [key], digest)
  {
    var keys := init + [key];
    OneMoreKey(init, key);
    if k :| k in init && !Good(o, k, digest) {
      assert k in keys;
    } else if !Sound(RowSet(o, known + KeySet(init))) {
      MoreKeysMoreRows(o, known + KeySet(init), known + KeySet(keys));
      BiggerIsUnsound(RowSet(o, known + KeySet(init)), RowSet(o, known + KeySet(keys)));
    }
  }

  /** What a refresh that has got as far as `keys` leaves. */
  ghost predicate Refreshed(o: Objects, known: set<string>, keys: seq<string>, after: Outcome,
                            digest: Value -> string)
  {
    && Indexed(o, after.index, digest)
    && known <= after.index.manifests.Keys <= known + KeySet(keys)
    && (after.ok ==> NoRepeats(keys) && after.index.manifests.Keys == known + KeySet(keys))
    && (!after.ok ==> Obstructed(o, known, keys, digest))
  }

  lemma LoadNextKeeps(o: Objects, known: set<string>, init: seq<string>, key: string, before: Outcome, audit: bool,
                      digest: Value -> string)
    requires Refreshed(o, known, init, before, digest)
    ensures Refreshed(o, known, init + [key], LoadNext(o, before, init, key, audit, digest), digest)
  {
    var keys := init + [key];
    assert KeySet(keys) == KeySet(init) + {key} && key in keys;
    OneMoreKey(init, key);
    if !before.ok {
      ObstructionStays(o, known, init, key, digest);
    } else if key !in init {
      assert before.index.manifests.Keys + {key} == known + KeySet(keys);
      LoadKeeps(o, before.index, key, digest);
    }
  }

  /** Whether a refresh succeeds or stops, what is recorded is exactly what is indexed. */
  lemma {:induction false} RefreshKeeps(o: Objects, ix: Index, keys: seq<string>, audit: bool, digest: Value -> string)
    requires Indexed(o, ix, digest)
    ensures Refreshed(o, ix.manifests.Keys, keys, LoadKeys(o, ix, keys, audit, digest), digest)
  {
    if keys != [] {
      var init, key := keys[..|keys| - 1], keys[|keys| - 1];
      assert keys == init + [key];
      RefreshKeeps(o, ix, init, audit, digest);
      LoadNextKeeps(o, ix.manifests.Keys, init, key, LoadKeys(o, ix, init, audit, digest), audit, digest);
    }
  }

  lemma MoreKeysMoreRows(o: Objects, a: set<string>, b: set<string>)
    requires a <= b
    ensures RowSet(o, a) <= RowSet(o, b)
  {
    forall row | Archived(o, a, row)
      ensures Archived(o, b, row)
    {
      var k :| k in a && row in RowsOf(o, k);
      assert k in b;
    }
  }

  /** Everything in the archive is as it should be. */
  ghost predicate Loadable(o: Objects, digest: Value -> string) {
    (forall key :: key in o.manifests ==> Good(o, key, digest)) && Sound(RowSet(o, o.manifests.Keys))
  }

  /** A refresh over a complete listing, in any order, from any index of part of the archive, auditing or not: it
      succeeds exactly if the archive is loadable and no key is listed twice, and then records every manifest. */
  lemma RefreshSucceedsExactly(o: Objects, ix: Index, keys: seq<string>, audit: bool, digest: Value -> string)
    requires Indexed(o, ix, digest) && KeySet(keys) == o.manifests.Keys
    ensures Refresh(o, ix, keys, audit, digest).ok <==> Loadable(o, digest) && NoRepeats(keys)
    ensures Indexed(o, Refresh(o, ix, keys, audit, digest).index, digest)
    ensures Refresh(o, ix, keys, audit, digest).ok ==>
            Refresh(o, ix, keys, audit, digest).index.manifests == o.manifests
  {
    RefreshKeeps(o, ix, keys, audit, digest);
    var after := LoadKeys(o, ix, keys, audit, digest);
    assert ix.manifests.Keys + KeySet(keys) == o.manifests.Keys;
    if after.ok { HoldsIsSound(after.index, RowSet(o, o.manifests.Keys)); }
  }

  /** Indexes of one archive that record the same manifests are equal. */
  lemma IndexIsUnique(o: Objects, a: Index, b: Index, digest: Value -> string)
    requires Indexed(o, a, digest) && Indexed(o, b, digest) && a.manifests.Keys == b.manifests.Keys
    ensures a == b
  {
    var rows := RowSet(o, a.manifests.Keys);
    assert a.manifests == b.manifests;
    TabulationIsUnique(a.records, b.records, rows);
    AcknowledgementIsUnique(a.acks, b.acks, rows);
  }

  lemma EmptyIsIndexed(o: Objects, digest: Value -> string)
    ensures Indexed(o, EMPTY_INDEX, digest)
  {
  }

  /** What a successful refresh leaves, from whatever index it started and whether it audited or not, is what a cold
      refresh of the same manifests leaves, in any other listing order. */
  lemma RefreshedIsCold(o: Objects, ix: Index, keys: seq<string>, audit: bool, again: seq<string>, audit': bool,
                        digest: Value -> string)
    requires Indexed(o, ix, digest) && Refresh(o, ix, keys, audit, digest).ok
    requires NoRepeats(again) && KeySet(again) == KeySet(keys)
    ensures Refresh(o, EMPTY_INDEX, again, audit', digest) == Outcome(Refresh(o, ix, keys, audit, digest).index, true)
  {
    RefreshKeeps(o, ix, keys, audit, digest);
    var warm := Refresh(o, ix, keys, audit, digest).index;
    assert warm.manifests.Keys == KeySet(keys);
    HoldsIsSound(warm, RowSet(o, KeySet(keys)));
    EmptyIsIndexed(o, digest);
    RefreshKeeps(o, EMPTY_INDEX, again, audit', digest);
    var cold := LoadKeys(o, EMPTY_INDEX, again, audit', digest);
    assert EMPTY_INDEX.manifests.Keys + KeySet(again) == KeySet(keys);
    forall key | key in again
      ensures Good(o, key, digest)
    {
      assert key in KeySet(again) && key in warm.manifests;
    }
    IndexIsUnique(o, warm, cold.index, digest);
  }

  lemma AcknowledgementIsUnique(a: map<string, AckRef>, b: map<string, AckRef>, rows: iset<Row>)
    requires Acknowledges(a, rows) && Acknowledges(b, rows)
    ensures a == b
  {
    forall k
      ensures k in a ==> k in b && a[k] == b[k]
      ensures k in b ==> k in a && b[k] == a[k]
    {
      if k in a { assert Mentioned(a[k], rows); }
      if k in b { assert Mentioned(b[k], rows); }
    }
  }

  /** An index holds the records that the simple reader reads from the manifests it records; the
      reader then succeeds. */
  lemma IndexEqualsReader(o: Objects, ix: Index, keys: seq<string>, digest: Value -> string)
    requires Indexed(o, ix, digest) && ix.manifests.Keys == KeySet(keys)
    ensures ReadKeys(o, keys, digest) == Some(ix.records)
  {
    ReaderHolds(o, keys, digest);
    HoldsIsSound(ix, RowSet(o, KeySet(keys)));
    forall key | key in keys
      ensures Verifies(o, key, digest)
    {
      assert key in KeySet(keys) && key in ix.manifests && Good(o, key, digest);
    }
    TabulationIsUnique(ReadKeys(o, keys, digest).value, ix.records, RowSet(o, KeySet(keys)));
  }

  /** Objects are only ever added. */
  ghost predicate Extends(o: Objects, later: Objects) {
    && (forall k :: k in o.manifests ==> k in later.manifests && later.manifests[k] == o.manifests[k])
    && (forall k :: k in o.data ==> k in later.data && later.data[k] == o.data[k])
  }

  lemma GrowthKeepsIndexed(o: Objects, later: Objects, ix: Index, digest: Value -> string)
    requires Indexed(o, ix, digest) && Extends(o, later)
    ensures Indexed(later, ix, digest)
  {
    forall key | key in ix.manifests
      ensures RowsOf(o, key) == RowsOf(later, key) && Good(later, key, digest)
    {
    }
    forall row
      ensures Archived(o, ix.manifests.Keys, row) <==> Archived(later, ix.manifests.Keys, row)
    {
    }
    assert RowSet(o, ix.manifests.Keys) == RowSet(later, ix.manifests.Keys);
  }

  /** A manifest that was indexed and is no longer listed fails the refresh. */
  lemma MissingManifestFails(o: Objects, ix: Index, keys: seq<string>, audit: bool, digest: Value -> string,
                             key: string)
    requires key in ix.manifests && key !in keys
    ensures !Refresh(o, ix, keys, audit, digest).ok
  {
    ManifestsStay(o, ix, keys, audit, digest);
  }

  lemma {:induction false} RowsKeepManifests(ix: Index, rows: seq<Row>)
    ensures AddAll(ix, rows).Some? ==> AddAll(ix, rows).value.manifests == ix.manifests
  {
    if rows != [] { RowsKeepManifests(ix, rows[..|rows| - 1]); }
  }

  lemma {:induction false} ManifestsStay(o: Objects, ix: Index, keys: seq<string>, audit: bool, digest: Value -> string)
    ensures ix.manifests.Keys <= LoadKeys(o, ix, keys, audit, digest).index.manifests.Keys
  {
    if keys != [] {
      var before, key := LoadKeys(o, ix, keys[..|keys| - 1], audit, digest), keys[|keys| - 1];
      ManifestsStay(o, ix, keys[..|keys| - 1], audit, digest);
      if Load(o, before.index, key, digest).Some? {
        RowsKeepManifests(before.index, o.data[o.manifests[key].dataKey].rows);
      }
    }
  }
}
