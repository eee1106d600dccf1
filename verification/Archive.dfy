/** The archive: immutable data objects, committed by manifests, and the simple reader that verifies
    all of it at once. */
module Archive {
  import opened Seqs

  datatype Place = Place(topic: string, partition: nat, offset: nat)

  /** A received packet, an acknowledgement of receipts, or any other archived value. */
  datatype Value =
    | Packet(receipt: string, receivedAt: int, batch: string, index: int, content: string)
    | Acknowledgement(count: nat, receipts: seq<string>, refs: seq<AckRef>)
    | Other(content: string)

  datatype AckRef = AckRef(receipt: string, place: Place, sha: string)

  /** A row of a data object. The suffix of its topic is what decides the kind of its value. */
  datatype Row = Row(place: Place, value: Value)

  datatype Ref = Ref(place: Place, sha: string)

  /** `readable` says that the manifest keeps to its size, names a content-addressed data key and has
      the known format. */
  datatype Manifest = Manifest(readable: bool, dataKey: string, sha: string, count: nat, refs: seq<Ref>)

  /** `splits` says that the object keeps to the budgets of the line splitter. */
  datatype Body = Body(sha: string, rows: seq<Row>, splits: bool)

  datatype Objects = Objects(manifests: map<string, Manifest>, data: map<string, Body>)

  predicate RowMatches(row: Row, ref: Ref, digest: Value -> string)
  {
    row.place == ref.place && digest(row.value) == ref.sha
  }

  /** A manifest and its data object agree: checksum, counts, and every row with its reference. */
  predicate Checks(m: Manifest, b: Body, digest: Value -> string) {
    && b.sha == m.sha && |b.rows| == m.count == |m.refs|
    && forall n :: 0 <= n < |b.rows| ==> RowMatches(b.rows[n], m.refs[n], digest)
  }

  predicate Verifies(o: Objects, key: string, digest: Value -> string) {
    key in o.manifests && o.manifests[key].dataKey in o.data
        && Checks(o.manifests[key], o.data[o.manifests[key].dataKey], digest)
  }

  function RowsOf(o: Objects, key: string): seq<Row> {
    if key in o.manifests && o.manifests[key].dataKey in o.data then o.data[o.manifests[key].dataKey].rows else []
  }

  // The simple reader.

  function AddRows(unique: map<Place, Row>, rows: seq<Row>): Option<map<Place, Row>> {
    if rows == [] then Some(unique)
    else
      var before, row := AddRows(unique, rows[..|rows| - 1]), rows[|rows| - 1];
      if before.None? || (row.place in before.value && before.value[row.place] != row) then None
      else Some(before.value[row.place := row])
  }

  function ReadKeys(o: Objects, keys: seq<string>, digest: Value -> string): Option<map<Place, Row>> {
    if keys == [] then Some(map[])
    else
      var before, key := ReadKeys(o, keys[..|keys| - 1], digest), keys[|keys| - 1];
      if before.None? || !Verifies(o, key, digest) then None else AddRows(before.value, RowsOf(o, key))
  }

  method AddObject(unique: map<Place, Row>, rows: seq<Row>) returns (after: Option<map<Place, Row>>)
    ensures after == AddRows(unique, rows)
  {
    var sofar := unique;
    var n := 0;
    while n < |rows|
      invariant 0 <= n <= |rows|
      invariant AddRows(unique, rows[..n]) == Some(sofar)
    {
      assert rows[..n + 1][..n] == rows[..n];
      AddFailureStays(unique, rows, n + 1);
      if rows[n].place in sofar && sofar[rows[n].place] != rows[n] { return None; }
      sofar := sofar[rows[n].place := rows[n]];
      n := n + 1;
    }
    assert rows[..n] == rows;
    after := Some(sofar);
  }

  /** What a manifest promises is what its data object holds: the object under the name it gives, with its checksum and
      its number of rows, and at every ordinal a row from the topic, partition and offset of the reference there, with a
      value of the digest that is written there. */
  ghost predicate Sealed(o: Objects, key: string, digest: Value -> string) {
    key in o.manifests && o.manifests[key].dataKey in o.data && (
      var m := o.manifests[key];
      var b := o.data[m.dataKey];
      && b.sha == m.sha && |b.rows| == m.count && |b.rows| == |m.refs|
      && forall n :: 0 <= n < |b.rows| ==>
           var row, ref := b.rows[n], m.refs[n];
           && row.place.topic == ref.place.topic && row.place.partition == ref.place.partition
           && row.place.offset == ref.place.offset && digest(row.value) == ref.sha)
  }

  lemma VerifiesIsSealed(o: Objects, key: string, digest: Value -> string)
    ensures Verifies(o, key, digest) <==> Sealed(o, key, digest)
  {
    if Sealed(o, key, digest) {
      var m := o.manifests[key];
      var b := o.data[m.dataKey];
      forall n | 0 <= n < |b.rows|
        ensures RowMatches(b.rows[n], m.refs[n], digest)
      {
      }
    }
  }

  /** No two rows of the listed objects claim one place with different contents. */
  ghost predicate NoContradiction(o: Objects, keys: seq<string>) {
    forall k, l, a, b ::
        k in keys && l in keys && a in RowsOf(o, k) && b in RowsOf(o, l) && a.place == b.place ==> a == b
  }

  lemma NoContradictionIs(o: Objects, keys: seq<string>)
    ensures Consistent(RowSet(o, KeySet(keys))) <==> NoContradiction(o, keys)
  {
    if Consistent(RowSet(o, KeySet(keys))) {
      forall k, l, a, b | k in keys && l in keys && a in RowsOf(o, k) && b in RowsOf(o, l) && a.place == b.place
        ensures a == b
      {
        assert k in KeySet(keys) && l in KeySet(keys);
        assert a in RowSet(o, KeySet(keys)) && b in RowSet(o, KeySet(keys));
      }
    }
    if NoContradiction(o, keys) {
      forall a, b | a in RowSet(o, KeySet(keys)) && b in RowSet(o, KeySet(keys)) && a.place == b.place
        ensures a == b
      {
        var k :| k in KeySet(keys) && a in RowsOf(o, k);
        var l :| l in KeySet(keys) && b in RowsOf(o, l);
      }
    }
  }

  /** The table holds the rows of the listed objects, each under its place, and nothing else. */
  ghost predicate HoldsRows(o: Objects, keys: seq<string>, table: map<Place, Row>) {
    && (forall k, row :: k in keys && row in RowsOf(o, k) ==> row.place in table && table[row.place] == row)
    && (forall p :: p in table ==> table[p].place == p && exists k :: k in keys && table[p] in RowsOf(o, k))
  }

  /** The reader succeeds exactly if every listed manifest is sealed and no rows contradict each other, and then holds
      their rows. */
  lemma ReadsSealed(o: Objects, keys: seq<string>, digest: Value -> string)
    ensures ReadKeys(o, keys, digest).Some?
            <==> (forall key :: key in keys ==> Sealed(o, key, digest)) && NoContradiction(o, keys)
    ensures ReadKeys(o, keys, digest).Some? ==> HoldsRows(o, keys, ReadKeys(o, keys, digest).value)
  {
    ReaderHolds(o, keys, digest);
    NoContradictionIs(o, keys);
    forall key | key in keys
      ensures Verifies(o, key, digest) <==> Sealed(o, key, digest)
    {
      VerifiesIsSealed(o, key, digest);
    }
    if ReadKeys(o, keys, digest).Some? {
      TabulatedHolds(o, keys, ReadKeys(o, keys, digest).value);
    }
  }

  lemma TabulatedHolds(o: Objects, keys: seq<string>, table: map<Place, Row>)
    requires Tabulates(table, RowSet(o, KeySet(keys)))
    ensures HoldsRows(o, keys, table)
  {
    forall k, row | k in keys && row in RowsOf(o, k)
      ensures row.place in table && table[row.place] == row
    {
      assert k in KeySet(keys) && row in RowSet(o, KeySet(keys));
    }
    forall p | p in table
      ensures table[p].place == p && exists k :: k in keys && table[p] in RowsOf(o, k)
    {
      var k :| k in KeySet(keys) && table[p] in RowsOf(o, k);
      assert k in keys;
    }
  }

  /** Manifest by manifest, object by object. */
  method ReadEach(o: Objects, keys: seq<string>, digest: Value -> string)
    returns (unique: Option<map<Place, Row>>)
    ensures unique == ReadKeys(o, keys, digest)
  {
    unique := Some(map[]);
    var i := 0;
    while i < |keys|
      invariant 0 <= i <= |keys|
      invariant unique.Some? && ReadKeys(o, keys[..i], digest) == unique
    {
      assert keys[..i + 1][..i] == keys[..i];
      FailureStays(o, keys, i + 1, digest);
      var key := keys[i];
      if key !in o.manifests || o.manifests[key].dataKey !in o.data { return None; }
      var body := o.data[o.manifests[key].dataKey];
      if !Checks(o.manifests[key], body, digest) { return None; }
      unique := AddObject(unique.value, body.rows);
      if unique.None? { return None; }
      i := i + 1;
    }
    assert keys[..i] == keys;
  }

  method VerifiedRecords(o: Objects, keys: seq<string>, digest: Value -> string)
    returns (unique: Option<map<Place, Row>>)
    ensures unique == ReadKeys(o, keys, digest)
    ensures unique.Some? <==> (forall key :: key in keys ==> Sealed(o, key, digest)) && NoContradiction(o, keys)
    ensures unique.Some? ==> HoldsRows(o, keys, unique.value)
  {
    unique := ReadEach(o, keys, digest);
    ReadsSealed(o, keys, digest);
  }

  lemma {:induction false} FailureStays(o: Objects, keys: seq<string>, i: nat, digest: Value -> string)
    requires i <= |keys|
    ensures ReadKeys(o, keys[..i], digest).None? ==> ReadKeys(o, keys, digest).None?
    decreases |keys| - i
  {
    if i < |keys| {
      assert keys[..i + 1][..i] == keys[..i];
      FailureStays(o, keys, i + 1, digest);
    } else {
      assert keys[..i] == keys;
    }
  }

  lemma {:induction false} AddFailureStays(unique: map<Place, Row>, rows: seq<Row>, n: nat)
    requires n <= |rows|
    ensures AddRows(unique, rows[..n]).None? ==> AddRows(unique, rows).None?
    decreases |rows| - n
  {
    if n < |rows| {
      assert rows[..n + 1][..n] == rows[..n];
      AddFailureStays(unique, rows, n + 1);
    } else {
      assert rows[..n] == rows;
    }
  }

  // What reading amounts to.

  function KeySet(keys: seq<string>): set<string> { set k | k in keys }

  ghost predicate Archived(o: Objects, keys: set<string>, row: Row)
  {
    exists key :: key in keys && row in RowsOf(o, key)
  }

  ghost function RowSet(o: Objects, keys: set<string>): iset<Row> { iset row | Archived(o, keys, row) }

  ghost function RowsIn(rows: seq<Row>): iset<Row> { iset row | row in rows }

  /** No two rows claim one place with different contents. */
  ghost predicate Consistent(rows: iset<Row>) { forall a, b :: a in rows && b in rows && a.place == b.place ==> a == b }

  /** The table holds exactly these rows. */
  ghost predicate Tabulates(table: map<Place, Row>, rows: iset<Row>) {
    && (forall p :: p in table ==> table[p].place == p && table[p] in rows)
    && (forall row :: row in rows ==> row.place in table && table[row.place] == row)
  }

  lemma {:induction false} AddRowsHolds(unique: map<Place, Row>, rows: seq<Row>, all: iset<Row>)
    requires Tabulates(unique, all)
    ensures var after := AddRows(unique, rows);
            && (after.Some? ==> Tabulates(after.value, all + RowsIn(rows)))
            && (after.None? ==> !Consistent(all + RowsIn(rows)))
  {
    if rows != [] {
      var init, row := rows[..|rows| - 1], rows[|rows| - 1];
      assert rows == init + [row];
      AddRowsHolds(unique, init, all);
      var before := AddRows(unique, init);
      var now := all + RowsIn(rows);
      if before.None? {
        BiggerIsInconsistent(all + RowsIn(init), now);
      } else if row.place in before.value && before.value[row.place] != row {
        assert before.value[row.place] in now && row in now;
      }
    }
  }

  lemma BiggerIsInconsistent(a: iset<Row>, b: iset<Row>)
    requires a <= b && !Consistent(a)
    ensures !Consistent(b)
  {
  }

  lemma ArchivedOneMore(o: Objects, keys: set<string>, key: string)
    ensures RowSet(o, keys + {key}) == RowSet(o, keys) + RowsIn(RowsOf(o, key))
  {
    forall row
      ensures Archived(o, keys + {key}, row) <==> Archived(o, keys, row) || row in RowsOf(o, key)
    {
      if Archived(o, keys, row) {
        var k :| k in keys && row in RowsOf(o, k);
        assert k in keys + {key};
      }
      if row in RowsOf(o, key) { assert key in keys + {key}; }
    }
  }

  lemma TabulatedIsConsistent(table: map<Place, Row>, rows: iset<Row>)
    requires Tabulates(table, rows)
    ensures Consistent(rows)
  {
  }

  /** The reader succeeds exactly if every manifest verifies and no two rows conflict; it then holds exactly the
      archived rows. */
  lemma {:induction false} ReaderHolds(o: Objects, keys: seq<string>, digest: Value -> string)
    ensures ReadKeys(o, keys, digest).Some?
            <==> (forall key :: key in keys ==> Verifies(o, key, digest)) && Consistent(RowSet(o, KeySet(keys)))
    ensures ReadKeys(o, keys, digest).Some? ==> Tabulates(ReadKeys(o, keys, digest).value, RowSet(o, KeySet(keys)))
  {
    if keys != [] {
      var init, key := keys[..|keys| - 1], keys[|keys| - 1];
      assert keys == init + [key];
      assert KeySet(keys) == KeySet(init) + {key};
      ReaderHolds(o, init, digest);
      ArchivedOneMore(o, KeySet(init), key);
      var before := ReadKeys(o, init, digest);
      if before.Some? && Verifies(o, key, digest) {
        AddRowsHolds(before.value, RowsOf(o, key), RowSet(o, KeySet(init)));
        var after := ReadKeys(o, keys, digest);
        if after.Some? { TabulatedIsConsistent(after.value, RowSet(o, KeySet(keys))); }
      } else if before.None? && !Consistent(RowSet(o, KeySet(init))) {
        BiggerIsInconsistent(RowSet(o, KeySet(init)), RowSet(o, KeySet(keys)));
      }
    }
  }

  lemma TabulationIsUnique(s: map<Place, Row>, t: map<Place, Row>, rows: iset<Row>)
    requires Tabulates(s, rows) && Tabulates(t, rows)
    ensures s == t
  {
  }
}
