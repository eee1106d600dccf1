/** The incremental index of the archive: one transaction per manifest, nothing of a failed one visible. */
module ArchiveIndex {
  import opened Seqs
  import opened Archive

  datatype Index = Index(manifests: map<string, Manifest>, records: map<Place, Row>, acks: map<string, AckRef>)

  const EMPTY_INDEX := Index(map[], map[], map[])

  function ReceiptsOf(refs: seq<AckRef>): set<string> { set n | 0 <= n < |refs| :: refs[n].receipt }

  function StringsOf(ss: seq<string>): set<string> { set s | s in ss }

  predicate WellShaped(v: Value) {
    v.Acknowledgement? ==>
      v.count == |v.refs| && |StringsOf(v.receipts)| == |v.refs| && StringsOf(v.receipts) == ReceiptsOf(v.refs)
  }

  function AddAcks(acks: map<string, AckRef>, refs: seq<AckRef>): Option<map<string, AckRef>> {
    if refs == [] then Some(acks)
    else
      var before, ref := AddAcks(acks, refs[..|refs| - 1]), refs[|refs| - 1];
      if before.None? then None
      else if ref.receipt in before.value then (if before.value[ref.receipt] == ref then before else None)
      else Some(before.value[ref.receipt := ref])
  }

  function AddRow(ix: Index, row: Row): Option<Index> {
    if row.place in ix.records && ix.records[row.place] != row then None
    else
      var ix1 := ix.(records := ix.records[row.place := row]);
      if !row.value.Acknowledgement? then Some(ix1)
      else if !WellShaped(row.value) then None
      else
        var acks := AddAcks(ix.acks, row.value.refs);
        if acks.None? then None else Some(ix1.(acks := acks.value))
  }

  function AddAll(ix: Index, rows: seq<Row>): Option<Index> {
    if rows == [] then Some(ix)
    else
      var before := AddAll(ix, rows[..|rows| - 1]);
      if before.None? then None else AddRow(before.value, rows[|rows| - 1])
  }

  /** One manifest: read, checked row by row while its rows are added, and recorded; or nothing at all. */
  function Load(o: Objects, ix: Index, key: string, digest: Value -> string): Option<Index> {
    if key !in o.manifests || (key in ix.manifests && ix.manifests[key] != o.manifests[key]) then None
    else
      var m := o.manifests[key];
      if !m.readable || m.dataKey !in o.data || !o.data[m.dataKey].splits || !Checks(m, o.data[m.dataKey], digest)
      then None
      else
        var added := AddAll(ix, o.data[m.dataKey].rows);
        if added.None? then None else Some(added.value.(manifests := added.value.manifests[key := m]))
  }

  datatype Outcome = Outcome(index: Index, ok: bool)

  /** The next listed manifest, unless the refresh has failed; a key that is listed again breaks it off. */
  function LoadNext(o: Objects, before: Outcome, init: seq<string>, key: string, audit: bool,
                    digest: Value -> string): Outcome
  {
    if !before.ok || key in init then before.(ok := false)
    else if key in before.index.manifests && !audit then before
    else
      var after := Load(o, before.index, key, digest);
      if after.None? then before.(ok := false) else Outcome(after.value, true)
  }

  /** The listed manifests one by one. */
  function LoadKeys(o: Objects, ix: Index, keys: seq<string>, audit: bool, digest: Value -> string): Outcome {
    if keys == [] then Outcome(ix, true)
    else
      var init, key := keys[..|keys| - 1], keys[|keys| - 1];
      LoadNext(o, LoadKeys(o, ix, init, audit, digest), init, key, audit, digest)
  }

  function Refresh(o: Objects, ix: Index, keys: seq<string>, audit: bool, digest: Value -> string): Outcome {
    var after := LoadKeys(o, ix, keys, audit, digest);
    after.(ok := after.ok && after.index.manifests.Keys <= KeySet(keys))
  }

  /** The index as it is kept: tables updated in transactions. */
  class Tables {
    var manifests: map<string, Manifest>
    var records: map<Place, Row>
    var acks: map<string, AckRef>

    ghost function Model(): Index
      reads this
    {
      Index(manifests, records, acks)
    }

    constructor ()
      ensures Model() == EMPTY_INDEX
    {
      manifests, records, acks := map[], map[], map[];
    }

    /** The rows of one data object, each compared with its reference; the tables change only if all of them pass. */
    method LoadManifest(o: Objects, key: string, digest: Value -> string) returns (ok: bool)
      modifies this
      ensures var after := Load(o, old(Model()), key, digest);
              ok == after.Some? && Model() == if ok then after.value else old(Model())
      ensures ok ==> Sealed(o, key, digest) && o.manifests[key].readable && o.data[o.manifests[key].dataKey].splits
    {
      VerifiesIsSealed(o, key, digest);
      if key !in o.manifests { return false; }
      var m := o.manifests[key];
      if key in manifests && manifests[key] != m { return false; }
      if !m.readable || |m.refs| != m.count { return false; }
      if m.dataKey !in o.data || !o.data[m.dataKey].splits { return false; }
      var body := o.data[m.dataKey];
      var added := CheckRows(Index(manifests, records, acks), body, m, digest);
      if added.None? || |body.rows| != m.count || body.sha != m.sha { return false; }
      records, acks, manifests := added.value.records, added.value.acks, added.value.manifests[key := m];
      return true;
    }

    method RefreshFrom(o: Objects, keys: seq<string>, audit: bool, digest: Value -> string) returns (ok: bool)
      modifies this
      ensures Outcome(Model(), ok) == Refresh(o, old(Model()), keys, audit, digest)
    {
      ghost var start := Model();
      var scanned: set<string> := {};
      var i := 0;
      while i < |keys|
        invariant 0 <= i <= |keys| && scanned == KeySet(keys[..i])
        invariant Outcome(Model(), true) == LoadKeys(o, start, keys[..i], audit, digest)
      {
        LoadOneMore(o, start, keys, i, audit, digest);
        if keys[i] in scanned {
          StopsAtFailure(o, start, keys, i + 1, audit, digest);
          return false;
        }
        scanned := scanned + {keys[i]};
        if audit || keys[i] !in manifests {
          var loaded := LoadManifest(o, keys[i], digest);
          if !loaded {
            StopsAtFailure(o, start, keys, i + 1, audit, digest);
            return false;
          }
        }
        i := i + 1;
      }
      assert keys[..i] == keys;
      return manifests.Keys <= scanned;
    }
  }

  method AddAcksOf(acks: map<string, AckRef>, refs: seq<AckRef>) returns (after: Option<map<string, AckRef>>)
    ensures after == AddAcks(acks, refs)
  {
    var sofar := acks;
    var n := 0;
    while n < |refs|
      invariant 0 <= n <= |refs| && AddAcks(acks, refs[..n]) == Some(sofar)
    {
      assert refs[..n + 1][..n] == refs[..n];
      AckFailureStays(acks, refs, n + 1);
      if refs[n].receipt in sofar && sofar[refs[n].receipt] != refs[n] { return None; }
      if refs[n].receipt !in sofar { sofar := sofar[refs[n].receipt := refs[n]]; }
      n := n + 1;
    }
    assert refs[..n] == refs;
    after := Some(sofar);
  }

  lemma {:induction false} AckFailureStays(acks: map<string, AckRef>, refs: seq<AckRef>, n: nat)
    requires n <= |refs|
    ensures AddAcks(acks, refs[..n]).None? ==> AddAcks(acks, refs).None?
    decreases |refs| - n
  {
    if n < |refs| {
      assert refs[..n + 1][..n] == refs[..n];
      AckFailureStays(acks, refs, n + 1);
    } else {
      assert refs[..n] == refs;
    }
  }

  method AddOneRow(ix: Index, row: Row) returns (after: Option<Index>)
    ensures after == AddRow(ix, row)
  {
    if row.place in ix.records && ix.records[row.place] != row { return None; }
    var ix1 := ix.(records := ix.records[row.place := row]);
    if !row.value.Acknowledgement? { return Some(ix1); }
    if !WellShaped(row.value) { return None; }
    var acks := AddAcksOf(ix.acks, row.value.refs);
    if acks.None? { return None; }
    after := Some(ix1.(acks := acks.value));
  }

  lemma AddOneMore(ix: Index, rows: seq<Row>, n: nat)
    requires n < |rows| && AddAll(ix, rows[..n]).Some?
    ensures AddAll(ix, rows[..n + 1]) == AddRow(AddAll(ix, rows[..n]).value, rows[n])
  {
    assert rows[..n + 1][..n] == rows[..n];
  }

  /** Rows added one by one, each only after it matched the reference of the same ordinal. */
  method CheckRows(ix: Index, body: Body, m: Manifest, digest: Value -> string) returns (added: Option<Index>)
    requires |m.refs| == m.count
    ensures added.Some? ==> |body.rows| <= m.count
    ensures added.Some? ==> forall n :: 0 <= n < |body.rows| ==> RowMatches(body.rows[n], m.refs[n], digest)
    ensures added.Some? ==> added == AddAll(ix, body.rows)
    ensures added.None? ==> !Checks(m, body, digest) || AddAll(ix, body.rows).None?
  {
    added := Some(ix);
    var n := 0;
    while n < |body.rows|
      invariant 0 <= n <= |body.rows| && n <= m.count
      invariant added.Some? && added == AddAll(ix, body.rows[..n])
      invariant forall j :: 0 <= j < n ==> RowMatches(body.rows[j], m.refs[j], digest)
    {
      RowFailureStays(ix, body.rows, n + 1);
      if n >= m.count || !RowMatches(body.rows[n], m.refs[n], digest) {
        assert !Checks(m, body, digest);
        return None;
      }
      AddOneMore(ix, body.rows, n);
      added := AddOneRow(added.value, body.rows[n]);
      if added.None? { return; }
      n := n + 1;
    }
    assert body.rows[..n] == body.rows;
  }

  lemma {:induction false} RowFailureStays(ix: Index, rows: seq<Row>, n: nat)
    requires n <= |rows|
    ensures AddAll(ix, rows[..n]).None? ==> AddAll(ix, rows).None?
    decreases |rows| - n
  {
    if n < |rows| {
      assert rows[..n + 1][..n] == rows[..n];
      RowFailureStays(ix, rows, n + 1);
    } else {
      assert rows[..n] == rows;
    }
  }

  lemma LoadOneMore(o: Objects, ix: Index, keys: seq<string>, i: nat, audit: bool, digest: Value -> string)
    requires i < |keys|
    ensures LoadKeys(o, ix, keys[..i + 1], audit, digest)
         == LoadNext(o, LoadKeys(o, ix, keys[..i], audit, digest), keys[..i], keys[i], audit, digest)
    ensures KeySet(keys[..i + 1]) == KeySet(keys[..i]) + {keys[i]}
  {
    assert keys[..i + 1][..i] == keys[..i] && keys[..i + 1] == keys[..i] + [keys[i]];
  }

  lemma {:induction false} StopsAtFailure(o: Objects, ix: Index, keys: seq<string>, i: nat, audit: bool,
                                          digest: Value -> string)
    requires i <= |keys| && !LoadKeys(o, ix, keys[..i], audit, digest).ok
    ensures LoadKeys(o, ix, keys, audit, digest) == LoadKeys(o, ix, keys[..i], audit, digest)
    decreases |keys| - i
  {
    if i < |keys| {
      assert keys[..i + 1][..i] == keys[..i];
      StopsAtFailure(o, ix, keys, i + 1, audit, digest);
    } else {
      assert keys[..i] == keys;
    }
  }
}
