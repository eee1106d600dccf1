/** Writing the archive: the data object first, its manifest second, each immutable and named by its content. */
module ArchiveWriter {
  import opened Archive
  import A = ArchiveAgreement

  /** The values of the log, by place. */
  type Log = map<Place, Value>

  /** What names things: hashes of values and of whole objects, the latter free of collisions. */
  datatype Naming = Naming(digest: Value -> string, sha: seq<Row> -> string, splits: seq<Row> -> bool)

  ghost predicate CollisionFree(n: Naming) { forall a, b :: n.sha(a) == n.sha(b) ==> a == b }

  function DataKey(n: Naming, rows: seq<Row>): string { "data/" + n.sha(rows) + ".jsonl" }

  function ManifestKey(n: Naming, rows: seq<Row>): string { "manifests/" + n.sha(rows) + ".json" }

  function RefOf(n: Naming, row: Row): Ref { Ref(row.place, n.digest(row.value)) }

  function RefsOf(n: Naming, rows: seq<Row>): (refs: seq<Ref>)
    ensures |refs| == |rows| && forall i :: 0 <= i < |rows| ==> refs[i] == RefOf(n, rows[i])
  {
    if rows == [] then [] else RefsOf(n, rows[..|rows| - 1]) + [RefOf(n, rows[|rows| - 1])]
  }

  function ManifestFor(n: Naming, rows: seq<Row>): Manifest {
    Manifest(true, DataKey(n, rows), n.sha(rows), |rows|, RefsOf(n, rows))
  }

  function BodyFor(n: Naming, rows: seq<Row>): Body { Body(n.sha(rows), rows, n.splits(rows)) }

  /** Putting an object again is allowed if its content is the same, and changes nothing; otherwise it is refused. */
  function PutData(o: Objects, n: Naming, rows: seq<Row>): Objects {
    if DataKey(n, rows) in o.data then o else o.(data := o.data[DataKey(n, rows) := BodyFor(n, rows)])
  }

  predicate DataConflict(o: Objects, n: Naming, rows: seq<Row>) {
    DataKey(n, rows) in o.data && o.data[DataKey(n, rows)] != BodyFor(n, rows)
  }

  function PutManifest(o: Objects, n: Naming, rows: seq<Row>): Objects {
    if ManifestKey(n, rows) in o.manifests then o
    else o.(manifests := o.manifests[ManifestKey(n, rows) := ManifestFor(n, rows)])
  }

  predicate ManifestConflict(o: Objects, n: Naming, rows: seq<Row>) {
    ManifestKey(n, rows) in o.manifests && o.manifests[ManifestKey(n, rows)] != ManifestFor(n, rows)
  }

  /** The two writes of a batch, in order. A crash may come after either. */
  datatype Step = WritesData(rows: seq<Row>) | WritesManifest(rows: seq<Row>)

  function Next(o: Objects, n: Naming, step: Step): Objects {
    match step
    case WritesData(rows) => PutData(o, n, rows)
    case WritesManifest(rows) => PutManifest(o, n, rows)
  }

  /** Batches hold rows of the log; a manifest is only written once its data object has been. */
  predicate Allowed(o: Objects, n: Naming, log: Log, step: Step) {
    && (forall i :: 0 <= i < |step.rows| ==> step.rows[i].place in log && log[step.rows[i].place] == step.rows[i].value)
    && (step.WritesManifest? ==> DataKey(n, step.rows) in o.data)
  }

  ghost predicate DataNamed(o: Objects, n: Naming, log: Log, k: string)
    requires k in o.data
  {
    exists rows :: k == DataKey(n, rows) && o.data[k] == BodyFor(n, rows) && FromLog(log, rows)
  }

  ghost predicate ManifestNamed(o: Objects, n: Naming, k: string)
    requires k in o.manifests
  {
    exists rows :: k == ManifestKey(n, rows) && o.manifests[k] == ManifestFor(n, rows) && DataKey(n, rows) in o.data
  }

  /** Every object is what its name says, every manifest has its data, and every row is the log's. */
  ghost predicate Inv(o: Objects, n: Naming, log: Log) {
    && (forall k :: k in o.data ==> DataNamed(o, n, log, k))
    && (forall k :: k in o.manifests ==> ManifestNamed(o, n, k))
  }

  predicate FromLog(log: Log, rows: seq<Row>) {
    forall i :: 0 <= i < |rows| ==> rows[i].place in log && log[rows[i].place] == rows[i].value
  }

  lemma SameKeySameRows(n: Naming, a: seq<Row>, b: seq<Row>)
    requires CollisionFree(n)
    ensures DataKey(n, a) == DataKey(n, b) ==> a == b
    ensures ManifestKey(n, a) == ManifestKey(n, b) ==> a == b
  {
    Framed("data/", n.sha(a), n.sha(b), ".jsonl");
    Framed("manifests/", n.sha(a), n.sha(b), ".json");
  }

  lemma Framed(prefix: string, a: string, b: string, suffix: string)
    ensures prefix + a + suffix == prefix + b + suffix ==> a == b
  {
    var x, y := prefix + a + suffix, prefix + b + suffix;
    if x == y {
      assert |a| == |b| && x[|prefix|..|prefix| + |a|] == a && y[|prefix|..|prefix| + |b|] == b;
    }
  }

  lemma SameData(o: Objects, n: Naming, log: Log, rows: seq<Row>)
    requires CollisionFree(n) && DataKey(n, rows) in o.data && DataNamed(o, n, log, DataKey(n, rows))
    ensures o.data[DataKey(n, rows)] == BodyFor(n, rows) && FromLog(log, rows)
  {
    var held :| DataKey(n, rows) == DataKey(n, held) && o.data[DataKey(n, rows)] == BodyFor(n, held)
                && FromLog(log, held);
    SameKeySameRows(n, rows, held);
  }

  lemma SameManifest(o: Objects, n: Naming, rows: seq<Row>)
    requires CollisionFree(n) && ManifestKey(n, rows) in o.manifests && ManifestNamed(o, n, ManifestKey(n, rows))
    ensures o.manifests[ManifestKey(n, rows)] == ManifestFor(n, rows)
  {
    var held :| ManifestKey(n, rows) == ManifestKey(n, held)
                && o.manifests[ManifestKey(n, rows)] == ManifestFor(n, held);
    SameKeySameRows(n, rows, held);
  }

  lemma DataKeeps(o: Objects, n: Naming, log: Log, rows: seq<Row>)
    requires Inv(o, n, log) && FromLog(log, rows) && DataKey(n, rows) !in o.data
    ensures Inv(PutData(o, n, rows), n, log)
  {
    var o' := PutData(o, n, rows);
    forall k | k in o'.data
      ensures DataNamed(o', n, log, k)
    {
      if k in o.data {
        var held :| k == DataKey(n, held) && o.data[k] == BodyFor(n, held) && FromLog(log, held);
        assert o'.data[k] == BodyFor(n, held);
      }
    }
    forall k | k in o'.manifests
      ensures ManifestNamed(o', n, k)
    {
      assert ManifestNamed(o, n, k);
      var held :| k == ManifestKey(n, held) && o.manifests[k] == ManifestFor(n, held) && DataKey(n, held) in o.data;
      assert DataKey(n, held) in o'.data;
    }
  }

  lemma ManifestKeeps(o: Objects, n: Naming, log: Log, rows: seq<Row>)
    requires Inv(o, n, log) && DataKey(n, rows) in o.data && ManifestKey(n, rows) !in o.manifests
    ensures Inv(PutManifest(o, n, rows), n, log)
  {
    var o' := PutManifest(o, n, rows);
    forall k | k in o'.data
      ensures DataNamed(o', n, log, k)
    {
      assert DataNamed(o, n, log, k);
    }
    forall k | k in o'.manifests
      ensures ManifestNamed(o', n, k)
    {
      if k in o.manifests {
        assert ManifestNamed(o, n, k);
        var held :| k == ManifestKey(n, held) && o.manifests[k] == ManifestFor(n, held) && DataKey(n, held) in o.data;
        assert o'.manifests[k] == ManifestFor(n, held);
      }
    }
  }

  /** Whatever was written before and however often: no write is refused, and nothing written is ever changed. */
  lemma {:induction false} StepKeeps(o: Objects, n: Naming, log: Log, step: Step)
    requires CollisionFree(n) && Inv(o, n, log) && Allowed(o, n, log, step)
    ensures Inv(Next(o, n, step), n, log) && A.Extends(o, Next(o, n, step))
    ensures step.WritesData? ==> !DataConflict(o, n, step.rows)
    ensures step.WritesManifest? ==> !ManifestConflict(o, n, step.rows)
  {
    match step
    case WritesData(rows) =>
      if DataKey(n, rows) in o.data { SameData(o, n, log, rows); } else { DataKeeps(o, n, log, rows); }
    case WritesManifest(rows) =>
      if ManifestKey(n, rows) in o.manifests { SameManifest(o, n, rows); } else { ManifestKeeps(o, n, log, rows); }
  }

  function Run(n: Naming, steps: seq<Step>): Objects {
    if steps == [] then Objects(map[], map[]) else Next(Run(n, steps[..|steps| - 1]), n, steps[|steps| - 1])
  }

  predicate AllowedRun(n: Naming, log: Log, steps: seq<Step>) {
    steps == []
        || (AllowedRun(n, log, steps[..|steps| - 1])
             && Allowed(Run(n, steps[..|steps| - 1]), n, log, steps[|steps| - 1]))
  }

  lemma {:induction false} RunKeeps(n: Naming, log: Log, steps: seq<Step>)
    requires CollisionFree(n) && AllowedRun(n, log, steps)
    ensures Inv(Run(n, steps), n, log)
  {
    if steps != [] {
      RunKeeps(n, log, steps[..|steps| - 1]);
      StepKeeps(Run(n, steps[..|steps| - 1]), n, log, steps[|steps| - 1]);
    }
  }

  lemma ManifestVerifies(o: Objects, n: Naming, log: Log, key: string)
    requires CollisionFree(n) && Inv(o, n, log) && key in o.manifests
    ensures Verifies(o, key, n.digest) && FromLog(log, RowsOf(o, key))
  {
    assert ManifestNamed(o, n, key);
    var rows :| key == ManifestKey(n, rows) && o.manifests[key] == ManifestFor(n, rows) && DataKey(n, rows) in o.data;
    SameData(o, n, log, rows);
  }

  lemma ManifestIsWhole(o: Objects, n: Naming, log: Log, key: string)
    requires CollisionFree(n) && Inv(o, n, log) && key in o.manifests
    ensures A.Good(o, key, n.digest) <==> n.splits(RowsOf(o, key))
  {
    assert ManifestNamed(o, n, key);
    var rows :| key == ManifestKey(n, rows) && o.manifests[key] == ManifestFor(n, rows) && DataKey(n, rows) in o.data;
    SameData(o, n, log, rows);
  }

  /** Whatever writers wrote, repeated or left unfinished: the simple reader succeeds, and what it
      reads is the log's. */
  lemma ArchiveAlwaysReads(n: Naming, log: Log, steps: seq<Step>, keys: seq<string>)
    requires CollisionFree(n) && AllowedRun(n, log, steps) && KeySet(keys) == Run(n, steps).manifests.Keys
    ensures var unique := ReadKeys(Run(n, steps), keys, n.digest);
            && unique.Some?
            && (forall p :: p in unique.value ==> p in log && log[p] == unique.value[p].value)
            && (forall key, row :: key in keys && row in RowsOf(Run(n, steps), key) ==> row.place in unique.value)
  {
    var o := Run(n, steps);
    RunKeeps(n, log, steps);
    forall key | key in keys
      ensures Verifies(o, key, n.digest) && FromLog(log, RowsOf(o, key))
    {
      assert key in KeySet(keys);
      ManifestVerifies(o, n, log, key);
    }
    forall row | row in RowSet(o, KeySet(keys))
      ensures row.place in log && log[row.place] == row.value
    {
      var key :| key in KeySet(keys) && row in RowsOf(o, key);
    }
    ReaderHolds(o, keys, n.digest);
    forall key, row | key in keys && row in RowsOf(o, key)
      ensures row in RowSet(o, KeySet(keys))
    {
      assert key in KeySet(keys);
    }
  }

  lemma StepStores(o: Objects, n: Naming, log: Log, step: Step)
    requires CollisionFree(n) && Inv(o, n, log) && Allowed(o, n, log, step) && step.WritesManifest?
    ensures var o' := Next(o, n, step); var key := ManifestKey(n, step.rows);
            key in o'.manifests && RowsOf(o', key) == step.rows
  {
    var o', key := Next(o, n, step), ManifestKey(n, step.rows);
    StepKeeps(o, n, log, step);
    SameManifest(o', n, step.rows);
    SameData(o', n, log, step.rows);
  }

  lemma StillStored(o: Objects, n: Naming, log: Log, step: Step, key: string)
    requires CollisionFree(n) && Inv(o, n, log) && Allowed(o, n, log, step)
    requires key in o.manifests && o.manifests[key].dataKey in o.data
    ensures var o' := Next(o, n, step); key in o'.manifests && RowsOf(o', key) == RowsOf(o, key)
  {
    StepKeeps(o, n, log, step);
  }

  /** Every batch whose manifest was written is in the archive, whole. */
  lemma {:induction false} WrittenIsStored(n: Naming, log: Log, steps: seq<Step>, m: nat)
    requires CollisionFree(n) && AllowedRun(n, log, steps) && m < |steps| && steps[m].WritesManifest?
    ensures var o := Run(n, steps); var key := ManifestKey(n, steps[m].rows);
            key in o.manifests && o.manifests[key].dataKey in o.data && RowsOf(o, key) == steps[m].rows
  {
    var init, last := steps[..|steps| - 1], steps[|steps| - 1];
    RunKeeps(n, log, init);
    RunKeeps(n, log, steps);
    if m == |init| {
      StepStores(Run(n, init), n, log, last);
    } else {
      WrittenIsStored(n, log, init, m);
      StillStored(Run(n, init), n, log, last, ManifestKey(n, steps[m].rows));
    }
    ManifestVerifies(Run(n, steps), n, log, ManifestKey(n, steps[m].rows));
  }

  /** Whatever was written and committed reads back: every row of every batch whose manifest was written, as it was. */
  lemma WrittenIsRead(n: Naming, log: Log, steps: seq<Step>, keys: seq<string>, m: nat, row: Row)
    requires CollisionFree(n) && AllowedRun(n, log, steps) && KeySet(keys) == Run(n, steps).manifests.Keys
    requires m < |steps| && steps[m].WritesManifest? && row in steps[m].rows
    ensures var unique := ReadKeys(Run(n, steps), keys, n.digest);
            unique.Some? && row.place in unique.value && unique.value[row.place] == row
  {
    ArchiveAlwaysReads(n, log, steps, keys);
    WrittenIsStored(n, log, steps, m);
    ReadsSealed(Run(n, steps), keys, n.digest);
    assert ManifestKey(n, steps[m].rows) in KeySet(keys);
  }
}
