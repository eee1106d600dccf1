/** An index over its whole life: the archive grows, refreshes succeed or break off, and the index is always what it
    says. */
module ArchiveHistory {
  import opened Seqs
  import opened Archive
  import opened ArchiveIndex
  import opened ArchiveAgreement
  import W = ArchiveWriter

  /** The archive as it is, and the one index that is refreshed from it. */
  datatype State = State(objects: Objects, index: Index)

  const NOTHING_YET := State(Objects(map[], map[]), EMPTY_INDEX)

  /** A single load is one transaction of a refresh under way: the archive may grow between two of them, and the refresh
      may never get further. */
  datatype Step = Grows(later: Objects) | Loads(key: string) | Refreshes(keys: seq<string>, audit: bool)

  ghost predicate Allowed(s: State, step: Step) { step.Grows? ==> Extends(s.objects, step.later) }

  function Next(s: State, step: Step, digest: Value -> string): State {
    match step
    case Grows(later) => s.(objects := later)
    case Loads(key) =>
      var loaded := Load(s.objects, s.index, key, digest);
      if loaded.Some? then s.(index := loaded.value) else s
    case Refreshes(keys, audit) => s.(index := Refresh(s.objects, s.index, keys, audit, digest).index)
  }

  function Run(steps: seq<Step>, digest: Value -> string): State {
    if steps == [] then NOTHING_YET
    else Next(Run(steps[..|steps| - 1], digest), steps[|steps| - 1], digest)
  }

  ghost predicate AllowedRun(steps: seq<Step>, digest: Value -> string) {
    steps == []
        || (AllowedRun(steps[..|steps| - 1], digest) && Allowed(Run(steps[..|steps| - 1], digest), steps[|steps| - 1]))
  }

  /** At every commit point of every history, after failed loads and broken refreshes too, the index holds exactly the
      rows and acknowledgements of the manifests it records. */
  lemma {:induction false} AlwaysIndexed(steps: seq<Step>, digest: Value -> string)
    requires AllowedRun(steps, digest)
    ensures Indexed(Run(steps, digest).objects, Run(steps, digest).index, digest)
  {
    if steps == [] {
      EmptyIsIndexed(NOTHING_YET.objects, digest);
    } else {
      AlwaysIndexed(steps[..|steps| - 1], digest);
      var s := Run(steps[..|steps| - 1], digest);
      match steps[|steps| - 1]
      case Grows(later) => GrowthKeepsIndexed(s.objects, later, s.index, digest);
      case Loads(key) => LoadKeeps(s.objects, s.index, key, digest);
      case Refreshes(keys, audit) => RefreshKeeps(s.objects, s.index, keys, audit, digest);
    }
  }

  /** A refresh that succeeds, whatever came before it, leaves what a cold refresh of the same manifests leaves in any
      other order, auditing or not, and what the simple reader reads. */
  lemma RefreshIsColdAndReads(steps: seq<Step>, keys: seq<string>, audit: bool, again: seq<string>, audit': bool,
                              digest: Value -> string)
    requires AllowedRun(steps, digest)
    requires Refresh(Run(steps, digest).objects, Run(steps, digest).index, keys, audit, digest).ok
    requires NoRepeats(again) && KeySet(again) == KeySet(keys)
    ensures var s := Run(steps, digest);
            var refreshed := Refresh(s.objects, s.index, keys, audit, digest);
            && refreshed == Refresh(s.objects, EMPTY_INDEX, again, audit', digest)
            && ReadKeys(s.objects, again, digest) == Some(refreshed.index.records)
  {
    var s := Run(steps, digest);
    AlwaysIndexed(steps, digest);
    RefreshKeeps(s.objects, s.index, keys, audit, digest);
    RefreshedIsCold(s.objects, s.index, keys, audit, again, audit', digest);
    IndexEqualsReader(s.objects, Refresh(s.objects, s.index, keys, audit, digest).index, again, digest);
  }

  // An archive that its writers wrote.

  /** What a complete listing of such an archive can still be refused for: an object too large to split into lines, or
      acknowledgements that are malformed or contradict each other in the log itself. */
  ghost predicate Acceptable(o: Objects, n: W.Naming) {
    && (forall key :: key in o.manifests ==> n.splits(RowsOf(o, key)))
    && AcksConsistent(RowSet(o, o.manifests.Keys)) && AllShaped(RowSet(o, o.manifests.Keys))
  }

  lemma WrittenRowsAreTheLogs(n: W.Naming, log: W.Log, o: Objects)
    requires W.CollisionFree(n) && W.Inv(o, n, log)
    ensures Consistent(RowSet(o, o.manifests.Keys))
  {
    forall row | row in RowSet(o, o.manifests.Keys)
      ensures row.place in log && log[row.place] == row.value
    {
      var key :| key in o.manifests.Keys && row in RowsOf(o, key);
      W.ManifestVerifies(o, n, log, key);
    }
  }

  /** Over what writers wrote, repeated or left unfinished, a refresh from any index on the way succeeds exactly if the
      log is acceptable; hashes, counts and places never get in its way. */
  lemma WrittenArchiveRefreshes(n: W.Naming, log: W.Log, writes: seq<W.Step>, ix: Index, keys: seq<string>, audit: bool)
    requires W.CollisionFree(n) && W.AllowedRun(n, log, writes)
    requires Indexed(W.Run(n, writes), ix, n.digest)
    requires KeySet(keys) == W.Run(n, writes).manifests.Keys && NoRepeats(keys)
    ensures Refresh(W.Run(n, writes), ix, keys, audit, n.digest).ok <==> Acceptable(W.Run(n, writes), n)
  {
    var o := W.Run(n, writes);
    W.RunKeeps(n, log, writes);
    RefreshSucceedsExactly(o, ix, keys, audit, n.digest);
    WrittenRowsAreTheLogs(n, log, o);
    forall key | key in o.manifests
      ensures Good(o, key, n.digest) <==> n.splits(RowsOf(o, key))
    {
      W.ManifestIsWhole(o, n, log, key);
    }
  }
}
