/** The channel of a campaign at an instant, from the versions that change data capture has delivered. */
module Dimensions {
  import opened Seqs

  datatype Dimension = Dimension(
    campaign: string, effectiveFrom: int, effectiveTo: Option<int>, version: int, deleted: bool,
    channel: Option<string>)

  /** Versions are stored under this identity, the latest delivery replacing earlier ones. */
  datatype VersionKey = VersionKey(campaign: string, effectiveFrom: int, version: int)

  function VersionOf(d: Dimension): VersionKey { VersionKey(d.campaign, d.effectiveFrom, d.version) }

  predicate Applies(d: Dimension, campaign: string, t: int) {
    d.campaign == campaign && d.effectiveFrom <= t && (d.effectiveTo.Some? ==> t < d.effectiveTo.value)
  }

  predicate Newer(a: Dimension, b: Dimension) {
    a.version > b.version || (a.version == b.version && a.effectiveFrom > b.effectiveFrom)
  }

  /** `best` applies and nothing that applies is newer; nothing at all applies if there is no best. */
  ghost predicate IsBest(ds: set<Dimension>, campaign: string, t: int, best: Option<Dimension>) {
    match best
    case None => forall d :: d in ds ==> !Applies(d, campaign, t)
    case Some(b) =>
      b in ds && Applies(b, campaign, t) && forall d :: d in ds && Applies(d, campaign, t) ==> !Newer(d, b)
  }

  function ChannelOf(best: Option<Dimension>): string {
    match best
    case None => "unknown"
    case Some(d) => if d.deleted then "deleted" else if d.channel.Some? then d.channel.value else "unknown"
  }

  /** The batch lookup: the first maximum of the candidates, in list order. */
  function Latest(ds: seq<Dimension>, campaign: string, t: int): Option<Dimension> {
    if ds == [] then None
    else
      var before, d := Latest(ds[..|ds| - 1], campaign, t), ds[|ds| - 1];
      if !Applies(d, campaign, t) then before
      else if before.Some? && !Newer(d, before.value) then before
      else Some(d)
  }

  function ChannelAt(ds: seq<Dimension>, campaign: string, t: int): string { ChannelOf(Latest(ds, campaign, t)) }

  lemma {:induction false} LatestIsBest(ds: seq<Dimension>, campaign: string, t: int)
    ensures IsBest((set d | d in ds), campaign, t, Latest(ds, campaign, t))
  {
    if ds != [] {
      LatestIsBest(ds[..|ds| - 1], campaign, t);
      assert ds == ds[..|ds| - 1] + [ds[|ds| - 1]];
    }
  }

  predicate InForce(d: Dimension, campaign: string, t: int) {
    d.campaign == campaign && d.effectiveFrom <= t && (d.effectiveTo.None? || t < d.effectiveTo.value)
  }

  /** In force, with the highest source version in force and, of those, the latest start. */
  ghost predicate Governs(ds: seq<Dimension>, d: Dimension, campaign: string, t: int) {
    d in ds && InForce(d, campaign, t)
    && forall e :: e in ds && InForce(e, campaign, t) ==>
         e.version < d.version || (e.version == d.version && e.effectiveFrom <= d.effectiveFrom)
  }

  /** The channel at an instant is that of a version that governs it: "deleted" if it deletes the campaign, and
      "unknown" if it has no channel or none is in force. */
  lemma ChannelIs(ds: seq<Dimension>, campaign: string, t: int)
    ensures match Latest(ds, campaign, t)
            case None => (forall e :: e in ds ==> !InForce(e, campaign, t)) && ChannelAt(ds, campaign, t) == "unknown"
            case Some(d) =>
              Governs(ds, d, campaign, t)
              && ChannelAt(ds, campaign, t) == if d.deleted then "deleted"
                                               else if d.channel.Some? then d.channel.value else "unknown"
  {
    LatestIsBest(ds, campaign, t);
    var best, all := Latest(ds, campaign, t), set d | d in ds;
    forall e | e in ds
      ensures e in all && (InForce(e, campaign, t) <==> Applies(e, campaign, t))
    {
    }
    if best.Some? {
      forall e | e in ds && InForce(e, campaign, t)
        ensures e.version < best.value.version
                || (e.version == best.value.version && e.effectiveFrom <= best.value.effectiveFrom)
      {
        assert e in all && !Newer(e, best.value);
      }
    }
  }

  ghost predicate OnePerKey(ds: set<Dimension>)
  {
    forall a, b :: a in ds && b in ds && VersionOf(a) == VersionOf(b) ==> a == b
  }

  /** With one version under each key there is one best version, however the versions are enumerated. */
  lemma BestIsUnique(ds: set<Dimension>, campaign: string, t: int, a: Option<Dimension>, b: Option<Dimension>)
    requires OnePerKey(ds) && IsBest(ds, campaign, t, a) && IsBest(ds, campaign, t, b)
    ensures a == b
  {
    if a.Some? && b.Some? {
      assert !Newer(a.value, b.value) && !Newer(b.value, a.value);
      assert VersionOf(a.value) == VersionOf(b.value);
    }
  }

  /** One message of the change stream: a tombstone or an empty envelope, or a change that carries a row or none. */
  datatype Change = NoChange | Change(deletion: bool, row: Option<Dimension>)

  function CarriedRow(c: Change): Option<Dimension> {
    if c.NoChange? || c.row.None? then None else Some(c.row.value.(deleted := c.deletion || c.row.value.deleted))
  }

  function Apply(versions: map<VersionKey, Dimension>, c: Change): map<VersionKey, Dimension> {
    var d := CarriedRow(c);
    if d.None? then versions else versions[VersionOf(d.value) := d.value]
  }

  /** The batch side: the archived changes folded into a table of versions. */
  function Versions(changes: seq<Change>): map<VersionKey, Dimension> {
    if changes == [] then map[] else Apply(Versions(changes[..|changes| - 1]), changes[|changes| - 1])
  }

  method ArchivedDimensions(changes: seq<Change>) returns (versions: map<VersionKey, Dimension>)
    ensures versions == Versions(changes)
  {
    versions := map[];
    var i := 0;
    while i < |changes|
      invariant 0 <= i <= |changes| && versions == Versions(changes[..i])
    {
      assert changes[..i + 1][..i] == changes[..i];
      var c := changes[i];
      i := i + 1;
      if c.NoChange? || c.row.None? { continue; }
      var row := c.row.value.(deleted := c.deletion || c.row.value.deleted);
      versions := versions[VersionOf(row) := row];
    }
    assert changes[..i] == changes;
  }

  /** The last row that some changes deliver for a version. */
  function LastFor(changes: seq<Change>, k: VersionKey): Option<Dimension> {
    if changes == [] then None
    else
      var d := CarriedRow(changes[|changes| - 1]);
      if d.Some? && VersionOf(d.value) == k then d else LastFor(changes[..|changes| - 1], k)
  }

  lemma {:induction false} VersionsAreLast(changes: seq<Change>, k: VersionKey)
    ensures (if k in Versions(changes) then Some(Versions(changes)[k]) else None) == LastFor(changes, k)
    ensures k in Versions(changes) ==> VersionOf(Versions(changes)[k]) == k
  {
    if changes != [] { VersionsAreLast(changes[..|changes| - 1], k); }
  }

  /** The change at `n` carries a row of this campaign, start and version. */
  predicate Carries(changes: seq<Change>, n: nat, k: VersionKey)
    requires n < |changes|
  {
    changes[n].Change? && changes[n].row.Some? && (
      var d := changes[n].row.value;
      d.campaign == k.campaign && d.effectiveFrom == k.effectiveFrom && d.version == k.version)
  }

  ghost predicate CarriesLast(changes: seq<Change>, n: nat, k: VersionKey)
    requires n < |changes|
  {
    Carries(changes, n, k) && forall m :: n < m < |changes| ==> !Carries(changes, m, k)
  }

  lemma CarriesLastOneMore(init: seq<Change>, last: Change, n: nat, k: VersionKey)
    requires n < |init|
    ensures CarriesLast(init + [last], n, k) <==> CarriesLast(init, n, k) && !Carries([last], 0, k)
  {
    var all := init + [last];
    forall m | 0 <= m < |init|
      ensures Carries(all, m, k) <==> Carries(init, m, k)
    {
    }
    assert Carries(all, |init|, k) <==> Carries([last], 0, k);
  }

  lemma CarriedIs(c: Change, k: VersionKey)
    ensures Carries([c], 0, k) <==> CarriedRow(c).Some? && VersionOf(CarriedRow(c).value) == k
    ensures Carries([c], 0, k) ==> CarriedRow(c).value == c.row.value.(deleted := c.deletion || c.row.value.deleted)
  {
  }

  /** The table holds a version exactly if some change carries it, and then as the last of them says, deleted if that
      change is a deletion. */
  lemma {:induction false} VersionsAreLastCarried(changes: seq<Change>, k: VersionKey)
    ensures k in Versions(changes) ==> exists n :: 0 <= n < |changes| && CarriesLast(changes, n, k)
    ensures forall n :: 0 <= n < |changes| && CarriesLast(changes, n, k) ==>
              var c := changes[n];
              k in Versions(changes)
              && Versions(changes)[k] == c.row.value.(deleted := c.deletion || c.row.value.deleted)
  {
    if changes != [] {
      var init, last := changes[..|changes| - 1], changes[|changes| - 1];
      assert changes == init + [last];
      VersionsAreLastCarried(init, k);
      CarriedIs(last, k);
      assert CarriesLast(changes, |init|, k) <==> Carries([last], 0, k);
      forall n | 0 <= n < |init|
        ensures CarriesLast(changes, n, k) <==> CarriesLast(init, n, k) && !Carries([last], 0, k)
      {
        CarriesLastOneMore(init, last, n, k);
      }
    }
  }

  /** Two deliveries that end with the same row for every version, however interleaved otherwise, give every campaign
      the same channel at every instant, in whatever order the versions are listed. */
  lemma DeliveryOrderDoesNotMatter(a: seq<Change>, b: seq<Change>, listA: seq<Dimension>, listB: seq<Dimension>,
                                   campaign: string, t: int)
    requires forall k :: LastFor(a, k) == LastFor(b, k)
    requires (set d | d in listA) == Versions(a).Values && (set d | d in listB) == Versions(b).Values
    ensures ChannelAt(listA, campaign, t) == ChannelAt(listB, campaign, t)
  {
    forall k
      ensures k in Versions(a) ==>
              k in Versions(b) && Versions(a)[k] == Versions(b)[k] && VersionOf(Versions(a)[k]) == k
      ensures k in Versions(b) ==> k in Versions(a)
    {
      VersionsAreLast(a, k);
      VersionsAreLast(b, k);
    }
    assert Versions(a) == Versions(b);
    LatestIsBest(listA, campaign, t);
    LatestIsBest(listB, campaign, t);
    BestIsUnique(Versions(a).Values, campaign, t, Latest(listA, campaign, t), Latest(listB, campaign, t));
  }

  /** The streaming side: a broadcast table of versions and a scan of it for every contribution. */
  class HistoricalDimension {
    var versions: map<VersionKey, Dimension>

    ghost predicate Valid()
      reads this
    {
      forall k :: k in versions ==> VersionOf(versions[k]) == k
    }

    constructor ()
      ensures Valid() && versions == map[]
    {
      versions := map[];
    }

    /** A change: its row, if it has one, replaces whatever the same version held. */
    method Broadcast(c: Change)
      requires Valid()
      modifies this
      ensures Valid() && versions == Apply(old(versions), c)
    {
      if c.NoChange? || c.row.None? { return; }
      var d := c.row.value.(deleted := c.deletion || c.row.value.deleted);
      versions := versions[VersionOf(d) := d];
    }

    method Lookup(campaign: string, t: int) returns (channel: string)
      requires Valid()
      ensures forall ds: seq<Dimension> ::
              (set d | d in ds) == versions.Values ==> channel == ChannelAt(ds, campaign, t)
    {
      var best: Option<Dimension> := None;
      var todo := versions.Keys;
      while todo != {}
        invariant todo <= versions.Keys
        invariant IsBest((set k | k in versions && k !in todo :: versions[k]), campaign, t, best)
        decreases |todo|
      {
        var k :| k in todo;
        var d := versions[k];
        ghost var seen := set j | j in versions && j !in todo :: versions[j];
        if Applies(d, campaign, t) && (best.None? || Newer(d, best.value)) { best := Some(d); }
        todo := todo - {k};
        assert (set j | j in versions && j !in todo :: versions[j]) == seen + {d};
      }
      assert (set k | k in versions && k !in todo :: versions[k]) == versions.Values;
      channel := ChannelOf(best);
      forall ds: seq<Dimension> | (set d | d in ds) == versions.Values
        ensures channel == ChannelAt(ds, campaign, t)
      {
        LatestIsBest(ds, campaign, t);
        BestIsUnique(versions.Values, campaign, t, best, Latest(ds, campaign, t));
      }
    }
  }
}
