/** The local reference store: one snapshot per release and key, replaced only by a later offset of the same route. */
module SnapshotStore {
  import opened Sink

  datatype Store = Store(deliveries: map<Place, Payload>, snapshots: map<RouteKey, Row>)

  const EMPTY := Store(map[], map[])

  predicate Conflicts(s: Store, m: Message)
    requires m.payload.Result?
  {
    || (m.place in s.deliveries && s.deliveries[m.place] != m.payload)
    || (RouteOf(m) in s.snapshots && s.snapshots[RouteOf(m)].source != m.place.source)
  }

  /** A conflicting insertion is rolled back. */
  function Insert(s: Store, m: Message): Store
    requires m.payload.Result?
  {
    if Conflicts(s, m) then s
    else
      var route := RouteOf(m);
      Store(if m.place in s.deliveries then s.deliveries else s.deliveries[m.place := m.payload],
            if route in s.snapshots && m.place.offset <= s.snapshots[route].offset then s.snapshots
            else s.snapshots[route := RowOf(m)])
  }

  class LocalSnapshotStore {
    var deliveries: map<Place, Payload>
    var snapshots: map<RouteKey, Row>

    ghost function Model(): Store
      reads this
    {
      Store(deliveries, snapshots)
    }

    constructor ()
      ensures Model() == EMPTY
    {
      deliveries, snapshots := map[], map[];
    }

    method InsertMessage(m: Message) returns (ok: bool)
      requires m.payload.Result?
      modifies this
      ensures ok == !Conflicts(old(Model()), m) && Model() == Insert(old(Model()), m)
    {
      if m.place in deliveries && deliveries[m.place] != m.payload { return false; }
      var route := RouteOf(m);
      if route in snapshots && snapshots[route].source != m.place.source { return false; }
      if m.place !in deliveries { deliveries := deliveries[m.place := m.payload]; }
      if route !in snapshots || m.place.offset > snapshots[route].offset { snapshots := snapshots[route := RowOf(m)]; }
      return true;
    }

    /** The snapshots of one release. */
    method Read(release: string) returns (rows: map<string, Row>)
      ensures forall key :: key in rows <==> RouteKey(release, key) in snapshots
      ensures forall key :: key in rows ==> rows[key] == snapshots[RouteKey(release, key)]
    {
      rows := map k | k in snapshots && k.release == release :: k.key := snapshots[k];
    }
  }

  ghost predicate AllResults(ms: seq<Message>) { forall m :: m in ms ==> m.payload.Result? }

  function InsertAll(ms: seq<Message>): Store
    requires forall m :: m in ms ==> m.payload.Result?
  {
    if ms == [] then EMPTY else Insert(InsertAll(ms[..|ms| - 1]), ms[|ms| - 1])
  }

  /** `row` is that of the latest message of its route among `ms`. */
  ghost predicate IsLatestOf(ms: seq<Message>, route: RouteKey, row: Row) {
    && (exists m :: m in ms && m.payload.Result? && RouteOf(m) == route && row == RowOf(m))
    && (forall m :: m in ms && m.payload.Result? && RouteOf(m) == route ==> m.place.offset <= row.offset)
  }

  ghost predicate HoldsLatest(s: Store, ms: seq<Message>) {
    && (forall p :: p in s.deliveries ==> exists m :: m in ms && m.place == p && m.payload == s.deliveries[p])
    && (forall route :: route in s.snapshots ==> IsLatestOf(ms, route, s.snapshots[route]))
    && (forall m :: m in ms && m.payload.Result? ==> RouteOf(m) in s.snapshots)
  }

  lemma InsertHolds(s: Store, ms: seq<Message>, m: Message)
    requires m.payload.Result? && HoldsLatest(s, ms) && forall a :: a in ms ==> Compatible(a, m)
    ensures !Conflicts(s, m) && HoldsLatest(Insert(s, m), ms + [m])
  {
    var all, route := ms + [m], RouteOf(m);
    assert forall x :: x in all <==> x in ms || x == m;
    NoConflict(s, ms, m);
    var s' := Insert(s, m);
    forall p | p in s'.deliveries
      ensures exists x :: x in all && x.place == p && x.payload == s'.deliveries[p]
    {
      if p in s.deliveries {
        var x :| x in ms && x.place == p && x.payload == s.deliveries[p];
        assert x in all;
      } else {
        assert m in all;
      }
    }
    forall k | k in s'.snapshots
      ensures IsLatestOf(all, k, s'.snapshots[k])
    {
      if k in s.snapshots {
        var x :| x in ms && x.payload.Result? && RouteOf(x) == k && s.snapshots[k] == RowOf(x);
        assert x in all && m in all;
      } else {
        assert m in all;
      }
    }
  }

  lemma NoConflict(s: Store, ms: seq<Message>, m: Message)
    requires m.payload.Result? && HoldsLatest(s, ms) && forall a :: a in ms ==> Compatible(a, m)
    ensures !Conflicts(s, m)
  {
    if RouteOf(m) in s.snapshots {
      var a :| a in ms && a.payload.Result? && RouteOf(a) == RouteOf(m) && s.snapshots[RouteOf(m)] == RowOf(a);
      assert Compatible(a, m);
    }
  }

  /** Whatever the order and the repetitions, messages that do not contradict each other leave the latest of every
      route. */
  lemma {:induction false} StoreHoldsLatest(ms: seq<Message>)
    requires AllResults(ms) && forall a, b :: a in ms && b in ms ==> Compatible(a, b)
    ensures HoldsLatest(InsertAll(ms), ms)
  {
    if ms != [] {
      var init, m := ms[..|ms| - 1], ms[|ms| - 1];
      assert ms == init + [m];
      StoreHoldsLatest(init);
      InsertHolds(InsertAll(init), init, m);
    }
  }
}
