/** Records on their way into the result tables: where they come from, what a batch of them would write, and when it is
    refused. */
module Sink {
  import opened Seqs
  import P = LookupPacking

  datatype ResultKind = Metric | Association

  /** A receipt that a result makes visible. */
  datatype Update = Update(receipt: string, receivedAt: int, time: int)

  datatype Payload =
    | Result(release: string, key: string, kind: ResultKind, body: string, updates: seq<Update>)
    | Quality(body: string)
    | Receipts(body: string)
    | Unrecognized(body: string)

  datatype Source = Source(topic: string, partition: nat)

  datatype Place = Place(source: Source, offset: nat)

  /** A record and its place in the log. Content hashes are free of collisions, so that a payload
      stands for its hash. */
  datatype Message = Message(place: Place, payload: Payload)

  datatype RouteKey = RouteKey(release: string, key: string)

  datatype Row = Row(route: RouteKey, kind: ResultKind, source: Source, offset: nat, payload: Payload)

  function RouteOf(m: Message): RouteKey
    requires m.payload.Result?
  {
    RouteKey(m.payload.release, m.payload.key)
  }

  function RowOf(m: Message): Row
    requires m.payload.Result?
  {
    Row(RouteOf(m), m.payload.kind, m.place.source, m.place.offset, m.payload)
  }

  /** The rows of the other tables: lineage, acknowledgements, and one row for every receipt that a result makes
      visible. */
  datatype SideRow =
    | QualityRow(place: Place, body: string)
    | ReceiptRow(body: string)
    | VisibilityRow(place: Place, release: string, update: Update)

  function VisibilityOf(place: Place, release: string, updates: seq<Update>): seq<SideRow> {
    if updates == [] then []
    else VisibilityOf(place, release, updates[..|updates| - 1])
         + [VisibilityRow(place, release, updates[|updates| - 1])]
  }

  function SideRowsOf(m: Message): seq<SideRow> {
    match m.payload
    case Result(release, _, _, _, updates) => VisibilityOf(m.place, release, updates)
    case Quality(body) => [QualityRow(m.place, body)]
    case Receipts(body) => [ReceiptRow(body)]
    case Unrecognized(_) => []
  }

  /** What the tables already say of the places and routes of a batch. */
  datatype Prior = Prior(hashes: map<Place, Payload>, routes: map<RouteKey, Source>)

  datatype Draft = Draft(deliveries: seq<Message>, results: seq<Row>, others: seq<SideRow>,
                         offsets: map<Place, Payload>, routes: map<RouteKey, Source>)

  const NO_DRAFT := Draft([], [], [], map[], map[])

  function ResultTopic(prefix: string, release: string): string { prefix + ".results." + release }

  function AddMessage(prefix: string, prior: Prior, d: Draft, m: Message): Option<Draft> {
    if m.place in d.offsets && d.offsets[m.place] != m.payload then None
    else if m.place in prior.hashes && prior.hashes[m.place] != m.payload then None
    else
      var d1 := d.(offsets := d.offsets[m.place := m.payload], deliveries := d.deliveries + [m],
                   others := d.others + SideRowsOf(m));
      match m.payload
      case Unrecognized(_) => None
      case Quality(_) => Some(d1)
      case Receipts(_) => Some(d1)
      case Result(release, _, _, _, _) =>
        var route := RouteOf(m);
        if m.place.source.topic != ResultTopic(prefix, release) then None
        else if route in d.routes && d.routes[route] != m.place.source then None
        else if route in prior.routes && prior.routes[route] != m.place.source then None
        else Some(d1.(results := d.results + [RowOf(m)], routes := d.routes[route := m.place.source]))
  }

  function DraftOf(prefix: string, prior: Prior, batch: seq<Message>): Option<Draft> {
    if batch == [] then Some(NO_DRAFT)
    else
      var before := DraftOf(prefix, prior, batch[..|batch| - 1]);
      if before.None? then None else AddMessage(prefix, prior, before.value, batch[|batch| - 1])
  }

  /** The check of a batch as it runs: groups, offsets and routes accumulated, the first conflict refusing the batch. */
  method PlanBatch(prefix: string, prior: Prior, batch: seq<Message>) returns (plan: Option<Draft>)
    ensures plan == DraftOf(prefix, prior, batch)
  {
    var deliveries, results, others := [], [], [];
    var offsets: map<Place, Payload>, routes: map<RouteKey, Source> := map[], map[];
    var i := 0;
    while i < |batch|
      invariant 0 <= i <= |batch|
      invariant DraftOf(prefix, prior, batch[..i]) == Some(Draft(deliveries, results, others, offsets, routes))
    {
      var m := batch[i];
      assert batch[..i + 1][..i] == batch[..i];
      RefusedStaysRefused(prefix, prior, batch, i + 1);
      if m.place in offsets && offsets[m.place] != m.payload { return None; }
      offsets := offsets[m.place := m.payload];
      if m.place in prior.hashes && prior.hashes[m.place] != m.payload { return None; }
      match m.payload {
        case Unrecognized(_) => return None;
        case Quality(body) => others := others + [QualityRow(m.place, body)];
        case Receipts(body) => others := others + [ReceiptRow(body)];
        case Result(release, _, _, _, updates) =>
          var route := RouteOf(m);
          if m.place.source.topic != ResultTopic(prefix, release) { return None; }
          if route in routes && routes[route] != m.place.source { return None; }
          routes := routes[route := m.place.source];
          if route in prior.routes && prior.routes[route] != m.place.source { return None; }
          results := results + [RowOf(m)];
          others := AddVisibility(others, m.place, release, updates);
      }
      deliveries := deliveries + [m];
      i := i + 1;
    }
    assert batch[..i] == batch;
    plan := Some(Draft(deliveries, results, others, offsets, routes));
  }

  method AddVisibility(others: seq<SideRow>, place: Place, release: string, updates: seq<Update>)
    returns (all: seq<SideRow>)
    ensures all == others + VisibilityOf(place, release, updates)
  {
    all := others;
    var n := 0;
    while n < |updates|
      invariant 0 <= n <= |updates| && all == others + VisibilityOf(place, release, updates[..n])
    {
      assert updates[..n + 1][..n] == updates[..n];
      all := all + [VisibilityRow(place, release, updates[n])];
      n := n + 1;
    }
    assert updates[..n] == updates;
  }

  lemma {:induction false} RefusedStaysRefused(prefix: string, prior: Prior, batch: seq<Message>, i: nat)
    requires i <= |batch|
    ensures DraftOf(prefix, prior, batch[..i]).None? ==> DraftOf(prefix, prior, batch).None?
    decreases |batch| - i
  {
    if i < |batch| {
      assert batch[..i + 1][..i] == batch[..i];
      RefusedStaysRefused(prefix, prior, batch, i + 1);
    } else {
      assert batch[..i] == batch;
    }
  }

  // When a batch is refused.

  predicate Fine(prefix: string, prior: Prior, m: Message) {
    && !m.payload.Unrecognized?
    && (m.place in prior.hashes ==> prior.hashes[m.place] == m.payload)
    && (m.payload.Result? ==> m.place.source.topic == ResultTopic(prefix, m.payload.release)
                              && (RouteOf(m) in prior.routes ==> prior.routes[RouteOf(m)] == m.place.source))
  }

  predicate Compatible(a: Message, b: Message) {
    && (a.place == b.place ==> a.payload == b.payload)
    && (a.payload.Result? && b.payload.Result? && RouteOf(a) == RouteOf(b) ==> a.place.source == b.place.source)
  }

  ghost predicate Acceptable(prefix: string, prior: Prior, batch: seq<Message>) {
    && (forall m :: m in batch ==> Fine(prefix, prior, m))
    && (forall a, b :: a in batch && b in batch ==> Compatible(a, b))
  }

  ghost predicate RemembersPlaces(offsets: map<Place, Payload>, batch: seq<Message>) {
    && (forall m :: m in batch ==> m.place in offsets && offsets[m.place] == m.payload)
    && (forall p :: p in offsets ==> exists m :: m in batch && m.place == p)
  }

  ghost predicate RemembersRoutes(routes: map<RouteKey, Source>, batch: seq<Message>) {
    && (forall m :: m in batch && m.payload.Result? ==>
         RouteOf(m) in routes && routes[RouteOf(m)] == m.place.source)
    && (forall k :: k in routes ==> exists m :: m in batch && m.payload.Result? && RouteOf(m) == k)
  }

  /** What a draft remembers of the messages it was made of. */
  ghost predicate Remembers(d: Draft, batch: seq<Message>) {
    RemembersPlaces(d.offsets, batch) && RemembersRoutes(d.routes, batch)
  }

  ghost predicate Groups(d: Draft, batch: seq<Message>) {
    && d.deliveries == batch
    && (forall row :: row in d.results <==> exists m :: m in batch && m.payload.Result? && row == RowOf(m))
    && (forall row :: row in d.others <==> exists m :: m in batch && row in SideRowsOf(m))
  }

  lemma AddFits(prefix: string, prior: Prior, d: Draft, batch: seq<Message>, m: Message)
    requires Remembers(d, batch) && Acceptable(prefix, prior, batch)
    ensures AddMessage(prefix, prior, d, m).Some? ==> Acceptable(prefix, prior, batch + [m])
    ensures AddMessage(prefix, prior, d, m).None? ==> !Acceptable(prefix, prior, batch + [m])
  {
    var all := batch + [m];
    if AddMessage(prefix, prior, d, m).Some? {
      forall a | a in batch
        ensures Compatible(a, m) && Compatible(m, a)
      {
      }
    } else {
      if m.place in d.offsets && d.offsets[m.place] != m.payload {
        var a :| a in batch && a.place == m.place;
        assert a in all && m in all && !Compatible(a, m);
      } else if m.payload.Result? && RouteOf(m) in d.routes && d.routes[RouteOf(m)] != m.place.source {
        var a :| a in batch && a.payload.Result? && RouteOf(a) == RouteOf(m);
        assert a in all && m in all && !Compatible(a, m);
      } else {
        assert m in all && !Fine(prefix, prior, m);
      }
    }
  }

  lemma AddGroups(prefix: string, prior: Prior, d: Draft, batch: seq<Message>, m: Message)
    requires Groups(d, batch) && AddMessage(prefix, prior, d, m).Some?
    ensures Groups(AddMessage(prefix, prior, d, m).value, batch + [m])
  {
    var all, d' := batch + [m], AddMessage(prefix, prior, d, m).value;
    forall row
      ensures row in d'.results <==> exists x :: x in all && x.payload.Result? && row == RowOf(x)
    {
      assert row in d'.results <==> row in d.results || (m.payload.Result? && row == RowOf(m));
      assert m in all && forall x :: x in batch ==> x in all;
    }
    forall row
      ensures row in d'.others <==> exists x :: x in all && row in SideRowsOf(x)
    {
      assert row in d'.others <==> row in d.others || row in SideRowsOf(m);
      assert m in all && forall x :: x in batch ==> x in all;
    }
  }

  lemma AddRemembers(prefix: string, prior: Prior, d: Draft, batch: seq<Message>, m: Message)
    requires Remembers(d, batch) && AddMessage(prefix, prior, d, m).Some?
    ensures Remembers(AddMessage(prefix, prior, d, m).value, batch + [m])
  {
    PlaceRemembered(d.offsets, batch, m);
    if m.payload.Result? { RouteRemembered(d.routes, batch, m); } else { NoRouteRemembered(d.routes, batch, m); }
  }

  lemma PlaceRemembered(offsets: map<Place, Payload>, batch: seq<Message>, m: Message)
    requires RemembersPlaces(offsets, batch) && (m.place in offsets ==> offsets[m.place] == m.payload)
    ensures RemembersPlaces(offsets[m.place := m.payload], batch + [m])
  {
    var all := batch + [m];
    assert forall x :: x in all <==> x in batch || x == m;
    forall p | p in offsets
      ensures exists x :: x in all && x.place == p
    {
      var x :| x in batch && x.place == p;
      assert x in all;
    }
    assert m in all;
  }

  lemma RouteRemembered(routes: map<RouteKey, Source>, batch: seq<Message>, m: Message)
    requires RemembersRoutes(routes, batch) && m.payload.Result?
    requires RouteOf(m) in routes ==> routes[RouteOf(m)] == m.place.source
    ensures RemembersRoutes(routes[RouteOf(m) := m.place.source], batch + [m])
  {
    var all := batch + [m];
    assert forall x :: x in all <==> x in batch || x == m;
    forall k | k in routes
      ensures exists x :: x in all && x.payload.Result? && RouteOf(x) == k
    {
      var x :| x in batch && x.payload.Result? && RouteOf(x) == k;
      assert x in all;
    }
    assert m in all;
  }

  lemma NoRouteRemembered(routes: map<RouteKey, Source>, batch: seq<Message>, m: Message)
    requires RemembersRoutes(routes, batch) && !m.payload.Result?
    ensures RemembersRoutes(routes, batch + [m])
  {
    var all := batch + [m];
    assert forall x :: x in all <==> x in batch || x == m;
    forall k | k in routes
      ensures exists x :: x in all && x.payload.Result? && RouteOf(x) == k
    {
      var x :| x in batch && x.payload.Result? && RouteOf(x) == k;
      assert x in all;
    }
  }

  /** A batch is refused exactly if some message is at fault by itself or two messages contradict each other; otherwise
      the plan records every delivery and holds a row for every result, receipt, disposition and visible receipt of the
      batch. */
  lemma {:induction false} RefusedExactly(prefix: string, prior: Prior, batch: seq<Message>)
    ensures DraftOf(prefix, prior, batch).Some? <==> Acceptable(prefix, prior, batch)
    ensures DraftOf(prefix, prior, batch).Some? ==>
              Remembers(DraftOf(prefix, prior, batch).value, batch)
                  && Groups(DraftOf(prefix, prior, batch).value, batch)
  {
    if batch != [] {
      var init, m := batch[..|batch| - 1], batch[|batch| - 1];
      assert batch == init + [m];
      RefusedExactly(prefix, prior, init);
      if DraftOf(prefix, prior, init).Some? {
        var d := DraftOf(prefix, prior, init).value;
        AddFits(prefix, prior, d, init, m);
        if AddMessage(prefix, prior, d, m).Some? {
          AddRemembers(prefix, prior, d, init, m);
          AddGroups(prefix, prior, d, init, m);
        }
      } else if Acceptable(prefix, prior, batch) {
        assert forall x :: x in init ==> x in batch;
        assert Acceptable(prefix, prior, init);
      }
    }
  }

  // Reading what the tables say, parameter by parameter.

  function Places(batch: seq<Message>): seq<Place>
  {
    if batch == [] then [] else Places(batch[..|batch| - 1]) + [batch[|batch| - 1].place]
  }

  function Routes(batch: seq<Message>): seq<RouteKey> {
    if batch == [] then []
    else
      var init, m := Routes(batch[..|batch| - 1]), batch[|batch| - 1];
      if m.payload.Result? then init + [RouteOf(m)] else init
  }

  lemma {:induction false} PlacesAndRoutes(batch: seq<Message>, m: Message)
    requires m in batch
    ensures m.place in Places(batch) && (m.payload.Result? ==> RouteOf(m) in Routes(batch))
  {
    assert batch == batch[..|batch| - 1] + [batch[|batch| - 1]];
    if m in batch[..|batch| - 1] { PlacesAndRoutes(batch[..|batch| - 1], m); }
  }

  /** Bounded lookups restricted to a batch refuse and plan exactly as the whole tables would. */
  lemma {:induction false} LookupSuffices(prefix: string, whole: Prior, part: Prior, batch: seq<Message>)
    requires forall m :: m in batch ==>
               && (m.place in part.hashes <==> m.place in whole.hashes)
               && (m.place in part.hashes ==> part.hashes[m.place] == whole.hashes[m.place])
               && (m.payload.Result? ==>
                     && (RouteOf(m) in part.routes <==> RouteOf(m) in whole.routes)
                     && (RouteOf(m) in part.routes ==> part.routes[RouteOf(m)] == whole.routes[RouteOf(m)]))
    ensures DraftOf(prefix, part, batch) == DraftOf(prefix, whole, batch)
  {
    if batch != [] {
      assert batch == batch[..|batch| - 1] + [batch[|batch| - 1]];
      LookupSuffices(prefix, whole, part, batch[..|batch| - 1]);
    }
  }

  method ReadPrior(whole: Prior, batch: seq<Message>, encodePlace: Place -> string, encodeRoute: RouteKey -> string,
                   maxBytes: nat, ghost prefix: string)
    returns (prior: Prior, ok: bool)
    ensures ok <==>
            && P.EachFits(P.FirstSeen(Places(batch)), encodePlace, maxBytes)
            && P.EachFits(P.FirstSeen(Routes(batch)), encodeRoute, maxBytes)
    ensures ok ==> DraftOf(prefix, prior, batch) == DraftOf(prefix, whole, batch)
  {
    var places, placesFit := P.Pack(Places(batch), encodePlace, maxBytes);
    prior := Prior(map[], map[]);
    if !placesFit { return prior, false; }
    var hashes := P.LookUp(whole.hashes, places);
    var keys, routesFit := P.Pack(Routes(batch), encodeRoute, maxBytes);
    if !routesFit { return prior, false; }
    var routes := P.LookUp(whole.routes, keys);
    prior, ok := Prior(hashes, routes), true;
    P.GreedyIsSplit(P.FirstSeen(Places(batch)), encodePlace, maxBytes);
    P.GreedyIsSplit(P.FirstSeen(Routes(batch)), encodeRoute, maxBytes);
    P.FirstSeenHolds(Places(batch));
    P.FirstSeenHolds(Routes(batch));
    forall m | m in batch
      ensures m.place in Places(batch) && (m.payload.Result? ==> RouteOf(m) in Routes(batch))
    {
      PlacesAndRoutes(batch, m);
    }
    LookupSuffices(prefix, whole, prior, batch);
  }
}
