/** What the tables hold of the log, said of its fields. */
module SinkTables {
  import opened Seqs
  import opened Sink
  import opened SinkProtocol
  import SnapshotStore

  lemma {:induction false} VisibilityHolds(place: Place, release: string, updates: seq<Update>, row: SideRow)
    ensures row in VisibilityOf(place, release, updates)
            <==> row.VisibilityRow? && row.place == place && row.release == release && row.update in updates
  {
    if updates != [] {
      var init, last := updates[..|updates| - 1], updates[|updates| - 1];
      assert updates == init + [last];
      VisibilityHolds(place, release, init, row);
    }
  }

  /** The message brings the row to one of the tables beside the results. */
  predicate Brings(m: Message, row: SideRow) {
    match row
    case QualityRow(place, body) => m.place == place && m.payload == Quality(body)
    case ReceiptRow(body) => m.payload == Receipts(body)
    case VisibilityRow(place, release, update) =>
      m.place == place && m.payload.Result? && m.payload.release == release && update in m.payload.updates
  }

  lemma SideRowsAre(m: Message, row: SideRow)
    ensures row in SideRowsOf(m) <==> Brings(m, row)
  {
    if m.payload.Result? { VisibilityHolds(m.place, m.payload.release, m.payload.updates, row); }
  }

  /** The row of the results that stands for a metric or an association at its place in the log. */
  predicate StandsFor(m: Message, row: Row) {
    && m.payload.Result?
    && row.route.release == m.payload.release && row.route.key == m.payload.key && row.kind == m.payload.kind
    && row.source == m.place.source && row.offset == m.place.offset && row.payload == m.payload
  }

  lemma RowsAre(m: Message, row: Row)
    ensures m.payload.Result? && row == RowOf(m) <==> StandsFor(m, row)
  {
  }

  /** What is wrong with a message by itself, given what the tables say already. */
  predicate AtFault(prefix: string, prior: Prior, m: Message) {
    || m.payload.Unrecognized?
    || (m.place in prior.hashes && prior.hashes[m.place] != m.payload)
    || (m.payload.Result? && (
          var route := RouteKey(m.payload.release, m.payload.key);
          || m.place.source.topic != prefix + ".results." + m.payload.release
          || (route in prior.routes && prior.routes[route] != m.place.source)))
  }

  /** Two messages that cannot both be true: one place with two contents, or one key in two partitions. */
  predicate Clash(a: Message, b: Message) {
    || (a.place == b.place && a.payload != b.payload)
    || (a.payload.Result? && b.payload.Result? && a.payload.release == b.payload.release
        && a.payload.key == b.payload.key && a.place.source != b.place.source)
  }

  /** A batch is refused exactly if one of its messages is at fault or two of them clash. */
  lemma RefusedWhen(prefix: string, prior: Prior, batch: seq<Message>)
    ensures DraftOf(prefix, prior, batch).None?
            <==> (exists m :: m in batch && AtFault(prefix, prior, m))
                 || exists a, b :: a in batch && b in batch && Clash(a, b)
  {
    RefusedExactly(prefix, prior, batch);
    forall m | m in batch
      ensures Fine(prefix, prior, m) <==> !AtFault(prefix, prior, m)
    {
    }
    forall a, b | a in batch && b in batch
      ensures Compatible(a, b) <==> !Clash(a, b)
    {
    }
  }

  /** A batch that is not refused is planned in full: all deliveries, and for each table exactly the rows that some
      message brings. */
  lemma PlannedExactly(prefix: string, prior: Prior, batch: seq<Message>, row: Row, side: SideRow)
    requires DraftOf(prefix, prior, batch).Some?
    ensures var plan := DraftOf(prefix, prior, batch).value;
            && plan.deliveries == batch
            && (row in plan.results <==> exists m :: m in batch && StandsFor(m, row))
            && (side in plan.others <==> exists m :: m in batch && Brings(m, side))
  {
    RefusedExactly(prefix, prior, batch);
    forall m | m in batch
      ensures m.payload.Result? && row == RowOf(m) <==> StandsFor(m, row)
      ensures side in SideRowsOf(m) <==> Brings(m, side)
    {
      RowsAre(m, row);
      SideRowsAre(m, side);
    }
  }

  /** Everything that a message of the log brings is in the tables: its own rows, and a result row of its key that is
      its own or a later one. */
  ghost predicate Stored(s: State, m: Message) {
    match m.payload
    case Quality(body) => QualityRow(m.place, body) in s.others
    case Receipts(body) => ReceiptRow(body) in s.others
    case Result(release, key, _, _, updates) =>
      && (forall u :: u in updates ==> VisibilityRow(m.place, release, u) in s.others)
      && exists row :: row in s.results && row.route == RouteKey(release, key) && row.source == m.place.source
                       && m.place.offset <= row.offset
    case Unrecognized(_) => true
  }

  lemma CommittedIsStored(log: Log, s: State, p: Place)
    requires CommittedIsPersisted(log, s) && p in log && p.offset < At(s.committed, p.source)
    ensures Stored(s, Message(p, log[p]))
  {
    var m := Message(p, log[p]);
    assert SidePersisted(s.others, m);
    match m.payload
    case Quality(body) => SideRowsAre(m, QualityRow(p, body));
    case Receipts(body) => SideRowsAre(m, ReceiptRow(body));
    case Result(release, key, _, _, updates) =>
      forall u | u in updates
        ensures VisibilityRow(p, release, u) in s.others
      {
        SideRowsAre(m, VisibilityRow(p, release, u));
      }
      assert Persisted(s.results, m);
    case Unrecognized(_) =>
  }

  /** After any run: whatever is committed past is stored in its tables, and whatever is stored was in the log. */
  lemma TablesMirrorTheLog(log: Log, prefix: string, steps: seq<Step>)
    requires AllowedRun(log, prefix, steps)
    ensures var s := Run(prefix, steps);
            && (forall p :: p in log && p.offset < At(s.committed, p.source) ==> Stored(s, Message(p, log[p])))
            && (forall row :: row in s.results ==> exists p :: p in log && StandsFor(Message(p, log[p]), row))
            && (forall side :: side in s.others ==> exists p :: p in log && Brings(Message(p, log[p]), side))
  {
    var s := Run(prefix, steps);
    RunKeeps(log, prefix, steps);
    forall p | p in log && p.offset < At(s.committed, p.source)
      ensures Stored(s, Message(p, log[p]))
    {
      CommittedIsStored(log, s, p);
    }
    forall row | row in s.results
      ensures exists p :: p in log && StandsFor(Message(p, log[p]), row)
    {
      var m := Message(Place(row.source, row.offset), row.payload);
      assert FromLog(log, m) && StandsFor(m, row);
    }
    forall side | side in s.others
      ensures exists p :: p in log && Brings(Message(p, log[p]), side)
    {
      assert Sourced(s.deliveries, side);
      var d :| d in s.deliveries && side in SideRowsOf(d);
      SideRowsAre(d, side);
      assert FromLog(log, d) && d == Message(d.place, log[d.place]);
    }
  }

  /** The row stands for the last message of its release and key in the log. */
  ghost predicate LastOfKey(log: Log, row: Row) {
    var p := Place(row.source, row.offset);
    && p in log && StandsFor(Message(p, log[p]), row)
    && forall q :: q in log && log[q].Result? && log[q].release == row.route.release && log[q].key == row.route.key ==>
         q.offset <= row.offset
  }

  lemma {:induction false} SomeLog(log: Log) returns (ms: seq<Message>)
    ensures Lists(log, ms)
    decreases |log|
  {
    if log == map[] {
      ms := [];
    } else {
      var p :| p in log;
      var rest := SomeLog(log - {p});
      ms := if log[p].Result? then rest + [Message(p, log[p])] else rest;
      forall m
        ensures m in ms <==> FromLog(log, m) && m.payload.Result?
      {
        assert m in rest <==> FromLog(log - {p}, m) && m.payload.Result?;
      }
    }
  }

  /** Once the offsets are committed to the end of the log, readers see of every release and key its last message. */
  lemma VisibleExactly(log: Log, prefix: string, steps: seq<Step>, row: Row)
    requires AllowedRun(log, prefix, steps)
    requires forall p :: p in log ==> p.offset < At(Run(prefix, steps).committed, p.source)
    ensures IsVisible(Run(prefix, steps).results, row) <==> LastOfKey(log, row)
  {
    var s := Run(prefix, steps);
    var ms := SomeLog(log);
    RunKeeps(log, prefix, steps);
    CommittedMirrors(log, s, ms);
    LastIsLatest(log, ms, row);
    if IsVisible(s.results, row) { VisibleIsLatest(s.results, ms, row); }
    if LastOfKey(log, row) { LatestIsVisible(s.results, ms, row); }
  }

  lemma LastIsLatest(log: Log, ms: seq<Message>, row: Row)
    requires Lists(log, ms)
    ensures SnapshotStore.IsLatestOf(ms, row.route, row) <==> LastOfKey(log, row)
  {
    if LastOfKey(log, row) {
      var m := Message(Place(row.source, row.offset), row.payload);
      assert m in ms && RouteOf(m) == row.route && row == RowOf(m);
      forall x | x in ms && x.payload.Result? && RouteOf(x) == row.route
        ensures x.place.offset <= row.offset
      {
        assert FromLog(log, x);
      }
    }
    if SnapshotStore.IsLatestOf(ms, row.route, row) {
      var m :| m in ms && m.payload.Result? && RouteOf(m) == row.route && row == RowOf(m);
      assert FromLog(log, m);
      forall q | q in log && log[q].Result? && log[q].release == row.route.release && log[q].key == row.route.key
        ensures q.offset <= row.offset
      {
        assert Message(q, log[q]) in ms && RouteOf(Message(q, log[q])) == row.route;
      }
    }
  }

  // A batch that nothing disturbs.

  lemma RunOneMore(log: Log, prefix: string, steps: seq<Step>, step: Step)
    requires AllowedRun(log, prefix, steps) && Allowed(log, Run(prefix, steps), step)
    ensures AllowedRun(log, prefix, steps + [step])
    ensures Run(prefix, steps + [step]) == Next(prefix, Run(prefix, steps), step)
  {
    assert (steps + [step])[..|steps|] == steps;
  }

  lemma {:induction false} OffsetsPassTheBatch(log: Log, base: Offsets, batch: seq<Message>, m: Message)
    requires Consecutive(log, base, batch) && m in batch
    ensures m.place.offset < At(base + OffsetsOf(batch), m.place.source)
  {
    var init, last := batch[..|batch| - 1], batch[|batch| - 1];
    assert batch == init + [last];
    if m != last {
      OffsetsPassTheBatch(log, base, init, m);
      if m.place.source != last.place.source {
        assert At(base + OffsetsOf(batch), m.place.source) == At(base + OffsetsOf(init), m.place.source);
      }
    }
  }

  /** The steps by which a batch is planned, and those by which a planned batch is taken through, when nothing fails. */
  function Planning(batch: seq<Message>, prior: Prior): seq<Step> { [Poll(batch)] + [Plan(prior)] }

  function Storing(plan: Draft): seq<Step> {
    [Deliver(SetOf(plan.deliveries), true)] + [Write(SetOf(plan.results), SetOf(plan.others), true)]
    + [Commit(true, true)]
  }

  lemma PlanIsMade(log: Log, prefix: string, s: State, w: Work, prior: Prior)
    requires w.stage.Unplanned? && Reads(s, w.batch, prior) && DraftOf(prefix, prior, w.batch).Some?
    ensures var polled := s.(work := Some(w));
            && Allowed(log, polled, Plan(prior))
            && Next(prefix, polled, Plan(prior))
               == s.(work := Some(w.(stage := Delivering(DraftOf(prefix, prior, w.batch).value))))
  {
  }

  lemma {:induction false} PlanningRuns(log: Log, prefix: string, steps: seq<Step>, batch: seq<Message>, prior: Prior)
    requires AllowedRun(log, prefix, steps) && Run(prefix, steps).work.None?
    requires Consecutive(log, Run(prefix, steps).committed, batch) && Reads(Run(prefix, steps), batch, prior)
    requires DraftOf(prefix, prior, batch).Some?
    ensures var s, all := Run(prefix, steps), steps + Planning(batch, prior);
            && AllowedRun(log, prefix, all)
            && Run(prefix, all)
               == s.(work := Some(Work(batch, s.committed, Delivering(DraftOf(prefix, prior, batch).value))))
  {
    var s := Run(prefix, steps);
    RunOneMore(log, prefix, steps, Poll(batch));
    PlanIsMade(log, prefix, s, Work(batch, s.committed, Unplanned), prior);
    RunOneMore(log, prefix, steps + [Poll(batch)], Plan(prior));
    assert steps + Planning(batch, prior) == steps + [Poll(batch)] + [Plan(prior)];
  }

  lemma {:induction false} StoringRuns(log: Log, prefix: string, steps: seq<Step>, w: Work, plan: Draft)
    requires AllowedRun(log, prefix, steps) && Run(prefix, steps).work == Some(w) && w.stage == Delivering(plan)
    ensures var s, all := Run(prefix, steps), steps + Storing(plan);
            && AllowedRun(log, prefix, all) && Run(prefix, all).work.None?
            && Run(prefix, all).committed == s.committed + OffsetsOf(w.batch)
  {
    var a := steps + [Deliver(SetOf(plan.deliveries), true)];
    RunOneMore(log, prefix, steps, Deliver(SetOf(plan.deliveries), true));
    var b := a + [Write(SetOf(plan.results), SetOf(plan.others), true)];
    RunOneMore(log, prefix, a, Write(SetOf(plan.results), SetOf(plan.others), true));
    RunOneMore(log, prefix, b, Commit(true, true));
    assert steps + Storing(plan) == b + [Commit(true, true)];
  }

  function Cycle(batch: seq<Message>, prior: Prior, plan: Draft): seq<Step> { Planning(batch, prior) + Storing(plan) }

  lemma {:induction false} CycleRuns(log: Log, prefix: string, steps: seq<Step>, batch: seq<Message>, prior: Prior)
    requires AllowedRun(log, prefix, steps) && Run(prefix, steps).work.None?
    requires Consecutive(log, Run(prefix, steps).committed, batch) && Reads(Run(prefix, steps), batch, prior)
    requires DraftOf(prefix, prior, batch).Some?
    ensures var all := steps + Cycle(batch, prior, DraftOf(prefix, prior, batch).value);
            && AllowedRun(log, prefix, all) && Run(prefix, all).work.None?
            && Run(prefix, all).committed == Run(prefix, steps).committed + OffsetsOf(batch)
  {
    var plan, s := DraftOf(prefix, prior, batch).value, Run(prefix, steps);
    PlanningRuns(log, prefix, steps, batch, prior);
    StoringRuns(log, prefix, steps + Planning(batch, prior), Work(batch, s.committed, Delivering(plan)), plan);
    assert steps + Cycle(batch, prior, plan) == steps + Planning(batch, prior) + Storing(plan);
  }

  /** From any state between batches: a batch that takes up the log where it stands and is not refused is, if nothing
      fails, stored and committed past, message by message. */
  lemma {:induction false} UndisturbedBatchIsStored(log: Log, prefix: string, steps: seq<Step>, batch: seq<Message>,
                                                    prior: Prior, m: Message)
    requires AllowedRun(log, prefix, steps) && Run(prefix, steps).work.None?
    requires Consecutive(log, Run(prefix, steps).committed, batch) && Reads(Run(prefix, steps), batch, prior)
    requires DraftOf(prefix, prior, batch).Some? && m in batch
    ensures var all := steps + Cycle(batch, prior, DraftOf(prefix, prior, batch).value);
            && AllowedRun(log, prefix, all) && Stored(Run(prefix, all), m)
            && m.place.offset < At(Run(prefix, all).committed, m.place.source)
  {
    var all := steps + Cycle(batch, prior, DraftOf(prefix, prior, batch).value);
    CycleRuns(log, prefix, steps, batch, prior);
    OffsetsPassTheBatch(log, Run(prefix, steps).committed, batch, m);
    BatchIsFromLog(log, Run(prefix, steps).committed, batch);
    TablesMirrorTheLog(log, prefix, all);
    assert m == Message(m.place, log[m.place]);
  }
}
