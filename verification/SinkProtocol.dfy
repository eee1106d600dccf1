/** The writer over the log: poll, plan, record deliveries, write outputs, commit; with failures, crashes and background
    merges anywhere in between. */
module SinkProtocol {
  import opened Seqs
  import opened Sink
  import opened SnapshotStore

  /** Offsets of a partition need not be consecutive. */
  type Log = map<Place, Payload>

  type Offsets = map<Source, nat>

  datatype Stage = Unplanned | Delivering(plan: Draft) | Writing(plan: Draft) | Written

  /** A batch in hand; `base` is what was committed when it was polled. */
  datatype Work = Work(batch: seq<Message>, base: Offsets, stage: Stage)

  datatype State = State(deliveries: set<Message>, results: set<Row>, others: set<SideRow>, committed: Offsets,
                         work: Option<Work>)

  const INITIAL := State({}, {}, {}, map[], None)

  datatype Step =
    | Poll(batch: seq<Message>)
    | Plan(prior: Prior)
    | Deliver(part: set<Message>, ok: bool)
    | Write(rows: set<Row>, rest: set<SideRow>, ok: bool)
    | Commit(applied: bool, ok: bool)
    | Crash
    | MergeResults(row: Row, winner: Row)
    | MergeDeliveries(delivery: Message, other: Message)

  function At(offsets: Offsets, source: Source): nat { if source in offsets then offsets[source] else 0 }

  /** What a batch commits: for every partition, one past its last message. */
  function OffsetsOf(batch: seq<Message>): Offsets {
    if batch == [] then map[]
    else
      var m := batch[|batch| - 1];
      OffsetsOf(batch[..|batch| - 1])[m.place.source := m.place.offset + 1]
  }

  method CommitOffsets(batch: seq<Message>) returns (offsets: Offsets)
    ensures offsets == OffsetsOf(batch)
  {
    offsets := map[];
    var i := 0;
    while i < |batch|
      invariant 0 <= i <= |batch| && offsets == OffsetsOf(batch[..i])
    {
      assert batch[..i + 1][..i] == batch[..i];
      offsets := offsets[batch[i].place.source := batch[i].place.offset + 1];
      i := i + 1;
    }
    assert batch[..i] == batch;
  }

  predicate FromLog(log: Log, m: Message) { m.place in log && log[m.place] == m.payload }

  /** The batch takes up every partition where `base` left it and skips nothing. */
  ghost predicate Consecutive(log: Log, base: Offsets, batch: seq<Message>) {
    batch == [] || (
      var init, m := batch[..|batch| - 1], batch[|batch| - 1];
      var next := At(base + OffsetsOf(init), m.place.source);
      && Consecutive(log, base, init) && FromLog(log, m) && next <= m.place.offset
      && forall p :: p in log && p.source == m.place.source && next <= p.offset ==> m.place.offset <= p.offset)
  }

  /** What the lookups return: of all rows of a route, some topic and some partition. */
  ghost predicate Reads(s: State, batch: seq<Message>, prior: Prior) {
    && (forall p :: p in prior.hashes ==> Message(p, prior.hashes[p]) in s.deliveries)
    && (forall m, d :: m in batch && d in s.deliveries && d.place == m.place ==> m.place in prior.hashes)
    && (forall k :: k in prior.routes ==>
          exists a, b :: a in s.results && b in s.results && a.route == k == b.route
                         && a.source.topic == prior.routes[k].topic && b.source.partition == prior.routes[k].partition)
    && (forall m, r :: m in batch && m.payload.Result? && r in s.results && r.route == RouteOf(m) ==>
         RouteOf(m) in prior.routes)
  }

  function SetOf<T>(s: seq<T>): set<T> { set x | x in s }

  ghost predicate Allowed(log: Log, s: State, step: Step) {
    match step
    case Poll(batch) => s.work.None? && Consecutive(log, s.committed, batch)
    case Plan(prior) => s.work.Some? && s.work.value.stage.Unplanned? && Reads(s, s.work.value.batch, prior)
    case Deliver(part, ok) =>
      && s.work.Some? && s.work.value.stage.Delivering?
      && part <= SetOf(s.work.value.stage.plan.deliveries) && (ok ==> part == SetOf(s.work.value.stage.plan.deliveries))
    case Write(rows, rest, ok) =>
      && s.work.Some? && s.work.value.stage.Writing?
      && rows <= SetOf(s.work.value.stage.plan.results) && rest <= SetOf(s.work.value.stage.plan.others)
      && (ok ==> rows == SetOf(s.work.value.stage.plan.results) && rest == SetOf(s.work.value.stage.plan.others))
    case Commit(applied, ok) => s.work.Some? && s.work.value.stage.Written? && (ok ==> applied)
    case Crash => true
    case MergeResults(row, winner) => {row, winner} <= s.results && row != winner && row.route == winner.route
        && row.offset <= winner.offset
    case MergeDeliveries(d, winner) => {d, winner} <= s.deliveries && d != winner && d.place == winner.place
  }

  ghost function Next(prefix: string, s: State, step: Step): State {
    match step
    case Poll(batch) => s.(work := Some(Work(batch, s.committed, Unplanned)))
    case Plan(prior) =>
      if s.work.None? then s
      else
        var draft := DraftOf(prefix, prior, s.work.value.batch);
        if draft.None? then s else s.(work := Some(s.work.value.(stage := Delivering(draft.value))))
    case Deliver(part, ok) =>
      if s.work.None? || !s.work.value.stage.Delivering? then s
      else s.(deliveries := s.deliveries + part,
              work := Some(s.work.value.(stage := if ok then Writing(s.work.value.stage.plan) else Unplanned)))
    case Write(rows, rest, ok) =>
      if s.work.None? then s
      else s.(results := s.results + rows, others := s.others + rest,
              work := Some(s.work.value.(stage := if ok then Written else Unplanned)))
    case Commit(applied, ok) =>
      if s.work.None? then s
      else s.(committed := if applied then s.committed + OffsetsOf(s.work.value.batch) else s.committed,
              work := if ok then None else Some(s.work.value.(stage := Unplanned)))
    case Crash => s.(work := None)
    case MergeResults(row, _) => s.(results := s.results - {row})
    case MergeDeliveries(d, _) => s.(deliveries := s.deliveries - {d})
  }

  // What every step keeps.

  /** Every recorded hash is that of the log, every output is covered by a delivery. */
  ghost predicate Faithful(log: Log, s: State) {
    && (forall d :: d in s.deliveries ==> FromLog(log, d))
    && (forall r :: r in s.results ==>
          r.payload.Result? && r == RowOf(Message(Place(r.source, r.offset), r.payload))
          && Message(Place(r.source, r.offset), r.payload) in s.deliveries)
    && (forall row :: row in s.others ==> Sourced(s.deliveries, row))
  }

  ghost predicate Sourced(deliveries: set<Message>, row: SideRow)
  {
    exists d :: d in deliveries && row in SideRowsOf(d)
  }

  /** A key stays on one route. */
  ghost predicate OneRoute(s: State) {
    forall a, b :: a in s.results && b in s.results && a.route == b.route ==> a.source == b.source
  }

  /** A row of the same route and source at this offset or later. */
  ghost predicate Persisted(results: set<Row>, m: Message)
    requires m.payload.Result?
  {
    exists r :: r in results && r.route == RouteOf(m) && r.source == m.place.source && m.place.offset <= r.offset
  }

  /** Every row of the message in the other tables. */
  ghost predicate SidePersisted(others: set<SideRow>, m: Message)
  {
    forall row :: row in SideRowsOf(m) ==> row in others
  }

  ghost predicate ResultsPersisted(log: Log, s: State) {
    forall p :: p in log && log[p].Result? && p.offset < At(s.committed, p.source) ==>
        Persisted(s.results, Message(p, log[p]))
  }

  ghost predicate SidesPersisted(log: Log, s: State) {
    forall p :: p in log && p.offset < At(s.committed, p.source) ==> SidePersisted(s.others, Message(p, log[p]))
  }

  ghost predicate CommittedIsPersisted(log: Log, s: State) { ResultsPersisted(log, s) && SidesPersisted(log, s) }

  ghost predicate RouteSafe(results: set<Row>, batch: seq<Message>) {
    forall m, r ::
        m in batch && m.payload.Result? && r in results && r.route == RouteOf(m) ==> r.source == m.place.source
  }

  ghost predicate Planned(s: State, batch: seq<Message>, plan: Draft) {
    Groups(plan, batch) && RouteSafe(s.results, batch) && forall a, b :: a in batch && b in batch ==> Compatible(a, b)
  }

  ghost predicate WorkInv(log: Log, s: State, w: Work) {
    && Consecutive(log, w.base, w.batch)
    && (forall source :: At(w.base, source) <= At(s.committed, source))
    && match w.stage
       case Unplanned => true
       case Delivering(plan) => Planned(s, w.batch, plan)
       case Writing(plan) => Planned(s, w.batch, plan) && SetOf(w.batch) <= s.deliveries
       case Written =>
         && (forall m :: m in w.batch && m.payload.Result? ==> Persisted(s.results, m))
         && (forall m :: m in w.batch ==> SidePersisted(s.others, m))
  }

  ghost predicate Inv(log: Log, s: State) {
    Faithful(log, s) && OneRoute(s) && CommittedIsPersisted(log, s) && (s.work.Some? ==> WorkInv(log, s, s.work.value))
  }

  lemma {:induction false} BatchIsFromLog(log: Log, base: Offsets, batch: seq<Message>)
    requires Consecutive(log, base, batch)
    ensures forall m :: m in batch ==> FromLog(log, m)
  {
    if batch != [] {
      assert batch == batch[..|batch| - 1] + [batch[|batch| - 1]];
      BatchIsFromLog(log, base, batch[..|batch| - 1]);
    }
  }

  /** Whatever lies below what the batch would commit was committed before or is in the batch. */
  lemma {:induction false} NothingSkipped(log: Log, base: Offsets, batch: seq<Message>, p: Place)
    requires Consecutive(log, base, batch) && p in log && p.offset < At(base + OffsetsOf(batch), p.source)
    ensures p.offset < At(base, p.source) || Message(p, log[p]) in batch
  {
    if batch != [] {
      var init, m := batch[..|batch| - 1], batch[|batch| - 1];
      assert batch == init + [m];
      if p.source == m.place.source {
        if p.offset < At(base + OffsetsOf(init), p.source) {
          NothingSkipped(log, base, init, p);
        } else {
          assert p == m.place;
        }
      } else {
        assert At(base + OffsetsOf(batch), p.source) == At(base + OffsetsOf(init), p.source);
        NothingSkipped(log, base, init, p);
      }
    }
  }

  lemma {:induction false} CommitsForward(log: Log, base: Offsets, batch: seq<Message>, source: Source)
    requires Consecutive(log, base, batch)
    ensures At(base, source) <= At(base + OffsetsOf(batch), source)
  {
    if batch != [] {
      CommitsForward(log, base, batch[..|batch| - 1], source);
      var m := batch[|batch| - 1];
      if source != m.place.source {
        assert At(base + OffsetsOf(batch), source) == At(base + OffsetsOf(batch[..|batch| - 1]), source);
      }
    }
  }

  /** An accepted batch moves no route that the tables hold: the lookups have seen every one of them. */
  lemma AcceptedIsRouteSafe(prefix: string, s: State, batch: seq<Message>, prior: Prior)
    requires OneRoute(s) && Reads(s, batch, prior) && Acceptable(prefix, prior, batch)
    ensures RouteSafe(s.results, batch)
  {
    forall m, r | m in batch && m.payload.Result? && r in s.results && r.route == RouteOf(m)
      ensures r.source == m.place.source
    {
      var k := RouteOf(m);
      assert k in prior.routes && Fine(prefix, prior, m);
      var a, b :| a in s.results && b in s.results && a.route == k == b.route
                  && a.source.topic == prior.routes[k].topic && b.source.partition == prior.routes[k].partition;
      assert a.source == r.source && b.source == r.source;
    }
  }

  lemma PlanKeeps(log: Log, prefix: string, s: State, prior: Prior)
    requires Inv(log, s) && Allowed(log, s, Plan(prior))
    ensures Inv(log, Next(prefix, s, Plan(prior)))
  {
    var w := s.work.value;
    RefusedExactly(prefix, prior, w.batch);
    if DraftOf(prefix, prior, w.batch).Some? { AcceptedIsRouteSafe(prefix, s, w.batch, prior); }
  }

  lemma DeliverKeeps(log: Log, prefix: string, s: State, part: set<Message>, ok: bool)
    requires Inv(log, s) && Allowed(log, s, Deliver(part, ok))
    ensures Inv(log, Next(prefix, s, Deliver(part, ok)))
  {
    BatchIsFromLog(log, s.work.value.base, s.work.value.batch);
  }

  /** The tables once rows and side rows of a planned batch have been added. */
  function Added(s: State, rows: set<Row>, rest: set<SideRow>): State {
    s.(results := s.results + rows, others := s.others + rest)
  }

  ghost predicate OfBatch(batch: seq<Message>, rows: set<Row>, rest: set<SideRow>) {
    && (forall r :: r in rows ==> exists m :: m in batch && m.payload.Result? && r == RowOf(m))
    && (forall r :: r in rest ==> exists m :: m in batch && r in SideRowsOf(m))
  }

  lemma PlannedRows(batch: seq<Message>, plan: Draft, rows: set<Row>, rest: set<SideRow>)
    requires Groups(plan, batch) && rows <= SetOf(plan.results) && rest <= SetOf(plan.others)
    ensures OfBatch(batch, rows, rest)
  {
    forall r | r in rows
      ensures exists m :: m in batch && m.payload.Result? && r == RowOf(m)
    {
      assert r in plan.results;
    }
    forall r | r in rest
      ensures exists m :: m in batch && r in SideRowsOf(m)
    {
      assert r in plan.others;
    }
  }

  lemma AddedIsFaithful(log: Log, s: State, batch: seq<Message>, rows: set<Row>, rest: set<SideRow>)
    requires Faithful(log, s) && SetOf(batch) <= s.deliveries && OfBatch(batch, rows, rest)
    ensures Faithful(log, Added(s, rows, rest))
  {
    forall r | r in rows
      ensures r.payload.Result? && r == RowOf(Message(Place(r.source, r.offset), r.payload))
      ensures Message(Place(r.source, r.offset), r.payload) in s.deliveries
    {
      var m :| m in batch && m.payload.Result? && r == RowOf(m);
      assert m in SetOf(batch) && m == Message(Place(r.source, r.offset), r.payload);
    }
    forall r | r in rest
      ensures Sourced(s.deliveries, r)
    {
      var m :| m in batch && r in SideRowsOf(m);
      assert m in SetOf(batch);
    }
  }

  lemma AddedIsOneRoute(s: State, batch: seq<Message>, rows: set<Row>, rest: set<SideRow>)
    requires OneRoute(s) && OfBatch(batch, rows, rest) && RouteSafe(s.results, batch)
    requires forall x, y :: x in batch && y in batch ==> Compatible(x, y)
    ensures OneRoute(Added(s, rows, rest))
  {
    forall a, b | a in s.results + rows && b in s.results + rows && a.route == b.route
      ensures a.source == b.source
    {
      WrittenTogether(s, batch, rows, a, b);
    }
  }

  /** Once everything planned is written, every message of the batch is persisted with all that it brings. */
  lemma AllWritten(results: set<Row>, others: set<SideRow>, batch: seq<Message>, plan: Draft)
    requires Groups(plan, batch) && SetOf(plan.results) <= results && SetOf(plan.others) <= others
    ensures forall m :: m in batch && m.payload.Result? ==> Persisted(results, m)
    ensures forall m :: m in batch ==> SidePersisted(others, m)
  {
    forall m | m in batch && m.payload.Result?
      ensures Persisted(results, m)
    {
      assert RowOf(m) in plan.results;
      assert RowOf(m) in SetOf(plan.results);
    }
    forall m, row | m in batch && row in SideRowsOf(m)
      ensures row in others
    {
      assert row in plan.others;
      assert row in SetOf(plan.others);
    }
  }

  lemma WriteKeeps(log: Log, prefix: string, s: State, rows: set<Row>, rest: set<SideRow>, ok: bool)
    requires Inv(log, s) && Allowed(log, s, Write(rows, rest, ok))
    ensures Inv(log, Next(prefix, s, Write(rows, rest, ok)))
  {
    var w, s' := s.work.value, Added(s, rows, rest);
    PlannedRows(w.batch, w.stage.plan, rows, rest);
    AddedIsFaithful(log, s, w.batch, rows, rest);
    AddedIsOneRoute(s, w.batch, rows, rest);
    StillPersisted(log, s, s');
    if ok { AllWritten(s'.results, s'.others, w.batch, w.stage.plan); }
  }

  lemma WrittenTogether(s: State, batch: seq<Message>, rows: set<Row>, a: Row, b: Row)
    requires OneRoute(s) && RouteSafe(s.results, batch) && forall x, y :: x in batch && y in batch ==> Compatible(x, y)
    requires forall r :: r in rows ==> exists m :: m in batch && m.payload.Result? && r == RowOf(m)
    requires a in s.results + rows && b in s.results + rows && a.route == b.route
    ensures a.source == b.source
  {
  }

  /** More rows, or all but dominated rows: what was persisted still is. */
  lemma StillPersisted(log: Log, s: State, s': State)
    requires CommittedIsPersisted(log, s) && s'.committed == s.committed
    requires s.results <= s'.results && s.others <= s'.others
    ensures CommittedIsPersisted(log, s')
  {
    forall p | p in log && log[p].Result? && p.offset < At(s'.committed, p.source)
      ensures Persisted(s'.results, Message(p, log[p]))
    {
      var m := Message(p, log[p]);
      var r :| r in s.results && r.route == RouteOf(m) && r.source == m.place.source && m.place.offset <= r.offset;
      assert r in s'.results;
    }
  }

  /** Whatever a commit moves the offsets past was committed before or is in the batch. */
  lemma NewlyCommitted(log: Log, s: State, w: Work, p: Place)
    requires WorkInv(log, s, w) && p in log && At(s.committed, p.source) <= p.offset
    requires p.offset < At(s.committed + OffsetsOf(w.batch), p.source)
    ensures Message(p, log[p]) in w.batch
  {
    assert At(s.committed + OffsetsOf(w.batch), p.source) == At(w.base + OffsetsOf(w.batch), p.source);
    NothingSkipped(log, w.base, w.batch, p);
  }

  lemma CommitPersists(log: Log, s: State, w: Work)
    requires CommittedIsPersisted(log, s) && WorkInv(log, s, w) && w.stage.Written?
    ensures CommittedIsPersisted(log, s.(committed := s.committed + OffsetsOf(w.batch)))
  {
    var s' := s.(committed := s.committed + OffsetsOf(w.batch));
    forall p | p in log && p.offset < At(s'.committed, p.source)
      ensures log[p].Result? ==> Persisted(s.results, Message(p, log[p]))
      ensures SidePersisted(s.others, Message(p, log[p]))
    {
      if At(s.committed, p.source) <= p.offset { NewlyCommitted(log, s, w, p); }
    }
  }

  lemma CommitKeeps(log: Log, prefix: string, s: State, applied: bool, ok: bool)
    requires Inv(log, s) && Allowed(log, s, Commit(applied, ok))
    ensures Inv(log, Next(prefix, s, Commit(applied, ok)))
  {
    var w, s' := s.work.value, Next(prefix, s, Commit(applied, ok));
    if applied {
      CommitPersists(log, s, w);
      forall source
        ensures At(w.base, source) <= At(s'.committed, source)
      {
        CommitsForward(log, w.base, w.batch, source);
      }
    }
  }

  lemma MergeKeeps(log: Log, prefix: string, s: State, row: Row, winner: Row)
    requires Inv(log, s) && Allowed(log, s, MergeResults(row, winner))
    ensures Inv(log, Next(prefix, s, MergeResults(row, winner)))
  {
    var s' := Next(prefix, s, MergeResults(row, winner));
    assert row.source == winner.source;
    forall m: Message | m.payload.Result? && Persisted(s.results, m)
      ensures Persisted(s'.results, m)
    {
      MergedStaysPersisted(s.results, row, winner, m);
    }
  }

  lemma MergedStaysPersisted(results: set<Row>, row: Row, winner: Row, m: Message)
    requires m.payload.Result? && Persisted(results, m)
    requires {row, winner} <= results && row != winner && row.route == winner.route
    requires row.offset <= winner.offset && row.source == winner.source
    ensures Persisted(results - {row}, m)
  {
    var r :| r in results && r.route == RouteOf(m) && r.source == m.place.source && m.place.offset <= r.offset;
    assert (if r == row then winner else r) in results - {row};
  }

  /** One step of any kind keeps the invariant. */
  lemma StepKeeps(log: Log, prefix: string, s: State, step: Step)
    requires Inv(log, s) && Allowed(log, s, step)
    ensures Inv(log, Next(prefix, s, step))
  {
    match step
    case Poll(_) =>
    case Plan(prior) => PlanKeeps(log, prefix, s, prior);
    case Deliver(part, ok) => DeliverKeeps(log, prefix, s, part, ok);
    case Write(rows, rest, ok) => WriteKeeps(log, prefix, s, rows, rest, ok);
    case Commit(applied, ok) => CommitKeeps(log, prefix, s, applied, ok);
    case Crash =>
    case MergeResults(row, winner) => MergeKeeps(log, prefix, s, row, winner);
    case MergeDeliveries(d, winner) => assert false;
  }

  ghost function Run(prefix: string, steps: seq<Step>): State {
    if steps == [] then INITIAL else Next(prefix, Run(prefix, steps[..|steps| - 1]), steps[|steps| - 1])
  }

  ghost predicate AllowedRun(log: Log, prefix: string, steps: seq<Step>) {
    steps == [] || (AllowedRun(log, prefix, steps[..|steps| - 1])
                    && Allowed(log, Run(prefix, steps[..|steps| - 1]), steps[|steps| - 1]))
  }

  /** For every schedule of failures, crashes, retries, re-batching and merges: one hash per place, every output covered
      by a delivery, one route per key, and everything committed persisted. */
  lemma {:induction false} RunKeeps(log: Log, prefix: string, steps: seq<Step>)
    requires AllowedRun(log, prefix, steps)
    ensures Inv(log, Run(prefix, steps))
    ensures var s := Run(prefix, steps);
            forall a, b :: a in s.deliveries && b in s.deliveries && a.place == b.place ==> a.payload == b.payload
  {
    if steps != [] {
      RunKeeps(log, prefix, steps[..|steps| - 1]);
      StepKeeps(log, prefix, Run(prefix, steps[..|steps| - 1]), steps[|steps| - 1]);
    }
  }

  /** Some row of the key of `r` is at least as late. */
  ghost predicate Reaches(results: set<Row>, r: Row) {
    exists now :: now in results && now.route == r.route && r.offset <= now.offset
  }

  lemma StepReaches(log: Log, prefix: string, s: State, step: Step, r: Row)
    requires Inv(log, s) && Allowed(log, s, step) && Reaches(s.results, r)
    ensures Reaches(Next(prefix, s, step).results, r)
  {
    var s' := Next(prefix, s, step);
    var now :| now in s.results && now.route == r.route && r.offset <= now.offset;
    if step.MergeResults? && now == step.row { assert step.winner in s'.results; } else { assert now in s'.results; }
  }

  /** The offset that a reader sees under a key never decreases, whatever happens between two reads. */
  lemma {:induction false} VisibleNeverDecreases(log: Log, prefix: string, before: seq<Step>, more: seq<Step>, r: Row)
    requires AllowedRun(log, prefix, before + more) && r in Run(prefix, before).results
    ensures Reaches(Run(prefix, before + more).results, r)
  {
    if more == [] {
      assert before + more == before;
    } else {
      var init, steps := more[..|more| - 1], before + more;
      assert steps[..|steps| - 1] == before + init && steps[|steps| - 1] == more[|more| - 1];
      VisibleNeverDecreases(log, prefix, before, init, r);
      RunKeeps(log, prefix, before + init);
      StepReaches(log, prefix, Run(prefix, before + init), more[|more| - 1], r);
    }
  }

  // The logical value of the tables.

  /** What the query returns for a key: the payload at the greatest offset. */
  ghost predicate IsVisible(results: set<Row>, row: Row) {
    row in results && forall r :: r in results && r.route == row.route ==> r.offset <= row.offset
  }

  /** Whatever was delivered twice and whatever rows merges have left, a key has one visible payload. */
  lemma VisibleIsUnique(log: Log, prefix: string, steps: seq<Step>, a: Row, b: Row)
    requires AllowedRun(log, prefix, steps) && a.route == b.route
    requires var s := Run(prefix, steps); IsVisible(s.results, a) && IsVisible(s.results, b)
    ensures a == b
  {
    RunKeeps(log, prefix, steps);
    var p := Place(a.source, a.offset);
    assert a.offset == b.offset && a.source == b.source;
    assert FromLog(log, Message(p, a.payload)) && FromLog(log, Message(p, b.payload));
  }

  ghost predicate AllCommitted(log: Log, s: State) { forall p :: p in log ==> p.offset < At(s.committed, p.source) }

  ghost predicate Lists(log: Log, ms: seq<Message>) { forall m :: m in ms <==> FromLog(log, m) && m.payload.Result? }

  lemma CommittedLogIsCompatible(log: Log, s: State, ms: seq<Message>)
    requires Inv(log, s) && AllCommitted(log, s) && Lists(log, ms)
    ensures AllResults(ms) && forall a, b :: a in ms && b in ms ==> Compatible(a, b)
  {
    forall a, b | a in ms && b in ms
      ensures Compatible(a, b)
    {
      assert Persisted(s.results, a) && Persisted(s.results, b);
    }
  }

  ghost predicate AllPersisted(results: set<Row>, ms: seq<Message>) {
    forall m :: m in ms && m.payload.Result? ==> Persisted(results, m)
  }

  ghost predicate AllListed(results: set<Row>, ms: seq<Message>) {
    forall r :: r in results ==> MessageOf(r) in ms && r.payload.Result? && RowOf(MessageOf(r)) == r
  }

  ghost predicate OnePlace(ms: seq<Message>) { forall a, b :: a in ms && b in ms && a.place == b.place ==> a == b }

  /** The log's messages and the tables' rows, once everything is committed: each is found among the other. */
  ghost predicate Mirrors(results: set<Row>, ms: seq<Message>) {
    AllResults(ms) && AllPersisted(results, ms) && AllListed(results, ms) && OnePlace(ms)
  }

  function MessageOf(r: Row): Message { Message(Place(r.source, r.offset), r.payload) }

  lemma CommittedMirrors(log: Log, s: State, ms: seq<Message>)
    requires Inv(log, s) && AllCommitted(log, s) && Lists(log, ms)
    ensures Mirrors(s.results, ms)
  {
    forall m | m in ms
      ensures Persisted(s.results, m)
    {
      assert m.place in log && log[m.place] == m.payload;
    }
    forall r | r in s.results
      ensures MessageOf(r) in ms
    {
      assert FromLog(log, MessageOf(r));
    }
  }

  lemma VisibleIsLatest(results: set<Row>, ms: seq<Message>, row: Row)
    requires Mirrors(results, ms) && IsVisible(results, row)
    ensures IsLatestOf(ms, row.route, row)
  {
    var m := MessageOf(row);
    assert m in ms && RowOf(m) == row;
    forall x | x in ms && x.payload.Result? && RouteOf(x) == row.route
      ensures x.place.offset <= row.offset
    {
      assert Persisted(results, x);
    }
  }

  lemma RowAfter(results: set<Row>, ms: seq<Message>, route: RouteKey, row: Row) returns (r: Row)
    requires AllPersisted(results, ms) && IsLatestOf(ms, route, row)
    ensures r in results && r.route == route && r.source == row.source && row.offset <= r.offset
  {
    var m :| m in ms && m.payload.Result? && RouteOf(m) == route && row == RowOf(m);
    r :| r in results && r.route == RouteOf(m) && r.source == m.place.source && m.place.offset <= r.offset;
  }

  lemma RowNotLater(results: set<Row>, ms: seq<Message>, row: Row, q: Row)
    requires AllListed(results, ms) && IsLatestOf(ms, row.route, row) && q in results && q.route == row.route
    ensures q.offset <= row.offset
    ensures OnePlace(ms) && q.offset == row.offset && q.source == row.source ==> q == row
  {
    var n := MessageOf(q);
    assert n in ms && RowOf(n) == q;
    var m :| m in ms && m.payload.Result? && RouteOf(m) == row.route && row == RowOf(m);
    if q.offset == row.offset && q.source == row.source { assert m.place == n.place; }
  }

  lemma LatestIsVisible(results: set<Row>, ms: seq<Message>, row: Row)
    requires Mirrors(results, ms) && IsLatestOf(ms, row.route, row)
    ensures IsVisible(results, row)
  {
    var r := RowAfter(results, ms, row.route, row);
    RowNotLater(results, ms, row, r);
    forall q | q in results && q.route == row.route
      ensures q.offset <= row.offset
    {
      RowNotLater(results, ms, row, q);
    }
  }

  /** The latest row of a route is one row: a route lives in one partition. */
  lemma LatestIsUnique(ms: seq<Message>, route: RouteKey, a: Row, b: Row)
    requires forall x, y :: x in ms && y in ms ==> Compatible(x, y)
    requires IsLatestOf(ms, route, a) && IsLatestOf(ms, route, b)
    ensures a == b
  {
    var m :| m in ms && m.payload.Result? && RouteOf(m) == route && a == RowOf(m);
    var n :| n in ms && n.payload.Result? && RouteOf(n) == route && b == RowOf(n);
    assert Compatible(m, n) && m.place.offset <= b.offset && n.place.offset <= a.offset;
    assert m.place == n.place;
  }

  /** Once the offsets are committed to the end of the log, what readers see is what the local reference store holds
      after the same messages in any order and with any repetitions: the last message of every key. */
  lemma SinkMeetsReference(log: Log, prefix: string, steps: seq<Step>, ms: seq<Message>, row: Row)
    requires AllowedRun(log, prefix, steps) && AllCommitted(log, Run(prefix, steps)) && Lists(log, ms)
    ensures AllResults(ms)
    ensures IsVisible(Run(prefix, steps).results, row)
            <==> row.route in InsertAll(ms).snapshots && InsertAll(ms).snapshots[row.route] == row
  {
    RunKeeps(log, prefix, steps);
    CommittedLogIsCompatible(log, Run(prefix, steps), ms);
    CommittedMirrors(log, Run(prefix, steps), ms);
    ReferenceHoldsVisible(Run(prefix, steps).results, ms, row);
  }

  lemma ReferenceHoldsVisible(results: set<Row>, ms: seq<Message>, row: Row)
    requires Mirrors(results, ms) && forall a, b :: a in ms && b in ms ==> Compatible(a, b)
    ensures IsVisible(results, row)
            <==> row.route in InsertAll(ms).snapshots && InsertAll(ms).snapshots[row.route] == row
  {
    StoreHoldsLatest(ms);
    var s := InsertAll(ms);
    if IsVisible(results, row) {
      VisibleIsLatest(results, ms, row);
      assert row.route in s.snapshots;
      LatestIsUnique(ms, row.route, row, s.snapshots[row.route]);
    }
    if row.route in s.snapshots && s.snapshots[row.route] == row { LatestIsVisible(results, ms, row); }
  }
}
