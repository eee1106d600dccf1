/** The operator that keeps the running total of one metric row and emits it as full snapshots. */
module Aggregate {
  import opened Seqs
  import opened Events
  import opened Measurement
  import opened Tallies

  datatype Visibility = Visibility(receivedAt: nat, eventTime: nat)

  datatype Total = Total(values: Tally, receivedAt: nat)

  /** A full value of the row, with the receipts that became visible in it. */
  datatype Snapshot = Snapshot(values: Tally, receivedAt: nat, visible: map<string, Visibility>)

  datatype State = State(
    contributions: Latest, aggregate: Option<Total>, nextEmit: Option<int>, receipts: map<string, Visibility>,
    emitTimers: set<int>, cleanupTimers: set<int>, watermark: int, clock: int,
    out: seq<Snapshot>, frozen: seq<Contribution>)

  const INITIAL := State(map[], None, None, map[], {}, {}, NO_WATERMARK, 0, [], [])

  function MinNat(a: nat, b: nat): nat { if a <= b then a else b }

  function Accept(r: Rules, s: State, c: Contribution): State {
    var before := if s.aggregate.None? then ZERO else s.aggregate.value.values;
    var prior := if c.id in s.contributions then s.contributions[c.id] else ZERO;
    var values := Plus(Minus(before, prior), ValuesOf(c));
    var receivedAt := if s.nextEmit.None? || s.aggregate.None? then c.receivedAt
                      else MinNat(s.aggregate.value.receivedAt, c.receivedAt);
    var next := if s.nextEmit.Some? then s.nextEmit.value else s.clock + r.emit;
    s.(aggregate := Some(Total(values, receivedAt)),
       contributions := s.contributions[c.id := ValuesOf(c)],
       receipts := if c.receipt == "" then s.receipts
           else s.receipts[c.receipt := Visibility(c.receivedAt, c.sourceTime)],
       nextEmit := Some(next),
       emitTimers := if s.nextEmit.Some? then s.emitTimers else s.emitTimers + {next},
       cleanupTimers := s.cleanupTimers + {Cleanup(c, r)})
  }

  function Process(r: Rules, s: State, c: Contribution): State {
    if s.watermark >= Cleanup(c, r) then s.(frozen := s.frozen + [c]) else Accept(r, s, c)
  }

  function Current(s: State): Snapshot
    requires s.aggregate.Some?
  {
    Snapshot(s.aggregate.value.values, s.aggregate.value.receivedAt, s.receipts)
  }

  function EmitTimer(s: State): State {
    if s.aggregate.None? then s
    else s.(out := s.out + [Current(s)], receipts := map[], nextEmit := None)
  }

  function CleanupTimer(s: State): State {
    if s.aggregate.None? then s
    else s.(out := s.out + [Current(s)], receipts := map[], nextEmit := None,
            emitTimers := if s.nextEmit.Some? then s.emitTimers - {s.nextEmit.value} else s.emitTimers,
            contributions := map[], aggregate := None)
  }

  ghost function FireEmits(s: State): State
    decreases |s.emitTimers|
  {
    var due := Due(s.emitTimers, s.clock);
    if due == {} then s
    else
      var t := Least(due);
      var s1 := s.(emitTimers := s.emitTimers - {t});
      assert s1.emitTimers < s.emitTimers;
      FireEmits(EmitTimer(s1))
  }

  ghost function FireCleanups(s: State): State
    decreases |s.cleanupTimers|
  {
    var due := Due(s.cleanupTimers, s.watermark);
    if due == {} then s
    else
      var t := Least(due);
      var s1 := s.(cleanupTimers := s.cleanupTimers - {t});
      assert s1.cleanupTimers < s.cleanupTimers;
      FireCleanups(CleanupTimer(s1))
  }

  ghost function AdvanceClock(s: State, p: int): State { if p <= s.clock then s else FireEmits(s.(clock := p)) }

  ghost function AdvanceWatermark(s: State, w: int): State {
    if w <= s.watermark then s else FireCleanups(s.(watermark := w))
  }

  /** The same operator as the job keeps it: fields updated in place. */
  class Operator {
    const rules: Rules
    var contributions: Latest
    var aggregate: Option<Total>
    var nextEmit: Option<int>
    var receipts: map<string, Visibility>
    var emitTimers: set<int>
    var cleanupTimers: set<int>
    var watermark: int
    var clock: int
    var out: seq<Snapshot>
    var frozen: seq<Contribution>

    ghost function Model(): State
      reads this
    {
      State(contributions, aggregate, nextEmit, receipts, emitTimers, cleanupTimers, watermark, clock, out, frozen)
    }

    constructor (rules: Rules)
      ensures this.rules == rules && Model() == INITIAL
    {
      this.rules := rules;
      contributions, aggregate, nextEmit, receipts := map[], None, None, map[];
      emitTimers, cleanupTimers, watermark, clock := {}, {}, NO_WATERMARK, 0;
      out, frozen := [], [];
    }

    method ProcessElement(c: Contribution)
      requires rules.window > 0
      modifies this
      ensures Model() == Process(rules, old(Model()), c)
    {
      var cleanup := c.row.window + rules.window + rules.retention;
      if watermark >= cleanup {
        frozen := frozen + [c];
        return;
      }
      var before := if aggregate.None? then ZERO else aggregate.value.values;
      var prior := if c.id in contributions then contributions[c.id] else ZERO;
      var receivedAt := c.receivedAt;
      if nextEmit.Some? && aggregate.Some? && aggregate.value.receivedAt < receivedAt {
        receivedAt := aggregate.value.receivedAt;
      }
      if c.receipt != "" {
        receipts := receipts[c.receipt := Visibility(c.receivedAt, c.sourceTime)];
      }
      aggregate := Some(Total(Plus(Minus(before, prior), ValuesOf(c)), receivedAt));
      contributions := contributions[c.id := ValuesOf(c)];
      if nextEmit.None? {
        nextEmit := Some(clock + rules.emit);
        emitTimers := emitTimers + {clock + rules.emit};
      }
      cleanupTimers := cleanupTimers + {cleanup};
    }

    method Emit()
      requires aggregate.Some?
      modifies this`out, this`receipts
      ensures out == old(out) + [old(Current(Model()))] && receipts == map[]
    {
      out := out + [Snapshot(aggregate.value.values, aggregate.value.receivedAt, receipts)];
      receipts := map[];
    }

    method EmitTimerFired()
      modifies this
      ensures Model() == EmitTimer(old(Model()))
    {
      if aggregate.None? { return; }
      Emit();
      nextEmit := None;
    }

    method CleanupTimerFired()
      modifies this
      ensures Model() == CleanupTimer(old(Model()))
    {
      if aggregate.None? { return; }
      Emit();
      contributions, aggregate := map[], None;
      if nextEmit.Some? { emitTimers := emitTimers - {nextEmit.value}; }
      nextEmit := None;
    }

    method ProcessingTimeReaches(p: int)
      modifies this
      ensures Model() == AdvanceClock(old(Model()), p)
    {
      if p <= clock { return; }
      clock := p;
      FireEmitTimers();
    }

    method FireEmitTimers()
      modifies this
      ensures Model() == FireEmits(old(Model()))
      decreases |emitTimers|
    {
      if Due(emitTimers, clock) == {} { return; }
      LeastExists(Due(emitTimers, clock));
      var t :| t in Due(emitTimers, clock) && forall u :: u in Due(emitTimers, clock) ==> t <= u;
      assert t == Least(Due(emitTimers, clock)) && emitTimers - {t} < emitTimers;
      emitTimers := emitTimers - {t};
      EmitTimerFired();
      FireEmitTimers();
    }

    method WatermarkReaches(w: int)
      modifies this
      ensures Model() == AdvanceWatermark(old(Model()), w)
    {
      if w <= watermark { return; }
      watermark := w;
      FireCleanupTimers();
    }

    method FireCleanupTimers()
      modifies this
      ensures Model() == FireCleanups(old(Model()))
      decreases |cleanupTimers|
    {
      if Due(cleanupTimers, watermark) == {} { return; }
      LeastExists(Due(cleanupTimers, watermark));
      var t :| t in Due(cleanupTimers, watermark) && forall u :: u in Due(cleanupTimers, watermark) ==> t <= u;
      assert t == Least(Due(cleanupTimers, watermark)) && cleanupTimers - {t} < cleanupTimers;
      cleanupTimers := cleanupTimers - {t};
      CleanupTimerFired();
      FireCleanupTimers();
    }
  }
}
