/** The streaming duplicate filter: one expiry per key, in processing time, cleaned up by timers that may fire late. */
module Dedup {
  import opened Seqs

  datatype Timer<K> = Timer(key: K, time: int)

  datatype State<K> = State(expires: map<K, int>, timers: set<Timer<K>>, now: int)

  predicate Accepts<K(==)>(s: State<K>, key: K, now: int) { key !in s.expires || s.expires[key] <= now }

  function Offer<K(==)>(s: State<K>, key: K, now: int, span: nat): State<K> {
    if Accepts(s, key, now) then State(s.expires[key := now + span], s.timers + {Timer(key, now + span)}, now)
    else s.(now := now)
  }

  function Fire<K(==)>(s: State<K>, t: Timer<K>, now: int): State<K> {
    State(if t.key in s.expires && s.expires[t.key] <= t.time then s.expires - {t.key} else s.expires,
          s.timers - {t}, now)
  }

  /** The operator as the job keeps it. */
  class Deduplicate<K(==)> {
    const span: nat
    var expires: map<K, int>
    var timers: set<Timer<K>>
    var now: int

    ghost function Model(): State<K>
      reads this
    {
      State(expires, timers, now)
    }

    constructor (span: nat)
      ensures this.span == span && expires == map[] && timers == {}
    {
      this.span := span;
      expires, timers, now := map[], {}, 0;
    }

    method ProcessElement(key: K, time: int) returns (accepted: bool)
      modifies this
      ensures accepted == Accepts(old(Model()), key, time) && Model() == Offer(old(Model()), key, time, span)
    {
      now := time;
      if key in expires && time < expires[key] { return false; }
      expires := expires[key := time + span];
      timers := timers + {Timer(key, time + span)};
      return true;
    }

    method OnTimer(t: Timer<K>, time: int)
      modifies this
      ensures Model() == Fire(old(Model()), t, time)
    {
      now := time;
      timers := timers - {t};
      if t.key in expires && t.time >= expires[t.key] { expires := expires - {t.key}; }
    }
  }

  /** Elements are offered in processing-time order; an armed timer fires at its time or at any later one. */
  datatype Step<K> = Element(key: K, time: int) | Cleanup(timer: Timer<K>, time: int)

  function Next<K(==)>(s: State<K>, step: Step<K>, span: nat): State<K> {
    match step
    case Element(key, time) => Offer(s, key, time, span)
    case Cleanup(t, time) => Fire(s, t, time)
  }

  predicate Allowed<K(==)>(s: State<K>, step: Step<K>) {
    s.now <= step.time && (step.Cleanup? ==> step.timer in s.timers && step.timer.time <= step.time)
  }

  function Run<K(==)>(steps: seq<Step<K>>, span: nat): State<K> {
    if steps == [] then State(map[], {}, 0) else Next(Run(steps[..|steps| - 1], span), steps[|steps| - 1], span)
  }

  predicate AllowedRun<K(==)>(steps: seq<Step<K>>, span: nat) {
    steps == []
        || (AllowedRun(steps[..|steps| - 1], span) && Allowed(Run(steps[..|steps| - 1], span), steps[|steps| - 1]))
  }

  datatype Arrival<K> = Arrival(key: K, time: int)

  /** The elements of a run, without its timers. */
  function Elements<K>(steps: seq<Step<K>>): seq<Arrival<K>> {
    if steps == [] then []
    else
      var init, last := Elements(steps[..|steps| - 1]), steps[|steps| - 1];
      if last.Element? then init + [Arrival(last.key, last.time)] else init
  }

  // The promise, said without expiries or timers.

  predicate Far(prior: Option<int>, time: int, span: nat) { prior.None? || prior.value + span <= time }

  /** When the last accepted element of a key came: an element is accepted if the last one before it is `span` away. */
  function LastAccepted<K(==)>(arrivals: seq<Arrival<K>>, key: K, span: nat): Option<int> {
    if arrivals == [] then None
    else
      var prior, a := LastAccepted(arrivals[..|arrivals| - 1], key, span), arrivals[|arrivals| - 1];
      if a.key == key && Far(prior, a.time, span) then Some(a.time) else prior
  }

  predicate IsAccepted<K(==)>(arrivals: seq<Arrival<K>>, n: nat, span: nat)
    requires n < |arrivals|
  {
    Far(LastAccepted(arrivals[..n], arrivals[n].key, span), arrivals[n].time, span)
  }

  /** What the held expiry of a key says of the last accepted element. */
  predicate Holds<K(==)>(s: State<K>, arrivals: seq<Arrival<K>>, key: K, span: nat) {
    var last := LastAccepted(arrivals, key, span);
    if key in s.expires then last == Some(s.expires[key] - span) else Far(last, s.now, span)
  }

  lemma StepHolds<K>(s: State<K>, arrivals: seq<Arrival<K>>, step: Step<K>, key: K, span: nat)
    requires Holds(s, arrivals, key, span) && (step.Element? ==> Holds(s, arrivals, step.key, span)) && Allowed(s, step)
    ensures step.Element? ==>
            (Accepts(s, step.key, step.time) <==> Far(LastAccepted(arrivals, step.key, span), step.time, span))
    ensures Holds(Next(s, step, span),
                  if step.Element? then arrivals + [Arrival(step.key, step.time)] else arrivals, key, span)
  {
    if step.Element? {
      assert (arrivals + [Arrival(step.key, step.time)])[..|arrivals|] == arrivals;
    }
  }

  /** After any run, with any of its timers fired or not, what is held answers exactly for the elements. */
  lemma {:induction false} RunHolds<K>(steps: seq<Step<K>>, key: K, span: nat)
    requires AllowedRun(steps, span)
    ensures Holds(Run(steps, span), Elements(steps), key, span)
  {
    if steps != [] {
      var init, step := steps[..|steps| - 1], steps[|steps| - 1];
      RunHolds(init, key, span);
      if step.Element? { RunHolds(init, step.key, span); }
      StepHolds(Run(init, span), Elements(init), step, key, span);
    }
  }

  /** Cleanup never changes a decision: it depends on the elements and their times alone. */
  lemma DecisionsIgnoreCleanup<K>(steps: seq<Step<K>>, key: K, time: int, span: nat)
    requires AllowedRun(steps, span) && Run(steps, span).now <= time
    ensures Accepts(Run(steps, span), key, time) <==> Far(LastAccepted(Elements(steps), key, span), time, span)
  {
    RunHolds(steps, key, span);
  }

  predicate Ordered<K>(arrivals: seq<Arrival<K>>) {
    forall i, j :: 0 <= i < j < |arrivals| ==> arrivals[i].time <= arrivals[j].time
  }

  lemma {:induction false} LastAcceptedIs<K>(arrivals: seq<Arrival<K>>, key: K, span: nat)
    requires Ordered(arrivals)
    ensures var last := LastAccepted(arrivals, key, span);
            && (last.Some? ==>
                  exists m :: 0 <= m < |arrivals| && arrivals[m] == Arrival(key, last.value)
                              && IsAccepted(arrivals, m, span))
            && (forall m :: 0 <= m < |arrivals| && arrivals[m].key == key && IsAccepted(arrivals, m, span) ==>
                  last.Some? && arrivals[m].time <= last.value)
            && (last.None? ==> forall m :: 0 <= m < |arrivals| ==> arrivals[m].key != key)
  {
    if arrivals != [] {
      var init, n := arrivals[..|arrivals| - 1], |arrivals| - 1;
      LastAcceptedIs(init, key, span);
      assert forall m :: 0 <= m < n ==> init[m] == arrivals[m] && init[..m] == arrivals[..m];
      assert forall m :: 0 <= m < n ==> (IsAccepted(init, m, span) <==> IsAccepted(arrivals, m, span));
    }
  }

  /** Two accepted elements of one key are at least the promised span apart. */
  lemma AcceptedAreSpaced<K>(arrivals: seq<Arrival<K>>, i: nat, j: nat, span: nat)
    requires Ordered(arrivals) && i < j < |arrivals| && arrivals[i].key == arrivals[j].key
    requires IsAccepted(arrivals, i, span) && IsAccepted(arrivals, j, span)
    ensures arrivals[i].time + span <= arrivals[j].time
  {
    LastAcceptedIs(arrivals[..j], arrivals[j].key, span);
    assert arrivals[..j][i] == arrivals[i] && arrivals[..j][..i] == arrivals[..i];
    assert IsAccepted(arrivals[..j], i, span);
  }

  /** Every dropped element comes less than the span after an accepted one of its key. */
  lemma DropsAreCovered<K>(arrivals: seq<Arrival<K>>, n: nat, span: nat)
    requires Ordered(arrivals) && n < |arrivals| && !IsAccepted(arrivals, n, span)
    ensures exists m :: 0 <= m < n && arrivals[m].key == arrivals[n].key && IsAccepted(arrivals, m, span)
                        && arrivals[m].time <= arrivals[n].time < arrivals[m].time + span
  {
    LastAcceptedIs(arrivals[..n], arrivals[n].key, span);
    var last := LastAccepted(arrivals[..n], arrivals[n].key, span);
    var m :| 0 <= m < n && arrivals[..n][m] == Arrival(arrivals[n].key, last.value)
             && IsAccepted(arrivals[..n], m, span);
    assert arrivals[..n][..m] == arrivals[..m];
  }

  /** In a run shorter than the span, exactly the first element of every key is accepted. */
  lemma ShortRunAcceptsFirsts<K>(arrivals: seq<Arrival<K>>, n: nat, span: nat)
    requires Ordered(arrivals) && n < |arrivals| && arrivals[n].time < arrivals[0].time + span
    ensures IsAccepted(arrivals, n, span) <==> forall m :: 0 <= m < n ==> arrivals[m].key != arrivals[n].key
  {
    LastAcceptedIs(arrivals[..n], arrivals[n].key, span);
    var last := LastAccepted(arrivals[..n], arrivals[n].key, span);
    if last.Some? {
      var m :| 0 <= m < n && arrivals[..n][m] == Arrival(arrivals[n].key, last.value)
               && IsAccepted(arrivals[..n], m, span);
      assert arrivals[0].time <= arrivals[m].time == last.value;
    }
  }
}
