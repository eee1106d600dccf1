/** What the exposure join owes to the conversions of one click: the click, once, with its final link, and before any
    watermark at which a conversion that the click matches would be given up on. The final link is owed only where the
    impression was not too late. */
module LaneExposure {
  import opened Seqs
  import opened Events
  import opened Measurement
  import opened Streams
  import opened Lane
  import opened ExposureJoin
  import opened ExposureInvariant

  /** Position `j` of the output holds the click of key `k`. */
  predicate Carries(out: seq<Message<LinkedClick>>, j: int, k: Link) {
    0 <= j < |out| && out[j].Record? && ClickLink(out[j].value.click) == k
  }

  ghost predicate Nowhere(out: seq<Message<LinkedClick>>, k: Link) { forall j :: !Carries(out, j, k) }

  /** The legal impression can no longer arrive in time for the click, or was never promised to. */
  ghost predicate ImpressionMissed(r: Rules, u: World, impressionSeen: bool, watermark: int) {
    LinkLegal(u, r) && (!u.linkPromised || (!impressionSeen && u.click.value.time + r.wait <= watermark))
  }

  /** A conversion that is promised to meet the click that matches it. */
  predicate Owed(u: World, v: Event, r: Rules) { v in u.conversions && v in u.promised && MatchLegal(u, v, r) }

  /** Where the click is: not here yet, waiting, or sent exactly once. */
  ghost predicate Placed(u: World, s: State, clickSeen: bool) {
    && (forall e :: e in s.waiting && ClickLink(e) == u.key ==> clickSeen && u.click == Some(e))
    && (!clickSeen ==> Nowhere(s.out, u.key))
    && (clickSeen ==> u.click.Some? && (u.click.value in s.waiting <==> Nowhere(s.out, u.key)))
    && (forall i, j :: Carries(s.out, i, u.key) && Carries(s.out, j, u.key) ==> i == j)
  }

  /** What is sent is the click itself, before any watermark that ends the wait of a conversion it matches. */
  ghost predicate SentInTime(r: Rules, u: World, out: seq<Message<LinkedClick>>) {
    forall j :: Carries(out, j, u.key) ==>
      u.click == Some(out[j].value.click)
      && forall v :: Owed(u, v, r) ==> MarksBelow(out, j, v.time + r.wait)
  }

  ghost predicate SentLinked(r: Rules, u: World, out: seq<Message<LinkedClick>>) {
    forall j :: Carries(out, j, u.key) ==> u.click.Some? && out[j].value.impression == FinalClick(u, r).value.impression
  }

  /** `now` is the instant up to which timers have fired. */
  ghost predicate Good(r: Rules, u: World, s: State, impressionSeen: bool, clickSeen: bool, now: int) {
    && (s.impression.Some? ==> impressionSeen && s.impression == u.impression)
    && (impressionSeen && s.impression.None? ==> u.impression.Some? && u.impression.value.time + r.retention <= now)
    && Placed(u, s, clickSeen)
    && SentInTime(r, u, s.out)
    && (!ImpressionMissed(r, u, impressionSeen, s.watermark) ==> SentLinked(r, u, s.out))
  }

  /** A batch whose click, if it carries the lane's, goes out in time and with its final link. */
  lemma BatchSent(r: Rules, u: World, out: seq<Message<LinkedClick>>, batch: seq<LinkedClick>, seen: int, linked: bool)
    requires MarksUpTo(out, seen)
    requires forall i, j :: Carries(out, i, u.key) && Carries(out, j, u.key) ==> i == j
    requires forall i, j ::
             0 <= i < j < |batch| && ClickLink(batch[i].click) == u.key ==> ClickLink(batch[j].click) != u.key
    requires (exists c :: c in batch && ClickLink(c.click) == u.key) ==> Nowhere(out, u.key)
    requires forall c :: c in batch && ClickLink(c.click) == u.key ==>
               u.click == Some(c.click) && forall v :: Owed(u, v, r) ==> seen < v.time + r.wait
    requires SentInTime(r, u, out)
    requires linked ==> SentLinked(r, u, out)
    requires linked ==> forall c :: c in batch && ClickLink(c.click) == u.key ==>
               u.click.Some? && c.impression == FinalClick(u, r).value.impression
    ensures var out' := out + Records(batch);
            && SentInTime(r, u, out') && (linked ==> SentLinked(r, u, out'))
            && (forall i, j :: Carries(out', i, u.key) && Carries(out', j, u.key) ==> i == j)
            && (Nowhere(out', u.key) <==> Nowhere(out, u.key) && forall c :: c in batch ==> ClickLink(c.click) != u.key)
  {
    var out' := out + Records(batch);
    forall j
      ensures Carries(out', j, u.key) ==> Carries(out, j, u.key) || (|out| <= j < |out'| && batch[j - |out|] in batch)
      ensures Carries(out, j, u.key) ==> Carries(out', j, u.key)
    {
    }
    forall j | Carries(out', j, u.key)
      ensures u.click == Some(out'[j].value.click)
      ensures forall v :: Owed(u, v, r) ==> MarksBelow(out', j, v.time + r.wait)
    {
      if j < |out| {
        assert Carries(out, j, u.key);
      } else {
        assert out'[j].value == batch[j - |out|];
        assert forall i :: 0 <= i < j && out'[i].Mark? ==> i < |out|;
      }
    }
    forall c | c in batch && ClickLink(c.click) == u.key
      ensures exists j :: Carries(out', j, u.key)
    {
      var i :| 0 <= i < |batch| && batch[i] == c;
      assert Carries(out', |out| + i, u.key);
    }
  }

  /** The same when the batch is made of waiting clicks. */
  lemma WaitingSent(r: Rules, u: World, out: seq<Message<LinkedClick>>, clicks: seq<Event>, i: Option<Event>, seen: int,
                    linked: bool)
    requires MarksUpTo(out, seen)
    requires forall i, j :: Carries(out, i, u.key) && Carries(out, j, u.key) ==> i == j
    requires Distinct(clicks, BusinessKey) && forall e :: e in clicks ==> e.kind.Click?
    requires (exists e :: e in clicks && ClickLink(e) == u.key) ==> Nowhere(out, u.key)
    requires forall e :: e in clicks && ClickLink(e) == u.key ==>
               u.click == Some(e) && forall v :: Owed(u, v, r) ==> seen < v.time + r.wait
    requires SentInTime(r, u, out)
    requires linked ==> SentLinked(r, u, out)
    requires linked ==> forall e :: e in clicks && ClickLink(e) == u.key ==>
               u.click.Some? && Enrich(e, i, r).impression == FinalClick(u, r).value.impression
    ensures var out' := out + Records(EnrichAll(clicks, i, r));
            && SentInTime(r, u, out') && (linked ==> SentLinked(r, u, out'))
            && (forall i, j :: Carries(out', i, u.key) && Carries(out', j, u.key) ==> i == j)
            && (Nowhere(out', u.key) <==> Nowhere(out, u.key) && forall e :: e in clicks ==> ClickLink(e) != u.key)
  {
    var batch := EnrichAll(clicks, i, r);
    forall c
      ensures c in batch <==> c.click in clicks && c == Enrich(c.click, i, r)
    {
      EnrichMembers(clicks, i, r, c);
    }
    forall m, n | 0 <= m < n < |batch| && ClickLink(batch[m].click) == u.key
      ensures ClickLink(batch[n].click) != u.key
    {
      assert batch[m].click == clicks[m] && batch[n].click == clicks[n];
      assert BusinessKey(clicks[m]) != BusinessKey(clicks[n]);
      assert clicks[m] in clicks && clicks[n] in clicks;
    }
    BatchSent(r, u, out, batch, seen, linked);
    forall e | e in clicks
      ensures Enrich(e, i, r) in batch
    {
    }
  }

  lemma ImpressionArrives(r: Rules, u: World, s: State, e: Event, clickSeen: bool)
    requires ValidRules(r) && WellFormed(u) && Inv(r, s) && Good(r, u, s, false, clickSeen, s.watermark)
    requires u.impression == Some(e) && !Late(e, s, r)
    requires LinkLegal(u, r) && u.linkPromised ==> s.watermark < u.click.value.time + r.wait
    ensures Good(r, u, Process(r, s, e), true, clickSeen, s.watermark)
  {
    forall v | Owed(u, v, r)
      ensures u.click.value.time <= v.time
    {
    }
    WaitingSent(r, u, s.out, s.waiting, Some(e), s.watermark, !ImpressionMissed(r, u, true, s.watermark));
  }

  lemma ClickArrives(r: Rules, u: World, s: State, e: Event, impressionSeen: bool)
    requires ValidRules(r) && WellFormed(u) && Inv(r, s) && Good(r, u, s, impressionSeen, false, s.watermark)
    requires u.click == Some(e) && !Late(e, s, r)
    requires LinkLegal(u, r) && u.linkPromised ==> s.watermark < e.time + r.wait
    requires forall v :: Owed(u, v, r) ==> s.watermark < v.time + r.wait
    ensures Good(r, u, Process(r, s, e), impressionSeen, true, s.watermark)
  {
    forall w | w in s.waiting
      ensures BusinessKey(w) != BusinessKey(e)
    {
      assert ClickLink(w) != u.key;
    }
    if LinkLegal(u, r) { RetentionCoversLink(u.impression.value, e, r); }
    assert LinkLegal(u, r) && u.linkPromised && impressionSeen ==> s.impression.Some?;
    assert EnrichAll([e], s.impression, r) == [Enrich(e, s.impression, r)];
    assert e in [e];
    if s.impression.Some? || e.time + r.wait <= s.watermark {
      WaitingSent(r, u, s.out, [e], s.impression, s.watermark, !ImpressionMissed(r, u, impressionSeen, s.watermark));
    } else {
      assert !Holds(s.waiting, e);
    }
  }

  lemma OtherClickArrives(r: Rules, u: World, s: State, e: Event, impressionSeen: bool, clickSeen: bool)
    requires ValidRules(r) && WellFormed(u) && Inv(r, s) && Good(r, u, s, impressionSeen, clickSeen, s.watermark)
    requires e.kind.Click? && ClickLink(e) != u.key
    ensures Good(r, u, Process(r, s, e), impressionSeen, clickSeen, s.watermark)
  {
    var linked := !ImpressionMissed(r, u, impressionSeen, s.watermark);
    WaitingSent(r, u, s.out, [e], s.impression, s.watermark, linked);
    assert EnrichAll([e], s.impression, r) == [Enrich(e, s.impression, r)];
  }

  /** Firing the earliest armed timer while the watermark already stands at `s.watermark`. */
  lemma TimerSends(r: Rules, u: World, s: State, impressionSeen: bool, clickSeen: bool, seen: int, now: int, t: int)
    requires ValidRules(r) && WellFormed(u) && Safe(r, s, seen) && Good(r, u, s, impressionSeen, clickSeen, now)
    requires seen <= now < t <= s.watermark
    requires t in s.timers && forall x :: x in s.timers ==> t <= x
    ensures Good(r, u, OnTimer(r, s.(timers := s.timers - {t}), t), impressionSeen, clickSeen, t)
  {
    var due, kept := Filter(s.waiting, Overdue(r.wait, t)), Filter(s.waiting, Early(r.wait, t));
    forall e
      ensures e in due <==> e in s.waiting && e.time + r.wait <= t
      ensures e in kept <==> e in s.waiting && t < e.time + r.wait
    {
      FilterMember(s.waiting, Overdue(r.wait, t), e);
      FilterMember(s.waiting, Early(r.wait, t), e);
    }
    FilterDistinct(s.waiting, Overdue(r.wait, t), BusinessKey);
    var linked := !ImpressionMissed(r, u, impressionSeen, s.watermark);
    forall e | e in due && ClickLink(e) == u.key
      ensures e.time + r.wait == t && u.click == Some(e)
      ensures linked ==> !LinkLegal(u, r)
    {
      if LinkLegal(u, r) { RetentionCoversLink(u.impression.value, e, r); }
    }
    WaitingSent(r, u, s.out, due, None, seen, linked);
  }

  lemma {:induction false} FiringSends(r: Rules, u: World, s: State, impressionSeen: bool, clickSeen: bool, seen: int,
                                       now: int, w: int)
    requires ValidRules(r) && WellFormed(u) && Safe(r, s, seen) && Good(r, u, s, impressionSeen, clickSeen, now)
    requires seen <= now <= w == s.watermark && forall t :: t in s.timers ==> now < t
    ensures Good(r, u, FireDue(r, s, w), impressionSeen, clickSeen, w)
    decreases |s.timers|
  {
    var due := Due(s.timers, w);
    if due != {} {
      var t := Least(due);
      forall x | x in s.timers
        ensures t <= x
      {
        assert x <= w ==> x in due;
      }
      TimerKeeps(r, s, seen, t);
      TimerSends(r, u, s, impressionSeen, clickSeen, seen, now, t);
      FiringSends(r, u, OnTimer(r, s.(timers := s.timers - {t}), t), impressionSeen, clickSeen, seen, t, w);
    }
  }

  lemma Ticks(r: Rules, u: World, s: State, w: int, impressionSeen: bool, clickSeen: bool)
    requires ValidRules(r) && WellFormed(u) && Inv(r, s) && Good(r, u, s, impressionSeen, clickSeen, s.watermark)
    ensures var s' := Advance(r, s, w); Good(r, u, s', impressionSeen, clickSeen, s'.watermark)
  {
    if s.watermark < w {
      var s0 := s.(watermark := w);
      FiringKeeps(r, s0, s.watermark, w);
      FiringSends(r, u, s0, impressionSeen, clickSeen, s.watermark, s.watermark, w);
      MarkSent(r, u, FireDue(r, s0, w), w, impressionSeen, clickSeen);
    }
  }

  lemma MarkSent(r: Rules, u: World, s: State, w: int, impressionSeen: bool, clickSeen: bool)
    requires Good(r, u, s, impressionSeen, clickSeen, w)
    ensures Good(r, u, s.(out := s.out + [Mark(w)], metrics := s.metrics + [Mark(w)]), impressionSeen, clickSeen, w)
  {
    var out := s.out + [Mark(w)];
    forall j
      ensures Carries(out, j, u.key) <==> Carries(s.out, j, u.key)
      ensures Carries(s.out, j, u.key) ==> out[j] == s.out[j]
    {
    }
    forall j | Carries(out, j, u.key)
      ensures u.click == Some(out[j].value.click)
      ensures forall v :: Owed(u, v, r) ==> MarksBelow(out, j, v.time + r.wait)
    {
      assert Carries(s.out, j, u.key);
    }
  }
}
