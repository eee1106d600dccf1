/** What transport may do to records, and what it leaves alone in the results. */
module Transport {
  import opened Seqs
  import opened Events
  import opened Measurement
  import opened Dimensions
  import opened Oracle
  import opened Normalize
  import opened Compare
  import opened Corruption
  import A = Attribution
  import Cells
  import D = Dispositions

  // What transport may do.

  /** Two records of one event: nothing differs but the event identifier, the receipt and the arrival. */
  predicate Copies(x: Record, y: Record) {
    && x.body.WellFormed? && y.body.WellFormed?
    && x.body.schemaVersion == y.body.schemaVersion && x.body.regionNamed == y.body.regionNamed
    && var e, f := x.body.event, y.body.event;
       f == e.(eventId := f.eventId, receipt := f.receipt, receivedAt := f.receivedAt)
  }

  lemma CopiesAre(x: Record, y: Record)
    ensures SameContent(x, y) <==> Copies(x, y)
  {
  }

  /** An event identifier stands for one business event. */
  ghost predicate NamesOnce(rs: seq<Record>) {
    forall x, y :: x in rs && y in rs && D.SameId(x, y) ==> A.SameBusiness(x.body.event, y.body.event)
  }

  lemma NamesOnceIs(rs: seq<Record>)
    ensures IdsDetermineKeys(rs) <==> NamesOnce(rs)
  {
    forall x, y | x in rs && y in rs && x.body.WellFormed? && y.body.WellFormed?
      ensures EventIdKey(x.body.event) == EventIdKey(y.body.event) <==> D.SameId(x, y)
      ensures BusinessKey(x.body.event) == BusinessKey(y.body.event)
              <==> A.SameBusiness(x.body.event, y.body.event)
    {
      A.BusinessIs(x.body.event, y.body.event);
    }
  }

  ghost predicate HasCopy(rs: seq<Record>, x: Record) { exists y :: y in rs && Copies(x, y) }

  ghost predicate IsCopy(rs: seq<Record>, y: Record) { exists x :: x in rs && Copies(x, y) }

  lemma HasCopyIs(rs: seq<Record>, x: Record)
    ensures HasCopy(rs, x) <==> exists y :: y in rs && SameContent(x, y)
  {
    if HasCopy(rs, x) {
      var y :| y in rs && Copies(x, y);
      CopiesAre(x, y);
    } else if y :| y in rs && SameContent(x, y) {
      CopiesAre(x, y);
    }
  }

  lemma IsCopyIs(rs: seq<Record>, y: Record)
    ensures IsCopy(rs, y) <==> exists x :: x in rs && SameContent(x, y)
  {
    if IsCopy(rs, y) {
      var x :| x in rs && Copies(x, y);
      CopiesAre(x, y);
    } else if x :| x in rs && SameContent(x, y) {
      CopiesAre(x, y);
    }
  }

  /** Everything true is delivered in some copy. */
  ghost predicate Complete(truth: seq<Record>, t: seq<Record>) { forall x :: x in truth ==> HasCopy(t, x) }

  /** Nothing well-formed is delivered that is not a copy of something true. */
  ghost predicate Honest(truth: seq<Record>, t: seq<Record>) {
    forall y :: y in t && y.body.WellFormed? ==> IsCopy(truth, y)
  }

  lemma CompleteIs(truth: seq<Record>, t: seq<Record>)
    ensures Delivers(truth, t) <==> Complete(truth, t)
  {
    forall x | x in truth
      ensures HasCopy(t, x) <==> exists y :: y in t && SameContent(x, y)
    {
      HasCopyIs(t, x);
    }
  }

  lemma HonestIs(truth: seq<Record>, t: seq<Record>)
    ensures Faithful(truth, t) <==> Honest(truth, t)
  {
    forall y | y in t
      ensures IsCopy(truth, y) <==> exists x :: x in truth && SameContent(x, y)
    {
      IsCopyIs(truth, y);
    }
  }

  /** What transport may do, over the fields of records. */
  lemma TransportsAre(truth: seq<Record>, t: seq<Record>)
    ensures Corrupts(truth, t) <==> NamesOnce(t) && Complete(truth, t) && Honest(truth, t)
  {
    NamesOnceIs(t);
    CompleteIs(truth, t);
    HonestIs(truth, t);
  }

  lemma GenuineIs(truth: seq<Record>)
    ensures Genuine(truth)
            <==> && NamesOnce(truth) && (forall x :: x in truth ==> x.body.WellFormed?)
                 && (forall x, y :: x in truth && y in truth && A.SameBusiness(x.body.event, y.body.event) ==>
                      Copies(x, y))
  {
    NamesOnceIs(truth);
    forall x, y | x in truth && y in truth && x.body.WellFormed? && y.body.WellFormed?
      ensures BusinessKey(x.body.event) == BusinessKey(y.body.event)
              <==> A.SameBusiness(x.body.event, y.body.event)
      ensures SameContent(x, y) <==> Copies(x, y)
    {
      A.BusinessIs(x.body.event, y.body.event);
      CopiesAre(x, y);
    }
  }

  lemma DeliversItself(truth: seq<Record>)
    requires forall x :: x in truth ==> x.body.WellFormed?
    ensures Delivers(truth, truth)
  {
    forall x | x in truth
      ensures exists y :: y in truth && SameContent(x, y)
    {
      assert SameContent(x, x);
    }
  }

  lemma FaithfulToItself(truth: seq<Record>)
    requires forall x :: x in truth ==> x.body.WellFormed?
    ensures Faithful(truth, truth)
  {
    forall y | y in truth
      ensures exists x :: x in truth && SameContent(x, y)
    {
      assert SameContent(y, y);
    }
  }

  lemma DeliversMore(truth: seq<Record>, t: seq<Record>, u: seq<Record>)
    requires Delivers(truth, t) && forall y :: y in t ==> y in u
    ensures Delivers(truth, u)
  {
    forall x | x in truth
      ensures exists y :: y in u && SameContent(x, y)
    {
      var y :| y in t && SameContent(x, y);
    }
  }

  lemma FaithfulLess(truth: seq<Record>, t: seq<Record>, u: seq<Record>)
    requires Faithful(truth, t) && forall y :: y in u && y.body.WellFormed? ==> y in t || IsCopy(truth, y)
    ensures Faithful(truth, u)
  {
    forall y | y in u && y.body.WellFormed?
      ensures exists x :: x in truth && SameContent(x, y)
    {
      if y !in t { IsCopyIs(truth, y); }
    }
  }

  lemma DeliversOneMore(truth: seq<Record>, t: seq<Record>, y: Record)
    requires Delivers(truth, t)
    ensures Delivers(truth, t + [y])
  {
    DeliversMore(truth, t, t + [y]);
  }

  lemma FaithfulOneMore(truth: seq<Record>, t: seq<Record>, y: Record)
    requires Faithful(truth, t) && (y.body.WellFormed? ==> IsCopy(truth, y))
    ensures Faithful(truth, t + [y])
  {
    FaithfulLess(truth, t, t + [y]);
  }

  lemma NamesStay(t: seq<Record>, y: Record)
    requires IdsDetermineKeys(t)
    requires forall z :: z in t && D.SameId(z, y) ==> A.SameBusiness(z.body.event, y.body.event)
    ensures IdsDetermineKeys(t + [y])
  {
    NamesOnceIs(t);
    NamesOnceIs(t + [y]);
    if y.body.WellFormed? { A.BusinessIs(y.body.event, y.body.event); }
    forall a, b | a in t + [y] && b in t + [y] && D.SameId(a, b)
      ensures A.SameBusiness(a.body.event, b.body.event)
    {
      if a in t && b !in t { assert D.SameId(a, y); }
      if a !in t && b in t { assert D.SameId(b, y); }
    }
  }

  /** A change of order. */
  lemma ReorderedIsTransport(truth: seq<Record>, t: seq<Record>, u: seq<Record>)
    requires Corrupts(truth, t) && multiset(u) == multiset(t)
    ensures Corrupts(truth, u)
  {
    forall z
      ensures z in u <==> z in t
    {
      assert z in u <==> z in multiset(u);
    }
    DeliversMore(truth, t, u);
    FaithfulLess(truth, t, u);
  }

  /** A copy under its own or an unused event identifier, or a malformed record. */
  lemma OneMoreIsTransport(truth: seq<Record>, t: seq<Record>, y: Record)
    requires Corrupts(truth, t) && (y.body.WellFormed? ==> IsCopy(truth, y))
    requires forall z :: z in t && D.SameId(z, y) ==> A.SameBusiness(z.body.event, y.body.event)
    ensures Corrupts(truth, t + [y])
  {
    DeliversOneMore(truth, t, y);
    FaithfulOneMore(truth, t, y);
    NamesStay(t, y);
  }

  /** The ways of the generator: from the truth itself, by copies under their own or unused event identifiers, by
      malformed records, and by any change of order. */
  lemma DisturbancesAreTransport(truth: seq<Record>, t: seq<Record>, y: Record, u: seq<Record>)
    requires Genuine(truth) && Corrupts(truth, t) && multiset(u) == multiset(t)
    requires y.body.Malformed?
             || (IsCopy(truth, y) && forall z :: z in t && D.SameId(z, y) ==>
                                           A.SameBusiness(z.body.event, y.body.event))
    ensures Corrupts(truth, truth) && Corrupts(truth, u) && Corrupts(truth, t + [y])
  {
    DeliversItself(truth);
    FaithfulToItself(truth);
    ReorderedIsTransport(truth, t, u);
    OneMoreIsTransport(truth, t, y);
  }

  // What it leaves alone.

  lemma CalculatedSaysOneThing(p: Policy, r: Rules, ds: seq<Dimension>, records: seq<Record>, out: Output)
    requires r.window > 0 && Calculated(p, r, ds, records, out)
    ensures SaysOneThing(out)
  {
    var events := TakeAll(p, records).events;
    var vs := Filter(events, OfKind(Conversion));
    KeysAreUnique(p, records);
    KindsAreSorted(events, Conversion);
    forall x, y | x in out.associations && y in out.associations && x.key == y.key
      ensures x == y
    {
      AssociationsMember(events, vs, r, x);
      AssociationsMember(events, vs, r, y);
      var v :| v in vs && x == AssociationOf(events, v, r);
      var w :| w in vs && y == AssociationOf(events, w, r);
      KeyIsOneElement(events, BusinessKey, v, w);
    }
  }

  /** Whatever transport did: the same conversions are judged, each with the same status, reason, experiment and
      variant. */
  lemma JudgmentsSurvive(p: Policy, r: Rules, ds: seq<Dimension>, truth: seq<Record>, t: seq<Record>, a: Output,
                         b: Output)
    requires r.window > 0 && Genuine(truth) && Corrupts(truth, t)
    requires Calculated(p, r, ds, truth, a) && Calculated(p, r, ds, t, b)
    ensures VerdictsAgree(a.associations, b.associations)
  {
    VerdictsSurvive(p, r, ds, truth, t, a, b);
    CalculatedSaysOneThing(p, r, ds, truth, a);
    CalculatedSaysOneThing(p, r, ds, t, b);
    SameAssociations(a, b);
  }

  /** `b` is what the calculation makes of some transport of the truth. */
  ghost predicate Transported(p: Policy, r: Rules, ds: seq<Dimension>, truth: seq<Record>, t: seq<Record>, b: Output)
    requires r.window > 0
  {
    Corrupts(truth, t) && Calculated(p, r, ds, t, b)
  }

  lemma SameIsPass(p: Policy, r: Rules, ds: seq<Dimension>, truth: seq<Record>, t: seq<Record>, a: Output, b: Output)
    requires r.window > 0 && Calculated(p, r, ds, truth, a) && Transported(p, r, ds, truth, t, b)
    ensures Passes(a, b) <==> SameResults(a, b)
  {
    CalculatedSaysOneThing(p, r, ds, truth, a);
    CalculatedSaysOneThing(p, r, ds, t, b);
    PassesMeans(a, b);
  }

  ghost predicate AllSame(p: Policy, r: Rules, ds: seq<Dimension>, truth: seq<Record>)
    requires r.window > 0
  {
    forall t, a, b ::
        Calculated(p, r, ds, truth, a) && Transported(p, r, ds, truth, t, b) ==> SameResults(a, b)
  }

  lemma PassingIsSame(p: Policy, r: Rules, ds: seq<Dimension>, truth: seq<Record>)
    requires r.window > 0
    requires forall t, a, b :: Corrupts(truth, t) && Calculated(p, r, ds, truth, a) && Calculated(p, r, ds, t, b) ==>
               Passes(a, b)
    ensures AllSame(p, r, ds, truth)
  {
    forall t, a, b | Calculated(p, r, ds, truth, a) && Transported(p, r, ds, truth, t, b)
      ensures SameResults(a, b)
    {
      assert Passes(a, b);
      SameIsPass(p, r, ds, truth, t, a, b);
    }
  }

  lemma SameIsPassing(p: Policy, r: Rules, ds: seq<Dimension>, truth: seq<Record>)
    requires r.window > 0 && AllSame(p, r, ds, truth)
    ensures forall t, a, b :: Corrupts(truth, t) && Calculated(p, r, ds, truth, a) && Calculated(p, r, ds, t, b) ==>
              Passes(a, b)
  {
    forall t, a, b | Corrupts(truth, t) && Calculated(p, r, ds, truth, a) && Calculated(p, r, ds, t, b)
      ensures Passes(a, b)
    {
      assert Transported(p, r, ds, truth, t, b);
      SameIsPass(p, r, ds, truth, t, a, b);
    }
  }

  /** Every transport leads to the same results exactly if the conversions that are due to one click without an
      impression name one region and one version. */
  lemma TransportKeepsResultsExactly(p: Policy, r: Rules, ds: seq<Dimension>, truth: seq<Record>)
    requires r.window > 0 && Genuine(truth)
    ensures AllSame(p, r, ds, truth) <==> Cells.Agreeing(TakeAll(p, truth).events, r)
  {
    var events := TakeAll(p, truth).events;
    KeysAreUnique(p, truth);
    A.DistinctIs(events);
    Cells.AgreementIs(events, r);
    TransportIsHarmlessExactly(p, r, ds, truth);
    if AllSame(p, r, ds, truth) { SameIsPassing(p, r, ds, truth); }
    else if Cells.Agreeing(events, r) { PassingIsSame(p, r, ds, truth); }
  }
}
