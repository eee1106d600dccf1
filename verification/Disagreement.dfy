/** Two conversions of one click without an impression that disagree: true records for which the agreement fails. */
module Disagreement {
  import opened Seqs
  import opened Events
  import opened Dimensions
  import opened Oracle
  import opened Normalize
  import opened Compare
  import opened Corruption
  import Tallies
  import Counting
  import Batch
  import BT = BatchTotals

  const RULES := Rules(100, 10, 1, 110, 1, 1)

  const POLICY := Policy({1}, 0, {})

  function Sample(kind: Kind, id: string, time: nat, version: string): Event {
    Event(kind, id, time, "a", "p", "u", "c", "r", version, "", "click", id, "x", "y", "USD", 1, id, 0)
  }

  function ItsClick(): Event { Sample(Click, "click", 950, "1") }

  function Before(): Event { Sample(Conversion, "before", 960, "1") }

  function After(): Event { Sample(Conversion, "after", 970, "2") }

  function RecordOf(e: Event): Record { Record(e.receipt, e.receivedAt, WellFormed(e, 1, true)) }

  function Truth(): seq<Record> { [RecordOf(ItsClick()), RecordOf(Before()), RecordOf(After())] }

  lemma {:induction false} TruthIsGenuine()
    ensures Genuine(Truth())
  {
    assert ItsClick().eventId == "click" && Before().eventId == "before" && After().eventId == "after";
    forall x, y | x in Truth() && y in Truth() && EventIdKey(x.body.event) == EventIdKey(y.body.event)
      ensures x == y
    {
    }
    forall x, y | x in Truth() && y in Truth() && BusinessKey(x.body.event) == BusinessKey(y.body.event)
      ensures x == y
    {
    }
  }

  lemma AllAreClean()
    ensures TakeAll(POLICY, Truth()).events == [ItsClick(), Before(), After()]
    ensures Distinct(TakeAll(POLICY, Truth()).events, BusinessKey)
  {
    var one, two := [RecordOf(ItsClick())], [RecordOf(ItsClick()), RecordOf(Before())];
    assert Truth()[..2] == two && two[..1] == one && one[..0] == [];
    assert ItsClick().eventId == "click" && Before().eventId == "before" && After().eventId == "after";
    assert TakeAll(POLICY, one).events == [ItsClick()];
    assert TakeAll(POLICY, two).events == [ItsClick(), Before()];
  }

  lemma BothAreMatched(events: seq<Event>)
    requires events == [ItsClick(), Before(), After()]
    ensures BT.MatchedConversion(events, Before(), RULES) && BT.MatchedConversion(events, After(), RULES)
    ensures JoinedOf(events, Before(), RULES).None?
  {
    assert ItsClick() in events && Before() in events && After() in events;
    TableHolds(events, Click, ClickLink(ItsClick()));
    TableHolds(events, Impression, ImpressionLink(ItsClick()));
    assert ClickOf(events, Before()) == Some(ItsClick());
  }

  /** Clean, genuine, with distinct business keys, under valid rules: and the conversions of the click disagree. Then
      some transport of these records fails the comparison with them, and rows added up by identity are not the
      calculation's. */
  lemma AgreementCanFail(ds: seq<Dimension>)
    ensures ValidRules(RULES) && Genuine(Truth())
    ensures var events := TakeAll(POLICY, Truth()).events;
            && Distinct(events, BusinessKey) && !BT.UnlinkedConversionsAgree(events, RULES)
            && exists key :: Tallies.Sum(Counting.RowFold(Batch.ContributedBy(events, Ordered(events), RULES), key, ds))
                             != BT.At(Rows(AddedBy(events, Ordered(events), RULES, ds)), key)
    ensures exists t, a, b :: Corrupts(Truth(), t) && Calculated(POLICY, RULES, ds, Truth(), a)
                              && Calculated(POLICY, RULES, ds, t, b) && !Passes(a, b)
  {
    var events := TakeAll(POLICY, Truth()).events;
    TruthIsGenuine();
    AllAreClean();
    BothAreMatched(events);
    assert Before().appVersion == "1" && After().appVersion == "2";
    assert Before() in events && After() in events;
    TransportIsHarmlessExactly(POLICY, RULES, ds, Truth());
    BT.AggregationMeetsCalculation(events, RULES, ds);
  }
}
