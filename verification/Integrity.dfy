/** What the index takes in, said of the archive's objects alone. */
module Integrity {
  import opened Seqs
  import opened Archive
  import opened ArchiveIndex
  import opened ArchiveAgreement
  import H = ArchiveHistory

  /** An acknowledgement names every receipt once, and each of its references is about one of them. */
  ghost predicate Orderly(count: nat, receipts: seq<string>, refs: seq<AckRef>) {
    && count == |refs|
    && (forall i, j :: 0 <= i < j < |refs| ==> refs[i].receipt != refs[j].receipt)
    && (forall ref :: ref in refs ==> ref.receipt in receipts)
    && (forall id :: id in receipts ==> exists n :: 0 <= n < |refs| && refs[n].receipt == id)
  }

  lemma {:induction false} ReceiptsCounted(refs: seq<AckRef>)
    ensures |ReceiptsOf(refs)| <= |refs|
    ensures |ReceiptsOf(refs)| == |refs| <==> forall i, j :: 0 <= i < j < |refs| ==> refs[i].receipt != refs[j].receipt
  {
    if refs != [] {
      var init, last := refs[..|refs| - 1], refs[|refs| - 1];
      ReceiptsCounted(init);
      assert refs == init + [last];
      assert ReceiptsOf(refs) == ReceiptsOf(init) + {last.receipt};
      if last.receipt in ReceiptsOf(init) {
        assert ReceiptsOf(refs) == ReceiptsOf(init);
        var i :| 0 <= i < |init| && init[i].receipt == last.receipt;
        assert refs[i].receipt == refs[|init|].receipt;
      } else {
        RepeatsAlike(init, last);
      }
    }
  }

  lemma RepeatsAlike(init: seq<AckRef>, last: AckRef)
    requires last.receipt !in ReceiptsOf(init)
    ensures var refs := init + [last];
            (forall i, j :: 0 <= i < j < |refs| ==> refs[i].receipt != refs[j].receipt)
            <==> (forall i, j :: 0 <= i < j < |init| ==> init[i].receipt != init[j].receipt)
  {
    var refs := init + [last];
    forall i | 0 <= i < |init|
      ensures init[i].receipt != last.receipt
    {
      assert init[i].receipt in ReceiptsOf(init);
    }
    assert forall i :: 0 <= i < |init| ==> refs[i] == init[i];
  }

  lemma ShapedIsOrderly(v: Value)
    requires v.Acknowledgement?
    ensures WellShaped(v) <==> Orderly(v.count, v.receipts, v.refs)
  {
    ReceiptsCounted(v.refs);
    forall id
      ensures id in StringsOf(v.receipts) <==> id in v.receipts
      ensures id in ReceiptsOf(v.refs) <==> exists n :: 0 <= n < |v.refs| && v.refs[n].receipt == id
    {
    }
    if Orderly(v.count, v.receipts, v.refs) { assert StringsOf(v.receipts) == ReceiptsOf(v.refs); }
    if WellShaped(v) {
      forall ref | ref in v.refs
        ensures ref.receipt in v.receipts
      {
        var n :| 0 <= n < |v.refs| && v.refs[n] == ref;
        assert ref.receipt in ReceiptsOf(v.refs);
      }
    }
  }

  /** The objects that a set of manifests names are sealed and within the budgets of the index. */
  ghost predicate AllSealed(o: Objects, keys: set<string>, digest: Value -> string) {
    forall key :: key in keys ==>
      Sealed(o, key, digest) && o.manifests[key].readable && o.data[o.manifests[key].dataKey].splits
  }

  /** A reference of some acknowledgement in the objects of these manifests. */
  ghost predicate Referred(o: Objects, keys: set<string>, ref: AckRef) {
    exists a :: Archived(o, keys, a) && a.value.Acknowledgement? && ref in a.value.refs
  }

  /** Rows do not contradict each other, acknowledgements are orderly, and no receipt is acknowledged in two ways. */
  ghost predicate Coherent(o: Objects, keys: set<string>) {
    && (forall a, b :: Archived(o, keys, a) && Archived(o, keys, b) && a.place == b.place ==> a == b)
    && (forall a :: Archived(o, keys, a) && a.value.Acknowledgement? ==>
         Orderly(a.value.count, a.value.receipts, a.value.refs))
    && (forall x, y :: Referred(o, keys, x) && Referred(o, keys, y) && x.receipt == y.receipt ==> x == y)
  }

  lemma ReferredIsMentioned(o: Objects, keys: set<string>, ref: AckRef)
    ensures Referred(o, keys, ref) <==> Mentioned(ref, RowSet(o, keys))
  {
    if Referred(o, keys, ref) {
      var a :| Archived(o, keys, a) && a.value.Acknowledgement? && ref in a.value.refs;
      assert a in RowSet(o, keys);
    }
  }

  lemma ShapesAreOrderly(o: Objects, keys: set<string>)
    ensures AllShaped(RowSet(o, keys))
            <==> forall a :: Archived(o, keys, a) && a.value.Acknowledgement? ==>
                   Orderly(a.value.count, a.value.receipts, a.value.refs)
  {
    forall a: Row | a.value.Acknowledgement?
      ensures WellShaped(a.value) <==> Orderly(a.value.count, a.value.receipts, a.value.refs)
    {
      ShapedIsOrderly(a.value);
    }
    forall a: Row
      ensures Archived(o, keys, a) <==> a in RowSet(o, keys)
    {
    }
  }

  lemma SoundIsCoherent(o: Objects, keys: set<string>)
    ensures Sound(RowSet(o, keys)) <==> Coherent(o, keys)
  {
    ShapesAreOrderly(o, keys);
    forall ref
      ensures Referred(o, keys, ref) <==> Mentioned(ref, RowSet(o, keys))
    {
      ReferredIsMentioned(o, keys, ref);
    }
    forall a: Row
      ensures Archived(o, keys, a) <==> a in RowSet(o, keys)
    {
    }
  }

  lemma GoodIsSealed(o: Objects, keys: set<string>, digest: Value -> string)
    ensures (forall key :: key in keys ==> Good(o, key, digest)) <==> AllSealed(o, keys, digest)
  {
    forall key | key in keys
      ensures Verifies(o, key, digest) <==> Sealed(o, key, digest)
    {
      VerifiesIsSealed(o, key, digest);
    }
  }

  /** One manifest is loaded, on top of what is indexed, exactly if its object is sealed and within the budgets, and its
      rows and acknowledgements contradict neither themselves nor what is there. */
  lemma LoadsExactly(o: Objects, ix: Index, key: string, digest: Value -> string)
    requires Indexed(o, ix, digest)
    ensures Load(o, ix, key, digest).Some?
            <==> AllSealed(o, {key}, digest) && Coherent(o, ix.manifests.Keys + {key})
  {
    var keys := ix.manifests.Keys + {key};
    LoadKeeps(o, ix, key, digest);
    GoodIsSealed(o, {key}, digest);
    if Load(o, ix, key, digest).Some? {
      var after := Load(o, ix, key, digest).value;
      assert after.manifests.Keys == keys && Good(o, key, digest);
      HoldsIsSound(after, RowSet(o, keys));
    }
    SoundIsCoherent(o, keys);
  }

  /** Whatever happened before: a refresh over a complete listing succeeds exactly if no key is listed twice and the
      whole archive is sealed and coherent. */
  lemma RefreshesExactly(steps: seq<H.Step>, keys: seq<string>, audit: bool, digest: Value -> string)
    requires H.AllowedRun(steps, digest) && KeySet(keys) == H.Run(steps, digest).objects.manifests.Keys
    ensures var s := H.Run(steps, digest);
            Refresh(s.objects, s.index, keys, audit, digest).ok
            <==> && (forall i, j :: 0 <= i < j < |keys| ==> keys[i] != keys[j])
                 && AllSealed(s.objects, KeySet(keys), digest) && Coherent(s.objects, KeySet(keys))
  {
    var s := H.Run(steps, digest);
    H.AlwaysIndexed(steps, digest);
    RefreshSucceedsExactly(s.objects, s.index, keys, audit, digest);
    GoodIsSealed(s.objects, KeySet(keys), digest);
    SoundIsCoherent(s.objects, KeySet(keys));
  }
}
