/** Insertion-ordered dictionaries: an assignment keeps the position of a key that is there, and appends one that is
    not. */
module Dictionaries {
  import opened Seqs

  datatype Entry<K, V> = Entry(key: K, value: V)

  ghost predicate OneEntryPerKey<K(!new), V(!new)>(d: seq<Entry<K, V>>) {
    forall i, j :: 0 <= i < j < |d| ==> d[i].key != d[j].key
  }

  function Lookup<K(==), V>(d: seq<Entry<K, V>>, key: K): Option<V> {
    if d == [] then None
    else if d[|d| - 1].key == key then Some(d[|d| - 1].value)
    else Lookup(d[..|d| - 1], key)
  }

  /** A dictionary assignment: in place if the key is there, at the end if it is not. */
  function Put<K(==), V>(d: seq<Entry<K, V>>, key: K, value: V): seq<Entry<K, V>> {
    if d == [] then [Entry(key, value)]
    else if d[|d| - 1].key == key then d[..|d| - 1] + [Entry(key, value)]
    else if Lookup(d[..|d| - 1], key).None? then d + [Entry(key, value)]
    else Put(d[..|d| - 1], key, value) + [d[|d| - 1]]
  }

  lemma {:induction false} LookupIs<K(!new), V(!new)>(d: seq<Entry<K, V>>, key: K)
    requires OneEntryPerKey(d)
    ensures Lookup(d, key).None? ==> forall i :: 0 <= i < |d| ==> d[i].key != key
    ensures Lookup(d, key).Some? ==> exists i :: 0 <= i < |d| && d[i] == Entry(key, Lookup(d, key).value)
    ensures forall i :: 0 <= i < |d| && d[i].key == key ==> Lookup(d, key) == Some(d[i].value)
  {
    if d != [] {
      var init := d[..|d| - 1];
      LookupIs(init, key);
      assert forall i :: 0 <= i < |init| ==> init[i] == d[i];
    }
  }

  lemma {:induction false} LookupAbsent<K(!new), V(!new)>(d: seq<Entry<K, V>>, key: K)
    requires forall i :: 0 <= i < |d| ==> d[i].key != key
    ensures Lookup(d, key).None?
  {
    if d != [] { LookupAbsent(d[..|d| - 1], key); }
  }

  lemma {:induction false} LookupHeld<K(!new), V(!new)>(d: seq<Entry<K, V>>, i: nat)
    requires OneEntryPerKey(d) && i < |d|
    ensures Lookup(d, d[i].key) == Some(d[i].value)
  {
    LookupIs(d, d[i].key);
  }

  /** An assignment seen by its positions. */
  lemma {:induction false} PutAt<K(!new), V(!new)>(d: seq<Entry<K, V>>, i: nat, value: V)
    requires OneEntryPerKey(d) && i < |d|
    ensures Put(d, d[i].key, value) == d[i := Entry(d[i].key, value)]
  {
    var init := d[..|d| - 1];
    if i < |d| - 1 {
      assert init[i] == d[i] && d[i].key != d[|d| - 1].key;
      LookupIs(init, d[i].key);
      PutAt(init, i, value);
      assert init[i := Entry(d[i].key, value)] + [d[|d| - 1]] == d[i := Entry(d[i].key, value)];
    }
  }

  lemma {:induction false} PutNew<K(!new), V(!new)>(d: seq<Entry<K, V>>, key: K, value: V)
    requires OneEntryPerKey(d) && Lookup(d, key).None?
    ensures Put(d, key, value) == d + [Entry(key, value)]
  {
  }

  lemma PutKeeps<K(!new), V(!new)>(d: seq<Entry<K, V>>, key: K, value: V)
    requires OneEntryPerKey(d)
    ensures OneEntryPerKey(Put(d, key, value))
  {
    LookupIs(d, key);
    if Lookup(d, key).Some? {
      var i :| 0 <= i < |d| && d[i] == Entry(key, Lookup(d, key).value);
      PutAt(d, i, value);
    } else {
      PutNew(d, key, value);
    }
  }

  /** A dictionary that differs from `d` in what one position holds of the key there. */
  lemma LookupReplaced<K(!new), V(!new)>(d: seq<Entry<K, V>>, i: nat, value: V, other: K)
    requires OneEntryPerKey(d) && i < |d|
    ensures OneEntryPerKey(d[i := Entry(d[i].key, value)])
    ensures Lookup(d[i := Entry(d[i].key, value)], other) == if other == d[i].key then Some(value) else Lookup(d, other)
  {
    var after := d[i := Entry(d[i].key, value)];
    assert OneEntryPerKey(after);
    LookupIs(after, other);
    LookupIs(d, other);
    if other == d[i].key {
      assert after[i].key == other;
    } else if Lookup(d, other).Some? {
      var j :| 0 <= j < |d| && d[j] == Entry(other, Lookup(d, other).value);
      assert after[j] == d[j];
    }
  }

  lemma {:induction false} LookupPut<K(!new), V(!new)>(d: seq<Entry<K, V>>, key: K, value: V, other: K)
    requires OneEntryPerKey(d)
    ensures Lookup(Put(d, key, value), other) == if other == key then Some(value) else Lookup(d, other)
  {
    LookupIs(d, key);
    if Lookup(d, key).Some? {
      var i :| 0 <= i < |d| && d[i] == Entry(key, Lookup(d, key).value);
      PutAt(d, i, value);
      LookupReplaced(d, i, value, other);
    } else {
      PutNew(d, key, value);
      assert (d + [Entry(key, value)])[..|d|] == d;
    }
  }

  lemma PutTwice<K(!new), V(!new)>(d: seq<Entry<K, V>>, key: K, first: V, second: V)
    requires OneEntryPerKey(d) && Lookup(d, key).None?
    ensures Put(Put(d, key, first), key, second) == Put(d, key, second)
  {
    PutNew(d, key, first);
    PutNew(d, key, second);
    var one := d + [Entry(key, first)];
    assert one[..|one| - 1] == d;
  }

  ghost function Keys<K, V>(d: seq<Entry<K, V>>): set<K> { set e | e in d :: e.key }

  function Values<K, V>(d: seq<Entry<K, V>>): (values: seq<V>)
    ensures |values| == |d| && forall i :: 0 <= i < |d| ==> values[i] == d[i].value
  {
    if d == [] then [] else Values(d[..|d| - 1]) + [d[|d| - 1].value]
  }

  lemma LookupKeys<K(!new), V(!new)>(d: seq<Entry<K, V>>, key: K)
    requires OneEntryPerKey(d)
    ensures Lookup(d, key).Some? <==> key in Keys(d)
  {
    LookupIs(d, key);
    if Lookup(d, key).Some? {
      var i :| 0 <= i < |d| && d[i] == Entry(key, Lookup(d, key).value);
      assert d[i] in d;
    }
  }

  lemma KeysPut<K(!new), V(!new)>(d: seq<Entry<K, V>>, key: K, value: V)
    requires OneEntryPerKey(d)
    ensures Keys(Put(d, key, value)) == Keys(d) + {key}
  {
    PutKeeps(d, key, value);
    forall k
      ensures k in Keys(Put(d, key, value)) <==> k in Keys(d) || k == key
    {
      LookupPut(d, key, value, k);
      LookupKeys(d, k);
      LookupKeys(Put(d, key, value), k);
    }
  }

  /** The dictionary holds what the map holds. */
  ghost predicate Represents<K(!new), V(!new)>(d: seq<Entry<K, V>>, m: map<K, V>) {
    OneEntryPerKey(d) && forall k :: Lookup(d, k) == if k in m then Some(m[k]) else None
  }

  lemma RepresentsPut<K(!new), V(!new)>(d: seq<Entry<K, V>>, m: map<K, V>, key: K, value: V)
    requires Represents(d, m)
    ensures Represents(Put(d, key, value), m[key := value])
  {
    PutKeeps(d, key, value);
    forall k
      ensures Lookup(Put(d, key, value), k) == if k in m[key := value] then Some(m[key := value][k]) else None
    {
      LookupPut(d, key, value, k);
    }
  }
}
