/** Tables on disk, every key and value stored as text, standing in for insertion-ordered
    dictionaries, sets and lists. */
module Disk {
  import opened Seqs
  import opened Dictionaries
  import opened Sorting

  /** How values are written and read back. */
  datatype Codec<!T> = Codec(encode: T -> string, decode: string -> T)

  /** Whatever is written reads back as it was. */
  ghost predicate Lawful<T(!new)>(c: Codec<T>) { forall x: T :: c.decode(c.encode(x)) == x }

  function ByKey<K, V>(text: K -> string): Entry<K, V> -> string { (e: Entry<K, V>) => text(e.key) }

  // Tables by row number, and what reads back from them.

  ghost predicate Numbered<T>(rows: map<nat, T>) { forall n :: n in rows <==> 0 <= n < |rows| }

  ghost function Listing<T>(rows: map<nat, T>): (s: seq<T>)
    requires Numbered(rows)
    ensures |s| == |rows| && forall i :: 0 <= i < |s| ==> s[i] == rows[i]
  {
    seq(|rows|, i requires 0 <= i < |rows| => rows[i])
  }

  lemma OneMoreRow<T>(rows: map<nat, T>, x: T)
    requires Numbered(rows)
    ensures Numbered(rows[|rows| := x]) && Listing(rows[|rows| := x]) == Listing(rows) + [x]
  {
    assert |rows[|rows| := x]| == |rows| + 1;
  }

  lemma ReplacedRow<T>(rows: map<nat, T>, n: nat, x: T)
    requires Numbered(rows) && n < |rows|
    ensures Numbered(rows[n := x]) && Listing(rows[n := x]) == Listing(rows)[n := x]
  {
    assert rows[n := x].Keys == rows.Keys;
    assert |rows[n := x]| == |rows|;
  }

  type Stored = seq<Entry<string, string>>

  function Written<K, V>(keys: Codec<K>, values: Codec<V>, key: K, value: V): Entry<string, string> {
    Entry(keys.encode(key), values.encode(value))
  }

  function ReadBack<K, V>(keys: Codec<K>, values: Codec<V>, e: Entry<string, string>): Entry<K, V> {
    Entry(keys.decode(e.key), values.decode(e.value))
  }

  /** Keys are distinct texts, each the one that its key is written as. */
  ghost predicate WellStored<K>(stored: Stored, keys: Codec<K>) {
    && (forall i, j :: 0 <= i < j < |stored| ==> stored[i].key != stored[j].key)
    && (forall i :: 0 <= i < |stored| ==> keys.encode(keys.decode(stored[i].key)) == stored[i].key)
  }

  ghost function Read<K(!new), V(!new)>(stored: Stored, keys: Codec<K>, values: Codec<V>): (d: seq<Entry<K, V>>)
    ensures |d| == |stored| && forall i :: 0 <= i < |d| ==> d[i] == ReadBack(keys, values, stored[i])
    ensures WellStored(stored, keys) ==> OneEntryPerKey(d)
  {
    seq(|stored|, i requires 0 <= i < |stored| => ReadBack(keys, values, stored[i]))
  }

  lemma ReadAppended<K(!new), V(!new)>(stored: Stored, keys: Codec<K>, values: Codec<V>, key: K, value: V)
    requires Lawful(keys) && Lawful(values) && WellStored(stored, keys)
    requires forall i :: 0 <= i < |stored| ==> stored[i].key != keys.encode(key)
    ensures var after := stored + [Written(keys, values, key, value)];
            WellStored(after, keys) && Read(after, keys, values) == Read(stored, keys, values) + [Entry(key, value)]
  {
    assert ReadBack(keys, values, Written(keys, values, key, value)) == Entry(key, value);
  }

  lemma ReadReplaced<K(!new), V(!new)>(stored: Stored, keys: Codec<K>, values: Codec<V>, n: nat, value: V)
    requires Lawful(values) && WellStored(stored, keys) && n < |stored|
    ensures var after := stored[n := Entry(stored[n].key, values.encode(value))];
            && WellStored(after, keys)
            && Read(after, keys, values)
               == Read(stored, keys, values)[n := Entry(Read(stored, keys, values)[n].key, value)]
  {
    assert values.decode(values.encode(value)) == value;
  }

  /** A table keyed by an ever-growing row number, unique by the text of the key; conflicting insertions update in
      place. */
  class DiskMap<K(==, !new), V(==, !new)> {
    const keys: Codec<K>
    const values: Codec<V>
    var rows: map<nat, Entry<string, string>>

    ghost predicate Valid()
      reads this
    {
      Lawful(keys) && Lawful(values) && Numbered(rows) && WellStored(Listing(rows), keys)
    }

    /** The rows, read back, in the order of their numbers. */
    ghost function Model(): (d: seq<Entry<K, V>>)
      requires Valid()
      reads this
      ensures |d| == |rows| && OneEntryPerKey(d)
    {
      Read(Listing(rows), keys, values)
    }

    constructor (keys: Codec<K>, values: Codec<V>)
      requires Lawful(keys) && Lawful(values)
      ensures Valid() && Model() == []
    {
      this.keys, this.values := keys, values;
      rows := map[];
    }

    /** The number of the row whose key has this text. */
    method Find(key: K) returns (n: Option<nat>)
      requires Valid()
      ensures n.Some? ==> n.value < |rows| && rows[n.value].key == keys.encode(key) && Model()[n.value].key == key
      ensures n.None? ==> forall i :: 0 <= i < |rows| ==> Listing(rows)[i].key != keys.encode(key)
      ensures n.None? ==> Lookup(Model(), key).None?
    {
      var found := set i | i in rows && rows[i].key == keys.encode(key);
      if found == {} {
        forall i | 0 <= i < |rows|
          ensures rows[i].key != keys.encode(key)
        {
          assert i in rows && i !in found;
        }
        LookupAbsent(Model(), key);
        return None;
      }
      var i :| i in found;
      n := Some(i);
    }

    method Get(key: K) returns (value: Option<V>)
      requires Valid()
      ensures value == Lookup(Model(), key)
    {
      var n := Find(key);
      if n.None? { return None; }
      LookupHeld(Model(), n.value);
      value := Some(values.decode(rows[n.value].value));
    }

    method Set(key: K, value: V)
      requires Valid()
      modifies this
      ensures Valid() && Model() == Put(old(Model()), key, value)
    {
      ghost var stored := Listing(rows);
      var n := Find(key);
      if n.None? {
        PutNew(Model(), key, value);
        ReadAppended(stored, keys, values, key, value);
        OneMoreRow(rows, Written(keys, values, key, value));
        rows := rows[|rows| := Written(keys, values, key, value)];
      } else {
        PutAt(Model(), n.value, value);
        ReadReplaced(stored, keys, values, n.value, value);
        ReplacedRow(rows, n.value, Entry(rows[n.value].key, values.encode(value)));
        rows := rows[n.value := Entry(rows[n.value].key, values.encode(value))];
      }
    }

    /** The stored value, or the default after storing it; what is returned is a copy, not the row. */
    method SetDefault(key: K, default: V) returns (value: V)
      requires Valid()
      modifies this
      ensures Valid()
      ensures var before := Lookup(old(Model()), key);
              if before.Some? then value == before.value && Model() == old(Model())
              else value == default && Model() == Put(old(Model()), key, default)
    {
      var held := Get(key);
      if held.Some? { return held.value; }
      Set(key, default);
      value := default;
    }

    method Contains(key: K) returns (held: bool)
      requires Valid()
      ensures held <==> key in Keys(Model())
    {
      LookupKeys(Model(), key);
      var value := Get(key);
      held := value.Some?;
    }

    /** As a set: the value does not matter. */
    method Add(key: K, mark: V)
      requires Valid()
      modifies this
      ensures Valid() && Keys(Model()) == Keys(old(Model())) + {key}
    {
      KeysPut(Model(), key, mark);
      Set(key, mark);
    }

    method Items() returns (d: seq<Entry<K, V>>)
      requires Valid()
      ensures d == Model()
    {
      d := [];
      while |d| < |rows|
        invariant |d| <= |rows| && d == Model()[..|d|]
      {
        assert Model()[..|d| + 1] == Model()[..|d|] + [Model()[|d|]];
        d := d + [ReadBack(keys, values, rows[|d|])];
      }
      assert Model()[..|d|] == Model();
    }

    method Values() returns (all: seq<V>)
      requires Valid()
      ensures all == Dictionaries.Values(Model())
    {
      var d := Items();
      all := Dictionaries.Values(d);
    }

    /** The rows in the order of what their keys read back as, not of the text they are stored under. */
    method Ordered(text: K -> string) returns (d: seq<Entry<K, V>>)
      requires Valid() && Distinct(Model(), ByKey(text))
      ensures d == SortBy(Model(), ByKey(text))
    {
      var all := Items();
      d := OrderBy(all, ByKey(text));
    }
  }

  ghost function ReadAll<T(!new)>(stored: seq<string>, values: Codec<T>): (s: seq<T>)
    ensures |s| == |stored| && forall i :: 0 <= i < |s| ==> s[i] == values.decode(stored[i])
  {
    seq(|stored|, i requires 0 <= i < |stored| => values.decode(stored[i]))
  }

  class DiskSequence<T(==, !new)> {
    const values: Codec<T>
    var rows: map<nat, string>

    ghost predicate Valid()
      reads this
    {
      Lawful(values) && Numbered(rows)
    }

    ghost function Model(): (s: seq<T>)
      requires Valid()
      reads this
      ensures |s| == |rows|
    {
      ReadAll(Listing(rows), values)
    }

    constructor (values: Codec<T>)
      requires Lawful(values)
      ensures Valid() && Model() == []
    {
      this.values := values;
      rows := map[];
    }

    method Append(value: T)
      requires Valid()
      modifies this
      ensures Valid() && Model() == old(Model()) + [value]
    {
      OneMoreRow(rows, values.encode(value));
      rows := rows[|rows| := values.encode(value)];
    }

    /** Everything that was appended, in that order. */
    method All() returns (s: seq<T>)
      requires Valid()
      ensures s == Model()
    {
      s := [];
      while |s| < |rows|
        invariant |s| <= |rows| && s == Model()[..|s|]
      {
        assert Model()[..|s| + 1] == Model()[..|s|] + [Model()[|s|]];
        s := s + [values.decode(rows[|s|])];
      }
      assert Model()[..|s|] == Model();
    }

    method Count() returns (n: nat)
      requires Valid()
      ensures n == |Model()|
    {
      n := |rows|;
    }

    /** The rows in the order of one of their fields. */
    method Ordered(text: T -> string) returns (s: seq<T>)
      requires Valid() && Distinct(Model(), text)
      ensures s == SortBy(Model(), text)
    {
      var all := All();
      s := OrderBy(all, text);
    }
  }
}
