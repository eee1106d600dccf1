/** Packing lookup keys into bounded query parameters: bracketed, comma-separated lists of encoded keys. */
module LookupPacking {

  /** The keys in the order in which each is first seen. */
  function FirstSeen<K(==)>(keys: seq<K>): seq<K> {
    if keys == [] then []
    else
      var before, k := FirstSeen(keys[..|keys| - 1]), keys[|keys| - 1];
      if k in before then before else before + [k]
  }

  lemma {:induction false} FirstSeenHolds<K>(keys: seq<K>)
    ensures forall k :: k in FirstSeen(keys) <==> k in keys
    ensures forall i, j :: 0 <= i < j < |FirstSeen(keys)| ==> FirstSeen(keys)[i] != FirstSeen(keys)[j]
  {
    if keys != [] {
      assert keys == keys[..|keys| - 1] + [keys[|keys| - 1]];
      FirstSeenHolds(keys[..|keys| - 1]);
    }
  }

  /** The keys of one parameter, joined by commas. */
  function Joined<K>(chunk: seq<K>, encode: K -> string): string {
    if chunk == [] then ""
    else if |chunk| == 1 then encode(chunk[0])
    else Joined(chunk[..|chunk| - 1], encode) + "," + encode(chunk[|chunk| - 1])
  }

  function Parameter<K>(chunk: seq<K>, encode: K -> string): string { "[" + Joined(chunk, encode) + "]" }

  predicate Fits<K>(chunk: seq<K>, encode: K -> string, maxBytes: nat) { |Parameter(chunk, encode)| <= maxBytes }

  lemma OneMoreKey<K>(chunk: seq<K>, k: K, encode: K -> string)
    ensures |Parameter(chunk + [k], encode)|
         == |Parameter(chunk, encode)| + |encode(k)| + if chunk == [] then 0 else 1
  {
    assert (chunk + [k])[..|chunk|] == chunk;
  }

  /** A part of a parameter that fits, fits. */
  lemma {:induction false} PrefixFits<K>(chunk: seq<K>, n: nat, encode: K -> string)
    requires n <= |chunk|
    ensures |Parameter(chunk[..n], encode)| <= |Parameter(chunk, encode)|
    decreases |chunk| - n
  {
    if n < |chunk| {
      PrefixFits(chunk, n + 1, encode);
      assert chunk[..n + 1] == chunk[..n] + [chunk[n]];
      OneMoreKey(chunk[..n], chunk[n], encode);
    } else {
      assert chunk[..n] == chunk;
    }
  }

  lemma {:induction false} SuffixFits<K>(chunk: seq<K>, n: nat, encode: K -> string)
    requires n <= |chunk|
    ensures |Parameter(chunk[n..], encode)| <= |Parameter(chunk, encode)|
  {
    if n == |chunk| {
      assert chunk[n..] == [];
    } else if n > 0 {
      var init, k := chunk[..|chunk| - 1], chunk[|chunk| - 1];
      assert chunk == init + [k] && chunk[n..] == init[n..] + [k];
      SuffixFits(init, n, encode);
      OneMoreKey(init, k, encode);
      OneMoreKey(init[n..], k, encode);
    } else {
      assert chunk[n..] == chunk;
    }
  }

  function Concat<K>(chunks: seq<seq<K>>): seq<K> { if chunks == [] then [] else chunks[0] + Concat(chunks[1..]) }

  /** How many of the first keys fit into one parameter; the first alone is always taken. */
  function Longest<K>(keys: seq<K>, n: nat, encode: K -> string, maxBytes: nat): (m: nat)
    requires 0 < n <= |keys|
    ensures 0 < n <= m <= |keys|
    decreases |keys| - n
  {
    if n < |keys| && Fits(keys[..n + 1], encode, maxBytes) then Longest(keys, n + 1, encode, maxBytes) else n
  }

  lemma {:induction false} LongestIsLongest<K>(keys: seq<K>, n: nat, encode: K -> string, maxBytes: nat, other: nat)
    requires 0 < n <= |keys| && Fits(keys[..n], encode, maxBytes)
    ensures Fits(keys[..Longest(keys, n, encode, maxBytes)], encode, maxBytes)
    ensures n <= other <= |keys| && Fits(keys[..other], encode, maxBytes) ==>
            other <= Longest(keys, n, encode, maxBytes)
    decreases |keys| - n
  {
    if n < |keys| && Fits(keys[..n + 1], encode, maxBytes) {
      LongestIsLongest(keys, n + 1, encode, maxBytes, other);
    } else if n < other <= |keys| {
      PrefixFits(keys[..other], n + 1, encode);
      assert keys[..other][..n + 1] == keys[..n + 1];
    }
  }

  /** Take as many keys as fit, then start over. */
  function Greedy<K>(keys: seq<K>, encode: K -> string, maxBytes: nat): seq<seq<K>> {
    if keys == [] then []
    else
      var m := Longest(keys, 1, encode, maxBytes);
      [keys[..m]] + Greedy(keys[m..], encode, maxBytes)
  }

  predicate EachFits<K>(keys: seq<K>, encode: K -> string, maxBytes: nat) {
    forall n :: 0 <= n < |keys| ==> |encode(keys[n])| + 2 <= maxBytes
  }

  /** The first parameter of a suffix reaches at least as far as a parameter that contains the suffix's first key. */
  lemma SuffixReachesAsFar<K>(keys: seq<K>, m: nat, j: nat, encode: K -> string, maxBytes: nat)
    requires j < m <= |keys| && Fits(keys[..m], encode, maxBytes) && EachFits(keys, encode, maxBytes)
    ensures var n := Longest(keys[j..], 1, encode, maxBytes);
            m - j <= n <= |keys| - j && keys[j..][n..] == keys[m..][n - (m - j)..]
  {
    var tail := keys[j..];
    assert tail[..1] == [keys[j]];
    SuffixFits(keys[..m], j, encode);
    assert keys[..m][j..] == tail[..m - j];
    LongestIsLongest(tail, 1, encode, maxBytes, m - j);
  }

  /** Packing a suffix never takes more parameters. */
  lemma {:induction false} SuffixTakesNoMore<K>(keys: seq<K>, j: nat, encode: K -> string, maxBytes: nat)
    requires j <= |keys| && EachFits(keys, encode, maxBytes)
    ensures |Greedy(keys[j..], encode, maxBytes)| <= |Greedy(keys, encode, maxBytes)|
    decreases |keys|
  {
    if keys == [] {
    } else if j == |keys| {
      assert keys[j..] == [];
    } else {
      var m := Longest(keys, 1, encode, maxBytes);
      assert keys[..1] == [keys[0]];
      LongestIsLongest(keys, 1, encode, maxBytes, 1);
      if m <= j {
        assert keys[m..][j - m..] == keys[j..];
        SuffixTakesNoMore(keys[m..], j - m, encode, maxBytes);
      } else {
        SuffixReachesAsFar(keys, m, j, encode, maxBytes);
        SuffixTakesNoMore(keys[m..], Longest(keys[j..], 1, encode, maxBytes) - (m - j), encode, maxBytes);
      }
    }
  }

  ghost predicate IsSplit<K(!new)>(keys: seq<K>, chunks: seq<seq<K>>, encode: K -> string, maxBytes: nat) {
    Concat(chunks) == keys && forall c :: c in chunks ==> c != [] && Fits(c, encode, maxBytes)
  }

  lemma {:induction false} GreedyIsSplit<K(!new)>(keys: seq<K>, encode: K -> string, maxBytes: nat)
    requires EachFits(keys, encode, maxBytes)
    ensures IsSplit(keys, Greedy(keys, encode, maxBytes), encode, maxBytes)
  {
    if keys != [] {
      var m := Longest(keys, 1, encode, maxBytes);
      assert keys[..1] == [keys[0]];
      LongestIsLongest(keys, 1, encode, maxBytes, 1);
      GreedyIsSplit(keys[m..], encode, maxBytes);
    }
  }

  /** No order-preserving packing into parameters that fit takes fewer of them. */
  lemma {:induction false} GreedyIsFewest<K(!new)>(keys: seq<K>, chunks: seq<seq<K>>, encode: K -> string,
                                                   maxBytes: nat)
    requires EachFits(keys, encode, maxBytes) && IsSplit(keys, chunks, encode, maxBytes)
    ensures |Greedy(keys, encode, maxBytes)| <= |chunks|
    decreases |chunks|
  {
    if chunks != [] {
      var first, rest := chunks[0], Concat(chunks[1..]);
      assert first in chunks && first != [] && keys == first + rest && keys[|first|..] == rest;
      forall c | c in chunks[1..]
        ensures c in chunks
      {
      }
      GreedyIsFewest(rest, chunks[1..], encode, maxBytes);
      var m := Longest(keys, 1, encode, maxBytes);
      assert keys[..1] == [keys[0]] && keys[..|first|] == first;
      LongestIsLongest(keys, 1, encode, maxBytes, |first|);
      assert keys[m..] == rest[m - |first|..];
      SuffixTakesNoMore(rest, m - |first|, encode, maxBytes);
    }
  }

  method Unique<K(==)>(keys: seq<K>) returns (unique: seq<K>)
    ensures unique == FirstSeen(keys)
  {
    unique := [];
    var i := 0;
    while i < |keys|
      invariant 0 <= i <= |keys| && unique == FirstSeen(keys[..i])
    {
      assert keys[..i + 1][..i] == keys[..i];
      if keys[i] !in unique { unique := unique + [keys[i]]; }
      i := i + 1;
    }
    assert keys[..i] == keys;
  }

  lemma LongestIs<K>(keys: seq<K>, n: nat, encode: K -> string, maxBytes: nat)
    requires 0 < n <= |keys| && Fits(keys[..n], encode, maxBytes)
    requires n < |keys| ==> !Fits(keys[..n + 1], encode, maxBytes)
    ensures Longest(keys, 1, encode, maxBytes) == n
  {
    PrefixFits(keys[..n], 1, encode);
    assert keys[..n][..1] == keys[..1];
    LongestIsLongest(keys, 1, encode, maxBytes, n);
    var m := Longest(keys, 1, encode, maxBytes);
    if m > n { ShorterFits(keys, n + 1, m, encode, maxBytes); }
  }

  lemma ShorterFits<K>(keys: seq<K>, n: nat, m: nat, encode: K -> string, maxBytes: nat)
    requires n <= m <= |keys| && Fits(keys[..m], encode, maxBytes)
    ensures Fits(keys[..n], encode, maxBytes)
  {
    PrefixFits(keys[..m], n, encode);
    assert keys[..m][..n] == keys[..n];
  }

  lemma GreedyCloses<K>(open: seq<K>, k: K, rest: seq<K>, encode: K -> string, maxBytes: nat)
    requires open != [] && Fits(open, encode, maxBytes) && !Fits(open + [k], encode, maxBytes)
    ensures Greedy(open + [k] + rest, encode, maxBytes) == [open] + Greedy([k] + rest, encode, maxBytes)
  {
    var all := open + [k] + rest;
    assert all[..|open|] == open && all[..|open| + 1] == open + [k] && all[|open|..] == [k] + rest;
    LongestIs(all, |open|, encode, maxBytes);
  }

  lemma GreedyOfOne<K>(open: seq<K>, encode: K -> string, maxBytes: nat)
    requires open != [] && Fits(open, encode, maxBytes)
    ensures Greedy(open, encode, maxBytes) == [open]
  {
    assert open[..|open|] == open && open[|open|..] == [];
    LongestIs(open, |open|, encode, maxBytes);
  }

  /** One more key: into the open parameter, or into a new one when the open one would exceed the budget. */
  method Add<K(!new)>(open: seq<K>, size: nat, k: K, ghost rest: seq<K>, encode: K -> string, maxBytes: nat)
    returns (closed: seq<seq<K>>, now: seq<K>, newSize: nat)
    requires size == |Parameter(open, encode)| && (open != [] ==> size <= maxBytes) && |encode(k)| + 2 <= maxBytes
    ensures newSize == |Parameter(now, encode)| <= maxBytes && now != []
    ensures Greedy(open + [k] + rest, encode, maxBytes) == closed + Greedy(now + rest, encode, maxBytes)
  {
    closed, now, newSize := [], open, size;
    OneMoreKey(open, k, encode);
    if newSize + |encode(k)| + (if open != [] then 1 else 0) > maxBytes {
      GreedyCloses(open, k, rest, encode, maxBytes);
      closed, now, newSize := [open], [], 2;
      OneMoreKey(now, k, encode);
      assert now + [k] == [k];
    }
    newSize := newSize + |encode(k)| + if now != [] then 1 else 0;
    now := now + [k];
  }

  lemma Regroup<K>(a: seq<seq<K>>, b: seq<seq<K>>, c: seq<seq<K>>)
    ensures a + (b + c) == (a + b) + c
  {
  }

  /** The packing between two keys: what is closed, what is open, and how much of the budget the open one takes. */
  ghost predicate Packing<K(!new)>(keys: seq<K>, i: nat, chunks: seq<seq<K>>, open: seq<K>, size: nat,
                                   encode: K -> string, maxBytes: nat)
  {
    && i <= |keys| && EachFits(keys[..i], encode, maxBytes)
    && size == |Parameter(open, encode)| && (open != [] ==> size <= maxBytes) && (i > 0 ==> open != [])
    && Greedy(keys, encode, maxBytes) == chunks + Greedy(open + keys[i..], encode, maxBytes)
  }

  method TakeKey<K(!new)>(keys: seq<K>, i: nat, chunks: seq<seq<K>>, open: seq<K>, size: nat, encode: K -> string,
                          maxBytes: nat)
    returns (closed: seq<seq<K>>, now: seq<K>, newSize: nat)
    requires i < |keys| && Packing(keys, i, chunks, open, size, encode, maxBytes) && |encode(keys[i])| + 2 <= maxBytes
    ensures Packing(keys, i + 1, chunks + closed, now, newSize, encode, maxBytes)
  {
    assert open + keys[i..] == open + [keys[i]] + keys[i + 1..];
    closed, now, newSize := Add(open, size, keys[i], keys[i + 1..], encode, maxBytes);
    Regroup(chunks, closed, Greedy(now + keys[i + 1..], encode, maxBytes));
  }

  lemma PackedAtEnd<K(!new)>(keys: seq<K>, chunks: seq<seq<K>>, open: seq<K>, size: nat, encode: K -> string,
                             maxBytes: nat)
    requires Packing(keys, |keys|, chunks, open, size, encode, maxBytes)
    ensures EachFits(keys, encode, maxBytes)
    ensures Greedy(keys, encode, maxBytes) == if open == [] then chunks else chunks + [open]
  {
    assert open + keys[|keys|..] == open && keys[..|keys|] == keys;
    if open != [] { GreedyOfOne(open, encode, maxBytes); }
  }

  lemma OneTooLong<K>(keys: seq<K>, i: nat, encode: K -> string, maxBytes: nat)
    requires i < |keys| && |encode(keys[i])| + 2 > maxBytes
    ensures !EachFits(keys, encode, maxBytes)
  {
  }

  method PackUnique<K(!new)>(unique: seq<K>, encode: K -> string, maxBytes: nat) returns (chunks: seq<seq<K>>, ok: bool)
    ensures ok <==> EachFits(unique, encode, maxBytes)
    ensures ok ==> chunks == Greedy(unique, encode, maxBytes)
  {
    var open: seq<K>, size: nat := [], 2;
    chunks, ok := [], true;
    var i := 0;
    assert open + unique[i..] == unique;
    while i < |unique|
      invariant 0 <= i <= |unique|
      invariant Packing(unique, i, chunks, open, size, encode, maxBytes)
    {
      if |encode(unique[i])| + 2 > maxBytes {
        OneTooLong(unique, i, encode, maxBytes);
        return chunks, false;
      }
      var closed;
      closed, open, size := TakeKey(unique, i, chunks, open, size, encode, maxBytes);
      chunks := chunks + closed;
      i := i + 1;
    }
    PackedAtEnd(unique, chunks, open, size, encode, maxBytes);
    if open != [] { chunks := chunks + [open]; }
  }

  /** The packing as it runs: a running size, flushed before it would exceed the budget. It fails exactly if one key
      alone exceeds it, and otherwise packs the distinct keys into the fewest parameters. */
  method Pack<K(==, !new)>(keys: seq<K>, encode: K -> string, maxBytes: nat) returns (chunks: seq<seq<K>>, ok: bool)
    ensures ok <==> EachFits(FirstSeen(keys), encode, maxBytes)
    ensures ok ==> chunks == Greedy(FirstSeen(keys), encode, maxBytes)
  {
    var unique := Unique(keys);
    chunks, ok := PackUnique(unique, encode, maxBytes);
  }

  /** What is found parameter by parameter is what one unbounded lookup finds. */
  function FoundBy<K, V>(table: map<K, V>, keys: seq<K>): map<K, V> { map k | k in table && k in keys :: table[k] }

  method LookUp<K, V>(table: map<K, V>, chunks: seq<seq<K>>) returns (found: map<K, V>)
    ensures found == FoundBy(table, Concat(chunks))
  {
    found := map[];
    var i := 0;
    assert chunks[0..] == chunks;
    while i < |chunks|
      invariant 0 <= i <= |chunks|
      invariant forall k :: k in found ==> k in table && found[k] == table[k]
      invariant forall k :: k in table && k in Concat(chunks) ==> k in found || k in Concat(chunks[i..])
      invariant forall k :: k in found ==> k in Concat(chunks)
      invariant forall k :: k in Concat(chunks[i..]) ==> k in Concat(chunks)
    {
      assert chunks[i..][1..] == chunks[i + 1..];
      found := found + FoundBy(table, chunks[i]);
      i := i + 1;
    }
  }
}
