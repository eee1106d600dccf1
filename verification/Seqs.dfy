/** Small vocabulary over finite sequences and sets, shared by every component. */
module Seqs {

  datatype Option<+T> = None | Some(value: T)

  /** The elements of `s` that satisfy `p`, in order. */
  function Filter<T>(s: seq<T>, p: T -> bool): (r: seq<T>)
    ensures |r| <= |s|
  {
    if s == [] then []
    else if p(s[0]) then [s[0]] + Filter(s[1..], p)
    else Filter(s[1..], p)
  }

  function Map<T, U>(s: seq<T>, f: T -> U): (r: seq<U>)
    ensures |r| == |s|
    ensures forall j :: 0 <= j < |s| ==> r[j] == f(s[j])
  {
    if s == [] then [] else [f(s[0])] + Map(s[1..], f)
  }

  lemma {:induction false} FilterMember<T>(s: seq<T>, p: T -> bool, x: T)
    ensures x in Filter(s, p) <==> x in s && p(x)
  {
    if s != [] {
      assert s == [s[0]] + s[1..];
      FilterMember(s[1..], p, x);
    }
  }

  lemma {:induction false} FilterAppend<T>(s: seq<T>, t: seq<T>, p: T -> bool)
    ensures Filter(s + t, p) == Filter(s, p) + Filter(t, p)
  {
    if s == [] {
      assert s + t == t;
    } else {
      assert (s + t)[1..] == s[1..] + t;
      FilterAppend(s[1..], t, p);
    }
  }

  lemma FilterOneMore<T>(s: seq<T>, x: T, p: T -> bool)
    ensures Filter(s + [x], p) == if p(x) then Filter(s, p) + [x] else Filter(s, p)
  {
    FilterAppend(s, [x], p);
  }

  lemma {:induction false} MapAppend<T, U>(s: seq<T>, t: seq<T>, f: T -> U)
    ensures Map(s + t, f) == Map(s, f) + Map(t, f)
  {
    if s == [] {
      assert s + t == t;
    } else {
      assert (s + t)[1..] == s[1..] + t;
      MapAppend(s[1..], t, f);
    }
  }

  /** No two positions hold the same key. */
  ghost predicate Distinct<T, K(!new)>(s: seq<T>, key: T -> K) {
    forall j, k :: 0 <= j < k < |s| ==> key(s[j]) != key(s[k])
  }

  lemma KeyIsOneElement<T, K(!new)>(s: seq<T>, key: T -> K, a: T, b: T)
    requires Distinct(s, key) && a in s && b in s && key(a) == key(b)
    ensures a == b
  {
    var i :| 0 <= i < |s| && s[i] == a;
    var j :| 0 <= j < |s| && s[j] == b;
    assert key(s[i]) == key(s[j]);
  }

  lemma {:induction false} FilterDistinct<T, K(!new)>(s: seq<T>, p: T -> bool, key: T -> K)
    requires Distinct(s, key)
    ensures Distinct(Filter(s, p), key)
  {
    if s != [] {
      FilterDistinct(s[1..], p, key);
      if p(s[0]) {
        var r := Filter(s, p);
        forall k | 0 < k < |r|
          ensures key(r[0]) != key(r[k])
        {
          FilterMember(s[1..], p, r[k]);
        }
      }
    }
  }

  lemma OneMoreElement<T>(s: set<T>, t: set<T>, x: T)
    requires x !in t && forall y :: y in s <==> y in t || y == x
    ensures |s| == |t| + 1
  {
    assert s == t + {x};
  }

  /** The least element of a finite, non-empty set of instants. */
  ghost function Least(ts: set<int>): (m: int)
    requires ts != {}
    ensures m in ts && forall t :: t in ts ==> m <= t
  {
    LeastExists(ts);
    var m :| m in ts && forall t :: t in ts ==> m <= t;
    m
  }

  lemma SomeInstant(ts: set<int>)
    ensures ts == {} || exists x :: x in ts
  {
    if forall x :: x !in ts { assert ts == {}; }
  }

  lemma {:induction false} LeastExists(ts: set<int>)
    requires ts != {}
    ensures exists m :: m in ts && forall t :: t in ts ==> m <= t
  {
    SomeInstant(ts);
    var x :| x in ts;
    var rest := ts - {x};
    var least := x;
    if rest != {} {
      LeastExists(rest);
      var m :| m in rest && forall t :: t in rest ==> m <= t;
      if m <= x { least := m; }
    }
    forall t | t in ts
      ensures least <= t
    {
      assert t == x || t in rest;
    }
    assert least in ts;
  }

  /** The instants of `ts` that a clock standing at `now` has reached. */
  function Due(ts: set<int>, now: int): set<int> { set t | t in ts && t <= now }
}
