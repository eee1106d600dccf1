/** Sequences listed by the text of a key: stable sorting, and why a listing without repeated keys is the only one. */
module Sorting {
  import opened Seqs
  import opened Strings

  /** `x` after everything that is not greater. */
  function Insert<T>(s: seq<T>, x: T, text: T -> string): seq<T> {
    if s == [] || !Less(text(x), text(s[|s| - 1])) then s + [x]
    else Insert(s[..|s| - 1], x, text) + [s[|s| - 1]]
  }

  /** The elements in the order of their texts, those of equal text in the order they had. */
  function SortBy<T>(s: seq<T>, text: T -> string): seq<T> {
    if s == [] then [] else Insert(SortBy(s[..|s| - 1], text), s[|s| - 1], text)
  }

  ghost predicate IncreasingBy<T>(s: seq<T>, text: T -> string) {
    forall i, j :: 0 <= i < j < |s| ==> Less(text(s[i]), text(s[j]))
  }

  lemma {:induction false} InsertMember<T>(s: seq<T>, x: T, text: T -> string, y: T)
    ensures y in Insert(s, x, text) <==> y in s || y == x
  {
    if s != [] && Less(text(x), text(s[|s| - 1])) {
      InsertMember(s[..|s| - 1], x, text, y);
      assert s == s[..|s| - 1] + [s[|s| - 1]];
    }
  }

  lemma GreatestLast<T>(s: seq<T>, x: T, text: T -> string)
    requires IncreasingBy(s, text) && forall y :: y in s ==> Less(text(y), text(x))
    ensures IncreasingBy(s + [x], text)
  {
    forall i, j | 0 <= i < j < |s + [x]|
      ensures Less(text((s + [x])[i]), text((s + [x])[j]))
    {
      if j == |s| { assert s[i] in s; }
    }
  }

  lemma LastIsGreatest<T>(s: seq<T>, text: T -> string, y: T)
    requires IncreasingBy(s, text) && s != [] && y in s[..|s| - 1]
    ensures Less(text(y), text(s[|s| - 1]))
  {
    var i :| 0 <= i < |s| - 1 && s[..|s| - 1][i] == y;
    assert s[i] == y;
  }

  lemma {:induction false} InsertIncreases<T>(s: seq<T>, x: T, text: T -> string)
    requires IncreasingBy(s, text) && forall y :: y in s ==> text(y) != text(x)
    ensures IncreasingBy(Insert(s, x, text), text)
  {
    if s == [] {
    } else {
      var init, last := s[..|s| - 1], s[|s| - 1];
      assert last in s && s == init + [last];
      LessTrichotomy(text(x), text(last));
      if Less(text(x), text(last)) {
        InsertIncreases(init, x, text);
        forall y | y in Insert(init, x, text)
          ensures Less(text(y), text(last))
        {
          InsertMember(init, x, text, y);
          if y in init { LastIsGreatest(s, text, y); }
        }
        GreatestLast(Insert(init, x, text), last, text);
      } else {
        forall y | y in s
          ensures Less(text(y), text(x))
        {
          if y in init {
            LastIsGreatest(s, text, y);
            LessTransitive(text(y), text(last), text(x));
          }
        }
        GreatestLast(s, x, text);
      }
    }
  }

  lemma {:induction false} SortMember<T>(s: seq<T>, text: T -> string, y: T)
    ensures y in SortBy(s, text) <==> y in s
  {
    if s != [] {
      SortMember(s[..|s| - 1], text, y);
      InsertMember(SortBy(s[..|s| - 1], text), s[|s| - 1], text, y);
      assert s == s[..|s| - 1] + [s[|s| - 1]];
    }
  }

  /** Sorting a sequence without repeated texts lists its elements in strictly increasing order. */
  lemma {:induction false} SortIncreases<T>(s: seq<T>, text: T -> string)
    requires Distinct(s, text)
    ensures IncreasingBy(SortBy(s, text), text)
  {
    if s != [] {
      var init, x := s[..|s| - 1], s[|s| - 1];
      SortIncreases(init, text);
      forall y | y in SortBy(init, text)
        ensures text(y) != text(x)
      {
        SortMember(init, text, y);
        var i :| 0 <= i < |init| && init[i] == y;
        assert text(s[i]) != text(s[|init|]);
      }
      InsertIncreases(SortBy(init, text), x, text);
    }
  }

  lemma SameHead<T>(s: seq<T>, t: seq<T>, text: T -> string)
    requires IncreasingBy(s, text) && IncreasingBy(t, text) && s != [] && t != []
    requires s[0] in t && t[0] in s
    ensures s[0] == t[0]
  {
    var i :| 0 <= i < |s| && s[i] == t[0];
    var j :| 0 <= j < |t| && t[j] == s[0];
    LessTrichotomy(text(s[0]), text(t[0]));
  }

  lemma TailHolds<T>(s: seq<T>, text: T -> string, y: T)
    requires IncreasingBy(s, text) && s != []
    ensures y in s[1..] <==> y in s && y != s[0]
  {
    LessTrichotomy(text(s[0]), text(s[0]));
    assert s == [s[0]] + s[1..];
    if y in s[1..] {
      var i :| 0 <= i < |s[1..]| && s[1..][i] == y;
      assert s[i + 1] == y;
    }
  }

  /** There is one increasing listing of given elements. */
  lemma {:induction false} OneListing<T>(s: seq<T>, t: seq<T>, text: T -> string)
    requires IncreasingBy(s, text) && IncreasingBy(t, text) && forall y :: y in s <==> y in t
    ensures s == t
  {
    assert t == [] || t[0] in t;
    if s == [] {
    } else {
      assert s[0] in s && s[0] in t;
      assert t[0] in s;
      SameHead(s, t, text);
      forall y
        ensures y in s[1..] <==> y in t[1..]
      {
        TailHolds(s, text, y);
        TailHolds(t, text, y);
      }
      OneListing(s[1..], t[1..], text);
      assert s == [s[0]] + s[1..] && t == [t[0]] + t[1..];
    }
  }

  lemma SomeLeast<T>(all: set<T>, text: T -> string)
    requires all != {} && forall x, y :: x in all && y in all && text(x) == text(y) ==> x == y
    ensures exists x :: x in all && forall y :: y in all && y != x ==> Less(text(x), text(y))
  {
    var texts := set x | x in all :: text(x);
    var some :| some in all;
    assert text(some) in texts;
    Strings.LeastExists(texts);
    var least :| IsLeast(least, texts);
    var x :| x in all && text(x) == least;
    forall y | y in all && y != x
      ensures Less(text(x), text(y))
    {
      assert text(y) in texts;
    }
  }

  /** A query ordered by the text: rows come one by one, the least of those that are left first. */
  method OrderBy<T(==)>(all: seq<T>, text: T -> string) returns (s: seq<T>)
    requires Distinct(all, text)
    ensures s == SortBy(all, text)
  {
    s := [];
    var rest := set x | x in all;
    while rest != {}
      invariant forall x :: x in all <==> x in s || x in rest
      invariant IncreasingBy(s, text) && forall x, y :: x in s && y in rest ==> Less(text(x), text(y))
      decreases rest
    {
      forall x, y | x in rest && y in rest && text(x) == text(y)
        ensures x == y
      {
        KeyIsOneElement(all, text, x, y);
      }
      SomeLeast(rest, text);
      var least :| least in rest && forall y :: y in rest && y != least ==> Less(text(least), text(y));
      GreatestLast(s, least, text);
      s, rest := s + [least], rest - {least};
    }
    SortIncreases(all, text);
    forall y
      ensures y in SortBy(all, text) <==> y in s
    {
      SortMember(all, text, y);
    }
    OneListing(s, SortBy(all, text), text);
  }
}
