/** Following cursors through the results of one release while releases are activated and, for a live release, rows are
    written. */
module Traversal {
  import opened Seqs
  import opened Strings
  import opened Releases
  import opened Cursors

  /** One latest row of a release, by the fields that filters can name. */
  datatype Item = Item(fields: map<string, string>, body: string)

  /** The latest rows by output key. */
  type View = map<string, Item>

  datatype Scope = Scope(release: string, kind: ResultKind)

  /** What a request meets: the registry, the result tables and the clock of that moment. */
  datatype World = World(registry: Registry, views: map<Scope, View>, now: real)

  predicate Matches(item: Item, filters: Filters)
  {
    forall f :: f in filters ==> f in item.fields && item.fields[f] == filters[f]
  }

  /** The keys of the rows that match, beyond a position. */
  function Beyond(view: View, filters: Filters, after: string): set<string> {
    set k | k in view && Less(after, k) && Matches(view[k], filters)
  }

  datatype Page = Page(keys: seq<string>, next: Option<string>)

  /** Up to `limit` keys in order, and the position of the last of them if there are more. */
  ghost function PageOf(view: View, filters: Filters, after: string, limit: nat): Page
    requires limit > 0
  {
    var all := Sorted(Beyond(view, filters, after));
    if |all| > limit then Page(all[..limit], Some(all[limit - 1])) else Page(all, None)
  }

  datatype Failure = InvalidCursor | CursorExpired | NoActiveRelease | InvalidRelease | UnknownRelease | NotServing
      | KeyTooLarge

  datatype Response = Refused(failure: Failure)
      | Rows(release: string, keys: seq<string>, items: seq<Item>, next: Option<Token>)

  function ViewOf(w: World, scope: Scope): View { if scope in w.views then w.views[scope] else map[] }

  ghost function ItemsOf(view: View, keys: seq<string>): (items: seq<Item>)
    requires forall n :: 0 <= n < |keys| ==> keys[n] in view
  {
    seq(|keys|, n requires 0 <= n < |keys| => view[keys[n]])
  }

  lemma PageKeysHeld(view: View, filters: Filters, after: string, limit: nat)
    requires limit > 0
    ensures var keys := PageOf(view, filters, after, limit).keys; forall n :: 0 <= n < |keys| ==> keys[n] in view
  {
    SortedLists(Beyond(view, filters, after));
    var keys := PageOf(view, filters, after, limit).keys;
    forall n | 0 <= n < |keys|
      ensures keys[n] in view
    {
      assert keys[n] == Sorted(Beyond(view, filters, after))[n];
      assert keys[n] in Sorted(Beyond(view, filters, after));
    }
  }

  /** The release that a request is about, and where it takes up. */
  datatype Position = Position(release: Option<string>, after: string, expiresAt: Option<int>)

  ghost function Serve(w: World, kind: ResultKind, filters: Filters, p: Position, limit: nat,
                       size: Cursor -> nat): Response
    requires limit > 0
  {
    var chosen := if p.release.Some? then p.release else w.registry.active;
    if chosen.None? then Refused(NoActiveRelease)
    else
      var id := chosen.value;
      if !ValidId(id) then Refused(InvalidRelease)
      else if id !in w.registry.releases then Refused(UnknownRelease)
      else if !Served(w.registry.releases[id].status) then Refused(NotServing)
      else
        var view := ViewOf(w, Scope(id, kind));
        var page := PageOf(view, filters, p.after, limit);
        PageKeysHeld(view, filters, p.after, limit);
        var items := ItemsOf(view, page.keys);
        if page.next.None? then Rows(id, page.keys, items, None)
        else
          var token := Encode(id, kind, page.next.value, filters, p.expiresAt, w.now, size);
          if token.PositionTooLarge? then Refused(KeyTooLarge) else Rows(id, page.keys, items, Some(token.token))
  }

  ghost function ResultPage(w: World, kind: ResultKind, filters: Filters, release: Option<string>,
                            cursor: Option<Token>, limit: nat, size: Cursor -> nat): Response
    requires limit > 0
  {
    if cursor.None? then Serve(w, kind, filters, Position(release, "", None), limit, size)
    else match Decode(cursor.value, kind, filters, release, w.now, size)
      case Invalid => Refused(InvalidCursor)
      case Expired => Refused(CursorExpired)
      case Valid(c) => Serve(w, kind, filters, Position(Some(c.release), c.after, Some(c.expiresAt)), limit, size)
  }

  // Following cursors.

  /** One request of a traversal: what it meets and how many rows it asks for. */
  datatype Visit = Visit(world: World, limit: nat)

  /** What a client has after some requests: all rows so far, and the cursor for the next. */
  datatype Trip = Trip(keys: seq<string>, items: seq<Item>, release: Option<string>, next: Option<Token>)

  /** A client that passes every cursor on; it stops at a failure or at the last page. */
  ghost function Follow(kind: ResultKind, filters: Filters, release: Option<string>, visits: seq<Visit>,
                        size: Cursor -> nat): Option<Trip>
    requires forall n :: 0 <= n < |visits| ==> visits[n].limit > 0
  {
    if visits == [] then Some(Trip([], [], None, None))
    else
      var before, v := Follow(kind, filters, release, visits[..|visits| - 1], size), visits[|visits| - 1];
      if before.None? || (|visits| > 1 && before.value.next.None?) then None
      else
        var r := ResultPage(v.world, kind, filters, release, before.value.next, v.limit, size);
        if r.Refused? then None
        else Some(Trip(before.value.keys + r.keys, before.value.items + r.items, Some(r.release), r.next))
  }

  /** Where a trip stands: its cursor is that of its release, at its last key. */
  ghost predicate Stands(t: Trip, kind: ResultKind, filters: Filters) {
    && Increasing(t.keys) && |t.items| == |t.keys|
    && (t.next.Some? ==>
          && t.next.value.Signed? && t.keys != [] && t.release == Some(t.next.value.cursor.release)
          && t.next.value.cursor.after == t.keys[|t.keys| - 1]
          && t.next.value.cursor.kind == kind && t.next.value.cursor.filters == filters)
  }

  lemma PageIncreases(view: View, filters: Filters, after: string, limit: nat)
    requires limit > 0
    ensures var page := PageOf(view, filters, after, limit);
            && Increasing(page.keys) && (forall k :: k in page.keys ==> Less(after, k))
            && (page.next.Some? ==> page.keys != [] && page.next.value == page.keys[|page.keys| - 1])
  {
    SortedLists(Beyond(view, filters, after));
    var all, page := Sorted(Beyond(view, filters, after)), PageOf(view, filters, after, limit);
    assert forall n :: 0 <= n < |page.keys| ==> page.keys[n] == all[n];
    forall k | k in page.keys
      ensures Less(after, k)
    {
      var n :| 0 <= n < |page.keys| && page.keys[n] == k;
      assert all[n] in all;
    }
  }

  lemma IncreasingAppend(a: seq<string>, b: seq<string>, last: string)
    requires Increasing(a) && Increasing(b) && (a != [] ==> last == a[|a| - 1])
             && (a != [] ==> forall k :: k in b ==> Less(last, k))
    ensures Increasing(a + b)
  {
    var s := a + b;
    forall i, j | 0 <= i < j < |s|
      ensures Less(s[i], s[j])
    {
      if j < |a| {
        assert s[i] == a[i] && s[j] == a[j];
      } else if i < |a| {
        assert s[j] in b;
        if i < |a| - 1 {
          assert Less(a[i], a[|a| - 1]);
          LessTransitive(s[i], last, s[j]);
        }
      } else {
        assert s[i] == b[i - |a|] && s[j] == b[j - |a|];
      }
    }
  }

  /** One more page that lies beyond everything met so far. */
  lemma StandsAfterPage(before: Trip, t: Trip, r: Response, page: Page, after: string, kind: ResultKind,
                        filters: Filters)
    requires Stands(before, kind, filters) && r.Rows? && r.keys == page.keys && |r.items| == |r.keys|
    requires t == Trip(before.keys + r.keys, before.items + r.items, Some(r.release), r.next)
    requires Increasing(page.keys) && (forall k :: k in page.keys ==> Less(after, k))
             && (before.keys != [] ==> after == before.keys[|before.keys| - 1])
    requires page.next.Some? ==> page.keys != [] && page.next.value == page.keys[|page.keys| - 1]
    requires (r.next.Some? <==> page.next.Some?)
    requires r.next.Some? ==>
             r.next.value.Signed? && r.next.value.cursor.release == r.release && r.next.value.cursor.kind == kind
                              && r.next.value.cursor.after == page.next.value && r.next.value.cursor.filters == filters
    ensures Stands(t, kind, filters)
  {
    IncreasingAppend(before.keys, r.keys, after);
  }

  /** Whatever is written and activated between the requests: keys never repeat and never go back, all under one
      release. */
  lemma {:induction false} KeysAlwaysIncrease(kind: ResultKind, filters: Filters, release: Option<string>,
                                              visits: seq<Visit>, size: Cursor -> nat)
    requires forall n :: 0 <= n < |visits| ==> visits[n].limit > 0
    requires Follow(kind, filters, release, visits, size).Some?
    ensures Stands(Follow(kind, filters, release, visits, size).value, kind, filters)
  {
    if visits != [] {
      var v := visits[|visits| - 1];
      var before, r := OneMorePage(kind, filters, release, visits, size);
      KeysAlwaysIncrease(kind, filters, release, visits[..|visits| - 1], size);
      PageStands(v.world, kind, filters, release, before, v.limit, size, r);
    }
  }

  lemma PageStands(w: World, kind: ResultKind, filters: Filters, release: Option<string>, t: Trip, limit: nat,
                   size: Cursor -> nat, r: Response)
    requires limit > 0 && Stands(t, kind, filters) && r == ResultPage(w, kind, filters, release, t.next, limit, size)
             && r.Rows?
    requires t.keys != [] ==> t.next.Some?
    ensures Stands(Trip(t.keys + r.keys, t.items + r.items, Some(r.release), r.next), kind, filters)
  {
    var p, view := NextPosition(t, release), ViewOf(w, Scope(r.release, kind));
    OnePage(w, kind, filters, release, t, limit, size, r);
    PageIncreases(view, filters, p.after, limit);
    StandsAfterPage(t, Trip(t.keys + r.keys, t.items + r.items, Some(r.release), r.next), r,
          PageOf(view, filters, p.after, limit), p.after, kind, filters);
  }

  /** What the next request of a trip decodes to. */
  function NextPosition(t: Trip, release: Option<string>): Position {
    if t.next.Some? && t.next.value.Signed? then
      var c := t.next.value.cursor;
      Position(Some(c.release), c.after, Some(c.expiresAt))
    else Position(release, "", None)
  }

  /** A request of a trip is served at the trip's position. */
  lemma ServedAt(w: World, kind: ResultKind, filters: Filters, release: Option<string>, t: Trip, limit: nat,
                 size: Cursor -> nat)
    requires limit > 0 && Stands(t, kind, filters) && ResultPage(w, kind, filters, release, t.next, limit, size).Rows?
    ensures ResultPage(w, kind, filters, release, t.next, limit, size)
            == Serve(w, kind, filters, NextPosition(t, release), limit, size)
  {
  }

  /** What a served request returns. */
  lemma ServesPage(w: World, kind: ResultKind, filters: Filters, p: Position, limit: nat, size: Cursor -> nat)
    requires limit > 0 && Serve(w, kind, filters, p, limit, size).Rows?
    ensures var r := Serve(w, kind, filters, p, limit, size);
            var page := PageOf(ViewOf(w, Scope(r.release, kind)), filters, p.after, limit);
            && r.release == (if p.release.Some? then p.release.value else w.registry.active.value)
            && r.keys == page.keys && |r.items| == |r.keys|
            && (r.next.Some? <==> page.next.Some?)
            && (r.next.Some? ==>
                  r.next.value == Signed(Cursor(r.release, kind, page.next.value, filters,
                                                if p.expiresAt.Some? then p.expiresAt.value
                                                   else w.now.Floor + LIFETIME)))
  {
  }

  /** One request of a trip that is served. */
  lemma OnePage(w: World, kind: ResultKind, filters: Filters, release: Option<string>, t: Trip, limit: nat,
                size: Cursor -> nat, r: Response)
    requires limit > 0 && Stands(t, kind, filters) && r == ResultPage(w, kind, filters, release, t.next, limit, size)
             && r.Rows?
    ensures var p := NextPosition(t, release);
            var page := PageOf(ViewOf(w, Scope(r.release, kind)), filters, p.after, limit);
            && r.release == (if p.release.Some? then p.release.value else w.registry.active.value)
            && r.keys == page.keys && |r.items| == |r.keys|
            && (r.next.Some? <==> page.next.Some?)
            && (r.next.Some? ==>
                  r.next.value == Signed(Cursor(r.release, kind, page.next.value, filters,
                                                if p.expiresAt.Some? then p.expiresAt.value
                                                   else w.now.Floor + LIFETIME)))
  {
    ServedAt(w, kind, filters, release, t, limit, size);
    ServesPage(w, kind, filters, NextPosition(t, release), limit, size);
  }

  /** A trip that took one more page. */
  lemma OneMorePage(kind: ResultKind, filters: Filters, release: Option<string>, visits: seq<Visit>,
                    size: Cursor -> nat)
    returns (before: Trip, r: Response)
    requires visits != [] && forall n :: 0 <= n < |visits| ==> visits[n].limit > 0
    requires Follow(kind, filters, release, visits, size).Some?
    ensures Follow(kind, filters, release, visits[..|visits| - 1], size) == Some(before)
    ensures var v := visits[|visits| - 1];
            r == ResultPage(v.world, kind, filters, release, before.next, v.limit, size) && r.Rows?
    ensures Follow(kind, filters, release, visits, size)
            == Some(Trip(before.keys + r.keys, before.items + r.items, Some(r.release), r.next))
    ensures |visits| > 1 ==> before.next.Some?
  {
    var v := visits[|visits| - 1];
    before := Follow(kind, filters, release, visits[..|visits| - 1], size).value;
    r := ResultPage(v.world, kind, filters, release, before.next, v.limit, size);
  }

  /** A cursor names the release and the expiry of the one before it. */
  lemma NextCursorAgrees(kind: ResultKind, filters: Filters, release: Option<string>, visits: seq<Visit>,
                         size: Cursor -> nat)
    requires |visits| > 1 && forall n :: 0 <= n < |visits| ==> visits[n].limit > 0
    requires Follow(kind, filters, release, visits, size).Some?
    ensures var before, t := Follow(kind, filters, release, visits[..|visits| - 1], size),
            Follow(kind, filters, release, visits, size).value;
            && before.Some? && before.value.next.Some? && before.value.next.value.Signed?
            && t.release == before.value.release == Some(before.value.next.value.cursor.release)
            && (t.next.Some? ==>
                 t.next.value.Signed? && t.next.value.cursor.expiresAt == before.value.next.value.cursor.expiresAt)
  {
    var v := visits[|visits| - 1];
    var before, r := OneMorePage(kind, filters, release, visits, size);
    KeysAlwaysIncrease(kind, filters, release, visits[..|visits| - 1], size);
    OnePage(v.world, kind, filters, release, before, v.limit, size, r);
  }

  /** All cursors of a trip name one release and one expiry, whatever happens between its requests. */
  lemma {:induction false} CursorsAreOfOnePiece(kind: ResultKind, filters: Filters, release: Option<string>,
                                                visits: seq<Visit>, size: Cursor -> nat, n: nat)
    requires 0 < n <= |visits| && forall i :: 0 <= i < |visits| ==> visits[i].limit > 0
    requires Follow(kind, filters, release, visits, size).Some?
             && Follow(kind, filters, release, visits, size).value.next.Some?
    ensures var t, last := Follow(kind, filters, release, visits[..n], size),
            Follow(kind, filters, release, visits, size).value.next.value;
            && t.Some? && t.value.next.Some? && t.value.next.value.Signed? && last.Signed?
            && t.value.next.value.cursor.release == last.cursor.release
            && t.value.next.value.cursor.expiresAt == last.cursor.expiresAt
  {
    KeysAlwaysIncrease(kind, filters, release, visits, size);
    if n == |visits| {
      assert visits[..n] == visits;
    } else {
      var init := visits[..|visits| - 1];
      NextCursorAgrees(kind, filters, release, visits, size);
      CursorsAreOfOnePiece(kind, filters, release, init, size, n);
      assert init[..n] == visits[..n];
    }
  }

  lemma BeyondSplits(view: View, filters: Filters, after: string, n: nat)
    requires 0 < n <= |Sorted(Beyond(view, filters, after))|
    ensures var all := Sorted(Beyond(view, filters, after)); all[n..] == Sorted(Beyond(view, filters, all[n - 1]))
  {
    var all := Sorted(Beyond(view, filters, after));
    SortedLists(Beyond(view, filters, after));
    var last, rest := all[n - 1], all[n..];
    SortedLists(Beyond(view, filters, last));
    assert last in all;
    forall k
      ensures k in rest ==> k in Beyond(view, filters, last)
      ensures k in Beyond(view, filters, last) ==> k in rest
    {
      if k in rest {
        var i :| 0 <= i < |rest| && rest[i] == k;
        assert all[n + i] == k && k in all && Less(all[n - 1], all[n + i]);
      }
      if k in Beyond(view, filters, last) {
        LessTransitive(after, last, k);
        assert k in all;
        var i :| 0 <= i < |all| && all[i] == k;
        NotBefore(all, n, i);
        assert rest[i - n] == k;
      }
    }
    forall i, j | 0 <= i < j < |rest|
      ensures Less(rest[i], rest[j])
    {
      assert rest[i] == all[n + i] && rest[j] == all[n + j];
    }
    IncreasingIsUnique(rest, Sorted(Beyond(view, filters, last)));
  }

  lemma NotBefore(all: seq<string>, n: nat, i: nat)
    requires Increasing(all) && 0 < n <= |all| && i < |all| && Less(all[n - 1], all[i])
    ensures n <= i
  {
    LessTrichotomy(all[n - 1], all[i]);
    LessTrichotomy(all[i], all[i]);
  }

  /** What is still to come of a release whose rows do not change. */
  ghost function Remaining(view: View, filters: Filters, next: Option<Token>): seq<string> {
    if next.Some? && next.value.Signed? then Sorted(Beyond(view, filters, next.value.cursor.after)) else []
  }

  ghost predicate HoldsItems(t: Trip, view: View) {
    |t.items| == |t.keys| && forall n :: 0 <= n < |t.keys| ==> t.keys[n] in view && t.items[n] == view[t.keys[n]]
  }

  lemma PageSplits(view: View, filters: Filters, after: string, limit: nat)
    requires limit > 0
    ensures var page := PageOf(view, filters, after, limit);
            Sorted(Beyond(view, filters, after))
            == page.keys + if page.next.Some? then Sorted(Beyond(view, filters, page.next.value)) else []
  {
    var all := Sorted(Beyond(view, filters, after));
    if |all| > limit { BeyondSplits(view, filters, after, limit); }
  }

  lemma ServedItems(w: World, kind: ResultKind, filters: Filters, p: Position, limit: nat, size: Cursor -> nat)
    requires limit > 0 && Serve(w, kind, filters, p, limit, size).Rows?
    ensures var r := Serve(w, kind, filters, p, limit, size); var view := ViewOf(w, Scope(r.release, kind));
            |r.items| == |r.keys|
                && forall n :: 0 <= n < |r.keys| ==> r.keys[n] in view && r.items[n] == view[r.keys[n]]
  {
    var chosen := if p.release.Some? then p.release else w.registry.active;
    PageKeysHeld(ViewOf(w, Scope(chosen.value, kind)), filters, p.after, limit);
  }

  /** The rows met so far and those still to come are all matching rows, each with its item. */
  ghost predicate Exact(t: Trip, view: View, filters: Filters) {
    Sorted(Beyond(view, filters, "")) == t.keys + Remaining(view, filters, t.next) && HoldsItems(t, view)
  }

  lemma KeysRegroup(all: seq<string>, before: seq<string>, rest: seq<string>, page: seq<string>, remaining: seq<string>)
    requires all == before + rest && rest == page + remaining
    ensures all == before + page + remaining
  {
  }

  lemma ItemsAppend(before: Trip, t: Trip, keys: seq<string>, items: seq<Item>, view: View)
    requires HoldsItems(before, view) && t.keys == before.keys + keys && t.items == before.items + items
    requires |items| == |keys| && forall n :: 0 <= n < |keys| ==> keys[n] in view && items[n] == view[keys[n]]
    ensures HoldsItems(t, view)
  {
  }

  /** One more page of an unchanged release. */
  lemma PageKeepsExact(before: Trip, t: Trip, r: Response, view: View, filters: Filters, after: string, limit: nat)
    requires limit > 0 && r.Rows? && t.keys == before.keys + r.keys && t.items == before.items + r.items
             && t.next == r.next
    requires Sorted(Beyond(view, filters, "")) == before.keys + Sorted(Beyond(view, filters, after))
             && HoldsItems(before, view)
    requires var page := PageOf(view, filters, after, limit);
             && r.keys == page.keys && (r.next.Some? <==> page.next.Some?)
             && (r.next.Some? ==> r.next.value.Signed? && r.next.value.cursor.after == page.next.value)
    requires |r.items| == |r.keys|
             && forall n :: 0 <= n < |r.keys| ==> r.keys[n] in view && r.items[n] == view[r.keys[n]]
    ensures Exact(t, view, filters)
  {
    PageSplits(view, filters, after, limit);
    KeysRegroup(Sorted(Beyond(view, filters, "")), before.keys, Sorted(Beyond(view, filters, after)), r.keys,
          Remaining(view, filters, t.next));
    ItemsAppend(before, t, r.keys, r.items, view);
  }

  /** Over a release that does not change, with any page sizes and any activations in between: the rows met so far and
      those still to come are all matching rows, each exactly once, in key order. With no cursor left, the traversal is
      complete. */
  lemma {:induction false} TraversalIsExact(kind: ResultKind, filters: Filters, release: Option<string>,
                                            visits: seq<Visit>, size: Cursor -> nat, id: string, view: View)
    requires visits != [] && forall n :: 0 <= n < |visits| ==> visits[n].limit > 0
    requires Follow(kind, filters, release, visits, size).Some?
             && Follow(kind, filters, release, visits, size).value.release == Some(id)
    requires forall n :: 0 <= n < |visits| ==> ViewOf(visits[n].world, Scope(id, kind)) == view
    ensures Exact(Follow(kind, filters, release, visits, size).value, view, filters)
  {
    var init, v := visits[..|visits| - 1], visits[|visits| - 1];
    var before, r := OneMorePage(kind, filters, release, visits, size);
    KeysAlwaysIncrease(kind, filters, release, init, size);
    var p := NextPosition(before, release);
    if |visits| > 1 {
      NextCursorAgrees(kind, filters, release, visits, size);
      TraversalIsExact(kind, filters, release, init, size, id, view);
      assert Remaining(view, filters, before.next) == Sorted(Beyond(view, filters, p.after));
    } else {
      assert Sorted(Beyond(view, filters, "")) == before.keys + Sorted(Beyond(view, filters, p.after));
    }
    OnePage(v.world, kind, filters, release, before, v.limit, size, r);
    ServedAt(v.world, kind, filters, release, before, v.limit, size);
    ServedItems(v.world, kind, filters, p, v.limit, size);
    PageKeepsExact(before, Follow(kind, filters, release, visits, size).value, r, view, filters, p.after, v.limit);
  }

  /** A row that a traversal is about: under a key of its own, with every field that the filters name as they name it.
      */
  predicate Sought(view: View, filters: Filters, k: string) {
    k in view && k != "" && forall f :: f in filters ==> f in view[k].fields && view[k].fields[f] == filters[f]
  }

  /** A row that a page may hold: sought, and beyond the position. */
  predicate SoughtAfter(view: View, filters: Filters, after: string, k: string) {
    Sought(view, filters, k) && Less(after, k)
  }

  /** A page is full if there is a cursor, with more to come, and holds all that is left if there is none. */
  lemma PagesAreFull(w: World, kind: ResultKind, filters: Filters, p: Position, limit: nat, size: Cursor -> nat)
    requires limit > 0 && Serve(w, kind, filters, p, limit, size).Rows?
    ensures var r := Serve(w, kind, filters, p, limit, size); var view := ViewOf(w, Scope(r.release, kind));
            && |r.keys| <= limit && (forall k :: k in r.keys ==> SoughtAfter(view, filters, p.after, k))
            && (r.next.Some? ==> |r.keys| == limit
                                 && exists k :: SoughtAfter(view, filters, p.after, k) && k !in r.keys)
            && (r.next.None? ==> forall k :: SoughtAfter(view, filters, p.after, k) ==> k in r.keys)
  {
    var r := Serve(w, kind, filters, p, limit, size);
    var view := ViewOf(w, Scope(r.release, kind));
    var all := Sorted(Beyond(view, filters, p.after));
    SortedLists(Beyond(view, filters, p.after));
    forall k
      ensures k in all <==> SoughtAfter(view, filters, p.after, k)
    {
    }
    if r.next.Some? {
      assert r.keys == all[..limit];
      assert all[limit] in all && all[limit] !in r.keys by {
        forall n | 0 <= n < limit
          ensures r.keys[n] != all[limit]
        {
          assert Less(all[n], all[limit]);
          LessTrichotomy(all[n], all[limit]);
        }
      }
    } else {
      assert r.keys == all;
    }
  }

  /** With no cursor left, the rows met are all the rows sought, each with its item, no key twice and none out of order.
      */
  lemma TraversalMeetsAll(kind: ResultKind, filters: Filters, release: Option<string>, visits: seq<Visit>,
                          size: Cursor -> nat, id: string, view: View)
    requires visits != [] && forall n :: 0 <= n < |visits| ==> visits[n].limit > 0
    requires Follow(kind, filters, release, visits, size).Some?
             && Follow(kind, filters, release, visits, size).value.release == Some(id)
             && Follow(kind, filters, release, visits, size).value.next.None?
    requires forall n :: 0 <= n < |visits| ==> ViewOf(visits[n].world, Scope(id, kind)) == view
    ensures var t := Follow(kind, filters, release, visits, size).value;
            && (forall k :: k in t.keys <==> Sought(view, filters, k))
            && (forall i, j :: 0 <= i < j < |t.keys| ==> t.keys[i] != t.keys[j] && Less(t.keys[i], t.keys[j]))
            && HoldsItems(t, view)
  {
    var t := Follow(kind, filters, release, visits, size).value;
    TraversalIsExact(kind, filters, release, visits, size, id, view);
    assert t.keys == Sorted(Beyond(view, filters, ""));
    SortedLists(Beyond(view, filters, ""));
    forall k
      ensures k in Beyond(view, filters, "") <==> Sought(view, filters, k)
    {
    }
    forall i, j | 0 <= i < j < |t.keys|
      ensures t.keys[i] != t.keys[j]
    {
      LessTrichotomy(t.keys[i], t.keys[j]);
    }
  }

  /** A traversal under way is never turned away by what is published or activated: its release stays served. */
  lemma {:induction false} PinnedReleaseStaysServed(before: seq<Releases.Step>, more: seq<Releases.Step>, w: World,
                                                    kind: ResultKind, filters: Filters, p: Position, limit: nat,
                                                    size: Cursor -> nat)
    requires w.registry == Run(before).registry && limit > 0
    requires p.release.Some? && IsServed(w.registry, p.release.value) && ValidId(p.release.value)
    ensures var later := w.(registry := Run(before + more).registry);
            && Serve(later, kind, filters, p, limit, size) == Serve(w, kind, filters, p, limit, size)
            && (Serve(w, kind, filters, p, limit, size).Rows?
                || Serve(w, kind, filters, p, limit, size) == Refused(KeyTooLarge))
  {
    ServedStaysServed(before, more, p.release.value);
  }
}
