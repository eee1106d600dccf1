/** What a cursor entitles to, over all requests that a server has answered: the traversal it came from, until that
    ends. */
module Leases {
  import opened Seqs
  import opened Cursors
  import Releases
  import opened Traversal

  datatype Request = Request(world: World, kind: ResultKind, filters: Filters, release: Option<string>,
                             cursor: Option<Token>, limit: nat)

  ghost function Answer(q: Request, size: Cursor -> nat): Response
    requires q.limit > 0
  {
    ResultPage(q.world, q.kind, q.filters, q.release, q.cursor, q.limit, size)
  }

  ghost predicate IssuedBy(q: Request, size: Cursor -> nat, t: Token) {
    q.limit > 0 && Answer(q, size).Rows? && Answer(q, size).next == Some(t)
  }

  ghost predicate Issued(qs: seq<Request>, size: Cursor -> nat, t: Token) {
    exists n :: 0 <= n < |qs| && IssuedBy(qs[n], size, t)
  }

  /** Signatures cannot be forged: a signed token that is sent has been issued before. Who sends it, how often, to which
      query and after what else is up to the clients; anything else may be sent as well. */
  ghost predicate Unforged(qs: seq<Request>, size: Cursor -> nat) {
    qs == [] || (
      var init, q := qs[..|qs| - 1], qs[|qs| - 1];
      Unforged(init, size) && (q.cursor.Some? && q.cursor.value.Signed? ==> Issued(init, size, q.cursor.value)))
  }

  /** A request without a cursor, answered from the release of `c`, in the scope of `c`, when its lease began. */
  ghost predicate Began(q: Request, size: Cursor -> nat, c: Cursor) {
    && q.limit > 0 && q.cursor.None? && Answer(q, size).Rows? && Answer(q, size).release == c.release
    && q.kind == c.kind && q.filters == c.filters && c.expiresAt == q.world.now.Floor + 1800
  }

  /** An answer without a cursor begins a lease; an answer to a cursor carries its lease on. */
  lemma IssuedOnLease(q: Request, size: Cursor -> nat, t: Token)
    requires IssuedBy(q, size, t)
    ensures t.Signed? && (q.cursor.None? ==> Began(q, size, t.cursor))
    ensures q.cursor.Some? ==>
              && q.cursor.value.Signed?
              && t.cursor == q.cursor.value.cursor.(after := t.cursor.after)
  {
    if q.cursor.None? {
      ServesPage(q.world, q.kind, q.filters, Position(q.release, "", None), q.limit, size);
    } else {
      var c := q.cursor.value.cursor;
      ServesPage(q.world, q.kind, q.filters, Position(Some(c.release), c.after, Some(c.expiresAt)), q.limit, size);
    }
  }

  ghost predicate BeganAmong(qs: seq<Request>, size: Cursor -> nat, c: Cursor) {
    exists m :: 0 <= m < |qs| && Began(qs[m], size, c)
  }

  /** A lease is that of every position in it, and stays so when more is asked. */
  lemma LeaseStays(qs: seq<Request>, q: Request, size: Cursor -> nat, c: Cursor, after: string)
    requires BeganAmong(qs, size, c)
    ensures BeganAmong(qs + [q], size, c.(after := after))
  {
    var m :| 0 <= m < |qs| && Began(qs[m], size, c);
    assert (qs + [q])[m] == qs[m] && Began(qs[m], size, c.(after := after));
  }

  lemma LeaseBegins(qs: seq<Request>, q: Request, size: Cursor -> nat, c: Cursor)
    requires Began(q, size, c)
    ensures BeganAmong(qs + [q], size, c)
  {
    assert (qs + [q])[|qs|] == q;
  }

  lemma IssuedLast(qs: seq<Request>, q: Request, size: Cursor -> nat, t: Token)
    requires Issued(qs + [q], size, t)
    ensures Issued(qs, size, t) || IssuedBy(q, size, t)
  {
    var n :| 0 <= n < |qs + [q]| && IssuedBy((qs + [q])[n], size, t);
    if n < |qs| { assert IssuedBy(qs[n], size, t); }
  }

  /** Every token issued goes back to a request without a cursor, of the same kind, filters and release, from which its
      expiry counts: passing cursors on, in whatever order and branching, never renews a lease or widens its scope. */
  lemma {:induction false} EveryLeaseBegan(qs: seq<Request>, size: Cursor -> nat, t: Token)
    requires Unforged(qs, size) && Issued(qs, size, t)
    ensures t.Signed? && BeganAmong(qs, size, t.cursor)
  {
    var init, q := qs[..|qs| - 1], qs[|qs| - 1];
    assert qs == init + [q];
    if Issued(init, size, t) {
      EveryLeaseBegan(init, size, t);
      LeaseStays(init, q, size, t.cursor, t.cursor.after);
    } else {
      IssuedLast(init, q, size, t);
      IssuedOnLease(q, size, t);
      if q.cursor.None? {
        LeaseBegins(init, q, size, t.cursor);
      } else {
        EveryLeaseBegan(init, size, q.cursor.value);
        LeaseStays(init, q, size, q.cursor.value.cursor, t.cursor.after);
      }
    }
  }

  /** What an answer carries is what `Encode` made of its position. */
  lemma ServesToken(w: World, kind: ResultKind, filters: Filters, p: Position, limit: nat, size: Cursor -> nat)
    requires limit > 0 && Serve(w, kind, filters, p, limit, size).Rows?
    requires Serve(w, kind, filters, p, limit, size).next.Some?
    ensures var r := Serve(w, kind, filters, p, limit, size);
            && Releases.ValidId(r.release) && r.next.value.Signed?
            && Encode(r.release, kind, r.next.value.cursor.after, filters, p.expiresAt, w.now, size)
               == Encoded.Token(r.next.value)
  {
  }

  /** Whatever was issued is accepted, unchanged, by any request about its scope, until its lease ends and not after. */
  lemma IssuedIsAccepted(qs: seq<Request>, size: Cursor -> nat, c: Cursor, asked: Option<string>, later: real)
    requires Issued(qs, size, Signed(c)) && Prefix(c.kind) <= c.after && (asked.Some? ==> asked.value == c.release)
    ensures Decode(Signed(c), c.kind, c.filters, asked, later, size)
            == if c.expiresAt as real <= later then Expired else Valid(c)
  {
    var n :| 0 <= n < |qs| && IssuedBy(qs[n], size, Signed(c));
    var q := qs[n];
    var p := if q.cursor.None? then Position(q.release, "", None)
             else Position(Some(q.cursor.value.cursor.release), q.cursor.value.cursor.after,
                           Some(q.cursor.value.cursor.expiresAt));
    ServesToken(q.world, q.kind, q.filters, p, q.limit, size);
    RoundTrip(c.release, q.kind, c.after, q.filters, p.expiresAt, q.world.now, later, asked, size);
  }

  /** `q` began the lease of `c`, in this scope, less than a lease before `now`. */
  ghost predicate Entitles(q: Request, size: Cursor -> nat, c: Cursor, kind: ResultKind, filters: Filters,
                           release: Option<string>, now: real)
  {
    && Began(q, size, c) && q.kind == kind && q.filters == filters
    && (release.Some? ==> Answer(q, size).release == release.value)
    && now < (q.world.now.Floor + 1800) as real
  }

  /** The position lies among the keys of its kind. */
  predicate Marked(c: Cursor, kind: ResultKind) {
    match kind
    case Metric => "m:" <= c.after
    case Association => "a:" <= c.after
  }

  /** Whatever a server accepts in a scope, it issued for that scope: to a traversal of this kind, with these filters,
      over this release, that began less than a lease ago. */
  lemma AcceptedInItsScope(qs: seq<Request>, size: Cursor -> nat, t: Token, kind: ResultKind, filters: Filters,
                           release: Option<string>, now: real)
    requires Unforged(qs, size) && (t.Signed? ==> Issued(qs, size, t))
    requires Decode(t, kind, filters, release, now, size).Valid?
    ensures t.Signed? && Marked(t.cursor, kind) && 1 <= |t.cursor.after| <= 1500
    ensures exists m :: 0 <= m < |qs| && Entitles(qs[m], size, t.cursor, kind, filters, release, now)
  {
    EveryLeaseBegan(qs, size, t);
    var m :| 0 <= m < |qs| && Began(qs[m], size, t.cursor);
    assert Entitles(qs[m], size, t.cursor, kind, filters, release, now);
  }

  /** And what it issued it accepts there, until then. */
  lemma EntitledIsAccepted(qs: seq<Request>, size: Cursor -> nat, c: Cursor, q: Request, kind: ResultKind,
                           filters: Filters, release: Option<string>, now: real)
    requires Issued(qs, size, Signed(c)) && Prefix(c.kind) <= c.after
    requires Entitles(q, size, c, kind, filters, release, now)
    ensures Decode(Signed(c), kind, filters, release, now, size) == Valid(c)
  {
    IssuedIsAccepted(qs, size, c, release, now);
  }

  /** A token is accepted exactly by requests about its scope before its lease ends, whoever presents it. */
  lemma AcceptedExactly(qs: seq<Request>, size: Cursor -> nat, c: Cursor, kind: ResultKind, filters: Filters,
                        release: Option<string>, now: real)
    requires Unforged(qs, size) && Issued(qs, size, Signed(c)) && Marked(c, c.kind)
    ensures Decode(Signed(c), kind, filters, release, now, size) == Valid(c)
            <==> exists m :: 0 <= m < |qs| && Entitles(qs[m], size, c, kind, filters, release, now)
  {
    if Decode(Signed(c), kind, filters, release, now, size) == Valid(c) {
      AcceptedInItsScope(qs, size, Signed(c), kind, filters, release, now);
    } else if m :| 0 <= m < |qs| && Entitles(qs[m], size, c, kind, filters, release, now) {
      EntitledIsAccepted(qs, size, c, qs[m], kind, filters, release, now);
      assert false;
    }
  }

  /** What is answered is answered from a release that is served at that moment: the one asked for, or the one of the
      cursor, or the active one. And whatever is issued keeps to the budgets of positions and tokens. */
  lemma AnswersAreServed(q: Request, size: Cursor -> nat)
    requires q.limit > 0 && Answer(q, size).Rows?
    ensures var a, g := Answer(q, size), q.world.registry;
            && a.release in g.releases
            && g.releases[a.release].status in {Releases.Validated, Releases.Active, Releases.Retired}
            && (q.release.Some? ==> a.release == q.release.value)
            && (q.cursor.Some? ==> q.cursor.value.Signed? && a.release == q.cursor.value.cursor.release)
            && (q.cursor.None? && q.release.None? ==> g.active == Some(a.release))
            && (a.next.Some? ==> a.next.value.Signed?
                                 && 1 <= |a.next.value.cursor.after| <= 1500 && size(a.next.value.cursor) <= 4096)
  {
  }

  /** Every token issued was issued for a release that was served then, and keeps to the budgets. */
  lemma IssuedWhileServed(qs: seq<Request>, size: Cursor -> nat, c: Cursor)
    requires Issued(qs, size, Signed(c))
    ensures 1 <= |c.after| <= 1500 && size(c) <= 4096
    ensures exists m :: 0 <= m < |qs| && ServedThen(qs[m], c.release)
  {
    var n :| 0 <= n < |qs| && IssuedBy(qs[n], size, Signed(c));
    AnswersAreServed(qs[n], size);
    IssuedOnLease(qs[n], size, Signed(c));
    assert ServedThen(qs[n], c.release);
  }

  ghost predicate ServedThen(q: Request, id: string) {
    var g := q.world.registry;
    id in g.releases && g.releases[id].status in {Releases.Validated, Releases.Active, Releases.Retired}
  }
}
