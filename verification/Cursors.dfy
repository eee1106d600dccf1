/** Cursors: authenticated positions in one traversal, bound to its release, kind and filters, with an expiry that never
    moves. */
module Cursors {
  import opened Seqs
  import opened Releases

  datatype ResultKind = Metric | Association

  /** A filter fixes the value of some fields. Equal digests mean equal filters. */
  type Filters = map<string, string>

  datatype Cursor = Cursor(release: string, kind: ResultKind, after: string, filters: Filters, expiresAt: int)

  /** A token carries a cursor under a signature, or is anything else that a client may send. */
  datatype Token = Signed(cursor: Cursor) | Unsigned(text: string)

  const LIFETIME := 1800

  const MAX_KEY := 1500

  const MAX_TOKEN := 4096

  function Prefix(kind: ResultKind): string { if kind.Metric? then "m:" else "a:" }

  datatype Encoded = Token(token: Token) | PositionTooLarge

  /** `size` is the length of the token that stands for a cursor. */
  function Encode(release: string, kind: ResultKind, after: string, filters: Filters, expiresAt: Option<int>, now: real,
                  size: Cursor -> nat): Encoded
  {
    var cursor :=
        Cursor(release, kind, after, filters, if expiresAt.Some? then expiresAt.value else now.Floor + LIFETIME);
    if !(1 <= |after| <= MAX_KEY) || size(cursor) > MAX_TOKEN then PositionTooLarge else Encoded.Token(Signed(cursor))
  }

  datatype Decoded = Valid(cursor: Cursor) | Invalid | Expired

  predicate InScope(c: Cursor, kind: ResultKind, filters: Filters, release: Option<string>) {
    && c.kind == kind && c.filters == filters && ValidId(c.release) && (release.Some? ==> release.value == c.release)
    && 1 <= |c.after| <= MAX_KEY && Prefix(kind) <= c.after
  }

  function Decode(token: Token, kind: ResultKind, filters: Filters, release: Option<string>, now: real,
                  size: Cursor -> nat): Decoded
  {
    match token
    case Unsigned(_) => Invalid
    case Signed(c) =>
      if size(c) > MAX_TOKEN || !InScope(c, kind, filters, release) then Invalid
      else if c.expiresAt as real <= now then Expired
      else Valid(c)
  }

  /** What was encoded for a scope decodes in that scope, unchanged, until its expiry and not after. */
  lemma RoundTrip(release: string, kind: ResultKind, after: string, filters: Filters, expiresAt: Option<int>, now: real,
                  later: real, asked: Option<string>, size: Cursor -> nat)
    requires Encode(release, kind, after, filters, expiresAt, now, size).Token?
    requires ValidId(release) && Prefix(kind) <= after && (asked.Some? ==> asked.value == release)
    ensures var token := Encode(release, kind, after, filters, expiresAt, now, size).token;
            var end := if expiresAt.Some? then expiresAt.value else now.Floor + LIFETIME;
            Decode(token, kind, filters, asked, later, size)
            == if (end as real) <= later then Expired else Valid(Cursor(release, kind, after, filters, end))
  {
  }
}
