/** Stored access-token records and the revocation they undergo. */
module Tokens {
  import opened Wrappers
  import opened Seqs
  import opened Text

  datatype TokenType = BEARER

  /** A persisted token row, owned by the user with id `userId`. */
  datatype Token = Token(id: int, token: string, tokenType: TokenType, revoked: bool, expired: bool, userId: int)

  /** The scheme prefix of an `Authorization` header; its seven characters are cut off to get the token. */
  const BearerPrefix: string := "Bearer "

  /** `authHeader.substring(7)` on a header that starts with the prefix. */
  function BearerToken(header: string): string
    requires StartsWith(header, BearerPrefix)
  {
    header[7..]
  }

  /** Cutting seven characters removes exactly the prefix: header and token determine each other. */
  lemma BearerTokenRoundTrip(header: string, token: string)
    ensures StartsWith(header, BearerPrefix) ==> BearerPrefix + BearerToken(header) == header
    ensures StartsWith(BearerPrefix + token, BearerPrefix) && BearerToken(BearerPrefix + token) == token
  {
    assert |BearerPrefix| == 7;
    if StartsWith(header, BearerPrefix) {
      assert header == header[..7] + header[7..];
    }
    assert (BearerPrefix + token)[..7] == BearerPrefix;
    assert (BearerPrefix + token)[7..] == token;
  }

  /** A stored token still usable: neither expired nor revoked. */
  predicate IsValid(t: Token)
  {
    !t.expired && !t.revoked
  }

  /** The record `saveUserToken` persists for a freshly issued access token. */
  function NewToken(id: int, userId: int, jwt: string): Token
  {
    Token(id, jwt, BEARER, false, false, userId)
  }

  /** `findAllValidTokenByUser`. */
  function FindAllValidTokenByUser(rows: seq<Token>, userId: int): seq<Token>
  {
    Filter(rows, (t: Token) => t.userId == userId && IsValid(t))
  }

  /** `findByToken`. */
  function FindByToken(rows: seq<Token>, jwt: string): Option<Token>
  {
    Find(rows, (t: Token) => t.token == jwt)
  }

  /** What `revokeAllUserTokens` does to one row. */
  function Revoke(t: Token, userId: int): Token
  {
    if t.userId == userId && IsValid(t) then t.(expired := true, revoked := true) else t
  }

  /** The token table after `revokeAllUserTokens(user)`. */
  function RevokeAll(rows: seq<Token>, userId: int): seq<Token>
  {
    if rows == [] then [] else [Revoke(rows[0], userId)] + RevokeAll(rows[1..], userId)
  }

  /** Revocation works row by row: same length, each row revoked on its own. */
  lemma {:induction false} RevokeAllAt(rows: seq<Token>, userId: int)
    ensures |RevokeAll(rows, userId)| == |rows|
    ensures forall k :: 0 <= k < |rows| ==> RevokeAll(rows, userId)[k] == Revoke(rows[k], userId)
  {
    if rows != [] {
      RevokeAllAt(rows[1..], userId);
    }
  }

  /** After revocation the user has no valid token left. */
  lemma RevokeAllLeavesNoneValid(rows: seq<Token>, userId: int)
    ensures FindAllValidTokenByUser(RevokeAll(rows, userId), userId) == []
  {
    RevokeAllAt(rows, userId);
    FilterDropsAll(RevokeAll(rows, userId), (t: Token) => t.userId == userId && IsValid(t));
  }

  /** Revocation sets both flags on every token it touches and touches only the user's valid ones. */
  lemma RevokeAllFlags(rows: seq<Token>, userId: int, k: int)
    requires 0 <= k < |rows|
    ensures |RevokeAll(rows, userId)| == |rows|
    ensures rows[k].userId == userId && IsValid(rows[k]) ==>
      RevokeAll(rows, userId)[k] == rows[k].(expired := true, revoked := true)
    ensures !(rows[k].userId == userId && IsValid(rows[k])) ==> RevokeAll(rows, userId)[k] == rows[k]
  {
    RevokeAllAt(rows, userId);
  }

  /** With no valid token for the user, revocation changes nothing (the early return). */
  lemma RevokeAllIdle(rows: seq<Token>, userId: int)
    requires FindAllValidTokenByUser(rows, userId) == []
    ensures RevokeAll(rows, userId) == rows
  {
    RevokeAllAt(rows, userId);
    forall k | 0 <= k < |rows| ensures RevokeAll(rows, userId)[k] == rows[k] {
      FilterMembership(rows, (t: Token) => t.userId == userId && IsValid(t), rows[k]);
    }
  }

  /** Other users' valid tokens are exactly what they were. */
  lemma {:induction false} RevokeAllSparesOthers(rows: seq<Token>, userId: int, other: int)
    requires other != userId
    ensures FindAllValidTokenByUser(RevokeAll(rows, userId), other) == FindAllValidTokenByUser(rows, other)
  {
    if rows != [] {
      RevokeAllSparesOthers(rows[1..], userId, other);
      var p := (t: Token) => t.userId == other && IsValid(t);
      FilterAppend([Revoke(rows[0], userId)], RevokeAll(rows[1..], userId), p);
      FilterAppend([rows[0]], rows[1..], p);
      assert rows == [rows[0]] + rows[1..];
    }
  }

  /**
   * Single active session: revoking the user's tokens and then saving one new token leaves
   * that new token as the user's only valid one.
   */
  lemma SingleActiveSession(rows: seq<Token>, userId: int, id: int, jwt: string)
    ensures FindAllValidTokenByUser(RevokeAll(rows, userId) + [NewToken(id, userId, jwt)], userId)
      == [NewToken(id, userId, jwt)]
  {
    var p := (t: Token) => t.userId == userId && IsValid(t);
    FilterAppend(RevokeAll(rows, userId), [NewToken(id, userId, jwt)], p);
    RevokeAllLeavesNoneValid(rows, userId);
  }

  /** Revocation keeps the two flags equal on every row. */
  lemma RevokeAllKeepsFlagsEqual(rows: seq<Token>, userId: int)
    requires forall k :: 0 <= k < |rows| ==> rows[k].expired == rows[k].revoked
    ensures forall k :: 0 <= k < |RevokeAll(rows, userId)| ==>
      RevokeAll(rows, userId)[k].expired == RevokeAll(rows, userId)[k].revoked
  {
    RevokeAllAt(rows, userId);
  }

  /** The token table; `save` of a new token assigns the next id. */
  class TokenRepository {
    var rows: seq<Token>

    ghost predicate Valid()
      reads this
    {
      forall i :: 0 <= i < |rows| ==> rows[i].id == i + 1
    }

    constructor ()
      ensures Valid() && rows == []
    {
      rows := [];
    }

    method Save(t: Token) returns (saved: Token)
      requires Valid()
      modifies this
      ensures Valid()
      ensures saved == t.(id := |old(rows)| + 1)
      ensures rows == old(rows) + [saved]
    {
      saved := t.(id := |rows| + 1);
      rows := rows + [saved];
    }
  }
}
