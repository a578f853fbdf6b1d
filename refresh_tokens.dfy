/** The table of issued refresh tokens (`users_refreshTokens`): the
    validity lookup, the listing of a user's live tokens, insertion, revoking
    one token, revoking all of a user's tokens, and the expiry sweep.

    As for the verification codes, the table is a sequence in insertion
    order, so `.first()` on the `by_token` index is the oldest row holding
    that token string. */
module RefreshTokens {
  import opened Base

  datatype RefreshToken = RefreshToken(
    token: string,
    userId: Id,
    expiresAt: int,
    createdAt: int,
    isRevoked: bool)

  /** A row that `getRefreshToken` may return: the token matches, it is not
      revoked and it expires strictly after `now`. */
  predicate IsUsable(t: RefreshToken, token: string, now: int) {
    t.token == token && !t.isRevoked && t.expiresAt > now
  }

  /** A non-revoked row of `userId`. */
  predicate IsLiveOf(t: RefreshToken, userId: Id) {
    t.userId == userId && !t.isRevoked
  }

  predicate IsExpired(t: RefreshToken, now: int) {
    t.expiresAt < now
  }

  function UsableFn(token: string, now: int): RefreshToken -> bool {
    t => IsUsable(t, token, now)
  }

  function HoldsFn(token: string): RefreshToken -> bool {
    (t: RefreshToken) => t.token == token
  }

  function LiveOfFn(userId: Id): RefreshToken -> bool {
    t => IsLiveOf(t, userId)
  }

  function KeepFn(now: int): RefreshToken -> bool {
    t => !IsExpired(t, now)
  }

  function ExpiredFn(now: int): RefreshToken -> bool {
    t => IsExpired(t, now)
  }

  // ---------------------------------------------------------------------
  // Queries and transitions on the rows
  // ---------------------------------------------------------------------

  /** `getRefreshToken`: the oldest usable row for `token`, if any. */
  function GetRefreshToken(rows: seq<RefreshToken>, token: string, now: int): (r: Option<RefreshToken>)
    ensures r.Some? ==> r.value in rows && r.value.token == token && !r.value.isRevoked && r.value.expiresAt > now
    ensures r.None? <==> forall t :: t in rows ==> !IsUsable(t, token, now)
  {
    First(rows, UsableFn(token, now))
  }

  /** `getUserRefreshTokens`: the user's non-revoked rows, expired or not,
      in table order. */
  function GetUserRefreshTokens(rows: seq<RefreshToken>, userId: Id): (r: seq<RefreshToken>)
    ensures forall t :: t in r <==> t in rows && t.userId == userId && !t.isRevoked
  {
    Filter(rows, LiveOfFn(userId))
  }

  /** `revokeRefreshToken`: the oldest row holding `token` is flagged revoked,
      whether it already was or not, and the answer is true; with no such
      row the answer is false and nothing changes. */
  function Revoke(rows: seq<RefreshToken>, token: string): (r: (bool, seq<RefreshToken>))
    ensures |r.1| == |rows|
    ensures r.0 <==> exists i :: 0 <= i < |rows| && rows[i].token == token
    ensures !r.0 ==> r.1 == rows
    ensures r.0 ==>
      exists k :: 0 <= k < |rows| && rows[k].token == token
        && (forall j :: 0 <= j < k ==> rows[j].token != token)
        && r.1 == rows[k := rows[k].(isRevoked := true)]
  {
    match FirstIndex(rows, HoldsFn(token))
    case None => (false, rows)
    case Some(k) => (true, rows[k := rows[k].(isRevoked := true)])
  }

  /** `revokeAllUserTokens`: every non-revoked row of `userId` flagged
      revoked; the rows of other users untouched. */
  function RevokeAll(rows: seq<RefreshToken>, userId: Id): (r: seq<RefreshToken>)
    ensures |r| == |rows|
  {
    seq(|rows|, i requires 0 <= i < |rows| =>
      if IsLiveOf(rows[i], userId) then rows[i].(isRevoked := true) else rows[i])
  }

  /** The rows an expiry sweep keeps: those with `expiresAt >= now`. */
  function Unexpired(rows: seq<RefreshToken>, now: int): seq<RefreshToken> {
    Filter(rows, KeepFn(now))
  }

  /** How many rows an expiry sweep deletes. */
  function ExpiredCount(rows: seq<RefreshToken>, now: int): nat {
    Count(rows, ExpiredFn(now))
  }

  // ---------------------------------------------------------------------
  // The store
  // ---------------------------------------------------------------------

  class TokenStore {
    var rows: seq<RefreshToken>

    constructor ()
      ensures rows == []
    {
      rows := [];
    }

    /** `createRefreshToken`: a new non-revoked row created at `now`. */
    method CreateRefreshToken(token: string, userId: Id, expiresAt: int, now: int)
      modifies this
      ensures rows == old(rows) + [RefreshToken(token, userId, expiresAt, now, false)]
    {
      rows := rows + [RefreshToken(token, userId, expiresAt, now, false)];
    }

    /** `revokeRefreshToken`. */
    method RevokeRefreshToken(token: string) returns (revoked: bool)
      modifies this
      ensures (revoked, rows) == Revoke(old(rows), token)
    {
      var found := FirstIndex(rows, HoldsFn(token));
      if found.None? {
        return false;
      }
      var k := found.value;
      rows := rows[k := rows[k].(isRevoked := true)];
      return true;
    }

    /** `revokeAllUserTokens`: flags the user's non-revoked rows one by one,
        counting them. */
    method RevokeAllUserTokens(userId: Id) returns (revoked: nat)
      modifies this
      ensures rows == RevokeAll(old(rows), userId)
      ensures revoked == |GetUserRefreshTokens(old(rows), userId)|
    {
      revoked := 0;
      var i := 0;
      while i < |rows|
        invariant 0 <= i <= |rows| == |old(rows)|
        invariant rows[..i] == RevokeAll(old(rows), userId)[..i]
        invariant rows[i..] == old(rows)[i..]
        invariant revoked == Count(old(rows)[..i], LiveOfFn(userId))
      {
        TakeSnoc(old(rows), i);
        CountAppend(old(rows)[..i], [old(rows)[i]], LiveOfFn(userId));
        if IsLiveOf(rows[i], userId) {
          rows := rows[i := rows[i].(isRevoked := true)];
          revoked := revoked + 1;
        }
        i := i + 1;
      }
      assert rows == RevokeAll(old(rows), userId);
      assert old(rows)[..i] == old(rows);
      CountIsFilterLength(old(rows), LiveOfFn(userId));
    }

    /** `cleanupExpiredTokens`: deletes the rows with `expiresAt < now`, revoked
        or not, counting them. */
    method CleanupExpiredTokens(now: int) returns (cleaned: nat)
      modifies this
      ensures rows == Unexpired(old(rows), now)
      ensures cleaned == ExpiredCount(old(rows), now)
    {
      var src := rows;
      var kept: seq<RefreshToken> := [];
      cleaned := 0;
      var i := 0;
      while i < |src|
        invariant 0 <= i <= |src|
        invariant kept == Unexpired(src[..i], now)
        invariant cleaned == ExpiredCount(src[..i], now)
      {
        FilterCountSnoc(src[..i], src[i], KeepFn(now), ExpiredFn(now));
        TakeSnoc(src, i);
        if IsExpired(src[i], now) {
          cleaned := cleaned + 1;
        } else {
          kept := kept + [src[i]];
        }
        i := i + 1;
      }
      assert src[..i] == src;
      rows := kept;
    }
  }

  // ---------------------------------------------------------------------
  // Properties
  // ---------------------------------------------------------------------

  /** A freshly created token is found by the lookup until it expires. */
  lemma CreatedTokenIsUsable(rows: seq<RefreshToken>, token: string, userId: Id, expiresAt: int, created: int, now: int)
    requires expiresAt > now
    ensures GetRefreshToken(rows + [RefreshToken(token, userId, expiresAt, created, false)], token, now).Some?
  {
    var t := RefreshToken(token, userId, expiresAt, created, false);
    assert t in rows + [t];
  }

  /** After revoking a token that only one row holds, the lookup finds
      nothing for it. */
  lemma RevokedTokenIsRejected(rows: seq<RefreshToken>, token: string, now: int)
    requires forall i, j :: 0 <= i < |rows| && 0 <= j < |rows| && rows[i].token == token && rows[j].token == token ==> i == j
    ensures GetRefreshToken(Revoke(rows, token).1, token, now).None?
  {
    var after := Revoke(rows, token).1;
    forall t | t in after ensures !IsUsable(t, token, now) {
      var m :| 0 <= m < |after| && after[m] == t;
    }
  }

  /** The lookup takes the first matching row, and `revokeRefreshToken` flags
      only the first row holding the string: when two rows hold the same
      token string (two logins of one user within the same second sign the
      same payload), the token is still accepted after it was revoked. */
  lemma DuplicateTokenOutlivesRevoke(token: string, userId: Id, expiresAt: int, now: int)
    requires expiresAt > now
    ensures var t := RefreshToken(token, userId, expiresAt, now, false);
      Revoke([t, t], token).0 && GetRefreshToken(Revoke([t, t], token).1, token, now) == Some(t)
  {
    var t := RefreshToken(token, userId, expiresAt, now, false);
    assert Revoke([t, t], token).1 == [t.(isRevoked := true), t];
  }

  /** `revokeAllUserTokens` leaves the user no live token, reports how many it
      flagged, and leaves every row of other users as it was. */
  lemma RevokeAllEffect(rows: seq<RefreshToken>, userId: Id)
    ensures GetUserRefreshTokens(RevokeAll(rows, userId), userId) == []
    ensures forall i :: 0 <= i < |rows| && rows[i].userId != userId ==> RevokeAll(rows, userId)[i] == rows[i]
    ensures forall i :: 0 <= i < |rows| ==>
      RevokeAll(rows, userId)[i] == rows[i].(isRevoked := rows[i].isRevoked || rows[i].userId == userId)
    ensures forall other :: other != userId ==>
      GetUserRefreshTokens(RevokeAll(rows, userId), other) == GetUserRefreshTokens(rows, other)
  {
    var r := RevokeAll(rows, userId);
    forall other | other != userId
      ensures GetUserRefreshTokens(r, other) == GetUserRefreshTokens(rows, other)
    {
      RevokeAllOtherUsers(rows, userId, other);
    }
    CountNone(r, LiveOfFn(userId));
    CountIsFilterLength(r, LiveOfFn(userId));
  }

  lemma {:induction false} RevokeAllOtherUsers(rows: seq<RefreshToken>, userId: Id, other: Id)
    requires other != userId
    ensures Filter(RevokeAll(rows, userId), LiveOfFn(other)) == Filter(rows, LiveOfFn(other))
  {
    if rows != [] {
      assert RevokeAll(rows, userId)[1..] == RevokeAll(rows[1..], userId);
      RevokeAllOtherUsers(rows[1..], userId, other);
    }
  }

  /** The expiry sweep deletes exactly the rows with `expiresAt < now`,
      revoked or not, and reports that count. */
  lemma SweepPartitionsTable(rows: seq<RefreshToken>, now: int)
    ensures |Unexpired(rows, now)| + ExpiredCount(rows, now) == |rows|
    ensures forall t :: t in Unexpired(rows, now) <==> t in rows && t.expiresAt >= now
  {
    FilterCountPartition(rows, KeepFn(now), ExpiredFn(now));
  }

  /** Sweeping again at the same time deletes nothing more. */
  lemma SweepIdempotent(rows: seq<RefreshToken>, now: int)
    ensures Unexpired(Unexpired(rows, now), now) == Unexpired(rows, now)
    ensures ExpiredCount(Unexpired(rows, now), now) == 0
  {
    FilterIdempotent(rows, KeepFn(now));
    CountNone(Unexpired(rows, now), ExpiredFn(now));
  }
}
