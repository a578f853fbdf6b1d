/** The scheduled maintenance mutations: sweeping expired verification codes
    and refresh tokens, deleting every token row of a user, and one combined
    sweep of both tables that reports each count and their sum. */
module CleanupTasks {
  import opened Base
  import AuthCodes
  import RefreshTokens

  function OfUserFn(userId: Id): RefreshTokens.RefreshToken -> bool {
    (t: RefreshTokens.RefreshToken) => t.userId == userId
  }

  function NotOfUserFn(userId: Id): RefreshTokens.RefreshToken -> bool {
    (t: RefreshTokens.RefreshToken) => t.userId != userId
  }

  /** The counts `runAllCleanupTasks` reports. */
  datatype CleanupReport = CleanupReport(authCodesRemoved: nat, refreshTokensRemoved: nat, totalRemoved: nat)

  /** `cleanupExpiredAuthCodes`: deletes the codes with `expiresAt < now` and
      reports how many. */
  method CleanupExpiredAuthCodes(codes: AuthCodes.CodeStore, now: int) returns (removed: nat)
    modifies codes
    ensures codes.rows == AuthCodes.Unexpired(old(codes.rows), now)
    ensures removed == AuthCodes.ExpiredCount(old(codes.rows), now)
  {
    removed := codes.CleanupExpiredCodes(now);
  }

  /** `cleanupExpiredRefreshTokens`: deletes the tokens with `expiresAt < now`,
      revoked or not, and reports how many. */
  method CleanupExpiredRefreshTokens(tokens: RefreshTokens.TokenStore, now: int) returns (removed: nat)
    modifies tokens
    ensures tokens.rows == RefreshTokens.Unexpired(old(tokens.rows), now)
    ensures removed == RefreshTokens.ExpiredCount(old(tokens.rows), now)
  {
    removed := tokens.CleanupExpiredTokens(now);
  }

  /** The cron `revokeAllUserTokens`: unlike the mutation of the same name in
      the token table, it deletes the rows of the user, revoked ones
      included, and reports how many it deleted. */
  method RevokeAllUserTokens(tokens: RefreshTokens.TokenStore, userId: Id) returns (revoked: nat)
    modifies tokens
    ensures tokens.rows == Filter(old(tokens.rows), NotOfUserFn(userId))
    ensures revoked == Count(old(tokens.rows), OfUserFn(userId))
  {
    var src := tokens.rows;
    var kept: seq<RefreshTokens.RefreshToken> := [];
    revoked := 0;
    var i := 0;
    while i < |src|
      invariant 0 <= i <= |src|
      invariant kept == Filter(src[..i], NotOfUserFn(userId))
      invariant revoked == Count(src[..i], OfUserFn(userId))
    {
      StepDelete(src[..i], src[i], userId);
      TakeSnoc(src, i);
      if src[i].userId == userId {
        revoked := revoked + 1;
      } else {
        kept := kept + [src[i]];
      }
      i := i + 1;
    }
    assert src[..i] == src;
    tokens.rows := kept;
  }

  /** One row more for the user deletion: kept when another user's, counted
      otherwise. */
  lemma StepDelete(s: seq<RefreshTokens.RefreshToken>, t: RefreshTokens.RefreshToken, userId: Id)
    ensures Filter(s + [t], NotOfUserFn(userId))
         == if t.userId == userId then Filter(s, NotOfUserFn(userId)) else Filter(s, NotOfUserFn(userId)) + [t]
    ensures Count(s + [t], OfUserFn(userId)) == Count(s, OfUserFn(userId)) + if t.userId == userId then 1 else 0
  {
    FilterAppend(s, [t], NotOfUserFn(userId));
    CountAppend(s, [t], OfUserFn(userId));
  }

  /** `runAllCleanupTasks`: both sweeps at the same `now`. */
  method RunAllCleanupTasks(codes: AuthCodes.CodeStore, tokens: RefreshTokens.TokenStore, now: int)
    returns (report: CleanupReport)
    modifies codes, tokens
    ensures codes.rows == AuthCodes.Unexpired(old(codes.rows), now)
    ensures tokens.rows == RefreshTokens.Unexpired(old(tokens.rows), now)
    ensures report.authCodesRemoved == AuthCodes.ExpiredCount(old(codes.rows), now)
    ensures report.refreshTokensRemoved == RefreshTokens.ExpiredCount(old(tokens.rows), now)
    ensures report.totalRemoved == report.authCodesRemoved + report.refreshTokensRemoved
  {
    var authCodesRemoved := codes.CleanupExpiredCodes(now);
    var refreshTokensRemoved := tokens.CleanupExpiredTokens(now);
    report := CleanupReport(authCodesRemoved, refreshTokensRemoved, authCodesRemoved + refreshTokensRemoved);
  }

  /** After the cron deletion the user has no token row at all, every other
      user's rows are kept in order, and the report plus what is kept make
      up the old table. */
  lemma UserTokensDeleted(rows: seq<RefreshTokens.RefreshToken>, userId: Id)
    ensures forall t :: t in Filter(rows, NotOfUserFn(userId)) <==> t in rows && t.userId != userId
    ensures |Filter(rows, NotOfUserFn(userId))| + Count(rows, OfUserFn(userId)) == |rows|
    ensures forall other :: other != userId ==>
      RefreshTokens.GetUserRefreshTokens(Filter(rows, NotOfUserFn(userId)), other)
      == RefreshTokens.GetUserRefreshTokens(rows, other)
  {
    FilterCountPartition(rows, NotOfUserFn(userId), OfUserFn(userId));
    forall other | other != userId
      ensures RefreshTokens.GetUserRefreshTokens(Filter(rows, NotOfUserFn(userId)), other)
           == RefreshTokens.GetUserRefreshTokens(rows, other)
    {
      FilterOtherUser(rows, userId, other);
    }
  }

  lemma {:induction false} FilterOtherUser(rows: seq<RefreshTokens.RefreshToken>, userId: Id, other: Id)
    requires other != userId
    ensures Filter(Filter(rows, NotOfUserFn(userId)), RefreshTokens.LiveOfFn(other))
         == Filter(rows, RefreshTokens.LiveOfFn(other))
  {
    if rows != [] {
      FilterOtherUser(rows[1..], userId, other);
    }
  }

  /** Running the combined sweep twice at the same `now` removes nothing the
      second time. */
  lemma SecondRunRemovesNothing(codes: seq<AuthCodes.AuthCode>, tokens: seq<RefreshTokens.RefreshToken>, now: int)
    ensures AuthCodes.ExpiredCount(AuthCodes.Unexpired(codes, now), now) == 0
    ensures RefreshTokens.ExpiredCount(RefreshTokens.Unexpired(tokens, now), now) == 0
    ensures AuthCodes.Unexpired(AuthCodes.Unexpired(codes, now), now) == AuthCodes.Unexpired(codes, now)
    ensures RefreshTokens.Unexpired(RefreshTokens.Unexpired(tokens, now), now) == RefreshTokens.Unexpired(tokens, now)
  {
    AuthCodes.SweepIdempotent(codes, now);
    RefreshTokens.SweepIdempotent(tokens, now);
  }
}
