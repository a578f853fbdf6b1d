/** The passwordless login flow of the API server: sending a six-digit code
    by e-mail, exchanging a code for a session (creating the user on first
    login), issuing the access/refresh token pair, renewing the access token
    and logging out.

    The outside world enters as parameters: `now` stands for the clock (one
    reading per call), `delivered` for the outcome of the e-mail delivery,
    and `sign` for JWT signing, which the model treats as an opaque function
    of the token kind, the user id and the issue time in whole seconds. */
module AuthService {
  import opened Base
  import opened Text
  import AuthCodes
  import RefreshTokens
  import Users

  /** A verification code lives ten minutes. */
  const CodeTtlMs: int := 10 * 60 * 1000
  /** A stored refresh token lives seven days. */
  const RefreshTtlMs: int := 7 * 24 * 60 * 60 * 1000
  /** At most this many codes per e-mail per hour. */
  const MaxRecentAttempts: nat := 3

  const InvalidEmailKey := "auth.errors.invalidEmail"
  const TooManyAttemptsKey := "auth.errors.tooManyAttempts"
  const CodeSentKey := "auth.success.codeSent"
  const EmailSendErrorKey := "auth.errors.emailSendError"
  const InvalidCodeKey := "auth.errors.invalidCode"
  const LoginSuccessKey := "auth.success.loginSuccess"
  const InvalidRefreshTokenKey := "auth.errors.invalidRefreshToken"
  const TokenRefreshedKey := "auth.success.tokenRefreshed"

  /** Which secret and lifetime a JWT is signed with: the access secret and
      15 minutes, or the refresh secret and 7 days. */
  datatype TokenKind = Access | Refresh

  /** `jwt.sign({ userId }, secret, { expiresIn })` issued at a given second. */
  type Signer = (TokenKind, Id, int) -> string

  datatype Tokens = Tokens(accessToken: string, refreshToken: string)

  datatype Reply = Reply(success: bool, messageKey: string)

  datatype LoginReply = LoginReply(
    success: bool,
    messageKey: string,
    tokens: Option<Tokens>,
    user: Option<Users.User>,
    isNewUser: Option<bool>)

  datatype RefreshReply = RefreshReply(success: bool, accessToken: Option<string>, messageKey: string)

  // ---------------------------------------------------------------------
  // E-mail syntax
  // ---------------------------------------------------------------------

  /** A character the class `[^\s@]` admits. */
  predicate IsPlainChar(c: char) {
    !IsJsWhitespace(c) && c != '@'
  }

  predicate Plain(s: string) {
    forall i :: 0 <= i < |s| ==> IsPlainChar(s[i])
  }

  /** The regular expression `^[^\s@]+@[^\s@]+\.[^\s@]+$` read as a
      decomposition: a non-empty local part, `@`, a non-empty domain part,
      a dot, a non-empty last part, none of the parts holding white space or
      `@`. */
  ghost predicate MatchesEmailPattern(s: string) {
    exists at, dot :: 0 < at < dot - 1 && dot + 1 < |s| && s[at] == '@' && s[dot] == '.'
      && Plain(s[..at]) && Plain(s[at + 1..dot]) && Plain(s[dot + 1..])
  }

  /** `isValidEmail`, computed: one `@` with something plain before it, and
      after it a plain rest holding a dot that is neither its first nor its
      last character. */
  function IsValidEmail(email: string): bool {
    '@' in email
    && var at := IndexOf(email, '@');
    0 < at && at + 2 < |email| && Plain(email[..at]) && Plain(email[at + 1..])
    && '.' in email[at + 2..|email| - 1]
  }

  lemma PlainSlice(s: string, i: nat, j: nat)
    requires Plain(s) && i <= j <= |s|
    ensures Plain(s[i..j])
  {
    forall k | 0 <= k < j - i ensures IsPlainChar(s[i..j][k]) {
      assert s[i..j][k] == s[i + k];
    }
  }

  lemma PlainConcat(a: string, b: string)
    requires Plain(a) && Plain(b)
    ensures Plain(a + b)
  {
    forall k | 0 <= k < |a + b| ensures IsPlainChar((a + b)[k]) {
      if k < |a| {
        assert (a + b)[k] == a[k];
      } else {
        assert (a + b)[k] == b[k - |a|];
      }
    }
  }

  /** The computed check accepts exactly the strings the pattern matches. */
  lemma IsValidEmailMatchesPattern(email: string)
    ensures IsValidEmail(email) <==> MatchesEmailPattern(email)
  {
    if IsValidEmail(email) {
      ValidEmailHasParts(email);
    }
    if MatchesEmailPattern(email) {
      var at, dot :| 0 < at < dot - 1 && dot + 1 < |email| && email[at] == '@' && email[dot] == '.'
        && Plain(email[..at]) && Plain(email[at + 1..dot]) && Plain(email[dot + 1..]);
      PartsMakeValidEmail(email, at, dot);
    }
  }

  lemma ValidEmailHasParts(email: string)
    requires IsValidEmail(email)
    ensures MatchesEmailPattern(email)
  {
    var at := IndexOf(email, '@');
    var mid := email[at + 2..|email| - 1];
    var dot := at + 2 + IndexOf(mid, '.');
    assert email[dot] == mid[dot - at - 2];
    var rest := email[at + 1..];
    PlainSlice(rest, 0, dot - at - 1);
    PlainSlice(rest, dot - at, |rest|);
    assert email[at + 1..dot] == rest[0..dot - at - 1];
    assert email[dot + 1..] == rest[dot - at..|rest|];
  }

  lemma PartsMakeValidEmail(email: string, at: nat, dot: nat)
    requires 0 < at < dot - 1 && dot + 1 < |email| && email[at] == '@' && email[dot] == '.'
    requires Plain(email[..at]) && Plain(email[at + 1..dot]) && Plain(email[dot + 1..])
    ensures IsValidEmail(email)
  {
    forall i | 0 <= i < at ensures email[..at][i] != '@' {
      assert IsPlainChar(email[..at][i]);
    }
    IndexOfFirst(email, '@', at);
    assert IsPlainChar('.');
    assert email[at + 1..] == email[at + 1..dot] + ['.'] + email[dot + 1..];
    PlainConcat(email[at + 1..dot], ['.']);
    PlainConcat(email[at + 1..dot] + ['.'], email[dot + 1..]);
    var mid := email[at + 2..|email| - 1];
    assert mid[dot - at - 2] == '.';
  }

  // ---------------------------------------------------------------------
  // Codes
  // ---------------------------------------------------------------------

  /** A code `generateVerificationCode` can produce: six decimal digits whose
      value lies in 100000..999999. */
  predicate IsSixDigitCode(code: string) {
    |code| == 6 && AllDigits(code) && 100000 <= DigitsValue(code) <= 999999
  }

  /** `generateVerificationCode`: the random draw is an arbitrary choice in
      the range. */
  method GenerateVerificationCode() returns (code: string)
    ensures IsSixDigitCode(code)
  {
    assert 100000 <= 100000 <= 999999;
    var n :| 100000 <= n <= 999999;
    code := NatToString(n);
    assert Pow10(5) == 100000 by {
      assert Pow10(2) == 100;
    }
    assert Pow10(6) == 1000000;
    NatToStringLength(n, 6);
    DigitsValueOfNatToString(n);
  }

  /** `sendVerificationCode`. `delivered` is the outcome of the e-mail
      delivery; `emailed` is the code handed to the mailer, if any. */
  method SendVerificationCode(codes: AuthCodes.CodeStore, email: string, now: int, delivered: bool)
    returns (reply: Reply, emailed: Option<string>)
    modifies codes
    ensures !IsValidEmail(email) ==>
      reply == Reply(false, InvalidEmailKey) && emailed == None && codes.rows == old(codes.rows)
    ensures IsValidEmail(email) && AuthCodes.RecentAttempts(old(codes.rows), email, now) >= MaxRecentAttempts ==>
      reply == Reply(false, TooManyAttemptsKey) && emailed == None && codes.rows == old(codes.rows)
    ensures IsValidEmail(email) && AuthCodes.RecentAttempts(old(codes.rows), email, now) < MaxRecentAttempts ==>
      emailed.Some? && IsSixDigitCode(emailed.value)
      && codes.rows == AuthCodes.Issue(old(codes.rows), email, emailed.value, now + CodeTtlMs, now)
      && reply == (if delivered then Reply(true, CodeSentKey) else Reply(false, EmailSendErrorKey))
  {
    if !IsValidEmail(email) {
      return Reply(false, InvalidEmailKey), None;
    }
    var recentAttempts := AuthCodes.RecentAttempts(codes.rows, email, now);
    if recentAttempts >= MaxRecentAttempts {
      return Reply(false, TooManyAttemptsKey), None;
    }
    var code := GenerateVerificationCode();
    var expiresAt := now + CodeTtlMs;
    var _ := codes.CreateVerificationCode(email, code, expiresAt, now);
    emailed := Some(code);
    if delivered {
      reply := Reply(true, CodeSentKey);
    } else {
      reply := Reply(false, EmailSendErrorKey);
    }
  }

  /** Three codes issued within the hour before `now` make the next request
      at `now` exceed the limit, whatever the table held before. */
  lemma ThreeCodesPerHour(rows: seq<AuthCodes.AuthCode>, email: string, c1: string, c2: string, c3: string,
                          t1: int, t2: int, t3: int, now: int)
    requires now - AuthCodes.OneHourMs <= t1 && now - AuthCodes.OneHourMs <= t2 && now - AuthCodes.OneHourMs <= t3
    ensures var r1 := AuthCodes.Issue(rows, email, c1, t1 + CodeTtlMs, t1);
      var r2 := AuthCodes.Issue(r1, email, c2, t2 + CodeTtlMs, t2);
      var r3 := AuthCodes.Issue(r2, email, c3, t3 + CodeTtlMs, t3);
      AuthCodes.RecentAttempts(r3, email, now) >= MaxRecentAttempts
  {
    var r1 := AuthCodes.Issue(rows, email, c1, t1 + CodeTtlMs, t1);
    var r2 := AuthCodes.Issue(r1, email, c2, t2 + CodeTtlMs, t2);
    AuthCodes.IssueCountsInWindow(rows, email, c1, t1 + CodeTtlMs, t1, now);
    AuthCodes.IssueCountsInWindow(r1, email, c2, t2 + CodeTtlMs, t2, now);
    AuthCodes.IssueCountsInWindow(r2, email, c3, t3 + CodeTtlMs, t3, now);
  }

  // ---------------------------------------------------------------------
  // Sessions
  // ---------------------------------------------------------------------

  /** The pair `generateTokens` signs for `userId` at `now` (milliseconds):
      both carry the same issue second. */
  function TokensFor(sign: Signer, userId: Id, now: int): Tokens {
    Tokens(sign(Access, userId, now / 1000), sign(Refresh, userId, now / 1000))
  }

  /** `generateTokens`: signs both tokens and stores the refresh token with
      a seven-day expiry. */
  method GenerateTokens(tokens: RefreshTokens.TokenStore, userId: Id, now: int, sign: Signer) returns (t: Tokens)
    modifies tokens
    ensures t == TokensFor(sign, userId, now)
    ensures tokens.rows == old(tokens.rows) + [RefreshTokens.RefreshToken(t.refreshToken, userId, now + RefreshTtlMs, now, false)]
  {
    var accessToken := sign(Access, userId, now / 1000);
    var refreshToken := sign(Refresh, userId, now / 1000);
    var expiresAt := now + RefreshTtlMs;
    tokens.CreateRefreshToken(refreshToken, userId, expiresAt, now);
    t := Tokens(accessToken, refreshToken);
  }

  /** `verifyCodeAndLogin`. On a valid code the user is looked up by e-mail:
      a known user has `lastLoginAt` updated and is returned as read before
      that update; an unknown e-mail creates the user. Either way a token
      pair is issued for the user. */
  method VerifyCodeAndLogin(codes: AuthCodes.CodeStore, users: Users.UserStore, tokens: RefreshTokens.TokenStore,
                            email: string, code: string, now: int, sign: Signer)
    returns (reply: LoginReply)
    requires users.Valid()
    modifies codes, users, tokens
    ensures users.Valid()
    ensures codes.rows == AuthCodes.Verify(old(codes.rows), email, code, now).1
    ensures AuthCodes.Verify(old(codes.rows), email, code, now).0 != AuthCodes.CodeValid ==>
      reply == LoginReply(false, InvalidCodeKey, None, None, None)
      && users.rows == old(users.rows) && users.nextId == old(users.nextId) && tokens.rows == old(tokens.rows)
    ensures AuthCodes.Verify(old(codes.rows), email, code, now).0 == AuthCodes.CodeValid ==>
      var known := Users.GetUserByEmail(old(users.rows), email);
      var user := if known.Some? then known.value else Users.NewUser(old(users.nextId), email, None, now);
      reply == LoginReply(true, LoginSuccessKey, Some(TokensFor(sign, user.id, now)), Some(user), Some(known.None?))
      && users.rows == (if known.Some? then Users.PatchRow(old(users.rows), user.id, Users.UserPatch(None, None, Some(now), None, now))
                        else old(users.rows) + [user])
      && tokens.rows == old(tokens.rows)
           + [RefreshTokens.RefreshToken(TokensFor(sign, user.id, now).refreshToken, user.id, now + RefreshTtlMs, now, false)]
  {
    var outcome := codes.VerifyAndUseCode(email, code, now);
    if outcome != AuthCodes.CodeValid {
      return LoginReply(false, InvalidCodeKey, None, None, None);
    }
    var user: Users.User;
    var isNewUser := false;
    var known := Users.GetUserByEmail(users.rows, email);
    if known.None? {
      var created := users.CreateUser(email, None, now);
      var userId := created.value;
      Users.CreateKeepsEmailsUnique(old(users.rows), old(users.nextId), email, None, now);
      user := Users.GetUserById(users.rows, userId).value;
      isNewUser := true;
    } else {
      user := known.value;
      var _ := users.UpdateLastLogin(user.id, now);
    }
    var t := GenerateTokens(tokens, user.id, now, sign);
    reply := LoginReply(true, LoginSuccessKey, Some(t), Some(user), Some(isNewUser));
  }

  /** `refreshAccessToken`: a new access token for the owner of a usable
      refresh token; the refresh token itself is neither revoked nor
      replaced, since the table is only read. */
  function RefreshAccessToken(rows: seq<RefreshTokens.RefreshToken>, refreshToken: string, now: int, sign: Signer)
    : (r: RefreshReply)
    ensures r.success <==> exists t :: t in rows && RefreshTokens.IsUsable(t, refreshToken, now)
    ensures !r.success ==> r == RefreshReply(false, None, InvalidRefreshTokenKey)
    ensures r.success ==>
      r.messageKey == TokenRefreshedKey
      && exists t :: t in rows && RefreshTokens.IsUsable(t, refreshToken, now) && r.accessToken == Some(sign(Access, t.userId, now / 1000))
  {
    match RefreshTokens.GetRefreshToken(rows, refreshToken, now)
    case None => RefreshReply(false, None, InvalidRefreshTokenKey)
    case Some(tokenData) => RefreshReply(true, Some(sign(Access, tokenData.userId, now / 1000)), TokenRefreshedKey)
  }

  /** `logout`: revokes the refresh token (the oldest row holding it). */
  method Logout(tokens: RefreshTokens.TokenStore, refreshToken: string)
    modifies tokens
    ensures tokens.rows == RefreshTokens.Revoke(old(tokens.rows), refreshToken).1
  {
    var _ := tokens.RevokeRefreshToken(refreshToken);
  }

  /** A session obtained by logging in can be renewed until the refresh token
      expires, and no longer once it was logged out (when no other row holds
      the same token string). */
  lemma LoginThenRefreshThenLogout(rows: seq<RefreshTokens.RefreshToken>, sign: Signer, userId: Id, loginAt: int, now: int)
    requires loginAt <= now < loginAt + RefreshTtlMs
    requires forall t :: t in rows ==> t.token != TokensFor(sign, userId, loginAt).refreshToken
    ensures var token := TokensFor(sign, userId, loginAt).refreshToken;
      var after := rows + [RefreshTokens.RefreshToken(token, userId, loginAt + RefreshTtlMs, loginAt, false)];
      RefreshAccessToken(after, token, now, sign) == RefreshReply(true, Some(sign(Access, userId, now / 1000)), TokenRefreshedKey)
      && !RefreshAccessToken(RefreshTokens.Revoke(after, token).1, token, now, sign).success
  {
    var token := TokensFor(sign, userId, loginAt).refreshToken;
    var row := RefreshTokens.RefreshToken(token, userId, loginAt + RefreshTtlMs, loginAt, false);
    var after := rows + [row];
    assert row in after && RefreshTokens.IsUsable(row, token, now);
    forall i | 0 <= i < |rows| ensures after[i].token != token {
      assert after[i] in rows;
    }
    assert RefreshTokens.GetRefreshToken(after, token, now) == Some(row);
    RefreshTokens.RevokedTokenIsRejected(after, token, now);
  }
}
