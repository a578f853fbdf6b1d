/** The table of e-mail verification codes (`users_authCodes`) and the four
    operations on it: counting the codes requested in the last hour,
    issuing a code (which invalidates the older ones), consuming a code, and
    sweeping expired codes.

    The table is a sequence of rows in insertion order, which is also the
    order in which the `by_email` index returns rows with the same e-mail,
    so `.first()` is the oldest match. Each query is a function of the rows;
    each mutation is a method of `CodeStore` proved equal to a function of
    the old rows. */
module AuthCodes {
  import opened Base

  /** The rate-limit window: one hour, in milliseconds. */
  const OneHourMs: int := 60 * 60 * 1000

  datatype AuthCode = AuthCode(
    email: string,
    code: string,
    expiresAt: int,
    attempts: nat,
    createdAt: int,
    isUsed: bool)

  /** The three answers of `verifyAndUseCode`: valid, not found, expired. */
  datatype VerifyOutcome = CodeValid | CodeNotFound | CodeExpired

  // ---------------------------------------------------------------------
  // Row predicates
  // ---------------------------------------------------------------------

  /** A code for `email` created at or after `now - 1h`, used or not. */
  predicate IsRecent(c: AuthCode, email: string, now: int) {
    c.email == email && c.createdAt >= now - OneHourMs
  }

  /** An unused code for `email`. */
  predicate IsLive(c: AuthCode, email: string) {
    c.email == email && !c.isUsed
  }

  /** An unused row for `email` holding `code`. */
  predicate IsLiveMatch(c: AuthCode, email: string, code: string) {
    IsLive(c, email) && c.code == code
  }

  /** Strictly before `now`: the sweep's `lt('expiresAt', now)`. */
  predicate IsExpired(c: AuthCode, now: int) {
    c.expiresAt < now
  }

  function RecentFn(email: string, now: int): AuthCode -> bool {
    c => IsRecent(c, email, now)
  }

  function LiveFn(email: string): AuthCode -> bool {
    c => IsLive(c, email)
  }

  function LiveMatchFn(email: string, code: string): AuthCode -> bool {
    c => IsLiveMatch(c, email, code)
  }

  function KeepFn(now: int): AuthCode -> bool {
    c => !IsExpired(c, now)
  }

  function ExpiredFn(now: int): AuthCode -> bool {
    c => IsExpired(c, now)
  }

  /** The table invariant that issuing codes maintains: for each e-mail at
      most one code is unused. */
  ghost predicate SingleLiveCode(rows: seq<AuthCode>) {
    forall i, j ::
      0 <= i < |rows| && 0 <= j < |rows| && IsLive(rows[i], rows[j].email) && !rows[j].isUsed ==> i == j
  }

  // ---------------------------------------------------------------------
  // Queries and transitions on the rows
  // ---------------------------------------------------------------------

  /** `getRecentAttempts`: the codes for `email` created in the last hour,
      counted whether used or not. */
  function RecentAttempts(rows: seq<AuthCode>, email: string, now: int): nat {
    Count(rows, RecentFn(email, now))
  }

  /** Every code for `email` marked used; the other rows untouched. */
  function Invalidate(rows: seq<AuthCode>, email: string): (r: seq<AuthCode>)
    ensures |r| == |rows|
    ensures forall i :: 0 <= i < |r| ==> r[i] == rows[i].(isUsed := rows[i].isUsed || rows[i].email == email)
  {
    seq(|rows|, i requires 0 <= i < |rows| =>
      if IsLive(rows[i], email) then rows[i].(isUsed := true) else rows[i])
  }

  /** `createVerificationCode`: invalidate the older codes, count the recent
      requests (the invalidated rows included), append the new unused code. */
  function Issue(rows: seq<AuthCode>, email: string, code: string, expiresAt: int, now: int): seq<AuthCode> {
    var marked := Invalidate(rows, email);
    marked + [AuthCode(email, code, expiresAt, RecentAttempts(marked, email, now) + 1, now, false)]
  }

  /** `verifyAndUseCode`: the oldest unused row for (email, code) is marked
      used, whether it has expired or not; with no such row nothing changes.
      A code whose `expiresAt` equals `now` is still valid. */
  function Verify(rows: seq<AuthCode>, email: string, code: string, now: int): (r: (VerifyOutcome, seq<AuthCode>))
    ensures |r.1| == |rows|
    ensures r.0 == CodeNotFound <==> forall j :: 0 <= j < |rows| ==> !IsLiveMatch(rows[j], email, code)
    ensures r.0 == CodeNotFound ==> r.1 == rows
    ensures r.0 != CodeNotFound ==>
      exists k :: 0 <= k < |rows| && IsLiveMatch(rows[k], email, code)
        && (forall j :: 0 <= j < k ==> !IsLiveMatch(rows[j], email, code))
        && r.1 == rows[k := rows[k].(isUsed := true)]
        && (r.0 == CodeExpired <==> rows[k].expiresAt < now)
  {
    match FirstIndex(rows, LiveMatchFn(email, code))
    case None => (CodeNotFound, rows)
    case Some(k) =>
      (if rows[k].expiresAt < now then CodeExpired else CodeValid, rows[k := rows[k].(isUsed := true)])
  }

  /** The rows the sweep keeps: those with `expiresAt >= now`. */
  function Unexpired(rows: seq<AuthCode>, now: int): seq<AuthCode> {
    Filter(rows, KeepFn(now))
  }

  /** How many rows the sweep deletes. */
  function ExpiredCount(rows: seq<AuthCode>, now: int): nat {
    Count(rows, ExpiredFn(now))
  }

  // ---------------------------------------------------------------------
  // The store
  // ---------------------------------------------------------------------

  class CodeStore {
    var rows: seq<AuthCode>

    constructor ()
      ensures rows == []
    {
      rows := [];
    }

    /** `createVerificationCode`: marks the older unused codes for `email`
        used one by one, then inserts the new code; returns `attempts`. */
    method CreateVerificationCode(email: string, code: string, expiresAt: int, now: int) returns (attempts: nat)
      modifies this
      ensures rows == Issue(old(rows), email, code, expiresAt, now)
      ensures attempts == RecentAttempts(old(rows), email, now) + 1
    {
      var i := 0;
      while i < |rows|
        invariant 0 <= i <= |rows| == |old(rows)|
        invariant rows[..i] == Invalidate(old(rows), email)[..i]
        invariant rows[i..] == old(rows)[i..]
      {
        if IsLive(rows[i], email) {
          rows := rows[i := rows[i].(isUsed := true)];
        }
        i := i + 1;
      }
      assert rows == Invalidate(old(rows), email);
      RecentAttemptsIgnoreUse(old(rows), email, email, now);
      attempts := RecentAttempts(rows, email, now) + 1;
      rows := rows + [AuthCode(email, code, expiresAt, attempts, now, false)];
    }

    /** `verifyAndUseCode`. */
    method VerifyAndUseCode(email: string, code: string, now: int) returns (outcome: VerifyOutcome)
      modifies this
      ensures (outcome, rows) == Verify(old(rows), email, code, now)
    {
      var found := FirstIndex(rows, LiveMatchFn(email, code));
      if found.None? {
        return CodeNotFound;
      }
      var k := found.value;
      if rows[k].expiresAt < now {
        rows := rows[k := rows[k].(isUsed := true)];
        return CodeExpired;
      }
      rows := rows[k := rows[k].(isUsed := true)];
      return CodeValid;
    }

    /** `cleanupExpiredCodes`: deletes the expired rows one by one, counting
        them. */
    method CleanupExpiredCodes(now: int) returns (cleaned: nat)
      modifies this
      ensures rows == Unexpired(old(rows), now)
      ensures cleaned == ExpiredCount(old(rows), now)
    {
      var src := rows;
      var kept: seq<AuthCode> := [];
      cleaned := 0;
      var i := 0;
      while i < |src|
        invariant 0 <= i <= |src|
        invariant kept == Unexpired(src[..i], now)
        invariant cleaned == ExpiredCount(src[..i], now)
      {
        FilterCountSnoc(src[..i], src[i], KeepFn(now), ExpiredFn(now));
        TakeSnoc(src, i);
        if IsExpired(src[i], now) {
          cleaned := cleaned + 1;
        } else {
          kept := kept + [src[i]];
        }
        i := i + 1;
      }
      assert src[..i] == src;
      rows := kept;
    }
  }

  // ---------------------------------------------------------------------
  // Properties
  // ---------------------------------------------------------------------

  /** Marking codes used does not change how many were requested recently,
      for any e-mail. */
  lemma {:induction false} RecentAttemptsIgnoreUse(rows: seq<AuthCode>, email: string, other: string, now: int)
    ensures RecentAttempts(Invalidate(rows, email), other, now) == RecentAttempts(rows, other, now)
  {
    if rows != [] {
      RecentAttemptsIgnoreUse(rows[1..], email, other, now);
      assert Invalidate(rows, email)[1..] == Invalidate(rows[1..], email);
    }
  }

  /** Issuing a code records `attempts` = (codes for the e-mail created in
      the last hour, before this one) + 1, and the new row is unused,
      created at `now`. */
  lemma IssueRecordsAttempts(rows: seq<AuthCode>, email: string, code: string, expiresAt: int, now: int)
    ensures var r := Issue(rows, email, code, expiresAt, now);
      |r| == |rows| + 1
      && r[|rows|] == AuthCode(email, code, expiresAt, RecentAttempts(rows, email, now) + 1, now, false)
  {
    RecentAttemptsIgnoreUse(rows, email, email, now);
  }

  /** An issued code counts toward the e-mail's window at any later time
      `now` for which it was created at or after `now - 1h`. */
  lemma IssueCountsInWindow(rows: seq<AuthCode>, email: string, code: string, expiresAt: int, created: int, now: int)
    ensures RecentAttempts(Issue(rows, email, code, expiresAt, created), email, now)
         == RecentAttempts(rows, email, now) + if created >= now - OneHourMs then 1 else 0
  {
    var marked := Invalidate(rows, email);
    var added := AuthCode(email, code, expiresAt, RecentAttempts(marked, email, created) + 1, created, false);
    CountAppend(marked, [added], RecentFn(email, now));
    RecentAttemptsIgnoreUse(rows, email, email, now);
  }

  /** After issuing, the new code is the only unused code for that e-mail,
      whatever the table held before. */
  lemma IssueLeavesOneLiveCode(rows: seq<AuthCode>, email: string, code: string, expiresAt: int, now: int)
    ensures var r := Issue(rows, email, code, expiresAt, now);
      forall j :: 0 <= j < |r| && IsLive(r[j], email) ==> j == |rows|
  {
  }

  /** Issuing a code for one e-mail does not change what verifying a code
      of another e-mail answers or consumes: the two operations commute. */
  lemma IssueKeepsOtherVerify(rows: seq<AuthCode>, email: string, code: string, expiresAt: int, now: int,
                              other: string, otherCode: string, at: int)
    requires other != email
    ensures var v := Verify(rows, other, otherCode, at);
      Verify(Issue(rows, email, code, expiresAt, now), other, otherCode, at)
        == (v.0, Issue(v.1, email, code, expiresAt, now))
  {
    var p := LiveMatchFn(other, otherCode);
    var issued := Issue(rows, email, code, expiresAt, now);
    IssueKeepsOtherMatches(rows, email, code, expiresAt, now, other, otherCode);
    match FirstIndex(rows, p)
    case None =>
    case Some(k) =>
      FirstIndexIs(issued, p, k);
      IssueAfterUse(rows, email, code, expiresAt, now, k);
  }

  /** The rows of the issued table that match another e-mail's code are
      the old ones that did, at the same positions. */
  lemma IssueKeepsOtherMatches(rows: seq<AuthCode>, email: string, code: string, expiresAt: int, now: int,
                               other: string, otherCode: string)
    requires other != email
    ensures var issued := Issue(rows, email, code, expiresAt, now);
      |issued| == |rows| + 1
      && (forall i :: 0 <= i < |rows| ==>
            issued[i].expiresAt == rows[i].expiresAt
            && (IsLiveMatch(issued[i], other, otherCode) <==> IsLiveMatch(rows[i], other, otherCode)))
      && !IsLiveMatch(issued[|rows|], other, otherCode)
  {
  }

  /** Marking a row of another e-mail used, then issuing, is issuing, then
      marking it used. */
  lemma IssueAfterUse(rows: seq<AuthCode>, email: string, code: string, expiresAt: int, now: int, k: nat)
    requires k < |rows| && rows[k].email != email
    ensures var x := rows[k].(isUsed := true);
      Issue(rows, email, code, expiresAt, now)[k := x] == Issue(rows[k := x], email, code, expiresAt, now)
  {
    var x := rows[k].(isUsed := true);
    var used := rows[k := x];
    var marked := Invalidate(rows, email);
    CountUpdate(rows, k, x, RecentFn(email, now));
    RecentAttemptsIgnoreUse(rows, email, email, now);
    RecentAttemptsIgnoreUse(used, email, email, now);
    assert Invalidate(used, email) == marked[k := x];
  }

  /** Issuing keeps the single-live-code invariant for every e-mail. */
  lemma IssuePreservesSingleLiveCode(rows: seq<AuthCode>, email: string, code: string, expiresAt: int, now: int)
    requires SingleLiveCode(rows)
    ensures SingleLiveCode(Issue(rows, email, code, expiresAt, now))
  {
    var r := Issue(rows, email, code, expiresAt, now);
    forall i, j | 0 <= i < |r| && 0 <= j < |r| && IsLive(r[i], r[j].email) && !r[j].isUsed
      ensures i == j
    {
      if i < |rows| && j < |rows| {
        assert IsLive(rows[i], rows[j].email) && !rows[j].isUsed;
      }
    }
  }

  /** Consuming a code keeps the single-live-code invariant. */
  lemma VerifyPreservesSingleLiveCode(rows: seq<AuthCode>, email: string, code: string, now: int)
    requires SingleLiveCode(rows)
    ensures SingleLiveCode(Verify(rows, email, code, now).1)
  {
  }

  /** The sweep keeps the single-live-code invariant. */
  lemma {:induction false} UnexpiredPreservesSingleLiveCode(rows: seq<AuthCode>, now: int)
    requires SingleLiveCode(rows)
    ensures SingleLiveCode(Unexpired(rows, now))
  {
    if rows != [] {
      var t := rows[1..];
      assert SingleLiveCode(t) by {
        forall i, j | 0 <= i < |t| && 0 <= j < |t| && IsLive(t[i], t[j].email) && !t[j].isUsed
          ensures i == j
        {
          assert rows[i + 1] == t[i] && rows[j + 1] == t[j];
        }
      }
      UnexpiredPreservesSingleLiveCode(t, now);
      if !IsExpired(rows[0], now) && !rows[0].isUsed {
        var u := Unexpired(t, now);
        forall m | 0 <= m < |t| ensures !IsLive(t[m], rows[0].email) {
          assert rows[m + 1] == t[m];
        }
        forall m | 0 <= m < |u| ensures !IsLive(u[m], rows[0].email) {
          assert u[m] in t;
        }
        assert Unexpired(rows, now) == [rows[0]] + u;
      }
    }
  }

  /** A code is single-use: once a verification has found it (valid or
      expired), a second verification with the same e-mail and code finds
      nothing, and leaves the table as it is. */
  lemma VerifyConsumesCode(rows: seq<AuthCode>, email: string, code: string, now: int, later: int)
    requires SingleLiveCode(rows)
    requires Verify(rows, email, code, now).0 != CodeNotFound
    ensures var after := Verify(rows, email, code, now).1;
      Verify(after, email, code, later) == (CodeNotFound, after)
  {
    var after := Verify(rows, email, code, now).1;
    var k :| 0 <= k < |rows| && IsLiveMatch(rows[k], email, code)
      && after == rows[k := rows[k].(isUsed := true)];
    forall j | 0 <= j < |after| ensures !IsLiveMatch(after[j], email, code) {
    }
  }

  /** A verification that finds nothing leaves the table unchanged, so it
      can be repeated any number of times with the same answer. */
  lemma VerifyNotFoundIsStable(rows: seq<AuthCode>, email: string, code: string, now: int, later: int)
    requires Verify(rows, email, code, now).0 == CodeNotFound
    ensures Verify(rows, email, code, now).1 == rows
    ensures Verify(rows, email, code, later).0 == CodeNotFound
  {
  }

  /** The sweep deletes exactly the expired rows: what it keeps and what it
      counts make up the whole table, and nothing kept is expired. */
  lemma SweepPartitionsTable(rows: seq<AuthCode>, now: int)
    ensures |Unexpired(rows, now)| + ExpiredCount(rows, now) == |rows|
    ensures forall c :: c in Unexpired(rows, now) <==> c in rows && !IsExpired(c, now)
  {
    FilterCountPartition(rows, KeepFn(now), ExpiredFn(now));
  }

  /** Sweeping again at the same time deletes nothing more. */
  lemma SweepIdempotent(rows: seq<AuthCode>, now: int)
    ensures Unexpired(Unexpired(rows, now), now) == Unexpired(rows, now)
    ensures ExpiredCount(Unexpired(rows, now), now) == 0
  {
    FilterIdempotent(rows, KeepFn(now));
    CountNone(Unexpired(rows, now), ExpiredFn(now));
  }
}
