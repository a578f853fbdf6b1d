# laterwatch in Dafny

laterwatch is a "watch later" service. A user signs in with an emailed six-digit code and keeps a list of YouTube videos. Each video has tags and flags (favourite, archived, watched) and a saved playback position. This project models the core of that service and proves properties of the model:

- **Authentication.** The verification-code table and the refresh-token table. The service that issues codes, logs users in, refreshes access tokens and logs out. The periodic clean-up jobs.
- **Data tables.** The user, agent, video and tag tables and their mutations.
- **URL and text handling.** Reading a YouTube URL (server and client rules), formatting and parsing durations, relative times, and the server's message catalogue.
- **Web client stores.** The "add video" form store and the video player store.

A table is a class with a `rows` sequence in insertion order, because the database keeps rows in creation order. Each mutation is a method. Its postcondition ties the new rows to a specification function of the old rows, and the lemmas prove what the source promises about those functions.

Values that come from outside become parameters:

- the clock (`now`);
- the JWT signer (a function of purpose, user id and issue second);
- whether the email was delivered;
- the reply of a network request.

The random code generator becomes a nondeterministic choice in 100000..999999.

Behaviour of the code that the model keeps and the proofs make visible:

- `verifyAndUseCode` takes the OLDEST unused record that matches email and code. It does not take the newest one. Because issuing a code marks every earlier unused code of that email as used, at most one live code exists at a time (`AuthCodes.IssuePreservesSingleLiveCode`), so the choice does not matter while the table keeps that invariant.
- `createVideo` stores a tag id once per name, so a name given twice stores the same id twice (`Videos.RepeatedNameRepeatsId`). `addTagsToVideo` drops such repeats, because it merges through a `Set`.
- A refresh token is a JWT signed at one-second resolution. Two logins of one user in the same second store the same token string twice. Logout then revokes only the first row, and the second still refreshes (`RefreshTokens.DuplicateTokenOutlivesRevoke`).
- The cron job `revokeAllUserTokens` DELETES the user's tokens. The database mutation of the same name only flags them as revoked. Both are modelled.
- `updateTag` with an empty new name skips the name-uniqueness check. Uniqueness of tag names is proved for every other rename (`Tags.RenameKeepsNamesUnique`).
- The `userCreateError` branch of `verifyCodeAndLogin` cannot be reached. `createUser` cannot fail after `getUserByEmail` found nothing.
- The fourth client URL pattern (`watch?v=` anchored at the end) can never decide. Any URL it matches is matched first by the first pattern (`LinkUtils.AnchoredPatternUnreachable`).
- Server and client accept exactly the same URLs (`LinkUtils.SameUrlsAccepted`). They can still extract different ids from one URL: the server takes the first `v=` and the client's greedy `.*` takes the last one (`LinkUtils.ServerAndClientIdsDiffer`).
- `openPlayer` with no video still opens the player with an empty current video.

## Model

| member | source | states |
|---|---|---|
| AuthCodes.RecentAttemptsIgnoreUse | apps/api/convex/db/auth/authCodes.ts:44-62 | Invalidating one email's codes does not change the hourly attempt count of any email. |
| AuthCodes.Invalidate | apps/api/convex/db/auth/authCodes.ts:44-52 | Keeps the table's length. Each row of that email ends up used. Every other field, and every row of another email, stays as it was. |
| AuthCodes.CodeStore.CreateVerificationCode | apps/api/convex/db/auth/authCodes.ts:36-76 | The table becomes `Issue` of the old table. The returned attempt number is one more than the recent attempts before the call. |
| AuthCodes.IssueRecordsAttempts | apps/api/convex/db/auth/authCodes.ts:55-72 | Issuing appends exactly one row: unused, with the given code and expiry, and attempts = recent attempts + 1. |
| AuthCodes.IssueCountsInWindow | apps/api/convex/db/auth/authCodes.ts:19-31 | A new code adds one to the hourly count at any later time exactly when it was created inside that hour. |
| AuthCodes.IssueLeavesOneLiveCode | apps/api/convex/db/auth/authCodes.ts:44-72 | After issuing, the only unused code of that email is the new one. |
| AuthCodes.IssueKeepsOtherVerify | apps/api/convex/db/auth/authCodes.ts:36-76 | Issuing a code for one email and verifying a code of another commute: the verification answers the same and consumes the same row. |
| AuthCodes.IssuePreservesSingleLiveCode | apps/api/convex/db/auth/authCodes.ts:36-76 | Issuing keeps the invariant "at most one unused code per email". |
| AuthCodes.Verify | apps/api/convex/db/auth/authCodes.ts:79-106 | Not found exactly when no unused row matches email and code, and then the table is unchanged. Otherwise the first match is marked used, and the outcome is expired exactly when that row's expiry is before now. |
| AuthCodes.CodeStore.VerifyAndUseCode | apps/api/convex/db/auth/authCodes.ts:79-106 | Outcome and new table are those of `Verify`. |
| AuthCodes.VerifyPreservesSingleLiveCode | apps/api/convex/db/auth/authCodes.ts:79-106 | Verification keeps the single-live-code invariant. |
| AuthCodes.VerifyConsumesCode | apps/api/convex/db/auth/authCodes.ts:91-104 | A code that was found, valid or expired, is not found by any later verification. |
| AuthCodes.VerifyNotFoundIsStable | apps/api/convex/db/auth/authCodes.ts:91-93 | A code that is not found changes nothing and stays not found at any later time. |
| AuthCodes.CodeStore.CleanupExpiredCodes | apps/api/convex/db/auth/authCodes.ts:109-126 | The table keeps exactly the unexpired rows in order. The count returned is the number of expired rows. |
| AuthCodes.UnexpiredPreservesSingleLiveCode | apps/api/convex/db/auth/authCodes.ts:109-126 | Clean-up keeps the single-live-code invariant. |
| AuthCodes.SweepPartitionsTable | apps/api/convex/db/auth/authCodes.ts:109-126 | Kept plus removed equals the old size. A row is kept iff it was present and is not expired, used or not. |
| AuthCodes.SweepIdempotent | apps/api/convex/db/auth/authCodes.ts:109-126 | A second clean-up at the same time removes nothing and changes nothing. |
| RefreshTokens.GetRefreshToken | apps/api/convex/db/auth/refreshTokens.ts:7-16 | Returns a stored, unrevoked, unexpired row with that token. Returns none iff no such row exists. |
| RefreshTokens.GetUserRefreshTokens | apps/api/convex/db/auth/refreshTokens.ts:19-28 | Exactly the user's unrevoked rows. |
| RefreshTokens.TokenStore.CreateRefreshToken | apps/api/convex/db/auth/refreshTokens.ts:33-50 | Appends one unrevoked row with the given token, user, expiry and creation time. |
| RefreshTokens.Revoke | apps/api/convex/db/auth/refreshTokens.ts:53-68 | Reports true iff some row holds the token. Only the first such row is flagged revoked, and a missing token changes nothing. |
| RefreshTokens.TokenStore.RevokeRefreshToken | apps/api/convex/db/auth/refreshTokens.ts:53-68 | Result and new table are those of `Revoke`. |
| RefreshTokens.RevokeAll | apps/api/convex/db/auth/refreshTokens.ts:71-88 | Flagging a user's tokens keeps the table's length (effect in RevokeAllEffect). |
| RefreshTokens.TokenStore.RevokeAllUserTokens | apps/api/convex/db/auth/refreshTokens.ts:71-88 | The table becomes `RevokeAll`. The count is the number of the user's live tokens before the call. |
| RefreshTokens.RevokeAllEffect | apps/api/convex/db/auth/refreshTokens.ts:71-88 | Afterwards the user has no live token. Each of the user's rows is flagged revoked, and every other row is unchanged. Other users' live tokens are unchanged. |
| RefreshTokens.RevokeAllOtherUsers | apps/api/convex/db/auth/refreshTokens.ts:71-88 | Another user's live tokens are the same list before and after. |
| RefreshTokens.CreatedTokenIsUsable | apps/api/convex/db/auth/refreshTokens.ts:7-16 | A token just stored with a future expiry is found by the lookup. |
| RefreshTokens.RevokedTokenIsRejected | apps/api/convex/db/auth/refreshTokens.ts:53-68 | When a token is stored once, it is no longer found after it is revoked. |
| RefreshTokens.DuplicateTokenOutlivesRevoke | apps/api/convex/db/auth/refreshTokens.ts:53-68 | When a token string is stored twice, revoking it leaves the second row usable. |
| RefreshTokens.TokenStore.CleanupExpiredTokens | apps/api/convex/db/auth/refreshTokens.ts:91-108 | Keeps exactly the unexpired rows, whether revoked or not, and returns how many were removed. |
| RefreshTokens.SweepPartitionsTable | apps/api/convex/db/auth/refreshTokens.ts:91-108 | Kept plus removed equals the old size. A row is kept iff its expiry is not before now. |
| RefreshTokens.SweepIdempotent | apps/api/convex/db/auth/refreshTokens.ts:91-108 | A second clean-up at the same time changes nothing. |
| CleanupTasks.CleanupExpiredAuthCodes | apps/api/convex/crons/cleanupTasks.ts:8-27 | Deletes exactly the expired codes and reports their number. |
| CleanupTasks.CleanupExpiredRefreshTokens | apps/api/convex/crons/cleanupTasks.ts:33-52 | Deletes exactly the expired tokens and reports their number. |
| CleanupTasks.RevokeAllUserTokens | apps/api/convex/crons/cleanupTasks.ts:58-75 | Deletes every token of the user and keeps the rest in order. Returns the number deleted. |
| CleanupTasks.UserTokensDeleted | apps/api/convex/crons/cleanupTasks.ts:58-75 | Afterwards a row is present iff it was present and belongs to another user. Kept plus deleted equals the old size, and other users' live tokens are unchanged. |
| CleanupTasks.FilterOtherUser | apps/api/convex/crons/cleanupTasks.ts:58-75 | Deleting one user's tokens leaves another user's live tokens exactly as they were. |
| CleanupTasks.RunAllCleanupTasks | apps/api/convex/crons/cleanupTasks.ts:81-118 | Both tables are swept. The report holds both counts, and the total is their sum. |
| CleanupTasks.SecondRunRemovesNothing | apps/api/convex/crons/cleanupTasks.ts:81-118 | Running all clean-up tasks twice at one time removes nothing the second time. |
| AuthService.IsValidEmailMatchesPattern | apps/api/src/services/authService.ts:22-25 | The email check holds iff the text has the shape `local@domain.tld`: no whitespace and no `@` in the parts, and each part non-empty. |
| AuthService.ValidEmailHasParts | apps/api/src/services/authService.ts:22-25 | A valid email splits into the three non-empty parts the pattern names. |
| AuthService.PartsMakeValidEmail | apps/api/src/services/authService.ts:22-25 | Three plain non-empty parts joined by `@` and `.` form a valid email. |
| AuthService.GenerateVerificationCode | apps/api/src/services/authService.ts:17-19 | The code is six decimal digits, with no leading zero. |
| AuthService.SendVerificationCode | apps/api/src/services/authService.ts:28-62 | An invalid email or three recent attempts are refused and the table is unchanged. Otherwise a six-digit code expiring in ten minutes is issued. The reply is success iff the email was delivered, and the code stays stored even when delivery failed. |
| AuthService.ThreeCodesPerHour | apps/api/src/services/authService.ts:38-43 | After three codes issued within one hour, the next request in that hour is over the limit. |
| AuthService.GenerateTokens | apps/api/src/services/authService.ts:137-151 | Returns the signed access and refresh tokens and stores the refresh token, unrevoked, expiring in seven days. |
| AuthService.VerifyCodeAndLogin | apps/api/src/services/authService.ts:65-134 | A code that is not valid gives the invalid-code reply, and no user or token changes. A valid code logs in the existing user, updating the last-login time, or creates a new one. It then stores a refresh token and reports whether the user is new. |
| AuthService.RefreshAccessToken | apps/api/src/services/authService.ts:164-187 | Succeeds iff a stored, unrevoked, unexpired row holds the token. On success the new access token is signed for that row's user at the current second. |
| AuthService.Logout | apps/api/src/services/authService.ts:202-210 | Revokes the refresh token as the token table does. |
| AuthService.LoginThenRefreshThenLogout | apps/api/src/services/authService.ts:111-187 | The refresh token from a login refreshes until it expires, and it no longer refreshes once logged out. |
| Users.GetUserByEmail | apps/api/convex/db/users.ts:7-15 | Returns a row with that email. Returns none iff no row has it. |
| Users.GetUserById | apps/api/convex/db/users.ts:18-23 | Returns the row with that id. Returns none iff no row has it. |
| Users.GetUsersByDateRange | apps/api/convex/db/users.ts:40-54 | Exactly the users created within the inclusive range. |
| Users.Create | apps/api/convex/db/users.ts:59-84 | Fails with "user exists" iff the email is taken, and then the table is unchanged. Otherwise it appends an active user with the next id. |
| Users.UserStore.CreateUser | apps/api/convex/db/users.ts:59-84 | Result and rows are those of `Create`. The id counter advances only on success. |
| Users.CreateKeepsEmailsUnique | apps/api/convex/db/users.ts:59-84 | Creating keeps ids increasing and emails unique. Afterwards the email is found, and on success lookups by email and by id give the new user. |
| Users.UserStore.UpdateUser | apps/api/convex/db/users.ts:87-104 | Reports whether the id exists. Patches name and picture when given and always sets `updatedAt`. |
| Users.UserStore.UpdateLastLogin | apps/api/convex/db/users.ts:107-115 | Sets the last-login time and `updatedAt` of that user. |
| Users.UserStore.DeactivateUser | apps/api/convex/db/users.ts:118-127 | Clears the active flag of that user. |
| Users.UserStore.ReactivateUser | apps/api/convex/db/users.ts:130-139 | Sets the active flag of that user. |
| Users.PatchRow | apps/api/convex/db/users.ts:87-139 | A patch keeps the table's length (effect in PatchEffect). |
| Users.PatchEffect | apps/api/convex/db/users.ts:87-139 | Other rows are unchanged. The patched row keeps its id, email and creation time, takes each given field and keeps each absent one. A missing id changes nothing. |
| Users.PatchKeepsWellFormed | apps/api/convex/db/users.ts:87-139 | Patching keeps ids increasing and emails unique. |
| Users.DeactivateThenReactivate | apps/api/convex/db/users.ts:118-139 | After deactivating then reactivating, the user is active, and every field other than `isActive` and `updatedAt` is as before. An active user's row is thus restored apart from `updatedAt`. |
| Agents.Merge | apps/api/convex/db/agents.ts:110-112 | The configuration is left unchanged iff every key the patch supplies already has that value. Otherwise each supplied key wins and every absent key (say, the voice in a tone-only patch) keeps its stored value. |
| Agents.MergeIdempotent | apps/api/convex/db/agents.ts:110-112 | Applying the same patch twice equals applying it once. |
| Agents.MergeExtremes | apps/api/convex/db/agents.ts:110-112 | An empty patch keeps the configuration. A full patch replaces it. |
| Agents.MergeCompose | apps/api/convex/db/agents.ts:110-112 | Two patches in a row equal one patch in which the later fields win. |
| Agents.UpdateMine | apps/api/convex/db/agents.ts:79-117 | Fails with "agent not found" iff no row has that id and that owner, and then nothing changes. |
| Agents.AgentStore.UpdateMyAgent | apps/api/convex/db/agents.ts:79-117 | Result and rows are those of `UpdateMine`. |
| Agents.UpdateMineEffect | apps/api/convex/db/agents.ts:96-112 | On success only the agent is changed. Its configuration is merged when one was given, `updatedAt` is now, and business and creation time are kept. |
| Agents.AgentStore.CreateAgent | apps/api/convex/db/agents.ts:54-78 | An unknown business is refused. Otherwise it appends an agent with the next id. |
| Catalog.GetVideo | apps/api/convex/db/videos.ts:113-119 | Returns the video with that id. Returns none iff no row has it. |
| Catalog.GetTag | apps/api/convex/db/tags.ts:65-71 | Returns the tag with that id. Returns none iff no row has it. |
| Catalog.FindTag | apps/api/convex/db/tags.ts:16-26 | Returns a tag of that user with that name. Returns none iff the user has no such tag. |
| Catalog.FindTagAppend | apps/api/convex/db/videos.ts:57-74 | Looking up a name after one tag is appended finds the old answer if there was one, else the new tag when it matches. |
| Catalog.ResolveTagNames | apps/api/convex/db/videos.ts:53-80 | The ids and the new tag table are those of `Resolve`, and videos are untouched. |
| Catalog.ResolveFacts | apps/api/convex/db/videos.ts:53-80 | One id per name. Old tags are kept as a prefix, and every new tag is the user's, from the names, colourless and created now. Each id is the tag with that name afterwards, and names that already existed resolve to their existing tag. |
| Catalog.ResolveAdds | apps/api/convex/db/videos.ts:53-80 | Only appends tags, each with a fresh id. The id counter advances by the number appended. |
| Catalog.ResolveWellFormed | apps/api/convex/db/videos.ts:53-80 | Resolving keeps tag ids increasing and each user's tag names unique. |
| Catalog.ResolveLookup | apps/api/convex/db/videos.ts:53-80 | The k-th id is the id of the user's tag named by the k-th name in the resulting table. |
| Catalog.FindTagStaysAfterResolve | apps/api/convex/db/videos.ts:53-80 | A tag name that already existed still finds the same tag afterwards. |
| Catalog.ResolveRefs | apps/api/convex/db/videos.ts:53-80 | Every resolved id is a tag of the user, and existing video-to-tag references stay valid. |
| Catalog.HasTagGrows | apps/api/convex/db/videos.ts:53-80 | Appending tags keeps every existing tag reference valid. |
| Videos.MergeTagIds | apps/api/convex/db/videos.ts:234-239 | The merged list has no duplicates and holds exactly the ids of both lists, in the order of their first occurrence in the existing ids followed by the added ones. |
| Videos.MergeSplits | apps/api/convex/db/videos.ts:234-239 | For any two lists, the merge is the existing ids with repeats dropped, then the added ids the video lacked, with repeats dropped. |
| Videos.MergeKeepsExisting | apps/api/convex/db/videos.ts:234-239 | The existing ids, repeats dropped, come first in their order; a list without repeats is kept as it is. Only added ids the video lacked follow. |
| Videos.MergeNothingNew | apps/api/convex/db/videos.ts:234-239 | Adding ids the video already has leaves its list with only its repeats dropped. |
| Videos.RepeatedNameRepeatsId | apps/api/convex/db/videos.ts:57-79 | A tag name given twice collects the same id twice, and merging that list collapses the pair. |
| Videos.RemoveTagIds | apps/api/convex/db/videos.ts:279-284 | Holds exactly the existing ids not being removed. |
| Videos.RemoveCounts | apps/api/convex/db/videos.ts:279-284 | Kept plus removed equals the old length, and a duplicate-free list stays duplicate-free. |
| Videos.RemoveDistributes | apps/api/convex/db/videos.ts:279-284 | Removing from a concatenation removes from each part, so the kept ids stay in their order. |
| Videos.RemoveAfterAdd | apps/api/convex/db/videos.ts:193-284 | Adding ids and then removing them equals removing them from the original list and dropping its repeats. |
| Videos.CreateVideo | apps/api/convex/db/videos.ts:8-98 | Appends the new video with the next id and the tag ids resolved from the names. Missing names are created as the user's tags. |
| Videos.CreateVideoFacts | apps/api/convex/db/videos.ts:8-98 | The new video is found by its id. It has the given url, details and owner, and each flag is true iff it was given as true. It was added now, with no progress and no watched time. Its k-th tag id names the k-th tag name. All tables stay well formed and tag references stay valid. |
| Videos.NoNamesNoTags | apps/api/convex/db/videos.ts:53-80 | Without tag names no tag is created and the video has no tags. |
| Videos.UpdateVideo | apps/api/convex/db/videos.ts:102-154 | A video the user does not own gives "not found" and nothing changes. Otherwise only that video is replaced by its flagged update. |
| Videos.Updates | apps/api/convex/db/videos.ts:121-138 | The update is the one described by `Flagged` (see FlaggedEffect). |
| Videos.FlaggedEffect | apps/api/convex/db/videos.ts:121-138 | Each given flag is set and each absent flag kept. The watched time changes only when `isWatched` is true, and then it is now. All other fields are kept, and repeating the update changes nothing. |
| Videos.ReplaceVideoEffect | apps/api/convex/db/videos.ts:121-138 | Replacing a video keeps the table well formed. The new row is found by its id, and other rows are unchanged. |
| Videos.DeleteVideo | apps/api/convex/db/videos.ts:159-188 | A video the user does not own gives "not found". Otherwise exactly that row is removed. |
| Videos.DeleteVideoEffect | apps/api/convex/db/videos.ts:159-188 | Afterwards the id is not found, every other video remains, and the table and tag references stay well formed. |
| Videos.AddTagsToVideo | apps/api/convex/db/videos.ts:193-258 | A video the user does not own gives "not found". Otherwise the names are resolved and the video's tag ids become the merge of its own ids and the resolved ones. |
| Videos.RemoveTagsFromVideo | apps/api/convex/db/videos.ts:261-301 | A video the user does not own gives "not found". Otherwise its tag ids lose the given ids. |
| Videos.TagEditsKeepRefs | apps/api/convex/db/videos.ts:193-301 | Adding or removing tags keeps every video's tag ids pointing at tags of its owner. |
| Videos.UpdateVideoProgress | apps/api/convex/db/videos.ts:357-391 | A video the user does not own gives "not found". Otherwise only that video's progress is set. |
| Videos.GetUserVideos | apps/api/convex/db/videos.ts:305-319 | Exactly the user's videos. |
| Videos.UserVideosNewestFirst | apps/api/convex/db/videos.ts:305-319 | The user's videos come newest first. |
| Videos.GetVideoWithProgress | apps/api/convex/db/videos.ts:323-353 | "Not found" iff the user does not own the video. Otherwise it gives that video and its progress, 0 when none is stored. |
| Tags.CreateTag | apps/api/convex/db/tags.ts:7-50 | A name the user already has gives "already exists" and nothing changes. Otherwise it appends the tag with the next id. |
| Tags.CreateTagEffect | apps/api/convex/db/tags.ts:7-50 | The new tag is found by name and by id, and the table and references stay well formed. |
| Tags.UpdateCheck | apps/api/convex/db/tags.ts:65-86 | "Not found" iff the user does not own the tag. "Name already exists" iff a new, different, non-empty name is already one of the user's tags. Otherwise it gives the current tag. |
| Tags.CheckUpdate | apps/api/convex/db/tags.ts:65-86 | The lookups before the write answer exactly what `UpdateCheck` specifies. |
| Tags.Updates | apps/api/convex/db/tags.ts:88-98 | The patch is the one described by `Renamed`: each given field replaced, the others kept. |
| Tags.UpdateTag | apps/api/convex/db/tags.ts:55-114 | On an error nothing changes. Otherwise only that tag is replaced, with the new name and colour where given. |
| Tags.UpdateTagEffect | apps/api/convex/db/tags.ts:88-98 | The updated tag keeps id, owner and creation time and takes the given name and colour. Other tags are unchanged, and the table and references stay well formed. |
| Tags.ReplaceTagEffect | apps/api/convex/db/tags.ts:88-98 | Replacing a tag keeps ids increasing and below the counter. The new row is found by its id, other rows are unchanged, and every tag reference stays valid. |
| Tags.RenameKeepsNamesUnique | apps/api/convex/db/tags.ts:74-98 | A rename that passes the check keeps each user's tag names unique. |
| Tags.DeleteTag | apps/api/convex/db/tags.ts:119-161 | A tag the user does not own gives "not found". Otherwise the tag is removed and stripped from every video of the user. |
| Tags.StripTagFromVideos | apps/api/convex/db/tags.ts:136-146 | The videos become `StripTag` of the old videos, and nothing else changes. |
| Tags.DeleteTagEffect | apps/api/convex/db/tags.ts:119-161 | Afterwards the tag id is not found and no video lists it. Every other tag remains, videos differ only in tag ids, and references stay valid. |
| Tags.StripTagEverywhere | apps/api/convex/db/tags.ts:136-146 | Every video loses exactly that id from its tag ids. |
| Tags.StripTagKeepsRefs | apps/api/convex/db/tags.ts:136-148 | After the deletion every video's tag ids still point at existing tags of its owner. |
| Tags.StripTagKeepsVideos | apps/api/convex/db/tags.ts:136-146 | Stripping a tag keeps the video table well formed. |
| Tags.FilterKeepsTagsWellFormed | apps/api/convex/db/tags.ts:148 | Deleting tags keeps the tag table well formed. |
| Tags.GetUserTags | apps/api/convex/db/tags.ts:166-179 | Exactly the user's tags. |
| Tags.UserTagsNewestFirst | apps/api/convex/db/tags.ts:166-179 | The user's tags come newest first. |
| UrlPatterns.MatchAt | apps/api/src/services/youtubeService.ts:58-59 | A match at a position captures eleven id characters. |
| UrlPatterns.SearchFrom | apps/api/src/services/youtubeService.ts:63 | Finds the leftmost position from which the pattern matches, and none iff it matches nowhere. |
| UrlPatterns.Search | apps/api/src/services/youtubeService.ts:63 | The captured id is eleven id characters, and none iff the pattern matches at no position. |
| UrlPatterns.FirstMatch | apps/api/src/services/youtubeService.ts:62-69 | The first pattern of the list that matches decides. None iff none matches. |
| UrlPatterns.FirstMatchDropsSilent | apps/app/src/lib/utils.ts:21-26 | Patterns after the deciding ones that never match change nothing. |
| UrlPatterns.LastCandidate | apps/app/src/lib/utils.ts:12 | The greedy `.*v=` takes the last `v=` followed by an id before the line ends. |
| UrlPatterns.WatchThenVOnWatchUrl | apps/app/src/lib/utils.ts:12 | On a canonical watch URL the first client pattern captures its id. |
| UrlPatterns.AnchoredWatchIsWatchThenV | apps/app/src/lib/utils.ts:12-18 | Where the anchored `watch?v=` pattern matches, the first client pattern matches too. |
| UrlPatterns.WatchVIsWatchThenV | apps/app/src/lib/utils.ts:12 | Where `watch?v=` followed by an id occurs, the greedy pattern matches. |
| YouTubeService.ExtractVideoId | apps/api/src/services/youtubeService.ts:56-70 | Gives an eleven-character id, and none iff neither server pattern matches anywhere. |
| YouTubeService.IsValidYouTubeUrl | apps/api/src/services/youtubeService.ts:75-77 | Valid iff some server pattern matches somewhere. |
| YouTubeService.ExtractsWatchUrl | apps/api/src/services/youtubeService.ts:56-70 | The id of a canonical watch URL is extracted. |
| YouTubeService.GetBasicVideoInfo | apps/api/src/services/youtubeService.ts:155-166 | None iff the URL is invalid. Otherwise it gives the id a server pattern found, with platform "youtube". |
| YouTubeService.FormatDuration | apps/api/src/services/youtubeService.ts:136-150 | A text with no `PT` gives "0:00". |
| YouTubeService.FormatIsoDuration | apps/api/src/services/youtubeService.ts:136-150 | An ISO duration `PT[nH][nM][nS]` formats as the clock text of its hours, minutes and seconds, with missing parts 0. |
| YouTubeService.FormatFromStart | apps/api/src/services/youtubeService.ts:137-141 | Hours, minutes and seconds read after a leading `PT` decide the clock text. |
| YouTubeService.HoursGroup | apps/api/src/services/youtubeService.ts:137-141 | The optional hours group of an ISO duration reads its value, 0 when absent. |
| YouTubeService.MinutesGroup | apps/api/src/services/youtubeService.ts:137-141 | The optional minutes group reads its value, 0 when absent. |
| YouTubeService.SecondsGroup | apps/api/src/services/youtubeService.ts:137-141 | The optional seconds group reads its value, 0 when absent. |
| YouTubeService.ClockPiecesWithHours | apps/api/src/services/youtubeService.ts:145-147 | With hours, the clock text is hours, padded minutes and padded seconds joined by colons. |
| YouTubeService.ClockPiecesNoHours | apps/api/src/services/youtubeService.ts:149 | Without hours, it is minutes and padded seconds. |
| YouTubeService.PaddedTwoDigits | apps/api/src/services/youtubeService.ts:146 | Padding a number below 60 gives exactly two characters. |
| LinkUtils.ExtractYouTubeVideoId | apps/app/src/lib/utils.ts:9-29 | Gives an eleven-character id, and none iff no client pattern matches anywhere. |
| LinkUtils.ValidateYouTubeUrl | apps/app/src/lib/utils.ts:31-33 | Valid iff some client pattern matches somewhere. |
| LinkUtils.NormalizeYouTubeUrl | apps/app/src/lib/utils.ts:35-38 | Some iff the URL is valid, and then it is the canonical watch URL of an eleven-character id. |
| LinkUtils.ExtractsWatchUrl | apps/app/src/lib/utils.ts:9-29 | The id of a canonical watch URL is extracted. |
| LinkUtils.NormalizeIdempotent | apps/app/src/lib/utils.ts:35-38 | The normal form has the same id and normalises to itself. |
| LinkUtils.AnchoredPatternUnreachable | apps/app/src/lib/utils.ts:18-26 | Extraction equals extraction with the first three patterns only. |
| LinkUtils.ServerPrefixedOnClient | apps/api/src/services/youtubeService.ts:58 | Where the server's first pattern matches, some client pattern matches. |
| LinkUtils.ClientOnServer | apps/app/src/lib/utils.ts:10-19 | Where a client pattern matches, some server pattern matches. |
| LinkUtils.SameUrlsAccepted | apps/app/src/lib/utils.ts:31-33 | The client accepts a URL iff the server does. |
| LinkUtils.ServerTakesFirst | apps/api/src/services/youtubeService.ts:58 | On a watch URL with two `v=` ids the server's first pattern takes the first. |
| LinkUtils.ClientTakesLast | apps/app/src/lib/utils.ts:12 | On the same URL the client's greedy pattern takes the second. |
| LinkUtils.ServerAndClientIdsDiffer | apps/app/src/lib/utils.ts:9-29 | There are URLs on which the server and the client extract different ids. |
| Dates.FormatRelativeTime | apps/app/src/ui/utils/dates.ts:1-17 | "Just now" iff less than a minute has passed. |
| Dates.RelativeDays | apps/app/src/ui/utils/dates.ts:1-17 | From one day on, it says the whole number of days, singular for one. |
| Dates.RelativeHours | apps/app/src/ui/utils/dates.ts:1-17 | Between one hour and one day, it says the whole hours. |
| Dates.RelativeMinutes | apps/app/src/ui/utils/dates.ts:1-17 | Between one minute and one hour, it says the whole minutes. |
| Dates.JsNumber | apps/app/src/ui/utils/dates.ts:22 | A text of decimal digits converts to its value. |
| Dates.NumberOfWritten | apps/app/src/ui/utils/dates.ts:22 | A number written in decimal converts back to itself. |
| Dates.NumberOfPadded | apps/app/src/ui/utils/dates.ts:22 | So does its zero-padded form. |
| Dates.DurationToSeconds | apps/app/src/ui/utils/dates.ts:19-34 | A missing or empty duration is 0, and so is one with more than three pieces. |
| Dates.SecondsOfPieces | apps/app/src/ui/utils/dates.ts:23-33 | More than three pieces give 0. |
| Dates.SecondsAlone | apps/app/src/ui/utils/dates.ts:29-31 | A bare number is that many seconds. |
| Dates.ThreePieceDuration | apps/app/src/ui/utils/dates.ts:23-25 | `h:m:s` is h·3600 + m·60 + s. |
| Dates.TwoPieceDuration | apps/app/src/ui/utils/dates.ts:26-28 | `m:s` is m·60 + s. |
| Dates.ClockWithHoursRoundTrip | apps/app/src/ui/utils/dates.ts:19-34 | Reading back a clock text with hours gives its seconds. |
| Dates.ClockNoHoursRoundTrip | apps/app/src/ui/utils/dates.ts:19-34 | Reading back a clock text without hours gives its seconds. |
| Dates.ClockRoundTrip | apps/app/src/ui/utils/dates.ts:19-34 | The client reads back every clock text the server writes as its number of seconds. |
| Dates.IsoDurationRoundTrip | apps/api/src/services/youtubeService.ts:136-150 | An ISO duration formatted by the server and read by the client gives its total seconds. |
| I18n.Translate | apps/api/src/i18n/index.ts:18-33 | The loop walks the dotted key and gives the text there, else the key itself. |
| I18n.Get | apps/api/src/i18n/index.ts:23-24 | Property access on anything but an object gives undefined. |
| I18n.LookupAppend | apps/api/src/i18n/index.ts:23-25 | Walking a path in two stages ends where walking it at once does. |
| I18n.LookupUndefined | apps/api/src/i18n/index.ts:23-25 | Once the walk reaches undefined it stays there. |
| I18n.TranslationFound | apps/api/src/i18n/index.ts:18-33 | A text stored at a path is what the dotted key of that path translates to. |
| I18n.TranslationFallsBack | apps/api/src/i18n/index.ts:31-32 | A key whose prefix is missing translates to itself. |
| I18n.IsValidLocaleAsWritten | apps/api/src/i18n/index.ts:54-56 | True iff the text names a locale or an inherited object property. |
| I18n.AsWrittenAcceptsInheritedName | apps/api/src/i18n/index.ts:54-56 | The check as written accepts "toString", which names no locale. |
| I18n.IsValidLocale | apps/api/src/i18n/index.ts:54-56 | True iff the text is the name of a supported locale. |
| I18n.ValidLocaleNames | apps/api/src/i18n/index.ts:54-56 | Exactly "pt" and "en" pass, and "toString" does not. |
| I18n.EntryLocale | apps/api/src/i18n/index.ts:70-80 | An entry names a locale only if its code (the trimmed text before the first `;`) starts with that locale's name. It names none iff its code starts with no locale's name. |
| I18n.FirstSupportedWins | apps/api/src/i18n/index.ts:69-81 | The first entry naming a supported locale decides. |
| I18n.FirstSupportedDefault | apps/api/src/i18n/index.ts:83 | With no supported entry the answer is Portuguese. |
| I18n.ParseAcceptLanguage | apps/api/src/i18n/index.ts:61-64 | A missing or empty header gives Portuguese. |
| I18n.CaseInsensitive | apps/api/src/i18n/index.ts:67 | The choice ignores letter case. |
| I18n.QualityIgnored | apps/api/src/i18n/index.ts:70 | A quality value after `;` does not change what the entry names. |
| AddVideoStore.FailureText | apps/app/src/stores/add-video-store.ts:77-108 | The failure text is never empty. It is the error's message when there is one. |
| AddVideoStore.EmptyUrlInvalid | apps/app/src/stores/add-video-store.ts:33-37 | The blank form is not a valid URL. |
| AddVideoStore.AcceptedByServer | apps/app/src/stores/add-video-store.ts:77-108 | A URL the form accepts, the server accepts too. |
| AddVideoStore.Store.constructor | apps/app/src/stores/add-video-store.ts:33-37 | Closed, blank, valid flag false, no error, not loading. |
| AddVideoStore.Store.OpenModal | apps/app/src/stores/add-video-store.ts:40-42 | Opens the modal and changes nothing else. |
| AddVideoStore.Store.CloseModal | apps/app/src/stores/add-video-store.ts:45-49 | Resets the form and closes the modal. |
| AddVideoStore.Store.SetUrl | apps/app/src/stores/add-video-store.ts:52-59 | Stores the text and its validity, and clears the error. |
| AddVideoStore.Store.SetError | apps/app/src/stores/add-video-store.ts:62-64 | Sets the error only. |
| AddVideoStore.Store.ClearError | apps/app/src/stores/add-video-store.ts:67-69 | Clears the error only. |
| AddVideoStore.Store.ValidateUrl | apps/app/src/stores/add-video-store.ts:72-74 | The client's check, equal to the server's. The store is left as it is. |
| AddVideoStore.Store.SubmitVideo | apps/app/src/stores/add-video-store.ts:77-108 | An invalid URL only sets the error. A created video leaves the form blank and the modal closed. A failure shows its message and reopens the modal with the URL kept. Loading ends in every case, and only URLs the server accepts are submitted. |
| AddVideoStore.Store.StartRequest | apps/app/src/stores/add-video-store.ts:86-89 | Loading begins, the error is cleared and the modal closes. |
| AddVideoStore.Store.Settle | apps/app/src/stores/add-video-store.ts:91-107 | The request's outcome decides the form, and loading ends. |
| AddVideoStore.Store.Reset | apps/app/src/stores/add-video-store.ts:111-118 | Blank form, no error, not loading, modal flag kept. |
| VideoPlayerStore.Store.constructor | apps/app/src/stores/video-player-store.ts:33-37 | No video, player closed, empty position cache. |
| VideoPlayerStore.Store.GetProgress | apps/app/src/stores/video-player-store.ts:83-86 | The cached position, 0 when none is cached. |
| VideoPlayerStore.Store.UpdateProgress | apps/app/src/stores/video-player-store.ts:58-81 | Caches the position of that video only. Other videos' positions and the player are unchanged. |
| VideoPlayerStore.Store.LoadProgressFromApi | apps/app/src/stores/video-player-store.ts:88-111 | A successful reply with a position caches it. Anything else, an exception included, leaves the cache as it was. |
| VideoPlayerStore.Store.OpenPlayer | apps/app/src/stores/video-player-store.ts:39-49 | Opens the player with the given video and loads its position when the video has an id. |
| VideoPlayerStore.Store.ClosePlayer | apps/app/src/stores/video-player-store.ts:51-56 | Closes the player and forgets the video. The position cache is kept. |

## Left out

- Email delivery (`emailService.ts`) is not part of this model. Its outcome enters `SendVerificationCode` as a boolean.
- The YouTube Data API call (`getVideoDetails`) is network I/O and is left out. Video details enter `CreateVideo` as a value.
- The web client's API client (`services/api.ts`, single-flight token refresh) and the tRPC routers and procedures are not part of this model. Neither are the input schemas that guard the mutations.
- `businesses.ts` is not part of this model. The set of existing business ids enters `CreateAgent` as a parameter.
- The clean-up wrappers of the auth service (authService.ts:213-241) only forward to the table functions modelled above.
- `verifyAccessToken` and `getUserById` of the auth service (authService.ts:154-199) are JWT verification, a foreign library call.
- The read-only agent queries (agents.ts:6-50) and `listActiveUsers` (users.ts:26-37) are plain filters of the kind modelled for videos and tags.
- AuthService.SendVerificationCode: the `catch` paths that turn an unexpected exception into a server error are not modelled. The same holds for the other service methods. The client stores' `catch` blocks are modelled: a thrown request is `CreateOutcome.Failed` in the add-video store and `ProgressReply.Threw` in the player store.
- Users.GetUsersByDateRange: states which users are returned, not their order.
- Every mutation reads the clock once (`now`). The source calls `Date.now()` several times within one mutation.
- Dates.JsNumber, Dates.DurationToSeconds and YouTubeService.FormatDuration: read digit strings as unbounded integers, where JavaScript's `Number` and `parseInt` lose precision past 2^53. No duration of a real video comes near that bound.
- Dates.JsNumber: trims surrounding white space, reads the empty text as 0, and reads decimal digits with an optional leading `+` or `-`. Other forms `Number()` accepts (fractions, exponents, hex, `Infinity`) give no value.
- VideoPlayerStore.Store.UpdateProgress: the save request to the server is not modelled, because its outcome changes nothing in the store.
- VideoPlayerStore.Store.LoadProgressFromApi: positions are integers (seconds), not floating point. The same holds for the stored position in Videos.UpdateVideoProgress and Videos.GetVideoWithProgress, and for VideoPlayerStore.Store.UpdateProgress, whose argument in the client is the player's fractional current time.
- Users.UserStore.UpdateUser, Users.UserStore.UpdateLastLogin, Users.UserStore.DeactivateUser and Users.UserStore.ReactivateUser: a patch of a missing id throws in the database. The model answers false and changes nothing.
- I18n.ParseAcceptLanguage: lower-cases ASCII letters only, where `toLowerCase` maps every Unicode letter. The two could choose differently only if a letter outside ASCII lower-cased to `e`, `n`, `p` or `t`. In Unicode only U+0130 and U+212A lower-case to ASCII letters (`i` and `k`), so the choice is the same.
- AddVideoStore.Store.SubmitVideo: the state between starting the request and its reply (loading shown, modal closed) is not observable after the call. `StartRequest` states it separately.
- VideoPlayerStore.Store.GetProgress: the position cache is a map from video id to position. The source's plain object also finds properties inherited from `Object.prototype` (an id such as `"constructor"`), which the model does not. Video ids are database ids and never take such names.
- I18n.Translate: indexing into a string value (`"abc"?.[0]`) and properties inherited from `Object.prototype` during the walk are not modelled. The dictionaries enter as data, and the warning printed on a miss is left out.
- `createTranslator` and `getAvailableLocales` of the i18n module are one-line wrappers over data and are left out.

## Findings

| source | as written | input that shows it | evidently intended | confidence | as-written member | corrected member |
|---|---|---|---|---|---|---|
| apps/api/src/i18n/index.ts:54-56 | `locale in locales` is also true of the property names every object inherits | `"toString"` passes the type guard as a supported locale | true only for `"pt"` and `"en"` (an own-property check) | not executed | I18n.IsValidLocaleAsWritten, I18n.AsWrittenAcceptsInheritedName | I18n.IsValidLocale, I18n.ValidLocaleNames |
