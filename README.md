# Snowball Fight: scoring and ranking engine

This is a Dafny model of the server core of the Snowball Fight mini app, with proofs about it. Players register a Farcaster handle. They then throw snowballs at other registered handles, and every hit earns Snow Power Points (SPP). The model covers:

- **The key-value store adapter** (`lib/db.ts`). This holds users and the handle directory, time-decayed streaks, revenge and first-hit memory, and the `snowball:points` sorted set.
- **The throw handler.** It validates the request, resolves the target, gates on the notification, scores the hit and commits it.
- **The leaderboard query.** It returns the top 20 with streak badges, plus one user's rank, score and streak.
- **The rank tiers** shown on the home page.
- **The two registration intakes.** These are the register endpoint and the `miniapp_added` webhook, which writes under the placeholder fid 0.

## Layout

| file | module | contents |
|---|---|---|
| `wrappers.dfy` | `Wrappers` | `Option` |
| `handles.dfy` | `Handles` | ASCII lower-casing, the ECMAScript `trim`, and the first-occurrence `replace` |
| `store.dfy` | `SnowballStore` | The store as a value (`Store`, seven maps) and every `lib/db.ts` operation as a function on it, with the properties of those operations |
| `db.dfy` | `SnowballDb` | `class Db`: the same seven maps as mutable fields. Each method updates them in place, and `ensures` ties the new `Snapshot()` to the store function |
| `throw.dfy` | `ThrowRoute` | `Throw`, the handler's meaning on a store value, and `Post`/`Commit`, the handler run step by step on a `Db` and proved equal to `Throw` |
| `leaderboard.dfy` | `LeaderboardRoute` | The read-only `Get` method with its loop over the top rows |
| `ranks.dfy` | `RankTiers` | `getRank` and `getNextRankGoal`, checked against a threshold-counting reference |
| `register.dfy` | `RegisterRoute` | The register handler |
| `webhook.dfy` | `WebhookRoute` | The webhook handler |

### Modelling choices

- **Stored strings.** A value read back through `Number(...)` is a `Cell`. `Num(n)` stands for a truthy string that `Number` reads as `n`. `NonNumeric` stands for the empty string and for anything `Number` reads as `NaN`.
- **INCR failures.** Redis `INCR` rejects a non-integer value. The model returns `None` from `IncrementStreak` and `RegisterHitAndGetStreak` in that case. The throw handler then fails with `StoreFailed` (status 500, the framework's answer to a rejected promise). As the code runs, that happens before anything has been written.
- **Leaderboard order.** The store orders the sorted set in descending order, and that ordering is an input `order` of the leaderboard handler, constrained by `IsRanking`. `RankingExists` proves that such an order exists for every score map. Members with equal scores may appear in any order.
- **The clock and the notification.** `Date.now()` is the parameter `now`. The outcome of the notification `fetch` is the boolean parameter `delivered`.

## Model

| member | source | states |
|---|---|---|
| Handles.Lower | lib/db.ts:31-40 | `toLowerCase` keeps the length. Its per-character meaning is in `LowerAt`, and what it means for keys is in `LowerEqualIffCaseVariant`. ASCII letters only. |
| Handles.LowerAt | lib/db.ts:31-40 | Each character of the lower-cased string is the ASCII lower-case form of the input character at the same position. |
| Handles.LowerEqualIffCaseVariant | lib/db.ts:30-40 | Two handles have the same lower-cased key exactly when they are equal ignoring case. So every key helper treats all case variants of a handle as one key. |
| Handles.LowerIdempotent | lib/db.ts:56 | Lower-casing an already lower-cased name changes nothing. So `saveUserToken` lower-casing a second time inside `usernameKey` has no effect. |
| Handles.Trim | app/api/throw/route.ts:26 | The result is the input with a whitespace-only prefix and suffix removed. Neither end of the result is an ECMAScript whitespace character. |
| Handles.RemoveFirst | app/api/throw/route.ts:26 | `replace('@', '')` deletes only the first `@`. The string is unchanged when it has no `@`. |
| SnowballStore.HandleKey | lib/db.ts:30-40 | Every key helper's handle is lower case and equal ignoring case to the given handle. |
| SnowballStore.SaveUserToken | lib/db.ts:50-67 | The user record for `fid` becomes `{fid, lower(username), token, url}` and the lower-cased name maps to `fid`. Nothing else changes. |
| SnowballStore.GetFidByUsername | lib/db.ts:72-80 | The result is a fid exactly when the lower-cased name is mapped to a numeric value, and then it is that value. Otherwise it is null. |
| SnowballStore.GetUserToken | lib/db.ts:85-97 | The result is null exactly when there is no record, or its token or url is empty. Otherwise it carries the record's fields. |
| SnowballStore.AddPoints | lib/db.ts:108-119 | The new total is the old score (0 when the member is absent) plus the delta. Only the lower-cased member's score changes. |
| SnowballStore.IncrementStreak | lib/db.ts:128-134 | The result is the old streak plus 1, where an absent key counts as 0. A non-integer value is refused, and a refusal leaves the store unchanged. |
| SnowballStore.ResetStreak | lib/db.ts:139-142 | Only the lower-cased streak key changes, and it becomes 0. |
| SnowballStore.RegisterHitAndGetStreak | lib/db.ts:150-170 | The result is 1 when the last hit is numeric and strictly older than the window. Otherwise it is the old streak plus 1. Only the streak and the `lastAttack` stamp `now` of the lower-cased key change. The call is refused only when no reset applies and the streak is non-numeric, and a refusal changes nothing. |
| SnowballStore.RecordAttackPair | lib/db.ts:176-185 | Only `revenge[lower(target)]` changes, and it becomes `lower(attacker)`. |
| SnowballStore.WasRevengeHit | lib/db.ts:191-200 | The result is true exactly when the attacker's remembered last attacker is the lower-cased target. |
| SnowballStore.RecordHit | lib/db.ts:206-213 | The lower-cased target is added to the attacker's set, and nothing else changes. |
| SnowballStore.HasHitBefore | lib/db.ts:218-226 | The result is true exactly when the lower-cased target is in the attacker's set. |
| SnowballStore.SaveThenResolve | lib/db.ts:50-80 | After `saveUserToken`, every case variant of the username resolves to the fid. |
| SnowballStore.SaveThenGetToken | lib/db.ts:50-97 | After `saveUserToken`, `getUserToken(fid)` gives `{fid, lower(u), token, url}`, or null when the token or url is empty. |
| SnowballStore.SaveOverwrites | lib/db.ts:58-66 | A second save of the same fid replaces the record, and `getUserToken` then reads as if only the second save happened. |
| SnowballStore.SaveIdempotent | lib/db.ts:58-66 | Saving the same arguments twice leaves the same state as saving them once. |
| SnowballStore.SaveKeepsDirectoryConsistent | lib/db.ts:58-66 | Saving keeps the invariant that every numeric directory entry has a user record. |
| SnowballStore.ResolvedFidHasRecord | lib/db.ts:72-80 | In a consistent directory, a resolved fid always has a stored record. |
| SnowballStore.RegisterHitStreakAtLeastOne | lib/db.ts:150-170 | The returned streak is at least 1, `lastAttack[lower(u)]` becomes `now`, and streaks stay non-negative. The result is 1 exactly when the window has expired or the old streak was 0 or absent. |
| SnowballStore.StreakBoundaryNotDecayed | lib/db.ts:161 | A gap of exactly the window does not reset the streak, which grows by one. |
| SnowballStore.StreakPastBoundaryResets | lib/db.ts:161-167 | One millisecond past the window, the streak restarts at 1 whatever it was. |
| SnowballStore.RecordAttackThenRevenge | lib/db.ts:176-200 | After `recordAttackPair(a, t)`, `wasRevengeHit(t, a)` holds for every case variant of the pair. |
| SnowballStore.RecordHitThenHasHit | lib/db.ts:206-226 | After `recordHit(a, t)`, `hasHitBefore(a, t)` holds for every case variant of the pair. |
| SnowballStore.RecordHitIdempotent | lib/db.ts:212 | Recording the same pair again changes nothing, because the add is a set add. |
| SnowballStore.RecordHitOtherPair | lib/db.ts:206-226 | Recording a different pair does not change `hasHitBefore` for this pair. |
| SnowballStore.EmptyStoreKnowsNothing | lib/db.ts:72-226 | A fresh store resolves no handle, has no record, score, hit or revenge, and satisfies both invariants. |
| SnowballDb.Db.SaveUserToken | lib/db.ts:50-67 | The in-place update leaves exactly the store `SaveUserToken` describes. |
| SnowballDb.Db.AddPoints | lib/db.ts:108-119 | The new store and the returned total are those of `AddPoints`. |
| SnowballDb.Db.IncrementStreak | lib/db.ts:128-134 | The new store and the result are those of `IncrementStreak`. |
| SnowballDb.Db.ResetStreak | lib/db.ts:139-142 | The new store is that of `ResetStreak`. |
| SnowballDb.Db.RegisterHitAndGetStreak | lib/db.ts:150-170 | The read, then the reset, then the increment, then the stamp, run in place, give exactly the store and the result of `RegisterHitAndGetStreak`. |
| SnowballDb.Db.RecordAttackPair | lib/db.ts:176-185 | The new store is that of `RecordAttackPair`. |
| SnowballDb.Db.RecordHit | lib/db.ts:206-213 | The new store is that of `RecordHit`. |
| ThrowRoute.CleanTarget | app/api/throw/route.ts:26 | The clean target is never longer than the raw one and has no whitespace at either end. Without an `@` it is just the trimmed input. The exact behaviour is in `Handles.RemoveFirst` and `Handles.Trim`. |
| ThrowRoute.Award | app/api/throw/route.ts:72-95 | The award is never negative and is at least 2 when the target is not the admin and the streak is at least 1. For a non-admin target with a non-negative streak it is `1 + streak + 2·revenge + 5·firstHit`, with no clamping. `ScoreHitResponse` ties it to the store. |
| ThrowRoute.ScoreHit | app/api/throw/route.ts:72-101 | Scoring succeeds unless the streak update is refused, and in that case the store is unchanged. |
| ThrowRoute.ScoreHitResponse | app/api/throw/route.ts:72-108 | The response is a hit with `pointsAwarded` equal to `max(0, 1 + streak + 2·revenge + 5·firstHit − 10·admin)`, the streak from the streak update, and `totalPoints` equal to the sender's previous score plus the award. |
| ThrowRoute.ScoreHitStore | app/api/throw/route.ts:75-101 | A scored hit changes only the sender's streak and stamp, `revenge[target]`, the sender's first-hit set and the sender's score. Users and the directory are untouched. |
| ThrowRoute.Throw | app/api/throw/route.ts:16-109 | The status is 400, 404, 500 or 200, and 200 means exactly a scored hit. 400 happens exactly when the target or sender is missing or empty. 404 happens exactly when the clean target does not resolve to a non-zero fid with a token and a url. A failed notification for a reachable target answers `Refused(500, "Notification failed")`. A refused streak update after a delivered notification answers `StoreFailed`. Success happens exactly when the notification was delivered and the streak update succeeded. Every non-success leaves the store unchanged. |
| ThrowRoute.ThrowScores | app/api/throw/route.ts:29-101 | A valid throw at a reachable target is scored by `ScoreHit` once the notification is delivered and the streak update succeeds. |
| ThrowRoute.AwardBounds | app/api/throw/route.ts:72-95 | The award is never negative. It is at least 2, with a streak of at least 1, whenever the target is not the admin handle. |
| ThrowRoute.HitRecordsRevengeAndFirstHit | app/api/throw/route.ts:84-98 | After a scored hit, the target remembers the sender as its last attacker and the pair counts as hit before. |
| ThrowRoute.ThrowKeepsInvariants | app/api/throw/route.ts:16-109 | Every throw keeps the directory and streak invariants. |
| ThrowRoute.FirstHitAwardsSeven | app/api/throw/route.ts:72-101 | A first hit on a reachable, non-admin target, by a sender with no streak and no revenge, awards 7 with streak 1, and the total is the old score plus 7. |
| ThrowRoute.FirstHitState | app/api/throw/route.ts:75-101 | After that first hit, the sender's streak is 1 and stamped `now`, the pair counts as hit before but not as revenge, and the target stays reachable. |
| ThrowRoute.FirstHitThenRepeat | app/api/throw/route.ts:72-101 | The same throw again inside the window awards 3 with streak 2, which brings the total to the old score plus 10. The first-hit bonus is not granted twice. |
| ThrowRoute.ReturnHitIsRevenge | app/api/throw/route.ts:79-98 | After `a` hits `b`, `b` throwing back at `a` is a revenge hit and is scored with the revenge bonus. |
| ThrowRoute.Post | app/api/throw/route.ts:16-109 | The handler run with early returns against the store object gives exactly the response and the store of `Throw`. |
| ThrowRoute.Commit | app/api/throw/route.ts:72-108 | `pointsAwarded`, built with `+=`, `-=` and the clamp between the ordered store calls, gives exactly the response and the store of `ScoreHit`. |
| LeaderboardRoute.RankingExists | app/api/leaderboard/route.ts:22 | Every score map has a descending order, so the order is always a valid input. |
| LeaderboardRoute.HighestMember | app/api/leaderboard/route.ts:22 | A non-empty score map has a member of highest score. |
| LeaderboardRoute.RevRange | app/api/leaderboard/route.ts:22 | The result is the first `min(count, members)` members of the descending order, with their scores. |
| LeaderboardRoute.RevRank | app/api/leaderboard/route.ts:49 | The result is null exactly when the member has no score. Otherwise it is the member's first position in the order. |
| LeaderboardRoute.Badge | app/api/leaderboard/route.ts:31-33 | The badge is "🔥 Mega Streak" exactly from 5, "🔥 Hot Streak" exactly from 3 to 4, and empty exactly below 3. |
| LeaderboardRoute.Get | app/api/leaderboard/route.ts:16-66 | There are `min(20, members)` rows at non-increasing points. Each row carries its member, score, stored streak (0 when absent or non-numeric) and badge. The user part is present exactly when the parameter is non-empty, and uses the lower-cased name. The rank is null exactly when that name has no score, and is otherwise its 1-based position. Points are 0 when absent. A user shown at row i has rank i + 1. The method only reads the store. |
| LeaderboardRoute.TopEntries | app/api/leaderboard/route.ts:22-41 | The loop yields `min(20, members)` rows in the descending order. Each row carries its member, score, stored streak (0 when absent or non-numeric) and badge. |
| RankTiers.GetRank | app/page.tsx:36-43 | The rank is always one of the six tiers. It is "Fresh Snowflake" exactly below 10 and "Blizzard Overlord" exactly from 200. Which tier it is, in general, is stated by `GetRankIsTier`. |
| RankTiers.GetNextRankGoal | app/page.tsx:45-52 | `needed` is never negative. It is 0, with the label "Max Rank", exactly from 200 points. The full goal is stated by `NextGoalIsTierAbove`. |
| RankTiers.ReachedMonotone | app/page.tsx:36-43 | More points never reach fewer thresholds. |
| RankTiers.GetRankIsTier | app/page.tsx:36-43 | `getRank` names the tier whose index is the number of inclusive thresholds 10, 25, 60, 120 and 200 that the total reaches. |
| RankTiers.ThresholdsInclusive | app/page.tsx:36-43 | Exactly at each threshold its tier is reached, and one point below it is not. |
| RankTiers.GetRankMonotone | app/page.tsx:36-43 | More points never give a lower tier. |
| RankTiers.NextGoalIsTierAbove | app/page.tsx:45-52 | From 200 points the goal is "Max Rank" with nothing needed and target 200. Otherwise the goal names the tier directly above the current one, its target is that tier's threshold, and `needed` is the target minus the points, which is positive. |
| RankTiers.GoalTargetNonZero | app/page.tsx:46-51 | The goal's target is never 0 and is always one of the thresholds. |
| RegisterRoute.Register | app/api/register/route.ts:5-15 | The result is 400 exactly when the fid is missing or 0, or the username, token or url is missing or empty, and then nothing is written. Otherwise the store is exactly that of one `saveUserToken` with the given fields. |
| RegisterRoute.Post | app/api/register/route.ts:5-15 | The handler against the store object gives exactly the response and the store of `Register`. |
| RegisterRoute.RegisteredUserResolves | app/api/register/route.ts:12 | After a successful registration, every case variant of the username resolves to the fid, whose record holds the lower-cased name, the token and the url. |
| RegisterRoute.ReRegisterReplaces | app/api/register/route.ts:12 | Registering the same fid again replaces its token and url. |
| RegisterRoute.RegisterIdempotent | app/api/register/route.ts:5-15 | Repeating a registration leaves the same store and response. |
| RegisterRoute.RegisterNeverStoresFidZero | app/api/register/route.ts:8-12 | A registration never creates a record for fid 0. |
| WebhookRoute.Webhook | app/api/webhook/route.ts:5-21 | A write happens only for `miniapp_added` with a non-empty token and url, and it is `saveUserToken(0, "unknown", token, url)`. Every other event leaves the store unchanged. |
| WebhookRoute.Post | app/api/webhook/route.ts:5-21 | The store afterwards is that of `Webhook`, and the answer is always success. |
| WebhookRoute.SentinelRegistration | app/api/webhook/route.ts:14-16 | After the placeholder registration, "unknown" resolves to fid 0 and fid 0 holds the token and the url. |
| WebhookRoute.SentinelIsNotATarget | app/api/throw/route.ts:29-35 | A throw at "unknown" after the placeholder registration is answered 404 and changes nothing. |
| WebhookRoute.CleanSentinel | app/api/throw/route.ts:26 | The raw target "unknown" is its own clean form. |

## Left out

- **Redis connection singleton** (`lib/db.ts:4-18`): infrastructure. The store is the `Store` value and the `Db` object.
- **The notification request**: the `fetch`, `crypto.randomUUID` and the app URL are network I/O and foreign calls. Only the outcome is modelled, as `delivered`.
- **`Date.now()`**: the clock is the parameter `now`.
- **JSON parsing and the request/response objects**: requests are records, and responses are a status plus fields. Error message text is modelled for the explicit refusals. `StoreFailed` carries no text.
- **Non-string JSON values**: a field is either absent or a string (an integer for `fid`). A number or object where a string is expected, which makes the code throw, is not modelled.
- **Store failures other than the INCR refusal**: any rejected Redis call makes the handler answer 500. That covers connection failures and time-outs, and a failure mid-sequence (for example in `addPoints` after `recordHit` and `recordAttackPair` have written) leaves partial writes. None of this is modelled: every other store call succeeds.
- **Concurrency**: every store call is sequential. The race between the decay read and the reset is not modelled.
- **Equal scores**: the order among members with equal scores is defined by the store and is left unconstrained.
- **Number width**: points, streaks, timestamps and fids are unbounded integers. JavaScript doubles, and their rounding far beyond 2^53, are not modelled.
- **Handles.Lower**: only ASCII letters are lower-cased. The full Unicode `toLowerCase` case mapping is not modelled.
- **`Number()` parsing**: the text of a stored number is abstracted to `Cell`. Parsing of non-canonical strings such as `" 7 "` or `"0x10"` is not modelled.
- **HSET field merge**: saving a user writes all four fields, so the merge into an existing hash is modelled as replacing the record.
- **The sorted-set reply layout**: ZREVRANGE WITHSCORES returns a flat array that the loop reads two items at a time. The model reads a sequence of (member, score) pairs one at a time.
- **Rendering**: the progress bar, React state, donate, invite, and the other pages and routes (the leaderboard page, the OG image, the layout and the share page) are rendering, floating point or SDK calls.
