# QuantFlow: verified models

Dafny models of the parts of QuantFlow whose correctness is not visible in any one function, with proofs of
what they promise. `dafny verify dfyconfig.toml` checks everything.

## What is modelled

| file | part of QuantFlow | main results |
|---|---|---|
| `AdminLock.dfy`, `AdminProgress.dfy`, `AdminUsers.dfy` | the admin mutation lock (a database row with stale takeover, a promise chain per process) and the user operations it guards, as a step system with crashes, failing calls and unlocked operations | one holder at a time, the last active admin stays, sessions from before a password change stay ended, callers enter in arrival order, an acquisition ends by its own token or by expiry, a released lock is free, every row left behind has a crashed or failing caller, a finished bootstrap has left the configured admin; the last-admin rule and mutual exclusion hold exactly for the time bounds up to the stale limit |
| `AdminBootstrap.dfy` | start-up synchronisation of the configured root admin, and the search for a free user name | the table ends settled, a second start writes nothing, the search ends after at most one candidate more than there are users |
| `LogLines.dfy`, `LogsService.dfy`, `LogPaging.dfy`, `LogMeaning.dfy`, `LogWitness.dfy` | log retrieval: chunked streaming, tail reads, the full-read fallback, per-day trimming, early stopping | streaming is one pass over the lines for every partition into chunks; latest mode and the descending range equal the simple form exactly when stated; ascending pages tile the range; which lines give an entry; days on which latest mode misses the newest entry |
| `BotState.dfy` | deletion of one key by stat, get, stat, put over a store that others write | exactly when each result is given; no write unless it is true; what a true result leaves behind for every window, and exactly when that is right |
| `FanOut.dfy`, `FanOutEvents.dfy` | the shared NATS subscriptions behind the log streams | one live subscription per active bot, none idle, none closed twice; over every run a client has received exactly the messages published while it was live, in order; a client without access never streams, one that waited for a subscription gets it; who is warned that live updates are missing |
| `EnvFile.dfy`, `EnvText.dfy` | reading and rewriting the `.env` file | written values read back, other keys keep theirs, a second write leaves no trace of the first; what every key reads as after generation |
| `Versions.dfy`, `CustomBots.dfy`, `BotRules.dfy` | published bot versions and deployed instances | over every run the latest row is the greatest version, references stay valid, major versions never change; exactly when each operation goes through; exactly when an updated instance refers to the right row |
| `Ignore.dfy`, `PatternRules.dfy`, `ZipWalk.dfy` | ignore patterns and the pruned walk that packs a bot | the pruned walk is the plain list of files, filtered; exactly which files are packed; dependencies are always packed; when built frontend files are |
| `DockerFrames.dfy` | taking a Docker log stream apart | round trip, and the exact result for a stream cut anywhere |
| `ConfigFilter.dfy` | filtering a configuration by its schema | exactly the allowed paths stay, clean configurations are fixed points, filtering twice is filtering once |
| `Text.dfy`, `Results.dfy` | splitting, joining, trimming, numerals; options and results | |

Where one call updates state, the model is a class or a loop over mutable state whose postconditions equal a
specification function, and the properties are proved of that function. Where processes or event handlers
interleave, it is a step system with an invariant that every step keeps.

## Findings

* The admin lock protects the last admin, and excludes a second holder, exactly when every holder is done within
  five minutes of `lockedAt`: one millisecond more is too late, and nothing in the code enforces the bound
  (`AdminLock.LastAdminIsSafeExactlyWithin`, `AdminLock.LockIsExclusiveExactlyWithin`, with the run of
  `AdminLock.LateHolderLosesTheLastAdmin`).
* `deleteKey` erases whatever other writers stored between its second stat and its write, and is right exactly when
  they left the other keys alone (`BotState.WindowIsErased`, `BotState.DeletionIsRightExactlyWhen`).
* `deleteKey` reports true although the object is unchanged when the last key is deleted and the removal of the
  object fails, because that error is swallowed (`BotState.TrueMeansDeleted`, `BotState.FailedRemovalReportsTrue`).
* A client that waits for another client's subscription, which then fails, streams nothing and is never told: the
  branch that would warn it cannot be reached, because a failed creation always reports its warning as sent
  (`FanOut.UnwarnedExactlyWhen`, `FanOut.AWaiterIsNotWarned`). It takes two histories that end within one turn of
  the event loop.
* In latest mode `hasMore` is always right. The page is the simple form exactly when every day it needs fits the
  tail, has enough lines in its tail, or has at most max(offset+limit+1, 10000) entries
  (`LogPaging.LatestExactlyWhen`). Any day with at least 10000 lines before a last line as long as the tail shows
  line 10000 as its newest entry (`LogWitness.LongLastLineIsMissed`).
* A descending range reads its oldest max(offset+limit, 10000) entries only, and its pages miss everything newer
  (`LogPaging.DescendingRangeExactlyWhen`, `LogWitness.LongRangeIsCut`).
* A page that is already full on entry still receives one more complete line from the streaming reader, but not a
  last line without newline; it is left alone exactly when no complete line behind the offset falls in the time window
  (`LogPaging.FullPageExactlyWhen`). The callers never start a day with a full page.
* Moving an instance to another bot name at the same version keeps the reference to the old name's row
  (`CustomBots.RenamingKeepsTheStaleRow`); an update refers to the right row exactly when it keeps the name or
  changes the version.
* A pattern `build/**` also matches siblings such as `builder` (`Ignore.SiblingIsMatched`), and `frontend/dist` is
  protected only as long as no pattern prunes `frontend` itself (`ZipWalk.FrontendIsPackedExactlyWhen`): the pattern
  `frontend` keeps all of it out (`ZipWalk.FrontendPatternKeepsDistOut`).
* Code and comments disagree in two places, and the model follows the code: the single-date log path is commented
  as newest-first (api/src/logs/logs.service.ts:90) but returns file order; the comment in
  cli/internal/ignore.go:103 says the directories are never ignored, which does not hold for `frontend/dist`.

## Assumptions

* One clock for all processes; database calls are atomic; a crashed process makes no further call.
* Stored objects get a new etag on every put. Log files do not change while one request reads them.
* `createdAt` of published rows strictly increases, and row ids are new.
* bcrypt: a hash is not empty and verifies its own password. `normalizeLine`, the metric test, `filepath.Match`
  and bcrypt are parameters, so every result holds for any of them.

## Model

| member | source | states |
|---|---|---|
| AdminLock.MutualExclusion | api/src/common/lock.repository.ts:48-128 | in every timely run, at every moment, two callers that hold the lock are the same caller, across processes, crashes, failing calls, takeovers and late stale-deletes |
| AdminLock.StepKeepsLock | api/src/common/lock.repository.ts:48-80 | each single step keeps: a holder's token is the row, at most one holder, a pending takeover is of a row that was stale |
| AdminLock.RowEndsByOwnerOrStale | api/src/common/lock.repository.ts:82-128 | when a lock row disappears or changes, it becomes empty, and the step was the release by the caller with that token or a takeover of a stale row that no live caller holds |
| AdminLock.ArrivalOrder | api/src/common/lock.repository.ts:33-46 | in every run a caller of a process enters only after every earlier caller of that process has finished |
| AdminLock.StepKeepsChain | api/src/common/lock.repository.ts:33-46 | each step keeps the promise chain: tickets are arrivals, a promise is resolved only by its finished owner, entering needs the predecessor's promise |
| AdminLock.AnAdminRemains | api/src/user/user.service.ts:113-182 | in every timely run, once there is an active admin there is one at every later moment, with updates, deletions, bootstraps and unlocked operations interleaved |
| AdminLock.WorkKeepsAdmin | api/src/user/user.service.ts:245-295 | one database call of a holder keeps its earlier reads valid and keeps an active admin |
| AdminLock.StepKeepsWork | api/src/user/user.service.ts:184-243 | no step, unlocked user operations included, invalidates what a holder has read or takes away the last admin |
| AdminLock.TwoAdminsLeaveAnother | api/src/user/user.service.ts:276-295 | more than one active admin means another one remains besides any given user |
| AdminLock.LastAdminIsSafeExactlyWithin | api/src/user/admin-mutation-lock.repository.ts:9-45 | for every time bound: all runs whose holders are done by lockedAt + bound keep an active admin if and only if the bound is at most five minutes |
| AdminLock.LockIsExclusiveExactlyWithin | api/src/common/lock.repository.ts:70-76 | for every time bound: in all such runs at most one caller holds the lock if and only if the bound is at most five minutes |
| AdminLock.LateHolderLosesTheLastAdmin | api/src/user/admin-mutation-lock.repository.ts:9-45 | a run whose holders overrun by at most one millisecond, that starts with an active admin and ends with none |
| AdminLock.StepEndsSessions | api/src/user/user.repository.ts:158-235 | no row write lets a user disappear or a session version fall, and every write of another password raises the session version |
| AdminLock.OldSessionsStayEnded | api/src/user/user.repository.ts:194-226 | over every run, a user whose password differs from an earlier moment's has a greater session version than then, so sessions of that time stay ended |
| AdminProgress.EveryRowIsExplained | api/src/common/lock.repository.ts:48-128 | in every run, timely or not, at every moment: a lock row is the token of a caller that is inside, its process alive or crashed, or it was left behind by a call that took or released that token and failed |
| AdminProgress.ReleaseFrees | api/src/common/lock.repository.ts:82-128 | a release that succeeds removes the row with the caller's token, leaves any other, changes no user, and lets the caller finish |
| AdminProgress.WorkEndsInRelease | api/src/common/lock.repository.ts:86-117 | the end of a callback and each failure inside it lead to the release of the caller's own token |
| AdminProgress.FreeRowIsTaken | api/src/common/lock.repository.ts:48-68 | on a free row a caller is inside after two calls, with the time of its attempt as token |
| AdminProgress.HeldRowCostsAnAttempt | api/src/common/lock.repository.ts:56-80 | a held row that is fresh stays and one that is stale goes, and either costs one attempt |
| AdminProgress.FiftyAttempts | api/src/user/admin-mutation-lock.repository.ts:31-45 | an operation is refused for lack of the lock after 50 attempts and not before |
| AdminProgress.LeavingLetsTheNextIn | api/src/common/lock.repository.ts:33-46 | a caller that is done, however it went, lets the next of its process in |
| AdminProgress.UpdateDoes | api/src/user/user.service.ts:123-182 | an update under the lock goes through exactly when the user exists, is not the actor losing its own rights, and is not the only active admin losing them; it sets the named fields of that row and nothing else |
| AdminProgress.DeleteDoes | api/src/user/user.service.ts:251-296 | an account is deactivated exactly when it exists and is not the only active admin; exactly that row changes, and its sessions end |
| AdminProgress.UnlockedDo | api/src/user/user.repository.ts:134-213 | which row each operation outside the lock writes, and that it touches neither the lock nor another row |
| AdminProgress.BootstrapLeavesTheAdmin | api/src/auth/admin-bootstrap.service.ts:76-155 | in every timely run, when a bootstrap of a process has written its last row, there is an active admin with the configured email, whatever other callers and unlocked operations did in between |
| AdminProgress.PromotionsDo | api/src/auth/admin-bootstrap.service.ts:85-95 | bootstrap's promotion calls, one for each listed row, make exactly these rows admins |
| AdminProgress.SyncDoes | api/src/auth/admin-bootstrap.service.ts:133-155 | bootstrap's last call under the lock: what it writes to the matched row, and that a row in order is not written |
| AdminUsers.NormalizeIsIdempotent | api/src/auth/admin-bootstrap.service.ts:97-101 | normalising an email twice is normalising it once, which the comparison with stored emails relies on |
| AdminUsers.SameEmailExactlyWhen | api/src/auth/admin-bootstrap.service.ts:97-101 | two emails are the same exactly when, without white space around them, they agree character by character up to the case of letters |
| AdminBootstrap.UserTable.SyncConfiguredRootAdmin | api/src/auth/admin-bootstrap.service.ts:76-112 | from any valid table the result is settled (configured email, active admin, password verifies, nothing left to promote), nobody loses admin rights, every row but the first one with the configured email is promoted if marked and else untouched, at most one row is new; a settled table is left alone without any write |
| AdminBootstrap.UserTable.PromoteFromMetadata | api/src/auth/admin-bootstrap.service.ts:85-95 | exactly the rows marked as admin in their metadata are promoted |
| AdminBootstrap.UserTable.CreateConfiguredFirstAdmin | api/src/auth/admin-bootstrap.service.ts:62-74 | in an empty table the first row settles it |
| AdminBootstrap.UserTable.CreateConfiguredRootAdmin | api/src/auth/admin-bootstrap.service.ts:114-131 | when no row has the email, the new row settles the table and unique columns stay unique |
| AdminBootstrap.UserTable.SyncConfiguredRow | api/src/auth/admin-bootstrap.service.ts:133-155 | the matched row ends active, admin and with a verifying password; a row in order is not written |
| AdminBootstrap.UniqueUsername | api/src/auth/admin-bootstrap.service.ts:39-53 | the name is the first candidate that no user has, found after at most one more candidate than there are users |
| AdminBootstrap.CandidatesDiffer | api/src/auth/admin-bootstrap.service.ts:46-51 | the generated names are pairwise different |
| AdminBootstrap.CandidateNames | api/src/auth/admin-bootstrap.service.ts:46-51 | the candidates are the base, base-admin, base-admin-2 and so on |
| AdminBootstrap.UsernameIsLocalPart | api/src/auth/admin-bootstrap.service.ts:35-37 | the base is what stands before the first at sign, without white space around it, or the email when that is blank |
| AdminBootstrap.PromotionKeepsKeys | api/src/user/user.repository.ts:228-235 | the promotions keep rows and unique columns, leave nothing to promote, and are no change when there was nothing |
| LogLines.ReadFileOnePass | api/src/logs/logs.service.ts:216-318 | line-by-line reading with its early stop and leftover rule equals one pass: filter, skip the offset, window, cut at the limit |
| LogsService.LogsService.StreamFiltered | api/src/logs/logs.service.ts:216-318 | the entries appended and the skip count are those of reading the whole text, for every partition into chunks |
| LogsService.LogsService.ReadCompleteLines | api/src/logs/logs.service.ts:237-278 | the loop over a chunk's complete lines, state for state, with its early return |
| LogsService.LogsService.TailFiltered | api/src/logs/logs.service.ts:322-392 | appends the entries of the last 512 KiB without the first, partial line, keeps the last `limit`, and reports whether the file was cut |
| LogsService.LogsService.ReadDay | api/src/logs/logs.service.ts:146-187 | one day of latest mode: metrics stream, tail, full-read fallback and trimming |
| LogsService.LogsService.CollectViews | api/src/logs/logs.service.ts:142-190 | the loop over the days, newest first, that stops once more than offset+limit entries are there |
| LogsService.LogsService.GetLatestLogs | api/src/logs/logs.service.ts:135-198 | the page over the collected days, newest first, and hasMore |
| LogsService.LogsService.GetLogs | api/src/logs/logs.service.ts:76-122 | date and range mode: which reader is used, the page it gives, and hasMore; an empty date list is an error |
| LogsService.LogsService.GetNewestOfRange | api/src/logs/logs.service.ts:97-110 | the descending range reads at most max(offset+limit, 10000) entries, reverses, skips and cuts |
| LogsService.LogsService.StreamRange | api/src/logs/logs.service.ts:111-118 | the loop over days with one shared page is one pass over all days' lines, although it stops early |
| LogsService.RangeStep | api/src/logs/logs.service.ts:112-116 | streaming one more day onto a page that is not full continues the one pass |
| LogsService.FullRange | api/src/logs/logs.service.ts:115 | days after a full page add nothing to it |
| LogsService.OnePassAppend | api/src/logs/logs.service.ts:96-116 | reading two runs of lines one after the other is reading them in one go |
| LogLines.TailIsSuffix | api/src/logs/logs.service.ts:361-363 | dropping the first piece of a text cut anywhere gives a suffix of the text's lines |
| LogMeaning.EntryExactlyWhen | api/src/logs/logs.service.ts:237-297 | a day has an entry exactly when some line of its text has a character that is not white space, is a metric line if metrics are asked for, normalises to the entry, and lies within the window's bounds if there is a window and the entry has a time |
| LogMeaning.DayIsGiven | api/src/logs/logs.service.ts:237-297 | a day's entries are those of its lines, in the file's order and as often as they occur |
| LogMeaning.TailIsGiven | api/src/logs/logs.service.ts:369-383 | the same for a text read from its tail, for queries that do not ask for metrics |
| LogMeaning.RangeIsDayByDay | api/src/logs/logs.service.ts:111-118 | the entries of a range are the days' entries one day after the other, in the order of the dates |
| LogMeaning.PageComesFromLines | api/src/logs/logs.service.ts:76-122 | every entry of a page, in single-day, ascending, descending and metrics mode, comes from such a line of one of the days asked for |
| LogMeaning.LatestComesFromLines | api/src/logs/logs.service.ts:135-198 | the same for latest mode |
| LogMeaning.MetricsPage | api/src/logs/logs.service.ts:76-122 | which slice of the range a metrics query gives, in either order |
| LogMeaning.WindowedPage | api/src/logs/logs.service.ts:237-297 | with a time window the offset counts lines before the window is applied; the page has the first `limit` entries behind it |
| LogMeaning.SingleDayPageExactly | api/src/logs/logs.service.ts:76-93 | a single-day page is the day's last `limit` entries, reversed or not as asked, when the day fits the tail or the tail has that many |
| LogPaging.TailIsSuffixOfDay | api/src/logs/logs.service.ts:322-392 | the tail's entries are a suffix of the day's, all of them when nothing was cut, and agree on every last n |
| LogPaging.LatestIsSimple | api/src/logs/logs.service.ts:135-198 | hasMore holds exactly when more than offset+limit entries exist, always; the page is reverse(all)[offset..offset+limit] when the needed days are exact |
| LogPaging.LatestExactlyWhen | api/src/logs/logs.service.ts:161-187 | for pairwise different entries the page is the simple form if and only if the needed days are exact |
| LogPaging.MetricsAreExact | api/src/logs/logs.service.ts:149-158 | for metrics every day is exact, so the page is the simple form without condition |
| LogPaging.InexactView | api/src/logs/logs.service.ts:167-180 | what latest mode sees of a day that is not exact |
| LogPaging.NewestOfRangeExactlyWhen | api/src/logs/logs.service.ts:101-110 | the capped descending page is the simple form for at most max(offset+limit, 10000) entries, and for different entries only then |
| LogPaging.DescendingRangeExactlyWhen | api/src/logs/logs.service.ts:97-110 | a descending range over files is the simple form for at most max(offset+limit, 10000) entries, and for pairwise different entries only then |
| LogWitness.LongRangeIsCut | api/src/logs/logs.service.ts:97-110 | for every day of more than 10000 lines in a range of two: the newest entry shown is line 10000, the simple form's is the last line |
| LogWitness.RangeMissesTheNewest | api/src/logs/logs.service.ts:97-110 | a range of numbered, pairwise different lines on which the descending page is wrong |
| LogPaging.AscendingPageIsSlice | api/src/logs/logs.service.ts:111-116 | without metrics and time window an ascending page is the slice [offset..offset+limit] of the range |
| LogPaging.FollowHasMore | api/src/logs/logs.service.ts:111-122 | a client that asks again with offset += limit while hasMore holds gets every entry exactly once, in order, and stops |
| LogWitness.LongLastLineIsMissed | api/src/logs/logs.service.ts:161-187 | for every day of at least 10000 lines before a last line as long as the tail, and any line handling: latest mode's newest entry is line 10000, the simple form's is the last line |
| LogWitness.LatestMissesTheNewest | api/src/logs/logs.service.ts:161-187 | a day of numbered, pairwise different lines on which a needed day is not exact and the page is wrong |
| LogPaging.FullPageExactlyWhen | api/src/logs/logs.service.ts:231-318 | with a page that is full on entry, reading a file is the one-pass form if and only if no complete counted line behind the offset falls in the time window |
| LogPaging.FullPageOnEntry | api/src/logs/logs.service.ts:272-297 | an instance: a page that is full on entry takes one more complete line but not a leftover |
| LogPaging.SingleDayIsSuffix | api/src/logs/logs.service.ts:89-93 | a single-date page is a suffix of the day's entries in file order |
| BotState.BotStateService.DeleteKey | api/src/bot-state/bot-state.service.ts:257-334 | result and store of one deletion for every interference by other writers and every failing call |
| BotState.BotStateService.Download | api/src/bot-state/bot-state.service.ts:387-435 | the etag of the first stat together with the files of the get, or why there are none |
| BotState.BotStateService.Upload | api/src/bot-state/bot-state.service.ts:454-569 | the comparison with the second stat's etag, and the put or removal after the window |
| BotState.ResultExactlyWhen | api/src/bot-state/bot-state.service.ts:257-334 | for valid ids and every combination of failing calls: false exactly when there is no object at the first stat or the archive that was read has no file of the key; a conflict exactly when it has one and the second stat gives another etag, or no object while other keys are left; true and a storage error exactly in the cases stated |
| BotState.MalformedIsRefused | api/src/bot-state/bot-state.service.ts:257-290 | an invalid bot id and an invalid key are refused, each with its error, and leave the store alone |
| BotState.TrueWrites | api/src/bot-state/bot-state.service.ts:510-569 | what the store holds after a true result: the other keys' files under a new etag, or nothing when none was left |
| BotState.SameEtagSameObject | api/src/bot-state/bot-state.service.ts:529-545 | equal etags before and after other writers' calls mean that none of them wrote in between |
| BotState.NoWriteUnlessTrue | api/src/bot-state/bot-state.service.ts:257-334 | an error, a conflict or a false leaves the store as the other writers made it |
| BotState.TrueMeansUndisturbed | api/src/bot-state/bot-state.service.ts:529-545 | a true result on an object present at the second stat means that first stat, get and second stat saw the same version |
| BotState.TrueMeansDeleted | api/src/bot-state/bot-state.service.ts:454-569 | with a quiet window a true result turns the state into itself minus the key, except exactly when the last key's removal failed |
| BotState.WindowIsErased | api/src/bot-state/bot-state.service.ts:454-569 | for every store and every window, a true result leaves the second stat's state minus the key (nothing, when the object was gone by then), whatever was written in between; a removal that failed leaves what the window made |
| BotState.DeletionIsRightExactlyWhen | api/src/bot-state/bot-state.service.ts:454-569 | a true result is the state just before the write minus the key if and only if the window left the other keys alone (after a failed removal: if and only if it left no file of the key) |
| BotState.FailedRemovalReportsTrue | api/src/bot-state/bot-state.service.ts:518-526 | for every valid key, deleting it as the last one with a failing removal gives true and an unchanged store |
| BotState.WindowLosesAnUpdate | api/src/bot-state/bot-state.service.ts:529-569 | an instance, for all keys: a key added in the window is gone although the deletion reports true |
| FanOut.StepKeepsInv | api/src/logs/logs.controller.ts:104-168 | every event (arrival, history, subscription, join, close, keepalive, message) keeps the registry's invariant |
| FanOut.RegistryIsExact | api/src/logs/logs.controller.ts:302-368 | at every point of every run: one live subscription exactly for the bots in the active map, each with a connected client, none closed twice, no pending creation between events |
| FanOut.EachMessageOnce | api/src/logs/logs.controller.ts:323-349 | a published message is appended once to every live member of its bot and to nobody else |
| FanOut.ReceivedIsHeard | api/src/logs/logs.controller.ts:104-168 | over every run, a client has received exactly the messages of its bot published while it was a live member, in order |
| FanOut.UnwarnedExactlyWhen | api/src/logs/logs.controller.ts:246-263 | over every run, a streaming client was warned once if it has no subscription and did not wait for another's creation, and otherwise never |
| FanOut.AWaiterIsNotWarned | api/src/logs/logs.controller.ts:246-263 | a run in which a waiting client ends up without live updates and without a warning |
| FanOut.OnlyPublishDelivers | api/src/logs/logs.controller.ts:331-341 | no other event changes what a client has received |
| FanOutEvents.RefusedIsOut | api/src/logs/logs.controller.ts:147-148 | over every run: after a history that refuses access, the client's response is ended, it is in no live subscription's set and has received nothing, at every later moment |
| FanOutEvents.OnlyAdmittedStream | api/src/logs/logs.controller.ts:147-167 | over every run: a client that subscribes, waits or streams was granted access by its history before |
| FanOutEvents.NothingHeardBefore | api/src/logs/logs.controller.ts:104-168 | over every run: a client has received nothing before its history was answered |
| FanOutEvents.AdmittedGoesLive | api/src/logs/logs.controller.ts:146-168 | a connected client with access, whose bot is active or can be subscribed, is a live member after the remaining steps |
| FanOutEvents.WaiterGoesLive | api/src/logs/logs.controller.ts:247-263 | over every run: a client that waited for a creation that went well gets that very subscription, which is still the active one, and becomes a live member of it |
| FanOutEvents.PendingDoneDoes | api/src/logs/logs.controller.ts:249-263 | a waiter goes on with the bot's active subscription if there is one, and without any otherwise; nothing else changes |
| FanOutEvents.ResumeDoes | api/src/logs/logs.controller.ts:234-272 | the step after the history: join an active subscription, wait for a pending one, or create one |
| FanOutEvents.LateResumeDoes | api/src/logs/logs.controller.ts:150-154 | a client that left during its history does not subscribe |
| FanOutEvents.JoinDoes | api/src/logs/logs.controller.ts:274-300 | after joining the client is in the set and its keepalive runs |
| FanOutEvents.CloseDoes | api/src/logs/logs.controller.ts:131-144 | after a close the client is in no live set, its keepalive is stopped, other clients keep their places |
| FanOutEvents.KeepaliveDoes | api/src/logs/logs.controller.ts:285-297 | a keepalive leaves a writable client alone and drops any other |
| FanOutEvents.PublishDoes | api/src/logs/logs.controller.ts:323-349 | after a publication exactly the writable clients of the bot's set remain, and the subscription closes exactly when none does |
| FanOut.PublishReaches | api/src/logs/logs.controller.ts:323-349 | what publishing does to subscriptions and clients, one live subscription after the other |
| FanOut.CleanupKeepsInv | api/src/logs/logs.controller.ts:131-143 | a closing client leaves the registry in order, whether it has joined or not |
| FanOut.JoinKeepsInv | api/src/logs/logs.controller.ts:274-300 | joining after the subscription was obtained keeps the registry in order |
| FanOut.LogsController.Cleanup | api/src/logs/logs.controller.ts:131-143 | the close handler on the static maps; between events it keeps the registry in order |
| FanOut.LogsController.StreamLogs | api/src/logs/logs.controller.ts:104-168 | the request's path through its steps, each in the state in which it resumes, with the exits for refused and disconnected clients |
| FanOut.LogsController.SendHistoricalLogs | api/src/logs/logs.controller.ts:178-232 | whether the request goes on, and the response ended when it does not |
| FanOut.LogsController.AwaitCreation | api/src/logs/logs.controller.ts:265-271 | the creator's continuation takes its pending creation out of the map |
| FanOut.LogsController.RemoveStaleClient | api/src/logs/logs.controller.ts:302-311 | removing a client, and closing the subscription of an empty set |
| FanOut.LogsController.GetOrCreateSubscription | api/src/logs/logs.controller.ts:234-272 | reuse, waiting for a pending creation, or creating; the registry stays in order |
| FanOut.LogsController.CreateSubscription | api/src/logs/logs.controller.ts:313-368 | the creation, with the creator in the set from the start, or the warning written to it |
| FanOut.LogsController.AwaitPending | api/src/logs/logs.controller.ts:249-263 | what a waiter does with the result: warn, or look the active map up again; the registry stays in order |
| FanOut.LogsController.SetupFanOut | api/src/logs/logs.controller.ts:274-300 | joining the set, unless the client has disconnected meanwhile; the registry stays in order |
| FanOut.LogsController.OnKeepalive | api/src/logs/logs.controller.ts:285-297 | a keepalive drops a client that cannot be written to; the registry stays in order |
| FanOut.LogsController.OnMessage | api/src/logs/logs.controller.ts:325-350 | the fan-out loop: write to each writable client once, drop the others, close an empty set; the registry stays in order |
| FanOut.LogsController.WriteAll | api/src/logs/logs.controller.ts:331-341 | the loop over the set's clients, for every order of the set |
| EnvFile.HasEnvKey | cli/internal/local/env.go:103-111 | true exactly when some line assigns the key |
| EnvFile.EnvValue | cli/internal/local/env.go:113-127 | the value of the first line that assigns the key, without comment; empty without such a line |
| EnvFile.RewriteLines | cli/internal/local/env.go:130-138 | afterwards every line that assigned the key is rewritten, all others stand, and the result says whether there was one |
| EnvFile.RewriteInto | cli/internal/local/env.go:132-138 | the loop that replaces lines in place |
| EnvFile.UpsertEnvValue | cli/internal/local/env.go:129-153 | the updated text, for rewritten and for appended keys |
| EnvFile.RewrittenLine | cli/internal/local/env.go:155-161 | a rewritten line assigns the key, reads back the value and keeps the comment |
| EnvFile.UpsertReadsBack | cli/internal/local/env.go:129-153 | after writing a valid value, the key reads as that value, for every text |
| EnvFile.UpsertFrame | cli/internal/local/env.go:129-153 | every other key reads as before |
| EnvFile.UpsertOverwrites | cli/internal/local/env.go:129-153 | writing twice gives the same text as writing the second value only |
| EnvFile.ComposeEnv.GenerateEnvFile | cli/internal/local/env.go:49-101 | a missing file gets the defaults, an existing one the missing blocks |
| EnvFile.GenerateCompletes | cli/internal/local/env.go:54-90 | afterwards the three required keys are there, and every key that was there reads as before |
| EnvFile.GenerateIsIdempotent | cli/internal/local/env.go:54-90 | a second run changes nothing |
| EnvFile.ComposeEnv.SetAdminCredentials | cli/internal/local/admin_env.go:54-84 | which input is refused, and the text after the two writes |
| EnvFile.ComposeEnv.SetAdminPassword | cli/internal/local/admin_env.go:25-50 | which input is refused, the need for a configured email, and the text afterwards |
| EnvFile.EmailIsValidValue | cli/internal/local/admin_env.go:104-112 | an accepted email is a value that reads back |
| EnvFile.CredentialsTakeEffect | cli/internal/local/admin_env.go:54-84 | after setting credentials both keys read back and all others read as before |
| EnvText.LineReads | cli/internal/local/env.go:103-127 | what a line assigns: key, equals sign, value between white space, and an optional comment, spelled out |
| EnvText.FirstLineDecides | cli/internal/local/env.go:113-127 | the first line that assigns the key gives the value |
| EnvText.ValueLineByLine | cli/internal/local/env.go:113-127 | how reading goes on from line to line |
| EnvText.RewritesLines | cli/internal/local/env.go:129-161 | every line that assigns the key becomes key=value and its old comment, every other line stays |
| EnvText.CommentIs | cli/internal/local/env.go:155-173 | the comment that is kept |
| EnvText.AppendsText | cli/internal/local/env.go:139-153 | a missing key is appended on a line of its own behind the unchanged text |
| EnvText.GenerateReads | cli/internal/local/env.go:54-90 | after generation over an existing file: a key that was there reads as before, a missing group id reads as the detected one, missing admin keys read as empty, and no other key is there that was not |
| EnvText.GenerateAppends | cli/internal/local/env.go:64-90 | the text after generation: the old text and behind it the block of the missing admin keys and the group id's block |
| EnvText.EmailIsAccepted | cli/internal/local/admin_env.go:104-112 | local part, at sign and a domain of two labels are accepted |
| EnvText.EmailIsRefused | cli/internal/local/admin_env.go:104-112 | without an at sign, or with an equals sign, number sign or newline, an email is refused |
| CustomBots.StepKeepsInv | api/src/custom-bot/custom-bot.service.ts:23-131 | every operation keeps: rows of a name share an owner and grow in version, references name existing rows |
| CustomBots.RunInvariant | api/src/custom-bot/custom-bot.service.ts:387-519 | the same over every sequence of operations |
| CustomBots.LatestIsMaximum | api/src/common/role-revision.repository.ts:234-252 | the latest row by createdAt carries the greatest version of its name |
| CustomBots.LatestAfterAnyRun | api/src/common/role-revision.repository.ts:234-252 | from empty tables on, the latest row has the owner of every row of its name and the greatest version by section 11 of Semantic Versioning 2.0.0 |
| CustomBots.UpdateGoesThroughExactlyWhen | api/src/custom-bot/custom-bot.service.ts:133-288 | an update is accepted exactly when the name has rows, all the caller's, and the version is later than all of them; the duplicate check never decides |
| CustomBots.PublishedIsLatest | api/src/custom-bot/custom-bot.service.ts:262-283 | a version that goes through is at once the latest of its name and the one its name and version find; other names keep their latest |
| CustomBots.OnlyOwnersChange | api/src/custom-bot/custom-bot.repository.ts:259-276 | a row goes only by its owner's deletion of its name, an instance changes only by its own user's call, and a removed instance is gone |
| CustomBots.UsedRowsStay | api/src/custom-bot/custom-bot.service.ts:404-426 | no operation removes a row that an instance refers to |
| CustomBots.MajorNeverChanges | api/src/bot/bot.service.ts:145-161 | over every run an instance keeps its owner and its major version |
| CustomBots.UpdateMatchesExactlyWhen | api/src/bot/bot.service.ts:163-176 | an updated instance refers to the row of its name and version exactly when it kept its name or changed its version |
| CustomBots.RunKeepsMatch | api/src/bot/bot.service.ts:130-176 | over runs whose updates keep the name or change the version, every instance refers to the row of its name and version |
| CustomBots.RenamingKeepsTheStaleRow | api/src/bot/bot.service.ts:166-176 | a run from empty tables, every operation accepted, after which an instance refers to another name's row |
| CustomBots.DeletionGoesThroughExactlyWhen | api/src/custom-bot/custom-bot.service.ts:387-426 | while references match, an existing version can be deleted exactly by its owner and when nothing deployed has its name and version; exactly that row goes |
| CustomBots.DeleteAllIsComplete | api/src/custom-bot/custom-bot.service.ts:452-496 | deleting a name removes exactly its rows, none of them in use |
| BotRules.PatternIs | api/src/custom-bot/custom-bot.schema.ts:33 | a version can be published exactly when it is three strings of digits joined by dots |
| BotRules.ParseIs | api/src/bot/bot.service.ts:337 | a version parses to three numbers exactly when it is these numbers printed, within semver's limits |
| BotRules.PrecedenceIs | api/src/custom-bot/custom-bot.repository.ts:255-257 | the first of major, minor and patch that differs decides, as a number, and precedence is a strict total order, so 1.0.0 comes before 1.0.1 and 1.9.0 before 1.10.0 (section 11 of Semantic Versioning 2.0.0) |
| BotRules.NewerIs | api/src/custom-bot/custom-bot.repository.ts:255-257 | a version is newer exactly when both parse and the current one precedes it |
| BotRules.CreateDoes | api/src/custom-bot/custom-bot.service.ts:23-131 | when a first publication is refused and why, and the row it adds |
| BotRules.UpdateDoes | api/src/custom-bot/custom-bot.service.ts:133-288 | when a new version is refused and why, in the order of the checks, and the row it adds |
| BotRules.DeleteVersionDoes | api/src/custom-bot/custom-bot.service.ts:387-450 | when deleting a version is refused and why, and the rows left |
| BotRules.DeleteAllDoes | api/src/custom-bot/custom-bot.service.ts:452-519 | when deleting a name is refused and why, and the rows left |
| BotRules.DeployDoes | api/src/bot/bot.service.ts:35-77 | a deployment goes through exactly when config and version are in order and the version is published; the new instance belongs to the deployer and refers to that version's row |
| BotRules.UpdateInstanceGoesThroughExactlyWhen | api/src/bot/bot.service.ts:130-176 | an instance update goes through exactly for a config in order, a published version and an unchanged major version, so a minor update does |
| BotRules.UpdateInstanceDoes | api/src/bot/bot.service.ts:163-176 | what an accepted update changes, and that it changes no other instance |
| BotRules.RemoveDoes | api/src/bot/bot.service.ts:229-295 | a removal takes exactly that instance |
| BotRules.MinorUpdatesGoThrough | api/src/bot/bot.service.ts:145-161 | an instance: 1.0.0 can become 1.1.0 in place and not 2.0.0 |
| CustomBots.BotServices.CreateCustomBot | api/src/custom-bot/custom-bot.service.ts:23-131 | error and tables after publishing a new name |
| CustomBots.BotServices.UpdateCustomBot | api/src/custom-bot/custom-bot.service.ts:133-288 | error and tables after publishing a version |
| CustomBots.BotServices.DeleteVersion | api/src/custom-bot/custom-bot.service.ts:387-450 | error and tables after deleting a version |
| CustomBots.BotServices.DeleteAllVersions | api/src/custom-bot/custom-bot.service.ts:452-519 | error and tables after deleting a name |
| CustomBots.BotServices.CountInstances | api/src/custom-bot/custom-bot.repository.ts:293-319 | one pass counts the instances of every id asked for |
| CustomBots.BotServices.Create | api/src/bot/bot.service.ts:35-77 | error and tables after a deployment |
| CustomBots.BotServices.Update | api/src/bot/bot.service.ts:130-176 | error and tables after an update of an instance |
| CustomBots.BotServices.Remove | api/src/bot/bot.service.ts:229-295 | the instance is gone, and a version is reported as orphaned exactly when no instance refers to it any more |
| Ignore.IgnoreParser.AddDefaultPatterns | cli/internal/ignore.go:73-98 | the default patterns, without trailing slashes, behind the old ones |
| Ignore.IgnoreParser.LoadIgnoreFile | cli/internal/ignore.go:30-70 | the patterns of the file's lines, behind the old ones |
| Ignore.IgnoreParser.IsIgnored | cli/internal/ignore.go:101-131 | never under a protected directory, else the verdict of the last pattern that matches |
| Ignore.IgnoreParser.IsProtected | cli/internal/ignore.go:108-113 | the loop over the protected directories |
| Ignore.IgnoreParser.LastMatch | cli/internal/ignore.go:115-130 | the loop over the patterns gives the verdict of the last one that matches |
| Ignore.VerdictByPosition | cli/internal/ignore.go:115-130 | a path is ignored exactly when some pattern ignores it and no later negation matches it |
| Ignore.NameMatches | cli/internal/ignore.go:134-202 | a plain name matches exactly the paths whose first or last component it is |
| Ignore.AnyDepthMatches | cli/internal/ignore.go:205-286 | `**/name` matches exactly the paths that have the name as a component |
| Ignore.EverythingBelowMatches | cli/internal/ignore.go:215-225 | `dir/**` matches every path that begins with the text of dir, and is exact only where no sibling begins with it |
| Ignore.SiblingIsMatched | cli/internal/ignore.go:215-225 | `build/**` matches `builder`, which is not below `build` |
| PatternRules.PatternIs | cli/internal/ignore.go:44-68 | white space around a pattern is dropped, and one slash behind it, which marks it as a directory's |
| PatternRules.NegationIs | cli/internal/ignore.go:44-68 | `!keep` is the negated pattern keep |
| PatternRules.NoPattern | cli/internal/ignore.go:44-50 | blank lines and comments give no pattern |
| PatternRules.ReadLinesInOrder | cli/internal/ignore.go:40-68 | the patterns come in the order of the lines |
| PatternRules.InnerSlashMatches | cli/internal/ignore.go:134-202 | a pattern with an inner slash and no star matches the path it spells and everything below it |
| PatternRules.StarMatches | cli/internal/ignore.go:134-202 | a pattern with stars, no two in a row, matches when filepath.Match accepts the path or one of its components, or the path lies, star and all, under the pattern's text or ends in it |
| PatternRules.StarAnyDepthMatches | cli/internal/ignore.go:205-286 | `**/` and a pattern with stars match when filepath.Match accepts the path from some component on |
| PatternRules.MiddleStarsMatch | cli/internal/ignore.go:205-286 | `dir/**/name` matches exactly the paths below dir that have the name as a component behind it |
| PatternRules.StarsBelowMatch | cli/internal/ignore.go:205-286 | `dir/**/` and a pattern with stars match below dir when filepath.Match accepts the rest of the path from some component on; dir itself counts as an empty rest or a dot |
| PatternRules.TwoDoubleStarsMatchNothing | cli/internal/ignore.go:205-213 | a pattern with two `**` matches nothing |
| ZipWalk.Archive.Walk | cli/internal/zip.go:36-98 | the pruned walk packs, in order, exactly the files that are not the archive and have no hidden or ignored prefix |
| ZipWalk.Archive.Visit | cli/internal/zip.go:41-97 | when the callback prunes and when it packs |
| ZipWalk.CreateBotZip | cli/internal/zip.go:19-101 | the archive of a whole directory |
| ZipWalk.ArchiveExactly | cli/internal/zip.go:36-98 | a name is in the archive exactly when a file lies at it, every component is visible, it is not the archive's own, and neither it nor a directory above it is ignored (directories with the archive's name excepted) |
| ZipWalk.ChosenExactlyWhen | cli/internal/zip.go:41-71 | the same condition for one path: a component that starts with a dot, anywhere, keeps the file out |
| ZipWalk.FilesExactly | cli/internal/zip.go:36-98 | the walk's list holds exactly the paths at which a file lies |
| ZipWalk.DependenciesArePacked | cli/internal/ignore.go:102-113 | every visible file below the root's vendor or node_modules is packed for every pattern list |
| ZipWalk.FrontendIsPackedExactlyWhen | cli/internal/ignore.go:102-113 | built frontend files are packed exactly when no pattern ignores the directory frontend itself |
| ZipWalk.FrontendPatternKeepsDistOut | cli/internal/ignore.go:102-113 | with the one pattern `frontend`, no built frontend file is packed, for every such path |
| ZipWalk.NamesKeepOutExactly | cli/internal/zip.go:57-71 | with plain names as patterns, exactly the files with such a component stay out, everywhere outside the protected directories |
| DockerFrames.CleanDockerLogOutput | cli/internal/vendor.go:179-210 | for any bytes the loop ends and writes what decoding gives |
| DockerFrames.DecodeEncode | cli/internal/vendor.go:179-210 | a complete stream of frames gives the payloads |
| DockerFrames.DecodeCut | cli/internal/vendor.go:183-207 | a stream cut anywhere gives the payload bytes before the cut, and only a cut inside a header adds bytes, those of the header |
| DockerFrames.SizeIsBigEndian | cli/internal/vendor.go:184-193 | the size is the number of the header's last four bytes, the most significant first |
| ConfigFilter.FilterObjectProperties | api/src/bot/bot.validator.ts:97-128 | the loop that fills the filtered object |
| ConfigFilter.FilterConfigForSchema | api/src/bot/bot.validator.ts:79-95 | only closed schemas with properties filter |
| ConfigFilter.FilteredIsClean | api/src/bot/bot.validator.ts:97-128 | no undeclared key is left at any level that closed schemas reach |
| ConfigFilter.UnchangedExactlyWhen | api/src/bot/bot.validator.ts:97-128 | a value is unchanged exactly when it had no undeclared key |
| ConfigFilter.KeepsAllowedPathsExactly | api/src/bot/bot.validator.ts:105-125 | the paths left are exactly the allowed ones of the original, with the same values at their ends |
| ConfigFilter.PreparedTwice | api/src/bot/bot.validator.ts:79-95 | preparing a configuration twice is preparing it once |
| ConfigFilter.PreparedKeeps | api/src/bot/bot.validator.ts:79-95 | a configuration is unchanged when its schema is not closed or declares no properties |
| ConfigFilter.OpenValuesStay | api/src/bot/bot.validator.ts:97-128 | values below such a schema stay as they are |

## Left out

- The lock repository's fields and promises: the lock and the user operations are a step system on values, because what matters is how the calls of many processes interleave. Checks that only make an operation fail early (unknown user, taken email or user name, wrong password) are failures of a call there.
- Under the lock, the order in which bootstrap's queries list rows, the row they match and the outcome of the password comparison are open choices; AdminBootstrap has them exactly, without interleaving.
- AdminUsers.NormalizeIsIdempotent: lower-casing covers ASCII letters only.
- White space trimmed by JavaScript in user names and emails is taken to be the set Go trims.
- LogPaging.SingleDayIsSuffix: says nothing about the order promised by the comment or about the offset, which the code ignores on this path.
- LogPaging.AscendingPageIsSlice: not stated for a datetime window, where the offset is counted before the window test and pages do not tile.
- Characters stand for bytes: a UTF-8 character split between two chunks, or by the start of a tail read, is not modelled. File sizes count characters.
- Storage errors other than "not found" while reading logs end the request and are not modelled; neither are ownership checks and date parsing in front of it (GetLogs receives the list of days).
- streamLogs refuses a malformed bot id before any of the steps modelled in FanOut.
- clearState of the bot-state service is a removal by another writer in BotState; listKeys, getKey, and packing and unpacking archives are not modelled.
- MCP handlers, which write bots without the checks of BotService, and events published to NATS.
- SQLite stores seconds: two publications within one second would not have increasing createdAt.
- The checks of a bot's config schema (ajv, cron) and of its ZIP are outcomes given to the operations of CustomBots.
- Versions with prerelease or build parts: the pattern for published versions refuses them, so an instance can never name one.
- filepath.Match is a parameter; ignore lines too long for the scanner, unreadable files and directories, and links are not modelled.
- formatFileSize, whose result is a floating-point rendering.
- ConfigFilter.FilterObjectProperties: names inherited from Object.prototype, and values that are not JSON.
- The text of the default `.env` file is a parameter of GenerateEnvFile, and so is the detected group id.
