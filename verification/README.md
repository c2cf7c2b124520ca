# Verified models of the social network's services

The services of this social network are mostly plumbing around storage, but some of them hold algorithms and
state machines whose guarantees are easy to believe and hard to check. This project models those parts in Dafny and
proves what they promise. `dafny verify dfyconfig.toml` checks everything.

| files | what they model |
|---|---|
| `LoginLockout`, `EmailLimit`, `RateLimit` | limiters built from counters, sorted sets and ban keys that expire |
| `Pixels`, `Orientation`, `Resize`, `Exif` | the image preprocessor: EXIF orientation, the eight turns, bilinear resizing |
| `ConfigRules`, `ConfigStore`, `ConfigCache`, `ConfigProtocol` | runtime configuration: validated rows with optimistic locking and audits, the cache, the polling reader, and all of them interleaved |
| `CallState`, `Presence`, `ReadState`, `PreKeys` | chat: call membership, connections and presence, read and unread messages, one-time prekeys |
| `PasswordReset`, `TokenRevocation` | credentials that may be used once, and credentials that are withdrawn |
| `AdBudget`, `PathNormalizer`, `PathSettling`, `PostFiles` | advertising budgets, route patterns, attachment edits |
| `Helpers` | finite sets, digits, iteration |
| `Keyspace` | expiring keys: a key set at `t` for `d` is visible before `t + d` and not from then on |

**How the models are built.** Code that updates state is a class with the source's fields, or a method with the source's
loops. Its postcondition says outright, in terms of the old fields and in plain numbers, when each reply is given and
what the new state is; it also ties both to a step function on values, and everything about runs is proved of that
function by induction over the list of steps. Time is a parameter of every call, in nanoseconds. Each handler is one
step, except that the configuration model interleaves the commit, the cache write, each command of a
resynchronisation and the refresh, any of which may fail or be lost, and the prekey model interleaves single database
commands.

**Where a promise does not hold.** Each of these is proved, with the exact condition where there is one.

* The gateway limit is counted in milliseconds. A window of nanoseconds can admit one request more than the limit
  unless it starts on a whole millisecond (`RateLimit.BoundedExactly`).
* The anti-fraud key of an interaction holds the campaign id as the request spells it, so one visitor is charged again at
  once under another spelling of the same id (`AdBudget.ChargedAgainExactly`, `AdBudget.OneClickChargedTwice`).
* Refreshing looks only at a revocation key of seven days. Logout covers every refresh token it is given exactly because the
  configured refresh duration is not longer than that (`TokenRevocation.RefreshRevokedExactly`, `TokenRevocation.CoveredExactly`).
* Answering a group call moves a user who is in another call without taking him out of it; ending the old call then frees
  him from the new one (`CallState.ExclusiveKeptExactly`, `CallState.EndingCanFreeAnotherCall`).
* Subscribing to a chat has no membership check, so an outsider can clear the unread number of its members
  (`ReadState.OthersKeepTheirCountExactly`, `ReadState.OutsiderClearsUnread`).
* A user who once had two connections at the same time is still reported online after leaving
  (`Presence.PresenceReported`).
* A file that an edit both deletes and adds again is reported for deletion although it is still attached
  (`PostFiles.ReportedFilesAreGoneExactly`); this concerns the branch for posts that are not shared.
* Five wrong passwords are the most in 15 minutes exactly if no counter below four is live at their start that expires
  within them; in general they are eight, and four more for each right one in between
  (`LoginLockout.FiveAtMostExactly`, `LoginLockout.FailuresBoundedByAcceptances`, `LoginLockout.RoomReached`).
* Changing a password withdraws the one code that was used. Other verified codes of the account stay usable, so an
  older code can change the password after a newer one
  (`PasswordReset.ChangeWithdrawsOnlyItsCode`, `PasswordReset.OlderCodeChangesLast`).
* Two updates may write the cache in the wrong order, and it then stays stale although nothing was lost
  (`ConfigProtocol.CacheIsFreshExactly`, `ConfigProtocol.DrainedCacheCanBeStale`).
* Logout withdraws the two tokens it is given. Other access tokens of the session live on until they expire
  (`TokenRevocation.RevokedExactlyIfPresented`, `TokenRevocation.OtherAccessTokensLiveOut`).
* The query that reads a post for editing answers that every post is shared, so the branch that edits attachments never
  runs: added files are lost and requests to change only files are refused
  (`PostFiles.FlagIsHarmlessExactly`, `PostFiles.AddedFileIsLost`).
* Normalising a path is not idempotent for a path that keeps a slash at its end and for an update route that looks like an
  identifier; repeating it always ends (`PathNormalizer.NormalizeTwice`, `PathSettling.EveryPathSettles`).

## Model

| member | source | states |
|---|---|---|
| LoginLockout.LoginGuard.ValidateLogin | auth-service/service/login.go:53-82 | exactly when it lets a login through, and which check refuses it: unverified, suspended, or a live lock key with its remaining time |
| LoginLockout.LoginGuard.ProcessLoginFailed | auth-service/service/login.go:84-110 | from four live failures on the lock key for 15 minutes in place of the counter; below that one failure more, which lives on or starts 15 minutes, and the attempts left; no other account is touched |
| LoginLockout.LoginGuard.ProcessLoginSucceeded | auth-service/service/login.go:112-117 | both keys of this account are gone, every other account is as it was |
| LoginLockout.LoginGuard.Login | auth-service/service/login.go:121-187 | an equivalence for each outcome: logged in if and only if verified, unsuspended, unlocked, right password, and second factor off or right; attempts left and lock time in terms of the two keys |
| LoginLockout.FailuresBoundedByAcceptances | auth-service/service/login.go:53-117 | over every run, with no condition: at most 8 failed comparisons in any half-open 15 minutes, and 4 more for each password accepted in them |
| LoginLockout.AtMostEightFailures | auth-service/service/login.go:53-110 | over every run, at most 2 * 5 - 2 failed comparisons fall in any half-open 15 minutes in which no password is accepted |
| LoginLockout.EightFailuresReached | auth-service/service/login.go:84-110 | the bound of eight is reached by a run on a fresh account, so it cannot be lowered |
| LoginLockout.AcceptedPasswordsLiftTheBound | auth-service/service/login.go:112-117 | the unconditional bound 8 + 4k is reached on a fresh account for every number k of accepted passwords |
| LoginLockout.RoomReached | auth-service/service/login.go:84-117 | from every phase of the two keys the most failures that the bound leaves room for are really made by some run, with every number of acceptances that phase allows |
| LoginLockout.FiveAtMostExactly | auth-service/service/login.go:84-110 | five failures are the most in the 15 minutes after an instant, none accepted, if and only if no counter below four is live then that expires within them |
| LoginLockout.LockHolds | auth-service/service/login.go:53-82 | while a lock lives nothing is compared, nothing removes it and nothing prolongs it |
| LoginLockout.CounterCountsFailures | auth-service/service/login.go:84-110 | a live counter never exceeds four nor the failures of the window that it covers |
| LoginLockout.LockNeedsFiveFailures | auth-service/service/login.go:84-110 | an account is locked only by a failure that is at least the fifth within the 15 minutes ending with it |
| LoginLockout.EachLoginNeedsTheRightCode | auth-service/service/login.go:121-187 | over every run of an account whose second factor is on, logins = accepted passwords that came with the right code |
| LoginLockout.RightfulLoginSucceeds | auth-service/service/login.go:53-187 | over every run, the right password and code log in unless some 15 minutes of the last 30 hold five failures |
| EmailLimit.EmailLimiter.CheckEmailRateLimit | auth-service/service/auth_service.go:30-60 | an unknown address passes; otherwise the live counter decides and counts one more, and the first e-mail starts its lifetime; no other address is touched |
| EmailLimit.AtMostTwiceTheLimit | auth-service/service/auth_service.go:30-60 | over every run at most 2L - 1 e-mails per address in any half-open window of the counter lifetime, none if L is not positive |
| EmailLimit.TwiceTheLimitReached | auth-service/service/auth_service.go:30-60 | 2L - 1 is reached for every limit and every lifetime of at least two ticks |
| RateLimit.RateLimiter.Handle | api-gateway/middleware/rate_limit.go:74-147 | forbidden exactly while the ban key lives, admitted exactly up to the limit, banned for five minutes exactly above one and a half times the limit and not on loopback, where the count is that of the requests of the window in the full history |
| RateLimit.TrimmedIsRecent | api-gateway/middleware/rate_limit.go:76-88 | what survives expiry and trimming is exactly the set of earlier requests of the window: the expiry never drops a live member |
| RateLimit.SetsFollowNext | api-gateway/middleware/rate_limit.go:83-92 | adding the member and renewing the expiry keeps every set in step with the history |
| RateLimit.RateLimiter.Execute | api-gateway/middleware/rate_limit.go:84-92 | the pipeline answers whether a ban lives and how many requests of the history fall in the window, and keeps the sets in step with it |
| RateLimit.VerdictAnswers | api-gateway/middleware/rate_limit.go:99-149 | the answers of the history in numbers: forbidden, admitted, banned when 2n > 3 * limit |
| RateLimit.AtMostLimitAdmitted | api-gateway/middleware/rate_limit.go:109-121 | over every run at most `limit` requests per key are admitted in any window of milliseconds, if its routes have at most that limit |
| RateLimit.BoundedExactly | api-gateway/middleware/rate_limit.go:75-92 | a window counted in nanoseconds is bounded by the limit if and only if it starts on a whole millisecond or nothing is admitted at all |
| RateLimit.StraddleAdmitsMore | api-gateway/middleware/rate_limit.go:75-92 | for any other start a concrete run admits limit + 1 requests in the window |
| RateLimit.ForbiddenExactly | api-gateway/middleware/rate_limit.go:99-107 | a request is forbidden exactly when its identifier was banned less than five minutes before, on whatever route with whatever limit |
| RateLimit.BansFiveMinutesApart | api-gateway/middleware/rate_limit.go:121-129 | bans are never prolonged: two bans of one identifier are at least five minutes apart |
| RateLimit.LoopbackNeverForbidden | api-gateway/middleware/rate_limit.go:121-129 | loopback clients are never banned and never forbidden |
| Orientation.EachPixelWrittenOnce | ai-service/imaging/processor.go:206-270 | each loop writes every destination pixel, and writes it from exactly one source pixel |
| Orientation.WriteThenRead | ai-service/imaging/processor.go:206-270 | reading back where a pixel was written gives that pixel; the target lies inside the destination |
| Orientation.ReadThenWrite | ai-service/imaging/processor.go:206-270 | writing where a destination pixel is read from gives that pixel; the source lies inside the picture |
| Orientation.WherePixelsGo | ai-service/imaging/processor.go:206-270 | where each of the seven turns takes the pixel (x, y), written out |
| Orientation.FlipHorizontal | ai-service/imaging/processor.go:211-218 | the two nested loops produce the picture turned by orientation 2 |
| Orientation.Rotate180 | ai-service/imaging/processor.go:219-226 | the same for orientation 3 |
| Orientation.FlipVertical | ai-service/imaging/processor.go:227-234 | the same for orientation 4 |
| Orientation.Transpose | ai-service/imaging/processor.go:235-242 | the same for orientation 5, which exchanges width and height |
| Orientation.Rotate90 | ai-service/imaging/processor.go:243-250 | the same for orientation 6 |
| Orientation.Transverse | ai-service/imaging/processor.go:251-258 | the same for orientation 7 |
| Orientation.Rotate270 | ai-service/imaging/processor.go:259-266 | the same for orientation 8 |
| Orientation.ApplyOrientation | ai-service/imaging/processor.go:206-270 | the result is the turned picture for 2..8 and the very same image object otherwise |
| Orientation.ComposeIsComposition | ai-service/imaging/processor.go:206-270 | applying two orientations one after the other is applying the one given by a fixed table, for every picture of every size |
| Orientation.InverseUndoes | ai-service/imaging/processor.go:206-270 | 2, 3, 4, 5 and 7 undo themselves, 6 and 8 undo each other |
| Orientation.OrientationsDiffer | ai-service/imaging/processor.go:206-270 | different orientations differ on some picture, so the group has eight elements |
| Orientation.ComposeAssociative | ai-service/imaging/processor.go:206-270 | the table is associative |
| Orientation.DihedralPresentation | ai-service/imaging/processor.go:206-270 | four quarter turns and two flips do nothing, a flip reverses the turn, and every orientation is an optional flip and some turns |
| Resize.TargetSize | ai-service/imaging/processor.go:75-98 | needed exactly if a side exceeds the limit (512 if it is not positive); the longer side becomes the limit and the shorter is the greatest whole length in proportion, compared by cross multiplication, or one |
| Resize.ExactBounds | ai-service/imaging/processor.go:83-91 | the exact proportional length lies between zero and both the limit and the original length |
| Resize.Neighbours | ai-service/imaging/processor.go:286-311 | the two positions blended on one axis are in range, and position plus weight is the sample centre (2i+1) * size / (2n) - 1/2, held inside the picture |
| Resize.PositionBounds | ai-service/imaging/processor.go:286-311 | sample centres stay less than half a pixel outside the picture |
| Resize.Channel | ai-service/imaging/processor.go:317-333 | each output channel lies between the least and the greatest of its four samples |
| Resize.ResizeBilinear | ai-service/imaging/processor.go:273-336 | every pixel of the result is the rounded value, at its sample centre, of every bilinear function that its neighbours lie on, also at the border, where the centre is held inside; blank when a source side is zero |
| Resize.ResizeInterpolates | ai-service/imaging/processor.go:286-336 | the specification of the loops has that property, for all sizes, components and functions |
| Resize.SlopeStaysASlope | ai-service/imaging/processor.go:286-336 | on a picture with the even slope a + b*x + c*y every pixel of the result is the rounded slope at its sample centre |
| Resize.BilinearStaysBilinear | ai-service/imaging/processor.go:286-336 | the same for every bilinear function |
| Resize.TapCentre | ai-service/imaging/processor.go:286-311 | neighbour plus weight is the sample centre held between the first and the last pixel |
| Resize.FourFromTwo | ai-service/imaging/processor.go:286-336 | two pixels 0 and 100 stretched to four are 0, 25, 75 and 100 |
| Resize.ResizeKeepsConstant | ai-service/imaging/processor.go:273-336 | a picture of one colour stays that colour at every size |
| Resize.ResizeToSameSize | ai-service/imaging/processor.go:273-336 | resizing to the present size changes nothing |
| Resize.TapMirrored | ai-service/imaging/processor.go:286-311 | seen from the other end an axis blends the same positions with exchanged weights |
| Resize.ResizeCommutesWithOrientation | ai-service/imaging/processor.go:66-98 | turning then resizing gives the very picture that resizing then turning gives, for all eight orientations and all sizes |
| Exif.Reader.ReadFull | ai-service/imaging/processor.go:111-164 | takes exactly n bytes or reports a short stream; never reads past the end |
| Exif.ParseTiffOrientation | ai-service/imaging/processor.go:166-203 | if the block is the written form of a well-formed directory the answer is its value, and if it is none the answer is 1 |
| Exif.SkipFill | ai-service/imaging/processor.go:123-136 | passes over any number of fill bytes and no other byte |
| Exif.ReadExifOrientation | ai-service/imaging/processor.go:111-164 | if the stream is the written form of a well-formed one around a well-formed block the answer is its value, and if there is none the answer is 1 |
| Exif.ReadDirectory | ai-service/imaging/processor.go:186-202 | the loop over the 12-byte entries of the first directory answers with the first orientation entry |
| Exif.ScanSegments | ai-service/imaging/processor.go:117-165 | the marker loop passes segments over until the Exif segment or the end |
| Exif.TiffReadBack | ai-service/imaging/processor.go:166-203 | in either byte order, whatever entries come first, the reader returns the value of the orientation entry that was written |
| Exif.JpegReadBack | ai-service/imaging/processor.go:111-164 | segments that are not Exif, with any fill bytes, are passed over and the Exif segment is read |
| Exif.OrientationReadBack | ai-service/imaging/processor.go:111-203 | for every well-formed stream around every well-formed block, the stored orientation is returned |
| Exif.TiffFound | ai-service/imaging/processor.go:166-203 | an answer other than 1 comes from a block that really is laid out that way and holds that value |
| Exif.OrientationFound | ai-service/imaging/processor.go:111-203 | the converse for whole streams: an answer other than 1 means the stream is a well-formed one holding that value |
| Exif.BlockAnswer | ai-service/imaging/processor.go:166-203 | every block holds one orientation, which is the answer, or none, and the answer is 1 |
| Exif.StreamAnswer | ai-service/imaging/processor.go:111-203 | every stream holds one orientation, which is the answer, or none, and the answer is 1 |
| Exif.BlockByNumbers | ai-service/imaging/processor.go:166-203 | blocks written out as byte numbers in both byte orders, tag 0x0112 first: the two bytes of the value |
| Exif.SegmentByNumbers | ai-service/imaging/processor.go:117-163 | a segment written out: 0xE1 with the six Exif bytes leads to the block, 0xD9 and 0xDA end the search, all else is passed over by its big-endian length |
| Exif.StreamByNumbers | ai-service/imaging/processor.go:111-203 | a whole stream written out as byte numbers answers 6 |
| Exif.OtherStreamsByNumbers | ai-service/imaging/processor.go:111-116 | a stream that does not start with FF D8 holds nothing and answers 1 |
| ConfigRules.ValidateValue | admin-service/service/runtime_config.go:144-174 | accepts exactly the values of the row type that satisfy the bounds and the enumeration; empty values only for text |
| ConfigRules.ValidateEnum | admin-service/service/runtime_config.go:187-199 | the loop accepts exactly the listed values, and everything when there is no list |
| ConfigRules.ValidateNumber | admin-service/service/runtime_config.go:176-185 | accepts exactly the numbers within the declared bounds |
| ConfigRules.ParseIntReadsBack | admin-service/service/runtime_config.go:150-154 | every decimal form, with or without sign, is read back if it fits in 64 bits and refused otherwise |
| ConfigStore.Repository.SeedDefaults | admin-service/repository/runtime_config_repository.go:81-102 | inserts each default only where its key is free, in order |
| ConfigStore.SeedingAddsFirsts | admin-service/repository/runtime_config_repository.go:81-102 | over every batch: rows that exist stay, and every other key named gets the first row named for it |
| ConfigStore.Repository.Create | admin-service/repository/runtime_config_repository.go:104-138 | refused exactly if the key exists; otherwise version 1 with its first audit record |
| ConfigStore.Repository.Update | admin-service/repository/runtime_config_repository.go:148-198 | when each error is answered; a stored reset leaves the default, a stored update the value asked for, one version later, with one audit record, and nothing else changes |
| ConfigStore.UpdateKeepsSound | admin-service/repository/runtime_config_repository.go:148-198 | every row keeps ending a gap-free chain of acceptable values |
| ConfigStore.ChainVersions | admin-service/repository/runtime_config_repository.go:148-198 | the i-th audit of a key carries the version of the row less the audits after it |
| ConfigStore.CommittedIsOldAndAccepted | admin-service/repository/runtime_config_repository.go:104-198 | no committed version is newer than the row and every committed value passes the validator of the row |
| ConfigStore.VersionNamesValue | admin-service/repository/runtime_config_repository.go:104-198 | a version of a key names one value for ever |
| ConfigProtocol.RowHoldsLastStored | admin-service/repository/runtime_config_repository.go:104-198 | after every run a row holds the default if the last stored request was a reset, the value of that request if it was an update, and what it was created with if there was none |
| ConfigCache.Cache.WriteRuntimeConfigCache | admin-service/service/runtime_config_cache.go:75-110 | every hash gains exactly the entries it should hold for the rows written, and the version key counts up by one |
| ConfigCache.Cache.WriteRuntimeConfigSnapshot | admin-service/service/runtime_config_cache.go:112-155 | the main hash and the scope hashes of the rows hold exactly the rows, every other hash is untouched, and the version key is the greatest row version |
| ConfigCache.SnapshotIsExact | admin-service/service/runtime_config_cache.go:112-155 | the pipeline replaces whatever was cached before by exactly the rows |
| ConfigCache.EntriesAreTheRows | admin-service/service/runtime_config_cache.go:112-159 | the main hash holds every row and the hash of a scope its own rows, none under the scope named all |
| ConfigCache.PutsAddEntries | admin-service/service/runtime_config_cache.go:75-110 | the two puts per row, in order, amount to merging the entries of each hash |
| ConfigCache.Provider.Refresh | internal/runtimeconfig/provider.go:47-73 | replaces the values and the time together, or nothing when the store cannot be reached |
| ConfigCache.Provider.EnsureFresh | internal/runtimeconfig/provider.go:110-122 | values are at most five seconds old whenever the store answers |
| ConfigCache.Provider.Lookup | internal/runtimeconfig/provider.go:87-100 | the value of the key after that refresh, or nothing |
| ConfigCache.Provider.LookupInt | internal/runtimeconfig/provider.go:75-85 | the parsed value after that refresh, at most five seconds old, or the fallback |
| ConfigProtocol.StepKeepsInv | admin-service/service/runtime_config.go:66-142 | every interleaved step of creating, updating, resetting, cache writing, dropping a write, synchronising and refreshing keeps the invariant |
| ConfigProtocol.AuditsFormChains | admin-service/repository/runtime_config_repository.go:104-198 | at every point of every run the audits of a key form a gap-free chain ending at the live row |
| ConfigProtocol.AtMostOneUpdatePerVersion | admin-service/repository/runtime_config_repository.go:148-198 | of all updates that expect one version of a key, at most one is ever stored |
| ConfigProtocol.CachedIsCommitted | admin-service/service/runtime_config_cache.go:75-155 | every cached value was committed under its version, is no newer than the row, passes its validator and lies in a right hash |
| ConfigProtocol.ReadIsCommitted | internal/runtimeconfig/provider.go:47-100 | the same of every value the polling reader answers with |
| ConfigProtocol.ReadIntsAreWithinBounds | internal/runtimeconfig/provider.go:75-85 | an integer setting read through the reader parses and lies within the bounds of its row |
| ConfigProtocol.CacheIsFreshExactly | admin-service/service/runtime_config_cache.go:75-155 | at every point of every run, whatever interleaves or is lost, the main hash equals the table if and only if for each row the last put of its key that reached the store carried its newest version |
| ConfigProtocol.DrainedCacheCanBeStale | admin-service/service/runtime_config.go:91-116 | a run in which nothing is lost and every write is done, and the cache keeps the older of two updates |
| ConfigProtocol.SyncRestoresTheTable | admin-service/service/runtime_config_cache.go:41-73 | an undisturbed synchronisation leaves the main hash equal to the table |
| ConfigProtocol.ShippedDefaultsAreLegal | admin-service/model/runtime_config.go:92-111 | an example of legal actions: seeding the integer settings that the service ships with |
| CallState.Calls.InitCall | chat-service/service/chat_service.go:2911-2936 | when each error is answered; otherwise exactly the pair of caller and callee, in this order, is ready for two minutes |
| CallState.Calls.StartGroupCall | chat-service/service/chat_service.go:2938-2989 | a free known caller is marked and joins both member sets |
| CallState.Calls.StartCall | chat-service/service/chat_service.go:2991-3062 | an equivalence for each reply: only two free known users, the caller ready for the callee, start; both are marked and join both member sets, nothing else changes |
| CallState.Calls.AnswerGroupCall | chat-service/service/chat_service.go:3080-3095 | the user of the id joins and is marked, whatever call he was in; an unknown id changes nothing |
| CallState.Calls.EndCall | chat-service/service/chat_service.go:3117-3171 | the loops clear the marks of the members, exactly their pairwise readiness, and both sets |
| CallState.Calls.EndCallByMemberUsername | chat-service/service/chat_service.go:3173-3182 | ends the call the user is marked in |
| CallState.StepKeepsInv | chat-service/service/chat_service.go:2888-3182 | a marked user is a member of the call he is marked in, and the id set of every call is exactly the ids of its members |
| CallState.RunKeepsInv | chat-service/service/chat_service.go:2888-3182 | the same after every run |
| CallState.EndCallClearsTheCall | chat-service/service/chat_service.go:3117-3171 | after any run, ending a call leaves nobody marked in it, no member, no id and no readiness between its members |
| CallState.EndByMemberFreesTheMember | chat-service/service/chat_service.go:3173-3182 | afterwards the user is marked exactly when his call has the empty name |
| CallState.DirectCallStartsExactly | chat-service/service/chat_service.go:2888-3062 | after any run a direct call starts if and only if both are free and known and the caller got ready for this callee less than two minutes before, no call of the two having ended since |
| CallState.ExclusiveKeptExactly | chat-service/service/chat_service.go:2938-3171 | a step keeps membership and mark equivalent if and only if it is not a group answer by a user marked in another call |
| CallState.CallsStayDisjoint | chat-service/service/chat_service.go:2938-3171 | in every run without such an answer, live calls never share a member |
| CallState.EndingCanFreeAnotherCall | chat-service/service/chat_service.go:3080-3171 | after such an answer, ending the old call frees the user although he is in the new one |
| CallState.PoachingRun | chat-service/service/chat_service.go:3080-3171 | a run of three operations that does so |
| Presence.Registry.RegisterClient | chat-service/service/chat_service.go:94-107 | the connection and its mutex are added and the counter goes up; the first one is counted and broadcast |
| Presence.Registry.UnregisterClient | chat-service/service/chat_service.go:109-128 | one connection and its mutex go; with the last one the user, his open chat and one of the counter go too |
| Presence.Registry.HandleRedisOnline | chat-service/service/chat_service.go:130-149 | the counter goes up by one; at one the user is counted online and broadcast |
| Presence.Registry.HandleRedisOffline | chat-service/service/chat_service.go:151-184 | the counter goes down by one; at zero or below it is removed and broadcast, and only at zero the online number falls |
| Presence.Registry.HandleSubscribe | chat-service/service/chat_service.go:332-342 | the open chat of the user |
| Presence.Registry.HandleUnsubscribe | chat-service/service/chat_service.go:345-353 | only the chat that is open is closed |
| Presence.RunKeepsInv | chat-service/service/chat_service.go:94-184 | after every run mutexes cover exactly the connections, no user has an empty or shared set, open chats belong to connected users, counters are positive |
| Presence.CounterIsHistory | chat-service/service/chat_service.go:130-184 | the counter is registrations less full disconnects, and exceeds being connected by the registrations made while already connected |
| Presence.PresenceReported | chat-service/service/chat_service.go:130-184 | a connected user is never reported offline; a disconnected one is reported offline if and only if he never had two connections at once |
| Presence.OnlineCountIsExact | chat-service/service/chat_service.go:130-184 | the online number is the number of users with a positive counter, and at least the number of connected users |
| Presence.OfflineOnlyWithoutConnections | chat-service/service/chat_service.go:109-184 | going offline finds a positive counter, so the negative branch is unreachable, and leaves neither connection nor open chat |
| ReadState.ChatService.ComputeInitialReadState | chat-service/service/chat_service.go:1547-1574 | exactly who has read a new message, and the status is READ exactly when somebody has |
| ReadState.ActiveMembersExactly | chat-service/service/chat_service.go:1560-1567 | the first readers in a group are exactly the other members who have the chat open |
| ReadState.ChatService.MarkMessagesAsRead | chat-service/service/chat_service.go:1709-1732 | in the chat every message the user did not send becomes READ with him among its readers once; nothing else changes |
| ReadState.ChatService.HandleSubscribe | chat-service/service/chat_service.go:332-342 | opening a chat marks it, without a membership check |
| ReadState.ChatService.DeleteMessage | chat-service/service/chat_service.go:2335-2362 | only the sender can delete |
| ReadState.MarkingClearsUnread | chat-service/service/chat_service.go:806-822 | marking a chat makes the unread number of the reader zero |
| ReadState.MarkingTakes | chat-service/service/chat_service.go:1709-1732 | marking takes from another user exactly the unread direct messages that the reader did not send, and nothing in other chats |
| ReadState.OthersKeepTheirCountExactly | chat-service/service/chat_service.go:1709-1732 | another unread number stays the same if and only if there is no such message |
| ReadState.MembersDoNotDisturb | chat-service/service/chat_service.go:1709-1732 | so in groups and in chats of two people nobody else is affected |
| ReadState.OutsiderClearsUnread | chat-service/service/chat_service.go:332-342 | an outsider who subscribes takes a message from the unread number of its recipient |
| ReadState.ReadNeverReverts | chat-service/service/chat_service.go:1724-1727 | over whole runs readers are only appended and a READ message stays READ |
| ReadState.StatusFollowsReaders | chat-service/service/chat_service.go:1547-1574 | after every run a message is READ exactly when somebody has read it or it is a system note |
| ReadState.OpenChatStaysReadExactly | chat-service/service/chat_service.go:1547-1574 | for a user with the chat open a step leaves nothing unread if and only if it is no call and no message sent past him |
| ReadState.OpenChatHasNothingUnread | chat-service/service/chat_service.go:332-342 | in every run without those, the chat a user has open has nothing unread |
| ReadState.SearchAgreesExactly | chat-service/service/chat_service.go:2542-2549 | when the unread filter of the search agrees with that of the chat list, for every message of every run |
| PreKeys.DocIdInjective | chat-service/service/e2e_service.go:128 | the document id is injective when user ids hold no colon, whatever device ids hold |
| PreKeys.ColonsCollide | chat-service/service/e2e_service.go:128 | with a colon in a user id two different users share an id |
| PreKeys.ChatKeys.InsertMany | chat-service/service/e2e_service.go:123-141 | the unordered bulk insert stores every free id and overwrites none |
| PreKeys.ChatKeys.FindOneAndDelete | chat-service/service/e2e_service.go:259-270 | removes and returns one matching key if there is one |
| PreKeys.ChatKeys.RegisterDeviceKeys | chat-service/service/e2e_service.go:94-144 | the device document is replaced; stored keys stay and every new one is an upload under the id user:device:number |
| PreKeys.ChatKeys.AddOneTimePreKeys | chat-service/service/e2e_service.go:146-170 | stored keys stay, every new one is an upload under the id user:device:number, and the number returned is the number stored for the device |
| PreKeys.ChatKeys.GetPreKeyBundle | chat-service/service/e2e_service.go:225-295 | a user without devices is not found; otherwise one key per device of the user that has one, all different, and exactly those are removed |
| PreKeys.ChatKeys.RevokeDevice | chat-service/service/e2e_service.go:297-306 | the device and exactly its keys are gone |
| PreKeys.UploadOverwritesNothing | chat-service/service/e2e_service.go:151-166 | an upload changes no stored key and stores every id it names |
| PreKeys.KeysAreConserved | chat-service/service/e2e_service.go:123-306 | under every interleaving: inserts = handed out + revoked + one if still stored, for every id |
| PreKeys.HandOutTakesTheKey | chat-service/service/e2e_service.go:245-289 | a key handed out was stored before and is not afterwards |
| PreKeys.NoKeyTwice | chat-service/service/e2e_service.go:245-289 | an id is handed out twice only if it was uploaded again in between: no stored key has two takers |
| PasswordReset.ResetService.ForgotPassword | auth-service/service/password.go:23-74 | when each error is answered; a live code is kept for 15 minutes more, otherwise a new pair of keys is stored |
| PasswordReset.ResetService.VerifyResetPassword | auth-service/service/password.go:76-123 | done exactly if the live token names the account of the address; the code is then exchanged for a verified key of 15 minutes |
| PasswordReset.ResetService.UpdatePassword | auth-service/service/password.go:125-175 | done exactly if the verified key lives; it stores the password given for the account of the address and uses the code up |
| PasswordReset.ResetService.ResetPassword | auth-service/service/password.go:179-235 | done exactly if the token lives; it stores the password given for the account of the token, and both keys are deleted |
| PasswordReset.StepKeepsPaired | auth-service/service/password.go:39-68 | every operation keeps live codes and live tokens mutually inverse |
| PasswordReset.LiveKeysArePaired | auth-service/service/password.go:39-232 | at every instant after any run live codes and tokens are mutually inverse and expire together, and a code is in one stage at a time |
| PasswordReset.OneLiveCodePerAccount | auth-service/service/password.go:39-68 | an account has at most one live code |
| PasswordReset.OneChangePerCode | auth-service/service/password.go:141-232 | each issued code causes at most one password change over any run, and only for the account it was issued for |
| PasswordReset.PasswordsFollowChanges | auth-service/service/password.go:141-232 | passwords change by recorded changes only |
| PasswordReset.PasswordsAreThoseAskedFor | auth-service/service/password.go:141-232 | over every run the passwords are those that the successful calls asked for, in their order, each for the account its code was issued to |
| PasswordReset.ChangeWithdrawsOnlyItsCode | auth-service/service/password.go:141-232 | after any run, a password change makes exactly the code it used unusable, and every other usable code stays so |
| PasswordReset.VerifiedCodeLivesExactly | auth-service/service/password.go:106-172 | a verified code can be used exactly until it has been used or 15 minutes have passed, whatever other codes changed meanwhile |
| PasswordReset.OlderCodeChangesLast | auth-service/service/password.go:39-172 | a run in which two codes of one account change its password, the older code last |
| TokenRevocation.AuthService.BlacklistToken | auth-service/service/login.go:230-250 | exactly an unexpired token with an expiry gets a key, which expires with it |
| TokenRevocation.AuthService.LogoutTokens | auth-service/service/login.go:261-274 | both tokens blacklisted and the refresh token revoked for seven days; empty tokens skipped |
| TokenRevocation.AuthService.ValidateToken | auth-service/grpc/server.go:24-64 | an equivalence for each error; a valid answer carries exactly the user and the role of the token |
| TokenRevocation.AuthService.RefreshTokenForRole | auth-service/service/login.go:193-228 | an equivalence for each error; the new token is for the user of the refresh token, in the present role of the account, signed with the access secret, from now for the access duration |
| TokenRevocation.StepKeepsInv | auth-service/service/login.go:230-274 | every blacklist key expires exactly when its token does |
| TokenRevocation.LogoutRevokesAccess | auth-service/service/login.go:230-274 | after a logout, whatever follows, the access token is revoked until its expiry and invalid from then on |
| TokenRevocation.AccessRevokedExactly | auth-service/service/login.go:230-250 | a good access token stays rejected after its logout if and only if it carries an expiry |
| TokenRevocation.LogoutRevokesRefresh | auth-service/service/login.go:193-274 | after a logout, whatever follows, a refresh token expiring within seven days never refreshes again |
| TokenRevocation.RefreshRevokedExactly | auth-service/service/login.go:193-274 | and that is exactly when it stays rejected, since refreshing looks only at the seven-day key |
| TokenRevocation.CoveredExactly | auth-service/service/login.go:265-266 | the key covers every session, whenever it starts and ends, if and only if the configured refresh duration is at most seven days |
| TokenRevocation.RevokedExactlyIfPresented | auth-service/service/login.go:230-274 | over every run, a good access token is rejected in the end if and only if some logout was given this very token and it carries an expiry |
| TokenRevocation.LogoutLeavesNoGap | auth-service/config/config.go:83-84 | with the configured durations neither of the two tokens a logout is given is accepted at any later instant, whenever each was issued |
| TokenRevocation.OtherAccessTokensLiveOut | auth-service/service/login.go:193-274 | any other access token of the session stays good until its own expiry, which is at most the access duration after the logout |
| TokenRevocation.RenewedTokenSpeaksFor | auth-service/service/login.go:193-228 | over every run, what a renewed token is answered at any later instant: its user and the role the account had, until it expires, is given to a logout or its user is suspended |
| TokenRevocation.AdminsWereAdmins | auth-service/grpc/server.go:24-64 | a renewed token is answered as ADMIN only for an account that was ADMIN when it was renewed, by a refresh token of it |
| TokenRevocation.WholeSeconds | auth-service/service/token.go:87-91 | numeric dates lose less than a second and never gain |
| AdBudget.Ads.CreateAdCampaign | admin-service/handler/ad_handler.go:49-114 | an equivalence for each reply; a pending campaign with nothing spent |
| AdBudget.Ads.UpdateAdCampaignStatus | admin-service/handler/ad_handler.go:169-237 | an equivalence for each reply: missing, foreign, unapproved, invalid target; else exactly the status changes |
| AdBudget.Ads.ApproveAdCampaign | admin-service/handler/ad_handler.go:346-381 | only a pending campaign becomes active |
| AdBudget.Ads.RejectAdCampaign | admin-service/handler/ad_handler.go:383-418 | only a pending campaign becomes rejected |
| AdBudget.Ads.LogAdInteraction | admin-service/handler/ad_handler.go:239-327 | an equivalence for each reply; a repeated interaction costs nothing, a click under CPC the bid, a view under CPM a thousandth of it, all else nothing; row, charge, completion and the five-minute key |
| AdBudget.Ads.RecordInteraction | admin-service/repository/ad_repository.go:78-111 | row, charge and completion in one transaction |
| AdBudget.StepKeepsInv | admin-service/handler/ad_handler.go:205-405 | each status keeps its budget condition, and spending equals the logged costs |
| AdBudget.BudgetIsKept | admin-service/repository/ad_repository.go:78-111 | after any run: spent = sum of logged costs, open only below the budget, completed only at or above it, always below total plus one bid |
| AdBudget.ClosedIsTerminal | admin-service/handler/ad_handler.go:205-222 | a rejected or completed campaign never changes again, whatever follows |
| AdBudget.OnlyActiveCampaignsAreCharged | admin-service/handler/ad_handler.go:261-312 | spending never falls, rises only by one price in an active campaign, and only that completes it |
| AdBudget.ChargedExactly | admin-service/handler/ad_handler.go:239-312 | a request is charged if and only if it names an active campaign, its key is not live and the kind is the one the campaign pays for |
| AdBudget.EveryChargeIsTheAgreedPrice | admin-service/handler/ad_handler.go:293-312 | after every run the whole log is priced by the terms of creation |
| AdBudget.TermsNeverChange | admin-service/handler/ad_handler.go:84-101 | owner, budget, bid type and bid never change |
| AdBudget.KeyOutlivesCharge | admin-service/handler/ad_handler.go:278-288 | after a charge its key stays blocked for five minutes, whatever happens |
| AdBudget.ChargesAreSpaced | admin-service/handler/ad_handler.go:278-297 | two charges for one address, kind and spelling of the campaign are at least five minutes apart |
| AdBudget.ChargedAgainExactly | admin-service/handler/ad_handler.go:278-297 | within five minutes of a charge the same interaction is charged again if and only if it spells the campaign in a way not blocked itself |
| AdBudget.OneClickChargedTwice | admin-service/handler/ad_handler.go:278-297 | a run in which one visitor is charged twice at one instant for one click each under two spellings |
| PathNormalizer.IsNumeric | profiler/profiler.go:671-681 | true exactly for non-empty strings of digits 0 to 9 |
| PathNormalizer.IsHexOrUuid | profiler/profiler.go:683-696 | true exactly for the long hexadecimal and the dashed forms |
| PathNormalizer.IsAlphanumericId | profiler/profiler.go:698-714 | true exactly for long mixtures of letters and digits |
| PathNormalizer.HasPrefixOnSegments | profiler/profiler.go:586-609 | a static prefix rule on the string is a rule on its segments |
| PathNormalizer.PlaceSegments | profiler/profiler.go:612-654 | each position rule with its placeholder and its exceptions, written out; all else is left alone |
| PathNormalizer.MaskSegments | profiler/profiler.go:657-666 | the in-place fallback loop replaces exactly the segments that look like identifiers and are no placeholders |
| PathNormalizer.NormalizePath | profiler/profiler.go:578-669 | the method computes the rewriting whose fixed points are studied below |
| PathNormalizer.StaticRoutes | profiler/profiler.go:586-609 | the eight static routes, each with its placeholder, whatever follows them |
| PathNormalizer.OtherRoutes | profiler/profiler.go:612-668 | every other path is placed by position and then masked |
| PathNormalizer.QueryAndSlashIgnored | profiler/profiler.go:578-584 | the query and one slash at the end make no difference |
| PathNormalizer.JoinSplit | profiler/profiler.go:612-668 | joining the segments of a path gives the path |
| PathNormalizer.SplitJoin | profiler/profiler.go:612-668 | splitting joined plain segments gives the segments |
| PathNormalizer.RewriteTwice | profiler/profiler.go:612-666 | a second pass over the segments changes nothing, save for a masked update route, which becomes a user name |
| PathNormalizer.NormalizeTwice | profiler/profiler.go:578-669 | normalising twice is normalising once if and only if no slash is left at the end and the path is no update route whose last segment looks like an identifier |
| PathNormalizer.NormalizeThrice | profiler/profiler.go:578-669 | for a path that does not end in two slashes the third pass never changes anything |
| PathSettling.EveryPathSettles | profiler/profiler.go:578-669 | every path reaches a fixed point, after two passes or after as many as it has slashes at its end if those are more |
| PathSettling.ManySlashesNeedManyPasses | profiler/profiler.go:580-582 | with m slashes at its end a path can need all m passes |
| PathSettling.SecondPassChangesThese | profiler/profiler.go:614-666 | an update route and a path with two slashes at its end that a second pass changes |
| PostFiles.StringSliceEqual | post-service/repository/post_repository.go:1464-1479 | the counting loops decide equality of the two slices as multisets |
| PostFiles.Posts.UpdateContent | post-service/repository/post_repository.go:564-666 | missing post, wrong author, then the edit or its first error under the flag that the query answers; the post changes only on success |
| PostFiles.Posts.ApplyEdit | post-service/repository/post_repository.go:589-663 | an equivalence for each error of the edit, in their order, for either answer of the query, and the post and file list it leaves |
| PostFiles.Posts.RemainingFiles | post-service/repository/post_repository.go:624-633 | the loop keeps the files that are not deleted |
| PostFiles.Posts.AllAttached | post-service/repository/post_repository.go:612-620 | every file to delete is attached |
| PostFiles.EditGoesThroughExactly | post-service/repository/post_repository.go:602-648 | an edit of a post that is not shared succeeds if and only if it deletes only attached files, respects both limits, leaves something, and changes the text or exchanges different files |
| PostFiles.EditStores | post-service/repository/post_repository.go:622-663 | success stores old files minus deletions in their order followed by new ones, within the limit, never empty altogether, truly different from before |
| PostFiles.ReportedFilesAreGoneExactly | post-service/repository/post_repository.go:663 | the files reported as deleted are no longer attached if and only if none of them is added again |
| PostFiles.ReaddedFileIsReported | post-service/repository/post_repository.go:663 | an edit that reports a file as deleted that it attaches again |
| PostFiles.FlagIsHarmlessExactly | post-service/repository/post_repository.go:570-588 | every post is taken as shared; for one that is not, the edit gives what it should if and only if the text is too long, nothing would change, or the text changes and no file is touched |
| PostFiles.AddedFileIsLost | post-service/repository/post_repository.go:570-609 | edits of a post that is not shared whose added file is refused or dropped |
| PostFiles.SelectKeepsOrder | post-service/repository/post_repository.go:624-633 | the kept files are exactly the passing positions in increasing order |
| PostFiles.SharedEditKeepsFiles | post-service/repository/post_repository.go:597-609 | a shared post changes its text alone |

## Left out

- Plumbing: HTTP, gRPC, Kafka, websockets, object storage, mail, push messages, OAuth and dashboards; broadcasts appear only as the list of presence notices.
- Cryptography and UUID generation: passwords match or do not, tokens and codes are opaque values, new identifiers are unused ones.
- JSON and duration syntax: configuration rules are taken as parsed, and which strings are durations or JSON is a parameter.
- Storage errors and the branches that then let a request pass, except cache writes that fail or are lost in the configuration protocol.
- Races between the commands of one handler, except in the configuration and prekey models. A toggle of a campaign that overlaps the transaction completing it is therefore not modelled.
- Rounding of lifetimes by the store and its client: a key set for a duration lives exactly that long, so nothing is claimed about the last fraction of a millisecond of a revoked token.
- Floating point and SQL decimals: prices, budgets and pixel weights are real numbers.
- Colour models: pixels are four bytes and storing one does not convert it. Decoding, encoding and vector normalisation of images are not part of this model.
- RateLimit.RateLimiter.Handle: the sorted set is named by a `key` of the request instead of building it from route and identifier, and all routes share one window length; response headers and the alert webhook are not modelled.
- RateLimit.BoundedExactly: asks that the window has room for the limit in nanosecond stamps, since each request has its own.
- Running without a key-value store, where the handlers skip their checks.
- LoginLockout.LoginGuard.ValidateLogin: the remaining lock time is a number, not its text, and the branch for a lock without expiry does not occur.
- ConfigStore.Repository.Update: time stamps, actor and reason of an audit are not kept.
- ConfigRules.ValidateValue: the checks on the key and scope of a new row, and the trimming of its text, are not modelled.
- ConfigProtocol.StepKeepsInv: the global version key, which only the cache class has, and the lock of a synchronisation are not part of the protocol; any number of synchronisations may interleave. Scopes named `version` or `sync_lock` would collide with these keys.
- ConfigProtocol.SyncRestoresTheTable: states the case that nothing interleaves; the interleaved case is `ConfigProtocol.CacheIsFreshExactly`.
- CallState.Calls.StartCall: the call message and its answered and rejected marks in the message store are not modelled; the chat lookup is a parameter.
- Presence.PresenceReported: the registry of one server process; the time a user was last online is not kept.
- ReadState.ChatService.MarkMessagesAsRead: the copy of the read flag in the graph database is not modelled, and neither is the cached chat list.
- PreKeys.ChatKeys.GetPreKeyBundle: key material and signatures are opaque text, and which key a query returns is any matching one.
- PasswordReset.ResetService.ForgotPassword: the branch for a stored code that does not parse is unreachable, as only generated codes are stored; sending the mail is not modelled.
- AdBudget.Ads.LogAdInteraction: the anti-fraud key is kept as its three parts, so texts of parts that contain colons and make two keys alike are not modelled, and neither are column widths.
- PathNormalizer.NormalizePath: paths are strings of bytes.
- PostFiles.Posts.UpdateContent: the content is given trimmed.
- Comment counters, moderation, notifications, profiles and statistics: no sharp invariant to prove.
