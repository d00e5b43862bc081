# Verification of the tax-return assistant's core services

This project models the parts of the tax-return assistant where several stores, steps or workers have
to stay in agreement, and proves what they promise over all inputs, all states and all runs. Every
service that updates rows is an object whose methods are proved equal to a function on its state; the
theorems are about those functions and about runs of them. `dafny verify dfyconfig.toml` checks it all.

- **Access control** (`AuthModel`, `AuthInvariant`, `AuthRuns`, `Credentials`, `SessionLife`,
  `AuthService`, `CapabilityStore`, `KeyCache`, `Crypto`, `Config`, `SessionText`): the user row, sessions,
  unlock capabilities and the in-memory key cache, driven by setup, unlock, recovery reset, requests,
  logout, lock and key lookups; which secret opens the account, and exactly when a token still resolves,
  passes the gate or finds its key, decided by the events of the run.
- **Job queue and worker** (`JobQueue`, `Worker`): leases, heartbeats, key-blocks, status updates.
- **Image preprocessing** (`Histogram`, `Stretch`, `Otsu`, `Preprocess`): contrast stretch and Otsu
  threshold, each in its single pass, and their composition.
- **Rate limiter** (`RateLimit`): pruned logs against full admission histories.
- **Uploads** (`DuplicateGate`, `Pipeline`, `Ingestion`): the non-atomic duplicate check, one ingestion
  job from start to end for every behaviour of the outside world, and what both mean for the export gate.
- **Model replies** (`JsonText`, `JsonReply`): extraction of a JSON object from free text.
- **Field encryption** (`FieldEncryption`, `Backfill`, `Listings`): the migration of plaintext columns,
  the read paths and the readiness report.
- **Review** (`ReviewGate`, `StatusRequests`): item and document status, the gate in front of the review
  pack, and a status change as a request with other requests running between its gate and its write.

Time is a parameter that never decreases along a run. Instants of the access control and the queue are
whole microseconds; timestamps of the rate limiter, confidences and image arithmetic are reals, so float
rounding is not modelled and `int(...)` is truncation. Each service operation is one atomic step, except
that the duplicate gate's look-up, insert and check are separate steps of interleaved uploads, and that a
status change's gate and write, and an export's gate and pack, are separate steps with other work in
between. Digests, wrapped keys and token hashes are ideal: a digest records what was hashed, a wrapped key opens only
under its own wrapping key, tokens are never repeated. The field cipher is any cipher that opens what it
sealed and whose sealed form is no shorter than its content.

## Where the code and its description part

Each of these is a theorem: the exact condition first, then an input on which the code fails.

- The PBKDF2 fallback at unlock is described as keeping accounts usable where argon2 is missing; it
  never does for an account hashed with argon2id (`AuthRuns.RightPasswordUnlocksIff`,
  `AuthRuns.FallbackDoesNotUnlock`).
- The lower end of the contrast stretch slips from level 0 to level 1 when level 0 alone holds 2% of the
  pixels, because 0 also means "not found" (`Stretch.LowIsPercentileIff`, `Stretch.HalfBlackSlips`).
- A client that waits exactly the advertised `retry_after_seconds` is rejected again unless the time left
  was a whole number of seconds (`RateLimit.RetryAfterSufficesIff`, `RateLimit.AdvertisedWaitTooShort`).
- A copy is processed only if it was checked while it was the only one, so a recovery upload after a
  failed copy is always flagged and two simultaneous copies can flag each other
  (`DuplicateGate.ProcessedIffCheckedAlone`, `DuplicateGate.RecoveryUploadIsFlagged`,
  `DuplicateGate.BothCopiesCanBeFlagged`).
- A job whose lease has expired is not reclaimed: it becomes claimable only when somebody puts it back
  (`JobQueue.ReclaimableIffPutBack`, `JobQueue.DeadWorkerKeepsJob`).
- An item flagged for review is meant to say why; a confident provider result that omits both flag and
  reason is stored as flagged without one (`Pipeline.FlaggedWithoutReasonIff`,
  `Pipeline.UnflaggedResultGetsNoReason`).
- Braces inside JSON strings defeat the balanced-brace strategy unless they balance
  (`JsonReply.ScanRecoversIff`, `JsonReply.BraceInStringBreaksScan`).
- The migration changes what readers see for notes and review reasons held as bare envelopes, and for
  descriptions held as bare envelopes when no item has an encrypted column
  (`Backfill.FillKeepsPlainReadingIff`, `Backfill.BareEnvelopeNoteChanges`,
  `Backfill.DescriptionsReadTheSameIff`, `Backfill.BareEnvelopeDescriptionChanges`).
- The readiness report overlooks notes, review reasons and the rows of other sessions
  (`Backfill.ReadinessIsTrueIff`, `Backfill.ReadinessOverlooksNotes`).
- Listing pages or items writes the decrypted text back to the plaintext columns, because rows are
  decrypted in place before the commit (`Listings.ListingLeavesPagesIff`, `Listings.ListingStoresPlaintext`).
- A status change answered with "locked", because its key disappeared between gate and write, is stored
  all the same (`StatusRequests.LockedReplyIff`, `StatusRequests.LockBetweenGateAndWrite`).
- The document of a job that failed before classification did - unreadable file, no key, a timeout - does
  not hold up the export (`Ingestion.FailedJobHoldsGateIff`, `Ingestion.GateOpensOverUnreadDocument`).
- A review pack made after the gate was checked can leave out items that a classification added in
  between (`ReviewGate.PackAfterGateIff`, `ReviewGate.ClassificationSlipsIntoPack`).
- An item row with an unknown status and no review flag would count as confirmed in the summary but be in
  no bucket of the review pack; no modelled route produces one (`ReviewGate.PackAccountsForAllIff`,
  `ReviewGate.UnknownStatusLeavesPack`).

## Model

| member | source | states |
|---|---|---|
| `AuthRuns.StoresAgree` | app/services/auth/service.py:313-327 | In every state reached from an empty installation, each unrevoked session and each unrevoked capability carries the user's current epoch, and each cached key belongs to an unrevoked session with an unrevoked capability |
| `AuthInvariant.StepKeepsInv` | app/services/auth/service.py:164-493 | Every operation (setup, unlock, recovery reset, session resolution, gate, logout, lock, both key lookups), at any later instant, keeps the agreement of user row, sessions, capabilities and key cache, also when a request's row updates are not committed |
| `AuthInvariant.RunKeepsInv` | app/services/auth/service.py:164-493 | The same agreement holds after every run with a clock that never goes back and fresh tokens |
| `AuthInvariant.ResetKeepsInv` | app/services/auth/service.py:313-327 | The recovery reset keeps the stores in agreement |
| `AuthInvariant.ResetStartsOver` | app/services/auth/service.py:313-327 | After a successful reset the epoch is the next one, the new token alone is unrevoked among all sessions and capabilities and alone has a cached key, its rows carry the new epoch, and the data key is the old one |
| `AuthInvariant.ResolveKeepsInv` | app/services/auth/service.py:379-433 | Refreshing, expiring or refusing a session keeps the stores in agreement; a session with a stale epoch is always revoked already |
| `AuthRuns.NoKeyAcrossReset` | app/services/job/worker.py:72-90 | After a recovery reset, neither the gate nor the worker's key lookup, which compares no epochs, ever serves a token issued before it, in any continuation |
| `AuthRuns.PermanentLock` | app/services/auth/service.py:474-493 | After a lock, a logout or a detected expiry, no continuation of the run lets that token pass the gate or find a key |
| `AuthRuns.DeadStaysDead` | app/services/auth/service.py:388-411 | A token that has a session but no cached key never gets a key again |
| `AuthRuns.OneDataKey` | app/services/auth/service.py:257-327 | From the first opened session on, every unlock, reset or key lookup that succeeds yields the same data key, whatever the availability of argon2 at each step |
| `AuthRuns.RunKeepsDataKey` | app/services/auth/service.py:294-313 | No run changes the data key of an account |
| `AuthRuns.RepliesGiveDataKey` | app/services/security/key_cache.py:33-58 | Every key an operation hands out or caches is the data key of the account |
| `AuthRuns.UserKeyIgnoresOrder` | app/services/security/key_cache.py:48-58 | The user-key lookup gives the same answer for every iteration order of the cache, and an answer exactly when some unexpired entry of the user exists |
| `AuthRuns.ActiveKeyIsCached` | app/services/security/key_cache.py:48-58 | A key found by the user-key lookup is an unexpired entry of that user; scanning the whole cache finds one if and only if there is one |
| `AuthRuns.RightPasswordUnlocksIff` | app/services/auth/service.py:135-142 | An unlock succeeds if and only if the password is right and the KDF the account was stored under can run; the PBKDF2 fallback does not rescue an argon2id account |
| `AuthRuns.FallbackDoesNotUnlock` | app/services/auth/service.py:135-142 | A run: set up with argon2id, then refused with the right password while argon2 is missing |
| `Credentials.SetupIff` | app/services/auth/service.py:164-177 | A setup goes through exactly on an empty installation with an acceptable password, and opens the account with its own data key |
| `Credentials.UnlockIff` | app/services/auth/service.py:241-277 | At the end of any run after a setup or reset that went through, with no successful reset since, an unlock opens if and only if the attempt is the password chosen there and argon2 is available now if it was then |
| `Credentials.ResetIff` | app/services/auth/service.py:280-313 | At the end of any run after the setup, resets included, a recovery reset opens if and only if the new password is acceptable, the recovery key is that of the setup and argon2 is available if it was then |
| `AuthRuns.AccessChain` | app/services/security/unlock_capability.py:82-100 | For one token: first the issue, then passes of the gate each less than the capability lifetime after the entry before, and none at or after issue plus the absolute timeout, however often it is touched |
| `AuthRuns.ChainFrom` | app/db/auth_deps.py:41-55 | The same chain, continued from any state in which the token is live |
| `AuthRuns.GrantedPassesCheck` | app/db/auth_deps.py:41-55 | Access is granted only to a request that passed session resolution and the capability check |
| `SessionLife.ResolveIff` | app/services/auth/service.py:379-433 | A token resolves if and only if it has a session that is neither marked, past its absolute lifetime nor idle too long |
| `SessionLife.ResolvesLaterIff` | app/services/auth/service.py:379-433 | At the end of any run, a token resolves if and only if its session was not marked before, the run neither logged it out nor reset the account, the absolute timeout since its creation has not passed, and less than the idle timeout has passed since its last successful, committed use |
| `SessionLife.ResolvesIff` | app/services/auth/service.py:362-433 | The same counted from the setup, unlock or reset that issued the token |
| `SessionLife.EndedForGood` | app/services/auth/service.py:388-456 | After a logout, a reset or a refused resolution, the token is refused in every continuation of the run |
| `SessionLife.LockKeepsSession` | app/services/auth/service.py:474-493 | A lock leaves the session alone: the token resolves after it exactly when it would have before |
| `SessionLife.AccessIff` | app/db/auth_deps.py:41-55 | At the end of any run after a token was issued, the gate lets it pass if and only if no lock, logout or reset shut it, the absolute timeout since its issue has not passed, and less than the capability lifetime has passed since its last pass; the key lookup of the worker answers under the same condition before the expiry of the job |
| `SessionLife.AccessLaterIff` | app/services/security/unlock_capability.py:82-100 | The same from any state in which the token has a cached key |
| `SessionLife.ShuttingRevokes` | app/services/security/unlock_capability.py:103-122 | A lock, a logout or a reset marks the capability of the token, and nothing renews it |
| `Config.TtlWithinIdle` | app/services/security/unlock_capability.py:27-29 | For every configuration the capability lifetime is between one and 15 minutes and never exceeds the idle timeout |
| `Config.SecondsOverride` | app/config.py:89-99 | A timeout given in seconds overrides the one in minutes or hours; no setting goes below 60 seconds idle or 300 absolute; the capability lifetime is the idle timeout or 15 minutes |
| `Crypto.VerifyHashAnyKdf` | app/services/auth/service.py:145-150 | Succeeds exactly for the right secret and salt when the KDF of the stored hash can run, and then names a KDF that reproduces the hash |
| `AuthServices.AuthService.SetupUser` | app/services/auth/service.py:164-220 | Refuses a weak password or a second user; otherwise reaches exactly the state of the abstract setup, which the password set up then opens (`Credentials.UnlockIff`) |
| `AuthServices.AuthService.VerifyUnlock` | app/services/auth/service.py:241-277 | Exactly the abstract unlock, with the legacy branch that wraps a password-derived key |
| `AuthServices.AuthService.RecoveryResetPassword` | app/services/auth/service.py:280-331 | Exactly the abstract reset: rewrap, next epoch, revoke sessions and capabilities, drop keys, open a session |
| `AuthServices.AuthService.RevokeAllSessions` | app/services/auth/service.py:314-318 | Marks every unrevoked session of the user and touches nothing else |
| `AuthServices.AuthService.CreateSession` | app/services/auth/service.py:334-359 | A session row with the user's epoch that expires after the absolute timeout |
| `AuthServices.AuthService.ResolveSession` | app/services/auth/service.py:362-433 | Exactly the abstract resolution: missing, revoked or expired, orphaned, stale or live |
| `AuthServices.AuthService.RevokeSession` | app/services/auth/service.py:436-456 | Logout: session marked, capability revoked, key dropped; the token never resolves again (`SessionLife.EndedForGood`) |
| `AuthServices.AuthService.LockSession` | app/services/auth/service.py:474-493 | Lock: capability revoked and key dropped, session row left unmarked |
| `AuthServices.AuthService.CurrentUnlockedUser` | app/db/auth_deps.py:41-55 | The three-part gate, with the writes of each part even when a later part refuses |
| `AuthServices.AuthService.ResolveJobKey` | app/services/job/worker.py:72-90 | The worker's key lookup, including the eviction of an expired entry |
| `CapabilityStores.CapabilityStore.Issue` | app/services/security/unlock_capability.py:32-64 | Issues the capability of a session, or renews its row in place |
| `CapabilityStores.CapabilityStore.Validate` | app/services/security/unlock_capability.py:67-100 | Passes and extends exactly a matching, unrevoked, unexpired row of the current epoch; a refusal changes no row and bumps exactly the counter of its first failed test |
| `CapabilityStores.CapabilityStore.RevokeForSession` | app/services/security/unlock_capability.py:103-110 | Marks the capability of one token, if it has one |
| `CapabilityStores.CapabilityStore.RevokeForUser` | app/services/security/unlock_capability.py:113-122 | Marks every unrevoked capability of the user, no other, and returns how many |
| `KeyCaches.KeyCache.CacheSessionKey` | app/services/security/key_cache.py:14-15 | Binds one token to a key |
| `KeyCaches.KeyCache.GetSessionKey` | app/services/security/key_cache.py:18-45 | Returns an unexpired key and drops an expired entry |
| `KeyCaches.KeyCache.GetUserActiveKey` | app/services/security/key_cache.py:48-58 | First unexpired entry of the user in iteration order, dropping the expired ones met before it |
| `KeyCaches.KeyCache.ClearSessionKey` | app/services/security/key_cache.py:61-70 | Removes exactly one entry |
| `KeyCaches.KeyCache.ClearUserKeys` | app/services/security/key_cache.py:73-78 | Removes exactly the entries of one user |
| `SessionText.TextSurvivesSessions` | app/services/security/field_encryption.py:32-66 | Text encrypted in one session decrypts with the key of every later one, across unlocks, locks, expiries and resets |
| `Worker.JobWorker.ExecuteJob` | app/services/job/worker.py:42-69 | A claimed job passes exactly when it needs no key or its key is found; otherwise it goes back as a retry and nothing but the key cache and that row changes |
| `Worker.QueuedJobRunsIff` | app/services/job/worker.py:72-90 | At the end of any run after its token was issued, a queued job finds a key if and only if nothing shut the token, neither the absolute timeout nor the capability lifetime has run out and the job has not expired; the key is then the data key of the account |
| `Worker.ResetBlocksQueuedJobs` | app/services/job/worker.py:72-90 | A job queued under a token from before a recovery reset finds no key in any state after it |
| `JobQueue.ClaimTakesOldest` | app/repositories/job_repo.py:91-115 | A claim takes the oldest eligible job, leases it to the caller from now for the given time, counts the attempt and touches no other row; it fails exactly when nothing is eligible |
| `JobQueue.HeldUntilReleased` | app/repositories/job_repo.py:66-130 | A running job, leased or not, is never handed out and keeps its owner until somebody blocks it or updates it to another status, under any interleaving of claims, heartbeats, key-blocks and status updates by anyone |
| `JobQueue.AttemptsCountGrants` | app/repositories/job_repo.py:111 | The attempt counter of a job equals the number of claims granted for it, whatever else happens to the row |
| `JobQueue.ClaimPopsEligible` | app/repositories/job_repo.py:98-104 | A claim removes exactly the head of the list of eligible jobs |
| `JobQueue.DrainIsCreationOrder` | app/repositories/job_repo.py:98-104 | Claiming again and again without requeues yields every eligible job exactly once, in creation order, then nothing |
| `JobQueue.GrantNeedsRelease` | app/repositories/job_repo.py:98-101 | When a run hands out a running job again, a key-block or an update of it to another status comes before; the passing of its lease alone never does it |
| `JobQueue.ReclaimableIffPutBack` | app/repositories/job_repo.py:99-100 | Some claim at some clock would accept a formerly running job if and only if the last key-block or update of it made it queued or retrying |
| `JobQueue.PutBackIsClaimableFrom` | app/repositories/job_repo.py:98-103 | From when: a job updated to queued or retrying is claimable once its old lease has run out, a key-blocked one at once |
| `JobQueue.HeartbeatIff` | app/repositories/job_repo.py:117-132 | A heartbeat succeeds exactly for the owner of a running job and then extends that lease alone |
| `JobQueue.LeaseFollowsHeartbeats` | app/repositories/job_repo.py:109-130 | In every run a held job has the lease end given by the last heartbeat of its owner, or by its claim if there was none, whatever other workers send |
| `JobQueue.DeadWorkerKeepsJob` | app/repositories/job_repo.py:98-107 | A run in which the lease of a dead worker has long expired and a second worker still gets nothing |
| `JobQueue.JobRepository.CreateJob` | app/repositories/job_repo.py:14-41 | Appends one queued job without a lease |
| `JobQueue.JobRepository.ClaimNext` | app/repositories/job_repo.py:91-115 | The scan finds the least eligible row and leases it |
| `JobQueue.JobRepository.BeatJob` | app/repositories/job_repo.py:117-132 | Extends the lease exactly for the owner of a running job |
| `JobQueue.JobRepository.MarkRetryableKeyBlock` | app/services/job/worker.py:93-106 | Back to the queue without a lease, the error recorded |
| `JobQueue.JobRepository.UpdateStatus` | app/repositories/job_repo.py:66-89 | Sets the status of one row and leaves lease and attempts alone |
| `Otsu.OtsuThreshold` | app/ocr/providers/tesseract.py:64-98 | The single pass with running weight and sum returns the least level with the greatest positive between-class score, or 128 when no score is positive |
| `Otsu.VarianceDecomposition` | app/ocr/providers/tesseract.py:89-93 | For every histogram and split: total squared deviation equals deviation within the classes plus between-class score over the pixel count |
| `Otsu.OtsuMinimisesWithin` | app/ocr/providers/tesseract.py:78-98 | The returned threshold minimises the squared deviation within the classes among all thresholds with two non-empty classes |
| `Otsu.OtsuTies` | app/ocr/providers/tesseract.py:78-98 | With two or more levels the result is an occupied level, leaves pixels on both sides and is the smallest maximiser; otherwise it is 128 |
| `Otsu.ScoresIffTwoLevels` | app/ocr/providers/tesseract.py:93-96 | Some threshold scores above zero if and only if two different levels are occupied |
| `Histograms.SqDevClosed` | app/ocr/providers/tesseract.py:93 | Squared deviation around any point in closed form from second moment, moment and weight |
| `Stretch.ScanRange` | app/ocr/providers/tesseract.py:35-47 | One pass over cumulative counts finds the upper end and the least level from 1 on that reaches the low target (0 if the scan stops at level 0) |
| `Stretch.FillTable` | app/ocr/providers/tesseract.py:52-61 | The loop over the 256 levels fills the table of the stretched range |
| `Stretch.BuildContrastStretchLut` | app/ocr/providers/tesseract.py:21-61 | The whole table, identity for an empty image or an empty range |
| `Stretch.TableShape` | app/ocr/providers/tesseract.py:52-61 | Always 256 entries in 0..255, never decreasing |
| `Stretch.TableIsLinear` | app/ocr/providers/tesseract.py:52-60 | 0 up to the lower end, 255 from the upper end on, and between them the exact linear map rounded down |
| `Stretch.TableKeepsLevels` | app/ocr/providers/tesseract.py:30-50 | For an empty image or an empty range every level is kept |
| `Stretch.RangeEmptyIff` | app/ocr/providers/tesseract.py:38-50 | The range is empty if and only if levels 0 and 1 together reach the high target, or the cumulative count jumps from below the low target to the high one at a single level |
| `Stretch.ClippedTails` | app/ocr/providers/tesseract.py:38-47 | Lower end at most upper end; at most 2% of the pixels above the upper end, fewer than 2% strictly between level 0 and the lower end, and both ends as tight as that: the lower end reaches 2%, and the level below the upper end stays under 98% |
| `Stretch.LowIsPercentileIff` | app/ocr/providers/tesseract.py:43-44 | The lower end is the least level reaching the low target if and only if level 0 alone stays below that target or reaches even the high one; otherwise it slips to level 1 |
| `Stretch.HalfBlackSlips` | app/ocr/providers/tesseract.py:43-44 | A half-black picture on which the lower end is 1 although the percentile rule asks for 0 |
| `Preprocess.Point` | app/ocr/providers/tesseract.py:157 | Each pixel replaced by its table entry |
| `Preprocess.Binarise` | app/ocr/providers/tesseract.py:161 | Each pixel white above the threshold, black at or below it |
| `Preprocess.PreprocessImage` | app/ocr/providers/tesseract.py:152-161 | Stretch, threshold of the stretched histogram, cut: the composition of the three |
| `Preprocess.StretchThenCutIsOneCut` | app/ocr/providers/tesseract.py:155-161 | Stretching and then cutting anywhere equals one cut on the original grey level, for every image; no pixel is lost |
| `Preprocess.FlatImage` | app/ocr/providers/tesseract.py:152-161 | An image of a single level comes out of the stretch unchanged, gets threshold 128 and turns white exactly if its level is above it |
| `Preprocess.HistogramIsComplete` | app/ocr/providers/tesseract.py:156 | The histogram accounts for every pixel |
| `RateLimit.RateLimiter.Handle` | app/middleware/rate_limit.py:28-65 | The dispatch loop: skip, first matching limit, prune, reject or admit, with exactly the logs and the verdict of the specification |
| `RateLimit.RateLimiter.PruneLog` | app/middleware/rate_limit.py:46-48 | Keeps exactly the entries younger than the window, in order |
| `RateLimit.NeverMoreThanAllowed` | app/middleware/rate_limit.py:28-65 | For every configured limit, every client, every run with a non-decreasing clock and every instant t, at most the allowed number of requests was admitted in (t - window, t] among those of that client, not exempt, that match the pattern of the limit and of none before it |
| `RateLimit.AdmittedIffRoom` | app/middleware/rate_limit.py:46-62 | At the end of every run, the next request counted under a limit is admitted if and only if fewer than the allowed number were admitted for that client in the window before it |
| `RateLimit.CountedIff` | app/middleware/rate_limit.py:30-43 | A request is counted under a limit for a client if and only if it is from that client, not exempt, matches that pattern and none of an earlier limit |
| `RateLimit.UncountedPasses` | app/middleware/rate_limit.py:30-43 | A request is counted nowhere if and only if it is a health check, has no client address or matches no pattern; it is then admitted and changes no log |
| `RateLimit.LogIsWindowOfHistory` | app/middleware/rate_limit.py:46-62 | After every run, the pruned log of a limit and client equals the full admission history of the requests counted there, cut to the window of its last visit; it is sorted and not over-full |
| `RateLimit.OnlyOwnLogChanges` | app/middleware/rate_limit.py:43-62 | A request changes the log of the limit and client it is counted under by one visit, which gives its verdict, and no other log |
| `RateLimit.KeysAreDistinct` | app/middleware/rate_limit.py:43 | Colon-free patterns give every pair of pattern and client address its own key |
| `RateLimit.FullLogReopensExactly` | app/middleware/rate_limit.py:50-62 | A request is rejected if and only if the log is full and its oldest entry is still inside the window |
| `RateLimit.RetryAfterSufficesIff` | app/middleware/rate_limit.py:50-58 | A full log advertises the time left until its oldest entry leaves the window, cut to whole seconds; waiting exactly that long leads to admission if and only if that time was a whole number of seconds |
| `RateLimit.AdvertisedWaitTooShort` | app/middleware/rate_limit.py:50-58 | A run with a limit of one a minute in which a client waits the advertised 59 seconds and is rejected again |
| `DuplicateGate.AtMostOneCopyPasses` | app/services/ingestion/pipeline.py:79-98 | Under any interleaving of look-ups, inserts, batch inserts, checks and status changes, at most one copy of a content is let through to text extraction, and only the oldest can be |
| `DuplicateGate.LaterCopiesNeverPass` | app/routers/documents.py:141-145 | A copy inserted while another exists never passes; so a recovery upload the router lets in is always flagged by the pipeline |
| `DuplicateGate.RecoveryUploadIsFlagged` | app/routers/documents.py:141-145 | A run: a copy fails, a recovery upload is let in, the pipeline flags it |
| `DuplicateGate.ProcessedIffCheckedAlone` | app/services/ingestion/pipeline.py:138-149 | A copy is processed in a run if and only if it was checked at a moment when it was the only copy |
| `DuplicateGate.BothCopiesCanBeFlagged` | app/services/ingestion/pipeline.py:86-98 | A run in which two copies flag each other and neither is processed |
| `DuplicateGate.CheckPassesIffAlone` | app/services/ingestion/pipeline.py:138-149 | The check passes if and only if no other row has the same session and hash |
| `DuplicateGate.TurnedAwayIff` | app/routers/documents.py:135-160 | An upload is turned away if and only if the oldest copy of its content has not failed in one of three ways, and then names it; otherwise it is cleared and only that copy, if there is one, is marked as replaced |
| `DuplicateGate.BatchRowsAre` | app/routers/documents.py:253-286 | A batch gives each file that is not empty, of an accepted kind and not too large its own row, in order |
| `DuplicateGate.StepKeepsInv` | app/routers/documents.py:135-204 | Ids stay unique, rows stay in place, and no later copy of a content is ever marked as processed |
| `DuplicateGate.DocumentStore.PrepareUpload` | app/routers/documents.py:100-160 | Each rejection for its own reason, in order; otherwise exactly the router's look-up; no rejection changes a row |
| `DuplicateGate.DocumentStore.InsertUpload` | app/routers/documents.py:162-178 | Appends the row that was cleared |
| `DuplicateGate.DocumentStore.UploadBatch` | app/routers/documents.py:247-331 | One row per acceptable file, in order, without a look-up; totals and skips add up; empty and oversized batches change nothing |
| `DuplicateGate.DocumentStore.CheckHashDuplicate` | app/services/ingestion/pipeline.py:86-98 | The pipeline's check and the status it writes |
| `DuplicateGate.DocumentStore.FindCopy` | app/services/ingestion/pipeline.py:142-149 | The first row of a content other than the given one |
| `Pipeline.IngestionJob.RunJob` | app/services/job/__init__.py:139-185 | For every behaviour of the outside world: the job ends succeeded if and only if no step raised; then progress is 1.0 and the document is a duplicate, classified with its items, or up for review; exactly which pages and items are stored and which document, extraction and classification statuses are left, however it ends; progress never falls while running; the generic success is never written |
| `Pipeline.IngestionJob.FinishJob` | app/services/job/__init__.py:163-185 | A terminal status is kept as it is, the generic success is written only over a non-terminal one, an exception ends the job failed with its progress kept |
| `Pipeline.IngestionJob.ProcessUpload` | app/services/ingestion/pipeline.py:51-135 | Raises exactly when the job cannot complete, and otherwise leaves the document in the status its circumstances call for |
| `Pipeline.IngestionJob.RunOcrPipeline` | app/services/ingestion/pipeline.py:152-257 | Blank text ends in review without classification; otherwise classification decides; all pages are stored |
| `Pipeline.IngestionJob.HandleText` | app/services/ingestion/pipeline.py:232-257 | Review without text, classification with it |
| `Pipeline.IngestionJob.ExtractText` | app/services/ingestion/pipeline.py:171-230 | Extraction status and length of the text; no page is stored without a key |
| `Pipeline.IngestionJob.RunClassification` | app/services/ingestion/pipeline.py:260-382 | Which outcome leads to classified, review or classification_failed, with the job row of each; a failure clears the progress |
| `Pipeline.IngestionJob.ClassifyDocument` | app/services/classification/__init__.py:56-233 | One retry of transient failures only; items exactly for a successful call; one record per call, with plaintext input only after a failure other than a missing configuration |
| `Pipeline.IngestionJob.UpdateStatus` | app/services/job/__init__.py:109-136 | Fields not given are left alone |
| `Pipeline.ApplyReviewRules` | app/services/classification/__init__.py:236-254 | Low confidence forces the review flag, a flag comes with a reason, nothing else changes |
| `Pipeline.LowConfidenceIsFlagged` | app/services/classification/__init__.py:156-202 | No item of low confidence is stored without its flag and a reason |
| `Pipeline.StoredItemIs` | app/services/classification/__init__.py:187-202 | What is stored of each provider result: confidence 0 if missing, flagged unless confident and told not to flag, its own reason kept, and a reason made up exactly for low confidence or an explicit flag |
| `Pipeline.FlaggedWithoutReasonIff` | app/services/classification/__init__.py:236-254 | A flagged item is stored without a reason if and only if the provider gave confidence of at least 0.7 and neither flag nor reason |
| `Pipeline.UnflaggedResultGetsNoReason` | app/services/classification/__init__.py:236-254 | Such a result and the item stored for it |
| `Pipeline.FullTextBlankIff` | app/services/ingestion/pipeline.py:181-233 | The joined text is blank if and only if every page is |
| `Pipeline.SucceededOutcomes` | app/services/ingestion/pipeline.py:275-382 | The three final statuses of a succeeded job and when each occurs; classified means at least one item and a page with text |
| `Pipeline.CompletesIff` | app/services/ingestion/pipeline.py:51-382 | Which behaviours of the outside world let a job complete |
| `Pipeline.EndStatusByCause` | app/services/ingestion/pipeline.py:79-257 | Exactly which event leaves the document detected as a duplicate, stored, with its text extracted or with items detected, when the job goes no further |
| `Pipeline.StoredRowsIff` | app/services/ingestion/pipeline.py:171-230 | Exactly when pages and items are stored, whatever stops the job afterwards, and that they are those read and answered; the extraction status is set even when no key lets the pages be stored |
| `Pipeline.StatusColumnsAgree` | app/services/ingestion/pipeline.py:171-382 | However a job ends, the document, extraction and classification columns agree: classified exactly with items found, broken exactly with classification_failed, unconfigured or empty classification in review without items |
| `Pipeline.FailedOutcomes` | app/services/ingestion/pipeline.py:171-382 | Where each failing path leaves the document: classification_failed if and only if there was text and either no key for it or a provider error, and never with items; needs_review or classified only when the timeout strikes after all the work |
| `Ingestion.AtMostOneCopyIngested` | app/services/ingestion/pipeline.py:86-128 | Under any interleaving of uploads and checks, and whatever happens to the jobs, at most one of two copies of a content ever gets pages or items |
| `Ingestion.UploadKeepsGateIff` | app/routers/workspaces.py:526-564 | In every reachable workspace, after one more upload the gate is open if and only if it was open before, the job stored no item and left a document status that does not await review |
| `Ingestion.FailedJobHoldsGateIff` | app/routers/workspaces.py:67 | The document of a failed job holds up the export if and only if it ended classification_failed, or needs_review under a timeout after all the work; it then has no items |
| `Ingestion.GateOpensOverUnreadDocument` | app/routers/workspaces.py:526-564 | A ready workspace and an upload whose text extraction raises: the job fails, nothing is stored, and the workspace stays ready |
| `JsonReply.FindClose` | app/ai/providers/shared.py:78-86 | The loop with the depth counter stops exactly where the depth first returns to zero, and runs to the end if it never does |
| `JsonReply.ScanBlock` | app/ai/providers/shared.py:76-90 | One pass with a depth counter finds exactly the block from the first brace to where the depth first returns to zero, or nothing |
| `JsonReply.ScanRecoversIff` | app/ai/providers/shared.py:76-90 | Behind any preamble without an opening brace and before any text, the scan returns exactly the printed object if and only if, counting the braces inside its strings in print order on top of the nesting depth, the count stays above zero up to the last brace and those braces cancel out overall |
| `JsonReply.ReplyIsUnambiguous` | app/ai/providers/shared.py:76-90 | A reply cannot be taken apart in two ways into a preamble without opening braces, an object whose strings balance, and the rest |
| `JsonReply.PrintIsBlockIff` | app/ai/providers/shared.py:79-85 | The print of an object is one block, positive at every proper prefix and zero at its end, if and only if its strings balance in that sense |
| `JsonReply.PrintDepth` | app/ai/providers/shared.py:79-85 | The depth of any printed value, and whether it ever falls to zero from a given start, is decided by the strings inside it alone |
| `JsonReply.ScanRecovers` | app/ai/providers/shared.py:76-90 | Objects printed without braces in their strings are always recovered |
| `JsonReply.PrintBalanced` | app/ai/providers/shared.py:79-85 | The print of a value without braces in its strings is balanced, and that of an object is one block |
| `JsonReply.BraceInStringBreaksScan` | app/ai/providers/shared.py:81-86 | A closing brace inside a string ends the block too early |
| `JsonReply.ParseJsonResponse` | app/ai/providers/shared.py:53-90 | The three strategies in order, each used only when the one before gives no value |
| `JsonReply.ReplyRoundTrip` | app/ai/providers/shared.py:53-90 | An object whose strings balance, in a reply without a code fence and behind a preamble without an opening brace, is read back whenever the parser reads its own print back, unless the whole reply is itself JSON |
| `JsonReply.UselessFenceFallsThrough` | app/ai/providers/shared.py:68-90 | The same in a reply with a code fence whose content is not JSON |
| `JsonReply.FencedRoundTrip` | app/ai/providers/shared.py:69-74 | An object inside a Markdown fence, tagged as JSON or not, is read back, whatever braces its strings hold, whenever the parser reads its own print back, unless the whole reply is itself JSON |
| `FieldEncryption.RoundTripIff` | app/services/security/field_encryption.py:28-66 | Encrypting and decrypting gives a value back if and only if it does not itself start with the envelope prefix |
| `FieldEncryption.EncryptIsIdempotent` | app/services/security/field_encryption.py:32-38 | A second encryption under any key and nonce changes nothing |
| `FieldEncryption.ALawfulCipherExists` | app/services/security/field_encryption.py:40-66 | The laws assumed of the cipher can be met |
| `Backfill.Database.BackfillSensitiveFields` | scripts/backfill_encrypt_sensitive_fields.py:29-85 | Counts exactly the plaintext-only values of each column; a dry run counts the same and writes nothing; otherwise exactly those values are filled |
| `Backfill.CountsAreByColumn` | scripts/backfill_encrypt_sensitive_fields.py:29-85 | Each of the six counts is zero exactly when no row of its table needs its column |
| `Backfill.FilledRows` | scripts/backfill_encrypt_sensitive_fields.py:38-81 | Row by row and column by column: what needed it holds its own text sealed, everything else is as before, and a row is stamped as updated exactly if it was or one of its columns changed |
| `Backfill.Database.BackfillPages` | scripts/backfill_encrypt_sensitive_fields.py:38-45 | The page loop |
| `Backfill.Database.BackfillItems` | scripts/backfill_encrypt_sensitive_fields.py:47-66 | The item loop over three columns |
| `Backfill.Database.BackfillRecords` | scripts/backfill_encrypt_sensitive_fields.py:68-81 | The classification record loop over two columns |
| `Backfill.FillKeepsReading` | app/routers/workspaces.py:148-152 | A filled page text or description reads as before, legacy envelopes included |
| `Backfill.FillKeepsPlainReadingIff` | app/routers/workspaces.py:153-156 | A note or review reason reads as before if and only if it was not an envelope in the plain column alone |
| `Backfill.BareEnvelopeNoteChanges` | app/routers/workspaces.py:153-156 | A bare-envelope note is shown raw before the migration and opened after it |
| `Backfill.PagesReadTheSame` | app/routers/workspaces.py:486-497 | The page list shows the same texts before and after the migration, for every set of rows |
| `Backfill.DescriptionsReadTheSameIff` | app/routers/workspaces.py:384-387 | The item list shows the same descriptions if and only if some item already had an encrypted column or no description was a bare envelope |
| `Backfill.BareEnvelopeDescriptionChanges` | app/routers/workspaces.py:384-387 | A list of one item with a bare-envelope description, shown raw before the migration and opened after it |
| `Backfill.SecondRunIsIdle` | scripts/backfill_encrypt_sensitive_fields.py:29-85 | A second run changes nothing and counts nothing |
| `Backfill.FieldPlaintextStats` | app/routers/workspaces.py:159-194 | Every row counted in exactly one of the four classes |
| `Backfill.BlockingTables` | app/routers/workspaces.py:948-973 | A table is listed if and only if it holds a plaintext-only value the report looks at |
| `Backfill.NothingBlocksAfterBackfill` | app/routers/workspaces.py:967-973 | After the migration no table blocks, for any session |
| `Backfill.ReadinessIsTrueIff` | app/routers/workspaces.py:948-973 | When no table is reported blocking for a session, nothing at all needs the migration if and only if no note or review reason does, nor any description or record of another session |
| `Backfill.ReadinessOverlooksNotes` | app/routers/workspaces.py:948-973 | An item with a plaintext note under a report that names no blocking table |
| `Listings.ListWorkspacePages` | app/routers/workspaces.py:486-510 | Decrypts in place and commits: what is shown is what the plain column holds afterwards, and the rows stay as they were if and only if every page already read the same in plain; a missing key or a failed decryption changes nothing |
| `Listings.ListWorkspaceItems` | app/routers/workspaces.py:373-404 | The same for the items of one session and, if given, one review status, which also decide whether anything is decrypted; an unknown status is refused; all other rows are left alone |
| `Listings.StoredIsShown` | app/routers/workspaces.py:493-497 | The stored value is the value the read path shows |
| `Listings.SelectedIff` | app/routers/workspaces.py:378-381 | A listing selects exactly the rows of its session and, if one is given, of its review status |
| `Listings.ListedAgainIff` | app/routers/workspaces.py:491-497 | Listing again shows the same texts if and only if no legacy envelope contained an envelope |
| `Listings.ListingNeverNeedsMore` | app/routers/workspaces.py:148-156 | A listing never makes a column count as plaintext-only |
| `Listings.ListingLeavesPagesIff` | app/routers/workspaces.py:491-509 | A listing leaves the page rows alone if and only if every page reads the same from its plain column |
| `Listings.ListingStoresPlaintext` | app/routers/workspaces.py:491-509 | Listing any set of pages the pipeline wrote puts each text that is not empty into its plaintext column, leaves the rows alone only if there is no text, and never makes the readiness report name them |
| `ReviewGate.GateOverRuns` | app/routers/workspaces.py:522-566 | In every state reached by uploads, classification, manual items, status changes and document actions: ready if and only if there are items, each confirmed or excluded, and no document that awaits review lacks items; then the review pack splits all items into confirmed and excluded with none for the tax agent |
| `ReviewGate.StatusComesFromUser` | app/services/classification/__init__.py:187-202 | Any status but needs_review was given by a user request of the run that took effect, and has held ever since |
| `ReviewGate.ReadyMeansUserDecided` | app/routers/workspaces.py:748-750 | Each item of a ready workspace has had its status since a user request that took effect |
| `ReviewGate.DocumentActionEffect` | app/routers/workspaces.py:671-706 | An excluded document is resolved, and the workspace is then ready if and only if there are items, all settled, and no other document is unresolved; a document sent to the tax agent is unresolved if and only if it has no linked item; no other document and no item changes |
| `ReviewGate.ManualItemEffect` | app/routers/workspaces.py:607-657 | A manual item, of pending status if an unknown one was asked for, resolves its document; the workspace is then ready if and only if the new item and all others are settled and no other document is unresolved |
| `ReviewGate.SetStatusEffect` | app/routers/workspaces.py:430-449 | What a status change does to the item, to readiness and to nothing else |
| `ReviewGate.ClassificationLinks` | app/services/classification/__init__.py:186-215 | Classification resolves its document by linking items to it, none of them decided by the user |
| `ReviewGate.RefusalsIff` | app/routers/workspaces.py:416-428 | Which requests are refused and how; a refusal changes nothing, except for the status change that found no key |
| `ReviewGate.CountedAsIs` | app/routers/workspaces.py:537-540 | Known statuses count as themselves, unknown ones as pending or confirmed by their review flag |
| `ReviewGate.PackAfterGateIff` | app/routers/workspaces.py:748-780 | With other work between the gate and the pack, the pack of a workspace that was ready accounts for every item it reads if and only if no item was last given an open status in between |
| `ReviewGate.ClassificationSlipsIntoPack` | app/routers/workspaces.py:748-780 | A run that is ready at the gate and classifies one result before the pack, which then leaves an item out of both buckets |
| `ReviewGate.ClassificationClosesGate` | app/models/tax_item.py:34-39 | New classification results always close the gate |
| `ReviewGate.ReadyIffNoReason` | app/routers/workspaces.py:542-564 | The five counters of the summary say together exactly that the workspace is ready |
| `ReviewGate.PackAccountsForAllIff` | app/services/export/encrypted_pack.py:136-152 | For rows of any origin, a ready workspace's review pack accounts for every item if and only if no row has an unknown status; no modelled route produces such a row |
| `ReviewGate.UnknownStatusLeavesPack` | app/services/export/encrypted_pack.py:136-152 | A ready workspace whose only item counts as confirmed and is in no bucket |
| `ReviewGate.RefusedStatusChangeSticks` | app/routers/workspaces.py:430-439 | The step of a status change that finds no key: refused, yet stored, and without effect exactly when the item already had that status and flag |
| `StatusRequests.LockedReplyIff` | app/routers/workspaces.py:407-466 | A status change the gate let in is always stored; it is answered "locked" if and only if, between gate and write, the token was locked, logged out, found expired or ended by a reset, or its key ran out |
| `SessionLife.KeyFoundIff` | app/services/security/key_cache.py:18-30 | A cached key is found later if and only if it has not expired and nothing closed its token in between |
| `StatusRequests.LockBetweenGateAndWrite` | app/routers/workspaces.py:431-439 | A run with a lock between gate and write: refused as locked, and the item is confirmed |
| `ReviewGate.Workspace.SetItemReviewStatus` | app/routers/workspaces.py:407-466 | Status, flag and reviewed-by column, with each refusal and what it leaves behind |
| `ReviewGate.Workspace.CreateManualItem` | app/routers/workspaces.py:607-657 | A linked item with a known status; a document that awaited review becomes reviewed |
| `ReviewGate.Workspace.ApplyManualReviewAction` | app/routers/workspaces.py:671-706 | The two document actions and their refusals |
| `ReviewGate.Workspace.CountUnresolved` | app/routers/workspaces.py:526-535 | Counts exactly the documents that await review and have no items |
| `ReviewGate.Workspace.CountStatuses` | app/routers/workspaces.py:537-540 | Every item counted under exactly one status, unknown ones by their review flag |
| `ReviewGate.Workspace.ReviewSummary` | app/routers/workspaces.py:513-566 | The verdict is readiness, and the reasons listed are exactly those that apply, with their numbers |
| `ReviewGate.BucketCounts` | app/services/export/encrypted_pack.py:136-138 | Each bucket of the review pack holds exactly the items of its status, as often as the workspace does |
| `ReviewGate.Workspace.PackReport` | app/services/export/encrypted_pack.py:136-161 | Totals and buckets of the review pack |

## Left out

- Cryptography itself: KDF cost, nonces of wrapped keys, base64, SHA-256 and AES-GCM internals, tampering with ciphertexts.
- Password policy: a boolean of the request. HTTP status mapping, cookies, audit rows, IP and user-agent columns.
- Database transactions, except that a request passing the session check or the gate may end without a commit, and that a job's handlers commit as they go; database errors half way through a step.
- A second user: setup refuses one, so there is a single user row. Its deactivation is not modelled.
- Deletions of documents, items, sessions and jobs; the bulk-review and legacy item routes.
- No starvation-freedom of the queue: a job whose worker dies stays running for ever.
- RateLimit.RateLimiter.Handle: limits allow at least one request in a positive window, with distinct patterns free of colons, as the application configures them; whether a pattern matches a path is a parameter of the request.
- RateLimit.RetryAfterSufficesIff: the wait is measured by the same clock as the limiter.
- Otsu.OtsuThreshold: floats are reals, so ties and maxima are exact. The same holds for the stretch table.
- Deskewing, pytesseract, pdfplumber, grey-scale conversion and the providers' network calls.
- Text.Strip: only ASCII white space. Stripping, joining and blank tests are otherwise the code's.
- JsonReply.ReplyRoundTrip: of the JSON parser only that it reads back the print of the one object in question; for which objects Python's parser does (member names not repeated, numbers in the form it would print) is not modelled, and non-ASCII escapes are not printed.
- Pipeline.IngestionJob.RunJob: start and completion times, result summaries and status-reason texts are omitted; warnings of OCR have no effect on the outcome.
- Pipeline.IngestionJob.ClassifyDocument: categories, amounts, descriptions and parsed output of the records.
- Listings.ListWorkspaceItems: the order of the list.
- Migration completion percentages; the single page of recent audit events of the security status.
- Mock provider tables, compliance texts, category and financial-year maps, export ZIP and CSV writing, export encryption and clean-up, storage adapters, database migrations, seed scripts and the frontend.
