# AsterForge: state under concurrency, failure and partial knowledge

This project models the places where AsterForge keeps small shared state while other tasks,
processes or servers act at the same time, and proves what that state promises.

* Step machines (`Coordinator`, `Refresh`, `RefreshRace`, `ScheduledTask`, `RuntimeLease`, `MailOutbox`,
  `InsertRace`, `RedisRuns`, `Bloom`, `ConfigReload`, `Alloc`) cut each operation into its atomic actions: a
  lock-protected section, one SQL statement, one atomic instruction, one call into a library. A
  run is any sequence of such steps by any number of callers, so a theorem over all runs is a
  theorem over all interleavings (`RedisRuns` alone is sequential: its steps are whole operations).
  A step that is not possible in a state leaves it unchanged.
* Classes (`RefreshCoordinator`, `Store`, `RefreshService`, `ScheduledTaskStore`,
  `RuntimeLeaseStore`, `MailOutboxStore`, `ReservationSet`, `ReservationGuard`, `Cache`,
  `Availability`, `RedisCacheInner`, `BloomFilter`, `BloomRebuild`, `SyncRuntimeConfig`,
  `TrackingAlloc`) carry the source's fields and update them in place; each method is tied to the
  step function, or states the new contents outright.
* Plain functions and lemmas cover the pure parts: the refresh classifier, token windows, the two
  escapers against written-out glob and LIKE matchers, sorting and cursors.

Clock readings, identifiers, system-allocator results, Redis replies and store conflicts are
parameters. Where the model needs an assumption about them it is a hypothesis of the theorem
(`Refresh.Fresh`, `RedisRuns.ScanContract`, `Alloc.Fits`, unique row ids for pagination).

Three promises do not hold of the source as it stands. For each the exact condition is proved for
all inputs, and a lemma exhibits a run that fails it:

* scheduled tasks are fenced by owner and claim instant, so an outdated claim of the same owner and
  instant passes (`FenceIsExactIff`, `CompletionAdvances`, `FiringsCompleteOnceIff`;
  `SameInstantDefeatsTheFence`);
* a lookup that finds an expired value drops the reservation of the key, whoever holds it
  (`SingleIffNotRobbed`, `AlwaysSingleIff`; `LateLookupLetsTwoWin`);
* replacing and applying rows differ when a key repeats (`ConsistentRowsAgree`;
  `RepeatedKeyDiffers`).

| module | file it models |
|---|---|
| `Coordinator` | `aster_forge_auth` refresh coordinator |
| `Jwt`, `Refresh`, `RefreshRace` | token windows, refresh rotation, its in-memory store, its service and concurrent calls of it |
| `ScheduledTask`, `RuntimeLease`, `MailOutbox` | claims, leases and outbox of `aster_forge_db` |
| `Reservation`, `MemoryCache`, `InsertRace`, `RedisRuns`, `RedisCache`, `Bloom` | the cache stack |
| `RuntimeConfig`, `ConfigReload` | configuration snapshots and the reload lock |
| `Pagination`, `AuditLog`, `SystemConfig` | keyset pagination and its two queries |
| `Escapers` | the Redis glob and SQL LIKE escapers |
| `Alloc` | the allocator's counters |
| `Wrappers`, `Text` | `Option`, `Result` and string tests used by the others |

## Model

| member | source | states |
|---|---|---|
| `Coordinator.OneLiveLockPerJti` | crates/aster_forge_auth/src/coordinator.rs:84-155 | In every interleaving all live references for a JTI are to one lock object, and at most one reservation holds its guard, even when a new lock appears between another reservation's lock drop and its clean-up. |
| `Coordinator.BudgetBounds` | crates/aster_forge_auth/src/coordinator.rs:71-82 | Always tracked ids <= active requests <= maximum, and the free permits are exactly the rest. |
| `Coordinator.QuiescentIsClean` | crates/aster_forge_auth/src/coordinator.rs:138-155 | Once nobody owns a permit the table and all mutexes are empty and the whole budget is back. |
| `Coordinator.DeadEntryHasSweeper` | crates/aster_forge_auth/src/coordinator.rs:138-155 | Each dead table entry has a reservation for its JTI whose clean-up is still to run. |
| `Coordinator.GrantIff` | crates/aster_forge_auth/src/coordinator.rs:120-127 | A request about to poll the mutex gets the guard iff nobody holds its JTI; a waiting request polled without interference gets it iff moreover the coordinator is open and the request not cancelled. |
| `Coordinator.StepRefines` | crates/aster_forge_auth/src/coordinator.rs:84-155 | Every step is one step, or none, of a plain mutex per JTI behind a bounded admission set. |
| `Coordinator.ClosedOnlyDrains` | crates/aster_forge_auth/src/coordinator.rs:88-127 | After close no request begins, over any continuation, and whoever holds a guard then held it at close or had passed its wait's closed test and was about to poll the mutex. |
| `Coordinator.StoppedGoesNoFurther` | crates/aster_forge_auth/src/coordinator.rs:89-127 | Once closed or cancelled, over any continuation, a request takes a permit at most once and only if past the test at its start, and a guard at most once and only if past the test of its wait. |
| `Coordinator.GrantAfterClose` | crates/aster_forge_auth/src/coordinator.rs:120-127 | In every reachable state a request past that test is indeed granted a guard after close when nobody holds its JTI. |
| `Coordinator.EveryStateDrains` | crates/aster_forge_auth/src/coordinator.rs:84-155 | No deadlock: from every reachable state the requests' own next steps alone, giving up a wait only when closed or cancelled, end every request and leave table, mutexes and budget clean. |
| `Coordinator.Drains` | crates/aster_forge_auth/src/coordinator.rs:84-155 | The steps that do so, one request after the other, a holder of a mutex first. |
| `Coordinator.EntriesAreTracked` | crates/aster_forge_auth/src/coordinator.rs:76-82 | A set of table entries with a tracker each is no larger than the set of trackers. |
| `Coordinator.RunKeepsInv` | crates/aster_forge_auth/src/coordinator.rs:84-155 | The permit balance, the table/reference agreement, the mutex/holder agreement and the tracker of each entry hold over whole runs. |
| `Coordinator.RefreshCoordinator.FromLimit` | crates/aster_forge_auth/src/coordinator.rs:52-58 | A new coordinator is open, with the whole budget free and no entries. |
| `Coordinator.RefreshCoordinator.New` | crates/aster_forge_auth/src/coordinator.rs:46-51 | Limits are accepted iff positive and within the semaphore's maximum. |
| `Coordinator.RefreshCoordinator.ActiveRequests` | crates/aster_forge_auth/src/coordinator.rs:71-74 | The answer is the number of permit owners. |
| `Coordinator.RefreshCoordinator.TrackedIds` | crates/aster_forge_auth/src/coordinator.rs:76-82 | The answer is the number of entries and never exceeds the number of active requests. |
| `Coordinator.RefreshCoordinator.BeginAcquire` | crates/aster_forge_auth/src/coordinator.rs:84-91 | A request starts iff the coordinator is open and it is not cancelled. |
| `Coordinator.RefreshCoordinator.TryAcquirePermit` | crates/aster_forge_auth/src/coordinator.rs:92-97 | A permit is granted iff fewer than maximum requests are active. |
| `Coordinator.RefreshCoordinator.LookUpLock` | crates/aster_forge_auth/src/coordinator.rs:98-119 | The caller joins the live lock of its JTI or replaces a dead or missing entry. |
| `Coordinator.RefreshCoordinator.PollTokens` | crates/aster_forge_auth/src/coordinator.rs:120-123 | Polling the tokens lets a waiting request go on to the mutex iff it is not cancelled and the coordinator is open. |
| `Coordinator.RefreshCoordinator.PollGuard` | crates/aster_forge_auth/src/coordinator.rs:124 | Polling the mutex takes the guard iff nobody holds the JTI; otherwise the request goes on waiting. |
| `Coordinator.RefreshCoordinator.ReleaseGuard` | crates/aster_forge_auth/src/coordinator.rs:138-140 | Dropping the guard or the queued future frees the mutex only when it was held. |
| `Coordinator.RefreshCoordinator.ReleaseLock` | crates/aster_forge_auth/src/coordinator.rs:141 | The reservation's lock reference goes after the guard and before the clean-up. |
| `Coordinator.RefreshCoordinator.SweepEntry` | crates/aster_forge_auth/src/coordinator.rs:142-155 | The clean-up removes the entry of the JTI only when its lock is dead. |
| `Coordinator.RefreshCoordinator.ReleasePermit` | crates/aster_forge_auth/src/coordinator.rs:131-137 | The permit comes back last, after the clean-up. |
| `Coordinator.RefreshCoordinator.CancelRequest` | crates/aster_forge_auth/src/coordinator.rs:120-127 | Cancelling only marks the request, in whatever phase it is; the invariant is kept. |
| `Coordinator.RefreshCoordinator.CloseAll` | crates/aster_forge_auth/src/coordinator.rs:61-63 | Closing keeps every reservation and the invariant. |
| `Jwt.IssuedWindow` | crates/aster_forge_auth/src/jwt.rs:328-385 | Issuance fails iff an instant is not representable; an issued credential is accepted, for its own type only, exactly while iat - leeway <= now < exp + leeway. |
| `Jwt.AcceptedIff` | crates/aster_forge_auth/src/jwt.rs:417-473 | Arbitrary claims are accepted, unchanged, iff issuer, audience, type, identity and times are well formed and the instant lies between the later start less the leeway and the expiry plus the leeway. |
| `Jwt.RejectedBecause` | crates/aster_forge_auth/src/jwt.rs:436-473 | Each error of the verifier is given exactly for its own cause: the first that applies, from the issuer over type, identity and well-formedness to the times. |
| `Jwt.NextVersion` | crates/aster_forge_auth/src/jwt.rs:51-57 | The next session version is strictly larger, and fails exactly at the largest one. |
| `Jwt.AcceptanceIsAnInterval` | crates/aster_forge_auth/src/jwt.rs:417-473 | Whatever the claims, acceptance times form an interval, and expired stays expired. |
| `Refresh.SingleUse` | crates/aster_forge_auth/examples/session_flow.rs:20-49 | Over every run with fresh identities no refresh identity is exchanged twice. |
| `Refresh.OneChain` | crates/aster_forge_auth/examples/session_flow.rs:29-47 | Each rotation starts from the identity the login or rotation just before it produced. |
| `Refresh.ReuseEndsGeneration` | crates/aster_forge_auth/examples/session_flow.rs:29-47 | After a committed reuse no request of that or an earlier version rotates, and all later entries have later versions. |
| `Refresh.HistoryDecides` | crates/aster_forge_auth/src/refresh.rs:118-165 | For a live session the place of an identity in the rotation history decides: the head rotates; its predecessor is stale exactly when the client of the last login or rotation retries within the window after it; anything older or unknown is reuse under both policies. |
| `Refresh.TransitionMeaning` | crates/aster_forge_auth/examples/session_flow.rs:20-49 | Rotated, stale, reuse, expired and errors are each answered exactly for their own kind of request, stated in the session's and the request's fields; a rotation leaves exactly the new identity, its deadline, the instant and the client, a reuse the next version without session, all else nothing. |
| `Refresh.StrangersChangeNothing` | crates/aster_forge_auth/src/refresh.rs:118-145 | A credential of another session or generation, or one that comes too late, neither rotates nor revokes, and says no more than unavailable or expired. |
| `Refresh.PreparedRequest` | crates/aster_forge_auth/src/refresh.rs:318-350 | The store's request carries the token's subject, session, version, restriction and identity, the issued identity and deadline, the call's client and instant and the service's policy; its own deadline is the verifier's expiry bound. |
| `Refresh.PreparedIff` | crates/aster_forge_auth/src/refresh.rs:318-333 | A request is prepared iff the token verifies again, the new expiries are representable, the new identity differs and the call is not cancelled. |
| `Refresh.RunKeepsInv` | crates/aster_forge_auth/examples/session_flow.rs:20-49 | History, spent identities, chain and versions agree with the store over whole runs. |
| `Refresh.Store.Apply` | crates/aster_forge_auth/examples/session_flow.rs:20-49 | Rotates iff a live session's current identity is presented, and then writes the new identity, its deadline, the instant and the client; answers stale iff a retry, reuse iff neither, then ending the generation; otherwise writes nothing. |
| `Refresh.Store.RotateRefresh` | crates/aster_forge_auth/examples/session_flow.rs:54-59 | Rotates iff a live session's current identity is presented, and then writes all of the new session's fields. |
| `Refresh.Store.ResolveConflict` | crates/aster_forge_auth/examples/session_flow.rs:60-66 | A lost race only rejects, stale iff a retry and reuse iff neither current nor a retry; it leaves the session as it was or revokes it. |
| `Refresh.RefreshService.RefreshWithCancellation` | crates/aster_forge_auth/src/refresh.rs:306-364 | For one call, given the coordinator's answer: credentials are released iff token, queue, issuance and race allow it and the token carries the live session's current identity, which is iff its rotation was committed; every other answer and error is the one verification, queue, preparation or store gave. |
| `RefreshRace.ReleasedOnce` | crates/aster_forge_auth/src/refresh.rs:306-364 | Over every interleaving of calls, coordinator steps, logins and dropped futures on one store, each presented identity has credentials released at most once, backed by a committed rotation from it to the released identity. |
| `RefreshRace.OneCallPerIdentity` | crates/aster_forge_auth/src/refresh.rs:306-364 | Between its reservation and its answer a call is alone with the identity it presented, through the coordinator's own steps. |
| `RefreshRace.LoneCallReleases` | crates/aster_forge_auth/src/refresh.rs:306-364 | From its arrival to its answer, with nobody else at work, a call of a good current credential is released its new one. |
| `RefreshRace.AnswersAlone` | crates/aster_forge_auth/src/refresh.rs:318-364 | A call that holds its guard and is left alone releases credentials iff the credential is still good and current, and then for the new identity. |
| `RefreshRace.ReservesAlone` | crates/aster_forge_auth/src/refresh.rs:312-317 | With nobody in the coordinator a verified credential gets its reservation. |
| `RefreshRace.RotatedAwayForGood` | crates/aster_forge_auth/examples/session_flow.rs:20-49 | An identity that any call rotated away from never rotates again. |
| `RefreshRace.StoppedReachesNoStore` | crates/aster_forge_auth/src/refresh.rs:331-358 | Once the coordinator is closed or the call cancelled, over any continuation, the call asks the store at most once, and only with the request it had prepared before. |
| `RefreshRace.RunKeepsInv` | crates/aster_forge_auth/src/refresh.rs:306-364 | Coordinator, store trace, guards of the calls at work and releases agree over whole runs. |
| `ScheduledTask.OwnershipWindowsAreDisjoint` | crates/aster_forge_db/src/scheduled_task.rs:393-437 | With any clocks and tokens, a claim's instant is at or after the expiry its predecessor last recorded, unless the predecessor completed. |
| `ScheduledTask.DueTaskIsClaimedIff` | crates/aster_forge_db/src/scheduled_task.rs:379-437 | In every reachable state a runtime that reads a row and updates it claims the task iff the request is valid, the row is due and the present claim, if any, has expired; the claim is exactly that token. |
| `ScheduledTask.OnlyTheHolderWrites` | crates/aster_forge_db/src/scheduled_task.rs:439-488 | In every run a valid renewal or completion succeeds iff its token has the owner and instant of the present claim; for a token this means being the holder iff it is not confused with another claim. |
| `ScheduledTask.FenceIsExactIff` | crates/aster_forge_db/src/scheduled_task.rs:439-488 | In every run: each issued token that passes the fence is the holder iff no issued token shares the holder's owner and instant without being it. |
| `ScheduledTask.DistinctInstantsSuffice` | crates/aster_forge_db/src/scheduled_task.rs:393-437 | Claims of a task told apart by owner and instant leave no issued token confused. |
| `ScheduledTask.CompletionAdvances` | crates/aster_forge_db/src/scheduled_task.rs:463-488 | In every run: all completions by a token move the schedule strictly forward iff the token is not outdated, that is, iff it does not share the present claim's owner and instant while having claimed an earlier firing. |
| `ScheduledTask.FiringsCompleteOnceIff` | crates/aster_forge_db/src/scheduled_task.rs:463-488 | In every run in which only issued claims are completed: no firing of a task is completed twice iff no token was outdated when it completed. |
| `ScheduledTask.DistinctClaimsCompleteOnce` | crates/aster_forge_db/src/scheduled_task.rs:393-488 | In every run with distinct (owner, instant) pairs per task and issued tokens no firing is completed twice. |
| `ScheduledTask.CompletionsInOrderIff` | crates/aster_forge_db/src/scheduled_task.rs:463-488 | In every run: each completion is of a firing no earlier than every earlier completion scheduled iff no token but a task's first was outdated when it completed. |
| `ScheduledTask.OutdatedTokenCompletes` | crates/aster_forge_db/src/scheduled_task.rs:463-488 | After any run an outdated token of a task that completed before can complete once more, out of order. |
| `ScheduledTask.ScheduleNeverRewinds` | crates/aster_forge_db/src/scheduled_task.rs:316-377 | In every run no step drops a task, and only a completion by an outdated token moves its schedule back. |
| `ScheduledTask.SameInstantDefeatsTheFence` | crates/aster_forge_db/src/scheduled_task.rs:393-488 | A run with an outdated token: one owner claims twice at one instant and the first token completes its firing twice, out of order. |
| `ScheduledTask.RunKeepsInv` | crates/aster_forge_db/src/scheduled_task.rs:316-488 | Rows, holders, expiries and schedules agree with the log, and each event with what it found, over all runs. |
| `ScheduledTask.ScheduledTaskStore.EnsureTask` | crates/aster_forge_db/src/scheduled_task.rs:316-377 | Exactly valid entries are accepted; a new row has the given name and schedule and no claim, an existing one is at most renamed. |
| `ScheduledTask.ScheduledTaskStore.UpdateClaim` | crates/aster_forge_db/src/scheduled_task.rs:393-437 | With an arbitrarily stale read the claim succeeds iff the request is valid and both the row as read and the row as it is are available for the same firing, and writes owner, expiry and instant. |
| `ScheduledTask.ScheduledTaskStore.ClaimDue` | crates/aster_forge_db/src/scheduled_task.rs:379-437 | Without interference a task is claimed iff it is due and has no owner, no expiry or an expiry at or before now; token, row, refusals and errors are stated in the row's fields. |
| `ScheduledTask.ScheduledTaskStore.RenewClaimOf` | crates/aster_forge_db/src/scheduled_task.rs:439-461 | A valid renewal succeeds iff the row has the token's owner and instant, and moves only the expiry. |
| `ScheduledTask.ScheduledTaskStore.CompleteClaimOf` | crates/aster_forge_db/src/scheduled_task.rs:463-488 | A completion succeeds iff it advances past the claimed firing and the row has the token's owner and instant, and then reschedules and frees the row. |
| `RuntimeLease.OwnershipWindowsAreDisjoint` | crates/aster_forge_db/src/runtime_lease.rs:189-252 | Another owner takes a lease no earlier than the recorded expiry, unless the holder released it. |
| `RuntimeLease.OnlyHolderRenewsOrReleases` | crates/aster_forge_db/src/runtime_lease.rs:254-287 | A renewal or release takes effect iff the caller is the holder. |
| `RuntimeLease.AcquiredLinearizes` | crates/aster_forge_db/src/runtime_lease.rs:163-252 | A call answers acquired iff exactly one of its statements, inside its interval, took the lease for it. |
| `RuntimeLease.AcquiresAlone` | crates/aster_forge_db/src/runtime_lease.rs:189-252 | From every reachable state a call left alone takes the lease iff nobody holds it and the insert is not refused, the caller holds it, or the holder's expiry has passed; otherwise it reports the holder. |
| `RuntimeLease.StandbyNamesHolder` | crates/aster_forge_db/src/runtime_lease.rs:215-252 | In every reachable state the reading step goes on to the update iff the holder is the caller or expired, and each standby answer names the holder of that moment. |
| `RuntimeLease.RunKeepsInv` | crates/aster_forge_db/src/runtime_lease.rs:163-287 | Table, log and call outcomes agree over whole runs. |
| `RuntimeLease.RuntimeLeaseStore.TryAcquire` | crates/aster_forge_db/src/runtime_lease.rs:163-252 | Without interference a lease is acquired iff it is free and can be inserted, or the row's owner is the caller, or the row's expiry is at or before now; the insert's own error is returned iff it failed with no row present; otherwise the holder is reported and nothing changes. |
| `RuntimeLease.RuntimeLeaseStore.InsertLease` | crates/aster_forge_db/src/runtime_lease.rs:189-208 | The insert succeeds iff no row exists and the database does not refuse, and then names the caller. |
| `RuntimeLease.RuntimeLeaseStore.UpdateLease` | crates/aster_forge_db/src/runtime_lease.rs:225-243 | The conditional update takes the row iff its owner is the caller or its expiry is at or before now, keeping its creation time. |
| `RuntimeLease.RuntimeLeaseStore.RenewLease` | crates/aster_forge_db/src/runtime_lease.rs:254-272 | Renewal extends only the caller's own lease. |
| `RuntimeLease.RuntimeLeaseStore.ReleaseLease` | crates/aster_forge_db/src/runtime_lease.rs:274-287 | Release removes only the caller's own lease. |
| `MailOutbox.ClaimsAreConserved` | crates/aster_forge_db/src/mail_outbox.rs:510-626 | Timestamps and payload follow the status, each claim is taken over, answered by one mark or still open, and at most one terminal mark succeeds. |
| `MailOutbox.DueRowIsClaimedIff` | crates/aster_forge_db/src/mail_outbox.rs:510-532 | In every reachable state a row is claimed iff it is pending or to be retried and due, or its processing is stale. |
| `MailOutbox.TerminalRowsNeverChange` | crates/aster_forge_db/src/mail_outbox.rs:534-626 | Sent and failed rows never change again. |
| `MailOutbox.MailIsKept` | crates/aster_forge_db/src/mail_outbox.rs:467-490 | Until a terminal state the payload, recipient and creation time are those enqueued. |
| `MailOutbox.MailOutboxStore.CreateRow` | crates/aster_forge_db/src/mail_outbox.rs:467-490 | A row is created iff the request is valid, under a new id. |
| `MailOutbox.MailOutboxStore.ClaimRow` | crates/aster_forge_db/src/mail_outbox.rs:510-532 | A claim takes effect iff the row is pending or to be retried and due, or processing since the stale bound or longer, and marks it processing from now. |
| `MailOutbox.MailOutboxStore.MarkSent` | crates/aster_forge_db/src/mail_outbox.rs:534-560 | Marks a row sent and clears its payload iff it is being processed. |
| `MailOutbox.MailOutboxStore.MarkRetry` | crates/aster_forge_db/src/mail_outbox.rs:562-591 | Reschedules a row with its attempt count, next attempt and error, payload kept, iff it is being processed. |
| `MailOutbox.MailOutboxStore.MarkFailed` | crates/aster_forge_db/src/mail_outbox.rs:593-626 | Marks a row failed with its attempt count and error and clears its payload iff it is being processed. |
| `Reservation.ReservationSet.RemoveEntry` | crates/aster_forge_cache/src/reservation.rs:26-31 | Removal keeps the two indexes in exact agreement. |
| `Reservation.ReservationSet.Expire` | crates/aster_forge_cache/src/reservation.rs:32-43 | Popping expired deadlines one by one leaves exactly the entries with a later deadline. |
| `Reservation.ReservationSet.Reserve` | crates/aster_forge_cache/src/reservation.rs:53-64 | Refines a plain map: true iff after expiry the key is absent and there is room, with the exact new contents. |
| `Reservation.ReservationSet.InvalidatePrefix` | crates/aster_forge_cache/src/reservation.rs:100-111 | Exactly the entries without the prefix remain, in both indexes. |
| `Reservation.ReservationSet.ReserveGuarded` | crates/aster_forge_cache/src/reservation.rs:81-94 | A guard is handed out iff the key was reserved. |
| `Reservation.ReservationGuard.Drop` | crates/aster_forge_cache/src/reservation.rs:139-150 | Dropping releases the reservation iff the guard was not committed; a committed one keeps it. |
| `Reservation.ReservationSet.Remove` | crates/aster_forge_cache/src/reservation.rs:96-98 | Exactly the key's reservation is gone. |
| `Reservation.ReservationStands` | crates/aster_forge_cache/src/reservation.rs:45-120 | Over any operations that do not end it, a reservation stands and nobody else gets the key. |
| `Reservation.ReservationEnds` | crates/aster_forge_cache/src/reservation.rs:45-120 | Each operation said to end a reservation ends it, so the list is exact. |
| `Reservation.SizeIsBounded` | crates/aster_forge_cache/src/reservation.rs:53-64 | The bound of 65536 entries is never exceeded, whatever the instants. |
| `Reservation.FirstExists` | crates/aster_forge_cache/src/reservation.rs:32-43 | A non-empty deadline index has a least entry for the expiry loop to pop. |
| `MemoryCache.Cache.GetBytes` | crates/aster_forge_cache/src/memory.rs:111-123 | Serves the stored bytes while live; a value that expires between the two checks only loses its reservation. |
| `MemoryCache.Cache.TakeBytes` | crates/aster_forge_cache/src/memory.rs:125-132 | Removes value and reservation and serves the value iff live. |
| `MemoryCache.Cache.SetBytes` | crates/aster_forge_cache/src/memory.rs:134-138 | Stores the value with its own deadline and leaves reservations alone. |
| `MemoryCache.Cache.SetBytesIfAbsent` | crates/aster_forge_cache/src/memory.rs:140-162 | Inserts iff no live value is seen before or after reserving and the key can be reserved, with a rival set in between; a refusal stores nothing and a loser gives its reservation back. |
| `MemoryCache.Cache.PublishReserved` | crates/aster_forge_cache/src/memory.rs:148-161 | After reserving, the second look decides: publish and keep the reservation, or give it back. |
| `MemoryCache.Cache.CacheValue` | crates/aster_forge_cache/src/memory.rs:29-43 | From its creation a value is visible exactly until its lifetime is over, and never when that end is not representable. |
| `MemoryCache.Cache.Delete` | crates/aster_forge_cache/src/memory.rs:164-167 | Removes the value and the reservation of the key. |
| `MemoryCache.Cache.DeleteMany` | crates/aster_forge_cache/src/memory.rs:169-173 | Removes exactly the listed keys from values and reservations. |
| `MemoryCache.Cache.InvalidatePrefix` | crates/aster_forge_cache/src/memory.rs:175-186 | Removes exactly the keys under the prefix from values and reservations. |
| `InsertRace.AtMostOneWinner` | crates/aster_forge_cache/src/memory.rs:111-162 | In every interleaving of inserts, lookups, sets, evictions, deletions and dropped futures, from any state with a single owner at most, one insert-if-absent of a key answers true until a step robs the key. |
| `InsertRace.UnwindingHurtsNobody` | crates/aster_forge_cache/src/reservation.rs:135-150 | Until then a loser about to give back a reservation gives back only its own. |
| `InsertRace.InsertAlone` | crates/aster_forge_cache/src/memory.rs:140-162 | Run without interference, the interleaved insert has exactly the outcome of the cache object's own method. |
| `InsertRace.LookupAlone` | crates/aster_forge_cache/src/memory.rs:111-123 | Run without interference, the interleaved lookup leaves exactly what the cache object's own method leaves. |
| `InsertRace.AlwaysSingleIff` | crates/aster_forge_cache/src/memory.rs:111-162 | Through a whole run a key has at most one owner, with its reservation, iff no step robs it. |
| `InsertRace.SingleIffNotRobbed` | crates/aster_forge_cache/src/memory.rs:111-162 | A step keeps a key's single, reserved ownership iff it does not rob it: forgetting the key in a lookup while it is owned, forgetting one's own reservation, purging it at its deadline or deleting it. |
| `InsertRace.CalmRunsRobNothing` | crates/aster_forge_cache/src/memory.rs:111-162 | While lookups of a key find live values, reservations are made before its deadline and nothing deletes it, no step robs it. |
| `InsertRace.CalmRunHasOneWinner` | crates/aster_forge_cache/src/memory.rs:111-162 | From the empty cache a calm run has at most one winner per key. |
| `InsertRace.ForgottenKeyLetsTwoWin` | crates/aster_forge_cache/src/memory.rs:111-162 | From any state where a lookup is about to forget a key that an insert is about to publish, the step robs the key and two inserts can win. |
| `InsertRace.FreeKeyLetsTwoWin` | crates/aster_forge_cache/src/memory.rs:111-162 | From any state where an insert is about to publish but its key is free, a second insert of the key can win as well. |
| `InsertRace.LateLookupLetsTwoWin` | crates/aster_forge_cache/src/memory.rs:111-123 | For any key, old value and lifetime: a lookup that reads just before the deadline and checks at it robs a new reservation, and two inserts win. |
| `RedisRuns.FallbackIsAuthored` | crates/aster_forge_cache/src/redis_cache.rs:384-506 | Whatever the fallback may hold was written locally, and since then no Redis command on the key succeeded and nothing deleted or replaced it. |
| `RedisRuns.FallbackServesAuthored` | crates/aster_forge_cache/src/redis_cache.rs:384-506 | Over every sequential run, each value a lookup or take serves from the fallback was written locally, and since then no Redis command on the key succeeded and nothing wrote or deleted the key. |
| `RedisRuns.RunKeepsInv` | crates/aster_forge_cache/src/redis_cache.rs:359-506 | Over every sequential run the log respects the circuit, the kept deadline is the one the log sets, and the local values are among those the log accounts for. |
| `RedisRuns.StepKeepsInv` | crates/aster_forge_cache/src/redis_cache.rs:359-506 | Each of the eight operations keeps that invariant, whatever Redis replies. |
| `RedisRuns.OpenCircuitIssuesNothing` | crates/aster_forge_cache/src/redis_cache.rs:266-280 | An operation that is over before the deadline in force issues no command and leaves the deadline. |
| `RedisRuns.InvalidationMeaning` | crates/aster_forge_cache/src/redis_cache.rs:478-506 | Prefix invalidation never deletes a key outside the prefix in Redis, and when the scan gets through deletes every stored key under it; it got through iff its last event is a success. |
| `RedisRuns.SweepMeaning` | crates/aster_forge_cache/src/redis_cache.rs:482-505 | The page loop deletes scanned keys only, and all of them when it runs to cursor 0. |
| `RedisRuns.NoCommandDuringCooldown` | crates/aster_forge_cache/src/redis_cache.rs:266-352 | Over every sequential run of operations with rising instants, a command after an outage comes at least five seconds later (or not earlier, when that instant is not representable), unless a command succeeded in between. |
| `RedisRuns.CommandKeepsCircuit` | crates/aster_forge_cache/src/redis_cache.rs:266-352 | A command keeps the circuit respected, settles its deadline by the kind of reply, and ends the local values of its keys iff it succeeds. |
| `RedisRuns.CommandMeaning` | crates/aster_forge_cache/src/redis_cache.rs:266-352 | A command is issued iff no deadline lies ahead, answered iff it then succeeds, and an outage or time-out sets a deadline five seconds later. |
| `RedisRuns.RedisDecides` | crates/aster_forge_cache/src/redis_cache.rs:384-405 | With the circuit closed and a successful reply, a lookup and a take return exactly what Redis replied, and the local value is gone. |
| `RedisRuns.FallbackDecides` | crates/aster_forge_cache/src/redis_cache.rs:384-405 | Otherwise a lookup serves a local value live at both its readings, a take one that is live, and removes it. |
| `RedisRuns.SetMeaning` | crates/aster_forge_cache/src/redis_cache.rs:407-425 | A value is stored in Redis or, with its own deadline, locally; a zero lifetime deletes. |
| `RedisRuns.RedisDecidesInsert` | crates/aster_forge_cache/src/redis_cache.rs:427-460 | When Redis answers, an insert succeeds iff Redis set the key, or, for a zero lifetime, held nothing. |
| `RedisRuns.FallbackDecidesInsert` | crates/aster_forge_cache/src/redis_cache.rs:427-460 | Otherwise the local insert decides, and is logged iff it succeeds. |
| `RedisRuns.LocalInsertMeaning` | crates/aster_forge_cache/src/memory.rs:140-162 | A local insert succeeds iff no live value is seen, no later reservation of the key stands and fewer than 65536 stand, and then stores the value with its deadline. |
| `RedisRuns.DeleteMeaning` | crates/aster_forge_cache/src/redis_cache.rs:462-476 | Deletions take exactly the local values of their keys first, then issue the command; an empty list issues none. |
| `RedisRuns.HealthMeaning` | crates/aster_forge_cache/src/redis_cache.rs:359-382 | Healthy iff Redis answers the ping; only the deadline changes. |
| `RedisRuns.InvalidationIsLocal` | crates/aster_forge_cache/src/redis_cache.rs:478-479 | Exactly the local values and reservations under the prefix are gone, whatever Redis answers. |
| `RedisRuns.InvalidationReaches` | crates/aster_forge_cache/src/redis_cache.rs:478-506 | With a closed circuit and commands that all succeed every stored key under the prefix is deleted in Redis. |
| `RedisRuns.SweepGetsThrough` | crates/aster_forge_cache/src/redis_cache.rs:482-505 | With a closed circuit and commands that all succeed the page loop gets through and deletes every scanned key. |
| `RedisRuns.DeadlineInForce` | crates/aster_forge_cache/src/redis_cache.rs:575-597 | The deadline an outage set stays in force until a success or another outage. |
| `RedisCache.Availability.UnavailableFor` | crates/aster_forge_cache/src/redis_cache.rs:576-586 | Reports the remaining time iff the deadline is in the future and forgets a past one. |
| `RedisCache.Availability.MarkFailure` | crates/aster_forge_cache/src/redis_cache.rs:588-593 | Opens the circuit for the cooldown and says whether it was closed. |
| `RedisCache.Availability.MarkSuccess` | crates/aster_forge_cache/src/redis_cache.rs:595-597 | Closes the circuit and says whether a deadline was set. |
| `RedisCache.RedisCacheInner.RedisOperation` | crates/aster_forge_cache/src/redis_cache.rs:266-352 | A command is issued iff the circuit is closed, its value is returned iff it succeeded, and the deadline is settled by the kind of reply. |
| `RedisCache.RedisCacheInner.HealthCheck` | crates/aster_forge_cache/src/redis_cache.rs:359-382 | Healthy iff the circuit is closed and the ping succeeds. |
| `RedisCache.RedisCacheInner.GetBytes` | crates/aster_forge_cache/src/redis_cache.rs:384-395 | When the circuit is closed and Redis replies, its reply is returned and the local value is gone; otherwise a value served is the local one. State, log and answer are the run model's. |
| `RedisCache.RedisCacheInner.TakeBytes` | crates/aster_forge_cache/src/redis_cache.rs:397-405 | When the circuit is closed and Redis replies, its reply is returned; the local value is gone in every case. State, log and answer are the run model's. |
| `RedisCache.RedisCacheInner.SetBytes` | crates/aster_forge_cache/src/redis_cache.rs:407-425 | The run model's set: the value lives in Redis or, when that failed, in the fallback, never in both; a zero lifetime deletes. |
| `RedisCache.RedisCacheInner.SetBytesIfAbsent` | crates/aster_forge_cache/src/redis_cache.rs:427-460 | The run model's insert: Redis decides when it answers, by a read for a zero lifetime and a conditional insert otherwise; else the fallback's own insert-if-absent decides. |
| `RedisCache.RedisCacheInner.Delete` | crates/aster_forge_cache/src/redis_cache.rs:462-465 | The run model's delete: the local value goes first, whatever the command answers. |
| `RedisCache.RedisCacheInner.DeleteMany` | crates/aster_forge_cache/src/redis_cache.rs:467-476 | The run model's delete of a list: the listed local values go, and an empty list issues no command. |
| `RedisCache.RedisCacheInner.InvalidatePrefix` | crates/aster_forge_cache/src/redis_cache.rs:478-506 | The run model's invalidation: the local prefix goes first, then the pages are swept. |
| `RedisCache.RedisCacheInner.DeletePages` | crates/aster_forge_cache/src/redis_cache.rs:482-505 | The loop computes the run model's sweep: its events, its deadline and whether it got through. |
| `RedisCache.RedisCacheInner.constructor` | crates/aster_forge_cache/src/redis_cache.rs:232-239 | A new cache is the start of every run of the model: nothing stored, circuit closed, nothing logged. |
| `Bloom.NoFalseNegatives` | crates/aster_forge_cache/src/bloom.rs:63-173 | In every interleaving a key inserted since the last reset, or carried over by the committed rebuild, answers yes, and a yes means every position is covered by such keys. |
| `Bloom.BufferIffOneSession` | crates/aster_forge_cache/src/bloom.rs:114-173 | The buffer is active iff an uncommitted session exists, and there is at most one. |
| `Bloom.CommitCounts` | crates/aster_forge_cache/src/bloom.rs:154-166 | A commit reports the keys fed plus the keys inserted since the session started, saturating. |
| `Bloom.DropIsClean` | crates/aster_forge_cache/src/bloom.rs:168-173 | Dropping an uncommitted session only stops buffering; dropping a committed one disturbs no later session. |
| `Bloom.ControlMeaning` | crates/aster_forge_cache/src/bloom.rs:94-129 | A clear empties the filter and a start opens a session with empty replacement and buffer, iff the sizing is accepted and no session is open. |
| `Bloom.InsertMeaning` | crates/aster_forge_cache/src/bloom.rs:68-86 | Inserted keys reach the current filter and an active buffer. |
| `Bloom.SessionMeaning` | crates/aster_forge_cache/src/bloom.rs:141-173 | A session that runs to its end publishes its replacement with the buffered keys added; one dropped before leaves the filter; both stop buffering. |
| `Bloom.SetAllMeaning` | crates/aster_forge_cache/src/bloom.rs:77-86 | Setting keys sets exactly their positions. |
| `Bloom.RunKeepsInv` | crates/aster_forge_cache/src/bloom.rs:63-173 | The filter, each open replacement and the buffer hold exactly the keys the log says. |
| `Bloom.HeldBits` | crates/aster_forge_cache/src/bloom.rs:63-88 | A bit is set iff one of the keys set it. |
| `Bloom.BloomFilter.Contains` | crates/aster_forge_cache/src/bloom.rs:63-65 | Whatever keys the filter holds answer yes, and a yes means that each position of the key is a position of one of them. |
| `Bloom.BloomFilter.InsertOne` | crates/aster_forge_cache/src/bloom.rs:68-74 | Sets the key in the current filter and appends it to an active buffer. |
| `Bloom.BloomFilter.InsertMany` | crates/aster_forge_cache/src/bloom.rs:77-86 | Sets every key in the current filter and appends all of them to an active buffer. |
| `Bloom.BloomFilter.ClearAll` | crates/aster_forge_cache/src/bloom.rs:94-103 | Resets iff the sizing is valid and no session is active. |
| `Bloom.BloomFilter.StartRebuild` | crates/aster_forge_cache/src/bloom.rs:114-129 | A session starts, with an empty buffer, iff the sizing is valid and none is active. |
| `Bloom.BloomRebuild.InsertMany` | crates/aster_forge_cache/src/bloom.rs:141-149 | Sets every key in the replacement and counts them, saturating. |
| `Bloom.BloomRebuild.Commit` | crates/aster_forge_cache/src/bloom.rs:154-166 | Installs the replacement with the buffered keys added, stops buffering and returns the count. |
| `Bloom.BloomRebuild.Drop` | crates/aster_forge_cache/src/bloom.rs:168-173 | Stops buffering iff the session was not committed. |
| `RuntimeConfig.ReplaceIsApplyAndRemove` | crates/aster_forge_config/src/runtime.rs:309-391 | For distinct keys a replacement equals applying the rows and removing the missing keys: same snapshot, and the change lists are permutations of each other. |
| `RuntimeConfig.ConsistentRowsAgree` | crates/aster_forge_config/src/runtime.rs:106-113 | For rows that repeat keys both ways reach the same snapshot from every start iff a restart-only last row has only equal-to-first restart-only rows before it; otherwise they differ from the empty snapshot. |
| `RuntimeConfig.RepeatedKeyDiffers` | crates/aster_forge_config/src/runtime.rs:372-382 | Two rows of one key on which replacing and applying differ. |
| `RuntimeConfig.DiffIsAPatch` | crates/aster_forge_config/src/runtime.rs:539-560 | Applying the changes to the old snapshot gives the new one, in any order, and exactly the changed keys are reported. |
| `RuntimeConfig.DiffIsUnique` | crates/aster_forge_config/src/runtime.rs:539-560 | Key-sorted change lists with the same members are equal: the diff is determined by the snapshots. |
| `RuntimeConfig.DiffSnapshots` | crates/aster_forge_config/src/runtime.rs:519-560 | The loop reports exactly the differences, each key once, in key order. |
| `RuntimeConfig.PreserveRestartOnlyRecords` | crates/aster_forge_config/src/runtime.rs:505-517 | Exactly the restart-only rows of running keys keep the running record. |
| `RuntimeConfig.SyncRuntimeConfig.Replace` | crates/aster_forge_config/src/runtime.rs:309-316 | Exactly the keys of the rows remain, each with its last row, or the running record for a restart-only row of a running key; the diff is returned. |
| `RuntimeConfig.SyncRuntimeConfig.Apply` | crates/aster_forge_config/src/runtime.rs:372-382 | Applies one row unless it is restart-only for a running key; what it reports is the diff. |
| `RuntimeConfig.SyncRuntimeConfig.Remove` | crates/aster_forge_config/src/runtime.rs:385-391 | Removes one key; what it reports is the diff. |
| `ConfigReload.ReloadsAreSerial` | crates/aster_forge_config/src/runtime.rs:443-497 | In every interleaving the snapshot is the one the publications give one after the other, and each reload published rows read after every earlier publication. |
| `ConfigReload.LaterReloadReadLater` | crates/aster_forge_config/src/runtime.rs:443-456 | A reload that publishes after another publication read the store after it, so a slow load never overwrites a newer snapshot. |
| `ConfigReload.ReloadPublishesTheStore` | crates/aster_forge_config/src/runtime.rs:443-456 | Once the store is quiet, a reload that read it afterwards leaves its rows in the snapshot. |
| `ConfigReload.OneHolder` | crates/aster_forge_config/src/runtime.rs:423-497 | At most one task is past the update lock. |
| `ConfigReload.TasksAlone` | crates/aster_forge_config/src/runtime.rs:443-497 | With the lock free a reload publishes what the store holds and an update its one row under the restart rule; both give the lock back, and so does a task that leaves. |
| `ConfigReload.RunKeepsInv` | crates/aster_forge_config/src/runtime.rs:443-497 | Lock, store, snapshot and pending loads agree with the log over whole runs. |
| `Pagination.PagesAreTheSortedTable` | crates/aster_forge_api/src/cursor.rs:281-301 | Following cursors over an unchanging table ends after exactly enough pages, and the pages together are the table sorted once. |
| `Pagination.PageShowsTheFirst` | crates/aster_forge_api/src/cursor.rs:281-301 | A page is the first rows behind the cursor, in order, and says there is more iff there is. |
| `Pagination.ScanIsOrdered` | crates/aster_forge_api/src/cursor.rs:281-301 | With insertions and deletions between pages the rows shown are in order without repetition and come from the tables. |
| `Pagination.NoRowIsSkipped` | crates/aster_forge_api/src/cursor.rs:281-301 | A row present for every page is shown once the last page is reached. |
| `Pagination.NextPageContinues` | crates/aster_forge_db/src/audit_log.rs:728-744 | What lies behind the last row shown is exactly what the page left out. |
| `Pagination.SortSorts` | crates/aster_forge_db/src/audit_log.rs:737-744 | Sorting orders distinct rows and keeps each. |
| `Pagination.FromOverfetch` | crates/aster_forge_api/src/cursor.rs:281-301 | The slice is a prefix of what was fetched, full or everything, and says there is more iff it does not show all of it. |
| `AuditLog.FindWithFiltersCursor` | crates/aster_forge_db/src/audit_log.rs:693-745 | Filters added one by one, then the cursor condition, give the page of the rows matching all filters, with their total. |
| `AuditLog.QueryMeaning` | crates/aster_forge_db/src/audit_log.rs:700-741 | The filters are the query's, all bounds inclusive; the order is newest first with ids as tie-break; a cursor stands for the entry whose instant and id it carries. |
| `AuditLog.PageLimit` | crates/aster_forge_db/src/audit_log.rs:701 | A page holds between 1 and 200 rows, the requested number when in range and the nearer bound otherwise. |
| `AuditLog.PagesAreTheSortedLog` | crates/aster_forge_db/src/audit_log.rs:693-745 | For any limit the pages together are the matching rows sorted once by (created_at, id) descending, in exactly enough pages. |
| `AuditLog.PagesOverAChangingLog` | crates/aster_forge_db/src/audit_log.rs:693-745 | While entries are written and purged nothing is repeated, nothing present throughout is skipped, and all shown match. |
| `SystemConfig.FindCursor` | crates/aster_forge_db/src/system_config.rs:716-740 | The query answers the page behind the id, also by its empty-table shortcut. |
| `SystemConfig.OrderMeaning` | crates/aster_forge_db/src/system_config.rs:728-735 | Rows come by ascending id, and a cursor stands for the row whose id it is. |
| `SystemConfig.PageLimit` | crates/aster_forge_db/src/system_config.rs:721 | A page holds between 1 and 100 rows, the requested number when in range and the nearer bound otherwise. |
| `SystemConfig.PagesAreTheSortedConfig` | crates/aster_forge_db/src/system_config.rs:716-740 | For any limit the pages together are the table sorted once by ascending id, in exactly enough pages. |
| `SystemConfig.PagesOverAChangingConfig` | crates/aster_forge_db/src/system_config.rs:716-740 | The same over a table that changes between pages. |
| `Escapers.GlobChainIsOnePass` | crates/aster_forge_cache/src/redis_cache.rs:30-37 | The chained replacements escape each character of the input once. |
| `Escapers.ScanPatternMeansPrefix` | crates/aster_forge_cache/src/redis_cache.rs:30-37 | The escaped prefix with a star matches a key iff the key starts with the prefix. |
| `Escapers.LikeChainIsOnePass` | crates/aster_forge_db/src/search_query.rs:21-27 | The chained replacements escape each character of the query once. |
| `Escapers.LikePatternMeansContains` | crates/aster_forge_db/src/search_query.rs:21-27 | The escaped query between percent signs matches a text iff the text contains the query. |
| `Escapers.LowerLikePattern` | crates/aster_forge_db/src/search_query.rs:32-46 | The one-pass builder gives the escaped lower-cased query between percent signs. |
| `Alloc.CounterIsSum` | crates/aster_forge_alloc/src/lib.rs:38-93 | In every interleaving the counter is the sum of the recorded sizes modulo the word, and with no call in flight that is the sum of the live blocks. |
| `Alloc.NoUnderflow` | crates/aster_forge_alloc/src/lib.rs:45-47 | A subtraction never takes more than the counter holds. |
| `Alloc.PeakIsHighest` | crates/aster_forge_alloc/src/lib.rs:38-42 | The peak never exceeds the greatest value the counter took, and equals it once no call is in flight. |
| `Alloc.RunKeepsPeak` | crates/aster_forge_alloc/src/lib.rs:38-93 | The greatest value so far is always the peak or a sum some thread still holds. |
| `Alloc.RunKeepsBalance` | crates/aster_forge_alloc/src/lib.rs:54-93 | What is counted of each block follows the phase of the call at work on it, over whole runs. |
| `Alloc.CallsAlone` | crates/aster_forge_alloc/src/lib.rs:54-93 | Run without interference, the interleaved allocation, reallocation and deallocation leave the counters the allocator object's methods leave. |
| `Alloc.TrackingAlloc.RecordAlloc` | crates/aster_forge_alloc/src/lib.rs:38-42 | Adds the size and raises the peak to the new sum. |
| `Alloc.TrackingAlloc.RecordDealloc` | crates/aster_forge_alloc/src/lib.rs:45-47 | Subtracts the size and leaves the peak. |
| `Alloc.TrackingAlloc.Allocate` | crates/aster_forge_alloc/src/lib.rs:54-72 | Only a successful allocation is recorded. |
| `Alloc.TrackingAlloc.Deallocate` | crates/aster_forge_alloc/src/lib.rs:74-79 | A deallocation subtracts the block's size. |
| `Alloc.TrackingAlloc.Reallocate` | crates/aster_forge_alloc/src/lib.rs:81-93 | Only the difference of the sizes is recorded, only on success, and only growth can raise the peak. |

## Left out

- `Refresh.RefreshService.RefreshWithCancellation`: reservation and the store's conflict are parameters of one call; `RefreshRace` composes calls with the coordinator's steps. Signing, encoding and token size budgets are library calls; a token is its claims.
- `Refresh.SingleUse`: assumes that candidate identities were never in use before, as random identities are expected to be; the random source is not modelled.
- `ScheduledTask.FiringsCompleteOnceIff`: a completion is taken to be of a claim that was issued. Row ids are the joined namespace and name, so entries whose joined names coincide are one task, as in the source's primary key.
- `InsertRace.AtMostOneWinner`: a winner counts as owner of its key for good, so an insert that wins after the first one's reservation ended falls under a step that robs the key.
- `RedisRuns.FallbackServesAuthored`: runs are sequential; concurrent callers of one Redis cache are not interleaved, and values inside Redis are whatever the replies say.
- `RedisRuns.InvalidationMeaning`: SCAN's guarantees are assumed (it ends, returns matching keys only, and returns every key stored throughout).
- `RedisCache.RedisCacheInner.RedisOperation`: which Redis error kinds mean an outage is part of the reply, not derived from the error.
- `Reservation.ReservationSet.Expire`: equal deadlines are popped in either order, where the source orders them by key; the result is the same.
- `MemoryCache.Cache.SetBytesIfAbsent`: capacity eviction of the cache library is not part of the class; `InsertRace` has it as a step.
- `Bloom.NoFalseNegatives`: hash positions are a parameter of each filter; false-positive rates, sizing (`reserved_capacity`) and the bit layout are not modelled.
- `RuntimeConfig.ReplaceIsApplyAndRemove`: the fields of a row beside key and restart flag are one value; the asynchronous cache's identical functions are modelled once.
- `AuditLog.FindWithFiltersCursor`: columns that take no part in filtering or ordering are omitted, and the impossible width conversions of the page counts have no error branch.
- `Escapers.LowerLikePattern`: lower-casing is a parameter that leaves LIKE's own characters alone; the database's own LOWER is assumed to be the same function.
- `Alloc.PeakIsHighest`: assumes that the counted bytes fit a word, as the address space guarantees; without it only the sum modulo the word is proved.
- SQL text, schema builders, migrations, retries and time-outs of the database client: each statement is one atomic step on a table.
- `list_claimable` and the outbox dispatch loop, with their backoff: thin loops over the claims and marks proved here.
- `Coordinator.EveryStateDrains`: progress is possible from every state; that a scheduler makes it, or in which order waiters are served, is not modelled.
- Runtime component wiring, health reporting, metrics, logging, value parsers and URL handling: I/O or easy members.
