# Amazon AI Product Image Studio: a verified model

A Dafny model of the stateful core of the studio's Go backend, with proofs of what that core is
for: tasks are not lost, slots are not overbooked, bytes are counted once, live images keep their
objects, and what is interrupted can be resumed.

Shared data that several processes change (Redis, MySQL, the object store) is modelled as a state
with atomic steps, one for each script, command, row lock or transaction, and the theorems
are about every sequence of steps. The Go code itself is modelled by classes whose methods loop
and branch as the code does. Such a class takes the other processes' steps from an oracle field
(`others`) before each of its own commands, and failing commands from another (`luck`, `answers`,
`outcomes`); each method is proved to take only steps of the state machine and to achieve what
its callers rely on. A crash is a run that stops.

| Module | What it models |
|---|---|
| `Wrappers`, `Luck`, `Text`, `EarliestFirst` | options and results; commands that may fail; string trimming, splitting, order; limited queries in order of time |
| `ReliableQueue`, `ReliableQueueClient` | the Redis work queue: scripts, runs, and one client |
| `QueueClaims` | how claims, claim times and processing entries relate over runs of the queue |
| `Semaphore`, `SemaphoreClient` | the leased multi-key semaphore and one client |
| `QuotaLedger`, `QuotaEffects`, `QuotaService` | the storage quota counter, its transactions, their runs, and the uploads that make them |
| `ObjectKeys` | object keys, built and parsed |
| `CollectorSafety`, `AssetService` | uploads, deletions, purges and orphan cleanups on one timed object store |
| `OrphanPaging`, `OrphanVerdicts`, `OrphanCollector`, `OrphanSessions` | the paged scan for orphans: pages, what makes an orphan, one call, and sessions of calls joined by their tokens |
| `CaptchaLine`, `AspectRatio` | the captcha's line loop; largest sizes with an exact aspect ratio |
| `Migrations` | the crash-resumable migration runner |
| `CappedReader`, `ResponseStream` | the response size cap; ownership of temporary image files |
| `Catalog`, `CatalogService` | providers and models under row locks |
| `KeyRotation` | API key encryption and its rotation |
| `SseFrames` | server-sent event frames, written and read back |
| `QuotaRotation` | the reconciliation worker's tenant cursor |

What the model shows about the code:

- A claim time can outlive its processing entry: claiming is two commands, and recovery can take
  the task back between them. Claim times stay with tasks in processing, in every state of a run,
  if and only if no claim is recorded for a task that has been taken back
  (`QueueClaims.ClaimCanOutliveProcessing`, `QueueClaims.CoveredExactlyWhenNoClaimStrays`).
- Ack, retry and dead-letter are not fenced: a worker that was recovered from and acks late
  removes the next worker's entry, and with it the task. A worker settles its own entry if and
  only if exactly the task's older entries have left since it moved the task to processing; for a
  single-copy task, if and only if nobody has settled the task since and every recovery found a
  claim time above its cut-off (`QueueClaims.LateAckRemovesNewOwner`, `QueueClaims.OwnEntryIsSettled`,
  `QueueClaims.SingleCopyIsOwnExactlyWhenUndisturbed`).
- Finalizing a reservation outside the transaction that inserts the rows breaks the ledger exactly
  when it turns reserved bytes into used ones (`QuotaLedger.FinalizeAloneAgrees`), and so does
  committing twice under a finalized reservation (`QuotaLedger.CommitAgrees`).
- The orphan collector is safe for all runs if and only if its grace period is at least as long as
  an upload may take from its first put (`CollectorSafety.SafeExactlyWhenGraceCoversUploads`).
- An event frame is read back as written if and only if its data has no carriage return, its id
  and event no line break and its id no NUL (`SseFrames.RoundTrip`).

`dafny verify dfyconfig.toml` checks the whole project.

## Model

| member | source | states |
|---|---|---|
| ReliableQueue.ScriptsRefineLifeCycle | backend/internal/queue/reliable_queue.go:331-424 | each script moves the one task it names along a small per-task life cycle and leaves every other task's counters, claim and delivery count alone |
| ReliableQueue.CopiesAreConserved | backend/internal/queue/reliable_queue.go:90-274 | over any run the copies of a task change by exactly what entered minus what was acked, dead-lettered or merged |
| ReliableQueue.NoLostTask | backend/internal/queue/reliable_queue.go:104-274 | under any interleaving and crashes, a task in flight stays pending, processing or delayed until an effective ack or dead-letter |
| ReliableQueue.EnteredTaskIsNotLost | backend/internal/queue/reliable_queue.go:90-102 | the same from the producer's side, whatever ran before the enqueue or repair |
| ReliableQueue.OnlyEnqueueDuplicates | backend/internal/queue/reliable_queue.go:331-424 | no step but an enqueue of the task raises its copies above one |
| ReliableQueue.RepairedTaskStaysSingle | backend/internal/queue/reliable_queue.go:412-424 | a task entering only by delivery repair is single-copy in every state of every run |
| ReliableQueue.PendingIsServedInOrder | backend/internal/queue/reliable_queue.go:104-142 | first in, first out over whole runs: nothing that arrives later overtakes what is pending |
| ReliableQueue.DeliveryCountsIncrease | backend/internal/queue/reliable_queue.go:331-337 | two claims of a task without an effective ack between them carry strictly increasing delivery counts |
| ReliableQueue.HandoutsLeft | backend/internal/queue/reliable_queue.go:128-141 | the live hand-outs left to a task are what its delivery count leaves of the maximum, and without a maximum every claim is one |
| ReliableQueue.DeliveryBound | backend/internal/queue/reliable_queue.go:128-141 | between two effective acks a task is handed out live at most the configured number of times, and without a maximum at every claim |
| ReliableQueue.RecoveryIsExact | backend/internal/queue/reliable_queue.go:389-401 | recovery moves a task if and only if it is being processed and its claim is missing, unreadable or not younger than the cut-off |
| ReliableQueue.ReasonsAreKept | backend/internal/queue/reliable_queue.go:371-387 | only a dead-letter that acts stores a reason, its own, and not an empty one |
| ReliableQueue.NoEffectiveAck | backend/internal/queue/reliable_queue.go:339-349 | a run has no effective ack of a task exactly when each of its acks finds the task out of processing |
| QueueClaims.StepKeepsCover | backend/internal/queue/reliable_queue.go:331-424 | a step keeps claim times to tasks in processing if and only if it does not record a claim for a task out of processing |
| QueueClaims.CoveredExactlyWhenNoClaimStrays | backend/internal/queue/reliable_queue.go:104-142 | over runs: claim times exist only for tasks in processing, in every state, if and only if no claim is recorded for a task taken back |
| QueueClaims.ClaimCanOutliveProcessing | backend/internal/queue/reliable_queue.go:104-142 | a run from the empty queue in which a claim time exists for a task no longer processed |
| QueueClaims.OwnEntryIsSettled | backend/internal/queue/reliable_queue.go:144-191 | for every run after a claim: the worker's ack, retry or dead-letter removes its own entry if and only if exactly the older entries of the task have left; an older one if fewer have, a newer one or none if more have |
| QueueClaims.NothingDeparts | backend/internal/queue/reliable_queue.go:339-401 | while a task is in processing, none of its entries leaves over a run if and only if nobody acks, retries or dead-letters it and every recovery of it finds a claim time above its cut-off |
| QueueClaims.SingleCopyIsOwnExactlyWhenUndisturbed | backend/internal/queue/reliable_queue.go:339-401 | for a single-copy task, from its move to processing on and whenever its claim is recorded: the entry removed is the worker's own if and only if the run was undisturbed in that sense |
| QueueClaims.LateAckRemovesNewOwner | backend/internal/queue/reliable_queue.go:339-349 | enqueue, claim by one worker, recovery, claim by another, then the first worker's ack: it removes the second worker's entry and no copy of the task is left |
| EarliestFirst.Ids | backend/internal/queue/reliable_queue.go:229-260 | the due ids, each once, earliest first, at most the limit, and all of them below it |
| ReliableQueueClient.RedisReliableTaskQueue.EnqueueTask | backend/internal/queue/reliable_queue.go:90-102 | queues the trimmed id at the end, or changes nothing on a blank id or bad configuration |
| ReliableQueueClient.RedisReliableTaskQueue.Claim | backend/internal/queue/reliable_queue.go:104-142 | promotes the first 100 that are due, then takes the oldest pending task: hands it out with the count it recorded, dead-letters it beyond the maximum, reports a blank id as an error, and no task only when nothing is pending or due |
| ReliableQueueClient.RedisReliableTaskQueue.Deliver | backend/internal/queue/reliable_queue.go:123-141 | live work is within the maximum and carries the claim just recorded; beyond it the task is dead-lettered |
| ReliableQueueClient.RedisReliableTaskQueue.Ack | backend/internal/queue/reliable_queue.go:144-157 | issues the ack script for the trimmed claim id last, whoever interferes; it answers an error exactly for a blank id, a missing queue or a non-positive timeout |
| ReliableQueueClient.RedisReliableTaskQueue.Retry | backend/internal/queue/reliable_queue.go:159-176 | issues the retry last, whoever interferes: a delay of zero or less requeues at once, a positive one schedules |
| ReliableQueueClient.RedisReliableTaskQueue.DeadLetter | backend/internal/queue/reliable_queue.go:178-191 | dead-letters with the trimmed reason, which is kept unless it is blank |
| ReliableQueueClient.RedisReliableTaskQueue.RecoverStale | backend/internal/queue/reliable_queue.go:193-227 | recovers at most the limit, or 100 for a limit of zero or less; undisturbed, fewer mean that what is still processed has a claim above the cut-off |
| ReliableQueueClient.RedisReliableTaskQueue.PromoteDue | backend/internal/queue/reliable_queue.go:229-260 | moves at most the limit, or 100 for a limit of zero or less; undisturbed the due tasks in due order, fewer only if no more are due, and nothing else |
| ReliableQueueClient.RedisReliableTaskQueue.EnsureDelivery | backend/internal/queue/reliable_queue.go:262-274 | afterwards the task is in flight, and it was queued only if it was not before |
| Semaphore.RunKeepsInv | backend/internal/queue/concurrency.go:64-238 | in every run an unexpired unreleased lease is in all its sets, which outlive it, and no set exceeds its limit |
| Semaphore.CapacityIsNeverExceeded | backend/internal/queue/concurrency.go:215-224 | from the empty system, whatever clients do and however they crash, the leases alive on a key never exceed its limit |
| Semaphore.HoldersAreMembers | backend/internal/queue/concurrency.go:183-195 | the leases alive on a key are exactly the unexpired members of its set |
| Semaphore.RenewalOfActiveLeaseSucceeds | backend/internal/queue/concurrency.go:226-238 | a lease that has not run out is never reported lost on renewal |
| Semaphore.AdmissionIsExact | backend/internal/queue/concurrency.go:215-224 | an acquire at the current time is granted if and only if fewer leases than the limit are alive |
| Semaphore.NoKeysNoTrace | backend/internal/queue/concurrency.go:64-103 | a lease that holds no key is a member of no set |
| SemaphoreClient.KeysAreInjective | backend/internal/queue/concurrency.go:197-213 | dimensions with different normalized names or values never share a key |
| SemaphoreClient.KeysOfAre | backend/internal/queue/concurrency.go:64-87 | one key for each dimension with a positive limit, a name and a value, in their order: the prefix, the trimmed name and the trimmed value, colons and white space as underscores |
| SemaphoreClient.RedisConcurrencyLimiter.Acquire | backend/internal/queue/concurrency.go:64-103 | takes and registers a key for each dimension that limits, in their order, or is limited and leaves no trace of its id; undisturbed, exactly if every key has room |
| SemaphoreClient.RedisConcurrencyLimiter.Release | backend/internal/queue/concurrency.go:105-121 | removes the lease from each of its keys |
| SemaphoreClient.RedisConcurrencyLimiter.Renew | backend/internal/queue/concurrency.go:123-161 | moves the expiry of all keys together, or reports a lease lost that has run out |
| SemaphoreClient.RedisConcurrencyLimiter.ReapStale | backend/internal/queue/concurrency.go:163-181 | undisturbed removes all that has run out from the registered keys and nothing alive |
| QuotaLedger.ExceedsQuota | backend/internal/settings/quota.go:57-62 | the subtractive guard, on int64 without overflow, is the guard of the transaction and the ideal test of the sum |
| QuotaLedger.ReserveAgrees | backend/internal/settings/quota.go:34-88 | a reservation keeps the counter equal to the two sums |
| QuotaLedger.FinalizeAloneAgrees | backend/internal/settings/quota.go:90-149 | exactly when a finalize outside an upload commit keeps that equality |
| QuotaLedger.ReleaseAgrees | backend/internal/settings/quota.go:151-187 | a release keeps it |
| QuotaLedger.CommitAgrees | backend/internal/asset/service.go:383-418 | exactly when an upload commit keeps it, also over a lazily created counter |
| QuotaLedger.ReconcileAgrees | backend/internal/settings/quota.go:194-243 | reconciliation establishes it over any counter that is not negative, refuses a negative one, and changes an agreeing counter only by what it expires |
| QuotaLedger.PurgeAgrees | backend/internal/asset/cleanup.go:94-114 | a purge keeps it |
| QuotaLedger.LedgerAgreesForever | backend/internal/settings/quota.go:34-434 | over every proper run an existing counter is used = unpurged sizes and reserved = open reservations |
| QuotaLedger.CapHoldsForever | backend/internal/settings/quota.go:34-88 | with a fixed maximum no run, from a tenant's first state on, takes stored plus reserved bytes, or the counter, above it |
| QuotaLedger.ClosedStaysClosed | backend/internal/settings/quota.go:90-243 | whatever transactions run in between, a closed reservation is never touched again |
| QuotaLedger.ClosedAtMostOnce | backend/internal/settings/quota.go:90-243 | over any run each reservation is closed at most once, by finalizing, releasing or reconciliation, and once exactly when it is open at the start and not in the end |
| QuotaLedger.CounterMovesOnce | backend/internal/settings/quota.go:90-187 | however often and in whatever order one reservation is finalized and released, the counter moves once, by what its row says |
| QuotaLedger.UploadsKeepTheLedger | backend/internal/asset/service.go:353-418 | upload processes that reserve and then commit or release under their own handles, mixed with everything else: ledger and cap hold, with no assumption on the run |
| QuotaService.QuotaStore.Reserve | backend/internal/settings/quota.go:34-88 | refused exactly when it does not fit beside what is used and reserved; else one open row more, for 24 hours, and its bytes reserved; the invalid-counter error cannot occur |
| QuotaService.QuotaStore.Finalize | backend/internal/settings/quota.go:90-149 | an open row is closed with its bytes, used from then on, and is no longer reserved; when it is accepted and which error else |
| QuotaService.QuotaStore.Release | backend/internal/settings/quota.go:151-187 | an open row is released and its bytes are no longer reserved; of a closed or unknown one nothing changes but that the counter comes to be |
| QuotaService.QuotaStore.Commit | backend/internal/task/runtime_persistence.go:130-333 | the rows of several assets and the closing of their reservation with the sum of their sizes, all or nothing |
| QuotaService.QuotaStore.InsertAssets | backend/internal/asset/service.go:383-418 | appends the asset rows of a commit and adds up their sizes |
| QuotaService.QuotaStore.ReleaseStale | backend/internal/settings/quota.go:194-243 | the loop over expired reservations releases exactly those |
| QuotaService.QuotaStore.Reconcile | backend/internal/settings/quota.go:194-243 | releases just the expired open rows and sets the counter to the sums of the rows, also over one that has drifted; a negative one is an error |
| QuotaService.QuotaStore.EnsureCounter | backend/internal/settings/quota.go:286-329 | creates a missing counter from the rows the transaction sees; a negative one is an error |
| QuotaService.QuotaStore.ApplyDelta | backend/internal/settings/quota.go:361-395 | the guarded delta is applied, or refused when it would go below zero |
| QuotaService.QuotaStore.Decrement | backend/internal/settings/quota.go:245-267 | takes purged bytes off the counter, created if missing, or fails without a change |
| QuotaService.QuotaStore.Purge | backend/internal/asset/cleanup.go:94-114 | marks the row of a deleted asset and takes its bytes off what is used, or finds none and changes nothing |
| ObjectKeys.ParseObjectKey | backend/internal/asset/service.go:845-847 | the key an upload builds parses back into its ids and is trimmed |
| ObjectKeys.ParseThumbnailKey | backend/internal/thumbnail/thumbnail.go:61-63 | likewise for thumbnails |
| ObjectKeys.ParsedKeyIsBuilt | backend/internal/asset/orphan_cleanup.go:492-512 | only such keys parse |
| CollectorSafety.OwnersAreUnique | backend/internal/asset/service.go:845-857 | no two assets own the same object |
| CollectorSafety.RefsAre | backend/internal/asset/service.go:845-857 | the text of an asset's two object keys and the buckets they are in |
| CollectorSafety.OrphanIsCondemnable | backend/internal/asset/orphan_cleanup.go:233-286 | an unreferenced object older than the grace period belongs to no upload that could still commit it |
| CollectorSafety.RunKeepsInv | backend/internal/asset/orphan_cleanup.go:152-286 | every run of uploads, deletions, purges and scans keeps the invariant behind that |
| CollectorSafety.LiveRowsKeepTheirObjects | backend/internal/asset/repository.go:197-214 | no run removes an object of a row that is not soft-deleted |
| CollectorSafety.PurgedRowsHaveNoObjects | backend/internal/asset/repository.go:216-239 | a row marked as purged is soft-deleted and has no object left |
| CollectorSafety.ShortGraceLosesAnOriginal | backend/internal/asset/orphan_cleanup.go:233-286 | with a grace period shorter than an upload may take, a run that loses a live row's original |
| CollectorSafety.SafeExactlyWhenGraceCoversUploads | backend/internal/asset/orphan_cleanup.go:152-286 | the collector is safe for all runs if and only if the grace period covers the uploads |
| AssetService.Service.UploadAsset | backend/internal/asset/service.go:313-421 | if its five commands go well, a live row with both objects in place; else no row, and every object left is one whose removal has failed too, and is reported |
| AssetService.Service.CleanupUploadedObjects | backend/internal/asset/service.go:423-438 | tries both objects of a failed upload; what is left is what could not be removed, and is reported |
| AssetService.Service.DeleteAsset | backend/internal/asset/service.go:501-535 | soft-deletes exactly a row that is there and not deleted |
| AssetService.Service.PurgeCandidate | backend/internal/asset/cleanup.go:94-114 | marks a deleted row only when both its objects are gone, also with other workers on the same row; undisturbed, exactly if its three commands go well and the row is not marked yet |
| AssetService.Service.PurgeDeletedAssets | backend/internal/asset/cleanup.go:57-92 | the batch, at most the limit, is the rows deleted longest ago before the cutoff; each of them is purged or one of its own commands has failed, whatever became of the others; the counts add up, and an undisturbed short batch leaves none |
| OrphanPaging.MatchingResumes | backend/internal/storage/store.go:119-165 | listing on from a listed key yields what followed it |
| OrphanPaging.FromIsOrdered | backend/internal/asset/orphan_cleanup.go:181-213 | the scan meets the objects in order of class and key, none twice |
| OrphanPaging.FromResumes | backend/internal/asset/orphan_cleanup.go:288-301 | a cursor at an inspected object resumes right behind it |
| OrphanPaging.RemoveKeepsRest | backend/internal/asset/orphan_cleanup.go:277-285 | removing an object behind the cursor changes nothing ahead of it |
| OrphanPaging.NextPageContinues | backend/internal/asset/orphan_cleanup.go:214-228 | the next page starts with the first object not inspected, whatever was removed; without a cursor nothing is left |
| OrphanPaging.PagesAreTheFullScan | backend/internal/asset/orphan_cleanup.go:181-230 | following cursors inspects every object once in order, in pages of at most the limit, and ends |
| OrphanPaging.TotalsDoNotDependOnTheLimit | backend/internal/asset/orphan_cleanup.go:181-286 | candidates, removals and all other totals are the same for every limit, also when deleting on the way |
| OrphanCollector.ListObjects | backend/internal/storage/store.go:119-165 | the first objects up to the limit, a cursor exactly when there are more, and an error unless it is the call's own cancellation |
| OrphanCollector.DecodeEncode | backend/internal/asset/orphan_cleanup.go:411-469 | a token decodes to its cursor for the same tenant and buckets, and for no other |
| OrphanCollector.DecodeIs | backend/internal/asset/orphan_cleanup.go:411-469 | which tokens decode to what: none to the start, a sealed one of this tenant, these buckets and an index in range to its cursor, anything else to an error |
| OrphanCollector.NormalizeBatchLimit | backend/internal/asset/orphan_cleanup.go:391-399 | limits from 1 to 1000 are kept, lower ones are 100, higher ones 1000 |
| OrphanCollector.NormalizeGraceHours | backend/internal/asset/orphan_cleanup.go:401-409 | hours from 1 to 8760 are kept, lower ones are 24, higher ones 8760 |
| OrphanCollector.AfterIsThePage | backend/internal/asset/orphan_cleanup.go:196-213 | the loops' object-by-object effect is the page of the full scan: nothing is seen twice, each object counts by its own verdict |
| OrphanVerdicts.VerdictIsDeserved | backend/internal/asset/orphan_cleanup.go:233-286 | each object gets the one verdict it deserves, by the text of its key, its age and what the lookup knows |
| OrphanVerdicts.OrphanIsTheVerdict | backend/internal/asset/orphan_cleanup.go:233-286 | an object is a candidate if and only if CollectorSafety would have it removed |
| OrphanVerdicts.ReportCounts | backend/internal/asset/orphan_cleanup.go:233-286 | a report counts every object once: orphans as candidates, by name, and as deleted or as errors, all others under their reason |
| OrphanVerdicts.SweptLosesOrphans | backend/internal/asset/orphan_cleanup.go:277-285 | the store loses the orphans that could be removed, unless it is a dry run, and nothing else |
| OrphanCollector.Collector.InspectStorageObject | backend/internal/asset/orphan_cleanup.go:233-286 | an object leaves the store if and only if its key is the tenant's and of its class, it is older than the cut-off, the lookup answers and does not know it, it has not been seen, it can be removed and this is no dry run; each other object is counted under its reason |
| OrphanCollector.Collector.InspectClasses | backend/internal/asset/orphan_cleanup.go:181-230 | the loops over classes and listings stop at the limit with the specified cursor |
| OrphanCollector.Collector.InspectStorageOrphans | backend/internal/asset/orphan_cleanup.go:152-231 | the page of the full scan: it is reported by the verdicts deserved with the grace period given, 24 hours by default, and the store loses just its orphans; a failed lookup ends it with only the objects before dealt with |
| OrphanSessions.SessionIsTheFullScan | backend/internal/asset/orphan_cleanup.go:152-231 | calls with any limits, grace periods and answers, each handed the token of the one before: their pages are together all that the first had ahead of it, in order, and each call reports and sweeps its own |
| OrphanSessions.SessionLeaves | backend/internal/asset/orphan_cleanup.go:233-286 | what is in the store at the end is what was there and no call has removed from its page |
| OrphanSessions.SessionJudgesEachOnce | backend/internal/asset/orphan_cleanup.go:152-286 | a session from no token until no more: each object of the tenant is inspected by exactly one call, and is gone at the end if and only if that call found it an orphan and could remove it |
| OrphanSessions.NoOrphanIsLeft | backend/internal/asset/orphan_cleanup.go:152-286 | if no removal fails and no call is a dry run, no object is left that is an orphan by every call's time and lookup |
| OrphanSessions.OtherTenantsKeepTheirs | backend/internal/asset/orphan_cleanup.go:181-195 | no session removes an object outside its tenant's prefix |
| CaptchaLine.LineJoinsEnds | backend/internal/auth/captcha_image.go:122-149 | the line runs from end to end inside their box |
| CaptchaLine.PixelIsNearest | backend/internal/auth/captcha_image.go:122-149 | every pixel is within half a pixel of the ideal line, and no other choice is nearer |
| CaptchaLine.LineIsConnected | backend/internal/auth/captcha_image.go:122-149 | consecutive pixels touch and none is visited twice |
| CaptchaLine.TurnsTrackLine | backend/internal/auth/captcha_image.go:134-148 | the incremental error term tracks the rounded line on every turn |
| CaptchaLine.EndIsReached | backend/internal/auth/captcha_image.go:134-148 | the end point is reached on the last turn and not before |
| CaptchaLine.DrawCaptchaLine | backend/internal/auth/captcha_image.go:122-149 | the loop ends and draws exactly the pixels of the rounded line, in order |
| CaptchaLine.Canvas.PaintCovers | backend/internal/auth/captcha_image.go:122-149 | painting colours the points on the canvas and nothing else |
| AspectRatio.GreatestCommonDivisor | backend/internal/provideradapter/client.go:448-453 | the loop computes the gcd |
| AspectRatio.CommonMultiple | backend/internal/provideradapter/client.go:424-446 | a pair in the ratio of two coprime numbers is one multiple of both |
| AspectRatio.LargestMultipleIsExact | backend/internal/provideradapter/client.go:424-446 | the computed multiple is the largest that meets the edge and pixel bounds |
| AspectRatio.LargestExactFit | backend/internal/provideradapter/client.go:424-446 | when some size of the ratio fits, the result fits and none is larger; when none fits, the base is returned |
| AspectRatio.PresetsStayWithinLimits | backend/internal/provideradapter/client.go:413-422 | every preset at every quality keeps its ratio and the model's limits |
| AspectRatio.QualitiesAre | backend/internal/provideradapter/client.go:413-422 | "medium", in any case and around spaces, doubles both edges, "high" is the largest exact fit, and anything else is the base |
| AspectRatio.PresetsHaveTheirRatio | backend/internal/provideradapter/client.go:36-48 | the preset of each name has exactly that ratio |
| Migrations.StatementsResume | backend/internal/database/migrations.go:126-185 | taking up a migration's statements again comes to the same at every later point |
| Migrations.RepeatedStatement | backend/internal/database/migrations.go:157-185 | the database itself would refuse every repeated column or index statement, and only those; through the guards any statement can be repeated |
| Migrations.ExecuteIs | backend/internal/database/migrations.go:157-185 | when a statement can be done, and what it adds to which table |
| Migrations.RunResumes | backend/internal/database/migrations.go:40-80 | a run that starts where another died ends exactly as that one would have |
| Migrations.CrashesDoNotMatter | backend/internal/database/migrations.go:40-80 | any sequence of runs that died, then a full one: the outcome, schema and history of one run without a crash |
| Migrations.CompletedRunIsComplete | backend/internal/database/migrations.go:187-232 | a completed run has recorded each migration once, and each table, column and index of every check is in the schema |
| Migrations.CompletedRunDoesAll | backend/internal/database/migrations.go:126-148 | what the statements of a newly applied migration name is in the schema in the end |
| Migrations.RecordedIsSkipped | backend/internal/database/migrations.go:61-75 | a recorded migration is not executed again |
| Migrations.Runner.ExecuteMigrationStatement | backend/internal/database/migrations.go:157-185 | although the database refuses a column or index that exists, the statement can be repeated: it changes nothing once done, and fails exactly if it cannot be done; a process that lives for two operations does not crash in it |
| Migrations.Runner.RunMigration | backend/internal/database/migrations.go:126-148 | the statements and the record; a process that dies has left a state on the way there, and one that lives for the migration's operations does not die |
| Migrations.Runner.VerifyMigrationSchema | backend/internal/database/migrations.go:187-232 | completes or fails by whether the checks hold, unless the process dies before one look for each table, column and index |
| Migrations.Runner.RunMigrations | backend/internal/database/migrations.go:40-80 | ends as the specification of one run says if the process lives for the operations of the list; else it may have died, in a state that run passes through |
| CappedReader.Capped.Read | backend/internal/provideradapter/openai_stream.go:21-41 | passes bytes through within the cap, and beyond it reports too-large exactly when there is another byte |
| CappedReader.Capped.ReadToEnd | backend/internal/provideradapter/openai_stream.go:21-41 | read to the end, the exact stream if it fits the cap, else the too-large error, never a silent truncation |
| ResponseStream.AddedInTurn | backend/internal/provideradapter/openai_stream.go:43-101 | files added in turn are the files of all the images |
| ResponseStream.ResponseIsRead | backend/internal/provideradapter/openai_stream.go:43-130 | a response with such fields is read if and only if all its images are usable and there is one, as just the items in its data |
| ResponseStream.NothingMayFollow | backend/internal/provideradapter/openai_stream.go:87-96 | with anything behind the object a response is refused |
| ResponseStream.RemovalUndoes | backend/internal/provideradapter/openai_stream.go:239-245 | removing the images' files restores the directory |
| ResponseStream.Client.StoreBody | backend/internal/provideradapter/openai_stream.go:159-189 | a new file with exactly the body's bytes, or no file; unless disk or randomness fail, it is stored if and only if the body is whole, not empty and within the limit |
| ResponseStream.Client.FetchImage | backend/internal/provideradapter/openai_stream.go:191-237 | likewise for an image fetched from its address, if and only if the status is 2xx and the announced and real size are within the limit |
| ResponseStream.Client.MaterializeImage | backend/internal/provideradapter/openai_stream.go:132-157 | the item's own image in one new file, from its inline bytes if it has any, else from its address; without failures of disk or randomness, if and only if what the item gives is usable |
| ResponseStream.Client.DecodeData | backend/internal/provideradapter/openai_stream.go:103-130 | on failure no file of the array survives; on success exactly the images of its items, in order, each file with its item's bytes; without failures of disk, if and only if the array can be read |
| ResponseStream.Client.ParseFields | backend/internal/provideradapter/openai_stream.go:43-101 | over all fields the images collected are those of all data arrays in order, and the fields are accepted if and only if they can be read |
| ResponseStream.Client.ParseResponse | backend/internal/provideradapter/openai_stream.go:43-101 | whatever decoder, network and disk answer: either no file is left, or the images are those of all items of the response in order, each in a new file with its item's bytes; without failures of disk, the latter if and only if the response reads as an object with at least one usable image and nothing behind it |
| Catalog.WriteKeepsOthersFacts | backend/internal/model/service.go:566-600 | what another transaction has learnt under its row locks stays true when this one writes |
| Catalog.WriteKeepsTables | backend/internal/provider/service.go:345-525 | a write keeps references and names right by what its transaction has checked |
| Catalog.RunKeepsInv | backend/internal/model/service.go:200-487 | both hold in every interleaving of transactions |
| Catalog.CatalogStaysConsistent | backend/internal/model/service.go:200-487 | enabled models have enabled undeleted providers, undeleted models undeleted ones, undeleted names are unique per provider |
| CatalogService.Service.CreateModel | backend/internal/model/service.go:200-274 | undisturbed, which error is answered when, and else just the new row; always, the row of a success and no write without one |
| CatalogService.Service.UpdateModel | backend/internal/model/service.go:288-401 | after a success the given fields are as given; undisturbed the others are as before, and which error is answered when: a duplicate name exactly when another model of the resulting provider has the resulting name |
| CatalogService.Service.EnsureTarget | backend/internal/model/service.go:306-373 | the checks of an update make its write admissible whatever others do meanwhile |
| CatalogService.Service.SetModelStatus | backend/internal/model/service.go:439-487 | enables or disables just that model; undisturbed, which error is answered when |
| CatalogService.Service.DeleteModel | backend/internal/model/service.go:403-437 | undisturbed soft-deletes just that model, or answers that there is none |
| CatalogService.Service.CreateProvider | backend/internal/provider/service.go:269-335 | inserts the provider |
| CatalogService.Service.UpdateProvider | backend/internal/provider/service.go:345-514 | refuses to disable a provider exactly when it has an enabled model, and else changes just its status |
| CatalogService.Service.DeleteProvider | backend/internal/provider/service.go:424-464 | refuses to delete a provider exactly when it has an undeleted model |
| KeyRotation.DecryptEncrypt | backend/internal/provider/encryption.go:59-105 | an encrypted key decrypts to its trimmed self, and under another key id not at all |
| KeyRotation.EncryptIs | backend/internal/provider/encryption.go:59-76 | a key is encrypted exactly when it has 1 to 4096 characters around spaces; the text of the result |
| KeyRotation.DecryptIs | backend/internal/provider/encryption.go:78-105 | what is decrypted: just what names the format and the key id and holds a text the cipher opens |
| KeyRotation.CountsAre | backend/internal/provider/rotation.go:58-98 | the counts of a rotation are the numbers of live rows and of deleted ones with something to erase |
| KeyRotation.ProviderTable.Rotate | backend/internal/provider/rotation.go:32-106 | succeeds exactly when every row can be rotated, applied or not, with the same counts; applied, every row is rotated; failed or dry, nothing changes |
| KeyRotation.ProviderTable.RotateRows | backend/internal/provider/rotation.go:45-106 | the transaction rotates all rows in turn, or on the first that cannot be rotated none |
| KeyRotation.ProviderTable.RotateRow | backend/internal/provider/rotation.go:58-98 | one row: erased if deleted, else re-encrypted; each write changes exactly one row |
| KeyRotation.EncryptedKeysSurvive | backend/internal/provider/rotation.go:77-98 | a row made by encryption can be rotated and keeps its plaintext, or is erased if deleted |
| KeyRotation.EncryptedTableSurvives | backend/internal/provider/rotation.go:32-106 | over a table of keys made by encryption every row can be rotated, and in the rotated table every live provider's key decrypts to the same plaintext under the new key, and every deleted one's is gone |
| KeyRotation.RotatedFromNewOnly | backend/internal/provider/rotation.go:58-98 | a rotated row can be rotated from the new key, and from the old one only if deleted |
| SseFrames.Connection.WriteFrame | backend/internal/sse/writer.go:17-39 | sends the whole frame, or a prefix of it when the connection breaks |
| SseFrames.Connection.WriteHeartbeat | backend/internal/sse/writer.go:41-46 | sends the heartbeat frame if the connection takes it, else a prefix of it |
| SseFrames.SimpleFrameIs | backend/internal/sse/writer.go:17-39 | the text of a frame with one line of data |
| SseFrames.MessageIs | backend/internal/sse/writer.go:17-39 | the message it is read as: empty data are an empty object |
| SseFrames.FrameIsRead | backend/internal/sse/writer.go:17-39 | one frame on the wire is one message to a reader following section 9.2.6 of the WHATWG HTML standard, whatever follows |
| SseFrames.RoundTrip | backend/internal/sse/writer.go:17-39 | frames are read back as written if and only if their fields have no forbidden characters |
| QuotaRotation.EveryPositionIsReached | backend/cmd/worker/retention_maintenance.go:210-247 | from any position every index comes up within one run more than the number of batches |
| QuotaRotation.BoundIsTight | backend/cmd/worker/retention_maintenance.go:210-247 | one run less is not enough in general |
| QuotaRotation.EveryTenantIsReached | backend/cmd/worker/retention_maintenance.go:210-247 | from any cursor every active tenant is attempted within ceil(n/b) + 1 consecutive runs |
| QuotaRotation.RoundsIsCeiling | backend/cmd/worker/retention_maintenance.go:210-247 | the number of batches is n divided by b, rounded up |
| QuotaRotation.ListActiveTenantIdsAfter | backend/internal/settings/repository.go:72-94 | the first tenants after the given id in order, up to the limit |
| QuotaRotation.BatchIs | backend/cmd/worker/retention_maintenance.go:210-220 | a batch is the first tenants after the cursor, or from the start when there are none, with none left out; the cursor is left at its last |
| QuotaRotation.RetentionMaintenanceRunner.RunOnce | backend/cmd/worker/retention_maintenance.go:210-247 | attempts its whole batch whoever fails and leaves the cursor behind it; the first cancellation, noticed before, during or after a tenant, ends the run with the cursor behind the last tenant done and nothing attempted after it |

## Left out

- Network and database errors of Redis and MySQL commands in the queue, semaphore and quota clients: a failed command is a client that issues no further ones; ambiguous commits are not modelled.
- Clocks: one clock without skew in milliseconds, a fixed lease lifetime and fixed limits per key.
- SemaphoreClient.RedisConcurrencyLimiter.Renew: blank keys are filtered in the source; the model's leases hold only keys an acquire has taken.
- Identifier generation: fresh ids are a precondition (uploads) or a conflict (models, providers); lease ids are private to their client.
- CollectorSafety: an upload of several generated images is several uploads that happen to commit together; how long one may take is a parameter, not enforced by the source.
- OrphanPaging.TotalsDoNotDependOnTheLimit: for distinct bucket names, which the configuration does not enforce; a page that meets a failing lookup is aborted and counted nowhere.
- OrphanSessions.SessionJudgesEachOnce: nobody else changes the store between the calls of a session; a call that gets an error ends it.
- OrphanCollector.Collector.InspectStorageOrphans: for distinct bucket names too; listing errors are modelled in ListObjects only; the tenant id is taken as valid.
- AspectRatio.LargestExactFit: the floating-point square root is taken as the exact floor square root.
- CaptchaLine.DrawCaptchaLine: coordinates are unbounded integers.
- Migrations: the data migration's insert statement, the advisory lock (one runner at a time is assumed), dialect differences and letter case of identifiers.
- ResponseStream.Client.ParseResponse: JSON syntax is whatever the decoder answers; the usage field is skipped; removal of a temporary file is taken to succeed.
- Catalog: fields other than provider, name, status and deletion, permissions, and audit records; waiting for a row lock appears as a refusal.
- KeyRotation.ProviderTable.Rotate: the source of randomness cannot fail; key derivation is not modelled.
- Strings are sequences of code points. Where Go counts or cuts bytes (length limits, splitting at positions) the model counts code points; invalid UTF-8 is not modelled.
- QuotaRotation.EveryTenantIsReached: runs whose retention phases fail before the reconciliation phase do not count as runs.
- HTTP handlers, configuration parsing, permissions, redaction, the front end, image decoding, thumbnails, task execution, provider calls and CSV export.
