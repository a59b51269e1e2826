# Verified models of the gateway's state machines and algorithms

This project models, in Dafny, the parts of the gateway whose correctness is not
visible from reading one function, and proves what they are for. Each module is one
component. Code that changes state is modelled by classes and loops proved against
specification functions; protocols with several actors are state machines whose
invariants hold over every run.

| module | component |
|---|---|
| RateLimiter | the in-memory sliding-window limiter with its background sweep |
| ImageLedger | reservation, settlement and refund of asynchronous image tasks |
| ImageArchive | archiving generated images: worker, object store, rows, cleanup job |
| BulkRetry | the resumable job that retries all failed archives |
| Midjourney | concurrent polling passes with compare-and-swap and refunds |
| UpstreamSync | detecting, selecting, ignoring and applying upstream model changes |
| KeyText, MultiKey, KeyRecords | the keys of a multi-key channel and the actions on them |
| KeyPolling, KeyStatusView, KeyAppend | choosing the next key, the paged status view, appending keys |
| PricingDiff, PriceConvert | comparing prices across channels and translating price lists |
| OggScan | the length of an Opus file from its Ogg pages (section 6 of RFC 3533, section 4 of RFC 7845) |
| BodyStorage | request bodies in memory or on disk and their usage counters |
| Enrich | filling in the derived fields of a list of models |
| Text, Lists | trimming, splitting, joining; filtering and removing duplicates |

`dafny verify dfyconfig.toml` checks everything.

## Conventions

Times are integers, prices and ratios are reals, counters and quotas are unbounded
integers. What the code takes from outside is a parameter of the model: the clock, the
answers of upstreams and of the object store, failures of the disk, JSON parsing,
regular-expression matching and the random choice of a key. Database transactions are
atomic steps that commit or change nothing.

## Where a promise fails, and exactly when it holds

- Rate limiter: a comment asks for an expiry not below any duration; sweeps are
  invisible if and only if every duration is at most the expiry plus one second
  (`SweepsInvisibleIff`). A limit of 0 acts as a limit of 1.
- Refunds are refused if and only if the payer or a metered token cannot take the
  reservation back (`RefundCommitsIff`). A subscription period reset between submission and
  failure writes usage off and blocks the refund until other usage lifts the counter
  (`ResetBlocksRefund`). So do other consumption that overdraws the wallet
  (`OverdraftBlocksRefund`) or the token (`TokenOverdraftBlocksRefund`) by more than the
  reservation, and deleting the token (`DeletedTokenBlocksRefund`); all of them are
  steps of the model, and good states lead there (`RefundBlockedFromGoodState`).
- Archive: marking a damaged staging file ignores that the object may be in deletion. For
  the worker it is safe if and only if the cleanup job does not hold the row
  (`StagingFailureSafeIff`); otherwise a published object can be lost
  (`InterruptedDeletionLosesObject`). A failing validation also ignores that the task may
  have been reset since it was read: it is safe if and only if the cleanup job does not
  hold the row and no worker is at the task (`ValidationFailureSafeIff`); otherwise an
  object can be lost (`FailingValidationLosesObject`) or a task be published with a failed
  row (`StaleValidationIsPublished`). The other archive theorems are over calm runs, in
  which neither happens; every new task has one that publishes it (`FreshCanBePublished`).
- Bulk retry: the progress shown is 100 also when the job was cancelled (`Run`), and a job
  cut off inside a batch misses, after resuming, exactly the rows since the last save that
  it accepted or that somebody else had reset (`CutOffInsideBatch`, `NothingMissedIff`).
- Midjourney: the compare-and-swap is on the status only, so two passes both pay if and
  only if the failing answer leaves the status unchanged (`TwoPassesPayTwiceIff`), and a
  repeated answer within one pass is paid again if and only if it is failing on what the
  first one wrote (`RepeatedAnswerPaidIff`). Tasks failed in bulk are never refunded
  (`BulkFailureIsNotRefunded`). New buttons or properties alone are skipped and lost
  (`SkippedAnswerChangesNothingIff`, `NewButtonsAreLost`).
- Upstream changes converge if and only if no name holds a comma and no ignore pattern is
  itself added as a model (`ConvergesIff`).
- Multi-key channels: a deletion is right if and only if the remaining keys read back
  from their joined text (`DeleteRefinesIff`); deleting when all keys are automatically
  disabled enables them all (`DeletingEveryKeyEnablesAll`), because an empty text is not
  written; a re-enabling report leaves time and reason behind (`CleanKeptIff`). Disabling keys by hand
  never disables the channel, and enabling them never enables it (`ChannelFollows`).
- Appending to a text that looks like a JSON array and is none drops the existing keys
  (`ExistingIff`, `MisreadKeysAreReplaced`).
- Price differences that are null or the word "same" can go unreported
  (`NullOrSameIsNotReported`, `ShownExactly`); the two price converters disagree exactly
  when a price is missing in one of two ways (`ConvertersAgreeIff`); of two providers the
  dearer wins if and only if it comes first and the difference is below the tolerance
  (`DearerWinsIff`).
- Body storage: admission to the disk looks at the announced length and the usage counts the
  true one (`CreateFromReader`, `UnderstatedLength`); the limit always holds when no
  accepted body is longer than a length it was admitted to the disk by (`Session`).

## Model

| member | source | states |
|---|---|---|
| RateLimiter.InMemoryRateLimiter.constructor | common/rate-limit.go:14-26 | a new limiter has an empty store and the given expiry in whole seconds |
| RateLimiter.InMemoryRateLimiter.Request | common/rate-limit.go:45-70 | the answer and the new queues are those of the specification: append below the limit, otherwise drop the oldest stamp if it has aged out, otherwise refuse; no stored queue is ever empty |
| RateLimiter.InMemoryRateLimiter.ClearExpiredItems | common/rate-limit.go:28-42 | one sweep removes exactly the keys whose newest stamp is older than the expiry and touches no other queue |
| RateLimiter.SameAnswer | common/rate-limit.go:45-70 | the bounded queue decides like a count over the whole history of accepted requests |
| RateLimiter.BoundedQueueMatchesHistory | common/rate-limit.go:28-70 | over every run of requests and sweeps on a non-decreasing clock the answers equal those of the unbounded history, for durations of at most the expiry plus one second |
| RateLimiter.NoWindowExceedsLimit | common/rate-limit.go:45-70 | no half-open window of the key's duration ever holds more accepted requests than the limit (a limit of 0 acts as 1) |
| RateLimiter.ShortDurationsHideSweeps | common/constants.go:220-221 | removing all sweeps from a run changes no answer, for every run, when each duration is at most the expiry plus one |
| RateLimiter.LongDurationShowsSweep | common/rate-limit.go:28-42 | for every longer duration there is a run in which a sweep changes an answer |
| RateLimiter.SweepsInvisibleIff | common/rate-limit.go:28-70 | whatever the limits of the keys, sweeps are invisible on all runs if and only if no key's duration is longer than the expiry plus one second |
| RateLimiter.LongDurationShowsSweepAmong | common/rate-limit.go:28-42 | one key with a longer duration is enough, whatever the limits of the others |
| ImageLedger.AdjustBooks | model/async_image.go:1422-1473 | an adjustment books its two amounts on the payer and the token, and on no other account |
| ImageLedger.CreateBooks | model/async_image.go:173-311 | a committed submission books exactly the new task's reservation, whichever of wallet and subscriptions pays and whatever periods are reset on the way |
| ImageLedger.StepKeepsInv | model/async_image.go:173-547 | every transaction keeps each account equal to the sum of what its tasks cost, and keeps remaining plus used quota of every token; only a deletion removes a token |
| ImageLedger.LedgerBalances | model/async_image.go:173-1473 | conservation over every run of submissions, claims, settlements, refunds, reservation raises, resets, token deletions and outside bookings; every token left keeps remaining plus used quota, and without deletions all do |
| ImageLedger.WalletExplained | model/async_image.go:224-311 | after any run a wallet holds its deposits less what its tasks cost now |
| ImageLedger.FinalIsFinal | model/async_image.go:1218-1376 | no run charges a refunded task, refunds a settled one or changes a settled price; payer and token never change |
| ImageLedger.OutsideSolvent | model/async_image.go:1422-1473 | a booking from outside keeps every row solvent if and only if it does not overdraw its own row |
| ImageLedger.StepSolvent | model/async_image.go:1422-1473 | no transaction on tasks, and no covered outside booking, overdraws a wallet, a limited subscription or a token |
| ImageLedger.RunSolvent | model/async_image.go:173-1473 | solvency over every run whose outside bookings do not overdraw their own row; a deposit never does |
| ImageLedger.RefundCommitsIff | model/async_image.go:1268-1376 | in any state, a pending refund commits if and only if what was reserved can be booked back: on the payer, whose row exists, whose counter still shows it and whose balance does not stay below zero, and likewise on a metered token |
| ImageLedger.RefundAlwaysPossible | model/async_image.go:1268-1376 | a reserved task can be refunded as long as its rows exist, nothing is overdrawn and no usage was written off below zero |
| ImageLedger.ResetBlocksRefund | model/subscription.go:1236-1270 | a subscription period reset between submission and failure makes the refund fail |
| ImageLedger.OverdraftBlocksRefund | model/async_image.go:1441-1448 | a wallet that other consumption overdraws by more than the reservation refuses the refund |
| ImageLedger.TokenOverdraftBlocksRefund | model/async_image.go:1451-1466 | an overdrawn metered token refuses it too, the payer's part included |
| ImageLedger.DeletedTokenBlocksRefund | model/async_image.go:1455-1458 | deleting the metered token makes the refund fail, the payer's part included |
| ImageLedger.RefundBlockedFromGoodState | model/token.go:324-337 | from a balanced and solvent state in which the refund commits, one outside booking, and one token deletion, block it |
| ImageLedger.RefundBooks | model/async_image.go:1268-1376 | a committed refund takes exactly the task's charge off every account |
| ImageLedger.RefundUndoesCreate | model/async_image.go:173-1376 | refunding a fresh submission restores what every account shows |
| ImageLedger.AdjustExactly | model/async_image.go:1422-1473 | an adjustment commits if and only if payer and metered token can take their amounts, and then moves those two rows and no other |
| ImageLedger.CompleteSettles | model/async_image.go:313-405 | a completion commits if and only if there is a manifest, the lease is held and the task is settled already, or is running, names its objects and can pay; it then settles at the given price, moves payer and token by price minus reservation, and marks success and archiving |
| ImageLedger.ArchiveFailureSettles | model/async_image.go:407-487 | the same price is paid when the images could not be archived; the output is failed and the lease free |
| ImageLedger.SettleOnlySettles | model/async_image.go:1218-1266 | settling alone commits if and only if the task is settled or can pay, and changes only price and billing status |
| ImageLedger.RaiseReserves | model/async_image.go:1378-1420 | a raise commits if and only if the difference can be paid and then reserves exactly the target, for the token too unless it is unlimited |
| ImageLedger.RaiseLeavesAlone | model/async_image.go:1378-1398 | a raise to no more than the reservation, or of a final task, changes nothing; a negative target or unknown task is refused |
| ImageLedger.RefundReturns | model/async_image.go:1268-1376 | a refund commits if and only if the task is not settled and both reservations can be booked back, which it does; the task has failed and its lease is free |
| ImageLedger.FirstFitPays | model/async_image.go:238-275 | the first subscription with room pays, counting a due reset as no usage; resets before it are made and kept, and without room anywhere only those |
| ImageLedger.FundingFollowsPreference | model/async_image.go:276-311 | for each preference, exactly when the wallet pays, when a subscription pays, and what the rows are then |
| ImageLedger.CreateCommitsIff | model/async_image.go:173-222 | a submission commits if and only if its amounts are not negative, its source can pay and its own metered token has the quota |
| ImageLedger.CreateReserves | model/async_image.go:173-222 | the new task carries the submission, reserved and queued, and the token gives exactly what it reserves |
| ImageLedger.ClaimTakesLease | model/async_image.go:506-547 | a named worker takes a free task and is then its only holder |
| ImageLedger.HolderStarts | model/async_image.go:749-766 | only the holder of the lease starts a reserved task that has not ended |
| ImageLedger.ClaimedIsCompleted | model/async_image.go:313-547 | a queued task that is claimed and started is completed by that worker if and only if it can be paid, and by no other worker |
| ImageLedger.PriceIsSettlementPrice | model/async_image.go:313-1266 | over every run, the price of a settled task is the one given to the transaction that found it unsettled and settled it |
| ImageArchive.PutHead | controller/async_image_worker.go:461-511 | what an upload leaves in the store passes the comparison the next attempt makes |
| ImageArchive.CopyRecognisedIff | controller/async_image_worker.go:500-511 | a copy made for any task and item is taken for another one if and only if size, type, hash, business, task and index agree |
| ImageArchive.RetryDelay | controller/async_image_worker.go:513-527 | the doubling loop with its cap computes min(900, 15·2^(a-1)) |
| ImageArchive.DelayTable | controller/async_image_worker.go:519-525 | the delays one by one: 15, 30, 60, 120, 240, 480 and then 900 seconds |
| ImageArchive.BackoffMonotone | controller/async_image_worker.go:513-527 | the delay lies in 15..900 and never decreases with the attempt count |
| ImageArchive.NextKeepsInv | controller/async_image_worker.go:410-498 | every step of the worker, the cleanup job with its claimed batch, a crash, an administrator's reset or failing validation, and the clock keeps the protocol invariant |
| ImageArchive.RunKeepsInv | controller/async_image_worker.go:410-498 | the invariant over every calm run, with attempts cut off anywhere |
| ImageArchive.PublishedMeansPresent | controller/async_image_worker.go:410-498 | a published task's expiry is the minimum object expiry, nothing had expired when it was listed, and until then every object is available in its row, expires after the retention and is in the store with the size, type, hash and ids of the manifest |
| ImageArchive.NoNeedlessUpload | controller/async_image_worker.go:410-511 | an upload is only made when the store could not be asked or its copy does not match in size, type, hash or ids, or has expired |
| ImageArchive.LookDecides | controller/async_image_worker.go:440-463 | with a readable file, an object is uploaded if and only if the store could not be asked or has no unexpired copy of the promised size, type, hash and ids; otherwise its row is updated if it says something else |
| ImageArchive.StoredIsNotUploadedAgain | controller/async_image_worker.go:410-498 | after a crash, an attempt that finds all objects stored has a calm run that publishes them without one upload |
| ImageArchive.UploadOutcome | controller/async_image_worker.go:464-488 | an upload leaves its copy in the store; a failed one leaves the store alone, fails the row unless it is in deletion, and is retried |
| ImageArchive.ConflictStops | model/async_image.go:828-856 | a row the cleanup job has moved in the meantime, and a crash, end the attempt and change nothing else |
| ImageArchive.RetryBudget | controller/async_image_worker.go:513-535 | at most max(0, maximum attempts - 1) retries are scheduled between two resets |
| ImageArchive.BudgetAttained | controller/async_image_worker.go:513-527 | with time enough before the deadline, failing uploads do schedule that many retries |
| ImageArchive.RetryOutcome | controller/async_image_worker.go:513-535 | a retry is scheduled after min(900, 15·2^attempts) seconds if and only if attempts and time are left; otherwise the output fails |
| ImageArchive.RetriedIff | controller/async_image_worker.go:410-498 | one step schedules a retry if and only if an upload failed, an object is in deletion or the final listing is not all available, with attempts and time left |
| ImageArchive.GivenUpIff | controller/async_image_worker.go:410-535 | a task being archived fails if and only if manifest and rows do not match, a file is damaged, or such a failure comes with no attempts or time left |
| ImageArchive.AttemptsSpaced | model/async_image.go:512-535 | whatever happens after a retry was scheduled, short of a reset, no attempt runs before its delay is over |
| ImageArchive.ExpiredIsDeleted | model/async_image.go:1093-1140 | the cleanup job deletes an expired object and marks its row, and expires a task whose published expiry has passed |
| ImageArchive.DeletionIsRetried | controller/async_image_admin.go:520-548 | a deletion that fails, or a job that stops, lets go of its objects, and the next job claims them again |
| ImageArchive.ResetRestarts | model/async_image.go:1056-1075 | a reset gives a failed task all its attempts back, due at once, until the new deadline, and leaves any other task alone |
| ImageArchive.UnexpiredIsKept | model/async_image.go:1093-1140 | it touches no row that is neither expired nor marked for deletion, and no object of such a row |
| ImageArchive.StagingFailureSafeIff | controller/async_image_worker.go:431-434 | a worker that marks a damaged staging file keeps the invariant if and only if the row is not in the cleanup job's batch |
| ImageArchive.ValidationFailureSafeIff | controller/async_image_admin.go:436-441 | an administrator's failing validation keeps the invariant, whatever the task has become since it was read, if and only if the row is not in the batch and no worker is at the task |
| ImageArchive.StaleValidationIsPublished | model/async_image.go:878-891 | a validation that marks a row just before the publication leaves a published, unexpired task with a failed row |
| ImageArchive.FreshCanBePublished | controller/async_image_worker.go:410-498 | every new task, with any number of images, has a calm run that publishes it |
| ImageArchive.InterruptedDeletionLosesObject | model/async_image.go:857-866 | otherwise there is a run from a good state that publishes an unexpired object that is gone, with the worker marking |
| ImageArchive.FailingValidationLosesObject | controller/async_image_admin.go:417-446 | the same with a failing validation, while no worker is running when the row is marked |
| BulkRetry.ValidateAndReset | controller/async_image_admin.go:417-451 | accepted exactly for a found, eligible and complete task that the reset still finds failed; an integrity error exactly for an eligible incomplete one; rows before the first unsound item become usable, an unreadable one is marked damaged, no row beyond it is touched |
| BulkRetry.VerdictMeans | controller/async_image_admin.go:417-451 | accepted, integrity error and staying failed in terms of manifest, rows, files and reset alone |
| BulkRetry.MarksMean | model/async_image.go:857-876 | the mark on every row: reached only if all items before it are good, made available if its file reads, failed if not, left alone if it does not match |
| BulkRetry.CountersMean | controller/async_image_admin.go:486-497 | accepted and skipped add up to the rows handled, and integrity errors are among the skipped |
| BulkRetry.ValidatedAgain | controller/async_image_admin.go:417-451 | validating again changes nothing more and finds the same, except that a task accepted, or found reset by somebody else, is no longer listed as failed |
| BulkRetry.Database.ListFailed | model/async_image.go:1077-1085 | one batch is the prefix of the full listing of failed rows after the cursor |
| BulkRetry.Database.Validate | controller/async_image_admin.go:417-451 | the real validation of the row with that id: its two answers, its marks and its reset, and no other row changes |
| BulkRetry.HandleBatch | controller/async_image_admin.go:486-497 | a batch is handled row by row: counters, cursor and table all advance by exactly its rows |
| BulkRetry.NextBatch | controller/async_image_admin.go:475-502 | one round handles exactly the next hundred rows of the listing, or what is left |
| BulkRetry.Run | controller/async_image_admin.go:469-509 | a run handles a prefix of the listing of one unbounded query, all of it unless cancelled or failing; after a batch the progress is the cursor's percentage, and it is 100 whenever the run ends without error (also when cancelled) |
| BulkRetry.TallyCovers | controller/async_image_admin.go:487-495 | accepted, skipped and integrity verdicts add up to the rows counted |
| BulkRetry.WantedRowsListed | model/async_image.go:1077-1085 | no failed row with an id in (cursor, max] is left out |
| BulkRetry.ListingResumes | model/async_image.go:1077-1085 | moving the cursor to a listed row drops exactly the rows up to it |
| BulkRetry.ListingAfterHandling | controller/async_image_admin.go:469-509 | handling rows does not disturb the rest of the listing |
| BulkRetry.PercentMonotone | controller/async_image_admin.go:498-500 | the percentage is within 0..100 and non-decreasing in the cursor |
| BulkRetry.ResumedRunIsOneRun | controller/async_image_admin.go:469-509 | stopping after k1 rows and resuming for k2 from the saved state equals one run of k1+k2 rows, in table and counters |
| BulkRetry.HandlingComposes | controller/async_image_admin.go:469-509 | handling a stretch twice after a crash leaves the table as one run does |
| BulkRetry.CutOffInsideBatch | controller/async_image_admin.go:475-502 | resumed from the last saved state after a cut-off inside a batch, the table and the integrity counter are those of one run, accepted is short by exactly the rows accepted since the save, and skipped by exactly those that somebody else had reset |
| BulkRetry.NothingMissedIff | controller/async_image_admin.go:417-502 | nothing is missed if and only if none of those rows left the failed state |
| BulkRetry.CompleteRunLeavesNothing | controller/async_image_admin.go:469-509 | after a whole run a row still failed in the range is one the validation did not accept, would not accept now, and would not change |
| Midjourney.SkippedAnswerChangesNothingIff | controller/midjourney.go:166-187 | a skipped answer owes no refund, and writing it would change nothing if and only if properties and buttons are each absent or as stored |
| Midjourney.NewButtonsAreLost | controller/midjourney.go:241-294 | for every unfinished task an answer that brings only new buttons or properties is skipped and they are lost |
| Midjourney.HonestDecision | controller/midjourney.go:153-211 | an honest answer is either skipped or leads to a write that refunds if and only if it is a finished failure with a quota |
| Midjourney.FailureIsDecided | controller/midjourney.go:160-211 | an unfinished task is written as a finished failure if and only if the answer says FAILURE or an hour has passed, and refunded if and only if it then has a quota |
| Midjourney.AnswerIsWritten | controller/midjourney.go:169-211 | otherwise the answer is written as it is; owner and quota stay, and a field left out keeps its text |
| Midjourney.NextKeepsInv | controller/midjourney.go:34-239 | every step of any number of passes, submissions and bulk failures keeps the refund bookkeeping |
| Midjourney.RunKeepsInv | controller/midjourney.go:34-239 | the bookkeeping over every fair interleaving |
| Midjourney.RefundedAtMostOnce | controller/midjourney.go:153-233 | over every fair interleaving each task is refunded at most once, only when it is a finished failure, and each user is credited exactly the quotas refunded |
| Midjourney.NoRefundForgotten | controller/midjourney.go:204-233 | over every fair interleaving, a task is refunded, still owed its refund, or lost to a cut-off pass if and only if some answer turned it into a failure and it had a quota |
| Midjourney.BulkFailureIsNotRefunded | controller/midjourney.go:50-102 | a task that fails in bulk stays failed and no later pass refunds it |
| Midjourney.TwoPassesPayTwiceIff | model/midjourney.go:178-184 | two passes given the same failing answer both pay if and only if that answer leaves the status as it was |
| Midjourney.RepeatedAnswerPaidIff | controller/midjourney.go:153-233 | of two answers for one task in one pass the second is paid as well if and only if it is failing on the row the first one wrote |
| UpstreamSync.NormalizeMember | controller/channel_upstream_update.go:93-98 | a name is in the normalised list exactly when it is the non-empty trim of some input |
| UpstreamSync.NormalizeNormal | controller/channel_upstream_update.go:93-98 | normalised lists are trimmed, non-empty and free of duplicates |
| UpstreamSync.MergeModelNames | controller/channel_upstream_update.go:100-114 | the loop with its seen set returns the base list followed by the unseen names |
| UpstreamSync.SubtractNormal | controller/channel_upstream_update.go:116-125 | subtraction keeps exactly the names not removed, in normal form |
| UpstreamSync.IntersectNormal | controller/channel_upstream_update.go:127-136 | intersection keeps exactly the names allowed, in normal form |
| UpstreamSync.PendingAddMembers | controller/channel_upstream_update.go:172-231 | a pending addition is exactly an upstream name that is not local, not a mapping target and not ignored |
| UpstreamSync.PendingRemoveMembers | controller/channel_upstream_update.go:172-231 | a pending removal is exactly a local name the upstream does not list and the mapping does not define |
| UpstreamSync.IgnoredIff | controller/channel_upstream_update.go:205-224 | a name is ignored if and only if it is an entry, or a pattern behind "regex:" in an entry matches it |
| UpstreamSync.DetectMeans | controller/channel_upstream_update.go:356-403 | a check records exactly what is gone and the time, and exactly what is new: as pending, or with auto-sync appended to the models |
| UpstreamSync.LocalCommaFree | model/channel.go:289-294 | the local list read from the stored text is normal and comma-free |
| UpstreamSync.ModelsRoundTrip | model/channel.go:289-294 | a comma-free normal list joined into the column reads back as itself |
| UpstreamSync.Channel.Check | controller/channel_upstream_update.go:356-403 | a check changes the row as specified: nothing when too early or failed, the detected lists otherwise, and with auto-sync the additions at once |
| UpstreamSync.Channel.ApplyUpdates | controller/channel_upstream_update.go:802-850 | applying a selection changes models, ignore list and pending lists as specified and reports what it did |
| UpstreamSync.AutoSyncGrows | controller/channel_upstream_update.go:380-403 | auto-sync appends exactly the detected additions; the reported number is their number and no local model is dropped |
| UpstreamSync.SelectionMembers | controller/channel_upstream_update.go:802-850 | only detected changes are applied, whatever is selected |
| UpstreamSync.SelectionPartitions | controller/channel_upstream_update.go:802-850 | pending additions split into added, ignored and remaining; remaining is in neither; add wins over remove and over ignore |
| UpstreamSync.ApplyMeans | controller/channel_upstream_update.go:802-850 | name by name, what a selection leaves of the models, the ignore list and both pending lists |
| UpstreamSync.NextModelsShape | controller/channel_upstream_update.go:138-143 | surviving models keep their order and are followed by the additions that are new |
| UpstreamSync.ConvergesIff | controller/channel_upstream_update.go:172-231 | detect, apply all, detect again finds nothing to add if and only if no addition contains a comma and no pattern is itself added away; then nothing is left to remove |
| UpstreamSync.AutoSyncConvergesIff | controller/channel_upstream_update.go:380-403 | with auto-sync the next check finds nothing to add if and only if no addition contains a comma |
| UpstreamSync.IgnoringDismisses | controller/channel_upstream_update.go:802-850 | ignoring a detected literal name without adding it dismisses it |
| UpstreamSync.DismissedForEver | controller/channel_upstream_update.go:172-231 | a dismissed name is never pending again, whatever checks and selections follow |
| KeyText.CountedKeysIff | model/channel.go:526-555 | the keys counted on update differ from the keys in use exactly for an empty JSON array |
| KeyText.LinesRoundTripIff | model/channel.go:175-197 | a list written one key per line reads back if and only if no key has a line break and neither end is blank |
| KeyText.RoundTripsIff | model/channel.go:175-197 | the same for the stored text, when it is not taken for a JSON array |
| MultiKey.Channel.Update | model/channel.go:526-573 | storing recounts the keys, drops status entries beyond them, and leaves the stored text when the new one is empty |
| MultiKey.Channel.DisableKey | controller/channel.go:1595-1636 | succeeds exactly for an index in range and then stores the status change, otherwise changes nothing |
| MultiKey.Channel.EnableKey | controller/channel.go:1638-1678 | the same for clearing status, time and reason |
| MultiKey.Channel.EnableAll | controller/channel.go:1680-1702 | all three maps are emptied; the count is the number of entries |
| MultiKey.Channel.DisableAll | controller/channel.go:1704-1749 | every enabled key in range becomes manually disabled and is counted, others keep their status; nothing is written when none is enabled |
| MultiKey.EnabledCountIs | controller/channel.go:1716-1728 | the number reported is the number of keys that were enabled |
| MultiKey.Channel.DeleteKey | controller/channel.go:1751-1829 | succeeds exactly when the index is in range and a key remains; text and maps are those of the remaining keys, re-indexed |
| MultiKey.Channel.DeleteDisabledKeys | controller/channel.go:1831-1898 | the number deleted is the number of automatically disabled keys; text and maps are re-indexed |
| MultiKey.Channel.Report | model/channel.go:641-704 | a report changes the first key that equals the one in use, and the channel status when no key is left enabled |
| MultiKey.SkipOne | controller/channel.go:1769-1801 | the copying loop yields the picked keys and the three maps moved to their new indices |
| MultiKey.SkipAuto | controller/channel.go:1832-1869 | the same for the loop over automatically disabled keys |
| MultiKey.AllButShape | controller/channel.go:1774-1801 | every index behind the deleted one moves down by one |
| KeyRecords.DisableRefines | controller/channel.go:1595-1636 | on the list of key records the action changes exactly that record's status |
| KeyRecords.EnableRefines | controller/channel.go:1638-1678 | on the list of key records the action clears exactly that record |
| KeyRecords.EnableAllRefines | controller/channel.go:1680-1702 | every record becomes enabled without time or reason |
| KeyRecords.DisableAllRefines | controller/channel.go:1704-1749 | exactly the enabled records become manually disabled |
| KeyRecords.ReportRefines | model/channel.go:641-691 | exactly the first record with the reported key changes |
| KeyRecords.ChannelFollows | model/channel.go:641-698 | the status of the channel in terms of its records: a report about a key disables a channel left without an enabled key and re-enables it with the key, one without a key sets it, one about an unknown key changes nothing, and the administrator's actions on keys leave it alone |
| KeyRecords.DeleteRefinesIff | controller/channel.go:1751-1829 | deleting removes exactly the chosen record, every survivor keeping status, time and reason, if and only if the remaining keys read back as written |
| KeyRecords.DeleteAutoRefinesIff | controller/channel.go:1831-1898 | deleting removes exactly the automatically disabled records if and only if some key is left and the rest reads back as written |
| KeyRecords.DeletingEveryKeyEnablesAll | controller/channel.go:1871-1898 | when all keys are automatically disabled none is deleted and all are enabled again |
| KeyRecords.RunRefines | controller/channel.go:1480-1898 | over every sequence of actions and reports whose deletions read back, the sparse maps stand for the list of records: size equals the number of keys, map domains stay in range, and the channel's status is the one that follows from the records |
| KeyRecords.CleanKeptIff | model/channel.go:641-691 | no time or reason stays on an enabled key, except exactly after a report that re-enables a key carrying one |
| KeyRecords.CleanRun | controller/channel.go:1595-1898 | so it is over every run without a re-enabling report |
| KeyRecords.EnableCleansIff | controller/channel.go:1638-1678 | enabling one key by hand leaves the list clean if and only if all other records were |
| KeyRecords.ReenabledByHand | controller/channel.go:1638-1678 | after a re-enabling report, enabling that key by hand makes the list clean again |
| KeyRecords.EnableAllCleansRun | controller/channel.go:1680-1702 | whatever came before, enabling all keys makes it clean |
| KeyPolling.Pool.Next | model/channel.go:199-283 | the whole text for a single-key channel; otherwise an error exactly without enabled keys or, when polling, with an unreadable saved index; otherwise an enabled key: in polling mode the first in cyclic order from the saved index, which then moves just behind it |
| KeyPolling.Search | model/channel.go:264-278 | the wrapping loop finds the first enabled index in cyclic order and never reaches its fallback |
| KeyPolling.PollRotates | model/channel.go:261-277 | one poll moves the served key to the end of the order |
| KeyPolling.RoundRobin | model/channel.go:261-277 | poll number k serves the enabled keys round robin, for every k |
| KeyPolling.RoundServesEachOnce | model/channel.go:229-277 | one round serves every enabled key exactly once |
| KeyPolling.Poll | model/channel.go:247-276 | any number of calls on a polling channel with an enabled key never fail and serve the enabled keys in turn, from the saved index on |
| KeyStatusView.GetKeyStatus | controller/channel.go:1481-1593 | defaults, clamping, filter, totals and the three counts; the page shown is that slice of the filtered lines |
| KeyStatusView.List | controller/channel.go:1494-1542 | one line per key record with its status, time, reason and preview, and exact counts |
| KeyStatusView.PagesCoverView | controller/channel.go:1556-1577 | pages 1 to the last, concatenated, are the filtered list |
| KeyStatusView.PageShape | controller/channel.go:1556-1577 | no page is longer than asked for and none of a non-empty view is empty |
| KeyStatusView.LineMeans | controller/channel.go:1515-1553 | a line shows position and status, time and reason of a disabled key only, and at most ten characters of the key |
| KeyStatusView.CountsAddUp | controller/channel.go:1510-1518 | the three counts add up to the number of keys |
| KeyAppend.ReadPlain | controller/channel.go:1012-1018 | the new keys are the non-blank trimmed lines in order |
| KeyAppend.PlainKeysMean | controller/channel.go:1011-1018 | plain input gives exactly the lines that are not blank after trimming |
| KeyAppend.VertexKeysMean | controller/channel.go:994-1010 | Vertex input gives one credential, or what the array it looks like parses to |
| KeyAppend.Append | controller/channel.go:1021-1042 | the result is the existing keys followed by the trimmed unseen new keys, each once |
| KeyAppend.AddedExactlyOnce | controller/channel.go:1021-1042 | a new key occurs exactly once afterwards; one that was there is not repeated |
| KeyAppend.AppendIdempotent | controller/channel.go:1021-1042 | sending the same input again adds nothing to the list |
| KeyAppend.AppendRowIdempotent | controller/channel.go:972-1044 | nor does it change the stored row, when the text written is read again as the list it was written from |
| KeyAppend.PlainAppendTwice | controller/channel.go:972-1044 | which it always is for keys kept one per line and input one key per line |
| KeyAppend.ExistingIff | controller/channel.go:978-991 | the update reads the keys in use unless the text looks like a JSON array and is none |
| KeyAppend.AppendKeepsRecordsIff | controller/channel.go:972-1044 | existing records keep index, status, time and reason and the added keys follow as enabled, if and only if the text is empty or reads back |
| KeyAppend.PlainAppendReadsBack | controller/channel.go:972-1044 | that is always so for keys kept one per line with something in them, and input one key per line |
| KeyAppend.MisreadKeysAreReplaced | controller/channel.go:978-991 | a text that only looks like an array is replaced by the new keys, under the old keys' statuses |
| PricingDiff.CollectModels | controller/ratio_sync.go:542-556 | exactly the models any table mentions |
| PricingDiff.Judge | controller/ratio_sync.go:558-591 | per channel name and model, false exactly for the suspicious pair |
| PricingDiff.CompareOne | controller/ratio_sync.go:606-624 | the branches give the cell and the two flags of the specification |
| PricingDiff.Build | controller/ratio_sync.go:593-654 | exactly the included fields of every model, complete over all channels |
| PricingDiff.ChannelsWithDiff | controller/ratio_sync.go:656-665 | exactly the channels that show a real value somewhere |
| PricingDiff.Prune | controller/ratio_sync.go:667-693 | channels without any difference go, then items without a differing cell, then empty models |
| PricingDiff.BuildDifferences | controller/ratio_sync.go:536-696 | all passes together compute the table defined cell by cell |
| PricingDiff.ShownIff | controller/ratio_sync.go:536-696 | without null and "same" upstream values an item is shown exactly when some channel has a value that the local one lacks or differs from; pruning never empties an item |
| PricingDiff.TableMeans | controller/ratio_sync.go:536-696 | in terms of the price tables alone: a field is listed if and only if some channel deviates by a billionth or more, a channel appears if and only if it deviates somewhere, its cell is its own price where it deviates, "same" where it agrees and empty where it has none, and it is distrusted if and only if it answers 37.5 and 1 |
| PricingDiff.CellShows | controller/ratio_sync.go:609-626 | the same for one cell, whatever the values |
| PricingDiff.ShownExactly | controller/ratio_sync.go:656-693 | for all values: an item is shown if and only if some channel differs there and some channel that differs anywhere does not show "same" there |
| PricingDiff.NullOrSameIsNotReported | controller/ratio_sync.go:656-688 | a null or literal "same" that is the only difference is not reported |
| PricingDiff.NoEmptyEntry | controller/ratio_sync.go:690-692 | no model without items remains |
| PriceConvert.RoundRatioNearest | controller/ratio_sync.go:698-700 | the rounded ratio is the nearest multiple of 0.000001, within 0.0000005 of the exact one |
| PriceConvert.RoundHalfTies | controller/ratio_sync.go:698-700 | halves are rounded away from zero and the sign does not matter |
| PriceConvert.RoundRatioMonotone | controller/ratio_sync.go:698-700 | rounding keeps the order |
| PriceConvert.ConvertOpenRouter | controller/ratio_sync.go:744-793 | the loop computes the entries' ratios, later entries writing over earlier ones |
| PriceConvert.OpenRouterAt | controller/ratio_sync.go:744-793 | with distinct ids each entry alone decides its model and no other model is priced |
| PriceConvert.OpenRouterMeans | controller/ratio_sync.go:717-800 | a ratio unit is 0.002 dollars for a thousand tokens, other prices are relative to the prompt, to six decimals; exactly which entries are left out and which are free |
| PriceConvert.ModelsDevMeans | controller/ratio_sync.go:845-985 | the ratio is half the price of a million tokens, other prices are relative to it, to six decimals; exactly which costs are left out and which are free |
| PriceConvert.SortProviders | controller/ratio_sync.go:915-919 | the provider names in byte order |
| PriceConvert.SortedUnique | controller/ratio_sync.go:915-919 | there is only one such order, so the response's map order does not matter |
| PriceConvert.SelectProvider | controller/ratio_sync.go:922-944 | one provider's models, in any order, each compared with what was selected before |
| PriceConvert.ConvertModelsDev | controller/ratio_sync.go:906-985 | an error exactly without valid candidates; otherwise the ratios of the selected candidates, for the one sorted order of providers |
| PriceConvert.NearCheapest | controller/ratio_sync.go:881-950 | the selected candidate is a valid one, non-zero if any is, and below every non-zero candidate plus 1e-9 |
| PriceConvert.ExactlyCheapest | controller/ratio_sync.go:881-950 | when unequal prices differ by at least 1e-9 it is the cheapest, from the smallest provider on ties |
| PriceConvert.DearerWinsIff | controller/ratio_sync.go:881-895 | of two providers in order with prices above zero the second is selected if and only if it is cheaper by at least 1e-9, so the dearer wins if and only if the first one's price is higher by less than that |
| PriceConvert.ConvertersAgreeIff | controller/ratio_sync.go:744-972 | for the same prices per token and per million the two converters give the same ratios if and only if it is neither a missing prompt with a zero completion nor a positive prompt with a missing completion |
| PriceConvert.ListsAgree | controller/ratio_sync.go:724-985 | over whole lists with distinct ids against one provider the two converted tables agree on every model |
| OggScan.Duration | common/audio.go:196-254 | ends on every byte string and returns the largest non-negative granule at the visited positions over 48000 |
| OggScan.Scan | common/audio.go:204-249 | the loop moves forward in every round and ends with the largest non-negative granule at the visited positions |
| OggScan.TableSum | common/audio.go:242-245 | the page size is the sum of the segment table |
| OggScan.SumConcat | common/audio.go:241-245 | the page size is the sum of the segment lengths, part by part |
| OggScan.MarkerIff | common/audio.go:219-225 | a marker is the four bytes of "OggS" |
| OggScan.GranuleRoundTrip | common/audio.go:228-229 | reading eight little-endian bytes as a signed number undoes writing them |
| OggScan.NoStraddle | common/audio.go:217-223 | no marker begins in marker-free bytes, even reaching into the following page |
| OggScan.VisitsPageStarts | common/audio.go:208-249 | on well-formed pages with marker-free bytes before, between and after them the scan visits exactly the page starts |
| OggScan.StreamDuration | common/audio.go:196-254 | the result on such a stream is the largest page granule, or 0 |
| OggScan.LargestGranuleIs | common/audio.go:228-232 | that is one of the pages' granules or 0 and none exceeds it, so -1 is ignored |
| BodyStorage.Cache.IncrementMemory | common/disk_cache_config.go:125-128 | counters keep matching the open storages |
| BodyStorage.Cache.DecrementMemory | common/disk_cache_config.go:131-134 | counters keep matching the open storages |
| BodyStorage.Cache.IncrementDisk | common/disk_cache_config.go:109-112 | counters keep matching; usage stays within the limit while no file outgrew its admitted length |
| BodyStorage.Cache.DecrementDisk | common/disk_cache_config.go:115-122 | the decrement is exact: the floor at zero is never hit |
| BodyStorage.MemoryStorage.Read | common/body_storage.go:47-54 | the next bytes from the position, end of file, or the closed error; the position advances by what was read |
| BodyStorage.MemoryStorage.Seek | common/body_storage.go:56-63 | the target position, or an error that leaves the position |
| BodyStorage.MemoryStorage.Close | common/body_storage.go:65-72 | uncounts the storage once; closing again changes nothing |
| BodyStorage.DiskStorage.Read | common/body_storage.go:169-176 | as for memory, except that an empty read is never the end of the file |
| BodyStorage.DiskStorage.Seek | common/body_storage.go:178-185 | as for memory |
| BodyStorage.DiskStorage.Close | common/body_storage.go:187-196 | removes the file and uncounts the storage once; closing again changes nothing |
| BodyStorage.DiskStorage.Bytes | common/body_storage.go:198-230 | the whole content wherever the position is, and the position is put back |
| BodyStorage.NewMemoryStorage | common/body_storage.go:37-45 | a fresh open storage, counted with its size |
| BodyStorage.NewDiskStorage | common/body_storage.go:100-130 | a fresh open storage with its file, or no file and no count after a failure |
| BodyStorage.NewDiskStorageFromReader | common/body_storage.go:132-167 | the same for a stream; more than the maximum leaves no file and no count |
| BodyStorage.CreateBodyStorage | common/body_storage.go:241-259 | disk exactly for enabled, large enough, fitting bodies whose disk attempt works; memory otherwise |
| BodyStorage.CreateFromReader | common/body_storage.go:262-303 | the error cases exactly, the body kept is the body sent, hits and usage counted; a direct disk creation adds the true length, whatever was announced and admitted |
| BodyStorage.Session | common/body_storage.go:37-303 | over any sequence of creations and (repeated) closes the counters equal number and total size of the open storages, one file per open disk storage, and disk usage stays within the maximum when no accepted body is longer than a length it announced and was admitted to the disk by |
| BodyStorage.UnderstatedLength | common/body_storage.go:262-281 | on an empty cache the usage afterwards is the body's true length, whatever smaller length was announced and admitted |
| Enrich.KeyInjective | controller/model_meta.go:340-341 | different (name, type) pairs have different composite keys |
| Enrich.GatherIsInfo | controller/model_meta.go:244-286 | the gathering loop collects, in price order, the names, and the exact unions of endpoints, groups and quota types, of the prices a rule matches |
| Enrich.MatchesIff | controller/model_meta.go:247-256 | rules 1, 2 and 3 match a pattern at the beginning, anywhere and at the end of a name; no other rule matches |
| Enrich.ExactMeans | controller/model_meta.go:199-232 | an exact model gets its own channels, groups and quota types, and endpoints only if it has none stored |
| Enrich.Split | controller/model_meta.go:195-209 | exact models by name and rule models each once; missing models in neither |
| Enrich.FillExact | controller/model_meta.go:211-229 | exact models get their own lookups; others are untouched |
| Enrich.GatherAll | controller/model_meta.go:235-286 | for every rule model the batch holds what gathering for it alone gives |
| Enrich.CollectBound | controller/model_meta.go:335-350 | one entry per channel name and type over the matched names, none lost to a key collision |
| Enrich.SortedList | controller/model_meta.go:325-333 | quota types in strictly increasing order, exactly the set |
| Enrich.FillRule | controller/model_meta.go:301-355 | unions where something matched, kept values where nothing did, channels where any are bound |
| Enrich.FillRules | controller/model_meta.go:301-355 | every rule model is enriched as by its own lookup; others are untouched |
| Enrich.EnrichModels | controller/model_meta.go:190-356 | batch enrichment equals per-model lookup for every model of every list |

## Left out

- HTTP handlers, authentication, payment, OAuth, e-mail and page plumbing: input and output around other code.
- Relaying of requests and its retry counter: the effects live in many adaptors and would be assumed.
- Rounding, NaN and infinities of floating-point numbers: reals are used, and prices are taken to be finite.
- Overflow of 64-bit counters and quotas: integers are unbounded, except the signed granule of an Ogg page.
- JSON parsing and encoding, and regular-expression matching: parameters of the model.
- Concurrent key actions on one channel: each action is one step, while the code reads the row before it takes its lock; linearizability is not claimed.
- The cached key list of a loaded channel, and the channel and pricing caches kept in memory and in Redis.
- Database failures in the middle of an action other than the modelled ones: a transaction commits or changes nothing.
- ImageArchive.RunKeepsInv: over calm runs, with one worker per task at a time, as the lease on the task row is meant to ensure, and with one cleanup job at a time, as the system task queue is meant to ensure; renewing the lease is not modelled, the keys of stored metadata are taken in lower case, and the two marks of a failing validation, on the row and on the task, are one step.
- ImageArchive.PublishedMeansPresent: over calm runs, because marking a damaged staging file of an object in deletion, or of a task a worker is at, breaks it, as the lemmas on loss and on stale validation show.
- ImageLedger.RefundAlwaysPossible: one direction; the exact condition is that of RefundCommitsIff.
- Midjourney.RefundedAtMostOnce: over fair runs, in which a pass gets one answer per task, a reason comes with status FAILURE and FAILURE with a reason or full progress, and no task is submitted as failed and unfinished; without these, TwoPassesPayTwiceIff and RepeatedAnswerPaidIff show how it fails.
- BulkRetry.Run: sequential; what a validation finds outside the rows it marks (the task is found, its files are readable, the reset answers as it does) is the same whenever it is validated. Progress is not monotone when a run resumes from a state that a cancelled run saved with 100.
- MultiKey.Channel.Report: the caller returns before it when the whole channel already has the reported status, and writes the row afterwards.
- KeyStatusView.List: the preview is cut by characters, the code cuts bytes; they agree for keys in ASCII.
- UpstreamSync.DismissedForEver: for names that do not begin with "regex:", which are patterns as ignore entries.
- KeyPolling.RoundRobin: while the statuses stay the same; the channel is taken to be the object whose saved index is read.
- PricingDiff.TableMeans: for upstream values that are neither null nor "same" and channels with distinct names, which the code makes by appending the id; ShownExactly covers all values.
- OggScan.Duration: for readers that return fewer bytes than asked for only at the end of the data; read errors are not modelled.
- BodyStorage.Session: sequential runs; the interleaving of the two-step floor of the disk counters and the clean-up of old files by age, which uncounts files of others, are not modelled.
- Enrich.EnrichModels: works on an array of model values, so two entries sharing one object, and a failing channel query, are not modelled; the order of lists built from a map is left open.
- Generating an image, the bounded response writer, notifications and the staging directory of the image worker.
- Other audio formats, address tables, masking, hashing, one-time passwords and system monitoring: easy or library-backed.
