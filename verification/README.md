# Verified model of the Reposhift operator

Reposhift is a Kubernetes operator that moves repositories and pipelines from Azure DevOps to GitHub. Its reconcilers are
step machines over a stored status record. This project models the four migration reconcilers, the two broadcast hubs
with the server-sent-event printer, the migration cache and the repository naming rules, and proves what they keep over
whole runs.

`dafny verify dfyconfig.toml` checks everything.

## How the model is laid out

Each reconciler comes as a *machine* (the status record as a value, and a function for one step), *theorems* about every
run of the machine, *outcomes* (what each success, failure, expiry or departure causes in the stored fields, and that
nothing is stored as completed or failed for any other reason, stated without the machine's own edits), and a
*controller* (a class with the same fields, whose methods edit them in place as the source does, with its loops; every
method is proved to do exactly what the machine does).

| files | subject |
|---|---|
| `Common` | options, counting, migration resources and their status entries |
| `BatchBackoff`, `BatchMachine`, `BatchProtocol`, `BatchSafety`, `BatchTheorems`, `BatchFailure`, `BatchOutcomes`, `BatchLease`, `BatchProgress`, `BatchController` | batches claimed, leased and retried by competing workers |
| `MonorepoMachine`, `MonorepoTheorems`, `MonorepoLiveness`, `MonorepoAssembly`, `MonorepoOutcomes`, `MonorepoSuccess`, `MonorepoController` | many repositories cloned in parallel and merged into one |
| `AdoToGitMachine`, `AdoToGitTheorems`, `AdoToGitRestart`, `AdoToGitRevision`, `AdoToGitOutcomes`, `AdoToGitController` | one resource per reconcile, and the restart after a spec edit |
| `PipelineMachine`, `PipelineTheorems`, `PipelineLiveness`, `PipelineRestart`, `PipelineOutcomes`, `PipelineController` | pipelines converted to workflows |
| `EventStream`, `Broadcasts`, `SseHub`, `WebSocketHub` | events printed, parsed and broadcast |
| `MigrationCache` | the bounded cache with eviction |
| `Naming`, `NamingReference` | repository names, by the source's passes and by a reference in one pass |

The batch protocol is proved in two stages. `BatchProtocol` lets any number of workers read any version ever stored,
interleave step by step, crash with writes still under way, and have writes refused or replies lost; `SerialEquivalent`
shows that the stored versions are always those of reconciles done one after the other. `BatchTheorems` then proves its
safety properties of those, and states them of the interleaved history. `BatchController` shows that the imperative
reconciler is the protocol's.

External operations (git, GitHub, Azure DevOps, secrets, discovery, validation), the delivery of status writes, the clock
and the random jitter are inputs of a step, chosen freely. Time is an integer number of nanoseconds that never runs
backwards. Map iteration takes any order. A Go panic on a closed channel is a method precondition that every caller is
proved to meet.

## Where the code does not do what its text says

- A batch with a failed resource is scheduled again to retry it (internal/controller/batchmigration_controller.go:559-572),
  but a failed resource counts as processed and is skipped, so the retries can never complete the batch
  (`BatchTheorems.FailureIsPermanent`); it completes exactly when none has failed
  (`BatchFailure.CompletesIffNoneFailed`), and the other case is reached (`BatchFailure.RetriedInVain`).
- The retry delay is meant to be capped at the maximum; the cap comes after a conversion that overflows, and the delay
  then is negative (`BatchBackoff.DelayInBandIffFits`, `BatchBackoff.OverflowIsReachable`).
- A spec change that adds a pipeline by hand says that the conversion resumes with it. The pipeline is taken up exactly
  when the conversion has no statuses at all, as after a failed configuration (`PipelineRestart.AddedGetsStatusIff`,
  `PipelineRestart.FailedEarlyResumes`). Otherwise it is never heard of again, and the conversion ends only if the new
  total happens to lie in a certain range (`PipelineRestart.RestartStallsUnlessTotalsAgree`,
  `PipelineRestart.AddedPipelineIsForgotten`).
- A cache entry with the empty id can make eviction remove nothing, or a running entry where a completed one is to go
  (`CacheMachine.EvictsRightIff`, `CacheMachine.EmptyIdOverflows`, `CacheMachine.EmptyIdCostsARunningEntry`).
- The naming comments promise no duplicate business unit in a name; that holds only for units of one word
  (`Naming.PrefixOnceIff`, `Naming.TwoWordsAreAddedTwice`).
- An SSE client whose id is shared can be silenced by another's departure (`SseHub.SharedIdSilences`).
- An AdoToGit restart keys entries by id and the running step by name, so a resource that changes only its id ends up with
  two entries, one of them Pending in a completed migration (`AdoToGitRestart.PutKeepsDistinctIff`,
  `AdoToGitRestart.NewIdIsDuplicated`).

## Model

| member | source | states |
|---|---|---|
| BatchProtocol.SerialEquivalent | internal/controller/batchmigration_controller.go:63-201 | For any number of workers, any interleaving, any stale snapshot, crash or lost reply, the versions the server stored are those of a run in which whole reconciles happen one after the other, each from the current version and with time moving forward. |
| BatchProtocol.AcceptedExplained | internal/controller/batchmigration_controller.go:154-172 | A status write accepted on the latest resource version extends the serial account of the history by the writer's own reconcile, even if that reconcile was half done before. |
| BatchProtocol.RefusedExplained | internal/controller/batchmigration_controller.go:160-166 | A write refused for a stale resource version leaves the history and the serial account as they were. |
| BatchProtocol.StepConsistent | internal/controller/batchmigration_controller.go:204-258 | A worker's step in the shared world is the next step of the same reconcile done without interference, from the version it read. |
| BatchTheorems.AlwaysGood | internal/controller/batchmigration_controller.go:114-201 | Every stored version satisfies the batch invariant and follows from the one before by a permitted change, on every run. |
| BatchTheorems.PerformGood | internal/controller/batchmigration_controller.go:204-258 | Any one undisturbed reconcile, completed or cut off anywhere, stores only sound versions that follow one another. |
| BatchTheorems.Ownership | internal/controller/batchmigration_controller.go:154-201 | Pending and Retrying versions have no owner and no lease, Claimed and Processing versions have both; an owner is never replaced by another without a version between that has none; a held batch is written only by its owner. |
| BatchTheorems.AttemptsAreBounded | internal/controller/batchmigration_controller.go:364-437 | RetryCount never exceeds MaxRetries, accepted claims are RetryCount in unclaimed phases and RetryCount + 1 otherwise, and a run has at most 5 * (MaxRetries + 1) phase changes. |
| BatchTheorems.PhaseChangesBounded | internal/controller/batchmigration_controller.go:545-605 | Every phase change lowers a measure of the retries left and the rank of the phase, so the changes made so far and those left never exceed the initial measure. |
| BatchTheorems.ClaimsCounted | internal/controller/batchmigration_controller.go:154-172 | The claims recorded with a version are exactly the claims among the versions before it. |
| BatchTheorems.CompletedMeansEverything | internal/controller/batchmigration_controller.go:470-588 | On every stored version entries have distinct names and match the counters, the percentage is in 0..100, and a Completed batch has Failed = 0 and a Completed entry for every resource. |
| BatchTheorems.FailureIsPermanent | internal/controller/batchmigration_controller.go:470-477 | Entries of a version are kept unchanged by all later ones, so once a resource has failed no number of retries makes the batch Completed. |
| BatchFailure.CompletesIffNoneFailed | internal/controller/batchmigration_controller.go:545-588 | When the loop over the resources is over, the batch becomes Completed if and only if no entry is Failed. |
| BatchFailure.FailureOccurs | internal/controller/batchmigration_controller.go:204-258 | A run of one worker, from the creation of the batch on, stores it as Retrying with its only resource Failed. |
| BatchFailure.RetriedInVain | internal/controller/batchmigration_controller.go:384-437 | From there no continuation, by any workers in any interleaving, ever stores the batch as Completed. |
| BatchTheorems.BackoffIsRespected | internal/controller/batchmigration_controller.go:384-437 | The claim that follows the k+1st retry is dated no sooner than min(Initial * Multiplier^k, Max) after that retry was decided, while the product fits a Duration. |
| BatchLease.LeaseDecides | internal/controller/batchmigration_controller.go:204-224 | Of an owner whose first update is stored, that version is Stale if and only if the lease had run out when the owner looked; otherwise a claimed batch is started, and work leaves the lease as it was, or at ten minutes from the look if less than two were left. |
| BatchLease.ClaimsAreForTenMinutes | internal/controller/batchmigration_controller.go:154-172 | In every history, a Claimed version is its Pending predecessor with the writer as owner and a lease that ends ten minutes after the time of the claim. |
| BatchLease.StaleMeansExpired | internal/controller/batchmigration_controller.go:364-377 | In every history, a Stale version was written by the owner of the version before it, after the lease of that version had run out. |
| BatchLease.StartedWhileLeased | internal/controller/batchmigration_controller.go:175-201 | In every history, a claimed batch is started only by its owner, at a time within its lease. |
| BatchLease.WorkKeepsLease | internal/controller/batchmigration_controller.go:348-362 | In every history, the lease of a version written in the course of work is the one its owner had found, still good, or ten minutes from then if less than two were left. |
| BatchOutcomes.EntriesAreReported | internal/controller/batchmigration_controller.go:261-285 | In every interleaving, an entry is Completed or Failed only because a reconcile worked on the resource that it names and that work succeeded or failed. |
| BatchOutcomes.CountersAreReported | internal/controller/batchmigration_controller.go:479-533 | A batch none of whose work fails is never stored with a failure, and one all of whose work fails never with a completed resource. |
| BatchOutcomes.PercentageIsExact | internal/controller/batchmigration_controller.go:535-543 | Until the batch is Completed, the stored percentage is the share of settled resources, rounded down. |
| BatchOutcomes.RetryIsScheduled | internal/controller/batchmigration_controller.go:410-454 | In every history, a Retrying version is due in the intended band after the decision if and only if the product fits a Duration, and otherwise it was due before. |
| BatchOutcomes.FailedIsExhausted | internal/controller/batchmigration_controller.go:410-437 | In every history, a batch is stored as Failed only when its retries are used up. |
| BatchProgress.AnyoneMovesFreeBatches | internal/controller/batchmigration_controller.go:93-172 | The first undisturbed reconcile by any worker initialises a new batch, claims a Pending one, and makes a Retrying one Pending if and only if it is due. |
| BatchProgress.NobodyElseInterferes | internal/controller/batchmigration_controller.go:175-210 | A reconcile stores nothing of a batch that is over or held by another worker. |
| BatchProgress.LateOwnerRetries | internal/controller/batchmigration_controller.go:364-437 | An owner whose lease has run out stores Stale, and then Retrying with one more retry if one is left and Failed if not. |
| BatchProgress.OwnerEndsTheAttempt | internal/controller/batchmigration_controller.go:545-588 | An owner whose lease is good leaves, within 2 * |resources| + 4 steps, a result for every resource and a batch that is Completed if no entry is Failed, and retried or given up otherwise. |
| BatchSafety.MarkKeepsTally | internal/controller/batchmigration_controller.go:479-533 | Recording one resource's outcome keeps entries distinct and the two counters equal to the entry counts. |
| BatchSafety.StoreKeeps | internal/controller/batchmigration_controller.go:154-172 | A write accepted by the server carries a sound status that follows the newest version. |
| BatchBackoff.BaseMonotone | internal/controller/batchmigration_controller.go:439-454 | The intended delays are positive, never shrink from one attempt to a later one, and never exceed the maximum. |
| BatchBackoff.DelayInBandIffFits | internal/controller/batchmigration_controller.go:439-454 | The scheduled delay lies in [base, 1.25 * base] if and only if Initial * Multiplier^k is below the range of a Duration; beyond it the delay is negative. |
| BatchBackoff.JitteredInBandIff | internal/controller/batchmigration_controller.go:443-453 | Capping and jittering a raw delay stays within a quarter above the capped delay exactly when the raw delay fits a Duration. |
| BatchBackoff.OverflowIsReachable | api/v1/batchmigration_types.go:52-72 | A policy within all ranges of the custom resource makes the eighth retry be scheduled in the past. |
| BatchController.BatchMigration.IsResourceProcessed | internal/controller/batchmigration_controller.go:470-477 | The answer is that the first entry with the resource's source name is Completed or Failed. |
| BatchController.BatchMigration.MarkResource | internal/controller/batchmigration_controller.go:479-533 | The first entry with the resource's name is replaced, or one is appended, one counter grows, and nothing else changes. |
| BatchController.BatchMigration.UpdateProgress | internal/controller/batchmigration_controller.go:535-543 | Only the percentage changes, to that of completed and failed over total. |
| BatchController.BatchMigration.Claim | internal/controller/batchmigration_controller.go:154-160 | The copy becomes a claim of the worker with a lease of its full length from now. |
| BatchController.BatchMigration.Renew | internal/controller/batchmigration_controller.go:356-362 | Only the lease changes, to its full length from now. |
| BatchController.BatchMigrationReconciler.UpdateStatus | internal/controller/batchmigration_controller.go:160-166 | Whatever the server does with the write (refuse, store, store and lose the reply), the stored history and the worker's copy agree with the protocol. |
| BatchController.BatchMigrationReconciler.Reconcile | internal/controller/batchmigration_controller.go:63-132 | From any version ever stored, the imperative reconcile carries out the protocol's reconcile to its end, and the server has stored exactly that reconcile's writes. |
| BatchController.BatchMigrationReconciler.ClaimBatch | internal/controller/batchmigration_controller.go:135-172 | A Pending batch is claimed in memory and offered to the server once, as the protocol does. |
| BatchController.BatchMigrationReconciler.ProcessClaimed | internal/controller/batchmigration_controller.go:175-201 | A batch of another worker is left alone, an expired lease makes it stale and retries it, and otherwise processing starts. |
| BatchController.BatchMigrationReconciler.ProcessProcessing | internal/controller/batchmigration_controller.go:204-258 | Ownership, expiry and renewal come before the loop over the resources, as in the protocol. |
| BatchController.BatchMigrationReconciler.ProcessResources | internal/controller/batchmigration_controller.go:226-257 | The loop visits every resource, stores after each that is not settled, goes on after a refused write, and ends in completion, retry or failure. |
| BatchController.BatchMigrationReconciler.MarkStale | internal/controller/batchmigration_controller.go:364-377 | The stale mark is stored with owner and lease removed before the batch is retried or failed. |
| BatchController.BatchMigrationReconciler.ProcessRetrying | internal/controller/batchmigration_controller.go:384-408 | A retry becomes Pending only when its time has come. |
| BatchController.BatchMigrationReconciler.CompleteBatch | internal/controller/batchmigration_controller.go:545-588 | Completed without failures, retried or failed otherwise, with one write. |
| MonorepoTheorems.AlwaysInv | internal/controller/monorepomigration_controller.go:322-818 | On every run with annotations, retries, lost writes and process restarts, the stored status satisfies the phase and counter invariant. |
| MonorepoTheorems.PhaseBoundsRepos | internal/controller/monorepomigration_controller.go:565-818 | In Rewriting no repo is Pending or Cloning, in Merging none is Rewriting either, in Pushing and Completed every repo is Completed or Failed, Completed has a Completed repo, and without continueOnError all are Completed. |
| MonorepoTheorems.CountersAreExact | internal/controller/monorepomigration_controller.go:843-921 | Whenever no repo is Pending, the stored CompletedRepos, FailedRepos and SkippedRepos equal a recount of the repo statuses, retries included. |
| MonorepoTheorems.CollectedRepos | internal/controller/monorepomigration_controller.go:510-561 | After a fully collected batch each repo has exactly its own result applied, and the counters are a recount. |
| MonorepoTheorems.ArrivalOrderIsIrrelevant | internal/controller/monorepomigration_controller.go:510-561 | With continueOnError, or when no clone failed, every arrival order of the same results gives the same status. |
| MonorepoTheorems.StrictBatchFailsIff | internal/controller/monorepomigration_controller.go:510-540 | Without continueOnError the migration becomes Failed if and only if some clone of the batch failed, whatever the order. |
| MonorepoTheorems.RepoErrorCounted | internal/controller/monorepomigration_controller.go:843-871 | A repo error outside cloning keeps the counters equal to the recount though only one of them is incremented. |
| MonorepoTheorems.RetryKeeps | internal/controller/monorepomigration_controller.go:240-267 | Resetting failed repos without touching the counters keeps the invariant, because the repos are Pending again. |
| MonorepoLiveness.StepProgresses | internal/controller/monorepomigration_controller.go:347-818 | Every undisturbed reconcile before a terminal phase lowers the number of reconciles left. |
| MonorepoLiveness.Terminates | internal/controller/monorepomigration_controller.go:406-818 | Without annotations and lost writes, n repos with p parallel clones are in a terminal phase after ceil(n/p) + 2n + 7 reconciles. |
| MonorepoLiveness.CeilDivDrops | internal/controller/monorepomigration_controller.go:428-452 | A clone batch of min(n, p) repos uses up exactly one of the ceil(n/p) batches. |
| MonorepoAssembly.AlwaysAssembled | internal/controller/monorepomigration_controller.go:616-739 | On every run without retry, lost writes included, while merging and pushing the monorepo on disk, if there is one, holds every repo whose status is Completed, merges follow the stored order, and a Completed migration has pushed its Completed repos. |
| MonorepoAssembly.PushHoldsCompleted | internal/controller/monorepomigration_controller.go:742-818 | A push that completes the migration sends every repo whose status is Completed, though earlier status writes may have been lost. |
| MonorepoAssembly.PushedExactly | internal/controller/monorepomigration_controller.go:622-642 | When no write is lost, a Completed migration has pushed the Completed repos and no other. |
| MonorepoAssembly.MergesFollowPriority | internal/controller/monorepomigration_controller.go:280-298 | The stored repos are a permutation of the spec sorted by priority, and the next repo to merge has no smaller priority than any repo merged before it. |
| MonorepoOutcomes.MergeDecides | internal/controller/monorepomigration_controller.go:616-739 | With a monorepo on disk, the next repo becomes Completed and its name is in the monorepo if and only if the merge succeeds; a failed merge makes it Failed with the error of the merge, and the migration too without continueOnError. |
| MonorepoOutcomes.RewriteDecides | internal/controller/monorepomigration_controller.go:565-613 | The next repo goes on to be merged if and only if its rewrite succeeds, and is Failed otherwise. |
| MonorepoOutcomes.PushDecides | internal/controller/monorepomigration_controller.go:742-818 | The migration becomes Completed if and only if a repo is Completed, there is a token and a monorepo, and the push succeeds; then what is pushed is the monorepo. Otherwise it is Failed and nothing is pushed. |
| MonorepoOutcomes.CloningDecides | internal/controller/monorepomigration_controller.go:406-452 | With repos to clone the migration fails without a token; an earlier workspace is removed as long as every repo is Pending, and kept afterwards. |
| MonorepoOutcomes.ClonesAtOnce | internal/controller/monorepomigration_controller.go:428-462 | A reconcile starts a clone of every repo that needs one, or of as many as the spec allows: three by default, ten at most. |
| MonorepoOutcomes.StatusIsEarned | internal/controller/monorepomigration_controller.go:510-739 | On every run, retries and lost writes included, a repo is stored as Completed only if its clone, rewrite and merge each succeeded, and as Failed only if one of them failed, with its error, a merge also for want of the monorepo that held the repos merged before. |
| MonorepoOutcomes.EndIsEarned | internal/controller/monorepomigration_controller.go:742-893 | On every run, Completed is stored only because of a successful push, and Failed only because of a failure reported in a step. |
| MonorepoSuccess.SuccessCompletes | internal/controller/monorepomigration_controller.go:347-818 | If nothing disturbs a migration of at least one repo and no operation fails, it ends Completed with every repo Completed, and what is pushed holds exactly the names of the spec. |
| MonorepoSuccess.PercentageIsExact | internal/controller/monorepomigration_controller.go:895-921 | From Rewriting on, the stored percentage is the share of repos that are done, rounded down, and 100 once Completed. |
| MonorepoTheorems.ToCloneIsAll | internal/controller/monorepomigration_controller.go:428-452 | The repos picked for cloning are exactly those that need it, in their stored order. |
| Common.FirstFrom | internal/controller/monorepomigration_controller.go:823-830 | The element found satisfies the test and none before it does. |
| MonorepoController.SortByPriority | internal/controller/monorepomigration_controller.go:278-284 | The result is a permutation of the repos in order of priority. |
| MonorepoController.MonoRepoMigration.UpdateProgressSummary | internal/controller/monorepomigration_controller.go:895-921 | The counters become a recount of the repos. |
| MonorepoController.MonoRepoMigration.FindNextRepo | internal/controller/monorepomigration_controller.go:823-830 | The index is that of the first repo in the phase, or the number of repos. |
| MonorepoController.MonoRepoMigration.HandleRepoError | internal/controller/monorepomigration_controller.go:843-871 | The repo fails with one counter incremented; without continueOnError the migration fails. |
| MonorepoController.MonoRepoMigration.RetryMigration | internal/controller/monorepomigration_controller.go:240-267 | Failed repos become Pending, Completed ones stay, the workspace goes, and the phase is Pending. |
| MonorepoController.MonoRepoMigration.InitializeStatus | internal/controller/monorepomigration_controller.go:270-319 | One Pending status per repo in priority order, and zero counters. |
| MonorepoController.MonoRepoMigration.CollectResults | internal/controller/monorepomigration_controller.go:510-561 | Draining the channel has the effect of the machine's collection, stopping at the first failure without continueOnError. |
| MonorepoController.MonoRepoMigration.ProcessCloning | internal/controller/monorepomigration_controller.go:406-562 | Status and disk after the method are those of the machine's clone step. |
| MonorepoController.MonoRepoMigration.ProcessRewriting | internal/controller/monorepomigration_controller.go:565-613 | Status and disk after the method are those of the machine's rewrite step. |
| MonorepoController.MonoRepoMigration.ProcessMerging | internal/controller/monorepomigration_controller.go:616-739 | Status and disk after the method are those of the machine's merge step, including the initialisation of the monorepo. |
| MonorepoController.MonoRepoMigration.ProcessPushing | internal/controller/monorepomigration_controller.go:742-818 | Status and disk after the method are those of the machine's push step. |
| MonorepoController.MonoRepoMigration.Reconcile | internal/controller/monorepomigration_controller.go:157-237 | Annotations come before the phase, and the whole effect on status and disk is the machine's. |
| MonorepoController.MonoRepoMigrationReconciler.ReconcileOnce | internal/controller/monorepomigration_controller.go:157-169 | One reconcile on a copy of the stored status, with a write that may be lost, is one step of the machine on stored status and disk. |
| AdoToGitTheorems.AlwaysCounted | internal/controller/adotogitmigration_controller.go:1217-1266 | Over any interleaving of running steps and restarts, duplicate ids and names included, Completed and Failed equal the numbers of Completed and Failed entries and are never negative. |
| AdoToGitTheorems.RestartCounted | internal/controller/adotogitmigration_controller.go:544-589 | A restart keeps the counters equal to the entry counts, whatever order the removed ids come in. |
| AdoToGitTheorems.ProcessCounted | internal/controller/adotogitmigration_controller.go:1150-1266 | Processing a resource that is not settled adds one to exactly the counter of its outcome. |
| AdoToGitTheorems.CompletionMeansSettled | internal/controller/adotogitmigration_controller.go:1097-1134 | completeMigration is reached only when the first entry of every resource's source name is settled, and all are Completed if no restart has happened. |
| AdoToGitTheorems.OnlyCompletionCompletes | internal/controller/adotogitmigration_controller.go:1304-1376 | A running step stores Completed or Syncing only through completeMigration. |
| AdoToGitTheorems.PutKeepsSettled | internal/controller/adotogitmigration_controller.go:1137-1178 | Settling one resource keeps every other settled name settled. |
| AdoToGitRestart.RestartRevises | internal/controller/adotogitmigration_controller.go:451-656 | In terms of the machine's edits, which AdoToGitRevision.RestartLeaves gives field by field: for any statuses, only the first entry with an id is edited: it is skipped, reset or untouched according to the new spec and the last entry with that id; and one Pending entry is appended per new id. |
| AdoToGitRestart.RestartCovers | internal/controller/adotogitmigration_controller.go:451-656 | For any statuses, after a restart every resource of the spec has an entry with its source, target and type; all entries outside the spec are Skipped if and only if the repeated ones were; ids are distinct if and only if they were. |
| AdoToGitRestart.RestartWithinTotal | internal/controller/adotogitmigration_controller.go:591-616 | After a restart Total is the size of the new spec, and Completed + Failed is within it if every settled entry was the first with its id. |
| AdoToGitRestart.NoChangesIffSameFields | internal/controller/adotogitmigration_controller.go:472-542 | For any statuses, the exit without changes is taken if and only if the id-to-(source, target, type) maps of entries and spec are equal. |
| AdoToGitRestart.SkipsExactly | internal/controller/adotogitmigration_controller.go:544-562 | Skipping touches exactly the first entry of each removed id. |
| AdoToGitRestart.ResetsExactly | internal/controller/adotogitmigration_controller.go:564-589 | Resetting touches exactly the first entry of each modified resource. |
| AdoToGitRestart.PutKeepsDistinctIff | internal/controller/adotogitmigration_controller.go:1137-1168 | The running step, which finds an entry by name and gives it the resource's id, keeps ids distinct if and only if no other entry has that id. |
| AdoToGitRestart.NewIdIsDuplicated | internal/controller/adotogitmigration_controller.go:1137-1168 | A run in which the only resource gets another id completes with two entries of that id, one of them Pending. |
| AdoToGitRevision.RestartLeaves | internal/controller/adotogitmigration_controller.go:544-589 | After a restart, the first entry of each id is Skipped if the spec does not have the id, unchanged if the last entry of that id agrees with the spec, and otherwise Pending with progress 0 and the fields of the spec; every other entry is unchanged. |
| AdoToGitRevision.SkippedInSpecWasSkipped | internal/controller/adotogitmigration_controller.go:544-589 | An entry whose id is in the spec is Skipped after a restart only if it was Skipped before and agrees with the spec, or repeats an earlier id. |
| AdoToGitRevision.RestartAdds | internal/controller/adotogitmigration_controller.go:595-606 | Behind the old entries comes one Pending entry with progress 0 for each resource whose id no entry had, in the order of the spec, and no other. |
| AdoToGitRevision.RestartCounts | internal/controller/adotogitmigration_controller.go:591-656 | The new total is that of the spec, the Skipped counter grows by the number of ids that have gone, and the percentage is exact. |
| AdoToGitOutcomes.OutcomeDecides | internal/controller/adotogitmigration_controller.go:1097-1178 | A running reconcile with a token announces the first resource that is not over and stores how its migration ended, in its entry and in one counter; a failure makes the migration Failed, and the success of the last resource Completed, or Syncing if that is wanted. |
| AdoToGitOutcomes.EntriesAreReported | internal/controller/adotogitmigration_controller.go:1217-1266 | On every run, restarts included, an entry is Completed or Failed only because a step migrated the resource that it names and that succeeded, or failed with the error that the entry holds. |
| AdoToGitOutcomes.PhasesAreEarned | internal/controller/adotogitmigration_controller.go:697-717 | On every run, Failed is stored only because validation, the token or a resource failed, Syncing and Completed only because nothing was left to do with continuous sync wanted or not, or because sync was left. |
| AdoToGitOutcomes.RequestsHold | internal/controller/adotogitmigration_controller.go:387-447 | In every run, a request to pause holds until a request to cancel, and a request to cancel until the spec changes or a pause is asked for; nothing else of the status changes in between. |
| AdoToGitOutcomes.ProgressIsExact | internal/controller/adotogitmigration_controller.go:1269-1276 | On every run, the percentage is exact until completion and 100 from then on, and nothing is being processed in a migration that has failed or completed. |
| AdoToGitOutcomes.SuccessCompletes | internal/controller/adotogitmigration_controller.go:1097-1134 | After a passed validation, as many reconciles as resources in which nothing fails end the migration: every entry is Completed, every resource has one, and the phase is Completed or, with continuous sync, Syncing. |
| AdoToGitController.AdoToGitMigration.CheckResourceStatus | internal/controller/adotogitmigration_controller.go:1137-1147 | The index is that of the first entry with the name, and the flag says that this entry is settled. |
| AdoToGitController.AdoToGitMigration.ProcessResource | internal/controller/adotogitmigration_controller.go:1150-1178 | The work is announced in one write, then the entry found or appended takes the outcome and one counter grows. |
| AdoToGitController.AdoToGitMigration.UpdateAfterProcessing | internal/controller/adotogitmigration_controller.go:1217-1276 | The outcome goes into the one entry and one counter, and the percentage follows. |
| AdoToGitController.AdoToGitMigration.ProcessRunning | internal/controller/adotogitmigration_controller.go:1097-1134 | The statuses that one reconcile tries to store are those of the machine, cut short only by a failed write. |
| AdoToGitController.AdoToGitMigration.Diff | internal/controller/adotogitmigration_controller.go:455-518 | The three lists are the new, modified and removed resources. |
| AdoToGitController.AdoToGitMigration.RestartForSpecChange | internal/controller/adotogitmigration_controller.go:451-656 | The in-place edits leave the machine's restarted status, for some order of the removed ids, and store it once. |
| PipelineTheorems.ShapeAndCounters | internal/controller/pipelinetoworkflow_controller.go:158-428 | On every run, restarts and lost writes included, the statuses have the shape (Completed or Failed)* Converting? Analyzing* Pending*, the counters count them, at most one is Converting, and there is one workflow per Completed pipeline. |
| PipelineTheorems.StepKeeps | internal/controller/pipelinetoworkflow_controller.go:95-132 | Any one reconcile or spec change keeps the shape and the counters. |
| PipelineTheorems.ConvertOneKeeps | internal/controller/pipelinetoworkflow_controller.go:307-402 | Moving the first active pipeline by one stage keeps shape, counters and the number of pipelines. |
| PipelineLiveness.Timetable | internal/controller/pipelinetoworkflow_controller.go:134-510 | After k undisturbed reconciles of n pipelines the conversion has failed, or is exactly k steps along a schedule of 3n + 4. |
| PipelineLiveness.Terminates | internal/controller/pipelinetoworkflow_controller.go:134-510 | An undisturbed conversion of n >= 1 pipelines is terminal after 3n + 4 reconciles and not Completed before. |
| PipelineLiveness.DoneIffIdle | internal/controller/pipelinetoworkflow_controller.go:411-418 | Completed + Failed equals the number of pipelines if and only if none is pending or active. |
| PipelineRestart.AddedGetsStatusIff | internal/controller/pipelinetoworkflow_controller.go:741-766 | After a restart, a pipeline added by hand ever gets a status, in any run of reconciles, if and only if the conversion has no statuses at all. |
| PipelineRestart.RunKeepsIds | internal/controller/pipelinetoworkflow_controller.go:163-206 | Once there are statuses, no run of reconciles adds, drops, renames or reorders one. |
| PipelineRestart.RestartStallsUnlessTotalsAgree | internal/controller/pipelinetoworkflow_controller.go:411-418 | The restarted conversion gets to validation if and only if it has no statuses or the new total lies between the pipelines done or being converted and the statuses: otherwise no run of reconciles gets there, and if so every run that is stored and finds its token does, within a stated number of reconciles. |
| PipelineRestart.AddedPipelineIsForgotten | internal/controller/pipelinetoworkflow_controller.go:685-766 | After a smooth conversion of one pipeline and a spec change that adds a second, no smooth reconciles ever give the second a status or end the conversion. |
| PipelineRestart.FailedEarlyResumes | internal/controller/pipelinetoworkflow_controller.go:685-766 | A conversion that failed before it had statuses takes up all pipelines of the corrected spec. |
| PipelineOutcomes.ConversionDecides | internal/controller/pipelinetoworkflow_controller.go:307-418 | The first active pipeline, if Converting, becomes Completed with one workflow appended if and only if its conversion succeeds, and Failed without a workflow otherwise; the percentage is exact, and validation is next when all are over. |
| PipelineOutcomes.WorkflowsAreOfCompleted | internal/controller/pipelinetoworkflow_controller.go:374-394 | On every run, restarts and lost writes included, the generated workflows are those of the Completed pipelines, one each and in their order. |
| PipelineOutcomes.OutcomesAreReported | internal/controller/pipelinetoworkflow_controller.go:345-356 | On every run, a pipeline is Completed only because a step converted it, and Failed only because a step failed to. |
| PipelineOutcomes.EndsAreEarned | internal/controller/pipelinetoworkflow_controller.go:430-510 | On every run, a conversion is Completed only because its validation passed, and Failed only because of its configuration, the discovery, a missing token or its validation, and never because of a pipeline. |
| PipelineOutcomes.ValidationFindsAll | internal/controller/pipelinetoworkflow_controller.go:307-418 | When an undisturbed conversion of n pipelines has got to validation, n conversions that failed leave n failures and no workflow, and n that succeeded leave a workflow of each pipeline of the spec, in order. |
| PipelineOutcomes.SoundCompletes | internal/controller/pipelinetoworkflow_controller.go:134-510 | With configuration, discovery, token and validation in order, an undisturbed conversion is Completed after 3n + 4 reconciles, whether its pipelines were converted or not. |
| PipelineOutcomes.ProgressIsExact | internal/controller/pipelinetoworkflow_controller.go:405-409 | While no spec change reopens the conversion, the percentage is that of the Completed pipelines, rounded down, and 100 once the conversion is Completed. |
| PipelineController.PipelineToWorkflow.ProcessAnalyzing | internal/controller/pipelinetoworkflow_controller.go:158-268 | Entries are made on the first call and one pipeline is analyzed on each later one; what is stored is the machine's analysis step. |
| PipelineController.PipelineToWorkflow.ConvertFirst | internal/controller/pipelinetoworkflow_controller.go:307-402 | The loop moves the first active pipeline by one stage and stops, and reports whether it did. |
| PipelineController.PipelineToWorkflow.ProcessConverting | internal/controller/pipelinetoworkflow_controller.go:270-428 | What is stored is the machine's conversion step, and nothing is stored when nothing but the percentage was computed. |
| PipelineController.PipelineToWorkflow.ProcessValidating | internal/controller/pipelinetoworkflow_controller.go:430-510 | A valid result completes the conversion, an invalid one or an error fails it. |
| PipelineController.PipelineToWorkflow.RestartForSpecChange | internal/controller/pipelinetoworkflow_controller.go:685-766 | Auto-discovery starts afresh, a spec without new ids changes nothing, and otherwise only phase and total change. |
| PipelineController.PipelineToWorkflow.Reconcile | internal/controller/pipelinetoworkflow_controller.go:43-132 | The status asked to be stored is that of a restart for a changed spec in a terminal phase, and of the phase's step otherwise. |
| EventStream.RoundTrip | internal/api/sse_handlers.go:177-196 | Parsing what the server prints by the event-stream rules of sections 9.2.5 and 9.2.6 of the WHATWG HTML Living Standard dispatches exactly the events printed, in order, for any sequence of plain events. |
| EventStream.SurvivesIffPlain | internal/api/sse_handlers.go:185-186 | One event survives printing and parsing if and only if its type is not empty, no field holds a line break, and its id holds no NUL. |
| EventStream.CutStream | internal/api/sse_handlers.go:177-196 | Cutting any stream anywhere leaves a prefix of the events that the whole stream dispatches. |
| EventStream.CutConnection | internal/api/sse_handlers.go:177-196 | A client whose connection is cut has been given the first of the events sent, each whole. |
| EventStream.BrokenDataShrinks | internal/api/sse_handlers.go:185-186 | Data that holds a line feed comes out of the parser strictly shorter than it went in. |
| EventStream.ResponseWriter.SendEvent | internal/api/sse_handlers.go:177-196 | The bytes written are those of the printed event, cut where the connection ends, and none when marshalling fails. |
| EventStream.ResponseWriter.HandleEvents | internal/api/sse_handlers.go:124-173 | With the error of the first event ignored and the request cancelled at any point, whatever room the connection has, the client has parsed a prefix of the events, and all events reported sent if the first went out. |
| SseHub.NeverPanics | internal/api/sse_handlers.go:57-82 | For a client that leaves at most once and then for good, no send on a closed channel, no second close, and never more than 10 events pending, even if ids are shared. |
| SseHub.SubsequenceOfBroadcasts | internal/api/sse_handlers.go:72-79 | A client is queued a subsequence of the broadcasts since its registration. |
| SseHub.ServedIffLastTouch | internal/api/sse_handlers.go:60-70 | A client is served if and only if the last registration or departure under its id was its own registration. |
| SseHub.CompleteIffNeverFull | internal/api/sse_handlers.go:72-79 | A client left alone under its id is queued every broadcast since its registration if and only if its channel is never full at one. |
| SseHub.SharedIdSilences | internal/api/sse_handlers.go:64-70 | When two clients share an id, the departure of the first silences the second for good while its channel stays open. |
| SseHub.ClosedIffLeft | internal/api/sse_handlers.go:64-70 | A channel is closed if and only if its client has left while its id was taken, by whomever. |
| SseHub.DepartureIsFinal | internal/api/sse_handlers.go:64-70 | The departure of a served client closes its channel, ends its service, and nothing is queued for it unless it registers again. |
| SseHub.OnlyTenAreQueued | internal/api/sse_handlers.go:72-79 | A client that does not receive is queued the first ten events after its registration, and no more. |
| SseHub.ReceivesInOrder | internal/api/sse_handlers.go:124-173 | A client that takes m times gets the first m of what waits, or all of it, in the order queued. |
| SseHub.SseHub.RegisterClient | internal/api/sse_handlers.go:60-62 | The last registration of an id replaces any earlier one. |
| SseHub.SseHub.UnregisterClient | internal/api/sse_handlers.go:64-70 | The id decides whether anything happens; the client that leaves is the one closed. |
| SseHub.SseHub.Handle | internal/api/sse_handlers.go:57-82 | One turn of the loop does to the map and to every client what their own steps say, and closes or sends on no closed channel. |
| SseHub.SseHub.BroadcastEvent | internal/api/sse_handlers.go:72-79 | In any iteration order, exactly the clients in the map with room take the event. |
| SseHub.SseHub.Run | internal/api/sse_handlers.go:57-82 | The event loop over any arrivals never meets a closed channel and leaves each client where its run does. |
| WebSocketHub.PanicsIffClosedReturns | internal/server/websocket.go:57-97 | The loop sends on or closes a closed channel if and only if a client is registered whose channel it has closed. |
| WebSocketHub.OnceIsSafe | internal/server/websocket.go:57-97 | A client that is registered once never causes such a panic. |
| WebSocketHub.RegisteredIsOpen | internal/server/websocket.go:57-97 | A registered client has an open channel, and no channel holds more than its capacity. |
| WebSocketHub.WelcomeThenBroadcasts | internal/server/websocket.go:60-95 | A client is queued the welcome and then a contiguous prefix of the broadcasts after its registration, all of them while it stays registered. |
| WebSocketHub.RegisteredIffKeepsUp | internal/server/websocket.go:57-97 | A client registered once is registered if and only if it has not left and its channel was never full at the welcome or at a broadcast since; its channel is closed if and only if it is registered no more. |
| WebSocketHub.DepartureIsFinal | internal/server/websocket.go:79-84 | After a departure the client is not registered, its channel is closed, and nothing is ever queued for it. |
| WebSocketHub.ReceivesInOrder | internal/server/websocket.go:86-94 | A client that takes m times gets the first m of what waits, or all of it, in the order queued. |
| WebSocketHub.WebSocketHub.RegisterClient | internal/server/websocket.go:60-77 | The client is registered and welcomed, or closed and forgotten if it has no room. |
| WebSocketHub.WebSocketHub.UnregisterClient | internal/server/websocket.go:79-84 | A registered client is removed and closed; another is left alone. |
| WebSocketHub.WebSocketHub.Handle | internal/server/websocket.go:57-97 | One turn of the loop does to every client what its own step says, and closes or sends on no closed channel. |
| WebSocketHub.WebSocketHub.BroadcastMessage | internal/server/websocket.go:86-94 | In any iteration order, each registered client takes the message or is closed and forgotten. |
| WebSocketHub.WebSocketHub.Run | internal/server/websocket.go:57-97 | The event loop over any arrivals of clients registered once never meets a closed channel and leaves each client where its run does. |
| CacheMachine.SizeIsBoundedUnlessStuck | internal/cache/migration_cache.go:103-117 | As long as no new id is stored while the search for a victim can end with the empty id, the cache never holds more than max(1, maxEntries) entries. |
| CacheMachine.SizeIsBounded | internal/cache/migration_cache.go:103-117 | In particular on every run in which no entry is stored under the empty id. |
| CacheMachine.EvictsExactlyOne | internal/cache/migration_cache.go:238-273 | Unless the empty id misleads the search, eviction removes exactly one entry: the one completed first if any is completed, and otherwise the one started first. |
| CacheMachine.EvictsRightIff | internal/cache/migration_cache.go:238-273 | Every outcome of eviction is the removal of that entry if and only if the empty id cannot mislead the search. |
| CacheMachine.EmptyIdCostsARunningEntry | internal/cache/migration_cache.go:238-273 | With a completed entry under the empty id and a running one that started before its completion, eviction removes the running one. |
| CacheMachine.FullStoreGrowsIff | internal/cache/migration_cache.go:103-117 | Storing a new id in a full cache that is not empty may make it larger if and only if the search for a victim can end with the empty id. |
| CacheMachine.EmptyIdOverflows | internal/cache/migration_cache.go:103-117 | Two stores, the first under the empty id, leave two entries in a cache of at most one. |
| CacheMachine.RunningEntriesStay | internal/cache/migration_cache.go:103-135 | Unless the empty id misleads the search, a running entry disappears only by Delete, or by a Set of a new id on a full cache that holds no completed entry. |
| CacheMachine.CompletedEntriesAreRetained | internal/cache/migration_cache.go:208-235 | A completed entry that nobody deletes or overwrites stays until its retention has passed, while the cache has room. |
| CacheMachine.WhyAnEntryGoes | internal/cache/migration_cache.go:208-273 | Unless the empty id misleads the search, an entry goes only by Delete, by expiry, or as the right victim in a full cache. |
| CacheMachine.CleanupRemovesTheExpired | internal/cache/migration_cache.go:208-235 | In every run, a cleanup removes exactly the completed entries for which now is later than completion plus retention, and changes no other. |
| CacheMachine.RecordsAreExplained | internal/cache/migration_cache.go:103-176 | In every run, what is found under an id is what was stored last, with the completion time and phase of the last mark since, and cleaned up if and only if it was stored so or marked so since. |
| MigrationCache.MigrationCache.Set | internal/cache/migration_cache.go:103-117 | The entry is stored under its id, after an eviction if the cache is full and the id is new. |
| MigrationCache.MigrationCache.EvictOldest | internal/cache/migration_cache.go:238-273 | What the two loops remove, in any iteration order, is a victim that the rules allow, the empty id included. |
| MigrationCache.MigrationCache.FindOldestCompleted | internal/cache/migration_cache.go:243-250 | The entry found has the least completion time, and nothing is found only if none is completed. |
| MigrationCache.MigrationCache.FindOldestStarted | internal/cache/migration_cache.go:259-264 | The entry found has the least start time, if that is below a time left over from the first loop. |
| MigrationCache.MigrationCache.Cleanup | internal/cache/migration_cache.go:208-235 | Exactly the completed entries past their retention are removed. |
| MigrationCache.MigrationCache.MarkCompleted | internal/cache/migration_cache.go:150-163 | Only the completion time and phase of the entry with the id change. |
| MigrationCache.MigrationCache.MarkCleanedUp | internal/cache/migration_cache.go:166-176 | Only the clean-up flag of the entry with the id changes. |
| MigrationCache.MigrationCache.Delete | internal/cache/migration_cache.go:129-135 | Exactly the entry with the id is removed. |
| MigrationCache.MigrationCache.GetPendingCleanup | internal/cache/migration_cache.go:179-190 | The answer has exactly the completed entries that are not cleaned up, each once. |
| MigrationCache.MigrationCache.Stats | internal/cache/migration_cache.go:276-304 | Running and completed add up to the number of entries, and pendingCleanup is the length of GetPendingCleanup's answer. |
| Naming.FixedIffClean | internal/controller/naming.go:139-166 | A name is left as it is if and only if it has only a-z, 0-9, dot and hyphen, no two hyphens in a row and none at either end; so normalising is idempotent. |
| Naming.NormalizedIsClean | internal/controller/naming.go:139-166 | Every result of normalisation is such a name. |
| Naming.LettersSurvive | internal/controller/naming.go:139-166 | Normalisation loses and reorders no letter, digit or dot of the lower-cased name. |
| Naming.ReplacedSqueezes | internal/controller/naming.go:158-160 | One pass of replacing two hyphens by one changes nothing about what the runs of hyphens come down to. |
| Naming.Replaced | internal/controller/naming.go:158-160 | A pass over a name that holds two hyphens in a row makes it shorter, so the loop ends. |
| Naming.GeneratedIsCleanIff | internal/controller/naming.go:32-113 | A generated name is normalised already if and only if no prefix is added, or prefix and name both normalise to something. |
| Naming.PrefixOnceIff | internal/controller/naming.go:86-113 | Prefixing twice is prefixing once if and only if there is no prefix or it is a single word; this always holds for product repositories. |
| Naming.WordlessIsAddedAgain | internal/controller/naming.go:86-113 | A prefix that is not one word is added to every name, however often it is there already. |
| Naming.TwoWordsAreAddedTwice | internal/controller/naming.go:86-113 | With the business unit "data platform", prefixing any name twice differs from prefixing it once. |
| Naming.GeneratedNameIsStableIff | internal/controller/naming.go:32-113 | Where a name is generated from a source name that normalises to something, generating again from that name gives the same name if and only if there is no prefix, or it is one word, or it has come down to nothing. |
| Naming.OnlyWordsAreFound | internal/controller/naming.go:119-132 | Only a non-empty word without separators is ever found in a name. |
| Naming.PrefixIsFound | internal/controller/naming.go:119-132 | A one-word prefix is found in every name that begins with it and a hyphen. |
| NamingReference.NormalizedIsOnePass | internal/controller/naming.go:139-166 | The passes over a name leave exactly what one reading of it puts out: each letter in lower case, each digit and dot, and one hyphen for each gap of spaces, underscores and hyphens between them. |
| NamingReference.CaseIsIrrelevant | internal/controller/naming.go:139-166 | Names that differ in the case of ASCII letters only have the same normal form. |
| NamingReference.WordsAreRuns | internal/controller/naming.go:119-132 | A word is found if and only if some maximal run of the name without a separator reads as that word, in upper or lower case. |
| NamingReference.NameIsChosen | internal/controller/naming.go:32-113 | There is a name if and only if the source or its first repository resource has one; it is the custom name when there is one and generating is not asked for, and else the source name, behind "product" or the business unit unless it has that word. |
| Naming.NormalizeRepositoryName | internal/controller/naming.go:139-166 | The loops end, compute the normal form, and that form is clean. |
| Naming.ContainsWord | internal/controller/naming.go:119-132 | The answer is that some field of the name equals the word up to case. |
| Naming.GenerateNameWithPrefix | internal/controller/naming.go:86-113 | The result is the name under the prefix rules. |
| Naming.GenerateGitHubRepositoryName | internal/controller/naming.go:32-82 | An error exactly when no source name is given, a custom name normalised, and the prefixed name otherwise. |

## Left out

- Git, GitHub, Azure DevOps, secrets, tokens, metrics, Kubernetes events, logging and WebSocket messages sent by the
  reconcilers: outcomes are inputs, notifications are dropped.
- HTTP handlers, CORS, middleware, swagger, the WebSocket read and write pumps and the connection itself: transport.
- Finalizers, deletion, the observed generation and requeue delays: one-branch facts; a spec change is a step of its own.
- Statistics, CurrentStep texts (except the one that the pipeline conversion reads), start and last-reconcile times outside
  the batch, branch and tag counts: they are written and never read by the machines.
- Truncation of stored times to seconds, and rounding in the floating-point product of the retry delay: delays are exact
  reals before the conversion to a Duration. A value out of range converts to the least Duration, as on amd64; Go leaves
  it open.
- Liveness of a batch whose worker has died: other workers return before they look at the lease.
- Pause and resume: no shown step leads from a Paused phase back to work. Annotations are steps of the monorepo and
  AdoToGit machines for the safety theorems, and excluded from the bounds on the number of reconciles.
- The workspace after a monorepo retry: it is removed while Completed statuses are kept, so the theorems about what is
  pushed are for runs without retry.
- Monorepo repositories are identified by their names; workspaces of colliding names are not modelled. Creating the
  monorepo in a directory that exists may keep or lose its contents: both are allowed.
- The sort by priority is not stable in the source; the machine allows every sorted permutation, and SortByPriority is one
  way to get one.
- Parallel clones are modelled by the multiset of their results in any order of arrival, not by goroutines and locks.
- BatchController.BatchMigrationReconciler.Reconcile: other workers do not write between the steps of this method, because
  their interference is the subject of BatchProtocol.SerialEquivalent; the method may start from any stale version.
- The entries in memory of one AdoToGit reconcile after a failed write are dropped with the copy; the next reconcile reads
  the stored status.
- AdoToGit spec edits while a run is active (Total is not refreshed), validation details, sync details. The Skipped
  counter is stated for each restart and not against the entries, because a later restart counts an entry again.
- AdoToGitRestart.RestartCovers: the ids in the new spec are distinct, as the restart itself assumes by keying everything
  by id; nothing is assumed of the statuses.
- MonorepoController.MonoRepoMigration.Reconcile: begins after the finalizer is in place and no deletion is under way.
- MonorepoController.MonoRepoMigrationReconciler.ReconcileOnce: the same.
- PipelineController.PipelineToWorkflow.Reconcile: the same; the cited lines contain the finalizer and deletion.
- Reads of a cache entry through the reference that Get returns, and edits of it outside the cache's own methods; locking.
- WebSocketHub.WebSocketHub.BroadcastMessage: an unbuffered channel with a waiting receiver takes a message; here a channel
  takes one exactly when it holds fewer than its capacity.
- SseHub.SseHub.Run: the receive from a closed channel is not modelled; the handler has gone by then.
- Naming.ContainsWord: case folding is modelled for characters that fold to ASCII, which is all that a normalised name
  can match.
- The JSON encoding of event data: the data is any text, and the theorems say which texts survive.
- parallel_processor.go, retry_handler.go, status.go, migrationjob_controller.go, adodiscovery_controller.go and
  workitemmigration_controller_fixed.go: not called by the modelled reconcilers, or stubs.
