# A verified model of durable ingestion

This project models, in Dafny, how SCS keeps a repository's knowledge graph up to date: a durable job queue, a
catalog of per-repository stores, and an indexing pipeline that a crash may stop between any two of its durable
steps. It proves what the three keep in common, and then the algorithmic cores around them: the mutation gate,
the tree-cursor walks, graph traversal, embedding alignment, retrieval metrics and rank fusion. The modules follow
the program:

- **Queue** (`Jobs`, `JobStores`): rows of a table, one method per transaction. Each keeps the queue valid, says what
  it does for its caller and what it leaves alone, and is tied to a function of the old table. `JobSafety`,
  `Requests`, `Checkpoint`, `ClaimOrder` and `Drain` prove properties of whole runs of those functions; `MergeLaws` is
  the algebra of coalescing, and `LeaseRecovery` what a whole recovery pass makes of every row.
- **Stores and daemon** (`Registry`, `RegistryStores`, `Daemon`, `DaemonSafety`, `DaemonSteps`, `FailingRuns`):
  enrolment and deletion as sequences of durable steps, one state machine of queue, catalog, stores, runner and hooks
  with a single invariant, what each of its steps achieves, and the runs that lead to where its guarantees end.
- **Pipeline** (`Pipeline`, `FileViews`, `CrashReplay`, `Convergence`, `FinishedRuns`, `ManifestRuns`, `ReplacedRuns`,
  `ForceJob`, `FilesJobs`, `PipelineRuns`, `Identity`, `Batching`): a run is a plan of effects, each one transaction of
  the native store.
  Effects act path by path, so crash replay is proved per path and lifted to the store. `PipelineRuns` is the
  imperative run; its ghost log shows that what it does is always a prefix of a plan (for a files job, part of a run
  and then part of the deletions), so the theorems about plans are theorems about it.
- **Gate** (`Gate`): critical sections as functions, the class proved against them, and all interleavings of any
  number of threads.
- **Algorithms** (`Cursor`, `TreeWalks`, `Traverse`, `BoundedDistance`, `Alignment`, `Ranking`, `Fusion`).

`dafny verify dfyconfig.toml` checks everything.

What is abstract: a content hash stands for its content, parsing and embedding are deterministic functions, the
digest behind a store id is injective, time is an integer, and each operation of the native store is atomic, with
node deletion cascading to vectors.

## Where a natural property fails

Each of these is kept as the code has it, with the exact condition under which the property holds:

- A force request that waits behind a running force job inherits that job's older manifest when the job fails or is
  reclaimed, although the comment at src/scs/indexing/jobs.py:204-208 says an explicit force request supersedes the
  snapshot of any previous attempt (`Checkpoint.FollowUpKeepsItsManifestExactly`, and a complete run in
  `Checkpoint.ReindexCanInheritFinishedManifest`).
- Coalescing keeps every path of both requests but not their order: a file deleted by one waiting request and changed
  again by the next is indexed and then deleted (`FilesJobs.CoalescingKeepsFilesExactly`,
  `FilesJobs.RevivedFileIsLost`). A force job that absorbs a deletion does not carry it out: the
  path ends up gone exactly when nothing was stored for it before and the manifest does not bring it back
  (`ForceJob.ForceJobSkipsDeletions`).
- Merging commutes except for two force requests with different manifests (`MergeLaws.MergeCommutesExactly`).
- A late failure report about a closed row can requeue it beside an active deletion
  (`JobSafety.FailKeepsSafeExactly`). The runner makes such a report when publishing the final state of a completed
  job raises (src/scs/indexing/runner.py:108-130); it does harm only if another owner has claimed a deletion of the
  repository in between (`FailingRuns.LateFailureBreaksTheQueue`).
- Repairing embeddings of a file whose recorded hash is current does not survive a crash between node deletion and
  insertion (`Convergence.ConvergesExactly`), in a files job either, unless the job deletes the file anyway
  (`FilesJobs.JobConvergesExactly`).
- The next complete run over other sources need not make up for a run that stopped, as when an edit is undone after a
  crash (`Convergence.UndoneEditLosesNodes`). It does exactly when, at every path the stopped run touches, it removes
  the path, indexes it by force, or indexes it against a recorded hash that differed before the stopped run began;
  the remaining cases are those in which no node is at stake (`ReplacedRuns.OverridesExactly`).
- A force job that stops between deletion and insertion, and is then cancelled or out of attempts, leaves unchanged
  files with a current record and no nodes, and the next ordinary run skips them
  (`ReplacedRuns.AbandonedForceJobLosesNodes`); the condition is the same, for runs with a manifest too.
- An incremental run keeps the old nodes of a file that no longer parses
  (`Convergence.IncrementalEqualsScratchExactly`).
- Requests enqueued without the repository lock (the `ingest_files` route at src/scs/services/routes.py:811 and the
  watcher at src/scs/indexing/watcher.py:277) may carry a binding that has just been replaced
  (`DaemonSafety.EnqueueKeepsBoundExactly`, and a complete run in `FailingRuns.StaleBindingIsAccepted`).
- A path with a colon can give two symbols one identity (`Identity.PathsCollideExactly`).
- Depth-limited traversal is not bounded-distance search (`Traverse.LimitedDepthMissesNodes`). A node may be met first
  on a long way and then not be expanded, and which way the stack takes first depends on the order in which the edges
  happen to be stored. So the condition is stated over every order: no node nearer than the limit is ever met at the
  limit exactly when no chordless route of full length ends at a node that a shorter route reaches
  (`BoundedDistance.EveryOrderExpandsExactly`). Under it the result is the set of nodes within the limit
  (`BoundedDistance.BallWithoutDetours`); without it some order misses every node behind the end of such a route
  (`BoundedDistance.MissedBehindDetour`). A node that can also be entered elsewhere may still be found, so for a single
  stored order whether the result is the whole ball is decided only by the search.

## Model

| member | source | states |
|---|---|---|
| `MergeLaws.MergeIsUpperBound` | src/scs/indexing/jobs.py:188-231 | The merged work covers both the waiting and the new request: mode at least as strong, all paths kept. |
| `MergeLaws.MergeIsLeast` | src/scs/indexing/jobs.py:188-231 | Any work covering both requests covers the merge, so coalescing asks for nothing extra. |
| `MergeLaws.MergeKeepsNormal` | src/scs/indexing/jobs.py:188-231 | A payload with no paths outside `files` mode stays so under merging. |
| `MergeLaws.MergeAssociative` | src/scs/indexing/jobs.py:188-231 | The order in which three requests are folded together does not matter. |
| `MergeLaws.MergeExactly` | src/scs/indexing/jobs.py:188-231 | Mode by mode: a deletion wins over everything, then force, full and file work, and a cleanup over nothing; paths are united for file work alone, and a manifest is kept for force work alone, the incoming one's when both are force requests. |
| `MergeLaws.MergeCommutesExactly` | src/scs/indexing/jobs.py:204-214 | Two requests merge to the same work in either order if and only if they are not two force requests with different manifests. |
| `MergeLaws.CoversTransitive` | src/scs/indexing/jobs.py:178-231 | A chain of merges still covers its first request. |
| `JobSafety.EnqueueKeepsSafe` | src/scs/indexing/jobs.py:331-428 | Enqueueing keeps one waiting row per repository, one leased row per store, attempts left on active rows, and deletion alone in its repository's queue. |
| `JobSafety.ClaimKeepsSafe` | src/scs/indexing/jobs.py:430-472 | Claiming the first row in line never gives a store a second running or cancelling row. |
| `JobSafety.FailKeepsSafeExactly` | src/scs/indexing/jobs.py:642-723 | A failure report on any row keeps the queue safe if and only if the row is still active, has spent its attempts, meets a waiting follow-up, or meets no active deletion. |
| `FailingRuns.LateFailureBreaksTheQueue` | src/scs/indexing/runner.py:108-130 | A run of the queue in which a completed job, reported as failed because publishing its final state raised, waits again beside a deletion that another owner has claimed. |
| `JobSafety.ReclaimKeepsSafe` | src/scs/indexing/jobs.py:899-974 | Taking a leased row back (merged into a follow-up, requeued, or failed) keeps the queue safe. |
| `JobSafety.CancelAllKeepsSafe` | src/scs/indexing/jobs.py:760-799 | Cancelling everything but deletions keeps the queue safe. |
| `JobSafety.StepKeepsSafe` | src/scs/indexing/jobs.py:331-978 | Every transaction of the queue keeps it safe. |
| `JobSafety.EveryRunIsSafe` | src/scs/indexing/jobs.py:1081-1128 | In every run from the empty queue the table is safe, so the partial unique index is never violated. |
| `JobSafety.LeasedStoresDiffer` | src/scs/indexing/jobs.py:430-472 | In a safe queue two rows in progress have different stores and different repositories. |
| `JobSafety.EnqueueJoinsRunningExactly` | src/scs/indexing/jobs.py:331-428 | An accepted request lands on an executing row if and only if it is a deletion and that row is the deletion already executing. |
| `JobSafety.EnqueueRefusedExactly` | src/scs/indexing/jobs.py:345-375 | Ordinary work is refused if and only if a deletion of the repository is active. |
| `JobStores.JobStore.Enqueue` | src/scs/indexing/jobs.py:331-428 | Refused exactly when ordinary work meets an active deletion, and then nothing changes. Otherwise the named row is active, belongs to the repository and covers the request: either a new row, queued with the request alone, unspent attempts and the time of the request, only when nothing of the repository waited; or the waiting row, queued with both works merged and otherwise as it was; or the active deletion, unchanged. Every other row is untouched; a safe queue stays safe for a properly bound request. |
| `JobStores.JobStore.ClaimNext` | src/scs/indexing/jobs.py:430-472 | Returns nothing only when every waiting row meets a row in progress on its store; otherwise one that meets none is leased to the owner until the given time, no other such row comes before it (other work before cleanups, then the older row), and nothing else changes. |
| `JobStores.JobStore.Heartbeat` | src/scs/indexing/jobs.py:474-486 | The lease of that row moves to the owner and the given time, and only while it is leased; the renewed lease cannot be taken back by a recovery of the same owner before it expires; nothing else moves, and a safe queue stays safe. |
| `JobStores.JobStore.InstallForceFullSnapshot` | src/scs/indexing/jobs.py:508-554 | Accepted exactly for a well-formed manifest and a force row; the first one is frozen with each record and nothing else, under the row's own store and generation, a later one changes nothing, an error leaves the table alone; no other row and no other field moves; a safe queue stays safe. |
| `JobStores.JobStore.AcknowledgeForceFullSnapshotFiles` | src/scs/indexing/jobs.py:556-605 | Refused exactly when the row is missing or, for a non-empty set, not leased, without manifest, or without one of the paths; otherwise the files still to index shrink by exactly the given paths while the frozen path, hash, language and size set stays; a safe queue stays safe. |
| `JobStores.AcknowledgeShrinksTargets` | src/scs/indexing/jobs.py:556-605 | An acknowledgement removes exactly the given paths from the files still to index, and freezes nothing anew. |
| `JobStores.JobStore.Complete` | src/scs/indexing/jobs.py:607-640 | The row keeps its job and attempts, ends completed unless it was cancelling, and no other row moves; completing a leased row leaves no lease on its store; a safe queue stays safe. |
| `JobStores.JobStore.FailOrRetry` | src/scs/indexing/jobs.py:642-723 | The row is released with one attempt more; the returned row covers its work and waits, unless the attempts are spent, which is exactly when the row fails; a waiting follow-up takes over by merging, and no other row moves; a safe queue stays safe exactly when JobSafety.MayFail holds. |
| `JobStores.FailureSurvives` | src/scs/indexing/jobs.py:642-723 | What a failure report leaves: the watched row (the waiting follow-up if there is one, otherwise the row itself) covers the failed work and waits, or the attempts are spent; nothing else moves. |
| `JobStores.JobStore.RequestCancel` | src/scs/indexing/jobs.py:725-758 | A waiting row is cancelled, a running one is cancelling and keeps its lease for the runner to end, any other row is unchanged, and so is every other row; the row can no longer be claimed; a safe queue stays safe. |
| `JobStores.JobStore.RequestCancelAll` | src/scs/indexing/jobs.py:760-799 | Every waiting row but a deletion is cancelled and holds no lease, every running one but a deletion is cancelling with its lease, and everything else is unchanged, jobs and attempts included; a safe queue stays safe. |
| `JobStores.JobStore.MarkCancelled` | src/scs/indexing/jobs.py:828-843 | The row keeps its job and attempts and is cancelled, no other row moves, and its store is free of leases if it held one; a safe queue stays safe. |
| `JobStores.JobStore.ReclaimStaleRunning` | src/scs/indexing/jobs.py:845-978 | Takes back exactly the stale rows, each once, oldest first. In a safe queue, afterwards: a stale row with a waiting follow-up is cancelled and the follow-up holds both works merged; of the others, one taken from another owner is queued with the attempts it had, and one of the same owner is charged one attempt and queued, or failed exactly when they are spent; every other row is unchanged; the queue stays safe. |
| `JobStores.ReclaimAllKeepsSafe` | src/scs/indexing/jobs.py:845-978 | A whole recovery pass over distinct leased rows keeps the queue safe. |
| `LeaseRecovery.StaleExactly` | src/scs/indexing/jobs.py:845-884 | A lease is abandoned if and only if its row is running or cancelling and it is past its deadline, or, in the pass at the start of a named owner, held by somebody else. |
| `LeaseRecovery.PassRecovers` | src/scs/indexing/jobs.py:899-978 | The outcome of a pass for every row of a safe table, stale or not, as ReclaimStaleRunning promises it. |
| `ClaimOrder.BornByRequest` | src/scs/indexing/jobs.py:405-424 | In every run each row was inserted by a request of its repository and is dated by it, and no transaction changes that date. |
| `ClaimOrder.RowsInOrder` | src/scs/indexing/jobs.py:405-424 | When requests arrive in the order of their times, rows stand in the order of theirs. |
| `ClaimOrder.NoneIsPassedOver` | src/scs/indexing/jobs.py:447-455 | In such a run a claimed row is at least as old as every other claimable row of its kind. |
| `ClaimOrder.CleanupsComeLast` | src/scs/indexing/jobs.py:447-455 | A cleanup is claimed only when every claimable row is one. |
| `Jobs.FreezeFilesFaithful` | src/scs/indexing/jobs.py:115-151 | A manifest is accepted if and only if every record is valid and no path repeats, and then holds each record and nothing else. |
| `Jobs.EscapesExactly` | src/scs/indexing/jobs.py:126-135 | A manifest path is refused as escaping its root if and only if the parent directory is one of its components. |
| `Requests.NoRequestIsEverLost` | src/scs/indexing/jobs.py:331-978 | In every run from the empty queue each accepted request has a carrier row that covers it; a carrier that executed was claimed after the request (deletions may join), and a cancelled one was cancelled after it. |
| `Requests.StepLosesNothing` | src/scs/indexing/jobs.py:642-723 | Each transaction keeps every request accounted for, including when a failing or reclaimed row hands its work over. |
| `Requests.EveryAcceptedRequestIsRecorded` | src/scs/indexing/jobs.py:331-428 | The bookkeeping of the previous two is complete: one entry per accepted request, never altered. |
| `Checkpoint.CheckpointStep` | src/scs/indexing/jobs.py:188-231 | Every transaction keeps the frozen path, hash, language and size set, unless a force or deletion request lands on the manifest's own row or a hand-over brings it together with one. |
| `Checkpoint.CheckpointSurvivesRun` | src/scs/indexing/jobs.py:508-605 | Over a whole run of such steps the manifest's frozen set never changes and acknowledgements only grow, through every hand-over. |
| `Checkpoint.TargetsShrink` | src/scs/indexing/runner.py:225-268 | The files still to index are always the frozen set less the acknowledged ones, and only shrink. |
| `Checkpoint.FollowUpKeepsItsManifestExactly` | src/scs/indexing/jobs.py:204-214 | A waiting force request keeps its own manifest at a hand-over if and only if the finishing row was not a force job or froze the same one. |
| `Checkpoint.FinishedForceJobIsReachable` | src/scs/indexing/jobs.py:508-605 | Enqueue, claim, install and acknowledge lead to a force row with nothing left to do. |
| `Checkpoint.ReindexCanInheritFinishedManifest` | src/scs/indexing/jobs.py:204-214 | A concrete run in which a reindex requested during that job is left with an empty set of targets once the job fails. |
| `Drain.StepLightens` | src/scs/indexing/jobs.py:430-472 | Every claim, completion, failure, cancellation and expired-lease recovery strictly lowers a measure of attempts left, refined by status. |
| `Drain.DrainIsBounded` | src/scs/indexing/jobs.py:607-723 | Without new requests and foreign recovery every run is finite, no longer than that measure of its first state. |
| `Drain.DrainNeverStuck` | src/scs/indexing/jobs.py:430-472 | While a row is active some such transaction is possible. |
| `Registry.CrashKeepsDeletion` | src/scs/storage/registry.py:127-192 | A crash after any durable step of a deletion leaves a state from which the deletion still runs and still means the same. |
| `Registry.RetriedDeletionForgets` | src/scs/storage/registry.py:127-192 | After any number of crashes a completed retry leaves no catalog record of the binding, no live store and no tombstone, and everything else as it was. |
| `Registry.SupersededTouchesNothing` | src/scs/storage/registry.py:164-166 | When the catalog holds another binding, no step at any crash point touches the catalog or a live store. |
| `Registry.LiveStoreSurvivesExactly` | src/scs/storage/registry.py:168-190 | A completed deletion leaves the live store if and only if the store was rebuilt beside this deletion's own tombstone. |
| `DaemonSafety.NoStoreIsRebuiltBesideItsTombstone` | src/scs/storage/registry.py:168-190 | That input is never reached: in no run does an active deletion find its store live beside its own tombstone. |
| `Registry.PlanEffect` | src/scs/storage/registry.py:127-192 | The net effect of a complete deletion in every case, superseded or not. |
| `RegistryStores.ProjectStoreRegistry.EnsureGraph` | src/scs/storage/registry.py:64-90 | Enrols an unregistered or unactivated root, reopens an activated one, and returns a binding that opens; on failure the disk is unchanged. |
| `RegistryStores.ProjectStoreRegistry.OpenForBinding` | src/scs/storage/registry.py:92-108 | Opens exactly the binding the catalog holds, store and generation, when its database is there, and caches its handle; otherwise says which of the two is missing. |
| `RegistryStores.ProjectStoreRegistry.UpdateState` | src/scs/storage/catalog.py:216-263 | Succeeds exactly under the expected generation; then only the state of that root moves, every other row and the generation stay, and every binding opens as before. |
| `RegistryStores.ProjectStoreRegistry.RemoveRetiredStores` | src/scs/storage/registry.py:239-254 | Removes every tombstone of the store and no other. |
| `RegistryStores.ProjectStoreRegistry.DeleteRepository` | src/scs/storage/registry.py:127-192 | Fails, changing nothing, exactly when the store is to be retired and the database to open first is gone. Otherwise, in the source's order of steps, removes every retired store of the repository; and unless the catalog holds another binding, also the catalog row and the live store (which stays only beside this deletion's own tombstone). The graph handle is dropped and the report says whether anything existed. |
| `RegistryStores.EnrolEffect` | src/scs/storage/catalog.py:123-214 | Register, create, create database, activate: the disk after all four. |
| `DaemonSafety.EnrolPrefixKeepsCoherent` | src/scs/storage/registry.py:64-90 | An enrolment cut off after any of its steps keeps queue, catalog and stores in agreement. |
| `DaemonSafety.DropStepKeepsCoherent` | src/scs/storage/registry.py:127-192 | Each durable deletion step of the job in flight keeps them in agreement. |
| `DaemonSafety.QueueStepKeepsCoherent` | src/scs/indexing/jobs.py:430-978 | So does every queue transaction. |
| `DaemonSafety.HooksSucceed` | src/scs/main.py:247-274 | The start and completion hooks of an index job in flight always find their generation. |
| `DaemonSafety.StepKeepsCoherent` | src/scs/main.py:518-563 | Every step of enrol, index, drop, claim, start, run, publish, finish, fail, crash and recover keeps the agreement, a cancel request between the status check and the completion hook included. |
| `DaemonSafety.RunStaysCoherent` | src/scs/main.py:716-750 | So does every run. |
| `DaemonSafety.ClaimedIndexJobIsNeverStale` | src/scs/storage/registry.py:92-108 | In every run a claimed index job is never rejected for a stale binding. |
| `DaemonSafety.DeletionInFlightForgets` | src/scs/storage/registry.py:127-192 | In every run a deletion in flight that is carried to its end forgets its repository, whatever crashed before it. |
| `DaemonSafety.ReadinessIsTruthful` | src/scs/indexing/runner.py:97-137 | In every run a store marked semantic_ready has no index job between its hooks, and the last one to start on that generation returned without a degraded reason; the record of how it ended is made by the run and not by the hook. |
| `DaemonSafety.PublishTruthfulExactly` | src/scs/indexing/runner.py:108-123 | The completion hook is truthful for a returned job if and only if the job returned without a degraded reason, which is what raising on one ensures. |
| `DaemonSafety.StartMarksStale` | src/scs/main.py:260-274 | The start hook of an index job leaves its store stale. |
| `DaemonSafety.PublishMarksReady` | src/scs/main.py:247-258 | The completion hook of an index job leaves its store ready. |
| `DaemonSafety.PublishedStaysReady` | src/scs/main.py:247-274 | And it stays ready in every run that goes on from there, until another index job of the repository starts or a deletion of it is carried out. |
| `DaemonSafety.GoodLifeEndsReady` | src/scs/indexing/runner.py:97-137 | An index job that nothing disturbs, from the claim to the end, ends completed with its store ready and the runner free. |
| `DaemonSteps.IndexIsQueued` | src/scs/main.py:716-750 | An index request leaves a store that opens, under the given generation if it had none, and queues full or force work bound to exactly that; beside a deletion, or when the store cannot be opened, it changes nothing. |
| `DaemonSteps.SubmitIsQueued` | src/scs/main.py:778-790 | Submitted work is queued for the store and generation the catalog holds, and nothing else changes; beside a deletion it is refused. |
| `DaemonSteps.DropIsQueued` | src/scs/main.py:526-563 | A deletion is queued if and only if a catalog row, a live store or a retired store of the repository is left and none is active, bound to what the catalog holds. |
| `DaemonSteps.ClaimIsHeld` | src/scs/indexing/runner.py:100-107 | Claiming leases the row, and the runner holds it; nothing else changes. |
| `DaemonSteps.RunIsRecorded` | src/scs/indexing/runner.py:111-114 | A run reports how it went and touches neither queue nor stores. |
| `DaemonSteps.RunDropForgets` | src/scs/storage/registry.py:127-192 | A deletion carried to its end leaves no row, store or retired store of its repository, one cut short reports that, and the rows of other repositories stay. |
| `DaemonSteps.FinishCloses` | src/scs/indexing/runner.py:108-123 | The job in flight is closed, completed unless it was to be cancelled, and nothing else moves. |
| `DaemonSteps.StopCloses` | src/scs/indexing/runner.py:114-125 | A job in flight that is to be cancelled is closed as cancelled, and nothing else moves. |
| `DaemonSteps.FailureIsRetried` | src/scs/indexing/runner.py:124-137 | A reported failure is retried, by the row or by its waiting follow-up, until the attempts are spent, and the runner is free. |
| `DaemonSteps.CrashForgets` | src/scs/indexing/runner.py:80-89 | A crash forgets the job in flight and loses nothing durable; every leased row may then be taken back. |
| `DaemonSteps.RecoverTakesBack` | src/scs/indexing/jobs.py:899-978 | Recovery of a leased row does to the queue what a recovery pass over it promises, and touches nothing else. |
| `DaemonSafety.EnqueueKeepsBoundExactly` | src/scs/main.py:778-790 | An accepted index request that carries a binding read earlier keeps agreement if and only if it is coalesced into a waiting row or its binding is still the catalog's; so an enqueue outside the repository lock can break it. |
| `FailingRuns.StaleBindingIsAccepted` | src/scs/services/routes.py:811-848 | A run of the daemon (index, drop, deletion carried out) after which a files request with the binding read before it is accepted and bound to a store that is gone. |
| `Batching.PlanBatches` | src/scs/indexing/pipeline.py:713-734 | Batches of whole files, in order, within 32 files and 512 entities (a larger file stands alone), none of which could take the next file. |
| `Batching.BoundedBatches` | src/scs/providers/openai_compatible.py:115-146 | Fails if and only if some input is over the character limit; otherwise order-preserving batches within both limits, none of which could take the next input. |
| `Batching.BoundedBatchesRespectLimit` | src/scs/providers/openai_compatible.py:115-146 | No produced request exceeds the character limit, even a single-input one. |
| `Batching.PackedIsMinimal` | src/scs/indexing/pipeline.py:713-734 | No order-preserving partition within the limits uses fewer batches. |
| `Batching.PackedIsUnique` | src/scs/indexing/pipeline.py:713-734 | Limits and packing determine the batches. |
| `Pipeline.NodeIdsDistinct` | src/scs/indexing/pipeline.py:156-169 | Two entities of one file never share a node id, repeated symbols included. |
| `Pipeline.OneNodePerEntity` | src/scs/indexing/pipeline.py:576-627 | A file's plan has exactly one node per entity. |
| `Pipeline.NodeIdExactly` | src/scs/indexing/pipeline.py:156-169 | A node is identified by its file, its kind and name, and the number of symbols of the same kind and name before it in the file. |
| `FinishedRuns.OutdatedIsIndexed` | src/scs/indexing/pipeline.py:358-461 | After a finished run the store holds of an outdated file that parses exactly its entities, each embedded by its own text, at the hash of its content; outdated means forced, unrecorded, recorded at another hash, or missing a vector. |
| `FinishedRuns.OthersAreKept` | src/scs/indexing/pipeline.py:358-461 | A file that is up to date or does not parse keeps its nodes, vectors and record, and so does an undiscovered one when the run does not sweep. |
| `FinishedRuns.UndiscoveredIsSwept` | src/scs/indexing/pipeline.py:374-381 | A finished run that sweeps leaves no node, vector or record of a file that was not discovered. |
| `Identity.IdentityTextInjective` | src/scs/indexing/pipeline.py:156-169 | In one absolute repository, for colon-free paths and kinds, two symbols have the same text if and only if they are the same symbol and ordinal. |
| `Identity.PathsCollideExactly` | src/scs/indexing/pipeline.py:165-168 | Two files can share a symbol text if and only if one path, followed by a node kind, runs into the other. |
| `Identity.ColonPathsCollide` | src/scs/indexing/pipeline.py:165-168 | A concrete pair of files with a colon in a path whose symbols collide. |
| `Convergence.StopAnywhere` | src/scs/indexing/pipeline.py:348-461 | Wherever a run stops, every path can still reach the content it was to get; a complete run has reached it. |
| `Convergence.CrashReplayConverges` | src/scs/indexing/pipeline.py:348-461 | After any number of stopped runs a complete rerun on the same sources leaves exactly the nodes, vectors and records of an undisturbed run. |
| `Convergence.ConvergesExactly` | src/scs/indexing/pipeline.py:366-373 | A run converges under crashes if and only if every file it indexes has a differing record, is forced, or has nothing to insert. |
| `Convergence.CrashedRepairIsForgotten` | src/scs/indexing/pipeline.py:398-413 | An embedding repair of an up-to-date file that stops between deletion and insertion is never repeated. |
| `Convergence.UndoneEditLosesNodes` | src/scs/indexing/pipeline.py:398-413 | When an edit is undone after such a stop, the file looks up to date with no nodes. |
| `ReplacedRuns.OverridesExactly` | src/scs/indexing/pipeline.py:348-461 | For any two runs, with or without a manifest: a complete second run after a first one that stopped anywhere leaves the nodes, vectors and records it would have left without it, for every batching and stop, if and only if at each path the first one touches the second removes it, indexes it by force or against a differing recorded hash, or nothing is at stake there. |
| `ReplacedRuns.AbandonedForceJobLosesNodes` | src/scs/indexing/runner.py:192-208 | A force job that stops between deletion and insertion and is not resumed: every complete ordinary run after it leaves the unchanged file recorded as current and without nodes. |
| `ReplacedRuns.AbandonedForceJobIsNotOverridden` | src/scs/indexing/pipeline.py:358-373 | So an ordinary run does not override a force job at a file with a current record and something to insert. |
| `ManifestRuns.StripKeepsEffects` | src/scs/indexing/pipeline.py:447-460 | Marking a manifest touches nothing else: apart from the marks, effects do what they do without the marking ones. |
| `ManifestRuns.StrippedIsPlan` | src/scs/indexing/pipeline.py:348-461 | A plan of a run, less its marks, is a plan of the manifest-free run. |
| `ManifestRuns.PlanIsStripped` | src/scs/indexing/pipeline.py:348-461 | And every plan of the manifest-free run is one of those. |
| `ReplacedRuns.StoppedRunStages` | src/scs/indexing/pipeline.py:398-461 | What a stopped manifest-free run can leave of a path: as found, emptied, nodes without vectors, all but the record, or done. |
| `ReplacedRuns.UndoneEditIsNotOverridden` | src/scs/indexing/pipeline.py:366-373 | The undone edit is an instance: a run over the original file does not override a stopped run over the edit. |
| `ReplacedRuns.SameRunCondition` | src/scs/indexing/pipeline.py:366-373 | For the same run twice that condition is the one of crash replay. |
| `Convergence.RunIsIdempotent` | src/scs/indexing/pipeline.py:348-461 | A second complete run on unchanged sources changes nothing. |
| `Convergence.IncrementalEqualsScratchExactly` | src/scs/indexing/pipeline.py:348-461 | A complete run with the sweep equals indexing into an empty store if and only if the store held nothing for files that do not parse. |
| `Convergence.RecordOutlivesNodes` | src/scs/indexing/pipeline.py:506-531 | Of a deleted path the hash record goes last, at every stopping point. |
| `ForceJob.RemainingExactly` | src/scs/indexing/runner.py:225-268 | An attempt works on exactly the frozen files not yet acknowledged. |
| `ForceJob.AttemptStopsSafely` | src/scs/indexing/pipeline.py:447-460 | A path is marked in the manifest only once the graph holds its frozen content and hash, wherever an attempt stops, and marks are never lost. |
| `ForceJob.ForceJobConverges` | src/scs/indexing/pipeline.py:267-302 | However earlier attempts ended, the completing one leaves every frozen file that parses indexed at its frozen hash, and every other path as the job found it. |
| `ForceJob.EntriesFromForceSnapshot` | src/scs/indexing/pipeline.py:463-504 | Succeeds if and only if every path is relative, without a parent segment and distinct, and every source is still there and unchanged; then it returns those entries. |
| `ForceJob.ForceJobSkipsDeletions` | src/scs/indexing/pipeline.py:283-302 | A force job that absorbed a deletion request covers it in the queue; the deleted path ends up gone if and only if the store held nothing for it at the start and the manifest does not bring it back. |
| `FilesJobs.FilesJobEffect` | src/scs/indexing/pipeline.py:304-329 | A complete files job deletes its deleted paths, indexes its other changed files, and touches no other path. |
| `FilesJobs.FilesJobConverges` | src/scs/indexing/pipeline.py:304-329 | However often a files job is ended by a crash, a cancellation or an outage (after which its deletions may still follow), the execution that completes leaves what a single undisturbed one leaves, if every path is deleted, differs from its record, or has nothing to insert. |
| `FilesJobs.JobConvergesExactly` | src/scs/indexing/pipeline.py:304-329 | And if that fails at some path, some execution that is cut short breaks convergence: the condition is exact. |
| `FilesJobs.FilesJobStops` | src/scs/indexing/pipeline.py:304-329 | Wherever an execution ends, such a path keeps the outcome it was to have and does not become a trap for the retry. |
| `FilesJobs.CoalescingKeepsFilesExactly` | src/scs/indexing/jobs.py:223-231 | Two files jobs merged into one leave the same index as the two in sequence if and only if no path deleted by the first is indexed again by the second. |
| `FilesJobs.RevivedFileIsLost` | src/scs/indexing/jobs.py:223-231 | For such a path the merged job covers both requests and leaves the existing file without nodes or record. |
| `PipelineRuns.ChunksCover` | src/scs/indexing/pipeline.py:506-531 | The chunks of a deletion cover exactly the paths to delete. |
| `PipelineRuns.ChunkIsBounded` | src/scs/indexing/pipeline.py:510-513 | No deletion transaction takes more than 32 files. |
| `PipelineRuns.IngestionPipeline.DeletePaths` | src/scs/indexing/pipeline.py:506-531 | Deletes chunk by chunk, records after nodes, stopping exactly at the first chunk before which a cancellation is noticed. |
| `PipelineRuns.IngestionPipeline.SelectChanged` | src/scs/indexing/pipeline.py:358-373 | Keeps exactly the files that are forced, differ from their record, or miss an embedding. |
| `PipelineRuns.IngestionPipeline.BuildStructuralPlan` | src/scs/indexing/pipeline.py:570-627 | One pass with per-file occurrence counters plans the nodes of every file, numbers every entity, and collects exactly the nodes to replace. |
| `PipelineRuns.IngestionPipeline.EmbedBatch` | src/scs/indexing/pipeline.py:767-812 | Stores the vector of every entity of the batch, or nothing, which happens exactly when the provider is lost. |
| `PipelineRuns.IngestionPipeline.Acknowledge` | src/scs/indexing/pipeline.py:447-460 | Records the hashes of a whole batch in one transaction, and only then marks the manifest. |
| `PipelineRuns.IngestionPipeline.IndexBatches` | src/scs/indexing/pipeline.py:415-461 | Embeds and acknowledges the greedy batches in order. It stops exactly at the first batch before which a cancellation is noticed (cancelled) or which is not sound (degraded), and leaves of that one no acknowledgement; its effects are fixed by where it stops. |
| `PipelineRuns.IngestionPipeline.IngestEntries` | src/scs/indexing/pipeline.py:348-461 | The run itself: its durable effects are a prefix of a plan, and the whole plan when it finishes. It is ended by the first cancellation noticed (in the sweep, before or after parsing, before a batch) and by the first unsound batch, and by nothing else; its effects and counters are fixed by where it ends. |
| `PipelineRuns.IngestionPipeline.IngestFiles` | src/scs/indexing/pipeline.py:304-329 | A files job as carried out: an incremental run and then its deletions, also after an unsound batch but not after a cancellation, up to the first chunk before which one is noticed; a complete plan of both when it finishes. |
| `PipelineRuns.FinishesExactly` | src/scs/indexing/pipeline.py:348-461 | A run finishes if and only if no cancellation is noticed at any check it passes and every one of its batches is sound. |
| `PipelineRuns.AcknowledgedWasSound` | src/scs/indexing/pipeline.py:437-460 | Every acknowledged batch was sound, and so was every batch before it, without a cancellation noticed before any of them. |
| `PipelineRuns.CrashedRunConverges` | src/scs/indexing/pipeline.py:348-461 | Two executions of that code, the first crashed after any of its effects, leave what one undisturbed execution leaves. |
| `PipelineRuns.CrashedFilesJobConverges` | src/scs/indexing/pipeline.py:304-329 | The same for the code of a files job, whose log may be part of a run followed by part of the deletions. |
| `Gate.GraphMutationGate.BeginRead` | src/scs/graph/gating.py:36-39 | Never waits: admits the read if and only if no mutation is reserved or active, and otherwise changes nothing; flags stay valid (never reserved and active, no reader beside an active mutation). |
| `Gate.GraphMutationGate.EndRead` | src/scs/graph/gating.py:43-46 | Leaves with no mutation active, keeps a reservation, and notifies exactly when the last reader goes; flags stay valid. |
| `Gate.GraphMutationGate.BeginMutation` | src/scs/graph/gating.py:52-59 | Sleeps unchanged exactly behind another mutation; otherwise it sleeps holding the reservation while somebody reads, and runs exactly when nobody does; flags stay valid. |
| `Gate.GraphMutationGate.EndMutation` | src/scs/graph/gating.py:62-65 | Leaves no reader, no reservation and no mutation, and wakes every sleeper. |
| `Gate.StepKeepsSound` | src/scs/graph/gating.py:32-65 | Every critical section of every thread keeps flags and threads in agreement, and leaves no sleeper whose reason to sleep is gone. |
| `Gate.EveryInterleavingIsExclusive` | src/scs/graph/gating.py:32-65 | In every interleaving of any number of threads no read overlaps a mutation and no two mutations overlap. |
| `Gate.ReservationShutsOutReaders` | src/scs/graph/gating.py:36-39 | While a reservation is held no new reader appears and the count never rises. |
| `Gate.ReservationEndsInMutation` | src/scs/graph/gating.py:55-59 | A reservation is given up only by its own thread entering its mutation, with no reader left. |
| `Gate.DrainedMutationIsAdmitted` | src/scs/graph/gating.py:56-59 | Once the last reader has left, the reserving thread is awake and its next step is the mutation. |
| `Gate.SomeThreadCanStep` | src/scs/graph/gating.py:32-65 | No deadlock: while any thread is in the protocol, some thread in it can step. |
| `Gate.EveryRequestGetsThrough` | src/scs/graph/gating.py:32-65 | Without new requests every run is finite within a computed bound, and nothing can step if and only if every thread is idle. |
| `Cursor.WalkVisitsExactly` | crates/scs-parser/src/parser/mod.rs:252-270 | The walk visits a position if and only if every node above it is entered. |
| `Cursor.WalkVisitsOnce` | crates/scs-parser/src/parser/mod.rs:252-270 | No position is visited twice. |
| `Cursor.WalkOrdered` | crates/scs-parser/src/parser/mod.rs:252-270 | Positions come in pre-order. |
| `Cursor.FoldIsRecursion` | crates/scs-parser/src/parser/mod.rs:252-270 | Visiting the nodes of the walk one after the other computes what recursion over the tree computes, for any visitor. |
| `Cursor.TreeCursor.GotoFirstChild` | crates/scs-parser/src/parser/mod.rs:253-255 | Moves to the first child if and only if there is one. |
| `Cursor.TreeCursor.GotoNextSibling` | crates/scs-parser/src/parser/mod.rs:256-258 | Moves to the next sibling if and only if the node lies below the root and has one. |
| `Cursor.TreeCursor.GotoParent` | crates/scs-parser/src/parser/mod.rs:259-264 | Moves up unless at the root. |
| `Cursor.TreeCursor.Climb` | crates/scs-parser/src/parser/mod.rs:259-267 | The climbing loop skips nothing that is still to be visited, and fails only when nothing is left. |
| `Cursor.TreeCursor.Advance` | crates/scs-parser/src/parser/mod.rs:252-270 | The next position is the next one of the walk; it reports the end if and only if the walk is over. |
| `TreeWalks.CountComplexity` | crates/scs-parser/src/parser/mod.rs:132-273 | The loop ends with one plus the recursive sum of node weights. |
| `TreeWalks.ExtractCalls` | crates/scs-parser/src/parser/mod.rs:464-500 | The set of callees is the recursive one: exactly the non-empty, unblocked callee names anywhere in the tree. |
| `TreeWalks.ExtractSelectors` | crates/scs-parser/src/parser/css.rs:245-354 | The full loop over the selectors child equals the recursion, threading the names already seen. |
| `TreeWalks.ExtractCustomProperties` | crates/scs-parser/src/parser/css.rs:357-414 | Appends, in order, the `--` properties of the rule set's own declarations. |
| `TreeWalks.ParseCss` | crates/scs-parser/src/parser/css.rs:99-171 | The pruned loop equals the recursion that does not enter rule_set nodes. |
| `TreeWalks.StylesheetSelectors` | crates/scs-parser/src/parser/css.rs:99-171 | Selector entities have distinct names, and they are exactly the names selected by rule sets not inside another rule set. |
| `TreeWalks.SelectsExactly` | crates/scs-parser/src/parser/css.rs:245-354 | A rule set selects a name if and only if a class selector, marked with a dot, or an id selector, marked with a hash, has it anywhere below the first selector list. |
| `TreeWalks.StylesheetOthers` | crates/scs-parser/src/parser/css.rs:104-145 | The other entities are exactly the named imports and keyframes outside rule sets, and the `--` properties declared directly in the first block of rule sets not inside another one. |
| `TreeWalks.StylesheetInOrder` | crates/scs-parser/src/parser/css.rs:101-171 | Entities are listed in the order in which their nodes are visited. |
| `Traverse.NeighborsExactly` | crates/scs-store/src/graph.rs:480-505 | The neighbors of a node are exactly the nodes one matching edge away. |
| `Traverse.StepExactly` | crates/scs-store/src/graph.rs:488-500 | A step follows an edge of the wanted relationship, any when none is named: from source to target, from target to source, or either way. |
| `Traverse.NeighborsInOrder` | crates/scs-store/src/graph.rs:488-503 | Neighbors are listed edge by edge in the order of the edges, at most one for each. |
| `Traverse.BothIsSymmetric` | crates/scs-store/src/graph.rs:492-500 | In both directions every edge can be walked both ways. |
| `Traverse.GetNeighbors` | crates/scs-store/src/graph.rs:480-505 | Collects the far ends of the matching edges in store order. |
| `Traverse.Traverse` | crates/scs-store/src/graph.rs:507-544 | The error cases, and otherwise the result of the stack search; the loop terminates. |
| `Traverse.TraversalPaths` | crates/scs-store/src/graph.rs:507-544 | Every item has a simple path from the start along matching edges, of length its depth and within the limit; every node appears once; the start is among them. |
| `Traverse.CompleteExactly` | crates/scs-store/src/graph.rs:529-541 | The result is every reachable node if and only if no item at the depth limit has a neighbor that is missing. |
| `Traverse.DeepTraversalIsComplete` | crates/scs-store/src/graph.rs:507-544 | With a limit of at least the number of nodes less one, the result is exactly the reachable nodes. |
| `Traverse.LimitedDepthMissesNodes` | crates/scs-store/src/graph.rs:521-522 | A concrete graph and limit 3 where a node three steps away is missing. |
| `BoundedDistance.ItemsAreRooted` | crates/scs-store/src/graph.rs:521-541 | Every item comes with a chordless route whose inner nodes were all expanded. |
| `BoundedDistance.BallWithoutDetours` | crates/scs-store/src/graph.rs:507-544 | When no chordless route of full length ends at a node that a shorter route reaches, the result is exactly the nodes at most that many steps away. |
| `BoundedDistance.EveryOrderExpandsExactly` | crates/scs-store/src/graph.rs:507-544 | That condition holds if and only if, in whatever order the edges are stored, every node nearer than the limit is returned above it and so has its neighbors looked at. |
| `BoundedDistance.MissedBehindDetour` | crates/scs-store/src/graph.rs:521-541 | Otherwise some order of the edges misses every node entered only from the end of such a route, also one within the limit. |
| `BoundedDistance.DetourIsUneven` | crates/scs-store/src/graph.rs:507-544 | Graphs in which simple routes within the limit to the same node are equally long, such as trees and layered graphs, meet the condition. |
| `BoundedDistance.DetourIsLong` | crates/scs-store/src/graph.rs:507-544 | So does every graph for a limit of at most one step. |
| `Traverse.GraphContext` | crates/scs-store/src/graph.rs:546-574 | The context holds exactly the nodes found around the hits that are not hits, each once, in the order in which the traversals from the hits first find them; it fails if and only if there are hits and the hop limit is negative. |
| `Traverse.FirstTimesExactly` | crates/scs-store/src/graph.rs:556-569 | What that order lists: each id found that is not a hit, once. |
| `Traverse.FirstTimesInOrder` | crates/scs-store/src/graph.rs:556-569 | And in which order: what the traversals list up to any point stays listed first. |
| `Alignment.Pigeonhole` | src/scs/providers/openai_compatible.py:202-243 | Distinct positions drawn from a finite set fill it as soon as there are enough of them. |
| `Alignment.AcceptableIsPermutation` | src/scs/providers/openai_compatible.py:216-230 | An acceptable response has exactly one entry for every position of the batch. |
| `Alignment.ParseEmbeddings` | src/scs/providers/openai_compatible.py:202-243 | Accepts if and only if the count matches and indexes are in range, unique and of the right dimension; each vector lands at its index; the final check for gaps never fires. |
| `Alignment.ParsedIsAligned` | src/scs/providers/openai_compatible.py:202-243 | Whatever order the entries come in, the parsed vectors follow the batch. |
| `Alignment.EmbeddingProvider.Embed` | src/scs/providers/openai_compatible.py:84-113 | Succeeds if and only if every batch is served an acceptable answer, and then the vectors line up with the prefixed texts over all batches; each failure has a cause; availability records the last attempt. |
| `Alignment.PrefixedCarries` | src/scs/providers/openai_compatible.py:88-95 | Every provider input begins with the prefix, a colon and a space, the rest is exactly the text, and different texts give different inputs. |
| `Alignment.ServedExactly` | src/scs/providers/openai_compatible.py:84-113 | A request is served if and only if no input is oversized and every batch is answered acceptably. |
| `Alignment.FlattenedAt` | src/scs/indexing/pipeline.py:778-801 | Flattening files keeps an id and its text at one index. |
| `Alignment.FlattenedFrom` | src/scs/indexing/pipeline.py:778-801 | The inverse: each entry of the flattened lists is one position of one file. |
| `Alignment.EmbedSlices` | src/scs/indexing/pipeline.py:788-803 | Texts are embedded 128 at a time, in order; it succeeds if and only if there is nothing to embed, or a key is set and every slice is served, and then each vector is that of its own text. |
| `Alignment.EmbedBatch` | src/scs/indexing/pipeline.py:767-812 | Succeeds if and only if every slice can be embedded; then, through slices of 128 and provider batches, the pairs are exactly the node ids in order, each with the vector answered to the one input that is `search_document`, a colon, a space and its own text. |
| `Alignment.PairedAreStored` | src/scs/indexing/pipeline.py:804-807 | When the provider's answers model the embedding of texts, those pairs, as a map, are exactly the vectors the ingestion run adds to the store. |
| `Ranking.BestTotal` | src/scs/evaluation/search.py:187-193 | No selection of judged grades has a larger total gain than as many of the best ones. |
| `Ranking.Abel` | src/scs/evaluation/search.py:416-420 | Summation by parts for a positive decreasing discount: prefix sums that never go negative stay non-negative once discounted. |
| `Ranking.StrictAbel` | src/scs/evaluation/search.py:416-420 | The bound is met only when every earlier prefix sum is zero. |
| `Ranking.GainExactly` | src/scs/evaluation/search.py:416-420 | The gain of a grade is one less than a power of two: none for 0, one for 1, and adding grades multiplies what is one more than the gain. |
| `Ranking.DiscountedExactly` | src/scs/evaluation/search.py:416-420 | A grade gains its own gain times the discount of its own rank, whatever stands before and after it. |
| `Ranking.ObservedNeverBeatsIdeal` | src/scs/evaluation/search.py:187-193 | At every cutoff the discounted gain of grades taken at most once each is at most the ideal one. |
| `Ranking.MatchingJudgment` | src/scs/evaluation/search.py:401-413 | The first judgment, in order, that is not excluded and agrees with the result. |
| `Ranking.Match` | src/scs/evaluation/search.py:401-413 | What that means: it has the result's name, and its path if it names one, is not excluded, and no earlier one does; nothing only if none does. |
| `Ranking.PicksOnce` | src/scs/evaluation/search.py:162-185 | Over a whole result list no judgment is matched twice. |
| `Ranking.UnmatchedExactly` | src/scs/evaluation/search.py:162-185 | A result goes without a judgment if and only if all judgments with its name, and its path where they name one, were taken before it. |
| `Ranking.PicksWithin` | src/scs/evaluation/search.py:162-185 | Matching each judgment at most once uses no grade more often than the judgments offer it. |
| `Ranking.NdcgBounded` | src/scs/evaluation/search.py:187-193 | For every judgment list, result list and cutoff nDCG lies in [0, 1]. |
| `Ranking.NdcgExactly` | src/scs/evaluation/search.py:187-193 | nDCG is the portion gained of what the judged grades, sorted from best to worst in any way, gain within the cutoff. |
| `Ranking.IdealScoresOne` | src/scs/evaluation/search.py:187-193 | A response scores exactly 1 if and only if its top grades are the ideal ones at every rank, up to zeros at the end. |
| `Ranking.EvaluateCase` | src/scs/evaluation/search.py:148-209 | Rejects a cutoff below one. Otherwise recall is the share of judgments matched within the cutoff, the reciprocal rank inverts the rank of the first match and is 0 without one, nDCG is as in NdcgExactly, and each lies in [0, 1]. |
| `Ranking.ScoresBounded` | src/scs/evaluation/query.py:98-113 | With repeated identities removed, recall, reciprocal rank, nDCG and unsupported rate lie in [0, 1]. |
| `Ranking.FullRecallExactly` | src/scs/evaluation/query.py:98-101 | Recall is 1 if and only if every judged identity is among the first k distinct ones. |
| `Ranking.RankedExactly` | src/scs/evaluation/query.py:98-100 | The ranked identities are the first k of the distinct ones, in the order of their first occurrences. |
| `Ranking.RatesExactly` | src/scs/evaluation/query.py:98-113 | Recall is the share of judged identities that are ranked; the unsupported rate is the share of ranked identities without a grade. |
| `Ranking.RanksExactly` | src/scs/evaluation/query.py:101-112 | The reciprocal rank inverts the rank of the first identity with a grade, and nDCG is the portion gained of what the judged grades, sorted from best to worst in any way, gain within the cutoff. |
| `Fusion.DominantScoresHigher` | src/scs/indexing/search.py:384-394 | Over lists without repeats, a node above another in every list containing the other scores strictly higher. |
| `Fusion.ListScoreAt` | src/scs/indexing/search.py:384-394 | In a list without repeats the node at index i scores 1 / (61 + i). |
| `Fusion.AllListsExactly` | src/scs/indexing/search.py:379-394 | Each query contributes two lists, its semantic hits by id and its lexical ids, in the order of the queries. |
| `Fusion.RankCandidates` | src/scs/indexing/search.py:396-399 | Sorting lists every candidate once, strictly ordered by score and then id. |
| `Fusion.RankedIsUnique` | src/scs/indexing/search.py:396-399 | That order leaves no choice. |
| `Fusion.Fuse` | src/scs/indexing/search.py:379-408 | Each id once, scored with the reciprocal rank of every place it holds in either list, with the distance of its last semantic hit. |
| `Fusion.MergeQueryMatches` | src/scs/indexing/search.py:410-436 | Each id once, with the sum of its scores, its nearest distance and all its queries. |
| `Fusion.MergeIgnoresQueryOrder` | src/scs/indexing/search.py:410-436 | Permuting the query results changes nothing in the merged list. |
| `Fusion.SearchScores` | src/scs/indexing/search.py:379-436 | End to end, a search lists each node found by any query once, strictly by score and then by smaller id, scored with the reciprocal rank summed over every list of every query. |
| `Fusion.SearchEvidence` | src/scs/indexing/search.py:379-436 | Each listed node carries the least distance at which the last semantic hit of any query saw it, none when no query hit it semantically, and the queries that found it in either list. |
| `Fusion.DominantComesFirst` | src/scs/indexing/search.py:379-436 | A node above another in every list that contains the other comes before it in the result. |

## Left out

- SQL text, WAL, schema migration and quarantine of corrupt databases: each transaction is one atomic step.
- Row ids are positions in the table instead of fresh random ids; rows created at the same instant are claimed and reclaimed in some order.
- The `retrying` status is carried but, as in the source, never written; progress, message, reason and timestamp fields are not modelled beyond the lease deadline.
- The runner's threads, event publishing and the heartbeat task: a job in flight is a stage of one state machine, and a cancelled pipeline is a run that stopped.
- Edges: their preparation, deduplication and retention in the pipeline (a known difference between incremental and fresh indexing) are not part of the store.
- `graph_rag_query`'s vector search, discovery, ignore rules, git, file reading, settings, wire protocol, metrics and reranking.
- Per-language entity extraction, decision-node tables, callee extraction and stylesheet edges: parameters of the walks where the walks need them.
- Hashing of node identities: `Identity` stops at the text that is hashed.
- The order in which deletions are processed (sorted in the source) is arbitrary here, and parsed files keep the order of discovery.
- `cleanup_stale_files`: it deletes in the chunks of DeletePaths, and is not modelled as a run of its own.
- Watchers, and the restoration of a watcher after a failed deletion.
- PipelineRuns.IngestionPipeline.IngestEntries: does not model edges, the page limit of the file-to-node lookup, or the flush and reopening of the vector sidecar, which is treated as one transaction with the vectors; a sidecar that fails its check is an unstable batch.
- PipelineRuns.IngestionPipeline.EmbedBatch: embedding is a function of the text here; slices, provider batches and response order are in Alignment.EmbedBatch.
- RegistryStores.ProjectStoreRegistry.DeleteRepository: the native store's own deletion report, which the source merges into the result, is not part of this model.
- RegistryStores.ProjectStoreRegistry.EnsureGraph: whether a missing database can be recreated is decided by the native store, so both outcomes are allowed.
- Traverse.Traverse: works on one snapshot, while the source locks the store again for each node.
- Traverse.GetNeighbors: without the page limit, which traversal passes as the largest integer.
- TreeWalks.CountComplexity: counts in unbounded naturals, so it does not model overflow of the 32-bit counter.
- TreeWalks.ParseCss: an entity is its kind and name; positions, raw text, qualified names and the file entity are not modelled.
- Ranking.EvaluateCase: latency samples, byte counts and retrieval mode are not modelled; division and logarithm are exact.
- Fusion.SearchScores: exact reals, so ties caused by floating-point rounding are not modelled.
- Alignment.EmbeddingProvider.Embed: an embedding component is a real number; rejection of non-numeric or infinite components is the single case of a missing embedding.
- Gate.EveryRequestGetsThrough: assumes that clients leave what they enter and that a wait is not interrupted by an exception, which would leave the reservation set.
