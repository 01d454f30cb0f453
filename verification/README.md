# Novo Chat worker: a verified model

Novo Chat answers questions over a user's notebooks. A gateway exports notebook pages from Novo and streams them to a worker on
a compute host. The worker queues operations in SQLite, stages and finalizes page batches, builds vector indexes, answers queries
with a language model that another privileged process starts and stops in containers, and deletes what has expired. This project
models that worker and the algorithms on top of it, and proves what they promise.

`dafny verify dfyconfig.toml` checks the whole project.

## What is modelled

| module | what it models |
|---|---|
| `Jobs`, `JobStores` | the worker's tables as maps from rowids to rows, each SQL transaction as a function, and the `JobStore` object whose methods run the statements |
| `Fingerprints` | the key of a request, from which the request can be read back |
| `JobLaws`, `JobRuns`, `JobOutcomes` | the queue invariant; idempotency, finality, order and deduplication over whole runs; and what each transaction answers and leaves behind |
| `Executor` | the serialized runner: claim, carry out, conclude, until idle |
| `Progress` | what rebuilds and model starts persist as progress |
| `Documents`, `DocumentLaws`, `Envelopes` | staging, finalization, loading and pruning, with the cached byte counter; and the stored files as text |
| `Indexes`, `IndexLaws` | candidates, artifacts, validation and pruning, with the cached byte counter |
| `Worker`, `WorkerLaws` | all of it as one state machine with API threads, executor, maintenance, lock, crashes and restarts |
| `Rebuild`, `Service` | the rebuild, and the submission and maintenance closures, as methods over the three store objects |
| `WorkerRuns` | each closure and operation, undisturbed, as one run of the state machine |
| `Canonical`, `Partition`, `ExportSync` | the gateway's export loop, its batches and its incremental checksum, against the worker's store |
| `GpuExclusion`, `LateStarts` | the model controllers' host lock, inventory scan, start and stop; and what a start does that lands after its command timed out |
| `Diversify`, `Retrieval`, `Planner` | rank fusion, page-capped selection, and what a planner may disturb |
| `Chunking`, `Citations`, `CitationGrammar`, `Answers`, `NoInformation`, `Query`, `QueryJob` | overlapping chunks, citation syntax, acceptance of answers, the one answer that needs no citation, one whole query, and the query operation from its scope to its citations |
| `Replay` | the replay guards behind signed requests |
| `Sums`, `Reals`, `Decimals`, `Types`, `Wrappers` | sums over maps, the larger of two reals, decimal numerals, the notebook scope, options and results |

Objects of the source are classes whose methods are proved equal to functions on values; the laws are lemmas about those
functions. Interleavings are sequences of steps: a step is one transaction, one docker command, one directory moved, deleted or
deleted in part, or one phase of a rebuild.

## Assumptions

- SHA-256 is injective and random handles and nonces are new. In place of the hex digest of a request stands a text without a colon
  from which operation, scope and payload can be read back.
- Scores, progress and clock readings are reals or integers, not floats. Orderings by vector or lexical score are inputs, as are
  what the embedding backend, the generator, the planner, Novo and docker answer.
- A file is replaced atomically. Deleting a directory may stop, by an error or a crash, after any of its files. A crash loses the
  executor and the lock only. Deletions that ignore errors succeed.
- One state directory serves one environment.
- Inventoried containers are started only through the controllers. A docker start takes effect before its controller releases the
  lock, or not at all; `LateStarts` says exactly what becomes of exclusion without that second assumption.
- The header of a stored matrix and the manifest together fit in the 16 KiB the index estimate allows for them.

## Where the code and its documentation differ

- `recover_interrupted_operations` (novo_chat/jobs.py:643-644) says that what it queues again may safely be resumed. An ingest
  finalize that was interrupted after its document was written, by a crash or by an error while its batches were being deleted,
  succeeds when resumed if and only if none of its batch files had gone (`DocumentLaws.ResumedFinalizeExactly`); its document is
  there either way. The model follows the code.
- The host lock is meant to keep two models from running at once (deploy/compute-host/modelctl_server.py:218-238). A docker start
  that times out gives the lock up, and may still land. Until the lock is given up that is harmless
  (`LateStarts.HarmlessWhileLocked`); later it breaks exclusion exactly when another container was started in between and has not
  been stopped (`LateStarts.LateStartBreaksExactly`), and any controller whose containers are inventoried and
  one of which is another can make that happen (`LateStarts.LateStartCanBreak`).
- An accepted answer is meant to cite only its sources. Python from 3.11 on refuses to read a numeral of more than 4300 digits, and
  such a numeral is skipped, so it may stand in an accepted answer (`Answers.OverlongNumeralEscapes`). An accepted answer cites only
  its sources exactly when the value of each such numeral is one of them (`Answers.InRangeExactly`).
- A deletion that raises part-way leaves the cached byte counters above what is stored until the next measurement; exactly which
  calls do is stated by `DocumentLaws.CallIsExact` and `IndexLaws.CallIsExact`.
- `diversify_by_page` returns one item when asked for none. Its caller never asks for none when there are chunks.

## Model

| member | source | states |
|---|---|---|
| WorkerLaws.PointersAreAlwaysBacked | novo_chat/executor.py:211-262 | In every state of every run (submissions, claims, rebuild phases, crashes, restarts, purges, expiry, each single deletion) the joint invariant holds; in particular each active pointer names an artifact on disk that loads under exactly its notebook, revision and schema, beside the finalized document it was built from, whose pages its chunks name. |
| WorkerLaws.StepOk | novo_chat/worker.py:187-344 | Every single step of the worker keeps the joint invariant: sound tables, one running operation exactly when the executor is busy, backed pointers, a keep set that is current while directories are deleted, and candidates that are pending or backed. |
| WorkerLaws.FailedRebuildLosesNothing | novo_chat/executor.py:211-262 | A rebuild that fails or is interrupted at any point, with submissions and maintenance going on beside it, leaves the pointer table as it was and every artifact and finalized document on disk unchanged. |
| WorkerLaws.PointersStand | novo_chat/jobs.py:743-872 | Over any run a pointer, its artifact and its document stand unchanged until a rebuild of the same notebook and schema publishes or the pointer is expired while the worker is idle. |
| WorkerLaws.NoDeletionWhileActive | novo_chat/worker.py:218-244 | In every reachable state, a document or index directory can be deleted only while no operation of the environment is queued, running or being carried out. |
| WorkerLaws.DeletesOnlyWhenIdle | novo_chat/worker.py:218-244 | The same of one state that satisfies the joint invariant. |
| WorkerLaws.ActiveIndexLoads | novo_chat/executor.py:264-275 | A query that finds the pointer of a scope loads that exact index; every chunk in it is of the scope's notebook and names a page of the finalized document of that revision, which loads too. |
| WorkerLaws.PublishedIsActive | novo_chat/jobs.py:838-872 | After a publication each scope of the list is active under its own artifact and revision, when no two share a notebook and schema. |
| WorkerLaws.PublishOk | novo_chat/executor.py:250-254 | Moving all pointers in one transaction keeps them backed, because every candidate was moved and validated before. |
| WorkerLaws.CommitBacks | novo_chat/compute.py:288-297 | Moving a pending candidate always succeeds, makes its artifact loadable under its scope, and leaves the other candidates pending. |
| WorkerLaws.BuildAddsPending | novo_chat/compute.py:210-286 | A build that succeeds adds a candidate that will load under its scope with its document's checksum, and disturbs no other. |
| WorkerLaws.StorageStaysWithinQuota | novo_chat/worker.py:187-244 | In every state of every run, with crashes, half-done builds and finalizes, and deletions that stop inside a directory with or without a crash, stored bytes are within both quotas, and while the worker is up neither cached counter is below the bytes stored. |
| WorkerLaws.CutOk | novo_chat/documents.py:207-218 | A process that dies in the middle of a finalize or a build, whatever files it had deleted, leaves the joint invariant, and every artifact and document, intact. |
| WorkerLaws.InitialOk | novo_chat/worker.py:187-213 | An empty worker that has not been started satisfies the joint invariant. |
| Rebuild.RebuildRunner.Run | novo_chat/executor.py:211-262 | Succeeds exactly when every document loads, every build succeeds and nothing raises; then the pointers of exactly the operation's scopes move in one transaction to artifacts that load; otherwise no pointer moves. No candidate is left over and nothing else is lost either way. |
| Rebuild.RebuildRunner.BuildAll | novo_chat/executor.py:229-242 | Builds one pending candidate per scope, in order, under its own new id, and fails exactly when a load or a build fails, with the error of the first that does. |
| Rebuild.RebuildRunner.CommitAll | novo_chat/executor.py:243-249 | Moves every candidate to an artifact that is backed, unless recording the progress raises in between. |
| Rebuild.RebuildRunner.DiscardAll | novo_chat/executor.py:255-258 | Removes exactly the candidates of this rebuild that have not been moved. |
| Service.WorkerService.PerformStorageMaintenance | novo_chat/worker.py:218-244 | Skipped exactly while an operation is queued or running; otherwise expires pointers, and of all four trees exactly the stale directories go that no remaining pointer names, fresh ones stay, counters are measured again, and whatever a remaining pointer needs still loads. |
| Service.DocumentPrunesSweep | novo_chat/documents.py:239-282 | Of the document directories exactly the stale staging goes, and the stale documents that no pointer left by the snapshot is for. |
| Service.IndexPruneSweeps | novo_chat/compute.py:332-374 | Of the index directories exactly the stale candidates go, and the stale artifacts that no pointer left by the snapshot names. |
| Service.WorkerService.SubmitJob | novo_chat/worker.py:317-344 | Purges what has expired and then submits, as one locked action. |
| WorkerRuns.UndisturbedSubmission | novo_chat/worker.py:317-344 | A submission that nothing disturbs is one run of the machine: the purge and then the submission, as stated of the method, and the lock free again. |
| WorkerRuns.UndisturbedMaintenance | novo_chat/worker.py:218-244 | So is maintenance, directory by directory, with the tables and both stores as stated of the methods, and each store measured again exactly when something of it went. |
| WorkerRuns.UndisturbedRestart | novo_chat/worker.py:187-213 | A crash and the start after it recover what was interrupted, purge what has expired, measure both stores and free the lock. |
| WorkerRuns.UndisturbedOperation | novo_chat/executor.py:133-164 | A query or model operation is claimed, reports up to the first report that is refused, and ends as its execution says: the tables are those of one round of the serialized runner. |
| WorkerRuns.UndisturbedIngest | novo_chat/executor.py:182-196 | An ingested batch is claimed, staged in the scope of its operation, and ended. |
| WorkerRuns.UndisturbedFinalize | novo_chat/executor.py:198-209 | So is a finalize, completed or interrupted while its staging is removed. |
| WorkerRuns.TakenRebuild | novo_chat/executor.py:166-181 | Taking a queued rebuild begins the rebuild of its scopes, with nothing built. |
| WorkerRuns.UndisturbedRebuild | novo_chat/executor.py:211-262 | A rebuild whose builds succeed builds every scope, moves every candidate, publishes all pointers in one transaction and ends, with what is stated of the method that succeeds. |
| WorkerRuns.FailedBuild | novo_chat/executor.py:229-262 | One whose build of some scope fails discards what it built and fails, with candidates, artifacts and pointers as they were. |
| WorkerRuns.FailedCommit | novo_chat/executor.py:243-262 | One that raises between two moves or before it publishes discards what is still a candidate and fails; no pointer moves and nothing stored before is lost. |
| JobRuns.RunOk | novo_chat/jobs.py:136-170 | Every run of transactions keeps the queue invariant: per environment at most one running operation, at most one live operation per type and request, never more live operations than the cap, an operation for each submission and a submission for each operation; and no two rows share a key. |
| JobLaws.KeysNeverCollide | novo_chat/jobs.py:205-217 | The rewriting of a terminal operation's key can never violate the uniqueness constraint. |
| JobLaws.SplitAtMark | novo_chat/jobs.py:612-618 | A marked key determines the fingerprint and the operation id it was made of. |
| Fingerprints.FingerprintInjective | novo_chat/jobs.py:263-269 | Equal fingerprints mean the same operation, scope and payload. |
| JobLaws.ReopenChangesNothing | novo_chat/jobs.py:205-218 | Opening the store again finds no terminal key without its mark, and rewrites none a second time. |
| JobOutcomes.ReopenExactly | novo_chat/jobs.py:205-218 | Opening any table marks exactly the terminal keys without a mark, changes nothing else, and a second time nothing. |
| JobLaws.SubmitOk | novo_chat/jobs.py:246-362 | A submission keeps the queue invariant. |
| JobLaws.ClaimOk | novo_chat/jobs.py:414-489 | A claim keeps the queue invariant. |
| JobLaws.TransitionOk | novo_chat/jobs.py:579-641 | Progress, success and failure keep the queue invariant. |
| JobOutcomes.SetProgressExactly | novo_chat/jobs.py:491-641 | Progress is recorded of a running operation only and within [0, 1] only, with its time, and refused by its own error otherwise, without change. |
| JobOutcomes.SucceedExactly | novo_chat/jobs.py:491-641 | Success ends a queued or running operation with its result at full progress, with its time, and frees its key; a terminal one refuses it without change. |
| JobOutcomes.FailExactly | novo_chat/jobs.py:491-641 | Failure ends a queued or running operation where it stands, with its error and whether it may be retried, its time, and a freed key. |
| JobOutcomes.UnknownIsNotFound | novo_chat/jobs.py:491-641 | An operation that is not there is reported as not found by all three, without change. |
| JobLaws.RecoverOk | novo_chat/jobs.py:643-682 | Recovery keeps the queue invariant. |
| JobLaws.PurgeOk | novo_chat/jobs.py:684-728 | A purge keeps the queue invariant. |
| JobLaws.PurgeKeeps | novo_chat/jobs.py:684-728 | A purge takes exactly the expired operations, each together with all its handles, and changes no other row. |
| JobRuns.RetryReturnsTheHandle | novo_chat/jobs.py:272-292 | Idempotency over whole runs: while a submission is retained, its key with the same operation, scope and payload answers with the same handle and creates nothing, and with any other is refused without change. |
| JobRuns.SubmitDeduplicates | novo_chat/jobs.py:294-318 | Under a new key a submission joins the operation underway for the same operation, scope and payload, however full the queue; otherwise it is refused, without change, exactly when the queue is full; otherwise it starts one. |
| JobRuns.HandleShowsTheRequest | novo_chat/jobs.py:341-408 | The handle returned shows a live operation with exactly the submitted type, scope and payload: a new one, queued at zero with no result or error and this time in both stamps, or the one it joined, as it was; and who asked, when and for what is recorded beside it. |
| JobRuns.HandleKeepsTheRequest | novo_chat/jobs.py:321-408 | Over any run, as long as the handle is retained it shows an operation with exactly the submitted type, scope and payload. |
| JobRuns.TerminalIsFinal | novo_chat/jobs.py:579-728 | Over any run a terminal operation is shown unchanged, or not at all; and then the operation and every handle of it, of whatever caller, are gone together. |
| JobOutcomes.TerminalShownUntilPurged | novo_chat/jobs.py:684-728 | Over any run the handle of a terminal operation shows it unchanged if and only if the run holds no purge of its environment with a cutoff after its last transition; otherwise it shows nothing. |
| JobRuns.ClaimIsOldest | novo_chat/jobs.py:432-476 | What is claimed is the oldest arrival still queued: every earlier arrival of the environment has ended; it is running at zero from now and nothing else changes; nothing is claimed exactly when something runs or nothing is queued; and a claimed operation always has a submission. |
| JobOutcomes.ClaimExactly | novo_chat/jobs.py:432-476 | What a claim answers over any tables: nothing while one runs or none is queued, an error for a queued operation without submission, else the first queued; and it changes nothing unless it claims. |
| JobRuns.RecoveryKeepsPlaces | novo_chat/jobs.py:643-682 | Recovery queues every interrupted ingest and rebuild operation again at zero, fails interrupted queries and model operations as retryable under a freed key, stamps both, and changes nothing else. |
| JobRuns.InterruptedIsNext | novo_chat/jobs.py:643-682 | Wherever a run is interrupted, the resumable operation that was running is the next one claimed after recovery. |
| JobRuns.RunKeepsRunnerFirst | novo_chat/jobs.py:432-476 | Over any run the running operation of an environment stands before every queued one, although rowids are reused. |
| JobRuns.LookFinds | novo_chat/jobs.py:364-408 | In sound tables a retained handle always finds the operation its row names. |
| JobStores.JobStore.SubmitJob | novo_chat/jobs.py:246-362 | The statements of a submission compute the transaction `Jobs.Submit` that the laws are about. |
| JobStores.JobStore.ClaimNextOperation | novo_chat/jobs.py:414-489 | The statements of a claim compute `Jobs.Claim`. |
| JobStores.JobStore.TransitionOperation | novo_chat/jobs.py:579-641 | The statements of a transition compute `Jobs.Transition`, with its three refusals. |
| JobStores.JobStore.RecoverInterruptedOperations | novo_chat/jobs.py:643-682 | The two updates in sequence compute `Jobs.Recover`. |
| JobStores.JobStore.PurgeTerminalOperations | novo_chat/jobs.py:684-728 | The two deletions in sequence compute `Jobs.Purge`, and the count is the number of operations gone. |
| JobStores.JobStore.StorageRetentionSnapshot | novo_chat/jobs.py:743-805 | The idle check, expiry and keep set compute `Jobs.Retain`. |
| JobOutcomes.RetainExactly | novo_chat/jobs.py:743-805 | While nothing is queued or running exactly the pointers activated before the cutoff go, and are counted; otherwise none; and the keep set names exactly what the remaining pointers of the environment name. |
| JobStores.JobStore.Activate | novo_chat/jobs.py:838-872 | The loop of upserts computes `Jobs.ActivateIndexes`. |
| Executor.DrainTakesTheQueue | novo_chat/executor.py:127-164 | From recovered tables, with no new submissions, the runner takes the queued operations one by one in rowid order, each exactly once, ends each as its execution says whatever that does, and touches no other row; allowed enough rounds it leaves none live. |
| Executor.QueueIsInArrivalOrder | novo_chat/jobs.py:443-452 | Rowid order is arrival order, although purged rowids are reused, so the drain is first in, first out. |
| Executor.OnceTakesFirst | novo_chat/executor.py:133-164 | One round takes the first queued operation to the end its execution demands, and no other row changes. |
| Executor.PerformKeeps | novo_chat/executor.py:133-164 | Progress and publications during an operation touch only its row, and raise exactly when a progress value is out of range. |
| Executor.WorkerExecutor.RunOnce | novo_chat/executor.py:133-164 | Claims, carries out and concludes one operation as `Executor.Once` states. |
| Executor.WorkerExecutor.RunUntilIdle | novo_chat/executor.py:127-131 | The loop computes `Executor.Drain`, and counts the operations completed. |
| Progress.RebuildNeverRegresses | novo_chat/executor.py:211-253 | Whatever the backend reports, a rebuild persists a nondecreasing trace, within [0, 0.90] while building and up to 0.99 through the commits, ending at 0.99 before success, with at most 89 values below 0.90. |
| Progress.EmbeddedRises | novo_chat/compute.py:224-226 | A larger completed share reports a larger value, from 0.05 for none to 0.85 for all of the candidate's share. |
| Progress.CandidateMilestones | novo_chat/compute.py:220-277 | The callbacks of one candidate, each within its equal share of 0.90, in order. |
| Progress.ReportsKeepUp | novo_chat/executor.py:216-228 | What is persisted is never a hundredth or more behind what was reported, up to 0.90. |
| Progress.RebuildMilestones | novo_chat/executor.py:228-249 | A rebuild first persists 0.02, and its commits equal parts of the last 0.09. |
| Progress.BuildReachesCeiling | novo_chat/compute.py:272-277 | The last callback of the last candidate brings the report to exactly 0.90. |
| Progress.RebuildStaysInRange | novo_chat/jobs.py:593-594 | Persisting a rebuild's progress is therefore never refused. |
| Progress.StartNeverRegresses | novo_chat/executor.py:349-375 | A model start persists a nondecreasing trace within [0, 1] that ends at the largest valid value reported. |
| Progress.StartPersistsExactly | novo_chat/executor.py:349-375 | Of what the controller reports exactly that is persisted which is valid and no less than any valid report before it. |
| Progress.Rebuild | novo_chat/executor.py:211-253 | The nested callbacks and loops persist exactly the trace the law is about. |
| Progress.BuildCandidate | novo_chat/compute.py:220-277 | The callbacks of one build, scaled to its share of the scopes, in order. |
| Progress.StartModel | novo_chat/executor.py:349-375 | The start callback persists exactly the accepted reports. |
| IndexLaws.RunKeepsAccounts | novo_chat/compute.py:205-391 | Whole runs, prunes that stop inside a directory included: the counter never undercounts, stored bytes stay within the quota, and the counter is exact if no call raised with its accounts open. |
| IndexLaws.CallIsExact | novo_chat/compute.py:248-302 | A call on an exact counter leaves it exact if and only if it did not raise after counting a directory it then removed, or after deleting bytes it did not measure again. |
| IndexLaws.CounterStaysNatural | novo_chat/compute.py:299-302 | No call takes the counter below zero. |
| IndexLaws.BuiltIndexLoads | novo_chat/compute.py:248-311 | What is built from a finalized document and committed loads under exactly its scope, with the document's checksum and, as chunks, exactly the pieces of its pages in order, and under no other scope. |
| IndexLaws.ArtifactsAreImmutable | novo_chat/compute.py:288-374 | Through any calls an artifact that is not pruned stays exactly as it was committed. |
| IndexLaws.WrittenIsValid | novo_chat/compute.py:393-417 | What a build writes always reads back. |
| IndexLaws.CommitExactly | novo_chat/compute.py:288-297 | A commit leaves no candidate under its name: it becomes the artifact, or an artifact already there stays; it fails to move exactly when there is neither; and no other directory is touched. |
| IndexLaws.NamesAreDigests | novo_chat/compute.py:40 | Proper names are the 64 lower-case hex digits of a digest. |
| IndexLaws.LoadsExactly | novo_chat/compute.py:304-417 | An artifact loads exactly when it is there under a proper name, is of this scope and name, and its manifest, matrix and chunks agree and are of the notebook. |
| IndexLaws.BuildExactly | novo_chat/compute.py:210-286 | A build succeeds exactly without fault, with one vector per piece and with room for its estimate, and otherwise reports the first test to fail; it adds one candidate and counts its bytes. |
| IndexLaws.ChunksBelong | novo_chat/compute.py:140-181 | Every chunk made of a notebook's pages is labelled with that notebook, and every page has one. |
| IndexLaws.ChunksArePieces | novo_chat/compute.py:140-181 | Behind the pieces of the pages before it stands every piece of a page, under that page's id, its number in the page and the notebook; a page without text has one; there is no other chunk. |
| Indexes.IndexRepository.ChunksForPages | novo_chat/compute.py:140-181 | The loops over pages and pieces compute `Indexes.ChunksOf`. |
| Indexes.IndexRepository.BuildCandidate | novo_chat/compute.py:210-286 | Computes `Indexes.Build`: the estimate is checked, the directory validated, its real size counted. |
| Indexes.IndexRepository.CommitCandidate | novo_chat/compute.py:288-297 | Computes `Indexes.Commit`: the move, or the removal when the target exists, then validation of the target. |
| Indexes.IndexRepository.DiscardCandidate | novo_chat/compute.py:299-302 | Computes `Indexes.Discard`, with the counter floored at zero. |
| Indexes.IndexRepository.PruneDirectories | novo_chat/compute.py:332-374 | Computes `Indexes.Prune`, and measures the tree anew exactly when something went. |
| Indexes.IndexRepository.Load | novo_chat/compute.py:304-311 | Computes `Indexes.LoadActive`: the name, the directory, then its validation against the scope. |
| DocumentLaws.FinalizeAllOrNothing | novo_chat/documents.py:144-218 | A rejected finalize changes nothing; an accepted one stores exactly the concatenation of batches 0..n-1 under the declared checksum and count, drops the staging, touches no other scope, and loads back. |
| DocumentLaws.FinalizeSucceedsExactly | novo_chat/documents.py:144-218 | Acceptance, both ways: exactly those batches, distinct pages, matching totals, and an equal stored copy or room for one. |
| DocumentLaws.FinalizeErrors | novo_chat/documents.py:152-211 | Which error a refused finalize reports, each if and only if its own test is the first to fail. |
| DocumentLaws.DamagedBatchIsRefused | novo_chat/documents.py:170-182 | A batch file changed on disk is noticed before anything is stored. |
| DocumentLaws.ChangedCopyDoesNotLoad | novo_chat/documents.py:220-237 | A finalized copy changed on disk loads exactly the pages it was finalized with or not at all. |
| DocumentLaws.StageExactly | novo_chat/documents.py:110-142 | The answer of staging in every case, in the order of the tests: wrong checksum, another batch under the number, no room; the same batch again succeeds without change; and a new batch is stored in its own place only. |
| DocumentLaws.RepeatedBatch | novo_chat/documents.py:131-138 | While a batch is in staging, after any calls and however full the store, sending it again answers its page count, sending other pages under its number is a conflict, and neither changes anything. |
| DocumentLaws.ResumedFinalizeExactly | novo_chat/jobs.py:643-660 | A finalize interrupted after its document was written, whatever is left of its staging, succeeds when resumed if and only if no batch file had gone; otherwise it reports missing batches and changes nothing; and the document loads with its pages either way. |
| DocumentLaws.TornFinalizeResumes | novo_chat/documents.py:207-218 | After an error while the batches were being deleted, or a crash in its place, resuming succeeds exactly when no file of the batches had gone. |
| DocumentLaws.RepeatedFinalize | novo_chat/documents.py:159-218 | The case of a finalize that was completed: repeating it succeeds again exactly for an export without batches; the document stays loadable either way. |
| DocumentLaws.WriteOnce | novo_chat/documents.py:110-282 | Once finalized, a scope loads the same pages after any calls whatever until a prune takes it. |
| DocumentLaws.RunKeepsAccounts | novo_chat/documents.py:86-299 | Whole runs, calls that raise part-way included: the counter never undercounts, stored bytes stay within the quota, and the counter is exact if no call raised after deleting a file. |
| DocumentLaws.CallIsExact | novo_chat/documents.py:207-282 | A call on an exact counter leaves it exact if and only if it did not raise after deleting a file: a finalize between its document and its clean-up, or a prune before it measured again. |
| DocumentLaws.CounterStaysNatural | novo_chat/documents.py:217 | No call takes the counter below zero, whatever it has lost track of. |
| DocumentLaws.ApplyKeepsSound | novo_chat/documents.py:110-282 | Every call, interrupted ones included, keeps every file under its own scope and number, with the checksum of its pages. |
| DocumentLaws.FinalizeAccounting | novo_chat/documents.py:199-217 | Finalizing changes counter and tree by the same amount, and goes past the quota in no case. |
| DocumentLaws.CutFinalizeAccounting | novo_chat/documents.py:199-217 | A finalize whose clean-up raises lowers what is stored by the batches gone and not the counter, and goes past the quota in no case. |
| DocumentLaws.StageAccounting | novo_chat/documents.py:139-142 | Staging changes counter and tree by the same amount. |
| Envelopes.BatchBytesAreWritten | novo_chat/documents.py:123-140 | A staged batch counts the length of the canonical JSON it is stored as. |
| Envelopes.DocumentBytesAreWritten | novo_chat/documents.py:191-206 | A finalized document counts the length of the canonical JSON it is stored as. |
| Documents.DocumentStore.Stage | novo_chat/documents.py:110-142 | Computes `Documents.StageBatch`: checksum, then idempotent or conflicting repeat, then room. |
| Documents.DocumentStore.FinalizeDocument | novo_chat/documents.py:144-218 | Computes `Documents.Finalize`, or `Documents.CutFinalize` when the removal of the staging directory raises. |
| Documents.DocumentStore.VerifyStaged | novo_chat/documents.py:152-189 | Computes `Documents.Verified`: completeness, integrity, duplicates, count and checksum, in that order. |
| Documents.DocumentStore.LoadPages | novo_chat/documents.py:220-237 | Computes `Documents.Load`. |
| Documents.DocumentStore.PruneStagingRoot | novo_chat/documents.py:268-282 | Removes exactly the stale staging directories outside the keep set, and measures again exactly when something went. |
| Documents.DocumentStore.PruneFinalRoot | novo_chat/documents.py:268-282 | The same for the finalized documents. |
| ExportSync.ExportAndIngest | novo_chat/gateway/sync.py:146-230 | The round trip: success means the export was good and the worker loads exactly the exported pages in order; on a fresh scope every good export for which there is room succeeds; a refusal has the reason it reports. The loop ends for any cursor sequence. |
| ExportSync.HandleReply | novo_chat/gateway/sync.py:177-205 | One turn of the loop: duplicate test, page limit, checksum, batches under consecutive numbers. |
| ExportSync.IngestReply | novo_chat/gateway/sync.py:187-205 | The batches of one reply are staged one after the other, or the first failure ends it. |
| ExportSync.FinalizeStaged | novo_chat/documents.py:144-218 | Freshly staged batches finalize under their own totals exactly when their pages are distinct and there is room. |
| ExportSync.BatchesFlatten | novo_chat/gateway/sync.py:186-190 | The batches of all replies concatenate to the exported pages. |
| Canonical.CanonicalDocumentChecksum.HexDigest | novo_chat/gateway/sync.py:47-65 | However the pages were chunked, the streamed digest is the one the worker recomputes over the whole list. |
| Canonical.CanonicalDocumentChecksum.Add | novo_chat/gateway/sync.py:55-60 | Streams pages past the hash in order. |
| Canonical.ChecksumInjective | novo_chat/protocol.py:610-625 | Equal document checksums mean equal page lists. |
| Canonical.ArrayBytesAppend | novo_chat/gateway/sync.py:267-272 | What one more page adds to the canonical length of an array. |
| Partition.PartitionPageBatches | novo_chat/gateway/sync.py:259-285 | Fails exactly when some page alone exceeds the cap; otherwise gives a lossless, ordered split into nonempty batches within the cap. |
| Partition.GreedyIsMinimal | novo_chat/gateway/sync.py:259-285 | No contiguous partition within the cap has fewer batches. |
| Partition.OversizedHasNoPartition | novo_chat/gateway/sync.py:273-281 | When it fails, no partition exists at all. |
| Partition.SaturatedStaysAhead | novo_chat/gateway/sync.py:270-285 | After any number of batches the greedy split has covered at least as many pages as any other. |
| GpuExclusion.AtMostOneRuns | deploy/compute-host/modelctl_server.py:104-252 | For any number of controller processes with any model maps, under every interleaving of single docker commands, containers stopping by themselves, processes dying with the lock and inventory growth by idle containers, at most one inventoried container runs. |
| GpuExclusion.LaunchesIntoQuiet | deploy/compute-host/modelctl_server.py:218-238 | A start command is issued only while no inventoried container runs, and none can start before it lands. |
| GpuExclusion.LockIsNeverLost | deploy/compute-host/modelctl_server.py:104-135 | In every state of every run whoever holds the host lock is at work: it is never left behind by a process that ends or dies. |
| GpuExclusion.StepKeepsInv | deploy/compute-host/modelctl_server.py:104-252 | Every single step keeps the invariant; while scanning, whatever runs has been seen or is still to be looked at. |
| GpuExclusion.InitiallyOk | deploy/compute-host/modelctl_server.py:218-238 | A host on which no controller is at work satisfies the invariant exactly when at most one inventoried container runs. |
| GpuExclusion.UndisturbedStart | deploy/compute-host/modelctl_server.py:218-238 | An undisturbed start is one run of the machine with the outcome and effect stated of the method, and frees the lock. |
| GpuExclusion.StartedExactly | deploy/compute-host/modelctl_server.py:218-238 | A start lands exactly when its model is known, all its containers are listed, every listed container answers, none of them runs, and the command works. |
| GpuExclusion.UndisturbedAttempt | deploy/compute-host/modelctl_server.py:218-238 | Whichever containers do not answer, an undisturbed start is one run of the machine with the outcome of the method, which scans up to the first silent container exactly when that is the outcome. |
| GpuExclusion.UndisturbedStop | deploy/compute-host/modelctl_server.py:240-252 | An undisturbed stop is one run of the machine with the outcome and effect stated of the method, and frees the lock. |
| LateStarts.TimedOut | deploy/compute-host/modelctl_server.py:136-152 | A start that times out leaves its process about to give the lock up, with no inventoried container running. |
| LateStarts.HarmlessWhileLocked | deploy/compute-host/modelctl_server.py:104-135 | In every run in which that process has not yet let go of the lock, the start landing late keeps the invariant and exclusion. |
| LateStarts.LateStartBreaksExactly | deploy/compute-host/modelctl_server.py:218-238 | After any run since the timeout, the start landing late breaks exclusion if and only if another inventoried container was started in that run, by a start that landed, and nothing has ended it since. |
| LateStarts.LateStartCanBreak | deploy/compute-host/modelctl_server.py:218-238 | Whatever the host, another controller with another container, all of its containers being inventoried, gives such a run: it acquires the lock, finds nothing running and starts its own container. |
| LateStarts.BusyAfter | deploy/compute-host/modelctl_server.py:218-252 | What runs after any run was started in it, or was running all along, and has not been ended since. |
| LateStarts.AlwaysExclusiveExactly | deploy/compute-host/modelctl_server.py:218-238 | Every run from a state keeps exclusion if and only if the state excludes now and its lock holder has found a container, has yet to look at what runs, or starts what runs. |
| LateStarts.InvIsSafe | deploy/compute-host/modelctl_server.py:104-252 | Every state that satisfies the scan invariant is such a state. |
| LateStarts.HarmlessExactly | deploy/compute-host/modelctl_server.py:136-152 | A start landing late keeps exclusion then and ever after if and only if nothing else runs and the lock holder, if any, is starting the same container, has found one, or has yet to look at it. |
| GpuExclusion.DockerController.Start | deploy/compute-host/modelctl_server.py:218-238 | The outcome of a start in every case, in the order of its checks, and its effect on what runs. |
| GpuExclusion.DockerController.Stop | deploy/compute-host/modelctl_server.py:240-252 | The outcome of a stop in every case, in the order of its checks (unknown model, failed inspection, not running, failed command, stopped), and its effect on what runs. |
| Diversify.GreedyIsOptimal | novo_chat/rag_core.py:225-248 | When the page cap permits `count` picks, the selection respects the cap, has `count` items, and has the largest total score of any such choice. |
| Diversify.ShortfallFillsWithDeferred | novo_chat/rag_core.py:243-248 | When it does not, no cap-respecting choice has `count` items either, and the result is all capped picks followed by the best deferred ones, of length min(count, candidates). |
| Diversify.PicksDominate | novo_chat/rag_core.py:234-242 | The i-th pick is ranked at least as well as the i-th item of any cap-respecting choice. |
| Diversify.KeyIsLabel | novo_chat/rag_core.py:236 | What is counted: the page identifier, without one the file, without either the decimal numeral of the position; the numeral of no other position. |
| Diversify.DeferredExactly | novo_chat/rag_core.py:234-242 | A candidate is deferred if and only if as many better ranked ones as the cap bear its label. |
| Diversify.NoPageExceedsCap | novo_chat/rag_core.py:225-248 | When the ranking permits the count, the selection has that many items and bears no label more often than the cap. |
| Diversify.CapsPagesRespectsCap | novo_chat/rag_core.py:236-241 | When every chunk has a page identifier, respecting the cap means naming no page identifier more often than the cap. |
| Diversify.DiversifyByPage | novo_chat/rag_core.py:225-248 | The loop computes `Diversify.Diversified`, the early return included. |
| Retrieval.Retrieve | novo_chat/compute.py:597-748 | Fuses, sorts, diversifies and numbers exactly as `Fused`, `Ranking` and `Selected` state. |
| Retrieval.AddView | novo_chat/compute.py:645-648 | Adds weight over 60 plus rank to each index of a view. |
| Retrieval.FuseExpansions | novo_chat/compute.py:726-736 | An expansion can lift a score to its own level but never adds to it. |
| Retrieval.RankingIsSorted | novo_chat/compute.py:738 | Every candidate is ranked once, by falling score and then by rising index. |
| Retrieval.HitsAreCandidates | novo_chat/compute.py:738-748 | The hits, numbered from one, are different candidates, each with its own chunk and fused score. |
| Retrieval.HitsAreOptimal | novo_chat/compute.py:738-748 | The hits of a query have the largest total score of any choice from its ranking that takes no page, or what stands in for a missing page identifier, more than twice, whenever the ranking permits as many. |
| Retrieval.HitsCapPages | novo_chat/compute.py:738-748 | When some choice of as many chunks as are wanted names no page identifier more than twice, the hits are such a choice, and none has a larger total score. |
| Planner.PlanOnlyFillsGaps | novo_chat/compute.py:726-736 | A plan only adds candidates and only raises scores, and never above 0.9/60 by its own doing. |
| Planner.ScoreExactly | novo_chat/compute.py:607-736 | Every fused score in terms of the ranks: the question's views the strategy runs add 1 over 60 plus rank, with the bonus when hybrid; each planner view can only lift to its own worth; only the first 240 of a view count. |
| Planner.PlannedOnly | novo_chat/compute.py:616-736 | What only the planner proposes, under a strategy that runs its view, is a candidate with exactly 0.85 or 0.9 over 60 plus its rank. |
| Planner.ExpansionIsBounded | novo_chat/compute.py:42-43 | All expansion credit lies between zero and 0.9/60. |
| Planner.StrongEvidenceKeepsItsRank | novo_chat/compute.py:616-739 | Whatever the planner returns, the ranking opens with the original evidence above 0.9/60, in its own order and with its own scores. |
| Planner.StrongEvidenceKeepsItsPlace | novo_chat/compute.py:738-748 | The same survives page diversification: the selected hits open with the same chunks for every plan. |
| Planner.StrongRanks | novo_chat/compute.py:645-648 | One original view alone makes a chunk strong exactly down to rank six. |
| Planner.TopSevenAreStrong | novo_chat/compute.py:616-703 | The first seven chunks of each original view that is run are strong. |
| Chunking.ChunkText | novo_chat/rag_core.py:203-222 | The loop yields exactly the overlapping windows up to the first that reaches the end. |
| Chunking.ChunksRebuildText | novo_chat/rag_core.py:203-222 | Every chunk is nonempty and within the limit, each later one begins with the tail of the one before and adds something, and dropping the overlaps rebuilds the tokens. |
| Chunking.ChunkCount | novo_chat/rag_core.py:203-222 | A long text has 1 + ceil((n - words) / (words - overlap)) chunks. |
| Citations.NormalizedHasNoBrackets | novo_chat/rag_core.py:299-304 | No bracket-glyph citation survives normalisation. |
| Citations.NormalizeIdempotent | novo_chat/rag_core.py:299-304 | Normalising again changes nothing. |
| Citations.NormalizeKeepsCitations | novo_chat/rag_core.py:299-304 | Normalisation cites the same number lists in the same order. |
| CitationGrammar.SquareExactly | novo_chat/rag_core.py:21 | A square citation stands exactly where the text has numbers between commas, blanks only around the commas, in square brackets. |
| CitationGrammar.BracketedExactly | novo_chat/rag_core.py:22 | A bracket-glyph citation stands exactly where the text has blanks, such a list and perhaps a dagger note between bracket glyphs; and it cites the list. |
| CitationGrammar.ListingIsRead | novo_chat/rag_core.py:284-296 | What is read from a list is its numbers, each with its digits in order. |
| CitationGrammar.DigitsAreValue | novo_chat/rag_core.py:290 | The digits of a number, with any leading zeros, are read as that number. |
| CitationGrammar.ReadInOrder | novo_chat/rag_core.py:284-296 | The numbers read are exactly those of the readable numerals, once each, in the order in which they first appear. |
| CitationGrammar.CheckExactly | novo_chat/rag_core.py:307-324 | The check of any answer against any sources passes if and only if every number in square brackets is a source, none stands between bracket glyphs, and it cites something, says there is no information, or has no sources; and what it reports missing is exactly what is cited and no source. |
| CitationGrammar.NormalizedIsApart | novo_chat/rag_core.py:299-304 | After normalisation every citation is square and begins the text or follows a blank; and exactly such texts are left as they are. |
| CitationGrammar.NormalizeKeepsText | novo_chat/rag_core.py:299-304 | Outside the citations normalisation keeps every visible character, in order. |
| Answers.AcceptedExactly | novo_chat/compute.py:575-595 | An answer is accepted exactly when every readable number it cites is one of its sources, and it cites something or says there is no information, which it must say without sources; what is accepted is the normalised text. |
| NoInformation.SaysNoInformationExactly | novo_chat/rag_core.py:312-314 | An answer is taken to say that there is no information if and only if it is blanks, then the sentence "The provided documents do not contain this information." glyph for glyph, then anything. |
| Answers.InRangeExactly | novo_chat/rag_core.py:284-296 | In every accepted answer all cited numbers lie in 1..sources if and only if the value of each numeral of more than 4300 digits does; in particular if there is none. |
| Answers.InRangeUnlessOverlong | novo_chat/rag_core.py:284-296 | Without leading zeros, and with at most the 100 sources a query allows, that is exactly when there is none: all numbers lie in 1..sources if and only if no numeral has more than 4300 digits. |
| Answers.OverlongNumeralEscapes | novo_chat/rag_core.py:284-296 | An accepted answer that cites a numeral of 4301 digits. |
| Answers.CitationNumbers | novo_chat/rag_core.py:284-296 | The loops give the distinct readable numbers in order of first appearance. |
| Query.RunQuery | novo_chat/compute.py:419-532 | A query succeeds exactly when its options, scopes, dimensions and embedding are valid and the generated answer is acceptable; then the returned answer cites only prompt hits, and cites one or opens with the sentence that there is no information; no bracket glyph is left, and every citation is of a notebook in scope, numbered in rank order. |
| Query.AnswerFrom | novo_chat/compute.py:496-532 | From the ranked hits to the answer: succeeds exactly when the generator answers acceptably over the hits it was shown. |
| Query.CollectChunks | novo_chat/compute.py:439-453 | Gathers all chunks in order, and fails exactly on a foreign chunk or a second vector dimension. |
| Query.ChunksInOrder | novo_chat/compute.py:439-453 | The chunks of a query are those of its indexes in the order of its scope, and no others. |
| QueryJob.QueryRunner.Run | novo_chat/executor.py:264-310 | From an operation's scope to its citations: succeeds exactly when every scope is ready, the model is, the query is answerable and the answer acceptable; then the answer cites only sources of the prompt, and every citation is of a notebook of the operation's scope and shows the page, notebook and text of a chunk in its active index. |
| QueryJob.QueryRunner.LoadArtifacts | novo_chat/executor.py:264-275 | Loads the active artifact of each scope in order, and fails exactly when a scope has none or its artifact does not load. |
| QueryJob.ReadyMeansActive | novo_chat/executor.py:264-275 | In every reachable state of the worker a scope is ready for queries exactly when it has an active index of its exact revision. |
| Replay.AtMostOnce | novo_chat/protocol.py:838-868 | With nondecreasing clock readings no signed request is accepted twice in any run, although expired nonces are purged. |
| Replay.GuardsMatchIdeal | novo_chat/protocol.py:838-868 | Either guard answers every run as a reference without table or purge: refused as replayed exactly when accepted before and the window is still open. |
| Replay.GuardsAgree | novo_chat/jobs.py:229-244 | The SQLite guard, whose purge is rolled back on a duplicate, answers exactly as the in-memory one. |
| Replay.FreshNonceIsAccepted | novo_chat/protocol.py:838-868 | A valid first presentation inside the window is never refused. |
| Replay.InMemoryReplayGuard.TryClaim | novo_chat/protocol.py:766-776 | Expired claims are popped, then the nonce is claimed if it is not there. |
| Replay.DurableReplayGuard.TryClaim | novo_chat/jobs.py:229-244 | Purge and insert in one transaction, undone when the key is taken. |

## Left out

- HTTP routing, request validation, signing, canonical JSON of anything but page arrays and the two stored files, HMAC and the order of headers: a page is an identifier, opaque content and an encoded length, and signature and header checks enter the replay model as flags.
- Gateway jobs: the export loop calls the store directly, where the gateway submits ingest jobs and waits for them; deterministic idempotency keys, by which an old job may be returned, are not modelled.
- Embedding, generation, BM25 and vector arithmetic; the whitespace stripping of the answer model; excerpts, titles and timings of citations.
- The progress detail column of an operation, the messages beside error codes, and the fixed progress values of a query.
- Legacy schema migration, and `set_running` and `activate_index`, which only tests call and which bypass the single runner and the artifact check.
- Exhaustion of SQLite rowids at 2^63 - 1, and clocks that go backwards; the `dedupe_key` argument of a submission, which no caller passes; the caller and request id of the first submission, which a claim hands to the runner.
- Symlink checks, permissions, partial writes, failing reads of the sizes of files and directories, and directory names that were not made by the service.
- Docker log parsing and model readiness probing: the reports they give are arbitrary inputs.
- Gateway ownership and result-release checks, and the browser user interface.
