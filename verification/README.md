# A verified model of the merge-request review service

The service queues LLM reviews of GitLab merge requests, hands each one to a worker thread, runs
it in an ephemeral container and stores the result.  This project models its job protocol, its
text and config transformations, its library mounts, its output streaming and its merge-request
cache, and proves what they are for.  `dafny verify dfyconfig.toml` checks everything.

## How it is laid out

The job protocol:

- `JobQueue` has the job table as a sequence of rows (a row's id is its index, rows are never
  deleted) and the queue operations as functions on it.  `AbsEdit` says what every operation does
  to two plain sequences of ids, without any position; `QueueRefinement` proves that the integer
  positions refine it; `JobTable.Scheduler` is the mutable table, whose methods assign positions
  row by row and are proved against both.
- `Protocol` is the transition system.  Every database commit is one step, and so is every read
  by a pump, a worker or a cancelling request that one of its commits depends on.  A queue edit,
  a claim and startup recovery are one step each, reads included.  Jobs, pumps, workers and cancelling requests are
  unbounded in number and interleave freely, and the process may die at any step.  Two things
  about the database session matter and are modelled: a worker keeps the values it loaded
  (`expire_on_commit` is off, app/db.py:114), and a column is written only when the assigned
  value differs from the loaded one.  So a worker's loads and a request's loads are steps of
  their own.
- `Ownership`, `Lifecycle`, `Recovery`, `Permits`, `PumpDrain` and `PumpCap` are the theorems about
  all reachable states and all runs.  `ReviewStore.Store` has the same commits as methods that
  overwrite rows in place, each proved to make the protocol's steps.
- `ClaimRace` and `SkipLocked` take the SQLite and the Postgres claim apart into their two
  statements, `PositionRace` every queue edit into its read and the rows it writes at commit.

The rest:

- `Scrub` is secret scrubbing, over `Text` and `Json`.
- `DeepMerge` and `Renderers` are the two renderers of opencode.json.  The container's goes
  through text: `ConfigTemplate` is the template with its slots, `JsonText` reads JSON,
  `JsonDump` writes it, `Decimal` prints numbers.
- `ResultBlock` finds and normalizes the review result.
- `LibraryPaths` derives the library mounts, `CheckoutTree` is the tree of checkouts they share,
  `CheckoutCache` the staleness of one of them.
- `Streaming` is the output streaming, `MrSync` the merge-request cache.

## Where the code does less than one might expect

- **Finished jobs.**  A cancelling request reads the job, then its running run, and commits
  later.  The commit does not look again, so a stale request can overwrite `done` or `failed`
  with `cancelled`.  `FinishedChangesIffStaleCancel` gives the exact condition for one step,
  `FinishedIsFinal` finality over whole runs whose cancels are fresh, and
  `StaleCancelOverwritesDone` a concrete run on which it fails.
- **Done and success.**  The same race can leave a cancelled job with a successful run.
  `CoupledIffNotDecoupled` gives the exact condition.
- **Scrubbing.**  Replacing a secret by `***` is complete exactly for secrets that neither begin
  nor end with `*` and do not contain `***` (`CompleteIffStarSafe`).
- **Cancelled jobs in flight.**  The owner of a cancelled job may overwrite it with its own
  outcome, and so may the crash handler and the abandoned claim when they read the job before the
  cancel committed.  `CancelledChangesIffOwnerMissedIt` gives the exact condition.
- **Positions.**  A request that commits late writes positions from the table it read.  Two
  removals that both read before either writes end on one position
  (`InterleavedRemovalsCollide`), and a compaction that commits after a reorder undoes half of it
  (`StaleCompactionCollides`).  `UniqueIffNoCollision` gives the exact condition over every
  interleaving of every edit; `LateCompactionIff` and `QuietCompactionIsHarmless` say when a late
  compaction changes no queue.  Order stays total, by id, and `CompactionRepairs` the immediate
  queue.
- **Claims under Postgres.**  A claim passes over a head that another claimer has locked, and so
  claims out of order when that one rolls back (`SecondClaimOvertakes`).  `ClaimsTheHeadIff` is
  the exact condition; with one claimer it always holds (`AloneClaimsTheHead`).
- **Renderers.**  The container puts the model id between quotes as it is.  An id with a quote,
  a backslash or a control character is accepted by the form, and then the container raises
  (`QuotedIdRaises`, `BackslashedIdRaises`, for a valid profile `QuotedIdIsLost`) or names another
  model (`TornSlotNeverRenders`).  And the environment does not carry a profile's extra config, so
  the container renders without it (`SharingSettingIsLost`).  For profiles from the form the two
  documents agree exactly when the id is plain and the extra config says nothing new
  (`FormProfilesAgreeIff`).  `RenderersAgree` adds the conditions the form takes care of, a
  negative window and a base URL with an unknown provider, and what an extra config can make good.
- **Streaming.**  When the reader raises, on output that does not decode, say, the run ends
  without a timeout and without the lines after that point (`PodmanLosesIffReaderFails`,
  `OpencodeLosesIffTextIsLost`).  After a timeout, lines that the reader queues once the drain has
  given up are lost; what it had read by the deadline is not (`RunStreaming`).
- **Merge order.**  The deep merge is not associative; `AssociativeIffClashFree` says exactly
  when it is.
- **Checkouts.**  Cloning removes what is at or below the directory, so an entry with path `a` or
  `.` removes the checkout of an earlier `a/b`, which is mounted all the same
  (`NestedPathIsLost`, `RootPathRemovesAll`).  Every mounted directory holds its own checkout
  exactly when no directory lies in another one and one directory has one URL
  (`AllIntactIffSeparate`).  Derived paths have that property when the names are tidy
  (`DerivedPathsAreSeparate`); names that differ in blanks at their ends only share a directory
  (`BlankEdgesCollide`), and the name `.` is the root.
- **Mounts.**  A URL whose last segment is blank gets a derived path that the app does not mount
  and the container clones (`MountsAgreeIff`, `BlankNameIsCloned`).

## Model

| member | source | states |
|---|---|---|
| JobQueue.QueueSpec | app/services/scheduling.py:22-32 | the sorted listing of a schedule type is the one and only listing by (position, id) of exactly its queued jobs |
| JobQueue.OrderedByPositionThenId | app/services/scheduling.py:22-32 | earlier in the queue means a smaller position, or the same position and a smaller id |
| JobQueue.TopPosition | app/services/scheduling.py:35-42 | max(position) over the queued rows of a type: an upper bound that some queued row attains, absent exactly when none is queued |
| QueueRefinement.DedupKeepsFirstOrder | app/services/scheduling.py:82 | the deduplicated list has exactly the submitted ids, each once, in order of first occurrence |
| JobQueue.Renumber | app/services/scheduling.py:99-101 | the k-th listed row gets base + k + 1 and the type, every unlisted row is unchanged |
| QueueRefinement.EditSimulates | app/services/scheduling.py:35-221 | forward simulation: every queue edit is accepted or rejected, for the same reason, exactly as on two plain sequences, and yields exactly those sequences; a rejected edit changes nothing |
| QueueRefinement.EnqueueAppends | app/services/scheduling.py:45-72 | a new job goes last in its own queue and the other queue is unchanged |
| QueueRefinement.ReorderSimulates | app/services/scheduling.py:75-106 | reorder installs exactly the deduplicated list, densely numbered, or fails with exactly one of the three errors |
| QueueRefinement.PermutationInstalls | app/services/scheduling.py:75-101 | a list that is a permutation of the immediate queue is always accepted and becomes the queue |
| QueueRefinement.MoveSimulates | app/services/scheduling.py:116-127 | top and bottom move exactly one id, never hit the rewrite's own errors, and fail exactly for jobs not queued or not immediate |
| QueueRefinement.SwitchSimulates | app/services/scheduling.py:140-165 | enroll and remove move one id to the end of the other queue, with their exact errors; enrolling twice is a no-op |
| QueueRefinement.SwitchingAppends | app/services/scheduling.py:149-165 | flipping a queued row's type with the next position appends it there and removes it here |
| QueueRefinement.PromoteConcatenates | app/services/scheduling.py:182-203 | promotion makes the immediate queue immediate ++ nightly and empties nightly |
| QueueRefinement.AppendedPositions | app/services/scheduling.py:35-72 | enqueue, enrol and remove write one past the position of the last job of the queue, 1 for an empty one, and no other row |
| QueueRefinement.PromotedPositions | app/services/scheduling.py:182-203 | promotion numbers the nightly jobs onwards from there and writes no other row |
| QueueRefinement.CompactStutters | app/services/scheduling.py:206-221 | compaction leaves both queues as they are and numbers the immediate one 1..n |
| QueueRefinement.StatusChangeRemoves | app/services/scheduling.py:130-137 | leaving queued removes the id from its queue and nothing else |
| QueueRefinement.ReorderingIsDense | app/services/scheduling.py:75-127 | after reorder, top, bottom and compact the immediate queue is numbered 1..n |
| QueueRefinement.EditKeepsPositions | app/services/scheduling.py:3-7 | every edit keeps queued positions unique per type and at least 1 |
| QueueRefinement.EditKeepsStatuses | app/services/scheduling.py:35-221 | no edit changes a status or deletes a row |
| JobTable.AllFound | app/services/scheduling.py:85-93 | comparing the two lengths detects exactly an id that is unknown or not queued |
| JobTable.Scheduler.Enqueue | app/services/scheduling.py:45-72 | the table as it changes: appends a row with the next position, and its id to the right queue |
| JobTable.Scheduler.Number | app/services/scheduling.py:99-101 | the numbering loop installs Renumber |
| JobTable.Scheduler.RewritePositions | app/services/scheduling.py:75-101 | checks and numbering loop together give the new table or the error and no change |
| JobTable.Scheduler.Reorder | app/services/scheduling.py:104-106 | the reorder request on the two sequences |
| JobTable.Scheduler.MoveToTop | app/services/scheduling.py:116-120 | the id goes first, or the exact error and no change |
| JobTable.Scheduler.MoveToBottom | app/services/scheduling.py:123-127 | the id goes last, or the exact error and no change |
| JobTable.Scheduler.EnrollNightly | app/services/scheduling.py:140-152 | the id goes to the end of nightly, or the exact error and no change |
| JobTable.Scheduler.RemoveNightly | app/services/scheduling.py:155-165 | the id goes to the end of immediate, or the exact error and no change |
| JobTable.Scheduler.PromoteNightly | app/services/scheduling.py:182-203 | returns the nightly queue and appends it to immediate |
| JobTable.Scheduler.CompactPositions | app/services/scheduling.py:206-221 | writes only rows whose position differs, and still numbers the queue 1..n |
| JobTable.Scheduler.Cancel | app/services/scheduling.py:130-137 | succeeds exactly for queued jobs of either type, removes the id, compacts |
| JobTable.Scheduler.ClaimNext | app/services/scheduling.py:260-292 | claims the minimum (position, id) of the immediate queue, never a nightly job, and nothing exactly when it is empty |
| Protocol.LatestRunning | app/services/review_service.py:157-165 | the running run of the job with the highest id, absent exactly when there is none |
| Ownership.StepKeepsInv | app/scheduler/worker.py:41-169 | every step of every thread, request, crash and recovery keeps the ownership invariant |
| Ownership.ExactlyOneOwner | app/scheduler/worker.py:41-169 | in every reachable state each claimed or running job and each running run has exactly one live owner |
| Ownership.OwnersAreUnique | app/scheduler/worker.py:79-109 | no job and no run ever has two owners |
| Ownership.QuiescenceLeavesNothingInFlight | app/scheduler/worker.py:112-169 | once pumps and workers stop, every job is queued or final and no run is running, whatever was cancelled between any two commits |
| Ownership.AtMostOneRunPerJob | app/scheduler/worker.py:87-100 | no two run rows ever belong to the same job, and a job with a run has left the queue for good |
| Ownership.WorkersFindTheirRows | app/scheduler/worker.py:131-135 | a worker always finds the run and the job it was started for |
| Ownership.RecoverStatuses | app/scheduler/recovery.py:44-76 | recovery fails exactly what is in flight and ends exactly what is running |
| Lifecycle.StepStatus | app/services/review_service.py:69-73 | the status every step of the protocol gives every job |
| Lifecycle.StepRun | app/services/review_service.py:146-225 | the status every step of the protocol gives every run; a run never changes its job |
| Lifecycle.NeverQueuedAgain | app/models/scheduled_job.py:13-24 | no step returns a job to queued |
| Lifecycle.OnlyOwnersWrite | app/services/review_service.py:146-225 | once a job left the queue only its own owner, a cancel of it, or recovery changes its status |
| Lifecycle.FinishedChangesIffStaleCancel | app/services/review_service.py:146-177 | a done or failed job changes if and only if a cancel that read outdated rows commits on it |
| Lifecycle.FinishedIsFinal | app/services/review_service.py:183-225 | done and failed are final over every run whose cancels are fresh |
| Lifecycle.CancelledUnownedIsFinal | app/services/review_service.py:146-177 | a cancelled job that no thread owns stays cancelled over every continuation |
| Lifecycle.CancelledChangesIffOwnerMissedIt | app/scheduler/worker.py:112-169 | a cancelled job changes if and only if its own worker or pump commits: at its start or end, or from the crash handler or abandoned claim when these read the job before the cancel |
| Lifecycle.CancelledWhileQueuedIsFinal | app/services/scheduling.py:130-137 | cancelling a still-queued job is final over every continuation |
| Lifecycle.CoupledIffNotDecoupled | app/services/review_service.py:193-224 | a step keeps "done iff its run succeeded" if and only if it is not a cancel of a done job by a request that saw no running run |
| Lifecycle.DoneIffSuccess | app/services/review_service.py:183-225 | at every commit of a run without such a cancel, a job is done iff its one run is a success |
| Lifecycle.DoneIffSuccessFromStart | app/services/review_service.py:183-225 | the same from process start on, for runs whose cancels are fresh |
| Lifecycle.StaleCancelOverwritesDone | app/services/review_service.py:146-177 | a reachable state in which an enabled cancel turns a done job with a successful run into a cancelled one |
| ReviewStore.Store.CreateRun | app/scheduler/worker.py:90-100 | makes the protocol's CreateRun step; the new run is the one a cancel of this job would now stop, and no run is lost |
| ReviewStore.Store.AbandonClaim | app/scheduler/worker.py:112-124 | makes the protocol's read and commit of an abandoned claim, then compacts if it wrote; a claimed job ends failed, any other is left alone, both queues and all other statuses are kept |
| ReviewStore.Store.CancelInflight | app/services/review_service.py:146-180 | makes the protocol's three cancel steps and compacts; a running run of the job ends in error exactly when there is one, the job ends cancelled, both queues and everything else are kept |
| ReviewStore.Store.ApplyOutcome | app/services/review_service.py:183-225 | makes the protocol's Finish step and compacts; timeout wins over the exit code, the job is done exactly if the run succeeded, queues and other rows are kept |
| ReviewStore.Store.FinalizeCrashedRun | app/scheduler/worker.py:147-169 | makes the protocol's three crash-handler steps and compacts; neither row stays in flight, a row already final keeps its status, queues and other rows are kept |
| ReviewStore.Store.EndOrphans | app/scheduler/recovery.py:44-59 | the first loop ends every running run and fails exactly the in-flight jobs that have one |
| ReviewStore.OrphansAreRunning | app/scheduler/recovery.py:37-43 | the listed orphans are the running runs, each once, and belong to exactly the jobs with a running run |
| ReviewStore.Store.FailStuck | app/scheduler/recovery.py:60-78 | the second loop fails the remaining in-flight jobs and compacts when anything was fixed |
| ReviewStore.Store.RecoverOrphans | app/scheduler/recovery.py:33-92 | both loops and the compaction are the protocol's Recover step, and the count is running runs plus in-flight jobs without a running run |
| ReviewStore.NothingToRecover | app/scheduler/recovery.py:33-92 | a count of 0 means nothing was in flight and nothing changed |
| Recovery.CrashRecovery | app/scheduler/recovery.py:33-92 | kill the process in any reachable state and recover: nothing in flight, final rows and both queues unchanged, a second count of 0, invariant restored |
| Recovery.SecondRecoveryFindsNothing | app/scheduler/recovery.py:33-92 | a second recovery returns 0 and writes nothing |
| Permits.PermitConservation | app/scheduler/worker.py:50-76 | in every reachable state free permits + live workers of the pump + the one it holds = cap, so its live workers never exceed cap |
| Permits.ReleasesNeverOverflow | app/scheduler/worker.py:127-144 | every release returns exactly one permit to a semaphore below its bound |
| Permits.AllPermitsComeBack | app/scheduler/worker.py:127-144 | a stopped pump whose workers have ended has every permit back |
| Permits.WaitingPumpIsNotDeadlocked | app/scheduler/worker.py:55-76 | a pump at its semaphore finds a permit or one of its workers can take its next step |
| PumpCap.StartsWithTheSetting | app/scheduler/worker.py:50-55 | a pump started with a setting of n >= 1 has n free permits, with none or less it has one |
| PumpCap.AtMostTheSetting | app/scheduler/worker.py:50-76 | over every continuation in which the process stays up at most n of its workers are live, at most one with no setting or less |
| PumpCap.TheSettingIsReached | app/scheduler/worker.py:55-76 | with n jobs in the immediate queue n of them can be live at once |
| PumpCap.AnyQueueLength | app/services/scheduling.py:45-72 | and queues of every length are reachable |
| PumpDrain.StepSimulatesQueues | app/services/scheduling.py:35-292 | what every protocol step does to the two sequences; a claim pops the immediate head |
| PumpDrain.PositionsAlwaysOk | app/services/scheduling.py:3-7 | with every edit one transaction, positions are unique per type and at least 1 in every reachable state |
| PositionRace.CommitKeepsPositionsIffFree | app/services/scheduling.py:35-221 | with read and commit of an edit taken apart, a commit keeps positions unique and at least 1 if and only if no row it writes ends, queued, on the position of another queued row of its type |
| PositionRace.UniqueIffNoCollision | app/services/scheduling.py:35-221 | over every interleaving of reads and commits of every edit, positions stay unique throughout if and only if no commit does that |
| PositionRace.AdjacentCommitIsTheEdit | app/services/scheduling.py:35-221 | read and commit with nothing in between are the edit itself and never collide |
| PositionRace.EditWritesQueuedRows | app/services/scheduling.py:35-221 | no edit writes a row that is not queued |
| PositionRace.InterleavedRemovalsCollide | app/services/scheduling.py:155-165 | any two removals that both read before either writes end on one position |
| PositionRace.StaleCompactionCollides | app/services/scheduling.py:206-221 | a compaction of two jobs at 1 and above 2 that reads, and commits after they were swapped, puts both on position 2 |
| PositionRace.LateCompactionIff | app/services/scheduling.py:206-221 | a compaction that commits on a later table leaves both queues as they are if and only if it keeps every pair of queued jobs of a type in order |
| PositionRace.QuietCompactionIsHarmless | app/services/scheduling.py:206-221 | in particular when since its read jobs only left the queue or joined at its end |
| PositionRace.CompactionRepairs | app/services/scheduling.py:206-221 | whatever the positions, compaction keeps both queues and makes the immediate positions unique again |
| PumpDrain.PumpDrainsInOrder | app/scheduler/worker.py:55-76 | an undisturbed pump has started + pending + queued = the initial immediate queue at every step; when it stops it has started exactly that queue, in order, and nightly is untouched |
| PumpDrain.QueueOnlyShrinks | app/scheduler/worker.py:55-76 | the size of the immediate queue is the pump's loop measure |
| PumpDrain.PumpStopsAfterItsClaims | app/scheduler/worker.py:55-76 | an undisturbed pump claims at most queue length + 1 times and has stopped exactly when it has claimed that often |
| ClaimRace.NoJobIsClaimedTwice | app/services/scheduling.py:260-292 | with select and guarded update interleaved in any way, no id is handed out twice |
| ClaimRace.AdjacentPairClaimsTheHead | app/services/scheduling.py:260-292 | run back to back the pair claims the minimum of the immediate queue |
| ClaimRace.UnlockedClaim | app/services/scheduling.py:260-292 | select, any moves of others, update: the claim takes the selected job exactly when it is still queued, and from the nightly set exactly when the last enrolment, removal or promotion in between left it there |
| ClaimRace.LockedClaimIsImmediate | app/services/scheduling.py:260-292 | with nothing in between, as under the write lock, no nightly job is claimed |
| ClaimRace.EnrolledHeadIsClaimed | app/services/scheduling.py:260-292 | on every non-empty queue, enrolling the selected head in between makes the unlocked pair claim a nightly job |
| SkipLocked.ClaimOvertakesOnlyLocked | app/services/scheduling.py:240-257 | a Postgres claim locks a queued immediate row nobody holds, everything before it is held by other claimers, and it finds none exactly when every queued immediate row is held |
| SkipLocked.ClaimsTheHeadIff | app/services/scheduling.py:240-257 | it claims the minimum of the immediate queue if and only if no other claimer holds it |
| SkipLocked.NoJobIsClaimedTwice | app/services/scheduling.py:240-257 | over every interleaving of locks, commits, rollbacks, edits and other commits no id is handed out twice |
| SkipLocked.CommitTakesItsRow | app/services/scheduling.py:240-257 | whatever happened since the lock, the commit takes exactly that row out of the immediate queue |
| SkipLocked.LockStays | app/services/scheduling.py:240-257 | a locked row stays as it is until its claimer commits or rolls back |
| SkipLocked.AloneClaimsTheHead | app/services/scheduling.py:240-257 | one claimer alone claims the minimum |
| SkipLocked.SecondClaimOvertakes | app/services/scheduling.py:240-257 | with two, the second takes the second job, out of order when the first rolls back |
| Scrub.ScrubRemovesSecrets | app/orchestrator/run_review.py:99-106 | after scrubbing no star-safe secret of at least 8 characters is left anywhere, whatever the other secrets |
| Scrub.ReplaceKeepsOut | app/orchestrator/run_review.py:99-106 | one replacement neither leaves its secret behind nor creates another one |
| Scrub.CleanTextUnchanged | app/orchestrator/run_review.py:99-106 | text free of secrets is unchanged |
| Scrub.ScrubTwice | app/orchestrator/run_review.py:99-106 | scrubbing twice equals once |
| Scrub.CompleteIffStarSafe | app/orchestrator/run_review.py:99-106 | a secret is removed from every text if and only if it is star-safe |
| Scrub.ScrubJsonIsClean | app/orchestrator/run_review.py:109-123 | no secret in any key or string at any depth |
| Scrub.CleanJsonUnchanged | app/orchestrator/run_review.py:109-123 | a tree free of secrets is unchanged |
| Scrub.ScrubJsonTwice | app/orchestrator/run_review.py:109-123 | scrubbing a tree twice equals once |
| Scrub.ScrubFieldsMeaning | app/orchestrator/run_review.py:109-123 | an object keeps exactly its scrubbed keys, each with the scrubbed value of the last field of that key |
| Scrub.ScrubText | app/orchestrator/run_review.py:99-106 | the replacement loop; its result is clean |
| Scrub.FirstOccurrence | app/orchestrator/run_review.py:99-106 | the first occurrence of a secret becomes three stars, the text before it stays, and scrubbing goes on right behind it |
| Scrub.AbsentSecret | app/orchestrator/run_review.py:99-106 | text without the secret stays; with FirstOccurrence this determines the scrubbing of every text for one secret |
| Scrub.ShortSecretStays | app/orchestrator/run_review.py:99-106 | secrets shorter than 8 characters are not scrubbed |
| Scrub.InListOrder | app/orchestrator/run_review.py:99-106 | several secrets are scrubbed one after the other, in the order of the list |
| Scrub.ScrubItems | app/orchestrator/run_review.py:109-123 | a list keeps its length and order, a string is scrubbed, any other leaf stays |
| DeepMerge.PathLaw | app/orchestrator/opencode_template.py:84-91 | what the merged document holds at every key path, from the two inputs alone |
| DeepMerge.MergedKey | app/orchestrator/opencode_template.py:84-91 | objects merge key-wise |
| DeepMerge.NonObjectWins | app/orchestrator/opencode_template.py:84-91 | a non-object in extra wins at its path |
| DeepMerge.UnreachedKeepsBase | app/orchestrator/opencode_template.py:84-91 | a path extra never reaches keeps the base value |
| DeepMerge.MergeTwice | app/orchestrator/opencode_template.py:84-91 | merging the same extra twice equals once, key order included |
| DeepMerge.MergeWithItself | app/orchestrator/opencode_template.py:84-91 | merging a document with itself changes nothing |
| DeepMerge.AbsorbedIffAlreadyIn | app/orchestrator/opencode_template.py:84-91 | merging extra changes nothing if and only if every value extra reaches is already in the document |
| DeepMerge.PlainValueHides | app/orchestrator/opencode_template.py:84-91 | where extra holds a plain value, the merge does not depend on what the base holds there |
| DeepMerge.PlainDifference | app/orchestrator/opencode_template.py:84-91 | two bases that differ in one plain value merge to a document with the first one's value exactly when the first does and extra holds that value |
| DeepMerge.AssociativeIffClashFree | app/orchestrator/opencode_template.py:84-91 | two groupings of three documents agree, key order included, if and only if no plain value stands, at a path all three reach, between two objects of which the last does not absorb the first |
| DeepMerge.NotAssociative | app/orchestrator/opencode_template.py:84-91 | such a clash exists |
| DeepMerge.DeepMergeLoop | app/orchestrator/opencode_template.py:84-91 | the recursive loop computes the merge |
| JsonText.SlotReadsBackIffPlain | containers/review-runner/opencode.json.j2:3 | text put raw between the template's quotes is read back as itself if and only if it has no quote, backslash or control character |
| JsonDump.DumpReadsBack | containers/review-runner/entrypoint.py:352-357 | every dumped value without floats is read back as itself, escapes and surrogate pairs included, whatever follows it |
| ConfigTemplate.ClosedSlotRenders | containers/review-runner/entrypoint.py:352-357 | when the model slot closes at the template's own quote, the rendered text parses to the intended document with the model the slot reads as |
| ConfigTemplate.PlainSlotCloses | containers/review-runner/entrypoint.py:352-357 | a plain model closes the slot and reads as itself |
| ConfigTemplate.TornSlotNeverRenders | containers/review-runner/entrypoint.py:352-357 | any other model: the text does not parse, or names another model |
| ConfigTemplate.QuoteRaises | containers/review-runner/entrypoint.py:352-357 | a first quote followed by more text, neither a blank, a comma nor a brace: the parse raises |
| ConfigTemplate.BackslashRaises | containers/review-runner/entrypoint.py:352-357 | a first backslash before a letter that is no escape: the parse raises |
| Renderers.RenderersAgree | containers/review-runner/entrypoint.py:313-361 | decoding the environment in the container renders the app's document if and only if the model slot closes and reads as the model or as what the extra config names, the window is not negative, the base URL reaches the container or the extra config empties it, and the container's document already holds every value the extra config reaches |
| Renderers.DocumentSays | app/orchestrator/opencode_template.py:94-105 | the app's document before the extra config is the provider block, provider/model, and exactly the four permissions |
| Renderers.AppSays | app/orchestrator/opencode_template.py:60-81 | from the profile alone, other than anthropic: npm package, the profile's base URL or else the llama URL, the key when there is one, the model's name, and a limit of the window and 32768 when a window is set |
| Renderers.AppSaysAnthropic | app/orchestrator/opencode_template.py:60-81 | for anthropic: its npm package, the key when there is one, no base URL and no models |
| Renderers.EnvSays | app/orchestrator/run_review.py:65-91 | every variable the container reads, from the profile alone, and when it is absent |
| Renderers.ContainerSays | containers/review-runner/entrypoint.py:327-350 | the same for the block the container builds, with an empty base URL when none was sent and no limit for a negative window |
| Renderers.FormProfilesAgreeIff | app/schemas/model_profile.py:14-39 | for profiles from the form the renderers agree if and only if the model id is plain and the extra config is already in the document; without extra config, if and only if the id is plain |
| Renderers.PlainIdRenders | containers/review-runner/entrypoint.py:313-361 | with a plain id the container renders the app's document before the extra config |
| Renderers.QuotedIdRaises | containers/review-runner/entrypoint.py:352-357 | the container raises on a model id with a quote followed by more text |
| Renderers.BackslashedIdRaises | containers/review-runner/entrypoint.py:352-357 | the container raises on a model id with a backslash before a letter that is no escape, as in a Windows path |
| Renderers.QuotedIdIsLost | app/schemas/model_profile.py:33-39 | for example every valid profile with model id a"b: the app renders it, the container raises |
| Renderers.OtherKeysAreLost | app/orchestrator/run_review.py:65-91 | any extra top-level key the app does not render itself makes them differ |
| Renderers.SharingSettingIsLost | app/orchestrator/run_review.py:65-91 | for example every valid profile that switches sharing off |
| Renderers.ExtraConfigIsMergedOver | app/orchestrator/opencode_template.py:94-105 | the app merges the extra config over the document the container renders, and the container's document does not depend on it |
| Renderers.LostWindowIsLost | containers/review-runner/entrypoint.py:341-350 | no extra config makes good a negative window, which the container drops |
| Renderers.ContextRoundTrip | app/orchestrator/run_review.py:65-91 | the context window survives printing, stripping and the digit test exactly when it is not negative |
| Renderers.CompatibleBlocks | containers/review-runner/entrypoint.py:327-350 | the provider blocks both sides build for an OpenAI-compatible provider, from the same profile |
| Decimal.PrintParse | app/orchestrator/run_review.py:65-91 | decimal printing and parsing are inverse |
| Decimal.ParseLast | containers/review-runner/entrypoint.py:342-348 | digits are read from left to right in base ten |
| ResultBlock.ScanFindsExactlyTheBodies | containers/review-runner/entrypoint.py:88 | for opener-free prose interleaved with plain blocks the scan returns exactly the bodies, in order |
| ResultBlock.ScanTakesHead | containers/review-runner/entrypoint.py:88 | on any text that begins with a block, the body up to the first fence is found and the scan goes on right behind that fence |
| ResultBlock.ScanSkipsOne | containers/review-runner/entrypoint.py:88 | on any other text the scan moves on by one character; together they determine the scan of every text |
| ResultBlock.MarkdownBlockIsFound | containers/review-runner/entrypoint.py:88 | the same with the pattern written out |
| ResultBlock.BodySurvivesIffPlain | containers/review-runner/entrypoint.py:88 | a block's body is found whole if and only if it holds no fence and does not end in a backtick |
| ResultBlock.ProseIsSkipped | containers/review-runner/entrypoint.py:88 | prose without an opener never matches, not even across its border with a block |
| ResultBlock.NormalizedHasShape | containers/review-runner/entrypoint.py:690-723 | a normalized result is always text, exactly four buckets of objects, text, and a list of strings |
| ResultBlock.ShapeIsFixed | containers/review-runner/entrypoint.py:690-723 | anything of that shape is a fixed point |
| ResultBlock.AcceptableIff | containers/review-runner/entrypoint.py:690-711 | what can be a result: an object whose findings are missing, null, a list, or an object whose buckets are lists or empty values |
| ResultBlock.BucketIsKept | containers/review-runner/entrypoint.py:704-714 | a bucket keeps its findings in order: objects as they are, text as the description, null as an empty one, anything else dumped |
| ResultBlock.BareListIsImportant | containers/review-runner/entrypoint.py:697-714 | a bare list of findings is the "important" bucket and the other three are empty |
| ResultBlock.TextsAreKept | containers/review-runner/entrypoint.py:718-723 | summary and commit message review: text stays, missing or null is empty, anything else is dumped |
| ResultBlock.QuestionsAreKept | containers/review-runner/entrypoint.py:715-723 | questions: a list, one text unless it is blank, one other value, or none |
| ResultBlock.QuestionsInOrder | containers/review-runner/entrypoint.py:723 | the questions of a list come out in its order |
| ResultBlock.NormalizeTwice | containers/review-runner/entrypoint.py:690-723 | normalizing is idempotent |
| ResultBlock.NormalizeBuckets | containers/review-runner/entrypoint.py:704-711 | the bucket loop fails exactly when some bucket is neither falsy nor a list |
| ResultBlock.NormalizeResult | containers/review-runner/entrypoint.py:690-723 | succeeds exactly on acceptable objects and then returns the normalized result |
| ResultBlock.ExtractResult | containers/review-runner/entrypoint.py:726-739 | the last block decides; none on no block, bad JSON or an unacceptable value |
| ResultBlock.LastBlockDecides | containers/review-runner/entrypoint.py:726-739 | on a transcript of plain blocks the result comes from the last block's body alone; without blocks there is none |
| LibraryPaths.NormalizeTwice | app/services/extra_projects.py:35-70 | normalizing the library list is idempotent |
| LibraryPaths.NameIsTheLastSegment | app/services/extra_projects.py:21-32 | the derived name is the last non-empty segment of the url's path when that does not end in ".git" |
| LibraryPaths.NameDropsGit | containers/review-runner/entrypoint.py:244-260 | and what is before the ".git" when it does, on both sides |
| LibraryPaths.NoSegmentNoName | app/services/extra_projects.py:21-32 | without a segment there is no name |
| LibraryPaths.FirstUrlKeepsTheName | app/services/extra_projects.py:48-70 | the first url in the list that derives a name gets it, every other url with that name gets the name, a dash and its hash |
| LibraryPaths.ExplicitPathWins | app/services/extra_projects.py:48-55 | an entry with an explicit path, or without a url, is untouched |
| LibraryPaths.CleanedEnds | app/orchestrator/libraries.py:68-77 | a path loses the blanks around it and then the slashes, and nothing else |
| LibraryPaths.CleanedUrl | app/services/extra_projects.py:49 | a url loses the blanks around it, and nothing else |
| LibraryPaths.DotDotIff | app/orchestrator/libraries.py:68-77 | a path is refused exactly when ".." is one of its components |
| LibraryPaths.DerivedPathsSeparateUrls | app/services/extra_projects.py:48-70 | derived paths are equal exactly for equal urls, given a fixed-length hash without accidental clashes |
| LibraryPaths.SuffixedInjective | app/services/extra_projects.py:60-66 | with a fixed-length hash a suffixed name determines name and hash |
| LibraryPaths.NormalizeEntries | app/services/extra_projects.py:35-70 | the loop with its owner map computes the normalized list |
| LibraryPaths.ContainerAcceptsMountsAndBlanks | containers/review-runner/entrypoint.py:281-310 | the container accepts exactly the app's mounts plus the derived names made of blanks only |
| LibraryPaths.MountsAgree | app/orchestrator/libraries.py:237-252 | when no derived name is blank the two sides agree, so the container never clones |
| LibraryPaths.MountsAgreeIff | containers/review-runner/entrypoint.py:281-310 | they agree if and only if every blank name is mounted by an explicit path |
| LibraryPaths.BlankNameIsCloned | containers/review-runner/entrypoint.py:244-310 | a single url-only entry with a blank name is not mounted and is cloned |
| LibraryPaths.BlankSegmentIsBlankNamed | app/services/extra_projects.py:21-32 | such entries exist: any url whose path is "/ .git" |
| LibraryPaths.BlankNamesStay | app/services/extra_projects.py:48-70 | after normalization only blank names are still derived from the url |
| LibraryPaths.MountPathsAreOk | app/orchestrator/libraries.py:237-252 | the mounted paths are distinct, not empty, without "..", in order of first occurrence, and exactly the mountable ones |
| CheckoutTree.OwnsAfterIff | app/orchestrator/libraries.py:185-217 | one entry, exactly: a checkout is there afterwards if it is the entry's own, or it was there and the entry did not clone at or above its directory |
| CheckoutTree.DirAt | app/orchestrator/libraries.py:184 | directories are joined at slashes, and empty and "." components vanish |
| CheckoutTree.OwnsAtEndIff | app/orchestrator/libraries.py:220-252 | a whole call, exactly: a checkout is there at the end if and only if it was there or some entry asked for it, and no later entry cloned at or above its directory |
| CheckoutTree.AllIntactIffSeparate | app/orchestrator/libraries.py:220-252 | every mounted directory holds its own checkout and none of another entry if and only if no mounted directory lies in another one and one directory has one url, whatever was on disk before |
| CheckoutTree.DerivedPathsAreSeparate | app/services/extra_projects.py:35-70 | that holds for every list whose paths come from the urls, when names are single tidy segments and hashes do not clash |
| CheckoutTree.NestedPathIsLost | app/orchestrator/libraries.py:208-217 | paths "a/b" and then "a": both are mounted, the checkout of the first is gone |
| CheckoutTree.RootPathRemovesAll | app/orchestrator/libraries.py:208-217 | cloning at path "." leaves no other checkout |
| CheckoutTree.BlankEdgesCollide | app/services/extra_projects.py:35-70 | two urls whose derived names differ only in blanks at their ends share a directory |
| CheckoutTree.LibraryRoot.EnsureCheckout | app/orchestrator/libraries.py:158-217 | keeps a matching readable checkout, else replaces everything at or below the directory; a failing clone leaves nothing there |
| CheckoutTree.LibraryRoot.EnsureEach | app/orchestrator/libraries.py:237-252 | the loop raises exactly when some entry needs a clone that fails, and else mounts each path once, with the checkouts of the whole call on disk |
| CheckoutTree.LibraryRoot.EnsureLibraries | app/orchestrator/libraries.py:220-252 | the call raises exactly when a needed clone does, and else returns host directory and path of every mounted path in order; then every mounted directory holds its own checkout exactly when the directories are separate |
| CheckoutCache.HistoryIsHonest | app/orchestrator/libraries.py:117-128 | over any history of calls and failures the marker never claims more than the last real sync |
| CheckoutCache.StalenessBound | app/orchestrator/libraries.py:186-217 | a returned checkout has the requested origin, and was synced in this call, or is younger than the limit, or the re-sync of this call failed |
| CheckoutCache.AnswerIff | app/orchestrator/libraries.py:186-217 | a checkout is reused without a sync exactly when origin, remote and marker are as asked and the marker is within the limit; a clone or re-sync that succeeds is returned with fresh content; a call fails exactly when a needed clone does |
| CheckoutCache.ReusedWithinTheLimit | app/orchestrator/libraries.py:186-217 | after a marked sync every call for the url within its limit reuses the checkout untouched |
| CheckoutCache.NeverTooOld | app/orchestrator/libraries.py:186-217 | for every limit, 0 included: when the call starts a returned checkout is under the limit, or is synced in the call, or the call's re-sync failed; with a limit of 0 none is reused as fresh |
| CheckoutCache.FailuresNeverRefreshTheMarker | app/orchestrator/libraries.py:197-206 | failing re-syncs never refresh the marker |
| CheckoutCache.CheckoutDir.Ensure | app/orchestrator/libraries.py:158-217 | the directory and marker as the code changes them |
| MrSync.SyncKeeps | app/services/mr_sync.py:67-137 | (project, iid) stays unique, no row is deleted, other projects are untouched |
| MrSync.ListedRowsAreCurrent | app/services/mr_sync.py:99-110 | every listed merge request ends with its last snapshot |
| MrSync.UpsertCached | app/services/mr_sync.py:41-64 | an upsert sets one cached row and no other |
| MrSync.UpsertAllCached | app/services/mr_sync.py:99-110 | after many upserts a merge request has its last snapshot, or what it had |
| MrSync.CountsAddUp | app/services/mr_sync.py:99-110 | added + updated + unchanged is the number of snapshots |
| MrSync.AddedAreTheNew | app/services/mr_sync.py:41-64 | "added" is the number of distinct listed merge requests the cache did not hold |
| MrSync.UpdatedAreTheChanged | app/services/mr_sync.py:41-64 | "updated" is, for a listing without repetition, the number of those cached with other fields |
| MrSync.SyncSettles | app/services/mr_sync.py:67-137 | one sync leaves the cache agreeing with everything upstream would send again |
| MrSync.SettledSyncIsQuiet | app/services/mr_sync.py:67-137 | a sync of such a cache counts everything as unchanged |
| MrSync.SecondSyncReportsNothing | app/services/mr_sync.py:67-137 | a second sync against an unchanged upstream with distinct iids reports 0 added and 0 updated |
| MrSync.MrCache.UpsertSnapshot | app/services/mr_sync.py:41-64 | the row as it changes, and the kind it reports |
| MrSync.MrCache.SyncOpenMrs | app/services/mr_sync.py:67-137 | the whole sync: rows and counters, and nothing on an error |
| MrSync.MrCache.Reconcile | app/services/mr_sync.py:112-134 | the refetch loop over cached-open rows missing from the listing |
| Streaming.Stream.ReaderStep | app/orchestrator/podman_client.py:309-314 | one step of the reader: the next line, or the final None once |
| Streaming.Stream.TakeHead | app/orchestrator/podman_client.py:330-333 | the consumer takes exactly the head of the queue |
| Streaming.Stream.Consume | app/orchestrator/podman_client.py:319-333 | at the deadline the reader has taken its steps or stopped; without a timeout its None was the last item |
| Streaming.Stream.RunStreaming | app/orchestrator/podman_client.py:319-347 | under every interleaving the emitted lines followed by what is left in the queue are exactly what was read, in order; every line read by the deadline is emitted and only lines read after the drain are left; without a timeout the output is everything up to the line the reader fails at, so all of it if and only if it does not fail; a child that keeps up never times out |
| Streaming.Stream.EmittedIsPrefix | app/orchestrator/podman_client.py:319-347 | at every moment the emitted lines are a prefix of the child's output, and so is their rendering |
| Streaming.RunPodman | app/orchestrator/podman_client.py:290-347 | every emitted line is the child's line without its line end; they are at least the lines read by the deadline, and without a timeout all the lines the reader reached |
| Streaming.PodmanLosesIffReaderFails | app/orchestrator/podman_client.py:309-314 | lines are lost without a timeout if and only if the reader raises before the end of the output |
| Streaming.UndecodableLineEndsTheLog | app/orchestrator/podman_client.py:309-314 | two lines of which the second does not decode leave one |
| Streaming.PodmanKeepsEveryLine | app/orchestrator/podman_client.py:333 | rendering loses no line and keeps their order |
| Streaming.RunOpencodeOnce | containers/review-runner/entrypoint.py:420-506 | the returned output is the stripped, non-empty lines in order, at least those read by the deadline; 124 on timeout, else the child's exit code with everything the reader reached |
| Streaming.OneLine | containers/review-runner/entrypoint.py:483-486 | the output of one line is its text without line end, stripped, and a line end, or nothing when that text is empty |
| Streaming.OutputInOrder | containers/review-runner/entrypoint.py:483-506 | the output of several lines is their outputs one after the other, in order |
| Streaming.LineKeepsItsText | app/orchestrator/podman_client.py:333 | exactly the run of line ends at the end of a line goes |
| Streaming.OpencodeLosesIffTextIsLost | containers/review-runner/entrypoint.py:461-466 | output is lost without a timeout if and only if the reader raises and some line after that is more than escape sequences |

## Left out

Assumptions of the protocol:

- A `thread.start()` that fails after the run row was created (app/scheduler/worker.py:74).
- Best-effort cleanup commits that fail themselves (app/scheduler/worker.py:121, app/scheduler/worker.py:166).
- A failure between the SQLite COMMIT of a claim and the re-read of the row (app/services/scheduling.py:283-292).
- A crash between the commit of a status change and the compaction that follows it is covered (compaction is a step of its own), except inside recovery, which is one step.
- PumpDrain.PositionsAlwaysOk: each queue edit is one atomic transaction there; `PositionRace` takes every edit apart into its reads, all of one snapshot, and its commit.
- SkipLocked.NoJobIsClaimedTwice: the locking SELECT is one step on the current rows, and an edit that would write a locked row comes after the lock; the protocol's claim is atomic and takes the head.
- Pump caps bound the workers of one pump; workers left over from an earlier pump are not counted.
- Container ids, container stop, timestamps, log flushes, the GitLab post-back and every settings column but the cap.

Other simplifications:

- Renderers.RenderersAgree: takes a plain provider, of which the form offers two, and says nothing when the id breaks out of its quotes and the extra config names the model too, since such an id can write any JSON; only the variables the renderer reads are modelled; the extra config, parsed from JSON, has distinct keys in every object.
- Renderers.FormProfilesAgreeIff: leaves out ids that are not plain together with an extra config that names the model.
- Renderers.OtherKeysAreLost: leaves out the same.
- JsonText.SlotReadsBackIffPlain: `float` and the code point of an unpaired surrogate escape are parameters of the JSON reader.
- JsonDump.DumpReadsBack: leaves out floats, which no provider block holds.
- Renderers.ContextRoundTrip: ASCII digits and blanks only.
- ResultBlock.NormalizeResult: `json.loads`, `json.dumps` and `str` are parameters, and blanks are space, tab, CR and LF.
- LibraryPaths.DerivedPathsSeparateUrls: URL splitting and SHA-1 are parameters; explicit paths are not registered by `normalize_extra_projects`, so they are excluded.
- CheckoutTree.LibraryRoot.EnsureLibraries: joining the checkout root with a path is a parameter for the mounts, and so is which remotes can be read and which clones fail; of a directory only its checkout is modelled, not the files of an outer checkout that an inner one replaces; calls of other reviews on the same root are not interleaved.
- LibraryPaths.MountsAgree: is about calls whose checkouts succeed; blanks are space, tab, CR and LF, here as in every module.
- CheckoutCache.StalenessBound: says nothing about the ref, which `ensure_library_checkout` ignores for freshness; marker times are whole seconds; a git command that fails half way counts as failed.
- MrSync.MrCache.SyncOpenMrs: listing pages and the cached default branch are not modelled.
- Streaming.Stream.RunStreaming: waiting for the child after the reader has ended is not modelled, so neither is a child that blocks on a pipe nobody reads.
- Streaming.RunOpencodeOnce: `strip_ansi` is a parameter, because it is not complete on malformed escapes; time is the number of polls until the deadline.
- Routers, templates, login, migrations, cron triggers, encryption, the GitLab client and the container command line.
