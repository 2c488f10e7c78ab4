# Verified model of the ODS pipeline manager and its start and finish tasks

A Dafny 4.11 model of the parts of the repository that keep state between steps, with proofs of what
those parts promise. `dafny verify dfyconfig.toml` checks everything.

The main results:

- **Queueing.** Scheduler, watcher, pruner, boot goroutine, process restarts and the outside world
  interleave at every API call and channel operation over a store with compare-and-swap updates.
  In every execution, whichever calls fail, a repository never has two executing runs, that is, runs
  begun by a create or an update and not yet ended by finishing, timing out, being cancelled or deleted
  (`NoConcurrentRuns`, `ProgressingMeansExecuting`), and starts its runs in order of creation (`FirstInFirstOut`). No pending run is
  forgotten unless one of four error steps happens in exactly described circumstances (`WakeStep`,
  `NoLostWakeUp`); two of them, a failed list and a failed update, really switch a waiting queue off
  (`ListErrorForgets`, `UpdateErrorForgets`; reached by the executions of `ReachableForgottenRun` and
  `ReachableConflict`), and the run stays forgotten until a restart or another queued run of its
  repository (`ForgottenStays`). A queue of n runs is started in n rounds and then inactive
  (`DrainExactly`, `EverythingStarts`), and a run with r others ahead of it starts within r + 1 rounds
  whatever is created later (`BoundedWaiting`). Whatever others do between its calls, the watcher's
  timer branch takes the machine's turns, with an error only where a call fails or an update conflicts
  (`Watcher.Tick`).
- **Pruning.** After a prune each stage keeps its newest max(runs newer than the cutoff,
  min(MaxKeepRuns, n)) runs, which for distinct creation times is a one-line rule by rank, and
  pruning now and again later equals pruning later, whatever is created in between. This needs
  pipelines to stay in one stage: otherwise the cascade of a deleted pipeline takes protected runs
  of another stage with it (`MovedPipelineLosesProtectedRun`; exact condition in
  `CascadeSparesProtected`). Other clients act before every deletion: a run that is there then is
  left exactly if neither this deletion nor a later one hits it (`FateOfRun`). Hit are exactly the
  runs given up and those created since the listing for a pipeline given up (`PlanHits`), even the
  newest (`NewestRunLost`).
- **Artifacts.** For a commit that tracks nothing at the place of its run records, the subrepository
  gate of start opens only if a run of that very commit finished successfully, in any interleaving of
  runs. A commit that does track a file there opens it before any run (`CarriedFileOpensGate`), and it
  can stay shut after a success (`SuccessCanBeHidden`, reached by six steps in
  `ReachableHiddenSuccess`); the exact condition is `GateOpensWhen`. An upload meets an asset in the
  permanent repository exactly if another run of the commit has stored it there since this one's start
  (`PermanentIsOverwrittenWhen`), so never while runs of a commit do not overlap
  (`PermanentIsNeverOverwritten`). In the temporary one there is one more case
  (`TemporaryIsOverwrittenWhen`), met without any overlap by `ReachableReupload`. A printed asset path
  parses back exactly if the group, with its slash, begins nowhere before the place it was printed at
  and occurs nowhere after it, and distinct commits have distinct groups, none within
  another (`GroupsApart`). No artifact is lost: a successful upload has either stored a file or start
  found it in the target (`Nexus.UploadArtifacts`, `SuccessfulRunIsStored`).
- **Workspace cleaning.** The walk, the cache pass and the recursive age-based cleaning leave exactly
  a declaratively filtered tree; cleaning twice is cleaning once with the later date. Cleaning the
  workspace succeeds exactly if no removal of its own fails and neither `.ods-cache` nor
  `.ods-cache/build-task` is a regular file. No pass removes these two, so either of them makes start
  fail on every run.
- **Release tags.** A job tags the umbrella repository and then every subrepository, each on its own
  commit and in this order; a successful one has tagged all (`SuccessTagsEverything`, `JobTagsPrefix`),
  and it succeeds exactly if the calls suffice, the ids are free and, for PROD, every check accepts
  (`JobSucceedsWhen`). Candidates are consecutive and fresh (up to the largest 64-bit integer, where the
  next number wraps), subrepository tags exist in the umbrella repository wherever a job failed, and a
  final tag freezes its version, also when the promotion failed halfway (`InterruptedPromotionStays`).
  Versions share tags exactly if one is named like a candidate of the other (`VersionsApart`); a job of
  version 1.0-rc.1 touches the frozen version 1.0 (`FrozenVersionTouched`, exact condition in
  `FinalIsFrozenWhen`). The tag returned by `LatestReleaseCandidate` is the last one listed, since the
  address of the loop variable is taken under Go 1.16 semantics, although its comment speaks of the
  highest; the model follows the code, `OlderCandidatePromoted` shows the effect, `CheckIsRightWhen`
  says exactly when the check for PROD looks at the right commit, and `FinalOnlyOnHighestCandidate`
  exactly when a final tag ends up on the highest candidate's commit.

## Files

- `PipelineRuns.dfy`, `TektonStore.dfy`: runs, the in-place sort, the store as an object.
- `QueueProtocol.dfy`, `QueueGuarantees.dfy`, `QueueDrain.dfy`: state machine, invariants over
  executions, progress.
- `ManagerObjects.dfy`: `Watcher` and `Scheduler` with their loops, proved against the state machine.
  What other clients do between two calls of one method is a parameter (`later`, `others`).
- `Pruning.dfy`, `PrunePolicy.dfy`, `Debounce.dfy`: the pruner, its policy, its trigger loop.
- `FileTree.dfy`, `CacheCleanup.dfy`, `WorkspaceCleanup.dfy`: cleaning before a run.
- `SetSizes.dfy`: sizes of finite sets.
- `Decimal.dfy`, `ReleaseTags.dfy`, `ReleaseGuarantees.dfy`: version tags.
- `ArtifactExchange.dfy`, `ArtifactGuarantees.dfy`, `AssetPath.dfy`: artifacts between runs.

Calls that can fail take the outcome from a parameter: a flag, an outcome (a write can also take
effect and be reported as failed), a set of refused paths or names, or a budget of successful calls
after which one fails (a function that returns at its first failing call behaves the same for all
later outcomes).

## Assumptions

- One manager process at a time; only the manager starts runs; creation times never decrease; at boot
  at most one run per repository executes; the boot-time list names every repository with runs, unless
  the step `BootError` says otherwise.
- A call takes effect, if at all, before it returns: a create that times out at the client and lands
  later could follow another direct create and give two executing runs.
- Updates are refused when the object's version has changed; every write gives a version never used
  before (`VersionIdentifiesRun` derives from it that the copy written back is current).
- List calls are complete and unpaged; searching a group means everything below it.
- Cutoffs and clock reads are integers; all stages of one prune use one cutoff.
- No task writes into the directory of run records (gate). Neither a task nor the commit puts a file
  directly into the directory a failed run uploads to (overwriting, for failed runs only). Run names
  are not reused on a commit; finish takes every file once.
- Project, repository and commit are path names (asset paths): not empty, no slash, not `.` or `..`.

## Model

| member | source | states |
|---|---|---|
| PipelineRuns.SortDescending | internal/manager/pipeline.go:200-205 | in-place sort: newest first, a permutation; nothing about ties |
| QueueGuarantees.SafetyStep | internal/manager/schedule.go:88-101 | every step keeps: one executing run per repository, an idle repository before a direct start, a quiet one or a stale version before an update |
| QueueGuarantees.FifoStep | internal/manager/watch.go:112-119 | every step keeps: starts in order of creation, nothing waiting older than anything started, the pick oldest while its version stands |
| QueueGuarantees.WakeStep | internal/manager/watch.go:33-60 | a step keeps all wake-ups if and only if it is not one of four errors in the circumstances spelled out by Harmless |
| QueueGuarantees.TickStep | internal/manager/watch.go:54-58 | queues being visited are active and distinct, and an active queue always has the timer armed |
| QueueGuarantees.ProgressingMeansExecuting | internal/manager/pipeline.go:207-211 | in every state of an execution the test holds exactly of the runs begun, by an unqueued create or a starting update, and not ended by finishing, timing out, cancelling or deleting; no other step changes which |
| QueueGuarantees.NoConcurrentRuns | docs/design/software-requirements-specification.adoc:83-84 | over every execution with any failures, at most one run per repository has begun and not ended |
| QueueGuarantees.FirstInFirstOut | internal/manager/watch.go:83-85 | over every execution, runs of a repository start in non-decreasing creation time and no waiting run is overtaken by a younger one |
| QueueGuarantees.NoLostWakeUp | cmd/pipeline-manager/main.go:178-188 | over every execution of harmless steps, restarts included, each pending run's queue is active or a message for it is under way |
| QueueGuarantees.AwakeFromInv | internal/manager/watch.go:40-48 | the step invariant implies that even the queue about to be switched off after its last run was picked is still active |
| QueueGuarantees.ListErrorForgets | internal/manager/watch.go:89-91 | a list error followed by the report forgets a run exactly if one waits there and no message for it is under way |
| QueueGuarantees.UpdateErrorForgets | internal/manager/watch.go:116-121 | an update error followed by the report forgets a run exactly if the picked one was last, still waits, and no message is under way |
| QueueGuarantees.ForgottenStays | internal/manager/watch.go:37-48 | a forgotten run stays so until it no longer waits, a restart, or another queued run of its repository |
| QueueGuarantees.ReachableForgottenRun | internal/manager/watch.go:86-91 | an execution of six steps with one failing list call that ends with a forgotten run |
| QueueGuarantees.ReachableConflict | internal/manager/watch.go:112-121 | an execution in which no call fails but an update refused for a conflict, and that ends with a forgotten run |
| QueueGuarantees.VersionIdentifiesRun | internal/manager/watch.go:118-119 | a run found at the version it was listed at is unchanged in every field, over any steps in between |
| QueueGuarantees.NeverStuck | cmd/pipeline-manager/main.go:139-141 | while a run waits, some component can take a next step without a failing call, whatever the bounded channel holds |
| QueueDrain.VisitOwnEffect | internal/manager/watch.go:98-124 | an undisturbed visit of a quiet queue starts exactly one run, shortens it by one and switches it off exactly when empty |
| QueueDrain.VisitOtherEffect | internal/manager/watch.go:86-89 | a visit leaves every other repository's runs and queue as they were |
| QueueDrain.TickEffect | internal/manager/watch.go:39-49 | a whole tick does that to every active queue, in any order |
| QueueDrain.DrainExactly | internal/manager/watch.go:40-48 | after k rounds of completion and tick an active queue of n has started min(n, k) runs and is active exactly while runs remain |
| QueueDrain.EverythingStarts | docs/design/software-design-specification.adoc:439 | from a state that has forgotten nothing, as many rounds as the longest queue leave no pending run and no active queue |
| QueueDrain.RoundExists | internal/manager/watch.go:33-60 | such a round is possible from every state in which the watcher selects |
| QueueDrain.BoundedWaiting | internal/manager/watch.go:86-124 | with r pending runs not created later ahead of it a run in an active queue starts within r + 1 rounds, whatever runs are created later and whatever other repositories do |
| QueueDrain.StepKeepsPlace | internal/manager/schedule.go:88-101 | no step between ticks but a restart gets a run ahead of one that waits, or switches its queue off, unless it creates one at the same time |
| ManagerObjects.Watcher.HasActiveQueue | internal/manager/watch.go:62-70 | true exactly if some queue is active |
| ManagerObjects.Watcher.ActiveQueues | internal/manager/watch.go:72-81 | exactly the active queues, each once |
| ManagerObjects.Watcher.Scan | internal/manager/watch.go:98-109 | the pending runs of a listing, each once, and whether one executes |
| ManagerObjects.Watcher.Decide | internal/manager/watch.go:98-117 | scan, sort and pop decide as the machine's list step does: the oldest pending run or none, and the reported length |
| ManagerObjects.Watcher.AdvanceQueue | internal/manager/watch.go:86-125 | the whole method with any interference between its calls and any failure, an update that takes effect and is reported as failed included: result and final store, field by field |
| ManagerObjects.Watcher.Receive | internal/manager/watch.go:37-38 | the receive branch is the machine's receive step |
| ManagerObjects.Watcher.Tick | internal/manager/watch.go:39-58 | with any interference between its calls the timer branch takes, queue by queue, the turns of the machine for the outcome of each call: an error only where one fails or conflicts, a start wherever there can be one |
| ManagerObjects.UndisturbedTick | internal/manager/watch.go:39-58 | with nobody else at work and no failing call these turns are the visits of the drain results |
| ManagerObjects.OthersWorkAlong | internal/manager/watch.go:112-119 | any steps of the other components in a row are interference as the timer branch allows it |
| ManagerObjects.Scheduler.NeedsQueueing | internal/manager/schedule.go:104-114 | true exactly if a listed run is pending or executes |
| ManagerObjects.Scheduler.Schedule | internal/manager/schedule.go:59-102 | from the listing on, with any interference and failure, a create that takes effect and is reported as failed included: the answer and the whole final store: the created run with its pending status, version, clock and history |
| ManagerObjects.AdvanceIsListThenUpdate | internal/manager/watch.go:112-124 | the method's two halves are the machine's list and update steps; writing the listed copy back is starting the current run |
| ManagerObjects.ScheduleIsListThenCreate | internal/manager/schedule.go:88-101 | the method's two halves are the machine's list and create steps, which leave the contents spelled out field by field, queued or direct, reported or lost |
| Pruning.Categorize | internal/manager/prune.go:148-160 | the protected runs are exactly the prefix of length max(newer than cutoff, min(MaxKeepRuns, n)) |
| Pruning.Unique | internal/manager/prune.go:213-224 | the first occurrences of the entries |
| Pruning.FirstOccurrencesMeaning | internal/manager/prune.go:213-224 | same entries, no duplicates, ordered by first occurrence |
| Pruning.FindPrunableResources | internal/manager/prune.go:137-176 | sorted in place; the first occurrences of the names of prunable runs whose pipeline owns a protected run, and of the pipelines of the others, newest first |
| Pruning.PrunableMeaning | internal/manager/prune.go:161-170 | the two answers as sets over the sorted bucket |
| Pruning.PrunableOrder | internal/manager/prune.go:161-175 | both answers follow the order of the sorted bucket |
| Pruning.PrefixIsProtected | internal/manager/prune.go:151-160 | the protected prefix is the promised number of runs of the stage in the store, and the newest |
| Pruning.Pruner.CategorizeByStage | internal/manager/prune.go:119-135 | every stage with runs has a bucket with exactly its runs, unknown stages too |
| Pruning.Pruner.Prune | internal/manager/prune.go:87-117 | the deletions, runs and pipelines, that follow from the listing and the policy, and what is left after them, each cascading or failing, whatever others do before each |
| PrunePolicy.CoveredOnce | internal/manager/prune.go:161-170 | every run given up is named or its pipeline is, never both; no protected run's pipeline is listed |
| PrunePolicy.PruneKeepsThePromise | internal/manager/prune.go:23-29 | without failures exactly the protected runs are left and other repositories untouched, if pipelines have one repository and stage |
| PrunePolicy.FailuresAreSafe | internal/manager/prune.go:101-114 | whichever deletions fail, no protected run and no other repository is touched |
| PrunePolicy.CascadeSparesProtected | internal/manager/prune.go:161-170 | in general the protected runs survive if and only if no pipeline with one loses all its runs of another stage |
| PrunePolicy.MovedPipelineLosesProtectedRun | internal/manager/prune.go:201-211 | a concrete store where pruning dev deletes the only, protected run of qa |
| PrunePolicy.FateOfRun | internal/manager/prune.go:99-114 | whatever others do to other runs, a run that is there when a deletion is due is left exactly if neither it nor a later one hits it |
| PrunePolicy.PlanHits | internal/manager/prune.go:161-170 | of the listed runs a plan hits exactly those given up, of runs created since exactly those whose pipeline is given up |
| PrunePolicy.DeletionsTogether | internal/manager/prune.go:99-114 | when others act only before the first deletion the deletions together leave the filtered store |
| PrunePolicy.LateRuns | internal/manager/prune.go:87-108 | then of the listed runs exactly those given up go, of runs created since the listing exactly those whose pipeline is given up |
| PrunePolicy.NewestRunLost | internal/manager/prune.go:99-108 | a concrete store where the newest run, created after the listing, goes with its pipeline |
| PrunePolicy.ProtectedAreSurvivors | internal/manager/prune.go:23-29 | with distinct times a run survives exactly if newer than the cutoff or fewer than MaxKeepRuns of its stage are newer |
| PrunePolicy.PruneComposes | internal/manager/prune.go:148-160 | pruning at one time and again later, with any runs created in between, leaves what only pruning later leaves |
| Debounce.PruneLoop.Run | internal/manager/prune.go:62-83 | the loop plans exactly the prunes of the specification function |
| Debounce.PrunesAreSpaced | internal/manager/prune.go:68-78 | prunes of one repository are at least the delay apart, less the time between recording and arming |
| Debounce.EveryTriggerIsServed | internal/manager/prune.go:68-78 | every trigger is followed by a prune of its repository, strictly later and within the delay |
| Debounce.EveryPruneHasTrigger | internal/manager/prune.go:68-78 | every planned prune belongs to a trigger of its repository, at the delay after it |
| CacheCleanup.CleanupNotRecentlyUsed | cmd/start/cache.go:137-198 | the tree left is the filtered one and the count the number of entries looked at; it fails exactly at a file in the way or at an entry it removes itself whose removal fails, having removed nothing else |
| CacheCleanup.GoneMeaning | cmd/start/cache.go:155-196 | an entry goes exactly if the first one toward it that is not a stamp-less directory above the bound is a file, has a stamp older than the date, or is stamp-less at the bound |
| CacheCleanup.ReachedMeaning | cmd/start/cache.go:182-195 | an entry is looked at exactly if all before it on its way down are stamp-less directories above the bound |
| CacheCleanup.CleanComposes | cmd/start/cache.go:155-196 | cleaning with one date and then with a later one is cleaning with the later one |
| CacheCleanup.StampStays | cmd/start/cache.go:160-179 | a directory that stays keeps its stamp |
| WorkspaceCleanup.DeleteDirRecursiveWithSkip | cmd/start/directory.go:51-89 | for every decider the walk leaves exactly the tree filtered by its flags, or fails, exactly at an entry it removes itself, having removed nothing else |
| WorkspaceCleanup.WalkMeaning | cmd/start/directory.go:51-89 | an entry goes exactly if the first one toward it that is not entered is flagged for removal |
| WorkspaceCleanup.WalkFailsMeaning | cmd/start/directory.go:63-86 | those entries are the ones that go while what they stand in stays |
| WorkspaceCleanup.SticksMeaning | cmd/start/cache.go:182-193 | and so they are for the age-based cleaning |
| WorkspaceCleanup.DeleteDirectoryContentsSpareCache | cmd/start/cache.go:51-60 | the first pass is that walk with its decider, and fails exactly if the removal of an entry it removes itself does |
| WorkspaceCleanup.CleanCache | cmd/start/cache.go:71-119 | no cache, or the walk over it followed by the age-based cleaning; it succeeds exactly if no file is in the way and no removal of its own fails, and a failure has removed nothing else |
| WorkspaceCleanup.WorkspaceCleaningIsExact | cmd/start/cache.go:62-119 | both passes together leave exactly the entries that remain by an entry-by-entry description |
| WorkspaceCleanup.CleanWorkspace | cmd/start/main.go:88-98 | start's cleaning of any workspace leaves exactly those entries, never fewer when it fails, and succeeds exactly if no file is in the way and no removal of its own fails |
| Decimal.RoundTrip | cmd/start/main.go:283-285 | printing a 64-bit integer and parsing it back is the identity |
| Decimal.AtoiMeaning | internal/repository/tags.go:30 | a string is a number exactly if it is an optional sign and one or more digits whose value fits 64 bits |
| Decimal.PrintedShortly | cmd/start/main.go:283-285 | numbers are printed without leading zeros, with a sign only if negative |
| ReleaseTags.TagListContainsFinalVersion | internal/repository/tags.go:14-22 | true exactly if the final tag's id is listed |
| ReleaseTags.LatestReleaseCandidate | internal/repository/tags.go:24-40 | the number is the maximum; the tag, if any, is the last one of the list |
| ReleaseTags.CandidateNumberMeaning | internal/repository/tags.go:26-30 | an id has a candidate number exactly if it is the prefix of the version followed by digits worth it |
| ReleaseTags.HighestMeaning | internal/repository/tags.go:26-40 | that maximum bounds every parsable candidate and is 0 or one of them |
| ReleaseTags.CheckProdTagRequirements | cmd/start/main.go:339-348 | accepts exactly if there is a positive candidate and the last listed tag is on the commit |
| ReleaseTags.CheckIsRightWhen | cmd/start/main.go:339-348 | it accepts exactly the highest candidate's commit if and only if the last listed tag is on it |
| ReleaseTags.OlderCandidatePromoted | internal/repository/tags.go:30-36 | a list for which the older candidate's commit is accepted and the newer one's refused |
| ReleaseTags.Bitbucket.ApplyVersionTags | cmd/start/main.go:259-337 | one job's effect on the tags of all repositories for every number of calls before a failure |
| ReleaseGuarantees.SuccessTagsEverything | cmd/start/main.go:279-333 | after a successful QA or PROD job of a version not final, the umbrella repository and every subrepository have exactly one more tag, the job's, on their own commits; no other repository changes |
| ReleaseGuarantees.JobSucceedsWhen | cmd/start/main.go:259-348 | a job of distinct repositories succeeds exactly if it is a DEV job, or its version is not WIP, the listing succeeds and the version is final or every id is free, every check for PROD accepts and the calls suffice |
| ReleaseGuarantees.JobTagsPrefix | cmd/start/main.go:286-333 | a job that fails anywhere has tagged a first part of its repositories and nothing else; DEV jobs and jobs of a final version tag nothing |
| ReleaseGuarantees.NextCandidateIsHighest | cmd/start/main.go:283-285 | the next number is one more than the highest, or the smallest integer where that wraps, and exceeds every candidate's exactly if it does not wrap |
| ReleaseGuarantees.NextCandidateIsFree | cmd/start/main.go:283-286 | and then the next candidate's tag does not exist |
| ReleaseGuarantees.CandidatesAreConsecutive | cmd/start/main.go:279-297 | from none, the QA jobs of a version make exactly rc.1 to rc.m, m being the number that reached the first creation, whatever jobs of other versions that share no tags with it come in between |
| ReleaseGuarantees.SubrepoTagsExistInMain | cmd/start/main.go:286-296 | over any jobs, failing anywhere, every tag of a version in a subrepository exists by name in the umbrella repository, whatever other tags there are |
| ReleaseGuarantees.VersionsApart | cmd/start/main.go:283-285 | exactly when a final or candidate tag of one version is a tag of another |
| ReleaseGuarantees.TouchesVersionWhen | cmd/start/main.go:259-337 | a job leaves a version's tags alone in all repositories exactly if it makes no tag or not one of that version |
| ReleaseGuarantees.FinalIsFrozenWhen | cmd/start/main.go:280-300 | once a version is final in the umbrella repository, a job that makes a tag touches it exactly if the job's version is named like a candidate of it |
| ReleaseGuarantees.FinalFreezesVersion | cmd/start/main.go:280-300 | so no run of jobs whose versions are not named like that adds, removes or moves a tag of it in any repository |
| ReleaseGuarantees.FrozenVersionTouched | cmd/start/main.go:283-286 | a QA job of version 1.0-rc.1 that makes a candidate tag of the final version 1.0 |
| ReleaseGuarantees.InterruptedPromotionStays | cmd/start/main.go:306-333 | a subrepository that missed its final tag in a failed promotion never gets it |
| ReleaseGuarantees.FinalOnlyOnHighestCandidate | cmd/start/main.go:302-333 | a final tag made by a PROD job, in any repository, is on the highest candidate's commit exactly if the last entry of the list read there is |
| ReleaseGuarantees.HighestCandidateListed | internal/repository/tags.go:26-40 | in a complete list that commit is one of an entry with the list's highest number |
| ArtifactExchange.Nexus.SearchForAssets | pkg/pipelinectxt/artifacts.go:209-225 | the first repository with anything in the group, and all of it |
| ArtifactExchange.Nexus.DownloadGroup | pkg/pipelinectxt/artifacts.go:156-207 | the manifest describes the source repository, the files are what was there already overwritten by its files; refused exactly for an asset in the group itself or a file where a directory is needed |
| ArtifactExchange.TreeMeaning | pkg/pipelinectxt/artifacts.go:189-200 | files can lie side by side exactly if none is a directory on the way to another |
| ArtifactExchange.ReadArtifactsDir | pkg/pipelinectxt/artifacts.go:108-142 | exactly the files directly in each top-level subdirectory, each once |
| ArtifactExchange.Nexus.UploadArtifacts | cmd/finish/main.go:210-246 | success leaves every one-level file at its destination unless start found that directory and name in the target; nothing else changes in any repository; it fails exactly if an upload does, after as many as succeed |
| ArtifactExchange.SuccessfulRunIsStored | pkg/pipelinectxt/artifacts.go:74-84 | after the upload of a successful run every one-level file is in the target in its group, if nobody deletes what was there at the start |
| ArtifactExchange.DestinationInjective | cmd/finish/main.go:248-253 | different files go to different paths |
| ArtifactGuarantees.GateIsSound | cmd/start/main.go:237-255 | over any interleaving of runs the gate opens for a commit that tracks nothing there only if a run of that commit finished successfully |
| ArtifactGuarantees.GateStep | cmd/finish/main.go:248-262 | every step keeps: of such commits, run records in repositories are true records of successful runs |
| ArtifactGuarantees.GateOpensWhen | cmd/start/main.go:244-248 | the gate opens if and only if the commit tracks something there or the first repository with anything for the commit has a record |
| ArtifactGuarantees.CarriedFileOpensGate | cmd/start/main.go:239-247 | a commit that tracks a file among the run records opens the gate in the first step of an execution |
| ArtifactGuarantees.SuccessCanBeHidden | pkg/pipelinectxt/artifacts.go:212-225 | repositories for which the gate stays shut although a successful run's record exists |
| ArtifactGuarantees.ReachableHiddenSuccess | cmd/finish/main.go:211-246 | an execution of two runs that ends in these repositories, with a successful verdict for the commit |
| ArtifactGuarantees.NoReuploadToPermanent | cmd/start/main.go:356-367 | a fresh run never uploads a path the permanent repository has |
| ArtifactGuarantees.ReuploadToTemporaryWhen | pkg/pipelinectxt/artifacts.go:74-84 | for the temporary one it happens if and only if a successful run re-offers one while the permanent repository has something |
| ArtifactGuarantees.PermanentIsOverwrittenWhen | cmd/finish/main.go:211-246 | in any interleaving of runs an upload meets an asset in the permanent repository exactly if another run stored it there since this one's start |
| ArtifactGuarantees.TemporaryIsOverwrittenWhen | pkg/pipelinectxt/artifacts.go:74-84 | for the temporary repository also if a successful run re-offers what was there at its start, hidden by something in the permanent one |
| ArtifactGuarantees.ReachableReupload | cmd/finish/main.go:211-246 | an execution of three runs one after the other that ends before such an upload |
| ArtifactGuarantees.PermanentIsNeverOverwritten | cmd/finish/main.go:211-246 | where runs of a commit do not overlap, failed or aborted ones included, no step changes anything in the permanent repository |
| ArtifactGuarantees.UploadsMakeFinish | cmd/finish/main.go:229-244 | a run's upload steps in a row do to the repositories what the upload loop does with those files |
| AssetPath.SplitsInTwo | pkg/pipelinectxt/artifacts.go:179-182 | splitting gives back two given parts exactly if the separator occurs first between them and not in the second |
| AssetPath.AssetRoundTrip | pkg/pipelinectxt/artifacts.go:174-204 | a printed asset path parses back to its subdirectory and file name exactly if the group begins nowhere before the place it was printed at, overlaps included, and occurs nowhere after it |
| AssetPath.GroupsApart | pkg/nexus/client.go:88-92 | distinct commits have distinct groups, and no path within one is within the other |
| AssetPath.NoSubfolderIsRefused | pkg/pipelinectxt/artifacts.go:183-186 | an asset in the group itself is refused, if the group begins nowhere before |
| AssetPath.RepeatedGroupIsRefused | pkg/pipelinectxt/artifacts.go:179-182 | it is refused if the group occurs after it |
| AssetPath.DirAndBase | pkg/pipelinectxt/artifacts.go:187-188 | directory and base of a joined path are what was joined |
| AssetPath.LocalPathRoundTrip | pkg/pipelinectxt/artifacts.go:195-196 | the cleaned download path is where finish looks for the file |
| AssetPath.CleanMeaning | pkg/pipelinectxt/artifacts.go:195-196 | cleaning a path keeps where it leads from every directory, and leaves no empty name, no dot and no two dots that could be resolved |

## Left out

- HTTP, Kubernetes, Tekton, Bitbucket and Nexus clients: abstract stores with calls that may fail.
- Pipeline and PVC creation in `schedule` before the listing (cmd and label assembly): their failures end the call before it touches a run.
- Webhook receiving, validation, branch-to-environment mapping, label fitting, notifications, documentation, other commands.
- Selection of the target repository in `handleArtifacts`: the target is a parameter of the upload.
- Fairness and real time: progress is stated in rounds, not in seconds.
- Users un-pending runs by hand, several manager replicas, repositories whose boot-time name differs from their label.
- Errors of file status calls other than "not found", symbolic links, and a failing stat in the walk.
- A removal that fails partway: removing a directory either succeeds or removes nothing.
- URL parsing and percent-decoding: the path part of a link is taken as printed.
- MinKeepHours arithmetic: the cutoff is a parameter.
- SubrepoTagsExistInMain: the names only; which commit a tag is on differs between repositories.
- CleanupNotRecentlyUsed: entries are visited in an unspecified order instead of the lexical one, on which the result does not depend unless a removal fails.
