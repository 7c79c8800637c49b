# Verified model of the wheelforge worker

WheelForge turns a requirements file into a verified bundle of wheels. Its Python worker takes
jobs from a database under leases, keeps artifacts and workspaces on a local filesystem, and
survives crashes at any point. This Dafny project models that durable core and the three
decision procedures around it, and proves what they promise.

Each part is modelled in the form its source has. What a job, queue or storage object does to its
fields step by step is a class whose methods are proved against functions on values; the
theorems, over all runs and all interruptions, are about those functions.

- **Leases** (`Leases`, `LeaseInvariants`, `LeaseRuns`, `LeaseTheorems`, `LeaseEffects`,
  `LeaseTakeovers`, `JobRepository`): workers claim, heartbeat, retry, fail, advance, cancel and publish under leases that expire and are taken
  over. A transaction that raises leaves no trace. Clients submit and cancel, the clock advances,
  and a crash is simply no further step of that worker.
- **Sweep safety** (`SweepSafety`): leases together with the artifact files, the retention job and
  the maintenance run, which reads its clock, then the active leases, then the referenced keys, and
  then sweeps while everything else goes on.
- **Publication and quarantine** (`Publication`, `Quarantine`): a directory as a map from names to
  inodes; publishing by intent, stage file and hard link, deleting by rename into a quarantine
  directory; crashes and failures after any step, sweeps that are themselves cut short, and other
  writers in between.
- **The segmented queue** (`QueueModel`, `QueueAccounting`, `QueueRecovery`, `QueueCrashes`,
  `QueueRuns`, `QueueLateMoves`, `QueueOrder`, `QueueFifo`, `QueueStore`): ring slots in three lanes and a separately stored
  summary. Every operation is a program of single filesystem steps, so a crash is a prefix of a
  program; a restart rebuilds the summary from the slots. A call names the item it is about as it
  was read before, so that it may come late.
- **Publications in the queue** (`QueuedPublications`): sweeps that defer a publication's record while
  the publication is still copying its file.
- **Workspace deletion** (`WorkspaceTrees`, `WorkspaceSweep`): a depth-first deletion under budgets
  whose position is a saved stack of names.
- **Compatible versions** (`Candidates`, `Frontiers`, `CompatibleResolver`, `SearchOrder`, `SearchPins`): the
  search over version tuples, frontier by frontier, under a deadline and limits.
- **Requirements** (`Versions`, `Constraints`, `LineMerging`, `Requirements`): the constraint
  conflict test after PEP 440 and the line-by-line merge.
- **Archive members** (`Topology`, `ArchiveMembers`): the tree of folded path components.

Clocks are natural numbers that never go back; a deadline is the number of clock readings that
come before it. Identifiers of executions, artifacts and stage files are fresh. Whatever the
strict resolver, the directory listing or another writer may answer is an input of the model.

## Where the code falls short of its own account

- A worker that stops after claiming a job but before claiming its build dooms the job: the next
  holder's claim is refused because it expects the task to show the previous execution, and the
  job fails with attempts left. `TakeoverIffPredecessorClaimed` says exactly when, and
  `ParseTakeoverIffParsing` says it for parse jobs.
- A takeover that retries before it has claimed the task leaves the task under an execution that
  no later lease will match, and the job never completes. `RetryRequeuesIff` and `RetryStrandsIff`
  say exactly when, `StrandedRetryIsFinal` what follows.
- A queue at its record limit cannot move any record, though a move gives back what it takes.
  `MoveSucceedsIff` says exactly when a move succeeds.
- A publication stopped between creating its stage file and marking it is held for ever, with the
  file. `SweepOfStopped` lists the stopping points and their outcomes, `HeldForEver` follows them
  through every continuation.
- A move of an item that is no longer in its slot is stored before the slot is looked at. If the
  slot holds another record, or the move itself filled it, while a deferred copy exists, the
  identifier is there twice and the mover fails; a publication does so after it has copied its
  file. `StepDuplicatesIff` says exactly when, `LateMoveDoubles` gives a run, `RebuildRestores` says
  how long it lasts.
- A publication whose record sweeps deferred twice while it copied its file loses the record with
  the source to the deferred one without it: its file is held for ever and, if nothing refers to
  it, never collected. `PublishedIsHeldIff` says exactly when.
- A workspace can leave a saved position that every later call refuses to read: not only with a
  directory more than 256 names deep, but with one directory whose name holds a backslash or is
  not UTF-8, which the writer accepts and the reader does not. `JamsIffUnreadable` says exactly
  when. A position of more than 32768 bytes cannot be written at all; its directory is never
  removed. `OverflowsIffUnwritable` says exactly when, `UnwritableStays` that it lasts. Either
  error ends the whole sweep, not only the look at that workspace.
- Ten mutations of a sweep are kept in reserve and an empty directory takes four, so under a
  budget below fourteen no sweep ever gets past an empty directory. `WorkspaceSweeps.Examine`
  states it.

## Model

| member | source | states |
|---|---|---|
| LeaseRuns.RunKeeps | worker/src/wheelforge_worker/jobs/repository.py:345-862 | every run of claims, heartbeats, retries, failures, cancels, advances, publications, submissions, cancel requests and clock ticks keeps the invariant over jobs, tasks, files, artifacts and issued leases |
| LeaseRuns.NonOwnerChangesNothing | worker/src/wheelforge_worker/jobs/repository.py:1154-1191 | fencing: an operation under a lease that does not own its job changes no row at all and does not report success |
| LeaseRuns.OwnerIsLatest | worker/src/wheelforge_worker/jobs/repository.py:1255-1263 | only the most recently issued lease of a job can own it |
| LeaseRuns.AtMostOneOwner | worker/src/wheelforge_worker/jobs/repository.py:345-430 | of all leases ever issued, at most one owns a given job at any time |
| LeaseRuns.LeaseActionKeeps | worker/src/wheelforge_worker/jobs/repository.py:417-862 | an owner's operation touches its own job, subject and artifacts only, keeps the invariant, and may keep or drop the execution shown but never install another |
| LeaseRuns.ClaimNextKeeps | worker/src/wheelforge_worker/jobs/repository.py:345-415 | a claim, granting or exhausting the row it meets, keeps the invariant |
| LeaseRuns.PublishKeeps | worker/src/wheelforge_worker/jobs/repository.py:1005-1061 | a publication completes the job and its task together, with exactly one artifact row of the task, or changes nothing; it keeps the invariant and touches no other rows |
| LeaseTheorems.BuildRowsAgree | worker/src/wheelforge_worker/jobs/repository.py:643-1061 | in every reachable state a build is COMPLETED exactly when its task succeeded in full or part and exactly one artifact row exists; FAILED and CANCELLED match the task's and have none; READY and RUNNING have a non-terminal task |
| LeaseTheorems.AttemptsCountLeases | worker/src/wheelforge_worker/jobs/repository.py:345-415 | attempts equal the number of leases issued for the job, never pass the maximum, and a READY job has one left |
| LeaseTheorems.TerminalJobsStay | worker/src/wheelforge_worker/jobs/repository.py:1265-1334 | a job in a terminal status keeps its whole row through any continuation |
| LeaseTheorems.TerminalTasksStay | worker/src/wheelforge_worker/jobs/repository.py:1297-1334 | a build's task never leaves a terminal status, whatever late holders attempt |
| LeaseTheorems.LostForever | worker/src/wheelforge_worker/jobs/repository.py:1154-1191 | a superseded or expired lease never owns its job again, in any continuation |
| LeaseTheorems.OwnerKeepsTheJob | worker/src/wheelforge_worker/jobs/repository.py:345-430 | until its lease runs out, nothing others do takes a job from its owner or changes its row: not claims, late holders, retention or cancel requests |
| LeaseTheorems.RenewalIsHonoured | worker/src/wheelforge_worker/jobs/repository.py:417-430 | a worker that renews its lease owns its job for the whole of the next lease period, whatever the others do |
| LeaseTheorems.PublishCompletesIff | worker/src/wheelforge_worker/jobs/repository.py:1005-1061 | the owner of a claimed build completes its job by publishing exactly when cancellation was not requested and neither the id nor the key of its artifact is taken |
| LeaseEffects.RetryIff | worker/src/wheelforge_worker/jobs/repository.py:449-504 | an owner's retry makes the job READY exactly when the error is retryable and an attempt is left, from now plus the delay on and with its attempts kept; any other ends the job as FAILED and its task or file with it |
| LeaseEffects.RetryWaits | worker/src/wheelforge_worker/jobs/repository.py:449-504 | after a retry no run of anybody hands out the job before the delay has passed |
| LeaseEffects.DelayIsHonoured | worker/src/wheelforge_worker/jobs/repository.py:270-290 | no run hands out a waiting job before the moment from which it is available; until then its row is unchanged or cancelled |
| LeaseEffects.FailEndsBoth | worker/src/wheelforge_worker/jobs/repository.py:506-529 | an owner's failure ends the job and its task or file together, whatever they had reached, and leaves every other row |
| LeaseEffects.ClaimBuildIff | worker/src/wheelforge_worker/jobs/repository.py:643-764 | the owner's claim is granted exactly when binding, parsed file and snapshot are good and the task is queued, for a first lease, or shows the execution this lease replaced |
| LeaseEffects.ClaimedBuild | worker/src/wheelforge_worker/jobs/repository.py:643-764 | a granted claim binds the task to the execution, moves it to RESOLVING and leaves every other row |
| LeaseEffects.RefusedBuild | worker/src/wheelforge_worker/jobs/repository.py:1193-1223 | a claim that is refused, even after the task was bound, ends job and task as failed |
| LeaseEffects.ClaimParseIff | worker/src/wheelforge_worker/jobs/repository.py:531-580 | the claim of a requirement file is granted exactly when it is pending, or being parsed for a takeover; otherwise job and file fail |
| LeaseEffects.CompleteParseIff | worker/src/wheelforge_worker/jobs/repository.py:585-641 | job and file complete exactly when the file is being parsed; otherwise every row stays |
| LeaseEffects.CancelIff | worker/src/wheelforge_worker/jobs/repository.py:785-821 | the owner cancels job and task exactly when it claimed the build and was asked to stop; otherwise every row stays |
| LeaseEffects.AdvanceIff | worker/src/wheelforge_worker/jobs/repository.py:823-862 | an owner that claimed the build gives the task the status asked for, renews the lease for a whole period and adds one line above all others of the task; for any other it raises and every row stays |
| LeaseEffects.LogIff | worker/src/wheelforge_worker/jobs/repository.py:864-878 | an owner that claimed the build adds one line and nothing else; any other raises |
| LeaseEffects.PersistIff | worker/src/wheelforge_worker/jobs/repository.py:880-1003 | an owner that claimed the build replaces its packages and adds one line; any other raises and every row stays |
| LeaseEffects.PublishIff | worker/src/wheelforge_worker/jobs/repository.py:1005-1061 | answers no when the build was not claimed by this lease or is to stop, raises on a clash, and changes nothing then; otherwise ends both rows with one artifact more |
| LeaseEffects.EndedSubjectsStay | worker/src/wheelforge_worker/jobs/repository.py:1297-1334 | in any state at all, failing a job leaves a subject that has ended as it is |
| LeaseEffects.EndedTasksAreNotMovedOn | worker/src/wheelforge_worker/jobs/repository.py:823-862 | in any state at all, moving on a task that has ended raises and changes nothing |
| LeaseEffects.OthersSubjectsStay | worker/src/wheelforge_worker/jobs/repository.py:1225-1252 | in any state at all, a retry frees no subject that its lease does not hold |
| LeaseEffects.RequestCancelIs | backend/src/main/java/com/wheelforge/api/build/BuildTaskService.java:112-133 | a request to stop ends a queued build at once, marks one under way, and leaves one that has ended |
| LeaseEffects.RequestedNeverCompletes | worker/src/wheelforge_worker/jobs/repository.py:1005-1061 | a build asked to stop before it ended never completes, whatever anybody does afterwards |
| LeaseEffects.GrantIs | worker/src/wheelforge_worker/jobs/repository.py:380-415 | the lease handed out carries the next attempt, lasts a whole period and names the execution it replaces exactly when it takes over from one that ran out |
| LeaseEffects.RepliesTellTheOwner | worker/src/wheelforge_worker/jobs/repository.py:1154-1191 | in any state at all, an operation whose lease is not the one the running row shows, or has run out, changes nothing; heartbeat, failure and retry succeed exactly otherwise; without ownership the steps of a build's log raise and every other operation answers no |
| LeaseEffects.ExhaustionIs | worker/src/wheelforge_worker/jobs/repository.py:1193-1223 | a row without an attempt left, which only an expired lease leaves behind, ends as failed together with its subject |
| LeaseTakeovers.TakeoverIffPredecessorClaimed | worker/src/wheelforge_worker/jobs/repository.py:643-766 | a reclaimed lease can claim a validly bound build exactly when the holder it replaces had claimed it; otherwise its claim fails the job |
| LeaseTakeovers.TakeoverCanDoomAJob | worker/src/wheelforge_worker/jobs/repository.py:1193-1223 | a reachable state in which a rightful owner with an attempt left fails the job for good by claiming its build |
| LeaseTakeovers.UnclaimedTakeoverIsReached | worker/src/wheelforge_worker/jobs/repository.py:345-415 | that state is reached by two claims around an expiry, starting from a parsed requirement file |
| LeaseTakeovers.OneParsedFileIsReached | worker/src/wheelforge_worker/jobs/repository.py:345-415 | the parsed requirement file that the build runs start from is reached from an empty database |
| LeaseTakeovers.RetryRequeuesIff | worker/src/wheelforge_worker/jobs/repository.py:1225-1252 | a retry puts the task back to QUEUED without a holder exactly when the retrying lease had claimed it or it was still queued |
| LeaseTakeovers.RetryStrandsIff | worker/src/wheelforge_worker/jobs/repository.py:1225-1252 | a retry strands the build exactly when the retrying lease had not claimed the task and it was no longer queued |
| LeaseTakeovers.StrandedRetryIsFinal | worker/src/wheelforge_worker/jobs/repository.py:643-766 | in every continuation of such a retry the job does not complete, every claim of its build under any lease is answered no, and an owner that makes one fails the job |
| LeaseTakeovers.StrandedForGood | worker/src/wheelforge_worker/jobs/repository.py:345-862 | no transaction of anybody and no step of the environment ever frees a stranded build |
| LeaseTakeovers.RetriedTakeoverIsReached | worker/src/wheelforge_worker/jobs/repository.py:1225-1252 | a stranded build with an attempt left is reached by a claim, an expiry, a takeover and its retry |
| LeaseTakeovers.RetriedTakeoverIsStranded | worker/src/wheelforge_worker/jobs/repository.py:1225-1252 | and in it the task shows an execution that no later lease will match |
| LeaseTakeovers.ParseTakeoverIffParsing | worker/src/wheelforge_worker/jobs/repository.py:531-580 | a reclaimed lease can claim its requirement file exactly when the file is being parsed; otherwise its claim fails job and file |
| LeaseTakeovers.UnclaimedParseIsReached | worker/src/wheelforge_worker/jobs/repository.py:345-415 | two claims of a parse job around an expiry reach the state of the next row |
| LeaseTakeovers.ParseTakeoverCanDoomAJob | worker/src/wheelforge_worker/jobs/repository.py:531-580 | a reachable state in which a rightful owner with an attempt left fails a parse job for good by claiming its file |
| LeaseTheorems.BestReadyIsFirst | worker/src/wheelforge_worker/jobs/repository.py:270-290 | the READY row chosen is the first by priority, creation and identifier among those due |
| LeaseTheorems.BestExpiredIsFirst | worker/src/wheelforge_worker/jobs/repository.py:292-304 | the expired row chosen is the one whose lease ran out first |
| LeaseTheorems.CandidateIff | worker/src/wheelforge_worker/jobs/repository.py:345-380 | nothing is claimed exactly when no row is claimable, and an expired lease is taken over only when no READY row is due |
| JobRepositories.ClaimAllKeeps | worker/src/wheelforge_worker/jobs/repository.py:345-415 | the whole claiming loop, reading the clock at every pass, ends with a lease that owns its job or with no claimable row, and keeps the invariant |
| JobRepositories.JobRepository.ClaimNext | worker/src/wheelforge_worker/jobs/repository.py:345-415 | the loop computes that claim and terminates, because every exhausted row it meets leaves the active ones |
| JobRepositories.JobRepository.RetryOrFail | worker/src/wheelforge_worker/jobs/repository.py:449-504 | statement by statement, each guarded by its own ownership condition, the transaction that `LeaseEffects.RetryIff` describes |
| JobRepositories.JobRepository.ClaimParseSubject | worker/src/wheelforge_worker/jobs/repository.py:531-580 | binds the requirement file to the lease, or fails job and file |
| JobRepositories.JobRepository.CancelBuild | worker/src/wheelforge_worker/jobs/repository.py:785-821 | ends task and job together when cancellation was requested; the raise after the last statement cannot happen |
| JobRepositories.JobRepository.ClaimBuildSubject | worker/src/wheelforge_worker/jobs/repository.py:643-764 | binds the task to the lease, or fails job and task, as the protocol's transaction says |
| JobRepositories.JobRepository.AdvanceBuild | worker/src/wheelforge_worker/jobs/repository.py:823-862 | renews the lease, moves the task on and logs, or raises and leaves every row as it was |
| JobRepositories.JobRepository.AppendLog | worker/src/wheelforge_worker/jobs/repository.py:1099-1152 | appends the line numbered one above the largest of the task |
| JobRepositories.JobRepository.PublishArtifactTerminal | worker/src/wheelforge_worker/jobs/repository.py:1005-1061 | stores the artifact row and ends task and job in one transaction; a clash of keys raises and changes nothing, and the raise for lost ownership after the insertion cannot happen |
| JobRepositories.LogsStayNumbered | worker/src/wheelforge_worker/jobs/repository.py:1099-1152 | over every run, the log lines of a task are numbered 1, 2, 3, ... in the order written |
| SweepSafety.ArtifactsAreSafe | worker/src/wheelforge_worker/jobs/storage.py:1009-1201 | in every run of workers, retention and maintenance: a recorded artifact that is not retired, and one a live lease could still record, has its file; what the sweep may unlink is neither |
| SweepSafety.UnlinkableIsGarbage | worker/src/wheelforge_worker/jobs/maintenance.py:139-150 | with the clock read before the snapshot, what the sweep's own test lets it unlink is neither recorded nor still recordable |
| SweepSafety.RunKeeps | worker/src/wheelforge_worker/jobs/repository.py:1072-1097 | every run keeps what that argument rests on: each lease is dead, was seen alive, or is younger than the run's clock |
| SweepSafety.LiveLeasesAreSeen | worker/src/wheelforge_worker/jobs/repository.py:1072-1097 | the snapshot's first query returns the build of every lease that owns its job at that moment |
| SweepSafety.OnlyLiveLeasesAreSeen | worker/src/wheelforge_worker/jobs/repository.py:1072-1097 | and nothing else: it returns exactly the builds of the leases that own their jobs |
| SweepSafety.UnlinkableIff | worker/src/wheelforge_worker/jobs/maintenance.py:139-150 | what a run that reads everything at one moment may unlink is exactly what is old enough, in no row that counts and of no build whose lease owns its job |
| SweepSafety.CleanedHasNoFile | backend/src/main/java/com/wheelforge/api/artifact/ArtifactRetentionJob.java:84-98 | in every run, an artifact row is marked as cleaned only after its file is gone, and no worker ever writes that file again |
| SweepSafety.SnapshotProtectsOwners | worker/src/wheelforge_worker/jobs/repository.py:1072-1097 | a snapshot that shows the owner of a build's files as running protects its artifacts |
| SweepSafety.SameWriter | worker/src/wheelforge_worker/jobs/pipeline.py:671-674 | an artifact key names the execution that wrote it, so no two leases share a key |
| SweepSafety.SweptStaysUnrecorded | worker/src/wheelforge_worker/jobs/repository.py:1005-1061 | no continuation ever records a key that could not be recorded when the sweep unlinked it |
| SweepSafety.UnlinkableIsUnrecordable | worker/src/wheelforge_worker/jobs/storage.py:1009-1074 | whatever the sweep unlinks is such a key, before and after |
| Publication.RunsAreSafe | worker/src/wheelforge_worker/jobs/storage.py:660-797 | every interleaving of a publication with crashes, failures, sweeps cut short and other writers keeps the publication invariant |
| Publication.CanonicalIsWhole | worker/src/wheelforge_worker/jobs/storage.py:660-797 | in every such run the canonical name is absent, somebody else's, or holds the whole payload |
| Publication.ForeignNeverTouched | worker/src/wheelforge_worker/jobs/storage.py:1076-1201 | no step, failure handler or sweep touches a file that somebody else put in the directory |
| Publication.PublishedSurvives | worker/src/wheelforge_worker/jobs/storage.py:1076-1201 | a linked plain object survives every continuation, a linked artifact every one whose sweeps find it protected |
| Publication.SweepIsCautious | worker/src/wheelforge_worker/jobs/storage.py:1076-1201 | a sweep removes only the recorded file under the intent's two names, an artifact only when old and unprotected, never a linked plain object; "done" means the stage name is gone |
| Publication.SweepRestartsIff | worker/src/wheelforge_worker/jobs/storage.py:1076-1201 | a sweep stopped after any of its unlinks and run again leaves the same and reports the same, except exactly between the two names of an artifact whose stage belongs to a running execution |
| Publication.SweepRestarts | worker/src/wheelforge_worker/jobs/storage.py:1076-1201 | with a snapshot that protects the artifacts of running executions it always does, whatever it reports |
| Publication.StageGoesIff | worker/src/wheelforge_worker/jobs/storage.py:1076-1201 | exactly when a sweep unlinks the stage file: by marker or recorded source, age, running owner, and what has the canonical name |
| Publication.ObjectGoesIff | worker/src/wheelforge_worker/jobs/storage.py:1076-1201 | exactly when it unlinks the canonical file: the recorded artifact, old, referred to by no row and no running build |
| Publication.OutcomeIs | worker/src/wheelforge_worker/jobs/storage.py:1076-1201 | exactly when a sweep defers, holds or finishes a record |
| Publication.YoungOrActiveStageStays | worker/src/wheelforge_worker/jobs/storage.py:1131-1138 | a stage file that is young or of a running execution stays while its source is not recorded or the canonical name is free |
| Publication.YoungStageCanGo | worker/src/wheelforge_worker/jobs/storage.py:1076-1201 | once the source is recorded and the canonical name taken, even a young stage file of a running execution goes |
| Publication.PublishesIff | worker/src/wheelforge_worker/jobs/storage.py:660-797 | among sweeps that see its execution running, with no crash or failure, a publication loses neither stage file nor record, every step takes it on, and it goes through exactly when nobody else's file has its name as it links |
| Publication.SweepEventIs | worker/src/wheelforge_worker/jobs/storage.py:1076-1201 | a finished sweep drops the record exactly when it reports done, and one cut off before keeps it |
| Publication.LostStageFails | worker/src/wheelforge_worker/jobs/storage.py:660-797 | a publisher whose stage file is gone, or whose canonical name is taken, stops before it records or links anything |
| Publication.CopyingKeepsYoung | worker/src/wheelforge_worker/jobs/storage.py:1131-1138 | while it copies, its stage file is as young as its last chunk, and no sweep with an earlier cutoff takes it |
| Publication.OthersAreFree | worker/src/wheelforge_worker/jobs/storage.py:660-797 | the runs leave others free: to add a file under any other name, to take away what is not the publication's, to sweep whenever the publisher is gone or copying |
| Publication.FailureWithdraws | worker/src/wheelforge_worker/jobs/storage.py:660-797 | what a failure takes back before each step, and what it leaves to the sweep |
| Publication.SweepOfStopped | worker/src/wheelforge_worker/jobs/storage.py:1076-1201 | for every stopping point of an undisturbed publisher, exactly when one sweep finishes the record off and when it is held, with or without a stage file left behind |
| Publication.HeldForEver | worker/src/wheelforge_worker/jobs/storage.py:1076-1201 | a publication stopped between creating and marking its stage file is held by every sweep of every continuation, and so is one stopped before its source was recorded while nobody removes the other file that has its name |
| Publication.StoppedIsUnresolvable | worker/src/wheelforge_worker/jobs/storage.py:660-797 | which stopping points these are |
| Publication.StopsAreReached | worker/src/wheelforge_worker/jobs/storage.py:660-797 | those stopping points are the ones an undisturbed publisher passes through |
| Publication.DataRoot.Publish | worker/src/wheelforge_worker/jobs/storage.py:660-797 | the uncrashed publication runs the steps of the model; it leaves the whole payload under its name, or fails, leaving the other file alone, exactly when that name is taken; a plain object leaves no record either way, an artifact does |
| Publication.DataRoot.RecoverPublication | worker/src/wheelforge_worker/jobs/storage.py:1076-1201 | the recovery leaves in the directory, and reports, what the sweep's specification says |
| Quarantine.ExactlyOnePlace | worker/src/wheelforge_worker/jobs/storage.py:560-658 | interrupt an owned delete anywhere and sweep any number of times: every object seen is in exactly one of its name, the quarantine, unlinked, or taken by others |
| Quarantine.RunsAreSafe | worker/src/wheelforge_worker/jobs/storage.py:1203-1340 | every run of steps, failures, crashes, arrivals, rewrites and sweeps keeps that invariant, and unlinks at most the examined object; no object ever seen is forgotten |
| Quarantine.UnlinkedOnlyWhenUnchanged | worker/src/wheelforge_worker/jobs/storage.py:2409-2495 | an object is unlinked only by the delete itself, on finding it as it was when examined |
| Quarantine.NewerObjectStays | worker/src/wheelforge_worker/jobs/storage.py:1203-1340 | what stands at the original name after the object was moved away stays there: no restore overwrites it |
| Quarantine.SweepOfStopped | worker/src/wheelforge_worker/jobs/storage.py:1203-1340 | one sweep of a stopped delete puts the object back exactly when it is unchanged, its name is free and no conflict was noted; otherwise it is held |
| Quarantine.OutcomeIs | worker/src/wheelforge_worker/jobs/storage.py:1253-1271 | a record with metadata and no conflict mark is deferred exactly when it is new, its key referred to, its build seen running or its owner active; exactly when a record is held |
| Quarantine.DeferredIsUntouched | worker/src/wheelforge_worker/jobs/storage.py:1253-1271 | the sweep of such a record, cut off anywhere, leaves the whole state as it is, and so does that of one with the mark |
| Quarantine.WaitingStays | worker/src/wheelforge_worker/jobs/storage.py:1203-1340 | no run of sweeps whose views make the record wait, of other writers and of crashes moves its object or drops it |
| Quarantine.SweepDropsIff | worker/src/wheelforge_worker/jobs/storage.py:1203-1340 | a sweep drops its record exactly when it comes to its end and reports done, and then the quarantine is gone |
| Quarantine.OthersAreFree | worker/src/wheelforge_worker/jobs/storage.py:560-658 | the runs leave others free: to put a new object where none is, to take away or rewrite one, and to sweep whenever no delete is at work |
| Quarantine.FailureLeaves | worker/src/wheelforge_worker/jobs/storage.py:560-658 | what a failed delete takes back before the object was moved, and what it leaves to the sweep after that |
| Quarantine.SweepRestarts | worker/src/wheelforge_worker/jobs/storage.py:1203-1340 | a sweep cut short after any operation and run again ends as if it had not been |
| Quarantine.QuarantineRoot.DeleteIfOwned | worker/src/wheelforge_worker/jobs/storage.py:560-658 | the uninterrupted delete unlinks exactly an object that is still as examined; another one found in its place stays in quarantine |
| Quarantine.QuarantineRoot.RecoverQuarantine | worker/src/wheelforge_worker/jobs/storage.py:1203-1340 | the whole sweep of one record, as its specification says |
| QueueAccounting.EnqueueKeeps | worker/src/wheelforge_worker/jobs/segmented_queue.py:208-323 | after an enqueue the summary again equals the slots, within both limits |
| QueueAccounting.CompleteKeeps | worker/src/wheelforge_worker/jobs/segmented_queue.py:413-460 | after a completion, of whatever record, the summary again equals the slots |
| QueueAccounting.FreeSlotExists | worker/src/wheelforge_worker/jobs/segmented_queue.py:243-317 | while the limits leave room the wrapping probe finds a free slot: the "no free slot" failure is unreachable |
| QueueAccounting.ProbeFinds | worker/src/wheelforge_worker/jobs/segmented_queue.py:250-314 | the probe stops at the first usable slot in ring order and gives up only after seeing none |
| QueueAccounting.EnqueueEffect | worker/src/wheelforge_worker/jobs/segmented_queue.py:208-323 | the disk after a whole enqueue: one record more under the next sequence, or nothing but one capacity event more |
| QueueAccounting.EnqueueResultIs | worker/src/wheelforge_worker/jobs/segmented_queue.py:208-243 | exactly when an enqueue finds the record, refuses it as too large, is full, or stores it: found comes before too large, and too large before full |
| QueueAccounting.MoveOfFound | worker/src/wheelforge_worker/jobs/storage.py:2172-2192 | a move whose result is there already, as after one that was cut off, takes only the old record away |
| QueueAccounting.MoveSucceedsIff | worker/src/wheelforge_worker/jobs/storage.py:2172-2192 | a move succeeds exactly when the queue has room for one record more, although it would give back the slot it takes |
| QueueAccounting.FullQueueCannotMove | worker/src/wheelforge_worker/jobs/storage.py:2172-2192 | from any empty queue, whatever its record limit, one full of records is reached, and from there no record can be moved |
| QueueAccounting.MoveEffect | worker/src/wheelforge_worker/jobs/storage.py:2172-2192 | a whole move replaces the record by its next generation in the destination and leaves every other record |
| QueueRecovery.OneSurvivorPerId | worker/src/wheelforge_worker/jobs/segmented_queue.py:544-585 | a rebuild keeps exactly one record for every identifier, unchanged, and nothing outranks it |
| QueueRecovery.SurvivorsAreBest | worker/src/wheelforge_worker/jobs/segmented_queue.py:544-585 | without ties in rank the survivors do not depend on the order of the listing |
| QueueRecovery.RebuiltIsAccurate | worker/src/wheelforge_worker/jobs/segmented_queue.py:587-631 | the rebuilt summary has the counts and bytes of the slots and a next sequence above every stored one |
| QueueRecovery.RebuiltIs | worker/src/wheelforge_worker/jobs/segmented_queue.py:587-631 | the rebuilt summary keeps the count of refusals, numbers on right behind the newest record of all lanes, and begins each lane at its oldest record and writes behind its newest |
| QueueRecovery.TiesGoToTheLaterLane | worker/src/wheelforge_worker/jobs/segmented_queue.py:544-585 | between records of one identifier alike in generation and sequence, the one in the later lane survives |
| QueueRecovery.ReconcileIsIdempotent | worker/src/wheelforge_worker/jobs/segmented_queue.py:484-634 | rebuilding a rebuilt queue changes nothing |
| QueueRecovery.ReconcileRestarts | worker/src/wheelforge_worker/jobs/segmented_queue.py:484-634 | a rebuild stopped after any of its steps and run again, in any listing order, has the outcome of the uninterrupted one |
| QueueRecovery.ReconcileRuns | worker/src/wheelforge_worker/jobs/segmented_queue.py:484-634 | its single steps add up to that outcome |
| QueueCrashes.MoveCrash | worker/src/wheelforge_worker/jobs/storage.py:2172-2192 | stop a move after any step and rebuild: exactly one record with the identifier remains, the old one or the next generation in the destination; all others are untouched and the summary tells the truth |
| QueueRuns.RunsAreAccurate | worker/src/wheelforge_worker/jobs/segmented_queue.py:75-112 | over every run, of calls about whatever items, current or not, each cut off after any step, as may be the rebuilds of the restarts, the summary tells the truth about the slots and the limits hold |
| QueueRuns.StepKeeps | worker/src/wheelforge_worker/jobs/segmented_queue.py:208-460 | an event keeps that, alters no record, stores at most the one it is about, and takes none away but what it completes and what a later record of the same identifier replaces |
| QueueRuns.StepDuplicatesIff | worker/src/wheelforge_worker/jobs/storage.py:2172-2192 | an event leaves one record per identifier, exactly unless it is a move of an item whose slot holds another record, or is the one the move fills, while a copy of the item is elsewhere, the destination lane does not have the next generation, and there is room |
| QueueRuns.UniqueIff | worker/src/wheelforge_worker/jobs/storage.py:2172-2192 | identifiers stay unique through a run exactly when none of its events is such a move |
| QueueRuns.RebuildRestores | worker/src/wheelforge_worker/jobs/segmented_queue.py:484-634 | an event that comes to a rebuild, by itself, at a restart or on finding the slot empty, leaves one record per identifier, whatever there was before |
| QueueCrashes.RebuildsAgree | worker/src/wheelforge_worker/jobs/segmented_queue.py:484-634 | however often the rebuild is cut off and started over, the one that is through ends where the first would have |
| QueueRuns.NothingIsLost | worker/src/wheelforge_worker/jobs/segmented_queue.py:208-460 | a stored record, or a later one under its identifier, is there until that is completed, through any such run |
| QueueLateMoves.LateMoveDoubles | worker/src/wheelforge_worker/jobs/storage.py:660-797 | under any limits with room for four records: two publications whose records are deferred twice while they copy, and a third one; the run is reached from the empty queue and ends with two records of the first |
| QueueLateMoves.BothWaysDouble | worker/src/wheelforge_worker/jobs/storage.py:2172-2192 | its last move is one that doubles, and would be without the third publication, because it stores its record in the slot that was its own |
| QueuedPublications.DeferralsCount | worker/src/wheelforge_worker/jobs/storage.py:2016-2023 | over any run in which sweeps defer a record and whatever else happens to others, its generation counts the deferrals and it stays the only one |
| QueuedPublications.SourceIsKeptIff | worker/src/wheelforge_worker/jobs/storage.py:660-797 | after the publication has moved the record it began with, what is left of it has the source exactly if it was deferred less than twice |
| QueuedPublications.PublishedIsHeldIff | worker/src/wheelforge_worker/jobs/storage.py:1076-1201 | a published file is held by every sweep of every continuation exactly if its record was deferred at least twice while the file was copied |
| QueueOrder.PeekFinds | worker/src/wheelforge_worker/jobs/segmented_queue.py:326-360 | with an accurate summary a peek finds the first record from the head at once and the rebuild within it is never needed |
| QueueOrder.PeekIsOldest | worker/src/wheelforge_worker/jobs/segmented_queue.py:326-360 | in a lane filled in order it is the record with the smallest sequence |
| QueueOrder.PeekDueIsFirst | worker/src/wheelforge_worker/jobs/segmented_queue.py:363-410 | a peek for due records inspects no more than it may and returns the first due one among those in ring order; nothing, only if none of them is due, and with a large enough bound only if none in the lane is |
| QueueOrder.PeekDueRebuildsIff | worker/src/wheelforge_worker/jobs/segmented_queue.py:363-410 | a due peek asks for a rebuild exactly if the lane holds fewer records than the summary says and the peek may look at, and none of them is due |
| QueueOrder.FullWalk | worker/src/wheelforge_worker/jobs/segmented_queue.py:750-768 | once around the ring, from any head, meets every record of the lane |
| QueueOrder.CompleteRotates | worker/src/wheelforge_worker/jobs/segmented_queue.py:413-460 | whatever record of a lane is completed, its line goes on with those that were behind it, and those before it come last |
| QueueFifo.QueueIsLists | worker/src/wheelforge_worker/jobs/segmented_queue.py:208-460 | any run of enqueues, completions and moves of peeked records and rebuilds leaves the rings holding what three plain first-in first-out lists would hold |
| QueueFifo.CommandObeys | worker/src/wheelforge_worker/jobs/segmented_queue.py:208-460 | each single command does to the rings what it does to the lists, including every refusal |
| QueueStores.QueueStore.Enqueue | worker/src/wheelforge_worker/jobs/segmented_queue.py:208-323 | the search, checks and probe loop take exactly the filesystem steps of the specification and return its result |
| QueueStores.QueueStore.Complete | worker/src/wheelforge_worker/jobs/segmented_queue.py:413-460 | unlink and summary, or a refusal when the slot holds another record, or a rebuild when it is empty |
| QueueStores.QueueStore.Relocate | worker/src/wheelforge_worker/jobs/storage.py:2172-2192 | enqueue, then complete: exactly the steps of the specified move while the item is in its slot; with the slot emptied, enqueue and rebuild; with another record in it, enqueue and refusal |
| QueueStores.QueueStore.Peek | worker/src/wheelforge_worker/jobs/segmented_queue.py:326-360 | returns the first record of the line, or rebuilds when the summary claims records that are not there |
| QueueStores.QueueStore.PeekDueRecord | worker/src/wheelforge_worker/jobs/segmented_queue.py:363-410 | the loop returns what the specification of the due peek says |
| QueueStores.QueueStore.Reconcile | worker/src/wheelforge_worker/jobs/segmented_queue.py:484-634 | the scan, ranking, removals and sums take exactly the steps of the specified rebuild, or raise on too many records or bytes |
| WorkspaceTrees.TurnKeeps | worker/src/wheelforge_worker/jobs/storage.py:3666-3732 | each turn of the deletion keeps the stack naming a directory that is there and does exactly as much of the remaining work as it spends |
| WorkspaceTrees.JamsIffUnreadable | worker/src/wheelforge_worker/jobs/storage.py:3609-3634 | a saved stack that no later call can read is possible exactly when some directory's path can be written but not read: deeper than 256 names, or through a name that the reader refuses |
| WorkspaceTrees.OverflowsIffUnwritable | worker/src/wheelforge_worker/jobs/storage.py:3637-3647 | a position that cannot be saved comes up exactly when some directory's path exceeds the byte limit of the saved stack |
| WorkspaceTrees.UnwritableStays | worker/src/wheelforge_worker/jobs/storage.py:3637-3647 | and such a directory is never removed, in however many calls |
| WorkspaceTrees.BackslashJams | worker/src/wheelforge_worker/jobs/storage.py:3609-3634 | one directory whose name holds a backslash is enough to jam |
| WorkspaceTrees.DepthJams | worker/src/wheelforge_worker/jobs/storage.py:3609-3634 | so is a nest of 257 directories |
| WorkspaceTrees.SurrogateJams | worker/src/wheelforge_worker/jobs/storage.py:3609-3634 | and so is one whose name is not UTF-8, whatever byte it is |
| WorkspaceTrees.AccentedNamesOverflow | worker/src/wheelforge_worker/jobs/storage.py:3637-3647 | of directories with readable names of 127 two-byte characters, forty-three nested ones overflow the saved position and forty-two do not |
| WorkspaceTrees.WideNamesOverflow | worker/src/wheelforge_worker/jobs/storage.py:3637-3647 | of directories with readable names of 63 four-byte characters, forty-four nested ones overflow it and forty-three do not |
| WorkspaceTrees.LongNamesOverflow | worker/src/wheelforge_worker/jobs/storage.py:3637-3647 | a nest of 127 directories with readable names of 255 letters has a position that cannot be saved |
| WorkspaceTrees.FinishedMeansEmpty | worker/src/wheelforge_worker/jobs/storage.py:3666-3732 | when the loop reports completion nothing is left in the workspace |
| WorkspaceSweeps.Workspace.Clear | worker/src/wheelforge_worker/jobs/storage.py:3666-3732 | raises exactly on an unreadable saved stack or before a directory whose position cannot be saved; stays within entry, directory and mutation limits, leaves a saved stack that names a real directory, spends exactly the work it does, and makes progress whenever four mutations and a little time are left |
| WorkspaceSweeps.Workspace.Cleanup | worker/src/wheelforge_worker/jobs/storage.py:3520-3580 | retires, empties and removes a workspace of the expected identity within the budget; another identity is left alone, and an unreadable position is an error for ever |
| WorkspaceSweeps.Workspace.CleanAway | worker/src/wheelforge_worker/jobs/storage.py:3520-3580 | when every directory's path can be written and read, repeated calls with at least four mutations each remove the workspace, in a bounded number of calls, spending in all exactly what is left to do: two mutations a file, six a directory, four for the root |
| WorkspaceSweeps.Examine | worker/src/wheelforge_worker/jobs/storage.py:1790-1895 | only an old workspace of the recorded identity and of no running execution is touched, its remaining work falls by exactly the mutations spent on it, and its record is dropped exactly when it is gone; past an empty directory exactly when fourteen mutations are left |
| WorkspaceSweeps.Sweep | worker/src/wheelforge_worker/jobs/storage.py:1755-1909 | the ready lane, then the deferred one, is examined record by record until a counter, the clock or a failure stops it, and is reported exhausted only then; each look is decided by what was left at that moment; the workspaces end as the looks left them |
| WorkspaceSweeps.SweptMeans | worker/src/wheelforge_worker/jobs/storage.py:1755-1909 | of such a sweep: the workspace of a running execution is as before, and every abandoned, readable and writable one whose remaining work fitted what was left at its turn is gone, its record dropped |
| WorkspaceSweeps.WorkFalls | worker/src/wheelforge_worker/jobs/storage.py:1790-1895 | a workspace looked at has less left to do by exactly the mutations the look spent on it |
| Frontiers.EveryChoiceOnce | worker/src/wheelforge_worker/resolver/compatible.py:209-248 | the frontiers together visit every choice of versions except the originals, each exactly once: the product of (candidates + 1), less one |
| Frontiers.FrontierIs | worker/src/wheelforge_worker/resolver/compatible.py:284-345 | a frontier consists of the choices whose last departure from the originals is at its pin |
| Frontiers.ProductIs | worker/src/wheelforge_worker/resolver/compatible.py:291-298 | the prefixes of a frontier are all choices for the pins before it, each once |
| CompatibleResolvers.Search.Resolve | worker/src/wheelforge_worker/resolver/compatible.py:163-266 | what is attempted is a beginning of the plan; a success is the first trial of the plan the strict resolver accepts; exhaustion means it refuses every trial, every combination was visited, and all the readings this takes came before the deadline; no attempt begins after it; the limits are never passed |
| CompatibleResolvers.PlanIs | worker/src/wheelforge_worker/resolver/compatible.py:560-571 | the trials of the plan are the choices of versions, each on the sources that offer every version that is not the original |
| SearchOrder.PlanIsInOrder | worker/src/wheelforge_worker/resolver/compatible.py:268-345 | the plan is in order: the originals first, then by the last pin changed, then by the choices from the first pin on in the order of preference, each tuple on the sources in theirs; with its members this determines it |
| SearchOrder.VisitsInOrder | worker/src/wheelforge_worker/resolver/compatible.py:284-303 | the tuples are visited the sooner the fewer pins their frontier reaches, and within one in the order of its loops |
| CompatibleResolvers.Search.FindViable | worker/src/wheelforge_worker/resolver/compatible.py:306-323 | the sources that support a tuple, none of them filtered out for having been attempted before |
| CompatibleResolvers.Search.TryFrontier | worker/src/wheelforge_worker/resolver/compatible.py:268-345 | the nested loops over prefixes, candidates and sources try the frontier's part of the plan in order |
| CompatibleResolvers.Search.Guard | worker/src/wheelforge_worker/resolver/compatible.py:347-359 | halts with a timeout exactly when the deadline has passed, otherwise at the attempt limit exactly, each time for one reading of the clock |
| Candidates.CandidatesAreOrdered | worker/src/wheelforge_worker/resolver/candidates.py:24-63 | the list holds every eligible version and only those, in strict order: higher patches, lower patches, higher minors, lower minors, nearest first |
| Candidates.LeftOutIff | worker/src/wheelforge_worker/resolver/compatible.py:495-520 | an available version is offered exactly unless it is the original, leaves its major version, or its minor one within major version 0, or is a pre- or development release of a stable pin |
| SearchPins.PinIsGood | worker/src/wheelforge_worker/resolver/compatible.py:477-557 | the ordered candidates as the search sees them are distinct and none is the original: all eligible ones if there are no more than the limit, else the limit's number of most preferred ones |
| SearchPins.SearchIsGood | worker/src/wheelforge_worker/resolver/compatible.py:209-248 | so the results about the search hold of every list of pinned requirements |
| Candidates.PrecedesIsStrict | worker/src/wheelforge_worker/resolver/candidates.py:24-63 | that order is strict, so no version occurs twice |
| Constraints.ConflictIffUnsatisfiable | worker/src/wheelforge_worker/parser/requirements.py:279-305 | the quick conflict test is true exactly when no version at all satisfies all the constraints |
| Constraints.PinWitness | worker/src/wheelforge_worker/parser/requirements.py:279-293 | if any version satisfies the constraints, one of the pinned ones does |
| Constraints.BoundWitness | worker/src/wheelforge_worker/parser/requirements.py:295-305 | if any version satisfies the constraints, the highest lower bound satisfies them |
| Constraints.CompatibleIsARange | worker/src/wheelforge_worker/parser/requirements.py:279-305 | the compatible-release operator admits the versions of its epoch from its own on and short of the release whose last number but one is raised |
| Constraints.AdmitsIff | worker/src/wheelforge_worker/parser/requirements.py:279-305 | bounds compare public versions, a pin equality; a local label matters to a pin that has one and to nothing else |
| Versions.LessIff | worker/src/wheelforge_worker/parser/requirements.py:263-276 | epoch, then release, then suffix, then local label decide, the sequences by their first difference with missing numbers as zero |
| Versions.PrefixIsConvex | worker/src/wheelforge_worker/parser/requirements.py:295-305 | what lies between two releases with a prefix, in the zero-padded order, has the prefix |
| Versions.Chains | worker/src/wheelforge_worker/parser/requirements.py:263-276 | the version order is transitive, with equality only when both steps are equal |
| Requirements.DeduplicatedIsSorted | worker/src/wheelforge_worker/parser/requirements.py:263-276 | deduplication yields the specifiers in strict order of operator, version and text |
| Requirements.MergeIgnoresOrder | worker/src/wheelforge_worker/parser/requirements.py:263-276 | the merged text depends only on which specifiers there are, not on the order of the lines |
| LineMerging.ReadLines | worker/src/wheelforge_worker/parser/requirements.py:47-95 | for any notion of demands that can be met together, the loop accepts exactly the lines whose demands can be met per key and yields one item per key in first-seen order; otherwise it points at the first line at fault |
| Requirements.ParseRequirements | worker/src/wheelforge_worker/parser/requirements.py:37-95 | so for version constraints: exactly the files in which some version satisfies all lines of each name and marker |
| Requirements.ItemAdmitsWhatItsLinesAdmit | worker/src/wheelforge_worker/parser/requirements.py:76-88 | a merged item admits exactly the versions that all its lines admit |
| Topologies.Topology.Insert | worker/src/wheelforge_worker/validation/archive.py:911-931 | inserting into the tree of nodes refuses exactly the members that cannot be held together with one inserted before, for the reason met first: a file above, the same path with or without a core file, or something below a file |
| Topologies.RefusedIff | worker/src/wheelforge_worker/validation/archive.py:911-931 | there is such a reason exactly if some earlier member cannot be held together with the new one |
| Topologies.OrderDoesNotMatter | worker/src/wheelforge_worker/validation/archive.py:911-931 | whether all members can be held together does not depend on their order |
| ArchiveMembers.ValidateMembers | worker/src/wheelforge_worker/validation/archive.py:860-908 | accepts exactly the lists whose members are acceptable singly, in total and together, and otherwise reports the first fault of the first member with one; the later duplicate-name check never fires |
| ArchiveMembers.ReportIsUnique | worker/src/wheelforge_worker/validation/archive.py:860-908 | only one fault answers to that description |

## Left out

- `JobRepository.complete`: neither the pipeline nor the consumer calls it.
- SQL text, row locks, `SKIP LOCKED` and engine hints: each repository method is one serial transaction.
- The build log's text, levels and stages, resolution and package audit rows beyond their being replaced under the lease, and the resource limits read from configuration.
- When maintenance runs, its backoff after failures, stall counting and operational signals (`MaintenanceService.run_if_due`): only the order of clock, snapshot and sweeps within one run is modelled.
- A build's target snapshot that is text but no JSON, on which the claim raises instead of failing the job.
- System calls, extended attributes, file locks, fsync and its failures, capability probes and the Windows backend: single atomic steps under a held lock.
- Inode reuse, clocks that disagree between hosts, time zones and commits whose outcome is unknown.
- The legacy quarantine index and its migration, malformed queue or metadata records, names that are not regular files, and the pruning of empty artifact directories.
- QueueRuns.RunsAreAccurate: one process is assumed. After a call that was cut off, by a crash or an error, the next thing that happens to the queue is a rebuild; another process that goes on under the file lock, or the same one after an error, with the summary the call left behind is not modelled. It would give out a sequence again and count a record too few or too many until the next rebuild.
- Segment directories of the queue: an absent one reads as empty slots; their creation, removal and count, the bound on a rebuild's own mutations and the size limit of the stored summary are not modelled. A rebuild lists them in any order in the specification and in ascending order in the class; only ties in rank could tell the difference.
- QueueFifo.QueueIsLists: first-in first-out order is claimed when only peeked records are completed or moved, because completing another record moves the head past older ones; PeekDueIsFirst and NothingIsLost hold without that.
- QueueStores.QueueStore.Reconcile: what was removed before it raises on too many records is bounded, not listed step by step, because the steps then depend on where the count was passed.
- WorkspaceSweeps.Workspace.Clear: a crash between a removal and saving the position, and a directory that changes under the deletion are not modelled.
- WorkspaceSweeps.Sweep: what the two queue lanes hand out is an input; that a directory exists under both its own and its retired name, and the new modification time that a partial deletion gives a directory, are not modelled.
- CompatibleResolvers.Search.Resolve: how a pin's candidates are discovered, filtered by wheels and Python versions and bounded by the observation limit is an input, complete, incomplete or stopping the search; texts of rejections and results are not modelled.
- Requirements.ParseRequirements: decoding, logical lines, the PEP 508 grammar, markers, pip-safety checks of texts and the re-parsing of merged text are not modelled; a specifier is an operator, a version and its spelling.
- Versions.Chains: the suffix of a version is its comparison key and a local label a number, because only their order matters.
- Topologies.Topology.Insert: Unicode normalization, case folding and the Windows name rules are inputs: a path arrives as components with their folded form, or not at all.
- ArchiveMembers.ValidateMembers: ZIP structure, hashes, RECORD and metadata checks, and compression ratios that are not whole numbers.
- Wheel tags, pip, HTTP, report templates, scripts, the frontend, controllers, entities and authentication; of the API only submitting, requesting cancellation (backend/src/main/java/com/wheelforge/api/build/BuildTaskService.java:112-133) and artifact retention (backend/src/main/java/com/wheelforge/api/artifact/ArtifactRetentionJob.java:84-98) appear, as steps of the environment.
