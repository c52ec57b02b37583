# Apprafter backup runner: a verified model

This project models, in Dafny, the in-cluster backup runner (`cli/apprafter-backup`), the part of its engine
that stages and snapshots (`cli/backup-core`), and the rewrite that makes a documentation page's links absolute
(`docs/hooks/llm_export.py`), and proves what they promise for all inputs, all failures and all interleavings.

**The stop.** A run is stopped by a signal or by its staging directory growing past a limit, while the engine
thread is at work. Three contenders race over three lock-guarded objects. `HelperPods`, `ResticChildren` and
`Outcome` are one transition system each, one step per lock acquisition, request, spawn, reap or write, with the
apiserver's pods and the kernel's process table (zombies and pid reuse included) as part of the state. Each has an
inductive invariant. `StopProtocol` interleaves all three under the control flow that ties them together, and its
theorems hold of every state of every run, also after the process has exited. `StopHistory` and `CheckHistory` tell the
same runs with the actions they took, and account for the exit code, for all that reached the outside and for a passed
check from those actions. `StopTiming` bounds the waiting.

**The engine.** `BackupEngine` runs the sequential and the monolithic pass over a world in which any call may fail,
and relates them: what is in the repository wherever a run is cut off, that both capture the same tree, and what
each needs of the staging disk. `RunTag` is the tag codec and snapshot ownership in a shared repository.

**The algorithms.** `StatusRecord` (the merge over a whole history of records), `StagingUsage` (the disk-usage
worklist), `StderrCapture` (the bounded capture), `GetArgs` (the argument parser against the engine's argument
lists). `Markdown`, `PosixPath`, `LinkEdits`, `LineEdits`, `LinkRewriter`, `LinkTargets` and `PageRewrite` are the
link rewrite, from its regular expressions up to whole pages. The theorem that carries the rewrite is that
replacing a target leaves every code span before it, and every code span after it, exactly where it was, in spite
of the backtracking of the code-span pattern and of stray backticks inside targets.

`StopRuns` shows where these promises end, by runs of the whole system: a stop whose list did not settle, or whose
deletes did not go through, can leave a pod, and no other stop can, but for a pod spared because its own delete had
failed before; a failed wait can hide a running restic; one step record can be late, exactly if the engine had tested
the flag before the claim and writes after it (`LateIff`).

Where code and documentation disagree, the code is followed:

- `restic_child.rs` says that a child stays in the live set for exactly as long as it runs. After a failed `waitid` it
  is unlisted while it may still run, so that a stop can report every restic gone while one runs
  (`FailedWaitHidesAChild`). Whoever still runs then is a child whose wait failed (`EmptyMeansExited`).
- `stop.rs` says of the step records that nothing is written once the outcome is claimed. The test and the write are two
  steps, and a claim between them lets that one record through (`OneLateRecordHappens`); `LateIff` has the condition.
- `status.rs` says that non-object inputs to the merge fall back to the new data alone. An object merged with a
  non-object stays the old one (`MergeStatusData`).
- `llm_export.py` calls the two ways to a page's twin the same mapping. They differ on a page called just `.md` inside a
  directory, and on an index page behind a doubled slash, and on no other (`TwinsAgreeIff`, `TwinsDisagree`).

## Model

| member | source | states |
|---|---|---|
| `HelperPods.LiveHelperPods.constructor` | cli/apprafter-backup/src/stop.rs:124-136 | a new set is empty, open, with no apply in flight |
| `HelperPods.LiveHelperPods.Begin` | cli/apprafter-backup/src/stop.rs:152-162 | an apply is refused with nothing changed, exactly if the stop has begun; else it is listed and counted in one step |
| `HelperPods.LiveHelperPods.EndApply` | cli/apprafter-backup/src/stop.rs:141-146 | dropping the guard counts one apply down, never below zero |
| `HelperPods.LiveHelperPods.Forget` | cli/apprafter-backup/src/stop.rs:165-170 | a deleted pod leaves the list and nothing else changes |
| `HelperPods.LiveHelperPods.CloseSet` | cli/apprafter-backup/src/stop.rs:177-180 | closing keeps the list and refuses from then on |
| `HelperPods.StepKeepsInv` | cli/apprafter-backup/src/kube_rs_exec.rs:346-442 | every step of engine, apiserver and stop keeps: the counter counts exactly the open guard, every pod of this run still running is listed or its delete failed, and what each half of a stop has established |
| `HelperPods.StepCloses` | cli/apprafter-backup/src/stop.rs:177-220 | once the list is closed no step reopens it or begins an apply, and with none in flight no pod starts to run |
| `HelperPods.DoneStaysAll` | cli/apprafter-backup/src/stop.rs:436-484 | a stop's helper half, once done, stays as it is; it begins only by closing the list |
| `HelperPods.UsedIsAnswered` | cli/apprafter-backup/src/kube_rs_exec.rs:346-390 | a pod is used only once its apply was answered with it: usable, or a leftover met the second time |
| `HelperPods.EveryCallCleansUp` | cli/apprafter-backup/src/kube_rs_exec.rs:685-695 | however a call goes, it ends in the pod's own delete and only then forgets the pod; a delete that went through leaves no running pod |
| `ResticChildren.LiveResticChildren.constructor` | cli/apprafter-backup/src/restic_child.rs:56-66 | a new set is empty and open |
| `ResticChildren.LiveResticChildren.Start` | cli/apprafter-backup/src/restic_child.rs:143-164 | a start is refused exactly after the close, and a child that was spawned is listed under the same lock |
| `ResticChildren.LiveResticChildren.Unlist` | cli/apprafter-backup/src/restic_child.rs:174-178 | the pid leaves the set and nothing else changes; that it happens after the wait and before the reaping is in the steps |
| `ResticChildren.LiveResticChildren.CloseAndSignal` | cli/apprafter-backup/src/restic_child.rs:70-97 | the set is closed, each listed child gets the signal exactly once, nobody else does, and the count is theirs |
| `ResticChildren.StepKeepsInv` | cli/apprafter-backup/src/restic_child.rs:143-178 | every step, with kernel reaping and pid reuse, keeps: every listed pid is an unreaped child, no signal was misdirected, and what each release has established |
| `ResticChildren.StepStartsNothing` | cli/apprafter-backup/src/restic_child.rs:143-157 | after the close no step starts a restic |
| `ResticChildren.DoneStaysAll` | cli/apprafter-backup/src/restic_child.rs:295-324 | a finished release stays as it is; only the close begins one |
| `ResticChildren.OnlyListedRun` | cli/apprafter-backup/src/restic_child.rs:143-164 | beside a closed set only children listed at the close can run, and children whose wait has failed |
| `ResticChildren.EmptyMeansExited` | cli/apprafter-backup/src/restic_child.rs:295-324 | under a release that reported the set empty, whoever runs is a child whose wait failed; no child runs exactly if none of those does |
| `Outcome.OutcomeClaim.constructor` | cli/apprafter-backup/src/stop.rs:225-229 | a new claim is free |
| `Outcome.OutcomeClaim.Claim` | cli/apprafter-backup/src/stop.rs:230-233 | the swap every contender races on: the first caller wins, every later one loses, and the claim stays taken |
| `Outcome.StepKeepsInv` | cli/apprafter-backup/src/main.rs:194-350 | every step keeps: whoever is past the race is the one winner, all effects are the winner's, at most one late record, the phase leaves the check only after a pass, the exit code is the winner's |
| `Outcome.PhaseMovesOn` | cli/apprafter-backup/src/check.rs:146-241 | no step moves the phase back or takes back a passed check |
| `Outcome.OutcomeStays` | cli/apprafter-backup/src/stop.rs:225-257 | the winner stays the winner, and what has reached the outside stays there, in order |
| `Outcome.TasksMoveInOrder` | cli/apprafter-backup/src/stop.rs:485-525 | a stop comes to write, post or exit only through reading the phase |
| `StopProtocol.RunKeepsInv` | cli/apprafter-backup/src/stop.rs:436-525 | the joint invariant holds at every moment of every run: a stop acts only as the winner and records only when both its halves are done |
| `StopProtocol.RunIsBefore` | cli/apprafter-backup/src/stop.rs:436-525 | what no later moment of a run undoes: winner, effects, phase order, closed sets, finished halves |
| `StopProtocol.NoHelperPodLeft` | cli/apprafter-backup/src/stop.rs:152-220 | in every run: once a stop's list settled and its deletes went through, no helper pod this run began runs, then or ever after, a leftover's replacement included, but one whose own best-effort delete had failed by the time the list was taken |
| `StopProtocol.SignalsReachOwnChildren` | cli/apprafter-backup/src/restic_child.rs:70-97 | at every moment of every run a pid a stop may signal or kill is an unreaped child of the runner |
| `StopProtocol.EveryListedChildIsSignalled` | cli/apprafter-backup/src/restic_child.rs:143-164 | every start is refused or was listed before the close: none starts after it, and whoever still runs was listed then or had its wait fail; when the release is done every child listed was signalled and has left the set or been killed |
| `StopProtocol.EmptyMeansExited` | cli/apprafter-backup/src/restic_child.rs:295-324 | at every moment after a stop reported the set empty, no restic of the run is running exactly if no child whose wait failed is |
| `StopProtocol.OneOutcome` | cli/apprafter-backup/src/main.rs:194-306 | over a whole run at most one contender wins, everything recorded, posted and exited with is the winner's, and the code is the one its outcome calls for |
| `StopProtocol.AtMostOneLateRecord` | cli/apprafter-backup/src/main.rs:326-350 | over a whole run at most one of the engine's step records is written after the claim |
| `StopProtocol.LateIff` | cli/apprafter-backup/src/stop.rs:238-257 | a step record is written after the claim exactly if its test of the flag came before it: the engine stood ready to write at the moment of the claim and has moved on since; no other record is ever left to write |
| `StopProtocol.RunOutcomeIsItsOwn` | cli/apprafter-backup/src/main.rs:254-306 | an outcome the run claims for itself never came from a stop's refusal or signal |
| `StopProtocol.PruneOnlyAfterAPass` | cli/apprafter-backup/src/check.rs:146-241 | in every check run the phase only moves on; until the check has passed it stays there and a stop records a failed check; the prune is not entered, nor any restic of it started, nor one recorded as stopped, unless this run's check passed under enforcement |
| `StopProtocol.StoppedRunLeavesNothing` | cli/apprafter-backup/src/stop.rs:436-525 | what a stop that ended the process leaves behind at every later moment: its code, no restic started since, every listed one signalled and off the list or killed, none running that was not listed bar one whose wait failed, and no helper pod if settled and clean |
| `StopHistory.RunIsTrace` | cli/apprafter-backup/src/main.rs:111-306 | every run of the system has its actions, so what is said of all traces is said of all runs |
| `StopHistory.WorkIsAccounted` | cli/apprafter-backup/src/check.rs:146-241 | at every moment the stages the engine has ended, and how each ended, are what its place in the program calls for: after a failed check nothing, after a passed one the prune exactly if it is this Job's, then the figures |
| `StopHistory.EndIsAccounted` | cli/apprafter-backup/src/main.rs:194-350 | the process's end from the actions taken: with the engine, 0 exactly if the backup, or the check, went well, else 1; with the signal task 1, with the staging task 3; what ever reached the outside is at most the winner's record, at most its webhook, and that exit, and the engine posts only a failed backup, check or prune |
| `StopHistory.AWonRunIsRecorded` | cli/apprafter-backup/src/main.rs:326-350 | a check run that ends by itself has recorded every step there was to record, each once and in order |
| `CheckHistory.APassIsRestics` | cli/apprafter-backup/src/restic_child.rs:143-186 | whenever the check counts as passed, a restic spawned in this run's check stage was seen to exit, then reaped with success, then ended the stage, with no other start and no failure between |
| `CheckHistory.AFailureNeverPasses` | cli/apprafter-backup/src/check.rs:164-184 | no refusal, failed spawn, failed wait, failed exit or failed reaping of the check's restic leads to a pass, then or later |
| `CheckHistory.PruneRestsOnACheck` | cli/apprafter-backup/src/check.rs:186-204 | no restic of the prune is started but under enforcement and after such a pass |
| `CheckHistory.PruneCallsAreStarts` | cli/apprafter-backup/src/check.rs:186-204 | the count of the prune's restics is that of their starts |
| `StopRuns.CleanIffSettledAndDeleted` | cli/apprafter-backup/src/stop.rs:194-220 | for each way a helper half can end: no run of the whole system whose half ended so leaves a pod, exactly if the list settled and the deletes went through |
| `StopRuns.UnsettledLeaks` | cli/apprafter-backup/src/stop.rs:198-220 | a run in which the settle wait runs out, every delete succeeds, and the pod is created after them |
| `StopRuns.UncleanLeaks` | cli/apprafter-backup/src/stop.rs:436-484 | a run in which the list settles, a delete fails, and the pod runs on |
| `StopRuns.CutOffLeaks` | cli/apprafter-backup/src/stop.rs:436-484 | a run in which the outer bound passes before the list is taken |
| `StopRuns.EffectAfterExit` | cli/apprafter-backup/src/stop.rs:194-220 | a run in which a PATCH unanswered at the settle bound takes effect after the stop has ended the process |
| `StopRuns.SparedPodOutlives` | cli/apprafter-backup/src/kube_rs_exec.rs:685-695 | a run in which a pod whose own delete had failed, and that was forgotten for it, outlives a settled and clean stop |
| `StopRuns.FailedWaitHidesAChild` | cli/apprafter-backup/src/restic_child.rs:165-186 | a run in which a wait fails and the stop reports `Exited` while that child runs |
| `StopRuns.OneLateRecordHappens` | cli/apprafter-backup/src/stop.rs:238-257 | the bound of one late step record is met by a run |
| `StopRuns.BackupEnds` | cli/apprafter-backup/src/main.rs:254-306 | a run of a backup that went well, and one that did not, with all they record, post and exit with |
| `StopRuns.CheckEnds` | cli/apprafter-backup/src/check.rs:146-241 | a run of a check that passes, prunes and ends with 0 |
| `StopRuns.StopEnds` | cli/apprafter-backup/src/stop.rs:436-525 | a run in which a stop records, posts and ends the process with its code |
| `StopRuns.ReplacementHappens` | cli/apprafter-backup/src/kube_rs_exec.rs:346-442 | a run in which a leftover is deleted and replaced, the replacement listed and counted as its own apply |
| `StopTiming.HelperPodsToDelete` | cli/apprafter-backup/src/stop.rs:198-220 | the settle loop ends at the first poll with no apply in flight or past the bound, with the list as of then |
| `StopTiming.ReleaseRestic` | cli/apprafter-backup/src/restic_child.rs:295-324 | restic is killed only if it runs at a poll at or past the bound; what each result says of who ran when |
| `StopTiming.StopRun` | cli/apprafter-backup/src/stop.rs:61-99 | whatever times out the stop ends within max(10 s, 15 s + one poll) + 20 s + 45 s, under the 90 s grace; the settle wait is inside the helper bound, and the two halves cost the longer of them, not their sum |
| `BackupEngine.StageAndBackup` | cli/backup-core/src/engine.rs:984-1029 | one directory staged and backed up: what was staged, attempted and gained wherever it fails |
| `BackupEngine.StageClaim` | cli/backup-core/src/engine.rs:984-1019 | one claim staged, snapshotted and removed, the staging root empty again |
| `BackupEngine.StageClaims` | cli/backup-core/src/engine.rs:984-1019 | the claims in order; whatever fails, nothing after it is attempted and the repository lacks at most the last attempt |
| `BackupEngine.SequentialPass` | cli/backup-core/src/engine.rs:965-1044 | the calls in order: attempts are a prefix of the planned snapshots, the repository gains them but perhaps the last, and the staging root passes through a prefix of the planned states |
| `BackupEngine.RunSequential` | cli/backup-core/src/engine.rs:965-1044 | a run wherever it is cut off: all of that; the repository gains one snapshot a claim in turn, each holding exactly what that claim's extraction wrote, then the commit's; success means all of them; one tag, a manifest only on the whole; and its peak is within the largest part and within the monolithic one |
| `BackupEngine.RunMonolithic` | cli/backup-core/src/engine.rs:911-954 | at most one snapshot, and on success one that holds every claim's files, every artifact and the manifest, and nothing else |
| `BackupEngine.TagOfRun` | cli/backup-core/src/engine.rs:902-909 | the tag written out: identity and time, and the namespaces of a subset run only |
| `BackupEngine.ClaimIsHeld` | cli/backup-core/src/engine.rs:984-1009 | a claim's tree is its kind's directory with every path its extraction wrote, each as written last, and nothing else |
| `BackupEngine.CommitIsHeld` | cli/backup-core/src/engine.rs:634-798 | the commit's tree is the manifest's text and every artifact below its section |
| `BackupEngine.AllIsHeld` | cli/backup-core/src/engine.rs:911-942 | the monolithic tree is both, later claims and writes over earlier ones, sharing no path |
| `BackupEngine.BytesOfNew` | cli/backup-core/src/engine.rs:980-983 | a staged file counts its length, a directory nothing |
| `BackupEngine.PeakIsTheMost` | cli/backup-core/src/engine.rs:980-983 | a peak is reached at some moment and exceeded at none |
| `BackupEngine.ManifestIsLast` | cli/backup-core/src/engine.rs:1019-1036 | of the planned snapshots exactly the last holds the manifest, and all carry the run's tag |
| `BackupEngine.CommitPoint` | cli/backup-core/src/engine.rs:965-1044 | wherever a run is cut off: one tag; a manifest attempted means that every claim's snapshot is in the repository; a manifest present means that the run is complete |
| `BackupEngine.SequentialCapturesTheSame` | cli/backup-core/src/engine.rs:911-1029 | the sequential snapshots laid over each other in order are the tree the monolithic pass snapshots |
| `BackupEngine.OneDirectoryAtATime` | cli/backup-core/src/engine.rs:984-1019 | the staging root never holds more than one claim's tree or the commit tree |
| `BackupEngine.SequentialPeak` | cli/backup-core/src/engine.rs:984-1019 | the peak of staged bytes is that of the largest single part |
| `BackupEngine.CutShortPeaksLower` | cli/backup-core/src/engine.rs:984-1019 | a run cut short anywhere peaks no higher |
| `BackupEngine.SequentialNeedsNoMore` | cli/backup-core/src/engine.rs:911-1044 | the sequential peak never exceeds the monolithic one on the same answers, also when paths collide |
| `BackupEngine.MaximumAgainstSum` | cli/backup-core/src/engine.rs:911-1044 | with no file written twice the peaks are exactly the maximum and the sum of the trees' sizes |
| `RunTag.CheckUuid` | cli/backup-core/src/cluster.rs:65-80 | the test by groups decides exactly the positional 8-4-4-4-12 form of section 3 of RFC 4122 |
| `RunTag.HexIff` | cli/backup-core/src/cluster.rs:65-80 | a group's characters are the hexadecimal digits of either case |
| `RunTag.TagText` | cli/backup-core/src/cluster.rs:189-201 | the tag written out |
| `RunTag.TimesAreTimes` | cli/backup-core/src/cluster.rs:189-222 | the two forms the program writes its times in are times of section 5.6 of RFC 3339 |
| `RunTag.UidRoundTrip` | cli/backup-core/src/cluster.rs:88-97 | the UUID comes back from its tag, whatever follows |
| `RunTag.TimeRoundTripIff` | cli/backup-core/src/cluster.rs:189-222 | the time comes back exactly if the namespaces mark does not begin inside it |
| `RunTag.TimeRoundTrip` | cli/backup-core/src/cluster.rs:189-222 | for every UUID, RFC 3339 time and namespace list the instant parser is handed exactly that time |
| `RunTag.TagIsInjective` | cli/backup-core/src/engine.rs:902-909 | equal tags mean equal UUID, time and namespace list, for names without an underscore, which DNS labels are |
| `RunTag.SharedAreLegacy` | cli/backup-core/src/cluster.rs:99-180 | two clusters may both act on exactly the snapshots without any identity |
| `RunTag.NeverAnothers` | cli/backup-core/src/cluster.rs:99-180 | a snapshot tagged by a run of one cluster is never owned by another |
| `RunTag.OwnRunsIff` | cli/backup-core/src/cluster.rs:158-201 | a cluster recognises its own runs exactly if its identity is a UUID |
| `RunTag.Sort` | cli/backup-core/src/cluster.rs:144-156 | the sort returns a sorted permutation |
| `RunTag.Dedup` | cli/backup-core/src/cluster.rs:144-156 | a sorted list loses its repeats and nothing else |
| `RunTag.ClusterUidsIn` | cli/backup-core/src/cluster.rs:144-156 | the list holds exactly the UUIDs some snapshot carries, each once, in order |
| `RunTag.LessIff` | cli/backup-core/src/cluster.rs:144-156 | the order sorted by is that of bytes: a proper beginning first, otherwise the first difference decides |
| `RunTag.SortedListIsUnique` | cli/backup-core/src/cluster.rs:139-156 | there is only one such list, so the order of the listing does not matter |
| `StatusRecord.MergeStatusData` | cli/apprafter-backup/src/status.rs:31-55 | the loops compute the merge: the old figures moved aside under a new reading, then the new fields over the old; a non-object on either side |
| `StatusRecord.MoveFigures` | cli/apprafter-backup/src/status.rs:42-49 | all figures of the old reading become the previous ones, or vanish with the ones before them |
| `StatusRecord.RecordsAreWellFormed` | cli/apprafter-backup/src/status.rs:115-160 | of the records written only a reading touches the repository's keys, and it names time and repository |
| `StatusRecord.StopTouchesOneStep` | cli/apprafter-backup/src/stop.rs:374-401 | a stop's record touches the step it names and no other, and is empty exactly when the phase is past both steps |
| `StatusRecord.CurrentFigures` | cli/apprafter-backup/src/status.rs:31-68 | after any history the current figures are exactly those of the latest reading |
| `StatusRecord.PreviousFigures` | cli/apprafter-backup/src/status.rs:31-68 | and the previous ones exactly those of the reading just before it if both are of one repository, otherwise absent |
| `StatusRecord.FirstReading` | cli/apprafter-backup/src/status.rs:31-68 | after one reading onto any live record the previous figures are exactly that record's current ones if of one repository, otherwise absent |
| `StatusRecord.UnwrittenStays` | cli/apprafter-backup/src/status.rs:31-68 | a key no later record writes keeps its value |
| `StatusRecord.LastWriter` | cli/apprafter-backup/src/status.rs:257-288 | every other key holds its last writer's value |
| `StatusRecord.CheckShown` | cli/apprafter-backup/src/status.rs:115-125 | after any history the record says of the last check when it was, that it passed exactly if it did, and its error or none |
| `StatusRecord.PruneShown` | cli/apprafter-backup/src/status.rs:91-140 | and of the last prune its time, its word, its sentence and its Job |
| `StatusRecord.FailureKeepsSuccess` | cli/apprafter-backup/src/status.rs:257-288 | a failed run keeps when the last success was, beside its own time and error |
| `StatusRecord.SuccessClearsError` | cli/apprafter-backup/src/status.rs:257-288 | a successful run clears the error and keeps when it last failed |
| `StatusRecord.FiguresShown` | cli/apprafter-backup/src/status.rs:143-160 | the latest reading is shown with its time, its repository and exactly the figures restic reported |
| `StatusRecord.StopSays` | cli/apprafter-backup/src/stop.rs:374-401 | what a stop's record says of the step it stopped |
| `StatusRecord.DisjointRecordsCommute` | cli/apprafter-backup/src/status.rs:31-55 | records with no key in common may be written in either order, readings included |
| `StagingUsage.Walk` | cli/apprafter-backup/src/staging.rs:69-95 | the worklist ends, meets every reachable path and counts each inode once |
| `StagingUsage.UsageBytes` | cli/apprafter-backup/src/staging.rs:69-95 | the result is min(2^64-1, 512 times the blocks of each distinct same-device inode reachable from the root) |
| `StagingUsage.ReachedIff` | cli/apprafter-backup/src/staging.rs:69-95 | what is reached is what can be walked down to: everything on the way there, on the root's device, each directory readable and listing the next name |
| `StagingUsage.TableIsUnique` | cli/apprafter-backup/src/staging.rs:69-95 | there is one table of inodes for what is reached, so the result is determined |
| `StagingUsage.AnyOrderReachesTheSame` | cli/apprafter-backup/src/staging.rs:86-92 | the order directory entries come in does not change what is reached |
| `StagingUsage.AnyOrderUsesTheSame` | cli/apprafter-backup/src/staging.rs:69-95 | two volumes that differ in that order only have one and the same total |
| `StderrCapture.Capture.constructor` | cli/apprafter-backup/src/kube_rs_exec.rs:903-909 | a new capture is that of the empty stream |
| `StderrCapture.Capture.Push` | cli/apprafter-backup/src/kube_rs_exec.rs:910-921 | a chunk fills the head first, then the tail, which keeps its end |
| `StderrCapture.PushKeeps` | cli/apprafter-backup/src/kube_rs_exec.rs:910-921 | what is kept of a stream becomes what is to be kept of the longer one, for chunks of any size |
| `StderrCapture.KeptExactly` | cli/apprafter-backup/src/kube_rs_exec.rs:850-853 | the first 2048 bytes, and of the rest the last 2048 |
| `StderrCapture.NothingElseIsLost` | cli/apprafter-backup/src/kube_rs_exec.rs:850-938 | head, omitted bytes and tail make up the stream; up to 4096 bytes it is kept whole and nothing counts as omitted |
| `StderrCapture.Drain` | cli/apprafter-backup/src/kube_rs_exec.rs:940-950 | draining a pipe keeps what is to be kept of everything read before the first empty read, end or error |
| `StderrCapture.CutsDoNotMatter` | cli/apprafter-backup/src/kube_rs_exec.rs:903-950 | two ways of cutting one stream into chunks end in the same capture |
| `GetArgs.ParseTokens` | cli/apprafter-backup/src/kube_rs_exec.rs:226-277 | the loop over tokens accepts exactly the readable lists and collects what they say |
| `GetArgs.ParseGetArgs` | cli/apprafter-backup/src/kube_rs_exec.rs:209-277 | the parser returns what the argument list means, said without reference to the loop; it accepts no list with an unknown flag or two positionals |
| `GetArgs.ParsesToOneThing` | cli/apprafter-backup/src/kube_rs_exec.rs:209-277 | an argument list means one thing only |
| `GetArgs.KindIff` | cli/apprafter-backup/src/kube_rs_exec.rs:230-260 | which words are which flags, and that every other word is a positional or unknown |
| `GetArgs.ShapeIff` | cli/apprafter-backup/src/kube_rs_exec.rs:263-277 | for each of the four shapes, exactly the argument lists that give it |
| `GetArgs.ListsRoundTrip` | cli/backup-core/src/engine.rs:362-375 | the engine's cluster and namespace lists come back as built |
| `GetArgs.NamedRoundTrip` | cli/backup-core/src/engine.rs:414-423 | a named get comes back, with the name on either side of the namespace, exactly if the name does not start with a dash |
| `GetArgs.ClusterScopedRoundTrip` | cli/backup-core/src/engine.rs:333-340 | so does a cluster-scoped get |
| `Markdown.SpanIff` | docs/hooks/llm_export.py:287-287 | with all its backtracking the code-span pattern matches at a backtick exactly if another stands two places on or further |
| `Markdown.SpanIsExact` | docs/hooks/llm_export.py:287-287 | and where it ends: at the first closing of the longest opening run that closes at all |
| `Markdown.LinkAtIff` | docs/hooks/llm_export.py:278-282 | a target is what stands between `](` and the next `)`, if anything does |
| `Markdown.LinksAreTargets` | docs/hooks/llm_export.py:278-282 | the links found are those targets, leftmost first, none within another |
| `Markdown.FenceIff` | docs/hooks/llm_export.py:293-293 | a fence line is blanks and tabs, then three backticks or three tildes |
| `Markdown.AbsoluteIff` | docs/hooks/llm_export.py:296-296 | an absolute target begins with `#`, with `//`, or with a lowercase scheme and its colon |
| `Markdown.PiecesAreTheLine` | docs/hooks/llm_export.py:323-334 | prose and code spans, in order, are the whole line |
| `Markdown.PiecesAreCutting` | docs/hooks/llm_export.py:323-334 | the pieces are cut where spans begin and end, with no span beginning in any prose |
| `LinkEdits.EditKeepsSpan` | docs/hooks/llm_export.py:284-287 | replacing text after a code span by text without backticks leaves it the span it was, whichever run the backtracking settled on |
| `LinkEdits.ProseKeeps` | docs/hooks/llm_export.py:323-334 | rewriting all links of a stretch of prose keeps every span before it, or the want of any, also with stray backticks in the targets |
| `LinkEdits.LinksOfSub` | docs/hooks/llm_export.py:278-282 | the links of a rewritten text are the rewritten links, in order |
| `LineEdits.PiecesOfRewritten` | docs/hooks/llm_export.py:323-334 | a rewritten line is cut into prose and code where the line was, with every code span unchanged |
| `LineEdits.LineLinksRewritten` | docs/hooks/llm_export.py:323-334 | the links of a rewritten line are its links, rewritten |
| `LineEdits.RewrittenCompose` | docs/hooks/llm_export.py:323-334 | rewriting a line twice is rewriting it once by the composition |
| `LineEdits.FenceOfRewritten` | docs/hooks/llm_export.py:293-293 | a rewritten line is a fence line exactly if the line was |
| `LinkRewriter.AbsolutiseIsAbsolute` | docs/hooks/llm_export.py:299-320 | a rewritten target reads as absolute if the site's address does |
| `LinkRewriter.AbsolutiseKeepsTicks` | docs/hooks/llm_export.py:299-320 | resolving a target keeps the backticks it has side by side, or loses them all |
| `LinkRewriter.RewriterIsFine` | docs/hooks/llm_export.py:299-320 | no target gains a parenthesis, a newline or a backtick, or becomes empty |
| `LinkRewriter.HarmlessIff` | docs/hooks/llm_export.py:278-287 | what is asked of the address and the path: no backtick, closing parenthesis or newline |
| `LinkRewriter.FindSpan` | docs/hooks/llm_export.py:327-327 | the next span found is the leftmost one left |
| `LinkRewriter.RewriteLine` | docs/hooks/llm_export.py:323-334 | the loop over spans computes: prose rewritten, code copied |
| `LinkTargets.TwinsOfUrlAgreeIff` | docs/hooks/llm_export.py:224-275 | a twin's place by URL is its place by rendered path, exactly if the URL does not end in two slashes |
| `LinkTargets.TwinsAgreeIff` | docs/hooks/llm_export.py:252-275 | for every source page a link looks for the twin where the build writes it, exactly if the path does not end in `/.md`, `//index.md` or `//README.md` |
| `LinkTargets.TwinsDisagree` | docs/hooks/llm_export.py:252-275 | the page `a/.md`: linked to as `a.md`, written to `a/.md` |
| `LinkTargets.TargetResolves` | docs/hooks/llm_export.py:299-320 | from any page, a relative target that climbs some directories and then descends becomes the site's address, the place that path is served from, and its fragment |
| `LinkTargets.IsRelative` | docs/hooks/llm_export.py:296-296 | a target that climbs, or whose first name has no colon, is relative |
| `LinkTargets.ServedExactly` | docs/hooks/llm_export.py:252-275 | an index page is served as its directory's twin, the root's as `index.md`, everything else where it is |
| `LinkTargets.LinkLeadsTo` | docs/hooks/llm_export.py:299-320 | the whole result written out, for every relative target between two places of the tree |
| `LinkTargets.ComponentLaws` | docs/hooks/llm_export.py:315-315 | empty and dot components do nothing, a name and the way back up cancel, nothing is above a root |
| `LinkTargets.LeadingSlashes` | docs/hooks/llm_export.py:315-315 | one leading slash stays one, two stay two, three or more are one |
| `LinkTargets.RootedTarget` | docs/hooks/llm_export.py:299-320 | a target from the root is resolved from the root, wherever the page is |
| `PageRewrite.RewriteLinks` | docs/hooks/llm_export.py:337-359 | the loop over lines computes: lines outside fences rewritten, the others copied |
| `PageRewrite.CodeIsUnchanged` | docs/hooks/llm_export.py:337-359 | the page keeps its lines; fences and fenced lines stay as they were, and every other line keeps all its code spans |
| `PageRewrite.OnlyTargetsChange` | docs/hooks/llm_export.py:337-359 | with every target blanked out the page and its rewriting are the same text |
| `PageRewrite.PageLinksRewritten` | docs/hooks/llm_export.py:337-359 | the page's links outside code are its links made absolute, one for one and in order |
| `PageRewrite.NoRelativeLinkSurvives` | scripts/docs-artefacts-check.py:304-320 | no relative link is left outside fences and code spans |
| `PageRewrite.CleanIffSiteIsAbsolute` | docs/hooks/llm_export.py:294-296 | that holds of every page exactly if the site's address reads as absolute itself, which an uppercase scheme does not |
| `PageRewrite.AbsolutePageIsUnchanged` | docs/hooks/llm_export.py:337-359 | a page without relative links is returned unchanged |
| `PageRewrite.RewriteIsIdempotent` | docs/hooks/llm_export.py:337-359 | rewriting a rewritten page changes nothing |

## Left out

- PageRewrite.NoRelativeLinkSurvives: asks that the site's address and the page's path hold no backtick, closing parenthesis or newline; the same holds for the other theorems of the rewrite.
- UsageBytes: its total is stated for volumes in which an inode reached by two paths has a link count above one and is no directory, and directories list each name once; termination and the bound hold without the first of these.
- MaximumAgainstSum: the exact sum asks that no file is written twice; the inequality in SequentialNeedsNoMore does not.
- NoHelperPodLeft: a pod the apiserver is already terminating counts as gone, and other creators of a pod of the same name are not modelled; a PATCH takes effect before it is answered or, unanswered, at any later time or never, but not after it was answered with an error.
- StopRun: polls take no time beside their sleeps, and the length of every request is a parameter.
- RemoveDir: a removal that fails halfway is taken to leave the directory whole, which can only overstate what is staged.
- TwinsAgreeIff: the rendered path of a page is taken to be its URL and `index.html`, as with directory URLs; how mkdocs names its output is not modelled.
- Capture.Push: the count of bytes is unbounded, where the program's would wrap after 2^64.
- APassIsRestics: what restic itself checked is not modelled; the work of a backup, and of a prune beside its restics, ends well or not as it may.
- TimeRoundTrip: the instant parser behind the tag is a parameter.
- Sort: the library's sort and dedup are written out as an insertion sort and a pass; only their results are promised.
- Per-claim extraction and the capture of the other artifacts (which resources are read, how they are filtered and rendered): taken as in-order writes of given files, so that two source credentials of one name still collide.
- Retention and pruning (`prune.rs`), restore, sealing, sanitising and the restic command lines: what they return is arbitrary here.
- The read, merge and apply of the status ConfigMap across processes: records are taken as applied one after another.
- Kubernetes transport, discovery, TLS, retries, the exec WebSocket and pod readiness: each call succeeds, fails or finds nothing.
- The webhook's content and every message's wording; rendering a captured stderr to text.
- The polling watch over the staging directory (`wait_for_overrun`) and its threshold test: the staging task may trigger at any moment.
- Configuration, images, the manifest's fields, the Backstage plugins, the landing site and the other documentation hooks.
