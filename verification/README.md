# SelfTune protocol model

A Dafny 4.11 model of the parts of SelfTune that have to be right across crashes, concurrent
processes and half-finished file operations, with proofs about all inputs and all runs.
`dafny verify dfyconfig.toml` checks everything.

| Files | What they model |
|---|---|
| `TeamAssignmentState`, `TeamAssignmentMachine`, `TeamAssignmentRuntime` | Installing and rolling back team assignments: intent, installer, binding, outbox, and the reconcile pass every entry point starts with |
| `DurableDecisionMachine`, `DurableDecisions` | Approvals that are decided once, by at most one callback, under a lock file |
| `FileTree`, `ConflictReplacement` | Replacing conflicting packages by a Skill Set, and putting them back |
| `Consolidation` | Archiving and linking duplicate installations, the undo of a failure, and the rollback |
| `Utf8`, `RevisionHistory` | Snapshots, numbered revisions, differences, restore, and the fingerprint cache |
| `Decimal`, `PromptIdentity`, `PromptLock` | Prompt ids, the rebuilding of a session counter, and its reservation under a lock directory |
| `RelayQueue`, `RelayDeliveries` | Staged contributions, the flushers that upload them, and how often the relay stores a row |
| `ReleaseGate` | Review, draft, evaluation and release of a synthesized skill |
| `Lexicographic`, `Text`, `Crontab` | The order of texts, and the managed block of a crontab |
| `IsoWeek` | The week label of a contribution |
| `Semver`, `UpdateCheck` | Version precedence, and how often the update check asks the registry |
| `StableVersion`, `ReleaseManifests` | Stable release versions, the next version, and the manifests that carry it |
| `Wrappers` | Optional values and results |

How the protocols are modelled. A step is the code between two places where the program waits or
where another process can get in: one file replaced, one row updated, one call of the installer.
`Team assignment` and `durable decisions` are classes whose every durable write appends to a
ghost trace, and the class invariant says that this trace is a run of the state machine beside
it; a crash is a prefix of a run followed by `Restart`. Interleaving flushers, lock holders and
release tasks are state machines over actions. File transactions are methods over a file system
that take the point of failure as a parameter.

What is abstract. The installer, the Skill Set apply, the evaluator, the registry, the relay and
the cloud are parameters or environment choices with the contracts their callers rely on: the
installer activates all expected receipts or none and rolls back all or none, different
assignments own disjoint receipts, a rename is atomic, an exclusive create succeeds for one
caller, a guarded row update is one step. Digests are injective, so they are modelled by the
content they stand for. Clocks and randomness are parameters.

## What does not hold as one might expect

Each of these is stated exactly in the member named, with an example where it fails.

- An install interrupted before its installer acted, while an older release is installed, is
  reconciled to a `current` binding of the older release: `current` does not mean that all
  expected receipts are active (`CurrentAfterReconcile`, `InterruptedUpgradeKeepsOlderRelease`).
- A conflicting package that is a link, and leads nowhere from its backup, is never restored,
  because the restore asks whether the backup exists and that question follows links. A relative
  link that works at its own place can be one (`RestoreUndoesMoves`, `LinkToNothingStaysInBackup`,
  `RelativeLinkStaysInBackup`).
- A failed approval or a rollback throws, with packages still in their backups, when a link to
  nothing stands where a directory package is to go (`RestoreThrowsExactly`,
  `LinkToNothingBlocksRestore`).
- Undoing a failed consolidation misses a package when the quarantine record could not be
  completed after the package was moved, or when a record left over from an earlier attempt was
  used again under its own id; and when the archive of such a record is occupied, the refused
  move deletes it (`Workspace.Approve`, `ExampleStranded`, `ExampleLeftoverRecord`,
  `ExampleArchiveDestroyed`).
- An installed package that is a relative link can be consolidated and then not rolled back, because
  the check of its archive follows the link from there (`Workspace.Rollback`, `ExampleRelativeLink`).
- A restored revision stays in place, although the call fails, when only the removal of the
  backup fails (`History.Restore`, `ExampleBackupRemovalFails`).
- A rebuilt prompt counter can be below an index in the database when the second of the two
  database queries fails and the log lags behind, and below an index in the default log when the
  database answers but does not know the session (`Derive`, `ExampleInterruptedDatabase`,
  `ExampleOwnLogNotConsulted`).
- A lock holder slower than the timeout can share its prompt index with the process that takes its
  lock: it does if nobody saved the counter between the two loads of it. Whatever the timing, the
  indices are consecutive if and only if everybody saves over the counter that it loaded
  (`ConsecutiveExactly`, `SharedExactly`, `SlowHolderDuplicates`).
- The relay can store a contribution more than once, with a single flusher too: once more for each
  time that a requeue put its row back while the relay had it or a flusher was about to upload it,
  and after any such step it can. A relay that stores nothing it holds never does
  (`RunAccounted`, `TwiceOnlyAfterPutBack`, `PutBackCanRepeat`, `StoredAgainExactly`, `StoredOnce`,
  `ExampleAnswerLost`, `TwoFlushersDeliverTwice`).
- A release has the bytes that the evaluation began with, which need not be the bytes the
  evaluator read (`EvaluatorReadReleased`, `EditedDuringEvaluation`).
- A begin marker without an end marker makes the next crontab merge delete the user's lines
  behind it (`MergeTwiceIfClosed`, `MergeTwice`, `UnclosedBeginLosesLine`, `ExampleUnclosedBegin`).
- The week label is wrong for the calendar years 0 to 99, which `Date.UTC` takes for 1900 to 1999
  (`BucketWeekIsIsoWeek`, `ExampleYearFifty`).
- Version comparison rounds prerelease numbers that are not safe integers, so it can take two
  different versions for the same, or decide by what stands behind two merged numbers. It never
  swaps two numbers, and it is precedence exactly for the other versions (`CompareVersions`,
  `ReadingNeverSwaps`, `VersionsKeptExactly`, `ExampleUnsafeVersionsEqual`).
- The update check's cache holds one channel only, so alternating channels are not limited, and a
  running version that cannot be parsed makes the cache unreadable (`Checker.Check`,
  `ExampleAlternatingChannels`, `ExampleUnreadableCache`).

## Model

| member | source | states |
|---|---|---|
| TeamAssignmentState.NextLifecycleSequence | packages/runtime/team-assignment.ts:585-598 | The next sequence is above the binding's, above every queued event's and above what the cloud observed for the assignment, and no higher than needed |
| TeamAssignmentState.CurrentReceiptSyncStatus | packages/runtime/team-assignment.ts:600-613 | The reported status is that of an outbox entry matching the binding, and synced when there is none |
| TeamAssignmentMachine.PersistWrites | packages/runtime/team-assignment.ts:658-689 | Recording a lifecycle event sets the binding, closes the open operation and adds exactly one outbox entry, not sent yet, with the time and the blocked skills of the event |
| TeamAssignmentMachine.CommitKeepsReceipts | packages/runtime/team-assignment.ts:1101-1160 | The installer acting for the open operation leaves every other assignment's current binding on active receipts |
| TeamAssignmentMachine.StepKeepsInvariant | packages/runtime/team-assignment.ts:658-1262 | Every durable step of install, rollback, reconcile and flush, and every step of installer and cloud, keeps the whole invariant |
| TeamAssignmentMachine.RunKeepsInvariant | packages/runtime/team-assignment.ts:775-1262 | The invariant holds in every state of every run, crashes included |
| TeamAssignmentMachine.AtMostOneOpenOperation | packages/runtime/team-assignment.ts:1145-1151 | No reachable state has more than one open install or rollback in total |
| TeamAssignmentMachine.CurrentBindingsNameActiveReceipts | packages/runtime/team-assignment.ts:621-656 | A reachable `current` binding without an open operation names only active receipts, and at least one |
| TeamAssignmentMachine.OutboxOnlyGrows | packages/runtime/team-assignment.ts:658-689 | Between any two states of a run no event is dropped or altered, no delivery is undone, and newer events of an assignment have larger sequences |
| TeamAssignmentMachine.BindingCarriesLargestSequence | packages/runtime/team-assignment.ts:585-689 | An assignment's sequences are pairwise distinct and its binding carries the largest |
| TeamAssignmentMachine.ExactlyOneMatchingEntry | packages/runtime/team-assignment.ts:531-689 | Every reachable binding has exactly one matching outbox entry |
| TeamAssignmentMachine.SyncedMeansAcknowledged | packages/runtime/team-assignment.ts:600-613 | `synced` is reported exactly when the event is marked delivered, and then the cloud acknowledged it; `failed` and `pending` tell whether a terminal failure is recorded |
| TeamAssignmentMachine.CurrentWasIntended | packages/runtime/team-assignment.ts:621-640 | Behind every `current` binding of every run stands an earlier recorded intent of that assignment and sequence, and the binding names exactly its receipts, terms and skill count |
| TeamAssignmentMachine.RolledBackWasRemoved | packages/runtime/team-assignment.ts:1219-1250 | Behind every rolled-back binding too, and at an earlier moment all of those receipts were removed |
| TeamAssignmentMachine.EventReportsBinding | packages/runtime/team-assignment.ts:531-571 | The event of every reachable binding tells the cloud the binding's scope, tools, skill count, times, rollback pointer and failure code; blocked skills and a failure code exactly for a failure |
| TeamAssignmentRuntime.Runtime.Reconcile | packages/runtime/team-assignment.ts:775-854 | A reconcile that returns has closed every open operation and changed exactly what its receipts demand, nothing if none was open; one that throws had an open operation and changed nothing in the store |
| TeamAssignmentRuntime.Runtime.ReconcileInstall | packages/runtime/team-assignment.ts:787-817 | The three outcomes of an interrupted install: finished when all expected receipts are active, dropped when nothing changed, failed otherwise |
| TeamAssignmentRuntime.Runtime.ReconcileRollback | packages/runtime/team-assignment.ts:818-852 | An interrupted rollback is recorded exactly when all receipts are removed, dropped exactly when all are active, and refused otherwise |
| TeamAssignmentRuntime.Runtime.FinalizeInstall | packages/runtime/team-assignment.ts:748-756 | Binding, outbox entry and the closing of the intent are one durable update; the binding names all receipts of the intent |
| TeamAssignmentRuntime.Runtime.RecordFailedInstall | packages/runtime/team-assignment.ts:758-773 | A failure is recorded with its event and closes the intent in the same update; the binding names no receipts, and the event blocks as many skills as should have changed, at least one |
| TeamAssignmentRuntime.Runtime.FlushOutbox | packages/runtime/team-assignment.ts:856-914 | The flush counts exactly the events it got acknowledged and those left, and changes neither bindings nor intents |
| TeamAssignmentRuntime.Runtime.PreviewInstall | packages/runtime/team-assignment.ts:944-1054 | A preview reconciles first; then each refusal exactly when, with the reconciled store left as it is, and otherwise exactly one preview added, with every receipt of the plan and what the caller chose |
| TeamAssignmentRuntime.PreviewIsReviewed | packages/runtime/team-assignment.ts:1064-1079 | A stored preview lets an install through exactly if the caller names what was previewed and the cloud still lists that request for those bytes |
| TeamAssignmentRuntime.Runtime.Install | packages/runtime/team-assignment.ts:1056-1193 | Every way an install ends, with the whole store it leaves relative to the reconciled one: untouched by a refusal, one open intent after a receipt mismatch, one failed or one current binding otherwise; a new current binding names exactly the receipts, terms and skill count that were previewed |
| TeamAssignmentRuntime.Runtime.Rollback | packages/runtime/team-assignment.ts:1195-1262 | Every way a rollback ends: untouched store by a refusal or local drift, exactly the open intent after an installer that throws, exactly the rolled-back binding otherwise, with all of its receipts removed |
| TeamAssignmentRuntime.CurrentAfterReconcile | packages/runtime/team-assignment.ts:787-817 | After a reconcile the interrupted assignment is `current` if and only if all expected receipts are active, or nothing changed and an older release was current |
| TeamAssignmentRuntime.InterruptedUpgradeKeepsOlderRelease | packages/runtime/team-assignment.ts:787-817 | A run that ends with a `current` binding although the expected receipts are not active |
| DurableDecisionMachine.StepKeepsInvariant | packages/runtime/durable-decisions.ts:80-243 | Every file operation and task step keeps lock ownership, the audit and the single approve in order |
| DurableDecisionMachine.OneApproveInFlight | packages/runtime/durable-decisions.ts:192-243 | At most one approve callback is in flight; it was entered before the expiry and reviews the pending decision |
| DurableDecisionMachine.TerminalStatusIsAbsorbing | packages/runtime/durable-decisions.ts:125-149 | A decided decision never changes again, through all interleavings and crashes |
| DurableDecisionMachine.AuditHasOneTerminalEvent | packages/runtime/durable-decisions.ts:125-149 | The audit is `prepared` and, once decided, exactly one terminal event naming the status |
| DurableDecisionMachine.DecidedByStep | packages/runtime/durable-decisions.ts:125-243 | Behind every decision of every run stands one step that made it, entry by entry: an expiry at or after the time, a decline, or a callback that was entered before the expiry |
| DurableDecisionMachine.ApprovedByCallback | packages/runtime/durable-decisions.ts:231-238 | Nothing is approved but by a callback that approves |
| DurableDecisions.Store.Get | packages/runtime/durable-decisions.ts:151-175 | Reading expires a decision exactly when it is overdue and unlocked, with the reason in failure and audit |
| DurableDecisions.Store.Decide | packages/runtime/durable-decisions.ts:192-243 | A call reaches its callback only with the lock held, on a pending decision, before its expiry; otherwise it leaves the decision, expires it when overdue, or declines it when asked to in time, and an answer is always a decided decision |
| DurableDecisions.Store.Poll | packages/runtime/durable-decisions.ts:205-232 | One turn of the waiting loop, with takeover of a dead owner's lock and an end after 200 attempts |
| DurableDecisions.Store.Complete | packages/runtime/durable-decisions.ts:217-243 | The callback's status, receipt, failure and reason are recorded once and the lock released, or nothing is recorded |
| FileTree.RenamedPackage | packages/runtime/skill-set-conflict-decisions.ts:267-275 | A renamed package is at its new place, node for node |
| ConflictReplacement.BackupsHoldPackages | packages/runtime/skill-set-conflict-decisions.ts:291-295 | After any number of moves each backup holds exactly what its target held when its turn came |
| ConflictReplacement.MovesOnlyEmpty | packages/runtime/skill-set-conflict-decisions.ts:291-295 | Moving empties the moved targets and changes nothing else outside the backups |
| ConflictReplacement.RestoringStep | packages/runtime/skill-set-conflict-decisions.ts:267-275 | One turn of the restore loop undoes the last move not yet undone, for equal and nested targets too |
| ConflictReplacement.RestoreUndoesMoves | packages/runtime/skill-set-conflict-decisions.ts:267-275 | The restore undoes the moves if and only if every moved package still exists in its backup |
| ConflictReplacement.RestoreAgainChangesNothing | packages/runtime/skill-set-conflict-decisions.ts:267-275 | Restoring twice is restoring once |
| ConflictReplacement.LinkToNothingStaysInBackup | packages/runtime/skill-set-conflict-decisions.ts:267-275 | A package that is a link to nothing is not restored |
| ConflictReplacement.RelativeLinkStaysInBackup | packages/runtime/skill-set-conflict-decisions.ts:267-275 | A package that is a relative link, which works at its place and leads nowhere from its backup, is not restored |
| ConflictReplacement.RestoreBackups | packages/runtime/skill-set-conflict-decisions.ts:267-275 | The loop restores from the last impact down and stops only at a directory whose target is a link to nothing |
| ConflictReplacement.RestoreThrowsExactly | packages/runtime/skill-set-conflict-decisions.ts:267-275 | The restore throws if and only if, at its start, a link to nothing stands on the target of a moved directory package and no package restored before lies over it |
| ConflictReplacement.StoppedMovesNeverThrow | packages/runtime/skill-set-conflict-decisions.ts:291-295 | After a move that failed the restore never throws |
| ConflictReplacement.ThrownHalfway | packages/runtime/skill-set-conflict-decisions.ts:267-275 | A restore that throws has lost nothing: packages behind the refused one are home, the others wait in their backups |
| ConflictReplacement.LinkToNothingBlocksRestore | packages/runtime/skill-set-conflict-decisions.ts:267-275 | An apply that leaves a link to nothing on the target of a directory package makes the restore throw |
| ConflictReplacement.Approve | packages/runtime/skill-set-conflict-decisions.ts:277-327 | Every failing approval: when it throws; that otherwise everything is undone exactly when all backups still exist; that without links all packages are back, or wait in their backups behind a refused one; that a failed move leaves the tree unchanged |
| ConflictReplacement.Rollback | packages/runtime/skill-set-conflict-decisions.ts:329-352 | Rolling back an approval ends as a failed approval does, with the same exact conditions; nothing is restored when the Skill Set rollback throws |
| Consolidation.Workspace.Quarantine | packages/runtime/skill-portfolio/quarantine.ts:178-351 | The four ways an archival ends, each exactly when: the first interrupted id of the package is used again, or else its own; the package is then in the archive and nothing else changed; a refused move removes the archive under that id |
| Consolidation.Workspace.Restore | packages/runtime/skill-portfolio/quarantine.ts:353-421 | An archive moves home exactly when its place is free and its content is the recorded one; a refusal changes nothing |
| Consolidation.Workspace.RemoveLinks | packages/runtime/consolidation-decisions.ts:277-298 | Exactly the linked paths that still lead to the library package lose their link |
| Consolidation.Workspace.RestoreAll | packages/runtime/consolidation-decisions.ts:288-306 | All archives move home if every one has a record under its reviewed id, else some package stays away |
| Consolidation.Workspace.Approve | packages/runtime/consolidation-decisions.ts:308-380 | After a failure the installations and archives are as before if and only if no package was stranded, no leftover record was used, and no refused move hit an occupied archive; after an approval every new link shows the canonical package, and the Library keeps it in any case |
| Consolidation.Workspace.Rollback | packages/runtime/consolidation-decisions.ts:382-427 | With links, archives and records untouched the rollback succeeds if and only if the archives verify and no leftover record was used, and then every package is back and nothing else changed |
| Consolidation.UntouchedArchivesVerify | packages/runtime/consolidation-decisions.ts:392-412 | Untouched archives of packages that are not links verify |
| Consolidation.ArchivedProgress | packages/runtime/consolidation-decisions.ts:337-358 | Archiving one more target keeps every earlier one undoable and every later one as reviewed |
| Consolidation.ExampleLeftoverRecord | packages/runtime/skill-portfolio/quarantine.ts:282-306 | A leftover record defeats the undo of a later failure |
| Consolidation.ExampleStranded | packages/runtime/skill-portfolio/quarantine.ts:327-342 | A record write that fails after the move strands the package |
| Consolidation.ExampleArchiveDestroyed | packages/runtime/skill-portfolio/quarantine.ts:282-342 | A package installed again over its own leftover record: the refused move deletes what was archived before |
| Consolidation.NoLeftoversNoLoss | packages/runtime/skill-portfolio/quarantine.ts:282-306 | Without leftover records for the reviewed packages neither of the last two can happen |
| RevisionHistory.TakeSnapshot | packages/runtime/skill-revision-history.ts:38-73 | A snapshot is returned exactly when the package has no links, only safe names, SKILL.md, and keeps both limits; it lists exactly its files |
| RevisionHistory.BytesOfAny | packages/runtime/skill-revision-history.ts:54-61 | The byte count does not depend on the order of the walk |
| RevisionHistory.SnapshotMoves | packages/runtime/skill-revision-history.ts:38-77 | A snapshot says what the package is, wherever it lies |
| RevisionHistory.WrittenSnapshot | packages/runtime/skill-revision-history.ts:211-216 | Writing a snapshot out and taking it again gives it back |
| RevisionHistory.History.Capture | packages/runtime/skill-revision-history.ts:131-145 | After a capture the latest revision holds what the package holds; all older ones are kept, and none is added exactly when it held the same and nothing was restored |
| RevisionHistory.History.Diff | packages/runtime/skill-revision-history.ts:172-198 | The diff lists every path whose file differs, once and in order, with its kind, text and mode, and no other path |
| RevisionHistory.DiffTellsAfter | packages/runtime/skill-revision-history.ts:172-198 | Between text files the older revision and the diff determine the newer one |
| Utf8.IsUtf8Exactly | packages/runtime/skill-revision-history.ts:184-185 | Bytes count as text exactly if they are the UTF-8 encoding of code points, as section 3 of RFC 3629 defines it |
| RevisionHistory.History.Swap | packages/runtime/skill-revision-history.ts:219-230 | The two renames and the record happen together or are undone |
| RevisionHistory.History.Restore | packages/runtime/skill-revision-history.ts:199-234 | Restoring is all or nothing at every failing step but the removal of the backup, which leaves the restored package; in both of these cases the previous content is in a revision before the last |
| RevisionHistory.ExampleBackupRemovalFails | packages/runtime/skill-revision-history.ts:222-230 | The call fails although the package is the restored one |
| RevisionHistory.History.Fingerprint | packages/runtime/skill-revision-history.ts:159-171 | If equal metadata means equal content so far, the fingerprint is the hash of the present package; the cache stays bounded |
| Decimal.ParsePrint | packages/runtime/normalization.ts:515-517 | A printed number is read back |
| PromptIdentity.RecoveredIndexIsPattern | packages/runtime/normalization.ts:164-169 | The recovered index is exactly what the pattern `:p` and digits up to the end matches |
| PromptIdentity.IdReadBack | packages/runtime/normalization.ts:515-517 | The recovery pattern reads back exactly the index an id was made from |
| PromptIdentity.IdInjective | packages/runtime/normalization.ts:515-517 | Different sessions or indices have different ids |
| PromptIdentity.ScanLog | packages/runtime/normalization.ts:139-188 | The scan gives the least counter above every index that a line of the session records or that its id ends in, and names the latest holders of the largest indices |
| PromptIdentity.Derive | packages/runtime/normalization.ts:106-188 | The rebuilt counter is above every index of the source that was used; after an interrupted database exactly when the log keeps up |
| PromptIdentity.ExampleInterruptedDatabase | packages/runtime/normalization.ts:120-138 | A counter that starts again below an index in the database |
| PromptIdentity.ExampleOwnLogNotConsulted | packages/runtime/normalization.ts:133-135 | A counter that starts again below an index in the default log |
| PromptLock.NextExclusive | packages/runtime/normalization.ts:204-242 | While locks are held only briefly, every step leaves the lock with its maker and takes it from nobody |
| PromptLock.MutualExclusion | packages/runtime/normalization.ts:299-344 | At most one process is between taking and releasing the lock |
| PromptLock.WaitingEnds | packages/runtime/normalization.ts:306-327 | A waiter makes the lock if there is none, takes it over only half a minute after the last sign of life, gives up at its deadline, and else waits on |
| PromptLock.RemovingLooked | packages/runtime/normalization.ts:333-339 | In any run, who is about to remove the lock has looked before, and then saw no lock with another owner |
| PromptLock.ReservationsAreConsecutive | packages/runtime/normalization.ts:346-367 | In any interleaving the k-th reservation gets the k-th index from the first one on |
| PromptLock.FirstReservation | packages/runtime/normalization.ts:244-272 | The first index is the counter's, or else one recovered from the records |
| PromptLock.ConsecutiveExactly | packages/runtime/normalization.ts:346-367 | In every run, slow holders included, the reserved indices are consecutive if and only if each save found the counter that its process had loaded |
| PromptLock.SharedExactly | packages/runtime/normalization.ts:346-367 | As long as the saves do, two processes have loaded one index if and only if nobody saved between their loads |
| PromptLock.SlowHolderDuplicates | packages/runtime/normalization.ts:288-325 | A run in which a holder slower than the timeout reserves the index of the process that took its lock over |
| RelayQueue.NextDelivered | packages/runtime/contribution-staging.ts:105-158 | No step of any flusher makes a row sent that the relay did not store |
| RelayQueue.RunInvariant | packages/runtime/contribution-staging.ts:78-158 | In every run of any number of flushers each key has one row and a sent row was stored by the relay |
| RelayQueue.RunGrows | packages/runtime/contribution-staging.ts:105-158 | Rows are never lost or altered and never leave `sent` |
| RelayDeliveries.RunAccounted | packages/runtime/contribution-staging.ts:105-158 | In every run the relay stores a row at most once, and once more for each time that a requeue put it back while the relay had it or a flusher was about to upload it |
| RelayDeliveries.TwiceOnlyAfterPutBack | packages/runtime/contribution-staging.ts:138-158 | A row stored twice was put back like that, and stored after it |
| RelayDeliveries.PutBackCanRepeat | packages/runtime/contribution-relay.ts:143-178 | After every such step of a row with a valid payload a state can be reached in which the relay has stored it twice |
| RelayDeliveries.StoredAgainExactly | packages/runtime/contribution-relay.ts:143-178 | From any state on a row can be stored once more if and only if its payload is valid, and it is not sent or a flusher is about to upload it |
| RelayDeliveries.StoredOnce | packages/runtime/contribution-relay.ts:95-98 | With a relay that stores nothing it holds, no run stores a row twice |
| RelayDeliveries.ExampleAnswerLost | packages/runtime/contribution-relay.ts:85-178 | One flusher: the answer to a stored upload is lost, the failed row is retried, and the relay has stored it twice |
| RelayDeliveries.TwoFlushersDeliverTwice | packages/runtime/contribution-relay.ts:137-178 | Two flushers: the second requeues and uploads the row that the first is about to upload, and the relay stores both |
| RelayQueue.PendingIdsAreOldest | packages/runtime/localdb/queries/staging.ts:49-62 | The rows taken are the oldest pending ones, and none is left while there is room |
| RelayQueue.Queue.StageSignals | packages/runtime/contribution-staging.ts:77-103 | Staging adds one row per new key, with its first record, and counts the rows added |
| RelayQueue.Queue.UploadRow | packages/runtime/contribution-relay.ts:157-177 | One row ends sent exactly if its payload decodes and the relay answers well, else failed with the relay's error or that of the payload |
| RelayQueue.Queue.Flush | packages/runtime/contribution-relay.ts:116-190 | With one flusher attempted is sent plus failed, which are the numbers of taken rows with that status; every taken row has the status of its answer, other rows are only requeued, and no row is left sending |
| ReleaseGate.NextGateFromStart | packages/runtime/synthesis.ts:664-742 | Whatever happens in between, a gate carries the hashes its evaluation began with |
| ReleaseGate.StartsAreHistory | packages/runtime/synthesis.ts:664-688 | Each recorded begin is a step of the run that found that content and that draft |
| ReleaseGate.ReleaseWasEvaluated | packages/runtime/synthesis.ts:744-827 | A release means an evaluation passed that began with exactly the content and draft of the moment of release; the published package is that draft, and the release is listed |
| ReleaseGate.ReleaseWasRecommended | packages/runtime/synthesis.ts:720-782 | Behind every release stands a step at which the evaluation of its draft reported publication, both exits 0 and a passing host replay with value added and no routing failure |
| ReleaseGate.OnlyAcceptedReleased | packages/control-plane/src/layers/candidate-memory.ts:15-20 | In every run drafts are begun and releases made only of candidates whose last review accepted them, and every other status tells the last review too |
| ReleaseGate.DecisionsKept | packages/control-plane/src/layers/candidate-memory.ts:55-97 | A review, a scan or a draft that knows the candidate keeps everything decided on it, and a review adds its own decision |
| ReleaseGate.EvaluatorReadReleased | packages/runtime/synthesis.ts:678-742 | Behind every release there is a step that began its evaluation and a later one that read the draft; what is released stood in the draft at the first, what was read at the second, and they are the same when nobody wrote to its directory in between |
| ReleaseGate.UnlistedUntilEvaluated | packages/runtime/synthesis.ts:184-189 | From a review or a new draft on nothing is listed or can be released until an evaluation ends |
| ReleaseGate.TamperedIsUnlisted | packages/runtime/synthesis.ts:858-886 | A listed release is off the list once its package is changed or removed, or the gate is for another draft or candidate |
| ReleaseGate.RunReads | packages/runtime/synthesis.ts:696-737 | What a task or a gate says its evaluator read is what some earlier step of the run found in the draft |
| ReleaseGate.EditedDuringEvaluation | packages/runtime/synthesis.ts:696-737 | A draft edited during the evaluation and put back is released unevaluated |
| Crontab.RemoveKeepsText | packages/runtime/scheduling.ts:205-210 | From a well-formed crontab exactly the user's text is kept and exactly the managed blocks are found |
| Crontab.RemoveLosesText | packages/runtime/scheduling.ts:205-210 | A begin marker left in the user's part costs the user text |
| Crontab.NormalizeMakesNoMarker | packages/runtime/scheduling.ts:205-205 | Normalizing line endings makes no marker |
| Crontab.CleanMerged | packages/runtime/scheduling.ts:203-217 | The user's part comes back from a merged crontab if and only if it has no begin marker and no carriage return before a line feed |
| Crontab.MergeTwice | packages/runtime/scheduling.ts:203-217 | Merging twice equals merging the second time only, under exactly that condition |
| Crontab.MergeTwiceIfClosed | packages/runtime/scheduling.ts:203-217 | For a crontab with line feeds only and its begin markers at line starts, that is so if and only if an end marker follows every begin marker of the crontab |
| Crontab.UnclosedBeginLosesLine | packages/runtime/scheduling.ts:203-217 | Behind a begin marker without an end any line of the user's survives the first merge and is gone after the second |
| Crontab.ExampleUnclosedBegin | packages/runtime/scheduling.ts:75-76 | The same for the program's own markers and a given line |
| Crontab.MergedHasOneBlock | packages/runtime/scheduling.ts:199-217 | The merged crontab has the user's part in front and one block, the managed one; with a begin marker in the user's part it loses text |
| Crontab.UserTextSurvives | packages/runtime/scheduling.ts:203-217 | From a well-formed crontab the merge keeps all user text up to line endings and space at the end |
| IsoWeek.WeekOfThursday | packages/runtime/contribution-signals.ts:38-41 | A day's ISO week is numbered in the year of its Thursday |
| IsoWeek.IsoWeekUnique | packages/runtime/contribution-signals.ts:36-43 | A day has only one ISO week |
| IsoWeek.IsoWeeksFollowDays | packages/runtime/contribution-signals.ts:36-43 | ISO weeks are constant from Monday to Sunday and increase every Monday, across year ends |
| IsoWeek.BucketWeekIsIsoWeek | packages/runtime/contribution-signals.ts:36-43 | The label is the ISO week if and only if neither the date's year nor its week's year is 0 to 99 |
| IsoWeek.ExampleYearFifty | packages/runtime/contribution-signals.ts:37-37 | Every day of the year 50 is labelled with a week of another century |
| IsoWeek.BucketWeeksFollowDays | packages/runtime/contribution-signals.ts:36-43 | Labels that are ISO weeks order the days as the calendar does and are numbered 1 to 53 |
| Lexicographic.Total | packages/runtime/auto-update.ts:110-132 | Of two different lists one precedes the other |
| Semver.VersionReadBack | packages/runtime/auto-update.ts:83-108 | A version that is written out is read back as it was |
| Semver.ReadSpelled | packages/runtime/auto-update.ts:83-108 | A text of the version pattern is read as what its parts mean, and as no version when a number is not a safe integer |
| Semver.ReadIsSpelled | packages/runtime/auto-update.ts:83-108 | Only texts of that pattern are read as versions |
| Semver.BuildMetadataIgnored | packages/runtime/auto-update.ts:83-108 | Texts that differ in their build metadata only are read alike |
| Semver.SafeIdentifiersExact | packages/runtime/auto-update.ts:103-105 | Prerelease identifiers are read as section 11 means them if their numbers are safe integers |
| Semver.SafeVersionExact | packages/runtime/auto-update.ts:83-108 | A version whose numbers are all safe integers is read as section 11 means it |
| Semver.UnsafeReadAlike | packages/runtime/auto-update.ts:103-105 | The first two numbers that are not safe integers are read as the same number |
| Semver.InfiniteExactly | packages/runtime/auto-update.ts:103-105 | A number is read as infinity if and only if it is at least the middle between the largest JavaScript number and the next power of two |
| Semver.ReadingNeverSwaps | packages/runtime/auto-update.ts:103-105 | Of two numbers, however large, the smaller is never read as the larger one |
| Semver.ReadingKeepsOrder | packages/runtime/auto-update.ts:103-105 | Two identifiers are read alike if and only if they are the same or two merged numbers, and all others are read in their order |
| Semver.DecidesAtDifference | packages/runtime/auto-update.ts:110-132 | If no numbers are merged at the first difference of two lists, they compare as section 11 says |
| Semver.GoesOnBehindMerged | packages/runtime/auto-update.ts:110-132 | If two numbers are merged there, the lists compare as what stands behind these does |
| Semver.VersionsKeptExactly | packages/runtime/auto-update.ts:134-148 | Of two versions the one that section 11 puts first is put first by the program if and only if no numbers are merged at their first difference, or the rest goes the same way |
| Semver.ComparePrerelease | packages/runtime/auto-update.ts:110-132 | The index loop decides precedence of prereleases, as they are read, as section 11 of Semantic Versioning 2.0.0 defines it, both ways |
| Semver.CompareVersions | packages/runtime/auto-update.ts:134-148 | The comparison is precedence of the versions as they are read, and for versions with safe integers precedence as section 11 defines it, 0 only for equal releases and prerelease lists; nothing for what is not a version |
| Semver.ExampleUnsafeVersionsEqual | packages/runtime/auto-update.ts:134-148 | Two versions that section 11 orders and the comparison takes for the same |
| Semver.PrecedenceTotal | packages/runtime/auto-update.ts:134-148 | Precedence is total, asymmetric and irreflexive |
| Semver.PrecedenceTransitive | packages/runtime/auto-update.ts:134-148 | Precedence is transitive |
| UpdateCheck.SelectedIsReadable | packages/runtime/auto-update.ts:150-172 | What is offered is a version of the channel and stays one when read from the cache |
| UpdateCheck.Checker.Check | packages/runtime/auto-update.ts:387-456 | When the registry is asked: unless a readable cache of the channel is not an hour old, or five minutes if nothing was found; what the cache holds afterwards; and that a notice names a strictly newer version, tagged for the running channel and of it; neighbouring requests stay apart |
| UpdateCheck.RequestsApart | packages/runtime/auto-update.ts:400-413 | Requests for one channel with none for the other between them are five minutes apart each, and an hour after a successful one |
| UpdateCheck.ExampleAlternatingChannels | packages/runtime/auto-update.ts:396-413 | Alternating channels ask the registry every time |
| UpdateCheck.ExampleUnreadableCache | packages/runtime/auto-update.ts:186-212 | A running version that is none asks the registry every time |
| StableVersion.TextReadBack | scripts/release-version.ts:81-96 | A printed stable version is one and is read back |
| StableVersion.PartsWrittenBack | scripts/release-version.ts:81-96 | A stable version that was read is printed back character by character |
| StableVersion.BeforeIsTotalOrder | scripts/release-version.ts:98-111 | The order of stable versions is total |
| StableVersion.CompareStable | scripts/release-version.ts:98-111 | The comparison is the order of the numbers, 0 only for identical strings, and names the argument that is not stable |
| StableVersion.NextStable | scripts/release-plan.ts:14-24 | The next version is stable; the bumped number is one higher, lighter ones are zero and heavier ones the same |
| StableVersion.BumpsAdvance | scripts/release-plan.ts:12-24 | Every bump exceeds the base, and a heavier bump exceeds a lighter one |
| StableVersion.BumpIsLeast | scripts/release-plan.ts:14-24 | A bump is the least of the later versions that change in its part or in a heavier one |
| StableVersion.HeaviestUnique | scripts/release-plan.ts:26-40 | What the changesets ask for together does not depend on their order |
| StableVersion.SelectBump | scripts/release-plan.ts:26-40 | The loop selects the heaviest bump asked for |
| StableVersion.Plan | scripts/release-plan.ts:61-93 | A planned version advances the base version; the check that it does never fails |
| ReleaseManifests.ReleaseVersionExactly | scripts/validate-release-ref.ts:4-12 | A text counts as a release version exactly if the pattern matches it: three numbers, numbers or words behind a dash, build parts behind a plus sign |
| ReleaseManifests.Repository.WriteManifests | scripts/release-version.ts:113-143 | All manifests are rewritten or none, at every failing write and rename, and no file of the transaction is left |
| ReleaseManifests.Repository.ReadCoupled | scripts/release-version.ts:53-67 | A version is read exactly when all manifests are valid and agree, and it is theirs |
| ReleaseManifests.Repository.SetCoupled | scripts/release-version.ts:145-153 | Setting a version couples all manifests at it, keeps the rest of each, and changes nothing when it fails |
| ReleaseManifests.Repository.BumpPatch | scripts/release-version.ts:162-171 | A patch bump succeeds exactly on coupled stable manifests and leaves them coupled at the next patch |

## Left out

- Team assignment: the mapping of installer errors to failure codes, package download and verification, the encoding of the state file, and an installer that throws after it has acted.
- Team assignment: a receipt that names another binding counts as a terminal delivery failure, as in the code; the cloud's reasons are not modelled further.
- Durable decisions: several live processes; two waiters that saw the same dead owner can each remove the lock.
- ConflictReplacement.Approve: takes the restore's own removals and renames to succeed, apart from a directory renamed onto a link; does not model the creation of missing parent directories, or links in the directories above a package, a link being followed where it ends a path.
- ConflictReplacement.RestoreUndoesMoves: like RestoreThrowsExactly, speaks of packages, and of what stands on their targets, that are links only if these lead, directly or through other links, to places outside the targets and backups; other links may come to life or die while the restore moves things.
- Consolidation.Workspace.Approve: takes the undo's own file operations to succeed, models an installed package as one unit, and asks for each package to be listed once; nested packages are not modelled.
- Consolidation.Workspace.Rollback: a relative link is given by the place it leads to from each place, not by its text; a link leads to a whole package.
- Consolidation.Workspace.Quarantine: leaves out name lookup, protected skills and the copy that replaces a rename between file systems; any of them refusing is `CheckRefused` or `MoveFails`. An archive that is an empty directory counts as no archive.
- RevisionHistory.History.Restore: takes the renames that undo a failed swap to succeed and no other process to write the package meanwhile; a crash between the two renames is not covered. Empty directories are not part of a snapshot.
- RevisionHistory.History.Diff: sorts by character code, which for characters outside the Basic Multilingual Plane is not the order of UTF-16 units.
- PromptLock.MutualExclusion: claims nothing once a lock outlives the timeout; reading a heartbeat and reading the clock is one step.
- PromptIdentity.ScanLog: indices are unbounded, so numbers too large for a JavaScript integer are not modelled; nor is the decoding of a line.
- Relay: what a relay does with a row it holds is not part of this repository; both kinds are covered, those that store it again and those that do not.
- RelayQueue.Queue.Flush: the choice of eligible configurations and the building of payloads are left out.
- ReleaseGate.ReleaseWasEvaluated: one candidate, every task with its own in-memory runtime; the generated evaluation set, its validation and the synchronization of remote decisions are left out, as are tasks that give up halfway.
- Crontab.MergeTwice: managed content that itself contains the end marker is not covered; the program never writes such content.
- Scheduling: the conversions to launchd and systemd schedules and the installation of artifacts.
- IsoWeek.BucketWeekIsIsoWeek: the text form of the label, and dates at the very ends of the JavaScript date range.
- UpdateCheck.Checker.Check: checks run one after the other; timeouts and the copying of skill files are left out, and an answer that cannot be read is `Error`.
- StableVersion.SelectBump: the pattern that finds a changeset's bump is left out; each changeset is given with what it asks for.
- ReleaseManifests.Repository.WriteManifests: takes the copies that put manifests back and the removal of temporary files to succeed; a crash in the middle is not covered.
- Network calls, SQL text, process control, keychains, dashboards, command lines and telemetry.
