# ScriptBoard verification model

A Dafny model of the parts of ScriptBoard that keep durable state across failures or run an algorithm with a
non-obvious invariant, with proofs of what they are for.  `dafny verify dfyconfig.toml` checks everything.

| files | component |
|---|---|
| `CrossMove.dfy`, `Trees.dfy`, `TreeCopy.dfy` | the crash-recoverable move of a tree between file systems, its manifest digest and its copy |
| `AuditChain.dfy`, `AuditLog.dfy`, `Checkpoint.dfy` | the audit hash chain, transactions, backfill, retention, and the signed checkpoint outside the database |
| `UploadBatch.dfy`, `LogRotation.dfy` | all-or-nothing batch upload; rotating append logs |
| `FlowOrder.dfy`, `FlowRun.dfy`, `FlowRunner.dfy` | flow cards: topological order, one run, and the concurrent runner with its history |
| `Limiter.dfy`, `LimiterRuns.dfy` | the rate limiter of external triggers |
| `Formula.dfy`, `FieldPath.dfy` | dashboard formulas and field paths |
| `LineSplitter.dfy`, `LogPages.dfy` | the Docker log line splitter and the history pages |
| `Outbox.dfy` | the Registry outbox between the dashboard database and the Broker |
| `Wrappers.dfy` | the option type and two predicates that modules share |

How the modelling is done:

- Code that changes state is a class whose methods are proved against specification functions or invariants;
  what the specification means is then proved as lemmas.  Whole-run claims are methods that make an arbitrary
  run (`AnyRun`, `AnyHistory`, `AnyStores`, `AnyAppends`, `AnyStream`), or lemmas over runs of single steps.
- A crash, a failing disk or database operation and a lost reply are nondeterministic choices at each effect,
  limited by a `Faults` value where a claim needs fewer of them, or fixed by its script where a claim shows a run.
  A crash returns at once, so a postcondition speaks about every durable state that can be left behind.
- A string stands for a Go byte string, one character per byte.
- SHA-256 is an arbitrary function.  Nothing assumes that it is free of collisions: a conclusion that depends
  on it names the inputs that would have to collide, or the digest that would have to occur twice.  A signature
  is ideal.

## Findings

Places where the code falls short of the obvious promise, with the condition under which it keeps it and with
inputs or runs for which it does not.

- A registry change whose commit was lost is delivered by the next restart even after a later change of the
  same card took effect, so the card settles with its outdated connection: `Outbox.OvertakenRun` is such a run,
  step by step, for any two changes of a card.  A restart leaves a card up to date if and only if its latest
  decided change has not been overtaken before the restart (`Outbox.Manager.Reconcile`).
- The Broker cannot read back a store with more than 100 connections, but only the preparation of a change counts
  connections, and only those already in effect.  Once the commits of two prepared creations put 101 in effect,
  every later call fails for good (`Outbox.CrowdedForGood`).  Without any fault, an import of two new cards at 99
  connections gets there (`ImportCrowds`); so does a creation whose commit was lost and that a restart delivers after
  another one (`CrowdedRun`).  A mutation keeps clear of it if and only if the connections stay at most 100 after
  each of its changes (`Outbox.Manager.Mutate`).
- A restart without any fault cannot finish the Registry outbox if and only if an undelivered operation comes
  before 10,000 later ones whose receipts were never acknowledged, or more than 100 connections are in effect once
  the operations up to some one are delivered (`Outbox.Manager.Reconcile`); `BlockedRun` and `CrowdedRun` are runs
  of single steps that get there.  A change that was prepared but never decided -- after a crash or a lost reply --
  stays pending at the Broker for good, where only 128 changes may be pending.
- Retention that skips a candidate and deletes a later one breaks the chain: it keeps verifying if and only if
  the deleted rows form a prefix, unless one digest occurs at two places (`AuditChain.RetentionVerifiesIffPrefix`;
  two rows for which it breaks: `SkippedRetentionBreaks`).  A checkpoint with event ID 0 survives a deletion
  if and only if it has the digest of the last deleted row (`RetentionLosesAnchorCheckpoint`).
- An append keeps the chain verifying only if its time text is the canonical decimal of the stored integer
  (`AuditChain.AppendVerifiesIffCanonical`, `NonCanonicalAppendBreaks`); a backfill only if no row has one of the
  later columns (`BackfillVerifiesIffOriginal`, `LaterColumnBreaksBackfill`).  The callers found in the repository
  format an integer and backfill before the later columns exist.
- A failure or crash between the signing key and the first checkpoint can leave a key without a checkpoint.  Every
  later start and refresh of any store then fails (`Checkpoint.CheckpointStore.VerifyOrBootstrap`, `AnyStores`).
- A move whose trash step failed in-process after the target was committed removes the destination before it
  records the failure.  When the process dies in between, recovery ends `failed` with the only copy in the trash:
  `CrossMove.StrandingRun` is such a run of the engine and its recovery, from any start with an unused operation
  ID.  `RecoveryDecides` says exactly from which states recovery takes the source away without completing, and
  `RecoveryTerminates` from which it stays pending: an occupied trash slot or a foreign registration under the
  operation's ID.
- A formula fails on a document in which every operand is a number when a field name holds a typographic operator,
  which is replaced before the names are read: a single key evaluates if and only if it holds none
  (`FieldPath.KeyEvaluatesIffPlain`), and evaluating undoes printing for every value of the operands if and only if no
  name holds one, unless the formula never has a value (`Formula.PrintedEvaluatesIffPlain`).
- An append that makes the files rotate loses the oldest archive even when its record is then refused, because it is
  not UTF-8 or holds a NUL (`LogRotation.RotatingLog.Append`).  The caller found in the repository checks the message
  before.
- The emitted log texts depend on how Docker's stream arrives if and only if a cut forced by the size limit
  ends in a carriage return and a newline comes later (`LineSplitter.TextsDoNotDependOnWrites`, `LossShows`).

## Model

| member | source | states |
|---|---|---|
| `CrossMove.AnyRun` | internal/hostfiles/cross_move.go:90-354 | over one execution and any number of crashing recoveries, each with its own faults: the original tree is always whole at its path or in the operation's trash slot; durable phases never go back in rank; a completed move has destination and trash with the original digest and content, source gone, one trash entry, references updated once; if no file operation ever failed, a move that ends otherwise leaves the source and the references alone; whatever failed before, a last fault-free recovery ends in a terminal phase if and only if it is not hindered |
| `CrossMove.MoveEngine.Execute` | internal/hostfiles/cross_move.go:210-354 | every state it can leave behind, crashed or not, satisfies the durable-state invariant; without faults it completes; when nothing fails but the move is refused, or cancelled by a request in the store, at any point, it completes or ends with the disk exactly as it was; an occupied destination or missing source changes nothing; when only the trash step fails and the process dies once the destination is removed again, exactly the stranded state is left |
| `CrossMove.MoveEngine.RecoverOne` | internal/hostfiles/cross_move.go:107-197 | keeps the durable-state invariant under any faults, never moves the phase back, and in a process without faults equals, from every durable state whatever failed before, the recovery function whose outcomes the lemmas decide |
| `CrossMove.RecoverQuietly` | internal/hostfiles/cross_move.go:107-197 | a restart in which nothing goes wrong makes of every durable state what the recovery function says |
| `CrossMove.MoveEngine.RecoverTarget` | internal/hostfiles/cross_move.go:148-171 | the case of a committed target: resumes the trash step only on a source that still has the preflight digest |
| `CrossMove.RecoveryTerminates` | internal/hostfiles/cross_move.go:107-197 | from every durable state one fault-free recovery reaches a terminal phase of no lower rank, safely, if and only if it is not hindered by an occupied trash slot or a foreign registration of the same ID; a second recovery changes nothing in either case |
| `CrossMove.RecoveryDecides` | internal/hostfiles/cross_move.go:107-197 | a recovery that is not hindered completes a move if and only if the target was renamed into place and has the digest; it ends failed with the source taken away if and only if the recorded target does not verify |
| `CrossMove.FailedTrashStepStrandsSource` | internal/hostfiles/cross_move.go:327-333 | the state after a failed trash step, the removal of the destination and a crash is a durable state, and recovery from it ends `Failed` with the tree only in the trash |
| `CrossMove.StrandingRun` | internal/hostfiles/cross_move.go:107-354 | a run of the engine that leaves this state, and the engine's own fault-free recovery from it |
| `CrossMove.MoveEngine.CommitTarget` | internal/hostfiles/cross_move.go:316-354 | rename, record, trash, one transaction -- with a crash or failure between any two, the durable-state invariant holds |
| `CrossMove.MoveEngine.RollbackCommittedTarget` | internal/hostfiles/cross_move.go:589-611 | takes the destination back only while it verifies, changes nothing else, and reports what it recorded |
| `CrossMove.MoveEngine.Fail` | internal/hostfiles/cross_move.go:744-762 | without failures the operation ends cancelled or failed with its temporary copy gone and nothing else changed; a failed clean-up is recorded as pending; the source is in place in any case |
| `CrossMove.MoveEngine.Copy` | internal/hostfiles/cross_move.go:441-500 | success means that the temporary copy has the preflight digest; only the temporary path changes |
| `CrossMove.MoveEngine.Remove` | internal/hostfiles/cross_move.go:764-779 | removal of a directory is not atomic: a failure or crash leaves any part at that one place |
| `CrossMove.MoveEngine.Commit` | internal/fileworkflow/sqlite_store.go:45-88 | trash registration, reference update and phase happen together or not at all, and never over a registration with other paths |
| `CrossMove.MoveEngine.Update` | internal/fileworkflow/sqlite_store.go:37-43 | the durable row becomes the given one or stays, and a reported failure wrote nothing |
| `MovedTrees.CompletedMoveIsFaithful` | internal/hostfiles/cross_move.go:653-735 | a completed move leaves the destination equal to the original tree, or the two manifests or two contents at one path collide |
| `Trees.ManifestDecodes` | internal/hostfiles/cross_move.go:653-659 | the byte encoding of a manifest decodes uniquely |
| `Trees.RenderInjective` | internal/hostfiles/cross_move.go:405-418 | distinct component paths have distinct relative texts, free of NUL |
| `Trees.WalkListsNode` | internal/hostfiles/cross_move.go:356-425 | the sorted walk lists every node of the tree under its relative path |
| `Trees.WalkListsOnlyNodes` | internal/hostfiles/cross_move.go:356-425 | and nothing else |
| `Trees.SameNodesSameTree` | internal/hostfiles/cross_move.go:681-735 | the nodes at all paths determine the tree |
| `Trees.DigestDeterminesTree` | internal/hostfiles/cross_move.go:653-735 | equal manifest digests mean equal paths, kinds, permissions and contents, unless explicit inputs collide |
| `Trees.Scan` | internal/hostfiles/cross_move.go:356-425 | refuses exactly when the byte count exceeds 64 bits, and otherwise yields the digest that `DigestTree` yields for the same tree |
| `Trees.DigestTree` | internal/hostfiles/cross_move.go:661-735 | the recursive accumulating walk yields the manifest digest of the tree |
| `Trees.TreeWalk.Visit` | internal/hostfiles/cross_move.go:360-420 | one visit appends exactly the walk of the subtree and counts its bytes |
| `TreeCopy.ListingIsWalk` | internal/hostfiles/cross_move.go:356-425 | the entries along which the copy runs are the scanned manifest |
| `TreeCopy.CreatesTree` | internal/hostfiles/cross_move.go:441-470 | creating entries in manifest order never meets a missing, existing, unsearchable or read-only parent, and leaves exactly the nodes of the tree, private |
| `TreeCopy.RestoresTree` | internal/hostfiles/cross_move.go:471-491 | setting permissions from the last entry to the first reaches every entry, whatever the permissions |
| `TreeCopy.Copier.Copy` | internal/hostfiles/cross_move.go:441-500 | the copy fails exactly when the source no longer has the scanned sizes, modification times and digests; otherwise every path holds the scanned node with the bytes that were read, and nothing else exists |
| `TreeCopy.Copier.CopyVerifiedRegular` | internal/hostfiles/cross_move.go:502-573 | succeeds exactly when modification time, size and digest of the bytes read are the scanned ones |
| `TreeCopy.CopiedTreeIsScanned` | internal/hostfiles/cross_move.go:441-573 | a verified copy is the scanned tree, unless contents at one path collide |
| `AuditEncoding.FieldsDecode` | internal/auditlog/auditlog.go:466-471 | length-prefixed fields decode uniquely |
| `AuditEncoding.EncodingInjective` | internal/auditlog/auditlog.go:448-471 | one encoding belongs to one predecessor and one event across the v1, v2 and v3 forms |
| `AuditChain.CommonEnd` | internal/auditlog/auditlog.go:357-401 | two linked lists ending in one digest agree on every event back to the start of the shorter, or two rows collide |
| `AuditChain.SameEndsSameEvents` | internal/auditlog/auditlog.go:357-401 | chains that verify with one anchor and tail hold the same events, up to a collision or a cycle through the anchor |
| `AuditChain.GenesisEndsSameEvents` | internal/auditlog/auditlog.go:357-401 | from the genesis anchor no cycle is possible |
| `AuditChain.CheckpointFixesHistory` | internal/auditlog/auditlog.go:280-305 | a chain that verifies against an earlier checkpoint agrees with the earlier history up to it, except for a dropped prefix |
| `AuditChain.AppendVerifiesIffCanonical` | internal/auditlog/auditlog.go:134-166 | an append keeps the chain verifying exactly when the time text is canonical |
| `AuditChain.AppendKeepsCheckpoints` | internal/auditlog/auditlog.go:134-166 | every checkpoint, the anchor included, survives an append |
| `AuditChain.BackfillVerifiesIffOriginal` | internal/auditlog/auditlog.go:403-438 | a backfilled chain verifies exactly when no row has a later column |
| `AuditChain.RetentionVerifiesIffPrefix` | internal/audit/retention.go:36-106 | deleting a prefix keeps the chain verifying whatever the hash does; a chain that verifies after any other deletion has one digest at two places |
| `AuditChain.GenesisRepeatCollides` | internal/auditlog/auditlog.go:357-401 | in a verifying chain from the genesis anchor only a collision puts one digest at two places |
| `AuditChain.RepeatGoesBack` | internal/auditlog/auditlog.go:357-401 | without a collision a repeated digest goes back to the anchor |
| `AuditChain.SkippedRetentionBreaks` | internal/audit/retention.go:60-101 | a verifying chain of two rows that no longer verifies once the first is skipped and the second deleted |
| `AuditChain.NonCanonicalAppendBreaks` | internal/auditlog/auditlog.go:134-166 | for any two time texts of which one is read back as the other, an append after which the chain does not verify |
| `AuditChain.LaterColumnBreaksBackfill` | internal/auditlog/auditlog.go:403-438 | for any details with a later column, a verifying chain whose backfill does not verify |
| `AuditChain.RetentionKeepsLaterRows` | internal/audit/retention.go:36-106 | rows outside the candidates survive, whatever is skipped |
| `AuditChain.RetentionLosesAnchorCheckpoint` | internal/audit/retention.go:60-100 | after any deletion a checkpoint with event ID 0 holds if and only if it has the digest of the last deleted row |
| `AuditLog.AuditLog.Verify` | internal/auditlog/auditlog.go:357-401 | accepts exactly the chains in which every row is sealed and linked from anchor to tail |
| `AuditLog.AuditLog.VerifyCheckpoint` | internal/auditlog/auditlog.go:280-305 | accepts exactly the anchor for ID 0 and the digest of the row with the ID otherwise |
| `AuditLog.AuditLog.Append` | internal/auditlog/auditlog.go:106-166 | appends the redacted event under a new ID or changes nothing -- without database failures exactly for a valid resource identity; keeps the chain verifying for a canonical time, and every checkpoint |
| `AuditLog.Transaction.Commit` | internal/auditlog/auditlog.go:199-210 | publishes the whole transaction or nothing, and only once |
| `AuditLog.AuditLog.Backfill` | internal/auditlog/auditlog.go:403-438 | seals every row anew from the genesis anchor, or changes nothing exactly when some time is no integer |
| `AuditLog.AuditLog.Cleanup` | internal/audit/retention.go:25-106 | deletes candidates one by one with the anchor following, skipping those with unsafe source metadata and, unless nothing fails, others; keeps the chain verifying if it skipped no candidate before a deleted one, and otherwise only with a digest at two places; keeps the checkpoint it is told about |
| `AuditLog.CheckpointSurvives` | internal/audit/retention.go:36-60 | retention told a positive ID keeps every checkpoint at or after it, whatever it skips |
| `AuditLog.AnyHistory` | internal/auditlog/auditlog.go:106-232 | any history of multi-event transactions -- committed, rolled back or failing at any statement -- of retention passes and of backfills: the chain is the replay of the reported outcomes; it keeps verifying when every committed time was canonical, no candidate was skipped before a deleted one and no row had later columns; a checkpoint stays while retention is told an ID at or before it and nothing is sealed anew |
| `AuditLog.ReplayKeeps` | internal/auditlog/auditlog.go:106-232 | the same for every replay of actions and outcomes, whatever run produced it |
| `AuditLog.RunTransaction` | internal/auditlog/auditlog.go:106-232 | a transaction of several events publishes all of them or none, and without failures it commits exactly when asked to and every resource identity is valid |
| `Checkpoint.CheckpointStore.VerifyOrBootstrap` | internal/auditcheckpoint/checkpoint.go:157-193 | accepts an existing file exactly when it is authentic and the verifying chain holds it, and never overwrites it; creates a first one, without file failures, exactly for a new key and a verifying chain; a failure changes at most the key file, and then leaves a key without a checkpoint, beside which it always fails |
| `Checkpoint.CheckpointStore.Bootstrap` | internal/auditcheckpoint/checkpoint.go:392-405 | key and first checkpoint, or the files as they were, or -- after a crash or a failed removal -- the key alone |
| `Checkpoint.CheckpointStore.Write` | internal/auditcheckpoint/checkpoint.go:195-218 | without file failures it writes exactly when the file is an authentic checkpoint of the verifying chain that does not go back behind the trusted one; the new document describes the chain and has no lower event ID; the trusted ID never goes back |
| `Checkpoint.CheckpointStore.Reanchor` | internal/auditcheckpoint/checkpoint.go:272-323 | without failures and for a canonical time it succeeds exactly for the restore action with the trusted previous document, an authentic backup document that the restored chain holds, and a valid resource; the appended event names both checkpoints; on failure the file keeps its checkpoint |
| `Checkpoint.CheckpointStore.WriteCheckpoint` | internal/auditcheckpoint/checkpoint.go:436-478 | an atomic replacement: the new signed document or the old file |
| `Checkpoint.CheckpointStore.Open` | internal/auditcheckpoint/checkpoint.go:74-131 | refuses exactly when the key is missing beside a checkpoint, or for a read-only store |
| `Checkpoint.LastIsGreatest` | internal/auditcheckpoint/checkpoint.go:329-356 | a checkpoint that the chain holds has no greater ID than the chain's last event |
| `Checkpoint.DescribedHolds` | internal/auditcheckpoint/checkpoint.go:436-478 | a document written from a verified chain is a checkpoint of that chain |
| `Checkpoint.AnyStores` | internal/auditcheckpoint/checkpoint.go:157-218 | any number of stores over one file, interleaved with transactions, with retention and with arbitrary replacements of the chain behind their backs, never lower the event ID in it; while nothing but transactions happens the file holds against the chain, and while every checkpoint names an event it does so under retention as well; a key without a checkpoint, which appears only when a file operation fails, stays without one |
| `UploadBatch.Host.Upload` | internal/hostfiles/operations.go:267-401 | either the batch is in place -- contents at their names, only directories above them added, replaced files in the trash -- with results that undo it exactly, or tree and trash are what they were; when no step fails for an outside reason, it succeeds exactly for the acceptable batches: distinct names, each within its own size limit, valid in length and in every component and not reserved, none below another, open ways, free trash names |
| `UploadBatch.UploadThenRollback` | internal/hostfiles/operations.go:434-454 | rolling back a successful batch restores tree and trash exactly |
| `UploadBatch.Host.Commit` | internal/hostfiles/operations.go:372-400 | one commit either leaves a result that undoes it, or has undone itself |
| `UploadBatch.Host.Place` | internal/hostfiles/operations.go:384-397 | a replaced file goes to the trash and the staged one takes its place, or nothing changes |
| `UploadBatch.Host.CreateDirectories` | internal/hostfiles/operations.go:403-430 | creates only missing directories on the way, in an order whose reverse removes exactly them |
| `UploadBatch.Host.Rollback` | internal/hostfiles/operations.go:434-454 | undoes the results newest first |
| `UploadBatch.Host.MoveToTrash` | internal/hostfiles/operations.go:491-526 | a move that `Restore` takes back exactly |
| `UploadBatch.Host.Restore` | internal/hostfiles/operations.go:528-557 | restores only onto a free path below an existing directory |
| `UploadBatch.RestoreUndoesTrash` | internal/hostfiles/operations.go:491-557 | restoring what was just trashed gives the state before |
| `UploadBatch.RemoveUndoesAdd` | internal/hostfiles/operations.go:403-454 | removing what was just added gives the state before |
| `UploadBatch.CommitUndone` | internal/hostfiles/operations.go:372-400 | undoing one commit, replacement and created directories included, gives the state before it |
| `UploadBatch.UploadedStep` | internal/hostfiles/operations.go:372-400 | batches compose, also when one name is below another or directories are shared |
| `UploadBatch.InPlaceIsPrefixFree` | internal/hostfiles/operations.go:372-400 | a batch in which one name is below another can never be in place |
| `UploadBatch.StillOpen` | internal/hostfiles/operations.go:403-430 | in a batch without such names the directories of a later input are never blocked by an earlier one |
| `LogRotation.RotatingLog.Append` | internal/hostfiles/operations.go:105-177 | a successful append adds its record at the end of what is read; whether it succeeds or not, only a rotation drops something, and exactly the oldest archive or nothing; a record that is no UTF-8 or holds a NUL is never written; when nothing fails it succeeds exactly for the other records, and drops the oldest archive for every record that makes the files rotate, refused ones included |
| `LogRotation.RotatingLog.Rotate` | internal/hostfiles/operations.go:125-140 | stopped anywhere, what is read is as before, or as before without the oldest archive |
| `LogRotation.AdvanceKeepsReading` | internal/hostfiles/operations.go:125-140 | moving a file up onto a vacant index does not change what is read |
| `LogRotation.RemoveOldestDropsFront` | internal/hostfiles/operations.go:125-140 | removing the oldest archive drops exactly its records from the front |
| `LogRotation.AnyAppends` | internal/hostfiles/operations.go:105-177 | over any run with failures and crashes every acknowledged record was written, nothing else but safe unacknowledged ones was, and the archives and the current file read as a contiguous suffix of what was written, within the number of archives and the size limit; when nothing fails exactly the safe records are acknowledged and written |
| `FlowOrder.TopologicalOrder` | internal/customdashboard/flow.go:343-376 | true exactly when all needs exist and form no cycle, with every node once and after its needs |
| `FlowOrder.TopologicalIsAcyclic` | internal/customdashboard/flow.go:343-376 | an order excludes cycles and missing needs |
| `FlowOrder.StuckHasCycle` | internal/customdashboard/flow.go:343-376 | nodes that all wait for one another contain a concrete cycle |
| `FlowOrder.StuckRound` | internal/customdashboard/flow.go:355-376 | a round without progress means a missing need or a cycle |
| `FlowRun.FlowRun.Execute` | internal/customdashboard/flow_runner.go:217-264 | on an acyclic flow every node is decided by its needs, and the run succeeds if and only if every node did; every node starts, ends and runs its matching post steps in this order, each once, before a dependent starts; the run's own post steps come last, in order; how post steps end is recorded and decides nothing |
| `FlowRun.SkippedIffAncestorFailed` | internal/customdashboard/flow_runner.go:217-264 | a node is skipped if and only if a transitive ancestor ran and failed, and runs if and only if all its needs succeeded |
| `FlowRun.ResultsUnique` | internal/customdashboard/flow_runner.go:217-264 | the results do not depend on the topological order |
| `FlowRun.AllSucceededOrSomeFailed` | internal/customdashboard/flow_runner.go:240-264 | a run without a failed node has no skipped one either |
| `FlowRun.FlowRun.RunPosts` | internal/customdashboard/flow_runner.go:463-480 | runs exactly the post steps whose condition matches, in order |
| `FlowRunner.EveryRunKeepsInv` | internal/customdashboard/flow_runner.go:144-305 | the joint invariant of runs, workers, history mutex and file holds in every interleaving |
| `FlowRunner.OneWorkerPerCard` | internal/customdashboard/flow_runner.go:144-181 | at most one worker can still change a card, and `Start` is refused exactly while there is one |
| `FlowRunner.WritesStayOwn` | internal/customdashboard/flow_runner.go:206-215 | although views are addressed through the card, every change lands on the worker's own run |
| `FlowRunner.EnteredExactlyOnce` | internal/customdashboard/flow_runner.go:267-305 | a finished worker entered its run into the history exactly once |
| `FlowRunner.HistoryBounded` | internal/customdashboard/flow_runner.go:267-305 | after a recording the history is the newest twelve of everything recorded and loaded, newest first |
| `FlowRunner.FileMatchesMemory` | internal/customdashboard/flow_runner.go:267-352 | with successful writes the file equals the memory whenever the history mutex is free after a recording |
| `FlowRunner.VersionsIncrease` | internal/customdashboard/flow_runner.go:194-215 | a view gets a new state only with a version above all earlier ones |
| `Limiter.Limiter.Acquire` | internal/externaltrigger/limiter.go:97-145 | decides and updates all buckets together: all charged, or at most the window of the first full one moved |
| `Limiter.Limiter.Release` | internal/externaltrigger/limiter.go:133-144 | gives back one unit per bucket of the permit |
| `Limiter.Limiter.Cleanup` | internal/externaltrigger/limiter.go:147-157 | once a minute drops exactly the idle buckets whose window is over, never the global one |
| `LimiterRuns.ActiveCountsPermits` | internal/externaltrigger/limiter.go:97-157 | in every run `active` counts the unreleased permits naming the bucket, within its limit, and the map stays within the bound on subjects |
| `LimiterRuns.RateBounded` | internal/externaltrigger/limiter.go:97-145 | any half-open minute admits at most twice the per-minute limit on a bucket |
| `LimiterRuns.MinuteBound` | internal/externaltrigger/limiter.go:97-145 | windows at least a minute apart admit at most twice the limit in any minute |
| `LimiterRuns.RejectionAddsNoSubject` | internal/externaltrigger/limiter.go:97-132 | a rejected acquire and a release add no bucket |
| `LimiterRuns.CleanupInvisible` | internal/externaltrigger/limiter.go:97-157 | until the bound on subjects is met, decisions are those of a limiter that never deletes state |
| `LimiterRuns.CleanupNeverShows` | internal/externaltrigger/limiter.go:97-157 | the same for a whole run from the start, permits included |
| `LimiterRuns.ReleaseIsOwn` | internal/externaltrigger/limiter.go:133-144 | a release, however late, changes only the buckets of its own permit by one, and a repeated one nothing |
| `Formula.ExprParser.Expression` | internal/customdashboard/manager.go:1281-1299 | terminates on every string and consumes and returns what the grammar says of the rest of the input |
| `Formula.ExprParser.Term` | internal/customdashboard/manager.go:1300-1320 | the same for products and quotients, failing on division by zero |
| `Formula.ExprParser.Factor` | internal/customdashboard/manager.go:1321-1372 | the same for signs, parentheses and operands |
| `Formula.Evaluate` | internal/customdashboard/manager.go:1256-1274 | computes the value of the expression with its typographic operators replaced, and fails unless that text is consumed to its end |
| `Formula.EvaluatesIffFormula` | internal/customdashboard/manager.go:1256-1372 | an expression has a value if and only if, its typographic operators read as plain ones, it is the text of some formula -- blanks and parentheses anywhere the grammar has them -- with that value; no name of such a formula holds a typographic operator |
| `Formula.TextEvaluates` | internal/customdashboard/manager.go:1256-1372 | every formula's text evaluates to its value, and fails exactly when it divides by zero or an operand has none, provided that no name in it holds a typographic operator |
| `Formula.PrintedEvaluates` | internal/customdashboard/manager.go:1256-1372 | evaluating undoes printing when no name holds a typographic operator: left association, precedence and unary signs included |
| `Formula.PrintedEvaluatesIffPlain` | internal/customdashboard/manager.go:1256-1372 | for a tree that has a value at all, evaluating undoes printing for every value of the operands if and only if no name holds a typographic operator |
| `Formula.SignedNamesUnread` | internal/customdashboard/manager.go:1256-1372 | a name that holds a typographic operator is never looked up: taking its value away changes no result |
| `Formula.ReplacedIsPlain` | internal/customdashboard/manager.go:1257 | the replacement leaves no typographic operator, and the bytes around a replaced one never form a new one |
| `Formula.ExprPlain` | internal/customdashboard/manager.go:1281-1372 | a formula's text holds a typographic operator if and only if one of its names does |
| `Formula.ExprIsShortest` | internal/customdashboard/manager.go:1281-1372 | the printer uses the fewest parentheses: no formula with the same tree is shorter |
| `Formula.SignsMeanOperators` | internal/customdashboard/manager.go:1257 | a typographic operator means the plain one wherever it stands, whatever bytes are around it |
| `FieldPath.Extract` | internal/customdashboard/manager.go:1209-1254 | the lookup that fails at the first missing step finds exactly what the steps of the whole path lead to |
| `FieldPath.PathReadsBack` | internal/customdashboard/manager.go:1215-1252 | reading undoes writing for every list of steps without separators in keys, empty keys included |
| `FieldPath.SayableIffReadable` | internal/customdashboard/manager.go:1215-1252 | exactly those lists of steps can be written as a path |
| `FieldPath.NavigateJoins` | internal/customdashboard/manager.go:1215-1252 | following two lists of steps is following one after the other |
| `FieldPath.WrittenOperand` | internal/customdashboard/manager.go:1357-1371 | an operand written as a path is the number that its steps lead to, and nothing if they lead nowhere or to no number |
| `FieldPath.FormulaOverDocument` | internal/customdashboard/manager.go:1256-1372 | a printed formula evaluated over a document has the value of its tree with operands looked up there, and fails exactly when the tree has none, provided that no name in it holds a typographic operator |
| `FieldPath.KeyEvaluatesIffPlain` | internal/customdashboard/manager.go:1256-1372 | a key of a document with one number evaluates to that number if and only if it holds no typographic operator, and fails otherwise |
| `LineSplitter.TextsDoNotDependOnWrites` | internal/appstatus/docker_logs.go:284-307 | the emitted texts are the same for every way of cutting the stream into writes if and only if no cut forced by size ends in a carriage return with a newline after it |
| `LineSplitter.WritesDoNotMoveCuts` | internal/appstatus/docker_logs.go:284-307 | cuts and continuation marks are those of the whole stream for every way of cutting it |
| `LineSplitter.NothingIsLost` | internal/appstatus/docker_logs.go:284-307 | consumed and pending bytes together are the input |
| `LineSplitter.SegmentsAreWellCut` | internal/appstatus/docker_logs.go:284-307 | a segment is a line or exactly the size limit of a longer one, marked as continuation exactly after a forced cut; what waits is shorter than the limit and has no newline |
| `LineSplitter.LossShows` | internal/appstatus/docker_logs.go:292-299 | two writes that show the difference whenever the condition fails |
| `LineSplitter.LineWriter.Write` | internal/appstatus/docker_logs.go:284-307 | emits what the bytes complete; when the receiver fails, that entry and all later ones are still pending |
| `LineSplitter.LineWriter.Flush` | internal/appstatus/docker_logs.go:309-316 | emits the unfinished last line, if any, and nothing stays pending |
| `LineSplitter.AnyStream` | internal/appstatus/docker_logs.go:252-316 | any sequence of writes and a flush emits the marks, and under the condition the entries, of the whole stream when the receiver takes everything, and a beginning of them when it fails; it succeeds with a receiver that never fails |
| `LogPages.History` | internal/appstatus/docker_logs.go:77-118 | a page is the longest end of what precedes the boundary that fits; fails exactly when the boundary is missing; more is announced exactly when something was dropped or the page is full |
| `LogPages.WindowIsLongest` | internal/appstatus/docker_logs.go:98-104 | no longer end of the entries fits |
| `LogPages.WindowOfMore` | internal/appstatus/docker_logs.go:98-104 | dropping while entries arrive leaves the same as dropping at the end |
| `LogPages.ReadAll` | internal/appstatus/docker_logs.go:49-118 | reading page after page until no more is announced gives the whole log, every entry once and in order |
| `Outbox.AnyRun` | internal/customdashboard/manager.go:443-1007 | after any run of mutations and restarts with crashes, lost calls, failing statements and failing stores, what is decided is exactly what the mutations that committed asked for, a successful one among them; a fault-free restart then settles everything if and only if neither receipts nor too many connections block it: the connections are the start with every decided change in effect exactly once and no other, and a card ends up to date if and only if it was not overtaken; without faults every mutation succeeds or fails, and changes the connections, as it would directly, until one leaves more than 100 connections on the way, after which only empty ones succeed |
| `Outbox.Manager.Mutate` | internal/customdashboard/manager.go:443-680 | under any faults all changes of a mutation are decided, under consecutive new numbers, or none; an undecided one leaves connections and rows alone; success means that the Broker applied exactly these changes in order and that rows, receipts and pending changes are as before; without faults it decides exactly the mutations that are valid, have room and are written, and succeeds with them exactly while the Broker has room for a receipt and after each change has at most 100 connections in effect; otherwise it leaves nothing behind or, with too many connections, a Broker that answers no more |
| `Outbox.MutationFinished` | internal/customdashboard/manager.go:959-977 | finishing the operations of a mutation puts its changes in effect in order and leaves rows, receipts and pending changes as they were |
| `Outbox.Manager.Complete` | internal/customdashboard/manager.go:959-977 | finishes the operations in order up to the first failure, which touches no other operation; without faults it stops exactly at the first turn for which the Broker has no room for a receipt, and before changing anything in it, or at which it has more than 100 connections in effect |
| `Outbox.Manager.RemoteCommit` | internal/customdashboard/manager.go:959-968 | is only ever asked about an operation that the Broker still knows, so never after an acknowledgement |
| `Outbox.Manager.RemoteAbort` | internal/customdashboard/manager.go:979-983 | is never asked about a decided operation |
| `Outbox.Manager.Reconcile` | internal/customdashboard/manager.go:987-1007 | without faults it fails if and only if receipts block an undelivered operation or more than 100 connections are in effect at some turn, and is then blocked again; otherwise nothing is left to do, and a card is up to date if and only if it was not overtaken before; what was not decided stays as it was |
| `Outbox.MoveKeeps` | internal/customdashboard/manager.go:921-985 | every single step of either side keeps the agreement: only decided changes take effect, as decided and none twice, each of the others is pending with its row, and receipts belong to rows |
| `Outbox.RunAgrees` | internal/customdashboard/manager.go:921-1007 | so both sides agree after every run of single steps |
| `Outbox.LastDecides` | internal/registryconnection/service.go:339-372 | a card has the connection of the last operation that changed it, and otherwise the one of the start |
| `Outbox.RestartOrder` | internal/customdashboard/manager.go:987-1007 | after a complete restart the last operation on a card is its latest decided one if and only if, before it, that one was still undelivered or was in effect with no other change of the card after it or left to deliver |
| `Outbox.OvertakenRun` | internal/customdashboard/manager.go:959-1007 | for any two changes of a card, a run of single steps that settles with the second one undone by the first |
| `Outbox.FewRowsDoNotBlock` | internal/registryconnection/service.go:339-372 | with at most 10,000 rows only too many connections block |
| `Outbox.RoomForAllDoesNotBlock` | internal/registryconnection/service.go:488-507 | too many connections never block while those in effect and the cards of undelivered creations are together at most 100 |
| `Outbox.CrowdedForGood` | internal/registryconnection/service.go:488-507 | with more than 100 connections in effect no step of any run changes anything at the Broker any more |
| `Outbox.CrowdedRun` | internal/registryconnection/service.go:265-372 | a run of single steps to such a Broker: at 99 connections the commit of one creation is lost, another is completed, and a restart commits the first |
| `Outbox.ImportCrowds` | internal/customdashboard/manager.go:504-577 | without any fault: at 99 connections the import of two new cards is decided, does not succeed, and nothing works after it |
| `Outbox.BlockedRun` | internal/registryconnection/service.go:339-372 | a run of single steps from an empty outbox to a state in agreement that is blocked |
| `Outbox.BlockedWhenFails` | internal/customdashboard/manager.go:987-1007 | the blocking condition, stated of the rows before, says exactly when some turn of the restart fails |
| `Outbox.Broker.Prepare` | internal/registryconnection/service.go:265-337 | accepts exactly a valid change that is known already, or for which there is room and the store can be written, while at most 100 connections are in effect, and has no effect on connections |
| `Outbox.Broker.Commit` | internal/registryconnection/service.go:339-372 | idempotent while the receipt is kept; refuses unknown operations, a full receipt set, a store with more than 100 connections and one that cannot be written, without effect |
| `Outbox.Broker.Acknowledge` | internal/registryconnection/service.go:377-399 | refuses exactly pending operations, a store with more than 100 connections, and a receipt that cannot be removed from the store; otherwise no receipt is left |
| `Outbox.Broker.Abort` | internal/registryconnection/service.go:401-420 | drops a pending change if the store can be read and written, and never undoes a committed one |

## Left out

- Real I/O, SQL text, JSON and YAML: abstract maps, atomic transactions and nondeterministic success or failure.
- `CrossMove.MoveEngine.Copy`: does not model the byte transfer; when file operations do not fail the copy is taken to reproduce the source, which `TreeCopy` proves of the copy loops.
- Path leases, protected and reserved paths, free-space checks, hard links, special files, ownership, extended attributes and ACLs of a move, and the times set on the copy; the loop of `Recover` over several operations (one operation is modelled).
- `CrossMove.MoveEngine.Execute`: a cancelled context also makes the store refuse writes, which is modelled as a store failure and not covered by the claim about cancellation.
- `TreeCopy.Copier.Copy`: does not model the platform metadata and times that the second loop sets, nor what refuses them; cancellation, progress updates and disk errors end the copy early and are modelled only in `CrossMove`.
- `CrossMove.MoveEngine.Update`: a failed update or commit of the store is taken to have written nothing.
- Cancellation is an arbitrary interrupt at each point that checks for it.
- SHA-256 and Ed25519 themselves; the secrecy and file modes of the signing key.
- SQLite's type affinity for the audit time column and secret redaction are arbitrary functions; observers, export and metrics of the audit log.
- Removal of expired source files during retention: only its failure and unsafe source metadata, which skip a candidate.
- The takeover of a stale checkpoint lock after one minute: mutual exclusion is assumed.
- Torn writes of one record in log rotation: a record is written whole or not at all.
- `UploadBatch.Host.Upload`: upper and lower case of names are those of ASCII, and every name is taken to be valid UTF-8.
- Contents staged to temporary files during an upload: invisible, and their removal cannot fail visibly.
- What flow steps do, their timeouts and messages: an outcome per node; a view of a run is its version and its finished flag.
- Clock steps backwards in the rate limiter; its default options.
- `Formula.Evaluate`: exact real numbers, so no rounding, overflow or not-a-number; how a literal is read, and space other than blanks and tabs around a token, are part of the operand function.
- `FieldPath.Extract`: takes the path as trimmed, and all its failures are one.
- `LogPages.ReadAll`: assumes that every record of the daemon is one entry and that cursors are distinct; entries larger than a page are excluded.
- Log following, cursors' encoding, timestamps and severity.
- `Outbox.AnyRun`: a failed commit of the database transaction is taken to have decided nothing; operation IDs never repeat and are numbered in the order of `created_at`.
- The bound of one mebibyte on the Broker's encoded store, apart from counting as a store that cannot be written; preserving a stored password; other users of the Broker's connections.
- HTTP, Docker, Kubernetes and fleet clients, process launch, configuration and installation.
