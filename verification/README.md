# hr-automation tracker and run control: Dafny model

The repository keeps append-only JSONL logs of workflow runs, projects them into queue views, lets operators cancel and
delete trees of runs, and carries a small software authenticator. This project models that persistence and run-control
layer in Dafny and proves what it promises, over every input, run or interleaving.

`dafny verify dfyconfig.toml` checks it.

| file | what it models |
|---|---|
| `common`, `keyed_list`, `stable_sort`, `grouping` | shared vocabulary; a JavaScript Map as a keyed list; the stable sort; buckets by key |
| `lines`, `json_text`, `json_stringify`, `fs_atomic`, `jsonl_recovery` | newline-delimited files, JSON texts and how records are written as such, partial writes, torn-tail repair |
| `compaction_spec`, `compaction_safety`, `compaction`, `deleted_runs` | the write-ahead-journal protocol: durable moves, what every run keeps, the code that performs the moves, and which lines a deletion takes out |
| `run_registry`, `terminal_rows`, `tracked_workflow` | the terminal-row token, any interleaving of emitters, the wrapper and the daemon's branch |
| `queue_surfaces`, `queue_cards`, `row_count`, `queue_strip` | rows classified into cards, members and flat rows, and what the board shows by stamps; a history reduced to the rows the rail counts; the status strip's roll-up |
| `run_tree`, `task_store`, `resolve_targets`, `delete_closure`, `cancel_tree` | reachability over parent links that may form cycles, and the three actions whose reach it decides |
| `keyed_mutex`, `file_lock` | the promise-tail mutex and the lock file, step by step |
| `tail_incremental`, `parse_cache`, `row_lifecycle` | the incremental tailer, the LRU parse cache, the replay fold |
| `csv`, `cbor`, `attestation`, `ecdsa_der`, `sign_counter` | codecs with decoders that undo them; the signature counter |

A crash writes nothing, so it is the end of a run: every statement about all runs of durable moves is one about every
crash point. Other processes are a script of moves that take their turn before each step of the compactor. Digests are a
one-argument constructor, so equal digests mean equal bytes. Files are sequences of bytes with one byte a character.

The functions that the loops are proved to compute have a second description beside them, in terms of the rows, lines,
states and stamps that go in: names such as `…Means`, `…Are`, `ByFields` or `ByStamps`. The main results hold of both.

## Where the code and its documentation differ

- `src/core/kernel/run-one-item.ts:558-559` suppresses the wrapper's cancelled row for every recorded origin, where
  `src/tracker/tracked-workflow.ts:141` speaks of shutdown only. The code is followed.
- An emit can throw after its row landed. The token then goes back and a second row can follow
  (`TerminalRows.TornEmitDoublesRow`); `TerminalRows.OneTerminalRow` counts exactly such rows.
- A source that was never replaced counts as replaced exactly when the compacted bytes are a non-empty prefix of it
  (`CompactionSafety.UnreplacedTakenForReplaced`). The lines that survive are the same ones, but tombstoned lines stay:
  `Compaction.LeftByACrash` is such a crash point and `Compaction.TombstonedLineStays` its recovery.
- A tree cancel treats a refused resolution as "nothing below": when the two hierarchies disagree, a live operation row is
  cleared and reported cancelled while its descendants go on, whether its task or only its projected row lies below
  (`CancelTree.DisagreementIsReportedCancelled`, `CancelTree.ProjectionAloneIsReportedCancelled`). For a task that its own
  target finds this is the only way a reported success can leave it unsettled, at the row itself
  (`CancelTree.SuccessLeavesUnsettled`) and at every row further down (`CancelTree.SuccessIsDeep`). A task whose run has
  no attempt can be passed over without any disagreement (`CancelTree.UnfoundTaskIsReportedCancelled`).
- `blocked` is terminal for deletion (`src/core/daemon/queue.ts:49`) and live for tree actions
  (`src/core/task-store/types.ts:228-232`).
- A delete lists parent-linked tasks first and follows dependencies afterwards, so it does not look below the run of a task
  it reached through a dependency only (`DeleteClosure.FullClosureExamined`). `DeleteClosure.ClosureSafeExactly` says for
  which requests a delete can then go through past an active task; `DeleteClosure.RunningTaskUnderDependency` is one.
- The authenticator picks credentials by bytes and stores counters by text (`SignCounter.TwoSpellingsRepeat`);
  `SignCounter.BytesIncreaseExactly` says for which stored credentials a site still sees increasing counters.
- The status strip drops an OCR child whose parent also has other children: it is in no roll-up and not kept either
  (`QueueStrip.OnlyOcrChildrenVanish`). It also keeps discarded previews, which the queue surfaces drop
  (`QueueStrip.DiscardsDiffer`). An approved preparation row is left out even when nothing stands for its batch, where the
  comment at `src/tracker/queue-row-count.ts:218-219` speaks of batches with members. The code is followed.
- A stamp altered at every change does not keep the parse cache current (`ParseCache.ReturningStampIsStale`). The reads of
  a run are current exactly when none of them meets an entry still held whose stamp came back with contents that read
  differently (`ParseCache.RunIsCurrentExactly`).
- A pid that cannot be written after the lock file was made throws and leaves the file (`src/tracker/jsonl-lock.ts:66-70`),
  where the comment above speaks of a crash only; others reclaim it after the stale interval.
- The lock admits one process at a time where judging and unlinking a dead or stale lock is one step and making the file
  with its pid is another (`FileLock.AtomicExclusive`). In `src/tracker/jsonl-lock.ts:30-77` neither is one, and each half
  alone is not enough (`FileLock.LateUnlinkAdmitsTwo`, `FileLock.LatePidAdmitsTwo`).
- The CSV scanner drops a leading U+FEFF that belongs to an unquoted first cell (`Csv.BomIsLost`).

## Model

| member | source | states |
|---|---|---|
| `FsAtomic.AppendFileDurable` | src/tracker/fs-atomic.ts:81-102 | however short each write call is, what lands is a prefix of the data after the old bytes, and all of it when the call returns |
| `FsAtomic.WriteFileAtomic` | src/tracker/fs-atomic.ts:31-61 | the file holds the whole new content once renamed, and its old content otherwise: never a mixture |
| `JsonText.ProperPrefixIsNotJson` | src/tracker/jsonl-recovery.ts:37-42 | section 4 of RFC 8259: no proper prefix of an object text is a JSON text, so a torn record is never taken for a whole one |
| `JsonText.ObjectIsJson` | src/tracker/jsonl-recovery.ts:67-76 | an object text is a JSON text, so a record whose newline alone is missing is kept |
| `JsonStringify.StringifiedIsRecord` | src/tracker/state/jsonl-source.ts:38 | what JSON.stringify writes for any data is a JSON text on one line whose syntax tree stands for that data, and an object text for a record |
| `JsonlRecovery.FindKeep` | src/tracker/jsonl-recovery.ts:53-66 | the backwards scan in 4096-byte chunks finds exactly the end of the complete lines |
| `JsonlRecovery.CompleteEndsAt` | src/tracker/jsonl-recovery.ts:53-66 | an index after a newline with no newline behind it splits a file into its complete part and its tail |
| `JsonlRecovery.TruncateToLastNewline` | src/tracker/jsonl-recovery.ts:43-83 | repair keeps a complete file, terminates a parseable tail, drops any other tail, and returns the bytes dropped |
| `JsonlRecovery.AppendJsonlLineLocked` | src/tracker/state/jsonl-source.ts:22-42 | a locked append repairs first and then adds a prefix of the record and its newline |
| `JsonlRecovery.RepairIdempotent` | src/tracker/jsonl-recovery.ts:43-83 | repairing a repaired file changes nothing |
| `JsonlRecovery.RepairAfterAttempt` | src/tracker/jsonl-recovery.ts:16-32 | repair after an attempt cut at any byte leaves the file without the record, or with the whole record terminated |
| `JsonlRecovery.RepairedReplay` | src/tracker/jsonl-recovery.ts:16-32 | after any sequence of object appends, each cut anywhere, the repaired file is the repaired old file followed by exactly the records that landed, in order |
| `JsonlRecovery.ReplayLines` | src/tracker/jsonl-recovery.ts:16-32 | the lines of that file are exactly the landed records: none fused, lost or doubled |
| `JsonStringify.RecordsReplay` | src/tracker/state/jsonl-source.ts:22-42 | so whatever records are appended, each append cut anywhere, the repaired log is the repaired old one and the records that landed whole, in order |
| `JsonlRecovery.AppendKeepsCompletePart` | src/tracker/jsonl-recovery.ts:28-32 | an append, torn or not, never touches a complete line already there |
| `Lines.SplitAppend` | src/tracker/tail-incremental.ts:52-55 | splitting appended bytes continues the unterminated last segment and nothing else |
| `Lines.CompleteTail` | src/tracker/compaction.ts:172-176 | a file is its complete part and its tail, and its lines are those of the complete part |
| `CompactionSpec.CrashAnywhere` | src/tracker/compaction.ts:95-163 | a run of durable moves cut at any point is a run, so every statement about runs is one about every crash point |
| `CompactionSpec.CompactedIsShorter` | src/tracker/compaction.ts:165-193 | compaction never makes a file longer, and a leading part of the same length is the whole file |
| `CompactionSafety.VisibleLinesSurvive` | src/tracker/compaction.ts:95-245 | over every run of compaction steps, recovery, appends and crashes, the lines of a source that are not tombstoned are the old ones, in order, followed by those written since |
| `CompactionSafety.NoLineIsEverLost` | src/tracker/compaction.ts:213-242 | every complete line ever written to a source is in it or in one of its archives, at every point |
| `CompactionSafety.GenerationPerRetiredJournal` | src/tracker/compaction.ts:138-158 | the generation rises by exactly one for each journal retired, however often recovery is repeated |
| `CompactionSafety.ArchiveNeverChanges` | src/tracker/compaction.ts:216-227 | an archive that exists keeps its bytes for ever |
| `CompactionSafety.RecoveryRefusesOnlyChangedSource` | src/tracker/compaction.ts:129-137 | in every run a journal can be finished exactly when its source still holds the archived bytes or bears the mark of the replacement: a crash alone never leaves one that recovery refuses |
| `CompactionSafety.ReplacedIsRecognised` | src/tracker/compaction.ts:123-128 | a replaced source with appends is recognised as replaced, unless compaction emptied it and the appends begin with the whole original again |
| `CompactionSafety.UnreplacedTakenForReplaced` | src/tracker/compaction.ts:123-128 | a source never replaced is taken for replaced exactly when the compacted bytes are a non-empty prefix of it |
| `CompactionSafety.RunKeepsClean` | src/tracker/compaction.ts:165-193 | a source clean of what was tombstoned when the set was read stays clean, appends since then excepted |
| `Compaction.Tracker.FinishJournal` | src/tracker/compaction.ts:95-163 | recovery from any disk: when it returns no journal is left and the generation is the journal's; left alone, it succeeds exactly on recoverable disks, and the source then holds the compacted bytes, or its own where the guard took it for replaced |
| `Compaction.Tracker.ResumeReplacement` | src/tracker/compaction.ts:122-158 | recovery once archive and compacted bytes are in hand: left alone it succeeds exactly when source and generation allow it, and the source then holds the compacted bytes, or its own where the guard took it for replaced |
| `Compaction.Tracker.ReplaceAndBump` | src/tracker/compaction.ts:123-158 | the locked part: whatever the others do, on success the source holds its old bytes where it counts as replaced already, and the compacted ones otherwise; it fails on a source that is neither missing, nor the archived original, nor taken for replaced |
| `Compaction.Tracker.BumpGeneration` | src/tracker/compaction.ts:138-158 | the generation becomes the journal's from the one before it, stays if it is there already, and any other value fails |
| `Compaction.Tracker.RetireJournal` | src/tracker/compaction.ts:160-162 | the journal goes first, the pending file after it: left alone those are its two moves in that order, and while the journal is there the pending file is untouched |
| `Compaction.LeftByACrash` | src/tracker/compaction.ts:213-232 | an instance: two rows, the second tombstoned, and a crash once the journal is "prepared"; a run of a fresh tracker ends on that disk |
| `Compaction.TombstonedLineStays` | src/tracker/compaction.ts:123-128 | recovery from that disk takes the source for replaced and succeeds, and the tombstoned line is still in the source |
| `Compaction.Tracker.CompactedRowsForFile` | src/tracker/compaction.ts:165-193 | succeeds exactly when every complete line carries a key, and then returns the lines that are not tombstoned |
| `Compaction.Tracker.CompactFile` | src/tracker/compaction.ts:202-245 | after it returns the file holds no line tombstoned in the set it read, appends since then excepted, and the generation rose by one exactly if the bytes changed; left alone, the file is its repaired old self without the tombstoned lines |
| `Compaction.Tracker.CompactLocked` | src/tracker/compaction.ts:209-242 | the locked part: whatever the others do meanwhile, the source ends as its old bytes, a torn last line terminated if it is JSON and dropped if not, without the tombstoned lines |
| `Compaction.Tracker.JournalledReplace` | src/tracker/compaction.ts:213-242 | archive, pending file, journal, source, journal again: ends with the journal in phase "replaced" and the source clean |
| `Compaction.Tracker.ArchiveOriginal` | src/tracker/compaction.ts:216-227 | an archive of this generation with other bytes makes compaction fail: what happens after a crash behind the archive write and a later append |
| `Compaction.Tracker.CompactTracker` | src/tracker/compaction.ts:248-285 | when it returns, every file that was there holds no line tombstoned in the set it read, appends since then excepted |
| `DeletedRuns.KeyedExactly` | src/tracker/compaction.ts:178-190 | a line has a tombstone key exactly if it is JSON with a non-empty item, `id` in rows and `itemId` in logs; its run is its runId, or else item#1 |
| `DeletedRuns.SameKeyExactly` | src/tracker/deletions/visible.ts:19-21 | for ids without NUL two lines have the same key exactly when workflow, date, item and run are the same |
| `DeletedRuns.CompactionRemovesExactly` | src/tracker/compaction.ts:165-193 | compaction with any set of deletions leaves the lines of all other runs, in order, and no others |
| `DeletedRuns.OneRunRemoved` | src/tracker/compaction.ts:165-193 | the deletion of one run takes out that run's lines in the log of its workflow and date, and nothing else anywhere |
| `DeletedRuns.DeleteThenCompact` | src/tracker/deletions/visible.ts:35-69 | a delete goes through, and after the next compaction no line of a run it hid is left, while the lines of the runs nobody hid all are, in order |
| `Compaction.Tracker.AlwaysSound` | src/tracker/compaction.ts:248-285 | whatever was done to a fresh tracker, crashes included, every source is sound |
| `RunRegistry.Registry.Cancel` | src/core/run-registry.ts:297-327 | a cancel records its origin, shutdown never giving way to user, and aborts at most once; a run that is not registered is left alone, and so is every other run |
| `RunRegistry.Registry.ClaimTerminalWrite` | src/core/run-registry.ts:252-256 | only the first claim of a token wins, and it reserves that token and touches nothing else |
| `RunRegistry.Registry.CommitTerminalWrite` | src/core/run-registry.ts:258-263 | commits a reservation and throws without one |
| `RunRegistry.Registry.RollbackTerminalWrite` | src/core/run-registry.ts:265-267 | frees a reservation and leaves a committed token alone |
| `RunRegistry.Registry.Unregister` | src/core/run-registry.ts:271-284 | forgets handle, cancel and origin, but not the token |
| `TerminalRows.OneTerminalRow` | src/core/run-registry.ts:168-190 | in every interleaving of any number of emitters, the terminal rows of a run since its last release are one for each emit that landed but threw, and at most one more |
| `TerminalRows.OneAttempt` | src/tracker/tracked-workflow.ts:491-499 | an emitter whose run has its token free writes one row unless its emit fails before the file, commits exactly if the emit returns and frees the token otherwise; where the token is taken it changes nothing |
| `TerminalRows.RegistryMoves` | src/core/run-registry.ts:241-327 | registering, unregistering and cancelling are possible at any time and touch neither rows nor tokens |
| `TerminalRows.TornEmitDoublesRow` | src/tracker/tracked-workflow.ts:418-426 | the case the guard cannot exclude: an emit lands, throws and is rolled back, and a second emitter writes again |
| `TerminalRows.CommitNeverThrows` | src/core/run-registry.ts:258-263 | an emitter whose row landed still holds the reservation when it commits |
| `TerminalRows.ShutdownSticks` | src/core/run-registry.ts:303-316 | a shutdown origin stays until the run is unregistered |
| `TrackedWorkflow.ResolveTeardownTransition` | src/core/daemon/teardown-transition.ts:63-69 | hands an item over exactly when a reassign was asked for, a peer responds and there is a task; fails on silent peers, never turns a forced shutdown into a cancel, and without a reassign cancels exactly where no shutdown is forced |
| `TrackedWorkflow.RunLog.EmitTerminal` | src/tracker/tracked-workflow.ts:491-499 | claim, emit, commit or roll back: a thrown emit leaves the token free, a foreign token leaves log and emits alone |
| `TrackedWorkflow.RunLog.WithTrackedWorkflow` | src/tracker/tracked-workflow.ts:418-500 | every row is of this run, done only for a handler that completed, and a failed one carries the cancelled or discarded step of the handler's error or else the last step; with the token free the wrapper returns exactly when the last row written is a done row whose emit landed |
| `TrackedWorkflow.KernelRowsWritten` | src/tracker/tracked-workflow.ts:418-500 | for every outcome of the emits: a completed handler writes one done row if the first emit lands, and a failed row can only follow where it did not |
| `TrackedWorkflow.RunLog.SettleStopped` | src/core/daemon/daemon.ts:800-906 | the daemon's row is never done and says cancelled exactly for a deliberate cancel; it is written when the transition applied, the token is free and the emit lands, and never for a reassign |
| `TrackedWorkflow.RunLog.TryItem` | src/core/daemon/daemon.ts:800-906 | the daemon's branch is entered for a stopped item and for a cancel the wrapper passed on, never for an emit's own error, and its emit gets a turn only where none of the wrapper's landed |
| `TrackedWorkflow.PlayCounts` | src/tracker/tracked-workflow.ts:418-426 | of emits tried until one lands, exactly one row beyond the torn ones is left if some emit lands, and none otherwise |
| `TrackedWorkflow.RunLog.RunItem` | src/core/daemon/daemon.ts:800-906 | one item from registration to release: beyond torn emits there is exactly one row if some emit it tries lands and none otherwise; it tries none exactly when a registered cancel was reassigned or its transition did not apply; a completed handler whose first emit lands leaves one done row, and after a registered cancel every row is the daemon's |
| `TrackedWorkflow.ItemRowsWritten` | src/core/daemon/daemon.ts:800-906 | each row of an item says what its handler or its teardown came to, and the daemon writes only for a stopped item or a registered cancel, and only if its transition applied |
| `QueueSurfaces.ShownExactlyOnce` | src/tracker/queue-surfaces.ts:263-336 | a row on the board is shown once, as a card, inside one or flat, exactly when it can be placed |
| `QueueSurfaces.EverythingShownOnce` | src/tracker/queue-surfaces.ts:263-336 | with entries among the sources and no anchor under a persisting root, every row that is not discarded is shown exactly once |
| `QueueSurfaces.LegacyPrepareShownTwice` | src/tracker/queue-surfaces.ts:22-38 | a visible row is two cards exactly when it is a legacy OCR prepare row stamped batch |
| `QueueSurfaces.NothingInvented` | src/tracker/queue-surfaces.ts:263-336 | nothing is shown that was not among the visible entries or sources |
| `QueueSurfaces.ShellsHaveMembers` | src/tracker/queue-surfaces.ts:307-322 | a made-up card has members, all of them from the sources |
| `QueueSurfaces.BuildMembersByParentRunId` | src/tracker/queue-surfaces.ts:138-153 | the member table: parents in order of first appearance, each with its members in log order |
| `QueueSurfaces.UniqueFlatEntries` | src/tracker/queue-surfaces.ts:155-161 | the Map keeps a key's first place and last entry |
| `QueueSurfaces.ShellCards` | src/tracker/queue-surfaces.ts:307-322 | every parent without an anchor becomes a card or leaves its lone child flat |
| `QueueSurfaces.BuildTrackerQueueSurfaces` | src/tracker/queue-surfaces.ts:263-336 | fails exactly when some row carries an unknown stamp, and otherwise returns the specified projection |
| `QueueSurfaces.CountQueued` | src/tracker/queue-surfaces.ts:365-391 | queued is the number of queued cards plus that of queue-like flat rows: never above the total, and positive exactly when some deciding row is queue-like |
| `QueueCards.BuildByStamps` | src/tracker/queue-surfaces.ts:263-336 | by stamps alone: fails exactly on an unknown one; every visible coordinator heads one operation card and every visible preview one preview card; one made-up card stands for each parent with rows inside and no head on the board, lone children apart; the flat rows are the lone and the loose ones |
| `QueueCards.HeadsOneCard` | src/tracker/queue-surfaces.ts:22-38 | a visible row stamped operation or batch heads exactly one operation card, a preview row one preview card, and no other row heads one |
| `QueueCards.CardsAre` | src/tracker/queue-surfaces.ts:263-336 | a card bears its head's run id and, for a preview, whether it was approved; its members are exactly the visible source rows that name that run and head no card of their own, unless the root persists |
| `QueueCards.ShellsAre` | src/tracker/queue-surfaces.ts:307-322 | a made-up card stands for a run exactly if rows are inside it, no head of it is on the board, and they are not one lone row |
| `QueueCards.FlatAre` | src/tracker/queue-surfaces.ts:323-336 | a flat row is a lone delegated row, or a visible row that heads nothing and is inside no card |
| `QueueCards.QueuedMeans` | src/tracker/queue-surfaces.ts:344-363 | pending and skipped rows wait, running ones while they sign in or, delegated by OCR, while they wait for approval, and no others |
| `RowCount.DedupedIs` | src/tracker/queue-row-count.ts:81-104 | one row an item and none missed, in the order in which the items come first; each is the item's newest line, the later of equals, with the last known employee id where it has none itself |
| `RowCount.DedupeLatestByIdWithCarriedEmplId` | src/tracker/queue-row-count.ts:81-104 | the loops compute those rows |
| `RowCount.SortedPrimariesAre` | src/tracker/queue-row-count.ts:52-57 | the order is that of the comparison, search by employee id before recency, and no row is lost |
| `RowCount.EveryLineInOneGroup` | src/tracker/queue-row-count.ts:59-78 | every line is in its person's group, as often as it was there, and in no other; the primary is what the comparison puts first |
| `RowCount.GroupsAre` | src/tracker/queue-row-count.ts:32-78 | two lines are grouped together exactly when they have one employee id, or one item where neither has one; the groups are in the order in which their people come first, and in front stands the first line that no other comes before |
| `RowCount.GroupMergedTrackerEntries` | src/tracker/queue-row-count.ts:59-78 | the bucket loops compute those groups, told by the lines' own ids |
| `RowCount.PrimariesAre` | src/tracker/queue-row-count.ts:268-281 | the primaries are one a person, and every person has one |
| `RowCount.SidebarInputWellFormed` | src/tracker/queue-row-count.ts:268-281 | what the rail hands to the queue surfaces has keys apart and nothing to show that is not among the sources: what showing each row once needs |
| `RowCount.SidebarShowsEachOnce` | src/tracker/queue-row-count.ts:268-295 | from raw history to screen: a person's row is on the rail exactly once, unless it is an anchor below a persisting root |
| `RowCount.CountSidebar` | src/tracker/queue-row-count.ts:268-313 | both badges from one history: the surfaces' numbers, and queued never above the total |
| `Grouping.SizesAddUp` | src/tracker/queue-row-count.ts:60-66 | the buckets' sizes add up to the rows that carry a key |
| `Grouping.KeysInFirstOrder` | src/tracker/queue-row-count.ts:60-66 | the buckets are in the order in which their keys come first |
| `QueueStrip.ChildrenAddUp` | src/tracker/queue-row-count.ts:228-236 | every child is counted in exactly one batch |
| `QueueStrip.StripSize` | src/tracker/queue-row-count.ts:225-261 | one row for each standalone entry and one for each run with members |
| `QueueStrip.StripIsByFields` | src/tracker/queue-row-count.ts:225-261 | the strip is the rows that stand alone, in order, and one row for each run with children: by stamps, modes and parent ids |
| `QueueStrip.RollupMeans` | src/tracker/queue-row-count.ts:150-206 | a batch waits while a row of it does and runs while one does; when none does it has failed if a row failed by itself and none is done, was cancelled if one was stopped, and is done otherwise |
| `QueueStrip.PillCounts` | src/tracker/queue-row-count.ts:209-261 | each status is counted once for every standalone row that has it and once for every run whose members roll up to it |
| `QueueStrip.PillsAddUp` | src/tracker/queue-row-count.ts:209-261 | the counts of all statuses add up to the standalone rows and the runs with members: no row is on two pills or on none |
| `QueueStrip.OnlyOcrChildrenVanish` | src/tracker/queue-row-count.ts:228-258 | a row vanishes from the strip exactly when it is an OCR child beside a batch and has no batch of its own |
| `QueueStrip.OcrChildVanishes` | src/tracker/queue-row-count.ts:228-258 | an instance: an OCR row beside one lookup below the same upload |
| `QueueStrip.DiscardsDiffer` | src/tracker/queue-row-count.ts:106-113 | strip and surfaces drop the same discarded rows, previews apart |
| `QueueStrip.CollapseMergedPrimariesForQueueStrip` | src/tracker/queue-row-count.ts:225-261 | fails exactly on an unknown stamp, and otherwise the loops compute that strip, rows alone first |
| `Csv.ParseCsv` | src/utils/csv.ts:10-38 | the scanner ends on every input with the specified rows |
| `Csv.ParseUndoesPrint` | src/utils/csv.ts:10-38 | section 2 of RFC 4180: parsing a printed table, quoted fully or where needed, gives back its cells exactly when no byte order mark opens it unquoted |
| `Csv.ParseUndoesOpenPrint` | src/utils/csv.ts:34-37 | without its last line end a table is read just the same, unless its last row is a single empty cell: that row is lost |
| `Csv.UnclosedQuote` | src/utils/csv.ts:19-24 | a text that ends inside quotes is read as if they were closed |
| `Csv.BomIsLost` | src/utils/csv.ts:16-17 | a table whose first character is an unquoted U+FEFF loses it |
| `RunTree.Walk` | src/control/actions/resolve-targets.ts:69-99 | the worklist ends even on cycles, visits exactly the reachable run ids, each once, and gathers the rows under each |
| `TaskStore.RunsUnder` | src/control/actions/resolve-targets.ts:68-99 | the projected rows under the roots, each once |
| `TaskStore.ListTaskTreeByRunIds` | src/core/task-store/queries.ts:145-170 | every task below the roots once, cycles or not; fails exactly when one of them has no state |
| `TaskStore.TaskOfRunMeans` | src/core/task-store/queries.ts:23-32 | a run's task is that of its first attempt whose task there is; without such an attempt it has none |
| `ResolveTargets.CheckProjected` | src/control/actions/resolve-targets.ts:105-116 | reports a live projected row whose task the tree does not hold, if there is one |
| `ResolveTargets.MergeTasks` | src/control/actions/resolve-targets.ts:118-152 | refuses exactly when a live tree task is projected elsewhere; otherwise the live tasks' targets in query order, the first of a key staying |
| `ResolveTargets.TaskTargetsCover` | src/control/actions/resolve-targets.ts:118-152 | those targets are one a key and miss no live task |
| `ResolveTargets.TaskTargetsInOrder` | src/control/actions/resolve-targets.ts:117-152 | they are in the tasks' order, and of two tasks with one key the first counts |
| `ResolveTargets.MergeRows` | src/control/actions/resolve-targets.ts:154-166 | adds the live rows without a task, the last of a key winning |
| `ResolveTargets.WithRowsCover` | src/control/actions/resolve-targets.ts:154-166 | the merged targets are one a key, lose none, and miss no live row without a task |
| `ResolveTargets.WithRowsInOrder` | src/control/actions/resolve-targets.ts:154-166 | of a task and a row, or two rows, with one key the last counts, in the first one's place |
| `ResolveTargets.CollectDescendants` | src/control/actions/resolve-targets.ts:65-167 | refuses exactly when the hierarchies disagree on a live run; otherwise the targets are keyed apart and are the blast radius, no more and no less |
| `ResolveTargets.RadiusMeans` | src/control/actions/resolve-targets.ts:105-166 | the blast radius by fields: tasks below the roots in any state but done, failed and cancelled, running once a worker took them, and open projected rows whose run has no task, running if their status says so; and the two ways in which the hierarchies disagree |
| `ResolveTargets.ResolveActionTargets` | src/control/actions/resolve-targets.ts:174-199 | verbatim for other scopes, with the request's workflow and date where a target names none; for a tree first the requested rows unless excluded, then the blast radius below them |
| `DeleteClosure.CollectDescendantDeleteTargets` | src/control/ops/delete.ts:214-255 | the runs reached by links in which a projected row, or a readable log row with id and runId, names its parent, up to their key and no others |
| `DeleteClosure.UnderMeans` | src/control/ops/delete.ts:229-252 | directly under a run are the projected rows and the log rows that name it, and nothing else |
| `DeleteClosure.RootRunsMean` | src/control/ops/delete.ts:258-279 | an item-wide request stands for the runs of its projected rows, its tasks and its own log, a log row without runId counting as id#1 |
| `DeleteClosure.HidesMeans` | src/control/ops/delete.ts:179-212 | a request hides a run exactly if it is one of those, or of a target reached below them |
| `DeleteClosure.CollectDeleteTargets` | src/control/ops/delete.ts:179-195 | the request and everything below the runs it stands for |
| `DeleteClosure.NormalizeDeleteTargets` | src/control/ops/delete.ts:198-212 | the exact runs the targets stand for, each once |
| `DeleteClosure.DependencyClosure` | src/control/ops/delete.ts:364-381 | exactly the tasks reachable through dependencies, cycles or not |
| `DeleteClosure.CollectTaskSubtreeIds` | src/control/ops/delete.ts:338-381 | exactly the tasks a delete examines |
| `DeleteClosure.Deletions.ApplyDeleteTargets` | src/control/ops/delete.ts:51-81 | hides every exact run or none, and none while an examined task is active |
| `DeleteClosure.Deletions.DeleteEntry` | src/control/ops/delete.ts:83-94 | a request hides exactly the runs it stands for and those reached below them, or nothing; it names a task that is neither done, failed, cancelled nor blocked when it refuses, goes through whenever nothing stands against it, and then, where no dependency-only task has a parent-linked child outside, nothing in the closure over both hierarchies is active |
| `DeleteClosure.GuardsMean` | src/control/ops/delete.ts:310-381 | the tasks that must be at rest are those of the hidden runs, those below them, and whatever these depend on |
| `DeleteClosure.FullClosureExamined` | src/control/ops/delete.ts:338-381 | the examined tasks are the closure over parent links and dependencies exactly when no task reached only through dependencies has a parent-linked child outside them |
| `DeleteClosure.ClosureSafeExactly` | src/control/ops/delete.ts:338-381 | for all assignments of states to the tasks: a delete that goes through never passes an active task of the closure over both hierarchies, exactly when no task reached only through dependencies has a parent-linked child outside what is examined |
| `DeleteClosure.RunningTaskUnderDependency` | src/control/ops/delete.ts:338-381 | an instance where they are not: the delete goes through, and a running task below the run of a finished dependency is in the closure of what it hid |
| `CancelTree.Control.CancelQueued` | src/control/ops/cancel.ts:86-162 | succeeds exactly for a queued task whose cancel row can be written, and then leaves that task cancelled, of the others only dependents moved, and the item's newest row a cancelled one of the run asked for, or else of the task's; each refusal is told apart by the control state and changes nothing |
| `CancelTree.Control.CancelRunning` | src/control/ops/cancel.ts:164-275 | succeeds exactly if a worker has the task in hand, and then stops that task alone, or if there is no task and this process holds the run; a queued task is handed back |
| `CancelTree.Control.CancelTarget` | src/control/actions/perform-workflow-action.ts:83-132 | succeeds exactly if one of the two handlers can cancel the target; where a control task exists and the run is named the target's status does not matter; success settles the target, or aborts its run in this process |
| `CancelTree.Control.TerminalizeStrandedCoordinator` | src/control/actions/perform-workflow-action.ts:204-232 | clears exactly live operation rows whose cancel row can be written: the newest row is then failed and cancelled, no longer live, and no other item shows differently |
| `CancelTree.CancelRowCloses` | src/control/ops/shared.ts:113-135 | the cancel row is its target's newest, failed, cancelled and of its run; the newest row of every other item or run is what it was |
| `CancelTree.CancelTwice` | src/control/ops/cancel.ts:86-162 | cancelling once more what was cancelled as a queued task is refused as already terminal |
| `CancelTree.TerminalizeTwice` | src/control/actions/perform-workflow-action.ts:204-232 | a cleared operation row is not cleared again |
| `CancelTree.LatestMeans` | src/control/ops/emit-inherited.ts:63-93 | the row a cancel inherits from is the last one of the item, or of the run if one is named |
| `CancelTree.LookupMeans` | src/control/ops/shared.ts:33-45 | a target stands for the task of the run it names, if that is of its item, and without a run for its item's last task |
| `CancelTree.Control.CancelDescendants` | src/control/actions/perform-workflow-action.ts:234-261 | ends where nothing it enters lies below itself; one cancel a resolved target, in order, unless one threw, each answering for what is below it in turn; nothing below, or a refused resolution, changes nothing, and only an unknown task state makes the resolution itself throw |
| `CancelTree.Control.CancelResolved` | src/control/actions/perform-workflow-action.ts:263-300 | all the way down: a target without a task answers for the resolved targets, and each of those without a task for its own: success exactly if all succeeded, else how many failed, a throw only where one threw; with none resolved it succeeds exactly for a live operation row that can be cleared; any other target succeeds exactly if a handler can cancel it or its session is discarded |
| `CancelTree.Control.PerformCancel` | src/control/actions/perform-workflow-action.ts:327-360 | one cancel a target in order unless one threw, ok exactly when there are results and all succeeded; then every target is settled and every row written for one is closed, and at every row the recursion came to, however deep, the hierarchies disagreed or every task then live below it is settled |
| `CancelTree.FanIsResolution` | src/control/actions/perform-workflow-action.ts:263-300 | unless something threw there is one cancel for each target the resolution gave, and none exactly when it refused or found nothing |
| `CancelTree.SuccessLeavesUnsettled` | src/control/actions/perform-workflow-action.ts:204-300 | of the live tasks below it, in either hierarchy, that their own targets find, a fanned-out cancel that reports success leaves one unsettled exactly when the hierarchies disagree and one was unsettled before |
| `CancelTree.SuccessLetsGoOn` | src/control/actions/perform-workflow-action.ts:204-300 | of all live tasks below it, such a cancel leaves one neither stopped nor discarded exactly when the hierarchies disagree and there was one before, or one its own target does not find is left so |
| `CancelTree.SuccessIsDeep` | src/control/actions/perform-workflow-action.ts:234-300 | a reported success holds at every row the recursion came to: each is settled, its display row closed where one was written, and below each that fanned out the hierarchies disagreed at that point or every task then live is settled when all is done |
| `CancelTree.SettledSinceStart` | src/control/actions/perform-workflow-action.ts:234-300 | at such a row, what was live below it when the request began is settled or has ended |
| `CancelTree.DisagreementIsReportedCancelled` | src/control/actions/perform-workflow-action.ts:204-300 | an instance where they disagree: the cancel of a live operation row succeeds, while a task linked below it, whose projected row is elsewhere, is still running and unsettled |
| `CancelTree.ProjectionAloneIsReportedCancelled` | src/control/actions/resolve-targets.ts:105-116 | the mirror image: the task's projected row is below the cleared row and its own link is elsewhere |
| `CancelTree.UnfoundTaskIsReportedCancelled` | src/control/actions/perform-workflow-action.ts:204-300 | an instance without disagreement: a queued task whose run has no attempt is taken for a row without a task, its row is cleared, the cancel succeeds, and the task is still queued |
| `CancelTree.RadiusIsLower` | src/control/actions/perform-workflow-action.ts:234-261 | where nothing the recursion enters lies below itself, what a resolution returns is less deep than the target it was for: why the recursion ends |
| `CancelTree.CycleMeetsItself` | src/control/actions/perform-workflow-action.ts:234-261 | a pending row without a task that lies below itself fans out and is, up to key, among its own resolved targets, with nothing changed: the recursion is entered on it again |
| `CancelTree.SettledByKey` | src/control/actions/resolve-targets.ts:33-35 | targets merged under one key share their fate when ids hold no NUL |
| `KeyedMutex.OneBodyAtATime` | src/utils/keyed-mutex.ts:15-31 | in every interleaving bodies of a key start in arrival order, rejections or not, and never overlap |
| `KeyedMutex.BodiesInOrder` | src/utils/keyed-mutex.ts:15-31 | read off the events: of two calls of one key the later one's body begins only after the earlier one's has settled |
| `KeyedMutex.BodyMayBegin` | src/utils/keyed-mutex.ts:19-20 | and it may begin exactly when all earlier ones of its key have settled, returned or not |
| `KeyedMutex.EntryWhileNewestOpen` | src/utils/keyed-mutex.ts:21-31 | the map has an entry exactly while the newest call of the key has not returned; without one no body is pending or running |
| `KeyedMutex.AllReturnedLeavesNothing` | src/utils/keyed-mutex.ts:26-31 | once all callers have returned the map is empty |
| `KeyedMutex.NeverStuck` | src/utils/keyed-mutex.ts:19-24 | while a call has not returned some call can take its next step |
| `KeyedMutex.StepsAreFinite` | src/utils/keyed-mutex.ts:19-31 | each step but an arrival brings the calls one step nearer to returning |
| `KeyedMutex.Mutex.Chain` | src/utils/keyed-mutex.ts:19-25 | the synchronous part: chain onto the stored tail and store one's own |
| `KeyedMutex.Mutex.Finish` | src/utils/keyed-mutex.ts:26-31 | the clean-up deletes only one's own entry |
| `Cbor.HeadExactBelowLimit` | duo-autopilot/src/crypto.js:161-167 | sections 3 and 4.2.1 of RFC 8949: a head reads back to its major type and argument exactly when the argument is below 2^32 |
| `Cbor.HeadIsShortest` | duo-autopilot/src/crypto.js:161-167 | no head with that meaning is shorter |
| `Cbor.DecodeUndoesEncode` | duo-autopilot/src/crypto.js:168-189 | wherever an encoded item stands, maps nested to any depth, it decodes to itself and to exactly its own bytes |
| `Cbor.EncodingIsPrefixFree` | duo-autopilot/src/crypto.js:168-189 | no encoding is a prefix of another item's |
| `Attestation.ConcatBytes` | duo-autopilot/src/crypto.js:42-51 | the buffer holds the arrays one after another |
| `Attestation.CoseKeyFits` | duo-autopilot/src/crypto.js:196-204 | section 13.1.1 of RFC 8152: the bytes are the encoding of the key map with these coordinates |
| `Attestation.AttestedReadsBack` | duo-autopilot/src/crypto.js:210-215 | sixteen zero bytes, the id and the key come back exactly when the id is shorter than 65536 bytes |
| `Attestation.AuthDataReadsBack` | duo-autopilot/src/crypto.js:222-227 | hash, flags and counter come back, flags modulo 256 and the counter modulo 2^32 |
| `Attestation.ObjectFits` | duo-autopilot/src/crypto.js:230-236 | the object is the encoding of the map with format "none", no statement and these data |
| `Attestation.RegistrationReadsBack` | duo-autopilot/src/crypto.js:196-236 | a whole registration read by its names "fmt", "attStmt" and "authData" and the key labels of RFC 8152 gives its hash, flags, counter, zero authenticator id, credential id and coordinates |
| `Attestation.BytesEqual` | duo-autopilot/src/crypto.js:54-61 | true exactly for equal bytes |
| `EcdsaDer.EncodeInteger` | duo-autopilot/src/crypto.js:77-83 | the trimming loop yields the minimal integer |
| `EcdsaDer.RawEcdsaSigToDer` | duo-autopilot/src/crypto.js:74-87 | 8 to 72 bytes that a strict decoder reads back to the same r and s |
| `EcdsaDer.ContentIsMinimalValue` | duo-autopilot/src/crypto.js:77-83 | section 8.3 of X.690: the content is minimal and has the value of the input |
| `EcdsaDer.SignatureDecodes` | duo-autopilot/src/crypto.js:74-87 | every 64-byte signature keeps its two numbers |
| `EcdsaDer.DerTellsSignaturesApart` | duo-autopilot/src/crypto.js:74-87 | no two signatures share a DER form |
| `SignCounter.PickCredential` | duo-autopilot/src/background.js:126-140 | the pick is stored and may answer: of the requested party, and listed by bytes when a list was sent |
| `SignCounter.PickIsBest` | duo-autopilot/src/background.js:126-140 | if a credential may answer there is a pick, of the preferred transport if that one is |
| `SignCounter.PickIsFirstBest` | duo-autopilot/src/background.js:126-140 | without a list the first stored of the party on a security key answers, or else the first; with one the first listed one of the platform, or else the first listed; none only if none may |
| `SignCounter.BadBase64Means` | duo-autopilot/src/background.js:126-140 | a pick throws exactly for a list where the party has a credential, and the list or a stored id of the party is no base64 |
| `SignCounter.CountersIncrease` | duo-autopilot/src/background.js:176-181 | section 6.1.1 of WebAuthn Level 2: over every run the counters returned for a credential id strictly increase and none stored is behind one returned, duplicates included |
| `SignCounter.BytesIncreaseExactly` | duo-autopilot/src/background.js:104-140 | what a site sees by decoded id increases in every run of sign requests exactly when the credential picked without a list, and the one picked when its id is listed, are spelled alike |
| `SignCounter.TwoSpellingsRepeat` | duo-autopilot/src/background.js:104-140 | an instance where they are not: two spellings of one id keep two counters, and a value is returned twice |
| `SignCounter.Worker.PersistSignCount` | duo-autopilot/src/background.js:104-114 | raises every counter of the id that is behind, and lowers none |
| `SignCounter.Worker.HandleSign` | duo-autopilot/src/background.js:143-202 | persists before it answers: the pick's counter plus one is stored for its id and returned, nothing stored for the id is behind the answer, and without a pick nothing changes |
| `TailIncremental.PollsGiveTheLines` | src/tracker/tail-incremental.ts:16-56 | for any growth and any poll times the results are the non-empty complete lines of the bytes read, in order, and the pending text is the unfinished last line |
| `TailIncremental.FreshPollsGiveTheLines` | src/tracker/tail-incremental.ts:16-56 | from a fresh start to the end of the file: its lines and its tail |
| `TailIncremental.Tailer.TailIncremental` | src/tracker/tail-incremental.ts:16-56 | one poll, with short reads, errors, a missing or a shrunk file |
| `TailIncremental.Tailer.ReadUpTo` | src/tracker/tail-incremental.ts:31-47 | the read loop gets what the reads granted until one ends or fails: everything wanted otherwise |
| `TailIncremental.TakenCutShort` | src/tracker/tail-incremental.ts:31-47 | a poll takes what was read before the end of the file, and nothing when a read throws |
| `ParseCache.Cache.ReadJsonlCached` | src/tracker/jsonl-core.ts:80-113 | a read is current exactly unless its stamp misleads: an entry still held has the file's stamp and reads otherwise, or should have thrown; a current read is the numbered rows of the valid lines that the guard lets through, in order, and throws exactly on a malformed line without a guard; it never holds more than 64 entries |
| `ParseCache.Cache.ParseLines` | src/tracker/jsonl-core.ts:90-101 | the rows of the lines that parse, numbered as in the file |
| `ParseCache.CacheIsHistory` | src/tracker/jsonl-core.ts:102-111 | after any run of reads and file changes the cache is the full history cut to the 64 paths read last, least recently read first, each as last parsed |
| `ParseCache.HeldExactly` | src/tracker/jsonl-core.ts:82-111 | a file that was read is held exactly as long as fewer than 64 others have been read since |
| `ParseCache.RunIsCurrentExactly` | src/tracker/jsonl-core.ts:80-113 | every read of a run is what parsing then would give exactly when no read meets an entry still held whose stamp came back with contents that read differently |
| `ParseCache.GuardedIsCurrent` | src/tracker/jsonl-core.ts:80-113 | guarded reads are current as long as no stamp of a path stands for two contents |
| `ParseCache.ReturningStampIsStale` | src/tracker/jsonl-core.ts:82-89 | a run of three versions, each change altering the stamp, whose last read serves the rows of the first |
| `RowLifecycle.ObservedTold` | src/tracker/row-lifecycle-debug.ts:288-437 | one observation keeps a story well told: neighbouring snapshots differ; there is one creation and it is first; each of retry, reassign, cancel and discard is recorded exactly where status, step, run and the snapshot before say so; and the events are just the causes, late moves and ends of the snapshots |
| `RowLifecycle.ReplayTold` | src/tracker/row-lifecycle-debug.ts:238-273 | every story of a replay is well told |
| `RowLifecycle.ReplayIsCurrent` | src/tracker/row-lifecycle-debug.ts:238-273 | after a replay each row's last snapshot looks as its last line, the surfaces of the last lines and the data of all its lines say |
| `RowLifecycle.StepShows` | src/tracker/row-lifecycle-debug.ts:255-345 | one line adds at most one snapshot to each row, exactly if the row looks different, with the line's time, the row's run and whether it is its own; an OCR approval is recorded exactly for the row's own done line of an OCR batch or preview |
| `RowLifecycle.ReplayIsMonotone` | src/tracker/row-lifecycle-debug.ts:238-273 | a line no earlier than the rest only extends histories and events; a line of another workflow changes nothing |
| `RowLifecycle.BuildRowLifecycles` | src/tracker/row-lifecycle-debug.ts:238-273 | the replay loops compute that replay |
| `RowLifecycle.BuildTransitionTrail` | src/tracker/row-lifecycle-debug.ts:440-469 | the trail loops compute the sorted lines |
| `RowLifecycle.TrailChains` | src/tracker/row-lifecycle-debug.ts:440-469 | in the sorted trail a row's lines are its snapshots in order, each starting where the last ended |
| `StableSort.FilterSort` | src/tracker/row-lifecycle-debug.ts:242-245 | the stable sort sorts each part of a list by itself |
| `FileLock.StepKeepsHolders` | src/tracker/jsonl-lock.ts:30-44 | a step keeps whoever made the lock file and is not done holding it exactly when it does not remove a live holder's lock, the maker about to write its pid included |
| `FileLock.Exclusive` | src/tracker/jsonl-lock.ts:55-77 | the general form: while no removal hits a live lock, no two live processes are inside |
| `FileLock.FreeLockIsTaken` | src/tracker/jsonl-lock.ts:64-69 | a free lock can be taken by anyone idle, names its owner while that one is inside, and is free afterwards |
| `FileLock.DeadLockIsReclaimed` | src/tracker/jsonl-lock.ts:30-44 | a lock whose owner is dead or missing can be reclaimed by anyone, one whose owner lives by nobody |
| `FileLock.AtomicExclusive` | src/tracker/jsonl-lock.ts:30-77 | with a reclaim as one step and a creation with its pid as another, no two live processes are ever inside: only a lock whose owner is dead or missing is reclaimed, and that is enough, whatever fails or dies |
| `FileLock.LateUnlinkAdmitsTwo` | src/tracker/jsonl-lock.ts:30-44 | a run in which every creation is one step: judging and unlinking as two steps lets two in |
| `FileLock.LatePidAdmitsTwo` | src/tracker/jsonl-lock.ts:66-69 | a run in which every reclaim is one step: a pid written long after the file was made lets two in |
| `FileLock.LockedCall.WithExclusiveFileLock` | src/tracker/jsonl-lock.ts:55-117 | the body runs once if the lock was made and not otherwise, the first attempt that does not wait deciding; all failures are reported in order, and the file is gone unless removing it failed or the pid could not be written |

## Left out

- Compaction: the projection rebuild behind the generation bump, lock time-outs, and JSONL text that is not valid UTF-8; empty lines are dropped as the code drops them.
- Compaction: one compactor at a time, which the tracker-wide compaction lock is for; its own lock file is `file_lock`.
- DeletedRuns.CompactionRemovesExactly: ids, workflows and dates without NUL, because keys are NUL-joined; the same holds of the other results of `deleted_runs`.
- Digests and signatures: SHA-256 is taken as injective, ECDSA and key material are not modelled.
- JsonText: the grammar of RFC 8259 over bytes.
- JsonStringify.StringifiedIsRecord: numbers are integers and characters are bytes; fractions, exponents and escaped surrogates are not printed.
- Terminal rows: the corrective "terminalization-uncertain" row and the SIGINT and SIGTERM writer, which both bypass the token on purpose.
- Run registry: the watchdog, audit rows and browser kills of a cancel.
- Queue surfaces: OCR links, title overrides and the synthetic parent's trace id.
- Row counts: log times are numbers and whether a search is by employee id is given; RowCount.SidebarShowsEachOnce needs ids without NUL, because entry keys are NUL-joined.
- CancelTree.LatestMeans: the program looks 30 days back for the row; older rows count as absent here.
- CancelTree.CancelRowCloses: the parent run and the data a cancel row inherits are its operation and preparation marks only.
- Tree actions: other processes changing task states between two handler calls of one request; the NULL `control_state` refusal is modelled, malformed input JSON is not.
- CancelTree.Control.CancelResolved: the request ends if no row without a task, and no task its own target does not find, lies below itself; that is sufficient, and links that form a cycle through other runs do no harm.
- CancelTree.Control.CancelResolved: projected run rows keep their status while cancel rows are written, so a later resolution of the same request sees the status from before it.
- CancelTree.SuccessLeavesUnsettled: ids without NUL, because targets are merged under a NUL-joined key; and tasks that their own target finds, which leaves out a task whose run has no attempt (enqueueing writes both, src/core/task-store/enqueue.ts:73-105) and an older task without a run of an item that has a newer one; `CancelTree.SuccessLetsGoOn` counts them.
- CancelTree.SuccessLetsGoOn: whether a task its own target does not find goes on is read off the tables afterwards, because another target or a released dependency may happen to settle it; ids without NUL.
- CancelTree.Control.DiscardPrep: what an OCR discard does to the rows and tasks of its session.
- DeleteClosure.Deletions.DeleteEntry: the text key of a target is a tuple, the NUL-joined text being taken as injective; bulk deletes and a failing manifest append are not modelled.
- Keyed mutex: unhandled-rejection reporting; microtasks are taken in any order, which includes the real one.
- File lock: ages; a lock without an owner may be judged stale at any time, which includes the right ones.
- Sign counter: the options page and re-imports of a credential, which may set a counter back; counters beyond 2^32 wrap in the authenticator data only.
- SignCounter.BytesIncreaseExactly: runs of sign requests only; an enrolment draws a random id, taken to differ from all others as text.
- Tail: a poll that ends inside a multi-byte character decodes it wrongly in the program; bytes stand for characters here.
- Parse cache: a file that changes between the examination of its stamp and the read.
- Row lifecycle: subject, input and end-state fields of a story, and the files it is written to; the surface classifier and the signature text are parameters.
- Playwright drivers, dashboards, the CLI, configuration, status tags, titles, trace ids, ordinals: no inductive content.
- Supersede: the enqueue path logs and skips some failed cancels, so its "one active run" claim does not follow.
