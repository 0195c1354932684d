# NexaTerm core: a verified model

NexaTerm is a desktop terminal that keeps session groups, credentials and scheduled tasks in a SQLite database and an
encrypted vault file, and works on remote machines over SSH and SFTP. This project models the parts of its Rust back end
whose correctness is hard to see from the code, and proves what they promise. Check it with `dafny verify dfyconfig.toml`
(Dafny 4.11).

| component | files |
|---|---|
| Session groups: validation, parent-first order, merge of an imported forest, row-by-row rewrite of the table under its constraints, single saves | Forest, ConnectionGroups, GroupTable, GroupOrder, GroupRounds, GroupMerge, GroupMergeProofs, GroupMergeTheorems, GroupPersist, GroupOperations |
| One-time migration of the old group rows: matching, cycle cutting, the resulting forest | LegacyCycles, GroupLegacy, GroupLegacyPlan |
| Crash recovery of vault and database: journal protocol, its two clients, the undo log of secrets | RecoveryProtocol, TransferRecovery |
| Remote exec session pool: interleaved tasks over a shared map | SessionPool, SessionPoolLock |
| Crontab documents: parse, edit, render, parse again, and what cron runs | CrontabRecord, CrontabRecordProofs, Crontab, CrontabTheorems, CrontabEdits, CrontabReading, CrontabRuns |
| SFTP: resumable transfer, removal of a tree with an explicit stack | SftpTransfer, RemoteTree |
| Server-sent events; shell quoting and the grammar of arguments | SseStream, SseCalls, ShellQuoting, ShellGrammar |
| Directory swap of the brand migration, lifecycle of the MCP sidecar | BrandMigration, McpSidecar |
| Shared types and the string functions of the Rust library | Common, Text |

How the model reads the source:

- Objects that the source updates in place are classes: the group table, the data directory with the unlocked vault, the
  session pool, the crontab document, a transfer's files, the remote side of a deletion, the application directories, the
  sidecar manager. Loops are loops. What a loop computes is specified by a function or a predicate, and the properties are
  proved about that.
- A failing file, network, database or process operation is a nondeterministic choice at the place where the source can
  fail, so every early return is covered. Concurrency and crashes are sequences of steps: lock sections and file
  operations are atomic, anything may happen between two of them, and a crash may come after any step, a torn copy
  included.
- Fresh UUIDs are values that are not in use. Times, the JSON, base64 and UTF-8 codecs, and what SQLite makes of a file
  are parameters.

Results that differ from what the names or comments in the source suggest:

- `persist` can fail on a valid forest, but only for an id or a name that starts with a NUL character, because SQLite's
  `length` stops there (`GroupTable.TextChecksExact`, `GroupTable.ValidButNotStorable`, `GroupPersist.Persist`).
- An enabled task whose cron starts with `# ` and shows a metadata key before an equals sign is accepted. With the key
  `updated_at` it is read back wrongly; with any other the whole crontab is refused from then on. This is the only
  exception to the round trip (`CrontabRecordProofs.BlockRoundTrip`, `CrontabTheorems.ReloadFailsExactly`,
  `CrontabEdits.ShadowingHappens`).
- An enabled task whose schedule starts with `#` is accepted and never runs, since its run line is a comment
  (`CrontabRuns.RunsExactly`).
- An ordinary vault save is lost at the next recovery when a transfer left its journal behind before it, and also when it
  falls between the copy of the vault and the publication of the journal, where no journal exists yet
  (`RecoveryProtocol.SaveSurvives`, `RecoveryProtocol.SaveIsLost`, `RecoveryProtocol.SaveInsideBeginIsLost`).
- `begin` does not exclude a second `begin` that runs at the same time. Each transfer alone is atomic; together they can
  leave the old vault beside the new tables (`RecoveryProtocol.CrashAtomicity`, `RecoveryProtocol.TwoTransfersMix`).
- Two sidecars can be alive at once, exactly when one is started after `try_wait` failed on a live one
  (`McpSidecar.SecondSidecarExactly`, `McpSidecar.SingleExactly`, `McpSidecar.TwoSidecars`).
- Several errors of the source cannot occur: the unresolvable order, the missing parent mapping and, with a valid local
  forest, every error of the final validation in the group merge; the shared target and every structural validation
  error in the automatic legacy migration; the missing backup in recovery; the unsupported quote marker in argument
  parsing.

## Model

| member | source | states |
|---|---|---|
| ConnectionGroups.ValidateTree | src-tauri/src/connection_groups.rs:26-67 | accepts exactly the valid forests: non-empty unique ids, trimmed non-empty names, no two equal names under one parent, and a rank that falls along every parent edge; each error names a defect that is really there |
| ConnectionGroups.CheckRows | src-tauri/src/connection_groups.rs:26-48 | the first loop accepts exactly when names, ids and sibling names are fine, and builds the id map of all groups |
| ConnectionGroups.CheckAncestors | src-tauri/src/connection_groups.rs:49-66 | the walk from one group ends at a root, or there is a cycle or a missing parent above it |
| ConnectionGroups.PushKeepsValid | src-tauri/src/connection_groups.rs:26-67 | a group with a new id and a free sibling name under an existing parent keeps a forest valid |
| Forest.ReparentExact | src-tauri/src/connection_group_schema.rs:100-116 | moving one node below another keeps a forest if and only if the node is not at or above its new parent: what the cycle triggers test |
| Forest.RootedIsForest | src-tauri/src/connection_groups.rs:49-66 | if every node reaches a root there is a rank, so there is no cycle anywhere |
| GroupTable.UpsertExact | src-tauri/src/connection_group_schema.rs:84-116 | the schema accepts a row write if and only if the table after it satisfies every constraint |
| GroupTable.TextChecksExact | src-tauri/src/connection_group_schema.rs:85-94 | a validated group passes the CHECK clauses if and only if its id and name do not start with NUL |
| GroupTable.ValidButNotStorable | src-tauri/src/connection_group_schema.rs:85-94 | a valid forest that the table refuses exists: a root whose name starts with NUL |
| GroupTable.ConnectionGroupTable.CycleTrigger | src-tauri/src/connection_group_schema.rs:100-116 | the recursive query of the trigger fires exactly when the row is at or above its new parent |
| GroupTable.ConnectionGroupTable.Upsert | src-tauri/src/connection_group_transfer.rs:148-152 | one upsert either is refused and changes nothing, or writes that one row with every given column but the creation time of a row that was there |
| GroupTable.ConnectionGroupTable.Park | src-tauri/src/connection_group_transfer.rs:142-146 | one temporary rename to the root is refused exactly when a root name clashes |
| GroupOrder.Ordered | src-tauri/src/connection_group_transfer.rs:45-66 | fails only when validation fails: the error for an unresolvable order is unreachable; otherwise returns the parent-first order |
| GroupOrder.ParentFirstSound | src-tauri/src/connection_group_transfer.rs:45-66 | the order is a permutation of the groups with every parent before its children |
| GroupOrder.SomeReady | src-tauri/src/connection_group_transfer.rs:51-64 | as long as groups of a valid forest remain, a pass places at least one of them |
| GroupRounds.OrderIsExact | src-tauri/src/connection_group_transfer.rs:45-66 | the order in full: a root comes in the first pass, a child in the pass of its parent if the parent stands before it in the list and in the next one otherwise; the result goes by passes, and within a pass by the old order |
| GroupMerge.Plan | src-tauri/src/connection_group_transfer.rs:75-124 | computes the merge, failing exactly when there is none |
| GroupMergeTheorems.MergeCorrect | src-tauri/src/connection_group_transfer.rs:80-123 | a successful merge is a valid forest, keeps local ids, positions and creation times (in skip mode the whole local prefix), leaves local groups that are nobody's target as they were, maps imported ids totally and injectively, and has as many groups as local and imported ones less the conflicts; field by field, a created group is the imported one below the image of its parent, an overwritten one has name, parent, order, colour and update time from it, and the target is the local group with the id or else the one with the name below that parent |
| GroupMergeTheorems.MergeIdempotent | src-tauri/src/connection_group_transfer.rs:75-124 | importing the same groups into the result gives the same groups, the same mapping and a conflict for every imported group, in both modes |
| GroupMergeTheorems.ParentAlwaysMapped | src-tauri/src/connection_group_transfer.rs:86-95 | the error for a missing parent mapping is unreachable |
| GroupMergeTheorems.SkipFailsOnlyOnAmbiguity | src-tauri/src/connection_group_transfer.rs:96-118 | in skip mode, with a valid local forest, the final validation cannot fail: only an ambiguous or repeated target can |
| GroupMergeTheorems.SkipStaysValid | src-tauri/src/connection_group_transfer.rs:80-118 | in skip mode every intermediate group list is a valid forest |
| GroupMergeTheorems.OverwriteFailsOnlyOnAmbiguity | src-tauri/src/connection_group_transfer.rs:80-123 | in overwrite mode, too, with valid inputs the final validation cannot fail: there is a merge if and only if the loop ends, and only an ambiguous or repeated target stops it |
| GroupMergeTheorems.OverwriteStaysValid | src-tauri/src/connection_group_transfer.rs:80-118 | in overwrite mode every intermediate group list is a valid forest: placed groups hang as imported, the others as before, and no cycle can close between the two |
| GroupPersist.FreshName | src-tauri/src/connection_group_transfer.rs:130-141 | finds a temporary name that no stored or new group has |
| GroupPersist.ParkAll | src-tauri/src/connection_group_transfer.rs:135-147 | renames every stored row without violating a constraint; afterwards every row is a root under a name of its own |
| GroupPersist.WriteAll | src-tauri/src/connection_group_transfer.rs:148-152 | writes the ordered rows; every one is accepted exactly when its texts can be stored |
| GroupPersist.NextAccepted | src-tauri/src/connection_group_transfer.rs:148-152 | the next row in parent-first order violates neither name uniqueness, nor parent existence, nor a trigger, whatever is still parked |
| GroupPersist.Persist | src-tauri/src/connection_group_transfer.rs:127-154 | never aborts part-way: succeeds if and only if the groups are a valid forest whose texts can be stored; no row id disappears; the constraints hold throughout |
| GroupPersist.InstalledExactly | src-tauri/src/connection_group_transfer.rs:127-154 | when the groups include every stored id with its creation time, the final table is exactly the given groups |
| GroupOperations.MergeFeedsPersist | src-tauri/src/connection_group_transfer.rs:75-154 | a merge result always meets that condition |
| GroupOperations.ImportGroups | src-tauri/src/connection_transfer.rs:287-293 | plan and persist together: the table becomes exactly the merged forest, or planning or a write failed and it is unchanged |
| GroupOperations.SaveGroup | src-tauri/src/connection_groups.rs:110-170 | succeeds if and only if the id, if given, is known, the order is in range, the edited groups are a valid forest and the texts can be stored; the table changes only then and in one row, which has the trimmed name, the given parent and colour, the old creation time, and the old order or the one behind its siblings; each error has its stated reason |
| GroupOperations.EditIsValidExactly | src-tauri/src/connection_groups.rs:110-170 | in a valid forest an edit keeps it valid if and only if the row is properly named, no sibling bears its name, and its parent exists and is not at or below it |
| GroupOperations.LastOrder | src-tauri/src/connection_groups.rs:135-147 | the order after which a new sibling is placed is the largest one in use, and -1 only where there is no sibling |
| LegacyCycles.BreakCycles | src-tauri/src/connection_group_legacy.rs:196-211 | for any parent array the loop leaves an acyclic graph, cuts exactly one edge of each cycle, keeps every edge of a node off the cycles, reports exactly the rows it cut, and cuts each cycle where the walk from the first row that leads into it enters it |
| LegacyCycles.FindRepeated | src-tauri/src/connection_group_legacy.rs:197-209 | the walk from a row finds a repeated row exactly when it runs into a cycle, and that row is on it |
| LegacyCycles.EveryCycleCut | src-tauri/src/connection_group_legacy.rs:196-211 | a cycle that lost no edge would still be there |
| GroupLegacy.AssignExplicitly | src-tauri/src/connection_group_legacy.rs:135-162 | confirmed mappings are accepted if and only if there is exactly one for every row, parent rows are in range and chosen groups exist; every row then gets its name, parent row and target |
| GroupLegacy.MatchRow | src-tauri/src/connection_group_legacy.rs:181-194 | a row has a target exactly when the local group with its id, if any, bears its name and at most one local group does; the target is that group, or a new one |
| GroupLegacy.MatchAutomatically | src-tauri/src/connection_group_legacy.rs:164-195 | automatic matching succeeds if and only if ids and trimmed names are unique and no row has several matches |
| GroupLegacy.TargetsAreDistinct | src-tauri/src/connection_group_legacy.rs:213-215 | after automatic matching two rows never share a target, so the check that follows cannot fail |
| GroupLegacyPlan.Assemble | src-tauri/src/connection_group_legacy.rs:216-259 | every row becomes one group at the place of its target or at the end, ordered among its siblings; in automatic mode it fails exactly when a row would move or recolour a placed or coloured local group |
| GroupLegacyPlan.AllFitExactly | src-tauri/src/connection_group_legacy.rs:216-259 | the rows fit in automatic mode if and only if every local group that has a parent or a colour of its own keeps it |
| GroupLegacyPlan.ResultIsForest | src-tauri/src/connection_group_legacy.rs:196-260 | the combined parent relation is a forest if and only if no walk along the parent rows runs in a circle, whatever rows meet whatever local groups |
| GroupLegacyPlan.OnlyBlankNamesFail | src-tauri/src/connection_group_legacy.rs:260 | in automatic mode the final validation fails on a blank name and on nothing else |
| GroupLegacyPlan.ChosenOnce | src-tauri/src/connection_group_legacy.rs:133-212 | the inputs determine the assignment of names, parent rows and targets: the confirmed one, or the matches with their cycles cut where the loop cuts them |
| GroupLegacyPlan.ConfirmedChoice | src-tauri/src/connection_group_legacy.rs:135-162 | with confirmed mappings every row gets the trimmed name, the parent row and the group of its own mapping, and a new id where none is named |
| GroupLegacyPlan.AutomaticChoice | src-tauri/src/connection_group_legacy.rs:164-212 | without them every row keeps its trimmed name, gets the only local group of that name or else a new id, and stands below the row with its parent id but for the edges that are cut |
| GroupLegacyPlan.Plan | src-tauri/src/connection_group_legacy.rs:125-262 | goes through if and only if there is that assignment, its targets differ, in automatic mode the rows fit, and the resulting groups are a valid forest; the result then holds for every row a group with its target id, name, colour and parent, behind its earlier siblings, updated now and created when the local group was; local ids, positions and creation times are kept, other local groups are as they were, and the legacy id of every row is mapped to its group; on a valid local forest the automatic mode succeeds if and only if the rows are unambiguous, fit and are named, and fails validation for a blank name only |
| GroupLegacyPlan.MigrateLegacyGroups | src-tauri/src/connection_group_legacy.rs:56-122 | succeeds if and only if the plan goes through and, when there are rows, its texts can be stored; the table then holds exactly those groups beside the untouched ones, and otherwise it is as it was |
| RecoveryProtocol.StepRefines | src-tauri/src/connection_transfer_recovery.rs:28-148 | every step of the journal protocol by a client that is alone, a crash, a torn copy and an ordinary save at any moment included, keeps the disk sound, and what recovery would make of it moves exactly as an atomic store: a save made while a transfer is pending does not count, and publishing a journal takes the vault back to the copy |
| RecoveryProtocol.RunRefines | src-tauri/src/connection_transfer_recovery.rs:28-148 | the same for every sequence of such steps, with saves of other commands anywhere in it |
| RecoveryProtocol.CrashAtomicity | src-tauri/src/connection_transfer_recovery.rs:73-148 | cut anywhere, a transfer of a client that is alone and sees no save in between recovers to both stores from before it or both from after it |
| RecoveryProtocol.SaveSurvives | src-tauri/src/connection_transfer_recovery.rs:73-136 | over any later steps short of another save or a COMMIT, crashes, recovery and further transfers included, an ordinary vault save survives if and only if no uncommitted transfer was pending (or it saved what recovery restores, or the client that already put the vault back goes on to remove the journal) and every journal published later belongs to a transfer that copied the saved vault |
| RecoveryProtocol.SaveIsLost | src-tauri/src/connection_transfer_recovery.rs:28-136 | a run that loses one: a transfer that left its journal behind without writing anything, a successful save, and recovery |
| RecoveryProtocol.SaveInsideBeginIsLost | src-tauri/src/connection_transfer_recovery.rs:28-57 | a run that loses one although no journal existed when it was made: it fell between the copy of the vault and the publication of the journal |
| RecoveryProtocol.TwoTransfersMix | src-tauri/src/connection_transfer_recovery.rs:28-148 | without that condition atomicity fails: two clients begin at once, the second publishes over the journal of the first, the first commits, and recovery puts the old vault beside the new tables |
| TransferRecovery.DataDirectory.SaveSecret | src-tauri/src/storage_vault.rs:539-548 | an ordinary save looks at no journal; while a transfer is pending the recovered view does not change; a failed one leaves the unlocked vault ahead of the file |
| TransferRecovery.DataDirectory.WriteJournal | src-tauri/src/storage.rs:97-120 | the journal appears complete in one step or not at all, whatever the vault is by then; recovery then leads to the copy |
| TransferRecovery.DataDirectory.Begin | src-tauri/src/connection_transfer_recovery.rs:28-57 | after it the journal is complete and names the fresh transaction and the vault from the start of the call, whatever other commands saved meanwhile, or the journal is as it was; never over a journal that was there before |
| TransferRecovery.DataDirectory.Restore | src-tauri/src/connection_transfer_recovery.rs:122-136 | restores the original vault; the missing-backup error is unreachable |
| TransferRecovery.DataDirectory.Cleanup | src-tauri/src/connection_transfer_recovery.rs:138-148 | journal before backup, each step leaving the recovered view unchanged |
| TransferRecovery.DataDirectory.Abort | src-tauri/src/connection_transfer_recovery.rs:67-71 | if the journal is gone the vault is the original one |
| TransferRecovery.DataDirectory.Recover | src-tauri/src/connection_transfer_recovery.rs:73-93 | on success the journal is gone, the vault is the backup (or absent, if there was none) when the transaction never committed and untouched when it did, and both stores are what the last atomic step made them; on failure that is still what recovery leads to; from every sound disk it completes when no operation fails |
| TransferRecovery.DataDirectory.RestoreSecrets | src-tauri/src/connection_transfer.rs:502-513 | replays the log from the end; on success the secrets are those of the undo function |
| TransferRecovery.StoredExactly | src-tauri/src/connection_transfer.rs:465-490 | after any number of writes a slot holds what was written to it last, or what it held before |
| TransferRecovery.UndoRestores | src-tauri/src/connection_transfer.rs:465-513 | for any list of writes, repeated slots included, stopped anywhere, replaying the recorded backups in reverse gives back the original store, absent slots absent |
| TransferRecovery.FirstUndoRestores | src-tauri/src/sync_import_transaction.rs:16-46 | the same for the log that is recorded before anything is written |
| TransferRecovery.DataDirectory.WriteSecrets | src-tauri/src/connection_transfer.rs:465-490 | all secrets are written and logged, or the failure path has undone them |
| TransferRecovery.DataDirectory.ApplyTransfer | src-tauri/src/connection_transfer.rs:269-500 | however it returns, from any vault file and memory and with saves of other commands inside begin: after COMMIT the stores recover to the new pair, otherwise to the old one; early returns that leave the journal behind included; refused without effect while a journal is pending, and successful without faults otherwise |
| TransferRecovery.DataDirectory.ApplySync | src-tauri/src/sync_import_transaction.rs:10-48 | the same for the second client of the journal |
| TransferRecovery.DataDirectory.ReplaceSecrets | src-tauri/src/sync_import_transaction.rs:22-33 | whichever way the secret import stops, its log undoes it |
| TransferRecovery.CrashInClient | src-tauri/src/connection_transfer.rs:269-499 | a crash after any prefix of the steps that an undisturbed client took recovers to the stores from before or after the whole call |
| SessionPool.StepConserves | src-tauri/src/remote_exec_pool.rs:194-352 | every step of every task keeps each opened session in exactly one place: held, mapped, owed one close, or closed |
| SessionPool.RunConserves | src-tauri/src/remote_exec_pool.rs:194-352 | the same in every state of every interleaving |
| SessionPool.SessionsAccountedFor | src-tauri/src/remote_exec_pool.rs:119-124 | no session is closed twice, none the map offers is closed, and none is forgotten once the tasks are done |
| SessionPool.CapacityBound | src-tauri/src/remote_exec_pool.rs:298-328 | with a limit of at least two and N callers the map never holds more than the limit less one plus N sessions |
| SessionPool.HandlesMatch | src-tauri/src/remote_exec_pool.rs:194-267 | the session a caller uses carries its connection and signature, also after a lost connect race |
| SessionPool.GivingUpIsExact | src-tauri/src/remote_exec_pool.rs:330-347 | pointer identity decides: a timer, a stale or failed session or idle pruning removes that very session and owes it a close, and leaves every entry with another session alone, a newer one under the same id first |
| SessionPool.StoringIsExact | src-tauri/src/remote_exec_pool.rs:233-267 | a session for another configuration is replaced and owed a close; one for the same configuration stays, is used, and the new one is owed a close |
| SessionPool.EvictionIsExact | src-tauri/src/remote_exec_pool.rs:298-328 | a full pool is cut to one less than the limit or to the caller's own entry, each session that goes is owed a close, and below the limit or without one nothing goes |
| SessionPool.EntryGoes | src-tauri/src/remote_exec_pool.rs:119-352 | the only reasons for an entry to go or change: its session is given up, its connection invalidated, evicted for another one, or replaced for another configuration; it is always owed a close |
| SessionPool.EntryComes | src-tauri/src/remote_exec_pool.rs:233-267 | an entry comes only from a caller that stores the session it opened for its own configuration |
| SessionPool.ExecsBounded | src-tauri/src/remote_exec_pool.rs:156-192 | in every interleaving a call runs its command at most twice, and at most once without a retry |
| SessionPool.CallKeepsConfig | src-tauri/src/remote_exec_pool.rs:156-192 | a call works for its own configuration from its start to its end |
| SessionPool.NoTaskIsStuck | src-tauri/src/remote_exec_pool.rs:119-352 | no task is ever stuck: whatever the others have done it can take its next step |
| SessionPoolLock.RemoteExecSessionPool.InvalidateHandle | src-tauri/src/remote_exec_pool.rs:330-347 | removes the entry only if it still holds this very session |
| SessionPoolLock.RemoteExecSessionPool.InvalidateConnection | src-tauri/src/remote_exec_pool.rs:119-124 | removes whatever session the connection has and hands it over for closing |
| SessionPoolLock.RemoteExecSessionPool.Store | src-tauri/src/remote_exec_pool.rs:233-267 | an existing session for the same configuration wins and the new one is owed a close; otherwise the new one replaces it |
| SessionPoolLock.RemoteExecSessionPool.PruneExtra | src-tauri/src/remote_exec_pool.rs:298-328 | removes exactly the surplus, never the active connection, and owes each removed session a close |
| CrontabRecord.ParseTaskBlock | src-tauri/src/scheduled_tasks.rs:508-558 | reads the lines between the markers in order, the first error deciding |
| CrontabRecordProofs.BlockRoundTrip | src-tauri/src/scheduled_tasks.rs:434-558 | a well-formed record survives rendering and reading if and only if its run line does not shadow its metadata: an enabled task whose cron starts with "# " and has a known key before an equals sign |
| CrontabRecordProofs.BlockFailsExactly | src-tauri/src/scheduled_tasks.rs:434-558 | reading it back fails if and only if that key is not updated_at |
| CrontabRecordProofs.EnabledRunLine | src-tauri/src/scheduled_tasks.rs:445-459 | the exact effect of an enabled task's run line on the reader |
| CrontabRecordProofs.DisabledLine | src-tauri/src/scheduled_tasks.rs:452-458 | a disabled task's run line never has one |
| CrontabRecordProofs.MetadataRestores | src-tauri/src/scheduled_tasks.rs:434-443 | the six metadata lines alone restore every field |
| CrontabRuns.RunCommandWords | src-tauri/src/scheduled_tasks.rs:656-677 | the words of the run command are the assignments of the task id and of the encoded command, the shell, -lc and the script |
| CrontabRuns.EscapedIsRead | src-tauri/src/scheduled_tasks.rs:822-824 | what cron reads from the escaped command is the command, whatever percent signs and backslashes it holds |
| CrontabRuns.NoBarePercent | src-tauri/src/scheduled_tasks.rs:822-824 | no percent sign of the escaped command stands without a backslash |
| CrontabRuns.BlockText | src-tauri/src/scheduled_tasks.rs:434-461 | the nine lines of a block: markers, six metadata lines, and a line that runs the task with its own command, behind a comment when it is disabled |
| CrontabRuns.RunsExactly | src-tauri/src/scheduled_tasks.rs:434-461 | cron runs a line of the block if and only if the task is enabled and its schedule does not itself start a comment |
| CrontabRuns.CronRunsEnabledTasks | src-tauri/src/scheduled_tasks.rs:404-461 | in the rendered text every enabled task has its run line, and every line is a comment, a foreign line, or the run line of an enabled task |
| CrontabRuns.AcceptedIds | src-tauri/src/scheduled_tasks.rs:639-654 | an id is accepted if and only if after trimming it has one to 96 letters, digits, hyphens and underscores |
| CrontabRuns.AcceptedCrons | src-tauri/src/scheduled_tasks.rs:594-625 | a schedule is accepted if and only if after trimming it is one of five macros or has exactly five fields, on one line |
| CrontabReading.BodyExactly | src-tauri/src/scheduled_tasks.rs:508-558 | every field of a record that was read is what the last line for its key says |
| Crontab.ParseCrontab | src-tauri/src/scheduled_tasks.rs:463-506 | the loop over the lines groups foreign lines and blocks as the specification of the document says |
| CrontabReading.ReadExactly | src-tauri/src/scheduled_tasks.rs:463-506 | a text is read if and only if its lines divide into foreign lines and blocks, each block from an opening marker to the first closing one with a readable body, and the items are then those |
| CrontabReading.GroupIsGrouped | src-tauri/src/scheduled_tasks.rs:463-506 | the document is the only grouping of its items without empty or adjacent foreign segments |
| Crontab.CollectBlock | src-tauri/src/scheduled_tasks.rs:480-489 | a block ends at the first closing marker, or there is none |
| Crontab.TrimOuterBlankLines | src-tauri/src/scheduled_tasks.rs:826-833 | drops the blank lines at both ends and nothing else |
| CrontabReading.TrimBlankExactly | src-tauri/src/scheduled_tasks.rs:826-833 | what is left has no blank line at either end, and only blank lines outside it were dropped |
| Crontab.CrontabDocument.Upsert | src-tauri/src/scheduled_tasks.rs:387-393 | replaces the first task with the id, or adds one at the end |
| Crontab.CrontabDocument.Remove | src-tauri/src/scheduled_tasks.rs:395-402 | drops every task with the id and tells whether there was one |
| CrontabReading.UpsertedExactly | src-tauri/src/scheduled_tasks.rs:387-393 | one place changes: the first task with the id, or the end |
| CrontabReading.RemovedExactly | src-tauri/src/scheduled_tasks.rs:395-402 | every segment is decided by itself: a task with the id goes, all else stays in order |
| Crontab.CrontabDocument.Render | src-tauri/src/scheduled_tasks.rs:404-418 | writes the segments in order, trimmed, with one final newline |
| CrontabReading.WrittenExactly | src-tauri/src/scheduled_tasks.rs:404-418 | every line adds its text and one line break |
| CrontabTheorems.ItemsOfFold | src-tauri/src/scheduled_tasks.rs:463-506 | grouping foreign lines loses no line and no task |
| CrontabTheorems.RoundTrip | src-tauri/src/scheduled_tasks.rs:404-506 | parsing a rendered document gives it back, adjacent foreign runs merged and outer blank lines trimmed, if and only if no task of it shadows its metadata |
| CrontabTheorems.ReloadFailsExactly | src-tauri/src/scheduled_tasks.rs:404-506 | a rendered document is refused on reload if and only if it holds such a task: one makes the whole crontab unreadable |
| CrontabEdits.ParsedIsSafe | src-tauri/src/scheduled_tasks.rs:463-558 | whatever the parser accepts is well formed and already grouped |
| CrontabEdits.UpsertIsLocal | src-tauri/src/scheduled_tasks.rs:136-155 | upsert, install and reload give back exactly the edited document, outer blank lines trimmed: the record is there, and every other task and every non-blank foreign line is kept in order |
| CrontabEdits.RemoveIsLocal | src-tauri/src/scheduled_tasks.rs:157-178 | remove, install and reload give back exactly the edited document, outer blank lines trimmed: no task has the id, everything else is kept in order |
| CrontabEdits.ShadowingHappens | src-tauri/src/scheduled_tasks.rs:594-625 | a task that is accepted and whose crontab cannot be reloaded exists: cron "# id=x y z w" |
| Text.LinesOfUnlines | src-tauri/src/scheduled_tasks.rs:404-418 | reading lines back from a newline-terminated text gives the lines that were written |
| Text.TrimExactly | src-tauri/src/scheduled_tasks.rs:891-897 | trimming takes away the whitespace at both ends, all of it and nothing else |
| ShellQuoting.ParseScriptArgs | src-tauri/src/mcp.rs:1535-1610 | the loop computes the words of the text |
| ShellGrammar.ArgumentsAreWords | src-tauri/src/mcp.rs:1535-1610 | a text is accepted if and only if it splits into whitespace, plain and escaped characters, single and double quotations, and the arguments are then exactly the words they make |
| ShellQuoting.QuotingRoundTrip | src-tauri/src/mcp.rs:1535-1610 | for every list of strings, parsing the space-joined quotations gives back exactly that list |
| ShellQuoting.ScanQuoted | src-tauri/src/remote_files.rs:245-251 | one quotation is read as one word, empty ones included, whatever it contains |
| ShellQuoting.ScriptCallWords | src-tauri/src/mcp.rs:1513-1533 | the words of the script call are interpreter, path and the parsed arguments |
| ShellQuoting.ExecuteScriptWords | src-tauri/src/mcp.rs:1513-1533 | the command is built exactly when the arguments parse, and holds such a call between the permission change and the removal of the upload |
| ShellQuoting.RequotingIsStable | src-tauri/src/mcp.rs:1513-1533 | quoting what was parsed and parsing it again changes nothing |
| ShellQuoting.ScanNeverFails | src-tauri/src/mcp.rs:1563-1575 | the error for an unsupported quote marker is unreachable |
| ShellQuoting.FailureIsUnfinished | src-tauri/src/mcp.rs:1596-1604 | parsing fails only on an unclosed quote or a trailing escape: one closing quote, or one character and a quote, completes it |
| SftpTransfer.ResumeOffset | src-tauri/src/remote_files.rs:2543-2549 | the offset is the length of the part file or zero, and never beyond the total |
| SftpTransfer.NextReadLen | src-tauri/src/remote_files.rs:2551-2554 | never past the total, and zero only at the end |
| SftpTransfer.KeptSize | src-tauri/src/remote_files.rs:2543-2549 | a part file is kept whole unless it is longer than the total, and then not at all; the offset is the length of what is kept |
| SftpTransfer.Transfer.PreparePart | src-tauri/src/remote_files.rs:1970-2033 | before the first byte the part file holds exactly the kept bytes, or the attempt failed and lost none of them |
| SftpTransfer.Transfer.UploadFile | src-tauri/src/remote_files.rs:1961-2081 | success: the target is the kept bytes continued with the source, no part file; failure or cancellation anywhere leaves kept bytes plus a stretch of the source, and the target old, or absent beside a complete part; progress is monotone and bounded if the source is not longer than announced; it succeeds whenever no operation fails and nobody cancels |
| SftpTransfer.Transfer.DownloadFile | src-tauri/src/remote_files.rs:2083-2236 | the same for the announced size; without faults it succeeds if and only if the source is long enough or the part file alone has that size, and otherwise only then |
| SftpTransfer.ResumeCorrect | src-tauri/src/remote_files.rs:1961-2236 | after any number of failed or cancelled attempts the part file is a prefix of the source, and a successful attempt leaves the target equal to the source with no part file |
| SftpTransfer.SuccessIsExact | src-tauri/src/remote_files.rs:1961-2236 | success delivers the source if and only if the part file found was absent, too long, or a prefix of it |
| SftpTransfer.SuccessSpelled | src-tauri/src/remote_files.rs:1961-2236 | a successful attempt delivers the bytes of the kept part file, whatever they are, and behind them those of the source at the same places |
| SftpTransfer.ForeignPartSpoils | src-tauri/src/remote_files.rs:1961-2236 | a part file that is no prefix makes a successful attempt deliver something else |
| RemoteTree.Remote.RemoveTree | src-tauri/src/remote_files.rs:2343-2378 | terminates on every tree and removes the whole subtree and nothing else; directories are removed only when empty; stopped by a fault it has removed entries of the subtree only; without faults it succeeds exactly when the root exists |
| RemoteTree.EmptyByThen | src-tauri/src/remote_files.rs:2369-2374 | when the turn of a directory comes nothing is left inside it |
| RemoteTree.ExpandKeepsPlan | src-tauri/src/remote_files.rs:2352-2362 | pushing a directory and its entries keeps every entry owned by exactly one pending step, contents above their directory |
| RemoteTree.PopKeepsPlan | src-tauri/src/remote_files.rs:2363-2374 | so does removing the one entry of the top step |
| SseStream.FindBytes | src-tauri/src/ai_assistant.rs:1468-1475 | finds the first occurrence, if there is one |
| SseStream.NextSseEvent | src-tauri/src/ai_assistant.rs:1453-1466 | the bytes before the first blank line of either kind, and the position after it; none exactly when there is no blank line |
| SseStream.EventStays | src-tauri/src/ai_assistant.rs:1453-1466 | appending bytes never changes an event already found |
| SseStream.DrainedAppend | src-tauri/src/ai_assistant.rs:1431-1450 | draining early and draining later come to the same |
| SseStream.ReadSseEvents | src-tauri/src/ai_assistant.rs:1423-1451 | chunk independence: for every split of a byte stream the calls and the outcome are those of the unsplit stream |
| SseStream.SendableExactly | src-tauri/src/ai_assistant.rs:1453-1466 | an event is read back from its frame if and only if it has no blank line inside and does not end in bytes that form one with the blank line after it |
| SseStream.FramesAreRead | src-tauri/src/ai_assistant.rs:1423-1475 | a stream of such events, each with a blank line of either kind after it, is taken apart into exactly the events that were sent, in order |
| SseCalls.EventDataIs | src-tauri/src/ai_assistant.rs:1477-1490 | the data of an event is the payloads of its data lines, blanks after the colon dropped, joined by line breaks, with either line end; without data lines there is none |
| SseCalls.CallsAreTheData | src-tauri/src/ai_assistant.rs:1423-1491 | a framed stream makes one call for the data of each event that has any, in order, up to and including the first that is answered with a stop or an error, which is the outcome; otherwise all are made |
| SseCalls.LastEventIsRead | src-tauri/src/ai_assistant.rs:1446-1450 | a last event without a blank line is called with when the stream closes and dropped when it fails or is stopped; only an error answer counts |
| SseCalls.InvalidEventEnds | src-tauri/src/ai_assistant.rs:1438-1440 | an event that is no UTF-8 ends the run with the calls made so far |
| SseStream.CallsGrow | src-tauri/src/ai_assistant.rs:1423-1451 | the calls made for a prefix of a stream are a prefix of the calls for the stream |
| BrandMigration.AppData.FillStage | src-tauri/src/brand_migration.rs:358-408 | the stage ends up with exactly the payload files of the legacy directory, merged by SQLite when there is a database; without faults exactly when the database, if there is one, passes its checks |
| BrandMigration.AppData.Apply | src-tauri/src/brand_migration.rs:235-356 | in every state on the way the legacy directory is unchanged and the old directory is intact at its place or at the backup; success installs the migrated files with their marker; a failure whose compensating steps succeed leaves the current directory as it was, absent counting as empty; without faults it succeeds if and only if the preview allows it and the staged database passes its checks |
| BrandMigration.AppData.Rollback | src-tauri/src/brand_migration.rs:429-499 | success restores the saved directory and keeps the migrated tree aside; in every state on the way both are intact somewhere; a failure whose compensation succeeds changes nothing; without faults it succeeds if and only if a marker is recorded and the backup it names, if any, is there |
| BrandMigration.RollbackUndoesApply | src-tauri/src/brand_migration.rs:235-499 | a migration and a later rollback, with any work on the migrated data in between that keeps marker and backup, restore the current directory, keep the migrated tree with that work aside, and leave every untouched directory as it was |
| BrandMigration.MigratedExactly | src-tauri/src/brand_migration.rs:358-408 | the payload is the fifteen known files of the old directory with their contents; without a database that is what is installed, with one it is what the checkpoint makes of it |
| BrandMigration.PreviewExactly | src-tauri/src/brand_migration.rs:125-222 | a migration is allowed exactly when none is recorded, the old directory has something to migrate, and the current one is readable and shows no user data; every refusal has its reason |
| McpSidecar.StepKeepsSound | src-tauri/src/mcp.rs:1834-1977 | a child is recorded exactly when a signature is, every live process is the recorded child or was lost by a failing state query, and nothing is recorded once shutting down |
| McpSidecar.SpawnsAfterTheOldOne | src-tauri/src/mcp.rs:1835-1882 | a new process starts only when the old child is dead or was lost that way, and never while shutting down |
| McpSidecar.ReconcileSettles | src-tauri/src/mcp.rs:1835-1882 | reconciling stops the child while shutting down, when switched off or without a token, leaves a running child with the right signature alone, and otherwise stops it and starts one if that succeeds; every other field is as it was |
| McpSidecar.StatusForgets | src-tauri/src/mcp.rs:1884-1888 | asking for the status forgets a child that is gone and changes nothing else |
| McpSidecar.StopsAreExact | src-tauri/src/mcp.rs:1890-1958 | stopping, shutting down and preparing an update kill the recorded child and nothing else, and set their own flag |
| McpSidecar.MarksAreExact | src-tauri/src/mcp.rs:1906-1965 | health marks, automatic restarts and resuming leave child and processes alone |
| McpSidecar.ShutdownIsFinal | src-tauri/src/mcp.rs:1941-1946 | from then on no child is recorded and no process is started, in every interleaving |
| McpSidecar.OneSidecar | src-tauri/src/mcp.rs:1834-1977 | as long as the state query never fails at most the recorded child is alive, and none once shutting down |
| McpSidecar.SecondSidecarExactly | src-tauri/src/mcp.rs:1834-1977 | one step makes two live processes of at most one if and only if it starts a process while a lost one is alive, lost earlier or by the state query of this very step |
| McpSidecar.SingleExactly | src-tauri/src/mcp.rs:1834-1977 | over whole runs at most one process is alive in every state if and only if no step does that |
| McpSidecar.TwoSidecars | src-tauri/src/mcp.rs:2045-2066 | it happens: a failing state query and the start that follows it leave two processes alive |
| McpSidecar.FailuresAreConsecutive | src-tauri/src/mcp.rs:1906-1917 | the failure count is exactly the number of unhealthy checks since the last healthy one, automatic restart or start, up to the width of the counter |
| McpSidecar.McpRemoteServiceManager.ReconcileSection | src-tauri/src/mcp.rs:1835-1882 | the section is one step of the state machine |
| McpSidecar.McpRemoteServiceManager.Refresh | src-tauri/src/mcp.rs:2045-2066 | forgets the child exactly when it exited or its state cannot be read |
| McpSidecar.McpRemoteServiceManager.MarkHealthSection | src-tauri/src/mcp.rs:1906-1917 | asks for a restart exactly from the third unhealthy check on |

## Left out

- Encryption, hashing, key storage and token handling: library code, opaque here.
- SQLite itself: COMMIT and ROLLBACK are atomic, the constraints of the group table are enforced, and ROLLBACK is assumed to close the transaction; SQL text, the schema migration and the tables other than the group table are not modelled.
- The order of rows that `list` returns: the model allows any order; only the order in which groups are parked depends on it.
- Durability below the file level: a write that returned is durable and a rename is atomic; the order of `sync_all` and directory flushes is not modelled.
- The `.bak` fallback of `load_json_document`: a complete journal is read as it was written.
- `TransferRecovery.DataDirectory.ApplyTransfer`: saves of other commands are interleaved inside `begin` only; saves at any other moment are covered by `RecoveryProtocol.RunRefines`, and several clients at once by the run of `RecoveryProtocol.TwoTransfersMix`. The credential and connection rows are one opaque value of the transaction; the counters of the result are left out.
- Which idle sessions a prune picks and when timers fire: any choice is allowed; the eviction order of surplus sessions (sorted ids in the source) is one of the orders covered. Last-used times and in-flight counters only decide such choices.
- `SessionPool.CapacityBound`: needs a limit of at least two: zero switches the pruning off, and with a limit of one the active connection's old session stays while its new one is stored.
- `RemoteFileManager`, which uses the same map protocol as the pool.
- Cancellation of futures, mutex poisoning, and exit of the process by signals.
- `GroupLegacyPlan.MigrateLegacyGroups`: the backup of the raw text, the report and its repair messages, and the limit on the number of rows are left out; the completion marker is not part of the model.
- Reading and installing the crontab over SSH, last-run logs, and `run now`.
- `CrontabRecord.ParseTaskBlock`: line numbers in error messages are left out; encoders are parameters that are injective and stay inside their alphabets, the script of a run command is any single line.
- `SftpTransfer.Transfer.UploadFile`: buffer contents are values, not an in-place array; file handles are the file they point to, so a remote write is applied in order.
- `RemoteTree.Remote.RemoveTree`: symbolic links, permissions and concurrent changes are not modelled; paths are lists of names.
- `SseStream.ReadSseEvents`: the HTTP status check and provider-specific JSON are left out; the stop flag is seen, if at all, when a further chunk arrives.
- `BrandMigration.AppData.Apply`: the custom data root (no legacy directory to derive) is left out, and a failing `create_dir` leaves nothing behind.
- `McpSidecar.OneSidecar`: assumes that `wait` after `kill` returns only when the process is gone; error texts, log files and the update blocker outside the manager are left out. No claim is made about processes while an update is prepared, since `reconcile` does not look at that flag.
- Tauri commands, the user interface, SSH transport, tunnels, network tools and the redaction and danger heuristics: no deep properties.
