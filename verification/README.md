# saltOS package manager: a verified model

This project models the parts of saltOS's `salt` and `halite` that must not go wrong, and proves
what they promise: transactions with an undo log, the rollback history, the kernel trial-boot
protocol, the dependency planner, the version order, and the text and archive formats.

| module | what it holds |
|---|---|
| `Domain`, `Text` | files, manifests, the package database, paths, lines |
| `UndoLog` | one transaction's backup tree and `added.list`, and what replaying them restores |
| `Effects` | the planned state of an install, upgrade or removal; one owner per path; manifests match the disk |
| `History` | the transactions table as a stack of logs; rollback, pruning and collection keep targets reachable |
| `Retention` | how many rows and generations pruning and collection keep |
| `Engine` | the host object: every command as imperative steps, with I/O errors possible at each |
| `Failures` | histories in which undoing does not give the old state back |
| `RootChange` | telling from the log whether a transaction touched `/boot` |
| `Numerals`, `Version`, `Repo` | digit runs, the version walk, newest entries, the kernel order |
| `Traversal`, `Planner`, `Ordering`, `Commands` | depth-first resolution and ordering, cascade, plan checks, install/update/remove |
| `Config`, `Lock` | declared configurations and lock files, and that applying them converges |
| `System` | planner and engine together over whole lives of a system |
| `GrubEnv`, `Boot`, `Loader` | the environment block, the trial-boot protocol as a state machine, the commands that drive it |
| `Tar`, `Toml`, `TomlText`, `Pkg` | the archive codec, the TOML reader, printed lines, metadata and manifests |

Files are a map from paths to content or link targets. The tables are maps and sequences. An I/O
error is a nondeterministic branch that a ghost field of the host notes, so that contracts can say when a
command without one succeeds. Every imperative method is proved against a function of its
inputs or of the old state, and the theorems are about those functions and about whole runs. No proof
uses Dafny's automatic induction: every lemma turns it off.

## Where the code and its documentation differ

- `docs/rollback.md:65` says that pinned deployments are never pruned. Their own logs are not, but the logs of
  later unpinned transactions are, and a file-mode rollback needs those (`Failures.PinnedRollback`). A
  success can be restored, pinned or not, when every later transaction that did not fail still names its snapshot,
  which the tables tell before the call; and also when it was never exempted from pruning or collection.
- `docs/rollback.md:254` says that a transaction can always be undone to its pre-transaction state. That fails in
  five ways: a rollback does not look at the status of its target (`Failures.StrandedRollback`), undo-last also
  acts on pruned rows (`Failures.PrunedUndo`), a link target over 1023 bytes is cut in the backup
  (`UndoLog.RevertRestores` gives the exact condition), a path with a newline is not listed as added
  (`UndoLog.AddedReplayIff` gives the exact condition), and the boot step after a transaction edits kernels, module
  trees and the boot configuration without a log (`Failures.DroppedKernelStaysGone`; `Engine.ReturnedExactlyIff`
  gives the exact condition). The last can also delete files that a package owns (`Effects.RemovalConsistentIff`).
- `docs/rollback.md:200-205` says that a kernel becomes the default only by a confirmation after it was tried.
  `grub_confirm` looks the running kernel up by its release, so a second file of that release is confirmed without
  ever having run (`Boot.NeverBootedKernelIsConfirmed`); `Boot.StepKeepsDefault` gives the exact condition.
- `retain_running_kernel` is meant to keep the running kernel bootable. It looks kernels up by release, so a second
  file of the same release hides the loss (`Boot.RunningDefaultCanBeLost`); `Boot.TransactionKeepsDefaultIff` gives
  the exact condition.
- Link targets over 100 bytes are written to archives as a long name instead of a long link, so they replace the
  path (`Tar.ReadWritten`, `Tar.RoundTrip`).
- Kernels are found with links followed, while changes are looked for under `/boot` only, so a kernel behind a link
  that leads out can go unnoticed (`RootChange.OutsideKernelGoesUnnoticed`).
- `salt lock apply` checks what goes and not what comes, so a lock that does not name its own dependencies leaves a
  set that is not closed (`Lock.LockKeepsClosedIff`).

## Model

| member | source | states |
|---|---|---|
| System.Live | src/salt/cmd_install.cpp:349-435 | over any list of installs, updates, removals, configuration and lock applies and maintenance commands, with failures anywhere and with files edited outside the logs by the boot step, the installed set and every saved database stay dependency-closed and conflict-free; if rollbacks that are carried out go to clean targets and no such edit touches a file that a package owns, every manifest matches the disk at the end; the trace of the tables is given step by step |
| System.LiveFromScratch | src/salt/cmd_install.cpp:349-435 | the same from an empty package database on, so it holds in every reachable state |
| System.Serve | src/salt/cmd_install.cpp:437-504 | one request from planning to the end of its transaction, with what it can do to the tables; when it succeeds it was planned and carried out; when not, files and database are unchanged, and either an I/O error struck, the request is one that is refused, or it has a plan that fails a check, cannot be downloaded or brings a file another package owns |
| System.ApplyThenPlan | src/salt/cmd_config.cpp:373-454 | after an accepted update, or apply of a configuration or a lock, planning it again is accepted and gives the empty plan |
| System.Commit | src/salt/cmd_install.cpp:349-435 | without an I/O error a plan is carried out exactly when it passes the conflict and dangling checks, can be downloaded, removes only what is installed, and no package brings a path that leaves the root or a file that another package owns at its turn; it ends in the planned state with the edit of the boot step on top, or with files and database as they were; manifests still match the disk if that edit touches no owned file |
| System.PlanRequest | src/salt/cmd_install.cpp:437-504 | which requests are refused before there is a plan, exactly, and what the plan of each kind of request is |
| System.InstallAchieves | src/salt/cmd_install.cpp:437-504 | after an install every name asked for is there in the newest version on offer |
| System.RemovalAchieves | src/salt/cmd_install.cpp:591-663 | a removal takes away exactly the arguments, or with cascade the least set with them that contains its own dependents |
| System.RemovalSucceeds | src/salt/cmd_install.cpp:591-663 | without an I/O error a removal is carried out exactly when every argument is installed and, without cascade, nothing that stays depends on one |
| System.FulfilledConverges | src/salt/cmd_config.cpp:373-454 | after an update nothing is upgradable, after an apply nothing differs: planning the request again gives the empty plan |
| System.Fetch | src/salt/cmd_install.cpp:381-388 | the download loop succeeds exactly when every planned entry can be fetched, and pairs artifacts with entries in order |
| Engine.Host.Run | src/salt/cmd_install.cpp:349-435 | any history of commands keeps the host invariant and remembers every start state, and what rollbacks will not put right lies within what was edited outside the logs; each step of the trace is what its command can do; manifests match the disk at the end if rollbacks go to clean targets and such edits touch no owned file |
| Engine.Host.Execute | src/salt/cmd_install.cpp:349-435 | the same for one command, with the databases that can be saved or restored |
| Engine.StepRemembers | src/halite/src/db.c:176-206 | rows are never deleted, start states never change, and a command adds at most its own edit to what rollbacks will not put right |
| Engine.Host.RunThenRollback | src/halite/src/deploy.c:680-717 | after any such history, rolling back to a success that still names its snapshot, if every later transaction still names its own or if it was never exempted, gives the database from just before it, and its files at every path not edited outside the logs since; everything exactly when there was no such edit |
| Engine.ReturnedExactlyIff | src/halite/src/deploy.c:494-522 | the state given back is the start state exactly when every edited path happens to hold its old content |
| Engine.IntactIsSafe | src/halite/src/deploy.c:680-717 | a success that names its snapshot, with every later one named too, is safe; this can be read off the rows |
| Engine.Host.TouchFiles | src/salt/cmd_deploy.cpp:553-568 | an edit outside the logs costs a target no more than the edited paths that its own rollback does not write; manifests still match the disk if it touches no owned file |
| Engine.Host.ExecuteRollback | src/salt/cmd_deploy.cpp:646-695 | the rollback command with the boot step after it: start files outside what was edited, before or by that step |
| Engine.IntactBefore | src/halite/src/deploy.c:494-522 | that condition can be read off the rows before or after the rollback |
| Engine.Host.Backup | src/halite/src/txn.c:95-128 | the log still accounts for every change, whether the copy succeeds or fails half way; on success the saved copy is recorded and nothing else changes |
| Engine.Host.FindOwner | src/halite/src/db.c:454-470 | an owner is found exactly when some package records the path |
| Engine.Host.RecordEntry | src/halite/src/txn.c:292-313 | a path is refused, I/O errors apart, exactly when another package owns it: never because the package itself does; otherwise it ends up backed up or among the absent ones |
| Engine.Host.RecordPrestate | src/halite/src/txn.c:292-313 | refused, I/O errors apart, exactly when another package owns one of the files; after the first loop every manifest file is backed up or listed as absent, and listed ones do not exist |
| Engine.Host.AppendAdded | src/halite/src/txn.c:130-138 | the new lines go to the end of added.list, or the list is as it was |
| Engine.Host.WriteEntry | src/halite/src/tar.c:289-324 | one payload entry is written; the log accounts for it even when a link was unlinked and not made again |
| Engine.Host.ExtractPayload | src/halite/src/txn.c:318-322 | all entries are written in order, or some prefix is and the log accounts for it |
| Engine.Host.BackupAndUnlink | src/halite/src/txn.c:324-336 | an unlinked file was backed up first |
| Engine.Host.DropObsolete | src/halite/src/txn.c:324-336 | exactly the old files that the new manifest no longer lists are removed; wherever it stops the log accounts for what it did |
| Engine.Host.InstallArchive | src/halite/src/txn.c:267-356 | without an I/O error an install or upgrade succeeds exactly when every path stays in the root and no other package owns one of its files, and then it reaches the planned state; wherever it stops, the log can undo it |
| Engine.Host.RemoveFiles | src/halite/src/txn.c:378-392 | exactly the recorded files are removed, each backed up first |
| Engine.Host.RemovePkg | src/halite/src/txn.c:358-405 | without an I/O error a removal succeeds exactly when the package is installed, and then it reaches the planned state; wherever it stops, the log can undo it |
| Engine.Host.UnlinkAdded | src/halite/src/txn.c:460-475 | exactly the confined lines of added.list are unlinked |
| Engine.Host.RestoreTree | src/halite/src/txn.c:412-458 | the backup tree is copied over the root, in any directory order |
| Engine.Host.RevertFiles | src/halite/src/txn.c:460-484 | the loops compute the replay function of the log |
| Engine.Host.constructor | src/halite/src/db.c:112-144 | an empty system on any root whose files at package paths can be saved satisfies every invariant |
| Engine.Host.RemovePhase | src/salt/cmd_install.cpp:409-415 | the removal loop stops at the first name that is not installed any more, and otherwise, I/O errors apart, reaches the planned state with manifests matching the disk |
| Engine.Host.InstallPhase | src/salt/cmd_install.cpp:416-420 | the install loop stops at the first package that is not admissible at its turn, and otherwise, I/O errors apart, reaches the planned state with one owner per path and manifests matching the disk |
| Engine.InstallsOkIff | src/halite/src/txn.c:292-303 | the install loop can go through exactly when every path stays in the root, no two arriving packages share a file, and none shares one with another package that is there and was not replaced before its turn |
| Engine.PlanOkIff | src/salt/cmd_install.cpp:408-423 | both loops can go through exactly when the packages to remove are installed and listed once, and the arriving ones do not overlap with what stays |
| Engine.Host.Begin | src/halite/src/txn.c:60-93 | a new state directory holds the current database, or nothing when saving it failed unnoticed |
| Engine.Host.Attempt | src/salt/cmd_install.cpp:408-423 | it succeeds exactly when no I/O error struck and both loops can go through; whether it succeeds or fails, the log accounts for every change since the start |
| Engine.Host.Perform | src/salt/cmd_install.cpp:408-432 | success, exactly when no I/O error struck and both loops can go through, is the planned state with a log whose replay gives the old files; failure leaves files and database unchanged |
| Engine.Host.Prune | src/halite/src/deploy.c:719-774 | a row keeps its name and log when it is pinned, when fewer than keep unpinned named rows are above it, and when none is; every other unpinned named row loses its name, backups and list of added files, and keeps its saved database; every safe target can still be reached, and manifests still match the disk |
| Retention.FewAreKept | src/halite/src/deploy.c:719-774 | with no more unpinned names than are to be kept, pruning changes nothing |
| Retention.ManyAreThinned | src/halite/src/deploy.c:719-774 | otherwise exactly keep of them are left, and one when keep is below one |
| Retention.PruneThins | src/halite/src/deploy.c:719-774 | the counting scan and the rule by rows above agree |
| Engine.StepKeepsName | src/halite/src/deploy.c:719-774 | no command takes the name of a success that has fewer than keep rows above it |
| Engine.RecentStays | src/halite/src/deploy.c:719-774 | over any history, a success stays restorable unless it is undone, as long as fewer than keep rows are added above it |
| Engine.FewAllStay | src/halite/src/deploy.c:719-774 | from an empty table, the first keep rows lose nothing: every success among them that is not undone stays restorable |
| Engine.Host.PruneVictims | src/halite/src/deploy.c:719-774 | the loop collects exactly the rows beyond the kept ones |
| Engine.Host.KeptGenerations | src/halite/src/gc.c:167-193 | a generation is kept exactly when it is among the newest successes, pinned, booted or asked for, or still running |
| Engine.Host.References | src/halite/src/gc.c:195-211 | the referenced artifacts are those of the live database and of the saved databases of kept generations |
| Engine.ReferencedMeans | src/halite/src/gc.c:195-211 | an artifact is referenced exactly when an installed package, or a package in the saved database of a kept generation, names it |
| Engine.Host.PruneGenerations | src/halite/src/gc.c:74-115 | exactly the generations that are not kept lose their state and are marked pruned |
| Engine.Host.SweepCache | src/halite/src/gc.c:117-165 | exactly the referenced artifacts stay in the cache |
| Engine.Host.Gc | src/halite/src/gc.c:167-226 | a generation keeps its row and log exactly when it is a success with fewer than keep successes above it or with none, pinned, booted or asked for, or last and still running; every other one is marked pruned and loses its log; the cache is left with exactly the artifacts named by the live database and by the kept generations; safe targets stay reachable and manifests match the disk; a dry run changes nothing |
| Retention.CollectionSweeps | src/halite/src/gc.c:167-226 | the counting loop and the rule by successes above agree |
| Engine.Host.Transact | src/salt/cmd_install.cpp:349-435 | one row is appended with the outcome; success is the planned state, failure changes neither files nor database; manifests still match the disk |
| Engine.Host.NativeTransaction | src/salt/cmd_install.cpp:349-435 | it succeeds exactly when no I/O error struck and both loops can go through; the result is the planned state with the edit of the boot step on top, or no change; an empty plan, or a failure to add the row, records nothing; otherwise one row that survives its own pruning; manifests still match the disk if the edit touches no owned file |
| Engine.Host.PickRollback | src/halite/src/deploy.c:273-288 | the newest success that names a snapshot, or none if there is none |
| Engine.Host.UnwindFiles | src/halite/src/deploy.c:494-507 | the loop replays the logs of successful rows newest first |
| Engine.Host.RollbackFiles | src/halite/src/deploy.c:494-522 | files, database, row statuses and the new rollback row after a file-mode rollback; a safe target gets its start state back outside what was edited without a log |
| Engine.Host.RollbackTo | src/halite/src/deploy.c:680-717 | which requests succeed and which row they pick, what is undone and marked; a success gets its start state back, outside what was edited without a log, if it is intact, pinned or not, or was never exempted; a refused request changes nothing |
| Engine.Host.LastOk | src/halite/src/db.c:598-614 | the newest success that is not a rollback |
| Engine.Host.RollbackLast | src/halite/src/txn.c:486-531 | accepted exactly when there is a last success with a saved database; undoes it, marks it and adds a rollback row without a log; a named row gets its start state back, outside what was edited without a log, if it is intact or was never exempted |
| Engine.Host.Pin | src/halite/src/deploy.c:246-271 | only the pin column of an existing row changes, and nothing else is lost |
| Engine.Host.RegisterCurrent | src/salt/cmd_deploy.cpp:581-607 | a success row for the present state, which can be returned to |
| Engine.ObsoletePristine | src/halite/src/txn.c:324-336 | files an upgrade drops were not touched earlier in the same transaction, so their backups hold original content |
| Engine.InstallUndisturbed | src/halite/src/txn.c:267-356 | a file that no package installed so far owns is still as the transaction found it |
| Engine.StrandedKeeps | src/halite/src/deploy.c:454-463 | after a rollback no row that can still be returned to has anything undone below it |
| UndoLog.SaveIsExactOnFaithful | src/halite/src/txn.c:95-128 | a backup equals the file exactly when a link target fits the 1023-byte buffer |
| UndoLog.AddedListRoundTrip | src/halite/src/txn.c:460-475 | reading added.list back gives the recorded paths exactly when none contains a newline |
| UndoLog.AddedReplayIff | src/halite/src/txn.c:460-484 | replaying the log of newly written paths gives the old files back exactly when none contains a newline |
| UndoLog.RevertAt | src/halite/src/txn.c:460-484 | for every covered log, a path gets its original content back unless it was backed up with a longer link target |
| UndoLog.RevertRestores | src/halite/src/txn.c:460-484 | replaying a covered log restores all files exactly when every backed-up one fits the link buffer |
| UndoLog.NewlinePathSurvivesRevert | src/halite/src/txn.c:308-312 | a path with a newline escapes its own undo log |
| UndoLog.CoveredLostBackup | src/halite/src/txn.c:95-128 | a backup that failed half way does no harm before the file is touched |
| UndoLog.CoveredChange | src/halite/src/txn.c:317-336 | any change to a backed-up or listed path is accounted for |
| UndoLog.CoveredAdded | src/halite/src/txn.c:130-138 | listing absent paths keeps the account complete |
| Effects.PlannedDb | src/salt/cmd_install.cpp:409-421 | which packages are installed after a plan, and with which rows |
| Effects.InstallAt | src/halite/src/txn.c:267-356 | path by path: the files of the manifest are there with their content, what only the old version had is gone, and every other path is as it was |
| Effects.RemoveAt | src/halite/src/txn.c:358-405 | the files of the package are gone, and every other path is as it was |
| Effects.UpgradeThenRemove | src/halite/src/txn.c:267-405 | installing, upgrading and removing a package leaves the files and the database there were before, with no file of either version behind |
| Effects.InstallKeepsDb | src/halite/src/db.c:220-323 | an install that passed the owner check keeps one owner per file path |
| Effects.InstallKeepsConsistent | src/halite/src/txn.c:292-346 | it also keeps every recorded manifest matching the disk, its own and the others |
| Effects.RemoveKeeps | src/halite/src/db.c:343-367 | so does a removal |
| Effects.OwnerCheckSound | src/halite/src/txn.c:295-303 | asking for one owner row is enough to know that no other package records the path |
| Effects.EditConsistentIff | src/salt/cmd_deploy.cpp:324-390 | an edit outside the logs leaves every manifest matching the disk exactly when it changes no owned file |
| Effects.RemovalConsistentIff | src/salt/cmd_deploy.cpp:375-386 | deleting kernels, initrds and module trees leaves the manifests matching exactly when none of the files has an owner |
| History.UnwindSplit | src/halite/src/deploy.c:494-507 | stopping half way and going on equals going straight to the target |
| History.MarkUndoneKeeps | src/halite/src/deploy.c:454-463 | a rollback to any row keeps every other target reachable, except those with an older transaction undone under them |
| History.RollbackKeeps | src/halite/src/deploy.c:494-522 | the same with the new rollback row, whose log is a no-op |
| History.UndoLastKeeps | src/halite/src/txn.c:486-531 | undoing the last success alone is the same as unwinding to it |
| History.PinKeeps | src/halite/src/deploy.c:246-271 | pinning and unpinning keep every target reachable, the pinned row too while it is intact |
| History.PruneKeeps | src/halite/src/deploy.c:719-774 | pruning never takes a log that a safe target needs: one never exempted, or one with every later snapshot still named |
| History.GcKeeps | src/halite/src/gc.c:167-226 | nor does garbage collection |
| History.AppendKeeps | src/salt/cmd_install.cpp:398-432 | a new transaction chains onto the stack of successes; a failed one is a no-op |
| History.EditKeeps | src/salt/cmd_deploy.cpp:553-568 | an edit keeps every safe target reachable outside the edited paths that its rollback does not write |
| History.UnwindPointwise | src/halite/src/deploy.c:494-507 | unwinding acts path by path, and decides every path that a replayed log mentions |
| Failures.PinnedBefore | docs/rollback.md:65 | a pinned row is intact and can be restored before later logs are pruned |
| Failures.PinnedRollback | docs/rollback.md:65 | install a, pin it, install b, install c with one kept, back to the first: b leaves the database and its file stays, although the row is still named |
| History.ShrunkSafe | src/halite/src/deploy.c:719-774 | a target that is safe after a loss was safe before it |
| Failures.StrandedRollbackParts | src/halite/src/deploy.c:680-717 | after a rollback, then any history, a rollback to a row that the first one undid gives the files the first one left and the database of that row; it gets its state back exactly when those are its files |
| Failures.StrandedRollback | src/halite/src/deploy.c:680-717 | three installs, back to the second, then to the third: the files before the second, the database before the third, and not the state the third started from |
| Failures.PrunedUndoParts | src/halite/src/txn.c:486-531 | undo-last on a row whose log was pruned gives its state back exactly when replaying that log would have changed nothing |
| Failures.PrunedUndo | src/halite/src/txn.c:486-531 | two installs with one deployment kept, back to the second, then undo-last: the first package leaves the database and its file stays |
| Failures.DroppedKernelStaysGone | src/salt/cmd_deploy.cpp:360-390 | a kernel dropped by the boot step after an intact transaction does not come back with a rollback to it |
| History.PrunedTransactionCanBeLast | src/halite/src/db.c:598-614 | a pruned row can be the one that undo-last picks |
| RootChange.RootChanged | src/halite/src/deploy.c:290-318 | the scan says yes exactly when the log backs up or lists a path under the prefix |
| RootChange.UntouchedRootIsUnchanged | src/halite/src/deploy.c:290-318 | if a log that restores the files does not touch a directory, no file under it changed |
| RootChange.KernelChangeIsNoticed | src/salt/cmd_deploy.cpp:553-568 | a transaction that changed the set of kernels, links followed, is noticed as long as no link under /boot leads out of it |
| RootChange.OutsideKernelGoesUnnoticed | src/halite/src/deploy.c:115-130 | with a link that leads out, a kernel can go unnoticed |
| Version.Vercmp | src/halite/src/repo.c:175-202 | the pointer walk equals lexicographic comparison of token sequences, digit runs by numeric value and above any other byte |
| Version.CompareAntisymmetric | src/halite/src/repo.c:175-202 | the token order is antisymmetric in sign and zero only on equal sequences |
| Version.CompareTransitive | src/halite/src/repo.c:175-202 | the token order is transitive |
| Version.VersionOrder | src/halite/src/repo.c:175-202 | reflexive, antisymmetric, transitive, and zero exactly when the versions differ only by leading zeros in digit runs |
| Version.SameLengthByValue | src/halite/src/repo.c:188-193 | comparing equally long digit runs byte by byte is comparing their values |
| Version.ShorterIsSmaller | src/halite/src/repo.c:186-188 | without leading zeros the longer run is the larger number |
| Version.SmallerByteIsOlder | src/halite/src/repo.c:194-199 | at the first difference, the smaller of two bytes that are not digits makes the older version, whatever follows |
| Version.NumberIsNewerThanByte | src/halite/src/repo.c:175-202 | a digit run is newer than any other byte in its place |
| Version.LargerNumberIsNewer | src/halite/src/repo.c:181-193 | the digit run of larger value is newer, whatever follows and however many leading zeros there are |
| Version.LongerIsNewer | src/halite/src/repo.c:200-202 | a version is newer than each proper prefix that ends before a byte that is not a digit |
| Repo.Find | src/halite/src/repo.c:207-219 | the scan ends with the newest entry |
| Repo.NewestIsMaximal | src/halite/src/repo.c:207-219 | an entry is found exactly when the name is offered, and every entry of that name has a smaller version, or the same version and no higher release |
| Repo.NewestIsFirst | src/halite/src/repo.c:207-219 | among equally new entries the first one is taken |
| Repo.NewerOrder | src/halite/src/repo.c:207-219 | newer-than is a strict weak order |
| Repo.FindExact | src/halite/src/repo.c:221-230 | the first entry with that name, version and release |
| Repo.Exact | src/halite/src/repo.c:221-230 | what is found matches, and nothing is found only if nothing matches |
| Repo.KernelOrder | src/halite/src/deploy.c:107-113 | the kernel comparator is a strict total order on file names |
| Traversal.Visitor.Visit | src/salt/cmd_install.cpp:168-189 | terminates on every graph, meets each name once, lists exactly what is reachable, and on acyclic graphs lists successors first |
| Traversal.Visitor.VisitAll | src/salt/cmd_install.cpp:191-208 | the same from several roots |
| Traversal.LeaveInOrder | src/salt/cmd_install.cpp:191-208 | on an acyclic graph a name is listed after everything it leads to |
| Planner.Resolve | src/salt/cmd_install.cpp:168-189 | each name once, newest entries, problems only for names the index lacks, all dependencies supplied, least such set, dependencies first on acyclic indexes |
| Ordering.OrderByDeps | src/salt/cmd_install.cpp:191-208 | for any list, every name once with one of its items, dependencies before dependents on acyclic graphs; uniquely named items are permuted |
| Ordering.ItemVisitor.Visit | src/salt/cmd_install.cpp:196-204 | terminates on every graph and keeps the placed items in order |
| Ordering.DependencyIsListed | src/salt/cmd_install.cpp:196-204 | on an acyclic graph a dependency of the item being left is listed already |
| Planner.Cascade | src/salt/cmd_install.cpp:610-628 | terminates with the least installed set that contains the arguments and is closed under reverse dependencies |
| Planner.AddDependents | src/salt/cmd_install.cpp:616-626 | one round of the worklist adds exactly the new dependents |
| Planner.RemovalOrder | src/salt/cmd_install.cpp:629-645 | a permutation of the doomed set, dependents first on acyclic graphs |
| Planner.ReverseAcyclic | src/salt/cmd_install.cpp:629-645 | reversing the edges creates no cycle |
| Planner.CheckConflicts | src/salt/cmd_install.cpp:210-245 | accepts exactly the plans without a conflict among arriving and staying packages |
| Planner.CheckDangling | src/salt/cmd_install.cpp:247-269 | accepts exactly the plans that leave no staying package without a dependency |
| Commands.AfterDb | src/salt/cmd_install.cpp:395-421 | the installed set after a plan, in terms of the plan |
| Commands.AcceptedStaysConflictFree | src/salt/cmd_install.cpp:210-245 | every plan accepted by the conflict check leaves a conflict-free set |
| Commands.AcceptedStaysClosed | src/salt/cmd_install.cpp:247-269 | every plan accepted by the dangling check, whose arriving packages are supplied, leaves a dependency-closed set |
| Commands.ConflictsOkIff | src/salt/cmd_install.cpp:210-245 | the conflict check refuses exactly the plans that would leave a conflict |
| Commands.DanglingOkIff | src/salt/cmd_install.cpp:247-269 | the dangling check refuses exactly the plans that would leave a package without one it depends on |
| Commands.UpdateTargets | src/salt/cmd_install.cpp:457-489 | exactly the installed packages with a strictly newer entry |
| Commands.PlanInstall | src/salt/cmd_install.cpp:437-504 | supplied, newest, each name once; an update moves every installed package it touches strictly forward; an install or update is refused exactly when every way to satisfy its targets needs something the index does not offer |
| Commands.NodepsBringsTargets | src/salt/cmd_install.cpp:168-189 | without dependencies exactly the targets arrive |
| Commands.ArrivesForAReason | src/salt/cmd_install.cpp:168-189 | a planned package is a target, or another planned one depends on it and it is not installed |
| Commands.InstallKeepsClosed | src/salt/cmd_install.cpp:437-504 | accepted installs and updates keep the set closed and conflict-free, and never trip the dangling check |
| Commands.PlanRemove | src/salt/cmd_install.cpp:591-663 | refused exactly for packages that are not installed; a cascade is the least doomed set and always passes the dangling check; dependents go first |
| Commands.RemoveKeepsClosed | src/salt/cmd_install.cpp:591-663 | accepted removals keep the set closed and conflict-free |
| Config.FindPinned | src/salt/cmd_config.cpp:322-352 | for a pin that ends in a dash and digits, an entry of the version before the dash with that release; for any other pin, an entry of that version as it stands, of the highest release; found exactly when the index has one |
| Config.PinMeans | src/salt/cmd_config.cpp:331-343 | a pin spelled version, dash, digits means that version and the release of that value; any other pin is a version as a whole |
| Config.BestPinnedIsBest | src/salt/cmd_config.cpp:322-352 | an entry is found exactly when one matches the pin, and it has the highest release among those |
| Config.PinnedRespectsPins | src/salt/cmd_config.cpp:322-352 | what is chosen for a pinned name is of the pinned version and release |
| Config.CfgResolver.Visit | src/salt/cmd_config.cpp:354-371 | terminates on every index (measure: names not yet desired), leaves no dependency unvisited, and adds only what every closed set needs |
| Config.DesiredIsUnique | src/salt/cmd_config.cpp:391-411 | the index and the configuration determine the desired set |
| Config.ResolveRoot | src/salt/cmd_config.cpp:393-405 | a root has problems exactly when no closed set offers it |
| Config.ResolveConfig | src/salt/cmd_config.cpp:391-421 | under both policies the result is the least pinned, closed selection of the satisfiable roots; success exactly when pins are met and missing roots are allowed |
| Config.Differing | src/salt/cmd_config.cpp:423-435 | exactly the desired entries that are not installed in that version and release |
| Config.PlanDesired | src/salt/cmd_config.cpp:423-442 | installs exactly what differs, removes exactly what is not desired, dependencies first |
| Config.PlanConfig | src/salt/cmd_config.cpp:373-442 | which configurations are accepted, and that every pinned package has the version, and the release if the pin spells one, of its pin |
| Config.ConfigKeepsClosed | src/salt/cmd_config.cpp:391-442 | an accepted apply leaves a closed, conflict-free set |
| Config.ConfigConverges | src/salt/cmd_config.cpp:391-442 | after a successful apply the installed set is the desired one, and a second apply plans nothing |
| Lock.EmitNative | src/salt/cmd_lock.cpp:49-112 | a lock is written exactly when every package has a verifiable digest, with one entry per installed package, whose digest is the recorded one where that is valid |
| Lock.CompareLock | src/salt/cmd_lock.cpp:333-359 | extra, missing and changed entries are exactly those, each once |
| Lock.OwnLockIsClean | src/salt/cmd_lock.cpp:333-359 | a lock compares clean against the system it was written from |
| Lock.PlanLock | src/salt/cmd_lock.cpp:634-712 | accepted exactly when the index offers every entry that is not met with the locked digest; the plan is exactly the difference, from the index, dependencies first |
| Lock.ApplyReproduces | src/salt/cmd_lock.cpp:634-712 | after applying, the system has exactly the locked names, each in the locked version and release and, where a valid digest is recorded, with the locked digest, whatever it was before |
| Lock.LockTransfers | src/salt/cmd_lock.cpp:634-712 | a lock of one system gives any other exactly its names, versions and releases, and a second comparison is clean |
| Lock.LockKeepsClosedIff | src/salt/cmd_lock.cpp:634-712 | an accepted lock leaves a dependency-closed set exactly when it names the dependencies of what it brings |
| Lock.SecondApplyIsEmpty | src/salt/cmd_lock.cpp:634-712 | a second apply of the same lock plans nothing |
| GrubEnv.Write | src/salt/cmd_deploy.cpp:128-143 | a block of 1024 bytes under the header line, or none exactly when the text does not fit |
| GrubEnv.Read | src/salt/cmd_deploy.cpp:109-126 | the scan equals reading line by line |
| GrubEnv.RoundTrip | src/salt/cmd_deploy.cpp:109-143 | a written block reads back as the same map exactly when keys have no = or newline and do not start with #, and values have no newline |
| GrubEnv.ReadIsClean | src/salt/cmd_deploy.cpp:109-126 | whatever is read has clean keys and one-line values |
| Boot.FindNewest | src/halite/src/deploy.c:115-139 | the head of the sorted kernel list is the newest kernel |
| Boot.FindOldest | src/salt/cmd_deploy.cpp:338-341 | the scan that keeps the last match ends with the oldest kernel |
| Boot.NewestIsUnique | src/halite/src/deploy.c:132-139 | there is one newest kernel |
| Boot.NewestHasHighestRelease | src/halite/src/deploy.c:107-139 | no kernel has a higher release than the newest one |
| Boot.WrittenEnvReadsBack | src/salt/cmd_deploy.cpp:419-430 | the block the commands write reads back as the environment they meant |
| Boot.StepKeepsTryMatch | src/salt/cmd_deploy.cpp:405-514 | every step keeps the trial entry in step with the pending kernel |
| Boot.RunKeepsTryMatch | src/salt/cmd_deploy.cpp:405-514 | so it does in every run |
| Boot.SurvivesIffRetained | src/salt/cmd_deploy.cpp:324-358 | a deleted default kernel is copied back exactly under a condition on the kernel names |
| Boot.TransactionKeepsDefaultIff | src/salt/cmd_deploy.cpp:553-568 | a transaction keeps the default kernel in /boot exactly under that condition |
| Boot.SoleRunningDefaultSurvives | src/salt/cmd_deploy.cpp:324-358 | a running default that is the only kernel of its release survives any transaction |
| Boot.RunningDefaultCanBeLost | src/salt/cmd_deploy.cpp:329 | a running default with a second kernel file of the same release: the transaction leaves /boot without it |
| Boot.StepKeepsDefault | src/salt/cmd_deploy.cpp:392-489 | a careful step keeps the default kernel present, and changes it only by confirming the pending kernel found for the running release; the new default is the booted file exactly when that file is the newest of its release |
| Boot.RunKeepsDefault | src/salt/cmd_deploy.cpp:298-514 | so it is in every run without a rollback |
| Boot.FoundByReleaseIff | src/salt/cmd_deploy.cpp:81-96 | the lookup by release finds the booted file exactly when it is the newest of its release |
| Boot.SoleReleaseIsFound | src/salt/cmd_deploy.cpp:81-96 | in particular when it is the only one |
| Boot.NeverBootedKernelIsConfirmed | src/salt/cmd_deploy.cpp:456-480 | a second kernel file of the running release is armed, and a confirmation before any reboot makes it the default although it never ran |
| Boot.UnusedKernelIsDropped | src/salt/cmd_deploy.cpp:360-390 | a kernel that is not running, newest, default, pending or owned is deleted after a transaction that changed /boot |
| Boot.UsedKernelsStay | src/salt/cmd_deploy.cpp:360-390 | a kernel that is owned, newest, default, pending or found for the running release stays |
| Boot.ThirdKernelDropsTheFirst | src/salt/cmd_deploy.cpp:360-390 | an older unowned kernel is deleted when a third one arrives |
| Boot.ArmingSteps | src/salt/cmd_deploy.cpp:405-514 | only update, try and transactions that touched /boot arm a trial, and they arm the newest kernel |
| Boot.TrialsAreArmed | src/salt/cmd_deploy.cpp:234-250 | in any run trial boots never outnumber arming steps, plus one if armed at the start |
| Boot.TrialBootsPending | src/salt/cmd_deploy.cpp:234-260 | a trial boot starts the pending kernel, or the first of the menu when its file is gone |
| Boot.HandPicked | src/salt/cmd_deploy.cpp:234-260 | an entry picked by hand is booted and ends an armed trial |
| Boot.StepMovesPending | src/salt/cmd_deploy.cpp:392-514 | a step leaves the pending kernel as it is, drops it, or arms the newest kernel |
| Boot.TrialStartsAChosenKernel | src/salt/cmd_deploy.cpp:234-514 | in any run that starts with nothing pending, a trial boot starts a kernel that was the newest when an earlier update, try or transaction chose it |
| Boot.NewestIsArmed | src/salt/cmd_deploy.cpp:405-514 | try and update arm the newest kernel unless it is the default, and leave the default alone |
| Boot.TryWithoutDefault | src/salt/cmd_deploy.cpp:491-514 | without a default in /boot, try makes the newest kernel both the default and the one to try |
| Boot.NothingToArm | src/salt/cmd_deploy.cpp:405-514 | when the newest kernel is the default they arm nothing |
| Boot.UpdateFindsDefault | src/salt/cmd_deploy.cpp:392-446 | without a default in /boot, an update makes the kernel found for the running release the default, and the newest one if there is none |
| Boot.RollbackUpdate | src/salt/cmd_deploy.cpp:392-446 | after a rollback the newest kernel left is the default and nothing is armed |
| Boot.UpdateKeepsTrial | src/salt/cmd_deploy.cpp:392-446 | an update that does not rearm keeps a trial under way |
| Boot.ConfirmMakesDefault | src/salt/cmd_deploy.cpp:448-489 | confirming the pending kernel while it runs makes it the default and clears the trial |
| Boot.ConfirmElsewhere | src/salt/cmd_deploy.cpp:448-489 | confirming after a fall-back gives the pending kernel up; before the trial boot it changes nothing |
| Boot.TryCycle | src/salt/cmd_deploy.cpp:234-514 | arm, boot, and boot again is back at the old default; arm, boot, confirm, and the newest kernel is the default from then on |
| Boot.UnconfirmedTrialFallsBack | src/salt/cmd_deploy.cpp:234-250 | the trial boot starts the kernel the arming step chose, unless a later step chose again, and if it is not confirmed the next boot is of the default that held when it was armed |
| Loader.Machine.GrubState | src/salt/cmd_deploy.cpp:298-311 | default, pending and flag read from the block, with kernels that are gone left out |
| Loader.Machine.WriteBlock | src/salt/cmd_deploy.cpp:128-143 | what the new block reads as is the environment that was meant; a full block or a failed write leaves the old one |
| Loader.Machine.GrubUpdate | src/salt/cmd_deploy.cpp:392-446 | the command makes the protocol step that the run theorems are about |
| Loader.Machine.GrubTry | src/salt/cmd_deploy.cpp:491-514 | likewise |
| Loader.Machine.GrubConfirm | src/salt/cmd_deploy.cpp:448-489 | likewise, with the fall-back branch |
| Loader.Machine.RetainRunning | src/salt/cmd_deploy.cpp:324-358 | exactly the retained kernel is added |
| Loader.Machine.DropStale | src/salt/cmd_deploy.cpp:360-390 | exactly the running, newest, default, pending and owned kernels stay |
| Loader.Machine.AfterTransaction | src/salt/cmd_deploy.cpp:553-568 | the whole step after a transaction |
| Tar.ParseField | src/halite/src/tar.c:135-144 | the loop computes the value of the octal digits |
| Tar.OctalRoundTrip | src/halite/src/tar.c:17-22 | an octal field gives its number back exactly when the number fits |
| Tar.FieldRoundTrip | src/halite/src/tar.c:31-41 | a name field gives back the string cut to its width |
| Tar.FillHeader | src/halite/src/tar.c:28-49 | filling the block in place gives the specified header |
| Tar.HeaderFields | src/halite/src/tar.c:28-49 | where the reader finds each field of a written header, the ustar magic, and the zero owner, group and time |
| Tar.ChecksumIsRight | src/halite/src/tar.c:42-48 | the checksum field holds the sum of the header with that field blank |
| Tar.SumAdds | src/halite/src/tar.c:42-48 | the sum counts every byte once, as an unsigned number |
| Tar.Writer.WriteLongName | src/halite/src/tar.c:51-61 | the long-name record is appended |
| Tar.Writer.Add | src/halite/src/tar.c:69-86 | the member is added to what the output holds |
| Tar.Writer.WriteMember | src/halite/src/tar.c:69-86 | long names, header, data and padding are appended |
| Tar.Writer.Finish | src/halite/src/tar.c:124-129 | the output is the archive of exactly the members added, which is what the round trip is about |
| Tar.WriteArchive | src/halite/src/tar.c:69-129 | the writer loop produces the specified archive |
| Tar.Read | src/halite/src/tar.c:146-230 | the loop hands over the entries of the recursive reading, up to and including the first that the callback turns down |
| Tar.ReadHeader | src/halite/src/tar.c:153-228 | one turn of the loop accounts for the rest of the reading |
| Tar.DeliveredAll | src/halite/src/tar.c:219-224 | a callback that turns nothing down sees everything |
| Tar.LongNameIsRead | src/halite/src/tar.c:169-186 | a long-name record sets the next path, and a long-link record the next link, whatever the length |
| Tar.ReadWritten | src/halite/src/tar.c:69-230 | reading a written archive gives every entry back, for any list of entries; a link target over 100 bytes is cut and replaces the path |
| Tar.RoundTrip | src/halite/src/tar.c:69-230 | the entries are the same exactly when link targets are at most 100 bytes, modes at most 07777 and only files carry data |
| Tar.ArchiveShape | src/halite/src/tar.c:69-129 | an archive is whole 512-byte blocks and ends with 1024 zero bytes |
| Tar.GnuLinkIsRead | src/halite/src/tar.c:169-186 | a long link written with the record kind GNU has for links comes back whole with its path, so the defect is the writer's |
| Tar.CutDataIsRefused | src/halite/src/tar.c:161-168 | an archive that ends within the data of a file is refused after the entries before it were handed over |
| Tar.PrefixIsJoined | src/halite/src/tar.c:190-206 | a path split into prefix and name is read as the joined path |
| Domain.ConfinedStaysBelow | src/halite/src/util.c:219-240 | a confined path is relative, never goes above the root on its way, and ends below it |
| Toml.ParseBasicString | src/halite/src/toml.c:201-229 | the loop computes the recursive reading of a quoted string |
| TomlText.AppendEscaped | src/halite/src/pkg.c:41-58 | the loop appends the quoted, escaped string |
| TomlText.EscapedIsRead | src/halite/src/toml.c:156-229 | every string survives escaping and reading |
| TomlText.VerbatimIsReadIff | src/halite/src/pkg.c:189-193 | a string printed without escapes survives exactly when it has no quote, backslash or newline |
| TomlText.NotTripleQuoted | src/halite/src/toml.c:482-485 | an escaped string is never taken for a triple-quoted one |
| TomlText.NumberIsRead | src/halite/src/toml.c:424-473 | a printed number reads as itself, or as the largest value that fits |
| TomlText.ItemsAreRead | src/halite/src/toml.c:341-373 | a printed list reads as its strings |
| TomlText.ValueIsRead | src/halite/src/toml.c:475-494 | every printed value is read back in place |
| TomlText.PrintedIsRead | src/halite/src/toml.c:597-674 | parsing any list of printed lines builds the tree those lines describe |
| TomlText.LiteralIsRead | src/halite/src/toml.c:289-337 | a single-quoted string is read as it stands |
| TomlText.BooleanIsRead | src/halite/src/toml.c:424-447 | true and false are read as booleans |
| TomlText.EscapesAreRead | src/halite/src/toml.c:156-199 | a \u escape stands for the code point of its four digits, \b and \f for their control characters |
| TomlText.Utf8IsExact | src/halite/src/toml.c:138-154 | every code point is encoded in the shortest UTF-8 form that decodes to it |
| TomlText.AssignIsFound | src/halite/src/toml.c:638-667 | an assigned dotted key is found at its path, and other keys stay |
| TomlText.OpenThenLookup | src/halite/src/toml.c:569-595 | a table header keeps what the table has, an array-of-tables header starts an empty one |
| Pkg.EmitStringArray | src/halite/src/pkg.c:60-67 | the loop appends the array line |
| Pkg.MetaToToml | src/halite/src/pkg.c:69-108 | the printer writes the specified lines |
| Pkg.MetaIsRead | src/halite/src/pkg.c:110-140 | the reader finds every field in the tree |
| Pkg.HooksAreRead | src/halite/src/pkg.c:126-137 | exactly the hooks that were set are read, none is refused |
| Pkg.StrangeHookIsRefused | src/halite/src/pkg.c:126-137 | metadata with a hook of any other name, or one that is not a string, is refused |
| Pkg.EmptyMeta | src/halite/src/pkg.c:110-140 | an empty document gives every default |
| Pkg.MetaRoundTrip | src/halite/src/pkg.c:69-140 | parsing printed metadata gives it back with defaults filled in, and unchanged exactly when none was needed |
| Pkg.ManifestToToml | src/halite/src/pkg.c:181-202 | the printer writes the specified lines |
| Pkg.FileIsRead | src/halite/src/pkg.c:211-222 | the reader finds every field of one entry |
| Pkg.ManifestRoundTrip | src/halite/src/pkg.c:181-226 | parsing a printed manifest gives every entry back as stored |
| Pkg.StoredExactly | src/halite/src/pkg.c:181-226 | an entry is stored unchanged exactly when its type is set, mode at most 07777, size below 2^63, and digest and link are not empty strings |

## Left out

- Strata, foreign package managers, hooks, signatures, digests, compression and downloads: calls into code outside the repository. Hooks are taken not to touch files; digests are recorded values.
- Btrfs snapshots and the `tryboot` loader: external tools. The model covers file-mode rollback and GRUB.
- Lua configuration files, the installer, the OTA server, queries, trust and recipe checks: plumbing or thin lookups.
- Directories, owners, modes above 0777 in backups, and aliasing of paths through symbolic links: files are compared by content and link target only.
- A crash in the middle of a transaction, and I/O errors while replaying, pruning or collecting: the code reports these and goes on, so nothing is promised there.
- The schema's `hooks` table is not part of the database model, and is not restored by a rollback in the source either.
- Engine.Host.InstallArchive: manifests must agree on which paths are directories, must list a path once, and must spell paths canonically and without newlines; payload paths are the manifest's paths. The last two are what `UndoLog` shows to be needed.
- Engine.Host.RollbackTo: the condition for exactness is sufficient; a target with a later log gone may still come back right when that log held nothing. For every other target the contract says what the code does.
- Engine.Host.Gc: what deletes files outside the tables (state directories of unknown rows, byte counts in the report) is not modelled.
- System.Live: `--nodeps` is left out, since it is the option to give up closedness; a lock names the dependencies of its entries; index entries describe their artifacts truthfully.
- Lock.PlanLock: the text of the lock file is not modelled, only its entries; `lock_load` rejects entries that the model excludes with `Loadable`.
- Boot.RunKeepsDefault: GRUB's menu is taken to list the kernels that are in `/boot`, its environment block to be readable, and `cp` in `retain_running_kernel` to succeed.
- Boot.UnconfirmedTrialFallsBack: the user picks no entry by hand at the boot after the trial, and nothing arms or confirms in between.
- Config.FindPinned: releases are unbounded integers; the source reads a pinned release with `atoi`, which is undefined past the range of `int`.
- Boot.TryCycle: the block with the kernel names fits and is written; `GrubEnv.Write` and `Loader.Machine.WriteBlock` say what happens otherwise.
- Commands.PlanInstall: with several targets the order of the plan depends on the order of the set; which packages arrive does not.
- Loader.Machine.GrubUpdate: kernel file names are single lines; `GrubEnv.RoundTrip` shows that the block needs this.
- Engine.Host.TouchFiles: which files the boot step edits is a parameter of each command; `Loader` and `Boot` say which kernels it keeps and drops, and initrds and module trees follow those.
- RootChange.KernelChangeIsNoticed: how a link target is spelled as a path below the root is a parameter.
- Tar.ReadWritten: sizes and path lengths are below 8^11, the most an archive header can say.
- Toml.ParseBasicString: the other parts of the parser are functions of the remaining text instead of a moving pointer, and line numbers in messages are dropped. Multi-line strings and inline tables end in an outcome of their own, since no printer writes them. An array with a stray closing brace, on which the source loops for ever, ends in `Stuck`.
- Pkg.FileIsRead: white space and a sign in front of an octal mode are not modelled; printed modes have neither.
- Pkg.ManifestRoundTrip: the type character and the digest are printed without escapes, so they must mean themselves between quotes; `TomlText.VerbatimIsReadIff` shows that this is necessary.
