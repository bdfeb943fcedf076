# SideSave: a model and its proofs

SideSave keeps a game's save in step between a player's devices. It compares two save manifests with
what the devices last agreed on, moves files block by block over the network or through a relay,
keeps snapshots and branches of each save, and recognises the same game under different names. This
project models that logic and proves what it keeps, over all inputs, all runs and all interleavings.

Check it with `dafny verify dfyconfig.toml` (Dafny 4.11).

## How it is laid out

| files | part of the program |
|---|---|
| `Basics`, `TextOrder` | shared vocabulary; Go's order on strings |
| `Manifests`, `ManifestAmbiguity`, `SyncDecision`, `Convergence` | manifests, their hash and what it pins down, conflict detection, the plan, what applying plans leads to |
| `PeerStore`, `SyncSession`, `SyncGuards`, `SyncHistory`, `ConflictResolution` | the stored merge-base and lineage, whole passes of two devices, when they act and what they leave, their histories, resolving a conflict |
| `Blocks`, `PatchWriting`, `DeltaTransfer` | cutting files into blocks, fetching the different ones, rebuilding and replacing |
| `Relay`, `RelayDelivery`, `TransferBudget` | the relay's byte budgets under all interleavings, whom its messages reach, and the transfer the budgets have to carry |
| `LineageRefresh`, `GameLinks` | the coalescing refresher, links between game ids and the auto-track race |
| `SaveTrees`, `Archives`, `ArchiveRoundTrip` | a save on disk, its archive, and when the one gives back the other |
| `Retention`, `Snapshots`, `BranchHistory`, `BranchRoundTrip`, `BranchOutcomes`, `SnapshotClaims` | snapshots, pruning, rollback, branches, what each operation leaves, ids claimed by two processes |
| `ShortcutsVdf` | Steam's binary shortcuts file |
| `Versions`, `SemanticVersions` | version precedence |

Objects the program updates in place are classes whose methods are proved equal to functions of the
old state; the theorems are about those functions and about runs of them. Protocols are transition
systems whose actions are the program's atomic steps, and a run is any sequence of actions.

SHA-256 is a function parameter. Nothing is assumed of it but that it does not collide on the texts or
blocks a statement is about, and each statement names those. Clocks, the order in which Go walks a map,
failures of the disk, and which files cannot be opened are parameters.

## What turned out not to hold

The code is modelled as it is. Where a promise fails, a lemma gives the exact condition, or the
smallest run that breaks it:

* Keep-local does not keep a file only this device has: the resolution records it as already shared,
  so the next pass reads it as deleted by the peer (`KeepLocalSurvivesNextPassIff`,
  `KeepLocalLosesLocalOnlyFile`). The comment at `internal/p2p/syncengine/conflict.go:126-138` expects
  the local version to be pushed.
* A one-sided edit that drops one file and adds or changes another makes the peer report a conflict
  although nobody touched the peer (`OneSidedEditConflictsOnPeerIff`, `RenamedSaveConflicts`).
* The lineage can get ahead of the merge-base, in a pass, a broken pass or a refresh under exact
  conditions (`PassKeepsTrackedIff`, `BreakKeepsTrackedIff`, `RefreshKeepsLineageWithinBaseIff`), and
  then a rollback on one device deletes an edit on the other that was never synced
  (`RollbackDeletesUnsyncedEdit`). Histories that avoid those conditions keep it within the base
  (`RunKeepsOrder`).
* Even then a pass deletes unsynced work in one case, exactly: nothing holds it back, it has just seen an
  earlier push land, and a path of the lineage held here is not part of that push
  (`NoUnsyncedWorkDeletedIff`, `LandedPushDeletesUnsyncedEdit`).
* The manifest text does not tell every two saves apart, though hashes are always 64 hex digits. Among
  manifests with newline-free names the collisions are known completely: some last file lines are taken for
  directories', or some first directory lines for files' (`SameTextIff`). There is none exactly if the
  last path does not read as a directory line, and the first directory's line does not end in a colon and a
  hash or would not continue the files (`TextDeterminesContentIff`); among saves that a folder walk can
  give, exactly if none of those readings is such a save (`DeterminedAmongWalksIff`). A file named `dir`
  and an empty folder named like its hash is the smallest case (`FileNamedDirCollides`). Among manifests
  with any names, newlines included, only those of at most one file and one folder can be told from all
  others (`TextDeterminesContentAmongAllIff`, `NewlineInNameCollides`).
* A file that cannot be opened is left out of the backup a switch takes, and one whose reading fails is
  cut short in it; the switch then clears both away. What comes back is the archived part, the whole save
  exactly if every file could be opened and read to its end (`ComesBackIff`, `BranchRoundTripIff`,
  `ArchivedWholeIff`).
* A clock set back makes a full branch prune the snapshot just taken (`NewSnapshotSurvivesIff`), and
  with it the backup of the save a switch is about to clear (`SwitchBacksUpIff`, `FailedSwitch`).
* A single-file save without an extension does not come back to its branch if a snapshot was taken on
  an empty branch meanwhile (`SnapshotOnEmptyBranchLosesFile`); a single-file save visits only branches
  that are empty or hold a single file (`DirectRoundTripIff`).
* A top-level name with two leading dots is archived but never extracted (`ComesBackIff`).
* Two processes claiming one snapshot id can leave a row without its archive, although the comment at
  `internal/snapshot/snapshot.go:240-243` says a second process cannot slip through
  (`TwoProcessesLoseAnArchive`).
* A shortcuts file that repeats a field name and is cut short can list a name that the whole file does not
  (`RepeatedNameListsOverwritten`).
* Version numbers beyond an int, and pre-release identifiers that are a hyphen and a number, are
  ordered differently from the standard (`PrecedenceExactly`).

## Model

| member | source | states |
|---|---|---|
| TextOrder.SortStrings | internal/delta/manifest.go:264-265 | the paths handed to the hash come out in ascending order, the same ones as often as before |
| TextOrder.AscendingUnique | internal/delta/manifest.go:259-265 | there is one ascending list of a set of paths, so the hash cannot depend on map order |
| Manifests.ManifestHash | internal/delta/manifest.go:259-277 | collecting, sorting and writing gives the hash of the manifest's canonical text, whatever order the map is walked in |
| Manifests.TextDeterminesContent | internal/delta/manifest.go:259-277 | between two saves of ordinary names the serialisation is injective: equal texts mean equal paths, equal content hashes, equal directory lists |
| Manifests.ContentDeterminesText | internal/delta/manifest.go:259-277 | times, sizes and block lists do not enter the text |
| Manifests.EqualHashIffEqualContent | internal/delta/manifest.go:254-277 | two manifest hashes are equal exactly if files and directories are, given no collision on the two texts |
| ManifestAmbiguity.TextDeterminesContentIff | internal/delta/manifest.go:259-277 | among manifests with newline-free names and 64-digit hex hashes, a text is no other manifest's exactly if its last path does not read as a directory line, and its first directory line does not end in a colon and a hash or would not come after that path |
| ManifestAmbiguity.SameTextIff | internal/delta/manifest.go:259-277 | every collision among those: one manifest is the other with some last file lines taken for directories' or some first directory lines for files' |
| ManifestAmbiguity.DeterminedAmongWalksIff | internal/delta/manifest.go:156-277 | among saves a folder walk can give (folders sorted, parents present, no path twice, no leading dots, no temporary leftovers), a text is no other save's exactly if none of those readings is such a save |
| ManifestAmbiguity.TextDeterminesContentAmongAllIff | internal/delta/manifest.go:259-277 | among manifests with any names, newlines included, exactly if there is at most one file, not reading as a directory line, and at most one directory, its line not ending in a colon and a hash |
| ManifestAmbiguity.FileNamedDirCollides | internal/delta/manifest.go:259-277 | a file named "dir" with content hash h and an empty directory h are written alike, for every hash h |
| ManifestAmbiguity.NewlineInNameCollides | internal/delta/manifest.go:259-277 | one file whose name holds a colon, a hash and a newline is written like two files |
| SyncDecision.SameFiles | internal/p2p/syncengine/decision.go:58-73 | true exactly for equal paths with equal hashes |
| SyncDecision.DetectConflict | internal/p2p/syncengine/decision.go:11-56 | with an agreed hash, conflict exactly if both sides left it and differ; without one, exactly if the files differ and, on a first sync, both hold some, later, both are newer than the last sync; `SyncGuards` says what that is worth |
| SyncDecision.Compute | internal/p2p/syncengine/decision.go:141-220 | in whatever order paths come, each list holds exactly the paths whose lineage and times call for it, each once |
| SyncDecision.ToSet | internal/p2p/syncengine/decision.go:310-316 | the members of the list and nothing else |
| SyncDecision.PlanIsPartition | internal/p2p/syncengine/decision.go:147-220 | every path that differs is in exactly one list exactly once, every other path in none; the same for directories |
| SyncDecision.NoChangesIffEqual | internal/p2p/syncengine/decision.go:87-93 | HasChanges is false exactly if the files agree by path and hash and the directory sets agree |
| SyncDecision.PlansAreDual | internal/p2p/syncengine/decision.go:147-220 | the other device's plan swaps pull with push and local with peer deletion, except that on a tie of times both pull |
| SyncDecision.MassDeletionExactly | internal/p2p/syncengine/decision.go:99-139 | the alarm goes off exactly if the lineage paths held here and gone on the peer are at least 3 and at least half the lineage |
| Convergence.SaveFolder.Apply | internal/p2p/syncengine/engine.go:637-836 | deletions here, deletions on the peer, then pulls: both folders end as the functions OwnAfter and PeerAfter say, whatever the order inside the lists |
| Convergence.EveryScheduleConverges | internal/p2p/syncengine/decision.go:147-187 | from any two saves, once each device has passed, in any order, any number of times, with any lineages, the saves agree and further passes change nothing |
| Convergence.TwoRoundConvergence | internal/p2p/syncengine/decision.go:147-187 | one pass of each device is enough, and then every file list is empty |
| Convergence.NoConflictMeansOneSideAtBase | internal/p2p/syncengine/decision.go:28-56 | with the hash of a base on file, no conflict is reported exactly if the sides agree or one of them still has the base's content |
| Convergence.DeletionsLoseNothingIff | internal/p2p/syncengine/decision.go:28-56 | without a conflict, whatever the clocks, everything scheduled for deletion still has the base's content exactly if the lineage holds no path that one side lacks and the base never had; always so if the lineage is within the base |
| Convergence.FastForwardPull | internal/p2p/syncengine/decision.go:46-48 | when only the remote changed, one pass makes the local side the remote exactly if no differing file both sides hold is newer here |
| Convergence.FastForwardPush | internal/p2p/syncengine/decision.go:147-187 | when only the local side changed, its pass and the peer's leave both with the local files exactly if every differing file both sides hold is newer here |
| PeerStore.SyncStateTable.GetAgreedHash | internal/store/peers.go:191-199 | empty for a pair never recorded, else the hash on file |
| PeerStore.SyncStateTable.GetPushedHash | internal/store/peers.go:228-236 | empty for a pair never recorded, else the push on file |
| PeerStore.SyncStateTable.GetSyncState | internal/store/peers.go:253-269 | the stored lineage, empty for a pair never recorded |
| PeerStore.SyncStateTable.SetAgreedHash | internal/store/peers.go:201-222 | records the merge-base, clears any push record, keeps the lineage, touches no other pair |
| PeerStore.SyncStateTable.SetPushedHash | internal/store/peers.go:239-249 | records the push and keeps base and lineage |
| PeerStore.SyncStateTable.SetSyncState | internal/store/peers.go:274-300 | replaces the lineage and keeps base and push |
| PeerStore.SyncStateTable.UnpairPeer | internal/store/peers.go:151-169 | all rows of the peer go with it, or nothing changes if it is unknown |
| PeerStore.PushRecordIsOutstanding | internal/store/peers.go:201-249 | over any history of one row, a push is on file exactly if it was the last one handed over and no convergence has been recorded since |
| SyncSession.HashComparesContent | internal/p2p/syncengine/engine.go:255-283 | comparing hashes of two flat saves compares their content, whatever their newline-free names |
| SyncSession.PassKeepsLineageWithinBaseIff | internal/p2p/syncengine/engine.go:361-394 | the base on file after an applied pass, and that the lineage stays within it exactly unless a push or deletion was handed over that has not landed while the peer holds a path the base lacks |
| SyncSession.PassAtBase | internal/p2p/syncengine/engine.go:279-394 | with one side at the base and no alarm, which `SyncGuards` gives in numbers, the pass applies the plan and records push or convergence as the ratchet says |
| SyncSession.PassInSync | internal/p2p/syncengine/engine.go:310-327 | equal saves are reported in sync and left alone, whatever base or lineage is on file |
| SyncSession.PassWhenBothLeftBase | internal/p2p/syncengine/engine.go:285-288 | two different saves that both left the base always raise a conflict |
| SyncSession.OneSidedEditApplies | internal/p2p/syncengine/engine.go:341-394 | the pass of the side that made a one-sided edit succeeds and changes nothing on that side |
| SyncSession.OneSidedEditConflictsOnPeerIff | internal/p2p/syncengine/engine.go:255-394 | the peer's following pass conflicts exactly if the edit both dropped a file and added or changed one, and otherwise leaves both with the edited save |
| SyncSession.RenamedSaveConflicts | internal/p2p/syncengine/engine.go:255-394 | renaming the one file of an agreed save on one device makes the other device report a conflict |
| SyncSession.RollbackDeletesUnsyncedEdit | internal/p2p/syncengine/engine.go:522-545 | a run of passes and one refresh after which a rollback on one device deletes an edit the other never synced |
| SyncGuards.AppliesIffPlanAllows | internal/p2p/syncengine/engine.go:224-339 | with a base on file, a pass applies the computed plan exactly if there is something to do, no conflict is pending, a side has the agreed hash or the peer the pushed one, the plan deletes fewer than three files here or less than half the lineage, and what it pulls overwrites nothing uncaptured; it is in sync exactly if there is nothing to do |
| SyncGuards.MassDeletionStopsPass | internal/p2p/syncengine/engine.go:305-316 | a plan that IsMassDeletion is never applied: the pass ends in a conflict and neither save changes, whatever else is on file |
| SyncGuards.UnappliedPassChangesNoSave | internal/p2p/syncengine/engine.go:224-339 | a pass that does not apply its plan changes neither save nor anything of the peer, and raises a conflict exactly when it says so |
| SyncGuards.ConflictWithoutBaseIff | internal/p2p/syncengine/decision.go:40-56 | without a base two different saves conflict exactly if, on a first sync, both hold a file, or later both hold one changed more than 2000 ms after the last sync |
| SyncGuards.WithoutBaseConflictsIff | internal/p2p/syncengine/engine.go:285-339 | a pass without a base over two different saves asks the player exactly in that case, or for a mass deletion, or for a pull over uncaptured changes |
| SyncGuards.FirstPassConflictsIff | internal/p2p/syncengine/decision.go:49-51 | the first pass ever conflicts exactly if both sides hold files; a device without a save ends with the peer's, and a peer without one costs nothing |
| SyncGuards.AppliedPassSaves | internal/p2p/syncengine/engine.go:341-353 | path by path, both saves after an applied plan: what was listed is pulled with the peer's content and time or deleted on the named side, and everything else stays |
| SyncGuards.AppliedPassRecords | internal/p2p/syncengine/engine.go:361-394 | the lineage recorded is what the peer is left with; a pass that hands nothing over records the peer's save as the base, any other keeps the base unless a push has landed and records its own save as handed over |
| SyncGuards.PlanMergesThreeWay | internal/p2p/syncengine/decision.go:141-220 | carried out on both sides, a plan leaves on both the same paths and folders: what both hold, and what one holds that was not synced before |
| SyncHistory.RefreshKeepsLineageWithinBaseIff | internal/p2p/syncengine/engine.go:522-545 | the base on file after a refresh, and that the lineage stays within it exactly if the saves agree or the shared paths are all paths of the base |
| SyncHistory.AppliesIffProceeds | internal/p2p/syncengine/engine.go:224-339 | whether a pass applies its plan is decided by guards on what is there before it: no conflict pending, different saves, one at the base, fewer than three files to delete here or less than half of those synced before, nothing pulled over changes no snapshot holds |
| SyncHistory.PassKeepsTrackedIff | internal/p2p/syncengine/engine.go:255-394 | the same for every pass, by those guards: a pass that proceeds lets the lineage out exactly by handing something over while the peer holds a path the base lacks, one held back exactly by a landed push that lacks a path of the lineage |
| SyncHistory.BreakKeepsTrackedIff | internal/p2p/syncengine/engine.go:341-353 | and for a pass cut off by a failing transfer, which keeps its repairs and deletions and records nothing |
| SyncHistory.ConfirmKeepsTrackedIff | internal/p2p/syncengine/engine.go:487-514 | and for a peer's report that both sides are the same: a hash the own save still has keeps the lineage within the new base however late it comes, any other is a refresh |
| SyncHistory.ConfirmRecords | internal/p2p/syncengine/engine.go:499-514 | a report the own save still matches records its paths and hash and settles any push; any other records the shared paths, and no base unless the saves agree |
| SyncHistory.LostRequestsKeepFiles | internal/p2p/syncengine/engine.go:666-685 | of the files a pass wanted deleted on the peer, exactly those whose requests were lost are still there, unchanged |
| SyncHistory.PassDeletesOnlyBaseIff | internal/p2p/syncengine/engine.go:255-345 | a pass that proceeds with its lineage within the base deletes only the content of the base it judges by, exactly unless a push has just been seen to land that lacks a path of the lineage held here |
| SyncHistory.StepKeepsOrderIff | internal/p2p/syncengine/engine.go:175-394 | any event on either device leaves both lineages within their bases exactly unless it is one of these exceptions |
| SyncHistory.RunKeepsOrder | internal/p2p/syncengine/engine.go:175-394 | and so does every history of edits, rollbacks, passes, broken passes, lost deletion requests, refreshes and reports without them |
| SyncHistory.NoUnsyncedWorkDeletedIff | internal/p2p/syncengine/engine.go:255-345 | after such a history a pass of either device deletes unsynced work exactly if its guards let it proceed just as it sees a push land that lacks a path of the lineage held here |
| SyncHistory.LandedPushDeletesUnsyncedEdit | internal/p2p/syncengine/engine.go:265-283 | a run in which a pass takes a push for landed and deletes an edit that was never synced |
| SyncHistory.SampleWorld | internal/p2p/syncengine/engine.go:175-394 | two concrete devices in order that hold different saves meet the hypotheses |
| SyncHistory.SampleRuns | internal/p2p/syncengine/engine.go:255-394 | concrete saves meet the hypotheses of the two runs that lose an edit |
| ConflictResolution.Resolver.CurrentHash | internal/p2p/syncengine/conflict.go:111-119 | the hash of the save as it stands |
| ConflictResolution.Resolver.TouchSaveMtimes | internal/p2p/syncengine/conflict.go:156-175 | every file gets the same new time, nothing else about any file changes |
| ConflictResolution.Resolver.MarkResolvedLocal | internal/p2p/syncengine/conflict.go:139-154 | own paths become the lineage, the own hash becomes base and last hash, push record cleared, files only touched |
| ConflictResolution.Resolver.MarkResolvedConverged | internal/p2p/syncengine/conflict.go:106-124 | lineage, base and last hash all describe the save as it is, which is not changed |
| ConflictResolution.Resolver.DeleteLocalOnly | internal/p2p/syncengine/conflict.go:204-215 | exactly the files the remote lacks are removed |
| ConflictResolution.Resolver.ListDifferent | internal/p2p/syncengine/conflict.go:217-224 | exactly the remote files missing here or different here |
| ConflictResolution.Resolver.PullFiles | internal/p2p/syncengine/conflict.go:226-230 | a link that breaks part way leaves every file either as it was or as the remote's |
| ConflictResolution.Resolver.OverwriteLocalWithRemote | internal/p2p/syncengine/conflict.go:189-236 | on success exactly the fetched files, equal copies left alone; on failure a mixture, or nothing changed if nothing was fetched |
| ConflictResolution.Resolver.ResolveConflict | internal/p2p/syncengine/conflict.go:24-92 | works only on an active conflict; a failed resolution keeps conflict and records as they were |
| ConflictResolution.KeepRemoteSticks | internal/p2p/syncengine/conflict.go:189-236 | after keep-remote the next pass against what was fetched finds everything in sync and changes nothing |
| ConflictResolution.KeepLocalNeverReconflicts | internal/p2p/syncengine/conflict.go:126-154 | after keep-local no remote state whatever makes DetectConflict true |
| ConflictResolution.KeptLocalPlan | internal/p2p/syncengine/conflict.go:129-138 | after keep-local every differing path both sides hold is pushed if the touch is later than the remote copy, and every path only held here is deleted here |
| ConflictResolution.KeepLocalSurvivesNextPassIff | internal/p2p/syncengine/conflict.go:126-154 | keep-local is final exactly if both sides hold the same paths and each differing remote copy is older than the touch; a file only held here goes in the next pass unless the mass-deletion alarm stops it |
| ConflictResolution.KeepLocalLosesLocalOnlyFile | internal/p2p/syncengine/conflict.go:139-154 | the smallest instance: the one slot kept is gone after the next pass |
| Blocks.BlockSizeFor | internal/delta/manifest.go:43-52 | 2 MiB exactly above 100 MiB, 64 KiB exactly up to 20 MiB, 512 KiB in between |
| Blocks.BlockCountBounds | internal/delta/manifest.go:108-152 | block i exists exactly if its offset lies inside the file |
| Blocks.BlocksOfAnyFile | internal/delta/manifest.go:32-52 | up to 20 MiB a file has at most 320 blocks of 64 KiB, up to 100 MiB 41 to 200 of 512 KiB, and beyond at least 51 of 2 MiB |
| Blocks.HashFile | internal/delta/manifest.go:108-152 | the read loop gives one block for every offset inside the file, with the hash and length of the bytes there, and the hash of the whole |
| Blocks.DifferentBlockIndices | internal/p2p/syncengine/decision.go:222-249 | ascending, and exactly the blocks that are new, differ, or were cut with another block size |
| Blocks.BatchIndices | internal/p2p/syncengine/decision.go:251-293 | the batches concatenate to the list in order, none empty, none above the size for the link, all but the last full |
| Blocks.BatchSizeIs | internal/p2p/syncengine/decision.go:258-308 | a batch is the most blocks that 2 MiB hold, capped at 16 over the relay and 32 otherwise, one at least; eight are under way at a time |
| Blocks.ReadBlocks | internal/delta/patch.go:117-149 | every index inside the file is answered, later ones skipped, and an offset that wraps negative is an error |
| Blocks.ServedOneIsBlock | internal/delta/patch.go:117-149 | an index the file's manifest lists is answered with exactly that block |
| Blocks.ServedIff | internal/delta/patch.go:117-150 | an index is answered exactly if the file has that block |
| PatchWriting.PatchWriter.constructor | internal/delta/patchstream.go:41-78 | a temporary file of the manifest's total length, nothing written, the save untouched |
| PatchWriting.PatchWriter.WriteBlock | internal/delta/patchstream.go:124-138 | puts the bytes at the block's wrapped offset and marks it, or records the first failure and marks nothing |
| PatchWriting.PatchWriter.SeedUnchanged | internal/delta/patchstream.go:83-120 | copies and marks the listed blocks that are not incoming, stale buffer bytes included where the old file is short |
| PatchWriting.PatchWriter.Commit | internal/delta/patchstream.go:152-202 | replaces the save exactly if nothing failed, every listed block is marked and the whole-file hash matches, and else leaves it |
| PatchWriting.PatchWriter.Abort | internal/delta/patchstream.go:206-209 | discards the temporary file and leaves the save |
| DeltaTransfer.SaveFileIsSafe | internal/delta/patchstream.go:83-209 | for any steps with any indices and data, the save is untouched or has the manifest's hash, and then every listed block had been supplied |
| DeltaTransfer.WriteInPlaceIff | internal/delta/patchstream.go:124-150 | a block that ends inside the file is put in its place and marked, every other byte stays; one that would end outside is refused, and the refusal is remembered |
| DeltaTransfer.CommitReplacesIff | internal/delta/patchstream.go:152-202 | a commit replaces the save file exactly if nothing failed before, nothing is missing, the hash agrees and every disk operation succeeds |
| DeltaTransfer.AbortIsFinal | internal/delta/patchstream.go:206-219 | after an abort no sequence of steps changes the save file, and writing anything is an error |
| DeltaTransfer.SeedReportIsTrue | internal/delta/patchstream.go:83-120 | seeding that reports success has marked every block of the manifest that is not to come from the peer |
| DeltaTransfer.TransferIsExact | internal/delta/patchstream.go:41-202 | seeding and the requested blocks, in any order and with repeats, make the commit succeed with the remote file, for every local file, given hashes that tell the blocks apart |
| DeltaTransfer.PatchFile | internal/delta/patch.go:35-56 | the all-at-once form is the same steps: blocks in order, seed, commit; a failure leaves the file |
| DeltaTransfer.FetchFileBlocks | internal/p2p/syncengine/engine.go:878-961 | a pool of workers, interleaved in any way, with a link that may fail at any request: what is written is part of the peer's answers, each as often as asked for, all of them on success, and failure has a cause |
| DeltaTransfer.ServedAreBlocks | internal/delta/patch.go:117-149 | a truthful peer answers a valid list with exactly those blocks |
| DeltaTransfer.PullFile | internal/p2p/syncengine/engine.go:842-876 | a whole pull leaves the save alone or with the remote's hash, and with a working link and disk and separating hashes makes it the remote file |
| Relay.StepInv | relay/server.go:97-137 | every atomic step of any client, under any interleaving, keeps the whole accounting; whom the messages reach is in `RelayDelivery` |
| Relay.BudgetsHold | relay/server.go:97-116 | no client has more than 32 MiB or 64 messages buffered, all together no more than 256 MiB, no room more than its size; each counter exceeds the truth by exactly the reservation in progress |
| Relay.NothingLeaks | relay/server.go:119-137 | once all have left and the writers have given back, both counters and the rooms are empty, and every message offered was queued or counted as dropped |
| Relay.LockHolderNeverBlocks | relay/server.go:310-330 | the holder of the lock always has a next step, and it brings the release nearer |
| Relay.WritersDoNotDelay | relay/server.go:286-305 | no writer step adds to what the lock holder has left to do |
| Relay.RelayClient.Enqueue | relay/server.go:97-116 | undisturbed, the message is queued and charged to both counters exactly if it fits both budgets and a slot is free, and else nothing changes |
| Relay.RelayClient.Release | relay/server.go:119-123 | both counters drop by the message's size |
| Relay.RelayClient.Drain | relay/server.go:128-137 | everything queued goes back to both counters |
| Relay.UninterruptedEnqueue | relay/server.go:97-116 | run without interference, the atomic operations of a reservation end where Enqueue says |
| RelayDelivery.EveryOtherMemberServed | relay/server.go:307-328 | from reading a message to releasing the lock, under every interleaving: each other client of the sender's room has had it put into its channel once or been counted as one drop, and nothing else has been put into any channel, the sender's and other rooms' included |
| RelayDelivery.ChannelIsFifo | relay/server.go:97-137 | over any run, what left a client's channel followed by what is still in it is what was in it followed by what was put in, in order |
| RelayDelivery.WriterTurn | relay/server.go:285-305 | a writer's turn takes the front message, gives its bytes back to both counters, and stops the writer exactly if the write failed |
| RelayDelivery.JoinAdmitsIff | relay/server.go:243-258 | a newcomer is admitted exactly if fewer clients than a room holds are in it |
| TransferBudget.InFlightFitsBudget | internal/p2p/syncengine/decision.go:251-308 | the batches outstanding over the relay fit one client's budget in base64, and each one a 16 MiB frame, for every block size up to 3 MiB |
| TransferBudget.BudgetIsTight | relay/server.go:69-80 | 3 MiB is the exact limit: the encoded data of eight batches is within 32 MiB for every choice of batches exactly up to that block size |
| TransferBudget.EveryFileFits | internal/delta/manifest.go:43-52 | every file of any size is cut into blocks for which the budget holds |
| LineageRefresh.DeletionHandler.RequestRefresh | internal/p2p/routes.go:599-616 | the caller starts a worker exactly if none runs for the key, and else leaves word |
| LineageRefresh.DeletionHandler.WorkerTurn | internal/p2p/routes.go:618-635 | the worker goes round again exactly if word was left, and else removes its key |
| LineageRefresh.DeletionHandler.HandleDeleteFile | internal/p2p/routes.go:550-592 | which requests are refused, what is removed (a directory only if empty), and when a refresh is asked for |
| LineageRefresh.RemovalKeepsTree | internal/p2p/routes.go:550-598 | a removed file is gone, a directory exactly if nothing lies in it, no other path is touched, and what is left still lies in directories that exist |
| LineageRefresh.RunInv | internal/p2p/routes.go:599-635 | in every run, exactly one live worker for each key present, no deletion forgotten, every refresh begun or owed paid for by a call |
| LineageRefresh.NoLostRefresh | internal/p2p/routes.go:599-635 | in every run: one worker per game and peer at most, a waiting deletion means the flag is set or the worker is about to refresh, and refreshes begun never outnumber calls |
| LineageRefresh.ExitsOnlyWhenDone | internal/p2p/routes.go:618-635 | a worker that stops leaves nothing waiting and no key |
| LineageRefresh.RestOrProgress | internal/p2p/routes.go:599-635 | a key is at rest, or its worker has a step to take, and there are never more than four of them |
| LineageRefresh.WorkerStepCounts | internal/p2p/routes.go:618-635 | each of them brings the rest one nearer |
| LineageRefresh.TalliesCount | internal/p2p/routes.go:599-634 | the tallies mean what they are called: one more for each call, one more for each refresh begun, and the waiting calls back to none when one begins |
| GameLinks.GameStore.AddGameAlias | internal/store/aliases.go:65-77 | refused for an empty or reflexive link or an unknown game, else the link points there and keeps its snapshot |
| GameLinks.GameStore.ResolveGameAlias | internal/store/aliases.go:115-122 | the game the link points at, if there is one |
| GameLinks.GameStore.SetAliasSnapshot | internal/store/aliases.go:103-111 | remembers the absorbed game on the link, keeping where it points |
| GameLinks.GameStore.DeleteGame | internal/store/games.go:187-193 | the game and every link to it go |
| GameLinks.GameStore.CreateGameUnlessAliased | internal/store/aliases.go:140-176 | a linked or tracked id adds nothing and is answered with the canonical id; else the game is added with its defaults |
| GameLinks.GameStore.LinkGames | internal/daemon/daemon.go:742-762 | succeeds exactly if the link is allowed; the alias's own game is remembered and removed |
| GameLinks.GameStore.UnlinkGame | internal/daemon/daemon.go:768-801 | the link goes, and the absorbed game comes back if it had a save path and nothing took its id |
| GameLinks.UnlinkUndoesLink | internal/daemon/daemon.go:742-801 | unlinking brings the absorbed game back exactly if it had a save path, changes no other game, and restores the links exactly if none pointed from or to the alias |
| GameLinks.RelinkedGameComesBack | internal/store/aliases.go:65-111 | linking a remembered alias to another game moves the link and keeps what it remembers: unlinking then still brings the absorbed game back |
| GameLinks.UnlinkUndoesBareLink | internal/daemon/daemon.go:742-801 | linking an id that is not tracked and unlinking it leaves everything as it was |
| GameLinks.LinksTouchOnlyTheAlias | internal/daemon/daemon.go:742-801 | linking and unlinking touch no other game and change no other link, and unlinking never replaces a tracked game |
| GameLinks.CreatedIff | internal/store/aliases.go:140-176 | a game is added exactly if its id is neither linked nor tracked, with branch main and 20 snapshots where it names none |
| GameLinks.UninterruptedLink | internal/daemon/daemon.go:742-762 | without interference the steps of a link end where LinkGames says |
| GameLinks.LinkWinsEveryRace | internal/daemon/daemon.go:742-762 | however creations fall between a link's steps, once it has succeeded the alias is untracked and later creations of it are answered with the canonical game; an allowed link never fails |
| GameLinks.NoSecondCopy | internal/p2p/routes.go:380-486 | a peer's request racing the link is answered with the alias, the canonical game or the game the alias was linked to before, and after the link the game is not tracked twice |
| GameLinks.UninterruptedRequest | internal/p2p/routes.go:380-486 | alone, a request is answered with the tracked game, else with the one its id is linked to; only an id that is neither is added, and answered with itself |
| SaveTrees.BelowWellFormed | internal/snapshot/zip.go:41-72 | the inside of a save folder is itself a tree |
| SaveTrees.ClearedKeepsShape | internal/snapshot/snapshot.go:674-697 | clearing empties a folder and keeps it, removes a file, and touches nothing beside the save |
| Archives.ZipPath | internal/snapshot/zip.go:21-102 | an archive of exactly what is at the save path, less the files that cannot be opened, and with those whose reading fails cut short; fails exactly if nothing is there or no file could be read whole |
| Archives.UnzipTo | internal/snapshot/zip.go:110-152 | file or folder mode by target and archive, the target removed or emptied, entries until the first that fails; an unopenable archive changes nothing |
| Archives.UnzippedWellFormed | internal/snapshot/zip.go:110-183 | any list of entries whatever, extracted over any tree, leaves a tree |
| ArchiveRoundTrip.ArchivedWholeIff | internal/snapshot/zip.go:41-102 | an archive is the whole save exactly if every file could be opened and read to its end |
| ArchiveRoundTrip.ComesBackIff | internal/snapshot/zip.go:12-183 | extracting a save's archive gives the archived part exactly if the target is of its kind (missing counts as folder, unless the archive is one top-level file) and no top-level name starts with two dots, and the whole save exactly if also every file could be read whole; then it succeeds and changes nothing beside |
| ArchiveRoundTrip.FolderReturnsIff | internal/snapshot/zip.go:110-183 | a save folder archived whole and extracted over a folder is back, and extraction reports success, exactly unless some name in it begins with two dots; one dot is no obstacle |
| ArchiveRoundTrip.FileReturnsIff | internal/snapshot/zip.go:110-183 | a save file comes back exactly unless a folder is in its place or its own name begins with two dots; only the name makes extraction fail |
| ArchiveRoundTrip.ArchiveExistsIff | internal/snapshot/zip.go:21-80 | there is an archive of a file exactly if it can be read whole, of a folder exactly if it holds no file or one that can be, of nothing never |
| Retention.ListSnapshots | internal/store/snapshots.go:47-57 | exactly the branch's snapshots, newest first |
| Retention.SnapshotsBeyondRetentionByKind | internal/store/snapshots.go:70-103 | exactly those with at least as many newer ones of their kind on the branch as the kind's limit; none of an unlimited kind |
| Retention.KeptIff | internal/store/snapshots.go:70-103 | an automatic snapshot on a pruned branch stays exactly if the automatic limit is 0 or less or fewer later automatic ones are on its branch than it allows; a manual one likewise by the manual limit; what stays is unchanged |
| Retention.LimitsActApart | internal/store/snapshots.go:70-103 | changing the limit of one kind changes nothing about what is kept of the other |
| Retention.PruningKeepsNewest | internal/snapshot/snapshot.go:324-359 | per branch and kind, as many are kept as the limit allows and every one kept is newer than every one dropped |
| Retention.PruningSettles | internal/snapshot/snapshot.go:330-359 | pruning twice is pruning once; unlimited kinds and other branches are never touched |
| Retention.OneBranchMore | internal/snapshot/snapshot.go:341-357 | deleting branch after branch comes to the same as judging all by the original rows |
| Retention.NewSnapshotSurvivesIff | internal/snapshot/snapshot.go:180-186 | a snapshot survives the pruning that follows it exactly if fewer later ones of its kind are on the branch than may be kept |
| Retention.KindsDoNotEvictEachOther | internal/store/snapshots.go:70-80 | a new snapshot decides nothing about those of the other kind |
| Snapshots.FirstFree | internal/snapshot/snapshot.go:258-302 | the first free id from the clock on; none exactly if a thousand in a row are taken |
| Snapshots.Manager.EnsureSavePathExists | internal/snapshot/snapshot.go:647-658 | a missing save path becomes a folder unless it has an extension |
| Snapshots.MissingSaveBecomesFolderIff | internal/snapshot/snapshot.go:647-658 | a missing save path becomes an empty folder exactly unless it ends in a dot and an extension that is not empty |
| Snapshots.Manager.ClaimAndInsert | internal/snapshot/snapshot.go:248-302 | the row and the archive are stored under the first free id, or nothing is stored |
| Snapshots.Manager.PruneGameAllBranches | internal/snapshot/snapshot.go:330-359 | rows beyond a limit on any branch go, and exactly their archives |
| Snapshots.Manager.CreateOnBranch | internal/snapshot/snapshot.go:124-212 | archive, claim, prune, in this order; any failure leaves rows and archives alone |
| Snapshots.Manager.ClearSavePath | internal/snapshot/snapshot.go:674-697 | name by name, everything inside a save folder goes, or a save file; it fails exactly if some file cannot be deleted, leaving part of the save and everything beside it |
| Snapshots.Manager.Restore | internal/snapshot/snapshot.go:446-477 | copy, safety snapshot if there is content, extraction from the copy or else from what is left; failure of the safety snapshot does not stop it; `BranchOutcomes` says what the safety snapshot is worth |
| Snapshots.Manager.CreateBranch | internal/snapshot/snapshot.go:508-549 | a new clean name only; as a copy it holds a snapshot of the save or does not exist |
| Snapshots.Manager.SwitchBranch | internal/snapshot/snapshot.go:562-625 | back up, clear, change the active branch, extract the target's latest; lookups, backup, clearing, update and listing may each fail, and a failed extraction still counts as switched |
| Snapshots.Manager.DeleteBranch | internal/snapshot/snapshot.go:413-440 | the active branch is refused; else the branch goes with all its rows and archives |
| Snapshots.Manager.DeleteSnapshot | internal/snapshot/snapshot.go:393-411 | row and archive go together, an unknown id is refused |
| Snapshots.CleanBranchNameIs | internal/snapshot/snapshot.go:95-111 | each character becomes its lower case if that is a letter, digit, underscore or hyphen and goes otherwise; exactly the names made of those stay as they are |
| BranchOutcomes.CleanCharIs | internal/snapshot/snapshot.go:95-111 | by character code, what becomes of each character of a branch name |
| BranchHistory.RunSound | internal/snapshot/snapshot.go:113-625 | over any history, clock and faulty files: every row is on an existing branch and has its archive, every archive is one of a save, the disk is a tree |
| BranchHistory.RestoreSurvivesPruning | internal/snapshot/snapshot.go:456-477 | with the temporary copy, a rollback extracts what the snapshot held at entry, whatever limits prune |
| BranchHistory.RollbackRestoresIff | internal/snapshot/snapshot.go:442-477 | the chosen save is back exactly if it can be extracted over the present one |
| BranchHistory.WithoutCopyPruningCounts | internal/snapshot/snapshot.go:456-477 | without the copy the rollback fails, leaving the save, exactly if the safety snapshot's pruning took the chosen one |
| BranchHistory.CreatedKeepsOthers | internal/snapshot/snapshot.go:312-359 | a new snapshot leaves every snapshot of another kind or branch that is within its limit, row and archive |
| BranchHistory.ManualSurvivesRun | internal/store/snapshots.go:70-80 | over any run of switches, rollbacks, new branches and automatic snapshots, a manual snapshot within its limit keeps its row and archive |
| BranchRoundTrip.BackupStoredIff | internal/snapshot/snapshot.go:180-186 | the backup a switch takes survives its own pruning exactly if fewer later automatic snapshots are on the branch than may be kept; otherwise row and archive are gone |
| BranchRoundTrip.SwitchBacksUpIff | internal/snapshot/snapshot.go:586-599 | a successful switch has archived the save on the branch it left, stored exactly as BackupStoredIff says, and the branch's latest exactly if no snapshot there is later |
| BranchRoundTrip.HoldsThroughRun | internal/snapshot/snapshot.go:330-359 | whatever happens on other branches, a branch's latest snapshot and its archive stay |
| BranchRoundTrip.BranchRoundTripIff | internal/snapshot/snapshot.go:558-625 | leave a branch, do anything elsewhere and rewrite the save folder at will, come back: the part of the save that could be read is back exactly if it fits what is then at the save path, and the whole save exactly if also nothing was left out or cut |
| BranchRoundTrip.DirectRoundTripIff | internal/snapshot/snapshot.go:558-625 | there and straight back: what could be read of a folder save always returns (two leading dots apart), a file save exactly if the other branch is empty or its latest snapshot is one file |
| BranchRoundTrip.SampleReturns | internal/snapshot/snapshot.go:558-625 | a concrete save meets every hypothesis of the round trip, goes and comes back |
| BranchRoundTrip.SnapshotOnEmptyBranchLosesFile | internal/snapshot/snapshot.go:650-658 | one snapshot taken on an empty branch turns an extensionless save path into a folder, and the file does not come back |
| BranchRoundTrip.FailedSwitch | internal/snapshot/snapshot.go:562-615 | a switch that fails on a lookup, an unknown branch or the backup has changed nothing; after a failed clearing, update or listing part or all of the save is gone and its backup is on the branch it was on exactly as BackupStoredIff says, and only a failed listing leaves the new branch active |
| BranchRoundTrip.CopiedBranchKeepsSaveIff | internal/snapshot/snapshot.go:503-549 | switching to a branch made as a copy keeps what could be read of the save, whatever the clock, two leading dots apart, and the whole save exactly if nothing was left out or cut |
| BranchOutcomes.SnapshotStoredIff | internal/snapshot/snapshot.go:128-212 | a snapshot that could be archived and named has the first free millisecond of a thousand, and is stored, row and archive, exactly if its kind has no limit or fewer later ones of it are on the branch; else nothing of it is, and no other is changed |
| BranchOutcomes.RollbackBacksUpIff | internal/snapshot/snapshot.go:446-477 | before it replaces a save, a rollback makes an automatic snapshot of it on the active branch, with or without the temporary copy, stored exactly if the automatic limit is 0 or less or fewer later automatic ones are there |
| BranchOutcomes.RollbackWithoutBackup | internal/snapshot/snapshot.go:446-477 | with nothing to save, or no archive or id to be had, it adds nothing and goes on to extract |
| BranchOutcomes.UnknownRollbackRefused | internal/snapshot/snapshot.go:446-455 | a rollback to an unknown snapshot is refused and changes nothing |
| BranchOutcomes.SwitchSucceedsIff | internal/snapshot/snapshot.go:562-625 | a switch reports success exactly if the store could be read and the branch is active already, or exists with nothing going wrong and nothing to save or an archive and an id for it |
| BranchOutcomes.PartlyClearedIs | internal/snapshot/snapshot.go:674-697 | a clearing cut short leaves only files of the save as they were, and everything beside it |
| BranchOutcomes.NewBranchIff | internal/snapshot/snapshot.go:508-549 | a branch is made exactly if its clean name is new and not empty and, for a copy, an archive and an id can be had, else nothing changes; a copy holds exactly the snapshot of the save, any other none |
| BranchOutcomes.DeletedBranchIsGone | internal/snapshot/snapshot.go:413-440 | the active branch stays; any other goes with exactly its snapshots, rows and archives |
| BranchOutcomes.DeletedSnapshotIsGone | internal/snapshot/snapshot.go:393-411 | row and archive of the deleted snapshot are gone, and nothing else |
| SnapshotClaims.OrderKeptIff | internal/snapshot/snapshot.go:258-299 | among any number of claims into any folders, a step separates a row from its archive exactly if it gives an archive the name of another's in the same folder, claimed or named since the id was found free |
| SnapshotClaims.DifferentFoldersKeepOrder | internal/snapshot/snapshot.go:258-299 | claims for different games or branches may interleave freely |
| SnapshotClaims.LockKeepsOrder | internal/snapshot/snapshot.go:255-256 | a claim run under the lock keeps every row its archive |
| SnapshotClaims.LockClaimsFirstFree | internal/snapshot/snapshot.go:255-302 | and it claims the first free id with its own archive, as ClaimAndInsert does, or gives up when none is left |
| SnapshotClaims.CollidedClaimWalksOn | internal/snapshot/snapshot.go:258-302 | a claim overtaken before its insert takes its archive's name back and ends with the first free id behind the lost one, or gives up if there is none |
| SnapshotClaims.TwoProcessesLoseAnArchive | internal/snapshot/snapshot.go:240-299 | two processes snapshotting one branch in one millisecond leave a row without its archive |
| ShortcutsVdf.VdfParser.ReadCString | internal/presets/shortcuts.go:130-141 | the bytes up to the next NUL, the position behind it, or failure at the end of the data |
| ShortcutsVdf.VdfParser.ReadObject | internal/presets/shortcuts.go:86-128 | ends on every input, never reads outside, never moves back, and gives the fields, position and failure that the format's reading function gives |
| ShortcutsVdf.RoundTrip | internal/presets/shortcuts.go:86-141 | any tree of named objects, strings and 32-bit numbers is read back whole, consuming exactly its bytes, whatever follows |
| ShortcutsVdf.AcceptsOnlyEncodings | internal/presets/shortcuts.go:86-141 | whatever is read without failure was the encoding of some such tree |
| ShortcutsVdf.AcceptsExactlyEncodings | internal/presets/shortcuts.go:86-141 | parsing succeeds exactly on inputs that start with an encoded object |
| ShortcutsVdf.TruncatedKeepsPrefix | internal/presets/shortcuts.go:50-53 | a file cut anywhere fails, but gives exactly the fields read before the cut, at every depth |
| ShortcutsVdf.TruncatedInventsNothing | internal/presets/shortcuts.go:50-75 | if no object repeats a field name, every App ID and name listed from a cut file is one the whole file lists |
| ShortcutsVdf.RepeatedNameListsOverwritten | internal/presets/shortcuts.go:86-128 | a shortcut that gives its name twice, cut between the two, is listed under the name the whole file overwrites |
| ShortcutsVdf.ParseShortcutsVDF | internal/presets/shortcuts.go:54-75 | every entry with an App ID and a name is listed under the ID's unsigned decimal form, with a name it occurs with, and nothing else |
| ShortcutsVdf.OneShortcutListed | internal/presets/shortcuts.go:54-128 | a file given byte by byte, with one shortcut of any App ID and name, lists the unsigned number of the ID's four bytes, lowest first, with the name, and nothing if the name is empty |
| ShortcutsVdf.ListingUniqueIff | internal/presets/shortcuts.go:60-73 | the result depends on the order Go walks the map exactly if one App ID has two names |
| ShortcutsVdf.AppIdsStayApart | internal/presets/shortcuts.go:70-72 | different signed App IDs never share an unsigned decimal form |
| Versions.CompareCore | internal/version/version.go:113-136 | the loop decides by the first position at which the padded numbers differ |
| Versions.ComparePreRelease | internal/version/version.go:68-111 | the loop decides by the first identifiers that differ, then by length |
| Versions.Compare | internal/version/version.go:45-66 | core first, then a release above its pre-releases, then the pre-releases |
| Versions.ComparisonAntisymmetric | internal/version/version.go:45-66 | swapping any two strings reverses the sign; every string equals itself |
| Versions.ComparisonTransitive | internal/version/version.go:45-66 | transitive on all strings, well formed or not: a total preorder |
| Versions.NewerIsStrictOrder | internal/version/version.go:138-154 | no build is newer than itself and newer-than is transitive, so updates between devices cannot go round in a circle |
| SemanticVersions.Agreement | internal/version/version.go:47-136 | on versions whose numbers fit and whose identifiers are not a hyphen and a number, comparing texts is precedence by section 11 of Semantic Versioning 2.0.0 |
| SemanticVersions.NewerByPrecedence | internal/version/version.go:138-154 | of two versions read as meant the higher is newer whatever the build times; of equal ones, a build more than 60000 ms younger, if both times are known |
| SemanticVersions.MisreadIff | internal/version/version.go:68-111 | an identifier is read as a number though it is none exactly if it is a hyphen and digits worth at most 2^63 |
| SemanticVersions.AtoiOfDigits | internal/version/version.go:113-136 | digits with or without a sign count as their value, clamped to 64 bits with the overflow reported |
| SemanticVersions.AtoiOfOther | internal/version/version.go:113-136 | anything else counts as 0, unless the digits before the first stray character overflow |
| SemanticVersions.SpaceAroundIsIgnored | internal/version/version.go:113-136 | white space around a core part is ignored |
| SemanticVersions.IsSpaceIff | internal/version/version.go:113-136 | which characters that is, by code |
| SemanticVersions.PrecedenceExactly | internal/version/version.go:47-136 | and on no others: a valid version is placed rightly against all of those exactly if it is one of them |

## Left out

- Directories in whole passes: `SyncSession` and `ConflictResolution` take saves without sub-folders; the plan for directories is in `SyncDecision`, but applying it is not, since a non-empty directory refuses removal.
- SyncSession.PassAtBase: a pass is one atomic step whose transfers succeed (`SyncHistory` adds passes whose link breaks); the branch alignment before it and merging a conflict onto a new branch are not modelled.
- SyncHistory.RunKeepsOrder: resolving a conflict is not an event of a history.
- ConflictResolution.Resolver.ResolveConflict: the keep-both resolution, the snapshot taken before keep-remote and the copies mirrored to other peers are not modelled.
- ManifestAmbiguity.TextDeterminesContentAmongAllIff: the colliding manifest need not be one that a folder walk gives; that question is answered for newline-free names only, in DeterminedAmongWalksIff.
- Registering a conflict for the user interface, progress reports, retries with pauses, and events over the network other than those `SyncHistory` has.
- Blocks.HashFile: reads never fail, and a block's length is never negative; the original fails on a manifest that claims a negative length.
- PatchWriting.PatchWriter.WriteBlock: one atomic step; the mutex that makes it so among goroutines is not modelled, and flush, close, re-read and rename are one flag.
- DeltaTransfer.FetchFileBlocks: retries and their pauses, throttling and cancelling by the user are one flag, the link.
- Relay.BudgetsHold: every atomic operation on a counter or a channel is a step; the OAuth proxy, health page, heartbeat and socket errors other than a failed write are left out.
- TransferBudget.InFlightFitsBudget: counts block data only, not the JSON envelope around it.
- LineageRefresh.DeletionHandler.HandleDeleteFile: whether a path is safe is a parameter.
- LineageRefresh.NoLostRefresh: counts refreshes that begin; whether one then succeeds within the worker's two minutes is not modelled.
- GameLinks.NoSecondCopy: App-ID matching, tombstones of untracked games and refused folders are switched off.
- Archives.ZipPath: single files may be faulty, whole sub-folders not; links and special files are left out, and writing the archive never fails.
- Archives.UnzipTo: extraction fails only on refused or clashing names, not for lack of space, and the old save can always be removed; file times are not restored by the original either.
- Snapshots.Manager.DeleteBranch: deleting rows never fails.
- Snapshots.Manager.Restore: a temporary copy either succeeds or not, and reading it back always succeeds.
- Snapshots.Manager.PruneGameAllBranches: removing an archive never fails; in the original a failure leaves a stray file without a row.
- Snapshots.Manager.ClaimAndInsert: renaming the archive and inserting the row never fail; one process; the insert that collides with a second process is in `SnapshotClaims`, where the order of steps matters.
- Snapshot timestamps are taken to be those the ids are made of; the cloud upload hook, comments, sizes and the clean-up of all games are left out.
- The parent folder of a save is taken to exist; the original creates it on the way.
- ShortcutsVdf.ParseShortcutsVDF: one file; joining the listings of several Steam users is left out.
- SemanticVersions.PrecedenceExactly: versions without build metadata and without a leading v; IsPreRelease is left out as a single expression.
- Cloud storage, sign-in, command line, desktop and tray, discovery, pairing, self-update, cover art and logging: plumbing around this logic.
