# Proofs about the integrity forest, backups, rollback guard and their helpers

A Dafny 4.11 model of the parts of the server whose correctness is hard to see from one body: the Merkle integrity
forest with its pruned diff and its incremental baseline updates, the reverse-delta file backups with their retention,
the sliding-window rollback breaker and the `compose_update` run that uses it, the archive retention of `guest_backup`,
and three small exact algorithms (nested shell quoting, the glob compiler, edit distance).

`dafny verify dfyconfig.toml` checks everything. One file per component:

| file | component |
|---|---|
| Options, Numerals, Sorting, Utf8, Utf16, ForestPaths | absent values, decimal text, stable sort, UTF-8 byte order of names, UTF-16 order of paths, path helpers |
| Folding, MerkleTrees | the encoding that is hashed, and what a root hash binds |
| NodeStore, ChildLists | the node store, and child lists read from it |
| TreeDiff | the pruned comparison of two trees |
| Synthesis, Assembly, Forest, ForestAssembly, AssembledForests, EditedFiles | from enumerations to one Merkle tree, frozen guests, the engine on such forests, from an edited file to its report |
| BaselineFold, CleanFolds, BaselineDrift, AddedDirectories | refolding, when a batch of folds is clean, what the next diff reports, added directories |
| AcceptPolicy, IntegrityEngine | the accept policy, verify and automatic accept |
| LineDiff, BackupPolicy, BackupStore, ManagedWrites | line deltas, what is stored, the store, runs of writes |
| Eviction | which backups retention deletes |
| RollbackBreaker, ConcurrentUpdates, ComposeUpdate | the breaker, interleaved callers, one update run |
| GuestBackup | guest archives: create, confirm, then evict |
| ShellQuoting, Globs, EditDistance | quoting layers, glob compiler, edit distance |

## How to read the model

* Objects the program mutates are classes (`MemoryNodeStore`, `IntegrityEngine`, `BackupStore`, `RollbackBreaker`, the
  environment classes `Host` and `Node`); loops are loops. Each such method is tied to a specification function or
  predicate, and the properties are lemmas about those.
* SHA-256 is a parameter `sha` from byte strings to 32 bytes. Where collisions matter the lemma asks that the finitely
  many byte strings hashed for the trees (or texts) at hand do not collide; nothing assumes global injectivity.
* Docker and the Proxmox node are environments whose commands choose their own outcome, including lost replies. Time is
  an integer handed in. Directory and map iteration orders are left open.
* Statements the code does not meet everywhere are proved as exact conditions, with literal inputs on which the
  unconditional ones fail:
  * Folding a path keeps the baseline a Merkle tree exactly when its directory is in the baseline and the baseline has
    below the path the children the working node lists (`CleanFoldIff`); a whole batch, exactly when no folded path is
    without its directory and every folded directory with nothing folded below it has the children it lists
    (`WholeBatchIff`, `CleanBatchIff`). A directory added with a file breaks it either way on its own
    (`AddedDirectory`): folded alone it misses its child, and its file folded alone is stored out of reach. Both are
    runs of the default settings: the first when the directory is new to a level and its file is no config file, the
    second when the file is accepted and the directory, reported only at L2, is flagged.
  * A directory folded alone takes its working hash with it. The pruned walk never looks below it again, so its contents
    are accepted without being listed (`SwallowedUnseen`); `AdditionInForests` and `AddedDirectoryRun` have it in the
    forests an assembly gives: `/etc` was empty, `/etc/foo` is folded, the whole diff is empty and `/etc/foo/x.conf` is in
    no baseline. What a batch leaves to the next diff is stated exactly, for every baseline, with gaps and missing
    children or not (`FileDriftAfterBatch`, `AcceptLeavesTheFlagged`).
  * The next smart verify reports all that is left exactly when something is left at L1, or nothing anywhere
    (`NextVerifySeesAll`): a clean L1 hides what was flagged at L2 and L3.
  * A fold keeps the recorded states honest exactly when the directory above was not recorded as empty or unreadable
    (`FoldKeepsStatesIff`); `/etc` in `AddedDirectoryRun` has a child in the end and is still recorded as empty.
  * The fence reads a drifted path, not what lies below it: something under a path is protected exactly when an entry
    catches the path, lies below it, or is a wildcard whose front eats up the path and a slash (`FenceBelow`,
    `FenceBelowExample`). A container path with a line terminator is judged by its forest path (`ContainerNodePath`).
  * A stored blob gives back the replaced content right after a write exactly when that content is what was stored, or
    the write changed nothing (`RestoresPreviousIff`, `BinaryWriteExample`).
  * The blob a deduplicated write points at outlives the eviction of that same call exactly when fewer than the per-file
    cap of its file's entries come after it and it fits, with those the per-file cap leaves, into the global cap
    (`EvictionSpares`, `ManagedWrite`, `DedupTargetCanGo`).
  * The oldest versions of a file are evicted first exactly when the plan works in that order; entries whose timestamp
    is no date, as the file-name stamps are once colons became dashes, stay in the order of the listing
    (`SparesNewerIff`, `UntimedKeepOrder`), so with those it holds exactly when every file's entries are listed oldest
    first (`UntimedSparesIff`, `UntimedExample`).
  * A listed blob whose sidecar is gone is always called revertible, which is wrong exactly when it is a delta taken
    against other content (`BareBlobVerdict`, `BareDeltaExample`).
  * A glob means its expression on every path exactly when it has no `**`, and a path is judged alike by every glob
    exactly when it has no line terminator (`MeaningOfGlob`, `MeaningOnPath`, `LineTerminatorIsNotMatched`).
  * The image that ran at the start of an update stays referenced in every run of the handler that the node allows
    exactly when the compose file does not name the hold tag (`HoldIsSafeIff`). Nothing in the handler refuses a file
    that does; with one that also pulls again on `up`, `HoldTagExample` is a run, commands and replies included, that is
    reported as updated and leaves the old image without a reference.

## Model

| member | source | states |
|---|---|---|
| Folding.SerializeInjective | src/integrity/folding.ts:50-67 | the child-list encoding name, NUL, 32-byte hash is uniquely decodable for NUL-free names |
| Folding.NodeBytesInjective | src/integrity/folding.ts:50-67 | equal bytes of two directories mean the same children with the same hashes |
| Folding.NodeBytesPermutation | src/integrity/folding.ts:50-67 | a directory's bytes do not depend on the order its children were collected in |
| Folding.NodeBytesAre | src/integrity/folding.ts:25-67 | the bytes of an empty directory and of one with a child: domain byte, name, NUL, hash |
| Folding.FoldNode | src/integrity/folding.ts:59-67 | the sort-and-feed loop hashes exactly the specified bytes |
| Utf8.EncodeCharIs | src/integrity/folding.ts:61-66 | a name is hashed as UTF-8: lead byte of the shortest form, then six bits a byte, and the bits are those of the character |
| Utf8.EncodeInjective | src/integrity/folding.ts:91-95 | two names with the same UTF-8 bytes are the same name |
| Utf8.NameLeTotalOrder | src/integrity/folding.ts:91-95 | comparing names by bytes is a total order in which only equal names tie |
| MerkleTrees.HashBindsSubtree | src/integrity/tree.ts:95-134 | trees that agree on the hash at a path agree on presence, hash and hashed bytes of everything below it, given no collision |
| MerkleTrees.RootBindsTree | src/integrity/tree.ts:95-134 | equal super-root hashes mean the same paths with the same hash at each path |
| TreeDiff.DriftSound | src/integrity/diff.ts:61-115 | every entry of the diff is true drift below the start, with the right kind, hashes and states |
| TreeDiff.EntrySays | src/integrity/diff.ts:61-115 | an entry carries the hash and state of each side that has its path, and its kind says which sides do and whether the states differ |
| TreeDiff.DriftComplete | src/integrity/diff.ts:61-115 | pruning on equal hashes loses no report of the full comparison |
| TreeDiff.PrunedEqualsFull | src/integrity/diff.ts:61-115 | the pruned walk reports an entry exactly when the full comparison does |
| TreeDiff.DriftDistinct | src/integrity/diff.ts:61-115 | no path is reported twice |
| TreeDiff.DriftEmptyIffHashesAgree | src/integrity/diff.ts:61-115 | the diff is empty exactly when the two hashes agree, where childless unavailable nodes agree (AssembledForests proves that of every assembly) |
| TreeDiff.FileDriftCovered | src/integrity/diff.ts:61-115 | a file whose presence or hash differs is reported, lies below a reported addition or removal, or (file against directory) has a reported path at or below it |
| TreeDiff.Differ.Walk | src/integrity/diff.ts:67-115 | the recursive walk terminates and pushes exactly the specified entries in order |
| TreeDiff.Diff | src/integrity/diff.ts:61-65 | `treeDiff` returns the specified entries |
| TreeDiff.WalkNames | src/integrity/diff.ts:109-114 | the names descended into are the union of both sides' child names in byte order, each once |
| TreeDiff.ChildrenOf | src/integrity/diff.ts:33-47 | the child list of a path is exactly the nodes recorded under it |
| NodeStores.MemoryNodeStore.Get | src/integrity/nodeStore.ts:223-225 | the row of one tree and level at a path, when there is one |
| NodeStores.MemoryNodeStore.GetChildren | src/integrity/nodeStore.ts:226-233 | exactly the rows of that tree and level under the parent |
| NodeStores.MemoryNodeStore.AllUnder | src/integrity/nodeStore.ts:234-242 | lists exactly the rows at or under the scope, each once |
| NodeStores.MemoryNodeStore.SurgicalUpdate | src/integrity/nodeStore.ts:257-259 | upserts the nodes and leaves every other tree and level alone |
| NodeStores.MemoryNodeStore.ReplaceSubtree | src/integrity/nodeStore.ts:250-256 | everything at or under the scope is replaced by the nodes, nothing else changes |
| NodeStores.MemoryNodeStore.ClearWorking | src/integrity/nodeStore.ts:272-277 | empties the working tree of one level or of all, and keeps the others and the baselines |
| Synthesis.SynthesizeEntries | src/integrity/forestShape.ts:49-66 | the result holds the prefix, each enumerated path with its last entry, and exactly the directories between them |
| Synthesis.LastEntryCounts | src/integrity/forestShape.ts:49-66 | the last entry enumerated at a path gives its kind, its time and whether it can be read |
| Synthesis.NoEntryIsDirectory | src/integrity/forestShape.ts:49-66 | a path nothing was enumerated at is filled in as a present directory |
| Synthesis.PathsRoundTrip | src/integrity/forestShape.ts:33-44 | node paths and forest paths of a prefix translate into each other, the node's root into the prefix |
| Synthesis.SynthesisClosed | src/integrity/forestShape.ts:49-66 | the result is closed under parents up to the prefix |
| Synthesis.SynthesisIsTree | src/integrity/forestShape.ts:49-66 | with nothing enumerated below a file or unreadable directory, the entries form a tree |
| Synthesis.SynthesisOrderFree | src/integrity/forestShape.ts:49-66 | with distinct paths the order of the enumeration does not matter |
| Assembly.IncludePaths | src/integrity/tree.ts:66-88 | at L2 exactly the root, the config files and the directories above one are included; otherwise everything |
| Assembly.AssembleSubtree | src/integrity/tree.ts:66-136 | the depth-ordered fold yields the specified node at every included path, once each |
| Assembly.AssembledNodeGrounded | src/integrity/tree.ts:95-134 | every directory's hash is the fold of exactly its included children, every other node has its leaf or sentinel hash |
| Assembly.FileNode | src/integrity/tree.ts:99-134 | a file's node: the sentinel hash where it or its content could not be read, the decimal time at L1, the content at L2 and L3; its time and state |
| Assembly.SameFileIff | src/integrity/tree.ts:99-134 | two assemblies give a readable file the same hash exactly when they read the same of it: the time at L1, the content at L2 and L3 |
| Assembly.AssembledUnique | src/integrity/tree.ts:66-136 | the assembled tree is determined by the set of entries |
| Assembly.EnumerationOrderFree | src/integrity/forestShape.ts:49-66 | permuting an enumeration changes no hash of the assembled tree |
| Forest.FoldForestRoots | src/integrity/forestShape.ts:75-114 | adds exactly the missing ancestors, each folded from its children, longest paths first |
| Forest.ForestIsMerkle | src/integrity/forestShape.ts:75-114 | gap-free subtrees plus that layer are one Merkle tree under the super-root |
| Forest.JoinGrounded | src/integrity/forest.ts:52-82 | subtrees in separate namespaces keep their equations side by side |
| Forest.FreezeSubtree | src/integrity/forest.ts:90-104 | a frozen guest keeps its baseline nodes with only the prefix marked, or becomes one placeholder |
| Forest.LayerSame | src/integrity/forestShape.ts:75-114 | the layer depends on nothing but the paths and hashes below it |
| Forest.FrozenGuestIsQuiet | src/integrity/forest.ts:84-104 | with all other sources unchanged a frozen guest leaves the super-root as it was and the diff empty |
| Forest.FrozenGuestHasNoDrift | src/integrity/forest.ts:84-104 | whatever the other sources did, nothing at or below a frozen guest is reported |
| ForestAssembly.ConfigByNodePath | src/integrity/forest.ts:64-65 | config files are told by the path on the node, whatever the prefix in the forest |
| ForestAssembly.AssembleForest | src/integrity/forest.ts:52-82 | the loop over the sources yields every source's subtree, assembled or frozen, and the layer above them |
| ForestAssembly.FrozenPiece | src/integrity/forest.ts:90-104 | freezing a piece of a Merkle forest, or replacing a missing one by a placeholder, gives a piece again |
| ForestAssembly.ForestOfSourcesIsMerkle | src/integrity/forest.ts:52-82 | the forest over any sources in separate namespaces, some of them frozen, is one Merkle tree |
| ForestAssembly.ForestStatesHonest | src/integrity/forest.ts:52-104 | its states are honest: leaves present or unreadable, childless directories never present, sentinel states with sentinel hashes |
| AssembledForests.AssembledAgrees | src/integrity/integrityEngine.ts:158-166 | frozen from the Merkle baseline it is compared with, every assembled forest is a Merkle tree, has the baseline's hash wherever it is unavailable, and keeps honest states honest |
| AssembledForests.AssembledDriftEmptyIff | src/integrity/integrityEngine.ts:158-166 | the diff of such a forest against its baseline is empty exactly when the hashes agree |
| AssembledForests.ComputeForestNodes | src/integrity/integrityEngine.ts:158-166 | the forest of the sources, with what cannot be reached read back from the store |
| AssembledForests.AcceptAssembled | src/integrity/integrityEngine.ts:147-350 | an automatic accept on two such assemblies, one for the verify and one for the folds: the report is the file drift against the first, the new baselines are the folds from the second |
| EditedFiles.EditedFileIsReported | src/integrity/forest.ts:52-82 | across two assembled forests a file readable in both is reported as changed exactly when what the level reads of it has changed |
| BaselineFold.RefoldRestores | src/integrity/integrityEngine.ts:363-376 | refolding upwards closes every open Merkle equation on its way to the root and opens none |
| BaselineFold.RefoldTouches | src/integrity/integrityEngine.ts:363-376 | a refold changes only hashes and child lists, only on the way to the root, and stops below a missing directory |
| BaselineFold.FoldStep | src/integrity/integrityEngine.ts:353-376 | one fold leaves open at most its own node and what was open off its way, nothing on the unbroken way above it |
| CleanFolds.CleanFoldIff | src/integrity/integrityEngine.ts:353-376 | folding one path keeps the baseline a Merkle tree exactly when its directory is in the baseline and the baseline has below it the children the working node lists |
| CleanFolds.CleanBatchIff | src/integrity/integrityEngine.ts:317-376 | after a batch the part of the baseline that hangs is a Merkle tree exactly when every folded directory in it with nothing folded below it has the children it lists |
| CleanFolds.WholeBatchIff | src/integrity/integrityEngine.ts:317-376 | the whole baseline is one exactly when, besides, every folded path has its directory |
| AddedDirectories.AddedDirectory | src/integrity/integrityEngine.ts:353-376 | a directory added with a file: folding either alone breaks the tree, after the directory alone no diff ever lists the file, folding both in report order is clean but leaves a directory above that was recorded as empty so recorded |
| AddedDirectories.AdditionInForests | src/integrity/integrityEngine.ts:353-376 | the same in all forests the assembly of one source gives, and after the directory alone the whole diff is empty while the file is in no baseline |
| AddedDirectories.AddedDirectoryRun | src/integrity/integrityEngine.ts:147-166 | two assemblies for which this holds: `/etc` empty, then `/etc/foo/x.conf` |
| CleanFolds.FoldKeepsStatesIff | src/integrity/integrityEngine.ts:363-376 | a clean fold keeps the states honest exactly when the directory above was not recorded as empty or unreadable, since the refold keeps its state |
| BaselineFold.FoldAllView | src/integrity/integrityEngine.ts:353-376 | a batch writes the folded nodes and moves the hashes and child lists of the nodes a refold came by, nothing else, whatever the baseline was |
| BaselineFold.FoldAllOpens | src/integrity/integrityEngine.ts:353-376 | a batch leaves open at most the folded paths and what was open before, where no refold came by |
| BaselineDrift.WalkIff | src/integrity/diff.ts:61-115 | of any two stored trees, Merkle or not, the walk reports exactly the differing paths it gets to, going below directories with unequal hashes only |
| BaselineDrift.FileDriftAfterBatch | src/integrity/integrityEngine.ts:353-376 | the file drift after a batch, for every baseline: what was not folded, is not above a fold, differs from the old baseline, and is not below a directory that was copied and not refolded since, as far as the old walk or a refold opens the way |
| BaselineDrift.SwallowedUnseen | src/integrity/integrityEngine.ts:353-360 | at or below a directory copied and not refolded since, no later diff reports anything |
| BaselineDrift.LeftAfterMerkle | src/integrity/integrityEngine.ts:353-376 | with a Merkle baseline: the earlier file drift and the children an added directory exposes, without the folded paths, what turned into a directory above one, and what lies below a directory copied and not refolded |
| BaselineDrift.PlainRemains | src/integrity/integrityEngine.ts:353-376 | where every directory a refold came by was one before, it is the earlier file drift without the folded paths and without what lies below a directory copied and not refolded |
| IntegrityEngines.IntegrityEngine.RefoldPathToRoot | src/integrity/integrityEngine.ts:363-376 | the upward loop over the store computes the specified refold and touches only that baseline |
| IntegrityEngines.IntegrityEngine.FoldLeafIntoBaseline | src/integrity/integrityEngine.ts:353-360 | at each level that has the path, the baseline becomes the specified fold; working trees stay |
| IntegrityEngines.IntegrityEngine.ComputeAndDiff | src/integrity/integrityEngine.ts:207-220 | the kept entries are exactly the file drift between the baseline and a fresh forest |
| IntegrityEngines.IntegrityEngine.Verify | src/integrity/integrityEngine.ts:184-289 | an empty baseline at a wanted level seeds the baselines, otherwise they stay and the report holds the file drift of the right levels, sorted, with the policy's outcomes |
| IntegrityEngines.ReportTells | src/integrity/integrityEngine.ts:244-276 | what the policy is told of a drifted path: the levels that report it, and that it is explained exactly when the audit log knows the hash its working node has at the richest of them |
| IntegrityEngines.IntegrityEngine.AutoAccept | src/integrity/integrityEngine.ts:317-350 | each baseline becomes the fold of exactly the permitted paths from what the second read finds, one audit record per fold in order |
| IntegrityEngines.FoldedXorFlagged | src/integrity/integrityEngine.ts:317-350 | every drifted path is either folded or flagged, never both |
| IntegrityEngines.FoldsAncestorsFirst | src/integrity/integrityEngine.ts:251-289 | the sorted report folds no path before one of its ancestors |
| IntegrityEngines.AcceptedBaseline | src/integrity/integrityEngine.ts:317-376 | an accept folds its paths into the baselines of the levels asked for and touches no other |
| IntegrityEngines.AcceptKeepsBaseline | src/integrity/integrityEngine.ts:317-376 | what the accept asks of a baseline, every baseline it leaves meets again |
| IntegrityEngines.AcceptLeavesTheFlagged | src/integrity/integrityEngine.ts:317-376 | the file drift left at a level, for every baseline: what was flagged, or appeared after the report, or is gone from the working tree, nothing folded below it, and the walk still gets to it, which it does not below a directory copied and not refolded since |
| IntegrityEngines.AcceptOfPlainFolds | src/integrity/integrityEngine.ts:317-376 | over a Merkle baseline, with the same files read twice and no added directory above a fold: exactly what was flagged, plus removed paths, except below a directory copied and not refolded |
| IntegrityEngines.NextVerifySeesAll | src/integrity/integrityEngine.ts:222-233 | the next smart verify reports all that is left exactly when something is left at L1 or nothing at all |
| IntegrityEngines.HostNodePath | src/integrity/integrityEngine.ts:119-128 | a host path is what follows `host`, which alone is the root |
| IntegrityEngines.OtherNodePath | src/integrity/integrityEngine.ts:119-128 | a path of neither kind is judged as it is, made absolute |
| IntegrityEngines.ContainerNodePath | src/integrity/integrityEngine.ts:119-128 | a container's path is what follows its id, except where that holds a line terminator |
| Utf16.UnitsAre | src/integrity/integrityEngine.ts:251 | a character is one code unit, or a surrogate pair whose value is the character |
| Utf16.CodeUnitsInjective | src/integrity/integrityEngine.ts:251 | texts with the same code units are the same, so the order of paths confuses no two |
| Utf16.SortedAncestorsFirst | src/integrity/integrityEngine.ts:251 | in a list sorted by code units no path comes before one of its ancestors |
| AcceptPolicy.ApplyAcceptPolicy | src/integrity/acceptPolicy.ts:81-120 | each leaf gets the outcome its facts and the budget left by earlier leaves demand |
| AcceptPolicy.PolicyByCase | src/integrity/acceptPolicy.ts:91-120 | decisions by level: no drift never folds, such content folds exactly when fewer than the budget come before it, config files exactly when allowed, moved times always |
| AcceptPolicy.ReasonTells | src/integrity/acceptPolicy.ts:91-120 | the reason on record tells the cases apart |
| AcceptPolicy.DemandCounts | src/integrity/acceptPolicy.ts:81-115 | the demand before a leaf is the number of earlier such leaves |
| AcceptPolicy.TailIsCappedDemand | src/integrity/acceptPolicy.ts:81-120 | of the leaves with unexplained content drift, neither config file nor protected, as many are folded as the budget allows and no more |
| AcceptPolicy.PolicyFence | src/integrity/acceptPolicy.ts:91-120 | an unexplained leaf on a protected path is never folded, an unexplained L2 leaf only when allowed, an explained drifted leaf always |
| Globs.StartsIff | src/history/sweepPlanner.ts:40-60 | an expression accepts some path with a given start exactly when its atoms can eat that start up |
| AcceptPolicy.PlainEntryIff | src/integrity/acceptPolicy.ts:63-75 | a plain entry catches its own path, slashes at its end aside, and what lies below it on a slash boundary |
| AcceptPolicy.FenceBelow | src/integrity/acceptPolicy.ts:63-75 | something at or below a path is protected exactly when an entry catches the path, is a plain entry below it, or is a wildcard some path below it can match |
| AcceptPolicy.FenceBelowExample | src/integrity/acceptPolicy.ts:91-120 | an added directory above a protected one is folded with it |
| AcceptPolicy.IsSensitivePath | src/integrity/acceptPolicy.ts:63-75 | the loop finds exactly whether some entry catches the path, as glob or as subtree |
| LineDiff.LcsTable | src/backup/policy.ts:68-83 | the table holds the longest-common-subsequence length of every pair of prefixes |
| LineDiff.BacktrackTable | src/backup/policy.ts:85-100 | the backtrack reads the specified script off the table |
| LineDiff.ScriptBound | src/backup/policy.ts:68-100 | no script from one list to the other keeps more lines than that length, and its cost follows from what it keeps |
| LineDiff.BacktrackTurns | src/backup/policy.ts:85-100 | the script turns the new lines into the previous ones and keeps exactly that many lines |
| LineDiff.BacktrackIsMinimal | src/backup/policy.ts:68-100 | the script costs n + m - 2 LCS and no script costs less |
| LineDiff.Compress | src/backup/policy.ts:102-115 | run-length compression stands for the same script, with no two neighbouring hunks of one kind |
| LineDiff.ApplyHunks | src/backup/policy.ts:117-133 | the applier gives the lines the script yields, or fails exactly on an overrunning keep |
| LineDiff.BuiltHunksRestore | src/backup/policy.ts:68-133 | applying the built hunks to the new lines rebuilds the previous lines and never overruns |
| LineDiff.SplitJoin | src/backup/policy.ts:148-149 | splitting a text into lines and joining them gives the text |
| LineDiff.JoinSplit | src/backup/policy.ts:132-149 | joining lines without a line end and splitting gives the lines |
| BackupPolicy.ComputeReverseDiff | src/backup/policy.ts:144-164 | the blob restores the previous content from the new one; raw exactly above the line limit, otherwise a shortest delta |
| BackupPolicy.ApplyReverseDiff | src/backup/policy.ts:172-209 | raw blobs give their content; deltas fail without a current file or on another base |
| BackupPolicy.SelectBackupKind | src/backup/policy.ts:216-269 | when to dedup or store metadata only, and what every stored blob restores |
| BackupPolicy.TextIff | src/backup/policy.ts:44-48 | content counts as text exactly when none of its first 8192 bytes is zero |
| BackupPolicy.RestoresPreviousIff | src/backup/policy.ts:216-269 | exactly when a stored blob gives the replaced content back right after the write |
| BackupPolicy.BinaryWriteExample | src/backup/policy.ts:216-269 | a NUL written over a text stores the NUL |
| BackupPolicy.VerdictIsExact | src/backup/policy.ts:305-335 | revertible exactly when restoring yields content, for every current content or none |
| BackupPolicy.VerdictReason | src/backup/policy.ts:305-335 | the reason of the verdict is the error restoring fails with |
| BackupPolicy.LegacyVerdict | src/backup/policy.ts:305-335 | for a delta kind with only its hash recorded the verdict never overstates, and exactly when it understates |
| BackupStores.BackupStore.BuildExistingHashMap | src/backup/store.ts:131-160 | maps a hash to a blob exactly when some sidecar that is not re-anchored offers an existing one |
| BackupStores.BackupStore.LatestBaseHash | src/backup/store.ts:356-372 | the hash of the newest sidecar of the target that has one, or none |
| BackupStores.LatestIsLast | src/backup/store.ts:356-372 | that hash is the one on record: of the sidecars with a hash, the newest |
| BackupStores.BackupStore.RunEviction | src/backup/store.ts:162-168 | deletes exactly the files the plan does not keep, and keeps the store's invariant |
| BackupStores.BackupStore.CheckDiskPressure | src/backup/store.ts:170-174 | never reports pressure, in any state |
| BackupStores.BackupStore.StoreBackup | src/backup/store.ts:176-235 | evicts, then adds exactly the blob and sidecar of the kind, keeping blobs and sidecars honest; whether a dedup target is still there |
| BackupStores.EvictionSpares | src/backup/store.ts:162-188 | a file outlives an eviction exactly when fewer than the per-file cap of its entries come after it and it fits into the global cap with those kept after it |
| BackupStores.DedupTargetCanGo | src/backup/store.ts:176-188 | a store in which the blob a deduplicated write is pointed at is deleted by that call |
| BackupStores.BackupStore.Restore | src/backup/store.ts:379-384 | missing file, sidecar, or what the blob gives back |
| BackupStores.ListedVerdictIsExact | src/backup/store.ts:300-346 | for every stored version with its sidecar, the listed verdict is revertible exactly when restore yields content |
| BackupStores.BareBlobVerdict | src/backup/store.ts:300-346 | a blob without its sidecar is always called revertible, and exactly when that is right |
| BackupStores.BareDeltaExample | src/backup/store.ts:300-346 | a delta without its sidecar over an edited file: called revertible, and restoring fails |
| BackupStores.DedupRestores | src/backup/store.ts:131-188 | the blob a deduplicated write points at was taken for the same content and restores |
| BackupStores.VersionKeepsHonest | src/backup/store.ts:203-232 | a new version keeps every sidecar a true description of its blob |
| ManagedWrites.ManagedFiles.ManagedWrite | src/tools/writeFile.ts:100-182 | a stored text write over an existing file restores exactly the content before it, whatever was edited outside, and extends the chain of versions; it keeps the whole content before, restorable for ever, exactly when that is not what the last recorded write of the file left, and a shortest reverse delta otherwise; its hash goes on record; when a write dedups or keeps metadata only; exactly when a dedup target is still there, and what it then gives |
| ManagedWrites.ChainWalksBack | src/backup/store.ts:379-384 | restoring newest to oldest walks back through every earlier version of an undisturbed run |
| Eviction.PlanEviction | src/backup/eviction.ts:19-60 | partitions its input: keeps the specified list and deletes first every version over its file's cap, then the first of the rest |
| Eviction.SurvivesIff | src/backup/eviction.ts:29-57 | exactly when an entry is kept, from its place in the order |
| Eviction.SparesNewerIff | src/backup/eviction.ts:23-49 | under every cap the oldest versions of a file go first exactly when the plan works in that order |
| Eviction.TimedSparesNewer | src/backup/eviction.ts:23-49 | entries whose timestamps are dates: the oldest go first |
| Eviction.UntimedKeepOrder | src/backup/eviction.ts:23-26 | entries whose timestamps are no dates stay in the order listed |
| Eviction.UntimedSparesIff | src/backup/eviction.ts:23-49 | with such entries the oldest of every file go first, under every cap, exactly when each file's entries are listed oldest first |
| Eviction.UntimedExample | src/backup/eviction.ts:23-49 | two such versions listed newest first: the newer one is deleted |
| Eviction.KeptPerFile | src/backup/eviction.ts:29-49 | each file keeps a newest suffix of its versions within the per-file cap |
| Eviction.KeptTotal | src/backup/eviction.ts:51-57 | the kept total is within the global cap, and putting the last victim of that cap back would exceed it |
| Eviction.KeptIsStable | src/backup/eviction.ts:19-60 | everything kept once is kept again |
| Eviction.ReplanKept | src/backup/eviction.ts:19-60 | planning the kept entries deletes nothing |
| Eviction.IsOverCap | src/backup/eviction.ts:66-68 | over the cap exactly when the total exceeds it |
| RollbackBreakers.EvaluateRollbackBreaker | src/guardrails/rollbackBreaker.ts:48-57 | counts the attempts in the window and trips at the limit |
| RollbackBreakers.RollbackBreaker.CheckAttempt | src/guardrails/rollbackBreaker.ts:138-148 | records the attempt; the verdict is the one a never-pruned log gives |
| RollbackBreakers.RollbackBreaker.PeekAttempt | src/guardrails/rollbackBreaker.ts:129-136 | records nothing; the verdict is the one a never-pruned log gives |
| RollbackBreakers.HeldCountsLikeLog | src/guardrails/rollbackBreaker.ts:138-148 | over every sequence of calls with a clock that moves on, the pruned map counts like the whole log |
| RollbackBreakers.WindowBound | src/guardrails/rollbackBreaker.ts:138-148 | no closed window lets more than limit - 1 checks on a key through |
| RollbackBreakers.SilenceForgives | src/guardrails/rollbackBreaker.ts:138-148 | after more than a window of silence the next attempt passes exactly when the limit is at least 2 |
| RollbackBreakers.OtherKeysNeverMatter | src/guardrails/rollbackBreaker.ts:129-148 | calls on other keys never change a verdict |
| ConcurrentUpdates.CallRecords | src/tools/composeUpdate.ts:180-198 | a call whose gate lets it through is in flight from then and can record one rollback under its service; another one is refused |
| ConcurrentUpdates.RunIsBounded | src/tools/composeUpdate.ts:180-198 | recorded plus still pending rollbacks of a service stay within limit - 1 + k in every reachable state |
| ConcurrentUpdates.WindowHolds | src/tools/composeUpdate.ts:420-457 | with at most k calls in flight, under every interleaving, a closed window holds at most limit - 1 + k rollbacks of a service by calls that did not override |
| ConcurrentUpdates.SequentialWindow | src/tools/composeUpdate.ts:420-457 | sequential calls: at most limit |
| ComposeUpdates.StabilityPass | src/tools/dockerUpdate.ts:787-813 | without a health check the gate passes exactly when nothing exited, no restart happened and the container was up without a break for the stable time |
| ComposeUpdates.PollTells | src/tools/dockerUpdate.ts:787-813 | the verdict is pass exactly for a container that neither stopped nor restarted and, with a health check, is healthy in the end, without one, was up long enough; fail exactly for one that did or is unhealthy in the end |
| ComposeUpdates.HealthGate | src/tools/composeUpdate.ts:484-518 | terminates, and stops at the first samples that decide or when time is up; the report passes exactly for samples of a healthy container whose probe, when there is one, succeeded, and is probe-only exactly when just the probe failed; no report exactly when a reply was lost |
| ComposeUpdates.Handler.Admit | src/tools/composeUpdate.ts:160-360 | what is refused before anything changes, in order: no confirmation, invalid arguments, a tripped breaker unless overridden, a failed preflight |
| ComposeUpdates.Handler.RecreateAndJudge | src/tools/composeUpdate.ts:408-417 | a recreate that fails counts as a failed gate, and otherwise the report is that of the samples and probe taken; a passing container runs what the ref names |
| ComposeUpdates.Handler.PullAndHold | src/tools/composeUpdate.ts:370-406 | up to the recreate the commands and states are a run the node allows; the replies, those of the reads included, decide whether and how the call stops |
| ComposeUpdates.Handler.Settle | src/tools/composeUpdate.ts:408-474 | from the recreate on it stays such a run, replies and health verdicts decide the outcome, and the breaker is told once exactly for counted outcomes |
| ComposeUpdates.Handler.Update | src/tools/composeUpdate.ts:180-474 | every call, with any step failing or lost, is a run the node allows: the image running at the start stays referenced by container or hold tag; the hold tag moves only in runs that recreate; what the pulled ref was found to name decides whether anything is updated; an update or rollback that is reported passed its gate on the samples taken; lost exactly when a reply was; one breaker record per counted outcome; what the node runs at the end, by outcome |
| ComposeUpdates.RunKeeps | src/tools/composeUpdate.ts:370-474 | in every run the node allows the container runs what it ran until something is recreated, and the hold tag names it from the hold on |
| ComposeUpdates.RunEndsAs | src/tools/composeUpdate.ts:370-474 | what the node runs and the ref names when a run ends, by result |
| ComposeUpdates.VerdictsDecide | src/tools/composeUpdate.ts:408-474 | the outcome from the verdicts of the gates on the new and the old image |
| ComposeUpdates.HoldIsSafeIff | src/tools/composeUpdate.ts:370-474 | the image stays referenced in every run of the handler the node allows exactly when the compose file does not name the hold tag |
| ComposeUpdates.HoldTagExample | src/tools/composeUpdate.ts:370-417 | commands, replies and states of a run whose compose file names the hold tag and pulls again on `up`: reported as updated, and nothing references the old image |
| GuestBackups.IsMcpIff | src/tools/backups.ts:35-38 | an archive counts as made by the server exactly when its note has the letters `mcp-` after nothing but blanks |
| GuestBackups.NoteExamples | src/tools/backups.ts:35-38 | the note `before upgrade` lacks the mark, no note does, a server note after a blank has it |
| GuestBackups.UnmarkedIsNeverPlanned | src/tools/backups.ts:64-86 | an archive whose note lacks that mark is in no plan |
| GuestBackups.PlanKeepsNewest | src/tools/backups.ts:64-75 | retention before a backup leaves the newest cap - 1 marked archives, none below 0 |
| GuestBackups.PostCreateKeepsNewest | src/tools/backups.ts:64-86 | retention deletes only other archives with the mark and leaves the newest max(1, cap) - 1 of them |
| GuestBackups.HeadroomMargin | src/tools/backups.ts:94-107 | refused exactly when the newest sized archive is known not to fit with a tenth to spare |
| GuestBackups.MatchIsMcp | src/tools/backups.ts:36-55 | an archive that carries a server note carries the ownership mark |
| GuestBackups.ResolvedIsMcp | src/tools/backupTools.ts:302-312 | a resolved volid names the newest listed archive with exactly that note, server-made; unresolved exactly when there is none |
| GuestBackups.WaitForBackupTask | src/tools/backupTools.ts:53-80 | done only on a task that stopped with OK, failed only on another exit status, pending only after all polls |
| GuestBackups.CreateAndWait | src/tools/backupTools.ts:240-296 | starts one backup, polls only where the backend hands out tasks, and only adds archives |
| GuestBackups.Evict | src/tools/backupTools.ts:184-193 | deletes only the listed archives; without errors exactly those are gone |
| GuestBackups.GuestBackup | src/tools/backupTools.ts:159-349 | refused for room exactly when retention will delete and the storage cannot hold one more; otherwise one backup is started and the result follows its task; in the default order nothing is deleted before the new archive is confirmed and then only other ones with the mark; an archive without it survives every run; a clean completed run ends with the new archive and the newest others, max(1, cap) in all |
| GuestBackups.CarefulKeepsMcp | src/tools/backupTools.ts:159-349 | no step of such a run takes the guest from one server-made archive or more to none |
| GuestBackups.TrailKeeps | src/tools/backupTools.ts:159-349 | no run deletes an archive whose note lacks the mark, and a default run never the new one |
| EditDistances.EditDistance | src/tiers/registry.ts:271-285 | the two-row table computes the recursive distance |
| EditDistances.DistanceIsLeastCost | src/tiers/registry.ts:271-285 | the distance is the least cost of an alignment of the two strings |
| EditDistances.DistanceIsShortestScript | src/tiers/registry.ts:271-285 | a script of that many single-character edits exists and none is shorter |
| EditDistances.DistanceIsSymmetric | src/tiers/registry.ts:271-285 | the distance is symmetric |
| EditDistances.TriangleInequality | src/tiers/registry.ts:271-285 | the distance satisfies the triangle inequality |
| ShellQuoting.QuotedReadsBack | src/ssh/command.ts:14-16 | a quoted text, read anywhere in a line, joins the word with exactly that text |
| ShellQuoting.QuotedIsOneWord | src/ssh/command.ts:14-16 | on its own it is one word, the text |
| ShellQuoting.PiecesReadBack | src/ssh/command.ts:40-50 | a line of plain words, quoted texts, blanks and operators is read as exactly those tokens |
| ShellQuoting.TransportHandsOn | src/ssh/ssh2Client.ts:155-162 | through the transport's `timeout` the node's shell is handed the command verbatim, under the limit asked for |
| ShellQuoting.PctHandsOn | src/tools/pctHelpers.ts:60-72 | through `pct exec` the shell of that guest is handed the command verbatim, under the limit asked for or none |
| ShellQuoting.DockerHandsOn | src/tools/dockerHelpers.ts:291-303 | through `docker exec` the shell of that container is handed the command or the script around it |
| ShellQuoting.ContainerHandsOn | src/tools/dockerHelpers.ts:275-282 | both branches of the in-container script run the command verbatim in the shell asked for, the one with `timeout` under the limit |
| ShellQuoting.ProbeReads | src/tools/dockerHelpers.ts:275-282 | the script's test probes for `timeout` and discards both outputs |
| ShellQuoting.CommandArrivesVerbatim | src/tools/dockerHelpers.ts:275-303 | peeling all layers gives the caller's command back, character by character, in the guest, container and shells it is for and under the limits asked for |
| Globs.GlobToRegExp | src/history/sweepPlanner.ts:40-60 | the index loop emits the specified expression text |
| Globs.EmittedParses | src/history/sweepPlanner.ts:40-60 | the emitted text is a valid expression with one atom per glob element |
| Globs.GlobToRegExpPreservesMeaning | src/history/sweepPlanner.ts:34-64 | the anchored expression never accepts more than a direct glob matcher, and the same where the path has no line terminator or the glob no `**` |
| Globs.MeaningOnPath | src/history/sweepPlanner.ts:34-64 | a path is judged alike by every glob and its expression exactly when it has no line terminator |
| Globs.MeaningOfGlob | src/history/sweepPlanner.ts:34-64 | a glob and its expression agree on every path exactly when it has no `**` |
| Globs.LineTerminatorIsNotMatched | src/history/sweepPlanner.ts:34-36 | a path with a line feed that `**` is documented to match and does not |

## Left out

- Store operations `promote`, `findByHash` and the SQLite layout, hence `acceptTruth`; the model is the map-backed store. The SQLite scope filter is a LIKE pattern, in which `_` and letter case match more than the map-backed prefix test does.
- Hex rendering of digests, JSON and gzip: a blob is a delta or raw content, so raw content that is itself a delta envelope in JSON does not arise.
- Texts are sequences of characters encoded as UTF-8; byte strings that are not valid UTF-8, and strings told apart only by unpaired UTF-16 surrogates, are not modelled.
- The sort in `getChildren` and `viewOf` by UTF-16 code units is left open (any order), because the folding sorts again by bytes.
- Directory names of the backup store (a truncated hash of the target key), same-millisecond stamps (each write has a later stamp than all before it), and a failing write to the live file.
- Eviction.PlanEviction: what `Date` makes of a timestamp is given with the entry; among entries with and without a time the program's comparator contradicts itself, and the model puts those without first.
- IntegrityEngines.AcceptLeavesTheFlagged: asks that the bytes of the refolded nodes and of the working tree do not collide, and that stored names hold no NUL; the engine takes the forests it reads as parameters, and AssembledForests puts assembled ones there.
- EditedFiles.EditedFileIsReported: asks that what is hashed for the two forests and for the file does not collide, and that both hold the path; at L2 only config files and the directories above them are in a forest (`IncludePaths`).
- AssembledForests.AcceptAssembled: asks for Merkle baselines, since a source frozen from a broken baseline gives no Merkle forest; all levels are assembled, whether the run needs them or not.
- Backup sidecars written before requirements were recorded appear only in the classification lemmas and in the dedup map's fallback, not in the store's runs.
- ManagedWrites.ManagedFiles.ManagedWrite: the diff preview, audit record and history step of the pipeline are not modelled; a chain of versions starts anew at a deduplicated, metadata-only or non-text write and at an outside edit.
- ComposeUpdates.Handler.Update: the read-only preflight refusals between the breaker gate and the pull are one opaque refusal; audit records, warnings and version strings are not modelled; nobody else moves tags or containers during the call, except through ConcurrentUpdates for the breaker.
- GuestBackups.GuestBackup: other writers may add archives until the new one is confirmed but do not delete any; volids compare by a given collation; audit records and message texts are not modelled.
- ShellQuoting.CommandArrivesVerbatim: commands with a NUL character, which no argument vector can carry, are not told apart; what `timeout`, `pct exec` and `docker exec` do with their arguments is stated by the small functions `RunByTimeout`, `SentByPct` and `SentByDocker`.
- Redaction, denylists, path validation, health thresholds, drift statistics, tiers, and the parsers of `pct`, `qm`, `df`, `docker` and similar output: no property across functions to prove.
- Enumeration over SSH and SFTP, exclude patterns and the overlap check of watch paths: the forest starts from what a source delivers.
