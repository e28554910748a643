# Triss coworker: verified models

This project models the parts of Triss where a wrong order of small steps loses
data or lets two owners in, and proves what those parts promise.

* `StandaloneInstall`, `StandaloneInvariant`, `StandaloneSafety`, `StandaloneRefusal`,
  `StandaloneOutcome`, `StandaloneWitness` and `StandaloneInstaller`: the journaled standalone install and its crash
  recovery. A state is the disk (receipt, journal, `current` pointer, launcher link,
  versions, inventories, staging) and the running procedure; an event is one durable
  write, one smoke run, one operation that fails before its effect or after it, or
  one crash. `Installer` is the imperative installer, whose writes may all fail: each
  of them is shown to be one event of the step system.
* `ArtifactTree` and `ArtifactExtract`: extraction, the inventory check and the
  stack walk over an installed tree.
* `FixedLock`, `RunLease` and `LockHierarchy`: the in-process reader/writer lock,
  the retrying acquire loop with its release controller, and any number of
  actors over the ranked locks (maintenance, target, slots, inventory).
* `MarkedBlock` and `FileTransaction`: the byte-level splice of a managed block,
  and the all-or-nothing application of many files with a failure possible at
  every file operation.
* `InventoryCodec`, `SessionSlots` and `SessionStore`: the inventory document, the
  project-wide slot rules, and the transitions of session rows over the files.
* `ProjectIdentity`, `Backup`, `ManifestText` and `BackupConsistency`: first-writer-wins
  publication among racing callers, a backup whose completion implies its validity, the
  text whose bytes are counted, and the rules that tie session rows, mappings and
  identity together.
* `ShellLexer` and `ShellScript`: the documentation check's shell lexer, the quoting it
  undoes, and a grammar of scripts whose commands it finds.
* `Ipv6` and `PermissionPolicy`: IPv6 text and the addresses that are private, and the
  shell permission gate.
* `Wrappers`, `Basics` and `Strings`: `Option` and `Result`, splitting and joining, and
  small shared definitions.

Where a value is `*` in a method body, any outcome is possible: failing file
operations, other callers, generated records. A class with a `reliable` field, and a
method with a `reliable` parameter, additionally promises what happens when nothing
fails.

## What the code does that its description does not say

* An upgrade that is interrupted after the launcher was anchored directly at the old
  version and before the journal says `CURRENT_ACTIVATED`, by a crash or by any write
  that throws there, leaves a disk on which recovery refuses for ever
  (`AnchorWindow`; `InterruptedInstall` says at which steps, exactly, and
  `UpgradeIsLost` that nothing helps afterwards). So does a recovery of a first install
  in a final phase that is interrupted after it withdrew `current`
  (`WithdrawnWindow`, `InterruptedRecovery`, `WithdrawnFirstInstallIsLost`).
  `RefusedExactly` proves that these are the only two kinds of refused disk, and
  `AnchorWindowIsReached` and `WithdrawnWindowIsReached` run into them.
* Recovery's commit path unlinks the journal and syncs the directory inside the `try`
  whose catch falls through to the restore path. When the sync throws, the old state
  is restored without a journal. Left alone this ends well (`UnjournalledFinishes`),
  but interrupted between the switch of `current` and that of the receipt it leaves a
  disk that no install and no recovery takes up again (`StrandedIsReached`,
  `StrandedForever`). `OnlyLossStrands` proves that no other failure or crash strands
  a disk.
* `RecoverableExactly` sums this up: after any run, recovery takes up the journal or an
  install can begin, exactly when a pending disk is in neither window and a disk
  without a journal has `current` at what the receipt names. Otherwise nothing ever
  changes the disk again (`NeverTakenUp`).
* A candidate tree that recovery finds damaged is kept, and blocks installing the
  same version again (`FinishedRecovery`).
* Planning a managed block a second time leaves the file alone exactly when the
  replacement is one block and trailing white space; with any other good replacement
  the second plan makes the file longer or fails (`PlanningTwice`, `NotBareGrows`).
* The wildcard matcher of the permission gate does not escape `?`. A policy that
  denies everything can therefore make the probe stage throw instead of being
  accepted (`ShieldedMayThrow`, `GateOnBoth`); the probes never find anything else.
* The gate is stricter than the evaluator (`RefusedThoughDenied`).
* The backup scan takes names with two dots in a row, the backup validator does
  not: a completed backup is valid exactly when it has no such name
  (`BackupCoderV2State`), and `DottedBackup` completes one that is not.
* The copy's byte count goes on from the inventory's, so a source of more than half
  the total cap is never backed up (`Completes`).
* With a NUL in an engine name the encoder can sort two valid rows in an order the
  decoder rejects: such an inventory is written and then unreadable
  (`NulLosesInventory`).
* A heredoc operator without a usable delimiter word makes the lexer lose the rest
  of that line (`BadWordLosesLine`, `EmptyDelimiterHidesCommands`), although its
  comment says that the line is parsed on: the error result carries no index.
* A slot given to `markCoderSessionRunning` never moves a row when the slot was
  confirmed: a confirmed slot is the slot the row already has
  (`MarkCoderSessionRunning`).

## Model

| member | source | states |
|---|---|---|
| StandaloneInvariant.StepKeepsInv | scripts/standalone-bootstrap.js:1386-1712 | every durable write, smoke run and crash of install, rollback and recovery, and every failure before or after its effect but one, keeps the invariant that ties receipt, journal phase, current, launcher and trees together |
| StandaloneInvariant.LateFaultKeepsInv | scripts/standalone-bootstrap.js:748-758 | an install, its rollback and its finally block keep the invariant when an operation throws after it took effect |
| StandaloneInvariant.LateRecoveryThrowKeepsInv | scripts/standalone-bootstrap.js:1464-1504 | so does every stage of a recovery except the commit path's unlink of the journal |
| StandaloneSafety.RunKeepsInv | scripts/standalone-bootstrap.js:1386-1712 | the invariant holds after every run, with crashes anywhere and recovery itself crashed and rerun, until a recovery loses its journal |
| StandaloneSafety.RunIsKnown | scripts/standalone-bootstrap.js:1386-1712 | every run at all leads to the invariant, to a restore without a journal, or to a stranded disk |
| StandaloneSafety.LosingTheJournal | scripts/standalone-bootstrap.js:1469-1478 | the late failure of that unlink leaves a restore without a journal over a disk that is still all new |
| StandaloneSafety.UnjournalledDisk | scripts/standalone-bootstrap.js:1479-1484 | without a journal the disk is settled exactly outside the two stages between the switch of current and that of the receipt, and stranded inside them |
| StandaloneSafety.UnjournalledFinishes | scripts/standalone-bootstrap.js:1479-1504 | left alone, a restore without a journal ends all old with nothing of the candidate left |
| StandaloneSafety.LateUnlinkStrands | scripts/standalone-bootstrap.js:1472-1479 | every recovery about to unlink its journal can be stranded by one late failure and one crash |
| StandaloneSafety.OnlyLossStrands | scripts/standalone-bootstrap.js:1386-1712 | a disk that is neither settled nor under a journal comes from a lost journal and nothing else |
| StandaloneSafety.StrandedForever | scripts/standalone-bootstrap.js:1246-1268 | on a stranded disk no install passes its checks and no recovery finds a journal, ever |
| StandaloneSafety.LauncherNeverExposesCandidate | scripts/standalone-bootstrap.js:1674-1712 | at every moment of every run the launcher resolves to what the receipt names or to what the pending journal replaces, and to a candidate only once the receipt names it; only a lost journal breaks this, and then the launcher runs the receipt's previous version |
| StandaloneSafety.FinishedRecovery | scripts/standalone-bootstrap.js:1464-1504 | a recovery that ends by removing the journal leaves receipt, current and launcher all old or all new, new only if the new receipt was already durable, with staging and journal gone; the same version, its inventory included, can be installed again exactly when no damaged tree was kept |
| StandaloneSafety.FinishedInstall | scripts/standalone-bootstrap.js:1671-1712 | an install that removes its own journal has committed everything or put everything back, inventory included |
| StandaloneRefusal.RefusedExactly | scripts/standalone-bootstrap.js:1323-1371 | the entry checks refuse a reachable pending disk exactly in the two windows |
| StandaloneRefusal.RefusedForever | scripts/standalone-bootstrap.js:1386-1455 | a refused recovery changes nothing and no later attempt gets further |
| StandaloneRefusal.RecoverableExactly | scripts/standalone-bootstrap.js:1246-1371 | after any run, recovery admits the journal or the checks of an install pass for some version, exactly when a pending disk is in neither window and a disk without a journal has current at what the receipt names |
| StandaloneRefusal.NeverTakenUp | scripts/standalone-bootstrap.js:1386-1535 | an idle disk that fails this condition is never changed again |
| StandaloneRefusal.InstallableExactly | scripts/standalone-bootstrap.js:1246-1268 | after any run that left no journal, the checks of an install pass exactly for the versions that are newer than the one the receipt names and not there yet, on a disk whose current is what the receipt names |
| StandaloneRefusal.InterruptedInstall | scripts/standalone-bootstrap.js:1663-1720 | an install interrupted by a crash or a throwing write leaves a refused journal exactly when it is an upgrade whose launcher is anchored and whose journal does not say CURRENT_ACTIVATED yet |
| StandaloneRefusal.RefusedThroughFinally | scripts/standalone-bootstrap.js:1714-1719 | the finally block touches nothing that the entry checks read, and recovery goes on refusing |
| StandaloneRefusal.UpgradeIsLost | scripts/standalone-bootstrap.js:1674-1683 | after such an interruption no later recovery is admitted and no later install begins |
| StandaloneRefusal.InstallNeverWithdraws | scripts/standalone-bootstrap.js:1663-1720 | no stage of an install, its finally block included, is in the withdrawn window |
| StandaloneRefusal.InterruptedRecovery | scripts/standalone-bootstrap.js:1464-1504 | a recovery interrupted by a crash or a throwing write leaves a refused journal exactly when it has withdrawn the current of a first install in a final phase |
| StandaloneRefusal.WithdrawnFirstInstallIsLost | scripts/standalone-bootstrap.js:1480-1504 | after such an interruption no later recovery is admitted and no later install begins |
| StandaloneSafety.RecoveryMovesOn | scripts/standalone-bootstrap.js:1464-1504 | each recovery step goes forward in the same transaction or ends with the journal gone and all old or all new |
| StandaloneSafety.UndisturbedRecoveryFinishes | scripts/standalone-bootstrap.js:1386-1504 | an admitted recovery that is left alone ends, all old or all new |
| StandaloneOutcome.RecoveryOutcome | scripts/standalone-bootstrap.js:1464-1504 | after any run, an admitted recovery that is left alone ends all new exactly when the disk it began on had the new receipt, current at the target, the target intact with its inventory and a phase after PREPARED, and all old otherwise; on reached disks receipt and current say the rest |
| StandaloneOutcome.CommittedInstallSurvives | scripts/standalone-bootstrap.js:1696-1712 | an install that crashes anywhere from the durable receipt to the end of its journal is completed by the next recovery |
| StandaloneWitness.JournalledUpgradeReachesWindow | scripts/standalone-bootstrap.js:1663-1680 | every journalled upgrade has a crash point in the anchor window |
| StandaloneWitness.AnchorWindowIsReached | scripts/standalone-bootstrap.js:1680-1683 | a concrete run from a valid install into the anchor window |
| StandaloneWitness.WithdrawnWindowIsReached | scripts/standalone-bootstrap.js:1469-1483 | a concrete run from a bare root into the withdrawn window, which recovery refuses |
| StandaloneWitness.StrandedIsReached | scripts/standalone-bootstrap.js:1472-1479 | a concrete run from a bare root to a stranded disk |
| StandaloneInstaller.RestoreCannotFail | scripts/standalone-bootstrap.js:1305-1322 | in a reachable restore, with its journal or without, the launcher's checks pass, so the restore path never stops there |
| StandaloneInstaller.UndoneIsRecoverable | scripts/standalone-bootstrap.js:1684-1695 | after the pre-commit undo the next recovery is admitted |
| StandaloneInstaller.UndoKeepsReceipt | scripts/standalone-bootstrap.js:1684-1695 | the undo happens while the old receipt is still the one on disk |
| StandaloneInstaller.TargetIsNamed | scripts/standalone-bootstrap.js:1651-1662 | the new receipt of a running install names the installed target |
| StandaloneInstaller.Installer.RecoverJournal | scripts/standalone-bootstrap.js:1386-1504 | the imperative recovery over writes that may fail: refused exactly when the entry checks fail; when nothing fails, all new exactly when the smoke run is good and the new state was durable on the disk it began on, and all old otherwise, with the transaction gone and a damaged candidate kept exactly when it was untrusted; interrupted, it leaves a disk that is taken up again exactly when it is neither in the windows nor stranded |
| StandaloneInstaller.Installer.InstallManifest | scripts/standalone-bootstrap.js:1515-1720 | the imperative install over writes that may fail: a downgrade is refused before anything else; installed means settled, named by the receipt and run by the launcher; reverted means settled without the target; a thrown error leaves a settled disk or this install's own journal, which recovery admits exactly when the disk is not in the anchor window; when nothing fails every admitted install is installed; over a journal of the same version and with nothing failing it ends installed already, refused for an untrusted tree, or installed, as the durable state decides |
| StandaloneInstaller.Installer.Publish | scripts/standalone-bootstrap.js:1665-1683 | ends before the smoke run with inventory and version in place, the launcher parked on the old executable, current switched and the journal at CURRENT_ACTIVATED, or with the throw in the finally block |
| StandaloneInstaller.Installer.Commit | scripts/standalone-bootstrap.js:1696-1712 | commits everything, rolls everything back when the launcher cannot be activated or fails its smoke run, or leaves a settled disk or its own journal when a write throws |
| StandaloneInstaller.Installer.RollbackPublishedTransaction | scripts/standalone-bootstrap.js:1372-1385 | unless a write throws, puts the old state back and removes the published version, its inventory and the journal |
| StandaloneInstaller.Installer.Undo | scripts/standalone-bootstrap.js:1684-1695 | unless a write throws, restores the old pointers and leaves a ROLLED_BACK journal |
| StandaloneInstaller.Installer.Reinstall | scripts/standalone-bootstrap.js:1546-1586 | the active version again: rejected exactly when its layout is broken, otherwise nothing changes but a missing launcher, and it succeeds only if every smoke run that is made does |
| StandaloneInstaller.Installer.GiveUp | scripts/standalone-bootstrap.js:1714-1719 | after a throw the finally block leaves this install's own journal or a settled disk |
| StandaloneInstaller.Installer.CompleteCommit | scripts/standalone-bootstrap.js:1469-1478 | drops the journal over an all new disk, or hands any throw on to the restore path |
| ArtifactTree.AssertNoOverlappingPaths | scripts/standalone-bootstrap.js:961-970 | accepts exactly the path sets in which no path is a directory of another |
| ArtifactTree.ValidPathMeans | scripts/standalone-bootstrap.js:948-960 | a path is accepted exactly when resolving its parts, with dots taken as a file system takes them, leads to itself, within 64 parts and 4 KiB and without separators in a part; accepted paths stay strictly below every root |
| ArtifactTree.ValidTextMeans | scripts/standalone-bootstrap.js:948-960 | a text is accepted exactly when the parts it splits into are |
| ArtifactTree.ValidateInventory | scripts/standalone-bootstrap.js:1176-1202 | accepts exactly the inventories with valid, distinct, ordered, non-overlapping entries within the caps and the receipt's totals, and every accepted path names its own place strictly below any root |
| ArtifactTree.Visit | scripts/standalone-bootstrap.js:1058-1104 | one directory entry is counted and checked; a refusal means that the whole tree is not acceptable |
| ArtifactTree.CapsLeaveRoom | scripts/standalone-bootstrap.js:1058-1102 | in an acceptable tree no object, directory, file or byte cap stops the walk |
| ArtifactTree.AllReached | scripts/standalone-bootstrap.js:1049-1105 | when the stack is empty the walk has reached every node |
| ArtifactTree.WalkTree | scripts/standalone-bootstrap.js:1049-1105 | the stack walk ends with exactly the tree's files and directories seen, and succeeds exactly when every node and cap is fine |
| ArtifactTree.ValidateTree | scripts/standalone-bootstrap.js:1032-1113 | accepts exactly the trees whose files and directories are the inventory's, with matching modes, sizes and hashes, within the caps |
| ArtifactExtract.JoinedInjective | scripts/standalone-bootstrap.js:948-954 | two lists of valid parts with one joined path are the same path |
| ArtifactExtract.SortMeans | scripts/standalone-bootstrap.js:1022 | sorting keeps the entries and puts them in strict path order |
| ArtifactExtract.CheckRecords | scripts/standalone-bootstrap.js:982-1010 | the first loop and the overlap check accept exactly the records that can be written without a clash within the caps; each accepted record is a plain file with the size, hash and mode it states, at its own place below the stage |
| ArtifactExtract.BuiltDescribes | scripts/standalone-bootstrap.js:1011-1020 | the written stage holds exactly the records' files with their data and the directories above them |
| ArtifactExtract.WriteRecords | scripts/standalone-bootstrap.js:1011-1020 | writing in place builds that tree, that inventory and that total |
| ArtifactExtract.StageIsFree | scripts/standalone-bootstrap.js:1011-1014 | no accepted record is written over anything, so that check never stops an extraction |
| ArtifactExtract.InventoryPasses | scripts/standalone-bootstrap.js:1021-1030 | the inventory of accepted records passes the inventory check |
| ArtifactExtract.TreePasses | scripts/standalone-bootstrap.js:1011-1030 | the tree of accepted records passes the tree check |
| ArtifactExtract.StageStaysBelow | scripts/standalone-bootstrap.js:1011-1020 | every file and directory of an accepted stage is at its own place strictly below it |
| ArtifactExtract.AcceptedIsPlain | scripts/standalone-bootstrap.js:1032-1113 | what is no directory in an accepted tree is a file of mode 0644 or 0755 whose size and hash some entry lists under that path |
| ArtifactExtract.ExtractArtifact | scripts/standalone-bootstrap.js:971-1031 | accepted are only acceptable artifacts, and all of them when no file operation fails; everything accepted passes both checks with all caps lined up, the stage holds the records' data, and every node of it stays below the stage |
| FixedLock.StepKeepsInv | src/fixed-kernel-lock.js:221-320 | every section, publication, close and foreign write keeps the registry equal to the set of holding handles |
| FixedLock.RunKeepsInv | src/fixed-kernel-lock.js:43-68 | so in every interleaving |
| FixedLock.WriterExcludesAll | src/fixed-kernel-lock.js:243-272 | a writer is the only holder there is |
| FixedLock.GrantedExactly | src/fixed-kernel-lock.js:243-272 | an attempt that meets no failure is granted exactly when the lock is free for it |
| FixedLock.FailedAcquireChangesNothing | src/fixed-kernel-lock.js:139-146 | an acquire that is not granted, whatever failed, leaves registry and holders alone; a grant means that nobody held |
| FixedLock.ReleaseNeverUnlocksAnother | src/fixed-kernel-lock.js:280-303 | releasing, failed or repeated, takes the lock from no other handle, and a retry after success touches nothing |
| FixedLock.CleanReleaseFrees | src/fixed-kernel-lock.js:280-320 | a clean release frees what was held however often it failed before |
| FixedLock.WriterRoundTrip | src/fixed-kernel-lock.js:221-320 | a writer that is granted and publishes has a live marker and excludes everybody, and its clean release leaves the lock as free as it was |
| FixedLock.Lock.AttemptExclusive | src/fixed-kernel-lock.js:243-257 | one exclusive attempt over the mutable registry is the exclusive section |
| FixedLock.Lock.AttemptShared | src/fixed-kernel-lock.js:258-272 | one shared attempt over the mutable registry is the shared section |
| FixedLock.Lock.Release | src/fixed-kernel-lock.js:280-320 | a release, with its two flags, is the marker section and then the close |
| RunLease.ReleaseController.Pass | src/coder-lease.js:288-301 | one pass tries each pending handle once and no released one |
| RunLease.ReleaseController.Release | src/coder-lease.js:275-331 | succeeds exactly when every selected handle is released; each handle left failed every attempt; a full success is remembered |
| RunLease.ReleaseLower | src/coder-lease.js:467-490 | the catch block gives back slot and target and keeps maintenance for the outer catch |
| RunLease.Attempt | src/coder-lease.js:405-490 | an attempt ends again, leased or thrown, with every handle it acquired accounted for: again exactly for a retake whose cleanup works, leased exactly when admitted, and thrown with the code of what failed |
| RunLease.CleanUp | src/coder-lease.js:491-506 | after the last catch each handle is released or failed in every attempt, two of them or one when releasing slot and target failed before, and an error that is no aggregate means that all are released |
| RunLease.AcquireRunLease | src/coder-lease.js:391-506 | a lease for the selected slot exactly when maintenance is acquired and one of the first eight attempts is admitted after clean retakes only; an error names the first other failure, or exhaustion after eight retakes; each handle is owned by the returned lease, released, or failed every attempt under an aggregate error |
| RunLease.RunLease.Release | src/coder-lease.js:345-382 | may be called again: tries each unreleased handle once, never a released one, and fails exactly while one is left |
| LockHierarchy.AcquiresInOrder | src/coder-lease.js:128-140 | whatever an actor waits for ranks after all it holds |
| LockHierarchy.WaitsForAWriter | src/coder-lease.js:75-140 | an actor waits exactly while somebody else holds that lock and one of the two means it exclusively |
| LockHierarchy.HeldAfterMove | src/coder-lease.js:166-198 | acquiring adds exactly the awaited lock, every other move only gives locks up |
| LockHierarchy.ExecutionKeepsExclusion | src/coder-lease.js:391-460 | no execution of any actors lets two incompatible holds meet |
| LockHierarchy.SomeoneIsEnabled | src/coder-lease.js:391-460 | following the waits upwards leads to an actor that can step |
| LockHierarchy.EnabledMeansStep | src/coder-lease.js:391-460 | an enabled actor has a step of the system |
| LockHierarchy.NoDeadlock | src/coder-state-backup.js:881-940 | in every reachable state of run leases that may select their slot under the inventory, admissions, owner prefixes and backups some unfinished actor can step |
| LockHierarchy.OneOwner | src/coder-lease.js:75-110 | an exclusive lock has at most one holder |
| LockHierarchy.BackupIsAlone | src/coder-state-backup.js:881-940 | in every execution, while a backup holds anything nobody else holds anything |
| LockHierarchy.CopyingHoldsAll | src/coder-state-backup.js:881-940 | a backup copies only while it holds the slot of every live session |
| LockHierarchy.RunLeasesShare | src/coder-lease.js:391-400 | no run lease keeps another one from maintenance |
| MarkedBlock.MarkerCount | src/marker-transaction.js:28-39 | the scanning loop counts as the recursive specification does |
| MarkedBlock.CountMeaning | src/marker-transaction.js:28-39 | the scan says zero or one exactly when there is no, or exactly one, occurrence |
| MarkedBlock.NoStraddle | src/marker-transaction.js:262-276 | no marker straddles a seam at a marker's edge or a line break |
| MarkedBlock.BlockOf | src/marker-transaction.js:227-243 | trimming never cuts into the block, and a replacement is bare exactly when trimming leaves the block alone |
| MarkedBlock.TrimsText | src/marker-transaction.js:247-276 | on text, trimming the bytes is trimming the text |
| MarkedBlock.PlansExactly | src/marker-transaction.js:223-260 | a plan is made exactly for a good replacement over a file with one ordered pair of markers or none, and each refusal has its cause |
| MarkedBlock.ChangedExactly | src/marker-transaction.js:262-289 | a plan is a change exactly when it writes other bytes than there are, and always for an absent file |
| MarkedBlock.AppendedExactly | src/marker-transaction.js:247-260 | over a text without markers the plan is the text, what makes a blank line, and the replacement |
| MarkedBlock.PlanOverPair | src/marker-transaction.js:262-276 | over a text with one pair the trimmed replacement goes between the same neighbours |
| MarkedBlock.KeptAbsent | src/marker-transaction.js:247-276 | what a plan keeps holds no marker |
| MarkedBlock.UserBytesSurvive | src/marker-transaction.js:223-289 | after a bare replacement there is exactly one ordered pair, the block between it, and all user bytes around it in place |
| MarkedBlock.PlanningTwice | src/marker-transaction.js:223-289 | the second plan succeeds and changes nothing exactly when the replacement is bare; over any other good replacement it fails or makes the file longer |
| MarkedBlock.CreatedTwice | src/marker-transaction.js:223-289 | over the file a good replacement created, the second plan succeeds and adds what the replacement has around its block |
| MarkedBlock.NotBareGrows | src/marker-transaction.js:223-289 | a concrete good replacement with text before its start marker makes the file longer the second time |
| FileTransaction.PreviousMeans | src/marker-transaction.js:314-318 | the three maps know of an earlier conflict exactly when there is one |
| FileTransaction.ValidateFileTransaction | src/marker-transaction.js:300-331 | the one pass accepts exactly the plans no two of which conflict, unknown scopes and broad names included, and names a conflicting earlier destination |
| FileTransaction.MatchesExactly | src/marker-transaction.js:517-636 | the precondition of a plan holds later exactly when the destination is what was planned over: the same target through the same link, and the same file with its bytes, mode and identity, or none |
| FileTransaction.FileSystem.WriteTemp | src/marker-transaction.js:386-407 | a temporary file is whole, partial or absent, and no other name changes |
| FileTransaction.FileSystem.Publish | src/marker-transaction.js:431-483 | rename or link installs the written file at once; a failing cleanup after a link still reports it |
| FileTransaction.FileSystem.AtomicReplace | src/marker-transaction.js:386-515 | the target holds the new content and mode or is untouched; without a throw no temporary file stays; nothing fails when no operation does |
| FileTransaction.FileSystem.RemoveOwned | src/marker-transaction.js:638-685 | success means the created file is gone; nothing else changes |
| FileTransaction.FileSystem.Undo | src/marker-transaction.js:687-734 | success means the plan's original bytes and mode, or absence |
| FileTransaction.FileSystem.UndoChange | src/marker-transaction.js:687-734 | undoing one change leaves the other changes in place |
| FileTransaction.FileSystem.Rollback | src/marker-transaction.js:687-734 | every file outside the failed plans is as it was at the start |
| FileTransaction.FileSystem.ApplyPlan | src/marker-transaction.js:736-766 | one plan is installed or not, also when it throws, and earlier changes stay |
| FileTransaction.FileSystem.ApplyNext | src/marker-transaction.js:739-766 | the next changed plan is written and every earlier one stays written, or the throw leaves all that is written recorded |
| FileTransaction.FileSystem.Compensate | src/marker-transaction.js:767-773 | after a throw every file outside the failed plans has its bytes and mode back |
| FileTransaction.FileSystem.ApplyFileTransaction | src/marker-transaction.js:736-774 | returns with every target holding its replacement, skipped ones included when the plans were made over these files, or fails without rollback failures and every file has its bytes and mode back; refused exactly on a conflict; returns when nothing fails and the plans are fresh |
| InventoryCodec.LessIsOrder | src/coder-session-inventory-codec.js:257-259 | the sort's comparator is a total order on keys |
| InventoryCodec.SortedMeans | src/coder-session-inventory-codec.js:257-259 | sorting permutes the rows into order |
| InventoryCodec.DuplicatesAreAdjacent | src/coder-session-inventory-codec.js:260-265 | in sorted rows every pair with one key shows up as neighbours |
| InventoryCodec.EncodeRefusesDuplicates | src/coder-session-inventory-codec.js:248-265 | valid rows are refused as duplicates exactly when two share a key |
| InventoryCodec.EncodesExactly | src/coder-session-inventory-codec.js:248-276 | a list is encoded exactly when it has at most four rows, all valid and of different keys, and its text at most 64 KiB |
| InventoryCodec.KeyOrder | src/coder-session-inventory-codec.js:303-309 | with no NUL in engine names the decoder's joined-key order is the encoder's order |
| InventoryCodec.NulBreaksOrder | src/coder-session-inventory-codec.js:303-309 | with a NUL in one engine name two keys rise for the encoder and fall for the decoder |
| InventoryCodec.EncodedButUnreadable | src/coder-session-inventory-codec.js:248-311 | two valid rows of such names are encoded, and decoding the text is refused |
| InventoryCodec.NulLosesInventory | src/coder-session-inventory-codec.js:248-311 | there are such rows, with a time stamp and every other check in order |
| InventoryCodec.DecodeEncode | src/coder-session-inventory-codec.js:248-311 | decoding gives back the sorted rows exactly when the time stamp is one and the keys rise, which NUL-free names ensure |
| InventoryCodec.EncodeDecode | src/coder-session-inventory-codec.js:284-311 | a decoded document encodes to the text it came from |
| InventoryCodec.DecodesExactly | src/coder-session-inventory-codec.js:284-311 | without a NUL in an engine name, a text is read exactly when it is small, ends its line, and holds at most four valid rows in strict order under schema 2 |
| InventoryCodec.ReadRowsAreOwned | src/coder-session-inventory-codec.js:166-202 | a row that is read names its owner in full exactly unless it is idle, its own tombstone exactly while deleting, and one of the four slots |
| SessionSlots.AtMostFourLive | src/coder-session-slots.js:56-75 | under the invariant at most four slugs are live, four exactly when no slot is free |
| SessionSlots.LiveCounts | src/coder-session-slots.js:56-75 | live slugs and live slots are equally many |
| SessionSlots.CapacityExactly | src/coder-session-slots.js:120-133 | a slug without a row is refused for capacity exactly when four distinct slugs are live |
| SessionSlots.ResolvesExactly | src/coder-session-slots.js:109-163 | each error of a candidate, its retake and the slot it is told to take have an exact cause in the rows |
| SessionSlots.ConfirmedExactly | src/coder-session-slots.js:109-163 | a candidate is confirmed exactly when it fits and, for a new slug, every lower slot is taken |
| SessionSlots.SelectedIsConfirmed | src/coder-session-slots.js:135-163 | a selected slot is confirmed unless another live slug holds it; any other candidate is told to retake |
| SessionSlots.LiveRowFits | src/coder-session-slots.js:43-70 | rows that gain one live row keep the invariant exactly when its slot fits |
| SessionSlots.GroupBySlug | src/coder-session-slots.js:46-51 | the first map holds exactly the slots of each slug |
| SessionSlots.GroupLive | src/coder-session-slots.js:56-62 | the second map holds exactly the live slugs of each slot |
| SessionSlots.GroupsDecide | src/coder-session-slots.js:52-67 | the invariant fails exactly when some group has more than one member |
| SessionSlots.ProjectCoderSessionSlots | src/coder-session-slots.js:43-75 | the reasons name exactly the violations and are empty exactly under the invariant |
| SessionSlots.ResolveProjectCoderSessionSlot | src/coder-session-slots.js:109-163 | computes the resolution that the lemmas above are about, over the projection |
| SessionSlots.ValidateCleanupSlot | src/coder-session-slots.js:87-101 | names exactly the live rows of other slugs on the slot to clean, and is empty exactly when there are none and the invariant holds |
| SessionStore.RowsAfterWrite | src/coder-session-inventory-codec.js:462-485 | after one inventory is rewritten its rows are the new ones and all others stay |
| SessionStore.FittingRowKeepsInvariant | src/coder-session-transitions.js:116-280 | rewriting one inventory with one row that fits keeps the project invariant |
| SessionStore.StoredSlotsInRange | src/coder-session-inventory-codec.js:158 | whatever the files hold, decoded rows have one of the four slots |
| SessionStore.SlugExactly | src/coder-session-transitions.js:63-66 | a slug is one to 64 lower-case letters, digits, dashes and underscores that begin with a letter or a digit |
| SessionStore.Store.Write | src/coder-session-inventory-codec.js:462-489 | the file changes whole or not at all, and reads back as the sorted rows |
| SessionStore.Store.Put | src/coder-session-transitions.js:207-280 | one row gives way to its next state or is added, nothing else changes, and a fitting row keeps the invariant |
| SessionStore.Store.ReserveCoderSession | src/coder-session-transitions.js:116-178 | adds a reserved row for a new key, with a generated identity and sandbox where none is given; refused exactly for its causes; with a confirmed slot the project invariant holds after it |
| SessionStore.Store.MarkCoderSessionRunning | src/coder-session-transitions.js:188-218 | reserved or idle to running with the identity kept and the new owner, refused exactly for its causes; a confirmed slot is the one the row has; with a confirmed slot, or from reserved, the invariant holds after it |
| SessionStore.Store.MarkCoderSessionIdle | src/coder-session-transitions.js:223-248 | running to idle without an owner, refused exactly for its causes; the invariant holds after it |
| SessionStore.Store.BeginCoderSessionDelete | src/coder-session-transitions.js:256-284 | to deleting with the clean owner and the exact basename, refused exactly for its causes; after an empty cleanup check the invariant holds |
| SessionStore.Store.RemoveCoderSessionRow | src/coder-session-transitions.js:329-340 | removes exactly a deleting row, refused exactly for its causes; the invariant holds after it |
| SessionStore.Store.Admit | src/commands/coder.js:5814-5923 | each answer of admission has its exact cause: retake and slot errors in the rows, busy, incompatible, bad and orphan mappings in the old row and the request; a claim continues exactly an idle row of the same mode and project with a mapping to resume, and is new exactly without a row and a mapping; whatever is refused or fails, the invariant is kept |
| SessionStore.Store.StartClean | src/commands/coder.js:8543-8587 | marks only after an empty cleanup check and only the incarnation that was looked at, leaves a row that is being deleted alone, and keeps the invariant; each refusal has its cause |
| ProjectIdentity.StepKeepsInv | src/coder-state.js:172-272 | every read, proposal, link, late failure and crash keeps what callers know of the file, and never changes a file that exists |
| ProjectIdentity.Consensus | src/coder-state.js:122-278 | all callers that return agree on the record in the file: the one already there or a proposal of the single winner; a returning caller says it created the file exactly when it is the winner |
| ProjectIdentity.FileIsNeverOverwritten | src/coder-state.js:245-262 | once the file exists, blank or not, no step changes it |
| ProjectIdentity.LoserReturnsWinner | src/coder-state.js:254-262 | a caller whose link lost to a record returns that record on its next attempt |
| ProjectIdentity.ExhaustionMeansStranded | src/coder-state.js:254-282 | a caller that runs out of attempts met a stranded blank file; racing alone fails nobody |
| ProjectIdentity.FiveAttempts | src/coder-state.js:254-282 | a caller whose link lost reads again unless that was its fifth attempt, and then fails by what it had read |
| ProjectIdentity.IdentityRoot.LoadOrCreateProjectIdentity | src/coder-state.js:122-282 | the retry loop among interfering callers: returns the record in the file, says that it created it exactly when it made the link, overwrites nothing, and fails only for its stated reasons |
| Backup.ManifestCapBoundsEntries | src/coder-state-backup.js:483-490 | the cap on the manifest's text bounds the number of entries far below the validator's cap |
| ManifestText.ManifestBytesIsText | src/coder-state-backup.js:483-490 | the bytes counted for a manifest are those of its JSON text, escapes, digits and line feed included |
| Backup.EngineOfExactly | src/coder-state-backup.js:88 | the paths that name an engine are its prefix, the engine, a slash, one character and the file name, and they name that engine |
| Backup.VerifyEntries | src/coder-state-backup.js:1171-1189 | no reason is given exactly when every entry is stored with its size and hash and the total keeps to its cap |
| Backup.ValidateCoderV2Backup | src/coder-state-backup.js:1095-1207 | no reason is given exactly for valid backups |
| Backup.ValidKeepsCaps | src/coder-state-backup.js:64-72 | what is valid keeps to each cap: manifest, entries, files, total, paths, directories and nodes |
| Backup.ValidHoldsTheSource | src/coder-state-backup.js:1095-1207 | a directory that is valid under the manifest of a source holds the bytes of that source, file by file and nothing else |
| Backup.ListedStaysBelow | src/coder-state-backup.js:1141-1147 | the path of a valid entry never leaves the directory it is resolved in |
| Backup.InventoryCoderV2State | src/coder-state-backup.js:671-808 | one item for each file, each within the file cap, all within the total cap, top-level files accepted by their codecs; never refused for another reason when nothing fails |
| Backup.CopyEntries | src/coder-state-backup.js:975-1008 | the copy holds the inventoried contents, and the seeded byte count is what bounds their total |
| Backup.BackupCoderV2State | src/coder-state-backup.js:823-1057 | completes only when caps, gates and codecs allow it, and always then when nothing fails; a completed backup is valid exactly when no path has two dots in a row |
| Backup.DottedBackup | src/coder-state-backup.js:1141-1147 | the backup of a lone file with two dots in its name completes, and its validator gives a reason |
| Backup.DottedPathExists | src/coder-state-backup.js:1141-1147 | there is such a name under the backed up state |
| BackupConsistency.ClassifyRowMappingConsistency | src/coder-state-backup.js:155-251 | no reason is given exactly for consistent inputs: texts that decode, the slot invariant, one identity behind all fingerprints, rows and mappings that match |
| BackupConsistency.MappingsAreTheSessions | src/coder-state-backup.js:228-249 | in consistent state the mapped slugs of every engine with a namespace are exactly the slugs of its rows that are not being deleted |
| Backup.Leases.ReleasePass | src/coder-state-backup.js:333-344 | one pass releases last acquired first and keeps exactly the handles that failed |
| Backup.Leases.ReleaseHandlesInReverse | src/coder-state-backup.js:326-355 | every handle is released once or left, and without failures all are released in reverse |
| ShellLexer.ParseHeredocWord | scripts/check-doc-examples.js:417-465 | however the operand spells a delimiter, bare, escaped, quoted or mixed, after an optional dash and blanks, the loop returns the literal word, the dash and what follows the word, no delimiter when the word is empty, or the open quote that follows it |
| ShellLexer.ReadsDelimiter | scripts/check-doc-examples.js:412-465 | however a delimiter is spelled, bare, escaped, in single or double quotes or mixed, it reads as the literal word with what follows left over; an empty one and one before an open quote of either kind are refused |
| ShellLexer.ThreeSpellings | scripts/check-doc-examples.js:412-416 | WORD, 'WORD' and "WORD" are the same delimiter with the same remainder |
| ShellLexer.EveryOperand | scripts/check-doc-examples.js:417-465 | every operand there is has such a spelling, so these readings describe them all |
| ShellLexer.RefusedForItsQuote | scripts/check-doc-examples.js:461-463 | an operand is refused for its quote exactly when its pieces are followed by a single or double quote that nothing closes and the text is not empty |
| ShellLexer.BodyEndsAtFirst | scripts/check-doc-examples.js:237-245 | a body ends exactly at the first line that is the delimiter, leading tabs off when asked for, and its lines do nothing else |
| ShellLexer.BadWordLosesLine | scripts/check-doc-examples.js:349-357 | an operand that is no word makes the lexer lose the rest of the line, whatever is on it |
| ShellLexer.EmptyDelimiterHidesCommands | scripts/check-doc-examples.js:349-357 | so commands after an empty delimiter are never seen |
| ShellLexer.LexHeredoc | scripts/check-doc-examples.js:183-410 | quoted words with a heredoc, however its delimiter is spelled, lex to that one command with no issue, whatever the body holds |
| ShellLexer.LexShellCommands | scripts/check-doc-examples.js:183-410 | the pass over lines and characters computes the specified commands, issues and unverified commands |
| ShellLexer.AtEscaped | src/coder-lock.js:17-19 | inside a quoted string the escaped text adds exactly the value |
| ShellLexer.LexQuoted | scripts/check-doc-examples.js:183-410 | quoting and lexing is the identity on every non-empty list of words, with no issue |
| ShellScript.LexScript | scripts/check-doc-examples.js:183-410 | lexing the text of a script, commands of words in bare characters, escapes, both kinds of quotes, continued lines, substitutions and here-strings, each ended by an operator, a line, a comment or a here document, gives exactly its commands with their values, their lines, and the reason for each that is not checked |
| ShellScript.LexTwo | scripts/check-doc-examples.js:313-326 | two commands of quoted words with one of the five operators between them are two commands |
| ShellScript.OpenQuoteIsReported | scripts/check-doc-examples.js:402-409 | after any script, a single quote that nothing closes is reported on the last line and what follows it is its command |
| ShellScript.OpenHereIsReported | scripts/check-doc-examples.js:393-401 | after any script, a here document that no line ends is reported on the line of its operator, and none of its lines becomes a command |
| Strings.SplitJoin | src/net.js:54-56 | splitting undoes joining |
| Ipv6.ParseFull | src/net.js:53-62 | eight groups read as their words |
| Ipv6.ParseCompressed | src/net.js:53-62 | groups around one double colon read with the missing zero groups filled in |
| Ipv6.DotsFound | src/net.js:44-45 | a dotted quad after a colon is found where it starts |
| Ipv6.ReadsGroups | src/net.js:42-63 | every legal spelling in groups, any case, with or without a zone, reads as its words |
| Ipv6.ReadsDotted | src/net.js:42-63 | every legal spelling with a dotted tail reads as its words |
| Ipv6.MappedIsJudgedAsIPv4 | src/net.js:71-90 | however an IPv4-mapped address is spelled in groups, it is private exactly when its IPv4 address is |
| Ipv6.MappedDottedIsJudgedAsIPv4 | src/net.js:71-90 | the same for dotted spellings |
| Ipv6.PrivateIsSpecial | src/net.js:26-37 | four octets are private exactly when the 32-bit address is in one of thirteen blocks of special-purpose addresses |
| Ipv6.PrivateQuadIsSpecial | src/net.js:20-37 | so for every dotted quad as text |
| Ipv6.PrivateWordsAreSpecial | src/net.js:71-90 | eight words are private exactly when the 128-bit address is in one of six special blocks, or in a block around an IPv4 address that is in one of the thirteen |
| Ipv6.PrivateIsSpecial6 | src/net.js:42-90 | so for every legal spelling in groups, with or without a zone |
| Ipv6.PrivateDottedIsSpecial6 | src/net.js:42-90 | and for every legal spelling with a dotted tail |
| PermissionPolicy.PrefixPattern | src/opencode2-preflight.js:157-163 | a prefix pattern covers the commands that start so, as long as no line end follows |
| PermissionPolicy.CompilesExactly | src/opencode2-preflight.js:157-163 | a pattern compiles exactly when each of its question marks acts on a character or a star before it, at most two on a character and one on a star, and then to the pieces of those units |
| PermissionPolicy.AcceptsExactly | src/opencode2-preflight.js:157-163 | a value is accepted exactly when it can be cut into one part for each piece of the pattern, a literal, an optional character or a run without line ends |
| PermissionPolicy.TranslateV1BashPermissions | src/opencode2-preflight.js:119-131 | the loop keeps exactly the entries with a known effect, in order |
| PermissionPolicy.EffectNames | src/opencode2-preflight.js:119-141 | the known effects are the three names and nothing else |
| PermissionPolicy.EvaluateCommand | src/opencode2-preflight.js:175-181 | the loop finds the last match, ask when there is none |
| PermissionPolicy.AgentHasTheLastWord | src/opencode2-preflight.js:237-255 | the agent's V1 value decides about the commands it covers, then the agent's list, then the layers |
| PermissionPolicy.LastLayerDecides | src/opencode2-preflight.js:237-255 | among layers the last one that covers a command decides, its list before its V1 value |
| PermissionPolicy.AgentEntryDecides | src/opencode2-preflight.js:237-255 | the agent's V1 entry for one command line is what holds for it, whatever the layers say |
| PermissionPolicy.BaselineAllows | src/opencode2-preflight.js:147-149 | where nobody says anything a command is allowed |
| PermissionPolicy.ShieldedDeniesEverything | src/opencode2-preflight.js:175-181 | under a wildcard deny that no shell allow or ask follows, every command string is denied |
| PermissionPolicy.ComputeEffectivePermissionPolicy | src/opencode2-preflight.js:233-338 | in protected mode accepted exactly when shielded with compiling patterns; the probe stage finds nothing and throws exactly when shielded with a broken pattern; a live rule it names is the first that no wildcard deny shadows; it counts the shell rules |
| PermissionPolicy.RefusedThoughDenied | src/opencode2-preflight.js:295-313 | under a concrete project layer every command is denied and the policy is refused |
| PermissionPolicy.ShieldedMayThrow | src/opencode2-preflight.js:157-163 | a concrete agent document whose policy is shielded and has a pattern that does not compile |
| PermissionPolicy.GateOnBoth | src/opencode2-preflight.js:233-338 | the gate refuses the first although it denies every command, and throws on the second |

## Left out

- Installer: the update lock, its stale-lock breaking, owner markers and `cleanupAbandonedArtifacts`, and the journal operations `apply` and `rollback` with `reused_target`.
- Installer: receipts and journals are values; their JSON, hashes and path checks are taken as injective and correct.
- Installer: a write that is undone again because the sync after it failed, and smoke runs that change the disk.
- Installer: starts with a dangling legacy launcher or a foreign launcher.
- ExtractArtifact: gzip, JSON and base64 are left out; a record's data is there or malformed, and equal hashes mean equal contents. Directory modes and fsync order are not modelled.
- ValidateTree: the order in which `readdirSync` entries are visited, which decides only the message of a refusal.
- FixedLock: exclusion between processes, which the lock disclaims, and the waiting loop: attempts are separate events. Abort signals are left out.
- AcquireRunLease: callers of one release promise are sequential, and error messages are reduced to codes.
- NoDeadlock: releases succeed; a lease that could not be released stays held and blocks others for ever.
- PlanFromSnapshot: trimming is on bytes; `TrimsText` shows that on UTF-8 text this is trimming the text, and other bytes are not decoded with replacement characters.
- ApplyFileTransaction: an operation that fails has had no effect; created parent directories, devices beside inodes, and the seams for other replace and remove functions are left out. Nobody else writes.
- ValidateFileTransaction: how an alias is computed from the file system; the aliases are a map from target paths.
- Encode: the text is the document with its length; that a JSON text parses back to its document is taken for granted, and strings compare by code points.
- Sorted: an array sort is modelled by insertion, which any stable sort by this comparator equals.
- Admit: the classification of the session mapping (absent, malformed, published or not applicable) is an input, since the session store itself is not part of this model; an operation that fails may refuse any claim.
- LoadOrCreateProjectIdentity: symbolic links, revalidation of parent directories and the 4 KiB cap, which all only throw; temporary files.
- BackupCoderV2State: the snapshot retries and leases (see `LockHierarchy`) and the sort of the entries. What the codecs make of a text is a parameter, and so is whether pending results or an unknown engine directory block the scan.
- ValidateCoderV2Backup: the recursion of `listPhysicalStateFiles`; its caps are checked over the set of paths.
- LexShellCommands: prompts, and everything that looks at the lexed commands afterwards.
- LexScript: a here document is the last thing on its line, and only single quotes are left open; other lines are covered by `LexShellCommands`.
- Ipv4Octets: numbers that `Number` reads besides decimal digits and the empty text, such as hexadecimal ones.
- Ipv6Words: lower-casing outside ASCII, which adds no hexadecimal digit.
- ComputeEffectivePermissionPolicy: the provider projection and the other preflight gates.
- coder-session-transitions: slug allocation, reconciliation and listing, which add only easy members.
- Decision tables that one branch settles (`src/coder-result.js`, `src/coder-orchestration.js`, `src/model-selection.js`, `src/config.js`, `src/coder-git-mediator.js`), network, child processes, Git and npm.
