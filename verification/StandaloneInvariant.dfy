/**
 What every reachable state of the install and recovery steps satisfies while no
 recovery has lost its journal, and that every step keeps it.
 */
module StandaloneInvariant {
  import opened Wrappers
  import opened StandaloneInstall

  /** No transaction pending: an active install whose parts agree, or a root that never activated one. */
  predicate Settled(d: Disk) {
    && d.journal.None?
    && (d.receipt.Some? && d.receipt.value.Active? ==> ActiveLayoutOk(d))
    && (d.receipt.None? || d.receipt.value.Initializing? ==>
          && d.current.None?
          && (d.launcher == NoLink || (d.launcher == ViaLegacy && d.legacy)))
  }

  predicate OldSideOk(d: Disk, j: Journal) {
    && j.newReceipt == Active(j.target, j.oldCurrent)
    && match j.oldReceipt
       case Active(v, prev) =>
         && j.oldCurrent == Some(v) && v < j.target
         && TreeOk(d, v)
         && (prev.Some? ==> prev.value != j.target && TreeOk(d, prev.value))
         && j.oldLauncher == Some(VersionExe(v)) && j.oldLexical == ViaCurrent
       case Initializing =>
         && j.oldCurrent.None?
         && (if j.oldLauncher.None? then j.oldLexical == NoLink
             else j.oldLauncher == Some(LegacyExe) && j.oldLexical == ViaLegacy && d.legacy)
  }

  /** The link the launcher is parked on while `current` points at the candidate. */
  function Parked(j: Journal): Link {
    if j.oldLauncher.Some? then Anchor(j.oldLauncher.value) else NoLink
  }

  predicate EarlyPhase(p: Phase) { p == Prepared || p == VersionPublished }

  /** What any crash under a journal can leave on disk. */
  predicate Pending(d: Disk, j: Journal) {
    && OldSideOk(d, j)
    && (d.receipt == Some(j.oldReceipt) || d.receipt == Some(j.newReceipt))
    && (d.current == j.oldCurrent || d.current == Some(j.target))
    && (d.current == Some(j.target) ==> TreeOk(d, j.target))
    && (j.target in d.versions && !TreeOk(d, j.target) ==> d.receipt == Some(j.oldReceipt))
    && (d.launcher == j.oldLexical || d.launcher == Parked(j) || d.launcher == ViaCurrent)
    && (d.receipt == Some(j.newReceipt) ==> !EarlyPhase(j.phase) && j.phase != RolledBack)
    && (d.launcher == ViaCurrent && d.current == Some(j.target) ==> d.receipt == Some(j.newReceipt))
    && (d.launcher == ViaCurrent && j.oldLexical != ViaCurrent ==> d.receipt == Some(j.newReceipt))
    && (j.phase == Prepared ==> d.current == j.oldCurrent)
    && (j.phase != Prepared ==> j.staging !in d.staging && j.staging !in d.prepared)
    && (j.phase == Prepared || FinalPhase(j.phase) ==> d.launcher == Parked(j) ==> d.launcher == j.oldLexical)
    && (FinalPhase(j.phase) && d.current == Some(j.target) ==> d.launcher == ViaCurrent)
    && (j.phase == ReceiptCommitted || FinalPhase(j.phase) ==>
          d.receipt == Some(j.oldReceipt) ==> d.current == j.oldCurrent && d.launcher == j.oldLexical)
  }

  /** What an idle installer may find. */
  predicate DiskOk(d: Disk) {
    if d.journal.Some? then Pending(d, d.journal.value) else Settled(d)
  }

  predicate BeforeJournal(at: Stage) {
    || at == RepairLauncher || at == RepairSmoke || at == ClaimRoot
    || at == MakeStaging || at == PrepareInventory || at == WriteJournal
  }

  predicate InFinally(at: Stage) { at == DropPrepared || at == DropStaging }

  predicate Unpublished(d: Disk, tx: Journal) {
    d.receipt == Some(tx.oldReceipt) && d.current == tx.oldCurrent && d.launcher == tx.oldLexical
  }

  predicate Candidate(d: Disk, tx: Journal) {
    d.current == Some(tx.target) && TreeOk(d, tx.target)
  }

  /** Where each stage of an install stands, given that its journal is on disk. */
  predicate StageFacts(d: Disk, at: Stage, tx: Journal) {
    match at
    case PublishInventory => tx.phase == Prepared && Unpublished(d, tx) && tx.target !in d.versions
    case PublishVersion =>
      tx.phase == Prepared && Unpublished(d, tx) && tx.target in d.inventories && tx.staging !in d.prepared
    case JournalPublished =>
      && tx.phase == Prepared && Unpublished(d, tx) && TreeOk(d, tx.target)
      && tx.staging !in d.prepared && tx.staging !in d.staging
    case AnchorLauncher => tx.phase == VersionPublished && Unpublished(d, tx) && TreeOk(d, tx.target)
    case SwitchCurrent =>
      && tx.phase == VersionPublished && d.receipt == Some(tx.oldReceipt) && d.current == tx.oldCurrent
      && d.launcher == Parked(tx) && TreeOk(d, tx.target)
    case JournalCurrent =>
      tx.phase == VersionPublished && d.receipt == Some(tx.oldReceipt) && d.launcher == Parked(tx) && Candidate(d, tx)
    case SmokeVersion =>
      tx.phase == CurrentActivated && d.receipt == Some(tx.oldReceipt) && d.launcher == Parked(tx) && Candidate(d, tx)
    case CommitReceipt =>
      tx.phase == CurrentActivated && d.receipt == Some(tx.oldReceipt) && d.launcher == Parked(tx) && Candidate(d, tx)
    case JournalReceipt =>
      tx.phase == CurrentActivated && d.receipt == Some(tx.newReceipt) && d.launcher == Parked(tx) && Candidate(d, tx)
    case ActivateLauncher =>
      tx.phase == ReceiptCommitted && d.receipt == Some(tx.newReceipt) && d.launcher == Parked(tx) && Candidate(d, tx)
    case SmokeLauncher =>
      tx.phase == ReceiptCommitted && d.receipt == Some(tx.newReceipt) && d.launcher == ViaCurrent && Candidate(d, tx)
    case JournalLauncher =>
      tx.phase == ReceiptCommitted && d.receipt == Some(tx.newReceipt) && d.launcher == ViaCurrent && Candidate(d, tx)
    case JournalCommitted =>
      tx.phase == LauncherActivated && d.receipt == Some(tx.newReceipt) && d.launcher == ViaCurrent && Candidate(d, tx)
    case RemoveJournal =>
      tx.phase == Committed && d.receipt == Some(tx.newReceipt) && d.launcher == ViaCurrent && Candidate(d, tx)
    case JournalRolledBack =>
      tx.phase == CurrentActivated && d.receipt == Some(tx.oldReceipt) && d.launcher == Parked(tx) && Candidate(d, tx)
    case UndoCurrent =>
      tx.phase == RolledBack && d.receipt == Some(tx.oldReceipt) && d.launcher == Parked(tx) && Candidate(d, tx)
    case UndoLauncher =>
      && tx.phase == RolledBack && d.receipt == Some(tx.oldReceipt)
      && d.launcher == Parked(tx) && d.current == tx.oldCurrent
    case PubCurrent =>
      tx.phase == ReceiptCommitted && d.receipt == Some(tx.newReceipt) && Candidate(d, tx)
    case PubLauncher =>
      tx.phase == ReceiptCommitted && d.receipt == Some(tx.newReceipt) && d.current == tx.oldCurrent
    case PubReceipt =>
      tx.phase == ReceiptCommitted && d.current == tx.oldCurrent && d.launcher == tx.oldLexical
    case PubVersion => tx.phase == ReceiptCommitted && Unpublished(d, tx)
    case PubInventory => tx.phase == ReceiptCommitted && Unpublished(d, tx) && tx.target !in d.versions
    case PubJournal =>
      tx.phase == ReceiptCommitted && Unpublished(d, tx) && tx.target !in d.versions && tx.target !in d.inventories
    case _ => true
  }

  /** Whatever journal is there is this install's own. */
  predicate OwnJournal(d: Disk, tx: Journal) {
    d.journal.Some? ==> d.journal.value.target == tx.target
  }

  predicate InstallingOk(d: Disk, at: Stage, tx: Journal) {
    if BeforeJournal(at) then
      && Settled(d) && tx.target !in d.versions
      && (d.receipt.Some? && d.receipt.value.Active? ==> d.receipt.value.current < tx.target)
      && (at == RepairLauncher ==> d.receipt.Some? && d.receipt.value.Active?)
      && (at == ClaimRoot ==> d.receipt.None?)
      && (at != ClaimRoot ==> d.receipt.Some?)
      && (at != RepairLauncher && d.receipt.Some? && d.receipt.value.Active? ==> d.launcher == ViaCurrent)
      && (at == WriteJournal ==> tx.target !in d.inventories)
    else if InFinally(at) then
      DiskOk(d) && OwnJournal(d, tx)
    else
      d.journal == Some(tx) && Pending(d, tx) && StageFacts(d, at, tx)
  }

  /** An admitted recovery finds the launcher parked on the old executable in a late phase only. */
  predicate NotAnchored(d: Disk, j: Journal) {
    d.launcher != Parked(j) || d.launcher == j.oldLexical || LatePhase(j.phase)
  }

  predicate RecoveringOk(d: Disk, stage: RecoveryStage, j: Journal, bad: bool, entry: Disk) {
    && d.journal == Some(j) && Pending(d, j)
    && (entry.receipt == Some(j.oldReceipt) || entry.receipt == Some(j.newReceipt))
    && (entry.receipt == Some(j.oldReceipt) ==> d.receipt == Some(j.oldReceipt))
    && (bad ==> j.target in d.versions && d.receipt == Some(j.oldReceipt) && d.current == j.oldCurrent)
    && match stage
       case Relink => !bad && d.receipt == Some(j.newReceipt) && Candidate(d, j) && !EarlyPhase(j.phase)
       case SmokeRelinked => !bad && d.receipt == Some(j.newReceipt) && Candidate(d, j) && d.launcher == ViaCurrent
       case Forget => !bad && d.receipt == Some(j.newReceipt) && Candidate(d, j) && d.launcher == ViaCurrent
       case BackCurrent => NotAnchored(d, j) && (FinalPhase(j.phase) && j.oldCurrent.None? ==> d.current.Some?)
       case BackLauncher => NotAnchored(d, j) && d.current == j.oldCurrent
       case BackReceipt => d.current == j.oldCurrent && d.launcher == j.oldLexical
       case BackVersion => Unpublished(d, j)
       case BackStaging => Unpublished(d, j) && bad == (j.target in d.versions)
       case BackInventory => Unpublished(d, j) && bad == (j.target in d.versions) && j.staging !in d.staging
       case BackPrepared =>
         && Unpublished(d, j) && bad == (j.target in d.versions)
         && j.staging !in d.staging && (!bad ==> j.target !in d.inventories)
       case BackJournal =>
         && Unpublished(d, j) && bad == (j.target in d.versions) && (!bad ==> j.target !in d.inventories)
         && j.staging !in d.staging && j.staging !in d.prepared
  }

  predicate Inv(s: State) {
    match s.proc
    case Idle => DiskOk(s.disk)
    case Installing(at, tx) => InstallingOk(s.disk, at, tx)
    case Recovering(stage, j, bad, entry) => RecoveringOk(s.disk, stage, j, bad, entry)
  }

  // ----- The stages of an install, one lemma each -----

  lemma RepairLauncherKeeps(d: Disk, tx: Journal)
    requires InstallingOk(d, RepairLauncher, tx)
    ensures Inv(InstallStep(d, RepairLauncher, tx))
  {
    hide RecoveringOk, Pending;
  }

  lemma RepairSmokeKeeps(d: Disk, tx: Journal)
    requires InstallingOk(d, RepairSmoke, tx)
    ensures Inv(InstallStep(d, RepairSmoke, tx))
  {
    hide RecoveringOk, Pending;
  }

  lemma ClaimRootKeeps(d: Disk, tx: Journal)
    requires InstallingOk(d, ClaimRoot, tx)
    ensures Inv(InstallStep(d, ClaimRoot, tx))
  {
    hide RecoveringOk, Pending;
  }

  lemma MakeStagingKeeps(d: Disk, tx: Journal)
    requires InstallingOk(d, MakeStaging, tx)
    ensures Inv(InstallStep(d, MakeStaging, tx))
  {
    hide RecoveringOk, Pending;
  }

  lemma PrepareInventoryKeeps(d: Disk, tx: Journal)
    requires InstallingOk(d, PrepareInventory, tx)
    ensures Inv(InstallStep(d, PrepareInventory, tx))
  {
    hide RecoveringOk, Pending;
  }

  lemma WriteJournalKeeps(d: Disk, tx: Journal)
    requires InstallingOk(d, WriteJournal, tx)
    ensures Inv(InstallStep(d, WriteJournal, tx))
  {
    hide RecoveringOk;
  }

  lemma PublishInventoryKeeps(d: Disk, tx: Journal)
    requires InstallingOk(d, PublishInventory, tx)
    ensures Inv(InstallStep(d, PublishInventory, tx))
  {
    hide RecoveringOk, Settled;
  }

  lemma PublishVersionKeeps(d: Disk, tx: Journal)
    requires InstallingOk(d, PublishVersion, tx)
    ensures Inv(InstallStep(d, PublishVersion, tx))
  {
    hide RecoveringOk, Settled;
  }

  lemma JournalPublishedKeeps(d: Disk, tx: Journal)
    requires InstallingOk(d, JournalPublished, tx)
    ensures Inv(InstallStep(d, JournalPublished, tx))
  {
    hide RecoveringOk, Settled;
  }

  lemma AnchorLauncherKeeps(d: Disk, tx: Journal)
    requires InstallingOk(d, AnchorLauncher, tx)
    ensures Inv(InstallStep(d, AnchorLauncher, tx))
  {
    hide RecoveringOk, Settled;
  }

  lemma SwitchCurrentKeeps(d: Disk, tx: Journal)
    requires InstallingOk(d, SwitchCurrent, tx)
    ensures Inv(InstallStep(d, SwitchCurrent, tx))
  {
    hide RecoveringOk, Settled;
  }

  lemma JournalCurrentKeeps(d: Disk, tx: Journal)
    requires InstallingOk(d, JournalCurrent, tx)
    ensures Inv(InstallStep(d, JournalCurrent, tx))
  {
    hide RecoveringOk, Settled;
  }

  lemma SmokeVersionKeeps(d: Disk, tx: Journal)
    requires InstallingOk(d, SmokeVersion, tx)
    ensures Inv(InstallStep(d, SmokeVersion, tx))
  {
    hide RecoveringOk, Settled;
  }

  lemma CommitReceiptKeeps(d: Disk, tx: Journal)
    requires InstallingOk(d, CommitReceipt, tx)
    ensures Inv(InstallStep(d, CommitReceipt, tx))
  {
    hide RecoveringOk, Settled;
  }

  lemma JournalReceiptKeeps(d: Disk, tx: Journal)
    requires InstallingOk(d, JournalReceipt, tx)
    ensures Inv(InstallStep(d, JournalReceipt, tx))
  {
    hide RecoveringOk, Settled;
  }

  lemma ActivateLauncherKeeps(d: Disk, tx: Journal)
    requires InstallingOk(d, ActivateLauncher, tx)
    ensures Inv(InstallStep(d, ActivateLauncher, tx))
  {
    hide RecoveringOk, Settled;
  }

  lemma SmokeLauncherKeeps(d: Disk, tx: Journal)
    requires InstallingOk(d, SmokeLauncher, tx)
    ensures Inv(InstallStep(d, SmokeLauncher, tx))
  {
    hide RecoveringOk, Settled;
  }

  lemma JournalLauncherKeeps(d: Disk, tx: Journal)
    requires InstallingOk(d, JournalLauncher, tx)
    ensures Inv(InstallStep(d, JournalLauncher, tx))
  {
    hide RecoveringOk, Settled;
  }

  lemma JournalCommittedKeeps(d: Disk, tx: Journal)
    requires InstallingOk(d, JournalCommitted, tx)
    ensures Inv(InstallStep(d, JournalCommitted, tx))
  {
    hide RecoveringOk, Settled;
  }

  lemma RemoveJournalKeeps(d: Disk, tx: Journal)
    requires InstallingOk(d, RemoveJournal, tx)
    ensures Inv(InstallStep(d, RemoveJournal, tx))
  {
    hide RecoveringOk;
  }

  lemma JournalRolledBackKeeps(d: Disk, tx: Journal)
    requires InstallingOk(d, JournalRolledBack, tx)
    ensures Inv(InstallStep(d, JournalRolledBack, tx))
  {
    hide RecoveringOk, Settled;
  }

  lemma UndoCurrentKeeps(d: Disk, tx: Journal)
    requires InstallingOk(d, UndoCurrent, tx)
    ensures Inv(InstallStep(d, UndoCurrent, tx))
  {
    hide RecoveringOk, Settled;
  }

  lemma UndoLauncherKeeps(d: Disk, tx: Journal)
    requires InstallingOk(d, UndoLauncher, tx)
    ensures Inv(InstallStep(d, UndoLauncher, tx))
  {
    hide RecoveringOk, Settled;
  }

  lemma PendingParts(d: Disk, j: Journal)
    requires Pending(d, j)
    ensures OldSideOk(d, j) && (j.phase != Prepared ==> j.staging !in d.staging && j.staging !in d.prepared)
  {
  }

  lemma UnpublishedIsPending(d: Disk, j: Journal)
    requires OldSideOk(d, j) && Unpublished(d, j)
    requires j.phase != Prepared ==> j.staging !in d.staging && j.staging !in d.prepared
    ensures Pending(d, j)
  {
  }

  lemma PubCurrentKeeps(d: Disk, tx: Journal)
    requires InstallingOk(d, PubCurrent, tx)
    ensures Inv(InstallStep(d, PubCurrent, tx))
  {
    hide RecoveringOk, Settled;
  }

  lemma PubLauncherKeeps(d: Disk, tx: Journal)
    requires InstallingOk(d, PubLauncher, tx)
    ensures Inv(InstallStep(d, PubLauncher, tx))
  {
    hide RecoveringOk, Settled;
  }

  lemma PubReceiptKeeps(d: Disk, tx: Journal)
    requires InstallingOk(d, PubReceipt, tx)
    ensures Inv(InstallStep(d, PubReceipt, tx))
  {
    hide RecoveringOk, Settled, Pending;
    PendingParts(d, tx);
    UnpublishedIsPending(d.(receipt := Some(tx.oldReceipt)), tx);
  }

  lemma PubVersionKeeps(d: Disk, tx: Journal)
    requires InstallingOk(d, PubVersion, tx)
    ensures Inv(InstallStep(d, PubVersion, tx))
  {
    hide RecoveringOk, Settled, Pending;
    PendingParts(d, tx);
    UnpublishedIsPending(d.(versions := Without(d.versions, tx.target)), tx);
  }

  lemma PubInventoryKeeps(d: Disk, tx: Journal)
    requires InstallingOk(d, PubInventory, tx)
    ensures Inv(InstallStep(d, PubInventory, tx))
  {
    hide RecoveringOk, Settled, Pending;
    PendingParts(d, tx);
    UnpublishedIsPending(d.(inventories := d.inventories - {tx.target}), tx);
  }

  lemma PubJournalKeeps(d: Disk, tx: Journal)
    requires InstallingOk(d, PubJournal, tx)
    ensures Inv(InstallStep(d, PubJournal, tx))
  {
    hide RecoveringOk;
  }

  /** Nothing that an idle installer looks at is in the two staging namespaces, once a version is published. */
  lemma TidyingKeepsDiskOk(d: Disk, staging: set<nat>, prepared: set<nat>)
    requires DiskOk(d) && staging <= d.staging && prepared <= d.prepared
    ensures DiskOk(d.(staging := staging, prepared := prepared))
  {
  }

  lemma DropPreparedKeeps(d: Disk, tx: Journal)
    requires InstallingOk(d, DropPrepared, tx)
    ensures Inv(InstallStep(d, DropPrepared, tx))
  {
    hide RecoveringOk, DiskOk;
    TidyingKeepsDiskOk(d, d.staging, d.prepared - {tx.staging});
  }

  lemma DropStagingKeeps(d: Disk, tx: Journal)
    requires InstallingOk(d, DropStaging, tx)
    ensures Inv(InstallStep(d, DropStaging, tx))
  {
    hide RecoveringOk, DiskOk;
    TidyingKeepsDiskOk(d, d.staging - {tx.staging}, d.prepared);
  }

  predicate Publishing(at: Stage) {
    || at == PublishInventory || at == PublishVersion || at == JournalPublished
    || at == AnchorLauncher || at == SwitchCurrent || at == JournalCurrent
  }

  predicate Committing(at: Stage) {
    || at == SmokeVersion || at == CommitReceipt || at == JournalReceipt
    || at == ActivateLauncher || at == SmokeLauncher || at == JournalLauncher
    || at == JournalCommitted || at == RemoveJournal
  }

  predicate Undoing(at: Stage) {
    || at == JournalRolledBack || at == UndoCurrent || at == UndoLauncher
  }

  predicate RollingBack(at: Stage) {
    || at == PubCurrent || at == PubLauncher || at == PubReceipt
    || at == PubVersion || at == PubInventory || at == PubJournal
  }

  lemma PreparingKeeps(d: Disk, at: Stage, tx: Journal)
    requires InstallingOk(d, at, tx) && BeforeJournal(at)
    ensures Inv(InstallStep(d, at, tx))
  {
    hide InstallStep, InstallingOk, Inv;
    match at
    case RepairLauncher => RepairLauncherKeeps(d, tx);
    case RepairSmoke => RepairSmokeKeeps(d, tx);
    case ClaimRoot => ClaimRootKeeps(d, tx);
    case MakeStaging => MakeStagingKeeps(d, tx);
    case PrepareInventory => PrepareInventoryKeeps(d, tx);
    case WriteJournal => WriteJournalKeeps(d, tx);
  }

  lemma PublishingKeeps(d: Disk, at: Stage, tx: Journal)
    requires InstallingOk(d, at, tx) && Publishing(at)
    ensures Inv(InstallStep(d, at, tx))
  {
    hide InstallStep, InstallingOk, Inv;
    match at
    case PublishInventory => PublishInventoryKeeps(d, tx);
    case PublishVersion => PublishVersionKeeps(d, tx);
    case JournalPublished => JournalPublishedKeeps(d, tx);
    case AnchorLauncher => AnchorLauncherKeeps(d, tx);
    case SwitchCurrent => SwitchCurrentKeeps(d, tx);
    case JournalCurrent => JournalCurrentKeeps(d, tx);
  }

  lemma CommittingKeeps(d: Disk, at: Stage, tx: Journal)
    requires InstallingOk(d, at, tx) && Committing(at)
    ensures Inv(InstallStep(d, at, tx))
  {
    hide InstallStep, InstallingOk, Inv;
    match at
    case SmokeVersion => SmokeVersionKeeps(d, tx);
    case CommitReceipt => CommitReceiptKeeps(d, tx);
    case JournalReceipt => JournalReceiptKeeps(d, tx);
    case ActivateLauncher => ActivateLauncherKeeps(d, tx);
    case SmokeLauncher => SmokeLauncherKeeps(d, tx);
    case JournalLauncher => JournalLauncherKeeps(d, tx);
    case JournalCommitted => JournalCommittedKeeps(d, tx);
    case RemoveJournal => RemoveJournalKeeps(d, tx);
  }

  lemma UndoingKeeps(d: Disk, at: Stage, tx: Journal)
    requires InstallingOk(d, at, tx) && Undoing(at)
    ensures Inv(InstallStep(d, at, tx))
  {
    hide InstallStep, InstallingOk, Inv;
    match at
    case JournalRolledBack => JournalRolledBackKeeps(d, tx);
    case UndoCurrent => UndoCurrentKeeps(d, tx);
    case UndoLauncher => UndoLauncherKeeps(d, tx);
  }

  lemma RollingBackKeeps(d: Disk, at: Stage, tx: Journal)
    requires InstallingOk(d, at, tx) && RollingBack(at)
    ensures Inv(InstallStep(d, at, tx))
  {
    hide InstallStep, InstallingOk, Inv;
    match at
    case PubCurrent => PubCurrentKeeps(d, tx);
    case PubLauncher => PubLauncherKeeps(d, tx);
    case PubReceipt => PubReceiptKeeps(d, tx);
    case PubVersion => PubVersionKeeps(d, tx);
    case PubInventory => PubInventoryKeeps(d, tx);
    case PubJournal => PubJournalKeeps(d, tx);
  }

  lemma InstallStepKeepsInv(d: Disk, at: Stage, tx: Journal)
    requires InstallingOk(d, at, tx)
    ensures Inv(InstallStep(d, at, tx))
  {
    hide InstallStep, InstallingOk, Inv;
    if BeforeJournal(at) {
      PreparingKeeps(d, at, tx);
    } else if Publishing(at) {
      PublishingKeeps(d, at, tx);
    } else if Committing(at) {
      CommittingKeeps(d, at, tx);
    } else if Undoing(at) {
      UndoingKeeps(d, at, tx);
    } else if RollingBack(at) {
      RollingBackKeeps(d, at, tx);
    } else if at == DropPrepared {
      DropPreparedKeeps(d, tx);
    } else {
      DropStagingKeeps(d, tx);
    }
  }

  // ----- The stages of a recovery -----

  lemma CommitPathKeeps(d: Disk, p: Proc)
    requires p.Recovering? && RecoveringOk(d, p.stage, p.rtx, p.badTree, p.entry)
    requires OnCommitPath(p.stage)
    ensures Inv(RecoveryStep(d, p))
  {
    hide InstallingOk;
  }

  lemma BackCurrentKeeps(d: Disk, p: Proc)
    requires p.Recovering? && RecoveringOk(d, p.stage, p.rtx, p.badTree, p.entry)
    requires p.stage == BackCurrent
    ensures Inv(RecoveryStep(d, p))
  {
    hide InstallingOk, Settled;
  }

  lemma BackLauncherKeeps(d: Disk, p: Proc)
    requires p.Recovering? && RecoveringOk(d, p.stage, p.rtx, p.badTree, p.entry)
    requires p.stage == BackLauncher
    ensures Inv(RecoveryStep(d, p))
  {
    hide InstallingOk, Settled;
  }

  lemma BackReceiptKeeps(d: Disk, p: Proc)
    requires p.Recovering? && RecoveringOk(d, p.stage, p.rtx, p.badTree, p.entry)
    requires p.stage == BackReceipt
    ensures Inv(RecoveryStep(d, p))
  {
    hide InstallingOk, Settled;
  }

  lemma BackTreesKeep(d: Disk, p: Proc)
    requires p.Recovering? && RecoveringOk(d, p.stage, p.rtx, p.badTree, p.entry)
    requires p.stage == BackVersion || p.stage == BackStaging || p.stage == BackInventory || p.stage == BackPrepared
    ensures Inv(RecoveryStep(d, p))
  {
    hide InstallingOk, Settled;
  }

  lemma BackJournalKeeps(d: Disk, p: Proc)
    requires p.Recovering? && RecoveringOk(d, p.stage, p.rtx, p.badTree, p.entry)
    requires p.stage == BackJournal
    ensures Inv(RecoveryStep(d, p))
  {
    hide InstallingOk;
  }

  lemma RecoveryStepKeepsInv(d: Disk, p: Proc)
    requires p.Recovering? && RecoveringOk(d, p.stage, p.rtx, p.badTree, p.entry)
    ensures Inv(RecoveryStep(d, p))
  {
    hide RecoveryStep, RecoveringOk, Inv;
    match p.stage
    case Relink => CommitPathKeeps(d, p);
    case SmokeRelinked => CommitPathKeeps(d, p);
    case Forget => CommitPathKeeps(d, p);
    case BackCurrent => BackCurrentKeeps(d, p);
    case BackLauncher => BackLauncherKeeps(d, p);
    case BackReceipt => BackReceiptKeeps(d, p);
    case BackVersion => BackTreesKeep(d, p);
    case BackStaging => BackTreesKeep(d, p);
    case BackInventory => BackTreesKeep(d, p);
    case BackPrepared => BackTreesKeep(d, p);
    case BackJournal => BackJournalKeeps(d, p);
  }

  // ----- Failures and crashes -----

  lemma InvMeansDiskOk(s: State)
    requires Inv(s)
    ensures DiskOk(s.disk)
  {
    hide StageFacts;
  }

  /** Where a thrown error leads; the two last stages before the commit have their own catch block. */
  predicate Activating(at: Stage) { at == ActivateLauncher || at == SmokeLauncher }

  lemma ThrowKeepsInv(d: Disk, at: Stage, tx: Journal)
    requires DiskOk(d) && !Activating(at) && (at == DropStaging || OwnJournal(d, tx))
    ensures Inv(AfterThrow(d, at, tx))
  {
    hide DiskOk, RecoveringOk, StageFacts;
  }

  lemma ActivationThrowKeepsInv(d: Disk, at: Stage, tx: Journal)
    requires d.journal == Some(tx) && Pending(d, tx)
    requires tx.phase == ReceiptCommitted && d.receipt == Some(tx.newReceipt) && Candidate(d, tx)
    requires Activating(at)
    ensures Inv(AfterThrow(d, at, tx))
  {
    hide RecoveringOk, Settled;
  }

  lemma InstallOwnsJournal(d: Disk, at: Stage, tx: Journal)
    requires InstallingOk(d, at, tx)
    ensures OwnJournal(d, tx)
  {
    hide StageFacts, Pending, DiskOk;
  }

  lemma LateOwnsJournal(d: Disk, at: Stage, tx: Journal)
    requires InstallingOk(d, at, tx) && at != DropStaging
    ensures InstallStep(d, at, tx).proc.Installing?
    ensures OwnJournal(InstallStep(d, at, tx).disk, InstallStep(d, at, tx).proc.tx)
  {
    InstallStepKeepsInv(d, at, tx);
    var s := InstallStep(d, at, tx);
    assert s.proc.Installing? by { hide InstallingOk, Inv; }
    hide InstallStep;
    InstallOwnsJournal(s.disk, s.proc.at, s.proc.tx);
  }

  lemma FaultKeepsInv(d: Disk, at: Stage, tx: Journal)
    requires InstallingOk(d, at, tx)
    ensures Inv(AfterThrow(d, at, tx))
  {
    hide AfterThrow, Pending, RecoveringOk, Settled;
    if Activating(at) {
      ActivationThrowKeepsInv(d, at, tx);
    } else {
      InvMeansDiskOk(At(d, at, tx));
      InstallOwnsJournal(d, at, tx);
      ThrowKeepsInv(d, at, tx);
    }
  }

  lemma LateActivation(d: Disk, at: Stage, tx: Journal)
    requires InstallingOk(d, at, tx) && Activating(at)
    ensures Inv(LateInstallFault(d, at, tx))
  {
    var s := InstallStep(d, at, tx);
    InstallStepKeepsInv(d, at, tx);
    assert s.proc == Installing(Activated(at), tx);
    hide AfterThrow, Pending, RecoveringOk, Settled, InstallStep;
    ActivationThrowKeepsInv(s.disk, at, tx);
  }

  function Activated(at: Stage): Stage
    requires Activating(at)
  {
    if at == ActivateLauncher then SmokeLauncher else JournalLauncher
  }

  lemma LateFaultKeepsInv(d: Disk, at: Stage, tx: Journal)
    requires InstallingOk(d, at, tx)
    ensures Inv(LateInstallFault(d, at, tx))
  {
    hide InstallStep, InstallingOk, Inv, AfterThrow, DiskOk;
    if Activating(at) {
      LateActivation(d, at, tx);
    } else {
      var s := InstallStep(d, at, tx);
      InstallStepKeepsInv(d, at, tx);
      InvMeansDiskOk(s);
      if at != DropStaging { LateOwnsJournal(d, at, tx); }
      ThrowKeepsInv(s.disk, at, if s.proc.Installing? then s.proc.tx else tx);
    }
  }

  lemma RecoveryThrowKeepsInv(d: Disk, p: Proc)
    requires p.Recovering? && RecoveringOk(d, p.stage, p.rtx, p.badTree, p.entry)
    ensures Inv(AfterRecoveryThrow(d, p))
  {
    hide InstallingOk, Settled;
  }

  /** Any late failure of a recovery, except that of the commit path's own unlink of the journal. */
  lemma LateRecoveryThrowKeepsInv(d: Disk, p: Proc)
    requires p.Recovering? && RecoveringOk(d, p.stage, p.rtx, p.badTree, p.entry)
    requires p.stage != Forget
    ensures Inv(AfterRecoveryThrow(RecoveryStep(d, p).disk, p))
  {
    var s := RecoveryStep(d, p);
    RecoveryStepKeepsInv(d, p);
    if OnCommitPath(p.stage) {
      assert s.proc == p.(stage := SmokeRelinked) || s.proc == p.(stage := Forget);
      hide RecoveryStep, InstallingOk, Settled, Pending;
    } else {
      hide RecoveryStep, RecoveringOk, InstallingOk;
      InvMeansDiskOk(s);
    }
  }

  lemma CrashKeepsInv(s: State)
    requires Inv(s)
    ensures Inv(Apply(s, Crash))
  {
    hide RecoveringOk, InstallingOk, DiskOk;
    InvMeansDiskOk(s);
  }

  lemma SmokeOutside(s: State)
    requires s.proc == Idle
    ensures Apply(s, SmokeFails) == s
  {
  }

  lemma InstallSmokeFailureKeepsInv(s: State, at: Stage, tx: Journal)
    requires Inv(s) && s.proc == Installing(at, tx)
    ensures Inv(Apply(s, SmokeFails))
  {
    hide RecoveringOk, TreeOk;
  }

  lemma RecoverySmokeFailureKeepsInv(s: State)
    requires Inv(s) && s.proc.Recovering?
    ensures Inv(Apply(s, SmokeFails))
  {
    hide InstallingOk, Settled;
  }

  lemma SmokeFailureKeepsInv(s: State)
    requires Inv(s)
    ensures Inv(Apply(s, SmokeFails))
  {
    hide Apply, InstallingOk, RecoveringOk;
    match s.proc
    case Idle => SmokeOutside(s);
    case Installing(at, tx) => InstallSmokeFailureKeepsInv(s, at, tx);
    case Recovering(_, _, _, _) => RecoverySmokeFailureKeepsInv(s);
  }

  lemma PartialRemovalKeepsInv(s: State, hasEntry: bool)
    requires Inv(s)
    ensures Inv(Apply(s, RemovePartly(hasEntry)))
  {
    hide Settled;
  }

  lemma BeginKeepsInv(s: State, e: Event)
    requires Inv(s) && (e.BeginInstall? || e.BeginRecovery? || e.RelinkActive?)
    ensures Inv(Apply(s, e))
  {
    hide StageFacts;
  }

  /** The recovery's commit path unlinks the journal, and the directory sync after it fails. */
  predicate LosesJournal(s: State, e: Event) {
    e == LateFault && s.proc.Recovering? && s.proc.stage == Forget
  }

  lemma AnyFaultKeepsInv(s: State, e: Event)
    requires Inv(s) && (e == Fault || e == LateFault) && !LosesJournal(s, e)
    ensures Inv(Apply(s, e))
  {
    hide RecoveringOk, InstallingOk, AfterThrow, LateInstallFault, AfterRecoveryThrow, RecoveryStep;
    match s.proc
    case Idle =>
    case Installing(at, tx) =>
      FaultKeepsInv(s.disk, at, tx);
      LateFaultKeepsInv(s.disk, at, tx);
    case Recovering(stage, _, _, _) =>
      RecoveryThrowKeepsInv(s.disk, s.proc);
      if stage != Forget { LateRecoveryThrowKeepsInv(s.disk, s.proc); }
  }

  lemma ProceedKeepsInv(s: State)
    requires Inv(s)
    ensures Inv(Apply(s, Proceed))
  {
    hide RecoveringOk, InstallingOk, InstallStep, RecoveryStep, DiskOk;
    match s.proc
    case Idle =>
    case Installing(at, tx) => InstallStepKeepsInv(s.disk, at, tx);
    case Recovering(_, _, _, _) => RecoveryStepKeepsInv(s.disk, s.proc);
  }

  /** Every event but one, whatever has gone before, keeps the invariant. */
  lemma StepKeepsInv(s: State, e: Event)
    requires Inv(s) && !LosesJournal(s, e)
    ensures Inv(Apply(s, e))
  {
    hide Inv, Apply;
    match e
    case BeginInstall(_, _) => BeginKeepsInv(s, e);
    case BeginRecovery => BeginKeepsInv(s, e);
    case RelinkActive => BeginKeepsInv(s, e);
    case SmokeFails => SmokeFailureKeepsInv(s);
    case RemovePartly(hasEntry) => PartialRemovalKeepsInv(s, hasEntry);
    case Fault => AnyFaultKeepsInv(s, e);
    case LateFault => AnyFaultKeepsInv(s, e);
    case Crash => CrashKeepsInv(s);
    case Proceed => ProceedKeepsInv(s);
  }
}
