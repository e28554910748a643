/**
 The durable steps of a standalone install and of its crash recovery, as a
 step system over the few facts about the disk that both of them look at.

 One event is one durable write, one smoke run, one failing operation or one
 crash. A crash drops the running procedure and leaves the disk as it is. An
 operation fails before it has any effect, or after: a rename or an unlink takes
 place before the directory sync that follows it can throw.
 */
module StandaloneInstall {
  import opened Wrappers

  /** Release numbers are compared componentwise; only their order matters. */
  type Version = nat

  /** What the launcher link spells: nothing, root/current, the legacy checkout, one version, or not a link. */
  datatype Link = NoLink | ViaCurrent | ViaLegacy | Direct(version: Version) | NotALink

  /** The executable a launcher resolves to. */
  datatype Exe = VersionExe(version: Version) | LegacyExe

  /** An existing-parent resolution, which also has a value for a dangling path. */
  datatype Place = AtExe(exe: Exe) | AtCurrentEntry

  /** A recursive removal cut short leaves a damaged tree, with or without bin/triss.js. */
  datatype Tree = Intact | Damaged(hasEntry: bool)

  datatype Receipt = Initializing | Active(current: Version, previous: Option<Version>)

  datatype Phase = Prepared | VersionPublished | CurrentActivated | LauncherActivated
                 | ReceiptCommitted | RolledBack | Committed

  datatype Journal = Journal(
    phase: Phase,
    staging: nat,
    target: Version,
    oldCurrent: Option<Version>,
    oldLauncher: Option<Exe>,
    oldLexical: Link,
    oldReceipt: Receipt,
    newReceipt: Receipt)

  datatype Disk = Disk(
    receipt: Option<Receipt>,
    journal: Option<Journal>,
    current: Option<Version>,
    launcher: Link,
    versions: map<Version, Tree>,
    inventories: set<Version>,
    staging: set<nat>,
    prepared: set<nat>,
    legacy: bool)

  /** The next thing an install does. The last two entries are its finally block. */
  datatype Stage =
    | RepairLauncher | RepairSmoke | ClaimRoot | MakeStaging | PrepareInventory | WriteJournal
    | PublishInventory | PublishVersion | JournalPublished | AnchorLauncher | SwitchCurrent | JournalCurrent
    | SmokeVersion | CommitReceipt | JournalReceipt | ActivateLauncher | SmokeLauncher
    | JournalLauncher | JournalCommitted | RemoveJournal
    | JournalRolledBack | UndoCurrent | UndoLauncher
    | PubCurrent | PubLauncher | PubReceipt | PubVersion | PubInventory | PubJournal
    | DropPrepared | DropStaging

  /** The next thing a recovery does: the commit path, then the restore path. */
  datatype RecoveryStage =
    | Relink | SmokeRelinked | Forget
    | BackCurrent | BackLauncher | BackReceipt | BackVersion | BackStaging | BackInventory | BackPrepared | BackJournal

  /** A recovery remembers the disk its entry checks read. */
  datatype Proc =
    | Idle
    | Installing(at: Stage, tx: Journal)
    | Recovering(stage: RecoveryStage, rtx: Journal, badTree: bool, entry: Disk)

  datatype State = State(disk: Disk, proc: Proc)

  datatype Event =
    | BeginInstall(target: Version, staging: nat)
    | BeginRecovery
    | RelinkActive
    | Proceed
    | SmokeFails
    | RemovePartly(hasEntry: bool)
    | Fault
    | LateFault
    | Crash

  // ----- What the code reads off the disk -----

  function Named(r: Receipt): Option<Version> {
    match r
    case Initializing => None
    case Active(v, _) => Some(v)
  }

  predicate HasEntry(d: Disk, v: Version) {
    v in d.versions && (d.versions[v].Damaged? ==> d.versions[v].hasEntry)
  }

  /** The receipt's metadata for a version agrees with its inventory and tree. */
  predicate TreeOk(d: Disk, v: Version) {
    v in d.versions && d.versions[v] == Intact && v in d.inventories
  }

  /** Full resolution of the public launcher; None when it is missing or dangling. */
  function Resolve(d: Disk): Option<Exe> {
    match d.launcher
    case NoLink => None
    case NotALink => None
    case ViaCurrent =>
      if d.current.Some? && HasEntry(d, d.current.value) then Some(VersionExe(d.current.value)) else None
    case ViaLegacy => if d.legacy then Some(LegacyExe) else None
    case Direct(v) => if HasEntry(d, v) then Some(VersionExe(v)) else None
  }

  /** root/current/bin/triss.js, resolved through its nearest existing parent. */
  function CurrentPlace(d: Disk): Place {
    if d.current.Some? then AtExe(VersionExe(d.current.value)) else AtCurrentEntry
  }

  /** The link restoreLink writes for a resolved executable. */
  function Anchor(target: Exe): Link {
    match target
    case VersionExe(v) => Direct(v)
    case LegacyExe => ViaLegacy
  }

  predicate CanonicalLexical(l: Link) { l == ViaCurrent || l == ViaLegacy }

  predicate LatePhase(p: Phase) { p == CurrentActivated || p == ReceiptCommitted || p == RolledBack }

  predicate FinalPhase(p: Phase) { p == LauncherActivated || p == Committed }

  /** The journal's own consistency, checked before recovery trusts its paths. */
  predicate JournalOk(j: Journal) {
    && j.newReceipt.Active?
    && j.target == j.newReceipt.current
    && j.oldCurrent == Named(j.oldReceipt)
    && j.oldCurrent != Some(j.target)
    && (j.oldLexical != NoLink ==> CanonicalLexical(j.oldLexical))
  }

  /** validateRecoveryLauncher: is the launcher one this phase can have left behind? */
  predicate LauncherOk(d: Disk, j: Journal) {
    var nullExpected := !FinalPhase(j.phase) && j.oldLauncher.None?;
    var recorded := if j.oldLauncher.Some? then {AtExe(j.oldLauncher.value)} else {};
    var targets :=
      if FinalPhase(j.phase) then {CurrentPlace(d)}
      else if LatePhase(j.phase) then recorded + {CurrentPlace(d)}
      else recorded;
    if d.launcher == NoLink then nullExpected
    else if targets == {} || d.launcher == NotALink then false
    else
      match Resolve(d)
      case None => LatePhase(j.phase) && CanonicalLexical(d.launcher)
      case Some(exe) =>
        && AtExe(exe) in targets
        && (CanonicalLexical(d.launcher) || (LatePhase(j.phase) && j.oldLauncher == Some(exe)))
  }

  /** validateActiveInstallation, with a missing launcher allowed. */
  predicate ActiveLayoutOk(d: Disk) {
    && d.receipt.Some? && d.receipt.value.Active?
    && var r := d.receipt.value;
    && d.current == Some(r.current)
    && TreeOk(d, r.current)
    && (r.previous.Some? ==> TreeOk(d, r.previous.value))
    && (d.launcher == NoLink || d.launcher == ViaCurrent)
  }

  /** Everything an install checks before its first write. */
  predicate InstallGate(d: Disk, target: Version) {
    && d.journal.None?
    && d.launcher in {NoLink, ViaCurrent, ViaLegacy}
    && (d.receipt.Some? && d.receipt.value.Active? ==>
          ActiveLayoutOk(d) && d.receipt.value.current < target)
    && target !in d.versions
  }

  function MakeJournal(d: Disk, target: Version, staging: nat): Journal {
    var before := if d.receipt.Some? then d.receipt.value else Initializing;
    var launcher := Resolve(d);
    Journal(Prepared, staging, target, Named(before), launcher,
            if launcher.Some? then d.launcher else NoLink,
            before, Active(target, Named(before)))
  }

  /** The commit path is open only on the new receipt, an intact target and a switched pointer. */
  predicate CanCommit(d: Disk, j: Journal) {
    && TreeOk(d, j.target)
    && d.receipt == Some(j.newReceipt)
    && j.phase != Prepared
    && d.current == Some(j.target)
  }

  /** restoreLauncher: the disk it leaves, or None when one of its checks throws. */
  function RestoreLauncher(d: Disk, target: Option<Exe>, lexical: Link): Option<Disk> {
    if target.None? then
      if d.launcher == NotALink then None else Some(d.(launcher := NoLink))
    else if lexical == NoLink then Some(d.(launcher := Anchor(target.value)))
    else if lexical == ViaCurrent && CurrentPlace(d) != AtExe(target.value) then None
    else if lexical == ViaLegacy && target.value != LegacyExe then None
    else if !CanonicalLexical(lexical) then None
    else Some(d.(launcher := lexical))
  }

  /** The old tree is re-checked before anything is pointed back at it. */
  predicate OldTreeOk(d: Disk, j: Journal) {
    j.oldReceipt.Active? ==> TreeOk(d, j.oldReceipt.current)
  }

  // ----- Steps -----

  function Without(m: map<Version, Tree>, v: Version): map<Version, Tree> {
    map w | w in m && w != v :: m[w]
  }

  function At(d: Disk, at: Stage, tx: Journal): State { State(d, Installing(at, tx)) }

  function WriteJournalPhase(d: Disk, tx: Journal, phase: Phase, next: Stage): State {
    var tx' := tx.(phase := phase);
    At(d.(journal := Some(tx')), next, tx')
  }

  function InstallStep(d: Disk, at: Stage, tx: Journal): State {
    match at
    case RepairLauncher => At(d.(launcher := ViaCurrent), RepairSmoke, tx)
    case RepairSmoke => At(d, MakeStaging, tx)
    case ClaimRoot => At(d.(receipt := Some(Initializing)), MakeStaging, tx)
    case MakeStaging => At(d.(staging := d.staging + {tx.staging}), PrepareInventory, tx)
    case PrepareInventory =>
      if tx.target in d.inventories then At(d, DropPrepared, tx)
      else At(d.(prepared := d.prepared + {tx.staging}), WriteJournal, tx)
    case WriteJournal =>
      var tx' := MakeJournal(d, tx.target, tx.staging);
      At(d.(journal := Some(tx')), PublishInventory, tx')
    case PublishInventory =>
      At(d.(prepared := d.prepared - {tx.staging}, inventories := d.inventories + {tx.target}), PublishVersion, tx)
    case PublishVersion =>
      At(d.(staging := d.staging - {tx.staging}, versions := d.versions[tx.target := Intact]), JournalPublished, tx)
    case JournalPublished => WriteJournalPhase(d, tx, VersionPublished, AnchorLauncher)
    case AnchorLauncher =>
      At(if tx.oldLauncher.Some? then d.(launcher := Anchor(tx.oldLauncher.value)) else d, SwitchCurrent, tx)
    case SwitchCurrent => At(d.(current := Some(tx.target)), JournalCurrent, tx)
    case JournalCurrent => WriteJournalPhase(d, tx, CurrentActivated, SmokeVersion)
    case SmokeVersion => At(d, CommitReceipt, tx)
    case CommitReceipt => At(d.(receipt := Some(tx.newReceipt)), JournalReceipt, tx)
    case JournalReceipt => WriteJournalPhase(d, tx, ReceiptCommitted, ActivateLauncher)
    case ActivateLauncher => At(d.(launcher := ViaCurrent), SmokeLauncher, tx)
    case SmokeLauncher => At(d, JournalLauncher, tx)
    case JournalLauncher => WriteJournalPhase(d, tx, LauncherActivated, JournalCommitted)
    case JournalCommitted => WriteJournalPhase(d, tx, Committed, RemoveJournal)
    case RemoveJournal => At(d.(journal := None), DropPrepared, tx)
    case JournalRolledBack => WriteJournalPhase(d, tx, RolledBack, UndoCurrent)
    case UndoCurrent => At(d.(current := tx.oldCurrent), UndoLauncher, tx)
    case UndoLauncher =>
      var restored := RestoreLauncher(d, tx.oldLauncher, tx.oldLexical);
      At(if restored.Some? then restored.value else d, DropPrepared, tx)
    case PubCurrent =>
      if OldTreeOk(d, tx) then At(d.(current := tx.oldCurrent), PubLauncher, tx) else At(d, DropPrepared, tx)
    case PubLauncher =>
      var restored := RestoreLauncher(d, tx.oldLauncher, tx.oldLexical);
      if restored.Some? then At(restored.value, PubReceipt, tx) else At(d, DropPrepared, tx)
    case PubReceipt => At(d.(receipt := Some(tx.oldReceipt)), PubVersion, tx)
    case PubVersion => At(d.(versions := Without(d.versions, tx.target)), PubInventory, tx)
    case PubInventory => At(d.(inventories := d.inventories - {tx.target}), PubJournal, tx)
    case PubJournal => At(d.(journal := None), DropPrepared, tx)
    case DropPrepared => At(d.(prepared := d.prepared - {tx.staging}), DropStaging, tx)
    case DropStaging => State(d.(staging := d.staging - {tx.staging}), Idle)
  }

  /** Where a thrown error goes: the enclosing catch block, then the finally block. */
  function InstallCatch(at: Stage): Option<Stage> {
    match at
    case ActivateLauncher => Some(PubCurrent)
    case SmokeLauncher => Some(PubCurrent)
    case DropPrepared => Some(DropStaging)
    case DropStaging => None
    case _ => Some(DropPrepared)
  }

  /** The catch block of the pre-commit smoke run starts with its own journal write. */
  function SmokeCatch(at: Stage): Option<Stage> {
    match at
    case SmokeVersion => Some(JournalRolledBack)
    case SmokeLauncher => Some(PubCurrent)
    case RepairSmoke => Some(DropPrepared)
    case _ => None
  }

  function RecoveryAt(d: Disk, stage: RecoveryStage, p: Proc): State
    requires p.Recovering?
  {
    State(d, p.(stage := stage))
  }

  function RecoveryStep(d: Disk, p: Proc): State
    requires p.Recovering?
  {
    var j := p.rtx;
    match p.stage
    case Relink => RecoveryAt(d.(launcher := ViaCurrent), SmokeRelinked, p)
    case SmokeRelinked => RecoveryAt(d, Forget, p)
    case Forget => State(d.(journal := None), Idle)
    case BackCurrent =>
      if OldTreeOk(d, j) then RecoveryAt(d.(current := j.oldCurrent), BackLauncher, p) else State(d, Idle)
    case BackLauncher =>
      var restored := RestoreLauncher(d, j.oldLauncher, j.oldLexical);
      if restored.Some? then RecoveryAt(restored.value, BackReceipt, p) else State(d, Idle)
    case BackReceipt => RecoveryAt(d.(receipt := Some(j.oldReceipt)), BackVersion, p)
    case BackVersion =>
      RecoveryAt(if p.badTree then d else d.(versions := Without(d.versions, j.target)), BackStaging, p)
    case BackStaging => RecoveryAt(d.(staging := d.staging - {j.staging}), BackInventory, p)
    case BackInventory =>
      RecoveryAt(if p.badTree then d else d.(inventories := d.inventories - {j.target}), BackPrepared, p)
    case BackPrepared => RecoveryAt(d.(prepared := d.prepared - {j.staging}), BackJournal, p)
    case BackJournal => State(d.(journal := None), Idle)
  }

  predicate OnCommitPath(stage: RecoveryStage) { stage == Relink || stage == SmokeRelinked || stage == Forget }

  /** Entry checks of recoverJournal; they read the disk and change nothing. */
  predicate RecoveryAdmits(d: Disk) {
    d.journal.Some? && JournalOk(d.journal.value) && LauncherOk(d, d.journal.value)
  }

  function FirstStage(d: Disk, target: Version): Stage {
    if d.receipt.None? then ClaimRoot
    else if d.receipt.value.Active? && d.launcher == NoLink then RepairLauncher
    else MakeStaging
  }

  /** A thrown error leaves the disk as it is and goes where the enclosing block says. */
  function AfterThrow(d: Disk, at: Stage, tx: Journal): State {
    match InstallCatch(at)
    case None => State(d, Idle)
    case Some(next) => At(d, next, tx)
  }

  /** The step takes place, journal in memory included, and then throws. */
  function LateInstallFault(d: Disk, at: Stage, tx: Journal): State {
    var done := InstallStep(d, at, tx);
    AfterThrow(done.disk, at, if done.proc.Installing? then done.proc.tx else tx)
  }

  /** The commit path is a try block whose catch falls through to the restore path. */
  function AfterRecoveryThrow(d: Disk, p: Proc): State
    requires p.Recovering?
  {
    if OnCommitPath(p.stage) then RecoveryAt(d, BackCurrent, p) else State(d, Idle)
  }

  function Apply(s: State, e: Event): State {
    var d := s.disk;
    match e
    case BeginInstall(target, id) =>
      if s.proc == Idle && InstallGate(d, target) && id !in d.staging && id !in d.prepared
      then At(d, FirstStage(d, target), MakeJournal(d, target, id))
      else s
    case BeginRecovery =>
      if s.proc == Idle && RecoveryAdmits(d) then
        var j := d.journal.value;
        var bad := j.target in d.versions && !TreeOk(d, j.target);
        State(d, Recovering(if CanCommit(d, j) then Relink else BackCurrent, j, bad, d))
      else s
    case RelinkActive =>
      if s.proc == Idle && d.journal.None? && ActiveLayoutOk(d) then State(d.(launcher := ViaCurrent), Idle) else s
    case Proceed =>
      (match s.proc
       case Idle => s
       case Installing(at, tx) => InstallStep(d, at, tx)
       case Recovering(_, _, _, _) => RecoveryStep(d, s.proc))
    case SmokeFails =>
      (match s.proc
       case Idle => s
       case Installing(at, tx) => if SmokeCatch(at).Some? then At(d, SmokeCatch(at).value, tx) else s
       case Recovering(stage, _, _, _) => if stage == SmokeRelinked then RecoveryAt(d, BackCurrent, s.proc) else s)
    case RemovePartly(hasEntry) =>
      (match s.proc
       case Idle => s
       case Installing(at, tx) =>
         if at == PubVersion && tx.target in d.versions
         then At(d.(versions := d.versions[tx.target := Damaged(hasEntry)]), at, tx) else s
       case Recovering(stage, j, bad, _) =>
         if stage == BackVersion && !bad && j.target in d.versions
         then RecoveryAt(d.(versions := d.versions[j.target := Damaged(hasEntry)]), stage, s.proc) else s)
    case Fault =>
      (match s.proc
       case Idle => s
       case Installing(at, tx) => AfterThrow(d, at, tx)
       case Recovering(_, _, _, _) => AfterRecoveryThrow(d, s.proc))
    case LateFault =>
      (match s.proc
       case Idle => s
       case Installing(at, tx) => LateInstallFault(d, at, tx)
       case Recovering(_, _, _, _) => AfterRecoveryThrow(RecoveryStep(d, s.proc).disk, s.proc))
    case Crash => State(d, Idle)
  }

  function Run(s: State, events: seq<Event>): State
    decreases |events|
  {
    if events == [] then s else Apply(Run(s, events[..|events| - 1]), events[|events| - 1])
  }
}
