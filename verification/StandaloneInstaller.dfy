/**
 installManifest and recoverJournal in their own imperative form. Every durable
 write may throw, before it has an effect or after, and is recorded as one event
 of the step system, so whatever holds in all reachable states holds after each
 write of these methods too.
 */
module StandaloneInstaller {
  import opened Wrappers
  import opened StandaloneInstall
  import opened StandaloneInvariant
  import opened StandaloneSafety
  import opened StandaloneRefusal
  import opened StandaloneOutcome

  datatype RecoveryOutcome = NoJournal | Refused | Recovered | RetainedUntrusted | Interrupted

  /** Abandoned and NeedsRecovery are thrown errors that leave no journal, or leave one. */
  datatype InstallOutcome =
    RecoveryFailed | Rejected | AlreadyInstalled | Abandoned | NeedsRecovery | Reverted | Installed

  /** How one durable write turns out. */
  datatype Fate = Works | FailsBefore | FailsAfter

  /** The stages of an install that put an old pointer back. */
  predicate Restores(at: Stage) {
    at == UndoCurrent || at == PubCurrent || at == UndoLauncher || at == PubLauncher
  }

  /** Wherever old pointers are put back, the old tree and the recorded launcher still check out. */
  lemma RestoreCannotFail(origin: State, trace: seq<Event>, s: State, j: Journal)
    requires Start(origin) && s == Run(origin, trace)
    requires
      || (s.proc.Recovering? && (s.proc.stage == BackCurrent || s.proc.stage == BackLauncher) && s.proc.rtx == j)
      || (s.proc.Installing? && s.proc.tx == j && Restores(s.proc.at))
    ensures OldTreeOk(s.disk, j) && (s.disk.journal.Some? ==> s.disk.journal == Some(j))
    ensures s.disk.current == j.oldCurrent ==>
              RestoreLauncher(s.disk, j.oldLauncher, j.oldLexical) == Some(s.disk.(launcher := j.oldLexical))
    ensures s.proc.Installing? && (s.proc.at == UndoLauncher || s.proc.at == PubLauncher) ==>
              s.disk.current == j.oldCurrent
    ensures s.proc.Recovering? && s.proc.stage == BackLauncher ==> s.disk.current == j.oldCurrent
  {
    StartIsOk(origin);
    RunIsKnown(origin, trace);
    hide Run;
    if s.proc.Installing? {
      InstallingOldSide(s.disk, s.proc.at, j);
    } else if Unjournalled(s) {
      UnjournalledOldSide(s);
    } else {
      RecoveringOldSide(s);
    }
    hide Inv, Unjournalled, Stranded, OldSideOk;
    OldSideRestores(s.disk, j);
  }

  lemma InstallingOldSide(d: Disk, at: Stage, tx: Journal)
    requires InstallingOk(d, at, tx) && Restores(at)
    ensures OldSideOk(d, tx) && d.journal == Some(tx) && d.launcher != NotALink
    ensures at == UndoLauncher || at == PubLauncher ==> d.current == tx.oldCurrent
  {
    hide Settled;
  }

  lemma RecoveringOldSide(s: State)
    requires Inv(s) && s.proc.Recovering?
    ensures OldSideOk(s.disk, s.proc.rtx) && s.disk.journal == Some(s.proc.rtx) && s.disk.launcher != NotALink
    ensures s.proc.stage == BackLauncher ==> s.disk.current == s.proc.rtx.oldCurrent
  {
    hide InstallingOk, Settled;
  }

  lemma UnjournalledOldSide(s: State)
    requires Unjournalled(s)
    ensures OldSideOk(s.disk, s.proc.rtx) && s.disk.journal.None? && s.disk.launcher != NotALink
    ensures s.proc.stage == BackLauncher ==> s.disk.current == s.proc.rtx.oldCurrent
  {
    hide TreeOk;
  }

  lemma OldSideRestores(d: Disk, j: Journal)
    requires OldSideOk(d, j) && d.launcher != NotALink
    ensures OldTreeOk(d, j)
    ensures d.current == j.oldCurrent ==>
              RestoreLauncher(d, j.oldLauncher, j.oldLexical) == Some(d.(launcher := j.oldLexical))
  {
  }

  lemma UndoneIsRecoverable(origin: State, trace: seq<Event>, s: State)
    requires Start(origin) && s == Run(origin, trace) && s.proc == Idle
    requires s.disk.journal.Some? && s.disk.journal.value.phase == RolledBack
    ensures RecoveryAdmits(s.disk)
  {
    ReachedInv(origin, trace);
    hide Run, RecoveryAdmits, Pending;
    RefusedExactly(s.disk);
  }

  lemma UndoKeepsReceipt(origin: State, trace: seq<Event>, s: State, tx: Journal)
    requires Start(origin) && s == Run(origin, trace) && s.proc == Installing(UndoCurrent, tx)
    ensures s.disk.receipt == Some(tx.oldReceipt) && tx.phase == RolledBack && s.disk.journal == Some(tx)
  {
    ReachedInv(origin, trace);
    hide Run, Pending, Settled, RecoveringOk;
  }

  lemma TargetIsNamed(origin: State, trace: seq<Event>, s: State, tx: Journal)
    requires Start(origin) && s == Run(origin, trace) && s.proc == Installing(SmokeVersion, tx)
    ensures tx.newReceipt.Active? && tx.newReceipt.current == tx.target
  {
    ReachedInv(origin, trace);
    hide Run, Settled, RecoveringOk;
  }

  /** The downgrade check that comes before anything else, recovery included. */
  predicate IsDowngrade(d: Disk, target: Version) {
    d.receipt.Some? && d.receipt.value.Active? && target < d.receipt.value.current
  }

  /** Whatever journal is left at a throw is the throwing install's own. */
  lemma ThrownOwnsJournal(origin: State, trace: seq<Event>, s: State)
    requires Start(origin) && s == Run(origin, trace) && s.proc.Installing?
    ensures s.disk.journal.Some? ==> s.disk.journal.value.target == s.proc.tx.target
  {
    ReachedInv(origin, trace);
    hide Run, InstallingOk;
    InstallOwnsJournal(s.disk, s.proc.at, s.proc.tx);
  }

  lemma ActivationKeepsJournal(origin: State, trace: seq<Event>, s: State, tx: Journal, ok: bool)
    requires Start(origin) && s == Run(origin, trace) && s.disk.journal == Some(tx)
    requires if ok then s.proc == Installing(SmokeLauncher, tx) else ThrownFrom(s.proc, ActivateLauncher, tx)
    ensures s.proc.tx == tx && (!ok ==> s.proc.at == PubCurrent)
  {
    ReachedInv(origin, trace);
    hide Run, Pending, Settled, RecoveringOk;
  }

  lemma ForgetIsNew(origin: State, trace: seq<Event>, s: State, j: Journal)
    requires Start(origin) && s == Run(origin, trace) && s.disk.journal.Some?
    requires s.proc.Recovering? && s.proc.stage == Forget && s.proc.rtx == j
    ensures s.disk.receipt == Some(j.newReceipt) && s.disk.current == Some(j.target)
    ensures s.disk.launcher == ViaCurrent && TreeOk(s.disk, j.target)
  {
    ReachedInv(origin, trace);
    hide Run, Pending, InstallingOk, TreeOk;
  }

  /** The last step of the finally block, whether it fails or not. */
  lemma LastStep(origin: State, trace: seq<Event>, d: Disk, tx: Journal)
    requires Start(origin) && At(d, DropStaging, tx) == Run(origin, trace)
    ensures InstallStep(d, DropStaging, tx) == State(d.(staging := d.staging - {tx.staging}), Idle)
    ensures InstallCatch(DropStaging).None?
    ensures DiskOk(d) && DiskOk(d.(staging := d.staging - {tx.staging}))
  {
    ReachedInv(origin, trace);
    hide Run, DiskOk, RecoveringOk;
    TidyingKeepsDiskOk(d, d.staging - {tx.staging}, d.prepared);
  }

  lemma SettledIsOk(d: Disk)
    requires Settled(d)
    ensures DiskOk(d) && d.journal.None?
  {
  }

  /** What an install ends with does not depend on the phase its journal had. */
  lemma PhaseDoesNotMatter(d: Disk, tx: Journal, phase: Phase)
    ensures var tx' := tx.(phase := phase);
            && AllNew(d, tx') == AllNew(d, tx) && AllOld(d, tx') == AllOld(d, tx)
            && TransactionGone(d, tx') == TransactionGone(d, tx)
  {
  }

  lemma NewResolves(d: Disk, tx: Journal)
    requires AllNew(d, tx)
    ensures Resolve(d) == Some(VersionExe(tx.target)) && d.receipt == Some(tx.newReceipt)
  {
  }

  /** Clearing the two staging namespaces changes nothing that the outcome of an install speaks of. */
  lemma TidyingKeepsOutcome(d: Disk, d': Disk, tx: Journal)
    requires d' == d.(staging := d'.staging, prepared := d'.prepared)
    requires d'.staging <= d.staging && d'.prepared <= d.prepared
    ensures Settled(d) ==> Settled(d')
    ensures AllNew(d, tx) ==> AllNew(d', tx)
    ensures AllOld(d, tx) ==> AllOld(d', tx)
    ensures TransactionGone(d, tx) ==> TransactionGone(d', tx)
    ensures RecoveryAdmits(d) == RecoveryAdmits(d') && AdmittedOrAnchored(d) == AdmittedOrAnchored(d')
  {
    assert Resolve(d) == Resolve(d') && CurrentPlace(d) == CurrentPlace(d');
  }

  /** The candidate's tree does not agree with the receipt: recovery keeps it for inspection. */
  predicate Untrusted(d: Disk, j: Journal) { j.target in d.versions && !TreeOk(d, j.target) }

  /** After a recovery the same version is either active, or can be installed. */
  lemma RecoveredReceipt(before: Disk, d: Disk, j: Journal)
    requires RecoveryAdmits(before) && before.journal == Some(j) && Settled(d)
    ensures AllNew(d, j) ==> ActiveLayoutOk(d) && d.receipt.Some? && Named(d.receipt.value) == Some(j.target)
    ensures AllOld(d, j) ==> d.receipt.Some? && Named(d.receipt.value) != Some(j.target)
  {
    hide TreeOk;
  }

  lemma CommitIsDurable(d: Disk, j: Journal)
    ensures CanCommit(d, j) <==> NewIsDurable(d, j)
  {
  }

  /** No disk is all old and all new. */
  lemma OldOrNew(origin: State, trace: seq<Event>, j: Journal)
    requires Start(origin) && Run(origin, trace).disk.journal == Some(j)
    ensures forall d :: !(AllOld(d, j) && AllNew(d, j))
  {
    ReachedInv(origin, trace);
    InvMeansDiskOk(Run(origin, trace));
    hide Run, Inv;
  }

  lemma InterruptedTakenUp(origin: State, trace: seq<Event>)
    requires Start(origin) && AdmittedOrWithdrawn(Run(origin, trace).disk)
    ensures var d := Run(origin, trace).disk;
            TakenUp(d) <==> if d.journal.Some? then !WithdrawnWindow(d, d.journal.value) else !Stranded(d)
  {
    var d := Run(origin, trace).disk;
    EveryDisk(origin, trace);
    hide Run, RecoveryAdmits, WithdrawnWindow, Stranded, Settled;
    if d.journal.Some? {
      assert forall target :: !InstallGate(d, target);
    } else if DiskOk(d) {
      SettledIsTakenUp(d);
      if Stranded(d) { StrandedIsNot(d); }
    } else {
      StrandedIsNot(d);
    }
  }

  /** The stage after a write that neither throws nor ends the install. */
  function Next(at: Stage): Stage {
    match at
    case RepairLauncher => RepairSmoke
    case RepairSmoke => MakeStaging
    case ClaimRoot => MakeStaging
    case MakeStaging => PrepareInventory
    case PrepareInventory => WriteJournal
    case WriteJournal => PublishInventory
    case PublishInventory => PublishVersion
    case PublishVersion => JournalPublished
    case JournalPublished => AnchorLauncher
    case AnchorLauncher => SwitchCurrent
    case SwitchCurrent => JournalCurrent
    case JournalCurrent => SmokeVersion
    case SmokeVersion => CommitReceipt
    case CommitReceipt => JournalReceipt
    case JournalReceipt => ActivateLauncher
    case ActivateLauncher => SmokeLauncher
    case SmokeLauncher => JournalLauncher
    case JournalLauncher => JournalCommitted
    case JournalCommitted => RemoveJournal
    case JournalRolledBack => UndoCurrent
    case UndoCurrent => UndoLauncher
    case PubCurrent => PubLauncher
    case PubLauncher => PubReceipt
    case PubReceipt => PubVersion
    case PubVersion => PubInventory
    case PubInventory => PubJournal
    case DropPrepared => DropStaging
    case _ => DropPrepared
  }

  /** The phase each journal write records. */
  function PhaseAt(at: Stage): Option<Phase> {
    match at
    case JournalPublished => Some(VersionPublished)
    case JournalCurrent => Some(CurrentActivated)
    case JournalReceipt => Some(ReceiptCommitted)
    case JournalLauncher => Some(LauncherActivated)
    case JournalCommitted => Some(Committed)
    case JournalRolledBack => Some(RolledBack)
    case _ => None
  }

  /** A write threw at this stage: the procedure stands at the catch block, over the same staging names. */
  predicate ThrownFrom(p: Proc, at: Stage, tx: Journal) {
    p.Installing? && InstallCatch(at) == Some(p.at) && p.tx.staging == tx.staging && p.tx.target == tx.target
  }

  /** A throw has reached the finally block of the install. */
  predicate GivenUp(p: Proc, tx: Journal) {
    p.Installing? && p.at == DropPrepared && p.tx.staging == tx.staging && p.tx.target == tx.target
  }

  lemma ThrowLands(d: Disk, at: Stage, tx: Journal)
    requires InstallCatch(at).Some?
    ensures ThrownFrom(AfterThrow(d, at, tx).proc, at, tx) && AfterThrow(d, at, tx).disk == d
  {
    hide InstallCatch;
  }

  class Installer {
    const reliable: bool
    var disk: Disk
    ghost const origin: State
    ghost var trace: seq<Event>
    /** The step system's state after the events recorded so far. */
    ghost var sys: State

    /** The recorded events lead from the start to `sys`; the disk may be one write ahead. */
    ghost predicate Recorded()
      reads `trace, `sys
    {
      Start(origin) && sys == Run(origin, trace)
    }

    ghost predicate Valid()
      reads this
    {
      Recorded() && sys.disk == disk
    }

    constructor (d: Disk, reliable: bool)
      requires Settled(d)
      ensures Valid() && disk == d && sys.proc == Idle && this.reliable == reliable
    {
      disk := d;
      this.reliable := reliable;
      origin := State(d, Idle);
      trace := [];
      sys := State(d, Idle);
    }

    /** The disk as it is now is what event e makes of the system's last state. */
    ghost method Took(e: Event)
      requires Recorded() && Apply(sys, e).disk == disk
      modifies `trace, `sys
      ensures Valid() && sys == Apply(old(sys), e) && trace == old(trace) + [e]
    {
      RunAppend(origin, trace, e);
      sys, trace := Apply(sys, e), trace + [e];
    }

    method Outlook() returns (fate: Fate)
      ensures reliable ==> fate == Works
    {
      fate := *;
      if reliable { fate := Works; }
    }

    /** One durable write of an install. */
    method Write(ghost at: Stage, ghost tx: Journal, ghost tx': Journal, next: Disk) returns (ok: bool)
      requires Valid() && sys.proc == Installing(at, tx) && InstallCatch(at).Some?
      requires InstallStep(disk, at, tx) == At(next, Next(at), tx')
      requires tx'.staging == tx.staging && tx'.target == tx.target
      modifies this
      ensures Valid() && old(trace) <= trace && (disk == old(disk) || disk == next)
      ensures ok ==> disk == next && sys.proc == Installing(Next(at), tx')
      ensures !ok ==> !reliable && ThrownFrom(sys.proc, at, tx)
    {
      hide InstallStep, InstallCatch, Run, Next;
      var fate := Outlook();
      if fate.FailsBefore? {
        ThrowLands(disk, at, tx);
        Took(Fault);
        return false;
      }
      disk := next;
      if fate.FailsAfter? {
        ThrowLands(next, at, tx');
        Took(LateFault);
        return false;
      }
      Took(Proceed);
      ok := true;
    }

    /** One durable write of a recovery. */
    method WriteBack(next: Disk) returns (ok: bool)
      requires Valid() && sys.proc.Recovering? && RecoveryStep(disk, sys.proc).disk == next
      modifies this
      ensures Valid() && old(trace) <= trace && (disk == old(disk) || disk == next)
      ensures ok ==> disk == next && sys.proc == RecoveryStep(old(disk), old(sys.proc)).proc
      ensures !ok ==> !reliable && sys.proc == AfterRecoveryThrow(disk, old(sys.proc)).proc
      ensures !ok ==> AdmittedOrWithdrawn(disk)
    {
      hide RecoveryStep, Run, AdmittedOrWithdrawn;
      var fate := Outlook();
      if fate.FailsBefore? {
        RecoveryLeaves(origin, trace, Fault);
        Took(Fault);
        return false;
      }
      disk := next;
      if fate.FailsAfter? {
        RecoveryLeaves(origin, trace, LateFault);
        Took(LateFault);
        return false;
      }
      Took(Proceed);
      ok := true;
    }

    // ----- One durable write each -----

    /** Replaces root/current, or unlinks it. */
    method RestoreLink(ghost at: Stage, ghost tx: Journal, target: Option<Version>) returns (ok: bool)
      requires Valid() && sys.proc == Installing(at, tx)
      requires at == SwitchCurrent || at == UndoCurrent || at == PubCurrent
      requires target == if at == SwitchCurrent then Some(tx.target) else tx.oldCurrent
      modifies this
      ensures Valid() && old(trace) <= trace
      ensures ok ==> disk == old(disk).(current := target) && sys.proc == Installing(Next(at), tx)
      ensures !ok ==> !reliable && GivenUp(sys.proc, tx)
    {
      if at == PubCurrent { RestoreCannotFail(origin, trace, sys, tx); }
      hide Run, Inv;
      ok := Write(at, tx, tx, disk.(current := target));
    }

    /** Sets the transaction's phase and writes the journal. */
    method Advance(ghost at: Stage, tx: Journal, phase: Phase) returns (journal: Option<Journal>)
      requires Valid() && sys.proc == Installing(at, tx) && PhaseAt(at) == Some(phase)
      modifies this
      ensures Valid() && old(trace) <= trace
      ensures journal.Some? ==>
                && journal == Some(tx.(phase := phase)) && disk == old(disk).(journal := journal)
                && sys.proc == Installing(Next(at), journal.value)
      ensures journal.None? ==> !reliable && GivenUp(sys.proc, tx)
    {
      hide Run;
      journal := Some(tx.(phase := phase));
      var ok := Write(at, tx, journal.value, disk.(journal := journal));
      if !ok { journal := None; }
    }

    method WriteReceipt(ghost at: Stage, ghost tx: Journal, receipt: Receipt) returns (ok: bool)
      requires Valid() && sys.proc == Installing(at, tx) && (at == ClaimRoot || at == CommitReceipt || at == PubReceipt)
      requires
        receipt == if at == ClaimRoot then Initializing
                   else if at == CommitReceipt then tx.newReceipt else tx.oldReceipt
      modifies this
      ensures Valid() && old(trace) <= trace
      ensures ok ==> disk == old(disk).(receipt := Some(receipt)) && sys.proc == Installing(Next(at), tx)
      ensures !ok ==> !reliable && GivenUp(sys.proc, tx)
    {
      hide Run;
      ok := Write(at, tx, tx, disk.(receipt := Some(receipt)));
    }

    /** Parks the launcher on the old executable, if there is one. */
    method AnchorOld(tx: Journal) returns (ok: bool)
      requires Valid() && sys.proc == Installing(AnchorLauncher, tx)
      modifies this
      ensures Valid() && old(trace) <= trace
      ensures ok ==>
                && disk == (if tx.oldLauncher.None? then old(disk)
                            else old(disk).(launcher := Anchor(tx.oldLauncher.value)))
                && sys.proc == Installing(SwitchCurrent, tx)
      ensures !ok ==> !reliable && GivenUp(sys.proc, tx)
    {
      hide Run;
      var next := if tx.oldLauncher.Some? then disk.(launcher := Anchor(tx.oldLauncher.value)) else disk;
      ok := Write(AnchorLauncher, tx, tx, next);
    }

    /** Points the public launcher at root/current. */
    method ActivatePublicLauncher(ghost at: Stage, ghost tx: Journal) returns (ok: bool)
      requires Valid() && sys.proc == Installing(at, tx) && (at == RepairLauncher || at == ActivateLauncher)
      modifies this
      ensures Valid() && old(trace) <= trace && disk.journal == old(disk.journal)
      ensures disk.inventories == old(disk.inventories)
      ensures ok ==> disk == old(disk).(launcher := ViaCurrent) && sys.proc == Installing(Next(at), tx)
      ensures !ok ==> !reliable && ThrownFrom(sys.proc, at, tx)
      ensures !ok && at == RepairLauncher ==> GivenUp(sys.proc, tx)
    {
      hide Run;
      ok := Write(at, tx, tx, disk.(launcher := ViaCurrent));
    }

    /** restoreLauncher in memory: the launcher it would write, or a failed check. */
    method CheckedLauncher(target: Option<Exe>, lexical: Link) returns (link: Option<Link>)
      ensures link.Some? == RestoreLauncher(disk, target, lexical).Some?
      ensures link.Some? ==> RestoreLauncher(disk, target, lexical).value == disk.(launcher := link.value)
    {
      if target.None? {
        return if disk.launcher == NotALink then None else Some(NoLink);
      }
      if lexical == NoLink { return Some(Anchor(target.value)); }
      if !CanonicalLexical(lexical) { return None; }
      var place := if lexical == ViaCurrent then CurrentPlace(disk) else AtExe(LegacyExe);
      link := if place == AtExe(target.value) then Some(lexical) else None;
    }

    method PutBackLauncher(ghost at: Stage, tx: Journal) returns (ok: bool)
      requires Valid() && sys.proc == Installing(at, tx) && (at == UndoLauncher || at == PubLauncher)
      modifies this
      ensures Valid() && old(trace) <= trace
      ensures ok ==> disk == old(disk).(launcher := tx.oldLexical) && sys.proc == Installing(Next(at), tx)
      ensures !ok ==> !reliable && GivenUp(sys.proc, tx)
    {
      RestoreCannotFail(origin, trace, sys, tx);
      var link := CheckedLauncher(tx.oldLauncher, tx.oldLexical);
      hide Run, RestoreLauncher;
      ok := Write(at, tx, tx, disk.(launcher := link.value));
    }

    method MoveInventory(tx: Journal) returns (ok: bool)
      requires Valid() && sys.proc == Installing(PublishInventory, tx)
      modifies this
      ensures Valid() && old(trace) <= trace
      ensures ok ==>
                && disk == old(disk).(prepared := old(disk).prepared - {tx.staging},
                                      inventories := old(disk).inventories + {tx.target})
                && sys.proc == Installing(PublishVersion, tx)
      ensures !ok ==> !reliable && GivenUp(sys.proc, tx)
    {
      hide Run;
      ok := Write(PublishInventory, tx, tx,
                  disk.(prepared := disk.prepared - {tx.staging}, inventories := disk.inventories + {tx.target}));
    }

    method MoveVersion(tx: Journal) returns (ok: bool)
      requires Valid() && sys.proc == Installing(PublishVersion, tx)
      modifies this
      ensures Valid() && old(trace) <= trace
      ensures ok ==>
                && disk == old(disk).(staging := old(disk).staging - {tx.staging},
                                      versions := old(disk).versions[tx.target := Intact])
                && sys.proc == Installing(JournalPublished, tx)
      ensures !ok ==> !reliable && GivenUp(sys.proc, tx)
    {
      hide Run;
      ok := Write(PublishVersion, tx, tx,
                  disk.(staging := disk.staging - {tx.staging}, versions := disk.versions[tx.target := Intact]));
    }

    /** A recursive removal may also stop half way. */
    method RemoveVersion(tx: Journal) returns (ok: bool)
      requires Valid() && sys.proc == Installing(PubVersion, tx)
      modifies this
      ensures Valid() && old(trace) <= trace && disk.journal == old(disk.journal)
      ensures ok ==> sys.proc == Installing(PubInventory, tx)
      ensures !ok ==> !reliable && GivenUp(sys.proc, tx)
    {
      hide Run;
      var partly, hasEntry := *, *;
      if partly && !reliable && tx.target in disk.versions {
        StopHalfWay(tx, hasEntry);
        return false;
      }
      ok := Write(PubVersion, tx, tx, disk.(versions := Without(disk.versions, tx.target)));
    }

    method StopHalfWay(tx: Journal, hasEntry: bool)
      requires Valid() && sys.proc == Installing(PubVersion, tx) && tx.target in disk.versions
      modifies this
      ensures Valid() && old(trace) <= trace && disk.journal == old(disk.journal) && GivenUp(sys.proc, tx)
    {
      hide Run, InstallStep;
      disk := disk.(versions := disk.versions[tx.target := Damaged(hasEntry)]);
      Took(RemovePartly(hasEntry));
      ThrowLands(disk, PubVersion, tx);
      Took(Fault);
    }

    method RemoveInventory(tx: Journal) returns (ok: bool)
      requires Valid() && sys.proc == Installing(PubInventory, tx)
      modifies this
      ensures Valid() && old(trace) <= trace && disk.journal == old(disk.journal)
      ensures ok ==> sys.proc == Installing(PubJournal, tx)
      ensures !ok ==> !reliable && GivenUp(sys.proc, tx)
    {
      hide Run;
      ok := Write(PubInventory, tx, tx, disk.(inventories := disk.inventories - {tx.target}));
    }

    method CloseJournal(ghost at: Stage, ghost tx: Journal) returns (ok: bool)
      requires Valid() && sys.proc == Installing(at, tx) && (at == RemoveJournal || at == PubJournal)
      requires disk.journal.Some?
      modifies this
      ensures Valid() && old(trace) <= trace
      ensures ok ==> disk == old(disk).(journal := None) && sys.proc == Installing(DropPrepared, tx)
      ensures ok ==> Settled(disk) && TransactionGone(disk, tx)
      ensures ok ==> if at == RemoveJournal then AllNew(disk, tx) else AllOld(disk, tx) && tx.target !in disk.versions
      ensures ok && at == PubJournal ==> tx.target !in disk.inventories
      ensures !ok ==> !reliable && GivenUp(sys.proc, tx)
    {
      ghost var before := trace;
      hide Run, Settled, TransactionGone, AllNew, AllOld;
      ok := Write(at, tx, tx, disk.(journal := None));
      if ok { FinishedInstall(origin, before, Proceed); }
    }

    method DropPreparedInventory(staging: nat)
      requires Valid() && sys.proc.Installing? && sys.proc.at == DropPrepared && sys.proc.tx.staging == staging
      modifies this
      ensures Valid() && old(trace) <= trace
      ensures sys.proc.Installing? && sys.proc.at == DropStaging && sys.proc.tx.staging == staging
      ensures disk == old(disk) || disk == old(disk).(prepared := old(disk).prepared - {staging})
      ensures reliable ==> disk == old(disk).(prepared := old(disk).prepared - {staging})
    {
      hide Run;
      var _ := Write(DropPrepared, sys.proc.tx, sys.proc.tx, disk.(prepared := disk.prepared - {staging}));
    }

    method DropStagedFiles(staging: nat)
      requires Valid() && sys.proc.Installing? && sys.proc.at == DropStaging && sys.proc.tx.staging == staging
      modifies this
      ensures Valid() && sys.proc == Idle && old(trace) <= trace && DiskOk(disk) && AdmittedOrAnchored(disk)
      ensures disk == old(disk) || disk == old(disk).(staging := old(disk).staging - {staging})
      ensures reliable ==> disk == old(disk).(staging := old(disk).staging - {staging})
    {
      ghost var tx := sys.proc.tx;
      LastStep(origin, trace, disk, tx);
      InstallLeaves(origin, trace);
      TidyingKeepsOutcome(disk, disk.(staging := disk.staging - {staging}), tx);
      hide Run, DiskOk, InstallStep, InstallCatch, AdmittedOrAnchored;
      var fate := Outlook();
      if fate.FailsBefore? {
        Took(Fault);
        return;
      }
      disk := disk.(staging := disk.staging - {staging});
      if fate.FailsAfter? {
        Took(LateFault);
      } else {
        Took(Proceed);
      }
    }

    /** The finally block: whatever of this attempt is still staged goes away, as far as it can be removed. */
    method Finally(staging: nat, ghost tx: Journal)
      requires Valid() && GivenUp(sys.proc, tx) && tx.staging == staging
      modifies this
      ensures Valid() && sys.proc == Idle && old(trace) <= trace && DiskOk(disk) && AdmittedOrAnchored(disk)
      ensures disk == old(disk).(prepared := disk.prepared, staging := disk.staging)
      ensures Settled(old(disk)) ==> Settled(disk)
      ensures AllNew(old(disk), tx) ==> AllNew(disk, tx)
      ensures AllOld(old(disk), tx) ==> AllOld(disk, tx)
      ensures TransactionGone(old(disk), tx) ==> TransactionGone(disk, tx)
      ensures RecoveryAdmits(old(disk)) == RecoveryAdmits(disk)
    {
      hide Settled, AllNew, AllOld, TransactionGone, RecoveryAdmits, DiskOk, Run, AdmittedOrAnchored;
      DropPreparedInventory(staging);
      DropStagedFiles(staging);
      TidyingKeepsOutcome(old(disk), disk, tx);
    }

    // ----- Recovery -----

    /**
     Refused exactly when an entry check fails. A recovery that ends without a
     thrown write has committed or restored everything. After an interrupted one
     another recovery or install can begin unless the disk is in the withdrawn
     window or stranded.
     */
    method RecoverJournal(smokeOk: bool) returns (outcome: RecoveryOutcome)
      requires Valid() && sys.proc == Idle
      modifies this
      ensures Valid() && sys.proc == Idle && old(trace) <= trace
      ensures outcome == NoJournal <==> old(disk.journal).None?
      ensures outcome == Refused <==> old(disk.journal).Some? && !RecoveryAdmits(old(disk))
      ensures outcome == NoJournal || outcome == Refused ==> disk == old(disk)
      ensures outcome == Recovered || outcome == RetainedUntrusted ==>
                var j := old(disk).journal.value;
                && Settled(disk) && TransactionGone(disk, j)
                && (AllOld(disk, j) || (AllNew(disk, j) && smokeOk && NewIsDurable(old(disk), j)))
                && (reliable ==> (AllNew(disk, j) <==> smokeOk && NewIsDurable(old(disk), j)))
      ensures outcome == RetainedUntrusted ==>
                var j := old(disk).journal.value;
                Untrusted(old(disk), j) && AllOld(disk, j) && j.target in disk.versions
      ensures outcome == Recovered ==>
                var j := old(disk).journal.value;
                AllOld(disk, j) ==> Reinstallable(disk, j.target) && !Untrusted(old(disk), j)
      ensures disk.staging <= old(disk).staging && disk.prepared <= old(disk).prepared
      ensures outcome == Interrupted ==> !reliable
      ensures outcome == Interrupted ==>
                (TakenUp(disk) <==>
                 if disk.journal.Some? then !WithdrawnWindow(disk, disk.journal.value) else !Stranded(disk))
      ensures DiskOk(disk) || Stranded(disk)
    {
      hide Run, LauncherOk, RecoveryStep, TreeOk, Stranded, Settled, TransactionGone, AllNew, AllOld, DiskOk;
      hide TakenUp, AdmittedOrWithdrawn, WithdrawnWindow, NewIsDurable, CanCommit, Reinstallable;
      if disk.journal.None? {
        EveryDisk(origin, trace);
        return NoJournal;
      }
      var j := disk.journal.value;
      if !JournalOk(j) || !LauncherOk(disk, j) {
        EveryDisk(origin, trace);
        return Refused;
      }
      var badTree := j.target in disk.versions && !TreeOk(disk, j.target);
      var committing := CanCommit(disk, j);
      CommitIsDurable(disk, j);
      OldOrNew(origin, trace, j);
      Took(BeginRecovery);
      outcome := Recovered;
      var done := false;
      if committing { done := CompleteCommit(j, smokeOk); }
      if !done { outcome := Restore(j, badTree); }
      EveryDisk(origin, trace);
      if outcome == Interrupted { InterruptedTakenUp(origin, trace); }
    }

    /** Relinks the launcher and drops the journal; any throw here falls through to the restore path. */
    method CompleteCommit(j: Journal, smokeOk: bool) returns (done: bool)
      requires Valid() && sys.proc.Recovering? && sys.proc.stage == Relink && sys.proc.rtx == j
      requires disk.journal.Some? && NewIsDurable(disk, j)
      modifies this
      ensures Valid() && old(trace) <= trace && (done ==> smokeOk) && (reliable ==> done == smokeOk)
      ensures done ==> sys.proc == Idle && Settled(disk) && TransactionGone(disk, j) && AllNew(disk, j)
      ensures !done ==> sys.proc == old(sys.proc).(stage := BackCurrent)
      ensures !done && reliable ==> disk.journal.Some?
      ensures disk.staging <= old(disk).staging && disk.prepared <= old(disk).prepared
    {
      hide Run, Settled, TransactionGone, AllNew, NewIsDurable;
      done := WriteBack(disk.(launcher := ViaCurrent));
      if !done { return; }
      if !smokeOk {
        Took(SmokeFails);
        return false;
      }
      Took(Proceed);
      done := DropCommitted(j);
    }

    method DropCommitted(j: Journal) returns (done: bool)
      requires Valid() && sys.proc.Recovering? && sys.proc.stage == Forget && sys.proc.rtx == j
      requires disk.journal.Some?
      modifies this
      ensures Valid() && old(trace) <= trace && (!done ==> !reliable)
      ensures done ==> sys.proc == Idle && Settled(disk) && TransactionGone(disk, j) && AllNew(disk, j)
      ensures !done ==> sys.proc == old(sys.proc).(stage := BackCurrent)
      ensures disk.staging <= old(disk).staging && disk.prepared <= old(disk).prepared
    {
      ghost var before := trace;
      ForgetIsNew(origin, trace, sys, j);
      hide Run, Settled, TransactionGone;
      done := WriteBack(disk.(journal := None));
      if done { FinishedRecovery(origin, before, Proceed); }
    }

    /** The restore path, with its journal or without. */
    method Restore(j: Journal, badTree: bool) returns (outcome: RecoveryOutcome)
      requires Valid() && sys.proc.Recovering? && sys.proc.stage == BackCurrent
      requires sys.proc.rtx == j && sys.proc.badTree == badTree
      requires reliable ==> disk.journal.Some?
      modifies this
      ensures Valid() && sys.proc == Idle && old(trace) <= trace
      ensures outcome == Recovered || outcome == RetainedUntrusted || outcome == Interrupted
      ensures outcome == Interrupted ==> !reliable && AdmittedOrWithdrawn(disk)
      ensures outcome != Interrupted ==> Settled(disk) && TransactionGone(disk, j) && AllOld(disk, j)
      ensures outcome != Interrupted ==> (outcome == RetainedUntrusted <==> badTree)
      ensures outcome == RetainedUntrusted ==> j.target in disk.versions
      ensures outcome == Recovered ==> Reinstallable(disk, j.target)
      ensures disk.staging <= old(disk).staging && disk.prepared <= old(disk).prepared
    {
      hide Run, Settled, TransactionGone, Reinstallable;
      var ok := RestorePointers(j);
      if ok { ok := RemoveCandidate(j, badTree); }
      outcome := if !ok then Interrupted else if badTree then RetainedUntrusted else Recovered;
    }

    /** The re-checks of the old tree and of the recorded launcher cannot fail here. */
    method RestorePointers(j: Journal) returns (ok: bool)
      requires Valid() && sys.proc.Recovering? && sys.proc.stage == BackCurrent && sys.proc.rtx == j
      modifies this
      ensures Valid() && old(trace) <= trace && (!ok ==> !reliable && sys.proc == Idle && AdmittedOrWithdrawn(disk))
      ensures ok ==> sys.proc == old(sys.proc).(stage := BackVersion)
      ensures ok ==>
                disk == old(disk).(current := j.oldCurrent, launcher := j.oldLexical, receipt := Some(j.oldReceipt))
      ensures disk.staging <= old(disk).staging && disk.prepared <= old(disk).prepared
    {
      RestoreCannotFail(origin, trace, sys, j);
      hide Run, RestoreLauncher, OldTreeOk, Apply, InstallStep;
      ok := WriteBack(disk.(current := j.oldCurrent));
      if ok { ok := RestoreRecorded(j); }
    }

    method RestoreRecorded(j: Journal) returns (ok: bool)
      requires Valid() && sys.proc.Recovering? && sys.proc.stage == BackLauncher && sys.proc.rtx == j
      modifies this
      ensures Valid() && old(trace) <= trace && (!ok ==> !reliable && sys.proc == Idle && AdmittedOrWithdrawn(disk))
      ensures ok ==> sys.proc == old(sys.proc).(stage := BackVersion)
      ensures ok ==> disk == old(disk).(launcher := j.oldLexical, receipt := Some(j.oldReceipt))
      ensures disk.staging <= old(disk).staging && disk.prepared <= old(disk).prepared
    {
      RestoreCannotFail(origin, trace, sys, j);
      hide Run, RestoreLauncher, OldTreeOk, Apply, InstallStep;
      var link := CheckedLauncher(j.oldLauncher, j.oldLexical);
      ok := WriteBack(disk.(launcher := link.value));
      if !ok { return; }
      ok := WriteBack(disk.(receipt := Some(j.oldReceipt)));
    }

    /** Removes the candidate unless it is not to be trusted; a removal may stop half way. */
    method RemoveCandidate(j: Journal, badTree: bool) returns (ok: bool)
      requires Valid() && sys.proc.Recovering? && sys.proc.stage == BackVersion
      requires sys.proc.rtx == j && sys.proc.badTree == badTree && (reliable ==> disk.journal.Some?)
      requires AllOld(disk, j)
      modifies this
      ensures Valid() && sys.proc == Idle && old(trace) <= trace && (!ok ==> !reliable && AdmittedOrWithdrawn(disk))
      ensures ok ==> Settled(disk) && TransactionGone(disk, j) && AllOld(disk, j)
      ensures ok ==> if badTree then j.target in disk.versions else Reinstallable(disk, j.target)
      ensures disk.staging <= old(disk).staging && disk.prepared <= old(disk).prepared
    {
      hide Run, Settled, TransactionGone, Without, InstallStep, Reinstallable;
      var partly, hasEntry := *, *;
      if partly && !reliable && !badTree && j.target in disk.versions {
        disk := disk.(versions := disk.versions[j.target := Damaged(hasEntry)]);
        Took(RemovePartly(hasEntry));
        RecoveryLeaves(origin, trace, Fault);
        Took(Fault);
        return false;
      }
      ok := WriteBack(if badTree then disk else disk.(versions := Without(disk.versions, j.target)));
      if !ok { return; }
      ok := RemoveRecords(j, badTree);
    }

    method RemoveRecords(j: Journal, badTree: bool) returns (ok: bool)
      requires Valid() && sys.proc.Recovering? && sys.proc.stage == BackStaging
      requires sys.proc.rtx == j && sys.proc.badTree == badTree && (reliable ==> disk.journal.Some?)
      requires AllOld(disk, j)
      modifies this
      ensures Valid() && sys.proc == Idle && old(trace) <= trace && (!ok ==> !reliable && AdmittedOrWithdrawn(disk))
      ensures ok ==> Settled(disk) && TransactionGone(disk, j) && AllOld(disk, j)
      ensures ok ==> if badTree then j.target in disk.versions else Reinstallable(disk, j.target)
      ensures disk.staging <= old(disk).staging && disk.prepared <= old(disk).prepared
    {
      hide Run, Settled, TransactionGone, Apply, InstallStep, Reinstallable;
      ok := WriteBack(disk.(staging := disk.staging - {j.staging}));
      if !ok { return; }
      ok := WriteBack(if badTree then disk else disk.(inventories := disk.inventories - {j.target}));
      if !ok { return; }
      ok := WriteBack(disk.(prepared := disk.prepared - {j.staging}));
      if !ok { return; }
      ok := UnlinkJournal(j);
    }

    /** The last unlink; it throws when the journal is lost already, and nothing else is left to do. */
    method UnlinkJournal(j: Journal) returns (ok: bool)
      requires Valid() && sys.proc.Recovering? && sys.proc.stage == BackJournal && sys.proc.rtx == j
      requires AllOld(disk, j) && (reliable ==> disk.journal.Some?)
      modifies this
      ensures Valid() && sys.proc == Idle && old(trace) <= trace && (!ok ==> !reliable && AdmittedOrWithdrawn(disk))
      ensures ok ==> Settled(disk) && TransactionGone(disk, j) && AllOld(disk, j)
      ensures ok ==> if old(sys.proc).badTree then j.target in disk.versions else Reinstallable(disk, j.target)
      ensures disk.staging <= old(disk).staging && disk.prepared <= old(disk).prepared
    {
      hide Run, Settled, TransactionGone, Reinstallable;
      if disk.journal.None? {
        Took(Proceed);
        return false;
      }
      ghost var before := trace;
      ok := WriteBack(disk.(journal := None));
      if ok { FinishedRecovery(origin, before, Proceed); }
    }

    // ----- Install -----

    method InstallManifest(target: Version, staging: nat, recoverySmoke: bool, repairSmoke: bool,
                           versionSmoke: bool, launcherSmoke: bool)
      returns (outcome: InstallOutcome)
      requires Valid() && sys.proc == Idle
      requires staging !in disk.staging && staging !in disk.prepared
      modifies this
      ensures Valid() && sys.proc == Idle && old(trace) <= trace
      ensures old(disk).receipt.Some? && old(disk).receipt.value.Active? && target < old(disk).receipt.value.current ==>
                outcome == Rejected && disk == old(disk)
      ensures old(disk).journal.Some? && !RecoveryAdmits(old(disk)) ==>
                (outcome == RecoveryFailed || outcome == Rejected) && disk == old(disk)
      ensures outcome == Installed ==>
                && Settled(disk) && disk.receipt.Some? && Named(disk.receipt.value) == Some(target)
                && Resolve(disk) == Some(VersionExe(target))
      ensures outcome == Reverted ==> Settled(disk) && target !in disk.versions
      ensures outcome == Abandoned ==> Settled(disk)
      ensures outcome == NeedsRecovery ==>
                && disk.journal.Some? && disk.journal.value.target == target && DiskOk(disk)
                && (RecoveryAdmits(disk) <==> !AnchorWindow(disk, disk.journal.value))
                && (reliable ==> RecoveryAdmits(disk) && AllOld(disk, disk.journal.value))
      ensures outcome == AlreadyInstalled ==>
                && Settled(disk) && disk.receipt.Some? && Named(disk.receipt.value) == Some(target)
                && Resolve(disk) == Some(VersionExe(target))
      ensures DiskOk(disk) || (Stranded(disk) && (outcome == RecoveryFailed || disk == old(disk)))
      ensures && reliable && old(disk).journal.None? && InstallGate(old(disk), target)
              && target !in old(disk).inventories && repairSmoke && versionSmoke && launcherSmoke
              ==> outcome == Installed
      ensures && reliable && old(disk).journal.None? && ActiveLayoutOk(old(disk))
              && target == old(disk).receipt.value.current && repairSmoke && versionSmoke && launcherSmoke
              ==> outcome == AlreadyInstalled
      ensures && reliable && RecoveryAdmits(old(disk)) && old(disk).journal.value.target == target
              && (old(disk).receipt.Some? && old(disk).receipt.value.Active? ==>
                    target >= old(disk).receipt.value.current)
              && repairSmoke && versionSmoke && launcherSmoke ==>
                var j := old(disk).journal.value;
                outcome == if recoverySmoke && NewIsDurable(old(disk), j) then AlreadyInstalled
                           else if Untrusted(old(disk), j) then RecoveryFailed else Installed
    {
      assert RecoveryAdmits(disk) ==> disk.journal.Some?;
      hide Run, Apply, RecoveryAdmits, TreeOk, Stranded, DiskOk, Resolve, Pending, AllOld, AllNew, TransactionGone;
      hide TakenUp, AnchorWindow, WithdrawnWindow, NewIsDurable, Untrusted;
      EveryDisk(origin, trace);
      if IsDowngrade(disk, target) { return Rejected; }
      var recovery := RecoverJournal(recoverySmoke);
      if recovery == Recovered || recovery == RetainedUntrusted {
        SettledIsOk(disk);
        RecoveredReceipt(old(disk), disk, old(disk).journal.value);
      }
      if recovery == Refused || recovery == RetainedUntrusted || recovery == Interrupted { return RecoveryFailed; }
      if disk.receipt.Some? && Named(disk.receipt.value) == Some(target) {
        outcome := Reinstall(target, repairSmoke, versionSmoke, launcherSmoke);
        if outcome != Rejected { SettledIsOk(disk); }
      } else if !InstallGate(disk, target) || staging in disk.staging || staging in disk.prepared {
        outcome := Rejected;
      } else {
        outcome := Attempt(target, staging, repairSmoke, versionSmoke, launcherSmoke);
      }
    }

    /** The active version again: checks its layout and relinks the launcher. */
    method Reinstall(target: Version, repairSmoke: bool, versionSmoke: bool, launcherSmoke: bool)
      returns (outcome: InstallOutcome)
      requires Valid() && sys.proc == Idle && disk.journal.None?
      requires disk.receipt.Some? && Named(disk.receipt.value) == Some(target)
      modifies this
      ensures Valid() && sys.proc == Idle && old(trace) <= trace
      ensures disk == old(disk) || disk == old(disk).(launcher := ViaCurrent)
      ensures outcome == Rejected || outcome == Abandoned || outcome == AlreadyInstalled
      ensures outcome == Rejected ==> disk == old(disk)
      ensures outcome == Rejected <==> !ActiveLayoutOk(old(disk))
      ensures outcome != Rejected ==> Settled(disk)
      ensures outcome == AlreadyInstalled ==>
                && disk.launcher == ViaCurrent && Resolve(disk) == Some(VersionExe(target))
                && versionSmoke && launcherSmoke && (old(disk).launcher == NoLink ==> repairSmoke)
      ensures reliable && ActiveLayoutOk(old(disk)) && repairSmoke && versionSmoke && launcherSmoke ==>
                outcome == AlreadyInstalled
    {
      hide Run;
      if !ActiveLayoutOk(disk) { return Rejected; }
      if disk.launcher == NoLink {
        var fate := Outlook();
        if fate.FailsBefore? { return Abandoned; }
        disk := disk.(launcher := ViaCurrent);
        Took(RelinkActive);
        if fate.FailsAfter? || !repairSmoke { return Abandoned; }
      }
      if !versionSmoke { return Abandoned; }
      // The link is written once more; on a throw the same link is put back.
      var fate := Outlook();
      outcome := if fate.Works? && launcherSmoke then AlreadyInstalled else Abandoned;
    }

    /** What a throw leaves after the finally block. */
    method GiveUp(staging: nat, ghost tx: Journal) returns (outcome: InstallOutcome)
      requires Valid() && GivenUp(sys.proc, tx) && tx.staging == staging
      modifies this
      ensures Valid() && sys.proc == Idle && old(trace) <= trace && DiskOk(disk) && AdmittedOrAnchored(disk)
      ensures outcome == if disk.journal.Some? then NeedsRecovery else Abandoned
      ensures outcome == NeedsRecovery ==> disk.journal.value.target == tx.target
      ensures outcome == Abandoned ==> Settled(disk)
      ensures disk.journal == old(disk.journal)
      ensures AllOld(old(disk), tx) ==> AllOld(disk, tx)
    {
      ThrownOwnsJournal(origin, trace, sys);
      hide Run, AllOld, Pending, Settled, AdmittedOrAnchored;
      Finally(staging, tx);
      outcome := if disk.journal.Some? then NeedsRecovery else Abandoned;
    }

    /** The try block of an install that passed its gate, and its finally block. */
    method Attempt(target: Version, staging: nat, repairSmoke: bool, versionSmoke: bool, launcherSmoke: bool)
      returns (outcome: InstallOutcome)
      requires Valid() && sys.proc == Idle && InstallGate(disk, target)
      requires staging !in disk.staging && staging !in disk.prepared
      modifies this
      ensures Valid() && sys.proc == Idle && old(trace) <= trace && DiskOk(disk) && AdmittedOrAnchored(disk)
      ensures outcome == Installed ==>
                && Settled(disk) && disk.receipt.Some? && Named(disk.receipt.value) == Some(target)
                && Resolve(disk) == Some(VersionExe(target))
      ensures outcome == Reverted ==> Settled(disk) && target !in disk.versions
      ensures outcome == Abandoned ==> Settled(disk)
      ensures outcome == NeedsRecovery ==>
                && disk.journal.Some? && disk.journal.value.target == target
                && (reliable ==> RecoveryAdmits(disk) && AllOld(disk, disk.journal.value))
      ensures outcome == Installed || outcome == Reverted || outcome == Abandoned || outcome == NeedsRecovery
      ensures reliable && target !in old(disk).inventories && repairSmoke && versionSmoke && launcherSmoke ==>
                outcome == Installed
    {
      ghost var tx := MakeJournal(disk, target, staging);
      assert tx.target == target && tx.staging == staging;
      hide Run, InstallGate, RecoveryAdmits, Settled, AllOld, Resolve, DiskOk, MakeJournal, AdmittedOrAnchored;
      var prepared := Prepare(target, staging, repairSmoke);
      if prepared.None? {
        outcome := GiveUp(staging, tx);
        return;
      }
      var published := Publish(prepared.value);
      if published.None? {
        outcome := GiveUp(staging, tx);
      } else if !versionSmoke {
        outcome := FailVersionSmoke(published.value);
      } else {
        outcome := Commit(published.value, launcherSmoke);
      }
    }

    /** Everything up to and including the journal; None when a check, a write or the repaired launcher failed. */
    method Prepare(target: Version, staging: nat, repairSmoke: bool) returns (journal: Option<Journal>)
      requires Valid() && sys.proc == Idle && InstallGate(disk, target)
      requires staging !in disk.staging && staging !in disk.prepared
      modifies this
      ensures Valid() && old(trace) <= trace
      ensures journal.None? ==>
                && sys.proc.Installing? && sys.proc.at == DropPrepared
                && sys.proc.tx.staging == staging && sys.proc.tx.target == target
      ensures journal.Some? ==>
                && journal.value.target == target && journal.value.staging == staging
                && sys.proc == Installing(PublishInventory, journal.value)
      ensures reliable && repairSmoke && target !in old(disk).inventories ==> journal.Some?
      ensures reliable && journal.None? ==> disk.journal.None?
    {
      ghost var tx := MakeJournal(disk, target, staging);
      var first := FirstStage(disk, target);
      Took(BeginInstall(target, staging));
      journal := None;
      hide Run, InstallStep, InstallGate, MakeJournal;
      if first == ClaimRoot {
        var ok := WriteReceipt(ClaimRoot, tx, Initializing);
        if !ok { return; }
      } else if first == RepairLauncher {
        var ok := RepairPublicLauncher(tx, repairSmoke);
        if !ok { return; }
      }
      journal := StageFiles(target, staging, tx);
    }

    method RepairPublicLauncher(ghost tx: Journal, repairSmoke: bool) returns (ok: bool)
      requires Valid() && sys.proc == Installing(RepairLauncher, tx)
      modifies this
      ensures Valid() && old(trace) <= trace && disk.journal == old(disk.journal)
      ensures disk.inventories == old(disk.inventories)
      ensures ok ==> sys.proc == Installing(MakeStaging, tx)
      ensures !ok ==> GivenUp(sys.proc, tx)
      ensures reliable ==> ok == repairSmoke
    {
      hide Run;
      ok := ActivatePublicLauncher(RepairLauncher, tx);
      if !ok { return; }
      if repairSmoke {
        Took(Proceed);
      } else {
        Took(SmokeFails);
        ok := false;
      }
    }

    method StageFiles(target: Version, staging: nat, ghost tx: Journal) returns (journal: Option<Journal>)
      requires Valid() && sys.proc == Installing(MakeStaging, tx) && tx.target == target && tx.staging == staging
      requires disk.journal.None?
      modifies this
      ensures Valid() && old(trace) <= trace
      ensures journal.None? ==>
                && sys.proc.Installing? && sys.proc.at == DropPrepared
                && sys.proc.tx.staging == staging && sys.proc.tx.target == target
      ensures journal.Some? ==>
                && journal.value.target == target && journal.value.staging == staging
                && sys.proc == Installing(PublishInventory, journal.value)
      ensures reliable ==> journal.Some? == (target !in old(disk.inventories))
      ensures reliable && journal.None? ==> disk.journal.None?
    {
      hide Run;
      journal := None;
      var ok := Write(MakeStaging, tx, tx, disk.(staging := disk.staging + {staging}));
      if !ok { return; }
      if target in disk.inventories {
        Took(Proceed);
        return;
      }
      ok := Write(PrepareInventory, tx, tx, disk.(prepared := disk.prepared + {staging}));
      if !ok { return; }
      var written := MakeJournal(disk, target, staging);
      ok := Write(WriteJournal, tx, written, disk.(journal := Some(written)));
      if ok { journal := Some(written); }
    }

    /** The disk once inventory and version have their final names and the journal says so. */
    ghost function FiledDisk(d: Disk, tx: Journal): Disk {
      d.(prepared := d.prepared - {tx.staging}, inventories := d.inventories + {tx.target},
         staging := d.staging - {tx.staging}, versions := d.versions[tx.target := Intact],
         journal := Some(tx.(phase := VersionPublished)))
    }

    /** The disk once `current` is switched while the launcher is parked on the old executable. */
    ghost function SwitchedDisk(d: Disk, tx: Journal): Disk {
      d.(launcher := if tx.oldLauncher.Some? then Anchor(tx.oldLauncher.value) else d.launcher,
         current := Some(tx.target), journal := Some(tx.(phase := CurrentActivated)))
    }

    method Publish(tx: Journal) returns (published: Option<Journal>)
      requires Valid() && sys.proc == Installing(PublishInventory, tx)
      modifies this
      ensures Valid() && old(trace) <= trace
      ensures published.Some? ==>
                && published == Some(tx.(phase := CurrentActivated))
                && sys.proc == Installing(SmokeVersion, published.value)
                && disk == SwitchedDisk(FiledDisk(old(disk), tx), tx)
      ensures published.None? ==> !reliable && GivenUp(sys.proc, tx)
    {
      hide Run, Anchor, InstallStep, Apply;
      published := PublishFiles(tx);
      if published.Some? { published := PublishPointer(published.value); }
    }

    method PublishFiles(tx: Journal) returns (published: Option<Journal>)
      requires Valid() && sys.proc == Installing(PublishInventory, tx)
      modifies this
      ensures Valid() && old(trace) <= trace
      ensures published.Some? ==>
                && published == Some(tx.(phase := VersionPublished))
                && sys.proc == Installing(AnchorLauncher, published.value)
                && disk == FiledDisk(old(disk), tx)
      ensures published.None? ==> !reliable && GivenUp(sys.proc, tx)
    {
      hide Run, InstallStep, Apply;
      var ok := MoveInventory(tx);
      if !ok { return None; }
      ok := MoveVersion(tx);
      if !ok { return None; }
      published := Advance(JournalPublished, tx, VersionPublished);
    }

    /** The launcher is parked first: `current` must not expose the candidate through it. */
    method PublishPointer(tx: Journal) returns (published: Option<Journal>)
      requires Valid() && sys.proc == Installing(AnchorLauncher, tx)
      modifies this
      ensures Valid() && old(trace) <= trace
      ensures published.Some? ==>
                && published == Some(tx.(phase := CurrentActivated))
                && sys.proc == Installing(SmokeVersion, published.value)
                && disk == SwitchedDisk(old(disk), tx)
      ensures published.None? ==> !reliable && GivenUp(sys.proc, tx)
    {
      hide Run, Anchor, InstallStep, Apply;
      var ok := AnchorOld(tx);
      if !ok { return None; }
      ok := RestoreLink(SwitchCurrent, tx, Some(tx.target));
      if !ok { return None; }
      published := Advance(JournalCurrent, tx, CurrentActivated);
    }

    method FailVersionSmoke(tx: Journal) returns (outcome: InstallOutcome)
      requires Valid() && sys.proc == Installing(SmokeVersion, tx)
      modifies this
      ensures Valid() && sys.proc == Idle && old(trace) <= trace && DiskOk(disk) && AdmittedOrAnchored(disk)
      ensures outcome == NeedsRecovery || outcome == Abandoned
      ensures outcome == NeedsRecovery ==> disk.journal.Some? && disk.journal.value.target == tx.target
      ensures outcome == Abandoned ==> Settled(disk)
      ensures reliable ==>
                && outcome == NeedsRecovery && RecoveryAdmits(disk)
                && disk.journal == Some(tx.(phase := RolledBack)) && AllOld(disk, disk.journal.value)
    {
      hide Run, RecoveryAdmits, InstallStep, Settled, DiskOk, AdmittedOrAnchored;
      Took(SmokeFails);
      ghost var undone := Undo(tx);
      outcome := GiveUp(tx.staging, tx);
      if undone { UndoneIsRecoverable(origin, trace, sys); }
    }

    /** The catch block of the pre-commit smoke run; the journal stays for an explicit recovery. */
    method Undo(tx: Journal) returns (ok: bool)
      requires Valid() && sys.proc == Installing(JournalRolledBack, tx)
      modifies this
      ensures Valid() && old(trace) <= trace && (!ok ==> !reliable)
      ensures GivenUp(sys.proc, tx)
      ensures ok ==> disk.journal == Some(tx.(phase := RolledBack)) && AllOld(disk, tx)
    {
      hide Run, InstallStep, Apply, AllOld;
      var journal := Advance(JournalRolledBack, tx, RolledBack);
      if journal.None? { return false; }
      ok := UndoPointers(journal.value);
      PhaseDoesNotMatter(disk, tx, RolledBack);
    }

    method UndoPointers(tx: Journal) returns (ok: bool)
      requires Valid() && sys.proc == Installing(UndoCurrent, tx)
      modifies this
      ensures Valid() && old(trace) <= trace && (!ok ==> !reliable)
      ensures GivenUp(sys.proc, tx)
      ensures ok ==> disk.journal == Some(tx) && AllOld(disk, tx)
    {
      hide Run, InstallStep, Apply;
      UndoKeepsReceipt(origin, trace, sys, tx);
      ok := RestoreLink(UndoCurrent, tx, tx.oldCurrent);
      if !ok { return; }
      ok := PutBackLauncher(UndoLauncher, tx);
    }

    method Commit(tx: Journal, launcherSmoke: bool) returns (outcome: InstallOutcome)
      requires Valid() && sys.proc == Installing(SmokeVersion, tx) && disk.journal == Some(tx)
      modifies this
      ensures Valid() && sys.proc == Idle && old(trace) <= trace && DiskOk(disk) && AdmittedOrAnchored(disk)
      ensures outcome == Installed || outcome == Reverted || outcome == Abandoned || outcome == NeedsRecovery
      ensures reliable ==> outcome == if launcherSmoke then Installed else Reverted
      ensures outcome == Installed || outcome == Reverted || outcome == Abandoned ==> Settled(disk)
      ensures outcome == Installed ==> AllNew(disk, tx) && tx.newReceipt.Active? && tx.newReceipt.current == tx.target
      ensures outcome == Installed ==> Resolve(disk) == Some(VersionExe(tx.target))
      ensures outcome == Reverted ==> AllOld(disk, tx) && tx.target !in disk.versions
      ensures outcome == NeedsRecovery ==> disk.journal.Some? && disk.journal.value.target == tx.target
    {
      TargetIsNamed(origin, trace, sys, tx);
      hide Run, InstallStep, Settled, DiskOk, Apply, TransactionGone, AllOld, AllNew, Resolve, AdmittedOrAnchored;
      var committed := CommitPointer(tx);
      if committed.None? {
        outcome := GiveUp(tx.staging, tx);
      } else {
        outcome := CommitLauncher(committed.value, launcherSmoke);
        PhaseDoesNotMatter(disk, tx, ReceiptCommitted);
        if outcome == Installed { NewResolves(disk, tx); }
      }
    }

    /** The second half of the commit: the launcher, or the way back. */
    method CommitLauncher(tx: Journal, launcherSmoke: bool) returns (outcome: InstallOutcome)
      requires Valid() && sys.proc == Installing(ActivateLauncher, tx) && disk.journal == Some(tx)
      modifies this
      ensures Valid() && sys.proc == Idle && old(trace) <= trace && DiskOk(disk) && AdmittedOrAnchored(disk)
      ensures outcome == Installed || outcome == Reverted || outcome == Abandoned || outcome == NeedsRecovery
      ensures reliable ==> outcome == if launcherSmoke then Installed else Reverted
      ensures outcome == Installed || outcome == Reverted || outcome == Abandoned ==> Settled(disk)
      ensures outcome == Installed ==> AllNew(disk, tx)
      ensures outcome == Reverted ==> AllOld(disk, tx) && tx.target !in disk.versions
      ensures outcome == NeedsRecovery ==> disk.journal.Some? && disk.journal.value.target == tx.target
    {
      hide Run, InstallStep, Settled, DiskOk, Apply, TransactionGone, AllOld, AllNew, Resolve, AdmittedOrAnchored;
      var active := Activate(tx, launcherSmoke);
      var done := false;
      if active {
        done := Finish(tx);
      } else {
        done := RollbackPublishedTransaction(tx);
      }
      if done {
        Finally(tx.staging, tx);
        outcome := if active then Installed else Reverted;
      } else {
        outcome := GiveUp(tx.staging, tx);
      }
    }

    ghost method PassVersionSmoke(tx: Journal)
      requires Valid() && sys.proc == Installing(SmokeVersion, tx)
      modifies `trace, `sys
      ensures Valid() && old(trace) <= trace && sys.proc == Installing(CommitReceipt, tx)
    {
      hide Run;
      Took(Proceed);
    }

    /** The receipt is the commit; the journal follows it. */
    method CommitPointer(tx: Journal) returns (committed: Option<Journal>)
      requires Valid() && sys.proc == Installing(SmokeVersion, tx) && disk.journal == Some(tx)
      modifies this
      ensures Valid() && old(trace) <= trace
      ensures committed.Some? ==>
                && committed == Some(tx.(phase := ReceiptCommitted)) && disk.journal == committed
                && sys.proc == Installing(ActivateLauncher, committed.value)
      ensures committed.None? ==>
                !reliable && GivenUp(sys.proc, tx)
    {
      hide Run, InstallStep, Apply;
      PassVersionSmoke(tx);
      var ok := WriteReceipt(CommitReceipt, tx, tx.newReceipt);
      if !ok { return None; }
      committed := Advance(JournalReceipt, tx, ReceiptCommitted);
    }

    /** The public launcher runs the candidate; a throw or a failing smoke run leads to the rollback. */
    method Activate(tx: Journal, launcherSmoke: bool) returns (ok: bool)
      requires Valid() && sys.proc == Installing(ActivateLauncher, tx) && disk.journal == Some(tx)
      modifies this
      ensures Valid() && old(trace) <= trace && disk.journal == Some(tx)
      ensures (ok ==> launcherSmoke) && (reliable ==> ok == launcherSmoke)
      ensures if ok then sys.proc == Installing(JournalLauncher, tx)
              else sys.proc.Installing? && sys.proc == Installing(PubCurrent, tx)
    {
      hide Run;
      ok := ActivatePublicLauncher(ActivateLauncher, tx);
      ActivationKeepsJournal(origin, trace, sys, tx, ok);
      if !ok { return; }
      if launcherSmoke {
        Took(Proceed);
      } else {
        Took(SmokeFails);
        ok := false;
      }
    }

    method Finish(tx: Journal) returns (ok: bool)
      requires Valid() && sys.proc == Installing(JournalLauncher, tx)
      modifies this
      ensures Valid() && old(trace) <= trace && (!ok ==> !reliable)
      ensures GivenUp(sys.proc, tx)
      ensures ok ==> Settled(disk) && AllNew(disk, tx)
    {
      hide Run, InstallStep, Settled;
      var journal := Advance(JournalLauncher, tx, LauncherActivated);
      if journal.None? { return false; }
      journal := Advance(JournalCommitted, journal.value, Committed);
      if journal.None? { return false; }
      ok := CloseJournal(RemoveJournal, journal.value);
    }

    method RollbackPublishedTransaction(tx: Journal) returns (ok: bool)
      requires Valid() && sys.proc == Installing(PubCurrent, tx) && disk.journal == Some(tx)
      modifies this
      ensures Valid() && old(trace) <= trace && (!ok ==> !reliable)
      ensures GivenUp(sys.proc, tx)
      ensures ok ==>
                && Settled(disk) && TransactionGone(disk, tx) && AllOld(disk, tx)
                && tx.target !in disk.versions && tx.target !in disk.inventories
    {
      hide Run, InstallStep, Apply, Settled, TransactionGone, AllOld;
      ok := RestorePublished(tx);
      if ok { ok := RemovePublished(tx); }
    }

    method RestorePublished(tx: Journal) returns (ok: bool)
      requires Valid() && sys.proc == Installing(PubCurrent, tx) && disk.journal.Some?
      modifies this
      ensures Valid() && old(trace) <= trace && (!ok ==> !reliable && GivenUp(sys.proc, tx))
      ensures ok ==>
                && disk == old(disk).(current := tx.oldCurrent, launcher := tx.oldLexical,
                                      receipt := Some(tx.oldReceipt))
                && sys.proc == Installing(PubVersion, tx)
    {
      hide Run, InstallStep, Apply;
      ok := RestoreLink(PubCurrent, tx, tx.oldCurrent);
      if !ok { return; }
      ok := PutBackLauncher(PubLauncher, tx);
      if !ok { return; }
      ok := WriteReceipt(PubReceipt, tx, tx.oldReceipt);
    }

    method RemovePublished(tx: Journal) returns (ok: bool)
      requires Valid() && sys.proc == Installing(PubVersion, tx) && disk.journal.Some?
      modifies this
      ensures Valid() && old(trace) <= trace && (!ok ==> !reliable)
      ensures GivenUp(sys.proc, tx)
      ensures ok ==>
                && Settled(disk) && TransactionGone(disk, tx) && AllOld(disk, tx)
                && tx.target !in disk.versions && tx.target !in disk.inventories
    {
      hide Run, InstallStep, Settled, TransactionGone, AllOld;
      ok := RemoveVersion(tx);
      if !ok { return; }
      ok := RemoveInventory(tx);
      if !ok { return; }
      ok := CloseJournal(PubJournal, tx);
    }
  }
}
