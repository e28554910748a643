/**
 Which disks recovery refuses, by which failures installs and recoveries get
 there, and the exact condition under which a disk is ever taken up again.
 */
module StandaloneRefusal {
  import opened Wrappers
  import opened StandaloneInstall
  import opened StandaloneInvariant
  import opened StandaloneSafety

  // ----- The two windows -----

  /** Re-anchored directly at the old version before the journal left `VersionPublished`. */
  predicate AnchorWindow(d: Disk, j: Journal) {
    j.phase == VersionPublished && j.oldCurrent.Some? && d.launcher == Direct(j.oldCurrent.value)
  }

  /** A late recovery of a first install that already withdrew `current`. */
  predicate WithdrawnWindow(d: Disk, j: Journal) {
    FinalPhase(j.phase) && j.oldCurrent.None? && d.current.None?
  }

  /** Exactly two windows make the entry checks refuse. */
  lemma RefusedExactly(d: Disk)
    requires d.journal.Some? && Pending(d, d.journal.value)
    ensures RecoveryAdmits(d) <==> !AnchorWindow(d, d.journal.value) && !WithdrawnWindow(d, d.journal.value)
  {
  }

  /** A refusing recovery changes nothing, and so neither it nor an install ever leaves that disk. */
  lemma {:induction false} RefusedForever(s: State, events: seq<Event>)
    requires s.proc == Idle && s.disk.journal.Some? && !RecoveryAdmits(s.disk)
    ensures Run(s, events) == s
    decreases |events|
  {
    if events != [] {
      RefusedForever(s, events[..|events| - 1]);
    }
  }

  // ----- What is taken up again -----

  /** Recovery takes the journal up, or there is none and some version passes the checks of an install. */
  ghost predicate TakenUp(d: Disk) {
    RecoveryAdmits(d) || exists target :: InstallGate(d, target)
  }

  lemma NewerVersion(versions: set<Version>, floor: Version) returns (v: Version)
    ensures v > floor && forall w: Version :: w in versions ==> w < v
    decreases |versions|
  {
    v := floor + 1;
    if w: Version :| w in versions {
      v := NewerVersion(versions - {w}, if w < floor then floor else w);
      assert forall u :: u in versions && u != w ==> u in versions - {w};
    }
  }

  lemma SettledIsTakenUp(d: Disk)
    requires Settled(d)
    ensures TakenUp(d)
  {
    var floor := match Pointed(d) case None => 0 case Some(v) => v;
    var target := NewerVersion(d.versions.Keys, floor);
    assert InstallGate(d, target);
  }

  lemma StrandedIsNot(d: Disk)
    requires Stranded(d)
    ensures !TakenUp(d)
  {
    hide TreeOk;
  }

  /**
   After any run at all, recovery takes the journal up or an install can begin,
   exactly when a pending disk is in neither window, and a disk without a journal
   has `current` at what the receipt names.
   */
  lemma RecoverableExactly(s: State, events: seq<Event>)
    requires Start(s)
    ensures var d := Run(s, events).disk;
            TakenUp(d) <==>
            if d.journal.Some? then !AnchorWindow(d, d.journal.value) && !WithdrawnWindow(d, d.journal.value)
            else d.current == Pointed(d)
  {
    var d := Run(s, events).disk;
    EveryDisk(s, events);
    PointerDecides(s, events);
    if d.journal.Some? {
      assert DiskOk(d) && Pending(d, d.journal.value) by { hide Run, Pending, Stranded; }
      hide Run, Pending;
      RefusedExactly(d);
      assert forall target :: !InstallGate(d, target);
    } else {
      hide Run;
      if DiskOk(d) { SettledIsTakenUp(d); } else { StrandedIsNot(d); }
    }
  }

  /** What is not taken up stays as it is, whatever is tried. */
  lemma NeverTakenUp(s: State, events: seq<Event>, more: seq<Event>)
    requires Start(s) && Run(s, events).proc == Idle && !TakenUp(Run(s, events).disk)
    ensures Run(Run(s, events), more) == Run(s, events)
  {
    var r := Run(s, events);
    EveryDisk(s, events);
    hide Run, Pending, Stranded;
    if r.disk.journal.Some? {
      RefusedForever(r, more);
    } else {
      if DiskOk(r.disk) { SettledIsTakenUp(r.disk); }
      StrandedForever(r, more);
    }
  }

  // ----- How an install gets there -----

  predicate Interrupts(e: Event) { e == Crash || e == Fault || e == LateFault }

  /** The launcher is anchored at the old version, and the journal does not say so yet. */
  predicate Anchored(at: Stage) { at == SwitchCurrent || at == JournalCurrent }

  /** The step that anchors and the one that switches `current`: their effect stays when they throw late. */
  predicate AnchoredAfter(at: Stage, e: Event) {
    if e == LateFault then at == AnchorLauncher || at == SwitchCurrent else Anchored(at)
  }

  lemma StageWindow(d: Disk, at: Stage, tx: Journal)
    requires InstallingOk(d, at, tx) && !BeforeJournal(at) && !InFinally(at)
    ensures d.journal == Some(tx) && Pending(d, tx) && !WithdrawnWindow(d, tx)
    ensures AnchorWindow(d, tx) <==> tx.oldReceipt.Active? && Anchored(at)
  {
    hide Settled, TreeOk;
  }

  lemma BeforeJournalHasNone(d: Disk, at: Stage, tx: Journal)
    requires InstallingOk(d, at, tx) && BeforeJournal(at)
    ensures d.journal.None?
  {
    hide ActiveLayoutOk;
  }

  predicate EntersFinally(at: Stage) {
    at == UndoLauncher || at == PubCurrent || at == PubLauncher
  }

  lemma RestoreKeepsJournal(d: Disk, target: Option<Exe>, lexical: Link)
    ensures var restored := RestoreLauncher(d, target, lexical);
            restored.Some? ==> restored.value.journal == d.journal
  {
  }

  lemma FinallyIsEntered(d: Disk, at: Stage, tx: Journal)
    requires !InFinally(at)
    requires var s := InstallStep(d, at, tx); s.proc.Installing? && InFinally(s.proc.at)
    ensures var d' := InstallStep(d, at, tx).disk;
            if EntersFinally(at) then d'.journal == d.journal
            else d'.journal.None? || (BeforeJournal(at) && d'.journal == d.journal)
  {
    hide MakeJournal, RestoreLauncher, OldTreeOk, Without;
    RestoreKeepsJournal(d, tx.oldLauncher, tx.oldLexical);
  }

  lemma EntryPhase(d: Disk, at: Stage, tx: Journal)
    requires InstallingOk(d, at, tx) && EntersFinally(at)
    ensures d.journal == Some(tx) && (tx.phase == RolledBack || tx.phase == ReceiptCommitted)
  {
    hide Settled, Pending;
  }

  /** The steps into the finally block leave no journal, or one in a phase of neither window. */
  lemma IntoFinally(d: Disk, at: Stage, tx: Journal)
    requires InstallingOk(d, at, tx) && !InFinally(at)
    requires var s := InstallStep(d, at, tx); s.proc.Installing? && InFinally(s.proc.at)
    ensures var d' := InstallStep(d, at, tx).disk;
            d'.journal.Some? ==> d'.journal.value.phase == RolledBack || d'.journal.value.phase == ReceiptCommitted
  {
    hide InstallStep, InstallingOk;
    FinallyIsEntered(d, at, tx);
    if BeforeJournal(at) { BeforeJournalHasNone(d, at, tx); }
    if EntersFinally(at) { EntryPhase(d, at, tx); }
  }

  lemma StepAnchors(d: Disk, at: Stage, tx: Journal)
    requires !InFinally(at)
    ensures var s := InstallStep(d, at, tx);
            && s.proc.Installing?
            && (Anchored(s.proc.at) <==> at == AnchorLauncher || at == SwitchCurrent)
            && (Anchored(s.proc.at) ==> s.proc.tx == tx && !BeforeJournal(s.proc.at) && !InFinally(s.proc.at))
            && (at == AnchorLauncher || at == SwitchCurrent ==> s.proc.tx == tx)
  {
  }

  lemma AfterStepWindow(d: Disk, at: Stage, tx: Journal)
    requires InstallingOk(d, at, tx) && !InFinally(at)
    ensures InstallStep(d, at, tx).proc.Installing?
    ensures var d' := InstallStep(d, at, tx).disk;
            if d'.journal.Some? then
              && Pending(d', d'.journal.value) && !WithdrawnWindow(d', d'.journal.value)
              && (AnchorWindow(d', d'.journal.value) <==> tx.oldReceipt.Active? && AnchoredAfter(at, LateFault))
            else !AnchoredAfter(at, LateFault)
  {
    var s := InstallStep(d, at, tx);
    hide InstallStep, InstallingOk, Pending, Settled, LauncherOk;
    InstallStepKeepsInv(d, at, tx);
    StepAnchors(d, at, tx);
    InvMeansDiskOk(s);
    if InFinally(s.proc.at) {
      IntoFinally(d, at, tx);
    } else if BeforeJournal(s.proc.at) {
      BeforeJournalHasNone(s.disk, s.proc.at, s.proc.tx);
    } else {
      hide WithdrawnWindow, AnchorWindow, DiskOk;
      StageWindow(s.disk, s.proc.at, s.proc.tx);
    }
  }

  /**
   An install interrupted by a crash or by a write that throws, before its effect
   or after, leaves a journal that recovery refuses exactly when it is an upgrade
   whose launcher is anchored while the journal does not say so yet. The disk is
   then in the anchor window, never in the withdrawn one.
   */
  lemma InterruptedInstall(s: State, events: seq<Event>, e: Event)
    requires Start(s) && Interrupts(e)
    requires Run(s, events).proc.Installing? && !InFinally(Run(s, events).proc.at)
    ensures var p, d := Run(s, events).proc, Apply(Run(s, events), e).disk;
            && (d.journal.Some? && !RecoveryAdmits(d) <==> p.tx.oldReceipt.Active? && AnchoredAfter(p.at, e))
            && (d.journal.Some? ==> !WithdrawnWindow(d, d.journal.value))
  {
    var r := Run(s, events);
    ReachedInv(s, events);
    hide Run;
    InterruptedStep(r.disk, r.proc.at, r.proc.tx, e);
  }

  lemma InterruptedStep(d: Disk, at: Stage, tx: Journal, e: Event)
    requires InstallingOk(d, at, tx) && !InFinally(at) && Interrupts(e)
    ensures var d' := Apply(At(d, at, tx), e).disk;
            && (d'.journal.Some? && !RecoveryAdmits(d') <==> tx.oldReceipt.Active? && AnchoredAfter(at, e))
            && (d'.journal.Some? ==> !WithdrawnWindow(d', d'.journal.value))
  {
    var d' := Apply(At(d, at, tx), e).disk;
    hide InstallingOk, InstallStep, AfterThrow, LateInstallFault;
    hide Pending, RecoveryAdmits, WithdrawnWindow, AnchorWindow;
    if e == LateFault {
      AfterStepWindow(d, at, tx);
      LateKeepsDisk(d, at, tx);
    } else if BeforeJournal(at) {
      ThrowKeepsDisk(d, at, tx);
      BeforeJournalHasNone(d, at, tx);
    } else {
      ThrowKeepsDisk(d, at, tx);
      StageWindow(d, at, tx);
    }
    if d'.journal.Some? { RefusedExactly(d'); }
  }

  /** The finally block does not help: it never touches what the entry checks read, and recovery goes on refusing. */
  lemma {:induction false} RefusedThroughFinally(s: State, events: seq<Event>)
    requires s.proc == Idle || (s.proc.Installing? && InFinally(s.proc.at))
    requires s.disk.journal.Some? && !RecoveryAdmits(s.disk)
    ensures var r := Run(s, events);
            && (r.proc == Idle || (r.proc.Installing? && InFinally(r.proc.at)))
            && r.disk == s.disk.(staging := r.disk.staging, prepared := r.disk.prepared)
            && !RecoveryAdmits(r.disk)
    decreases |events|
  {
    if events != [] {
      RefusedThroughFinally(s, events[..|events| - 1]);
      hide Run, RecoveryAdmits;
      TidyingStep(Run(s, events[..|events| - 1]), events[|events| - 1]);
    }
  }

  lemma TidyingStep(s: State, e: Event)
    requires s.proc == Idle || (s.proc.Installing? && InFinally(s.proc.at))
    requires s.disk.journal.Some? && !RecoveryAdmits(s.disk)
    ensures var r := Apply(s, e);
            && (r.proc == Idle || (r.proc.Installing? && InFinally(r.proc.at)))
            && r.disk == s.disk.(staging := r.disk.staging, prepared := r.disk.prepared)
            && !RecoveryAdmits(r.disk)
  {
    var r := Apply(s, e);
    assert r.disk == s.disk.(staging := r.disk.staging, prepared := r.disk.prepared);
    assert Resolve(s.disk) == Resolve(r.disk) && CurrentPlace(s.disk) == CurrentPlace(r.disk);
  }

  /** An upgrade interrupted there is lost: whatever follows, recovery refuses and no install begins. */
  lemma UpgradeIsLost(s: State, events: seq<Event>, e: Event, more: seq<Event>)
    requires Start(s) && Interrupts(e)
    requires Run(s, events).proc.Installing? && AnchoredAfter(Run(s, events).proc.at, e)
    requires Run(s, events).proc.tx.oldReceipt.Active?
    ensures !TakenUp(Run(Apply(Run(s, events), e), more).disk)
  {
    var r := Run(s, events);
    InterruptedInstall(s, events, e);
    ThrowGoesToFinally(r.disk, r.proc.at, r.proc.tx, e);
    hide Run, RecoveryAdmits;
    RefusedThroughFinally(Apply(r, e), more);
  }

  lemma ThrowGoesToFinally(d: Disk, at: Stage, tx: Journal, e: Event)
    requires Interrupts(e) && AnchoredAfter(at, e)
    ensures var s := Apply(At(d, at, tx), e); s.proc == Idle || (s.proc.Installing? && InFinally(s.proc.at))
  {
  }

  /** No install leaves the withdrawn window behind, not even out of its finally block. */
  predicate NotWithdrawn(d: Disk) {
    d.journal.Some? ==> !WithdrawnWindow(d, d.journal.value)
  }

  lemma {:induction false} InstallNeverWithdraws(s: State, events: seq<Event>)
    requires Start(s) && Run(s, events).proc.Installing?
    ensures NotWithdrawn(Run(s, events).disk)
    decreases |events|
  {
    assert events != [];
    var r, e := Run(s, events[..|events| - 1]), events[|events| - 1];
    assert Run(s, events) == Apply(r, e);
    hide Run, NotWithdrawn;
    if r.proc.Installing? {
      ReachedInv(s, events[..|events| - 1]);
      InstallNeverWithdraws(s, events[..|events| - 1]);
      NeverWithdrawsStep(r, e);
    } else {
      BeginsWithoutJournal(r, e);
    }
  }

  lemma BeginsWithoutJournal(s: State, e: Event)
    requires !s.proc.Installing? && Apply(s, e).proc.Installing?
    ensures NotWithdrawn(Apply(s, e).disk)
  {
    hide ActiveLayoutOk, MakeJournal, RecoveryAdmits;
  }

  lemma LateKeepsDisk(d: Disk, at: Stage, tx: Journal)
    ensures LateInstallFault(d, at, tx).disk == InstallStep(d, at, tx).disk
  {
    hide InstallStep, AfterThrow;
    var s := InstallStep(d, at, tx);
    ThrowKeepsDisk(s.disk, at, if s.proc.Installing? then s.proc.tx else tx);
  }

  lemma NeverWithdrawsStep(s: State, e: Event)
    requires Inv(s) && s.proc.Installing? && NotWithdrawn(s.disk) && Apply(s, e).proc.Installing?
    ensures NotWithdrawn(Apply(s, e).disk)
  {
    var d, at, tx := s.disk, s.proc.at, s.proc.tx;
    if InFinally(at) {
      hide Inv, LateInstallFault;
      ThrowKeepsDisk(d, at, tx);
      LateKeepsDisk(d, at, tx);
    } else {
      AfterStepWindow(d, at, tx);
      ThrowKeepsDisk(d, at, tx);
      LateKeepsDisk(d, at, tx);
      hide InstallStep, AfterThrow, LateInstallFault, Inv, Pending, AnchorWindow;
    }
  }

  /** What an install leaves when it ends: a journal, if any, that is refused in the anchor window only. */
  predicate AdmittedOrAnchored(d: Disk) {
    d.journal.Some? ==> (RecoveryAdmits(d) <==> !AnchorWindow(d, d.journal.value))
  }

  lemma InstallLeaves(s: State, events: seq<Event>)
    requires Start(s) && Run(s, events).proc.Installing?
    ensures AdmittedOrAnchored(Run(s, events).disk)
  {
    var d := Run(s, events).disk;
    InstallNeverWithdraws(s, events);
    EveryDisk(s, events);
    hide Run, Pending;
    if d.journal.Some? { RefusedExactly(d); }
  }

  // ----- How a recovery gets there -----

  /** `current` is put back and the journal not yet removed. */
  predicate Restoring(stage: RecoveryStage) { 1 <= RecoveryRank(stage) <= 7 }

  predicate WithdrawnAfter(stage: RecoveryStage, e: Event) {
    if e == LateFault then stage == BackCurrent || (Restoring(stage) && stage != BackJournal) else Restoring(stage)
  }

  lemma RecoveryWindow(d: Disk, p: Proc)
    requires p.Recovering? && RecoveringOk(d, p.stage, p.rtx, p.badTree, p.entry)
    ensures d.journal == Some(p.rtx) && Pending(d, p.rtx) && !AnchorWindow(d, p.rtx)
    ensures WithdrawnWindow(d, p.rtx) <==>
              p.rtx.oldReceipt.Initializing? && FinalPhase(p.rtx.phase) && Restoring(p.stage)
  {
    hide Settled, TreeOk;
  }

  /**
   A recovery interrupted by a crash or by a write that throws leaves a journal
   that the next recovery refuses exactly when it has put back the `current` of a
   first install that had got to a final phase. The disk is then in the withdrawn
   window, never in the anchor window.
   */
  lemma InterruptedRecovery(s: State, events: seq<Event>, e: Event)
    requires Start(s) && Interrupts(e)
    requires Run(s, events).proc.Recovering? && Run(s, events).disk.journal.Some?
    ensures var p, d := Run(s, events).proc, Apply(Run(s, events), e).disk;
            && (d.journal.Some? && !RecoveryAdmits(d) <==>
                  p.rtx.oldReceipt.Initializing? && FinalPhase(p.rtx.phase) && WithdrawnAfter(p.stage, e))
            && (d.journal.Some? ==> !AnchorWindow(d, d.journal.value))
  {
    var r := Run(s, events);
    ReachedInv(s, events);
    hide Run;
    InterruptedRestore(r, e);
  }

  lemma NextRestores(d: Disk, p: Proc)
    requires p.Recovering?
    ensures var s := RecoveryStep(d, p);
            if p.stage == Forget || p.stage == BackJournal then s.disk.journal.None?
            else s.proc.Recovering? ==> (Restoring(s.proc.stage) <==> WithdrawnAfter(p.stage, LateFault))
  {
    hide RestoreLauncher, OldTreeOk, Without;
  }

  lemma InterruptedRestore(s: State, e: Event)
    requires Inv(s) && s.proc.Recovering? && Interrupts(e)
    ensures var p, d := s.proc, Apply(s, e).disk;
            && (d.journal.Some? && !RecoveryAdmits(d) <==>
                  p.rtx.oldReceipt.Initializing? && FinalPhase(p.rtx.phase) && WithdrawnAfter(p.stage, e))
            && (d.journal.Some? ==> !AnchorWindow(d, d.journal.value))
  {
    var d := Apply(s, e).disk;
    if e == LateFault {
      hide RecoveryStep, RecoveringOk, InstallingOk, InstallStep, RecoveryRank;
      hide Pending, RecoveryAdmits, WithdrawnWindow, AnchorWindow, FinalPhase;
      NextRestores(s.disk, s.proc);
      if s.proc.stage != Forget && s.proc.stage != BackJournal {
        StepKeepsInv(s, Proceed);
        RecoveryGoesOn(s);
        RecoveryWindow(d, Apply(s, Proceed).proc);
      }
    } else {
      hide RecoveryStep, RecoveringOk, Pending, RecoveryAdmits, WithdrawnWindow, AnchorWindow, FinalPhase;
      RecoveryWindow(d, s.proc);
    }
    if d.journal.Some? { RefusedExactly(d); }
  }

  /** A first install interrupted there is lost: whatever follows, recovery refuses and no install begins. */
  lemma WithdrawnFirstInstallIsLost(s: State, events: seq<Event>, e: Event, more: seq<Event>)
    requires Start(s) && Interrupts(e)
    requires Run(s, events).proc.Recovering? && Run(s, events).disk.journal.Some?
    requires Run(s, events).proc.rtx.oldReceipt.Initializing? && FinalPhase(Run(s, events).proc.rtx.phase)
    requires WithdrawnAfter(Run(s, events).proc.stage, e)
    ensures !TakenUp(Run(Apply(Run(s, events), e), more).disk)
  {
    var r := Run(s, events);
    InterruptedRecovery(s, events, e);
    assert Apply(r, e).proc == Idle by { hide RecoveryStep, Run; }
    hide Run, RecoveryAdmits;
    RefusedForever(Apply(r, e), more);
  }

  /** What an interrupted recovery leaves: a journal, if any, that is refused in the withdrawn window only. */
  predicate AdmittedOrWithdrawn(d: Disk) {
    d.journal.Some? ==> (RecoveryAdmits(d) <==> !WithdrawnWindow(d, d.journal.value))
  }

  lemma RecoveryLeaves(s: State, events: seq<Event>, e: Event)
    requires Start(s) && Interrupts(e) && Run(s, events).proc.Recovering?
    ensures AdmittedOrWithdrawn(Apply(Run(s, events), e).disk)
  {
    var r, d := Run(s, events), Apply(Run(s, events), e).disk;
    EveryDisk(s, events + [e]);
    RunAppend(s, events, e);
    hide Run, Apply, Pending, RecoveryAdmits;
    if r.disk.journal.None? { NoJournalAppears(r, e); }
    if d.journal.Some? {
      InterruptedRecovery(s, events, e);
      RefusedExactly(d);
    }
  }

  lemma NoJournalAppears(s: State, e: Event)
    requires Interrupts(e) && s.proc.Recovering? && s.disk.journal.None?
    ensures Apply(s, e).disk.journal.None?
  {
    hide RestoreLauncher, OldTreeOk, Without;
    RestoreKeepsJournal(s.disk, s.proc.rtx.oldLauncher, s.proc.rtx.oldLexical);
  }

  /** Without a journal, exactly the newer versions that are not there yet can be installed, on a disk that is fit. */
  lemma InstallableExactly(s: State, events: seq<Event>, target: Version)
    requires Start(s) && Run(s, events).disk.journal.None?
    ensures var d := Run(s, events).disk;
            InstallGate(d, target) <==>
            && d.current == Pointed(d) && target !in d.versions
            && (Pointed(d).Some? ==> Pointed(d).value < target)
  {
    var d := Run(s, events).disk;
    EveryDisk(s, events);
    PointerDecides(s, events);
    hide Run;
    if !DiskOk(d) {
      StrandedIsNot(d);
      assert !InstallGate(d, target);
    }
  }
}
