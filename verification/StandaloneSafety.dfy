/**
 What holds in whole runs of installs, recoveries, failures and crashes: the
 launcher's safety, how a transaction ends, and what a recovery does that has
 lost its journal.
 */
module StandaloneSafety {
  import opened Wrappers
  import opened StandaloneInstall
  import opened StandaloneInvariant

  /** A valid active install, or a root without one whose launcher is absent or the legacy one. */
  predicate Start(s: State) {
    s.proc == Idle && Settled(s.disk)
  }

  lemma RunAppend(s: State, events: seq<Event>, e: Event)
    ensures Run(s, events + [e]) == Apply(Run(s, events), e)
  {
    assert (events + [e])[..|events|] == events;
  }

  // ----- A journal lost -----

  /**
   The commit path unlinked the journal, the directory sync threw, and the catch
   fell through to the restore path, which goes on without a journal.
   */
  predicate UnjournalledOk(d: Disk, stage: RecoveryStage, j: Journal) {
    && d.journal.None? && OldSideOk(d, j)
    && match stage
       case BackCurrent => d.receipt == Some(j.newReceipt) && Candidate(d, j) && d.launcher == ViaCurrent
       case BackLauncher => d.receipt == Some(j.newReceipt) && d.current == j.oldCurrent && d.launcher == ViaCurrent
       case BackReceipt => d.receipt == Some(j.newReceipt) && d.current == j.oldCurrent && d.launcher == j.oldLexical
       case BackVersion => Unpublished(d, j)
       case BackStaging => Unpublished(d, j) && j.target !in d.versions
       case BackInventory => Unpublished(d, j) && j.target !in d.versions && j.staging !in d.staging
       case BackPrepared =>
         && Unpublished(d, j) && j.target !in d.versions && j.staging !in d.staging
         && j.target !in d.inventories
       case BackJournal =>
         && Unpublished(d, j) && j.target !in d.versions && j.staging !in d.staging
         && j.target !in d.inventories && j.staging !in d.prepared
       case _ => false
  }

  predicate Unjournalled(s: State) {
    s.proc.Recovering? && !s.proc.badTree && UnjournalledOk(s.disk, s.proc.stage, s.proc.rtx)
  }

  /** The receipt names the new version, `current` the previous one, and no journal is left to settle it. */
  predicate Stranded(d: Disk) {
    && d.journal.None? && d.receipt.Some? && d.receipt.value.Active?
    && var r := d.receipt.value;
    && d.current == r.previous && r.previous != Some(r.current)
    && (d.launcher == ViaCurrent || (r.previous.None? && (d.launcher == NoLink || d.launcher == ViaLegacy)))
  }

  /** Everything a run can lead to, late failures of every unlink included. */
  predicate Known(s: State) {
    Inv(s) || Unjournalled(s) || (s.proc == Idle && Stranded(s.disk))
  }

  /** Losing the journal leaves a recovery that restores the old state without one. */
  lemma LosingTheJournal(s: State, e: Event)
    requires Inv(s) && LosesJournal(s, e)
    ensures Unjournalled(Apply(s, e)) && Apply(s, e).proc.stage == BackCurrent
    ensures Settled(Apply(s, e).disk) && AllNew(Apply(s, e).disk, s.proc.rtx)
  {
    hide InstallingOk;
  }

  lemma UnjournalledRestores(d: Disk, p: Proc)
    requires p.Recovering? && !p.badTree && UnjournalledOk(d, p.stage, p.rtx)
    ensures var s := RecoveryStep(d, p);
            if p.stage == BackJournal then s == State(d, Idle)
            else s.proc.Recovering? && Unjournalled(s) && s.proc.rtx == p.rtx
                 && RecoveryRank(s.proc.stage) < RecoveryRank(p.stage)
  {
    hide Settled;
  }

  /** Without a journal the disk is settled except between the switch of `current` and that of the receipt. */
  lemma UnjournalledDisk(s: State)
    requires Unjournalled(s)
    ensures Settled(s.disk) <==> s.proc.stage != BackLauncher && s.proc.stage != BackReceipt
    ensures !Settled(s.disk) ==> Stranded(s.disk)
  {
  }

  lemma UnjournalledHasNoJournal(s: State)
    requires Unjournalled(s)
    ensures DiskOk(s.disk) <==> Settled(s.disk)
  {
    hide Settled;
  }

  lemma InterruptedIsKnown(s: State)
    requires Unjournalled(s)
    ensures Known(State(s.disk, Idle))
  {
    hide Settled, Stranded, UnjournalledOk, InstallingOk, RecoveringOk, DiskOk;
    UnjournalledHasNoJournal(s);
    UnjournalledDisk(s);
  }

  lemma UnjournalledRemovesPartly(s: State, hasEntry: bool)
    requires Unjournalled(s)
    ensures Unjournalled(Apply(s, RemovePartly(hasEntry)))
  {
    hide Settled;
  }

  lemma LateUnjournalledFault(s: State)
    requires Unjournalled(s)
    ensures Known(Apply(s, LateFault))
  {
    var s' := RecoveryStep(s.disk, s.proc);
    UnjournalledRestores(s.disk, s.proc);
    assert !OnCommitPath(s.proc.stage);
    assert Apply(s, LateFault) == State(s'.disk, Idle);
    hide RecoveryStep, UnjournalledOk, Stranded, Inv;
    InterruptedIsKnown(if s.proc.stage == BackJournal then s else s');
  }

  lemma UnjournalledStepIsKnown(s: State, e: Event)
    requires Unjournalled(s)
    ensures Known(Apply(s, e))
  {
    assert !OnCommitPath(s.proc.stage);
    hide RecoveryStep, UnjournalledOk, Stranded, Inv;
    match e
    case BeginInstall(_, _) =>
    case BeginRecovery =>
    case RelinkActive =>
    case SmokeFails =>
    case RemovePartly(hasEntry) => UnjournalledRemovesPartly(s, hasEntry);
    case Fault => InterruptedIsKnown(s);
    case LateFault => LateUnjournalledFault(s);
    case Crash => InterruptedIsKnown(s);
    case Proceed =>
      UnjournalledRestores(s.disk, s.proc);
      if s.proc.stage == BackJournal { InterruptedIsKnown(s); }
  }

  /** No install passes its gate on a stranded disk and no recovery finds a journal. */
  lemma StrandedStays(s: State, e: Event)
    requires s.proc == Idle && Stranded(s.disk)
    ensures Apply(s, e) == s
  {
    hide LauncherOk, JournalOk, TreeOk, MakeJournal, FirstStage;
  }

  lemma StepIsKnown(s: State, e: Event)
    requires Known(s)
    ensures Known(Apply(s, e))
  {
    hide Inv, Unjournalled, Stranded, Apply, LosesJournal;
    if Unjournalled(s) {
      UnjournalledStepIsKnown(s, e);
    } else if s.proc == Idle && Stranded(s.disk) {
      StrandedStays(s, e);
    } else if LosesJournal(s, e) {
      LosingTheJournal(s, e);
    } else {
      StepKeepsInv(s, e);
    }
  }

  /** Some event of the run unlinks the journal and then throws. */
  ghost predicate JournalIsLost(s: State, events: seq<Event>) {
    exists i :: 0 <= i < |events| && LosesJournal(Run(s, events[..i]), events[i])
  }

  lemma LostEarlier(s: State, events: seq<Event>)
    requires events != [] && !JournalIsLost(s, events)
    ensures !JournalIsLost(s, events[..|events| - 1])
    ensures !LosesJournal(Run(s, events[..|events| - 1]), events[|events| - 1])
  {
    hide Run, LosesJournal;
    var front := events[..|events| - 1];
    forall i | 0 <= i < |front| ensures !LosesJournal(Run(s, front[..i]), front[i]) {
      assert front[..i] == events[..i];
    }
  }

  /** Until a journal is lost, whatever else happens keeps the invariant. */
  lemma {:induction false} RunKeepsInv(s: State, events: seq<Event>)
    requires Inv(s) && !JournalIsLost(s, events)
    ensures Inv(Run(s, events))
    decreases |events|
  {
    if events != [] {
      LostEarlier(s, events);
      hide JournalIsLost, Inv, Apply;
      RunKeepsInv(s, events[..|events| - 1]);
      StepKeepsInv(Run(s, events[..|events| - 1]), events[|events| - 1]);
    }
  }

  lemma {:induction false} RunIsKnown(s: State, events: seq<Event>)
    requires Known(s)
    ensures Known(Run(s, events))
    decreases |events|
  {
    hide Known, Apply;
    if events != [] {
      RunIsKnown(s, events[..|events| - 1]);
      StepIsKnown(Run(s, events[..|events| - 1]), events[|events| - 1]);
    }
  }

  /** Wherever a journal is on disk, or an install is running, the invariant holds. */
  lemma ReachedInv(s: State, events: seq<Event>)
    requires Start(s)
    requires Run(s, events).disk.journal.Some? || Run(s, events).proc.Installing?
    ensures Inv(Run(s, events))
  {
    StartIsOk(s);
    RunIsKnown(s, events);
    hide Inv, Run;
  }

  lemma StartIsOk(s: State)
    requires Start(s)
    ensures Inv(s)
  {
  }

  // ----- Whole runs -----

  /** What `current` has to be when no transaction is pending. */
  function Pointed(d: Disk): Option<Version> { if d.receipt.Some? then Named(d.receipt.value) else None }

  predicate AllOld(d: Disk, j: Journal) {
    d.receipt == Some(j.oldReceipt) && d.current == j.oldCurrent && d.launcher == j.oldLexical
  }

  predicate AllNew(d: Disk, j: Journal) {
    d.receipt == Some(j.newReceipt) && d.current == Some(j.target) && d.launcher == ViaCurrent && TreeOk(d, j.target)
  }

  predicate TransactionGone(d: Disk, j: Journal) {
    d.journal.None? && j.staging !in d.staging && j.staging !in d.prepared
  }

  /** The launcher runs only what the receipt names or what the pending journal replaces. */
  predicate LauncherIsSafe(d: Disk) {
    Resolve(d).Some? && Resolve(d).value.VersionExe? ==>
      var v := Resolve(d).value.version;
      && ((d.receipt.Some? && Named(d.receipt.value) == Some(v))
          || (d.journal.Some? && d.journal.value.oldCurrent == Some(v)))
      && (d.journal.Some? && d.journal.value.target == v ==> d.receipt == Some(d.journal.value.newReceipt))
  }

  lemma DiskOkMeansLauncherIsSafe(d: Disk)
    requires DiskOk(d)
    ensures LauncherIsSafe(d)
  {
  }

  lemma StrandedLauncher(d: Disk)
    requires Stranded(d)
    ensures !DiskOk(d)
    ensures Resolve(d).Some? && Resolve(d).value.VersionExe? ==>
              !LauncherIsSafe(d) && d.receipt.value.previous == Some(Resolve(d).value.version)
  {
    hide TreeOk, HasEntry;
  }

  /** Whatever a run leads to, the disk is settled, under a pending journal, or stranded. */
  lemma EveryDisk(s: State, events: seq<Event>)
    requires Start(s)
    ensures var d := Run(s, events).disk; DiskOk(d) || Stranded(d)
  {
    StartIsOk(s);
    RunIsKnown(s, events);
    var r := Run(s, events);
    hide Run, Inv, UnjournalledOk, DiskOk, Stranded;
    if Inv(r) {
      InvMeansDiskOk(r);
    } else if Unjournalled(r) {
      UnjournalledDisk(r);
      UnjournalledHasNoJournal(r);
    }
  }

  /**
   At every moment of every run the public launcher resolves to the version the
   receipt on disk names, or to the version the pending journal replaces; it
   resolves to a candidate only once the receipt names the candidate. Only a
   lost journal can break this, and then the launcher runs the version that the
   receipt names as the previous one.
   */
  lemma LauncherNeverExposesCandidate(s: State, events: seq<Event>)
    requires Start(s)
    ensures var d := Run(s, events).disk;
            && (LauncherIsSafe(d) || (Stranded(d) && JournalIsLost(s, events)))
            && (!LauncherIsSafe(d) ==> d.receipt.value.previous == Some(Resolve(d).value.version))
  {
    var d := Run(s, events).disk;
    EveryDisk(s, events);
    hide Run, DiskOk, Stranded, JournalIsLost;
    if DiskOk(d) {
      DiskOkMeansLauncherIsSafe(d);
    } else {
      StrandedLauncher(d);
      OnlyLossStrands(s, events);
    }
  }

  lemma OnlyLossStrands(s: State, events: seq<Event>)
    requires Start(s) && !DiskOk(Run(s, events).disk)
    ensures JournalIsLost(s, events)
  {
    StartIsOk(s);
    hide Run, Inv, DiskOk, JournalIsLost;
    if !JournalIsLost(s, events) {
      RunKeepsInv(s, events);
      InvMeansDiskOk(Run(s, events));
    }
  }

  /** Without a journal the invariant on disk is decided by whether `current` is what the receipt says it is. */
  lemma PointerDecides(s: State, events: seq<Event>)
    requires Start(s)
    ensures var d := Run(s, events).disk; DiskOk(d) <==> d.journal.Some? || d.current == Pointed(d)
  {
    EveryDisk(s, events);
    hide Run;
  }

  lemma {:induction false} StrandedForever(s: State, events: seq<Event>)
    requires s.proc == Idle && Stranded(s.disk)
    ensures Run(s, events) == s
    decreases |events|
  {
    hide Stranded, Apply;
    if events != [] {
      StrandedForever(s, events[..|events| - 1]);
      StrandedStays(s, events[|events| - 1]);
    }
  }

  /** Every recovery about to unlink its journal can be stranded by one late failure and one crash. */
  lemma LateUnlinkStrands(s: State)
    requires Inv(s) && s.proc.Recovering? && s.proc.stage == Forget
    ensures var s' := Apply(Apply(Apply(s, LateFault), Proceed), Crash); s'.proc == Idle && Stranded(s'.disk)
  {
    var lost := Apply(s, LateFault);
    LosingTheJournal(s, LateFault);
    UnjournalledRestores(lost.disk, lost.proc);
    UnjournalledDisk(Apply(lost, Proceed));
    hide UnjournalledOk, Settled, Stranded, Inv;
  }

  /** Left alone, a recovery without its journal puts everything back, and the same version can be installed again. */
  lemma {:induction false} UnjournalledFinishes(s: State)
    requires Unjournalled(s)
    ensures var d := Drive(s).disk;
            && Drive(s).proc == Idle && Settled(d) && TransactionGone(d, s.proc.rtx) && AllOld(d, s.proc.rtx)
            && s.proc.rtx.target !in d.versions && s.proc.rtx.target !in d.inventories
    decreases RecoveryRank(s.proc.stage)
  {
    var s' := Apply(s, Proceed);
    UnjournalledRestores(s.disk, s.proc);
    if s.proc.stage == BackJournal {
      assert Drive(s') == s';
      UnjournalledDisk(s);
    } else {
      hide RecoveryStep, UnjournalledOk, Settled, TransactionGone, AllOld;
      UnjournalledFinishes(s');
    }
  }

  /**
   A recovery step that removes the journal and ends the recovery leaves receipt,
   current pointer and launcher all old or all new, and nothing of the
   transaction; all new only if the entry checks found the new receipt. A
   restored root can install the same version again, unless the candidate's
   tree was already damaged when the recovery began: then that tree is kept.
   */
  lemma FinishedRecovery(s: State, events: seq<Event>, e: Event)
    requires Start(s)
    requires Run(s, events).proc.Recovering? && Run(s, events).disk.journal.Some?
    requires Apply(Run(s, events), e).disk.journal.None? && Apply(Run(s, events), e).proc == Idle
    ensures var p, s' := Run(s, events).proc, Apply(Run(s, events), e);
            && Settled(s'.disk) && TransactionGone(s'.disk, p.rtx)
            && (AllOld(s'.disk, p.rtx) || (AllNew(s'.disk, p.rtx) && p.entry.receipt == Some(p.rtx.newReceipt)))
            && (AllOld(s'.disk, p.rtx) ==> Reinstallable(s'.disk, p.rtx.target) == !p.badTree)
            && (p.badTree ==> p.rtx.target in s'.disk.versions)
  {
    var r := Run(s, events);
    ReachedInv(s, events);
    hide Run;
    RecoveryEnds(r, e);
  }

  /** Both what the gate looks at and the inventory, which the install looks at before it writes a journal. */
  predicate Reinstallable(d: Disk, target: Version) {
    InstallGate(d, target) && target !in d.inventories
  }

  lemma RecoveryRemoves(s: State, e: Event)
    requires Inv(s) && s.proc.Recovering? && s.disk.journal.Some?
    requires Apply(s, e).disk.journal.None? && Apply(s, e).proc == Idle
    ensures s.proc.stage == BackJournal || (s.proc.stage == Forget && e == Proceed)
    ensures Apply(s, e).disk == s.disk.(journal := None)
  {
    hide InstallingOk, Pending, OldTreeOk;
  }

  lemma RecoveryEnds(s: State, e: Event)
    requires Inv(s) && s.proc.Recovering? && s.disk.journal.Some?
    requires Apply(s, e).disk.journal.None? && Apply(s, e).proc == Idle
    ensures var p, d := s.proc, Apply(s, e).disk;
            && Settled(d) && TransactionGone(d, p.rtx)
            && (AllOld(d, p.rtx) || (AllNew(d, p.rtx) && p.entry.receipt == Some(p.rtx.newReceipt)))
            && (AllOld(d, p.rtx) ==> Reinstallable(d, p.rtx.target) == !p.badTree)
            && (p.badTree ==> p.rtx.target in d.versions)
  {
    RecoveryRemoves(s, e);
    hide Apply, InstallingOk;
  }

  predicate Removed(d: Disk, target: Version) {
    target !in d.versions && target !in d.inventories
  }

  lemma InstallStepFinishes(d: Disk, at: Stage, tx: Journal)
    requires InstallingOk(d, at, tx) && (at == RemoveJournal || at == PubJournal)
    ensures var d' := InstallStep(d, at, tx).disk;
            && Settled(d') && TransactionGone(d', tx)
            && (if at == RemoveJournal then AllNew(d', tx) else AllOld(d', tx) && Removed(d', tx.target))
  {
    InstallStepKeepsInv(d, at, tx);
  }

  lemma StepRemoves(d: Disk, at: Stage, tx: Journal)
    requires d.journal.Some? && InstallStep(d, at, tx).disk.journal.None?
    ensures at == RemoveJournal || at == PubJournal
  {
  }

  lemma ThrowKeepsDisk(d: Disk, at: Stage, tx: Journal)
    ensures AfterThrow(d, at, tx).disk == d
  {
    hide InstallCatch;
  }

  lemma InstallRemoves(s: State, e: Event)
    requires Inv(s) && s.proc.Installing? && s.disk.journal.Some? && Apply(s, e).disk.journal.None?
    ensures s.proc.at == RemoveJournal || s.proc.at == PubJournal
    ensures Apply(s, e).disk == InstallStep(s.disk, s.proc.at, s.proc.tx).disk
  {
    hide InstallStep, Inv, AfterThrow;
    var done := InstallStep(s.disk, s.proc.at, s.proc.tx);
    ThrowKeepsDisk(s.disk, s.proc.at, s.proc.tx);
    ThrowKeepsDisk(done.disk, s.proc.at, if done.proc.Installing? then done.proc.tx else s.proc.tx);
    StepRemoves(s.disk, s.proc.at, s.proc.tx);
  }

  /** An install that removes its own journal has committed everything, or put everything back. */
  lemma FinishedInstall(s: State, events: seq<Event>, e: Event)
    requires Start(s)
    requires Run(s, events).proc.Installing? && Run(s, events).disk.journal.Some?
    requires Apply(Run(s, events), e).disk.journal.None?
    ensures var tx, d := Run(s, events).proc.tx, Apply(Run(s, events), e).disk;
            && Settled(d) && TransactionGone(d, tx)
            && (if Run(s, events).proc.at == RemoveJournal then AllNew(d, tx)
                else AllOld(d, tx) && Removed(d, tx.target))
  {
    var r := Run(s, events);
    ReachedInv(s, events);
    hide Apply, Run, InstallStep, InstallingOk, TransactionGone, AllNew, AllOld, Settled;
    InstallRemoves(r, e);
    InstallStepFinishes(r.disk, r.proc.at, r.proc.tx);
  }

  // ----- Progress -----

  function RecoveryRank(stage: RecoveryStage): nat {
    match stage
    case Relink => 10 case SmokeRelinked => 9 case Forget => 0
    case BackCurrent => 8 case BackLauncher => 7 case BackReceipt => 6 case BackVersion => 5
    case BackStaging => 4 case BackInventory => 3 case BackPrepared => 2 case BackJournal => 1
  }

  /** Runs a recovery to its end with no failure and no crash. */
  function Drive(s: State): State
    decreases if s.proc.Recovering? then 1 + RecoveryRank(s.proc.stage) else 0
  {
    if s.proc.Recovering? then Drive(Apply(s, Proceed)) else s
  }

  lemma RecoveryGoesOn(s: State)
    requires Inv(s) && s.proc.Recovering? && s.proc.stage != Forget && s.proc.stage != BackJournal
    ensures var s' := Apply(s, Proceed);
            && s'.proc.Recovering? && s'.proc.rtx == s.proc.rtx
            && RecoveryRank(s'.proc.stage) < RecoveryRank(s.proc.stage)
  {
    hide InstallingOk, Settled;
  }

  /** A recovery step goes forward in the same transaction, or ends with the journal gone. */
  lemma RecoveryMovesOn(s: State)
    requires Inv(s) && s.proc.Recovering?
    ensures
      var s' := Apply(s, Proceed);
      if s'.proc.Recovering? then s'.proc.rtx == s.proc.rtx && RecoveryRank(s'.proc.stage) < RecoveryRank(s.proc.stage)
      else
        && s'.proc == Idle && Settled(s'.disk)
        && (AllOld(s'.disk, s.proc.rtx) || AllNew(s'.disk, s.proc.rtx))
  {
    if s.proc.stage != Forget && s.proc.stage != BackJournal {
      hide Apply, Inv, Settled, AllOld, AllNew, RecoveryRank;
      RecoveryGoesOn(s);
    } else {
      assert s.disk.journal.Some? by { hide Apply, Settled, InstallingOk; }
      assert Apply(s, Proceed) == State(s.disk.(journal := None), Idle);
      hide Apply, Inv, Settled, AllOld, AllNew;
      RecoveryEnds(s, Proceed);
    }
  }

  /** An admitted recovery that is left alone removes the journal. */
  lemma {:induction false} UndisturbedRecoveryFinishes(s: State)
    requires Inv(s) && s.proc.Recovering?
    ensures Drive(s).proc == Idle && Settled(Drive(s).disk)
    ensures AllOld(Drive(s).disk, s.proc.rtx) || AllNew(Drive(s).disk, s.proc.rtx)
    decreases RecoveryRank(s.proc.stage)
  {
    var s' := Apply(s, Proceed);
    StepKeepsInv(s, Proceed);
    RecoveryMovesOn(s);
    hide Apply, RecoveringOk, InstallingOk, RecoveryStep, Settled, AllOld, AllNew;
    if s'.proc.Recovering? {
      UndisturbedRecoveryFinishes(s');
    } else {
      assert Drive(s) == s';
    }
  }
}
