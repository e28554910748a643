/**
 How an undisturbed recovery ends: all new exactly when the new state was durable
 when it began, and all old otherwise.
 */
module StandaloneOutcome {
  import opened Wrappers
  import opened StandaloneInstall
  import opened StandaloneInvariant
  import opened StandaloneSafety
  import opened StandaloneRefusal

  /** The new receipt is written, `current` is switched, and the new version is there with its inventory. */
  predicate NewIsDurable(d: Disk, j: Journal) {
    && d.receipt == Some(j.newReceipt) && d.current == Some(j.target)
    && j.target in d.versions && d.versions[j.target] == Intact && j.target in d.inventories
    && j.phase != Prepared
  }

  /** On a pending disk that was reached, the receipt and the pointer say the rest. */
  lemma DurableExactly(d: Disk, j: Journal)
    requires Pending(d, j)
    ensures NewIsDurable(d, j) <==> d.receipt == Some(j.newReceipt) && d.current == Some(j.target)
  {
    hide OldSideOk;
  }

  // ----- The two paths to the end -----

  lemma CommitPathEnds(s: State)
    requires Inv(s) && s.proc.Recovering? && s.proc.stage == Relink
    ensures Drive(s).proc == Idle && AllNew(Drive(s).disk, s.proc.rtx)
  {
    var s1 := Apply(s, Proceed);
    var s2 := Apply(s1, Proceed);
    var s3 := Apply(s2, Proceed);
    assert s1 == State(s.disk.(launcher := ViaCurrent), s.proc.(stage := SmokeRelinked));
    assert s2 == State(s1.disk, s.proc.(stage := Forget));
    assert s3 == State(s1.disk.(journal := None), Idle);
    assert Drive(s3) == s3 && Drive(s2) == s3 && Drive(s1) == s3 && Drive(s) == s3;
    hide InstallingOk, Pending, Drive, Apply;
  }

  lemma RestoreStep(s: State)
    requires Inv(s) && s.proc.Recovering? && !OnCommitPath(s.proc.stage)
    ensures var s' := Apply(s, Proceed);
            if s.proc.stage == BackJournal then
              s' == State(s.disk.(journal := None), Idle) && AllOld(s'.disk, s.proc.rtx)
            else s'.proc.Recovering? && s'.proc.rtx == s.proc.rtx && !OnCommitPath(s'.proc.stage) && Inv(s')
                 && RecoveryRank(s'.proc.stage) < RecoveryRank(s.proc.stage)
  {
    StepKeepsInv(s, Proceed);
    if s.proc.stage != BackJournal {
      RecoveryGoesOn(s);
      hide Inv, RestoreLauncher, OldTreeOk, Without;
    } else {
      hide InstallingOk, Pending;
    }
  }

  lemma {:induction false} RestorePathEnds(s: State)
    requires Inv(s) && s.proc.Recovering? && !OnCommitPath(s.proc.stage)
    ensures Drive(s).proc == Idle && AllOld(Drive(s).disk, s.proc.rtx)
    decreases RecoveryRank(s.proc.stage)
  {
    var s' := Apply(s, Proceed);
    RestoreStep(s);
    hide Apply, Inv, AllOld, OnCommitPath;
    if s'.proc.Recovering? {
      RestorePathEnds(s');
    } else {
      assert Drive(s') == s';
    }
  }

  lemma EntersCommitPath(d: Disk)
    requires RecoveryAdmits(d) && Pending(d, d.journal.value)
    ensures var s := Apply(State(d, Idle), BeginRecovery);
            && s.disk == d && s.proc.Recovering? && s.proc.rtx == d.journal.value
            && (if NewIsDurable(d, d.journal.value) then s.proc.stage == Relink else s.proc.stage == BackCurrent)
  {
    hide LauncherOk, Pending;
  }

  /**
   After any run, an admitted recovery that is left alone ends all new exactly when
   the new state was durable, and all old otherwise.
   */
  lemma RecoveryOutcome(s: State, events: seq<Event>)
    requires Start(s) && Run(s, events).proc == Idle && RecoveryAdmits(Run(s, events).disk)
    ensures var d := Run(s, events).disk;
            var j, last := d.journal.value, Drive(Apply(Run(s, events), BeginRecovery));
            && last.proc == Idle
            && (AllNew(last.disk, j) <==> NewIsDurable(d, j)) && (AllOld(last.disk, j) <==> !NewIsDurable(d, j))
            && (NewIsDurable(d, j) <==> d.receipt == Some(j.newReceipt) && d.current == Some(j.target))
  {
    var r := Run(s, events);
    var d := r.disk;
    ReachedInv(s, events);
    assert Pending(d, d.journal.value) by { hide Run, Pending, RecoveryAdmits; }
    hide Run;
    Undisturbed(r);
  }

  lemma Undisturbed(r: State)
    requires r.proc == Idle && Inv(r) && RecoveryAdmits(r.disk) && Pending(r.disk, r.disk.journal.value)
    ensures var d := r.disk;
            var j, last := d.journal.value, Drive(Apply(r, BeginRecovery));
            && last.proc == Idle
            && (AllNew(last.disk, j) <==> NewIsDurable(d, j)) && (AllOld(last.disk, j) <==> !NewIsDurable(d, j))
            && (NewIsDurable(d, j) <==> d.receipt == Some(j.newReceipt) && d.current == Some(j.target))
  {
    var d := r.disk;
    var j := d.journal.value;
    var begun := Apply(r, BeginRecovery);
    DurableExactly(d, j);
    EntersCommitPath(d);
    StepKeepsInv(r, BeginRecovery);
    assert j.newReceipt != j.oldReceipt by { hide RecoveryAdmits, Inv, Apply, Drive; }
    assert !OnCommitPath(BackCurrent);
    hide Apply, Inv, Pending, RecoveryAdmits, NewIsDurable, Drive, OnCommitPath;
    if NewIsDurable(d, j) { CommitPathEnds(begun); } else { RestorePathEnds(begun); }
  }

  /** From its receipt write on, an install has made its new state durable. */
  predicate ReceiptIsWritten(at: Stage) {
    at == JournalReceipt || at == ActivateLauncher || at == SmokeLauncher
    || at == JournalLauncher || at == JournalCommitted || at == RemoveJournal
  }

  /** An install that crashes anywhere between its receipt and the end of its journal ends all new after all. */
  lemma CommittedInstallSurvives(s: State, events: seq<Event>)
    requires Start(s) && Run(s, events).proc.Installing? && ReceiptIsWritten(Run(s, events).proc.at)
    ensures var crashed := Apply(Run(s, events), Crash);
            && RecoveryAdmits(crashed.disk) && crashed.disk.journal.Some?
            && AllNew(Drive(Apply(crashed, BeginRecovery)).disk, crashed.disk.journal.value)
            && Drive(Apply(crashed, BeginRecovery)).disk.receipt == Some(Run(s, events).proc.tx.newReceipt)
  {
    var r := Run(s, events);
    hide Run, NewIsDurable, RecoveryAdmits, Drive, InstallingOk, RecoveringOk, InstallStep, RecoveryStep;
    ReachedInv(s, events);
    InterruptedInstall(s, events, Crash);
    RunAppend(s, events, Crash);
    WrittenIsDurable(r.disk, r.proc.at, r.proc.tx);
    assert Apply(r, Crash) == State(r.disk, Idle);
    hide Apply, Inv;
    RecoveryOutcome(s, events + [Crash]);
  }

  lemma WrittenIsDurable(d: Disk, at: Stage, tx: Journal)
    requires InstallingOk(d, at, tx) && ReceiptIsWritten(at)
    ensures d.journal == Some(tx) && NewIsDurable(d, tx)
  {
    hide Pending, Settled;
  }
}
