/**
 Concrete runs from a valid start into the two windows in which recovery refuses,
 and to a disk that no install and no recovery takes up again.
 */
module StandaloneWitness {
  import opened Wrappers
  import opened StandaloneInstall
  import opened StandaloneInvariant
  import opened StandaloneSafety
  import opened StandaloneRefusal

  lemma Extend(s: State, events: seq<Event>, at: State, e: Event) returns (all: seq<Event>)
    requires Run(s, events) == at
    ensures Run(s, all) == Apply(at, e)
  {
    RunAppend(s, events, e);
    all := events + [e];
  }

  lemma ExtendCrash(s: State, events: seq<Event>, at: State) returns (all: seq<Event>)
    requires Run(s, events) == at
    ensures Run(s, all) == State(at.disk, Idle)
  {
    hide Run;
    all := Extend(s, events, at, Crash);
  }

  lemma ExtendInstall(s: State, events: seq<Event>, d: Disk, at: Stage, tx: Journal) returns (all: seq<Event>)
    requires Run(s, events) == At(d, at, tx)
    ensures Run(s, all) == InstallStep(d, at, tx)
  {
    hide InstallStep, Run;
    all := Extend(s, events, At(d, at, tx), Proceed);
  }

  /** Every upgrade that wrote its journal has a crash point in the anchor window. */
  lemma JournalledUpgradeReachesWindow(s: State, before: seq<Event>, d: Disk, tx: Journal) returns (events: seq<Event>)
    requires Run(s, before) == At(d, PublishInventory, tx)
    requires tx.oldCurrent.Some? && tx.oldLauncher == Some(VersionExe(tx.oldCurrent.value))
    ensures Run(s, events).proc == Idle && Run(s, events).disk.journal.Some?
    ensures AnchorWindow(Run(s, events).disk, Run(s, events).disk.journal.value)
  {
    hide Run, Apply;
    events := ExtendInstall(s, before, d, PublishInventory, tx);
    var s1 := InstallStep(d, PublishInventory, tx);
    events := ExtendInstall(s, events, s1.disk, PublishVersion, tx);
    var s2 := InstallStep(s1.disk, PublishVersion, tx);
    events := ExtendInstall(s, events, s2.disk, JournalPublished, tx);
    var s3 := InstallStep(s2.disk, JournalPublished, tx);
    events := ExtendInstall(s, events, s3.disk, AnchorLauncher, s3.proc.tx);
    events := ExtendCrash(s, events, InstallStep(s3.disk, AnchorLauncher, s3.proc.tx));
  }

  /** The anchor window is real: upgrading version 1 to version 2 crashes into it. */
  lemma AnchorWindowIsReached() returns (s: State, events: seq<Event>)
    ensures Start(s) && Run(s, events).proc == Idle && Run(s, events).disk.journal.Some?
    ensures AnchorWindow(Run(s, events).disk, Run(s, events).disk.journal.value)
  {
    var d := Disk(Some(Active(1, None)), None, Some(1), ViaCurrent, map[1 := Intact], {1}, {}, {}, false);
    s := State(d, Idle);
    assert Start(s);
    var tx := Journal(Prepared, 0, 2, Some(1), Some(VersionExe(1)), ViaCurrent, Active(1, None), Active(2, Some(1)));
    assert Run(s, []) == s;
    events := Extend(s, [], s, BeginInstall(2, 0));
    assert Apply(s, BeginInstall(2, 0)) == At(d, MakeStaging, tx);
    hide Run, Apply, Start;
    events := ExtendInstall(s, events, d, MakeStaging, tx);
    var d1 := d.(staging := d.staging + {0});
    events := ExtendInstall(s, events, d1, PrepareInventory, tx);
    var d2 := d1.(prepared := d1.prepared + {0});
    events := ExtendInstall(s, events, d2, WriteJournal, tx);
    events := JournalledUpgradeReachesWindow(s, events, d2.(journal := Some(tx)), tx);
  }

  /** The journal of a first install of version 1 on a bare root, and the disk once its files are in place. */
  function FreshTx(phase: Phase): Journal {
    Journal(phase, 0, 1, None, None, NoLink, Initializing, Active(1, None))
  }

  function FreshDisk(receipt: Receipt, current: Option<Version>, launcher: Link, phase: Phase): Disk {
    Disk(Some(receipt), Some(FreshTx(phase)), current, launcher, map[1 := Intact], {1}, {}, {}, false)
  }

  lemma FirstInstallPrepares() returns (s: State, events: seq<Event>)
    ensures Start(s)
    ensures Run(s, events) ==
              At(Disk(Some(Initializing), Some(FreshTx(Prepared)), None, NoLink, map[], {}, {0}, {0}, false),
                  PublishInventory, FreshTx(Prepared))
  {
    var d := Disk(None, None, None, NoLink, map[], {}, {}, {}, false);
    s := State(d, Idle);
    events := Extend(s, [], s, BeginInstall(1, 0));
    assert Start(s) && Run(s, events) == At(d, ClaimRoot, FreshTx(Prepared));
    hide Run, Apply, Start;
    events := ExtendInstall(s, events, d, ClaimRoot, FreshTx(Prepared));
    var d1 := d.(receipt := Some(Initializing));
    events := ExtendInstall(s, events, d1, MakeStaging, FreshTx(Prepared));
    var d2 := d1.(staging := {0});
    assert d1.staging + {0} == {0};
    events := ExtendInstall(s, events, d2, PrepareInventory, FreshTx(Prepared));
    assert d2.prepared + {0} == {0};
    events := ExtendInstall(s, events, d2.(prepared := {0}), WriteJournal, FreshTx(Prepared));
  }

  lemma FirstInstallMovesFiles() returns (s: State, events: seq<Event>)
    ensures Start(s)
    ensures Run(s, events) == At(FreshDisk(Initializing, None, NoLink, Prepared), JournalPublished, FreshTx(Prepared))
  {
    s, events := FirstInstallPrepares();
    hide Run, Apply, Start;
    var d := Run(s, events).disk;
    events := ExtendInstall(s, events, d, PublishInventory, FreshTx(Prepared));
    assert d.prepared - {0} == {} && d.inventories + {1} == {1} && d.staging - {0} == {};
    var d1 := d.(prepared := {}, inventories := {1});
    events := ExtendInstall(s, events, d1, PublishVersion, FreshTx(Prepared));
    assert d.versions[1 := Intact] == map[1 := Intact];
  }

  lemma FirstInstallPublishes() returns (s: State, events: seq<Event>)
    ensures Start(s)
    ensures Run(s, events) ==
              At(FreshDisk(Initializing, Some(1), NoLink, CurrentActivated), SmokeVersion, FreshTx(CurrentActivated))
  {
    s, events := FirstInstallMovesFiles();
    hide Run, Apply, Start;
    events := ExtendInstall(s, events,
        FreshDisk(Initializing, None, NoLink, Prepared), JournalPublished, FreshTx(Prepared));
    var d2 := FreshDisk(Initializing, None, NoLink, VersionPublished);
    events := ExtendInstall(s, events, d2, AnchorLauncher, FreshTx(VersionPublished));
    events := ExtendInstall(s, events, d2, SwitchCurrent, FreshTx(VersionPublished));
    events := ExtendInstall(s, events, d2.(current := Some(1)), JournalCurrent, FreshTx(VersionPublished));
  }

  lemma FirstInstallCommits() returns (s: State, events: seq<Event>)
    ensures Start(s)
    ensures Run(s, events) ==
              At(FreshDisk(Active(1, None), Some(1), ViaCurrent, LauncherActivated),
                  JournalCommitted, FreshTx(LauncherActivated))
  {
    s, events := FirstInstallPublishes();
    hide Run, Apply, Start;
    events := ExtendInstall(s, events, FreshDisk(Initializing, Some(1), NoLink, CurrentActivated),
        SmokeVersion, FreshTx(CurrentActivated));
    events := ExtendInstall(s, events, FreshDisk(Initializing, Some(1), NoLink, CurrentActivated),
        CommitReceipt, FreshTx(CurrentActivated));
    events := ExtendInstall(s, events, FreshDisk(Active(1, None), Some(1), NoLink, CurrentActivated),
        JournalReceipt, FreshTx(CurrentActivated));
    var d := FreshDisk(Active(1, None), Some(1), NoLink, ReceiptCommitted);
    events := ExtendInstall(s, events, d, ActivateLauncher, FreshTx(ReceiptCommitted));
    var d' := FreshDisk(Active(1, None), Some(1), ViaCurrent, ReceiptCommitted);
    events := ExtendInstall(s, events, d', SmokeLauncher, FreshTx(ReceiptCommitted));
    events := ExtendInstall(s, events, d', JournalLauncher, FreshTx(ReceiptCommitted));
  }

  /** The crashed first install is taken up again on the commit path. */
  lemma FirstInstallIsTakenUp() returns (s: State, events: seq<Event>)
    ensures Start(s)
    ensures var d := FreshDisk(Active(1, None), Some(1), ViaCurrent, LauncherActivated);
            Run(s, events) == State(d, Recovering(Relink, FreshTx(LauncherActivated), false, d))
  {
    s, events := FirstInstallCommits();
    var d := FreshDisk(Active(1, None), Some(1), ViaCurrent, LauncherActivated);
    events := Extend(s, events, At(d, JournalCommitted, FreshTx(LauncherActivated)), Crash);
    events := Extend(s, events, State(d, Idle), BeginRecovery);
  }

  /** The withdrawn window is real: relinking fails, the restore path withdraws `current`, and a crash follows. */
  lemma WithdrawnWindowIsReached() returns (s: State, events: seq<Event>)
    ensures Start(s) && Run(s, events).proc == Idle && Run(s, events).disk.journal.Some?
    ensures WithdrawnWindow(Run(s, events).disk, Run(s, events).disk.journal.value)
    ensures !RecoveryAdmits(Run(s, events).disk)
  {
    s, events := FirstInstallIsTakenUp();
    var s1 := Run(s, events);
    events := Extend(s, events, s1, Fault);
    events := Extend(s, events, State(s1.disk, s1.proc.(stage := BackCurrent)), Proceed);
    var d := s1.disk.(current := None);
    events := Extend(s, events, State(d, s1.proc.(stage := BackLauncher)), Crash);
  }

  /** A lost journal is real: the same recovery ends stranded when its unlink throws late and a crash follows. */
  lemma StrandedIsReached() returns (s: State, events: seq<Event>)
    ensures Start(s) && Run(s, events).proc == Idle && Stranded(Run(s, events).disk)
    ensures !DiskOk(Run(s, events).disk)
  {
    s, events := FirstInstallIsTakenUp();
    var s1 := Run(s, events);
    events := Extend(s, events, s1, Proceed);
    events := Extend(s, events, State(s1.disk, s1.proc.(stage := SmokeRelinked)), Proceed);
    var s2 := State(s1.disk, s1.proc.(stage := Forget));
    ReachedInv(s, events);
    LateUnlinkStrands(s2);
    events := Extend(s, events, s2, LateFault);
    events := Extend(s, events, Apply(s2, LateFault), Proceed);
    events := Extend(s, events, Apply(Apply(s2, LateFault), Proceed), Crash);
    StrandedLauncher(Run(s, events).disk);
  }
}
