/**
 Run leases, admissions, owner prefixes and backups as concurrent actors over
 the fixed locks: no reachable state is a deadlock and no two actors ever hold
 incompatible locks, for any number of actors.
 */
module LockHierarchy {
  import opened Basics
  import opened Wrappers

  datatype Mode = Shared | Exclusive

  datatype Lock = Maintenance | Target | Slot(number: nat) | Inventory

  datatype Hold = Hold(lock: Lock, mode: Mode)

  /** The documented acquisition order; slots are ordered by number. */
  predicate Before(a: Lock, b: Lock) {
    match (a, b)
    case (Maintenance, Maintenance) => false
    case (Maintenance, _) => true
    case (Target, Slot(_)) => true
    case (Target, Inventory) => true
    case (Slot(i), Slot(j)) => i < j
    case (Slot(_), Inventory) => true
    case _ => false
  }

  predicate Compatible(a: Hold, b: Hold) {
    a.lock != b.lock || (a.mode == Shared && b.mode == Shared)
  }

  /**
   Where an actor stands. `Want...` waits for a lock, `In...` holds what its name
   says, `Drop...` is about to release; an owner prefix and a run lease share the
   inner stages. A run lease may take the inventory while it selects its slot, and
   may drop slot and target and select again.
   */
  datatype Stage =
    | WantMaintenance
    | InMaintenance
    | WantInventory
    | InInventory
    | WantTarget
    | WantSlot
    | InPrefix
    | WantInventoryInPrefix
    | InInventoryInPrefix
    | DropSlot
    | DropTarget
    | DropMaintenance
    | Finished
    | WantBackupSlot
    | Copying
    | DropBackupSlots

  datatype Role = Wrapper | RunLease(retriesLeft: nat) | Backup(retriesLeft: nat)

  /** `slot` is the chosen slot; `slots` are a backup's live slots and `got` how many of them it holds. */
  datatype Actor = Actor(role: Role, mode: Mode, isolated: bool, slot: nat, slots: seq<nat>, got: nat, stage: Stage)

  predicate Ascending(s: seq<nat>) { forall i, j :: 0 <= i < j < |s| ==> s[i] < s[j] }

  function Main(a: Actor): set<Hold> { {Hold(Maintenance, a.mode)} }

  function Prefix(a: Actor): set<Hold> {
    Main(a) + (if a.isolated then {} else {Hold(Target, Exclusive)})
  }

  function BackupHolds(a: Actor): set<Hold>
    requires a.got <= |a.slots|
  {
    Main(a) + set i | 0 <= i < a.got :: Hold(Slot(a.slots[i]), Exclusive)
  }

  /** The locks an actor holds at its stage. */
  function Held(a: Actor): set<Hold>
    requires a.got <= |a.slots|
  {
    match a.stage
    case WantMaintenance => {}
    case InMaintenance => Main(a)
    case WantInventory => Main(a)
    case InInventory => Main(a) + {Hold(Inventory, Exclusive)}
    case WantTarget => Main(a)
    case WantSlot => Prefix(a)
    case InPrefix => Prefix(a) + {Hold(Slot(a.slot), Exclusive)}
    case WantInventoryInPrefix => Prefix(a) + {Hold(Slot(a.slot), Exclusive)}
    case InInventoryInPrefix => Prefix(a) + {Hold(Slot(a.slot), Exclusive), Hold(Inventory, Exclusive)}
    case DropSlot => Prefix(a) + {Hold(Slot(a.slot), Exclusive)}
    case DropTarget => Prefix(a)
    case DropMaintenance => Main(a)
    case Finished => {}
    case WantBackupSlot => BackupHolds(a)
    case Copying => BackupHolds(a)
    case DropBackupSlots => BackupHolds(a)
  }

  /** The lock an actor is waiting for. */
  function Wanted(a: Actor): Option<Hold>
    requires a.stage == WantBackupSlot ==> a.got < |a.slots|
  {
    match a.stage
    case WantMaintenance => Some(Hold(Maintenance, a.mode))
    case WantInventory => Some(Hold(Inventory, Exclusive))
    case WantTarget => Some(Hold(Target, Exclusive))
    case WantSlot => Some(Hold(Slot(a.slot), Exclusive))
    case WantInventoryInPrefix => Some(Hold(Inventory, Exclusive))
    case WantBackupSlot => Some(Hold(Slot(a.slots[a.got]), Exclusive))
    case _ => None
  }

  predicate ActorOk(a: Actor) {
    && a.got <= |a.slots| && Ascending(a.slots)
    && (a.stage == WantBackupSlot ==> a.got < |a.slots|)
    && (a.role.Backup? ==> a.mode == Exclusive)
    && (a.role.RunLease? ==> a.mode == Shared)
    && (a.stage == WantBackupSlot || a.stage == Copying || a.stage == DropBackupSlots ==> a.role.Backup?)
    && (a.stage == WantTarget ==> !a.isolated)
    && (a.stage == Copying ==> a.got == |a.slots|)
  }

  /** An actor about to enter its first acquisition. */
  predicate Initial(a: Actor) {
    ActorOk(a) && a.stage == WantMaintenance && a.slots == [] && a.got == 0
  }

  /** What the awaited acquisition turns an actor into. */
  function Acquired(a: Actor): Actor
    requires ActorOk(a) && Wanted(a).Some?
  {
    match a.stage
    case WantMaintenance => a.(stage := InMaintenance)
    case WantInventory => a.(stage := InInventory)
    case WantTarget => a.(stage := WantSlot)
    case WantSlot => a.(stage := if a.role.RunLease? then WantInventoryInPrefix else InPrefix)
    case WantInventoryInPrefix => a.(stage := InInventoryInPrefix)
    case WantBackupSlot =>
      a.(got := a.got + 1, stage := if a.got + 1 < |a.slots| then WantBackupSlot else Copying)
    case _ => a
  }

  /** Enters the slot part of the hierarchy with a freshly selected slot. */
  predicate Select(a: Actor, a': Actor) {
    a' == a.(slot := a'.slot, isolated := a'.isolated, stage := if a'.isolated then WantSlot else WantTarget)
  }

  /** The steps an actor takes without acquiring anything. */
  predicate Proceeds(a: Actor, a': Actor) {
    match a.stage
    case InMaintenance =>
      (match a.role
       case Wrapper => a' == a.(stage := WantInventory) || Select(a, a') || a' == a.(stage := DropMaintenance)
       case RunLease(_) =>
         || a' == a.(stage := WantInventory)
         || (Select(a, a') && a'.slot <= 3 && a'.isolated == a.isolated)
         || a' == a.(stage := DropMaintenance)
       case Backup(_) =>
         || (Ascending(a'.slots) &&
             a' == a.(slots := a'.slots, got := 0, stage := if a'.slots == [] then Copying else WantBackupSlot))
         || a' == a.(stage := DropMaintenance))
    case InInventory => a' == a.(stage := InMaintenance)
    case InPrefix => a' == a.(stage := WantInventoryInPrefix) || a' == a.(stage := DropSlot)
    case InInventoryInPrefix => a' == a.(stage := InPrefix)
    case DropSlot =>
      if a.isolated then a' == a.(stage := AfterPrefix(a)) || Retakes(a, a') else a' == a.(stage := DropTarget)
    case DropTarget => a' == a.(stage := AfterPrefix(a)) || Retakes(a, a')
    case DropMaintenance => a' == a.(stage := Finished)
    case Copying => a' == a.(stage := DropBackupSlots)
    case DropBackupSlots =>
      || (a.got > 0 && a' == a.(got := a.got - 1))
      || (a.got == 0 && a' == a.(slots := [], stage := DropMaintenance))
      || (a.got == 0 && SnapshotRetry(a, a'))
    case _ => false
  }

  function AfterPrefix(a: Actor): Stage {
    if a.role.Wrapper? then InMaintenance else DropMaintenance
  }

  /** The retake loop: slot and target are gone, maintenance stays held. */
  predicate Retakes(a: Actor, a': Actor) {
    a.role.RunLease? && a.role.retriesLeft > 0
    && a' == a.(role := RunLease(a.role.retriesLeft - 1), stage := InMaintenance)
  }

  /** The snapshot moved: all slots are gone, maintenance stays held. */
  predicate SnapshotRetry(a: Actor, a': Actor) {
    a.role.Backup? && a.role.retriesLeft > 0
    && a' == a.(slots := [], role := Backup(a.role.retriesLeft - 1), stage := InMaintenance)
  }

  // ----- The concurrent system -----

  type System = seq<Actor>

  /** Somebody else holds what actor i waits for, in a mode that excludes it. */
  predicate Blocked(s: System, i: nat)
    requires i < |s| && AllOk(s)
  {
    Wanted(s[i]).Some? && exists j :: 0 <= j < |s| && j != i && Obstructs(s[j], Wanted(s[i]).value)
  }

  predicate Obstructs(a: Actor, want: Hold)
    requires ActorOk(a)
  {
    exists h :: h in Held(a) && !Compatible(h, want)
  }

  predicate AllOk(s: System) { forall i :: 0 <= i < |s| ==> ActorOk(s[i]) }

  /** One actor acquires what nobody else's locks forbid, or proceeds on its own. */
  predicate Step(s: System, i: nat, s': System)
    requires AllOk(s)
  {
    && i < |s| && |s'| == |s| && s' == s[i := s'[i]]
    && if Wanted(s[i]).Some? then !Blocked(s, i) && s'[i] == Acquired(s[i]) else Proceeds(s[i], s'[i])
  }

  /** An actor that can take a step now. */
  predicate Enabled(s: System, i: nat)
    requires i < |s| && AllOk(s)
  {
    s[i].stage != Finished && !Blocked(s, i)
  }

  predicate Apart(a: Actor, b: Actor)
    requires ActorOk(a) && ActorOk(b)
  {
    forall h, k :: h in Held(a) && k in Held(b) ==> Compatible(h, k)
  }

  predicate Exclusion(s: System)
    requires AllOk(s)
  {
    forall i, j :: 0 <= i < |s| && 0 <= j < |s| && i != j ==> Apart(s[i], s[j])
  }

  ghost predicate Execution(states: seq<System>, movers: seq<nat>) {
    && |states| == |movers| + 1
    && (forall i :: 0 <= i < |states[0]| ==> Initial(states[0][i]))
    && (forall n :: 0 <= n < |movers| ==> AllOk(states[n]) && Step(states[n], movers[n], states[n + 1]))
  }

  // ----- Lemmas -----

  /** Whatever an actor waits for ranks after everything it holds. */
  lemma AcquiresInOrder(a: Actor, h: Hold)
    requires ActorOk(a) && Wanted(a).Some? && h in Held(a)
    ensures Before(h.lock, Wanted(a).value.lock)
  {
  }

  /** An actor waits for an exclusive hold, or to hold exclusively: readers share, and other locks do not matter. */
  lemma WaitsForAWriter(s: System, i: nat)
    requires AllOk(s) && i < |s| && Wanted(s[i]).Some?
    ensures
      var want := Wanted(s[i]).value;
      Blocked(s, i) <==>
        exists j, h :: && 0 <= j < |s| && j != i && h in Held(s[j])
                       && h.lock == want.lock && (h.mode == Exclusive || want.mode == Exclusive)
  {
    var want := Wanted(s[i]).value;
    hide Held, ActorOk, Wanted;
    if Blocked(s, i) {
      var j :| 0 <= j < |s| && j != i && Obstructs(s[j], want);
      var h :| h in Held(s[j]) && !Compatible(h, want);
    }
    if j, h :| 0 <= j < |s| && j != i && h in Held(s[j]) && h.lock == want.lock &&
               (h.mode == Exclusive || want.mode == Exclusive) {
      assert Obstructs(s[j], want);
    }
  }

  lemma StepKeepsOk(s: System, i: nat, s': System)
    requires AllOk(s) && Step(s, i, s')
    ensures AllOk(s')
  {
    forall k | 0 <= k < |s'| ensures ActorOk(s'[k]) {
      if k == i { MoveKeepsOk(s[i], s'[i]); }
    }
  }

  lemma MoveKeepsOk(a: Actor, a': Actor)
    requires ActorOk(a) && (if Wanted(a).Some? then a' == Acquired(a) else Proceeds(a, a'))
    ensures ActorOk(a')
  {
    assert Ascending([]);
    hide Ascending;
    if Wanted(a).Some? {
      hide Proceeds;
    } else {
      hide Acquired, Wanted;
    }
  }

  /** Acquiring adds exactly the awaited lock; any other move only gives locks up. */
  lemma HeldAfterMove(a: Actor, a': Actor)
    requires ActorOk(a) && ActorOk(a') && (if Wanted(a).Some? then a' == Acquired(a) else Proceeds(a, a'))
    ensures Wanted(a).Some? ==> Held(a') == Held(a) + {Wanted(a).value}
    ensures Wanted(a).None? ==> Held(a') <= Held(a)
  {
    if a.stage == WantBackupSlot {
      BackupTakes(a, a');
    } else if a.stage == Copying || a.stage == DropBackupSlots {
      BackupGives(a, a');
    } else {
      hide Ascending, BackupHolds;
      SimpleMove(a, a');
    }
  }

  lemma BackupGives(a: Actor, a': Actor)
    requires ActorOk(a) && ActorOk(a') && (a.stage == Copying || a.stage == DropBackupSlots) && Proceeds(a, a')
    ensures Held(a') <= Held(a)
  {
    hide Ascending, ActorOk;
  }

  lemma SimpleMove(a: Actor, a': Actor)
    requires ActorOk(a) && ActorOk(a') && (if Wanted(a).Some? then a' == Acquired(a) else Proceeds(a, a'))
    requires a.stage != WantBackupSlot && a.stage != Copying && a.stage != DropBackupSlots
    ensures Wanted(a).Some? ==> Held(a') == Held(a) + {Wanted(a).value}
    ensures Wanted(a).None? ==> Held(a') <= Held(a)
  {
    hide Ascending;
    if a.stage == InMaintenance && a.role.Backup? && a'.stage != DropMaintenance {
      assert BackupHolds(a') == Main(a');
    }
    hide BackupHolds;
  }

  lemma BackupTakes(a: Actor, a': Actor)
    requires ActorOk(a) && ActorOk(a') && a.stage == WantBackupSlot && a' == Acquired(a)
    ensures Held(a') == Held(a) + {Wanted(a).value}
  {
    forall h | h in Held(a') ensures h in Held(a) + {Wanted(a).value} {
      if h !in Main(a) {
        var i :| 0 <= i < a.got + 1 && h == Hold(Slot(a.slots[i]), Exclusive);
        assert i < a.got ==> h in BackupHolds(a);
      }
    }
    assert Hold(Slot(a'.slots[a.got]), Exclusive) in Held(a');
  }

  lemma StepKeepsExclusion(s: System, i: nat, s': System)
    requires AllOk(s) && Step(s, i, s') && Exclusion(s)
    ensures AllOk(s') && Exclusion(s')
  {
    StepKeepsOk(s, i, s');
    HeldAfterMove(s[i], s'[i]);
    forall k | 0 <= k < |s| && k != i ensures Apart(s'[i], s[k]) && Apart(s[k], s'[i]) {
      assert Apart(s[i], s[k]) && Apart(s[k], s[i]);
      assert Wanted(s[i]).Some? ==> !Obstructs(s[k], Wanted(s[i]).value);
    }
    forall j, k | 0 <= j < |s'| && 0 <= k < |s'| && j != k ensures Apart(s'[j], s'[k]) {
      assert j != i && k != i ==> Apart(s[j], s[k]);
    }
  }

  lemma InitiallyApart(s: System)
    requires forall i :: 0 <= i < |s| ==> Initial(s[i])
    ensures AllOk(s) && Exclusion(s)
  {
  }

  lemma {:induction false} ExecutionKeepsExclusion(states: seq<System>, movers: seq<nat>, n: nat)
    requires Execution(states, movers) && n < |states|
    ensures AllOk(states[n]) && Exclusion(states[n])
  {
    hide Step, Exclusion, Initial, ActorOk;
    if n == 0 {
      InitiallyApart(states[0]);
    } else {
      ExecutionKeepsExclusion(states, movers, n - 1);
      StepKeepsExclusion(states[n - 1], movers[n - 1], states[n]);
    }
  }

  /** Actors that wait for a lock ranked after the one actor i waits for. */
  function Above(s: System, i: nat): set<nat>
    requires i < |s| && AllOk(s) && Wanted(s[i]).Some?
  {
    set k: nat | k < |s| && Wanted(s[k]).Some? && Before(Wanted(s[i]).value.lock, Wanted(s[k]).value.lock)
  }

  /** Following blockers climbs the hierarchy, so it ends at an actor that can step. */
  lemma {:induction false} SomeoneIsEnabled(s: System, i: nat) returns (j: nat)
    requires AllOk(s) && i < |s| && s[i].stage != Finished
    ensures j < |s| && Enabled(s, j)
    decreases if Wanted(s[i]).Some? then |Above(s, i)| else 0
  {
    if !Blocked(s, i) { return i; }
    var want := Wanted(s[i]).value;
    j :| 0 <= j < |s| && j != i && Obstructs(s[j], want);
    var h :| h in Held(s[j]) && !Compatible(h, want);
    if Blocked(s, j) {
      AcquiresInOrder(s[j], h);
      FewerAbove(s, i, j);
      hide Held, Above, Wanted, Obstructs;
      j := SomeoneIsEnabled(s, j);
    }
  }

  lemma FewerAbove(s: System, i: nat, j: nat)
    requires AllOk(s) && i < |s| && j < |s| && Wanted(s[i]).Some? && Wanted(s[j]).Some?
    requires Before(Wanted(s[i]).value.lock, Wanted(s[j]).value.lock)
    ensures |Above(s, j)| < |Above(s, i)|
  {
    hide Wanted;
    assert j in Above(s, i) && j !in Above(s, j) && Above(s, j) <= Above(s, i);
    ProperSubsetIsSmaller(Above(s, j), Above(s, i), j);
  }

  lemma ProperSubsetIsSmaller(a: set<nat>, b: set<nat>, x: nat)
    requires a <= b && x in b && x !in a
    ensures |a| < |b|
  {
    SubsetSize(a, b - {x});
  }

  lemma EnabledMeansStep(s: System, i: nat) returns (s': System)
    requires AllOk(s) && i < |s| && Enabled(s, i)
    ensures Step(s, i, s')
  {
    var a := s[i];
    if Wanted(a).Some? {
      s' := s[i := Acquired(a)];
      return;
    }
    var a' := match a.stage
      case InMaintenance => a.(stage := DropMaintenance)
      case InInventory => a.(stage := InMaintenance)
      case InPrefix => a.(stage := DropSlot)
      case InInventoryInPrefix => a.(stage := InPrefix)
      case DropSlot => a.(stage := if a.isolated then AfterPrefix(a) else DropTarget)
      case DropTarget => a.(stage := AfterPrefix(a))
      case DropMaintenance => a.(stage := Finished)
      case Copying => a.(stage := DropBackupSlots)
      case DropBackupSlots => if a.got > 0 then a.(got := a.got - 1) else a.(slots := [], stage := DropMaintenance)
      case _ => a;
    s' := s[i := a'];
  }

  /** In every reachable state, either every actor has finished or some actor can take a step. */
  lemma NoDeadlock(states: seq<System>, movers: seq<nat>, n: nat)
    requires Execution(states, movers) && n < |states|
    ensures AllOk(states[n]) && Exclusion(states[n])
    ensures (forall i :: 0 <= i < |states[n]| ==> states[n][i].stage == Finished)
         || exists j: nat, s' :: Step(states[n], j, s')
  {
    ExecutionKeepsExclusion(states, movers, n);
    var s := states[n];
    if i: nat :| i < |s| && s[i].stage != Finished {
      var j := SomeoneIsEnabled(s, i);
      var s' := EnabledMeansStep(s, j);
    }
  }

  /** A writer of maintenance is alone with it, and a slot, the target or the inventory has one owner. */
  lemma OneOwner(states: seq<System>, movers: seq<nat>, n: nat, i: nat, j: nat, lock: Lock)
    requires Execution(states, movers) && n < |states| && i < |states[n]| && j < |states[n]| && i != j
    ensures AllOk(states[n])
    ensures Hold(lock, Exclusive) in Held(states[n][i]) ==>
              Hold(lock, Exclusive) !in Held(states[n][j]) && Hold(lock, Shared) !in Held(states[n][j])
  {
    ExecutionKeepsExclusion(states, movers, n);
    assert Apart(states[n][i], states[n][j]);
    assert !Compatible(Hold(lock, Exclusive), Hold(lock, Exclusive));
    assert !Compatible(Hold(lock, Exclusive), Hold(lock, Shared));
  }

  lemma HoldsMaintenance(a: Actor)
    requires ActorOk(a) && Held(a) != {}
    ensures Hold(Maintenance, a.mode) in Held(a)
  {
    hide ActorOk, Ascending;
  }

  /** While a backup holds anything, nobody else holds anything. */
  lemma BackupIsAlone(states: seq<System>, movers: seq<nat>, n: nat, i: nat, j: nat)
    requires Execution(states, movers) && n < |states| && i < |states[n]| && j < |states[n]| && i != j
    ensures AllOk(states[n])
    ensures states[n][i].role.Backup? && Held(states[n][i]) != {} ==> Held(states[n][j]) == {}
  {
    OneOwner(states, movers, n, i, j, Maintenance);
    var a, b := states[n][i], states[n][j];
    if Held(a) != {} { HoldsMaintenance(a); }
    if Held(b) != {} { HoldsMaintenance(b); }
    assert b.mode == Shared || b.mode == Exclusive;
    hide Held;
  }

  /** A backup copies only while it holds every live slot. */
  lemma CopyingHoldsAll(a: Actor, slot: nat)
    requires ActorOk(a) && a.stage == Copying && slot in a.slots
    ensures Hold(Slot(slot), Exclusive) in Held(a)
  {
    var i :| 0 <= i < |a.slots| && a.slots[i] == slot;
    assert Hold(Slot(a.slots[i]), Exclusive) in set k | 0 <= k < a.got :: Hold(Slot(a.slots[k]), Exclusive);
  }

  /** Run leases never keep each other from maintenance. */
  lemma RunLeasesShare(a: Actor, b: Actor)
    requires ActorOk(a) && ActorOk(b) && a.role.RunLease? && b.role.RunLease? && b.stage == WantMaintenance
    ensures !Obstructs(a, Wanted(b).value)
  {
    hide Ascending;
  }
}
