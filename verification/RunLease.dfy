/**
 The run lease: a retrying acquire loop around callbacks that may throw
 anywhere, and a release controller that may have to try each handle again.

 `World` stands for the locks themselves. It hands out fresh handles and lets an
 arbitrary oracle decide which release calls fail.
 */
module RunLease {
  import opened Wrappers

  type Handle = nat

  datatype Failure = Ordinary(code: int) | Aggregate(cause: Option<Failure>)

  datatype Name = Slot | Target | Maintenance

  datatype Component = Component(name: Name, handle: Option<Handle>)

  const ATTEMPTS := 2
  const RETRIES := 8

  // ----- How many handles a series of release calls leaves -----

  /** How many of n release calls fail, the first of them being call number clock. */
  function Failing(fails: iset<nat>, clock: nat, n: nat): (m: nat)
    ensures m <= n
  {
    if n == 0 then 0 else Failing(fails, clock, n - 1) + if clock + n - 1 in fails then 1 else 0
  }

  /** What is left of n handles when each pass tries all that are left, and the number of the next call. */
  function Left(fails: iset<nat>, clock: nat, n: nat, attempts: nat): nat
    decreases attempts
  {
    if n == 0 || attempts == 0 then n else Left(fails, clock + n, Failing(fails, clock, n), attempts - 1)
  }

  function NextCall(fails: iset<nat>, clock: nat, n: nat, attempts: nat): nat
    decreases attempts
  {
    if n == 0 || attempts == 0 then clock else NextCall(fails, clock + n, Failing(fails, clock, n), attempts - 1)
  }

  /** No release ever fails. */
  ghost predicate Sure(fails: iset<nat>) { fails == iset{} }

  lemma {:induction false} SureNeverFails(fails: iset<nat>, clock: nat, n: nat)
    requires Sure(fails)
    ensures Failing(fails, clock, n) == 0
  {
    if n > 0 { SureNeverFails(fails, clock, n - 1); }
  }

  lemma SureLeavesNone(fails: iset<nat>, clock: nat, n: nat, attempts: nat)
    requires Sure(fails) && attempts >= 1
    ensures Left(fails, clock, n, attempts) == 0
  {
    SureNeverFails(fails, clock, n);
  }

  lemma LeftEnds(fails: iset<nat>, clock: nat, n: nat, attempts: nat)
    requires n == 0 || attempts == 0
    ensures Left(fails, clock, n, attempts) == n && NextCall(fails, clock, n, attempts) == clock
  {
  }

  /** With n handles left, the passes still to come leave what all of them together leave of n0. */
  ghost predicate Ahead(fails: iset<nat>, clock0: nat, n0: nat, attempts: nat, clock: nat, n: nat, more: nat) {
    && Left(fails, clock0, n0, attempts) == Left(fails, clock, n, more)
    && NextCall(fails, clock0, n0, attempts) == NextCall(fails, clock, n, more)
  }

  lemma AheadAtFirst(fails: iset<nat>, clock: nat, n: nat, attempts: nat)
    ensures Ahead(fails, clock, n, attempts, clock, n, attempts)
  {
  }

  lemma AheadAtLast(fails: iset<nat>, clock0: nat, n0: nat, attempts: nat, clock: nat, n: nat, more: nat)
    requires Ahead(fails, clock0, n0, attempts, clock, n, more) && (n == 0 || more == 0)
    ensures n == Left(fails, clock0, n0, attempts) && clock == NextCall(fails, clock0, n0, attempts)
  {
    LeftEnds(fails, clock, n, more);
  }

  /** How many of the handles are still to be released. */
  function Pending(hs: set<Handle>, freed: set<Handle>): nat { |hs - freed| }

  lemma NonePending(hs: set<Handle>, freed: set<Handle>)
    ensures Pending(hs, freed) == 0 <==> hs <= freed
  {
    if hs <= freed {
      assert hs - freed == {};
    } else {
      var h :| h in hs && h !in freed;
      assert h in hs - freed;
    }
  }

  lemma OneMore(hs: set<Handle>, h: Handle, freed: set<Handle>)
    requires h !in hs
    ensures Pending(hs + {h}, freed) == Pending(hs, freed) + if h in freed then 0 else 1
    ensures Pending(hs + {h}, freed + {h}) == Pending(hs, freed)
  {
    var rest := hs - freed;
    assert hs + {h} - (freed + {h}) == rest;
    if h in freed {
      assert hs + {h} - freed == rest;
    } else {
      assert hs + {h} - freed == rest + {h};
      assert |rest + {h}| == |rest| + 1;
    }
  }

  /** A pass over hs made one call for each handle that was not free, and left those whose call failed. */
  ghost predicate Counted(fails: iset<nat>, clock0: nat, freed0: set<Handle>, hs: set<Handle>,
                          freed: set<Handle>, clock: nat, failures: nat) {
    var n := Pending(hs, freed0);
    clock == clock0 + n && failures == Failing(fails, clock0, n) == Pending(hs, freed)
  }

  lemma AheadStep(fails: iset<nat>, clock0: nat, n0: nat, attempts: nat, more: nat, hs: set<Handle>,
                  freed: set<Handle>, clock: nat, freed': set<Handle>, clock': nat, failures: nat)
    requires Ahead(fails, clock0, n0, attempts, clock, Pending(hs, freed), more) && more > 0
    requires Counted(fails, clock, freed, hs, freed', clock', failures)
    ensures Ahead(fails, clock0, n0, attempts, clock', Pending(hs, freed'), more - 1)
    ensures failures == Pending(hs, freed')
  {
    hide Pending;
  }

  lemma NothingCounted(fails: iset<nat>, clock: nat, freed: set<Handle>)
    ensures Counted(fails, clock, freed, {}, freed, clock, 0)
  {
    NonePending({}, freed);
  }

  /** One more handle: released before, or tried with the next call. */
  lemma CountedStep(fails: iset<nat>, clock0: nat, freed0: set<Handle>, hs: set<Handle>,
                    freed: set<Handle>, clock: nat, failures: nat, h: Handle)
    requires Counted(fails, clock0, freed0, hs, freed, clock, failures) && h !in hs && (h in freed <==> h in freed0)
    ensures h in freed ==> Counted(fails, clock0, freed0, hs + {h}, freed, clock, failures)
    ensures h !in freed && clock !in fails ==>
              Counted(fails, clock0, freed0, hs + {h}, freed + {h}, clock + 1, failures)
    ensures h !in freed && clock in fails ==>
              Counted(fails, clock0, freed0, hs + {h}, freed, clock + 1, failures + 1)
  {
    hide Pending;
    OneMore(hs, h, freed0);
    OneMore(hs, h, freed);
  }

  class World {
    const releaseFails: iset<nat>
    var clock: nat
    var minted: nat
    /** Handles whose release succeeded, and how often each release was called. */
    ghost var freed: set<Handle>
    ghost var tried: multiset<Handle>

    constructor (releaseFails: iset<nat>)
      ensures this.releaseFails == releaseFails && freed == {} && tried == multiset{} && minted == 0
    {
      this.releaseFails := releaseFails;
      clock, minted, freed, tried := 0, 0, {}, multiset{};
    }

    ghost predicate Valid()
      reads this
    {
      && (forall h :: h in tried ==> h < minted)
      && (forall h :: h in freed ==> h in tried)
    }

    method Acquire() returns (h: Handle)
      requires Valid()
      modifies this
      ensures Valid() && h == old(minted) && minted == h + 1 && clock == old(clock)
      ensures freed == old(freed) && tried == old(tried) && h !in freed && h !in tried
    {
      h := minted;
      minted := minted + 1;
    }

    /** handle.release(); calling it again after it succeeded is what callers must never do. */
    method Release(h: Handle) returns (ok: bool)
      requires Valid() && h < minted && h !in freed
      modifies this
      ensures Valid() && minted == old(minted)
      ensures ok == (old(clock) !in releaseFails) && clock == old(clock) + 1
      ensures tried == old(tried) + multiset{h}
      ensures freed == if ok then old(freed) + {h} else old(freed)
    {
      ok := clock !in releaseFails;
      clock := clock + 1;
      tried := tried + multiset{h};
      if ok { freed := freed + {h}; }
    }
  }

  predicate Selected(c: Component, only: Option<set<Name>>) {
    c.handle.Some? && (only.Some? ==> c.name in only.value)
  }

  function Handles(cs: seq<Component>, only: Option<set<Name>>): set<Handle> {
    set c | c in cs && Selected(c, only) :: c.handle.value
  }

  function Taken(c: Component, only: Option<set<Name>>): set<Handle> {
    if Selected(c, only) then {c.handle.value} else {}
  }

  predicate Distinct(cs: seq<Component>) {
    forall i, j :: 0 <= i < j < |cs| && cs[i].handle.Some? && cs[j].handle.Some? ==> cs[i].handle != cs[j].handle
  }

  lemma HandlesStep(cs: seq<Component>, i: nat, only: Option<set<Name>>)
    requires i < |cs| && Distinct(cs)
    ensures Handles(cs[..i + 1], only) == Handles(cs[..i], only) + Taken(cs[i], only)
    ensures Selected(cs[i], only) ==> cs[i].handle.value !in Handles(cs[..i], only)
  {
    assert cs[..i + 1] == cs[..i] + [cs[i]];
  }

  /** Different handles, all of them handed out and in the scope. */
  ghost predicate Owned(cs: seq<Component>, scope: iset<Handle>, minted: nat) {
    Distinct(cs) && forall c :: c in cs && c.handle.Some? ==> c.handle.value in scope && c.handle.value < minted
  }

  /** What a series of release calls changes. */
  datatype Snapshot = Snapshot(freed: set<Handle>, tried: multiset<Handle>, clock: nat, minted: nat,
      released: set<Handle>)

  class ReleaseController {
    const world: World
    /** The handles this controller answers for; nobody else releases them. */
    ghost const scope: iset<Handle>
    var released: set<Handle>
    /** A full release that succeeded is remembered and answers every later call. */
    var settled: bool

    constructor (world: World, ghost scope: iset<Handle>)
      requires world.Valid() && forall h :: h in scope ==> h !in world.freed
      ensures this.world == world && this.scope == scope && Valid() && !settled && released == {}
    {
      this.world := world;
      this.scope := scope;
      released, settled := {}, false;
    }

    /** The controller's record of its own handles agrees with the world's. */
    ghost predicate Valid()
      reads this, world
    {
      && world.Valid()
      && (forall h :: h in released ==> h in world.freed)
      && (forall h :: h in scope && h in world.freed ==> h in released)
    }

    ghost predicate Owns(cs: seq<Component>)
      reads this, world
    {
      Owned(cs, scope, world.minted)
    }

    /** Tries one component; what is already released is left alone. */
    method TryOne(c: Component, only: Option<set<Name>>) returns (ok: bool)
      requires Valid() && (c.handle.Some? ==> c.handle.value in scope && c.handle.value < world.minted)
      modifies this`released, world
      ensures Valid() && world.minted == old(world.minted) && old(released) <= released
      ensures ok <==> (Selected(c, only) ==> c.handle.value in world.freed)
      ensures if Selected(c, only) && c.handle.value !in old(world.freed)
              then world.tried == old(world.tried) + multiset{c.handle.value}
                && world.freed == if ok then old(world.freed) + {c.handle.value} else old(world.freed)
              else world.tried == old(world.tried) && world.freed == old(world.freed)
      ensures if Selected(c, only) && c.handle.value !in old(world.freed)
              then ok == (old(world.clock) !in world.releaseFails) && world.clock == old(world.clock) + 1
              else world.clock == old(world.clock)
    {
      if !Selected(c, only) || c.handle.value in released { return true; }
      ok := world.Release(c.handle.value);
      if ok { released := released + {c.handle.value}; }
    }

    /** How one pass over the handles hs changed what is freed and how often each handle was tried. */
    static ghost predicate Passed(hs: set<Handle>, freed: set<Handle>, tried: multiset<Handle>,
                                  freed': set<Handle>, tried': multiset<Handle>) {
      && freed <= freed' <= freed + hs
      && (forall h :: h !in hs || h in freed ==> tried'[h] == tried[h])
      && (forall h :: h in hs && h !in freed ==> tried'[h] == tried[h] + 1)
    }

    /** One more component on top of a pass: it was released before, or tried once. */
    static lemma PassStep(hs: set<Handle>, freed: set<Handle>, tried: multiset<Handle>, freed1: set<Handle>,
                          tried1: multiset<Handle>, h: Handle, ok: bool)
      requires Passed(hs, freed, tried, freed1, tried1) && h !in hs
      ensures h in freed1 ==> Passed(hs + {h}, freed, tried, freed1, tried1)
      ensures h !in freed1 ==>
                Passed(hs + {h}, freed, tried, if ok then freed1 + {h} else freed1, tried1 + multiset{h})
    {
    }

    /** One component on top of a pass over the handles hs. */
    method PassOne(c: Component, only: Option<set<Name>>, failures: nat, ghost hs: set<Handle>,
                   ghost freed: set<Handle>, ghost tried: multiset<Handle>, ghost clock: nat)
      returns (failures': nat)
      requires Valid() && (c.handle.Some? ==> c.handle.value in scope && c.handle.value < world.minted)
      requires Passed(hs, freed, tried, world.freed, world.tried)
      requires Counted(world.releaseFails, clock, freed, hs, world.freed, world.clock, failures)
      requires Selected(c, only) ==> c.handle.value !in hs
      modifies this`released, world
      ensures Valid() && world.minted == old(world.minted) && old(released) <= released
      ensures Passed(hs + Taken(c, only), freed, tried, world.freed, world.tried)
      ensures Counted(world.releaseFails, clock, freed, hs + Taken(c, only), world.freed, world.clock, failures')
    {
      if Selected(c, only) {
        ghost var h, freed1, tried1, clock1 := c.handle.value, world.freed, world.tried, world.clock;
        assert h in freed1 <==> h in freed;
        hide Passed, Counted, Selected;
        CountedStep(world.releaseFails, clock, freed, hs, freed1, clock1, failures, h);
        var ok := TryOne(c, only);
        PassStep(hs, freed, tried, freed1, tried1, h, ok);
        failures' := if ok then failures else failures + 1;
      } else {
        assert hs + Taken(c, only) == hs;
        hide Passed, Counted, Selected;
        var ok := TryOne(c, only);
        failures' := failures;
      }
    }

    /** One pass over the pending components, in the order given. */
    method Pass(cs: seq<Component>, only: Option<set<Name>>) returns (failures: nat)
      requires Valid() && Owns(cs)
      modifies this`released, world
      ensures Valid() && Owns(cs) && world.minted == old(world.minted) && old(released) <= released
      ensures Passed(Handles(cs, only), old(world.freed), old(world.tried), world.freed, world.tried)
      ensures Counted(world.releaseFails, old(world.clock), old(world.freed), Handles(cs, only),
                      world.freed, world.clock, failures)
    {
      failures := 0;
      assert Handles(cs[..0], only) == {};
      NothingCounted(world.releaseFails, world.clock, world.freed);
      assert Passed({}, world.freed, world.tried, world.freed, world.tried);
      hide Passed, Handles, Counted, Taken, Selected;
      for i := 0 to |cs|
        invariant Valid() && world.minted == old(world.minted) && old(released) <= released
        invariant Passed(Handles(cs[..i], only), old(world.freed), old(world.tried), world.freed, world.tried)
        invariant Counted(world.releaseFails, old(world.clock), old(world.freed), Handles(cs[..i], only),
                          world.freed, world.clock, failures)
      {
        HandlesStep(cs, i, only);
        failures := PassOne(cs[i], only, failures, Handles(cs[..i], only),
                            old(world.freed), old(world.tried), old(world.clock));
      }
      assert cs[..|cs|] == cs;
    }

    method Release(cs: seq<Component>, attempts: nat, only: Option<set<Name>>, cause: Option<Failure>)
      returns (thrown: Option<Failure>)
      requires Valid() && Owns(cs) && attempts >= 1
      requires settled ==> Handles(cs, None) <= released
      modifies this, world
      ensures Valid() && world.minted == old(world.minted) && old(released) <= released
      ensures old(world.freed) <= world.freed <= old(world.freed) + Handles(cs, only)
      ensures thrown.None? <==> Handles(cs, only) <= world.freed
      ensures thrown.Some? ==> thrown.value == Aggregate(cause)
      ensures settled == (old(settled) || (thrown.None? && only.None?))
      ensures forall h :: h !in Handles(cs, only) || h in old(world.freed) ==> world.tried[h] == old(world.tried)[h]
      ensures forall h :: h in Handles(cs, only) && h !in world.freed ==>
                world.tried[h] == old(world.tried)[h] + attempts
      ensures var n := Pending(Handles(cs, only), old(world.freed));
              && (thrown.None? <==> Left(world.releaseFails, old(world.clock), n, attempts) == 0)
              && world.clock == NextCall(world.releaseFails, old(world.clock), n, attempts)
    {
      ghost var hs := Handles(cs, only);
      OwnHandles(cs, only);
      if settled {
        NonePending(hs, world.freed);
        LeftEnds(world.releaseFails, world.clock, 0, attempts);
        return None;
      }
      hide Left, NextCall, Failing, Handles, Pending, Distinct, Selected;
      TryAll(cs, attempts, only);
      NonePending(hs, world.freed);
      if Handles(cs, only) <= released {
        settled := only.None?;
        return None;
      }
      thrown := Some(Aggregate(cause));
    }

    lemma OwnHandles(cs: seq<Component>, only: Option<set<Name>>)
      requires Owns(cs)
      ensures Handles(cs, only) <= Handles(cs, None) && forall h :: h in Handles(cs, only) ==> h in scope
    {
    }

    /** What so many passes did: whatever is left of hs was tried each time, and nothing else was touched. */
    static ghost predicate Tried(hs: set<Handle>, freed: set<Handle>, tried: multiset<Handle>,
                                 freed': set<Handle>, tried': multiset<Handle>, attempts: nat) {
      && freed <= freed' <= freed + hs
      && (forall h :: h !in hs || h in freed ==> tried'[h] == tried[h])
      && (forall h :: h in hs && h !in freed' ==> tried'[h] == tried[h] + attempts)
    }

    static lemma TriedNever(hs: set<Handle>, freed: set<Handle>, tried: multiset<Handle>)
      ensures Tried(hs, freed, tried, freed, tried, 0)
    {
    }

    static lemma TriedAgain(hs: set<Handle>, freed: set<Handle>, tried: multiset<Handle>, freed1: set<Handle>,
                            tried1: multiset<Handle>, freed2: set<Handle>, tried2: multiset<Handle>, attempts: nat)
      requires Tried(hs, freed, tried, freed1, tried1, attempts) && Passed(hs, freed1, tried1, freed2, tried2)
      ensures Tried(hs, freed, tried, freed2, tried2, attempts + 1)
    {
    }

    static lemma TriedEnough(hs: set<Handle>, freed: set<Handle>, tried: multiset<Handle>, freed': set<Handle>,
                             tried': multiset<Handle>, attempts: nat, more: nat)
      requires Tried(hs, freed, tried, freed', tried', attempts) && Pending(hs, freed') == 0
      ensures Tried(hs, freed, tried, freed', tried', more)
    {
      NonePending(hs, freed');
    }

    ghost function Now(): Snapshot
      reads this, world
    {
      Snapshot(world.freed, world.tried, world.clock, world.minted, released)
    }

    /** After some passes over hs, with so many still to come: what they did and what the others will leave. */
    static ghost predicate Underway(fails: iset<nat>, hs: set<Handle>, start: Snapshot, now: Snapshot,
                                    passes: nat, attempts: nat, failures: nat) {
      && passes <= attempts && now.minted == start.minted && start.released <= now.released
      && (if passes == 0 then failures == 1 else failures == Pending(hs, now.freed))
      && Tried(hs, start.freed, start.tried, now.freed, now.tried, passes)
      && Ahead(fails, start.clock, Pending(hs, start.freed), attempts,
               now.clock, Pending(hs, now.freed), attempts - passes)
    }

    static lemma NothingTried(fails: iset<nat>, hs: set<Handle>, start: Snapshot, attempts: nat)
      ensures Underway(fails, hs, start, start, 0, attempts, 1)
    {
      TriedNever(hs, start.freed, start.tried);
      AheadAtFirst(fails, start.clock, Pending(hs, start.freed), attempts);
    }

    /** What a series of passes did, how many handles it left, and how many calls it made. */
    static ghost predicate Finished(fails: iset<nat>, hs: set<Handle>, start: Snapshot, now: Snapshot, attempts: nat) {
      var n := Pending(hs, start.freed);
      && now.minted == start.minted && start.released <= now.released
      && Tried(hs, start.freed, start.tried, now.freed, now.tried, attempts)
      && Pending(hs, now.freed) == Left(fails, start.clock, n, attempts)
      && now.clock == NextCall(fails, start.clock, n, attempts)
    }

    /** Nothing is left, or no pass is. */
    static lemma AllTried(fails: iset<nat>, hs: set<Handle>, start: Snapshot, now: Snapshot,
                          passes: nat, attempts: nat, failures: nat)
      requires Underway(fails, hs, start, now, passes, attempts, failures) && attempts > 0
      requires failures == 0 || passes == attempts
      ensures Finished(fails, hs, start, now, attempts)
    {
      hide Pending, Tried, Ahead;
      if passes < attempts { TriedEnough(hs, start.freed, start.tried, now.freed, now.tried, passes, attempts); }
      AheadAtLast(fails, start.clock, Pending(hs, start.freed), attempts,
                  now.clock, Pending(hs, now.freed), attempts - passes);
    }

    method PassAgain(cs: seq<Component>, only: Option<set<Name>>, ghost start: Snapshot, ghost passes: nat,
                     ghost attempts: nat, ghost before: nat)
      returns (failures: nat)
      requires Valid() && Owned(cs, scope, start.minted) && passes < attempts
      requires Underway(world.releaseFails, Handles(cs, only), start, Now(), passes, attempts, before)
      modifies this`released, world
      ensures Valid()
      ensures Underway(world.releaseFails, Handles(cs, only), start, Now(), passes + 1, attempts, failures)
    {
      ghost var hs, now := Handles(cs, only), Now();
      hide Tried, Passed, Ahead, Valid, Owned, Counted, Handles, Pending;
      failures := Pass(cs, only);
      AheadStep(world.releaseFails, start.clock, Pending(hs, start.freed), attempts, attempts - passes,
                hs, now.freed, now.clock, world.freed, world.clock, failures);
      TriedAgain(hs, start.freed, start.tried, now.freed, now.tried, world.freed, world.tried, passes);
    }

    /** Passes over what is left, up to the given number of them. */
    method TryAll(cs: seq<Component>, attempts: nat, only: Option<set<Name>>)
      requires Valid() && Owns(cs) && attempts >= 1
      modifies this`released, world
      ensures Valid() && Finished(world.releaseFails, Handles(cs, only), old(Now()), Now(), attempts)
    {
      var attempt := 0;
      var failures := 1;
      ghost var hs, start := Handles(cs, only), Now();
      assert Owned(cs, scope, start.minted);
      hide Finished, Underway, Valid, Owned, Handles, Now;
      NothingTried(world.releaseFails, hs, start, attempts);
      while attempt < attempts && failures > 0
        invariant attempt <= attempts && Valid()
        invariant Underway(world.releaseFails, hs, start, Now(), attempt, attempts, failures)
        decreases attempts - attempt
      {
        failures := PassAgain(cs, only, start, attempt, attempts, failures);
        attempt := attempt + 1;
      }
      AllTried(world.releaseFails, hs, start, Now(), attempt, attempts, failures);
    }
  }

  // ----- Acquiring the run lease -----

  datatype Admission = AdmissionThrows | Retake | Admitted(leaseThrows: bool)

  /** What the callbacks of one attempt do; a slot of None means selectLockSlot throws. */
  datatype Script = Script(slot: Option<int>, targetThrows: bool, slotThrows: bool, admission: Admission)

  datatype Lease = Lease(lockSlot: int, slot: Handle, target: Option<Handle>, maintenance: Handle)

  datatype Held = Held(slot: Option<Handle>, target: Option<Handle>, maintenance: Handle)

  datatype Step = Again | Leased(lease: Lease) | Thrown(failure: Failure, lowerCleanupFailed: bool, left: Held)

  const LOWER: Option<set<Name>> := Some({Slot, Target})

  // ----- What one attempt comes to -----

  /** The failure at the bottom: aggregates name their cause. */
  function Root(f: Failure): int {
    match f
    case Ordinary(code) => code
    case Aggregate(cause) => if cause.None? then -1 else Root(cause.value)
  }

  /** The attempt selects a slot and acquires its locks. */
  predicate Acquires(isolated: bool, s: Script) {
    && s.slot.Some? && 0 <= s.slot.value <= 3 && (isolated || !s.targetThrows) && !s.slotThrows
  }

  predicate Retakes(isolated: bool, s: Script) { Acquires(isolated, s) && s.admission == Retake }

  predicate Leases(isolated: bool, s: Script) { Acquires(isolated, s) && s.admission == Admitted(false) }

  /** The code of what throws in an attempt that neither leases nor retakes. */
  function ThrownCode(isolated: bool, s: Script): int {
    if s.slot.None? || !(0 <= s.slot.value <= 3) then 1
    else if !isolated && s.targetThrows then 2
    else if s.slotThrows then 3
    else if s.admission == AdmissionThrows then 4
    else 6
  }

  /** A retake gives slot and target back, each pass trying what is left. */
  function LowerCount(isolated: bool): nat { if isolated then 1 else 2 }

  /** Both passes of a retake's cleanup together release everything. */
  predicate CleansUp(fails: iset<nat>, clock: nat, isolated: bool) { Left(fails, clock, LowerCount(isolated), 2) == 0 }

  ghost predicate AttemptComes(fails: iset<nat>, clock: nat, clock': nat, isolated: bool, s: Script, step: Step) {
    && (step == Again <==> Retakes(isolated, s) && CleansUp(fails, clock, isolated))
    && (step == Again ==> clock' == NextCall(fails, clock, LowerCount(isolated), 2))
    && (step.Leased? <==> Leases(isolated, s))
    && (step.Leased? ==> step.lease.lockSlot == s.slot.value)
    && (step.Thrown? ==> Root(step.failure) == if Retakes(isolated, s) then 5 else ThrownCode(isolated, s))
    && (step.Thrown? && Sure(fails) ==> step.failure.Ordinary?)
  }

  /** Two passes over n handles: whether they released all of them, and the number of the next call. */
  ghost predicate Cleans(fails: iset<nat>, clock: nat, n: nat, all: bool, clock': nat) {
    (all <==> Left(fails, clock, n, 2) == 0) && clock' == NextCall(fails, clock, n, 2)
  }

  lemma SureCleans(fails: iset<nat>, clock: nat, n: nat, all: bool, clock': nat)
    requires Sure(fails) && Cleans(fails, clock, n, all, clock')
    ensures all
  {
    SureLeavesNone(fails, clock, n, 2);
  }

  /** What admission comes to, with n handles below maintenance. */
  ghost predicate AdmissionComes(fails: iset<nat>, clock: nat, clock': nat, n: nat, lockSlot: int,
                                 admission: Admission, step: Step) {
    && (step == Again <==> admission == Retake && Left(fails, clock, n, 2) == 0)
    && (step == Again ==> clock' == NextCall(fails, clock, n, 2))
    && (step.Leased? <==> admission == Admitted(false))
    && (step.Leased? ==> step.lease.lockSlot == lockSlot)
    && (step.Thrown? ==>
          Root(step.failure) == if admission == Retake then 5 else if admission == AdmissionThrows then 4 else 6)
    && (step.Thrown? && Sure(fails) ==> step.failure.Ordinary?)
  }

  function Components(h: Held): seq<Component> {
    [Component(Slot, h.slot), Component(Target, h.target), Component(Maintenance, Some(h.maintenance))]
  }

  function LowerHandles(h: Held): set<Handle> {
    (if h.slot.Some? then {h.slot.value} else {}) + (if h.target.Some? then {h.target.value} else {})
  }

  lemma HeldHandles(h: Held)
    ensures Handles(Components(h), LOWER) == LowerHandles(h)
    ensures Handles(Components(h), None) == LowerHandles(h) + {h.maintenance}
  {
    var cs := Components(h);
    assert cs[0] in cs && cs[1] in cs && cs[2] in cs;
  }

  /** Three different handles that the controller answers for. */
  lemma OwnsHeld(c: ReleaseController, h: Held)
    requires h.slot != Some(h.maintenance) && h.target != Some(h.maintenance) && (h.slot.Some? ==> h.slot != h.target)
    requires forall x :: x in LowerHandles(h) + {h.maintenance} ==> x in c.scope && x < c.world.minted
    ensures c.Owns(Components(h))
  {
    var cs := Components(h);
    assert forall x :: x in cs ==> x == cs[0] || x == cs[1] || x == cs[2];
  }

  function LeaseHandles(l: Lease): set<Handle> {
    {l.slot, l.maintenance} + (if l.target.Some? then {l.target.value} else {})
  }

  /** Every handle this call minted is either among `live`, untouched, or released. */
  ghost predicate Accounted(w: World, base: nat, live: set<Handle>)
    reads w
  {
    && base <= w.minted
    && (forall h :: base <= h < w.minted && h !in live ==> h in w.freed)
    && (forall h :: h in live ==> base <= h < w.minted && h !in w.freed && h !in w.tried)
  }

  predicate AtOrAfter(base: Handle, h: Handle) { h >= base }

  ghost function From(base: Handle): iset<Handle> { iset h: Handle | AtOrAfter(base, h) }

  lemma NothingLower(c: ReleaseController, h: Held)
    requires c.Owns(Components(h))
    ensures c.Owns(Components(Held(None, None, h.maintenance))) && h.maintenance !in LowerHandles(h)
  {
    var cs := Components(h);
    assert cs[2] in cs && cs[2].handle == Some(h.maintenance);
    assert cs[0].handle == h.slot && (cs[0].handle.Some? ==> cs[0].handle != cs[2].handle);
    assert cs[1].handle == h.target && (cs[1].handle.Some? ==> cs[1].handle != cs[2].handle);
    OwnsHeld(c, Held(None, None, h.maintenance));
  }

  /** Maintenance is held and untouched, and everything else is among what is left, or released. */
  ghost predicate Kept(freed: set<Handle>, tried: multiset<Handle>, minted: nat, base: Handle, left: Held) {
    && left.maintenance == base && base !in freed && base !in tried
    && forall h :: base <= h < minted && h !in LowerHandles(left) + {base} ==> h in freed
  }

  /** Releases went on among this call's handles. */
  ghost predicate Onward(base: Handle, freed: set<Handle>, freed': set<Handle>) {
    freed <= freed' && forall h :: h in freed' && h !in freed ==> h >= base
  }

  lemma OnwardTwice(base: Handle, freed: set<Handle>, freed1: set<Handle>, freed2: set<Handle>)
    requires Onward(base, freed, freed1) && Onward(base, freed1, freed2)
    ensures Onward(base, freed, freed2)
  {
  }

  lemma KeptAfter(freed: set<Handle>, tried: multiset<Handle>, freed': set<Handle>, tried': multiset<Handle>,
                  minted: nat, base: Handle, left: Held)
    requires Kept(freed, tried, minted, base, left) && base !in LowerHandles(left)
    requires freed <= freed' <= freed + LowerHandles(left)
    requires forall h :: h !in LowerHandles(left) || h in freed ==> tried'[h] == tried[h]
    requires forall h :: h in LowerHandles(left) ==> h >= base
    ensures Kept(freed', tried', minted, base, left) && Onward(base, freed, freed')
    ensures LowerHandles(left) <= freed' ==> Kept(freed', tried', minted, base, Held(None, None, base))
  {
  }

  /** Releases slot and target, trying twice what does not go at once. */
  method ReleaseSlotAndTarget(c: ReleaseController, ghost base: Handle, held: Held, cause: Failure)
    returns (cleanup: Option<Failure>)
    requires c.Valid() && c.scope == From(base) && c.Owns(Components(held)) && !c.settled
    requires Kept(c.world.freed, c.world.tried, c.world.minted, base, held)
    modifies c, c.world
    ensures c.Valid() && !c.settled && c.world.minted == old(c.world.minted) && c.Owns(Components(held))
    ensures Onward(base, old(c.world.freed), c.world.freed)
    ensures Kept(c.world.freed, c.world.tried, c.world.minted, base, held)
    ensures cleanup.None? ==> Kept(c.world.freed, c.world.tried, c.world.minted, base, Held(None, None, base))
    ensures cleanup.Some? ==> cleanup.value == Aggregate(Some(cause))
    ensures Cleans(c.world.releaseFails, old(c.world.clock), Pending(LowerHandles(held), old(c.world.freed)),
                   cleanup.None?, c.world.clock)
  {
    ghost var freed, tried := c.world.freed, c.world.tried;
    HeldHandles(held);
    HeldInScope(c, base, held);
    NothingLower(c, held);
    hide Components, Handles, Selected, Distinct, Pending, Left, NextCall, Failing, LowerHandles, Kept, Owned, Onward;
    cleanup := c.Release(Components(held), ATTEMPTS, LOWER, Some(cause));
    KeptAfter(freed, tried, c.world.freed, c.world.tried, c.world.minted, base, held);
  }

  /** The catch block that releases slot and target before rethrowing. */
  method ReleaseLower(c: ReleaseController, ghost base: Handle, held: Held, failure: Failure, before: bool)
    returns (step: Step)
    requires c.Valid() && c.scope == From(base) && c.Owns(Components(held)) && !c.settled
    requires Kept(c.world.freed, c.world.tried, c.world.minted, base, held) && before == failure.Aggregate?
    modifies c, c.world
    ensures c.Valid() && !c.settled && c.world.minted == old(c.world.minted)
    ensures Onward(base, old(c.world.freed), c.world.freed)
    ensures step.Thrown? && step.lowerCleanupFailed == step.failure.Aggregate? && c.Owns(Components(step.left))
    ensures Kept(c.world.freed, c.world.tried, c.world.minted, base, step.left)
    ensures Root(step.failure) == Root(failure) && (Sure(c.world.releaseFails) ==> step.failure == failure)
  {
    NothingLower(c, held);
    ghost var clock, n := c.world.clock, Pending(LowerHandles(held), c.world.freed);
    assert Root(Aggregate(Some(failure))) == Root(failure) && held.maintenance == base;
    hide Components, Pending, Cleans, Root, Sure, LowerHandles, Kept, Owned, Onward;
    var cleanup := ReleaseSlotAndTarget(c, base, held, failure);
    if Sure(c.world.releaseFails) { SureCleans(c.world.releaseFails, clock, n, cleanup.None?, c.world.clock); }
    if cleanup.Some? {
      step := Thrown(cleanup.value, true, held);
    } else {
      step := Thrown(failure, before, Held(None, None, held.maintenance));
    }
  }

  /** What holds after an attempt, however it went. */
  twostate predicate AttemptOk(c: ReleaseController, base: Handle, isolated: bool, step: Step)
    reads c, c.world
  {
    && c.Valid() && !c.settled
    && Onward(base, old(c.world.freed), c.world.freed)
    && match step
       case Again => Accounted(c.world, base, {base})
       case Leased(lease) =>
         && Accounted(c.world, base, LeaseHandles(lease))
         && lease.target.None? == isolated && lease.maintenance == base && LeaseDistinct(lease)
       case Thrown(failure, lowerFailed, left) =>
         && (lowerFailed <==> failure.Aggregate?)
         && c.Owns(Components(left)) && Kept(c.world.freed, c.world.tried, c.world.minted, base, left)
  }

  predicate LeaseDistinct(l: Lease) {
    l.slot != l.maintenance && (l.target.Some? ==> l.target.value != l.slot && l.target.value != l.maintenance)
  }

  method Attempt(c: ReleaseController, maintenance: Handle, isolated: bool, script: Script) returns (step: Step)
    requires c.Valid() && !c.settled && c.scope == From(maintenance) && Accounted(c.world, maintenance, {maintenance})
    modifies c, c.world
    ensures AttemptOk(c, maintenance, isolated, step)
    ensures AttemptComes(c.world.releaseFails, old(c.world.clock), c.world.clock, isolated, script, step)
  {
    hide Components, Handles, Selected, Distinct;
    var nothing := Held(None, None, maintenance);
    OwnsHeld(c, nothing);
    if script.slot.None? || !(0 <= script.slot.value <= 3) {
      return Thrown(Ordinary(1), false, nothing);
    }
    var target: Option<Handle> := None;
    if !isolated {
      if script.targetThrows { return Thrown(Ordinary(2), false, nothing); }
      var h := c.world.Acquire();
      target := Some(h);
    }
    step := AcquireSlot(c, nothing.(target := target), script);
  }

  /** The slot on top of the target, when there is one; without a target there is no catch block yet. */
  method AcquireSlot(c: ReleaseController, held: Held, script: Script) returns (step: Step)
    requires c.Valid() && !c.settled && c.scope == From(held.maintenance) && held.slot.None?
    requires held.target != Some(held.maintenance)
    requires Accounted(c.world, held.maintenance, {held.maintenance} + LowerHandles(held))
    requires script.slot.Some? && 0 <= script.slot.value <= 3 && (held.target.Some? ==> !script.targetThrows)
    modifies c, c.world
    ensures AttemptOk(c, held.maintenance, held.target.None?, step)
    ensures AttemptComes(c.world.releaseFails, old(c.world.clock), c.world.clock, held.target.None?, script, step)
  {
    hide Components, Handles, Selected, Distinct;
    if script.slotThrows {
      OwnsHeld(c, held);
      if held.target.None? { return Thrown(Ordinary(3), false, held); }
      step := ReleaseLower(c, held.maintenance, held, Ordinary(3), false);
    } else {
      var slot := c.world.Acquire();
      step := Admit(c, Lease(script.slot.value, slot, held.target, held.maintenance), script.admission);
    }
  }

  lemma LowerPending(h: Held, freed: set<Handle>)
    requires h.slot.Some? && h.slot != h.target && LowerHandles(h) !! freed
    ensures Pending(LowerHandles(h), freed) == LowerCount(h.target.None?)
  {
    assert LowerHandles(h) - freed == LowerHandles(h);
  }

  lemma CleanRetake(fails: iset<nat>, clock: nat, clock': nat, n: nat, lockSlot: int)
    requires Cleans(fails, clock, n, true, clock')
    ensures AdmissionComes(fails, clock, clock', n, lockSlot, Retake, Again)
  {
  }

  lemma FailedRetake(fails: iset<nat>, clock: nat, clock1: nat, clock': nat, n: nat, lockSlot: int, step: Step)
    requires Cleans(fails, clock, n, false, clock1) && step.Thrown? && Root(step.failure) == 5 && !Sure(fails)
    ensures AdmissionComes(fails, clock, clock', n, lockSlot, Retake, step)
  {
  }

  lemma AdmissionEnds(fails: iset<nat>, clock: nat, clock': nat, n: nat, lockSlot: int, admission: Admission,
                      step: Step)
    requires admission != Retake && step != Again && (step.Leased? <==> admission == Admitted(false))
    requires step.Leased? ==> step.lease.lockSlot == lockSlot
    requires step.Thrown? ==> Root(step.failure) == if admission == AdmissionThrows then 4 else 6
    requires step.Thrown? && Sure(fails) ==> step.failure.Ordinary?
    ensures AdmissionComes(fails, clock, clock', n, lockSlot, admission, step)
  {
  }

  /** A retake: slot and target go back, and once more in the catch block when that fails. */
  method GiveBack(c: ReleaseController, lease: Lease) returns (step: Step)
    requires c.Valid() && !c.settled && c.scope == From(lease.maintenance) && LeaseDistinct(lease)
    requires Accounted(c.world, lease.maintenance, LeaseHandles(lease))
    modifies c, c.world
    ensures AttemptOk(c, lease.maintenance, lease.target.None?, step)
    ensures AdmissionComes(c.world.releaseFails, old(c.world.clock), c.world.clock, LowerCount(lease.target.None?),
                           lease.lockSlot, Retake, step)
  {
    ghost var base := lease.maintenance;
    var held := Held(Some(lease.slot), lease.target, lease.maintenance);
    ghost var fails, clock, freed := c.world.releaseFails, c.world.clock, c.world.freed;
    ghost var n := LowerCount(lease.target.None?);
    assert Root(Aggregate(Some(Ordinary(5)))) == 5;
    hide Components, Pending, Cleans, Root, Sure, LowerCount, Owned, Kept, Onward, LowerHandles, Accounted;
    hide LeaseHandles, LeaseDistinct, From, AdmissionComes;
    LeaseHeld(c, lease);
    var cleanup := ReleaseSlotAndTarget(c, base, held, Ordinary(5));
    if cleanup.None? {
      NothingIsAccounted(c.world, base);
      CleanRetake(fails, clock, c.world.clock, n, lease.lockSlot);
      return Again;
    }
    ghost var freed1, clock1 := c.world.freed, c.world.clock;
    if Sure(fails) { SureCleans(fails, clock, n, false, clock1); }
    step := ReleaseLower(c, base, held, cleanup.value, true);
    OnwardTwice(base, freed, freed1, c.world.freed);
    FailedRetake(fails, clock, clock1, c.world.clock, n, lease.lockSlot, step);
  }

  lemma LeaseHeld(c: ReleaseController, lease: Lease)
    requires c.Valid() && c.scope == From(lease.maintenance) && LeaseDistinct(lease)
    requires Accounted(c.world, lease.maintenance, LeaseHandles(lease))
    ensures var held := Held(Some(lease.slot), lease.target, lease.maintenance);
            && c.Owns(Components(held))
            && Kept(c.world.freed, c.world.tried, c.world.minted, lease.maintenance, held)
            && Pending(LowerHandles(held), c.world.freed) == LowerCount(lease.target.None?)
            && lease.maintenance < c.world.minted
  {
    var held := Held(Some(lease.slot), lease.target, lease.maintenance);
    hide Components, Pending, Owned;
    OwnsHeld(c, held);
    LowerPending(held, c.world.freed);
  }

  lemma NothingIsAccounted(w: World, base: Handle)
    requires Kept(w.freed, w.tried, w.minted, base, Held(None, None, base)) && base < w.minted
    ensures Accounted(w, base, {base})
  {
  }

  /** Admission under the inventory lock, with slot and target held. */
  method Admit(c: ReleaseController, lease: Lease, admission: Admission) returns (step: Step)
    requires c.Valid() && !c.settled && c.scope == From(lease.maintenance) && LeaseDistinct(lease)
    requires Accounted(c.world, lease.maintenance, LeaseHandles(lease))
    modifies c, c.world
    ensures AttemptOk(c, lease.maintenance, lease.target.None?, step)
    ensures AdmissionComes(c.world.releaseFails, old(c.world.clock), c.world.clock, LowerCount(lease.target.None?),
                           lease.lockSlot, admission, step)
  {
    ghost var base := lease.maintenance;
    var held := Held(Some(lease.slot), lease.target, lease.maintenance);
    assert Root(Ordinary(4)) == 4 && Root(Ordinary(6)) == 6;
    hide Components, Owned, Kept, Pending, AdmissionComes, Root, Sure, Onward, LowerHandles, LowerCount;
    LeaseHeld(c, lease);
    ghost var fails, clock, n := c.world.releaseFails, c.world.clock, LowerCount(lease.target.None?);
    match admission {
      case AdmissionThrows =>
        step := ReleaseLower(c, base, held, Ordinary(4), false);
      case Retake =>
        step := GiveBack(c, lease);
        return;
      case Admitted(leaseThrows) =>
        if leaseThrows {
          step := ReleaseLower(c, base, held, Ordinary(6), false);
        } else {
          step := Leased(lease);
          OnwardNone(base, c.world.freed);
        }
    }
    AdmissionEnds(fails, clock, c.world.clock, n, lease.lockSlot, admission, step);
  }

  lemma OnwardNone(base: Handle, freed: set<Handle>)
    ensures Onward(base, freed, freed)
  {
  }

  // ----- What a series of attempts comes to -----

  /** The number of the next release call after k retakes that were cleaned up. */
  function CallAt(fails: iset<nat>, clock: nat, isolated: bool, k: nat): nat {
    if k == 0 then clock else NextCall(fails, CallAt(fails, clock, isolated, k - 1), LowerCount(isolated), 2)
  }

  /** Attempts 0 to k - 1 are told to retake their slot, and clean up. */
  ghost predicate RetakesBefore(fails: iset<nat>, clock: nat, isolated: bool, script: nat -> Script, k: nat) {
    forall j :: 0 <= j < k ==>
      Retakes(isolated, script(j)) && CleansUp(fails, CallAt(fails, clock, isolated, j), isolated)
  }

  /** Attempt k, after retakes only, is admitted and gets its lease. */
  ghost predicate LeasesAt(fails: iset<nat>, clock: nat, isolated: bool, script: nat -> Script, k: nat) {
    RetakesBefore(fails, clock, isolated, script, k) && Leases(isolated, script(k))
  }

  /** Attempt k, after retakes only, fails with this code; 5 is a retake whose cleanup fails. */
  ghost predicate FailsAt(fails: iset<nat>, clock: nat, isolated: bool, script: nat -> Script, k: nat, code: int) {
    && RetakesBefore(fails, clock, isolated, script, k) && !Leases(isolated, script(k))
    && if Retakes(isolated, script(k)) then !CleansUp(fails, CallAt(fails, clock, isolated, k), isolated) && code == 5
       else code == ThrownCode(isolated, script(k))
  }

  /**
   A lease is returned exactly when one of the first eight attempts is admitted after
   retakes only, and then for the slot it selected. Otherwise the failure is that of
   the first attempt that is no clean retake, or exhaustion after eight of them.
   */
  ghost predicate Decided(fails: iset<nat>, clock: nat, isolated: bool, script: nat -> Script,
                          r: Result<Lease, Failure>) {
    && (r.Ok? <==> exists k :: 0 <= k < 8 && LeasesAt(fails, clock, isolated, script, k))
    && (r.Ok? ==> exists k :: 0 <= k < 8 && LeasesAt(fails, clock, isolated, script, k)
                              && script(k).slot == Some(r.value.lockSlot))
    && (r.Err? && RetakesBefore(fails, clock, isolated, script, 8) ==> Root(r.error) == 7)
    && (r.Err? && !RetakesBefore(fails, clock, isolated, script, 8) ==>
          exists k :: 0 <= k < 8 && FailsAt(fails, clock, isolated, script, k, Root(r.error)))
    && (r.Err? && Sure(fails) ==> r.error.Ordinary?)
  }

  /** The first attempt that is not a clean retake decides. */
  lemma FirstDecides(fails: iset<nat>, clock: nat, isolated: bool, script: nat -> Script, k: nat)
    requires RetakesBefore(fails, clock, isolated, script, k)
    requires !(Retakes(isolated, script(k)) && CleansUp(fails, CallAt(fails, clock, isolated, k), isolated))
    ensures forall i: nat :: LeasesAt(fails, clock, isolated, script, i) ==> i == k
    ensures !RetakesBefore(fails, clock, isolated, script, k + 1)
    ensures forall n: nat :: n > k ==> !RetakesBefore(fails, clock, isolated, script, n)
  {
  }

  ghost predicate DecidedErr(fails: iset<nat>, clock: nat, isolated: bool, script: nat -> Script, failure: Failure) {
    Decided(fails, clock, isolated, script, Err(failure))
  }

  lemma SameRoot(fails: iset<nat>, clock: nat, isolated: bool, script: nat -> Script, failure: Failure, last: Failure)
    requires DecidedErr(fails, clock, isolated, script, failure)
    requires Root(last) == Root(failure) && (Sure(fails) ==> last == failure)
    ensures Decided(fails, clock, isolated, script, Err(last))
  {
    hide LeasesAt, FailsAt, RetakesBefore, Root;
  }

  lemma NoRetakes(fails: iset<nat>, clock: nat, isolated: bool, script: nat -> Script)
    ensures RetakesBefore(fails, clock, isolated, script, 0) && CallAt(fails, clock, isolated, 0) == clock
  {
  }

  lemma Exhausted(fails: iset<nat>, clock: nat, isolated: bool, script: nat -> Script)
    requires RetakesBefore(fails, clock, isolated, script, 8)
    ensures DecidedErr(fails, clock, isolated, script, Ordinary(7))
  {
    forall k | 0 <= k < 8 ensures !LeasesAt(fails, clock, isolated, script, k) {
      assert Retakes(isolated, script(k));
    }
  }

  /** One more attempt: on to the next one, or the whole call is decided. */
  lemma NextAttempt(fails: iset<nat>, clock: nat, isolated: bool, script: nat -> Script, k: nat, clock': nat,
                    step: Step)
    requires RetakesBefore(fails, clock, isolated, script, k) && k < 8
    requires AttemptComes(fails, CallAt(fails, clock, isolated, k), clock', isolated, script(k), step)
    ensures step == Again ==>
              && RetakesBefore(fails, clock, isolated, script, k + 1)
              && clock' == CallAt(fails, clock, isolated, k + 1)
    ensures step.Leased? ==> Decided(fails, clock, isolated, script, Ok(step.lease))
    ensures step.Thrown? ==> DecidedErr(fails, clock, isolated, script, step.failure)
  {
    if step != Again {
      FirstDecides(fails, clock, isolated, script, k);
      if step.Leased? { assert LeasesAt(fails, clock, isolated, script, k); }
      if step.Thrown? { assert FailsAt(fails, clock, isolated, script, k, Root(step.failure)); }
      hide RetakesBefore, Root;
    }
  }

  /**
   acquireCoderSessionRunLease. Whatever the callbacks do and whichever releases
   fail: a returned lease owns live, untouched handles and everything else this
   call acquired is released; a failure that is not an aggregate has released
   everything; after an aggregate, whatever is left failed every release call.
   */
  method AcquireRunLease(world: World, isolated: bool, maintenanceThrows: bool, script: nat -> Script)
    returns (r: Result<Lease, Failure>)
    requires world.Valid() && forall h :: h in world.freed ==> h < world.minted
    modifies world
    ensures world.Valid()
    ensures forall h :: h < old(world.minted) ==> (h in world.freed <==> h in old(world.freed))
    ensures r.Ok? ==> Accounted(world, old(world.minted), LeaseHandles(r.value)) && LeaseDistinct(r.value)
    ensures r.Ok? ==> r.value.target.None? == isolated
    ensures r.Err? && r.error.Ordinary? ==> Accounted(world, old(world.minted), {})
    ensures r.Err? ==> forall h :: old(world.minted) <= h < world.minted ==> h in world.freed || h in world.tried
    ensures maintenanceThrows ==> r == Err(Ordinary(0))
    ensures !maintenanceThrows ==> Decided(world.releaseFails, old(world.clock), isolated, script, r)
  {
    if maintenanceThrows { return Err(Ordinary(0)); }
    ghost var base, clock, freed := world.minted, world.clock, world.freed;
    var maintenance := world.Acquire();
    var controller := new ReleaseController(world, From(base));
    hide Components, Handles, Selected, Distinct, Decided, DecidedErr, Root, Sure;
    var step := TryAttempts(controller, maintenance, isolated, script);
    if step.Leased? { return Ok(step.lease); }
    ghost var before := world.freed;
    var failure := CleanUp(controller, base, step);
    OnwardTwice(base, freed, before, world.freed);
    SameRoot(world.releaseFails, clock, isolated, script, step.failure, failure);
    r := Err(failure);
  }

  /** The try block: attempts until one of them leases or throws. */
  method TryAttempts(c: ReleaseController, maintenance: Handle, isolated: bool, script: nat -> Script)
    returns (step: Step)
    requires c.Valid() && !c.settled && c.scope == From(maintenance) && Accounted(c.world, maintenance, {maintenance})
    modifies c, c.world
    ensures AttemptOk(c, maintenance, isolated, step) && step != Again
    ensures step.Leased? ==> Decided(c.world.releaseFails, old(c.world.clock), isolated, script, Ok(step.lease))
    ensures step.Thrown? ==> DecidedErr(c.world.releaseFails, old(c.world.clock), isolated, script, step.failure)
  {
    ghost var fails, clock, freed := c.world.releaseFails, c.world.clock, c.world.freed;
    hide Components, Decided, DecidedErr, RetakesBefore, CallAt, AttemptComes;
    hide Root, Sure, Accounted, Onward, Kept, Owned;
    NoRetakes(fails, clock, isolated, script);
    OnwardNone(maintenance, freed);
    var attempt := 0;
    while attempt < RETRIES
      invariant 0 <= attempt <= RETRIES
      invariant c.Valid() && !c.settled && Accounted(c.world, maintenance, {maintenance})
      invariant Onward(maintenance, freed, c.world.freed)
      invariant RetakesBefore(fails, clock, isolated, script, attempt)
      invariant c.world.clock == CallAt(fails, clock, isolated, attempt)
    {
      ghost var before := c.world.freed;
      step := Attempt(c, maintenance, isolated, script(attempt));
      OnwardTwice(maintenance, freed, before, c.world.freed);
      NextAttempt(fails, clock, isolated, script, attempt, c.world.clock, step);
      if step != Again { return; }
      attempt := attempt + 1;
    }
    Exhausted(fails, clock, isolated, script);
    MaintenanceIsKept(c, maintenance);
    step := Thrown(Ordinary(7), false, Held(None, None, maintenance));
  }

  lemma MaintenanceIsKept(c: ReleaseController, base: Handle)
    requires c.Valid() && c.scope == From(base) && Accounted(c.world, base, {base})
    ensures var left := Held(None, None, base);
            c.Owns(Components(left)) && Kept(c.world.freed, c.world.tried, c.world.minted, base, left)
  {
    OwnsHeld(c, Held(None, None, base));
  }

  /** The last catch: releases whatever is still held, once more when releasing the lower leases already failed. */
  method CleanUp(c: ReleaseController, ghost base: Handle, thrown: Step) returns (failure: Failure)
    requires c.Valid() && !c.settled && thrown.Thrown? && c.Owns(Components(thrown.left)) && c.scope == From(base)
    requires Kept(c.world.freed, c.world.tried, c.world.minted, base, thrown.left)
    requires thrown.lowerCleanupFailed == thrown.failure.Aggregate?
    modifies c, c.world
    ensures c.world.Valid() && base < c.world.minted == old(c.world.minted)
    ensures Onward(base, old(c.world.freed), c.world.freed)
    ensures forall h :: base <= h < c.world.minted ==> h in c.world.freed || h in c.world.tried
    ensures failure.Ordinary? ==> forall h :: base <= h < c.world.minted ==> h in c.world.freed
    ensures Root(failure) == Root(thrown.failure) && (Sure(c.world.releaseFails) ==> failure == thrown.failure)
    ensures var n := Pending(LowerHandles(thrown.left) + {base}, old(c.world.freed));
            c.world.clock ==
              NextCall(c.world.releaseFails, old(c.world.clock), n, if thrown.failure.Aggregate? then 1 else 2)
  {
    var nested := thrown.failure.Aggregate? && thrown.failure.cause.Some?;
    var cause := if nested then thrown.failure.cause.value else thrown.failure;
    HeldHandles(thrown.left);
    HeldInScope(c, base, thrown.left);
    hide Components, Handles, Selected, Distinct;
    var attempts := if thrown.lowerCleanupFailed then 1 else ATTEMPTS;
    if Sure(c.world.releaseFails) {
      SureLeavesNone(c.world.releaseFails, c.world.clock,
                     Pending(LowerHandles(thrown.left) + {base}, c.world.freed), attempts);
    }
    var cleanup := c.Release(Components(thrown.left), attempts, None, Some(cause));
    failure := if cleanup.Some? then cleanup.value else thrown.failure;
  }

  lemma HeldInScope(c: ReleaseController, base: Handle, h: Held)
    requires c.Owns(Components(h)) && c.scope == From(base)
    ensures forall x :: x in LowerHandles(h) + {h.maintenance} ==> base <= x < c.world.minted
  {
    var cs := Components(h);
    assert cs[0] in cs && cs[1] in cs && cs[2] in cs;
  }

  /** The returned lease. */
  class RunLease {
    const controller: ReleaseController
    const held: Held
    var releaseStarted: bool

    ghost predicate Valid()
      reads this, controller, controller.world
    {
      && controller.Valid() && controller.Owns(Components(held))
      && (controller.settled ==> Handles(Components(held), None) <= controller.released)
    }

    constructor (world: World, lease: Lease)
      requires world.Valid() && LeaseDistinct(lease)
      requires forall h :: h in LeaseHandles(lease) ==> h < world.minted && h !in world.freed
      ensures Valid() && fresh(controller) && controller.world == world && !releaseStarted
      ensures held == Held(Some(lease.slot), lease.target, lease.maintenance)
    {
      held := Held(Some(lease.slot), lease.target, lease.maintenance);
      releaseStarted := false;
      controller := new ReleaseController(world, iset h | h in LeaseHandles(lease));
    }

    /**
     May be called again after a failure: it tries each unreleased handle once and
     no released one ever again, and it fails exactly while some handle is left.
     */
    method Release() returns (thrown: Option<Failure>)
      requires Valid()
      modifies this, controller, controller.world
      ensures Valid() && releaseStarted
      ensures thrown.None? <==> LowerHandles(held) + {held.maintenance} <= controller.world.freed
      ensures old(controller.world.freed) <= controller.world.freed
      ensures controller.world.freed <= old(controller.world.freed) + LowerHandles(held) + {held.maintenance}
      ensures forall h :: h in old(controller.world.freed) ==>
                controller.world.tried[h] == old(controller.world.tried)[h]
      ensures forall h :: h in LowerHandles(held) + {held.maintenance} && h !in controller.world.freed ==>
                controller.world.tried[h] == old(controller.world.tried)[h] + 1
    {
      HeldHandles(held);
      releaseStarted := true;
      thrown := controller.Release(Components(held), 1, None, None);
    }
  }
}
