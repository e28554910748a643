/**
 The fixed lock inside one process: the reader/writer registry, the marker in
 the lock file, and handles whose release may fail and be retried.

 Marker sections run one at a time under the in-process mutex, so a section is
 one event. Publishing the nonce and closing the descriptor happen outside it
 and are events of their own.
 */
module FixedLock {
  import opened Wrappers

  type Nonce = nat

  /** What the lock file says. Another process writes only `Foreign` markers. */
  datatype Marker = Free | Garbage | Mine(nonce: Nonce) | Foreign(alive: bool)

  datatype Kind = Writer | Reader

  /** The flags a handle's closure keeps; its own nonce is its key. */
  datatype Handle = Handle(kind: Kind, published: bool, markerReleased: bool, fdClosed: bool)

  datatype Registry = Registry(
    writer: Option<Nonce>,
    readers: set<Nonce>,
    active: set<Nonce>,
    marker: Marker,
    handles: map<Nonce, Handle>,
    drawn: set<Nonce>)

  datatype AcquireFault = NoFault | ReadFails | TruncateFails | WriteFails(left: Marker) | SyncFails

  datatype ReleaseFault = Clean | MarkerReadFails | MarkerTruncateFails | MarkerSyncFails

  datatype Event =
    | TryExclusive(nonce: Nonce, fault: AcquireFault)
    | TryShared(nonce: Nonce, readFails: bool)
    | Publish(nonce: Nonce)
    | ReleaseMarker(nonce: Nonce, relFault: ReleaseFault)
    | CloseDescriptor(nonce: Nonce, fails: bool)
    | OtherProcess(marker: Marker)

  datatype Attempt = Granted | StillHeld | Threw

  predicate MarkerHeld(r: Registry) {
    match r.marker
    case Mine(n) => n in r.active
    case Foreign(alive) => alive
    case _ => false
  }

  /** A failed write can leave any prefix of our own marker. */
  predicate Torn(m: Marker, nonce: Nonce) { m == Free || m == Garbage || m == Mine(nonce) }

  function ExclusiveOutcome(r: Registry, fault: AcquireFault): Attempt {
    if r.writer.Some? || r.readers != {} then StillHeld
    else if fault == ReadFails then Threw
    else if MarkerHeld(r) then StillHeld
    else if fault == NoFault then Granted
    else Threw
  }

  function SharedOutcome(r: Registry, readFails: bool): Attempt {
    if r.writer.Some? then StillHeld
    else if readFails then Threw
    else if MarkerHeld(r) then StillHeld
    else Granted
  }

  function ExclusiveSection(r: Registry, nonce: Nonce, fault: AcquireFault): Registry {
    var r' := r.(drawn := r.drawn + {nonce});
    match ExclusiveOutcome(r, fault)
    case Granted =>
      r'.(writer := Some(nonce), marker := Mine(nonce),
          handles := r.handles[nonce := Handle(Writer, false, false, false)])
    case StillHeld => r
    case Threw =>
      match fault
      case WriteFails(left) => if Torn(left, nonce) then r'.(marker := left) else r'
      case SyncFails => r'.(marker := Mine(nonce))
      case _ => r'
  }

  function SharedSection(r: Registry, nonce: Nonce, readFails: bool): Registry {
    if SharedOutcome(r, readFails) == Granted then
      r.(readers := r.readers + {nonce}, drawn := r.drawn + {nonce},
         handles := r.handles[nonce := Handle(Reader, true, false, false)])
    else r
  }

  /** Our marker is cleared only if its nonce is live here; then the registry lets go. */
  function ReleaseSection(r: Registry, nonce: Nonce, fault: ReleaseFault): Registry
    requires nonce in r.handles
  {
    var h := r.handles[nonce];
    var freed := r.handles[nonce := h.(markerReleased := true)];
    if h.markerReleased || !h.published then r
    else if h.kind == Reader then r.(readers := r.readers - {nonce}, handles := freed)
    else if fault == MarkerReadFails then r
    else
      var clears := r.marker.Mine? && r.marker.nonce in r.active;
      if clears && fault == MarkerTruncateFails then r
      else if clears && fault == MarkerSyncFails then r.(marker := Free)
      else r.(marker := if clears then Free else r.marker,
              active := r.active - {nonce}, writer := None, handles := freed)
  }

  function Apply(r: Registry, e: Event): Registry {
    match e
    case TryExclusive(n, fault) => if n in r.drawn then r else ExclusiveSection(r, n, fault)
    case TryShared(n, readFails) => if n in r.drawn then r else SharedSection(r, n, readFails)
    case Publish(n) =>
      if n in r.handles && r.handles[n].kind == Writer && !r.handles[n].published
      then r.(active := r.active + {n}, handles := r.handles[n := r.handles[n].(published := true)]) else r
    case ReleaseMarker(n, fault) => if n in r.handles then ReleaseSection(r, n, fault) else r
    case CloseDescriptor(n, fails) =>
      if n in r.handles && r.handles[n].markerReleased && !fails
      then r.(handles := r.handles[n := r.handles[n].(fdClosed := true)]) else r
    case OtherProcess(m) => if m.Mine? then r else r.(marker := m)
  }

  function Run(r: Registry, events: seq<Event>): Registry
    decreases |events|
  {
    if events == [] then r else Apply(Run(r, events[..|events| - 1]), events[|events| - 1])
  }

  const FRESH := Registry(None, {}, {}, Free, map[], {})

  // ----- What every interleaving keeps -----

  /** A handle holds the lock from its grant until its marker release succeeds. */
  predicate Holds(r: Registry, n: Nonce) { n in r.handles && !r.handles[n].markerReleased }

  /** The registry, the live nonces and the handle of n agree on n. */
  predicate Agrees(r: Registry, n: Nonce) {
    && (n in r.readers <==> Holds(r, n) && r.handles[n].kind == Reader)
    && (r.writer == Some(n) <==> Holds(r, n) && r.handles[n].kind == Writer)
    && (n in r.active <==> Holds(r, n) && r.handles[n].kind == Writer && r.handles[n].published)
    && (n in r.handles ==> n in r.drawn)
    && (n in r.handles && r.handles[n].kind == Reader ==> r.handles[n].published)
    && (n in r.handles && !r.handles[n].published ==> !r.handles[n].markerReleased)
  }

  /** The registry is exactly the set of handles that hold. */
  ghost predicate Inv(r: Registry) {
    && (forall n :: Agrees(r, n))
    && (r.writer.Some? ==> r.readers == {})
  }

  lemma ExclusiveKeepsInv(r: Registry, m: Nonce, fault: AcquireFault)
    requires Inv(r) && m !in r.drawn
    ensures Inv(ExclusiveSection(r, m, fault))
  {
    var r' := ExclusiveSection(r, m, fault);
    NothingDrawn(r, m);
    forall n ensures Agrees(r', n) { assert Agrees(r, n); }
  }

  lemma SharedKeepsInv(r: Registry, m: Nonce, readFails: bool)
    requires Inv(r) && m !in r.drawn
    ensures Inv(SharedSection(r, m, readFails))
  {
    var r' := SharedSection(r, m, readFails);
    NothingDrawn(r, m);
    forall n ensures Agrees(r', n) { assert Agrees(r, n); }
  }

  lemma NothingDrawn(r: Registry, m: Nonce)
    requires Inv(r) && m !in r.drawn
    ensures m !in r.handles && m !in r.active && m !in r.readers && r.writer != Some(m)
  {
    assert Agrees(r, m);
  }

  lemma PublishKeepsInv(r: Registry, m: Nonce)
    requires Inv(r)
    ensures Inv(Apply(r, Publish(m)))
  {
    var r' := Apply(r, Publish(m));
    forall n ensures Agrees(r', n) { assert Agrees(r, n); }
  }

  lemma ReleaseKeepsInv(r: Registry, m: Nonce, fault: ReleaseFault)
    requires Inv(r) && m in r.handles
    ensures Inv(ReleaseSection(r, m, fault))
  {
    var r' := ReleaseSection(r, m, fault);
    assert Agrees(r, m);
    forall n ensures Agrees(r', n) { assert Agrees(r, n); }
  }

  lemma OutsideKeepsInv(r: Registry, e: Event)
    requires Inv(r) && (e.CloseDescriptor? || e.OtherProcess?)
    ensures Inv(Apply(r, e))
  {
    var r' := Apply(r, e);
    forall n ensures Agrees(r', n) { assert Agrees(r, n); }
  }

  lemma StepKeepsInv(r: Registry, e: Event)
    requires Inv(r)
    ensures Inv(Apply(r, e))
  {
    hide Inv, ExclusiveSection, SharedSection, ReleaseSection;
    match e
    case TryExclusive(m, fault) => if m !in r.drawn { ExclusiveKeepsInv(r, m, fault); }
    case TryShared(m, readFails) => if m !in r.drawn { SharedKeepsInv(r, m, readFails); }
    case Publish(m) => PublishKeepsInv(r, m);
    case ReleaseMarker(m, fault) => if m in r.handles { ReleaseKeepsInv(r, m, fault); }
    case CloseDescriptor(_, _) => OutsideKeepsInv(r, e);
    case OtherProcess(_) => OutsideKeepsInv(r, e);
  }

  lemma {:induction false} RunKeepsInv(events: seq<Event>)
    ensures Inv(Run(FRESH, events))
    decreases |events|
  {
    if events != [] {
      RunKeepsInv(events[..|events| - 1]);
      StepKeepsInv(Run(FRESH, events[..|events| - 1]), events[|events| - 1]);
    }
  }

  /** In every interleaving a writer is the only holder there is. */
  lemma WriterExcludesAll(events: seq<Event>, a: Nonce, b: Nonce)
    requires var r := Run(FRESH, events); Holds(r, a) && Holds(r, b) && r.handles[a].kind == Writer
    ensures a == b
  {
    RunKeepsInv(events);
    var r := Run(FRESH, events);
    assert Agrees(r, a) && Agrees(r, b);
  }

  /** An acquire that does not grant, whatever failed, leaves holders, registry and live nonces alone. */
  lemma FailedAcquireChangesNothing(events: seq<Event>, n: Nonce, fault: AcquireFault, readFails: bool)
    ensures var r := Run(FRESH, events);
            && (ExclusiveOutcome(r, fault) != Granted ==>
                  var r' := Apply(r, TryExclusive(n, fault));
                  r'.writer == r.writer && r'.readers == r.readers && r'.active == r.active && r'.handles == r.handles)
            && (SharedOutcome(r, readFails) != Granted ==> Apply(r, TryShared(n, readFails)) == r)
    ensures var r := Run(FRESH, events);
            ExclusiveOutcome(r, fault) == Granted && n !in r.drawn ==>
              (forall m :: !Holds(r, m)) && Holds(Apply(r, TryExclusive(n, fault)), n)
  {
    RunKeepsInv(events);
    var r := Run(FRESH, events);
    if ExclusiveOutcome(r, fault) == Granted && n !in r.drawn {
      forall m ensures !Holds(r, m) {
        assert Agrees(r, m);
      }
    }
  }

  /**
   Releasing a handle, failed or not, first or repeated, takes the lock away from
   no other handle; once its marker release succeeded a retry touches nothing.
   */
  lemma ReleaseNeverUnlocksAnother(events: seq<Event>, n: Nonce, fault: ReleaseFault, other: Nonce)
    requires other != n && Holds(Run(FRESH, events), other)
    ensures var r, r' := Run(FRESH, events), Apply(Run(FRESH, events), ReleaseMarker(n, fault));
            && Holds(r', other)
            && (r.handles[other].kind == Writer ==> r'.writer == Some(other))
            && (r.handles[other].kind == Reader ==> other in r'.readers)
    ensures var r := Run(FRESH, events);
            n in r.handles && r.handles[n].markerReleased ==> Apply(r, ReleaseMarker(n, fault)) == r
  {
    RunKeepsInv(events);
    StepKeepsInv(Run(FRESH, events), ReleaseMarker(n, fault));
    var r, r' := Run(FRESH, events), Apply(Run(FRESH, events), ReleaseMarker(n, fault));
    assert Agrees(r, n) && Agrees(r, other) && Agrees(r', other);
  }

  /** However often it failed before, a clean release of a published handle frees what it held. */
  lemma CleanReleaseFrees(events: seq<Event>, n: Nonce)
    requires var r := Run(FRESH, events); Holds(r, n) && r.handles[n].published
    ensures var r, r' := Run(FRESH, events), Apply(Run(FRESH, events), ReleaseMarker(n, Clean));
            && !Holds(r', n)
            && (r.handles[n].kind == Writer ==> r'.writer.None? && r'.readers == {} && forall m :: !Holds(r', m))
  {
    RunKeepsInv(events);
    var r, r' := Run(FRESH, events), Apply(Run(FRESH, events), ReleaseMarker(n, Clean));
    if r.handles[n].kind == Writer {
      assert Agrees(r, n);
      forall m ensures !Holds(r', m) {
        assert Agrees(r, m);
      }
    }
  }

  /** One lock path: its registry entry and its open handles. */
  class Lock {
    var writer: Option<Nonce>
    var readers: set<Nonce>
    var active: set<Nonce>
    var marker: Marker
    var handles: map<Nonce, Handle>
    ghost var drawn: set<Nonce>

    ghost function Now(): Registry
      reads this
    {
      Registry(writer, readers, active, marker, handles, drawn)
    }

    constructor ()
      ensures Now() == FRESH
    {
      writer, readers, active, marker, handles, drawn := None, {}, {}, Free, map[], {};
    }

    method MarkerHeldViaFd() returns (held: bool)
      ensures held == MarkerHeld(Now())
    {
      match marker
      case Mine(n) => held := n in active;
      case Foreign(alive) => held := alive;
      case _ => held := false;
    }

    /** One exclusive attempt under the marker mutex. */
    method AttemptExclusive(nonce: Nonce, fault: AcquireFault) returns (outcome: Attempt)
      requires nonce !in drawn && (fault.WriteFails? ==> Torn(fault.left, nonce))
      modifies this
      ensures outcome == ExclusiveOutcome(old(Now()), fault)
      ensures Now() == Apply(old(Now()), TryExclusive(nonce, fault))
    {
      if writer.Some? || readers != {} { return StillHeld; }
      drawn := if fault == ReadFails || !MarkerHeld(Now()) then drawn + {nonce} else drawn;
      if fault == ReadFails { return Threw; }
      var held := MarkerHeldViaFd();
      if held { return StillHeld; }
      if fault == TruncateFails { return Threw; }
      marker := Free;
      if fault.WriteFails? {
        marker := fault.left;
        return Threw;
      }
      marker := Mine(nonce);
      if fault == SyncFails { return Threw; }
      writer := Some(nonce);
      handles := handles[nonce := Handle(Writer, false, false, false)];
      outcome := Granted;
    }

    method AttemptShared(nonce: Nonce, readFails: bool) returns (outcome: Attempt)
      requires nonce !in drawn
      modifies this
      ensures outcome == SharedOutcome(old(Now()), readFails)
      ensures Now() == Apply(old(Now()), TryShared(nonce, readFails))
    {
      if writer.Some? { return StillHeld; }
      if readFails { return Threw; }
      var held := MarkerHeldViaFd();
      if held { return StillHeld; }
      readers := readers + {nonce};
      handles := handles[nonce := Handle(Reader, true, false, false)];
      drawn := drawn + {nonce};
      outcome := Granted;
    }

    /** The marker section of a release, once it has not succeeded before. */
    method ReleaseMarkerSection(nonce: Nonce, fault: ReleaseFault) returns (ok: bool)
      requires nonce in handles && handles[nonce].published && !handles[nonce].markerReleased
      modifies this
      ensures Now() == Apply(old(Now()), ReleaseMarker(nonce, fault))
      ensures nonce in handles && handles[nonce].markerReleased == ok
      ensures handles[nonce].fdClosed == old(handles)[nonce].fdClosed
    {
      var h := handles[nonce];
      if h.kind == Writer {
        if fault == MarkerReadFails { return false; }
        if marker.Mine? && marker.nonce in active {
          if fault == MarkerTruncateFails { return false; }
          marker := Free;
          if fault == MarkerSyncFails { return false; }
        }
        active := active - {nonce};
        writer := None;
      } else {
        readers := readers - {nonce};
      }
      handles := handles[nonce := h.(markerReleased := true)];
      ok := true;
    }

    /** release(): the marker section, then the descriptor; either may fail and be retried. */
    method Release(nonce: Nonce, fault: ReleaseFault, closeFails: bool) returns (ok: bool)
      requires nonce in handles && handles[nonce].published
      modifies this
      ensures Now() == Apply(Apply(old(Now()), ReleaseMarker(nonce, fault)),
                             CloseDescriptor(nonce, closeFails || old(handles)[nonce].fdClosed))
      ensures ok <==> nonce in handles && handles[nonce].markerReleased && handles[nonce].fdClosed
    {
      if !handles[nonce].markerReleased {
        ok := ReleaseMarkerSection(nonce, fault);
        if !ok { return; }
      }
      if !handles[nonce].fdClosed {
        if closeFails { return false; }
        handles := handles[nonce := handles[nonce].(fdClosed := true)];
      }
      ok := true;
    }
  }

  // ----- When an attempt succeeds -----

  /** Nobody in this process holds the lock, and no other live process says it does. */
  ghost predicate FreeForWriter(r: Registry) { (forall n :: !Holds(r, n)) && r.marker != Foreign(true) }

  /** Any number of readers may hold it. */
  ghost predicate FreeForReader(r: Registry) {
    (forall n :: Holds(r, n) ==> r.handles[n].kind == Reader) && r.marker != Foreign(true)
  }

  /** An attempt that meets no failure is granted exactly when the lock is free for it. */
  lemma GrantedExactly(r: Registry, n: Nonce)
    requires Inv(r) && n !in r.drawn
    ensures Holds(Apply(r, TryExclusive(n, NoFault)), n) <==> FreeForWriter(r)
    ensures Holds(Apply(r, TryShared(n, false)), n) <==> FreeForReader(r)
  {
    assert Agrees(r, n);
    MarkerIsLive(r);
    if r.writer.Some? { assert Agrees(r, r.writer.value); }
    if r.readers != {} {
      var m :| m in r.readers;
      assert Agrees(r, m);
    }
    forall m | Holds(r, m) ensures if r.handles[m].kind == Writer then r.writer == Some(m) else m in r.readers {
      assert Agrees(r, m);
    }
  }

  /** Our own marker holds only with its writer. */
  lemma MarkerIsLive(r: Registry)
    requires Inv(r)
    ensures MarkerHeld(r) <==> r.marker == Foreign(true) || (r.marker.Mine? && r.writer == Some(r.marker.nonce)
                                                               && r.marker.nonce in r.active)
  {
    if r.marker.Mine? { assert Agrees(r, r.marker.nonce); }
  }

  /** A writer that publishes has a live marker, and its release makes the lock free for the next one. */
  lemma WriterRoundTrip(r: Registry, n: Nonce)
    requires Inv(r) && n !in r.drawn && FreeForWriter(r)
    ensures
      var held := Apply(Apply(r, TryExclusive(n, NoFault)), Publish(n));
      var released := Apply(held, ReleaseMarker(n, Clean));
      && held.writer == Some(n) && held.marker == Mine(n) && MarkerHeld(held) && !FreeForWriter(held)
      && !Holds(released, n) && FreeForWriter(released) && !MarkerHeld(released)
      && released.readers == r.readers && released.active == r.active
  {
    GrantedExactly(r, n);
    assert Agrees(r, n);
    var granted := Apply(r, TryExclusive(n, NoFault));
    var held := Apply(granted, Publish(n));
    assert held.handles == r.handles[n := Handle(Writer, true, false, false)] && held.marker == Mine(n);
    var released := Apply(held, ReleaseMarker(n, Clean));
    assert released.handles == r.handles[n := Handle(Writer, true, true, false)] && released.marker == Free;
    forall m ensures !Holds(released, m) { assert m != n ==> !Holds(r, m); }
    assert Holds(held, n);
  }
}
