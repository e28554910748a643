/**
 The session inventories of a project and the transitions of their rows. Every
 transition that uses a confirmed slot keeps the project's slot invariant.
 */
module SessionStore {
  import opened Basics
  import opened Wrappers
  import opened InventoryCodec
  import opened SessionSlots

  type Files = map<string, Text>

  /** An engine without a file has an empty inventory; an undecodable file has none. */
  function EntriesIn(files: Files, engine: string): Option<seq<Row>> {
    if engine !in files then Some([])
    else match Decode(files[engine]) case None => None case Some(doc) => Some(doc.entries)
  }

  predicate ReadableIn(files: Files, engines: seq<string>) { forall e :: e in engines ==> EntriesIn(files, e).Some? }

  function InventoriesIn(files: Files, engines: seq<string>): seq<Inventory>
    requires ReadableIn(files, engines)
  {
    seq(|engines|, i requires 0 <= i < |engines| => Inventory(engines[i], EntriesIn(files, engines[i]).value))
  }

  function RowsIn(files: Files, engines: seq<string>): seq<Placed>
    requires ReadableIn(files, engines)
  {
    Flatten(InventoriesIn(files, engines))
  }

  lemma {:induction false} InFlatten(inventories: seq<Inventory>, p: Placed)
    ensures p in Flatten(inventories) <==>
              exists i :: 0 <= i < |inventories| && inventories[i].engine == p.home && p.row in inventories[i].entries
  {
    if inventories != [] {
      var front, last := inventories[..|inventories| - 1], inventories[|inventories| - 1];
      InFlatten(front, p);
      assert p in Placement(last) <==> last.engine == p.home && p.row in last.entries by {
        if last.engine == p.home && p.row in last.entries {
          var i :| 0 <= i < |last.entries| && last.entries[i] == p.row;
          assert Placement(last)[i] == p;
        }
      }
      assert forall i :: 0 <= i < |inventories| - 1 ==> inventories[i] == front[i];
    }
  }

  lemma InRows(files: Files, engines: seq<string>, p: Placed)
    requires ReadableIn(files, engines)
    ensures p in RowsIn(files, engines) <==> p.home in engines && p.row in EntriesIn(files, p.home).value
  {
    InFlatten(InventoriesIn(files, engines), p);
    var inventories := InventoriesIn(files, engines);
    if p.home in engines && p.row in EntriesIn(files, p.home).value {
      var i :| 0 <= i < |engines| && engines[i] == p.home;
      assert inventories[i].engine == p.home && p.row in inventories[i].entries;
    }
  }

  lemma StillReadable(files: Files, engines: seq<string>, engine: string, text: Text)
    requires ReadableIn(files, engines) && Decode(text).Some?
    ensures ReadableIn(files[engine := text], engines)
  {
    assert forall e :: e != engine ==> EntriesIn(files[engine := text], e) == EntriesIn(files, e);
  }

  /** After one inventory is rewritten, its rows are the new ones and the others stay. */
  lemma RowsAfterWrite(files: Files, engines: seq<string>, engine: string, text: Text, p: Placed)
    requires ReadableIn(files, engines) && engine in engines && Decode(text).Some?
    ensures ReadableIn(files[engine := text], engines)
    ensures p in RowsIn(files[engine := text], engines) <==>
              if p.home == engine then p.row in Decode(text).value.entries else p in RowsIn(files, engines)
  {
    var after := files[engine := text];
    assert forall e :: e in engines && e != engine ==> EntriesIn(after, e) == EntriesIn(files, e);
    InRows(files, engines, p);
    InRows(after, engines, p);
  }

  /** Whatever the files hold, a decoded row has one of the four slots. */
  lemma StoredSlotsInRange(files: Files, engines: seq<string>)
    requires ReadableIn(files, engines)
    ensures SlotsInRange(RowsIn(files, engines))
  {
    forall p | p in RowsIn(files, engines) ensures 0 <= p.row.lockSlot <= 3 {
      InRows(files, engines, p);
    }
  }

  // ----- Transitions -----

  /** The rows an engine may be moved to. */
  predicate Allowed(before: SessionState, after: SessionState) {
    match before
    case Reserved => after in {Running, Deleting}
    case Running => after in {Idle, Deleting}
    case Idle => after in {Running, Deleting}
    case Deleting => false
  }

  datatype Owner = Owner(runId: string, sandboxId: Option<string>, pid: int, processStartId: string, bootId: string)

  datatype Refusal =
    | InvalidSlug
    | BadLockSlot
    | Unreadable
    | Exists
    | UnknownRow
    | IllegalTransition
    | InvalidRow
    | NotEncodable(error: EncodeError)
    | WriteFailed
    | SlotConflict
    | Changed

  /** Unsure: the rename happened and the directory's fsync failed. */
  datatype Outcome = Done(row: Row) | Unsure(row: Row) | Refused(why: Refusal)

  predicate SlugStart(c: char) { 'a' <= c <= 'z' || '0' <= c <= '9' }

  predicate ValidSlug(slug: string) {
    && 1 <= |slug| <= 64 && SlugStart(slug[0])
    && forall c :: c in slug[1..] ==> SlugStart(c) || c == '_' || c == '-'
  }

  const LETTERS := "abcdefghijklmnopqrstuvwxyz"

  const DIGITS := "0123456789"

  lemma LowerLetters(c: char)
    ensures 'a' <= c <= 'z' <==> c in LETTERS
  {
    if 'a' <= c <= 'z' { assert LETTERS[c as int - 'a' as int] == c; }
  }

  lemma DecimalDigits(c: char)
    ensures '0' <= c <= '9' <==> c in DIGITS
  {
    if '0' <= c <= '9' { assert DIGITS[c as int - '0' as int] == c; }
  }

  /** One to 64 lower-case letters, digits, dashes and underscores, beginning with a letter or a digit. */
  lemma SlugExactly(slug: string)
    ensures ValidSlug(slug) <==>
              && 1 <= |slug| <= 64 && (slug[0] in LETTERS || slug[0] in DIGITS)
              && forall c :: c in slug[1..] ==> c in LETTERS || c in DIGITS || c == '_' || c == '-'
  {
    hide LETTERS, DIGITS;
    forall c: char ensures 'a' <= c <= 'z' <==> c in LETTERS { LowerLetters(c); }
    forall c: char ensures '0' <= c <= '9' <==> c in DIGITS { DecimalDigits(c); }
  }

  function IndexOfRow(rows: seq<Row>, engine: string, slug: string): (r: Option<nat>)
    ensures r.Some? ==> r.value < |rows| && rows[r.value].engine == engine && rows[r.value].slug == slug
    ensures r.None? ==> forall row :: row in rows ==> row.engine != engine || row.slug != slug
  {
    if rows == [] then None
    else if rows[0].engine == engine && rows[0].slug == slug then Some(0)
    else match IndexOfRow(rows[1..], engine, slug) case None => None case Some(i) => Some(i + 1)
  }

  function RunningRow(row: Row, owner: Owner, lockSlot: Option<int>, now: string): Row {
    row.(state := Running, runId := Some(owner.runId),
      sandboxId := if owner.sandboxId.Some? then owner.sandboxId else row.sandboxId,
      lockSlot := if lockSlot.Some? then lockSlot.value else row.lockSlot,
      pid := Some(owner.pid), processStartId := Some(owner.processStartId), bootId := Some(owner.bootId),
      updatedAt := now)
  }

  function IdleRow(row: Row, now: string): Row {
    row.(state := Idle, runId := None, sandboxId := None, pid := None, processStartId := None, bootId := None,
         updatedAt := now)
  }

  function DeletingRow(row: Row, owner: Owner, phase: DeletePhase, now: string): Row {
    row.(state := Deleting, runId := Some(owner.runId), sandboxId := owner.sandboxId, pid := Some(owner.pid),
      processStartId := Some(owner.processStartId), bootId := Some(owner.bootId),
      deletingBasename := Some(DeletingBasename(row.engine, row.slug, owner.runId)), deletePhase := Some(phase),
      updatedAt := now)
  }

  lemma EncodedReads(engine: string, list: seq<Row>, now: string, jsonBytes: Document -> nat)
    requires Encode(list, now, jsonBytes).Ok? && Timestamp(now) && '\0' !in engine
    requires forall r :: r in list ==> r.engine == engine
    ensures Decode(Encode(list, now, jsonBytes).value) == Some(Document(SCHEMA_VERSION, Sorted(list), now))
    ensures forall r :: r in Sorted(list) <==> r in list
  {
    DecodeEncode(list, now, jsonBytes);
    EncodedRows(list, now, jsonBytes);
    assert forall r :: r in Sorted(list) <==> r in multiset(list);
  }

  /** Decoded rows have different keys. */
  lemma KeysDiffer(files: Files, engine: string, i: nat, j: nat)
    requires EntriesIn(files, engine).Some? && i < j < |EntriesIn(files, engine).value|
    requires forall r :: r in EntriesIn(files, engine).value ==> '\0' !in r.engine
    ensures !SameKey(EntriesIn(files, engine).value[i], EntriesIn(files, engine).value[j])
  {
    var rows := EntriesIn(files, engine).value;
    KeysRiseFar(rows, i, j);
    KeyOrder(rows[i], rows[j]);
    LessIsOrder(rows[i], rows[j], rows[j]);
  }

  /** The rows with row in place of the one with its key, or added. */
  ghost predicate Puts(before: seq<Row>, after: seq<Row>, row: Row) {
    forall r :: r in after <==> r == row || (r in before && !SameKey(r, row))
  }

  /** A live row needs a slot no other live slug holds; every row needs its slug's slot. */
  predicate RowFits(rows: seq<Placed>, row: Row) {
    && (forall p :: p in rows && p.row.slug == row.slug ==> p.row.lockSlot == row.lockSlot)
    && (Live(row) ==> !ConflictingLive(rows, row.slug, row.lockSlot))
  }

  /** Rewriting one inventory with one new row that fits keeps the invariant. */
  lemma FittingRowKeepsInvariant(files: Files, engines: seq<string>, engine: string, text: Text, row: Row)
    requires ReadableIn(files, engines) && Invariant(RowsIn(files, engines)) && engine in engines && Decode(text).Some?
    requires forall r :: r in Decode(text).value.entries ==> r == row || r in EntriesIn(files, engine).value
    requires RowFits(RowsIn(files, engines), row)
    ensures ReadableIn(files[engine := text], engines) && Invariant(RowsIn(files[engine := text], engines))
  {
    var rows, placed := RowsIn(files, engines), Placed(engine, row);
    RowsAfterWrite(files, engines, engine, text, placed);
    var changed := RowsIn(files[engine := text], engines);
    forall p | p in changed ensures p in rows || p == placed {
      RowsAfterWrite(files, engines, engine, text, p);
      InRows(files, engines, p);
    }
    if placed !in changed {
      InvariantShrinks(changed, rows);
    } else if Live(row) {
      FitsStill(rows, changed, placed);
      LiveRowFits(rows, changed, placed);
    } else {
      IdleRowFits(rows, changed, placed);
    }
  }

  class Store {
    /** The canonical engines. */
    const engines: seq<string>
    const jsonBytes: Document -> nat
    /** No file operation fails. */
    const reliable: bool
    var files: Files

    ghost predicate Valid()
      reads this
    {
      && (forall e :: e in engines ==> '\0' !in e)
      && (forall e :: e in engines && EntriesIn(files, e).Some? ==>
          forall r :: r in EntriesIn(files, e).value ==> r.engine == e)
    }

    ghost predicate Sound()
      reads this
    {
      SoundIn(files, engines)
    }

    /** Publishes a list of rows; the file changes whole or not at all. */
    method Write(engine: string, list: seq<Row>, now: string) returns (error: Option<Refusal>, sure: bool)
      requires Valid() && engine in engines && Timestamp(now)
      requires forall r :: r in list ==> r.engine == engine
      modifies this
      ensures Valid()
      ensures error.Some? ==> files == old(files) && WriteRefused(error.value, list, now)
      ensures error.None? && reliable ==> sure
      ensures error.None? ==>
                && engine in files && files == old(files)[engine := files[engine]]
                && Decode(files[engine]) == Some(Document(SCHEMA_VERSION, Sorted(list), now))
                && forall r :: r in Sorted(list) <==> r in list
    {
      sure := false;
      var text := Encode(list, now, jsonBytes);
      if text.Err? { return Some(NotEncodable(text.error)), false; }
      var failed: bool := *;
      if failed && !reliable { return Some(WriteFailed), false; }
      EncodedReads(engine, list, now, jsonBytes);
      files := files[engine := text.value];
      failed := *;
      error, sure := None, reliable || !failed;
    }

    /** The rows cannot be encoded, or an operation failed. */
    ghost predicate WriteRefused(why: Refusal, list: seq<Row>, now: string) {
      if why.NotEncodable? then Encode(list, now, jsonBytes) == Err(why.error) else why == WriteFailed && !reliable
    }

    /** The new row is not valid, the rows with it cannot be encoded, or an operation failed. */
    ghost predicate PutRefused(why: Refusal, before: seq<Row>, next: Row, now: string) {
      if why == InvalidRow then !ValidEntry(next)
      else exists list :: Puts(before, list, next) && WriteRefused(why, list, now)
    }

    /** Rows that had one key each: the row at idx gives way to next, or next comes last. */
    method Put(engine: string, idx: Option<nat>, next: Row, now: string) returns (o: Outcome)
      requires Valid() && engine in engines && Timestamp(now) && next.engine == engine
      requires EntriesIn(files, engine).Some?
      requires idx.Some? ==> idx.value < |EntriesIn(files, engine).value|
      requires idx.Some? ==> SameKey(EntriesIn(files, engine).value[idx.value], next)
      requires idx.None? ==> forall r :: r in EntriesIn(files, engine).value ==> !SameKey(r, next)
      modifies this
      ensures Valid()
      ensures o.Refused? ==> files == old(files)
      ensures o == Refused(InvalidRow) <==> !ValidEntry(next)
      ensures o.Refused? ==> PutRefused(o.why, EntriesIn(old(files), engine).value, next, now)
      ensures reliable ==> !o.Unsure?
      ensures !o.Refused? ==>
                && o.row == next && ValidEntry(next) && PutIn(old(files), files, engine, next)
      ensures old(Sound()) && (o.Refused? || old(RowFits(RowsIn(files, engines), next))) ==> Sound()
    {
      var entries := EntriesIn(files, engine).value;
      if !ValidEntry(next) { return Refused(InvalidRow); }
      PutList(files, engine, idx, next);
      var error, sure := Write(engine, Listed(entries, idx, next), now);
      if error.Some? { return Refused(error.value); }
      o := if sure then Done(next) else Unsure(next);
      PutWritten(old(files), engine, files[engine], Listed(entries, idx, next), next);
      PutKeepsSound(old(files), engines, engine, files[engine], next);
    }

    /** 128 random bits in hex. */
    method RandomHex() returns (hex: string)
      ensures Hex(hex, 32)
    {
      hex := "";
      while |hex| < 32
        invariant |hex| <= 32 && Hex(hex, |hex|)
      {
        var c: char := *;
        hex := hex + [if Digit(c) || 'a' <= c <= 'f' then c else '0'];
      }
    }

    /** Admission: a new live row on the slot given; an identity or a sandbox that is not given is generated. */
    method ReserveCoderSession(engine: string, slug: string, instanceId: Option<string>, isolation: Isolation,
                               lockSlot: int, fingerprint: string, owner: Owner, now: string)
      returns (o: Outcome)
      requires Valid() && engine in engines && Timestamp(now)
      modifies this
      ensures Valid()
      ensures o.Refused? ==> files == old(files)
      ensures !o.Refused? ==>
                && RowIn(old(files), engine, slug).None?
                && ReservedAs(o.row, engine, slug, instanceId, isolation, lockSlot, fingerprint, owner, now)
                && ValidEntry(o.row) && PutIn(old(files), files, engine, o.row)
      ensures o == Refused(InvalidRow) <==>
                && ValidSlug(slug) && lockSlot in SLOTS && EntriesIn(old(files), engine).Some?
                && RowIn(old(files), engine, slug).None?
                && !Reservable(engine, instanceId, fingerprint, owner)
      ensures o.Refused? ==>
                var before := EntriesIn(old(files), engine);
                match o.why
                case InvalidSlug => !ValidSlug(slug)
                case BadLockSlot => lockSlot !in SLOTS
                case Unreadable => before.None?
                case Exists => RowIn(old(files), engine, slug).Some?
                case why => before.Some? && exists row :: PutRefused(why, before.value, row, now)
      ensures reliable ==> !o.Unsure?
      ensures old(Sound()) && (o.Refused? || old(Confirmed(RowsIn(files, engines), slug, lockSlot))) ==> Sound()
    {
      if !ValidSlug(slug) { return Refused(InvalidSlug); }
      if lockSlot !in SLOTS { return Refused(BadLockSlot); }
      var read := EntriesIn(files, engine);
      if read.None? { return Refused(Unreadable); }
      if IndexOfRow(read.value, engine, slug).Some? { return Refused(Exists); }
      var instance := RandomHex();
      var sandbox := RandomHex();
      var row := ReservedRow(engine, slug, if instanceId.Some? then instanceId.value else instance, isolation, lockSlot,
                             fingerprint, owner, "sbx_" + sandbox, now);
      ReservedIsAs(instanceId, instance, sandbox, engine, slug, isolation, lockSlot, fingerprint, owner, now);
      hide ValidEntry, ReservedAs, Reservable, ReservedRow, ValidSlug;
      o := Put(engine, None, row, now);
      if old(Sound()) { ConfirmedExactly(RowsIn(old(files), engines), slug, lockSlot); }
    }

    /** reserved or idle to running; a slot may be given to bind the row to. */
    method MarkCoderSessionRunning(engine: string, slug: string, owner: Owner, lockSlot: Option<int>, now: string)
      returns (o: Outcome)
      requires Valid() && engine in engines && Timestamp(now)
      modifies this
      ensures Valid()
      ensures o.Refused? ==> files == old(files)
      ensures !o.Refused? ==>
                && RowIn(old(files), engine, slug).Some?
                && RowIn(old(files), engine, slug).value.state in {Reserved, Idle}
                && o.row == RunningRow(RowIn(old(files), engine, slug).value, owner, lockSlot, now) && ValidEntry(o.row)
                && PutIn(old(files), files, engine, o.row)
                && SameSession(RowIn(old(files), engine, slug).value, o.row) && o.row.state == Running
                && OwnedBy(o.row, owner)
      ensures o.Refused? ==>
                var before, row := EntriesIn(old(files), engine), RowIn(old(files), engine, slug);
                match o.why
                case Unreadable => before.None?
                case UnknownRow => before.Some? && row.None?
                case IllegalTransition => row.Some? && row.value.state in {Running, Deleting}
                case BadLockSlot => lockSlot.Some? && lockSlot.value !in SLOTS
                case why => row.Some? && PutRefused(why, before.value, RunningRow(row.value, owner, lockSlot, now), now)
      ensures reliable ==> !o.Unsure?
      ensures !o.Refused? && old(ReadableIn(files, engines)) &&
              old(Confirmed(RowsIn(files, engines), slug, o.row.lockSlot)) ==>
                o.row.lockSlot == RowIn(old(files), engine, slug).value.lockSlot
      ensures old(Sound()) &&
              (o.Refused? || (lockSlot.None? && RowIn(old(files), engine, slug).value.state == Reserved)
               || old(Confirmed(RowsIn(files, engines), slug, o.row.lockSlot)))
              ==> Sound()
    {
      var read := EntriesIn(files, engine);
      if read.None? { return Refused(Unreadable); }
      var idx := IndexOfRow(read.value, engine, slug);
      if idx.None? { return Refused(UnknownRow); }
      var row := read.value[idx.value];
      if !Allowed(row.state, Running) { return Refused(IllegalTransition); }
      if lockSlot.Some? && lockSlot.value !in SLOTS { return Refused(BadLockSlot); }
      var next := RunningRow(row, owner, lockSlot, now);
      o := Put(engine, idx, next, now);
      if old(ReadableIn(files, engines)) { ConfirmedStays(old(files), engines, engine, slug, next.lockSlot); }
      if old(Sound()) {
        ConfirmedExactly(RowsIn(old(files), engines), slug, next.lockSlot);
        StayedRowFits(old(files), engines, engine, idx.value, next);
      }
    }

    /** running to idle. */
    method MarkCoderSessionIdle(engine: string, slug: string, now: string) returns (o: Outcome)
      requires Valid() && engine in engines && Timestamp(now)
      modifies this
      ensures Valid()
      ensures o.Refused? ==> files == old(files)
      ensures !o.Refused? ==>
                && RowIn(old(files), engine, slug).Some? && RowIn(old(files), engine, slug).value.state == Running
                && o.row == IdleRow(RowIn(old(files), engine, slug).value, now) && ValidEntry(o.row)
                && PutIn(old(files), files, engine, o.row)
                && SameSession(RowIn(old(files), engine, slug).value, o.row) && o.row.state == Idle
                && o.row.lockSlot == RowIn(old(files), engine, slug).value.lockSlot && o.row.runId.None?
      ensures o.Refused? ==>
                var before, row := EntriesIn(old(files), engine), RowIn(old(files), engine, slug);
                match o.why
                case Unreadable => before.None?
                case UnknownRow => before.Some? && row.None?
                case IllegalTransition => row.Some? && row.value.state != Running
                case why => row.Some? && PutRefused(why, before.value, IdleRow(row.value, now), now)
      ensures reliable ==> !o.Unsure?
      ensures old(Sound()) ==> Sound()
    {
      var read := EntriesIn(files, engine);
      if read.None? { return Refused(Unreadable); }
      var idx := IndexOfRow(read.value, engine, slug);
      if idx.None? { return Refused(UnknownRow); }
      var row := read.value[idx.value];
      if !Allowed(row.state, Idle) { return Refused(IllegalTransition); }
      o := Put(engine, idx, IdleRow(row, now), now);
      if old(Sound()) { StayedRowFits(old(files), engines, engine, idx.value, IdleRow(row, now)); }
    }

    /** Any state but deleting to deleting, with the owner of the clean action. */
    method BeginCoderSessionDelete(engine: string, slug: string, owner: Owner, phase: DeletePhase, now: string)
      returns (o: Outcome)
      requires Valid() && engine in engines && Timestamp(now)
      modifies this
      ensures Valid()
      ensures o.Refused? ==> files == old(files)
      ensures !o.Refused? ==>
                && RowIn(old(files), engine, slug).Some? && RowIn(old(files), engine, slug).value.state != Deleting
                && o.row == DeletingRow(RowIn(old(files), engine, slug).value, owner, phase, now) && ValidEntry(o.row)
                && PutIn(old(files), files, engine, o.row)
                && SameSession(RowIn(old(files), engine, slug).value, o.row) && o.row.state == Deleting
                && o.row.lockSlot == RowIn(old(files), engine, slug).value.lockSlot && OwnedBy(o.row, owner)
                && o.row.deletingBasename == Some(".deleting-" + engine + "-" + slug + "-" + owner.runId)
                && o.row.deletePhase == Some(phase)
      ensures o.Refused? ==>
                var before, row := EntriesIn(old(files), engine), RowIn(old(files), engine, slug);
                match o.why
                case Unreadable => before.None?
                case UnknownRow => before.Some? && row.None?
                case IllegalTransition => row.Some? && row.value.state == Deleting
                case why => row.Some? && PutRefused(why, before.value, DeletingRow(row.value, owner, phase, now), now)
      ensures reliable ==> !o.Unsure?
      ensures old(Sound()) &&
              (o.Refused? || RowIn(old(files), engine, slug).value.state != Idle
               || old(CleanupClear(RowsIn(files, engines), engine, slug)))
              ==> Sound()
    {
      var read := EntriesIn(files, engine);
      if read.None? { return Refused(Unreadable); }
      var idx := IndexOfRow(read.value, engine, slug);
      if idx.None? { return Refused(UnknownRow); }
      var row := read.value[idx.value];
      if !Allowed(row.state, Deleting) { return Refused(IllegalTransition); }
      var next := DeletingRow(row, owner, phase, now);
      o := Put(engine, idx, next, now);
      if old(Sound()) { StayedRowFits(old(files), engines, engine, idx.value, next); }
    }

    /** Removes a deleting row; removing a row that is not there rewrites the same rows. */
    method RemoveCoderSessionRow(engine: string, slug: string, now: string)
      returns (error: Option<Refusal>, removed: bool)
      requires Valid() && engine in engines && Timestamp(now)
      modifies this
      ensures Valid()
      ensures error.Some? ==> files == old(files)
      ensures error.Some? ==>
                match error.value
                case Unreadable => EntriesIn(old(files), engine).None?
                case IllegalTransition =>
                  RowIn(old(files), engine, slug).Some? && RowIn(old(files), engine, slug).value.state != Deleting
                case why => exists list :: WriteRefused(why, list, now)
      ensures error.None? ==>
                && EntriesIn(old(files), engine).Some? && EntriesIn(files, engine).Some?
                && (removed <==> RowIn(old(files), engine, slug).Some?)
                && (removed ==> RowIn(old(files), engine, slug).value.state == Deleting)
                && (forall r :: r in EntriesIn(files, engine).value <==>
                      r in EntriesIn(old(files), engine).value && !(r.engine == engine && r.slug == slug))
                && (forall e :: e != engine ==> EntriesIn(files, e) == EntriesIn(old(files), e))
      ensures old(Sound()) ==> Sound()
    {
      removed := false;
      var read := EntriesIn(files, engine);
      if read.None? { return Some(Unreadable), false; }
      var idx := IndexOfRow(read.value, engine, slug);
      if idx.Some? && read.value[idx.value].state != Deleting { return Some(IllegalTransition), false; }
      var rest := Without(read.value, engine, slug);
      var sure;
      error, sure := Write(engine, rest, now);
      if error.None? {
        removed := idx.Some?;
        if old(Sound()) { FewerRowsKeepInvariant(old(files), engines, engine, files[engine]); }
      }
    }

    /**
     Admission under the inventory lock: the slot leased for this run is checked
     against fresh inventories; a new slug gets a reserved row, an idle one is
     continued. With a sound store it stays sound whatever is refused or fails.
     */
    method Admit(engine: string, slug: string, candidate: int, request: Request, owner: Owner, now: string)
      returns (a: Admission)
      requires Valid() && engine in engines && Timestamp(now)
      modifies this
      ensures Valid()
      ensures old(Sound()) ==> Sound()
      ensures !a.Claimed? || a.outcome.Refused? ==> files == old(files)
      ensures a == Denied(StoreUnreadable) <==> !old(ReadableIn(files, engines))
      ensures old(ReadableIn(files, engines)) ==>
                var resolved := Resolve(old(RowsIn(files, engines)), slug, Some(candidate));
                && (forall e :: a == Denied(Slot(e)) <==> resolved == Err(e))
                && (a == Retake <==> resolved.Ok? && resolved.value.retake)
      ensures old(ReadableIn(files, engines)) && old(Confirmed(RowsIn(files, engines), slug, candidate)) ==>
                Answers(a, RowIn(old(files), engine, slug), request)
      ensures a.Claimed? ==> old(ReadableIn(files, engines)) && old(Confirmed(RowsIn(files, engines), slug, candidate))
      ensures a.Claimed? ==> ClaimHolds(old(files), files, engine, slug, candidate, request, owner, now, a)
      ensures a == Denied(Slot(Capacity)) && old(Sound()) ==>
                old(|LiveSlugs(RowsIn(files, engines))|) == 4
    {
      if !ReadableIn(files, engines) { return Denied(StoreUnreadable); }
      var resolved := ResolveProjectCoderSessionSlot(InventoriesIn(files, engines), slug, Some(candidate));
      if resolved.Err? {
        StoredSlotsInRange(files, engines);
        if resolved.error.Capacity? { CapacityExactly(RowsIn(files, engines), slug, Some(candidate)); }
        return Denied(Slot(resolved.error));
      }
      if resolved.value.retake { return Retake; }
      hide RowsIn, InventoriesIn, Invariant, Confirmed, MayContinue, ClaimHolds;
      a := AdmitConfirmed(engine, slug, candidate, request, owner, now);
    }

    /** What a claim has written, or why the store refused to write it. */
    ghost predicate ClaimHolds(before: Files, after: Files, engine: string, slug: string, candidate: int,
                               request: Request, owner: Owner, now: string, a: Admission)
      requires a.Claimed?
    {
      var existing, entries := RowIn(before, engine, slug), EntriesIn(before, engine);
      && (a.continued <==> existing.Some?) && entries.Some?
      && match a.outcome
         case Refused(why) =>
           && after == before
           && (if a.continued then
                 PutRefused(why, entries.value, RunningRow(existing.value, owner, Some(candidate), now), now)
               else !ValidSlug(slug) || exists row :: PutRefused(why, entries.value, row, now))
         case _ =>
           var row := a.outcome.row;
           && row.slug == slug && row.lockSlot == candidate && row.state == (if a.continued then Running else Reserved)
           && row.isolation == request.isolation && row.fingerprint == request.fingerprint
           && OwnedBy(row, owner) && PutIn(before, after, engine, row)
           && (a.continued ==> SameSession(existing.value, row) && existing.value.lockSlot == candidate)
    }

    /** Admission once the candidate is confirmed. */
    method AdmitConfirmed(engine: string, slug: string, candidate: int, request: Request, owner: Owner, now: string)
      returns (a: Admission)
      requires Valid() && engine in engines && Timestamp(now)
      requires ReadableIn(files, engines) && Confirmed(RowsIn(files, engines), slug, candidate)
      modifies this
      ensures Valid()
      ensures old(Sound()) ==> Sound()
      ensures !a.Claimed? || a.outcome.Refused? ==> files == old(files)
      ensures Answers(a, RowIn(old(files), engine, slug), request)
      ensures a.Claimed? ==> ClaimHolds(old(files), files, engine, slug, candidate, request, owner, now, a)
    {
      hide Flatten, Confirmed, Resolve, Invariant, ClaimHolds, RowsIn, Valid, Sound, ReadableIn, Timestamp;
      ConfirmedSlot(RowsIn(files, engines), slug, candidate);
      var existing := RowIn(files, engine, slug);
      if existing.None? {
        if request.mapping.Malformed? || request.mapping.Published? { return Denied(OrphanMapping); }
        a := ClaimNew(engine, slug, candidate, request, owner, now);
        return;
      }
      if existing.value.state != Idle { return Denied(Busy); }
      if existing.value.isolation != request.isolation || existing.value.fingerprint != request.fingerprint {
        return Denied(Incompatible);
      }
      if request.mapping == Absent { return Denied(Incompatible); }
      if request.mapping == Malformed { return Denied(BadMapping); }
      a := ClaimExisting(engine, slug, candidate, request, owner, now);
    }

    /** A new session gets its reserved row. */
    method ClaimNew(engine: string, slug: string, candidate: int, request: Request, owner: Owner, now: string)
      returns (a: Admission)
      requires Valid() && engine in engines && Timestamp(now) && candidate in SLOTS
      requires ReadableIn(files, engines) && Confirmed(RowsIn(files, engines), slug, candidate)
      requires RowIn(files, engine, slug).None?
      modifies this
      ensures Valid() && a.Claimed? && !a.continued
      ensures a.outcome.Refused? ==> files == old(files)
      ensures old(Sound()) ==> Sound()
      ensures ClaimHolds(old(files), files, engine, slug, candidate, request, owner, now, a)
    {
      hide Flatten, Confirmed, Resolve, Invariant, PutIn, RowsIn;
      var o := ReserveCoderSession(engine, slug, None, request.isolation,
          candidate, request.fingerprint, owner, now);
      a := Claimed(o, false);
    }

    /** An idle session that may be continued goes on running. */
    method ClaimExisting(engine: string, slug: string, candidate: int, request: Request, owner: Owner, now: string)
      returns (a: Admission)
      requires Valid() && engine in engines && Timestamp(now) && candidate in SLOTS
      requires ReadableIn(files, engines) && Confirmed(RowsIn(files, engines), slug, candidate)
      requires RowIn(files, engine, slug).Some? && MayContinue(RowIn(files, engine, slug).value, request)
      modifies this
      ensures Valid() && a.Claimed? && a.continued
      ensures a.outcome.Refused? ==> files == old(files)
      ensures old(Sound()) ==> Sound()
      ensures ClaimHolds(old(files), files, engine, slug, candidate, request, owner, now, a)
    {
      assert RunningRow(RowIn(files, engine, slug).value, owner, Some(candidate), now).lockSlot == candidate;
      hide Flatten, Confirmed, Resolve, Invariant, PutIn, PutRefused, RowsIn, RunningRow, OwnedBy;
      var o := MarkCoderSessionRunning(engine, slug, owner, Some(candidate), now);
      a := Claimed(o, true);
    }

    /**
     The start of cleaning under the inventory lock: the cleanup check, the check that
     the row is still the incarnation that was looked at, then the deleting row. A row
     that is being deleted already is left as it is.
     */
    method StartClean(engine: string, slug: string, seen: Row, owner: Owner, phase: DeletePhase, now: string)
      returns (o: Outcome)
      requires Valid() && engine in engines && Timestamp(now)
      modifies this
      ensures Valid()
      ensures old(Sound()) ==> Sound()
      ensures o.Refused? ==> files == old(files)
      ensures !o.Refused? ==>
                && old(ReadableIn(files, engines)) && old(CleanupClear(RowsIn(files, engines), engine, slug))
                && RowIn(old(files), engine, slug).Some? && o.row.state == Deleting
                && SameIncarnation(RowIn(old(files), engine, slug).value, seen)
                && SameSession(RowIn(old(files), engine, slug).value, o.row)
                && if RowIn(old(files), engine, slug).value.state == Deleting then files == old(files)
                   else OwnedBy(o.row, owner) && PutIn(old(files), files, engine, o.row)
      ensures o.Refused? ==>
                var row := RowIn(old(files), engine, slug);
                match o.why
                case Unreadable => !old(ReadableIn(files, engines))
                case SlotConflict =>
                  old(ReadableIn(files, engines)) &&
                  old(!Invariant(RowsIn(files, engines)) || !CleanupClear(RowsIn(files, engines), engine, slug))
                case Changed => row.None? || !SameIncarnation(row.value, seen)
                case why =>
                  && row.Some? && row.value.state != Deleting
                  && PutRefused(why, EntriesIn(old(files), engine).value,
                                DeletingRow(row.value, owner, phase, now), now)
    {
      if !ReadableIn(files, engines) { return Refused(Unreadable); }
      var reasons := ValidateCleanupSlot(InventoriesIn(files, engines), engine, slug);
      if reasons != [] { return Refused(SlotConflict); }
      var row := RowIn(files, engine, slug);
      if || row.None? || row.value.instanceId != seen.instanceId || row.value.isolation != seen.isolation
         || row.value.lockSlot != seen.lockSlot || row.value.fingerprint != seen.fingerprint
         || row.value.createdAt != seen.createdAt { return Refused(Changed); }
      if row.value.state == Deleting { return Done(row.value); }
      o := BeginCoderSessionDelete(engine, slug, owner, phase, now);
    }
  }

  function ReservedRow(engine: string, slug: string, instanceId: string, isolation: Isolation, lockSlot: int,
                       fingerprint: string, owner: Owner, sandboxId: string, now: string): (row: Row)
    ensures row.engine == engine && row.slug == slug && row.lockSlot == lockSlot && Live(row)
  {
    Row(engine, slug, instanceId, isolation, lockSlot, Reserved, Some(owner.runId),
        Some(if owner.sandboxId.Some? then owner.sandboxId.value else sandboxId), Some(owner.pid),
        Some(owner.processStartId), Some(owner.bootId), fingerprint, RESERVED_BYTES, None, None, now, now)
  }

  lemma ReservedIsAs(instanceId: Option<string>, instance: string, sandbox: string, engine: string, slug: string,
      isolation: Isolation, lockSlot: int, fingerprint: string, owner: Owner, now: string)
    requires Hex(instance, 32) && Hex(sandbox, 32) && ValidSlug(slug) && lockSlot in SLOTS && Timestamp(now)
    ensures
      var row := ReservedRow(engine, slug, if instanceId.Some? then instanceId.value else instance, isolation,
        lockSlot, fingerprint, owner, "sbx_" + sandbox, now);
      && ReservedAs(row, engine, slug, instanceId, isolation, lockSlot, fingerprint, owner, now)
      && (ValidEntry(row) <==> Reservable(engine, instanceId, fingerprint, owner))
  {
    assert ("sbx_" + sandbox)[4..] == sandbox && ("sbx_" + sandbox)[..4] == "sbx_";
    hide Hex, Timestamp;
  }

  /** What a session keeps through all its transitions. */
  predicate SameSession(a: Row, b: Row) {
    && a.engine == b.engine && a.slug == b.slug && a.instanceId == b.instanceId && a.isolation == b.isolation
    && a.fingerprint == b.fingerprint && a.reservedBytes == b.reservedBytes && a.createdAt == b.createdAt
  }

  /** The fields by which cleaning tells two incarnations of a slug apart. */
  predicate SameIncarnation(a: Row, b: Row) {
    && a.instanceId == b.instanceId && a.isolation == b.isolation && a.lockSlot == b.lockSlot
    && a.fingerprint == b.fingerprint && a.createdAt == b.createdAt
  }

  predicate OwnedBy(row: Row, owner: Owner) {
    && row.runId == Some(owner.runId) && row.pid == Some(owner.pid)
    && row.processStartId == Some(owner.processStartId) && row.bootId == Some(owner.bootId)
    && (owner.sandboxId.Some? ==> row.sandboxId == owner.sandboxId)
  }

  /** The request goes on with the conversation of the row: its mode, its project, and a mapping to resume. */
  predicate MayContinue(row: Row, request: Request) {
    && row.state == Idle && row.isolation == request.isolation && row.fingerprint == request.fingerprint
    && (request.mapping == Published || request.mapping == NotApplicable)
  }

  /** Each answer to a confirmed candidate, by what there was and what is asked for. */
  ghost predicate Answers(a: Admission, existing: Option<Row>, request: Request) {
    var orphan := request.mapping == Malformed || request.mapping == Published;
    && (a == Denied(OrphanMapping) <==> existing.None? && orphan)
    && (a.Claimed? && !a.continued <==> existing.None? && !orphan)
    && (a == Denied(Busy) <==> existing.Some? && existing.value.state != Idle)
    && (a.Claimed? && a.continued <==> existing.Some? && MayContinue(existing.value, request))
    && (a == Denied(Incompatible) <==>
          && existing.Some? && existing.value.state == Idle
          && (existing.value.isolation != request.isolation || existing.value.fingerprint != request.fingerprint
              || request.mapping == Absent))
    && (a == Denied(BadMapping) <==>
          && existing.Some? && existing.value.state == Idle && request.mapping == Malformed
          && existing.value.isolation == request.isolation && existing.value.fingerprint == request.fingerprint)
  }

  /** A reserved row for these values; what is not given is any well-formed identity or sandbox. */
  predicate ReservedAs(row: Row, engine: string, slug: string, instanceId: Option<string>, isolation: Isolation,
                       lockSlot: int, fingerprint: string, owner: Owner, now: string) {
    && row.engine == engine && row.slug == slug && row.isolation == isolation && row.lockSlot == lockSlot
    && row.state == Reserved && row.fingerprint == fingerprint && row.createdAt == now && row.updatedAt == now
    && (if instanceId.Some? then row.instanceId == instanceId.value else Hex(row.instanceId, 32))
    && (if owner.sandboxId.Some? then row.sandboxId == owner.sandboxId
        else row.sandboxId.Some? && SandboxId(row.sandboxId.value))
    && row.runId == Some(owner.runId) && row.pid == Some(owner.pid)
    && row.processStartId == Some(owner.processStartId) && row.bootId == Some(owner.bootId)
  }

  /** The values given pass the validation of a row; what is generated always does. */
  predicate Reservable(engine: string, instanceId: Option<string>, fingerprint: string, owner: Owner) {
    && 0 < |engine| <= 64 && Hex(fingerprint, 64) && owner.runId != "" && owner.pid > 0
    && (instanceId.Some? ==> Hex(instanceId.value, 32))
    && (owner.sandboxId.Some? ==> SandboxId(owner.sandboxId.value))
  }

  lemma ConfirmedSlot(rows: seq<Placed>, slug: string, slot: int)
    requires Confirmed(rows, slug, slot)
    ensures slot in SLOTS
  {
    ConfirmedExactly(rows, slug, slot);
  }

  lemma ConfirmedStays(files: Files, engines: seq<string>, engine: string, slug: string, slot: int)
    requires ReadableIn(files, engines) && engine in engines && RowIn(files, engine, slug).Some?
    ensures Confirmed(RowsIn(files, engines), slug, slot) ==> slot == RowIn(files, engine, slug).value.lockSlot
  {
    var row := RowIn(files, engine, slug).value;
    ConfirmedExactly(RowsIn(files, engines), slug, slot);
    InRows(files, engines, Placed(engine, row));
  }

  /** What the session store maps the slug to; nothing applies to engines that the store does not serve. */
  datatype Mapping = NotApplicable | Absent | Malformed | Published

  datatype Request = Request(isolation: Isolation, fingerprint: string, mapping: Mapping)

  datatype Denial = StoreUnreadable | Slot(error: SlotError) | OrphanMapping | Busy | Incompatible | BadMapping

  datatype Admission = Retake | Claimed(outcome: Outcome, continued: bool) | Denied(why: Denial)

  /** The row of a slug in an engine's inventory. */
  function RowIn(files: Files, engine: string, slug: string): (r: Option<Row>)
    ensures r.Some? ==>
              && r.value.engine == engine && r.value.slug == slug
              && EntriesIn(files, engine).Some? && r.value in EntriesIn(files, engine).value
  {
    var entries := EntriesIn(files, engine);
    if entries.None? then None
    else match IndexOfRow(entries.value, engine, slug) case None => None case Some(i) => Some(entries.value[i])
  }

  /** One row was put into one engine's inventory and nothing else changed. */
  ghost predicate PutIn(before: Files, after: Files, engine: string, row: Row) {
    && EntriesIn(before, engine).Some? && EntriesIn(after, engine).Some?
    && Puts(EntriesIn(before, engine).value, EntriesIn(after, engine).value, row)
    && forall e :: e != engine ==> EntriesIn(after, e) == EntriesIn(before, e)
  }

  lemma PutWritten(files: Files, engine: string, text: Text, list: seq<Row>, next: Row)
    requires EntriesIn(files, engine).Some? && Puts(EntriesIn(files, engine).value, list, next)
    requires Decode(text).Some? && forall r :: r in Decode(text).value.entries <==> r in list
    ensures PutIn(files, files[engine := text], engine, next)
    ensures Puts(EntriesIn(files, engine).value, Decode(text).value.entries, next)
  {
  }

  /** The cleanup check finds no live row of another slug on the slot. */
  ghost predicate CleanupClear(rows: seq<Placed>, engine: string, slug: string) {
    forall t, l :: !CleanupConflict(rows, engine, slug, t, l)
  }

  function Without(rows: seq<Row>, engine: string, slug: string): (rest: seq<Row>)
    ensures forall r :: r in rest <==> r in rows && !(r.engine == engine && r.slug == slug)
  {
    if rows == [] then []
    else
      var rest := Without(rows[1..], engine, slug);
      if rows[0].engine == engine && rows[0].slug == slug then rest else [rows[0]] + rest
  }

  /** The row at idx may become next on its own slot: when it was live, goes idle, or no other live slug is there. */
  lemma StayedRowFits(files: Files, engines: seq<string>, engine: string, idx: nat, next: Row)
    requires SoundIn(files, engines) && engine in engines && idx < |EntriesIn(files, engine).value|
    requires SameKey(EntriesIn(files, engine).value[idx], next) && next.engine == engine
    ensures
      var row := EntriesIn(files, engine).value[idx];
      next.lockSlot == row.lockSlot &&
      (Live(row) || !Live(next) || CleanupClear(RowsIn(files, engines), engine, next.slug))
      ==> RowFits(RowsIn(files, engines), next)
  {
    var rows, p := RowsIn(files, engines), Placed(engine, EntriesIn(files, engine).value[idx]);
    InRows(files, engines, p);
    if next.lockSlot == p.row.lockSlot && CleanupClear(rows, engine, next.slug) {
      forall q | q in rows && Live(q.row) && q.row.slug != next.slug ensures q.row.lockSlot != next.lockSlot {
        assert !CleanupConflict(rows, engine, next.slug, p, q);
      }
    }
  }

  lemma FewerRowsKeepInvariant(files: Files, engines: seq<string>, engine: string, text: Text)
    requires SoundIn(files, engines) && engine in engines && Decode(text).Some?
    requires forall r :: r in Decode(text).value.entries ==> r in EntriesIn(files, engine).value
    ensures SoundIn(files[engine := text], engines)
  {
    var after := files[engine := text];
    StillReadable(files, engines, engine, text);
    forall p | p in RowsIn(after, engines) ensures p in RowsIn(files, engines) {
      RowsAfterWrite(files, engines, engine, text, p);
      InRows(files, engines, p);
    }
    InvariantShrinks(RowsIn(after, engines), RowsIn(files, engines));
  }

  function Listed(entries: seq<Row>, idx: Option<nat>, next: Row): seq<Row>
    requires idx.Some? ==> idx.value < |entries|
  {
    if idx.None? then entries + [next] else entries[idx.value := next]
  }

  ghost predicate SoundIn(files: Files, engines: seq<string>) {
    ReadableIn(files, engines) && Invariant(RowsIn(files, engines))
  }

  lemma PutKeepsSound(files: Files, engines: seq<string>, engine: string, text: Text, next: Row)
    requires engine in engines && Decode(text).Some? && EntriesIn(files, engine).Some?
    requires Puts(EntriesIn(files, engine).value, Decode(text).value.entries, next)
    ensures SoundIn(files, engines) && RowFits(RowsIn(files, engines), next) ==> SoundIn(files[engine := text], engines)
  {
    if SoundIn(files, engines) && RowFits(RowsIn(files, engines), next) {
      FittingRowKeepsInvariant(files, engines, engine, text, next);
    }
  }

  lemma PutList(files: Files, engine: string, idx: Option<nat>, next: Row)
    requires EntriesIn(files, engine).Some?
    requires forall r :: r in EntriesIn(files, engine).value ==> '\0' !in r.engine
    requires idx.Some? ==> idx.value < |EntriesIn(files, engine).value|
    requires idx.Some? ==> SameKey(EntriesIn(files, engine).value[idx.value], next)
    requires idx.None? ==> forall r :: r in EntriesIn(files, engine).value ==> !SameKey(r, next)
    ensures
      var entries := EntriesIn(files, engine).value;
      var list := Listed(entries, idx, next);
      && Puts(entries, list, next)
      && (forall r :: r in list ==> r == next || r in entries)
  {
    var entries := EntriesIn(files, engine).value;
    if idx.Some? {
      var list := entries[idx.value := next];
      forall i | 0 <= i < |entries| && i != idx.value ensures !SameKey(entries[i], next) && list[i] == entries[i] {
        if i < idx.value { KeysDiffer(files, engine, i, idx.value); } else { KeysDiffer(files, engine, idx.value, i); }
      }
      assert list[idx.value] == next;
    }
  }
}
