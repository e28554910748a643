/**
 The rules that a source must meet before it is copied, and a copy before it
 counts as complete: session rows, their durable mappings and the project
 identity belong together.
 */
module BackupConsistency {
  import opened Wrappers
  import opened InventoryCodec
  import opened SessionSlots

  /** The session store's text: absent, refused by its codec, or the slugs of each engine's namespace. */
  datatype Store = NoStore | BadStore | Mappings(slugs: map<string, set<string>>)

  datatype Identity = NoIdentity | BadIdentity | Known(projectId: string)

  /** One inventory text of an engine; no rows when the codec refuses it. */
  datatype Reading = Reading(engine: string, rows: Option<seq<Row>>)

  /** listed is unknown while a source is read: there is no manifest yet. */
  datatype Inputs = Inputs(
    store: Store,
    readings: seq<Reading>,
    identity: Identity,
    listed: Option<bool>,
    present: bool,
    projectId: string)

  datatype Setting = Setting(storeEngines: set<string>, fingerprint: string -> string)

  datatype Inconsistency =
    | StoreInvalid | InventoryCorrupt(engine: string) | SlotsViolated(violation: SessionSlots.Reason) | IdentityInvalid
    | IdentityUnlisted | IdentityNotCopied | IdentityMissing | FingerprintMismatch(engine: string, slug: string)
    | WrongProject | MappingMissing(engine: string, slug: string) | OrphanMapping(engine: string, slug: string)
    | StoreMissing

  // ----- The rows by engine -----

  function EntriesOf(inventories: seq<Inventory>, engine: string): seq<Row> {
    if inventories == [] then []
    else if inventories[0].engine == engine then inventories[0].entries
    else EntriesOf(inventories[1..], engine)
  }

  /** Assigning a key of an object: in place when it is there, at the end when it is new. */
  function Assign(inventories: seq<Inventory>, engine: string, rows: seq<Row>): seq<Inventory> {
    if inventories == [] then [Inventory(engine, rows)]
    else if inventories[0].engine == engine then [Inventory(engine, rows)] + inventories[1..]
    else [inventories[0]] + Assign(inventories[1..], engine, rows)
  }

  function RowsByEngine(readings: seq<Reading>): seq<Inventory> {
    if readings == [] then []
    else
      var before, last := RowsByEngine(readings[..|readings| - 1]), readings[|readings| - 1];
      if last.rows.None? then before else Assign(before, last.engine, last.rows.value)
  }

  ghost predicate OneEach(inventories: seq<Inventory>) {
    forall i, j :: 0 <= i < j < |inventories| ==> inventories[i].engine != inventories[j].engine
  }

  lemma {:induction false} AssignMeans(inventories: seq<Inventory>, engine: string, rows: seq<Row>)
    requires OneEach(inventories)
    ensures OneEach(Assign(inventories, engine, rows))
    ensures forall v :: v in Assign(inventories, engine, rows) ==> v == Inventory(engine, rows) || v in inventories
  {
    if inventories != [] && inventories[0].engine != engine {
      var rest := inventories[1..];
      assert inventories == [inventories[0]] + rest;
      AssignMeans(rest, engine, rows);
      var tail := Assign(rest, engine, rows);
      forall i | 0 <= i < |tail| ensures tail[i].engine != inventories[0].engine {
        assert tail[i] in tail;
        if tail[i] in rest {
          var k :| 0 <= k < |rest| && rest[k] == tail[i];
          assert inventories[k + 1] == rest[k];
        }
      }
    }
  }

  lemma {:induction false} RowsByEngineAreOneEach(readings: seq<Reading>)
    ensures OneEach(RowsByEngine(readings))
  {
    if readings != [] {
      var front, last := readings[..|readings| - 1], readings[|readings| - 1];
      RowsByEngineAreOneEach(front);
      if last.rows.Some? { AssignMeans(RowsByEngine(front), last.engine, last.rows.value); }
    }
  }

  lemma {:induction false} EntriesOfMember(inventories: seq<Inventory>, v: Inventory)
    requires OneEach(inventories) && v in inventories
    ensures EntriesOf(inventories, v.engine) == v.entries
  {
    if inventories[0] != v {
      assert inventories == [inventories[0]] + inventories[1..];
      var k :| 0 <= k < |inventories| && inventories[k] == v;
      EntriesOfMember(inventories[1..], v);
    }
  }

  lemma {:induction false} EntriesOfAbsent(inventories: seq<Inventory>, engine: string)
    requires forall v :: v in inventories ==> v.engine != engine
    ensures EntriesOf(inventories, engine) == []
  {
    if inventories != [] {
      assert inventories[0] in inventories;
      EntriesOfAbsent(inventories[1..], engine);
    }
  }

  // ----- What the rules ask for -----

  /** The sessions that a row keeps alive: its mapping goes first when it is deleted. */
  function Persisted(rows: seq<Row>): set<string> { set r | r in rows && r.state != Deleting :: r.slug }

  function Mapped(slugs: map<string, set<string>>, engine: string): set<string> {
    if engine in slugs then slugs[engine] else {}
  }

  predicate HasRows(inventories: seq<Inventory>) { exists v :: v in inventories && v.entries != [] }

  predicate SlotsAgree(inventories: seq<Inventory>) { Invariant(Flatten(inventories)) }

  predicate IdentityAgrees(identity: Identity, projectId: string, inventories: seq<Inventory>, setting: Setting) {
    match identity
    case Known(id) =>
      && id == projectId
      && forall v, r :: v in inventories && r in v.entries ==> r.fingerprint == setting.fingerprint(id)
    case _ => true
  }

  predicate MappingsAgree(store: Store, inventories: seq<Inventory>, setting: Setting) {
    match store
    case Mappings(slugs) =>
      && (forall v :: v in inventories && v.engine in setting.storeEngines ==>
            Persisted(v.entries) <= Mapped(slugs, v.engine))
      && (forall e :: e in slugs ==> slugs[e] <= Persisted(EntriesOf(inventories, e)))
    case _ => forall v :: v in inventories && v.engine in setting.storeEngines ==> Persisted(v.entries) == {}
  }

  predicate PresenceAgrees(inputs: Inputs) {
    inputs.listed.Some? ==> inputs.listed.value == inputs.present
  }

  predicate Consistent(inputs: Inputs, setting: Setting) {
    var inventories := RowsByEngine(inputs.readings);
    && inputs.store != BadStore && inputs.identity != BadIdentity
    && (forall r :: r in inputs.readings ==> r.rows.Some?)
    && SlotsAgree(inventories)
    && PresenceAgrees(inputs)
    && (HasRows(inventories) ==> inputs.identity.Known? && inputs.listed != Some(false))
    && IdentityAgrees(inputs.identity, inputs.projectId, inventories, setting)
    && MappingsAgree(inputs.store, inventories, setting)
  }

  /**
   In consistent state the mapped slugs of every engine with a namespace are
   exactly the slugs of its rows that are not being deleted.
   */
  lemma MappingsAreTheSessions(inputs: Inputs, setting: Setting, engine: string)
    requires Consistent(inputs, setting) && inputs.store.Mappings? && engine in setting.storeEngines
    ensures Mapped(inputs.store.slugs, engine) == Persisted(EntriesOf(RowsByEngine(inputs.readings), engine))
  {
    var inventories := RowsByEngine(inputs.readings);
    RowsByEngineAreOneEach(inputs.readings);
    if v :| v in inventories && v.engine == engine {
      EntriesOfMember(inventories, v);
    } else {
      EntriesOfAbsent(inventories, engine);
    }
  }

  // ----- The rules as they are checked -----

  method EnterReadings(readings: seq<Reading>) returns (inventories: seq<Inventory>, reasons: seq<Inconsistency>)
    ensures inventories == RowsByEngine(readings)
    ensures reasons == [] <==> forall r :: r in readings ==> r.rows.Some?
  {
    inventories, reasons := [], [];
    for i := 0 to |readings|
      invariant inventories == RowsByEngine(readings[..i])
      invariant reasons == [] <==> forall k :: 0 <= k < i ==> readings[k].rows.Some?
    {
      var reading := readings[i];
      assert readings[..i + 1][..i] == readings[..i];
      if reading.rows.None? {
        reasons := reasons + [InventoryCorrupt(reading.engine)];
      } else {
        inventories := Assign(inventories, reading.engine, reading.rows.value);
      }
    }
    assert readings[..|readings|] == readings;
  }

  method SlotReasons(inventories: seq<Inventory>) returns (reasons: seq<Inconsistency>)
    ensures reasons == [] <==> SlotsAgree(inventories)
  {
    var projection := ProjectCoderSessionSlots(inventories);
    reasons := seq(|projection.reasons|,
        i requires 0 <= i < |projection.reasons| => SlotsViolated(projection.reasons[i]));
  }

  method FindRows(inventories: seq<Inventory>) returns (found: bool)
    ensures found <==> HasRows(inventories)
  {
    for i := 0 to |inventories|
      invariant forall k :: 0 <= k < i ==> inventories[k].entries == []
    {
      if inventories[i].entries != [] { return true; }
    }
    found := false;
  }

  method FingerprintReasons(inventories: seq<Inventory>, expected: string) returns (reasons: seq<Inconsistency>)
    ensures reasons == [] <==> forall v, r :: v in inventories && r in v.entries ==> r.fingerprint == expected
  {
    reasons := [];
    for i := 0 to |inventories|
      invariant reasons == [] <==>
                forall k, r :: 0 <= k < i && r in inventories[k].entries ==> r.fingerprint == expected
    {
      var more := RowReasons(inventories[i], expected);
      reasons := reasons + more;
    }
  }

  method RowReasons(v: Inventory, expected: string) returns (reasons: seq<Inconsistency>)
    ensures reasons == [] <==> forall r :: r in v.entries ==> r.fingerprint == expected
  {
    reasons := [];
    for i := 0 to |v.entries|
      invariant reasons == [] <==> forall k :: 0 <= k < i ==> v.entries[k].fingerprint == expected
    {
      if v.entries[i].fingerprint != expected {
        reasons := reasons + [FingerprintMismatch(v.engine, v.entries[i].slug)];
      }
    }
  }

  /** Rows without a mapping; with no mapping at all, any persistent row of an engine with a namespace. */
  method UnmappedReasons(inventories: seq<Inventory>, slugs: map<string, set<string>>, setting: Setting)
    returns (reasons: seq<Inconsistency>)
    ensures reasons == [] <==>
              forall v :: v in inventories && v.engine in setting.storeEngines ==>
                            Persisted(v.entries) <= Mapped(slugs, v.engine)
  {
    reasons := [];
    for i := 0 to |inventories|
      invariant reasons == [] <==>
                  forall k :: 0 <= k < i && inventories[k].engine in setting.storeEngines ==>
                                Persisted(inventories[k].entries) <= Mapped(slugs, inventories[k].engine)
    {
      var v := inventories[i];
      if v.engine in setting.storeEngines {
        var more := UnmappedRows(v, Mapped(slugs, v.engine));
        reasons := reasons + more;
      }
    }
  }

  method UnmappedRows(v: Inventory, mapped: set<string>) returns (reasons: seq<Inconsistency>)
    ensures reasons == [] <==> Persisted(v.entries) <= mapped
  {
    reasons := [];
    for i := 0 to |v.entries|
      invariant reasons == [] <==>
                forall k :: 0 <= k < i && v.entries[k].state != Deleting ==> v.entries[k].slug in mapped
    {
      var row := v.entries[i];
      if row.state != Deleting && row.slug !in mapped { reasons := reasons + [MappingMissing(v.engine, row.slug)]; }
    }
  }

  /** Mapped slugs without a row that is not being deleted. */
  method OrphanReasons(inventories: seq<Inventory>, slugs: map<string, set<string>>)
    returns (reasons: seq<Inconsistency>)
    ensures reasons == [] <==> forall e :: e in slugs ==> slugs[e] <= Persisted(EntriesOf(inventories, e))
  {
    reasons := [];
    var todo := slugs.Keys;
    while todo != {}
      invariant todo <= slugs.Keys
      invariant reasons == [] <==>
                  forall e :: e in slugs && e !in todo ==> slugs[e] <= Persisted(EntriesOf(inventories, e))
      decreases |todo|
    {
      var engine :| engine in todo;
      var more := OrphanSlugs(engine, slugs[engine], Persisted(EntriesOf(inventories, engine)));
      reasons, todo := reasons + more, todo - {engine};
    }
  }

  method OrphanSlugs(engine: string, slugs: set<string>, persisted: set<string>) returns (reasons: seq<Inconsistency>)
    ensures reasons == [] <==> slugs <= persisted
  {
    reasons := [];
    var todo := slugs;
    while todo != {}
      invariant todo <= slugs
      invariant reasons == [] <==> forall s :: s in slugs && s !in todo ==> s in persisted
      decreases |todo|
    {
      var slug :| slug in todo;
      if slug !in persisted { reasons := reasons + [OrphanMapping(engine, slug)]; }
      todo := todo - {slug};
    }
  }

  method MappingReasons(store: Store, inventories: seq<Inventory>, setting: Setting)
    returns (reasons: seq<Inconsistency>)
    ensures reasons == [] <==> MappingsAgree(store, inventories, setting)
  {
    match store
    case Mappings(slugs) =>
      var unmapped := UnmappedReasons(inventories, slugs, setting);
      var orphans := OrphanReasons(inventories, slugs);
      reasons := unmapped + orphans;
    case _ =>
      var unmapped := UnmappedReasons(inventories, map[], setting);
      reasons := if unmapped == [] then [] else [StoreMissing];
  }

  method IdentityReasons(inputs: Inputs, inventories: seq<Inventory>, setting: Setting)
    returns (reasons: seq<Inconsistency>)
    ensures reasons == [] <==>
              && inputs.identity != BadIdentity && PresenceAgrees(inputs)
              && (HasRows(inventories) ==> inputs.identity.Known? && inputs.listed != Some(false))
              && IdentityAgrees(inputs.identity, inputs.projectId, inventories, setting)
  {
    hide HasRows;
    reasons := if inputs.identity == BadIdentity then [IdentityInvalid] else [];
    if inputs.present && inputs.listed == Some(false) { reasons := reasons + [IdentityUnlisted]; }
    if inputs.listed == Some(true) && !inputs.present { reasons := reasons + [IdentityNotCopied]; }
    var rows := FindRows(inventories);
    if rows && (!inputs.identity.Known? || inputs.listed == Some(false)) { reasons := reasons + [IdentityMissing]; }
    if inputs.identity.Known? {
      var mismatches := FingerprintReasons(inventories, setting.fingerprint(inputs.identity.projectId));
      reasons := reasons + mismatches;
      if inputs.projectId != inputs.identity.projectId { reasons := reasons + [WrongProject]; }
    }
  }

  /** No reason is given exactly for consistent inputs. */
  method ClassifyRowMappingConsistency(inputs: Inputs, setting: Setting) returns (reasons: seq<Inconsistency>)
    ensures reasons == [] <==> Consistent(inputs, setting)
  {
    hide HasRows, SlotsAgree, IdentityAgrees, MappingsAgree, PresenceAgrees, RowsByEngine;
    reasons := if inputs.store == BadStore then [StoreInvalid] else [];
    var inventories, corrupt := EnterReadings(inputs.readings);
    var slots := SlotReasons(inventories);
    var identity := IdentityReasons(inputs, inventories, setting);
    var mappings := MappingReasons(inputs.store, inventories, setting);
    reasons := reasons + corrupt + slots + identity + mappings;
  }
}
