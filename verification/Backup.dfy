/**
 Backing up the session state. A backup that reached its completion marker is
 valid exactly when no path in it contains two dots in a row.
 */
module Backup {
  import opened Basics
  import opened Strings
  import opened Wrappers
  import opened ArtifactTree
  import BackupConsistency
  import InventoryCodec

  const MAX_MANIFEST_BYTES := 64 * 1024
  const MAX_ENTRIES := 10_000
  const MAX_STATE_DIRECTORIES := 10_000
  const MAX_NODES := 20_000
  const MAX_FILE_BYTES := 8 * 1024 * 1024
  const MAX_TOTAL_BYTES := 512 * 1024 * 1024
  const MAX_PATH_BYTES := 4096

  datatype SourceFile = SourceFile(path: string, content: Bytes)

  datatype Item = Item(path: string, digest: Digest, size: nat)

  /** entriesDigest: the hash over the paths and hashes of the entries. */
  datatype Manifest = Manifest(
    projectId: string,
    createdAt: string,
    sourceRoot: string,
    entries: seq<Item>,
    entriesDigest: seq<(string, Digest)>)

  /** completion: the manifest whose text the marker's hash was taken of. */
  datatype BackupDir = BackupDir(state: map<string, Bytes>, manifest: Option<Manifest>, completion: Option<Manifest>)

  /** What the codecs make of the texts of a state tree, and the engines there are. */
  datatype Codecs = Codecs(
    store: Bytes -> Option<map<string, set<string>>>,
    inventory: Bytes -> Option<seq<InventoryCodec.Row>>,
    identity: Bytes -> Option<string>,
    engines: seq<string>,
    setting: BackupConsistency.Setting)

  // ----- The manifest's text -----

  predicate HexId(s: string) { InventoryCodec.Hex(s, 32) }

  /** Length of a string inside JSON quotes. */
  function JsonBytes(s: string): (n: nat)
    ensures n >= |s|
  {
    if s == "" then 0
    else
      var c := s[0];
      (if c == '"' || c == '\\' || c == '\n' || c == '\r' || c == '\t' || c == '\U{8}' || c == '\U{c}' then 2
       else if c as int < 0x20 then 6
       else Utf8Bytes([c])) + JsonBytes(s[1..])
  }

  function DecimalLength(n: nat): (d: nat)
    ensures d >= 1
  {
    if n < 10 then 1 else DecimalLength(n / 10) + 1
  }

  /** {"path":"...","sha256":"...","size":...} */
  function ItemBytes(e: Item): nat { 31 + 64 + JsonBytes(e.path) + DecimalLength(e.size) }

  function ItemsBytes(entries: seq<Item>): nat {
    if entries == [] then 0 else ItemsBytes(entries[..|entries| - 1]) + ItemBytes(entries[|entries| - 1])
  }

  /** The text with its commas, its line feed and the other fields. */
  function ManifestBytes(m: Manifest): nat {
    95 + JsonBytes(m.projectId) + JsonBytes(m.createdAt) + JsonBytes(m.sourceRoot) + 64
    + ItemsBytes(m.entries) + if m.entries == [] then 0 else |m.entries| - 1
  }

  lemma {:induction false} ItemsBytesGrow(entries: seq<Item>)
    ensures ItemsBytes(entries) >= 96 * |entries|
  {
    if entries != [] { ItemsBytesGrow(entries[..|entries| - 1]); }
  }

  /** The cap on the manifest's text keeps the number of entries far below its own cap. */
  lemma ManifestCapBoundsEntries(m: Manifest)
    requires ManifestBytes(m) <= MAX_MANIFEST_BYTES
    ensures |m.entries| <= 680 < MAX_ENTRIES
  {
    ItemsBytesGrow(m.entries);
  }

  function EntriesDigest(entries: seq<Item>): seq<(string, Digest)> {
    seq(|entries|, i requires 0 <= i < |entries| => (entries[i].path, entries[i].digest))
  }

  predicate Decodable(m: Manifest) { HexId(m.projectId) && ManifestBytes(m) <= MAX_MANIFEST_BYTES }

  // ----- What the consistency rules are given -----

  const SESSIONS_PATH := "sessions.json"
  const IDENTITY_PATH := "project-identity-v1.json"
  const ENGINES_PREFIX := "engine-sessions-v2/"

  function InventoryPath(engine: string): string { ENGINES_PREFIX + engine + "/.inventory.json" }

  /** The engine of an inventory's path; the pattern takes any character for the dot of the file name. */
  function EngineOf(path: string): Option<string> {
    var n := |path|;
    if n <= 35 || path[..19] != ENGINES_PREFIX || path[n - 16] != '/' || LineEnd(path[n - 15]) then None
    else if path[n - 14..] != "inventory.json" || '/' in path[19..n - 16] then None
    else Some(path[19..n - 16])
  }

  /** The paths that name an engine, and the engine they name. */
  lemma EngineOfExactly(path: string, engine: string)
    ensures EngineOf(path) == Some(engine) <==>
              && engine != "" && '/' !in engine
              && exists c: char :: !LineEnd(c) && path == ENGINES_PREFIX + engine + "/" + [c] + "inventory.json"
  {
    var n := |path|;
    if EngineOf(path) == Some(engine) {
      assert path == path[..19] + path[19..n - 16] + [path[n - 16]] + [path[n - 15]] + path[n - 14..];
      assert !LineEnd(path[n - 15]) && path == ENGINES_PREFIX + engine + "/" + [path[n - 15]] + "inventory.json";
    }
    if c: char :| !LineEnd(c) && path == ENGINES_PREFIX + engine + "/" + [c] + "inventory.json"
                  && engine != "" && '/' !in engine {
      assert path[..19] == ENGINES_PREFIX && path[n - 16] == '/' && path[n - 15] == c;
      assert path[n - 14..] == "inventory.json" && path[19..n - 16] == engine;
    }
  }

  function StoreIn(state: map<string, Bytes>, codecs: Codecs): BackupConsistency.Store {
    if SESSIONS_PATH !in state then BackupConsistency.NoStore
    else
      match codecs.store(state[SESSIONS_PATH])
      case None => BackupConsistency.BadStore
      case Some(slugs) => BackupConsistency.Mappings(slugs)
  }

  function IdentityIn(state: map<string, Bytes>, codecs: Codecs): BackupConsistency.Identity {
    if IDENTITY_PATH !in state then BackupConsistency.NoIdentity
    else
      match codecs.identity(state[IDENTITY_PATH])
      case None => BackupConsistency.BadIdentity
      case Some(id) => BackupConsistency.Known(id)
  }

  function ReadingAt(state: map<string, Bytes>, path: string, engine: string, codecs: Codecs)
    : BackupConsistency.Reading
  {
    BackupConsistency.Reading(engine, if path in state then codecs.inventory(state[path]) else None)
  }

  /** The inventories among the entries, in their order. */
  function CopiedReadings(state: map<string, Bytes>, entries: seq<Item>, codecs: Codecs)
    : seq<BackupConsistency.Reading>
  {
    if entries == [] then []
    else
      var path := entries[0].path;
      (if EngineOf(path).Some? && EngineOf(path).value in codecs.engines
       then [ReadingAt(state, path, EngineOf(path).value, codecs)] else [])
      + CopiedReadings(state, entries[1..], codecs)
  }

  /** The inventories there are, in the order of the engines. */
  function SourceReadings(state: map<string, Bytes>, engines: seq<string>, codecs: Codecs)
    : seq<BackupConsistency.Reading>
  {
    if engines == [] then []
    else
      var path := InventoryPath(engines[0]);
      (if path in state then [ReadingAt(state, path, engines[0], codecs)] else [])
      + SourceReadings(state, engines[1..], codecs)
  }

  function CopiedInputs(state: map<string, Bytes>, entries: seq<Item>, projectId: string, codecs: Codecs)
    : BackupConsistency.Inputs
  {
    BackupConsistency.Inputs(StoreIn(state, codecs), CopiedReadings(state, entries, codecs), IdentityIn(state, codecs),
                             Some(IDENTITY_PATH in ItemPaths(entries)), IDENTITY_PATH in state, projectId)
  }

  function SourceInputs(state: map<string, Bytes>, projectId: string, codecs: Codecs): BackupConsistency.Inputs {
    BackupConsistency.Inputs(StoreIn(state, codecs), SourceReadings(state, codecs.engines, codecs),
                             IdentityIn(state, codecs),
                             None, IDENTITY_PATH in state, projectId)
  }

  predicate CopyConsistent(state: map<string, Bytes>, entries: seq<Item>, projectId: string, codecs: Codecs) {
    BackupConsistency.Consistent(CopiedInputs(state, entries, projectId, codecs), codecs.setting)
  }

  predicate SourceConsistent(state: map<string, Bytes>, projectId: string, codecs: Codecs) {
    BackupConsistency.Consistent(SourceInputs(state, projectId, codecs), codecs.setting)
  }

  // ----- The state tree -----

  predicate HasDots(path: string) { exists i :: 0 < i < |path| && path[i - 1] == '.' && path[i] == '.' }

  function DirectoriesOf(path: string): set<string> { set i | 0 < i < |path| && path[i] == '/' :: path[..i] }

  function DirectoriesOfAll(paths: set<string>): set<string> { set p, d | p in paths && d in DirectoriesOf(p) :: d }

  /** The bounded walk over the copied tree comes to an end without an error. */
  predicate PhysicalOk(paths: set<string>) {
    && (forall p :: p in paths ==> Utf8Bytes(p) <= MAX_PATH_BYTES)
    && |paths| <= MAX_ENTRIES && |DirectoriesOfAll(paths)| <= MAX_STATE_DIRECTORIES
    && |paths| + |DirectoriesOfAll(paths)| <= MAX_NODES
  }

  function ItemPaths(entries: seq<Item>): set<string> { set e | e in entries :: e.path }

  function ItemsTotal(entries: seq<Item>): nat {
    if entries == [] then 0 else ItemsTotal(entries[..|entries| - 1]) + entries[|entries| - 1].size
  }

  predicate DistinctItems(entries: seq<Item>) {
    forall i, j :: 0 <= i < j < |entries| ==> entries[i].path != entries[j].path
  }

  predicate ItemOk(e: Item) {
    && e.path != "" && Utf8Bytes(e.path) <= MAX_PATH_BYTES
    && e.path[0] != '/' && !HasDots(e.path) && e.size <= MAX_FILE_BYTES
  }

  predicate ItemsOk(entries: seq<Item>) { forall e :: e in entries ==> ItemOk(e) }

  predicate Stored(state: map<string, Bytes>, e: Item) {
    e.path in state && |state[e.path]| == e.size && Digest(state[e.path]) == e.digest
  }

  predicate Verified(state: map<string, Bytes>, entries: seq<Item>) {
    (forall e :: e in entries ==> Stored(state, e)) && ItemsTotal(entries) <= MAX_TOTAL_BYTES
  }

  /** What the validator asks for. */
  predicate Valid(dir: BackupDir, codecs: Codecs) {
    && dir.manifest.Some? && dir.completion == dir.manifest
    && var m := dir.manifest.value;
    && Decodable(m) && |m.entries| <= MAX_ENTRIES && ItemsOk(m.entries)
    && DistinctItems(m.entries) && m.entriesDigest == EntriesDigest(m.entries)
    && PhysicalOk(dir.state.Keys) && dir.state.Keys <= ItemPaths(m.entries)
    && Verified(dir.state, m.entries)
    && CopyConsistent(dir.state, m.entries, m.projectId, codecs)
  }

  datatype Reason =
    | ManifestMissing | ManifestInvalid | CompletionMissing | WrongCompletion | TooManyEntries
    | BadEntry(path: string) | DuplicateEntries | WrongEntriesDigest | Unlisted | UnreadableTree
    | SizeMismatch(path: string) | HashMismatch(path: string) | MissingEntry(path: string)
    | Inconsistent(why: seq<BackupConsistency.Inconsistency>)

  lemma ItemsStep(entries: seq<Item>, n: nat)
    requires n < |entries|
    ensures ItemsTotal(entries[..n + 1]) == ItemsTotal(entries[..n]) + entries[n].size
    ensures ItemPaths(entries[..n + 1]) == ItemPaths(entries[..n]) + {entries[n].path}
  {
    assert entries[..n + 1][..n] == entries[..n];
    assert entries[..n + 1] == entries[..n] + [entries[n]];
  }

  lemma {:induction false} ItemPathCount(entries: seq<Item>)
    ensures |ItemPaths(entries)| <= |entries| && (|ItemPaths(entries)| == |entries| <==> DistinctItems(entries))
  {
    if entries != [] {
      var front, last := entries[..|entries| - 1], entries[|entries| - 1];
      assert entries == front + [last];
      ItemPathCount(front);
      assert ItemPaths(entries) == ItemPaths(front) + {last.path};
      if last.path !in ItemPaths(front) && DistinctItems(front) {
        forall i, j | 0 <= i < j < |entries| ensures entries[i].path != entries[j].path {
          if j == |front| { assert front[i] in front; }
        }
      }
      if DistinctItems(entries) {
        forall i, j | 0 <= i < j < |front|
          ensures front[i].path != front[j].path
        {
          assert entries[i].path != entries[j].path;
        }
      }
    }
  }

  lemma VerifiedStep(state: map<string, Bytes>, entries: seq<Item>, n: nat)
    requires n < |entries|
    ensures ItemsTotal(entries[..n + 1]) == ItemsTotal(entries[..n]) + entries[n].size
    ensures Verified(state, entries[..n + 1]) <==>
              && Verified(state, entries[..n]) && Stored(state, entries[n])
              && ItemsTotal(entries[..n]) + entries[n].size <= MAX_TOTAL_BYTES
  {
    ItemsStep(entries, n);
    assert entries[..n + 1] == entries[..n] + [entries[n]];
    assert forall x :: x in entries[..n + 1] <==> x in entries[..n] || x == entries[n];
  }

  /** Every entry is stored with its size and hash, and all of them together keep to the cap. */
  method VerifyEntries(state: map<string, Bytes>, entries: seq<Item>) returns (reasons: seq<Reason>)
    ensures reasons == [] <==> Verified(state, entries)
  {
    reasons := [];
    var totalBytes := 0;
    for n := 0 to |entries|
      invariant reasons == [] <==> Verified(state, entries[..n])
      invariant reasons == [] ==> totalBytes == ItemsTotal(entries[..n])
    {
      var e := entries[n];
      VerifiedStep(state, entries, n);
      if e.path !in state {
        reasons := reasons + [MissingEntry(e.path)];
      } else if |state[e.path]| != e.size {
        reasons := reasons + [SizeMismatch(e.path)];
      } else {
        totalBytes := totalBytes + |state[e.path]|;
        if totalBytes > MAX_TOTAL_BYTES {
          reasons := reasons + [MissingEntry(e.path)];
        } else if Digest(state[e.path]) != e.digest {
          reasons := reasons + [HashMismatch(e.path)];
        }
      }
    }
    assert entries[..|entries|] == entries;
  }

  method FindBadEntry(entries: seq<Item>) returns (bad: Option<Item>)
    ensures bad.None? <==> ItemsOk(entries)
  {
    for n := 0 to |entries|
      invariant ItemsOk(entries[..n])
    {
      if !ItemOk(entries[n]) { return Some(entries[n]); }
      assert entries[..n + 1] == entries[..n] + [entries[n]];
    }
    assert entries[..|entries|] == entries;
    bad := None;
  }

  lemma CopyGate(state: map<string, Bytes>, entries: seq<Item>, projectId: string, codecs: Codecs)
    ensures CopyConsistent(state, entries, projectId, codecs) ==
              BackupConsistency.Consistent(CopiedInputs(state, entries, projectId, codecs), codecs.setting)
  {
  }

  method ValidateCoderV2Backup(dir: BackupDir, codecs: Codecs) returns (reasons: seq<Reason>)
    ensures reasons == [] <==> Valid(dir, codecs)
  {
    hide ItemsOk, PhysicalOk, Verified, Decodable, DistinctItems, CopyConsistent, ItemPaths, EntriesDigest;
    if dir.manifest.None? { return [ManifestMissing]; }
    var m := dir.manifest.value;
    if !Decodable(m) { return [ManifestInvalid]; }
    if dir.completion.None? { return [CompletionMissing]; }
    reasons := if dir.completion.value == m then [] else [WrongCompletion];
    if |m.entries| > MAX_ENTRIES { return reasons + [TooManyEntries]; }
    var bad := FindBadEntry(m.entries);
    if bad.Some? { return reasons + [BadEntry(bad.value.path)]; }
    var manifestPaths := ItemPaths(m.entries);
    ItemPathCount(m.entries);
    if |manifestPaths| != |m.entries| { reasons := reasons + [DuplicateEntries]; }
    if m.entriesDigest != EntriesDigest(m.entries) { reasons := reasons + [WrongEntriesDigest]; }
    if !PhysicalOk(dir.state.Keys) {
      reasons := reasons + [UnreadableTree];
    } else if !(dir.state.Keys <= manifestPaths) {
      reasons := reasons + [Unlisted];
    }
    var entryReasons := VerifyEntries(dir.state, m.entries);
    reasons := reasons + entryReasons;
    var inconsistent := BackupConsistency.ClassifyRowMappingConsistency(
      CopiedInputs(dir.state, m.entries, m.projectId, codecs), codecs.setting);
    CopyGate(dir.state, m.entries, m.projectId, codecs);
    if inconsistent != [] { reasons := reasons + [Inconsistent(inconsistent)]; }
  }

  // ----- Taking the backup -----

  function ScanItem(f: SourceFile): Item { Item(f.path, Digest(f.content), |f.content|) }

  function ScanItems(files: seq<SourceFile>): seq<Item> {
    seq(|files|, i requires 0 <= i < |files| => ScanItem(files[i]))
  }

  /** The files of a quiescent source: one content a path. */
  predicate DistinctFiles(files: seq<SourceFile>) {
    forall i, j :: 0 <= i < j < |files| ==> files[i].path != files[j].path
  }

  /** The walked files, then the session mapping and the project identity when they are there. */
  function SourceFiles(walked: seq<SourceFile>, sessions: Option<Bytes>, identity: Option<Bytes>): seq<SourceFile> {
    walked + TopFile(SESSIONS_PATH, sessions) + TopFile(IDENTITY_PATH, identity)
  }

  function TopFile(path: string, content: Option<Bytes>): seq<SourceFile> {
    if content.None? then [] else [SourceFile(path, content.value)]
  }

  function StateOf(files: seq<SourceFile>): map<string, Bytes> {
    if files == [] then map[] else StateOf(files[..|files| - 1])[files[|files| - 1].path := files[|files| - 1].content]
  }

  function TotalBytes(files: seq<SourceFile>): nat {
    if files == [] then 0 else TotalBytes(files[..|files| - 1]) + |files[|files| - 1].content|
  }

  lemma FilesStep(files: seq<SourceFile>, n: nat)
    requires n < |files|
    ensures files[..n + 1] == files[..n] + [files[n]]
    ensures TotalBytes(files[..n + 1]) == TotalBytes(files[..n]) + |files[n].content|
    ensures ScanItems(files[..n + 1]) == ScanItems(files[..n]) + [ScanItem(files[n])]
    ensures StateOf(files[..n + 1]) == StateOf(files[..n])[files[n].path := files[n].content]
  {
    assert files[..n + 1][..n] == files[..n];
  }

  lemma {:induction false} TotalGrows(files: seq<SourceFile>, n: nat)
    requires n <= |files|
    ensures TotalBytes(files[..n]) <= TotalBytes(files)
    decreases |files| - n
  {
    if n == |files| {
      assert files[..n] == files;
    } else {
      FilesStep(files, n);
      TotalGrows(files, n + 1);
    }
  }

  lemma {:induction false} TotalOfItems(files: seq<SourceFile>)
    ensures ItemsTotal(ScanItems(files)) == TotalBytes(files) && |ScanItems(files)| == |files|
  {
    if files != [] {
      var front := files[..|files| - 1];
      TotalOfItems(front);
      assert ScanItems(files) == ScanItems(front) + [ScanItem(files[|files| - 1])];
      assert ScanItems(files)[..|files| - 1] == ScanItems(front);
    }
  }

  lemma {:induction false} StateKeys(files: seq<SourceFile>)
    ensures StateOf(files).Keys == ItemPaths(ScanItems(files))
  {
    if files != [] {
      var n := |files| - 1;
      assert files[..|files|] == files && ScanItems(files)[..|files|] == ScanItems(files);
      FilesStep(files, n);
      StateKeys(files[..n]);
      ItemsStep(ScanItems(files), n);
      assert ScanItems(files)[..n] == ScanItems(files[..n]);
      hide ItemPaths, ScanItems;
    }
  }

  lemma {:induction false} StateMeans(files: seq<SourceFile>, k: nat)
    requires DistinctFiles(files) && k < |files|
    ensures files[k].path in StateOf(files) && StateOf(files)[files[k].path] == files[k].content
  {
    var n := |files| - 1;
    FilesStep(files, n);
    assert files[..|files|] == files;
    if k < n {
      assert files[..n][k] == files[k];
      StateMeans(files[..n], k);
    }
  }

  /** What the inventory of a source asks for. */
  predicate Inventoriable(walked: seq<SourceFile>, sessions: Option<Bytes>, identity: Option<Bytes>, blocked: bool,
                          codecs: Codecs) {
    && !blocked && |walked| <= MAX_ENTRIES
    && (forall f :: f in SourceFiles(walked, sessions, identity) ==> |f.content| <= MAX_FILE_BYTES)
    && TotalBytes(SourceFiles(walked, sessions, identity)) <= MAX_TOTAL_BYTES
    && (sessions.Some? ==> codecs.store(sessions.value).Some?)
    && (identity.Some? ==> codecs.identity(identity.value).Some?)
  }

  /** The files inventoried so far, within their caps. */
  predicate Scanned(files: seq<SourceFile>, entries: seq<Item>, totalBytes: nat) {
    && entries == ScanItems(files) && totalBytes == TotalBytes(files) <= MAX_TOTAL_BYTES
    && forall f :: f in files ==> |f.content| <= MAX_FILE_BYTES
  }

  method WalkSource(walked: seq<SourceFile>, reliable: bool) returns (r: Option<(seq<Item>, nat)>)
    ensures r.Some? ==> Scanned(walked, r.value.0, r.value.1) && |walked| <= MAX_ENTRIES
    ensures reliable && |walked| <= MAX_ENTRIES && TotalBytes(walked) <= MAX_TOTAL_BYTES ==>
              (forall f :: f in walked ==> |f.content| <= MAX_FILE_BYTES) ==> r.Some?
  {
    var entries: seq<Item>, totalBytes: nat := [], 0;
    for n := 0 to |walked|
      invariant Scanned(walked[..n], entries, totalBytes) && n <= MAX_ENTRIES
    {
      var f := walked[n];
      FilesStep(walked, n);
      TotalGrows(walked, n + 1);
      var failed: bool := *;
      if failed && !reliable { return None; }
      if |entries| >= MAX_ENTRIES || |f.content| > MAX_FILE_BYTES { return None; }
      if totalBytes + |f.content| > MAX_TOTAL_BYTES { return None; }
      entries, totalBytes := entries + [ScanItem(f)], totalBytes + |f.content|;
    }
    assert walked[..|walked|] == walked;
    r := Some((entries, totalBytes));
  }

  /** A top-level file that is there must be one its codec takes. */
  method AddTopFile(path: string, content: Option<Bytes>, accepted: bool, entries: seq<Item>, totalBytes: nat,
                    ghost files: seq<SourceFile>, reliable: bool)
    returns (r: Option<(seq<Item>, nat)>)
    requires Scanned(files, entries, totalBytes)
    ensures r.Some? ==> Scanned(files + TopFile(path, content), r.value.0, r.value.1) && (content.Some? ==> accepted)
    ensures reliable && (content.Some? ==> accepted && |content.value| <= MAX_FILE_BYTES) ==>
              TotalBytes(files + TopFile(path, content)) <= MAX_TOTAL_BYTES ==> r.Some?
  {
    if content.None? {
      assert files + TopFile(path, content) == files;
      return Some((entries, totalBytes));
    }
    var f := SourceFile(path, content.value);
    ghost var all := files + [f];
    FilesStep(all, |files|);
    assert all[..|files|] == files && all[..|files| + 1] == all;
    var failed: bool := *;
    if failed && !reliable { return None; }
    if !accepted || |f.content| > MAX_FILE_BYTES || totalBytes + |f.content| > MAX_TOTAL_BYTES { return None; }
    r := Some((entries + [ScanItem(f)], totalBytes + |f.content|));
  }

  /**
   Inventories the walked files, counted against the entry cap, and the two
   top-level files, which are not. Pending results or an unknown engine directory
   block it.
   */
  method InventoryCoderV2State(walked: seq<SourceFile>, sessions: Option<Bytes>, identity: Option<Bytes>, blocked: bool,
                               codecs: Codecs, reliable: bool)
    returns (r: Option<(seq<Item>, nat)>)
    ensures r.Some? ==>
              && Scanned(SourceFiles(walked, sessions, identity), r.value.0, r.value.1)
              && Inventoriable(walked, sessions, identity, blocked, codecs)
    ensures reliable && Inventoriable(walked, sessions, identity, blocked, codecs) ==> r.Some?
  {
    if blocked { return None; }
    ghost var two, all := walked + TopFile(SESSIONS_PATH, sessions), SourceFiles(walked, sessions, identity);
    assert two[..|walked|] == walked && all[..|two|] == two;
    TotalGrows(two, |walked|);
    TotalGrows(all, |two|);
    assert sessions.Some? ==> SourceFile(SESSIONS_PATH, sessions.value) in all;
    assert identity.Some? ==> SourceFile(IDENTITY_PATH, identity.value) in all;
    r := WalkSource(walked, reliable);
    if r.None? { return; }
    var sessionsOk := sessions.Some? && codecs.store(sessions.value).Some?;
    var identityOk := identity.Some? && codecs.identity(identity.value).Some?;
    r := AddTopFile(SESSIONS_PATH, sessions, sessionsOk, r.value.0, r.value.1, walked, reliable);
    if r.None? { return; }
    r := AddTopFile(IDENTITY_PATH, identity, identityOk, r.value.0, r.value.1, two, reliable);
  }

  /** Copies every entry and reads the copy back; the byte count goes on from the inventory's total. */
  method CopyEntries(files: seq<SourceFile>, inventoryBytes: nat, reliable: bool)
    returns (state: Option<map<string, Bytes>>)
    requires inventoryBytes <= MAX_TOTAL_BYTES
    ensures state.Some? ==> state.value == StateOf(files) && inventoryBytes + TotalBytes(files) <= MAX_TOTAL_BYTES
    ensures reliable && inventoryBytes + TotalBytes(files) <= MAX_TOTAL_BYTES ==> state.Some?
  {
    var copied: map<string, Bytes> := map[];
    var totalBytes := inventoryBytes;
    for n := 0 to |files|
      invariant copied == StateOf(files[..n])
      invariant totalBytes == inventoryBytes + TotalBytes(files[..n]) <= MAX_TOTAL_BYTES
    {
      var entry := ScanItem(files[n]);
      FilesStep(files, n);
      TotalGrows(files, n + 1);
      var landed: Bytes := *;
      var failed: bool := *;
      if reliable { landed, failed := files[n].content, false; }
      if failed { return None; }
      if totalBytes + |landed| > MAX_TOTAL_BYTES || Digest(landed) != entry.digest { return None; }
      totalBytes := totalBytes + |landed|;
      copied := copied[entry.path := landed];
    }
    assert files[..|files|] == files;
    state := Some(copied);
  }

  lemma ItemsDistinct(files: seq<SourceFile>)
    requires DistinctFiles(files)
    ensures DistinctItems(ScanItems(files))
  {
  }

  /** Paths as a file system gives them: relative and not empty. */
  predicate RelativePaths(files: seq<SourceFile>) { forall f :: f in files ==> f.path != "" && f.path[0] != '/' }

  function ManifestOf(files: seq<SourceFile>, projectId: string, createdAt: string, sourceRoot: string): Manifest {
    Manifest(projectId, createdAt, sourceRoot, ScanItems(files), EntriesDigest(ScanItems(files)))
  }

  /**
   What a backup asks for that meets no failing operation. Its byte count is
   seeded with the inventory's, so that half the total cap is what it can hold.
   */
  predicate Completes(walked: seq<SourceFile>, sessions: Option<Bytes>, identity: Option<Bytes>, blocked: bool,
                      projectId: string, createdAt: string, sourceRoot: string, codecs: Codecs) {
    var files := SourceFiles(walked, sessions, identity);
    && Inventoriable(walked, sessions, identity, blocked, codecs) && 2 * TotalBytes(files) <= MAX_TOTAL_BYTES
    && Decodable(ManifestOf(files, projectId, createdAt, sourceRoot))
    && SourceConsistent(StateOf(files), projectId, codecs)
    && PhysicalOk(StateOf(files).Keys)
    && CopyConsistent(StateOf(files), ScanItems(files), projectId, codecs)
  }

  /** Both gates and the walk over the copy. */
  method CheckCopy(state: map<string, Bytes>, entries: seq<Item>, projectId: string, codecs: Codecs) returns (ok: bool)
    ensures ok <==>
              && PhysicalOk(state.Keys) && state.Keys == ItemPaths(entries)
              && CopyConsistent(state, entries, projectId, codecs)
  {
    if !PhysicalOk(state.Keys) || state.Keys != ItemPaths(entries) { return false; }
    var reasons := BackupConsistency.ClassifyRowMappingConsistency(
      CopiedInputs(state, entries, projectId, codecs), codecs.setting);
    ok := reasons == [];
  }

  /**
   A backup gets its completion marker only when everything it asks for holds,
   and always then if nothing fails. It is valid exactly when no path has two dots
   in a row: the scan takes such names, the validator does not.
   */
  method BackupCoderV2State(walked: seq<SourceFile>, sessions: Option<Bytes>, identity: Option<Bytes>, blocked: bool,
                            projectId: string, createdAt: string, sourceRoot: string, codecs: Codecs, reliable: bool)
    returns (dir: BackupDir)
    requires DistinctFiles(SourceFiles(walked, sessions, identity))
    requires RelativePaths(SourceFiles(walked, sessions, identity))
    ensures dir.completion.Some? ==>
              Completes(walked, sessions, identity, blocked, projectId, createdAt, sourceRoot, codecs)
    ensures reliable && Completes(walked, sessions, identity, blocked, projectId, createdAt, sourceRoot, codecs) ==>
              dir.completion.Some?
    ensures dir.completion.Some? ==>
              var files := SourceFiles(walked, sessions, identity);
              && dir.manifest == dir.completion == Some(ManifestOf(files, projectId, createdAt, sourceRoot))
              && dir.state == StateOf(files)
              && (Valid(dir, codecs) <==> NoDots(files))
  {
    hide Inventoriable, PhysicalOk, CopyConsistent, SourceConsistent, Decodable, Valid, NoDots;
    hide StateOf, ScanItems, TotalBytes, SourceFiles, ItemPaths, EntriesDigest, DistinctFiles, RelativePaths;
    dir := BackupDir(map[], None, None);
    var files := SourceFiles(walked, sessions, identity);
    StateKeys(files);
    var inventory := InventoryCoderV2State(walked, sessions, identity, blocked, codecs, reliable);
    if inventory.None? { return; }
    var (entries, totalBytes) := inventory.value;
    var inconsistent := BackupConsistency.ClassifyRowMappingConsistency(
      SourceInputs(StateOf(files), projectId, codecs), codecs.setting);
    assert inconsistent == [] <==> SourceConsistent(StateOf(files), projectId, codecs) by {
      SourceGate(StateOf(files), projectId, codecs);
    }
    if inconsistent != [] { return; }
    var manifest := Manifest(projectId, createdAt, sourceRoot, entries, EntriesDigest(entries));
    if !Decodable(manifest) { return; }
    var state := CopyEntries(files, totalBytes, reliable);
    if state.None? { return; }
    dir := dir.(state := state.value);
    var ok := CheckCopy(dir.state, entries, projectId, codecs);
    if !ok { return; }
    var failed: bool := *;
    if failed && !reliable { return; }
    dir := dir.(manifest := Some(manifest));
    failed := *;
    if failed && !reliable { return; }
    dir := dir.(completion := Some(manifest));
    CompletedIsValid(files, dir, codecs);
  }

  lemma SourceGate(state: map<string, Bytes>, projectId: string, codecs: Codecs)
    ensures SourceConsistent(state, projectId, codecs) ==
              BackupConsistency.Consistent(SourceInputs(state, projectId, codecs), codecs.setting)
  {
  }

  /** No path has two dots in a row. */
  predicate NoDots(files: seq<SourceFile>) { forall f :: f in files ==> !HasDots(f.path) }

  lemma EntriesVerified(files: seq<SourceFile>)
    requires DistinctFiles(files) && TotalBytes(files) <= MAX_TOTAL_BYTES
    ensures Verified(StateOf(files), ScanItems(files))
  {
    TotalOfItems(files);
    hide StateOf, TotalBytes, ItemsTotal;
    forall e | e in ScanItems(files) ensures Stored(StateOf(files), e) {
      var k :| 0 <= k < |files| && ScanItems(files)[k] == e;
      StateMeans(files, k);
    }
  }

  lemma ItemsOkExactly(files: seq<SourceFile>)
    requires RelativePaths(files) && SmallPaths(files) && forall f :: f in files ==> |f.content| <= MAX_FILE_BYTES
    ensures ItemsOk(ScanItems(files)) <==> NoDots(files)
  {
    hide HasDots;
    if ItemsOk(ScanItems(files)) {
      forall f | f in files ensures !HasDots(f.path) {
        var k :| 0 <= k < |files| && files[k] == f;
        assert ScanItems(files)[k] == ScanItem(f) && ScanItems(files)[k] in ScanItems(files);
      }
    }
    if NoDots(files) {
      forall e | e in ScanItems(files) ensures ItemOk(e) {
        var k :| 0 <= k < |files| && ScanItems(files)[k] == e;
        assert files[k] in files;
      }
    }
  }

  predicate SmallPaths(files: seq<SourceFile>) { forall f :: f in files ==> Utf8Bytes(f.path) <= MAX_PATH_BYTES }

  lemma PathsFit(files: seq<SourceFile>)
    requires PhysicalOk(StateOf(files).Keys)
    ensures SmallPaths(files)
  {
    StateKeys(files);
    hide StateOf, DirectoriesOfAll, Utf8Bytes;
    forall f | f in files ensures Utf8Bytes(f.path) <= MAX_PATH_BYTES {
      var k :| 0 <= k < |files| && files[k] == f;
      assert ScanItems(files)[k] in ScanItems(files) && ScanItems(files)[k].path == f.path;
    }
  }

  lemma CompletedIsValid(files: seq<SourceFile>, dir: BackupDir, codecs: Codecs)
    requires DistinctFiles(files) && RelativePaths(files) && dir.manifest.Some? && dir.completion == dir.manifest
    requires dir.manifest.value.entries == ScanItems(files)
    requires Decodable(dir.manifest.value) && dir.manifest.value.entriesDigest == EntriesDigest(ScanItems(files))
    requires TotalBytes(files) <= MAX_TOTAL_BYTES && forall f :: f in files ==> |f.content| <= MAX_FILE_BYTES
    requires PhysicalOk(dir.state.Keys) && dir.state == StateOf(files)
    requires CopyConsistent(dir.state, ScanItems(files), dir.manifest.value.projectId, codecs)
    ensures Valid(dir, codecs) <==> NoDots(files)
  {
    ItemsDistinct(files);
    StateKeys(files);
    PathsFit(files);
    EntriesVerified(files);
    ItemsOkExactly(files);
    FewEntries(dir.manifest.value);
    hide NoDots, StateOf, ScanItems, CopyConsistent, ItemPaths,
        PhysicalOk, Verified, ItemsOk, TotalBytes, EntriesDigest;
    hide Decodable, DistinctItems, DistinctFiles, RelativePaths, SmallPaths;
  }

  lemma FewEntries(m: Manifest)
    requires Decodable(m)
    ensures |m.entries| <= MAX_ENTRIES
  {
    ManifestCapBoundsEntries(m);
  }

  // ----- A name with two dots -----

  /** A path of the coder state, not too long, with two dots in a row. */
  predicate DottedPath(path: string) { |path| <= 400 && "coder-state-v2/" <= path && HasDots(path) }

  /** A backup of nothing but such a file completes when nothing fails, and the validator refuses it. */
  method DottedBackup(path: string, projectId: string, codecs: Codecs) returns (dir: BackupDir, reasons: seq<Reason>)
    requires DottedPath(path) && HexId(projectId)
    ensures dir.completion.Some? && !Valid(dir, codecs) && reasons != []
  {
    var files := [SourceFile(path, [])];
    OneFile(path);
    DottedStart(path);
    hide DottedPath;
    OneFileCompletes(path, projectId, codecs);
    assert files[0] in files && !NoDots(files);
    hide NoDots, HasDots, Completes, Valid, SourceFiles, HexId,
        StateOf, ScanItems, DistinctFiles, RelativePaths, ManifestOf;
    dir := BackupCoderV2State(files, None, None, false, projectId, "", "", codecs, true);
    reasons := ValidateCoderV2Backup(dir, codecs);
  }

  lemma DottedStart(path: string)
    requires DottedPath(path)
    ensures path != "" && path[0] == 'c' && |path| <= 400 && HasDots(path)
  {
  }

  lemma OneFile(path: string)
    ensures var files := [SourceFile(path, [])];
            && SourceFiles(files, None, None) == files && TotalBytes(files) == 0 && DistinctFiles(files)
            && (path != "" && path[0] != '/' ==> RelativePaths(files))
            && ScanItems(files) == [Item(path, Digest([]), 0)] && StateOf(files) == map[path := []]
  {
    var files := [SourceFile(path, [])];
    assert files[..0] == [];
  }

  lemma DottedPathExists()
    ensures DottedPath("coder-state-v2/a..b")
  {
    assert "coder-state-v2/a..b"[16] == '.' && "coder-state-v2/a..b"[17] == '.';
  }

  lemma OneFileCompletes(path: string, projectId: string, codecs: Codecs)
    requires path != "" && path[0] == 'c' && |path| <= 400 && HexId(projectId)
    ensures Completes([SourceFile(path, [])], None, None, false, projectId, "", "", codecs)
  {
    OneFile(path);
    OneFileInventoried(path, codecs);
    SmallManifest(path, projectId);
    SmallTree(path);
    CoderStateIsConsistent(path, projectId, codecs);
    assert StateOf([SourceFile(path, [])]).Keys == {path};
    hide PhysicalOk, Decodable, CopyConsistent, SourceConsistent, HexId, StateOf, ScanItems, SourceFiles, TotalBytes;
    hide ManifestOf, Inventoriable;
  }

  lemma OneFileInventoried(path: string, codecs: Codecs)
    ensures Inventoriable([SourceFile(path, [])], None, None, false, codecs)
  {
    OneFile(path);
    hide SourceFiles, TotalBytes, ScanItems, StateOf, DistinctFiles, RelativePaths;
  }

  lemma {:induction false} TextBounds(s: string)
    ensures JsonBytes(s) <= 6 * |s| && Utf8Bytes(s) <= 4 * |s|
  {
    if s != "" {
      TextBounds(s[1..]);
      CharBound(s[0]);
    }
  }

  lemma CharBound(c: char)
    ensures Utf8Bytes([c]) <= 4
  {
    assert [c][1..] == "";
    assert Utf8Bytes("") == 0;
  }

  lemma SmallManifest(path: string, projectId: string)
    requires |path| <= 400 && HexId(projectId)
    ensures Decodable(ManifestOf([SourceFile(path, [])], projectId, "", ""))
  {
    var m := ManifestOf([SourceFile(path, [])], projectId, "", "");
    TextBounds(projectId);
    TextBounds(path);
    assert m.entries == [Item(path, Digest([]), 0)] && m.entries[..0] == [];
    hide HexId;
    assert ItemsBytes(m.entries) == ItemBytes(m.entries[0]);
  }

  lemma {:induction false} PrefixCount(path: string, n: nat)
    requires n <= |path|
    ensures |set i | 0 < i < n && path[i] == '/' :: path[..i]| <= n
  {
    var all := set i | 0 < i < n && path[i] == '/' :: path[..i];
    if n == 0 {
      assert all == {};
    } else {
      var fewer := set i | 0 < i < n - 1 && path[i] == '/' :: path[..i];
      PrefixCount(path, n - 1);
      assert all <= fewer + {path[..n - 1]};
      SubsetSize(all, fewer + {path[..n - 1]});
    }
  }

  lemma SmallTree(path: string)
    requires |path| <= 400
    ensures PhysicalOk({path})
  {
    TextBounds(path);
    PrefixCount(path, |path|);
    assert DirectoriesOfAll({path}) == DirectoriesOf(path);
    hide DirectoriesOf, DirectoriesOfAll, Utf8Bytes;
  }

  lemma CoderStateIsConsistent(path: string, projectId: string, codecs: Codecs)
    requires path != "" && path[0] == 'c'
    ensures SourceConsistent(map[path := []], projectId, codecs)
    ensures CopyConsistent(map[path := []], [Item(path, Digest([]), 0)], projectId, codecs)
  {
    var state, entries := map[path := []], [Item(path, Digest([]), 0)];
    NoInventories(state, path, codecs.engines, codecs);
    NotAnInventory(path);
    assert CopiedReadings(state, entries, codecs) == [] by { assert entries[1..] == []; }
    hide CopiedReadings, SourceReadings, EngineOf;
    assert BackupConsistency.RowsByEngine([]) == [];
  }

  lemma NotAnInventory(path: string)
    requires path != "" && path[0] == 'c'
    ensures EngineOf(path).None? && path != SESSIONS_PATH && path != IDENTITY_PATH
  {
    if |path| > 35 { assert path[..19][0] == 'c'; }
  }

  lemma {:induction false} NoInventories(state: map<string, Bytes>, path: string, engines: seq<string>, codecs: Codecs)
    requires state.Keys == {path} && path != "" && path[0] == 'c'
    ensures SourceReadings(state, engines, codecs) == []
  {
    if engines != [] {
      assert InventoryPath(engines[0])[0] == 'e';
      NoInventories(state, path, engines[1..], codecs);
    }
  }

  // ----- Releasing leases -----

  function Reversed(handles: seq<nat>): seq<nat> {
    if handles == [] then [] else [handles[|handles| - 1]] + Reversed(handles[..|handles| - 1])
  }

  /** The handles are those still to try, those left and those done. */
  ghost predicate Splits(handles: seq<nat>, rest: seq<nat>, left: seq<nat>, done: seq<nat>) {
    multiset(handles) == multiset(rest) + multiset(left) + multiset(done)
  }

  /** Handles released without a failure come last acquired first. */
  ghost predicate InReverse(handles: seq<nat>, rest: seq<nat>, left: seq<nat>, done: seq<nat>) {
    left == [] && done + Reversed(rest) == Reversed(handles)
  }

  lemma PassStart(handles: seq<nat>)
    ensures Splits(handles, handles[..|handles|], [], []) && InReverse(handles, handles[..|handles|], [], [])
  {
    assert handles[..|handles|] == handles;
  }

  lemma PassStep(handles: seq<nat>, i: nat, left: seq<nat>, done: seq<nat>)
    requires i < |handles| && Splits(handles, handles[..i + 1], left, done)
    ensures Splits(handles, handles[..i], left, done + [handles[i]])
    ensures Splits(handles, handles[..i], [handles[i]] + left, done)
    ensures InReverse(handles, handles[..i + 1], left, done) ==>
              InReverse(handles, handles[..i], left, done + [handles[i]])
  {
    assert handles[..i + 1] == handles[..i] + [handles[i]];
    assert handles[..i + 1][..i] == handles[..i];
    assert done + ([handles[i]] + Reversed(handles[..i])) == done + [handles[i]] + Reversed(handles[..i]);
  }

  lemma PassEnd(handles: seq<nat>, left: seq<nat>, done: seq<nat>)
    requires Splits(handles, handles[..0], left, done)
    ensures multiset(handles) == multiset(left) + multiset(done)
    ensures InReverse(handles, handles[..0], left, done) ==> left == [] && done == Reversed(handles)
  {
  }

  /** The leases that opaque handles stand for. */
  class Leases {
    /** The handles released, in order. */
    var released: seq<nat>
    /** No release fails. */
    const reliable: bool

    method Release(handle: nat) returns (ok: bool)
      modifies this
      ensures released == if ok then old(released) + [handle] else old(released)
      ensures reliable ==> ok
    {
      ok := *;
      ok := ok || reliable;
      if ok { released := released + [handle]; }
    }

    /** One pass, last acquired first, over the handles still pending; kept ones stay in their order. */
    method ReleasePass(handles: seq<nat>) returns (left: seq<nat>, ghost done: seq<nat>)
      modifies this
      ensures released == old(released) + done
      ensures multiset(handles) == multiset(left) + multiset(done)
      ensures reliable ==> left == [] && done == Reversed(handles)
    {
      hide Splits, InReverse, Reversed;
      left, done := [], [];
      var i := |handles|;
      PassStart(handles);
      while i > 0
        invariant 0 <= i <= |handles| && released == old(released) + done
        invariant Splits(handles, handles[..i], left, done)
        invariant reliable ==> InReverse(handles, handles[..i], left, done)
      {
        i := i - 1;
        PassStep(handles, i, left, done);
        var ok := Release(handles[i]);
        if ok { done := done + [handles[i]]; } else { left := [handles[i]] + left; }
      }
      PassEnd(handles, left, done);
    }

    /** Every handle is released once, or failed in every attempt and is left for a later pass. */
    method ReleaseHandlesInReverse(handles: seq<nat>, attempts: nat) returns (left: seq<nat>)
      modifies this
      ensures exists done: seq<nat> ::
                && released == old(released) + done && multiset(handles) == multiset(left) + multiset(done)
      ensures reliable && attempts > 0 ==> left == [] && released == old(released) + Reversed(handles)
    {
      left := handles;
      ghost var done: seq<nat> := [];
      for attempt := 0 to attempts
        invariant released == old(released) + done && multiset(handles) == multiset(left) + multiset(done)
        invariant attempt == 0 ==> left == handles && done == []
        invariant attempt > 0 && reliable ==> left == [] && done == Reversed(handles)
      {
        if left == [] { break; }
        ghost var before, now := done, [];
        left, now := ReleasePass(left);
        done := before + now;
        assert released == old(released) + done;
      }
    }
  }

  // ----- What a valid backup holds -----

  lemma StateOnly(files: seq<SourceFile>, state: map<string, Bytes>)
    requires DistinctFiles(files) && state.Keys == StateOf(files).Keys
    requires forall f :: f in files ==> f.path in state && state[f.path] == f.content
    ensures state == StateOf(files)
  {
    forall path | path in state ensures state[path] == StateOf(files)[path] {
      StateKeys(files);
      var e :| e in ScanItems(files) && e.path == path;
      var k :| 0 <= k < |files| && ScanItems(files)[k] == e;
      StateMeans(files, k);
    }
  }

  /**
   Whatever directory is found valid under the manifest of a source holds exactly the
   bytes of that source, file by file: a change, a loss or an addition is found.
   */
  lemma ValidHoldsTheSource(dir: BackupDir, files: seq<SourceFile>, projectId: string, createdAt: string,
                            sourceRoot: string, codecs: Codecs)
    requires DistinctFiles(files) && dir.manifest == Some(ManifestOf(files, projectId, createdAt, sourceRoot))
    requires Valid(dir, codecs)
    ensures dir.state == StateOf(files)
    ensures forall k :: 0 <= k < |files| ==>
              files[k].path in dir.state && dir.state[files[k].path] == files[k].content
  {
    hide Valid, StateOf, Stored, ItemPaths, DistinctFiles, ScanItems;
    ValidParts(dir, codecs);
    StoredIsState(dir.state, files);
  }

  lemma StoredIsState(state: map<string, Bytes>, files: seq<SourceFile>)
    requires DistinctFiles(files) && state.Keys == ItemPaths(ScanItems(files))
    requires forall e :: e in ScanItems(files) ==> Stored(state, e)
    ensures state == StateOf(files)
    ensures forall k :: 0 <= k < |files| ==> files[k].path in state && state[files[k].path] == files[k].content
  {
    hide StateOf, ItemPaths, Stored, DistinctFiles;
    StateKeys(files);
    forall k | 0 <= k < |files| ensures files[k].path in state && state[files[k].path] == files[k].content {
      StoredFile(state, files, k);
    }
    hide ScanItems;
    StateOnly(files, state);
  }

  lemma StoredFile(state: map<string, Bytes>, files: seq<SourceFile>, k: nat)
    requires k < |files| && forall e :: e in ScanItems(files) ==> Stored(state, e)
    ensures files[k].path in state && state[files[k].path] == files[k].content
  {
    assert ScanItems(files)[k] == ScanItem(files[k]) && ScanItems(files)[k] in ScanItems(files);
    StoredIs(state, files[k]);
  }

  lemma ValidParts(dir: BackupDir, codecs: Codecs)
    requires Valid(dir, codecs)
    ensures dir.state.Keys == ItemPaths(dir.manifest.value.entries)
    ensures forall e :: e in dir.manifest.value.entries ==> Stored(dir.state, e)
  {
    hide Decodable, PhysicalOk, CopyConsistent, ItemsOk, DistinctItems, EntriesDigest, ItemsTotal;
  }

  /** What is valid keeps to the caps: 64 KiB of manifest, 8 MiB a file, 512 MiB in all, 4 KiB a path. */
  lemma ValidKeepsCaps(dir: BackupDir, codecs: Codecs)
    requires Valid(dir, codecs)
    ensures
      var m := dir.manifest.value;
      && ManifestBytes(m) <= 65_536 && |m.entries| <= 680 && |m.projectId| == 32
      && ItemsTotal(m.entries) <= 536_870_912
    ensures forall e :: e in dir.manifest.value.entries ==>
              e.path in dir.state && |dir.state[e.path]| <= 8_388_608 && 0 < Utf8Bytes(e.path) <= 4096
    ensures |dir.state.Keys| <= 10_000 && |DirectoriesOfAll(dir.state.Keys)| <= 10_000
    ensures |dir.state.Keys| + |DirectoriesOfAll(dir.state.Keys)| <= 20_000
  {
    hide CopyConsistent, EntriesDigest, ManifestBytes, ItemsTotal, DirectoriesOfAll;
    ManifestCapBoundsEntries(dir.manifest.value);
    ValidParts(dir, codecs);
  }

  lemma StoredIs(state: map<string, Bytes>, f: SourceFile)
    requires Stored(state, ScanItem(f))
    ensures f.path in state && state[f.path] == f.content
  {
  }

  lemma {:induction false} UpPartHasDots(path: string)
    requires ".." in Split(path, '/')
    ensures HasDots(path)
  {
    if path != "" {
      var rest := Split(path[1..], '/');
      var p := if path[0] == '/' then "" else [path[0]] + rest[0];
      if ".." in rest {
        UpPartHasDots(path[1..]);
        var i :| 0 < i < |path[1..]| && path[1..][i - 1] == '.' && path[1..][i] == '.';
        assert path[i] == '.' && path[i + 1] == '.';
      } else {
        assert p == ".." && path[0] != '/';
        assert p[0] == path[0] && p[1..] == rest[0] && ".."[1..] == ".";
        SplitStarts(path[1..]);
        assert path[0] == '.' && path[1] == '.';
      }
    }
  }

  lemma SplitStarts(s: string)
    requires Split(s, '/')[0] != ""
    ensures s != "" && s[0] == Split(s, '/')[0][0]
  {
  }

  /** The path of a listed entry never leaves the directory it is resolved in. */
  lemma ListedStaysBelow(e: Item, root: Path)
    requires ItemOk(e)
    ensures root <= Resolve(root, Split(e.path, '/'))
  {
    if ".." in Split(e.path, '/') { UpPartHasDots(e.path); }
    NeverUp(root, Split(e.path, '/'));
  }
}
