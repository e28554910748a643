/**
 Artifacts, inventories and installed trees: what extraction accepts, the
 inventory check and the tree check accept too, with the same caps.
 */
module ArtifactTree {
  import opened Basics
  import opened Strings
  import InventoryCodec

  const MAX_EXPANDED_BYTES := 64 * 1024 * 1024
  const MAX_FILES := 25_000
  const MAX_DIRECTORIES := 25_000
  const MAX_DEPTH := 64
  const MAX_OBJECTS := MAX_FILES + MAX_DIRECTORIES

  // ----- Paths -----

  /** A relative path by its parts; the root is the empty path. */
  type Path = seq<string>

  function Utf8Bytes(s: string): nat {
    if s == "" then 0
    else
      var c := s[0] as int;
      (if c < 0x80 then 1 else if c < 0x800 then 2 else if c < 0x10000 then 3 else 4) + Utf8Bytes(s[1..])
  }

  function Joined(p: Path): string { Join(p, '/') }

  predicate Ordinary(part: string) { part != "" && part != "." && part != ".." }

  predicate ValidPart(part: string) { Ordinary(part) && '/' !in part && '\\' !in part }

  predicate ValidPath(p: Path) {
    && 0 < |p| <= MAX_DEPTH && (forall part :: part in p ==> ValidPart(part)) && Utf8Bytes(Joined(p)) <= 4 * 1024
  }

  // ----- What a path names -----

  /** One part of a path, as a file system resolves it below the directory at. */
  function ResolvePart(at: Path, part: string): Path {
    if part == "" || part == "." then at
    else if part == ".." then if at == [] then [] else at[..|at| - 1]
    else at + [part]
  }

  function Resolve(at: Path, p: Path): Path
    decreases |p|
  {
    if p == [] then at else Resolve(ResolvePart(at, p[0]), p[1..])
  }

  lemma {:induction false} OrdinaryStays(at: Path, p: Path)
    requires forall part :: part in p ==> Ordinary(part)
    ensures Resolve(at, p) == at + p
    decreases |p|
  {
    if p == [] {
      assert at + p == at;
    } else {
      assert p[0] in p && ResolvePart(at, p[0]) == at + [p[0]];
      assert forall part :: part in p[1..] ==> part in p;
      OrdinaryStays(at + [p[0]], p[1..]);
      assert p == [p[0]] + p[1..];
      assert at + [p[0]] + p[1..] == at + p;
    }
  }

  /** Resolving adds at most one part for each part, and exactly one for none but ordinary ones. */
  lemma {:induction false} ResolvedLength(at: Path, p: Path)
    ensures |Resolve(at, p)| <= |at| + |p|
    ensures |Resolve(at, p)| == |at| + |p| ==> forall part :: part in p ==> Ordinary(part)
    decreases |p|
  {
    if p != [] {
      ResolvedLength(ResolvePart(at, p[0]), p[1..]);
      assert p == [p[0]] + p[1..];
    }
  }

  /** A file below root, at the path's own place, which no directory on the way leaves. */
  ghost predicate StaysBelow(root: Path, p: Path) {
    p != [] && forall n :: 0 <= n <= |p| ==> Resolve(root, p[..n]) == root + p[..n]
  }

  /**
   Paths that are checked name a place below the root, whatever the root is, and
   every path that names itself is accepted, within 64 parts and 4 KiB and without
   separators in its parts.
   */
  lemma ValidPathMeans(p: Path)
    ensures ValidPath(p) <==>
              && 0 < |p| <= 64 && Utf8Bytes(Joined(p)) <= 4096
              && (forall part :: part in p ==> '/' !in part && '\\' !in part) && Resolve([], p) == p
    ensures ValidPath(p) ==> forall root :: StaysBelow(root, p)
  {
    ResolvedLength([], p);
    if ValidPath(p) {
      OrdinaryStays([], p);
      assert [] + p == p;
      forall root ensures StaysBelow(root, p) {
        forall n | 0 <= n <= |p| ensures Resolve(root, p[..n]) == root + p[..n] {
          assert forall part :: part in p[..n] ==> part in p;
          OrdinaryStays(root, p[..n]);
        }
      }
    }
  }

  /** The check on the text of a path. */
  predicate ValidRelativePath(value: string) {
    && value != "" && Utf8Bytes(value) <= 4 * 1024 && '\\' !in value
    && value[0] != '/' && value[|value| - 1] != '/'
    && |Split(value, '/')| <= MAX_DEPTH && forall part :: part in Split(value, '/') ==> Ordinary(part)
  }

  /** It accepts a text exactly when it accepts its parts. */
  lemma ValidTextMeans(value: string)
    ensures ValidRelativePath(value) <==> ValidPath(Split(value, '/'))
  {
    var parts := Split(value, '/');
    JoinSplit(value, '/');
    InJoin(parts, '\\');
    if value == "" {
      assert parts == [""] && !Ordinary(parts[0]);
    } else {
      SplitEnds(value);
      assert parts[0] in parts && parts[|parts| - 1] in parts;
      hide Split, Join, Utf8Bytes;
    }
  }

  lemma {:induction false} SplitEnds(s: string)
    requires s != ""
    ensures s[0] == '/' ==> Split(s, '/')[0] == ""
    ensures s[|s| - 1] == '/' ==> Split(s, '/')[|Split(s, '/')| - 1] == ""
  {
    if |s| > 1 { SplitEnds(s[1..]); }
  }

  lemma {:induction false} InJoin(parts: seq<string>, c: char)
    requires c != '/'
    ensures c in Join(parts, '/') <==> exists p :: p in parts && c in p
  {
    if |parts| > 0 {
      assert parts == [parts[0]] + parts[1..] && parts[0] in parts;
      InJoin(parts[1..], c);
      assert forall p :: p in parts <==> p == parts[0] || p in parts[1..];
    }
  }

  /** Without a part that goes up, nothing on the way leaves the directory it starts from. */
  lemma {:induction false} NeverUp(at: Path, p: Path)
    requires ".." !in p
    ensures at <= Resolve(at, p)
    decreases |p|
  {
    if p != [] {
      assert p[0] in p && at <= ResolvePart(at, p[0]);
      NeverUp(ResolvePart(at, p[0]), p[1..]);
    }
  }

  function Parent(p: Path): Path
    requires p != []
  {
    p[..|p| - 1]
  }

  /** The directories that hold p, the root left out. */
  function Ancestors(p: Path): set<Path> { set i | 0 < i < |p| :: p[..i] }

  function AncestorsOf(paths: seq<Path>): set<Path> {
    if paths == [] then {} else AncestorsOf(paths[..|paths| - 1]) + Ancestors(paths[|paths| - 1])
  }

  lemma {:induction false} InAncestorsOf(paths: seq<Path>, d: Path)
    ensures d in AncestorsOf(paths) <==> exists i :: 0 <= i < |paths| && d in Ancestors(paths[i])
  {
    if paths != [] {
      var front := paths[..|paths| - 1];
      InAncestorsOf(front, d);
      assert forall i :: 0 <= i < |front| ==> front[i] == paths[i];
    }
  }

  /** No path is a directory of another. */
  predicate NoOverlap(paths: set<Path>) { forall p :: p in paths ==> Ancestors(p) !! paths }

  method CollectAncestors(p: Path, known: set<Path>) returns (directories: set<Path>)
    ensures directories == known + Ancestors(p)
  {
    directories := known;
    if p == [] { return; }
    for index := 1 to |p|
      invariant directories == known + set i | 0 < i < index :: p[..i]
    {
      directories := directories + {p[..index]};
    }
  }

  method AssertNoOverlappingPaths(paths: set<Path>) returns (ok: bool)
    ensures ok <==> NoOverlap(paths)
  {
    var left := paths;
    while left != {}
      invariant left <= paths && forall p :: p in paths - left ==> Ancestors(p) !! paths
      decreases left
    {
      var path :| path in left;
      left := left - {path};
      var ancestors := CollectAncestors(path, {});
      if !(ancestors !! paths) { return false; }
    }
    ok := true;
  }

  // ----- Inventories -----

  /** A content hash; equal hashes mean equal contents. */
  datatype Digest = Digest(content: seq<Byte>)

  datatype Entry = Entry(path: Path, mode: int, size: nat, digest: Digest)

  predicate PublishedMode(mode: int) { mode == 0x1A4 || mode == 0x1ED }

  function PathsOf(files: seq<Entry>): seq<Path> { seq(|files|, i requires 0 <= i < |files| => files[i].path) }

  function PathSet(files: seq<Entry>): set<Path> { set e | e in files :: e.path }

  function TotalSize(files: seq<Entry>): nat {
    if files == [] then 0 else TotalSize(files[..|files| - 1]) + files[|files| - 1].size
  }

  predicate DistinctPaths(files: seq<Entry>) { forall i, j :: 0 <= i < j < |files| ==> files[i].path != files[j].path }

  /** Strictly ascending in the byte order of the joined paths. */
  predicate InOrder(files: seq<Entry>) {
    forall i :: 0 < i < |files| ==> InventoryCodec.Before(Joined(files[i - 1].path), Joined(files[i].path))
  }

  /** What the loop over the entries checks. */
  predicate EntriesOk(files: seq<Entry>) {
    && DistinctPaths(files) && (forall e :: e in files ==> ValidPath(e.path) && PublishedMode(e.mode))
    && |AncestorsOf(PathsOf(files))| <= MAX_DIRECTORIES
    && TotalSize(files) <= MAX_EXPANDED_BYTES
  }

  predicate InventoryOk(files: seq<Entry>, fileCount: nat, expandedBytes: nat) {
    && |files| == fileCount && EntriesOk(files) && InOrder(files) && NoOverlap(PathSet(files))
    && TotalSize(files) == expandedBytes
  }

  lemma PathsStep(files: seq<Entry>, n: nat)
    requires n < |files|
    ensures PathsOf(files[..n + 1]) == PathsOf(files[..n]) + [files[n].path]
    ensures AncestorsOf(PathsOf(files[..n + 1])) == AncestorsOf(PathsOf(files[..n])) + Ancestors(files[n].path)
    ensures TotalSize(files[..n + 1]) == TotalSize(files[..n]) + files[n].size
    ensures PathSet(files[..n + 1]) == PathSet(files[..n]) + {files[n].path}
  {
    var more, fewer := PathsOf(files[..n + 1]), PathsOf(files[..n]);
    assert more == fewer + [files[n].path];
    assert more[..|more| - 1] == fewer;
    assert files[..n + 1][..n] == files[..n];
    assert files[..n + 1] == files[..n] + [files[n]];
  }

  /** One more entry passes when its own fields and the grown totals do. */
  lemma EntriesStep(files: seq<Entry>, n: nat)
    requires n < |files|
    ensures EntriesOk(files[..n + 1]) <==>
              && EntriesOk(files[..n]) && ValidPath(files[n].path) && PublishedMode(files[n].mode)
              && files[n].path !in PathSet(files[..n])
              && |AncestorsOf(PathsOf(files[..n])) + Ancestors(files[n].path)| <= MAX_DIRECTORIES
              && TotalSize(files[..n]) + files[n].size <= MAX_EXPANDED_BYTES
  {
    PathsStep(files, n);
    var fewer, more := files[..n], files[..n + 1];
    assert more == fewer + [files[n]];
    DistinctStep(fewer, files[n]);
    assert forall e :: e in more <==> e in fewer || e == files[n];
    hide PathsOf, AncestorsOf, Ancestors, ValidPath, PublishedMode, TotalSize, DistinctPaths, PathSet;
    SubsetSize(AncestorsOf(PathsOf(fewer)), AncestorsOf(PathsOf(more)));
  }

  lemma DistinctStep(fewer: seq<Entry>, e: Entry)
    ensures DistinctPaths(fewer + [e]) <==> DistinctPaths(fewer) && e.path !in PathSet(fewer)
  {
    var more := fewer + [e];
    if DistinctPaths(more) {
      forall i | 0 <= i < |fewer| ensures fewer[i].path != e.path { assert more[i].path != more[|fewer|].path; }
      forall i, j | 0 <= i < j < |fewer| ensures fewer[i].path != fewer[j].path { assert more[i].path != more[j].path; }
    }
  }

  lemma {:induction false} EntriesShrink(files: seq<Entry>, n: nat)
    requires n <= |files| && EntriesOk(files)
    ensures EntriesOk(files[..n])
    decreases |files| - n
  {
    if n == |files| { assert files[..n] == files; } else {
      EntriesStep(files, n);
      hide EntriesOk, PathsOf, PathSet, AncestorsOf, TotalSize, ValidPath;
      EntriesShrink(files, n + 1);
    }
  }

  method CheckEntries(files: seq<Entry>) returns (ok: bool, seen: set<Path>, total: nat)
    ensures ok <==> EntriesOk(files)
    ensures ok ==> seen == PathSet(files) && total == TotalSize(files)
  {
    var directories: set<Path>;
    ok, seen, total, directories := false, {}, 0, {};
    for n := 0 to |files|
      invariant !ok && EntriesOk(files[..n])
      invariant seen == PathSet(files[..n]) && total == TotalSize(files[..n])
      invariant directories == AncestorsOf(PathsOf(files[..n]))
    {
      var file := files[n];
      EntriesStep(files, n);
      PathsStep(files, n);
      if EntriesOk(files) { EntriesShrink(files, n + 1); }
      if !ValidPath(file.path) || file.path in seen || !PublishedMode(file.mode) { return; }
      directories := CollectAncestors(file.path, directories);
      if |directories| > MAX_DIRECTORIES { return; }
      if file.size > MAX_EXPANDED_BYTES - total { return; }
      seen, total := seen + {file.path}, total + file.size;
    }
    assert files[..|files|] == files;
    ok := true;
  }

  lemma SameSize<T>(a: set<T>, b: set<T>)
    requires a <= b && |a| == |b|
    ensures a == b
  {
    assert b == a + (b - a);
  }

  method ValidateInventory(files: seq<Entry>, fileCount: nat, expandedBytes: nat) returns (ok: bool)
    ensures ok <==> InventoryOk(files, fileCount, expandedBytes)
    ensures ok ==> forall e, root :: e in files ==> StaysBelow(root, e.path)
  {
    forall e | e in files && ValidPath(e.path) ensures forall root :: StaysBelow(root, e.path) {
      ValidPathMeans(e.path);
    }
    hide StaysBelow, ValidPath;
    if |files| != fileCount { return false; }
    var seen, total;
    ok, seen, total := CheckEntries(files);
    if !ok || !InOrder(files) { return false; }
    ok := AssertNoOverlappingPaths(seen);
    ok := ok && total == expandedBytes;
  }

  // ----- Trees -----

  /** An entry of a file system; mode holds the permission and the special bits. */
  datatype Node = Dir | File(mode: nat, content: seq<Byte>) | Symlink | Other

  type Tree = map<Path, Node>

  ghost predicate WellFormed(t: Tree) { forall p :: p in t && p != [] ==> Parent(p) in t && t[Parent(p)].Dir? }

  function Expected(files: seq<Entry>): map<Path, Entry> {
    if files == [] then map[] else Expected(files[..|files| - 1])[files[|files| - 1].path := files[|files| - 1]]
  }

  predicate FileMatches(node: Node, e: Entry) {
    && node.File? && node.mode / 0x200 % 8 == 0 && |node.content| == e.size && node.mode % 0x200 == e.mode
    && Digest(node.content) == e.digest
  }

  predicate NodeOk(t: Tree, expected: map<Path, Entry>, p: Path)
    requires p in t
  {
    match t[p]
    case Dir => |p| <= MAX_DEPTH
    case File(_, _) => p in expected && FileMatches(t[p], expected[p])
    case _ => false
  }

  function Dirs(t: Tree): set<Path> { set p | p in t && t[p].Dir? }

  function Files(t: Tree): set<Path> { set p | p in t && t[p].File? }

  /** The bytes of the files in s. */
  ghost function Weight(t: Tree, s: set<Path>): nat
    requires forall p :: p in s ==> p in t && t[p].File?
  {
    if s == {} then 0
    else
      var p :| p in s;
      |t[p].content| + Weight(t, s - {p})
  }

  lemma {:induction false} WeightAdd(t: Tree, s: set<Path>, p: Path)
    requires (forall q :: q in s ==> q in t && t[q].File?) && p in t && t[p].File? && p !in s
    ensures Weight(t, s + {p}) == Weight(t, s) + |t[p].content|
  {
    var more := s + {p};
    var q :| q in more && Weight(t, more) == |t[q].content| + Weight(t, more - {q});
    if q == p {
      assert more - {q} == s;
    } else {
      WeightAdd(t, s - {q}, p);
      assert more - {q} == s - {q} + {p};
      assert s - {q} + {q} == s;
      WeightAdd(t, s - {q}, q);
    }
  }

  lemma {:induction false} WeightMonotone(t: Tree, a: set<Path>, b: set<Path>)
    requires a <= b && forall p :: p in b ==> p in t && t[p].File?
    ensures Weight(t, a) <= Weight(t, b)
    decreases |b - a|
  {
    if b - a == {} {
      assert a == b;
    } else {
      var p :| p in b - a;
      WeightAdd(t, a, p);
      assert b - (a + {p}) == (b - a) - {p};
      WeightMonotone(t, a + {p}, b);
    }
  }

  /** What the walk over the tree checks. */
  ghost predicate Acceptable(t: Tree, expected: map<Path, Entry>) {
    && (forall p :: p in t && p != [] ==> NodeOk(t, expected, p))
    && |Files(t)| <= MAX_FILES && |Dirs(t) - {[]}| <= MAX_DIRECTORIES
    && Weight(t, Files(t)) <= MAX_EXPANDED_BYTES
  }

  /** The tree holds exactly the files and directories of the inventory, within the caps. */
  ghost predicate TreeOk(t: Tree, files: seq<Entry>) {
    && [] in t && t[[]].Dir? && Acceptable(t, Expected(files))
    && Files(t) == Expected(files).Keys
    && Dirs(t) == AncestorsOf(PathsOf(files)) + {[]}
  }

  // ----- The walk -----

  datatype Walk = Walk(
    stack: seq<Path>,
    seen: set<Path>,
    seenDirectories: set<Path>,
    objectCount: nat,
    fileCount: nat,
    directoryCount: nat,
    totalBytes: nat)

  /** The visited nodes are fine, and the sets tell the files and the directories among them. */
  ghost predicate Marks(t: Tree, expected: map<Path, Entry>, w: Walk, visited: set<Path>) {
    && visited <= t.Keys && [] !in visited
    && (forall p :: p in visited ==> NodeOk(t, expected, p))
    && (forall p :: p in w.seen <==> p in visited && t[p].File?)
    && (forall p :: p in w.seenDirectories <==> p == [] || (p in visited && t[p].Dir?))
  }

  /** The numbers count the sets, within the caps. */
  ghost predicate Tallies(t: Tree, w: Walk, visited: set<Path>)
    requires forall p :: p in w.seen ==> p in t && t[p].File?
  {
    && w.objectCount == |visited| && w.fileCount == |w.seen| && w.directoryCount == |w.seenDirectories - {[]}|
    && w.fileCount <= MAX_FILES && w.directoryCount <= MAX_DIRECTORIES
    && w.totalBytes == Weight(t, w.seen) <= MAX_EXPANDED_BYTES
  }

  /** The accumulators describe exactly the visited nodes, all of them fine. */
  ghost predicate Counts(t: Tree, expected: map<Path, Entry>, w: Walk, visited: set<Path>) {
    Marks(t, expected, w, visited) && Tallies(t, w, visited)
  }

  function AddDirectory(w: Walk, p: Path): Walk {
    w.(objectCount := w.objectCount + 1, directoryCount := w.directoryCount + 1,
       seenDirectories := w.seenDirectories + {p}, stack := w.stack + [p])
  }

  function AddFile(w: Walk, p: Path, bytes: nat): Walk {
    w.(objectCount := w.objectCount + 1, fileCount := w.fileCount + 1,
       seen := w.seen + {p}, totalBytes := w.totalBytes + bytes)
  }

  lemma MarksDirectory(t: Tree, expected: map<Path, Entry>, w: Walk, visited: set<Path>, p: Path)
    requires Marks(t, expected, w, visited) && p in t && p != [] && p !in visited && t[p].Dir? && |p| <= MAX_DEPTH
    ensures Marks(t, expected, AddDirectory(w, p), visited + {p}) && p !in w.seenDirectories
  {
  }

  lemma CountsDirectory(t: Tree, expected: map<Path, Entry>, w: Walk, visited: set<Path>, p: Path)
    requires Counts(t, expected, w, visited) && p in t && p != [] && p !in visited
    requires t[p].Dir? && |p| <= MAX_DEPTH && w.directoryCount < MAX_DIRECTORIES
    ensures Counts(t, expected, AddDirectory(w, p), visited + {p})
  {
    MarksDirectory(t, expected, w, visited, p);
    assert w.seenDirectories + {p} - {[]} == w.seenDirectories - {[]} + {p};
  }

  lemma MarksFile(t: Tree, expected: map<Path, Entry>, w: Walk, visited: set<Path>, p: Path)
    requires Marks(t, expected, w, visited) && p in t &&
              p != [] && p !in visited && t[p].File? && NodeOk(t, expected, p)
    ensures Marks(t, expected, AddFile(w, p, |t[p].content|), visited + {p}) && p !in w.seen
  {
  }

  lemma CountsFile(t: Tree, expected: map<Path, Entry>, w: Walk, visited: set<Path>, p: Path)
    requires Counts(t, expected, w, visited) && p in t && p != [] && p !in visited
    requires t[p].File? && NodeOk(t, expected, p) && w.fileCount < MAX_FILES
    requires w.totalBytes + |t[p].content| <= MAX_EXPANDED_BYTES
    ensures Counts(t, expected, AddFile(w, p, |t[p].content|), visited + {p})
  {
    MarksFile(t, expected, w, visited, p);
    WeightAdd(t, w.seen, p);
  }

  /** In an acceptable tree no cap is in the way of one more node. */
  lemma CapsLeaveRoom(t: Tree, expected: map<Path, Entry>, w: Walk, visited: set<Path>, p: Path)
    requires Counts(t, expected, w, visited) && p in t && p != [] && p !in visited && Acceptable(t, expected)
    ensures NodeOk(t, expected, p) && w.objectCount < MAX_OBJECTS
    ensures t[p].Dir? ==> w.directoryCount < MAX_DIRECTORIES
    ensures t[p].File? ==> w.fileCount < MAX_FILES && w.totalBytes + |t[p].content| <= MAX_EXPANDED_BYTES
  {
    ObjectsBound(t, expected, visited + {p});
    if t[p].Dir? { DirectoryCapLeavesRoom(t, expected, w, visited, p); }
    if t[p].File? { FileCapsLeaveRoom(t, expected, w, visited, p); }
    hide Marks, Weight, Files, Dirs;
  }

  lemma DirectoryCapLeavesRoom(t: Tree, expected: map<Path, Entry>, w: Walk, visited: set<Path>, p: Path)
    requires Counts(t, expected, w, visited) && p in t && p != [] && p !in visited && Acceptable(t, expected)
    requires t[p].Dir?
    ensures w.directoryCount < MAX_DIRECTORIES
  {
    hide NodeOk, Weight;
    SubsetSize(w.seenDirectories - {[]} + {p}, Dirs(t) - {[]});
  }

  lemma FileCapsLeaveRoom(t: Tree, expected: map<Path, Entry>, w: Walk, visited: set<Path>, p: Path)
    requires Counts(t, expected, w, visited) && p in t && p != [] && p !in visited && Acceptable(t, expected)
    requires t[p].File?
    ensures w.fileCount < MAX_FILES && w.totalBytes + |t[p].content| <= MAX_EXPANDED_BYTES
  {
    hide NodeOk;
    SubsetSize(w.seen + {p}, Files(t));
    WeightAdd(t, w.seen, p);
    WeightMonotone(t, w.seen + {p}, Files(t));
  }

  lemma ObjectsBound(t: Tree, expected: map<Path, Entry>, visited: set<Path>)
    requires Acceptable(t, expected) && visited <= t.Keys && [] !in visited
    ensures |visited| <= MAX_OBJECTS
  {
    var all := Files(t) + (Dirs(t) - {[]});
    assert visited <= all by {
      forall p | p in visited ensures p in all { assert NodeOk(t, expected, p); }
    }
    SubsetSize(visited, all);
  }

  /** One directory entry: counted, checked, and a directory put on the stack. */
  method Visit(t: Tree, expected: map<Path, Entry>, p: Path, w: Walk, ghost visited: set<Path>)
    returns (ok: bool, next: Walk)
    requires Counts(t, expected, w, visited) && p in t && p != [] && p !in visited
    ensures ok ==> Counts(t, expected, next, visited + {p})
    ensures ok ==> next.stack == if t[p].Dir? then w.stack + [p] else w.stack
    ensures ok ==> next.seenDirectories == w.seenDirectories + if t[p].Dir? then {p} else {}
    ensures !ok ==> !Acceptable(t, expected)
  {
    hide Acceptable, Counts;
    ok, next := false, w;
    if Acceptable(t, expected) { CapsLeaveRoom(t, expected, w, visited, p); }
    if w.objectCount + 1 > MAX_OBJECTS { return; }
    match t[p]
    case Symlink => return;
    case Other => return;
    case Dir =>
      if |p| > MAX_DEPTH || w.directoryCount + 1 > MAX_DIRECTORIES { return; }
      CountsDirectory(t, expected, w, visited, p);
      ok, next := true, AddDirectory(w, p);
    case File(mode, content) =>
      if w.fileCount + 1 > MAX_FILES || p !in expected { return; }
      if !FileMatches(t[p], expected[p]) || expected[p].size > MAX_EXPANDED_BYTES - w.totalBytes { return; }
      CountsFile(t, expected, w, visited, p);
      ok, next := true, AddFile(w, p, |content|);
  }

  method ReadDir(t: Tree, dir: Path) returns (names: seq<string>)
    ensures forall n :: n in names <==> dir + [n] in t
    ensures forall i, j :: 0 <= i < j < |names| ==> names[i] != names[j]
  {
    names := [];
    var left := t.Keys;
    while left != {}
      invariant left <= t.Keys
      invariant forall n :: n in names <==> dir + [n] in t.Keys - left
      invariant forall i, j :: 0 <= i < j < |names| ==> names[i] != names[j]
      decreases left
    {
      var p :| p in left;
      left := left - {p};
      if p != [] && Parent(p) == dir {
        assert p == dir + [p[|p| - 1]];
        names := names + [p[|p| - 1]];
      } else {
        forall n ensures dir + [n] != p { ChildOf(dir, n); }
      }
    }
  }

  /** The nodes right below the directories in expanded. */
  function Below(t: Tree, expanded: set<Path>): set<Path> { set p | p in t && p != [] && Parent(p) in expanded }

  /** Every directory seen is either expanded or waits on the stack, once. */
  ghost predicate Frontier(w: Walk, expanded: set<Path>) {
    && (forall p :: p in w.seenDirectories <==> p in expanded || p in w.stack)
    && (forall p :: p in w.stack ==> p !in expanded)
    && (forall i, j :: 0 <= i < j < |w.stack| ==> w.stack[i] != w.stack[j])
  }

  lemma ChildOf(dir: Path, n: string)
    ensures dir + [n] != [] && Parent(dir + [n]) == dir
  {
  }

  /** All entries of one directory. */
  method VisitDirectory(t: Tree, expected: map<Path, Entry>, dir: Path, w: Walk, ghost expanded: set<Path>)
    returns (ok: bool, next: Walk)
    requires Counts(t, expected, w, Below(t, expanded)) && Frontier(w, expanded + {dir}) && dir !in expanded
    ensures ok ==> Counts(t, expected, next, Below(t, expanded + {dir})) && Frontier(next, expanded + {dir})
    ensures !ok ==> !Acceptable(t, expected)
  {
    hide Counts, Acceptable, Frontier, Below, Children;
    var names := ReadDir(t, dir);
    NoChildrenYet(t, expanded, dir);
    next := w;
    for i := 0 to |names|
      invariant Counts(t, expected, next, Below(t, expanded) + Children(dir, names[..i]))
      invariant Frontier(next, expanded + {dir})
    {
      ghost var visited, before := Below(t, expanded) + Children(dir, names[..i]), next;
      var p := dir + [names[i]];
      assert names[i] in names;
      NextChild(t, expanded, dir, names, i);
      NotSeen(t, expected, next, visited, p);
      ok, next := Visit(t, expected, p, next, visited);
      if !ok { return; }
      FrontierGrows(before, next, expanded + {dir}, p);
    }
    ok := true;
    assert names[..|names|] == names;
    AllChildren(t, expanded, dir, names);
  }

  function Children(dir: Path, names: seq<string>): set<Path> { set n | n in names :: dir + [n] }

  lemma NoChildrenYet(t: Tree, expanded: set<Path>, dir: Path)
    ensures Below(t, expanded) + Children(dir, []) == Below(t, expanded)
  {
  }

  lemma NextChild(t: Tree, expanded: set<Path>, dir: Path, names: seq<string>, i: nat)
    requires i < |names| && dir !in expanded && forall i, j :: 0 <= i < j < |names| ==> names[i] != names[j]
    ensures dir + [names[i]] != [] && dir + [names[i]] !in Below(t, expanded) + Children(dir, names[..i])
    ensures Children(dir, names[..i + 1]) == Children(dir, names[..i]) + {dir + [names[i]]}
    ensures Below(t, expanded) + Children(dir, names[..i + 1]) ==
              Below(t, expanded) + Children(dir, names[..i]) + {dir + [names[i]]}
  {
    ChildOf(dir, names[i]);
    forall n | n in names[..i] ensures dir + [n] != dir + [names[i]] {
      assert (dir + [n])[|dir|] == n && (dir + [names[i]])[|dir|] == names[i];
    }
    assert forall n :: n in names[..i + 1] <==> n in names[..i] || n == names[i];
  }

  lemma AllChildren(t: Tree, expanded: set<Path>, dir: Path, names: seq<string>)
    requires forall n :: n in names <==> dir + [n] in t
    ensures Below(t, expanded) + Children(dir, names) == Below(t, expanded + {dir})
  {
    forall p | p in t && p != [] && Parent(p) == dir ensures p in Children(dir, names) {
      assert p == dir + [p[|p| - 1]];
    }
    forall n | n in names ensures dir + [n] in Below(t, expanded + {dir}) { ChildOf(dir, n); }
  }

  lemma NotSeen(t: Tree, expected: map<Path, Entry>, w: Walk, visited: set<Path>, p: Path)
    requires Counts(t, expected, w, visited) && p !in visited && p != []
    ensures p !in w.seenDirectories
  {
  }

  lemma FrontierGrows(w: Walk, next: Walk, expanded: set<Path>, p: Path)
    requires Frontier(w, expanded) && p !in w.seenDirectories
    requires (next.stack == w.stack && next.seenDirectories == w.seenDirectories) ||
             (next.stack == w.stack + [p] && next.seenDirectories == w.seenDirectories + {p})
    ensures Frontier(next, expanded)
  {
  }

  /** With no directory left to expand, the walk has reached every node. */
  lemma {:induction false} AllReached(t: Tree, expanded: set<Path>, p: Path)
    requires WellFormed(t) && [] in expanded && p in t && p != []
    requires forall d :: d in Below(t, expanded) && t[d].Dir? ==> d in expanded
    ensures p in Below(t, expanded)
    decreases |p|
  {
    if Parent(p) != [] { AllReached(t, expanded, Parent(p)); }
  }

  method WalkTree(t: Tree, expected: map<Path, Entry>) returns (ok: bool, w: Walk)
    requires WellFormed(t) && [] in t && t[[]].Dir?
    ensures ok ==> w.seen == Files(t) && w.seenDirectories == Dirs(t)
    ensures ok <==> Acceptable(t, expected)
  {
    w := Walk([[]], {}, {[]}, 0, 0, 0, 0);
    ghost var expanded: set<Path> := {};
    StartCounts(t, expected);
    hide Counts, Acceptable, Frontier, Below;
    while w.stack != []
      invariant Counts(t, expected, w, Below(t, expanded)) && Frontier(w, expanded)
      invariant expanded <= t.Keys
      decreases t.Keys - expanded
    {
      ghost var dir;
      ok, w, dir := ExpandTop(t, expected, w, expanded);
      if !ok { return; }
      expanded := expanded + {dir};
    }
    ok := true;
    WalkEnds(t, expected, w, expanded);
  }

  /** Takes the directory on top off the stack and visits its entries. */
  method ExpandTop(t: Tree, expected: map<Path, Entry>, w: Walk, ghost expanded: set<Path>)
    returns (ok: bool, next: Walk, ghost dir: Path)
    requires w.stack != [] && [] in t
    requires Counts(t, expected, w, Below(t, expanded)) && Frontier(w, expanded)
    ensures ok ==>
              && Counts(t, expected, next, Below(t, expanded + {dir})) && Frontier(next, expanded + {dir})
              && dir in t && dir !in expanded
    ensures !ok ==> !Acceptable(t, expected)
  {
    hide Counts, Acceptable, Frontier, Below;
    var top := w.stack[|w.stack| - 1];
    dir := top;
    var rest := w.(stack := w.stack[..|w.stack| - 1]);
    Popped(w, rest, expanded, dir);
    SeenInTree(t, expected, w, Below(t, expanded), dir);
    StackOnly(t, expected, w, rest, Below(t, expanded));
    ok, next := VisitDirectory(t, expected, top, rest, expanded);
  }

  lemma StartCounts(t: Tree, expected: map<Path, Entry>)
    ensures Counts(t, expected, Walk([[]], {}, {[]}, 0, 0, 0, 0), Below(t, {}))
    ensures Frontier(Walk([[]], {}, {[]}, 0, 0, 0, 0), {})
  {
    var none: set<Path> := {[]};
    assert Below(t, {}) == {} && none - {[]} == {};
  }

  /** The directory on top leaves the stack to be expanded. */
  lemma Popped(w: Walk, v: Walk, expanded: set<Path>, dir: Path)
    requires Frontier(w, expanded) && w.stack == v.stack + [dir] && v.seenDirectories == w.seenDirectories
    ensures Frontier(v, expanded + {dir}) && dir in w.seenDirectories && dir !in expanded
  {
    assert w.stack[|v.stack|] == dir && dir in w.stack;
    forall i | 0 <= i < |v.stack| ensures v.stack[i] != dir && v.stack[i] in w.stack {
      assert w.stack[i] == v.stack[i];
    }
    forall i, j | 0 <= i < j < |v.stack| ensures v.stack[i] != v.stack[j] {
      assert w.stack[i] != w.stack[j];
    }
  }

  lemma SeenInTree(t: Tree, expected: map<Path, Entry>, w: Walk, visited: set<Path>, p: Path)
    requires Counts(t, expected, w, visited) && p in w.seenDirectories && [] in t
    ensures p in t && forall q :: q in w.seenDirectories ==> q == [] || q in visited
  {
  }

  lemma StackOnly(t: Tree, expected: map<Path, Entry>, w: Walk, v: Walk, visited: set<Path>)
    requires Counts(t, expected, w, visited) && v == w.(stack := v.stack)
    ensures Counts(t, expected, v, visited)
  {
  }

  lemma WalkEnds(t: Tree, expected: map<Path, Entry>, w: Walk, expanded: set<Path>)
    requires WellFormed(t) && [] in t && t[[]].Dir? && w.stack == []
    requires Counts(t, expected, w, Below(t, expanded)) && Frontier(w, expanded)
    ensures w.seen == Files(t) && w.seenDirectories == Dirs(t) && Acceptable(t, expected)
  {
    forall p | p in t && p != [] ensures p in Below(t, expanded) { AllReached(t, expanded, p); }
  }

  /** Accepts exactly the trees that hold the inventory's files and directories and nothing else. */
  method ValidateTree(t: Tree, files: seq<Entry>) returns (ok: bool)
    requires WellFormed(t)
    ensures ok <==> TreeOk(t, files)
  {
    if [] !in t || !t[[]].Dir? { return false; }
    var expected := Expected(files);
    var expectedDirectories: set<Path> := {[]};
    for n := 0 to |files|
      invariant expectedDirectories == AncestorsOf(PathsOf(files[..n])) + {[]}
    {
      PathsStep(files, n);
      expectedDirectories := CollectAncestors(files[n].path, expectedDirectories);
    }
    assert files[..|files|] == files;
    var w;
    ok, w := WalkTree(t, expected);
    if !ok { return; }
    if |w.seen| == |expected| { SameSize(w.seen, expected.Keys); }
    ok := |w.seen| == |expected| && w.seenDirectories == expectedDirectories;
  }

  /** The number of bytes is that of the UTF-8 form. */
  lemma {:induction false} Utf8BytesCounts(s: string)
    ensures Utf8Bytes(s) == |Encoded(s)|
  {
    if s != "" { Utf8BytesCounts(s[1..]); }
  }
}
