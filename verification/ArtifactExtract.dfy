/**
 Extraction of an artifact into an empty stage. Whatever it accepts passes the
 inventory check and the tree check.
 */
module ArtifactExtract {
  import opened Basics
  import opened Wrappers
  import opened ArtifactTree
  import InventoryCodec

  /** data: None when it is no base64 text; digest: None when it is no hash. */
  datatype Record = Record(isFile: bool, path: Path, mode: int,
      size: int, digest: Option<Digest>, data: Option<seq<Byte>>)

  /** wellFormed: the type, schema version and format of the header are right and its numbers are integers. */
  datatype Header = Header(wellFormed: bool, version: string, fileCount: int, expandedBytes: int)

  datatype Artifact = Artifact(endsWithNewline: bool, header: Header, records: seq<Record>)

  datatype Extracted = Extracted(inventory: seq<Entry>, tree: Tree, expandedBytes: nat)

  // ----- Sorting the inventory -----

  /** Code point order, which is the byte order of the UTF-8 forms. */
  predicate PathBefore(a: Entry, b: Entry) { InventoryCodec.Before(Joined(a.path), Joined(b.path)) }

  function Insert(e: Entry, files: seq<Entry>): seq<Entry> {
    if files == [] || PathBefore(e, files[0]) then [e] + files else [files[0]] + Insert(e, files[1..])
  }

  function SortEntries(files: seq<Entry>): seq<Entry> {
    if files == [] then [] else Insert(files[|files| - 1], SortEntries(files[..|files| - 1]))
  }

  lemma HeadNotSlash(x: string, r: string)
    requires x != "" && '/' !in x
    ensures x + r != "" && (x + r)[0] != '/'
  {
    assert x[0] in x;
  }

  lemma {:induction false} NoSlashPrefix(x: string, y: string, r: string, q: string)
    requires '/' !in x && '/' !in y && (r == "" || r[0] == '/') && (q == "" || q[0] == '/') && x + r == y + q
    ensures x == y && r == q
  {
    assert (x == "" ==> x + r == r) && (y == "" ==> y + q == q);
    if x == "" {
      if y != "" { HeadNotSlash(y, q); }
    } else if y == "" {
      HeadNotSlash(x, r);
    } else {
      assert (x + r)[0] == x[0] && (y + q)[0] == y[0];
      assert (x + r)[1..] == x[1..] + r && (y + q)[1..] == y[1..] + q;
      NoSlashPrefix(x[1..], y[1..], r, q);
      assert x == [x[0]] + x[1..] && y == [y[0]] + y[1..];
    }
  }

  ghost predicate Parts(p: Path) { forall part :: part in p ==> ValidPart(part) }

  lemma JoinedNonEmpty(p: Path)
    requires Parts(p) && p != []
    ensures Joined(p) != ""
  {
    assert p[0] in p;
  }

  /** What follows the first part. */
  function AfterFirst(p: Path): string { if |p| <= 1 then "" else "/" + Joined(p[1..]) }

  lemma JoinedParts(p: Path)
    requires Parts(p) && p != []
    ensures Joined(p) == p[0] + AfterFirst(p) && '/' !in p[0] && (AfterFirst(p) == "" || AfterFirst(p)[0] == '/')
  {
    assert p[0] in p;
    if |p| > 1 { Regroup(p[0], "/", Joined(p[1..])); }
  }

  lemma Regroup(a: string, b: string, c: string)
    ensures a + b + c == a + (b + c)
  {
  }

  lemma AfterFirstEqual(a: Path, b: Path)
    requires a != [] && b != [] && AfterFirst(a) == AfterFirst(b)
    ensures Joined(a[1..]) == Joined(b[1..]) && (|a| == 1 <==> |b| == 1)
  {
    if |a| > 1 && |b| > 1 { assert AfterFirst(a)[1..] == Joined(a[1..]) && AfterFirst(b)[1..] == Joined(b[1..]); }
  }

  lemma {:induction false} JoinedInjective(a: Path, b: Path)
    requires Parts(a) && Parts(b) && Joined(a) == Joined(b)
    ensures a == b
  {
    if a == [] {
      if b != [] { JoinedNonEmpty(b); }
    } else if b == [] {
      JoinedNonEmpty(a);
    } else {
      JoinedParts(a);
      JoinedParts(b);
      hide Joined, AfterFirst, ValidPart;
      NoSlashPrefix(a[0], b[0], AfterFirst(a), AfterFirst(b));
      AfterFirstEqual(a, b);
      JoinedInjective(a[1..], b[1..]);
      assert a == [a[0]] + a[1..] && b == [b[0]] + b[1..];
    }
  }

  /** Every entry before every later one. */
  ghost predicate Sorted(files: seq<Entry>) { forall i, j :: 0 <= i < j < |files| ==> PathBefore(files[i], files[j]) }

  lemma OrderTotal(a: Entry, b: Entry)
    requires Parts(a.path) && Parts(b.path) && a.path != b.path
    ensures PathBefore(a, b) || PathBefore(b, a)
  {
    InventoryCodec.BeforeIsTotal(Joined(a.path), Joined(b.path));
    if Joined(a.path) == Joined(b.path) { JoinedInjective(a.path, b.path); }
  }

  lemma {:induction false} InsertSorted(e: Entry, files: seq<Entry>)
    requires Sorted(files) && e.path !in PathSet(files) && Parts(e.path) && forall f :: f in files ==> Parts(f.path)
    ensures Sorted(Insert(e, files)) && forall f :: f in Insert(e, files) <==> f == e || f in files
    ensures |Insert(e, files)| == |files| + 1
  {
    if files == [] {
    } else if PathBefore(e, files[0]) {
      forall j | 0 < j < |files| ensures PathBefore(e, files[j]) {
        InventoryCodec.BeforeIsTransitive(Joined(e.path), Joined(files[0].path), Joined(files[j].path));
      }
    } else {
      assert files[0] in files && files == [files[0]] + files[1..];
      OrderTotal(e, files[0]);
      InsertSorted(e, files[1..]);
      var tail := Insert(e, files[1..]);
      forall j | 0 <= j < |tail| ensures PathBefore(files[0], tail[j]) {
        assert tail[j] in tail;
        if tail[j] != e {
          var k :| 0 <= k < |files[1..]| && files[1..][k] == tail[j];
          assert files[k + 1] == tail[j];
        }
      }
    }
  }

  lemma {:induction false} InsertTotal(e: Entry, files: seq<Entry>)
    ensures TotalSize(Insert(e, files)) == TotalSize(files) + e.size
  {
    if files == [] || PathBefore(e, files[0]) {
      TotalFront(e, files);
    } else {
      InsertTotal(e, files[1..]);
      TotalFront(files[0], Insert(e, files[1..]));
      TotalFront(files[0], files[1..]);
      assert files == [files[0]] + files[1..];
    }
  }

  lemma {:induction false} TotalFront(e: Entry, files: seq<Entry>)
    ensures TotalSize([e] + files) == e.size + TotalSize(files)
  {
    if files == [] {
      assert [e] + files == [e] && [e][..0] == [];
      assert TotalSize([e]) == TotalSize([e][..0]) + e.size;
    } else {
      var all := [e] + files;
      assert all[..|all| - 1] == [e] + files[..|files| - 1] && all[|all| - 1] == files[|files| - 1];
      TotalFront(e, files[..|files| - 1]);
    }
  }

  lemma {:induction false} SortMeans(files: seq<Entry>)
    requires DistinctPaths(files) && forall f :: f in files ==> Parts(f.path)
    ensures Sorted(SortEntries(files)) && |SortEntries(files)| == |files|
    ensures TotalSize(SortEntries(files)) == TotalSize(files)
    ensures forall f :: f in SortEntries(files) <==> f in files
  {
    if files != [] {
      var front, last := files[..|files| - 1], files[|files| - 1];
      assert files == front + [last];
      DistinctStep(front, last);
      SortMeans(front);
      InsertSorted(last, SortEntries(front));
      InsertTotal(last, SortEntries(front));
    }
  }

  lemma SortedIsDistinct(files: seq<Entry>)
    requires Sorted(files)
    ensures DistinctPaths(files) && InOrder(files)
  {
    forall i, j | 0 <= i < j < |files| ensures files[i].path != files[j].path {
      InventoryCodec.BeforeIsTotal(Joined(files[i].path), Joined(files[j].path));
    }
  }

  // ----- The tree that extraction builds -----

  predicate RecordOk(r: Record) {
    && r.isFile && PublishedMode(r.mode) && r.digest.Some? && r.size >= 0 && r.data.Some?
    && |r.data.value| == r.size && Digest(r.data.value) == r.digest.value && ValidPath(r.path)
  }

  function EntryOf(r: Record): Entry
    requires RecordOk(r)
  {
    Entry(r.path, r.mode, r.size, r.digest.value)
  }

  predicate RecordsOk(records: seq<Record>) { forall i :: 0 <= i < |records| ==> RecordOk(records[i]) }

  function EntriesOf(records: seq<Record>): seq<Entry>
    requires RecordsOk(records)
  {
    seq(|records|, i requires 0 <= i < |records| => EntryOf(records[i]))
  }

  /** The paths are distinct, do not overlap and keep to the caps. */
  predicate Extractable(records: seq<Record>) {
    && RecordsOk(records) && |records| <= MAX_FILES && DistinctPaths(EntriesOf(records))
    && |AncestorsOf(PathsOf(EntriesOf(records)))| <= MAX_DIRECTORIES && NoOverlap(PathSet(EntriesOf(records)))
  }

  /** Makes the directories above p and writes the file. */
  function WriteFile(t: Tree, p: Path, mode: nat, content: seq<Byte>): Tree {
    (t + map d | d in Ancestors(p) - t.Keys :: Dir)[p := File(mode, content)]
  }

  function Built(records: seq<Record>): Tree
    requires RecordsOk(records)
  {
    if records == [] then map[[] := Dir]
    else
      var r := records[|records| - 1];
      WriteFile(Built(records[..|records| - 1]), r.path, r.mode, r.data.value)
  }

  /** The tree consists of the given directories, the root, and the given files. */
  ghost predicate Shape(t: Tree, directories: set<Path>, files: set<Path>) {
    Dirs(t) == directories + {[]} && Files(t) == files && t.Keys == Dirs(t) + Files(t) && WellFormed(t)
  }

  ghost predicate Holds(t: Tree, records: seq<Record>)
    requires RecordsOk(records)
  {
    forall r :: r in records ==> r.path in t && t[r.path] == File(r.mode, r.data.value)
  }

  ghost predicate Describes(t: Tree, records: seq<Record>)
    requires RecordsOk(records)
  {
    Shape(t, AncestorsOf(PathsOf(EntriesOf(records))), PathSet(EntriesOf(records))) && Holds(t, records)
  }

  lemma EntriesGrow(front: seq<Record>, r: Record)
    requires RecordsOk(front + [r])
    ensures RecordsOk(front) && RecordOk(r) && EntriesOf(front + [r]) == EntriesOf(front) + [EntryOf(r)]
    ensures AncestorsOf(PathsOf(EntriesOf(front + [r]))) == AncestorsOf(PathsOf(EntriesOf(front))) + Ancestors(r.path)
    ensures PathSet(EntriesOf(front + [r])) == PathSet(EntriesOf(front)) + {r.path}
  {
    var all := front + [r];
    assert RecordOk(all[|front|]);
    forall i | 0 <= i < |front| ensures RecordOk(front[i]) { assert RecordOk(all[i]); }
    var entries := EntriesOf(all);
    assert entries == EntriesOf(front) + [EntryOf(r)];
    assert entries[..|front|] == EntriesOf(front) && entries[..|front| + 1] == entries;
    PathsStep(entries, |front|);
  }

  lemma NotAnAncestor(paths: seq<Path>, p: Path, all: set<Path>)
    requires NoOverlap(all) && p in all && forall q :: q in paths ==> q in all
    ensures p !in AncestorsOf(paths)
  {
    InAncestorsOf(paths, p);
  }

  /** Writing a file that overlaps nothing adds the file and its directories and changes nothing else. */
  lemma WriteTree(t: Tree, p: Path, mode: nat, content: seq<Byte>)
    requires p !in t && forall d :: d in Ancestors(p) && d in t ==> t[d].Dir?
    ensures
      var next := WriteFile(t, p, mode, content);
      && Dirs(next) == Dirs(t) + Ancestors(p) && Files(next) == Files(t) + {p}
      && next.Keys == t.Keys + Ancestors(p) + {p}
      && next[p] == File(mode, content) && forall q :: q in Files(t) ==> q in next && next[q] == t[q]
  {
    assert p !in Ancestors(p);
  }

  lemma PathsInSet(files: seq<Entry>)
    ensures forall q :: q in PathsOf(files) ==> q in PathSet(files)
  {
    forall q | q in PathsOf(files) ensures q in PathSet(files) {
      var i :| 0 <= i < |files| && PathsOf(files)[i] == q;
      assert files[i] in files;
    }
  }

  lemma TargetIsFree(t: Tree, front: seq<Record>, r: Record)
    requires RecordOk(r) && RecordsOk(front + [r]) && RecordsOk(front) && Describes(t, front)
    requires DistinctPaths(EntriesOf(front + [r])) && NoOverlap(PathSet(EntriesOf(front + [r])))
    ensures r.path !in t && forall d :: d in Ancestors(r.path) && d in t ==> t[d].Dir?
  {
    var all := PathSet(EntriesOf(front + [r]));
    EntriesGrow(front, r);
    DistinctStep(EntriesOf(front), EntryOf(r));
    PathsInSet(EntriesOf(front));
    NotAnAncestor(PathsOf(EntriesOf(front)), r.path, all);
    assert r.path != [] && Ancestors(r.path) !! all && Files(t) <= all;
  }

  lemma ShapeStep(t: Tree, directories: set<Path>, files: set<Path>, p: Path, mode: nat, content: seq<Byte>)
    requires Shape(t, directories, files) && p != [] && p !in t && forall d :: d in Ancestors(p) && d in t ==> t[d].Dir?
    ensures Shape(WriteFile(t, p, mode, content), directories + Ancestors(p), files + {p})
  {
    WriteTree(t, p, mode, content);
    WriteWellFormed(t, p, mode, content);
  }

  lemma HoldsStep(t: Tree, front: seq<Record>, r: Record)
    requires RecordOk(r) && RecordsOk(front + [r]) && RecordsOk(front) && Holds(t, front)
    requires r.path !in t && forall d :: d in Ancestors(r.path) && d in t ==> t[d].Dir?
    ensures Holds(WriteFile(t, r.path, r.mode, r.data.value), front + [r])
  {
    var next := WriteFile(t, r.path, r.mode, r.data.value);
    WriteTree(t, r.path, r.mode, r.data.value);
    forall q | q in front + [r] ensures q.path in next && next[q.path] == File(q.mode, q.data.value) {
      if q in front { assert q.path in Files(t); }
    }
  }

  lemma WriteStep(t: Tree, front: seq<Record>, r: Record)
    requires RecordOk(r) && RecordsOk(front + [r]) && RecordsOk(front) && Describes(t, front)
    requires DistinctPaths(EntriesOf(front + [r])) && NoOverlap(PathSet(EntriesOf(front + [r])))
    ensures r.path !in t && Describes(WriteFile(t, r.path, r.mode, r.data.value), front + [r])
  {
    EntriesGrow(front, r);
    TargetIsFree(t, front, r);
    NonEmptyPath(r);
    hide Shape, Holds, WriteFile, Ancestors, AncestorsOf,
        PathsOf, EntriesOf, PathSet, ValidPath, DistinctPaths, NoOverlap;
    ShapeStep(t, AncestorsOf(PathsOf(EntriesOf(front))), PathSet(EntriesOf(front)), r.path, r.mode, r.data.value);
    HoldsStep(t, front, r);
  }

  lemma NonEmptyPath(r: Record)
    requires RecordOk(r)
    ensures r.path != []
  {
  }

  lemma WriteWellFormed(t: Tree, p: Path, mode: nat, content: seq<Byte>)
    requires WellFormed(t) && [] in t && t[[]].Dir? && p != [] && p !in t
    requires forall d :: d in Ancestors(p) && d in t ==> t[d].Dir?
    ensures WellFormed(WriteFile(t, p, mode, content))
  {
    var next := WriteFile(t, p, mode, content);
    forall q | q in next && q != [] ensures Parent(q) in next && next[Parent(q)].Dir? {
      if q == p || q in Ancestors(p) {
        var i :| 0 < i <= |p| && q == p[..i];
        assert Parent(q) == p[..i - 1];
        if i > 1 { assert p[..i - 1] in Ancestors(p); }
      }
    }
  }

  lemma {:induction false} BuiltDescribes(records: seq<Record>)
    requires RecordsOk(records) && DistinctPaths(EntriesOf(records)) && NoOverlap(PathSet(EntriesOf(records)))
    ensures Describes(Built(records), records)
  {
    if records == [] {
      assert EntriesOf(records) == [] && PathsOf(EntriesOf(records)) == [];
    } else {
      var front, r := records[..|records| - 1], records[|records| - 1];
      assert records == front + [r];
      EntriesGrow(front, r);
      DistinctStep(EntriesOf(front), EntryOf(r));
      BuiltDescribes(front);
      WriteStep(Built(front), front, r);
    }
  }

  // ----- What the checks see -----

  lemma {:induction false} ExpectedMeans(files: seq<Entry>)
    requires DistinctPaths(files)
    ensures Expected(files).Keys == PathSet(files) && forall e :: e in files ==> Expected(files)[e.path] == e
  {
    if files != [] {
      var front, last := files[..|files| - 1], files[|files| - 1];
      assert files == front + [last];
      DistinctStep(front, last);
      ExpectedMeans(front);
    }
  }

  /**
   An accepted tree holds directories and regular files only, and each file, without
   special bits, is readable by all, writable by its owner alone, and has the size
   and the hash of its entry.
   */
  lemma AcceptedIsPlain(t: Tree, files: seq<Entry>, p: Path)
    requires TreeOk(t, files) && EntriesOk(files) && p in t && !t[p].Dir?
    ensures t[p].File? && (t[p].mode % 4096 == 420 || t[p].mode % 4096 == 493)
    ensures exists e :: e in files && e.path == p && |t[p].content| == e.size && Digest(t[p].content) == e.digest
  {
    ExpectedMeans(files);
    assert p != [] && NodeOk(t, Expected(files), p) && t[p].File? && p in Expected(files);
    hide TreeOk, DistinctPaths, AncestorsOf, PathsOf, TotalSize, ValidPath, Expected;
    var e :| e in files && e.path == p;
    PlainMode(t[p].mode, e.mode);
  }

  lemma PlainMode(mode: nat, published: int)
    requires mode / 0x200 % 8 == 0 && mode % 0x200 == published && PublishedMode(published)
    ensures mode % 4096 == 420 || mode % 4096 == 493
  {
  }

  lemma {:induction false} WeightOfEntries(t: Tree, files: seq<Entry>)
    requires DistinctPaths(files)
    requires forall e :: e in files ==> e.path in t && t[e.path].File? && |t[e.path].content| == e.size
    ensures Weight(t, PathSet(files)) == TotalSize(files)
  {
    if files != [] {
      var front, last := files[..|files| - 1], files[|files| - 1];
      assert files == front + [last];
      DistinctStep(front, last);
      assert PathSet(files) == PathSet(front) + {last.path};
      hide Weight, DistinctPaths;
      WeightOfEntries(t, front);
      WeightAdd(t, PathSet(front), last.path);
    }
  }

  lemma {:induction false} PathSetSize(files: seq<Entry>)
    ensures |PathSet(files)| <= |files|
  {
    if files != [] {
      var front, last := files[..|files| - 1], files[|files| - 1];
      assert files == front + [last];
      PathSetSize(front);
      assert PathSet(files) == PathSet(front) + {last.path};
    }
  }

  lemma SameEntries(a: seq<Entry>, b: seq<Entry>)
    requires forall f :: f in a <==> f in b
    ensures PathSet(a) == PathSet(b) && AncestorsOf(PathsOf(a)) == AncestorsOf(PathsOf(b))
  {
    forall d ensures d in AncestorsOf(PathsOf(a)) <==> d in AncestorsOf(PathsOf(b)) {
      AncestorOfSome(a, d);
      AncestorOfSome(b, d);
    }
  }

  lemma AncestorOfSome(files: seq<Entry>, d: Path)
    ensures d in AncestorsOf(PathsOf(files)) <==> exists f :: f in files && d in Ancestors(f.path)
  {
    InAncestorsOf(PathsOf(files), d);
    forall i | 0 <= i < |files| && d in Ancestors(PathsOf(files)[i])
      ensures exists f :: f in files && d in Ancestors(f.path)
    {
      assert files[i] in files;
    }
    forall f | f in files && d in Ancestors(f.path)
      ensures exists i :: 0 <= i < |files| && d in Ancestors(PathsOf(files)[i])
    {
      var i :| 0 <= i < |files| && files[i] == f;
      assert PathsOf(files)[i] == f.path;
    }
  }

  lemma EntriesValid(records: seq<Record>)
    requires RecordsOk(records)
    ensures forall e :: e in EntriesOf(records) ==> ValidPath(e.path) && PublishedMode(e.mode) && Parts(e.path)
  {
    forall e | e in EntriesOf(records) ensures ValidPath(e.path) && PublishedMode(e.mode) {
      var i :| 0 <= i < |records| && EntriesOf(records)[i] == e;
      RecordExactly(records[i]);
    }
  }

  /** The sorted inventory of extractable records passes the inventory check. */
  lemma InventoryPasses(records: seq<Record>)
    requires Extractable(records) && TotalSize(EntriesOf(records)) <= MAX_EXPANDED_BYTES
    ensures InventoryOk(SortEntries(EntriesOf(records)), |records|, TotalSize(EntriesOf(records)))
  {
    var files := EntriesOf(records);
    EntriesValid(records);
    SortMeans(files);
    SortedIsDistinct(SortEntries(files));
    SameEntries(files, SortEntries(files));
  }

  lemma FilesMatch(records: seq<Record>, t: Tree)
    requires RecordsOk(records) && Holds(t, records)
    ensures forall e :: e in EntriesOf(records) ==> e.path in t && FileMatches(t[e.path], e)
  {
    forall e | e in EntriesOf(records) ensures e.path in t && FileMatches(t[e.path], e) {
      var i :| 0 <= i < |records| && EntriesOf(records)[i] == e;
      assert RecordOk(records[i]) && records[i] in records;
    }
  }

  lemma AncestorDepth(files: seq<Entry>, d: Path)
    requires (forall e :: e in files ==> ValidPath(e.path)) && d in AncestorsOf(PathsOf(files))
    ensures d != [] && |d| <= MAX_DEPTH
  {
    AncestorOfSome(files, d);
  }

  /** The tree built from extractable records passes the tree check. */
  lemma TreePasses(records: seq<Record>)
    requires Extractable(records) && TotalSize(EntriesOf(records)) <= MAX_EXPANDED_BYTES
    ensures WellFormed(Built(records)) && TreeOk(Built(records), SortEntries(EntriesOf(records)))
  {
    var files, t := EntriesOf(records), Built(records);
    var sorted := SortEntries(files);
    EntriesValid(records);
    SortMeans(files);
    SortedIsDistinct(sorted);
    SameEntries(files, sorted);
    BuiltDescribes(records);
    FilesMatch(records, t);
    ExpectedMeans(sorted);
    WeightOfEntries(t, files);
    PathSetSize(files);
    forall p | p in t && p != [] ensures NodeOk(t, Expected(sorted), p) {
      if t[p].Dir? {
        assert p in Dirs(t);
        AncestorDepth(files, p);
      } else {
        assert p in Files(t);
        var e :| e in files && e.path == p;
        assert Expected(sorted)[p] == e;
      }
    }
    assert Dirs(t) - {[]} == AncestorsOf(PathsOf(files)) by {
      if [] in AncestorsOf(PathsOf(files)) { AncestorDepth(files, []); }
    }
  }

  // ----- Extraction -----

  /** What the loop over the records checks. */
  predicate Admitted(records: seq<Record>) {
    && RecordsOk(records) && DistinctPaths(EntriesOf(records))
    && |AncestorsOf(PathsOf(EntriesOf(records)))| <= MAX_DIRECTORIES
  }

  lemma AdmittedStep(front: seq<Record>, r: Record)
    requires Admitted(front) && RecordOk(r)
    ensures RecordsOk(front + [r])
    ensures AncestorsOf(PathsOf(EntriesOf(front + [r]))) == AncestorsOf(PathsOf(EntriesOf(front))) + Ancestors(r.path)
    ensures PathSet(EntriesOf(front + [r])) == PathSet(EntriesOf(front)) + {r.path}
    ensures Admitted(front + [r]) <==>
              && r.path !in PathSet(EntriesOf(front))
              && |AncestorsOf(PathsOf(EntriesOf(front))) + Ancestors(r.path)| <= MAX_DIRECTORIES
  {
    EntriesGrow(front, r);
    DistinctStep(EntriesOf(front), EntryOf(r));
  }

  /** One record on top of the admitted ones. */
  method AdmitRecord(record: Record, paths: set<Path>, directories: set<Path>, ghost front: seq<Record>)
    returns (ok: bool, paths': set<Path>, directories': set<Path>)
    requires RecordsOk(front) && Admitted(front)
    requires paths == PathSet(EntriesOf(front)) && directories == AncestorsOf(PathsOf(EntriesOf(front))) + {[]}
    ensures ok <==> RecordOk(record) && RecordsOk(front + [record]) && Admitted(front + [record])
    ensures ok ==>
              && paths' == PathSet(EntriesOf(front + [record]))
              && directories' == AncestorsOf(PathsOf(EntriesOf(front + [record]))) + {[]}
  {
    hide Admitted, RecordsOk, RecordOk, EntriesOf, AncestorsOf, PathsOf, PathSet, Ancestors;
    ok, paths', directories' := false, paths, directories;
    if !RecordOk(record) { return; }
    AdmittedStep(front, record);
    if record.path in paths { return; }
    paths' := paths + {record.path};
    directories' := CollectAncestors(record.path, directories);
    RootIsNoAncestor(EntriesOf(front + [record]));
    assert directories' == AncestorsOf(PathsOf(EntriesOf(front + [record]))) + {[]};
    ok := |directories'| - 1 <= MAX_DIRECTORIES;
  }

  method CheckRecords(records: seq<Record>) returns (ok: bool)
    ensures ok <==> Extractable(records)
    ensures ok ==> forall r, root :: r in records ==> StaysBelow(root, r.path)
    ensures ok ==> forall r :: r in records ==> Genuine(r)
  {
    if Extractable(records) { RecordsStayBelow(records); }
    if |records| > MAX_FILES { return false; }
    var paths: set<Path>, directories: set<Path> := {}, {[]};
    NothingAdmitted();
    hide StaysBelow, Genuine, Extractable, Admitted, RecordsOk, RecordOk, EntriesOf,
        AncestorsOf, PathsOf, PathSet, Ancestors, DistinctPaths, NoOverlap;
    for n := 0 to |records|
      invariant RecordsOk(records[..n]) && Admitted(records[..n])
      invariant paths == PathSet(EntriesOf(records[..n]))
      invariant directories == AncestorsOf(PathsOf(EntriesOf(records[..n]))) + {[]}
    {
      assert records[..n + 1] == records[..n] + [records[n]];
      if Extractable(records) { ExtractablePrefix(records, n + 1); }
      ok, paths, directories := AdmitRecord(records[n], paths, directories, records[..n]);
      if !ok { return; }
    }
    assert records[..|records|] == records;
    ok := AssertNoOverlappingPaths(paths);
    AdmittedIsExtractable(records);
  }

  /** A file of mode 0644 or 0755 whose data has the size and the hash that the record states. */
  predicate Genuine(r: Record) {
    && r.isFile && (r.mode == 420 || r.mode == 493) && r.size >= 0
    && r.data.Some? && |r.data.value| == r.size && r.digest == Some(Digest(r.data.value))
  }

  lemma RecordExactly(r: Record)
    ensures RecordOk(r) <==> Genuine(r) && ValidPath(r.path)
  {
  }

  lemma RecordsStayBelow(records: seq<Record>)
    requires RecordsOk(records)
    ensures forall r, root :: r in records ==> StaysBelow(root, r.path)
    ensures forall r :: r in records ==> Genuine(r)
  {
    forall r | r in records ensures Genuine(r) {
      var i :| 0 <= i < |records| && records[i] == r;
      assert RecordOk(records[i]);
    }
    forall r, root | r in records ensures StaysBelow(root, r.path) {
      var i :| 0 <= i < |records| && records[i] == r;
      assert RecordOk(records[i]);
      ValidPathMeans(r.path);
    }
  }

  lemma NothingAdmitted()
    ensures RecordsOk([]) && Admitted([]) && PathSet(EntriesOf([])) == {} && AncestorsOf(PathsOf(EntriesOf([]))) == {}
  {
  }

  lemma AdmittedIsExtractable(records: seq<Record>)
    requires Admitted(records) && RecordsOk(records) && |records| <= MAX_FILES
    ensures Extractable(records) <==> NoOverlap(PathSet(EntriesOf(records)))
  {
  }

  lemma RootIsNoAncestor(files: seq<Entry>)
    ensures [] !in AncestorsOf(PathsOf(files))
    ensures AncestorsOf(PathsOf(files)) + {[]} - {[]} == AncestorsOf(PathsOf(files))
    ensures |AncestorsOf(PathsOf(files)) + {[]}| == |AncestorsOf(PathsOf(files))| + 1
  {
    AncestorOfSome(files, []);
  }

  lemma ExtractablePrefix(records: seq<Record>, n: nat)
    requires Extractable(records) && 0 < n <= |records|
    ensures Admitted(records[..n]) && RecordOk(records[n - 1])
  {
    var files, fewer := EntriesOf(records), EntriesOf(records[..n]);
    assert fewer == files[..n];
    forall d | d in AncestorsOf(PathsOf(fewer)) ensures d in AncestorsOf(PathsOf(files)) {
      AncestorOfSome(fewer, d);
      AncestorOfSome(files, d);
    }
    SubsetSize(AncestorsOf(PathsOf(fewer)), AncestorsOf(PathsOf(files)));
  }

  lemma BuiltStep(records: seq<Record>, n: nat)
    requires RecordsOk(records) && n < |records|
    ensures RecordsOk(records[..n]) && RecordsOk(records[..n + 1]) && RecordOk(records[n])
    ensures Built(records[..n + 1]) ==
              WriteFile(Built(records[..n]), records[n].path, records[n].mode, records[n].data.value)
    ensures EntriesOf(records)[..n + 1] == EntriesOf(records)[..n] + [EntryOf(records[n])]
    ensures TotalSize(EntriesOf(records)[..n + 1]) == TotalSize(EntriesOf(records)[..n]) + |records[n].data.value|
  {
    assert records[..n + 1][..n] == records[..n];
    PathsStep(EntriesOf(records), n);
  }

  /** No record is written over anything. */
  lemma StageIsFree(records: seq<Record>, n: nat)
    requires Extractable(records) && n < |records|
    ensures RecordsOk(records[..n]) && records[n].path !in Built(records[..n])
  {
    ExtractablePrefix(records, n + 1);
    var front, r, all := records[..n], records[n], records[..n + 1];
    assert all == front + [r] && EntriesOf(all) == EntriesOf(records)[..n + 1];
    assert forall p :: p in PathSet(EntriesOf(all)) ==> p in PathSet(EntriesOf(records));
    EntriesGrow(front, r);
    DistinctStep(EntriesOf(front), EntryOf(r));
    assert forall p :: p in PathSet(EntriesOf(front)) ==> p in PathSet(EntriesOf(records));
    FewerDoNotOverlap(PathSet(EntriesOf(front)), PathSet(EntriesOf(records)));
    FewerDoNotOverlap(PathSet(EntriesOf(all)), PathSet(EntriesOf(records)));
    hide NoOverlap, PathSet, EntriesOf, DistinctPaths, Built, Describes, WriteFile;
    BuiltDescribes(front);
    TargetIsFree(Built(front), front, r);
  }

  lemma FewerDoNotOverlap(fewer: set<Path>, paths: set<Path>)
    requires NoOverlap(paths) && fewer <= paths
    ensures NoOverlap(fewer)
  {
  }

  /** Writes the records into an empty stage; a file operation may fail. */
  method WriteRecords(records: seq<Record>, reliable: bool) returns (r: Option<(Tree, seq<Entry>, nat)>)
    requires Extractable(records)
    ensures r.Some? ==> r.value == (Built(records), EntriesOf(records), TotalSize(EntriesOf(records)))
    ensures reliable ==> r.Some?
  {
    hide Extractable, RecordsOk, EntriesOf, Built, WriteFile, TotalSize;
    var tree: Tree, inventory: seq<Entry>, total := map[[] := Dir], [], 0;
    NothingWritten(records);
    for n := 0 to |records|
      invariant RecordsOk(records) && RecordsOk(records[..n]) && tree == Built(records[..n])
      invariant inventory == EntriesOf(records)[..n] && total == TotalSize(inventory)
    {
      var record := records[n];
      BuiltStep(records, n);
      StageIsFree(records, n);
      if record.path in tree { return None; }
      var failed: bool := *;
      if failed && !reliable { return None; }
      tree := WriteFile(tree, record.path, record.mode, record.data.value);
      inventory := inventory + [EntryOf(record)];
      total := total + |record.data.value|;
    }
    assert records[..|records|] == records && EntriesOf(records)[..|records|] == EntriesOf(records);
    r := Some((tree, inventory, total));
  }

  lemma NothingWritten(records: seq<Record>)
    requires Extractable(records)
    ensures RecordsOk(records) && RecordsOk(records[..0]) && |EntriesOf(records)| == |records|
    ensures Built(records[..0]) == map[[] := Dir] && TotalSize(EntriesOf(records)[..0]) == 0
  {
  }

  /** What the header promises and the records are. */
  predicate Acceptable(a: Artifact, expectedVersion: string) {
    && a.endsWithNewline && a.header.wellFormed && a.header.version == expectedVersion
    && a.header.fileCount == |a.records| && Extractable(a.records)
    && a.header.expandedBytes == TotalSize(EntriesOf(a.records)) <= MAX_EXPANDED_BYTES
  }

  /**
   Accepted are only acceptable artifacts, and all of them when no file operation
   fails. Everything accepted passes the inventory check and the tree check, and
   the stage holds exactly the records' data.
   */
  method ExtractArtifact(a: Artifact, expectedVersion: string, reliable: bool) returns (r: Option<Extracted>)
    ensures r.Some? ==> Acceptable(a, expectedVersion) && r.value.expandedBytes == a.header.expandedBytes
    ensures reliable && Acceptable(a, expectedVersion) ==> r.Some?
    ensures r.Some? ==> forall p, root :: p in r.value.tree && p != [] ==> StaysBelow(root, p)
    ensures r.Some? ==> forall record :: record in a.records ==> Genuine(record)
    ensures r.Some? ==>
              && r.value.inventory == SortEntries(EntriesOf(a.records)) && Holds(r.value.tree, a.records)
              && WellFormed(r.value.tree) && TreeOk(r.value.tree, r.value.inventory)
              && InventoryOk(r.value.inventory, |a.records|, r.value.expandedBytes)
  {
    if !a.endsWithNewline || !a.header.wellFormed || a.header.version != expectedVersion { return None; }
    if a.header.fileCount != |a.records| { return None; }
    var ok := CheckRecords(a.records);
    if !ok { return None; }
    var written := WriteRecords(a.records, reliable);
    if written.None? { return None; }
    var (tree, inventory, total) := written.value;
    if total != a.header.expandedBytes || total > MAX_EXPANDED_BYTES { return None; }
    var failed: bool := *;
    if failed && !reliable { return None; }
    r := Some(Extracted(SortEntries(inventory), tree, total));
    hide InventoryOk, TreeOk, Extractable, Holds, SortEntries, Built, WellFormed, TotalSize, EntriesOf, Shape;
    InventoryPasses(a.records);
    TreePasses(a.records);
    HoldsRecords(a.records);
    StageStaysBelow(a.records);
  }

  /** Files and directories alike are at their own places below the stage. */
  lemma StageStaysBelow(records: seq<Record>)
    requires Extractable(records)
    ensures forall p, root :: p in Built(records) && p != [] ==> StaysBelow(root, p)
  {
    var t, files := Built(records), EntriesOf(records);
    BuiltDescribes(records);
    EntriesValid(records);
    forall p, root | p in t && p != [] ensures StaysBelow(root, p) {
      if t[p].Dir? {
        assert p in Dirs(t);
        AncestorOfSome(files, p);
        var e :| e in files && p in Ancestors(e.path);
        ValidPathMeans(e.path);
        PrefixStaysBelow(root, e.path, |p|);
      } else {
        assert p in Files(t);
        var e :| e in files && e.path == p;
        ValidPathMeans(e.path);
      }
    }
  }

  lemma PrefixStaysBelow(root: Path, p: Path, n: nat)
    requires StaysBelow(root, p) && 0 < n <= |p|
    ensures StaysBelow(root, p[..n])
  {
    forall k | 0 <= k <= n ensures Resolve(root, p[..n][..k]) == root + p[..n][..k] {
      assert p[..n][..k] == p[..k];
    }
  }

  lemma HoldsRecords(records: seq<Record>)
    requires Extractable(records)
    ensures Holds(Built(records), records)
  {
    BuiltDescribes(records);
  }
}
