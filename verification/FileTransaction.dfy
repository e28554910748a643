/**
 Applying planned files all or nothing. Every file operation may fail; nobody
 else writes. Temporary names are apart from every planned name.
 */
module FileTransaction {
  import opened Basics
  import opened Wrappers
  import opened MarkedBlock

  type Path = string

  // ----- Collisions between destinations -----

  /** What tells two target paths apart: a key, and a directory whose case folding is unknown. */
  datatype Alias = Alias(key: string, unknownScope: Option<string>, broad: bool)

  /** The aliases of the target paths; a path outside the map cannot be compared. */
  type AliasOf = map<Path, Alias>

  predicate Conflict(a: Alias, b: Alias) {
    a.key == b.key || (a.unknownScope.Some? && a.unknownScope == b.unknownScope && (a.broad || b.broad))
  }

  datatype FilePlan = FilePlan(
    destination: Path,
    targetPath: Path,
    mode: Option<nat>,
    symlink: bool,
    identity: Option<nat>,
    realIdentity: Option<nat>,
    text: Plan)

  datatype Rejection = Unreadable(at: nat) | Collision(previous: Path, at: nat)

  /** The first n plans have aliases and no two of them conflict. */
  ghost predicate Apart(plans: seq<FilePlan>, aliasOf: AliasOf, n: nat)
    requires n <= |plans|
  {
    && (forall i :: 0 <= i < n ==> plans[i].targetPath in aliasOf)
    && (forall i, j :: 0 <= i < j < n ==> !PlansConflict(plans[i], plans[j], aliasOf))
  }

  ghost predicate PlansConflict(p: FilePlan, q: FilePlan, aliasOf: AliasOf) {
    && p.targetPath in aliasOf && q.targetPath in aliasOf
    && Conflict(aliasOf[p.targetPath], aliasOf[q.targetPath])
  }

  /** The three tables of the pass, each entry by the index of the plan it came from. */
  datatype Tables = Tables(byTarget: map<string, nat>, firstByScope: map<string, nat>, broadByScope: map<string, nat>)

  ghost predicate Covers(t: Tables, a: Alias) {
    && a.key in t.byTarget
    && (a.unknownScope.Some? ==> a.unknownScope.value in t.firstByScope)
    && (a.unknownScope.Some? && a.broad ==> a.unknownScope.value in t.broadByScope)
  }

  function AliasAt(plans: seq<FilePlan>, aliasOf: AliasOf, i: nat): Alias
    requires i < |plans| && plans[i].targetPath in aliasOf
  {
    aliasOf[plans[i].targetPath]
  }

  ghost predicate Readable(plans: seq<FilePlan>, aliasOf: AliasOf, n: nat)
    requires n <= |plans|
  {
    forall i :: 0 <= i < n ==> plans[i].targetPath in aliasOf
  }

  /** Every entry comes from one of the first n plans that has the entry's key or scope. */
  ghost predicate Sourced(t: Tables, plans: seq<FilePlan>, aliasOf: AliasOf, n: nat)
    requires n <= |plans| && Readable(plans, aliasOf, n)
  {
    && (forall k :: k in t.byTarget ==> t.byTarget[k] < n && AliasAt(plans, aliasOf, t.byTarget[k]).key == k)
    && (forall u :: u in t.firstByScope ==>
          t.firstByScope[u] < n && AliasAt(plans, aliasOf, t.firstByScope[u]).unknownScope == Some(u))
    && (forall u :: u in t.broadByScope ==>
          && t.broadByScope[u] < n && AliasAt(plans, aliasOf, t.broadByScope[u]).unknownScope == Some(u)
          && AliasAt(plans, aliasOf, t.broadByScope[u]).broad)
  }

  ghost predicate Sound(t: Tables, plans: seq<FilePlan>, aliasOf: AliasOf, n: nat)
    requires n <= |plans|
  {
    && Readable(plans, aliasOf, n) && Sourced(t, plans, aliasOf, n)
    && forall i :: 0 <= i < n ==> Covers(t, AliasAt(plans, aliasOf, i))
  }

  function Lookup<V>(m: map<string, V>, k: string): Option<V> { if k in m then Some(m[k]) else None }

  /** The earlier plan that the tables hold against a. */
  function Previous(t: Tables, a: Alias): Option<nat> {
    var same := Lookup(t.byTarget, a.key);
    if same.Some? || a.unknownScope.None? then same
    else if a.broad then Lookup(t.firstByScope, a.unknownScope.value)
    else Lookup(t.broadByScope, a.unknownScope.value)
  }

  function Enter(t: Tables, a: Alias, n: nat): Tables {
    Tables(t.byTarget[a.key := n],
           if a.unknownScope.Some? then t.firstByScope[a.unknownScope.value := n] else t.firstByScope,
           if a.unknownScope.Some? && a.broad then t.broadByScope[a.unknownScope.value := n] else t.broadByScope)
  }

  /** The tables know of an earlier conflict exactly when there is one. */
  lemma PreviousMeans(t: Tables, plans: seq<FilePlan>, aliasOf: AliasOf, n: nat)
    requires n < |plans| && Sound(t, plans, aliasOf, n) && plans[n].targetPath in aliasOf
    ensures
      var previous := Previous(t, AliasAt(plans, aliasOf, n));
      if previous.Some? then previous.value < n && PlansConflict(plans[previous.value], plans[n], aliasOf)
      else forall i :: 0 <= i < n ==> !PlansConflict(plans[i], plans[n], aliasOf)
  {
    if Previous(t, AliasAt(plans, aliasOf, n)).None? {
      forall i | 0 <= i < n ensures !PlansConflict(plans[i], plans[n], aliasOf) {
        assert Covers(t, AliasAt(plans, aliasOf, i));
      }
    }
  }

  lemma EnterKeepsSound(t: Tables, plans: seq<FilePlan>, aliasOf: AliasOf, n: nat)
    requires n < |plans| && Sound(t, plans, aliasOf, n) && plans[n].targetPath in aliasOf
    ensures Sound(Enter(t, AliasAt(plans, aliasOf, n), n), plans, aliasOf, n + 1)
  {
    var e := Enter(t, AliasAt(plans, aliasOf, n), n);
    EnterKeepsSourced(t, plans, aliasOf, n);
    hide Sourced;
    forall i | 0 <= i < n + 1 ensures Covers(e, AliasAt(plans, aliasOf, i)) {
      if i < n { assert Covers(t, AliasAt(plans, aliasOf, i)); }
    }
  }

  lemma EnterKeepsSourced(t: Tables, plans: seq<FilePlan>, aliasOf: AliasOf, n: nat)
    requires n < |plans| && Readable(plans, aliasOf, n + 1) && Sourced(t, plans, aliasOf, n)
    ensures Sourced(Enter(t, AliasAt(plans, aliasOf, n), n), plans, aliasOf, n + 1)
  {
  }

  /** The map of destinations that goes with a table of plans. */
  ghost predicate Mirrors(m: map<string, Path>, t: map<string, nat>, plans: seq<FilePlan>) {
    && m.Keys == t.Keys
    && forall k :: k in m ==> t[k] < |plans| && m[k] == plans[t[k]].destination
  }

  lemma MirrorsUpdate(m: map<string, Path>, t: map<string, nat>, plans: seq<FilePlan>, k: string, n: nat)
    requires Mirrors(m, t, plans) && n < |plans|
    ensures Mirrors(m[k := plans[n].destination], t[k := n], plans)
  {
  }

  /** The earlier destination that the maps hold against a. */
  method FindPrevious(byTarget: map<string, Path>, firstByScope: map<string, Path>,
                      broadByScope: map<string, Path>, a: Alias,
                      ghost t: Tables, ghost plans: seq<FilePlan>)
    returns (previous: Option<Path>)
    requires Mirrors(byTarget, t.byTarget, plans)
    requires Mirrors(firstByScope, t.firstByScope, plans) && Mirrors(broadByScope, t.broadByScope, plans)
    ensures previous.Some? <==> Previous(t, a).Some?
    ensures previous.Some? ==>
              Previous(t, a).value < |plans| && previous.value == plans[Previous(t, a).value].destination
  {
    previous := Lookup(byTarget, a.key);
    if a.unknownScope.Some? && previous.None? {
      if a.broad { previous := Lookup(firstByScope, a.unknownScope.value); }
      else { previous := Lookup(broadByScope, a.unknownScope.value); }
    }
  }

  lemma NoTables(plans: seq<FilePlan>, aliasOf: AliasOf)
    ensures Sound(Tables(map[], map[], map[]), plans, aliasOf, 0) && Mirrors(map[], map[], plans)
  {
  }

  /** One pass over three maps decides whether any two plans conflict. */
  method ValidateFileTransaction(plans: seq<FilePlan>, aliasOf: AliasOf) returns (rejected: Option<Rejection>)
    ensures rejected.None? <==> Apart(plans, aliasOf, |plans|)
    ensures rejected.Some? ==> rejected.value.at < |plans| && Apart(plans, aliasOf, rejected.value.at)
    ensures rejected.Some? && rejected.value.Unreadable? ==> plans[rejected.value.at].targetPath !in aliasOf
    ensures rejected.Some? && rejected.value.Collision? ==>
              exists i :: 0 <= i < rejected.value.at && plans[i].destination == rejected.value.previous
                          && PlansConflict(plans[i], plans[rejected.value.at], aliasOf)
  {
    var destinationsByTarget: map<string, Path> := map[];
    var firstByUnknownScope: map<string, Path> := map[];
    var broadByUnknownScope: map<string, Path> := map[];
    ghost var tables := Tables(map[], map[], map[]);
    rejected := None;
    NoTables(plans, aliasOf);
    hide Sound, Mirrors, Previous, PlansConflict;
    for n := 0 to |plans|
      invariant rejected.None? && Apart(plans, aliasOf, n) && Sound(tables, plans, aliasOf, n)
      invariant Mirrors(destinationsByTarget, tables.byTarget, plans)
      invariant Mirrors(firstByUnknownScope, tables.firstByScope, plans)
      invariant Mirrors(broadByUnknownScope, tables.broadByScope, plans)
    {
      var plan := plans[n];
      if plan.targetPath !in aliasOf { return Some(Unreadable(n)); }
      var collision := aliasOf[plan.targetPath];
      PreviousMeans(tables, plans, aliasOf, n);
      EnterKeepsSound(tables, plans, aliasOf, n);
      var previous :=
        FindPrevious(destinationsByTarget, firstByUnknownScope, broadByUnknownScope, collision, tables, plans);
      if previous.Some? { return Some(Collision(previous.value, n)); }
      MirrorsUpdate(destinationsByTarget, tables.byTarget, plans, collision.key, n);
      destinationsByTarget := destinationsByTarget[collision.key := plan.destination];
      if collision.unknownScope.Some? {
        var scope := collision.unknownScope.value;
        MirrorsUpdate(firstByUnknownScope, tables.firstByScope, plans, scope, n);
        firstByUnknownScope := firstByUnknownScope[scope := plan.destination];
        if collision.broad {
          MirrorsUpdate(broadByUnknownScope, tables.broadByScope, plans, scope, n);
          broadByUnknownScope := broadByUnknownScope[scope := plan.destination];
        }
      }
      tables := Enter(tables, collision, n);
    }
  }

  // ----- The file system -----

  datatype Node = Node(content: Bytes, mode: nat, ino: nat)

  datatype Link = Link(target: Path, ino: nat)

  /** What the destination must look like for a replacement to go ahead. */
  datatype Expected = Expected(
    destination: Path,
    targetPath: Path,
    symlink: bool,
    identity: Option<nat>,
    realIdentity: Option<nat>,
    original: Option<Bytes>,
    mode: Option<nat>)

  function ExpectedOf(plan: FilePlan): Expected {
    Expected(plan.destination, plan.targetPath, plan.symlink,
        plan.identity, plan.realIdentity, plan.text.original, plan.mode)
  }

  /** Undoing expects the file the transaction wrote. */
  function ExpectedWritten(plan: FilePlan, written: Node): Expected {
    Expected(plan.destination, plan.targetPath, plan.symlink, if plan.symlink then plan.identity else Some(written.ino),
             Some(written.ino), Some(written.content), Some(written.mode))
  }

  /** node: the file that a replacement installed, also when it throws afterwards. */
  datatype Install = Install(thrown: bool, node: Option<Node>)

  type Files = map<Path, Node>

  /** p holds the same bytes with the same mode, or is absent from both. */
  ghost predicate SameFile(a: Files, b: Files, p: Path) {
    && (p in a <==> p in b)
    && (p in a ==> a[p].content == b[p].content && a[p].mode == b[p].mode)
  }

  /** a and b agree on every path but t. */
  ghost predicate SameElsewhere(a: Files, b: Files, t: Path) {
    forall p :: p != t ==> (p in a <==> p in b) && (p in a ==> a[p] == b[p])
  }

  /** Symlinks by the entry they are, and the entries of destinations below symlinked directories. */
  datatype Names = Names(links: map<Path, Link>, entries: map<Path, Path>)

  /** The directory entry a destination names: its parents are resolved, it is not. */
  function Entry(names: Names, destination: Path): Path {
    if destination in names.entries then names.entries[destination] else destination
  }

  /** canonicalTargetPath: parents and a symlink in last place resolved. */
  function Canonical(names: Names, destination: Path): Path {
    var entry := Entry(names, destination);
    if entry in names.links then names.links[entry].target else entry
  }

  predicate Matches(files: Files, names: Names, e: Expected) {
    var entry := Entry(names, e.destination);
    && Canonical(names, e.destination) == e.targetPath
    && if e.original.None? then entry !in names.links && entry !in files
       else
         && e.targetPath in files && e.symlink == (entry in names.links)
         && e.identity == Some(if e.symlink then names.links[entry].ino else files[e.targetPath].ino)
         && (e.symlink ==> e.realIdentity == Some(files[e.targetPath].ino))
         && Some(files[e.targetPath].content) == e.original
         && Some(files[e.targetPath].mode) == e.mode
  }

  // ----- Planning a destination -----

  datatype ManageError = Dangling | Text(error: PlanError)

  /** The plan for one destination, against the file there is. */
  function PlanManagedPath(files: Files, names: Names, destination: Path, replacement: Bytes)
    : Result<FilePlan, ManageError>
  {
    var entry, target := Entry(names, destination), Canonical(names, destination);
    var symlink := entry in names.links;
    if symlink && target !in files then Err(Dangling)
    else
      var file := Lookup(files, target);
      var text := PlanFromSnapshot(file.Some?, if file.Some? then Some(file.value.content) else None, replacement);
      if text.Err? then Err(Text(text.error))
      else
        Ok(FilePlan(destination, target, if file.Some? then Some(file.value.mode) else None, symlink,
                    if symlink then Some(names.links[entry].ino)
                    else if file.Some? then Some(file.value.ino) else None,
                    if file.Some? then Some(file.value.ino) else None, text.value))
  }

  /** What a destination is: where it leads, through which link, and the file there. */
  datatype Sight = Sight(target: Path, link: Option<nat>, file: Option<Node>)

  function Seen(files: Files, names: Names, destination: Path): Sight {
    var entry := Entry(names, destination);
    Sight(Canonical(names, destination), if entry in names.links then Some(names.links[entry].ino) else None,
          Lookup(files, Canonical(names, destination)))
  }

  /**
   The precondition of a plan holds later exactly when the destination is still what
   was planned over: the same target through the same link, and the same file, or none.
   */
  lemma MatchesExactly(files: Files, names: Names, destination: Path, r: Bytes, later: Files, laterNames: Names)
    requires PlanManagedPath(files, names, destination, r).Ok?
    requires laterNames.links.Keys !! later.Keys && names.links.Keys !! files.Keys
    ensures
      var plan := PlanManagedPath(files, names, destination, r).value;
      Matches(later, laterNames, ExpectedOf(plan)) <==>
        Seen(later, laterNames, destination) == Seen(files, names, destination)
  {
    var target := Canonical(names, destination);
    ChangedExactly(target in files, if target in files then Some(files[target].content) else None, r);
    hide PlanFromSnapshot, MarkerFree, OnePair;
  }

  /** The plan was made for its destination over these files. */
  ghost predicate Managed(files: Files, names: Names, plan: FilePlan) {
    exists r :: PlanManagedPath(files, names, plan.destination, r) == Ok(plan)
  }

  lemma ManagedPlan(files: Files, names: Names, plan: FilePlan)
    requires Managed(files, names, plan) && names.links.Keys !! files.Keys
    ensures Matches(files, names, ExpectedOf(plan))
    ensures !plan.text.changed ==> HoldsReplacement(files, plan)
  {
    var r :| PlanManagedPath(files, names, plan.destination, r) == Ok(plan);
    var target := Canonical(names, plan.destination);
    MatchesExactly(files, names, plan.destination, r, files, names);
    ChangedExactly(target in files, if target in files then Some(files[target].content) else None, r);
    hide PlanFromSnapshot, MarkerFree, OnePair, Matches;
  }

  /** What was not to be changed holds its replacement already, and nobody else's target is its own. */
  lemma SkippedHold(plans: seq<FilePlan>, aliasOf: AliasOf, before: Files, after: Files, names: Names)
    requires Apart(plans, aliasOf, |plans|) && names.links.Keys !! before.Keys
    requires forall i :: 0 <= i < |plans| ==> Managed(before, names, plans[i])
    requires forall i :: 0 <= i < |plans| && plans[i].text.changed ==> HoldsReplacement(after, plans[i])
    requires forall p :: p !in Targeted(plans, |plans|) ==> SameFile(before, after, p)
    ensures forall i :: 0 <= i < |plans| ==> HoldsReplacement(after, plans[i])
  {
    forall i | 0 <= i < |plans| && !plans[i].text.changed ensures HoldsReplacement(after, plans[i]) {
      ManagedPlan(before, names, plans[i]);
      forall j | 0 <= j < |plans| && plans[j].text.changed ensures plans[j].targetPath != plans[i].targetPath {
        if i < j { assert !PlansConflict(plans[i], plans[j], aliasOf); }
        if j < i { assert !PlansConflict(plans[j], plans[i], aliasOf); }
      }
      assert SameFile(before, after, plans[i].targetPath);
    }
  }

  /** A precondition looks at no file but the target. */
  lemma MatchesAtTarget(a: Files, b: Files, names: Names, e: Expected)
    requires (e.targetPath in a <==> e.targetPath in b) && (e.targetPath in a ==> a[e.targetPath] == b[e.targetPath])
    ensures Matches(a, names, e) == Matches(b, names, e)
  {
  }

  /** What was written stays written when another target changes. */
  lemma StillWritten(a: Files, b: Files, plans: seq<FilePlan>, n: nat, node: Node)
    requires n < |plans| && b == a[plans[n].targetPath := node]
    requires forall i :: 0 <= i < n ==> plans[i].targetPath != plans[n].targetPath
    requires forall i :: 0 <= i < n && plans[i].text.changed ==> HoldsReplacement(a, plans[i])
    ensures forall i :: 0 <= i < n && plans[i].text.changed ==> HoldsReplacement(b, plans[i])
  {
  }

  class FileSystem {
    var files: Files
    /** Temporary names; a fresh one never meets a planned path. */
    var temps: map<nat, Node>
    var nextIno: nat
    var nextTemp: nat
    const names: Names
    const creationMode: nat
    /** No operation fails. */
    const reliable: bool

    ghost predicate Valid()
      reads this
    {
      && names.links.Keys !! files.Keys
      && (forall p :: p in files ==> files[p].ino < nextIno)
      && (forall t :: t in temps ==> t < nextTemp)
    }

    method Fault() returns (failed: bool)
      ensures reliable ==> !failed
    {
      failed := *;
      failed := failed && !reliable;
    }

    /** Writes a whole temporary file, or leaves none or part of one. */
    method WriteTemp(content: Bytes, mode: Option<nat>) returns (temp: Option<nat>, written: Option<Node>)
      requires Valid()
      modifies `temps, `nextIno, `nextTemp
      ensures Valid()
      ensures temp.Some? ==> temp.value !in old(temps) && temp.value in temps && temps - {temp.value} == old(temps)
      ensures temp.None? ==> temps == old(temps) && written.None?
      ensures written.Some? ==>
                && temp.Some? && temps[temp.value] == written.value
                && written.value.content == content && (mode.Some? ==> written.value.mode == mode.value)
                && (forall p :: p in files ==> files[p].ino != written.value.ino) && written.value.ino < nextIno
      ensures reliable ==> written.Some?
    {
      temp, written := None, None;
      var failed := Fault();
      if failed { return; }
      var part: Bytes := *;
      var t, node := nextTemp, Node(part, if mode.Some? then mode.value else creationMode, nextIno);
      temp, temps, nextTemp, nextIno := Some(t), temps[t := node], nextTemp + 1, nextIno + 1;
      failed := Fault();
      if failed { return; }
      node := node.(content := content);
      written, temps := Some(node), temps[t := node];
    }

    /** Removing a temporary name that is gone succeeds. */
    method RemoveTemp(t: nat) returns (ok: bool)
      requires Valid()
      modifies `temps
      ensures Valid()
      ensures temps == if ok then old(temps) - {t} else old(temps)
      ensures reliable ==> ok
    {
      var failed := Fault();
      ok := t !in temps || !failed;
      if ok { temps := temps - {t}; }
    }

    method VerifyPrecondition(e: Expected) returns (ok: bool)
      ensures ok ==> Matches(files, names, e)
      ensures reliable && Matches(files, names, e) ==> ok
    {
      var failed := Fault();
      ok := !failed && Matches(files, names, e);
    }

    /** rename over an existing target, or link to a free one and drop the temporary name. */
    method Publish(e: Expected, temp: nat, written: Node) returns (r: Install)
      requires Valid() && temp in temps && temps[temp] == written && written.ino < nextIno
      requires e.targetPath !in names.links
      modifies `files, `temps
      ensures Valid()
      ensures files == if r.node.Some? then old(files)[e.targetPath := written] else old(files)
      ensures r.node.Some? ==> r.node.value == written
      ensures temps == if r.thrown then old(temps) else old(temps) - {temp}
      ensures !r.thrown ==> r.node.Some?
      ensures reliable ==> !r.thrown
    {
      r := Install(true, None);
      var failed := Fault();
      if failed { return; }
      var destinationExists := e.targetPath in files;
      files := files[e.targetPath := written];
      if destinationExists {
        r, temps := Install(false, Some(written)), temps - {temp};
      } else {
        var removed := RemoveTemp(temp);
        r := Install(!removed, Some(written));
      }
    }

    /** Replaces, or with createOnly creates, one file through a temporary file. */
    method AtomicReplace(e: Expected, content: Bytes, mode: Option<nat>, createOnly: bool) returns (r: Install)
      requires Valid()
      modifies `files, `temps, `nextIno, `nextTemp
      ensures Valid()
      ensures r.node.None? ==> files == old(files)
      ensures r.node.Some? ==>
                && files == old(files)[e.targetPath := r.node.value] && r.node.value.content == content
                && (mode.Some? ==> r.node.value.mode == mode.value) && Matches(old(files), names, e)
                && (createOnly ==> e.targetPath !in old(files))
      ensures !r.thrown ==> r.node.Some? && temps == old(temps)
      ensures reliable && Matches(old(files), names, e) && (createOnly ==> e.targetPath !in old(files)) ==> !r.thrown
    {
      r := Install(true, None);
      var failed := Fault();
      if failed { return; }
      var temp, written := WriteTemp(content, mode);
      if written.Some? {
        var ready := VerifyPrecondition(e);
        if ready && !(createOnly && e.targetPath in files) {
          r := Publish(e, temp.value, written.value);
        }
      }
      if r.thrown && temp.Some? {
        var cleaned := RemoveTemp(temp.value);
      }
    }

    /** Gives the public name back to the moved file. */
    method RestoreMoved(path: Path, moved: Node)
      requires Valid() && path !in files && path !in names.links && moved.ino < nextIno
      modifies `files
      ensures Valid() && SameElsewhere(old(files), files, path) && (path in files ==> files[path] == moved)
    {
      var failed := Fault();
      if !failed { files := files[path := moved]; }
    }

    /** Removes a created file by way of a private name; a failure puts it back when it can. */
    method RemoveOwned(path: Path, written: Node) returns (ok: bool)
      requires Valid()
      modifies `files
      ensures Valid() && SameElsewhere(old(files), files, path)
      ensures ok ==> path !in files
      ensures reliable && path in old(files) && old(files)[path] == written ==> ok
    {
      var failed := Fault();
      if failed || path !in files { return false; }
      var moved := files[path];
      files := files - {path};
      failed := Fault();
      ok := !failed && moved == written;
      if ok {
        failed := Fault();
        ok := !failed;
      }
      if !ok {
        var hidden := Fault();
        if !hidden { RestoreMoved(path, moved); }
      }
    }

    /** Undoes one applied plan, unless its file is no longer the one the transaction wrote. */
    method Undo(plan: FilePlan, written: Node) returns (ok: bool)
      requires Valid()
      modifies `files, `temps, `nextIno, `nextTemp
      ensures Valid() && SameElsewhere(old(files), files, plan.targetPath)
      ensures ok && plan.text.original.None? ==> plan.targetPath !in files
      ensures ok && plan.text.original.Some? ==>
                && plan.targetPath in files && files[plan.targetPath].content == plan.text.original.value
                && (plan.mode.Some? ==> files[plan.targetPath].mode == plan.mode.value)
      ensures reliable && plan.targetPath in old(files) && old(files)[plan.targetPath] == written &&
              (plan.text.original.None? || Matches(old(files), names, ExpectedWritten(plan, written)))
              ==> ok
    {
      var failed := Fault();
      if failed || plan.targetPath !in files || files[plan.targetPath] != written { return false; }
      if plan.text.original.None? {
        ok := RemoveOwned(plan.targetPath, written);
      } else {
        var r := AtomicReplace(ExpectedWritten(plan, written), plan.text.original.value, plan.mode, false);
        ok := !r.thrown;
      }
    }

    // ----- The transaction -----

    /** The plan met its precondition at the start, so its own text and mode are those of the file. */
    ghost predicate Undoable(start: Files, plan: FilePlan) {
      && Matches(start, names, ExpectedOf(plan))
      && (plan.text.original.None? ==> plan.targetPath !in start)
    }

    /** What a plan that was applied left behind. */
    ghost predicate HoldsWritten(start: Files, now: Files, change: Change) {
      && Undoable(start, change.plan)
      && change.plan.targetPath in now && now[change.plan.targetPath] == change.written
    }

    /** Outside the given paths, every file is as it was at the start. */
    ghost predicate RestoredOutside(start: Files, now: Files, paths: set<Path>) {
      forall p :: p !in paths ==> SameFile(start, now, p)
    }

    /** Undoes one of the applied plans; the other ones keep what they wrote. */
    method UndoChange(change: Change, ghost start: Files, ghost others: seq<Change>, ghost paths: set<Path>)
      returns (ok: bool)
      requires Valid() && HoldsWritten(start, files, change)
      requires RestoredOutside(start, files, paths + {change.plan.targetPath})
      requires forall c :: c in others ==> HoldsWritten(start, files, c) && c.plan.targetPath != change.plan.targetPath
      modifies `files, `temps, `nextIno, `nextTemp
      ensures Valid() && forall c :: c in others ==> HoldsWritten(start, files, c)
      ensures RestoredOutside(start, files, if ok then paths else paths + {change.plan.targetPath})
      ensures reliable ==> ok
    {
      ok := Undo(change.plan, change.written);
      var t := change.plan.targetPath;
      if ok { assert SameFile(start, files, t); }
      forall p | p != t && p !in paths ensures SameFile(start, files, p) {
        assert SameFile(start, old(files), p);
      }
    }

    /** Undoes the applied plans, last first; failures are the plans that could not be undone. */
    method Rollback(applied: seq<Change>, ghost start: Files) returns (failures: seq<FilePlan>)
      requires Valid() && (forall c :: c in applied ==> HoldsWritten(start, files, c)) && Distinct(applied)
      requires RestoredOutside(start, files, ChangedPaths(applied))
      modifies `files, `temps, `nextIno, `nextTemp
      ensures Valid() && RestoredOutside(start, files, Paths(failures))
      ensures reliable ==> failures == []
    {
      failures := [];
      var rest := applied;
      while rest != []
        invariant Valid() && (forall c :: c in rest ==> HoldsWritten(start, files, c)) && Distinct(rest)
        invariant RestoredOutside(start, files, ChangedPaths(rest) + Paths(failures))
        invariant reliable ==> failures == []
        decreases |rest|
      {
        var change := rest[|rest| - 1];
        LastChange(rest, failures);
        rest := rest[..|rest| - 1];
        var undone := UndoChange(change, start, rest, ChangedPaths(rest) + Paths(failures));
        if !undone { failures := failures + [change.plan]; }
      }
    }

    /** The earlier changes are in place and nothing else differs from the start. */
    ghost predicate Progress(start: Files, now: Files, applied: seq<Change>) {
      && (forall c :: c in applied ==> HoldsWritten(start, now, c)) && Distinct(applied)
      && (forall p :: p !in ChangedPaths(applied) ==> (p in start <==> p in now) && (p in start ==> start[p] == now[p]))
    }

    lemma ProgressGrows(start: Files, now: Files, applied: seq<Change>, change: Change)
      requires Progress(start, now, applied) && change.plan.targetPath !in ChangedPaths(applied)
      requires Matches(now, names, ExpectedOf(change.plan))
      requires change.plan.text.original.None? ==> change.plan.targetPath !in now
      ensures Progress(start, now[change.plan.targetPath := change.written], applied + [change])
    {
      ChangedMore(applied, change);
      MatchesAtTarget(start, now, names, ExpectedOf(change.plan));
      hide Matches, ChangedPaths, Distinct;
      var later := now[change.plan.targetPath := change.written];
      forall c | c in applied ensures HoldsWritten(start, later, c) {
        assert HoldsWritten(start, now, c) && c.plan.targetPath != change.plan.targetPath by {
          assert c.plan.targetPath in ChangedPaths(applied) by { InChanged(applied, c); }
        }
      }
    }

    /** Installs one plan; a failure may still have installed it. */
    method ApplyPlan(plan: FilePlan, ghost start: Files, ghost applied: seq<Change>) returns (r: Install)
      requires Valid() && Progress(start, files, applied) && plan.targetPath !in ChangedPaths(applied)
      modifies `files, `temps, `nextIno, `nextTemp
      ensures Valid()
      ensures r.node.None? ==> r.thrown && files == old(files)
      ensures r.node.Some? ==>
                && Progress(start, files, applied + [Change(plan, r.node.value)])
                && files == old(files)[plan.targetPath := r.node.value]
                && r.node.value.content == plan.text.replacement
                && (plan.mode.Some? ==> r.node.value.mode == plan.mode.value)
      ensures reliable && Matches(start, names, ExpectedOf(plan)) ==> !r.thrown
    {
      r := Install(true, None);
      var ready := VerifyPrecondition(ExpectedOf(plan));
      UnchangedYet(start, files, applied, plan.targetPath);
      MatchesAtTarget(start, files, names, ExpectedOf(plan));
      hide Matches, ChangedPaths, Progress;
      if ready {
        ghost var before := files;
        r := AtomicReplace(ExpectedOf(plan), plan.text.replacement, plan.mode, plan.text.original.None?);
        if r.node.Some? { ProgressGrows(start, before, applied, Change(plan, r.node.value)); }
      }
    }

    lemma UnchangedYet(start: Files, now: Files, applied: seq<Change>, p: Path)
      requires Progress(start, now, applied) && p !in ChangedPaths(applied)
      ensures (p in start <==> p in now) && (p in start ==> start[p] == now[p])
    {
    }

    lemma OriginalsBack(plans: seq<FilePlan>, start: Files)
      requires RestoredOutside(start, files, {})
      ensures forall i :: 0 <= i < |plans| && HoldsOriginal(start, plans[i]) ==> HoldsOriginal(files, plans[i])
    {
      forall i | 0 <= i < |plans| && HoldsOriginal(start, plans[i]) ensures HoldsOriginal(files, plans[i]) {
        assert SameFile(start, files, plans[i].targetPath);
      }
    }

    /** Either every changed plan is written, or every file that can be undone is as it was at the start. */
    method ApplyFileTransaction(plans: seq<FilePlan>, aliasOf: AliasOf) returns (outcome: Outcome)
      requires Valid()
      modifies `files, `temps, `nextIno, `nextTemp
      ensures Valid()
      ensures outcome.Refused? <==> !Apart(plans, aliasOf, |plans|)
      ensures outcome.Refused? ==> files == old(files)
      ensures outcome.Written? ==>
                forall i :: 0 <= i < |plans| && plans[i].text.changed ==> HoldsReplacement(files, plans[i])
      ensures outcome.Written? ==> forall p :: p !in Targeted(plans, |plans|) ==> SameFile(old(files), files, p)
      ensures outcome.Failed? ==> RestoredOutside(old(files), files, Paths(outcome.failures))
      ensures outcome.Failed? && outcome.failures == [] ==>
                forall i :: 0 <= i < |plans| && HoldsOriginal(old(files), plans[i]) ==> HoldsOriginal(files, plans[i])
      ensures reliable && outcome.Failed? ==> outcome.failures == []
      ensures reliable && Apart(plans, aliasOf, |plans|) &&
              (forall i :: 0 <= i < |plans| && plans[i].text.changed ==>
                  Matches(old(files), names, ExpectedOf(plans[i])))
              ==> outcome.Written?
      ensures (forall i :: 0 <= i < |plans| ==> Managed(old(files), names, plans[i])) ==>
                && (outcome.Written? ==> forall i :: 0 <= i < |plans| ==> HoldsReplacement(files, plans[i]))
                && (reliable && Apart(plans, aliasOf, |plans|) ==> outcome.Written?)
    {
      var rejected := ValidateFileTransaction(plans, aliasOf);
      if rejected.Some? { return Refused(rejected.value); }
      AllMatch(plans);
      hide Apart, Progress, HoldsReplacement, HoldsOriginal, RestoredOutside, Matches, Managed;
      var applied: seq<Change> := [];
      NothingApplied(old(files));
      for n := 0 to |plans|
        invariant Valid() && Progress(old(files), files, applied) && ChangedPaths(applied) <= Targeted(plans, n)
        invariant forall i :: 0 <= i < n && plans[i].text.changed ==> HoldsReplacement(files, plans[i])
      {
        var thrown := false;
        if plans[n].text.changed { applied, thrown := ApplyNext(plans, aliasOf, n, old(files), applied); }
        NextTarget(plans, aliasOf, n);
        if thrown {
          outcome := Compensate(plans, applied, old(files));
          return;
        }
      }
      outcome := Written;
      UntouchedIsSame(plans, old(files), applied);
      if forall i :: 0 <= i < |plans| ==> Managed(old(files), names, plans[i]) {
        SkippedHold(plans, aliasOf, old(files), files, names);
      }
    }

    lemma AllMatch(plans: seq<FilePlan>)
      requires Valid()
      ensures forall i :: 0 <= i < |plans| && Managed(files, names, plans[i]) ==>
                Matches(files, names, ExpectedOf(plans[i]))
    {
      forall i | 0 <= i < |plans| && Managed(files, names, plans[i])
        ensures Matches(files, names, ExpectedOf(plans[i]))
      {
        ManagedPlan(files, names, plans[i]);
      }
    }

    lemma NothingApplied(start: Files)
      requires start == files
      ensures Progress(start, files, []) && ChangedPaths([]) == {}
    {
    }

    lemma UntouchedIsSame(plans: seq<FilePlan>, start: Files, applied: seq<Change>)
      requires Progress(start, files, applied) && ChangedPaths(applied) <= Targeted(plans, |plans|)
      ensures forall p :: p !in Targeted(plans, |plans|) ==> SameFile(start, files, p)
    {
      hide HoldsWritten, Distinct, ChangedPaths, Targeted;
    }

    /** The next changed plan; the written ones before it stay as they are. */
    method ApplyNext(plans: seq<FilePlan>, ghost aliasOf: AliasOf, n: nat, ghost start: Files, applied: seq<Change>)
      returns (applied': seq<Change>, thrown: bool)
      requires Valid() && n < |plans| && Apart(plans, aliasOf, |plans|) && plans[n].text.changed
      requires Progress(start, files, applied) && ChangedPaths(applied) <= Targeted(plans, n)
      requires forall i :: 0 <= i < n && plans[i].text.changed ==> HoldsReplacement(files, plans[i])
      modifies `files, `temps, `nextIno, `nextTemp
      ensures Valid() && Progress(start, files, applied') && ChangedPaths(applied') <= Targeted(plans, n + 1)
      ensures !thrown ==> forall i :: 0 <= i < n + 1 && plans[i].text.changed ==> HoldsReplacement(files, plans[i])
      ensures reliable && Matches(start, names, ExpectedOf(plans[n])) ==> !thrown
    {
      NextTarget(plans, aliasOf, n);
      ghost var before := files;
      hide Apart, Progress, Matches, Targeted, ChangedPaths, HoldsReplacement;
      var r := ApplyPlan(plans[n], start, applied);
      thrown, applied' := r.thrown, applied;
      if r.node.Some? {
        ChangedMore(applied, Change(plans[n], r.node.value));
        applied' := applied + [Change(plans[n], r.node.value)];
        StillWritten(before, files, plans, n, r.node.value);
        Replaced(files, plans[n]);
      }
    }

    lemma Replaced(now: Files, plan: FilePlan)
      requires plan.targetPath in now && now[plan.targetPath].content == plan.text.replacement
      requires plan.mode.Some? ==> now[plan.targetPath].mode == plan.mode.value
      ensures HoldsReplacement(now, plan)
    {
    }

    /** The catch block: everything applied is undone, and what could not be is reported. */
    method Compensate(plans: seq<FilePlan>, applied: seq<Change>, ghost start: Files) returns (outcome: Outcome)
      requires Valid() && Progress(start, files, applied)
      modifies `files, `temps, `nextIno, `nextTemp
      ensures Valid() && outcome.Failed? && RestoredOutside(start, files, Paths(outcome.failures))
      ensures outcome.failures == [] ==>
                forall i :: 0 <= i < |plans| && HoldsOriginal(start, plans[i]) ==> HoldsOriginal(files, plans[i])
      ensures reliable ==> outcome.failures == []
    {
      hide HoldsOriginal, HoldsWritten, Matches;
      var failures := Rollback(applied, start);
      if failures == [] { OriginalsBack(plans, start); }
      outcome := Failed(failures);
    }
  }

  datatype Outcome = Written | Refused(rejection: Rejection) | Failed(failures: seq<FilePlan>)

  ghost predicate HoldsReplacement(files: Files, plan: FilePlan) {
    && plan.targetPath in files && files[plan.targetPath].content == plan.text.replacement
    && (plan.mode.Some? ==> files[plan.targetPath].mode == plan.mode.value)
  }

  ghost predicate HoldsOriginal(files: Files, plan: FilePlan) {
    if plan.text.original.None? then plan.targetPath !in files
    else
      && plan.targetPath in files && files[plan.targetPath].content == plan.text.original.value
      && plan.mode == Some(files[plan.targetPath].mode)
  }

  lemma InChanged(applied: seq<Change>, c: Change)
    requires c in applied
    ensures c.plan.targetPath in ChangedPaths(applied)
  {
  }

  lemma ChangedMore(applied: seq<Change>, c: Change)
    ensures ChangedPaths(applied + [c]) == ChangedPaths(applied) + {c.plan.targetPath}
    ensures Distinct(applied) && c.plan.targetPath !in ChangedPaths(applied) ==> Distinct(applied + [c])
  {
  }

  /** The target paths of the changed plans among the first n. */
  function Targeted(plans: seq<FilePlan>, n: nat): set<Path>
    requires n <= |plans|
  {
    set i | 0 <= i < n && plans[i].text.changed :: plans[i].targetPath
  }

  lemma NextTarget(plans: seq<FilePlan>, aliasOf: AliasOf, n: nat)
    requires n < |plans| && Apart(plans, aliasOf, |plans|)
    ensures plans[n].targetPath !in Targeted(plans, n)
    ensures Targeted(plans, n + 1) == Targeted(plans, n) + if plans[n].text.changed then {plans[n].targetPath} else {}
    ensures forall i :: 0 <= i < n ==> plans[i].targetPath != plans[n].targetPath
  {
    forall i | 0 <= i < n ensures plans[i].targetPath != plans[n].targetPath {
      assert !PlansConflict(plans[i], plans[n], aliasOf);
    }
  }

  /** One applied plan with the file it wrote. */
  datatype Change = Change(plan: FilePlan, written: Node)

  ghost predicate Distinct(changes: seq<Change>) {
    forall j, k :: 0 <= j < k < |changes| ==> changes[j].plan.targetPath != changes[k].plan.targetPath
  }

  function Paths(plans: seq<FilePlan>): set<Path> { set p | p in plans :: p.targetPath }

  function ChangedPaths(changes: seq<Change>): set<Path> { set c | c in changes :: c.plan.targetPath }

  lemma LastChange(changes: seq<Change>, failures: seq<FilePlan>)
    requires changes != []
    ensures
      var (last, front) := (changes[|changes| - 1], changes[..|changes| - 1]);
      && ChangedPaths(changes) + Paths(failures) == (ChangedPaths(front) + Paths(failures)) + {last.plan.targetPath}
      && ChangedPaths(front) + Paths(failures + [last.plan]) ==
           (ChangedPaths(front) + Paths(failures)) + {last.plan.targetPath}
      && (Distinct(changes) ==> Distinct(front) && forall c :: c in front ==> c.plan.targetPath != last.plan.targetPath)
  {
    var last, front := changes[|changes| - 1], changes[..|changes| - 1];
    assert changes == front + [last];
  }
}
