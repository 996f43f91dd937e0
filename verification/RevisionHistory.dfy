/**
 Skill revision history: snapshots of an editable skill package, the numbered revisions recorded
 from them, differences between revisions, and the restore of one.
 */
module RevisionHistory {
  import opened Wrappers
  import opened FileTree
  import opened Text
  import opened Utf8

  /** A file's bytes, each a character below 256, and its permission bits. */
  datatype SnapshotFile = SnapshotFile(content: string, mode: nat)

  /** Files by path within the package. Content hashes are injective, so a snapshot is its own hash. */
  type Snapshot = map<Path, SnapshotFile>

  datatype Revision = Revision(snapshot: Snapshot, reason: string, restoredFrom: Option<nat>)

  const MAX_BYTES: nat := 8 * 1024 * 1024
  const MAX_FILES: nat := 512
  const MAX_FINGERPRINTS: nat := 2048

  predicate SafePath(rest: Path) {
    && rest != []
    && forall i | 0 <= i < |rest| :: rest[i] != "" && rest[i] != "." && rest[i] != ".." && '\\' !in rest[i]
  }

  ghost function Bytes(files: Snapshot): nat
    decreases |files|
  {
    if files == map[] then 0 else
      var p :| p in files;
      |files[p].content| + Bytes(files - {p})
  }

  lemma {:induction false} BytesOfAny(files: Snapshot, p: Path)
    requires p in files
    ensures Bytes(files) == |files[p].content| + Bytes(files - {p})
    decreases |files|
  {
    var q :| q in files && Bytes(files) == |files[q].content| + Bytes(files - {q});
    if q != p {
      BytesOfAny(files - {q}, p);
      BytesOfAny(files - {p}, q);
      assert files - {q} - {p} == files - {p} - {q};
    }
  }

  /** What history can hold: safe paths, permission bits, `SKILL.md`, and both limits. */
  ghost predicate Storable(files: Snapshot) {
    && (forall rest | rest in files :: SafePath(rest) && files[rest].mode < 512)
    && ["SKILL.md"] in files
    && |files| <= MAX_FILES
    && Bytes(files) <= MAX_BYTES
  }

  function FileOf(node: Node): SnapshotFile
    requires node.File?
  {
    SnapshotFile(node.content, node.mode % 512)
  }

  predicate HasFile(t: Tree, root: Path, rest: Path) {
    rest != [] && Within(t, root, rest).Some? && Within(t, root, rest).value.File?
  }

  /** The files of the package at `root` are exactly `files`. */
  ghost predicate Holds(t: Tree, root: Path, files: Snapshot) {
    && (forall rest :: rest in files <==> HasFile(t, root, rest))
    && (forall rest | rest in files ::
          && HasFile(t, root, rest)
          && files[rest] == SnapshotFile(Within(t, root, rest).value.content, Within(t, root, rest).value.mode % 512))
  }

  /** Only files and directories, under safe names. */
  ghost predicate Plain(t: Tree, root: Path) {
    && Within(t, root, []) == Some(Directory)
    && (forall rest | rest != [] && Within(t, root, rest).Some? :: SafePath(rest) && !Within(t, root, rest).value.Link?)
  }

  /** `files` is the snapshot of the package at `root`. */
  ghost predicate SnapshotIs(t: Tree, root: Path, files: Snapshot) {
    Plain(t, root) && Holds(t, root, files) && Storable(files)
  }

  ghost predicate HasSnapshot(t: Tree, root: Path) {
    exists files :: SnapshotIs(t, root, files)
  }

  lemma SnapshotUnique(t: Tree, root: Path, files: Snapshot, other: Snapshot)
    requires Holds(t, root, files) && Holds(t, root, other)
    ensures files == other
  {
    assert forall rest :: rest in files <==> rest in other;
  }

  /** The package at `a` in `t` is, node for node, the package at `b` in `u`. */
  ghost predicate SamePackage(t: Tree, a: Path, u: Tree, b: Path) {
    forall rest :: Within(t, a, rest) == Within(u, b, rest)
  }

  /** A snapshot says what the package is, wherever it lies. */
  lemma SnapshotMoves(t: Tree, a: Path, u: Tree, b: Path, files: Snapshot)
    requires SamePackage(t, a, u, b) && SnapshotIs(t, a, files)
    ensures SnapshotIs(u, b, files)
  {
    forall rest ensures HasFile(u, b, rest) <==> HasFile(t, a, rest) {
      assert Within(t, a, rest) == Within(u, b, rest);
    }
    assert Within(t, a, []) == Within(u, b, []);
    forall rest | rest != [] && Within(u, b, rest).Some? ensures SafePath(rest) && !Within(u, b, rest).value.Link? {
      assert Within(t, a, rest) == Within(u, b, rest);
    }
    forall rest | rest in files ensures files[rest] == FileOf(Within(u, b, rest).value) {
      assert Within(t, a, rest) == Within(u, b, rest);
    }
  }

  /** A package written out from a stored snapshot. */
  ghost predicate Written(t: Tree, root: Path, files: Snapshot) {
    forall rest :: Within(t, root, rest) ==
      if rest == [] then Some(Directory)
      else if rest in files then Some(File(files[rest].content, files[rest].mode)) else None
  }

  /** Writing a stored snapshot out and taking the snapshot again gives it back. */
  lemma WrittenSnapshot(t: Tree, root: Path, files: Snapshot)
    requires Storable(files) && Written(t, root, files)
    ensures SnapshotIs(t, root, files)
  {
    assert Within(t, root, []) == Some(Directory);
    forall rest ensures rest in files <==> HasFile(t, root, rest) {
      assert rest in files ==> SafePath(rest);
      assert Within(t, root, rest) == if rest == [] then Some(Directory)
        else if rest in files then Some(File(files[rest].content, files[rest].mode)) else None;
    }
    forall rest | rest != [] && Within(t, root, rest).Some? ensures SafePath(rest) && !Within(t, root, rest).value.Link? {
      assert Within(t, root, rest) == if rest in files then Some(File(files[rest].content, files[rest].mode)) else None;
    }
  }

  /** The walk through the package, with the paths in `todo` still ahead. */
  ghost predicate Visited(t: Tree, root: Path, todo: set<Path>, files: Snapshot) {
    && (forall p | p in todo :: p in t && root < p)
    && (forall rest | rest != [] && Within(t, root, rest).Some? && root + rest !in todo ::
          SafePath(rest) && !Within(t, root, rest).value.Link?)
    && (forall rest :: rest in files <==> HasFile(t, root, rest) && root + rest !in todo)
    && (forall rest | rest in files :: HasFile(t, root, rest) && files[rest] == FileOf(Within(t, root, rest).value))
  }

  lemma VisitStarts(t: Tree, root: Path, todo: set<Path>)
    requires todo == set p | p in t && root < p
    ensures Visited(t, root, todo, map[])
  {
    forall rest | rest != [] && Within(t, root, rest).Some? ensures root + rest in todo {
      assert root < root + rest;
    }
  }

  lemma VisitStep(t: Tree, root: Path, todo: set<Path>, files: Snapshot, rest: Path)
    requires Visited(t, root, todo, files) && root + rest in todo && rest != []
    requires SafePath(rest) && !t[root + rest].Link?
    ensures root + rest in t
    ensures Visited(t, root, todo - {root + rest},
                    if t[root + rest].File? then files[rest := FileOf(t[root + rest])] else files)
  {
    var left := todo - {root + rest};
    var more := if t[root + rest].File? then files[rest := FileOf(t[root + rest])] else files;
    assert Within(t, root, rest) == Some(t[root + rest]);
    forall other | other != rest ensures root + other in left <==> root + other in todo {
      assert (root + other)[|root|..] == other && (root + rest)[|root|..] == rest;
    }
    forall other ensures other in more <==> HasFile(t, root, other) && root + other !in left {
      assert other != rest ==> (root + other in left <==> root + other in todo);
    }
    forall other | other != [] && Within(t, root, other).Some? && root + other !in left
      ensures SafePath(other) && !Within(t, root, other).value.Link?
    {
      assert other != rest ==> (root + other in left <==> root + other in todo);
    }
  }

  lemma VisitEnds(t: Tree, root: Path, files: Snapshot)
    requires Visited(t, root, {}, files) && Within(t, root, []) == Some(Directory)
    ensures Plain(t, root) && Holds(t, root, files)
  {
    forall rest ensures rest in files <==> HasFile(t, root, rest) {
    }
  }

  lemma NotPlain(t: Tree, root: Path, rest: Path)
    requires rest != [] && Within(t, root, rest).Some? && (!SafePath(rest) || Within(t, root, rest).value.Link?)
    ensures !HasSnapshot(t, root)
  {
  }

  lemma OnlySnapshot(t: Tree, root: Path, files: Snapshot)
    requires Holds(t, root, files) && !Storable(files)
    ensures !HasSnapshot(t, root)
  {
    if other :| SnapshotIs(t, root, other) {
      SnapshotUnique(t, root, files, other);
    }
  }

  lemma {:induction false} BytesOfPart(part: Snapshot, files: Snapshot)
    requires forall rest | rest in part :: rest in files && part[rest] == files[rest]
    ensures Bytes(part) <= Bytes(files) && |part| <= |files|
    decreases |part|
  {
    if p :| p in part {
      BytesOfAny(part, p);
      BytesOfAny(files, p);
      BytesOfPart(part - {p}, files - {p});
    }
  }

  lemma TooBig(t: Tree, root: Path, part: Snapshot)
    requires forall rest | rest in part :: HasFile(t, root, rest) && part[rest] == FileOf(Within(t, root, rest).value)
    requires Bytes(part) > MAX_BYTES || |part| > MAX_FILES
    ensures !HasSnapshot(t, root)
  {
    if files :| SnapshotIs(t, root, files) {
      BytesOfPart(part, files);
    }
  }

  lemma VisitFile(t: Tree, root: Path, todo: set<Path>, files: Snapshot, rest: Path)
    requires Visited(t, root, todo, files) && root + rest in todo && rest != []
    requires SafePath(rest) && t[root + rest].File?
    ensures
      var more := files[rest := FileOf(t[root + rest])];
      && Visited(t, root, todo - {root + rest}, more)
      && |more| == |files| + 1
      && Bytes(more) == Bytes(files) + |t[root + rest].content|
      && (Bytes(more) > MAX_BYTES || |more| > MAX_FILES ==> !HasSnapshot(t, root))
  {
    var more := files[rest := FileOf(t[root + rest])];
    assert rest !in files;
    VisitStep(t, root, todo, files, rest);
    BytesOfAny(more, rest);
    assert more - {rest} == files;
    if Bytes(more) > MAX_BYTES || |more| > MAX_FILES {
      TooBig(t, root, more);
    }
  }

  /** Visits one more path; `None` when history cannot hold the package. */
  method Visit(t: Tree, root: Path, rest: Path, files: Snapshot, bytes: nat, ghost todo: set<Path>) returns (r: Option<(Snapshot, nat)>)
    requires Visited(t, root, todo, files) && root + rest in todo && rest != []
    requires bytes == Bytes(files)
    ensures r == None ==> !HasSnapshot(t, root)
    ensures r.Some? ==>
              && Visited(t, root, todo - {root + rest}, r.value.0)
              && r.value.1 == Bytes(r.value.0)
              && (r.value.0 == files || (r.value.1 <= MAX_BYTES && |r.value.0| <= MAX_FILES))
  {
    var node := t[root + rest];
    if !SafePath(rest) || node.Link? {
      NotPlain(t, root, rest);
      return None;
    }
    if !node.File? {
      VisitStep(t, root, todo, files, rest);
      return Some((files, bytes));
    }
    VisitFile(t, root, todo, files, rest);
    if bytes + |node.content| > MAX_BYTES || |files| >= MAX_FILES {
      return None;
    }
    return Some((files[rest := FileOf(node)], bytes + |node.content|));
  }

  /** Reads the package; refuses links, unsafe names and packages over the limits. */
  method TakeSnapshot(fs: FileSystem, root: Path) returns (r: Option<Snapshot>)
    ensures r == None ==> !HasSnapshot(fs.tree, root)
    ensures r.Some? ==> SnapshotIs(fs.tree, root, r.value)
    ensures r.Some? ==> ["SKILL.md"] in r.value && |r.value| <= 512 && Bytes(r.value) <= 8388608
    ensures r.Some? ==> forall rest, i | rest in r.value && 0 <= i < |rest| :: rest[i] !in {"", ".", ".."} && '\\' !in rest[i]
  {
    var t := fs.tree;
    assert root + [] == root;
    if !(root in t && t[root].Directory?) {
      return None;
    }
    var files: Snapshot, bytes := map[], 0;
    var todo := set p | p in t && root < p;
    VisitStarts(t, root, todo);
    while todo != {}
      invariant Visited(t, root, todo, files)
      invariant bytes == Bytes(files) <= MAX_BYTES && |files| <= MAX_FILES
    {
      var p :| p in todo;
      var rest := p[|root|..];
      assert p == root + rest;
      var visited := Visit(t, root, rest, files, bytes, todo);
      if visited == None {
        return None;
      }
      todo, files, bytes := todo - {p}, visited.value.0, visited.value.1;
    }
    VisitEnds(t, root, files);
    if ["SKILL.md"] in files {
      return Some(files);
    }
    OnlySnapshot(t, root, files);
    return None;
  }

  /** The revisions of a package, the first being revision 1. */
  function Of(revisions: map<Path, seq<Revision>>, root: Path): seq<Revision> {
    if root in revisions then revisions[root] else []
  }

  ghost predicate StorableRevisions(revisions: map<Path, seq<Revision>>) {
    forall root | root in revisions :: forall i | 0 <= i < |revisions[root]| :: Storable(revisions[root][i].snapshot)
  }

  /** A new revision, unless it only observes what the latest one holds already. */
  function Recorded(revisions: seq<Revision>, next: Revision): seq<Revision> {
    if revisions != [] && revisions[|revisions| - 1].snapshot == next.snapshot && next.restoredFrom == None
      then revisions
      else revisions + [next]
  }

  /**
   `after` is `before` with `next` at the end. It is left out exactly when it only observes what
   the latest revision holds already, so the latest revision holds its content in any case.
   */
  ghost predicate RecordedAs(before: seq<Revision>, next: Revision, after: seq<Revision>) {
    && before <= after && 0 < |after| <= |before| + 1
    && after[|after| - 1].snapshot == next.snapshot
    && (after == before <==> before != [] && before[|before| - 1].snapshot == next.snapshot && next.restoredFrom == None)
    && (after != before ==> after[|after| - 1] == next)
  }

  lemma RecordedIs(before: seq<Revision>, next: Revision)
    ensures RecordedAs(before, next, Recorded(before, next))
  {
    assert |Recorded(before, next)| == |before| ==> Recorded(before, next) == before;
  }

  lemma RestoreRecorded(before: seq<Revision>, next: Revision, after: seq<Revision>)
    requires RecordedAs(before, next, after) && next.restoredFrom.Some?
    ensures after == before + [next]
  {
    assert after[..|before|] == before;
  }

  /** Only the revisions of this package changed. */
  ghost predicate OnlyOf(before: map<Path, seq<Revision>>, root: Path, after: map<Path, seq<Revision>>) {
    root in after && after == before[root := after[root]]
  }

  lemma OneMore(files: Snapshot, todo: set<Path>, rest: Path)
    requires rest in todo && rest in files
    ensures (files - todo)[rest := files[rest]] == files - (todo - {rest})
  {
  }

  /** Where a restore stops, if it does; `WriteFails` counts the files written before. */
  datatype RestoreFault =
    | NoFault
    | CaptureFails
    | StagingFails
    | WriteFails(written: nat)
    | RecheckFails
    | BackupFails
    | SwapFails
    | RecordFails
    | BackupRemovalFails(removed: set<Path>)

  datatype RestoreError = LibraryPackage | NoRevision | Unsupported | Changed | StepFailed

  predicate Stops(fault: RestoreFault, files: nat) {
    fault != NoFault && (fault.WriteFails? ==> fault.written < files)
  }

  /** The restore's two temporary places: beside the package, and nothing there yet. */
  ghost predicate Scratch(t: Tree, root: Path, staging: Path, backup: Path) {
    && Apart(root, staging) && Apart(root, backup) && Apart(staging, backup)
    && forall p | Under(p, staging) || Under(p, backup) :: At(t, p) == None
  }

  ghost predicate SameOutside(t: Tree, place: Path, u: Tree) {
    forall p | !Under(p, place) :: At(u, p) == At(t, p)
  }

  datatype Kind = Added | Deleted | Modified

  datatype Difference = Difference(
    path: Path, kind: Kind, before: Option<string>, after: Option<string>, beforeMode: Option<nat>, afterMode: Option<nat>)

  function FileAt(files: Snapshot, path: Path): Option<SnapshotFile> {
    if path in files then Some(files[path]) else None
  }

  function Before(revisions: seq<Revision>, revision: nat): Snapshot
    requires 1 <= revision <= |revisions|
  {
    if revision > 1 then revisions[revision - 2].snapshot else map[]
  }

  predicate IsText(file: SnapshotFile) {
    '\0' !in file.content && IsUtf8(file.content)
  }

  /** Text as a diff shows it; a file with a zero byte, or that is not UTF-8, is binary and is not shown. */
  function ShownText(file: Option<SnapshotFile>): Option<string> {
    if file.Some? && IsText(file.value) then Some(file.value.content) else None
  }

  function Mode(file: Option<SnapshotFile>): Option<nat> {
    if file.Some? then Some(file.value.mode) else None
  }

  function DifferenceAt(before: Snapshot, after: Snapshot, path: Path): Difference {
    var left, right := FileAt(before, path), FileAt(after, path);
    Difference(
      path, if left == None then Added else if right == None then Deleted else Modified,
      ShownText(left), ShownText(right), Mode(left), Mode(right))
  }

  /** The kind tells which side has the file; each side's text and mode are those of its file. */
  ghost predicate ShowsChange(before: Snapshot, after: Snapshot, d: Difference) {
    && (d.kind == Added <==> d.path !in before) && (d.kind == Deleted <==> d.path !in after)
    && (d.kind == Modified ==> before[d.path] != after[d.path])
    && ShowsFile(before, d.path, d.before, d.beforeMode) && ShowsFile(after, d.path, d.after, d.afterMode)
  }

  ghost predicate ShowsFile(files: Snapshot, path: Path, text: Option<string>, mode: Option<nat>) {
    if path in files
    then mode == Some(files[path].mode) && text == (if '\0' in files[path].content || !IsUtf8(files[path].content) then None else Some(files[path].content))
    else text == None && mode == None
  }

  lemma DifferenceShows(before: Snapshot, after: Snapshot, path: Path)
    requires FileAt(before, path) != FileAt(after, path)
    ensures ShowsChange(before, after, DifferenceAt(before, after, path))
  {
  }

  ghost predicate DiffSoFar(before: Snapshot, after: Snapshot, done: set<Path>, ds: seq<Difference>) {
    && (forall i, j | 0 <= i < j < |ds| :: ds[i].path != ds[j].path)
    && (forall i | 0 <= i < |ds| :: ds[i].path in done && ds[i] == DifferenceAt(before, after, ds[i].path))
    && (forall i | 0 <= i < |ds| :: FileAt(before, ds[i].path) != FileAt(after, ds[i].path))
    && (forall path | path in done && FileAt(before, path) != FileAt(after, path) :: Listed(ds, path))
  }

  ghost predicate Listed(ds: seq<Difference>, path: Path) {
    exists i :: 0 <= i < |ds| && ds[i].path == path
  }

  lemma DiffMore(before: Snapshot, after: Snapshot, done: set<Path>, ds: seq<Difference>, path: Path)
    requires DiffSoFar(before, after, done, ds) && path !in done && FileAt(before, path) != FileAt(after, path)
    ensures DiffSoFar(before, after, done + {path}, ds + [DifferenceAt(before, after, path)])
  {
    var more := ds + [DifferenceAt(before, after, path)];
    forall other | Listed(ds, other) || other == path ensures Listed(more, other) {
      if other == path {
        assert more[|ds|].path == path;
      } else {
        var i :| 0 <= i < |ds| && ds[i].path == other;
        assert more[i].path == other;
      }
    }
  }

  function PathText(path: Path): string {
    Join(path, '/')
  }

  /** The paths are sorted as texts. */
  ghost predicate InOrder(ds: seq<Difference>) {
    forall i, j | 0 <= i < j < |ds| :: !TextPrecedes(PathText(ds[j].path), PathText(ds[i].path))
  }

  ghost predicate AllBehind(ds: seq<Difference>, todo: set<Path>) {
    forall i, path | 0 <= i < |ds| && path in todo :: !TextPrecedes(PathText(path), PathText(ds[i].path))
  }

  ghost predicate FirstOf(path: Path, todo: set<Path>) {
    path in todo && forall other | other in todo :: !TextPrecedes(PathText(other), PathText(path))
  }

  method FirstPath(todo: set<Path>) returns (path: Path)
    requires todo != {}
    ensures FirstOf(path, todo)
  {
    path :| path in todo;
    var left := todo - {path};
    TextsTotal(PathText(path), PathText(path));
    while left != {}
      invariant left <= todo && path in todo
      invariant forall other | other in todo - left :: !TextPrecedes(PathText(other), PathText(path))
    {
      var next :| next in left;
      var less := CompareTexts(PathText(next), PathText(path));
      if less {
        FirstMoves(todo - left, path, next);
        path := next;
      }
      left := left - {next};
    }
  }

  lemma FirstMoves(seen: set<Path>, path: Path, next: Path)
    requires forall other | other in seen :: !TextPrecedes(PathText(other), PathText(path))
    requires TextPrecedes(PathText(next), PathText(path))
    ensures forall other | other in seen || other == next :: !TextPrecedes(PathText(other), PathText(next))
  {
    TextsTotal(PathText(next), PathText(path));
    TextsTotal(PathText(next), PathText(next));
    forall other | other in seen ensures !TextPrecedes(PathText(other), PathText(next)) {
      NotBefore(PathText(next), PathText(path), PathText(other));
    }
  }

  lemma OrderMore(before: Snapshot, after: Snapshot, ds: seq<Difference>, path: Path, todo: set<Path>)
    requires InOrder(ds) && AllBehind(ds, todo + {path}) && FirstOf(path, todo + {path})
    ensures InOrder(ds + [DifferenceAt(before, after, path)]) && AllBehind(ds + [DifferenceAt(before, after, path)], todo)
  {
  }

  /** A diff lists every path whose file differs, once, and nothing else. */
  ghost predicate IsDiff(before: Snapshot, after: Snapshot, ds: seq<Difference>) {
    DiffSoFar(before, after, before.Keys + after.Keys, ds)
  }

  /** Between text files, the older revision and the diff tell the newer one: nothing is left out. */
  lemma DiffTellsAfter(before: Snapshot, after: Snapshot, other: Snapshot, ds: seq<Difference>)
    requires IsDiff(before, after, ds) && IsDiff(before, other, ds)
    requires forall path | path in after && FileAt(before, path) != Some(after[path]) :: IsText(after[path])
    requires forall path | path in other && FileAt(before, path) != Some(other[path]) :: IsText(other[path])
    ensures after == other
  {
    forall path ensures FileAt(after, path) == FileAt(other, path) {
      if Listed(ds, path) {
        var i :| 0 <= i < |ds| && ds[i].path == path;
        assert ds[i] == DifferenceAt(before, after, path) == DifferenceAt(before, other, path);
      }
    }
    assert forall path :: path in after <==> FileAt(after, path).Some?;
    assert forall path :: path in other <==> FileAt(other, path).Some?;
    assert forall path | path in after :: FileAt(after, path) == Some(after[path]) && FileAt(other, path) == Some(other[path]);
  }

  lemma NotAnother(t: Tree, root: Path, files: Snapshot, other: Snapshot)
    requires SnapshotIs(t, root, files) && files != other
    ensures !SnapshotIs(t, root, other)
  {
    if SnapshotIs(t, root, other) {
      SnapshotUnique(t, root, files, other);
    }
  }

  lemma StagedApart(t: Tree, u: Tree, root: Path, staging: Path, backup: Path)
    requires Scratch(t, root, staging, backup) && SameOutside(t, staging, u) && root in t
    ensures root in u && forall p | Under(p, backup) :: At(u, p) == None
  {
    NotUnderBoth(root, root, staging);
    assert At(u, root) == At(t, root);
    forall p | Under(p, backup) ensures At(u, p) == None {
      NotUnderBoth(p, backup, staging);
    }
  }

  lemma Discarded(t: Tree, staged: Tree, undone: Tree, staging: Path, u: Tree)
    requires forall p | Under(p, staging) :: At(t, p) == None
    requires SameOutside(t, staging, staged) && SameOutside(undone, staging, u)
    requires undone == staged || SameOutside(staged, staging, undone)
    ensures SameOutside(t, staging, u)
    ensures (forall p | Under(p, staging) :: At(u, p) == None) ==> u == t
  {
    forall p | !Under(p, staging) ensures At(u, p) == At(t, p) {
      assert At(staged, p) == At(t, p) && At(undone, p) == At(staged, p);
    }
    if forall p | Under(p, staging) :: At(u, p) == None {
      SameEverywhere(t, u);
    }
  }

  lemma RootKept(t: Tree, root: Path, backup: Path, u: Tree, files: Snapshot)
    requires Apart(root, backup) && SameOutside(t, backup, u) && SnapshotIs(t, root, files)
    ensures SnapshotIs(u, root, files)
  {
    forall rest ensures Within(t, root, rest) == Within(u, root, rest) {
      NotUnderBoth(root + rest, root, backup);
    }
    SnapshotMoves(t, root, u, root, files);
  }

  lemma BackupRemoved(t: Tree, staged: Tree, swapped: Tree, root: Path, staging: Path, backup: Path, u: Tree)
    requires Scratch(t, root, staging, backup) && SameOutside(t, staging, staged)
    requires forall p | Under(p, staging) :: At(swapped, p) == None
    requires forall p | !Under(p, root) && !Under(p, staging) && !Under(p, backup) :: At(swapped, p) == At(staged, p)
    requires forall p :: At(u, p) == if Under(p, backup) then None else At(swapped, p)
    ensures SameOutside(t, root, u)
  {
    forall p | !Under(p, root) ensures At(u, p) == At(t, p) {
      if !Under(p, staging) && !Under(p, backup) {
        assert At(swapped, p) == At(staged, p);
      }
    }
  }

  /** A failed restore has recorded what the package holds, if it came that far, and nothing else. */
  ghost predicate Observed(
    before: map<Path, seq<Revision>>, root: Path, t: Tree, recorded: bool, after: map<Path, seq<Revision>>)
  {
    if recorded
    then exists files :: SnapshotIs(t, root, files)
           && OnlyOf(before, root, after) && RecordedAs(Of(before, root), Revision(files, "before_restore", None), after[root])
    else after == before
  }

  /** The revision exists and the package is still what was reviewed. */
  ghost predicate Reviewed(revisions: map<Path, seq<Revision>>, root: Path, revision: nat, expected: Snapshot, t: Tree) {
    1 <= revision <= |Of(revisions, root)| && SnapshotIs(t, root, expected)
  }

  /** The package is the chosen revision; its previous content is on record, and so is the restore. */
  ghost predicate RestoredIs(
    before: map<Path, seq<Revision>>, root: Path, previous: Snapshot, revision: nat, t: Tree, after: map<Path, seq<Revision>>)
  {
    && 1 <= revision <= |Of(before, root)|
    && SnapshotIs(t, root, Of(before, root)[revision - 1].snapshot)
    && OnlyOf(before, root, after) && |after[root]| > 1
    && RecordedAs(Of(before, root), Revision(previous, "before_restore", None), after[root][..|after[root]| - 1])
    && after[root][|after[root]| - 1] == Revision(Of(before, root)[revision - 1].snapshot, "restore", Some(revision))
  }

  /** A revision before the latest has this content. */
  ghost predicate OnRecord(revisions: seq<Revision>, content: Snapshot) {
    exists k :: 0 <= k < |revisions| - 1 && revisions[k].snapshot == content
  }

  lemma PreviousOnRecord(
    before: map<Path, seq<Revision>>, root: Path, previous: Snapshot, revision: nat, t: Tree, after: map<Path, seq<Revision>>)
    requires RestoredIs(before, root, previous, revision, t, after)
    ensures OnRecord(Of(after, root), previous)
  {
    assert after[root][|after[root]| - 2].snapshot == previous;
  }

  lemma RestoredAfter(
    before: map<Path, seq<Revision>>, root: Path, previous: Snapshot, revision: nat, t: Tree,
    recorded: map<Path, seq<Revision>>, after: map<Path, seq<Revision>>)
    requires 1 <= revision <= |Of(before, root)| && SnapshotIs(t, root, Of(before, root)[revision - 1].snapshot)
    requires OnlyOf(before, root, recorded)
    requires RecordedAs(Of(before, root), Revision(previous, "before_restore", None), recorded[root])
    requires after == recorded[root := recorded[root] + [Revision(Of(before, root)[revision - 1].snapshot, "restore", Some(revision))]]
    ensures RestoredIs(before, root, previous, revision, t, after)
  {
    assert after[root][..|after[root]| - 1] == recorded[root];
  }

  lemma MovedAside(t: Tree, root: Path, staging: Path, backup: Path, u: Tree)
    requires Apart(root, staging) && Apart(root, backup) && Apart(staging, backup) && Renamed(t, root, backup, u)
    ensures SamePackage(t, root, u, backup) && SamePackage(t, staging, u, staging)
    ensures forall p | !Under(p, root) && !Under(p, backup) :: At(u, p) == At(t, p)
    ensures forall p | Under(p, root) :: At(u, p) == None
  {
    forall rest ensures Within(t, root, rest) == Within(u, backup, rest) {
      RenamedPackage(t, root, backup, u, rest);
    }
    forall rest ensures Within(t, staging, rest) == Within(u, staging, rest) {
      NotUnderBoth(staging + rest, staging, root);
      NotUnderBoth(staging + rest, staging, backup);
      RenamedElsewhere(t, root, backup, u, staging + rest);
    }
    forall p ensures !Under(p, root) && !Under(p, backup) ==> At(u, p) == At(t, p) {
      assert At(u, p) == MovedAt(t, root, backup, p);
    }
    forall p | Under(p, root) ensures At(u, p) == None {
      NotUnderBoth(p, root, backup);
      RenamedLeaves(t, root, backup, u, p);
    }
  }

  lemma MovedIn(t: Tree, aside: Tree, root: Path, staging: Path, backup: Path, files: Snapshot, u: Tree)
    requires Apart(root, staging) && Apart(root, backup) && Apart(staging, backup)
    requires Renamed(t, root, backup, aside) && Renamed(aside, staging, root, u)
    requires Written(t, staging, files) && Storable(files)
    ensures SnapshotIs(u, root, files)
    ensures SamePackage(t, root, u, backup)
    ensures forall p | Under(p, staging) :: At(u, p) == None
    ensures forall p | !Under(p, root) && !Under(p, staging) && !Under(p, backup) :: At(u, p) == At(t, p)
  {
    MovedAside(t, root, staging, backup, aside);
    MovedAside(aside, staging, backup, root, u);
    forall rest ensures Within(u, root, rest) ==
      if rest == [] then Some(Directory)
      else if rest in files then Some(File(files[rest].content, files[rest].mode)) else None
    {
      assert Within(t, staging, rest) == Within(aside, staging, rest) == Within(u, root, rest);
    }
    WrittenSnapshot(u, root, files);
    forall rest ensures Within(t, root, rest) == Within(u, backup, rest) {
      assert Within(t, root, rest) == Within(aside, backup, rest) == Within(u, backup, rest);
    }
    forall p ensures !Under(p, root) && !Under(p, staging) && !Under(p, backup) ==> At(u, p) == At(t, p) {
      if !Under(p, root) && !Under(p, staging) && !Under(p, backup) {
        assert At(aside, p) == At(t, p);
      }
    }
  }

  class History {
    const fs: FileSystem
    const library: Path
    var revisions: map<Path, seq<Revision>>
    var fingerprints: map<Path, (string, Snapshot)>
    ghost var seen: set<(Path, string, Snapshot)>

    /** Every revision can be written out again. */
    ghost predicate Valid()
      reads this`revisions
    {
      StorableRevisions(revisions)
    }

    /** Cached hashes were computed, and there is a bounded number of them. */
    ghost predicate ValidCache()
      reads this`fingerprints, this`seen
    {
      && (forall root | root in fingerprints :: (root, fingerprints[root].0, fingerprints[root].1) in seen)
      && |fingerprints| <= MAX_FINGERPRINTS
    }

    constructor (fs: FileSystem, library: Path)
      ensures Valid() && ValidCache() && this.fs == fs && this.library == library
      ensures revisions == map[]
    {
      this.fs, this.library := fs, library;
      revisions, fingerprints, seen := map[], map[], {};
    }

    /** Inside the library; a name that begins with two dots is taken for a way out of it. */
    predicate Immutable(root: Path) {
      Under(root, library) && (root == library || !(".." <= root[|library|]))
    }

    /** Records what the package holds now. */
    method Capture(root: Path, reason: string, restoredFrom: Option<nat>, fails: bool) returns (r: Option<Snapshot>)
      requires Valid()
      modifies this`revisions
      ensures Valid()
      ensures r == None <==> Immutable(root) || !HasSnapshot(fs.tree, root) || fails
      ensures r == None ==> revisions == old(revisions)
      ensures r.Some? ==>
                && SnapshotIs(fs.tree, root, r.value)
                && OnlyOf(old(revisions), root, revisions)
                && RecordedAs(Of(old(revisions), root), Revision(r.value, reason, restoredFrom), revisions[root])
    {
      if Immutable(root) {
        return None;
      }
      var files := TakeSnapshot(fs, root);
      if files == None || fails {
        return None;
      }
      RecordedIs(Of(revisions, root), Revision(files.value, reason, restoredFrom));
      revisions := revisions[root := Recorded(Of(revisions, root), Revision(files.value, reason, restoredFrom))];
      return files;
    }

    /** Writes the chosen files out, up to the one that fails. */
    method WriteStaging(files: Snapshot, staging: Path, fault: RestoreFault) returns (ok: bool)
      requires forall p | Under(p, staging) :: At(fs.tree, p) == None
      requires forall rest | rest in files :: rest != []
      modifies fs
      ensures SameOutside(old(fs.tree), staging, fs.tree)
      ensures ok <==> !(fault.WriteFails? && fault.written < |files|)
      ensures ok ==> Written(fs.tree, staging, files)
    {
      MakeStaging(staging);
      var todo, written := files.Keys, 0;
      assert files - todo == map[];
      while todo != {}
        invariant todo <= files.Keys && written + |todo| == |files|
        invariant Written(fs.tree, staging, files - todo)
        invariant SameOutside(old(fs.tree), staging, fs.tree)
        invariant fault.WriteFails? ==> fault.written >= written
      {
        if fault == WriteFails(written) {
          return false;
        }
        var rest :| rest in todo;
        WriteOne(staging, rest, files[rest], files - todo);
        OneMore(files, todo, rest);
        todo, written := todo - {rest}, written + 1;
      }
      assert files - {} == files;
      return true;
    }

    method MakeStaging(staging: Path)
      requires forall p | Under(p, staging) :: At(fs.tree, p) == None
      modifies fs
      ensures SameOutside(old(fs.tree), staging, fs.tree)
      ensures Written(fs.tree, staging, map[])
    {
      fs.Change(map[staging := Some(Directory)]);
      forall rest ensures Within(fs.tree, staging, rest) == if rest == [] then Some(Directory) else None {
        assert Under(staging + rest, staging);
        assert staging + rest == staging <==> |rest| == 0;
      }
    }

    method WriteOne(staging: Path, rest: Path, file: SnapshotFile, ghost done: Snapshot)
      requires rest != [] && rest !in done && Written(fs.tree, staging, done)
      modifies fs
      ensures Written(fs.tree, staging, done[rest := file])
      ensures SameOutside(old(fs.tree), staging, fs.tree)
    {
      fs.Change(map[staging + rest := Some(File(file.content, file.mode))]);
      forall other ensures Within(fs.tree, staging, other) ==
        if other == [] then Some(Directory)
        else if other in done[rest := file] then Some(File(done[rest := file][other].content, done[rest := file][other].mode)) else None
      {
        assert (staging + other)[|staging|..] == other && (staging + rest)[|staging|..] == rest;
        assert Within(old(fs.tree), staging, other) == if other == [] then Some(Directory)
          else if other in done then Some(File(done[other].content, done[other].mode)) else None;
      }
    }

    /** Moves the package aside, the staged one in, and back again when the record cannot be made. */
    method Swap(root: Path, staging: Path, backup: Path, files: Snapshot, revision: nat, fault: RestoreFault)
      returns (ok: bool)
      requires Valid() && !Immutable(root)
      requires Apart(root, staging) && Apart(root, backup) && Apart(staging, backup)
      requires root in fs.tree && Written(fs.tree, staging, files) && Storable(files)
      requires forall p | Under(p, backup) :: At(fs.tree, p) == None
      modifies this`revisions, fs
      ensures Valid()
      ensures ok <==> !fault.BackupFails? && !fault.SwapFails? && !fault.RecordFails?
      ensures !ok ==> revisions == old(revisions) && SameOutside(old(fs.tree), staging, fs.tree)
      ensures ok ==>
                && SnapshotIs(fs.tree, root, files)
                && SamePackage(old(fs.tree), root, fs.tree, backup)
                && (forall p | Under(p, staging) :: At(fs.tree, p) == None)
                && (forall p | !Under(p, root) && !Under(p, staging) && !Under(p, backup) :: At(fs.tree, p) == At(old(fs.tree), p))
                && revisions == old(revisions)[root := Of(old(revisions), root) + [Revision(files, "restore", Some(revision))]]
    {
      if fault.BackupFails? {
        return false;
      }
      ghost var t0 := fs.tree;
      fs.Rename(root, backup);
      ghost var t1 := fs.tree;
      MovedAside(t0, root, staging, backup, t1);
      if fault.SwapFails? {
        MoveBack(root, staging, backup, t0, t1);
        return false;
      }
      assert staging + [] == staging && Within(t1, staging, []) == Some(Directory);
      fs.Rename(staging, root);
      ghost var t2, before := fs.tree, revisions;
      MovedIn(t0, t1, root, staging, backup, files, t2);
      var captured := Capture(root, "restore", Some(revision), fault.RecordFails?);
      if captured == None {
        MoveBack(root, staging, backup, t0, t2);
        return false;
      }
      SnapshotUnique(t2, root, files, captured.value);
      RestoreRecorded(Of(before, root), Revision(files, "restore", Some(revision)), revisions[root]);
      return true;
    }

    /** The way back: whatever is at the root goes, and the backup takes its place. */
    method MoveBack(root: Path, staging: Path, backup: Path, ghost t0: Tree, ghost t: Tree)
      requires fs.tree == t && Apart(root, staging) && Apart(root, backup) && Apart(staging, backup)
      requires SamePackage(t0, root, t, backup) && root in t0
      requires forall p | Under(p, backup) :: At(t0, p) == None
      requires forall p | !Under(p, root) && !Under(p, staging) && !Under(p, backup) :: At(t, p) == At(t0, p)
      modifies fs
      ensures SameOutside(t0, staging, fs.tree)
    {
      fs.Remove(root);
      assert root + [] == root && backup + [] == backup && Within(t0, root, []) == Within(t, backup, []);
      NotUnderBoth(backup, backup, root);
      assert At(fs.tree, backup).Some?;
      ghost var cleared := fs.tree;
      fs.Rename(backup, root);
      forall p | !Under(p, staging) ensures At(fs.tree, p) == At(t0, p) {
        assert At(fs.tree, p) == MovedAt(cleared, backup, root, p);
        if Under(p, root) {
          var rest := p[|root|..];
          assert p == root + rest && Under(backup + rest, backup);
          NotUnderBoth(backup + rest, backup, root);
          assert Within(t0, root, rest) == Within(t, backup, rest);
        } else if !Under(p, backup) {
        }
      }
    }

    /** The staging directory goes, unless even that fails. */
    method Discard(staging: Path, fails: bool)
      modifies fs
      ensures SameOutside(old(fs.tree), staging, fs.tree)
      ensures !fails ==> forall p | Under(p, staging) :: At(fs.tree, p) == None
    {
      if !fails {
        fs.Remove(staging);
      }
    }

    /** Everything up to the swap: the files are staged and the package is still as reviewed. */
    method Stage(root: Path, files: Snapshot, expected: Snapshot, staging: Path, fault: RestoreFault) returns (ok: bool)
      requires Apart(root, staging) && Storable(files) && SnapshotIs(fs.tree, root, expected)
      requires forall p | Under(p, staging) :: At(fs.tree, p) == None
      modifies fs
      ensures SameOutside(old(fs.tree), staging, fs.tree)
      ensures ok <==> !fault.StagingFails? && !(fault.WriteFails? && fault.written < |files|) && !fault.RecheckFails?
      ensures ok ==> Written(fs.tree, staging, files)
    {
      if fault.StagingFails? {
        return false;
      }
      ok := WriteStaging(files, staging, fault);
      forall rest ensures Within(old(fs.tree), root, rest) == Within(fs.tree, root, rest) {
        NotUnderBoth(root + rest, root, staging);
      }
      SnapshotMoves(old(fs.tree), root, fs.tree, root, expected);
      if ok {
        var again := TakeSnapshot(fs, root);
        if again.Some? {
          SnapshotUnique(fs.tree, root, again.value, expected);
        }
        ok := again == Some(expected) && !fault.RecheckFails?;
      }
    }

    /** From the staging directory on. Only a backup that cannot be removed fails with the new package in place. */
    method Replace(root: Path, files: Snapshot, expected: Snapshot, revision: nat, staging: Path, backup: Path, fault: RestoreFault, cleanupFails: bool)
      returns (ok: bool)
      requires Valid() && !Immutable(root) && Scratch(fs.tree, root, staging, backup)
      requires Storable(files) && SnapshotIs(fs.tree, root, expected)
      modifies this`revisions, fs
      ensures Valid()
      ensures ok <==> !Stops(fault, |files|) || fault.CaptureFails?
      ensures ok || fault.BackupRemovalFails? ==>
                && SnapshotIs(fs.tree, root, files)
                && revisions == old(revisions)[root := Of(old(revisions), root) + [Revision(files, "restore", Some(revision))]]
      ensures ok ==> SameOutside(old(fs.tree), root, fs.tree)
      ensures !ok && !fault.BackupRemovalFails? ==>
                && revisions == old(revisions)
                && SameOutside(old(fs.tree), staging, fs.tree)
                && (!cleanupFails ==> fs.tree == old(fs.tree))
    {
      ghost var t0 := fs.tree;
      assert root in t0 by {
        assert root + [] == root && Within(t0, root, []).Some?;
      }
      ok := Stage(root, files, expected, staging, fault);
      ghost var t1 := fs.tree;
      StagedApart(t0, t1, root, staging, backup);
      if ok {
        ok := Swap(root, staging, backup, files, revision, fault);
      }
      ghost var t2 := fs.tree;
      if !ok {
        Discard(staging, cleanupFails);
        Discarded(t0, t1, t2, staging, fs.tree);
        return false;
      }
      if fault.BackupRemovalFails? {
        fs.Change(map p | p in fault.removed && Under(p, backup) :: None);
        RootKept(t2, root, backup, fs.tree, files);
        return false;
      }
      fs.Remove(backup);
      RootKept(t2, root, backup, fs.tree, files);
      BackupRemoved(t0, t1, t2, root, staging, backup, fs.tree);
    }

    /** The checks before anything is written: the package is what was reviewed, and that is on record. */
    method Review(root: Path, revision: nat, expected: Snapshot, fails: bool) returns (r: Result<Snapshot, RestoreError>)
      requires Valid()
      modifies this`revisions
      ensures Valid()
      ensures r.Success? <==>
                && Reviewed(old(revisions), root, revision, expected, fs.tree)
                && !Immutable(root)
                && !fails
      ensures r.Success? ==>
                && r.value == Of(old(revisions), root)[revision - 1].snapshot
                && Storable(r.value)
                && OnlyOf(old(revisions), root, revisions)
                && RecordedAs(Of(old(revisions), root), Revision(expected, "before_restore", None), revisions[root])
      ensures r.Failure? ==>
                && (r.error == LibraryPackage <==> Immutable(root))
                && (r.error == NoRevision <==> !Immutable(root) && !(1 <= revision <= |Of(old(revisions), root)|))
                && (r.error == Changed ==> HasSnapshot(fs.tree, root) && !SnapshotIs(fs.tree, root, expected))
                && r.error != StepFailed
      ensures r.Failure? ==> Observed(old(revisions), root, fs.tree, r.error == Changed, revisions)
    {
      if Immutable(root) {
        return Failure(LibraryPackage);
      }
      var list := Of(revisions, root);
      if revision == 0 || revision > |list| {
        return Failure(NoRevision);
      }
      var files := list[revision - 1].snapshot;
      var current := Capture(root, "before_restore", None, fails);
      if current == None {
        return Failure(Unsupported);
      }
      if current.value != expected {
        NotAnother(fs.tree, root, current.value, expected);
        assert SnapshotIs(fs.tree, root, current.value);
        return Failure(Changed);
      }
      return Success(files);
    }

    method RestoreReviewed(
      root: Path, revision: nat, files: Snapshot, expected: Snapshot, staging: Path, backup: Path, fault: RestoreFault, cleanupFails: bool,
      ghost before: map<Path, seq<Revision>>)
      returns (r: Result<nat, RestoreError>)
      requires Valid() && !Immutable(root) && !fault.CaptureFails? && Scratch(fs.tree, root, staging, backup)
      requires Reviewed(before, root, revision, expected, fs.tree)
      requires files == Of(before, root)[revision - 1].snapshot && Storable(files)
      requires OnlyOf(before, root, revisions)
      requires RecordedAs(Of(before, root), Revision(expected, "before_restore", None), revisions[root])
      modifies this`revisions, fs
      ensures Valid()
      ensures r.Success? <==> !Stops(fault, |files|)
      ensures r.Success? || fault.BackupRemovalFails? ==> RestoredIs(before, root, expected, revision, fs.tree, revisions)
      ensures r.Success? ==> SameOutside(old(fs.tree), root, fs.tree) && r.value == |Of(revisions, root)|
      ensures r.Failure? ==> r.error == StepFailed
      ensures r.Failure? && !fault.BackupRemovalFails? ==>
                && SameOutside(old(fs.tree), staging, fs.tree)
                && (!cleanupFails ==> fs.tree == old(fs.tree))
                && Observed(before, root, old(fs.tree), true, revisions)
    {
      ghost var recorded := revisions;
      var ok := Replace(root, files, expected, revision, staging, backup, fault, cleanupFails);
      if ok || fault.BackupRemovalFails? {
        RestoredAfter(before, root, expected, revision, fs.tree, recorded, revisions);
      }
      return if ok then Success(|Of(revisions, root)|) else Failure(StepFailed);
    }

    /**
     Restores a revision. All or nothing: on success the package is the chosen revision and its
     previous content is itself a revision; on failure the package is untouched. The one step
     after which a failure leaves the restored package in place is the removal of the backup.
     */
    method Restore(root: Path, revision: nat, expected: Snapshot, staging: Path, backup: Path, fault: RestoreFault, cleanupFails: bool)
      returns (r: Result<nat, RestoreError>)
      requires Valid() && Scratch(fs.tree, root, staging, backup)
      modifies this`revisions, fs
      ensures Valid()
      ensures r.Success? <==>
                && Reviewed(old(revisions), root, revision, expected, old(fs.tree))
                && !Immutable(root)
                && !Stops(fault, |Of(old(revisions), root)[revision - 1].snapshot|)
      ensures r.Success? ==>
                && RestoredIs(old(revisions), root, expected, revision, fs.tree, revisions)
                && SameOutside(old(fs.tree), root, fs.tree)
                && r.value == |Of(revisions, root)|
                && OnRecord(Of(revisions, root), expected)
      ensures r.Failure? && !fault.BackupRemovalFails? ==>
                && SameOutside(old(fs.tree), staging, fs.tree)
                && (!cleanupFails ==> fs.tree == old(fs.tree))
                && Observed(old(revisions), root, old(fs.tree), r.error == Changed || r.error == StepFailed, revisions)
      ensures r == Failure(LibraryPackage) <==>
                root == library || (library < root && !(".." <= root[|library|]))
      ensures fault.BackupRemovalFails? ==>
                if Reviewed(old(revisions), root, revision, expected, old(fs.tree)) && !Immutable(root)
                then r == Failure(StepFailed) && RestoredIs(old(revisions), root, expected, revision, fs.tree, revisions)
                     && OnRecord(Of(revisions, root), expected)
                else fs.tree == old(fs.tree)
    {
      ghost var before, t := revisions, fs.tree;
      var reviewed := Review(root, revision, expected, fault.CaptureFails?);
      assert fs.tree == t;
      if reviewed.Failure? {
        return Failure(reviewed.error);
      }
      r := RestoreReviewed(root, revision, reviewed.value, expected, staging, backup, fault, cleanupFails, before);
      if r.Success? || fault.BackupRemovalFails? {
        PreviousOnRecord(before, root, expected, revision, fs.tree, revisions);
      }
    }

    /** What changed from the revision before; revision 1 is compared with an empty package. */
    method Diff(root: Path, revision: nat) returns (r: Result<seq<Difference>, RestoreError>)
      ensures r.Success? <==> !Immutable(root) && 1 <= revision <= |Of(revisions, root)|
      ensures r.Success? ==> IsDiff(Before(Of(revisions, root), revision), Of(revisions, root)[revision - 1].snapshot, r.value)
      ensures r.Success? ==> InOrder(r.value)
      ensures r.Success? ==>
                var older := if revision == 1 then map[] else Of(revisions, root)[revision - 2].snapshot;
                var newer := Of(revisions, root)[revision - 1].snapshot;
                forall i | 0 <= i < |r.value| :: ShowsChange(older, newer, r.value[i])
    {
      if Immutable(root) {
        return Failure(LibraryPackage);
      }
      var list := Of(revisions, root);
      if revision == 0 || revision > |list| {
        return Failure(NoRevision);
      }
      var before, after := Before(list, revision), list[revision - 1].snapshot;
      var differences: seq<Difference> := [];
      var todo := before.Keys + after.Keys;
      while todo != {}
        invariant todo <= before.Keys + after.Keys
        invariant DiffSoFar(before, after, before.Keys + after.Keys - todo, differences)
        invariant InOrder(differences) && AllBehind(differences, todo)
      {
        var path := FirstPath(todo);
        ghost var done := before.Keys + after.Keys - todo;
        todo := todo - {path};
        if FileAt(before, path) != FileAt(after, path) {
          DiffMore(before, after, done, differences, path);
          assert todo + {path} == before.Keys + after.Keys - done;
          OrderMore(before, after, differences, path, todo);
          differences := differences + [DifferenceAt(before, after, path)];
        }
        assert before.Keys + after.Keys - todo == done + {path};
      }
      forall i | 0 <= i < |differences| ensures ShowsChange(before, after, differences[i]) {
        DifferenceShows(before, after, differences[i].path);
      }
      return Success(differences);
    }

    /**
     The hash of the package, from the cache when its metadata `stamp` is the cached one. `stamp`
     and `after` are what the two metadata walks report.
     */
    method Fingerprint(root: Path, stamp: Option<string>, after: Option<string>) returns (r: Option<Snapshot>)
      requires ValidCache()
      modifies this`fingerprints, this`seen
      ensures ValidCache()
      ensures r == None ==> seen == old(seen) && fingerprints == old(fingerprints)
      ensures r.Some? ==> stamp.Some? && seen == old(seen) + {(root, stamp.value, r.value)}
      ensures r.Some? ==> root in fingerprints && fingerprints[root] == (stamp.value, r.value)
      ensures r.Some? && root in old(fingerprints) && old(fingerprints)[root].0 == stamp.value ==> fingerprints == old(fingerprints)
      ensures r.Some? && (root, stamp.value, r.value) !in old(seen) ==> SnapshotIs(fs.tree, root, r.value)
      ensures r.Some? && (forall s | (root, stamp.value, s) in old(seen) :: SnapshotIs(fs.tree, root, s)) ==>
                SnapshotIs(fs.tree, root, r.value)
    {
      if Immutable(root) || stamp == None {
        return None;
      }
      if root in fingerprints && fingerprints[root].0 == stamp.value {
        assert seen == seen + {(root, stamp.value, fingerprints[root].1)};
        return Some(fingerprints[root].1);
      }
      var files := TakeSnapshot(fs, root);
      if files == None || after != stamp {
        return None;
      }
      Remember(root, stamp.value, files.value);
      return files;
    }

    /** Caches one hash; a full cache is emptied first. */
    method Remember(root: Path, stamp: string, files: Snapshot)
      requires ValidCache()
      modifies this`fingerprints, this`seen
      ensures ValidCache() && seen == old(seen) + {(root, stamp, files)}
      ensures root in fingerprints && fingerprints[root] == (stamp, files)
    {
      if |fingerprints| >= MAX_FINGERPRINTS {
        fingerprints := map[];
      }
      ghost var keys := fingerprints.Keys;
      fingerprints := fingerprints[root := (stamp, files)];
      assert fingerprints.Keys == keys + {root};
      seen := seen + {(root, stamp, files)};
    }
  }

  lemma SmallPackage(t: Tree, root: Path, content: string)
    requires |content| < 10 && t == map[root := Directory, root + ["SKILL.md"] := File(content, 420)]
    ensures SnapshotIs(t, root, map[["SKILL.md"] := SnapshotFile(content, 420)])
  {
    var path := ["SKILL.md"];
    var files := map[path := SnapshotFile(content, 420)];
    BytesOfAny(files, path);
    assert files - {path} == map[];
    assert "SKILL.md" != "" && "SKILL.md" != "." && "SKILL.md" != ".." by {
      assert |"SKILL.md"| == 8;
    }
    assert Storable(files);
    forall rest ensures Within(t, root, rest) ==
      if rest == [] then Some(Directory)
      else if rest in files then Some(File(files[rest].content, files[rest].mode)) else None
    {
      assert (root + rest)[|root|..] == rest && (root + path)[|root|..] == path;
      assert root + rest == root <==> |rest| == 0;
    }
    WrittenSnapshot(t, root, files);
  }

  lemma Edited(t: Tree, u: Tree, path: Path, file: Node)
    requires FileTree.Changed(t, map[path := Some(file)], u)
    ensures u == t[path := file]
  {
    SameEverywhere(u, t[path := file]);
  }

  method CaptureFirst(history: History, root: Path, ghost files: Snapshot)
    requires history.Valid() && history.revisions == map[] && !history.Immutable(root)
    requires SnapshotIs(history.fs.tree, root, files)
    modifies history`revisions
    ensures history.Valid() && Of(history.revisions, root) == [Revision(files, "observed", None)]
  {
    var first := history.Capture(root, "observed", None, false);
    SnapshotUnique(history.fs.tree, root, first.value, files);
  }

  /** A package whose revision 1 has the older content. */
  method ExampleHistory(root: Path) returns (history: History)
    requires Apart(root, ["library"])
    ensures fresh(history) && fresh(history.fs) && history.Valid() && !history.Immutable(root)
    ensures history.fs.tree == map[root := Directory, root + ["SKILL.md"] := File("new", 420)]
    ensures Of(history.revisions, root) == [Revision(map[["SKILL.md"] := SnapshotFile("old", 420)], "observed", None)]
  {
    var path := root + ["SKILL.md"];
    var older := map[root := Directory, path := File("old", 420)];
    var fs := new FileSystem(older);
    history := new History(fs, ["library"]);
    SmallPackage(older, root, "old");
    CaptureFirst(history, root, map[["SKILL.md"] := SnapshotFile("old", 420)]);
    fs.Change(map[path := Some(File("new", 420))]);
    Edited(older, fs.tree, path, File("new", 420));
  }

  /** Only the backup cannot be removed: the call fails, and the package is the restored one. */
  method ExampleBackupRemovalFails() returns (failed: bool, before: Tree, after: Tree)
    ensures failed && SnapshotIs(before, ["p"], map[["SKILL.md"] := SnapshotFile("new", 420)])
    ensures SnapshotIs(after, ["p"], map[["SKILL.md"] := SnapshotFile("old", 420)])
  {
    var root: Path, staging: Path, backup: Path := ["p"], ["s"], ["b"];
    ApartNames("p", "library");
    var history := ExampleHistory(root);
    before := history.fs.tree;
    SmallPackage(before, root, "new");
    FreshPlaces(before, root);
    var expected := map[["SKILL.md"] := SnapshotFile("new", 420)];
    var r := history.Restore(root, 1, expected, staging, backup, BackupRemovalFails({}), false);
    failed, after := r.Failure?, history.fs.tree;
  }

  lemma ApartNames(a: string, b: string)
    requires a != "" && b != "" && a[0] != b[0]
    ensures Apart([a], [b])
  {
    assert [a][0] != [b][0];
  }

  lemma FreshPlaces(t: Tree, root: Path)
    requires root == ["p"] && t == map[root := Directory, root + ["SKILL.md"] := File("new", 420)]
    ensures Scratch(t, root, ["s"], ["b"])
  {
    ApartNames("p", "s");
    ApartNames("p", "b");
    ApartNames("s", "b");
    forall p | p in t ensures !Under(p, ["s"]) && !Under(p, ["b"]) {
      assert p[0] == "p";
    }
  }
}
