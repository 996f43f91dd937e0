/** The package manifests that share one release version, and the transaction that rewrites them. */
module ReleaseManifests {
  import opened Wrappers
  import opened Decimal
  import opened Text
  import opened StableVersion

  /** A manifest: its version and everything else in it. */
  datatype Manifest = Manifest(version: string, rest: string)

  /** The files; one that is no manifest is `Other`. */
  datatype File = Good(manifest: Manifest) | Other(content: string)

  type Files = map<string, File>

  datatype Error = NotAManifest(path: string) | InvalidVersion(version: string) | Drift(path: string) | WriteFailed

  /** The write that fails, by the number of the file. */
  datatype Fault = Fine | TemporaryFails(k: nat) | BackupFails(k: nat) | RenameFails(k: nat)

  /** The four names of one manifest's files during the transaction. */
  datatype Names = Names(path: string, temporary: string, backup: string)

  // ----- versions of any kind -----

  predicate IsWord(s: string) {
    s != "" && forall i | 0 <= i < |s| :: IsDigit(s[i]) || 'a' <= s[i] <= 'z' || 'A' <= s[i] <= 'Z' || s[i] == '-'
  }

  /** A number without needless zeros, or a word that does not begin with a digit. */
  predicate IsTagPart(s: string) {
    Canonical(s) || (IsWord(s) && !IsDigit(s[0]))
  }

  predicate IsReleaseVersion(s: string) {
    var build := Cut(s, '+');
    var tag := Cut(build.0, '-');
    && IsStable(tag.0)
    && (tag.1.Some? ==> forall part | part in Split(tag.1.value, '.') :: IsTagPart(part))
    && (build.1.Some? ==> forall part | part in Split(build.1.value, '.') :: IsWord(part))
  }

  lemma StableHasNoTag(s: string)
    requires IsStable(s)
    ensures '+' !in s && '-' !in s
  {
    JoinSplit(s, '.');
    var parts := Split(s, '.');
    assert parts == [parts[0], parts[1], parts[2]];
    JoinThree(parts[0], parts[1], parts[2], '.');
  }

  lemma StableIsRelease(s: string)
    requires IsStable(s)
    ensures IsReleaseVersion(s)
  {
    StableHasNoTag(s);
    CutNothing(s, '+');
    CutNothing(s, '-');
  }

  // ----- the pattern -----

  predicate IsLetterOrDash(c: char) {
    'a' <= c <= 'z' || 'A' <= c <= 'Z' || c == '-'
  }

  /** `0`, or digits of which the first is not `0`. */
  ghost predicate NumberPart(s: string) {
    s == "0" || (s != "" && '1' <= s[0] <= '9' && forall c | c in s :: '0' <= c <= '9')
  }

  /** A letter or dash, and then letters, digits and dashes. */
  ghost predicate WordPart(s: string) {
    s != "" && IsLetterOrDash(s[0]) && forall c | c in s :: IsLetterOrDash(c) || '0' <= c <= '9'
  }

  ghost predicate BuildPart(s: string) {
    s != "" && forall c | c in s :: IsLetterOrDash(c) || '0' <= c <= '9'
  }

  function Dotted(parts: Option<seq<string>>): Option<string> {
    if parts == None then None else Some(Join(parts.value, '.'))
  }

  /** Three numbers; then a dash and numbers or words, if any; then a plus sign and build parts, if any. */
  ghost predicate Matches(s: string, core: seq<string>, tag: Option<seq<string>>, build: Option<seq<string>>) {
    && |core| == 3 && (forall part | part in core :: NumberPart(part))
    && (tag.Some? ==> tag.value != [] && forall part | part in tag.value :: NumberPart(part) || WordPart(part))
    && (build.Some? ==> build.value != [] && forall part | part in build.value :: BuildPart(part))
    && s == Join(core, '.') + Tail('-', Dotted(tag)) + Tail('+', Dotted(build))
  }

  lemma PartsAre(s: string)
    ensures Canonical(s) <==> NumberPart(s)
    ensures IsWord(s) <==> BuildPart(s)
    ensures IsTagPart(s) <==> NumberPart(s) || WordPart(s)
  {
    if BuildPart(s) {
      assert forall i | 0 <= i < |s| :: s[i] in s;
    }
    if NumberPart(s) {
      assert forall i | 0 <= i < |s| :: s[i] in s;
    }
  }

  lemma {:induction false} JoinAvoids(parts: seq<string>, c: char)
    requires c != '.' && forall part | part in parts :: c !in part
    ensures c !in Join(parts, '.')
  {
    if |parts| > 1 {
      assert forall part | part in parts[1..] :: part in parts;
      JoinAvoids(parts[1..], c);
    }
  }

  /** A release version is exactly what the pattern matches. */
  lemma ReleaseVersionExactly(s: string)
    ensures IsReleaseVersion(s) <==> exists core, tag, build :: Matches(s, core, tag, build)
  {
    if IsReleaseVersion(s) {
      VersionMatches(s);
    }
    forall core, tag, build | Matches(s, core, tag, build) ensures IsReleaseVersion(s) {
      MatchIsVersion(s, core, tag, build);
    }
  }

  lemma VersionMatches(s: string)
    requires IsReleaseVersion(s)
    ensures exists core, tag, build :: Matches(s, core, tag, build)
  {
    var build := Cut(s, '+');
    var tag := Cut(build.0, '-');
    var core := Split(tag.0, '.');
    TailBack(s, '+');
    TailBack(build.0, '-');
    JoinSplit(tag.0, '.');
    forall part | part in core ensures NumberPart(part) {
      PartsAre(part);
    }
    var tagParts := if tag.1 == None then None else Some(Split(tag.1.value, '.'));
    var buildParts := if build.1 == None then None else Some(Split(build.1.value, '.'));
    if tag.1.Some? {
      JoinSplit(tag.1.value, '.');
      forall part | part in tagParts.value ensures NumberPart(part) || WordPart(part) {
        PartsAre(part);
      }
    }
    if build.1.Some? {
      JoinSplit(build.1.value, '.');
      forall part | part in buildParts.value ensures BuildPart(part) {
        PartsAre(part);
      }
    }
    assert Matches(s, core, tagParts, buildParts);
  }

  lemma MatchIsVersion(s: string, core: seq<string>, tag: Option<seq<string>>, build: Option<seq<string>>)
    requires Matches(s, core, tag, build)
    ensures IsReleaseVersion(s)
  {
    var front := Join(core, '.');
    assert forall i | 0 <= i < |core| :: core[i] in core;
    SplitJoin(core, '.');
    JoinAvoids(core, '-');
    JoinAvoids(core, '+');
    forall part | part in core ensures Canonical(part) {
      PartsAre(part);
    }
    if tag.Some? {
      JoinAvoids(tag.value, '+');
      assert forall i | 0 <= i < |tag.value| :: tag.value[i] in tag.value;
      SplitJoin(tag.value, '.');
      forall part | part in tag.value ensures IsTagPart(part) {
        PartsAre(part);
      }
    }
    if build.Some? {
      assert forall i | 0 <= i < |build.value| :: build.value[i] in build.value;
      SplitJoin(build.value, '.');
      forall part | part in build.value ensures IsWord(part) {
        PartsAre(part);
      }
    }
    CutTail(front + Tail('-', Dotted(tag)), '+', Dotted(build));
    CutTail(front, '-', Dotted(tag));
  }

  // ----- the transaction -----

  ghost predicate DistinctNames(files: seq<Names>) {
    && (forall i, j | 0 <= i < |files| && 0 <= j < |files| && i != j ::
          files[i].path != files[j].path && files[i].temporary != files[j].temporary && files[i].backup != files[j].backup)
    && (forall i, j | 0 <= i < |files| && 0 <= j < |files| ::
          files[i].path != files[j].temporary && files[i].path != files[j].backup && files[i].temporary != files[j].backup)
  }

  /** The transaction's own names are new. */
  ghost predicate FreshNames(files: seq<Names>, t: Files) {
    && DistinctNames(files)
    && forall i | 0 <= i < |files| :: files[i].temporary !in t && files[i].backup !in t
  }

  ghost predicate AllThere(files: seq<Names>, t: Files) {
    forall i | 0 <= i < |files| :: files[i].path in t
  }

  ghost predicate IsScratch(files: seq<Names>, p: string) {
    exists i :: 0 <= i < |files| && (files[i].temporary == p || files[i].backup == p)
  }

  ghost predicate IsPath(files: seq<Names>, p: string) {
    exists i :: 0 <= i < |files| && files[i].path == p
  }

  /** The same apart from the transaction's own files. */
  ghost predicate SameBesideScratch(files: seq<Names>, t: Files, u: Files) {
    forall p | !IsScratch(files, p) :: (p in t <==> p in u) && (p in t ==> t[p] == u[p])
  }

  /** The same apart from the transaction's own files and the first `n` manifests. */
  ghost predicate SameBesideFirst(files: seq<Names>, n: nat, t: Files, u: Files)
    requires n <= |files|
  {
    forall p | !IsScratch(files, p) && (forall i | 0 <= i < n :: files[i].path != p) ::
      (p in t <==> p in u) && (p in t ==> t[p] == u[p])
  }

  /** From manifest `n` on the new contents wait in the temporary files. */
  ghost predicate Staged(names: seq<Names>, contents: seq<File>, n: nat, t: Files)
    requires |contents| == |names|
  {
    forall i | n <= i < |names| :: names[i].temporary in t && t[names[i].temporary] == contents[i]
  }

  /** The first `n` manifests have their new contents. */
  ghost predicate InPlace(names: seq<Names>, contents: seq<File>, n: nat, t: Files)
    requires |contents| == |names|
  {
    forall i | 0 <= i < n && i < |names| :: names[i].path in t && t[names[i].path] == contents[i]
  }

  ghost predicate BackupsKept(names: seq<Names>, t: Files, u: Files) {
    forall i | 0 <= i < |names| && names[i].backup in t :: names[i].backup in u && u[names[i].backup] == t[names[i].backup]
  }

  /** The old contents of all manifests are in the backups. */
  ghost predicate BackedUp(names: seq<Names>, before: Files, t: Files) {
    forall i | 0 <= i < |names| ::
      names[i].path in before && names[i].backup in t && t[names[i].backup] == before[names[i].path]
  }

  lemma WiderSame(names: seq<Names>, n: nat, t: Files, u: Files)
    requires n <= |names| && SameBesideFirst(names, n, t, u)
    ensures SameBesideFirst(names, |names|, t, u)
  {
  }

  lemma RenamedOne(names: seq<Names>, contents: seq<File>, i: nat, start: Files, t: Files, u: Files)
    requires |contents| == |names| && DistinctNames(names) && i < |names|
    requires SameBesideFirst(names, i, start, t) && BackupsKept(names, start, t)
    requires Staged(names, contents, i, t) && InPlace(names, contents, i, t)
    requires u == (t - {names[i].temporary})[names[i].path := contents[i]]
    ensures SameBesideFirst(names, i + 1, start, u) && BackupsKept(names, start, u)
    ensures Staged(names, contents, i + 1, u) && InPlace(names, contents, i + 1, u)
  {
    forall p | !IsScratch(names, p) && (forall j | 0 <= j < i + 1 :: names[j].path != p)
      ensures (p in start <==> p in u) && (p in start ==> start[p] == u[p])
    {
      assert p != names[i].path && p != names[i].temporary;
    }
  }

  predicate IsManifest(t: Files, path: string) {
    path in t && t[path].Good? && IsReleaseVersion(t[path].manifest.version)
  }

  predicate AllManifests(names: seq<Names>, t: Files) {
    forall i | 0 <= i < |names| :: IsManifest(t, names[i].path)
  }

  predicate Coupled(names: seq<Names>, t: Files, version: string)
  {
    forall i | 0 <= i < |names| :: names[i].path in t && t[names[i].path].Good? && t[names[i].path].manifest.version == version
  }

  ghost predicate AreRead(names: seq<Names>, t: Files, manifests: seq<Manifest>) {
    && |manifests| == |names|
    && forall i | 0 <= i < |names| :: names[i].path in t && t[names[i].path] == Good(manifests[i])
  }

  /** The version that all share, or the first manifest that differs. */
  method CommonVersion(manifests: seq<Manifest>) returns (r: Result<string, nat>)
    requires manifests != []
    ensures r.Success? ==> forall i | 0 <= i < |manifests| :: manifests[i].version == r.value
    ensures r.Failure? ==> r.error < |manifests| && manifests[r.error].version != manifests[0].version
  {
    var i := 1;
    while i < |manifests|
      invariant 1 <= i <= |manifests|
      invariant forall j | 0 <= j < i :: manifests[j].version == manifests[0].version
    {
      if manifests[i].version != manifests[0].version {
        return Failure(i);
      }
      i := i + 1;
    }
    return Success(manifests[0].version);
  }

  lemma CoupledIs(names: seq<Names>, t: Files, manifests: seq<Manifest>)
    requires AreRead(names, t, manifests)
    ensures forall version :: Coupled(names, t, version) <==> forall i | 0 <= i < |manifests| :: manifests[i].version == version
    ensures names != [] ==> names[0].path in t && t[names[0].path] == Good(manifests[0])
  {
    forall version
      ensures Coupled(names, t, version) <==> forall i | 0 <= i < |manifests| :: manifests[i].version == version
    {
      assert forall i | 0 <= i < |names| :: t[names[i].path] == Good(manifests[i]);
    }
  }

  ghost predicate FirstRead(names: seq<Names>, t: Files, n: nat, manifests: seq<Manifest>)
    requires |manifests| == n <= |names|
  {
    forall i | 0 <= i < n :: IsManifest(t, names[i].path) && t[names[i].path] == Good(manifests[i])
  }

  lemma ReadMore(names: seq<Names>, t: Files, n: nat, manifests: seq<Manifest>, next: Manifest)
    requires |manifests| == n < |names| && FirstRead(names, t, n, manifests)
    requires IsManifest(t, names[n].path) && t[names[n].path] == Good(next)
    ensures FirstRead(names, t, n + 1, manifests + [next])
  {
  }

  lemma ReadToTheEnd(names: seq<Names>, t: Files, manifests: seq<Manifest>)
    requires |manifests| == |names| && FirstRead(names, t, |names|, manifests)
    ensures AllManifests(names, t) && AreRead(names, t, manifests)
  {
  }

  lemma FoundBad(names: seq<Names>, t: Files, n: nat, manifests: seq<Manifest>)
    requires |manifests| == n < |names| && FirstRead(names, t, n, manifests) && !IsManifest(t, names[n].path)
    ensures !AllManifests(names, t) && FirstBad(names, t, ManifestError(t, names[n].path))
  {
  }

  function ManifestError(t: Files, path: string): Error {
    if path in t && t[path].Good? then InvalidVersion(t[path].manifest.version) else NotAManifest(path)
  }

  /** The error is that of the first bad manifest. */
  ghost predicate FirstBad(names: seq<Names>, t: Files, error: Error) {
    exists i :: 0 <= i < |names|
      && (forall j | 0 <= j < i :: IsManifest(t, names[j].path))
      && !IsManifest(t, names[i].path)
      && error == ManifestError(t, names[i].path)
  }

  ghost predicate DriftsAt(names: seq<Names>, t: Files, path: string) {
    && names != [] && IsPath(names, path) && path in t && t[path].Good?
    && names[0].path in t && t[names[0].path].Good?
    && t[path].manifest.version != t[names[0].path].manifest.version
  }

  /** Every manifest has its new content and nothing else changed. */
  ghost predicate Rewritten(names: seq<Names>, contents: seq<File>, t: Files, u: Files)
    requires |contents| == |names|
  {
    && (forall i | 0 <= i < |names| :: names[i].path in u && u[names[i].path] == contents[i])
    && (forall p | !IsPath(names, p) :: (p in t <==> p in u) && (p in t ==> t[p] == u[p]))
  }

  lemma RenamesKeep(names: seq<Names>, before: Files, prepared: Files, t: Files)
    requires SameBesideScratch(names, before, prepared) && BackedUp(names, before, prepared)
    requires SameBesideFirst(names, |names|, prepared, t) && BackupsKept(names, prepared, t)
    ensures SameBesideFirst(names, |names|, before, t) && BackedUp(names, before, t)
  {
  }

  lemma RewrittenIs(names: seq<Names>, contents: seq<File>, before: Files, written: Files, t: Files)
    requires |contents| == |names| && FreshNames(names, before)
    requires SameBesideFirst(names, |names|, before, written) && InPlace(names, contents, |names|, written)
    requires SameBesideScratch(names, written, t) && forall p | IsScratch(names, p) :: p !in t
    ensures Rewritten(names, contents, before, t)
  {
    forall i | 0 <= i < |names| ensures names[i].path in t && t[names[i].path] == contents[i] {
      assert !IsScratch(names, names[i].path);
    }
    forall p | !IsPath(names, p) ensures (p in before <==> p in t) && (p in before ==> before[p] == t[p]) {
      if !IsScratch(names, p) {
        assert forall j | 0 <= j < |names| :: names[j].path != p;
      }
    }
  }

  lemma SameFiles(names: seq<Names>, before: Files, written: Files, t: Files)
    requires FreshNames(names, before) && SameBesideScratch(names, before, written) && SameBesideScratch(names, written, t)
    requires forall p | IsScratch(names, p) :: p !in t
    ensures t == before
  {
    assert forall p :: p in t <==> p in before;
  }

  class Repository {
    var files: Files

    constructor (files: Files)
      ensures this.files == files
    {
      this.files := files;
    }

    /** Temporary files with the new contents, and backups of the old ones. */
    method Prepare(names: seq<Names>, contents: seq<File>, fault: Fault) returns (ok: bool)
      requires |contents| == |names| && FreshNames(names, files) && AllThere(names, files)
      modifies this
      ensures SameBesideScratch(names, old(files), files)
      ensures ok <==> !((fault.TemporaryFails? || fault.BackupFails?) && fault.k < |names|)
      ensures ok ==> Staged(names, contents, 0, files) && BackedUp(names, old(files), files)
    {
      var i := 0;
      while i < |names|
        invariant i <= |names|
        invariant SameBesideScratch(names, old(files), files)
        invariant (fault.TemporaryFails? || fault.BackupFails?) ==> fault.k >= i
        invariant forall j | 0 <= j < i ::
                    && names[j].temporary in files && files[names[j].temporary] == contents[j]
                    && names[j].backup in files && files[names[j].backup] == old(files)[names[j].path]
      {
        if fault == TemporaryFails(i) {
          return false;
        }
        files := files[names[i].temporary := contents[i]];
        if fault == BackupFails(i) {
          return false;
        }
        assert !IsScratch(names, names[i].path);
        files := files[names[i].backup := files[names[i].path]];
        i := i + 1;
      }
      return true;
    }

    /** Moves the temporary files into place, up to the rename that fails. */
    method RenameAll(names: seq<Names>, contents: seq<File>, fault: Fault) returns (ok: bool)
      requires |contents| == |names| && DistinctNames(names) && Staged(names, contents, 0, files)
      modifies this
      ensures SameBesideFirst(names, |names|, old(files), files) && BackupsKept(names, old(files), files)
      ensures ok <==> !(fault.RenameFails? && fault.k < |names|)
      ensures ok ==> InPlace(names, contents, |names|, files)
    {
      var i := 0;
      while i < |names|
        invariant i <= |names|
        invariant SameBesideFirst(names, i, old(files), files) && BackupsKept(names, old(files), files)
        invariant Staged(names, contents, i, files) && InPlace(names, contents, i, files)
        invariant fault.RenameFails? ==> fault.k >= i
      {
        if fault == RenameFails(i) {
          WiderSame(names, i, old(files), files);
          return false;
        }
        ghost var before := files;
        files := (files - {names[i].temporary})[names[i].path := files[names[i].temporary]];
        RenamedOne(names, contents, i, old(files), before, files);
        i := i + 1;
      }
      return true;
    }

    /** Copies every backup over its manifest. */
    method CopyBack(names: seq<Names>, ghost before: Files)
      requires DistinctNames(names)
      requires BackedUp(names, before, files)
      requires SameBesideFirst(names, |names|, before, files)
      modifies this
      ensures SameBesideScratch(names, before, files)
    {
      var i := 0;
      while i < |names|
        invariant i <= |names|
        invariant forall j | 0 <= j < |names| :: names[j].backup in files && files[names[j].backup] == before[names[j].path]
        invariant SameBesideFirst(names, |names|, before, files)
        invariant forall j | 0 <= j < i :: names[j].path in files && files[names[j].path] == before[names[j].path]
      {
        files := files[names[i].path := files[names[i].backup]];
        i := i + 1;
      }
    }

    method RemoveScratch(names: seq<Names>)
      modifies this
      ensures SameBesideScratch(names, old(files), files)
      ensures forall p | IsScratch(names, p) :: p !in files
    {
      var i := 0;
      while i < |names|
        invariant i <= |names|
        invariant SameBesideScratch(names, old(files), files)
        invariant forall j | 0 <= j < i :: names[j].temporary !in files && names[j].backup !in files
      {
        files := files - {names[i].temporary, names[i].backup};
        i := i + 1;
      }
    }

    /** Rewrites all manifests or none; either way no file of the transaction is left. */
    method WriteManifests(names: seq<Names>, contents: seq<File>, fault: Fault) returns (ok: bool)
      requires |contents| == |names| && FreshNames(names, files) && AllThere(names, files)
      modifies this
      ensures ok <==> fault.Fine? || fault.k >= |names|
      ensures !ok ==> files == old(files)
      ensures ok ==> Rewritten(names, contents, old(files), files)
    {
      ghost var before := files;
      ok := Prepare(names, contents, fault);
      ghost var prepared := files;
      if ok {
        ok := RenameAll(names, contents, fault);
        RenamesKeep(names, before, prepared, files);
        if !ok {
          CopyBack(names, before);
        }
      }
      ghost var written := files;
      RemoveScratch(names);
      if ok {
        RewrittenIs(names, contents, before, written, files);
      } else {
        SameFiles(names, before, written, files);
      }
    }

    method ReadManifest(path: string) returns (r: Result<Manifest, Error>)
      ensures r.Success? <==> IsManifest(files, path)
      ensures r.Success? ==> files[path] == Good(r.value)
      ensures r.Failure? ==> r.error == ManifestError(files, path)
    {
      if !(path in files && files[path].Good?) {
        return Failure(NotAManifest(path));
      }
      if !IsReleaseVersion(files[path].manifest.version) {
        return Failure(InvalidVersion(files[path].manifest.version));
      }
      return Success(files[path].manifest);
    }

    /** The manifests one after another; the first bad one is the error. */
    method ReadManifests(names: seq<Names>) returns (r: Result<seq<Manifest>, Error>)
      ensures r.Success? <==> AllManifests(names, files)
      ensures r.Success? ==> AreRead(names, files, r.value)
      ensures r.Failure? ==> FirstBad(names, files, r.error)
    {
      var manifests := [];
      var i := 0;
      while i < |names|
        invariant |manifests| == i <= |names|
        invariant FirstRead(names, files, i, manifests)
      {
        var manifest := ReadManifest(names[i].path);
        if manifest.Failure? {
          FoundBad(names, files, i, manifests);
          return Failure(manifest.error);
        }
        ReadMore(names, files, i, manifests, manifest.value);
        manifests := manifests + [manifest.value];
        i := i + 1;
      }
      ReadToTheEnd(names, files, manifests);
      return Success(manifests);
    }

    /** The one version of all manifests. */
    method ReadCoupled(names: seq<Names>) returns (r: Result<string, Error>)
      requires names != []
      ensures r.Success? <==> AllManifests(names, files) && Coupled(names, files, files[names[0].path].manifest.version)
      ensures r.Success? ==> Coupled(names, files, r.value)
      ensures r.Failure? ==>
                if AllManifests(names, files) then r.error.Drift? && DriftsAt(names, files, r.error.path) else FirstBad(names, files, r.error)
    {
      var manifests := ReadManifests(names);
      if manifests.Failure? {
        return Failure(manifests.error);
      }
      var common := CommonVersion(manifests.value);
      CoupledIs(names, files, manifests.value);
      if common.Failure? {
        return Failure(Drift(names[common.error].path));
      }
      return Success(common.value);
    }

    /** Writes one version into all manifests, keeping the rest of each. */
    method SetCoupled(names: seq<Names>, version: string, fault: Fault) returns (r: Result<string, Error>)
      requires FreshNames(names, files)
      modifies this
      ensures r.Success? <==>
                IsReleaseVersion(version) && AllManifests(names, old(files)) && (fault.Fine? || fault.k >= |names|)
      ensures r.Failure? ==> files == old(files)
      ensures r.Success? ==>
                && r.value == version
                && Coupled(names, files, version) && AllManifests(names, files)
                && (forall i | 0 <= i < |names| :: files[names[i].path].manifest.rest == old(files)[names[i].path].manifest.rest)
                && (forall p | !IsPath(names, p) ::
                      (p in old(files) <==> p in files) && (p in files ==> files[p] == old(files)[p]))
    {
      if !IsReleaseVersion(version) {
        return Failure(InvalidVersion(version));
      }
      var manifests := ReadManifests(names);
      if manifests.Failure? {
        return Failure(manifests.error);
      }
      var contents := seq(|names|, i requires 0 <= i < |names| => Good(manifests.value[i].(version := version)));
      var ok := WriteManifests(names, contents, fault);
      if !ok {
        return Failure(WriteFailed);
      }
      assert forall i | 0 <= i < |names| :: files[names[i].path] == contents[i];
      return Success(version);
    }

    /** Advances the stable version of all manifests by one patch. */
    method BumpPatch(names: seq<Names>, fault: Fault) returns (r: Result<string, Error>)
      requires FreshNames(names, files) && names != []
      modifies this
      ensures r.Success? <==>
                && AllManifests(names, old(files))
                && Coupled(names, old(files), old(files)[names[0].path].manifest.version)
                && IsStable(old(files)[names[0].path].manifest.version)
                && (fault.Fine? || fault.k >= |names|)
      ensures r.Failure? ==> files == old(files)
      ensures r.Success? ==>
                && Coupled(names, files, r.value) && AllManifests(names, files) && IsStable(r.value)
                && PartsOf(r.value) == Bumped(PartsOf(old(files)[names[0].path].manifest.version), Patch)
    {
      var current := ReadCoupled(names);
      if current.Failure? {
        return current;
      }
      var next := NextStable(current.value, Patch);
      if next.Failure? {
        return Failure(InvalidVersion(current.value));
      }
      StableIsRelease(next.value);
      r := SetCoupled(names, next.value, fault);
    }
  }
}
