/**
 Skill Set conflict replacement: every conflicting package is moved to a backup, the Skill Set
 is applied, and a failure anywhere moves the backups home again.
 */
module ConflictReplacement {
  import opened Wrappers
  import opened FileTree

  /** One reviewed conflict: the package in the way and the backup it is moved to. */
  datatype Impact = Impact(target: Path, backup: Path)

  /** Backups are numbered directories of one fresh recovery area, away from every target. */
  ghost predicate BackupsApart(impacts: seq<Impact>) {
    && (forall i, j | 0 <= i < |impacts| && 0 <= j < |impacts| && i != j :: Apart(impacts[i].backup, impacts[j].backup))
    && (forall i, j | 0 <= i < |impacts| && 0 <= j < |impacts| :: Apart(impacts[i].target, impacts[j].backup))
  }

  ghost predicate InBackups(impacts: seq<Impact>, p: Path) {
    exists i :: 0 <= i < |impacts| && Under(p, impacts[i].backup)
  }

  ghost predicate NoBackups(impacts: seq<Impact>, t: Tree) {
    forall p | InBackups(impacts, p) :: At(t, p) == None
  }

  ghost predicate BackupsKept(impacts: seq<Impact>, t: Tree, u: Tree) {
    forall p | InBackups(impacts, p) :: At(u, p) == At(t, p)
  }

  /** The path belongs to one of the first `n` targets. */
  ghost predicate InTargets(impacts: seq<Impact>, n: nat, p: Path)
    requires n <= |impacts|
  {
    exists i :: 0 <= i < n && Under(p, impacts[i].target)
  }

  /** The trees that the move loop passes through: each target was there when its turn came. */
  ghost predicate Moves(impacts: seq<Impact>, moves: seq<Tree>) {
    && 1 <= |moves| <= |impacts| + 1
    && forall k | 0 <= k < |moves| - 1 ::
         impacts[k].target in moves[k] && Renamed(moves[k], impacts[k].target, impacts[k].backup, moves[k + 1])
  }

  /** One turn of the restore loop; a backup that does not exist, or is a link to nothing, is passed over. */
  ghost predicate RestoredOne(t: Tree, impact: Impact, u: Tree) {
    if Exists(t, impact.backup) then Renamed(t, impact.backup, impact.target, u) else u == t
  }

  /** A directory cannot be renamed onto a link to nothing, which the restore loop does not remove. */
  predicate Blocked(t: Tree, impact: Impact) {
    && Exists(t, impact.backup)
    && t[impact.backup].Directory?
    && impact.target in t
    && !Exists(t, impact.target)
  }

  /** The trees that the restore loop passes through, last impact first. */
  ghost predicate Restores(impacts: seq<Impact>, turns: seq<Tree>) {
    && 1 <= |turns| <= |impacts| + 1
    && forall i | 0 <= i < |turns| - 1 :: RestoredOne(turns[i], impacts[|impacts| - 1 - i], turns[i + 1])
  }

  // ----- what moving away does -----

  lemma {:induction false} BackupsHoldPackages(impacts: seq<Impact>, moves: seq<Tree>, n: nat, j: nat, rest: Path)
    requires BackupsApart(impacts) && Moves(impacts, moves) && NoBackups(impacts, moves[0])
    requires j < |impacts| && n < |moves|
    ensures Within(moves[n], impacts[j].backup, rest)
         == if j < n then Within(moves[j], impacts[j].target, rest) else None
  {
    var p := impacts[j].backup + rest;
    assert Under(p, impacts[j].backup);
    if n == 0 {
      assert InBackups(impacts, p);
    } else {
      var last := impacts[n - 1];
      assert Renamed(moves[n - 1], last.target, last.backup, moves[n - 1 + 1]);
      if j == n - 1 {
        RenamedPackage(moves[n - 1], last.target, last.backup, moves[n], rest);
      } else {
        BackupsHoldPackages(impacts, moves, n - 1, j, rest);
        NotUnderBoth(p, impacts[j].backup, last.backup);
        NotUnderBoth(p, impacts[j].backup, last.target);
        RenamedElsewhere(moves[n - 1], last.target, last.backup, moves[n], p);
      }
    }
  }

  lemma TargetsOutsideBackups(impacts: seq<Impact>, n: nat, p: Path)
    requires BackupsApart(impacts) && n <= |impacts| && InTargets(impacts, n, p)
    ensures !InBackups(impacts, p)
  {
    var i :| 0 <= i < n && Under(p, impacts[i].target);
    forall j | 0 <= j < |impacts| ensures !Under(p, impacts[j].backup) {
      NotUnderBoth(p, impacts[i].target, impacts[j].backup);
    }
  }

  // ----- what restoring does -----

  /**
   Half way through the restore, with the first `k` of `n` moved impacts still to do: those
   backups are as they were made, the others are gone, and a path of the target area that is
   under no target still to do is as it was before the moves from `k` on.
   */
  ghost predicate HalfRestored(impacts: seq<Impact>, moves: seq<Tree>, k: nat, u: Tree)
    requires k < |moves| <= |impacts| + 1
  {
    && (forall j: nat, rest | j < |impacts| ::
          Within(u, impacts[j].backup, rest) == if j < k then Within(moves[j], impacts[j].target, rest) else None)
    && (forall p | InTargets(impacts, |moves| - 1, p) && !InTargets(impacts, k, p) :: At(u, p) == At(moves[k], p))
  }

  lemma RestoringStepBackups(impacts: seq<Impact>, moves: seq<Tree>, k: nat, u: Tree, v: Tree, j: nat, rest: Path)
    requires BackupsApart(impacts) && 0 < k < |moves| <= |impacts| + 1 && j < |impacts|
    requires HalfRestored(impacts, moves, k, u) && Renamed(u, impacts[k - 1].backup, impacts[k - 1].target, v)
    ensures Within(v, impacts[j].backup, rest) == if j < k - 1 then Within(moves[j], impacts[j].target, rest) else None
  {
    var target, backup := impacts[k - 1].target, impacts[k - 1].backup;
    var p := impacts[j].backup + rest;
    assert Within(u, impacts[j].backup, rest) == if j < k then Within(moves[j], impacts[j].target, rest) else None;
    NotUnderBoth(p, impacts[j].backup, target);
    if j == k - 1 {
      RenamedLeaves(u, backup, target, v, p);
    } else {
      NotUnderBoth(p, impacts[j].backup, backup);
      RenamedElsewhere(u, backup, target, v, p);
    }
  }

  lemma RestoringStepTarget(impacts: seq<Impact>, moves: seq<Tree>, k: nat, u: Tree, v: Tree, rest: Path)
    requires 0 < k < |moves| <= |impacts| + 1
    requires HalfRestored(impacts, moves, k, u) && Renamed(u, impacts[k - 1].backup, impacts[k - 1].target, v)
    ensures At(v, impacts[k - 1].target + rest) == At(moves[k - 1], impacts[k - 1].target + rest)
  {
    RenamedPackage(u, impacts[k - 1].backup, impacts[k - 1].target, v, rest);
    assert Within(u, impacts[k - 1].backup, rest) == Within(moves[k - 1], impacts[k - 1].target, rest);
  }

  lemma RestoringStepBeside(impacts: seq<Impact>, moves: seq<Tree>, k: nat, u: Tree, v: Tree, p: Path)
    requires Moves(impacts, moves) && 0 < k < |moves|
    requires At(u, p) == At(moves[k], p) && Renamed(u, impacts[k - 1].backup, impacts[k - 1].target, v)
    requires !Under(p, impacts[k - 1].target) && !Under(p, impacts[k - 1].backup)
    ensures At(v, p) == At(moves[k - 1], p)
  {
    var target, backup := impacts[k - 1].target, impacts[k - 1].backup;
    RenamedElsewhere(u, backup, target, v, p);
    assert Renamed(moves[k - 1], target, backup, moves[k - 1 + 1]);
    RenamedElsewhere(moves[k - 1], target, backup, moves[k], p);
  }

  /** One turn of the restore loop undoes the last move not yet undone. */
  lemma RestoringStep(impacts: seq<Impact>, moves: seq<Tree>, k: nat, u: Tree, v: Tree)
    requires BackupsApart(impacts) && Moves(impacts, moves) && 0 < k < |moves|
    requires HalfRestored(impacts, moves, k, u) && Renamed(u, impacts[k - 1].backup, impacts[k - 1].target, v)
    ensures HalfRestored(impacts, moves, k - 1, v)
  {
    forall j: nat, rest | j < |impacts|
      ensures Within(v, impacts[j].backup, rest) == if j < k - 1 then Within(moves[j], impacts[j].target, rest) else None
    {
      RestoringStepBackups(impacts, moves, k, u, v, j, rest);
    }
    forall p | InTargets(impacts, |moves| - 1, p) && !InTargets(impacts, k - 1, p)
      ensures At(v, p) == At(moves[k - 1], p)
    {
      if Under(p, impacts[k - 1].target) {
        assert p == impacts[k - 1].target + p[|impacts[k - 1].target|..];
        RestoringStepTarget(impacts, moves, k, u, v, p[|impacts[k - 1].target|..]);
      } else {
        TargetsOutsideBackups(impacts, |moves| - 1, p);
        assert !InTargets(impacts, k, p);
        RestoringStepBeside(impacts, moves, k, u, v, p);
      }
    }
  }

  /** What happened since the moves left the backups alone, so the restore can start. */
  lemma RestoringStarts(impacts: seq<Impact>, moves: seq<Tree>, u: Tree)
    requires BackupsApart(impacts) && Moves(impacts, moves) && NoBackups(impacts, moves[0])
    requires BackupsKept(impacts, moves[|moves| - 1], u)
    ensures HalfRestored(impacts, moves, |moves| - 1, u)
    ensures forall i | |moves| - 1 <= i < |impacts| :: impacts[i].backup !in u
  {
    var n := |moves| - 1;
    forall j: nat, rest | j < |impacts|
      ensures Within(u, impacts[j].backup, rest) == if j < n then Within(moves[j], impacts[j].target, rest) else None
    {
      assert Under(impacts[j].backup + rest, impacts[j].backup);
      assert InBackups(impacts, impacts[j].backup + rest);
      BackupsHoldPackages(impacts, moves, n, j, rest);
    }
    forall i | n <= i < |impacts| ensures impacts[i].backup !in u {
      assert impacts[i].backup + [] == impacts[i].backup;
      assert Within(u, impacts[i].backup, []) == None;
    }
  }

  /** At the end of the restore every moved target is as it was, and no backup is left. */
  lemma RestoringEnds(impacts: seq<Impact>, moves: seq<Tree>, u: Tree)
    requires BackupsApart(impacts) && Moves(impacts, moves) && HalfRestored(impacts, moves, 0, u)
    ensures forall p | InTargets(impacts, |moves| - 1, p) :: At(u, p) == At(moves[0], p)
    ensures NoBackups(impacts, u)
  {
    forall p | InTargets(impacts, |moves| - 1, p) ensures At(u, p) == At(moves[0], p) {
      assert !InTargets(impacts, 0, p);
    }
    forall p | InBackups(impacts, p) ensures At(u, p) == None {
      var j: nat :| j < |impacts| && Under(p, impacts[j].backup);
      var rest := p[|impacts[j].backup|..];
      assert p == impacts[j].backup + rest;
      assert Within(u, impacts[j].backup, rest) == None;
    }
  }

  lemma RestoringElsewhere(impacts: seq<Impact>, k: nat, u: Tree, v: Tree, p: Path)
    requires 0 < k <= |impacts| && RestoredOne(u, impacts[k - 1], v)
    requires !InBackups(impacts, p) && !InTargets(impacts, k, p)
    ensures At(v, p) == At(u, p)
  {
    var last := impacts[k - 1];
    assert !Under(p, last.target) && !Under(p, last.backup);
    if Exists(u, last.backup) {
      RenamedElsewhere(u, last.backup, last.target, v, p);
    }
  }

  // ----- which backups the restore sees -----

  /** A path away from every target and every backup, and so is all that it leads to. */
  ghost predicate Away(impacts: seq<Impact>, t: Tree, p: Path, links: nat)
    decreases links
  {
    && !InBackups(impacts, p)
    && !InTargets(impacts, |impacts|, p)
    && (p in t && t[p].Link? && links > 0 ==> Away(impacts, t, Resolve(p, t[p].destination), links - 1))
  }

  /** A package that is itself a link leads, from its backup, to somewhere else. */
  ghost predicate LinksLeadAway(impacts: seq<Impact>, t: Tree) {
    forall i | 0 <= i < |impacts| && impacts[i].backup in t && t[impacts[i].backup].Link? ::
      Away(impacts, t, Resolve(impacts[i].backup, t[impacts[i].backup].destination), MAX_LINKS - 1)
  }

  ghost predicate SameAway(impacts: seq<Impact>, t: Tree, u: Tree) {
    forall p | !InBackups(impacts, p) && !InTargets(impacts, |impacts|, p) :: At(u, p) == At(t, p)
  }

  lemma {:induction false} AwayExistsAlike(impacts: seq<Impact>, t: Tree, u: Tree, p: Path, links: nat)
    requires SameAway(impacts, t, u) && Away(impacts, t, p, links)
    ensures ExistsWithin(u, p, links) == ExistsWithin(t, p, links)
    decreases links
  {
    assert At(u, p) == At(t, p);
    if p in t && t[p].Link? && links > 0 {
      AwayExistsAlike(impacts, t, u, Resolve(p, t[p].destination), links - 1);
    }
  }

  lemma BackupExistsAlike(impacts: seq<Impact>, t: Tree, u: Tree, j: nat)
    requires SameAway(impacts, t, u) && LinksLeadAway(impacts, t) && j < |impacts|
    requires At(u, impacts[j].backup) == At(t, impacts[j].backup)
    ensures Exists(u, impacts[j].backup) == Exists(t, impacts[j].backup)
  {
    var backup := impacts[j].backup;
    if backup in t && t[backup].Link? {
      AwayExistsAlike(impacts, t, u, Resolve(backup, t[backup].destination), MAX_LINKS - 1);
    }
  }

  lemma {:induction false} TurnsStayHome(impacts: seq<Impact>, turns: seq<Tree>, i: nat)
    requires Restores(impacts, turns) && i < |turns|
    ensures SameAway(impacts, turns[0], turns[i])
  {
    if i > 0 {
      TurnsStayHome(impacts, turns, i - 1);
      var k := |impacts| - (i - 1);
      assert RestoredOne(turns[i - 1], impacts[|impacts| - 1 - (i - 1)], turns[i - 1 + 1]);
      forall p | !InBackups(impacts, p) && !InTargets(impacts, |impacts|, p) ensures At(turns[i], p) == At(turns[0], p) {
        assert !InTargets(impacts, k, p);
        RestoringElsewhere(impacts, k, turns[i - 1], turns[i], p);
      }
    }
  }

  /** A backup waits for its own turn, and one that leads nowhere waits for ever. */
  lemma {:induction false} BackupWaits(impacts: seq<Impact>, turns: seq<Tree>, i: nat, j: nat)
    requires BackupsApart(impacts) && Restores(impacts, turns) && LinksLeadAway(impacts, turns[0])
    requires i < |turns| && j < |impacts|
    requires i <= |impacts| - 1 - j || !Exists(turns[0], impacts[j].backup)
    ensures At(turns[i], impacts[j].backup) == At(turns[0], impacts[j].backup)
    ensures Exists(turns[i], impacts[j].backup) == Exists(turns[0], impacts[j].backup)
  {
    var backup := impacts[j].backup;
    if i > 0 {
      BackupWaits(impacts, turns, i - 1, j);
      var last := impacts[|impacts| - 1 - (i - 1)];
      assert RestoredOne(turns[i - 1], last, turns[i - 1 + 1]);
      if last.backup != backup && Exists(turns[i - 1], last.backup) {
        NotUnderBoth(backup, backup, last.target);
        NotUnderBoth(backup, backup, last.backup);
        RenamedElsewhere(turns[i - 1], last.backup, last.target, turns[i], backup);
      }
    }
    TurnsStayHome(impacts, turns, i);
    BackupExistsAlike(impacts, turns[0], turns[i], j);
  }

  /** Every package that was moved away exists where it was moved to. */
  ghost predicate AllKept(impacts: seq<Impact>, moves: seq<Tree>, u: Tree)
    requires |moves| <= |impacts| + 1
  {
    forall i | 0 <= i < |moves| - 1 :: Exists(u, impacts[i].backup)
  }

  lemma {:induction false} TurnsRestore(impacts: seq<Impact>, moves: seq<Tree>, turns: seq<Tree>, i: nat, k: nat)
    requires BackupsApart(impacts) && Moves(impacts, moves) && NoBackups(impacts, moves[0])
    requires Restores(impacts, turns) && LinksLeadAway(impacts, turns[0]) && i < |turns|
    requires BackupsKept(impacts, moves[|moves| - 1], turns[0])
    requires AllKept(impacts, moves, turns[0])
    requires k == if |impacts| - i < |moves| then |impacts| - i else |moves| - 1
    ensures HalfRestored(impacts, moves, k, turns[i])
  {
    if i == 0 {
      RestoringStarts(impacts, moves, turns[0]);
    } else {
      var before := |impacts| - (i - 1);
      TurnsRestore(impacts, moves, turns, i - 1, if before < |moves| then before else |moves| - 1);
      TurnRestores(impacts, moves, turns, i, before);
    }
  }

  lemma TurnRestores(impacts: seq<Impact>, moves: seq<Tree>, turns: seq<Tree>, i: nat, before: nat)
    requires BackupsApart(impacts) && Moves(impacts, moves)
    requires Restores(impacts, turns) && LinksLeadAway(impacts, turns[0]) && 0 < i < |turns|
    requires AllKept(impacts, moves, turns[0]) && before == |impacts| - (i - 1)
    requires HalfRestored(impacts, moves, if before < |moves| then before else |moves| - 1, turns[i - 1])
    ensures HalfRestored(impacts, moves, if before - 1 < |moves| then before - 1 else |moves| - 1, turns[i])
  {
    var last := impacts[before - 1];
    assert RestoredOne(turns[i - 1], impacts[|impacts| - 1 - (i - 1)], turns[i - 1 + 1]);
    if before < |moves| {
      assert Exists(turns[i - 1], last.backup) by {
        BackupWaits(impacts, turns, i - 1, before - 1);
      }
      RestoringStep(impacts, moves, before, turns[i - 1], turns[i]);
    } else {
      assert turns[i] == turns[i - 1] by {
        NothingMoved(impacts, moves, turns[i - 1], before - 1);
      }
    }
  }

  lemma NothingMoved(impacts: seq<Impact>, moves: seq<Tree>, u: Tree, j: nat)
    requires |moves| - 1 <= j < |impacts| && 1 <= |moves| && HalfRestored(impacts, moves, |moves| - 1, u)
    ensures !Exists(u, impacts[j].backup)
  {
    assert impacts[j].backup + [] == impacts[j].backup;
    assert Within(u, impacts[j].backup, []) == None;
  }

  /** Every moved target holds what it held before the moves, and the backups are used up. */
  ghost predicate Undone(impacts: seq<Impact>, moves: seq<Tree>, u: Tree)
    requires 1 <= |moves| <= |impacts| + 1
  {
    && (forall p | InTargets(impacts, |moves| - 1, p) :: At(u, p) == At(moves[0], p))
    && NoBackups(impacts, u)
  }

  /**
   A restore undoes the moves exactly when every package that was moved away still exists in its
   backup, that is unless one of them is a link that leads nowhere from there. The targets may be
   equal or nested, the moves may have stopped anywhere, and whatever was written elsewhere or
   onto the targets in between does not matter.
   */
  lemma RestoreUndoesMoves(impacts: seq<Impact>, moves: seq<Tree>, turns: seq<Tree>)
    requires BackupsApart(impacts) && Moves(impacts, moves) && NoBackups(impacts, moves[0])
    requires Restores(impacts, turns) && |turns| == |impacts| + 1 && LinksLeadAway(impacts, turns[0])
    requires BackupsKept(impacts, moves[|moves| - 1], turns[0])
    ensures Undone(impacts, moves, turns[|impacts|])
       <==> AllKept(impacts, moves, turns[0])
  {
    var end := turns[|impacts|];
    if j: nat :| j < |moves| - 1 && !Exists(turns[0], impacts[j].backup) {
      var backup := impacts[j].backup;
      BackupWaits(impacts, turns, |impacts|, j);
      assert backup + [] == backup && impacts[j].target + [] == impacts[j].target;
      BackupsHoldPackages(impacts, moves, |moves| - 1, j, []);
      assert Under(backup, backup) && InBackups(impacts, backup);
      assert At(end, backup).Some?;
    } else {
      TurnsRestore(impacts, moves, turns, |impacts|, 0);
      RestoringEnds(impacts, moves, end);
    }
  }

  // ----- restoring again -----

  lemma {:induction false} BackupMissing(impacts: seq<Impact>, turns: seq<Tree>, i: nat, j: nat)
    requires BackupsApart(impacts) && Restores(impacts, turns) && LinksLeadAway(impacts, turns[0])
    requires |impacts| - 1 - j < i < |turns| && j < |impacts| && Exists(turns[0], impacts[j].backup)
    ensures impacts[j].backup !in turns[i]
  {
    var backup := impacts[j].backup;
    var last := impacts[|impacts| - 1 - (i - 1)];
    assert RestoredOne(turns[i - 1], last, turns[i - 1 + 1]);
    NotUnderBoth(backup, backup, last.target);
    if i == |impacts| - j {
      BackupWaits(impacts, turns, i - 1, j);
      RenamedLeaves(turns[i - 1], backup, last.target, turns[i], backup);
      assert At(turns[i], backup) == None;
    } else {
      BackupMissing(impacts, turns, i - 1, j);
      NotUnderBoth(backup, backup, last.backup);
      if Exists(turns[i - 1], last.backup) {
        RenamedElsewhere(turns[i - 1], last.backup, last.target, turns[i], backup);
        assert At(turns[i], backup) == None;
      }
    }
  }

  /** Restoring twice is restoring once, even when some backup could not be restored. */
  lemma {:induction false} RestoreAgainChangesNothing(impacts: seq<Impact>, turns: seq<Tree>, again: seq<Tree>, i: nat)
    requires BackupsApart(impacts) && Restores(impacts, turns) && |turns| == |impacts| + 1
    requires LinksLeadAway(impacts, turns[0])
    requires Restores(impacts, again) && again[0] == turns[|impacts|] && i < |again|
    ensures again[i] == turns[|impacts|]
  {
    if i > 0 {
      RestoreAgainChangesNothing(impacts, turns, again, i - 1);
      var j := |impacts| - 1 - (i - 1);
      assert RestoredOne(again[i - 1], impacts[j], again[i - 1 + 1]);
      if Exists(turns[0], impacts[j].backup) {
        BackupMissing(impacts, turns, |impacts|, j);
      } else {
        BackupWaits(impacts, turns, |impacts|, j);
      }
    }
  }

  // ----- packages that are not links -----

  /** Apart from the backups, moving only empties targets. */
  lemma {:induction false} MovesOnlyEmpty(impacts: seq<Impact>, moves: seq<Tree>, n: nat, p: Path)
    requires BackupsApart(impacts) && Moves(impacts, moves) && n < |moves| && !InBackups(impacts, p)
    ensures At(moves[n], p) == if InTargets(impacts, n, p) then None else At(moves[0], p)
  {
    if n > 0 {
      MovesOnlyEmpty(impacts, moves, n - 1, p);
      var last := impacts[n - 1];
      assert Renamed(moves[n - 1], last.target, last.backup, moves[n - 1 + 1]);
      assert !Under(p, last.backup);
      if Under(p, last.target) {
        RenamedLeaves(moves[n - 1], last.target, last.backup, moves[n], p);
      } else {
        RenamedElsewhere(moves[n - 1], last.target, last.backup, moves[n], p);
      }
    }
  }

  /** No package to replace is a link. */
  ghost predicate NoLinks(impacts: seq<Impact>, t: Tree) {
    forall i | 0 <= i < |impacts| && impacts[i].target in t :: !t[impacts[i].target].Link?
  }

  lemma MovedPackageKept(impacts: seq<Impact>, moves: seq<Tree>, u: Tree, j: nat)
    requires BackupsApart(impacts) && Moves(impacts, moves) && NoBackups(impacts, moves[0]) && NoLinks(impacts, moves[0])
    requires BackupsKept(impacts, moves[|moves| - 1], u) && j < |impacts|
    ensures if j < |moves| - 1 then impacts[j].backup in u && !u[impacts[j].backup].Link? else impacts[j].backup !in u
  {
    var target, backup := impacts[j].target, impacts[j].backup;
    assert backup + [] == backup && target + [] == target;
    BackupsHoldPackages(impacts, moves, |moves| - 1, j, []);
    assert Under(backup, backup) && InBackups(impacts, backup);
    assert At(u, backup) == At(moves[|moves| - 1], backup);
    if j < |moves| - 1 {
      assert InTargets(impacts, j + 1, target);
      TargetsOutsideBackups(impacts, j + 1, target);
      MovesOnlyEmpty(impacts, moves, j, target);
      assert target in moves[j];
    }
  }

  lemma PackagesKept(impacts: seq<Impact>, moves: seq<Tree>, u: Tree)
    requires BackupsApart(impacts) && Moves(impacts, moves) && NoBackups(impacts, moves[0]) && NoLinks(impacts, moves[0])
    requires BackupsKept(impacts, moves[|moves| - 1], u)
    ensures AllKept(impacts, moves, u) && LinksLeadAway(impacts, u)
  {
    forall j | 0 <= j < |impacts|
      ensures if j < |moves| - 1 then impacts[j].backup in u && !u[impacts[j].backup].Link? else impacts[j].backup !in u
    {
      MovedPackageKept(impacts, moves, u, j);
    }
  }

  // ----- when the restore throws -----

  /** No turn of the restore loop was refused. */
  ghost predicate Unblocked(impacts: seq<Impact>, turns: seq<Tree>)
    requires |turns| <= |impacts| + 1
  {
    forall i | 0 <= i < |turns| - 1 :: !Blocked(turns[i], impacts[|impacts| - 1 - i])
  }

  /** A link that stands on a target leads somewhere else. */
  ghost predicate TargetLinksLeadAway(impacts: seq<Impact>, t: Tree) {
    forall i | 0 <= i < |impacts| && impacts[i].target in t && t[impacts[i].target].Link? ::
      Away(impacts, t, Resolve(impacts[i].target, t[impacts[i].target].destination), MAX_LINKS - 1)
  }

  /** The impacts whose backups the restore sees. */
  ghost function Live(impacts: seq<Impact>, t: Tree): set<nat> {
    set j: nat | j < |impacts| && Exists(t, impacts[j].backup)
  }

  /** One of the packages in `live`, from number `from` on, comes to lie over the target of package `k`. */
  ghost predicate Covered(impacts: seq<Impact>, live: set<nat>, k: nat, from: nat)
    requires k < |impacts|
  {
    exists j :: from <= j < |impacts| && j in live && Under(impacts[k].target, impacts[j].target)
  }

  lemma CoveredFrom(impacts: seq<Impact>, live: set<nat>, k: nat, j: nat)
    requires k < |impacts| && j < |impacts|
    ensures Covered(impacts, live, k, j) <==>
              Covered(impacts, live, k, j + 1) || (j in live && Under(impacts[k].target, impacts[j].target))
  {
  }

  /**
   A directory package whose target is a link to nothing when the restore starts, and stays one
   until its turn, since no package that is restored before it lies over that target.
   */
  ghost predicate WillBlock(impacts: seq<Impact>, t: Tree, k: nat) {
    && k < |impacts|
    && impacts[k].backup in t && t[impacts[k].backup].Directory?
    && impacts[k].target in t && !Exists(t, impacts[k].target)
    && !Covered(impacts, Live(impacts, t), k, k + 1)
  }

  /** All of a backup waits for its turn. */
  lemma {:induction false} BackupNodesWait(impacts: seq<Impact>, turns: seq<Tree>, i: nat, j: nat, rest: Path)
    requires BackupsApart(impacts) && Restores(impacts, turns) && i < |turns| && j < |impacts| && i <= |impacts| - 1 - j
    ensures Within(turns[i], impacts[j].backup, rest) == Within(turns[0], impacts[j].backup, rest)
  {
    if i > 0 {
      BackupNodesWait(impacts, turns, i - 1, j, rest);
      var last := impacts[|impacts| - 1 - (i - 1)];
      var p := impacts[j].backup + rest;
      assert RestoredOne(turns[i - 1], last, turns[i - 1 + 1]);
      if Exists(turns[i - 1], last.backup) {
        NotUnderBoth(p, impacts[j].backup, last.target);
        NotUnderBoth(p, impacts[j].backup, last.backup);
        RenamedElsewhere(turns[i - 1], last.backup, last.target, turns[i], p);
      }
    }
  }

  /** Package `j`, moved after package `k` or never, has nothing at the target of `k`. */
  lemma LaterPackageEmpty(impacts: seq<Impact>, moves: seq<Tree>, start: Tree, j: nat, k: nat)
    requires BackupsApart(impacts) && Moves(impacts, moves) && NoBackups(impacts, moves[0])
    requires BackupsKept(impacts, moves[|moves| - 1], start)
    requires k < j < |impacts| && Under(impacts[k].target, impacts[j].target)
    ensures Within(start, impacts[j].backup, impacts[k].target[|impacts[j].target|..]) == None
  {
    var target := impacts[k].target;
    var rest := target[|impacts[j].target|..];
    assert target == impacts[j].target + rest;
    assert Under(impacts[j].backup + rest, impacts[j].backup) && InBackups(impacts, impacts[j].backup + rest);
    BackupsHoldPackages(impacts, moves, |moves| - 1, j, rest);
    if j < |moves| - 1 {
      assert Under(target, target) && InTargets(impacts, j, target);
      TargetsOutsideBackups(impacts, j, target);
      MovesOnlyEmpty(impacts, moves, j, target);
    }
  }

  /** What a turn of the loop does to the target of a package that is still to come. */
  lemma TurnAtTarget(impacts: seq<Impact>, moves: seq<Tree>, turns: seq<Tree>, i: nat, k: nat)
    requires BackupsApart(impacts) && Moves(impacts, moves) && NoBackups(impacts, moves[0])
    requires Restores(impacts, turns) && BackupsKept(impacts, moves[|moves| - 1], turns[0])
    requires 0 < i < |turns| && k < |impacts| - i
    ensures
      var last := impacts[|impacts| - i];
      At(turns[i], impacts[k].target) ==
        if Exists(turns[i - 1], last.backup) && Under(impacts[k].target, last.target) then None else At(turns[i - 1], impacts[k].target)
  {
    var j := |impacts| - i;
    var last, target := impacts[j], impacts[k].target;
    assert RestoredOne(turns[i - 1], impacts[|impacts| - 1 - (i - 1)], turns[i - 1 + 1]);
    if Exists(turns[i - 1], last.backup) {
      if Under(target, last.target) {
        var rest := target[|last.target|..];
        assert target == last.target + rest;
        RenamedPackage(turns[i - 1], last.backup, last.target, turns[i], rest);
        BackupNodesWait(impacts, turns, i - 1, j, rest);
        LaterPackageEmpty(impacts, moves, turns[0], j, k);
      } else {
        NotUnderBoth(target, target, last.backup);
        RenamedElsewhere(turns[i - 1], last.backup, last.target, turns[i], target);
      }
    }
  }

  lemma {:induction false} EmptyTargetStays(impacts: seq<Impact>, moves: seq<Tree>, turns: seq<Tree>, i: nat, k: nat)
    requires BackupsApart(impacts) && Moves(impacts, moves) && NoBackups(impacts, moves[0])
    requires Restores(impacts, turns) && BackupsKept(impacts, moves[|moves| - 1], turns[0])
    requires i < |turns| && k < |impacts| - i && At(turns[0], impacts[k].target) == None
    ensures At(turns[i], impacts[k].target) == None
  {
    if i > 0 {
      EmptyTargetStays(impacts, moves, turns, i - 1, k);
      TurnAtTarget(impacts, moves, turns, i, k);
    }
  }

  lemma TurnLive(impacts: seq<Impact>, turns: seq<Tree>, i: nat, live: set<nat>)
    requires BackupsApart(impacts) && Restores(impacts, turns) && LinksLeadAway(impacts, turns[0])
    requires 0 < i < |turns| && live == Live(impacts, turns[0])
    ensures |impacts| - i in live <==> Exists(turns[i - 1], impacts[|impacts| - i].backup)
  {
    BackupWaits(impacts, turns, i - 1, |impacts| - i);
  }

  lemma TargetStep(impacts: seq<Impact>, moves: seq<Tree>, turns: seq<Tree>, i: nat, k: nat, live: set<nat>)
    requires BackupsApart(impacts) && Moves(impacts, moves) && NoBackups(impacts, moves[0])
    requires Restores(impacts, turns) && BackupsKept(impacts, moves[|moves| - 1], turns[0])
    requires LinksLeadAway(impacts, turns[0]) && live == Live(impacts, turns[0])
    requires 0 < i < |turns| && k < |impacts| - i
    ensures At(turns[i], impacts[k].target) ==
              if |impacts| - i in live && Under(impacts[k].target, impacts[|impacts| - i].target) then None
              else At(turns[i - 1], impacts[k].target)
  {
    TurnLive(impacts, turns, i, live);
    TurnAtTarget(impacts, moves, turns, i, k);
  }

  lemma {:induction false} TargetAtTurn(impacts: seq<Impact>, moves: seq<Tree>, turns: seq<Tree>, i: nat, k: nat, live: set<nat>)
    requires BackupsApart(impacts) && Moves(impacts, moves) && NoBackups(impacts, moves[0])
    requires Restores(impacts, turns) && BackupsKept(impacts, moves[|moves| - 1], turns[0])
    requires LinksLeadAway(impacts, turns[0]) && live == Live(impacts, turns[0])
    requires i < |turns| && k < |impacts| - i
    ensures At(turns[i], impacts[k].target) == if Covered(impacts, live, k, |impacts| - i) then None else At(turns[0], impacts[k].target)
  {
    if i > 0 {
      TargetAtTurn(impacts, moves, turns, i - 1, k, live);
      TargetStep(impacts, moves, turns, i, k, live);
      CoveredFrom(impacts, live, k, |impacts| - i);
    }
  }

  lemma TargetExistsAlike(impacts: seq<Impact>, t: Tree, u: Tree, k: nat)
    requires SameAway(impacts, t, u) && TargetLinksLeadAway(impacts, t) && k < |impacts|
    requires At(u, impacts[k].target) == At(t, impacts[k].target)
    ensures Exists(u, impacts[k].target) == Exists(t, impacts[k].target)
  {
    var target := impacts[k].target;
    if target in t && t[target].Link? {
      AwayExistsAlike(impacts, t, u, Resolve(target, t[target].destination), MAX_LINKS - 1);
    }
  }

  /** Whether the turn of package `k` is refused can be told from the tree that the restore starts with. */
  lemma BlockedAtTurn(impacts: seq<Impact>, moves: seq<Tree>, turns: seq<Tree>, k: nat)
    requires BackupsApart(impacts) && Moves(impacts, moves) && NoBackups(impacts, moves[0])
    requires Restores(impacts, turns) && BackupsKept(impacts, moves[|moves| - 1], turns[0])
    requires LinksLeadAway(impacts, turns[0]) && TargetLinksLeadAway(impacts, turns[0])
    requires |impacts| - |turns| <= k < |impacts|
    ensures Blocked(turns[|impacts| - 1 - k], impacts[k]) <==> WillBlock(impacts, turns[0], k)
  {
    var i := |impacts| - 1 - k;
    var live := Live(impacts, turns[0]);
    BackupWaits(impacts, turns, i, k);
    TargetAtTurn(impacts, moves, turns, i, k, live);
    if !Covered(impacts, live, k, k + 1) {
      TurnsStayHome(impacts, turns, i);
      TargetExistsAlike(impacts, turns[0], turns[i], k);
    }
  }

  /** How a restore ended: all the way through, or refused at the package after the last turn. */
  ghost predicate Ended(impacts: seq<Impact>, turns: seq<Tree>, stuck: Option<nat>)
    requires 1 <= |turns| <= |impacts| + 1
  {
    && Unblocked(impacts, turns)
    && (stuck == None ==> |turns| == |impacts| + 1)
    && (stuck.Some? ==>
          stuck.value < |impacts| && |turns| == |impacts| - stuck.value && Blocked(turns[|turns| - 1], impacts[stuck.value]))
  }

  /**
   The restore throws exactly when some directory package is to go where, at the start of the
   restore, a link to nothing stands that no package restored before it replaces.
   */
  lemma RestoreThrowsExactly(impacts: seq<Impact>, moves: seq<Tree>, turns: seq<Tree>, stuck: Option<nat>)
    requires BackupsApart(impacts) && Moves(impacts, moves) && NoBackups(impacts, moves[0])
    requires Restores(impacts, turns) && BackupsKept(impacts, moves[|moves| - 1], turns[0]) && Ended(impacts, turns, stuck)
    requires LinksLeadAway(impacts, turns[0]) && TargetLinksLeadAway(impacts, turns[0])
    ensures stuck.Some? <==> exists k :: WillBlock(impacts, turns[0], k)
    ensures stuck.Some? ==> WillBlock(impacts, turns[0], stuck.value)
  {
    if stuck.Some? {
      BlockedAtTurn(impacts, moves, turns, stuck.value);
    } else {
      forall k: nat ensures !WillBlock(impacts, turns[0], k) {
        if k < |impacts| {
          BlockedAtTurn(impacts, moves, turns, k);
          assert !Blocked(turns[|impacts| - 1 - k], impacts[|impacts| - 1 - (|impacts| - 1 - k)]);
        }
      }
    }
  }

  lemma MovedTargetEmpty(impacts: seq<Impact>, moves: seq<Tree>, k: nat)
    requires BackupsApart(impacts) && Moves(impacts, moves) && k < |moves| - 1
    ensures At(moves[|moves| - 1], impacts[k].target) == None
  {
    var target := impacts[k].target;
    assert Under(target, target) && InTargets(impacts, |moves| - 1, target);
    TargetsOutsideBackups(impacts, |moves| - 1, target);
    MovesOnlyEmpty(impacts, moves, |moves| - 1, target);
  }

  lemma UnmovedBackupEmpty(impacts: seq<Impact>, moves: seq<Tree>, start: Tree, k: nat)
    requires BackupsApart(impacts) && Moves(impacts, moves) && NoBackups(impacts, moves[0])
    requires BackupsKept(impacts, moves[|moves| - 1], start) && |moves| - 1 <= k < |impacts|
    ensures Within(start, impacts[k].backup, []) == None
  {
    var backup := impacts[k].backup;
    assert backup + [] == backup && Under(backup, backup) && InBackups(impacts, backup);
    BackupsHoldPackages(impacts, moves, |moves| - 1, k, []);
  }

  /** Only a package that was moved can be refused. */
  lemma RefusedWasMoved(impacts: seq<Impact>, moves: seq<Tree>, turns: seq<Tree>, k: nat)
    requires BackupsApart(impacts) && Moves(impacts, moves) && NoBackups(impacts, moves[0])
    requires Restores(impacts, turns) && BackupsKept(impacts, moves[|moves| - 1], turns[0])
    requires k < |impacts| && |turns| == |impacts| - k && Blocked(turns[|turns| - 1], impacts[k])
    ensures k < |moves| - 1
  {
    assert impacts[k].backup + [] == impacts[k].backup;
    if k >= |moves| - 1 {
      BackupNodesWait(impacts, turns, |turns| - 1, k, []);
      UnmovedBackupEmpty(impacts, moves, turns[0], k);
    }
  }

  /** After a move that failed nothing stands on the moved targets, and the restore never throws. */
  lemma StoppedMovesNeverThrow(impacts: seq<Impact>, moves: seq<Tree>, turns: seq<Tree>, stuck: Option<nat>)
    requires BackupsApart(impacts) && Moves(impacts, moves) && NoBackups(impacts, moves[0])
    requires Restores(impacts, turns) && turns[0] == moves[|moves| - 1] && Ended(impacts, turns, stuck)
    ensures stuck == None
  {
    if stuck.Some? {
      RefusedWasMoved(impacts, moves, turns, stuck.value);
      MovedTargetEmpty(impacts, moves, stuck.value);
      EmptyTargetStays(impacts, moves, turns, |turns| - 1, stuck.value);
    }
  }

  /** A restore that throws has lost nothing: the packages behind the refused one are home, the others wait in their backups. */
  lemma ThrownHalfway(impacts: seq<Impact>, moves: seq<Tree>, turns: seq<Tree>, stuck: Option<nat>)
    requires BackupsApart(impacts) && Moves(impacts, moves) && NoBackups(impacts, moves[0])
    requires Restores(impacts, turns) && BackupsKept(impacts, moves[|moves| - 1], turns[0]) && Ended(impacts, turns, stuck)
    requires LinksLeadAway(impacts, turns[0]) && AllKept(impacts, moves, turns[0]) && stuck.Some?
    ensures stuck.value + 1 < |moves| && HalfRestored(impacts, moves, stuck.value + 1, turns[|turns| - 1])
  {
    var k, i := stuck.value, |turns| - 1;
    RefusedWasMoved(impacts, moves, turns, k);
    TurnsRestore(impacts, moves, turns, i, k + 1);
  }

  // ----- the operations -----

  lemma RemovedThenRenamed(t: Tree, cleared: Tree, from: Path, to: Path, u: Tree)
    requires forall p :: At(cleared, p) == if Under(p, to) then None else At(t, p)
    requires Apart(from, to) && Renamed(cleared, from, to, u)
    ensures Renamed(t, from, to, u)
  {
    forall p ensures At(u, p) == MovedAt(t, from, to, p) {
      assert At(u, p) == MovedAt(cleared, from, to, p);
      if Under(p, to) {
        var source := from + p[|to|..];
        assert Under(source, from);
        NotUnderBoth(source, from, to);
      }
    }
  }

  /** One turn of the restore loop; `threw` when the rename was refused. */
  method RestoreOne(fs: FileSystem, impact: Impact) returns (threw: bool)
    requires Apart(impact.backup, impact.target)
    modifies fs
    ensures threw <==> Blocked(old(fs.tree), impact)
    ensures if threw then fs.tree == old(fs.tree) else RestoredOne(old(fs.tree), impact, fs.tree)
  {
    var before := fs.tree;
    if !Exists(before, impact.backup) {
      return false;
    }
    if Exists(before, impact.target) {
      fs.Remove(impact.target);
      NotUnderBoth(impact.backup, impact.backup, impact.target);
      assert At(fs.tree, impact.backup) == At(before, impact.backup);
      ghost var cleared := fs.tree;
      fs.Rename(impact.backup, impact.target);
      RemovedThenRenamed(before, cleared, impact.backup, impact.target, fs.tree);
      return false;
    }
    threw := before[impact.backup].Directory? && impact.target in before;
    if !threw {
      fs.Rename(impact.backup, impact.target);
    }
  }

  lemma MoreTurns(impacts: seq<Impact>, turns: seq<Tree>, next: Tree)
    requires Restores(impacts, turns) && Unblocked(impacts, turns) && |turns| <= |impacts|
    requires !Blocked(turns[|turns| - 1], impacts[|impacts| - |turns|])
    requires RestoredOne(turns[|turns| - 1], impacts[|impacts| - |turns|], next)
    ensures Restores(impacts, turns + [next]) && Unblocked(impacts, turns + [next])
  {
  }

  /** Moves every backup home, last impact first; a refused rename stops it. */
  method RestoreBackups(fs: FileSystem, impacts: seq<Impact>) returns (stuck: Option<nat>, ghost turns: seq<Tree>)
    requires BackupsApart(impacts)
    modifies fs
    ensures Restores(impacts, turns) && turns[0] == old(fs.tree) && turns[|turns| - 1] == fs.tree
    ensures Unblocked(impacts, turns)
    ensures stuck == None ==> |turns| == |impacts| + 1
    ensures stuck.Some? ==>
              stuck.value < |impacts| && |turns| == |impacts| - stuck.value && Blocked(fs.tree, impacts[stuck.value])
  {
    turns, stuck := [fs.tree], None;
    var k := |impacts|;
    while k > 0
      invariant 0 <= k <= |impacts| && |turns| == |impacts| - k + 1
      invariant Restores(impacts, turns) && turns[0] == old(fs.tree) && turns[|turns| - 1] == fs.tree
      invariant Unblocked(impacts, turns)
    {
      var threw := RestoreOne(fs, impacts[k - 1]);
      if threw {
        return Some(k - 1), turns;
      }
      MoreTurns(impacts, turns, fs.tree);
      k, turns := k - 1, turns + [fs.tree];
    }
  }

  /** Moves the targets to their backups in turn, up to the first rename that fails. */
  method MoveTargets(fs: FileSystem, impacts: seq<Impact>) returns (ok: bool, ghost moves: seq<Tree>)
    requires BackupsApart(impacts)
    modifies fs
    ensures Moves(impacts, moves) && moves[0] == old(fs.tree) && moves[|moves| - 1] == fs.tree
    ensures ok <==> |moves| == |impacts| + 1
  {
    moves, ok := [fs.tree], true;
    var i := 0;
    while i < |impacts| && ok
      invariant 0 <= i <= |impacts| && |moves| == i + 1
      invariant Moves(impacts, moves) && moves[0] == old(fs.tree) && moves[i] == fs.tree
      invariant !ok ==> i < |impacts|
      decreases |impacts| - i, ok
    {
      ok := fs.TryRename(impacts[i].target, impacts[i].backup);
      if ok {
        i, moves := i + 1, moves + [fs.tree];
      }
    }
  }

  datatype Outcome = Stale | Approved | Failed | Threw(index: nat)

  /** The tree that a restore after `moves` starts from, `changes` being what the Skill Set apply wrote. */
  ghost predicate RestoreStart(impacts: seq<Impact>, moves: seq<Tree>, changes: map<Path, Option<Node>>, start: Tree)
    requires 1 <= |moves| <= |impacts| + 1
  {
    if |moves| == |impacts| + 1 then Changed(moves[|impacts|], changes, start) else start == moves[|moves| - 1]
  }

  /** Every target as it was and no backup left; and nothing changed at all unless every package was moved. */
  ghost predicate AsBefore(impacts: seq<Impact>, moves: seq<Tree>, u: Tree)
    requires 1 <= |moves|
  {
    && (forall p | InTargets(impacts, |impacts|, p) :: At(u, p) == At(moves[0], p))
    && NoBackups(impacts, u)
    && (|moves| <= |impacts| ==> u == moves[0])
  }

  /** When a restore throws, and what it leaves when it does. */
  lemma HowRestoreEnds(impacts: seq<Impact>, moves: seq<Tree>, start: Tree, turns: seq<Tree>, stuck: Option<nat>)
    requires BackupsApart(impacts) && Moves(impacts, moves) && NoBackups(impacts, moves[0])
    requires Restores(impacts, turns) && turns[0] == start && BackupsKept(impacts, moves[|moves| - 1], start)
    requires Ended(impacts, turns, stuck)
    ensures start == moves[|moves| - 1] ==> stuck == None
    ensures LinksLeadAway(impacts, start) && TargetLinksLeadAway(impacts, start) ==>
              (stuck.Some? <==> exists k :: WillBlock(impacts, start, k))
    ensures stuck.Some? && NoLinks(impacts, moves[0]) ==>
              stuck.value + 1 < |moves| && HalfRestored(impacts, moves, stuck.value + 1, turns[|turns| - 1])
  {
    if start == moves[|moves| - 1] {
      StoppedMovesNeverThrow(impacts, moves, turns, stuck);
    }
    if LinksLeadAway(impacts, start) && TargetLinksLeadAway(impacts, start) {
      RestoreThrowsExactly(impacts, moves, turns, stuck);
    }
    if stuck.Some? && NoLinks(impacts, moves[0]) {
      PackagesKept(impacts, moves, start);
      ThrownHalfway(impacts, moves, turns, stuck);
    }
  }

  /** What a completed restore means for the tree as it was before the moves. */
  lemma AfterRestore(impacts: seq<Impact>, moves: seq<Tree>, changes: map<Path, Option<Node>>, start: Tree, turns: seq<Tree>)
    requires BackupsApart(impacts) && Moves(impacts, moves) && NoBackups(impacts, moves[0])
    requires RestoreStart(impacts, moves, changes, start) && BackupsKept(impacts, moves[|moves| - 1], start)
    requires Restores(impacts, turns) && |turns| == |impacts| + 1 && turns[0] == start
    ensures LinksLeadAway(impacts, start) ==>
              (Undone(impacts, moves, turns[|impacts|]) <==> AllKept(impacts, moves, start))
    ensures NoLinks(impacts, moves[0]) ==> AsBefore(impacts, moves, turns[|impacts|])
  {
    if LinksLeadAway(impacts, start) {
      RestoreUndoesMoves(impacts, moves, turns);
    }
    if NoLinks(impacts, moves[0]) {
      PackagesKept(impacts, moves, start);
      RestoreUndoesMoves(impacts, moves, turns);
      if |moves| <= |impacts| {
        StoppedMovesUndone(impacts, moves, turns);
      }
    }
  }

  lemma {:induction false} UnmovedStay(impacts: seq<Impact>, moves: seq<Tree>, turns: seq<Tree>, i: nat, p: Path)
    requires BackupsApart(impacts) && Moves(impacts, moves) && NoBackups(impacts, moves[0])
    requires Restores(impacts, turns) && LinksLeadAway(impacts, turns[0]) && i < |turns|
    requires BackupsKept(impacts, moves[|moves| - 1], turns[0])
    requires !InBackups(impacts, p) && !InTargets(impacts, |moves| - 1, p)
    ensures At(turns[i], p) == At(turns[0], p)
  {
    if i > 0 {
      UnmovedStay(impacts, moves, turns, i - 1, p);
      var k := |impacts| - (i - 1);
      assert RestoredOne(turns[i - 1], impacts[|impacts| - 1 - (i - 1)], turns[i - 1 + 1]);
      if k < |moves| {
        assert !InTargets(impacts, k, p);
        RestoringElsewhere(impacts, k, turns[i - 1], turns[i], p);
      } else {
        RestoringStarts(impacts, moves, turns[0]);
        BackupWaits(impacts, turns, i - 1, k - 1);
      }
    }
  }

  lemma StoppedMovesUndone(impacts: seq<Impact>, moves: seq<Tree>, turns: seq<Tree>)
    requires BackupsApart(impacts) && Moves(impacts, moves) && NoBackups(impacts, moves[0])
    requires Restores(impacts, turns) && |turns| == |impacts| + 1 && LinksLeadAway(impacts, turns[0])
    requires turns[0] == moves[|moves| - 1] && Undone(impacts, moves, turns[|impacts|])
    ensures turns[|impacts|] == moves[0]
  {
    var end := turns[|impacts|];
    forall p ensures At(end, p) == At(moves[0], p) {
      if !InBackups(impacts, p) && !InTargets(impacts, |moves| - 1, p) {
        UnmovedStay(impacts, moves, turns, |impacts|, p);
        MovesOnlyEmpty(impacts, moves, |moves| - 1, p);
      }
    }
    SameEverywhere(end, moves[0]);
  }

  /**
   How a failed approval ends, where the restore starts from `start` and leaves `u`: it restores
   exactly what its backups still show, or it throws, exactly when some directory package is to go
   where a link to nothing stands. A move that failed never makes it throw. Without links among
   the packages all of them are back, or those behind the refused one are and the others wait.
   */
  ghost predicate Recovered(impacts: seq<Impact>, moves: seq<Tree>, start: Tree, outcome: Outcome, u: Tree)
    requires 1 <= |moves| <= |impacts| + 1
  {
    && (outcome == Failed || outcome.Threw?)
    && (|moves| <= |impacts| ==> outcome == Failed)
    && (outcome.Threw? ==> outcome.index < |impacts| && Blocked(u, impacts[outcome.index]))
    && (LinksLeadAway(impacts, start) && TargetLinksLeadAway(impacts, start) ==>
          (outcome.Threw? <==> exists k :: WillBlock(impacts, start, k)))
    && (outcome == Failed && LinksLeadAway(impacts, start) ==> (Undone(impacts, moves, u) <==> AllKept(impacts, moves, start)))
    && (NoLinks(impacts, moves[0]) ==>
          if outcome.Threw?
          then outcome.index + 1 < |moves| && HalfRestored(impacts, moves, outcome.index + 1, u)
          else AsBefore(impacts, moves, u))
  }

  lemma StartKeepsBackups(impacts: seq<Impact>, moves: seq<Tree>, changes: map<Path, Option<Node>>, start: Tree)
    requires 1 <= |moves| <= |impacts| + 1 && RestoreStart(impacts, moves, changes, start)
    requires forall p | p in changes :: !InBackups(impacts, p)
    ensures BackupsKept(impacts, moves[|moves| - 1], start)
  {
  }

  /** The same of a rollback, which always restores after all the moves. */
  ghost predicate RolledBack(impacts: seq<Impact>, moves: seq<Tree>, start: Tree, stuck: Option<nat>, u: Tree)
    requires |moves| == |impacts| + 1
  {
    && (stuck.Some? ==> stuck.value < |impacts| && Blocked(u, impacts[stuck.value]))
    && (LinksLeadAway(impacts, start) && TargetLinksLeadAway(impacts, start) ==>
          (stuck.Some? <==> exists k :: WillBlock(impacts, start, k)))
    && (stuck == None && LinksLeadAway(impacts, start) ==> (Undone(impacts, moves, u) <==> AllKept(impacts, moves, start)))
    && (NoLinks(impacts, moves[0]) ==>
          if stuck.Some? then HalfRestored(impacts, moves, stuck.value + 1, u) else Undone(impacts, moves, u))
  }

  lemma RolledBackIs(impacts: seq<Impact>, moves: seq<Tree>, start: Tree, turns: seq<Tree>, stuck: Option<nat>)
    requires BackupsApart(impacts) && Moves(impacts, moves) && |moves| == |impacts| + 1 && NoBackups(impacts, moves[0])
    requires BackupsKept(impacts, moves[|impacts|], start)
    requires Restores(impacts, turns) && turns[0] == start && Ended(impacts, turns, stuck)
    ensures RolledBack(impacts, moves, start, stuck, turns[|turns| - 1])
  {
    HowRestoreEnds(impacts, moves, start, turns, stuck);
    if stuck == None {
      if NoLinks(impacts, moves[0]) {
        PackagesKept(impacts, moves, start);
      }
      if LinksLeadAway(impacts, start) {
        RestoreUndoesMoves(impacts, moves, turns);
      }
    }
  }

  lemma RecoveredThrew(impacts: seq<Impact>, moves: seq<Tree>, start: Tree, turns: seq<Tree>, k: nat)
    requires BackupsApart(impacts) && Moves(impacts, moves) && NoBackups(impacts, moves[0])
    requires BackupsKept(impacts, moves[|moves| - 1], start) && (|moves| <= |impacts| ==> start == moves[|moves| - 1])
    requires Restores(impacts, turns) && turns[0] == start && Ended(impacts, turns, Some(k))
    ensures Recovered(impacts, moves, start, Threw(k), turns[|turns| - 1])
  {
    HowRestoreEnds(impacts, moves, start, turns, Some(k));
  }

  lemma RecoveredFailed(impacts: seq<Impact>, moves: seq<Tree>, changes: map<Path, Option<Node>>, start: Tree, turns: seq<Tree>)
    requires BackupsApart(impacts) && Moves(impacts, moves) && NoBackups(impacts, moves[0])
    requires BackupsKept(impacts, moves[|moves| - 1], start) && RestoreStart(impacts, moves, changes, start)
    requires Restores(impacts, turns) && turns[0] == start && Ended(impacts, turns, None)
    ensures Recovered(impacts, moves, start, Failed, turns[|turns| - 1])
  {
    if LinksLeadAway(impacts, start) && TargetLinksLeadAway(impacts, start) {
      RestoreThrowsExactly(impacts, moves, turns, None);
    }
    AfterRestore(impacts, moves, changes, start, turns);
  }

  /** The failed approval moves the packages home. */
  method Recover(fs: FileSystem, impacts: seq<Impact>, ghost moves: seq<Tree>, ghost changes: map<Path, Option<Node>>)
    returns (outcome: Outcome)
    requires BackupsApart(impacts) && Moves(impacts, moves) && NoBackups(impacts, moves[0])
    requires RestoreStart(impacts, moves, changes, fs.tree) && BackupsKept(impacts, moves[|moves| - 1], fs.tree)
    modifies fs
    ensures SameAway(impacts, old(fs.tree), fs.tree)
    ensures Recovered(impacts, moves, old(fs.tree), outcome, fs.tree)
  {
    ghost var start := fs.tree;
    var stuck, turns := RestoreBackups(fs, impacts);
    TurnsStayHome(impacts, turns, |turns| - 1);
    if stuck.Some? {
      RecoveredThrew(impacts, moves, start, turns, stuck.value);
      return Threw(stuck.value);
    }
    RecoveredFailed(impacts, moves, changes, start, turns);
    return Failed;
  }

  /**
   Approving a reviewed replacement. `changes` is what the Skill Set apply writes, on the targets
   or anywhere else but the backups, and `applied` whether it succeeds; any rename may fail.
   */
  method Approve(fs: FileSystem, impacts: seq<Impact>, stale: bool, changes: map<Path, Option<Node>>, applied: bool)
    returns (outcome: Outcome, ghost moves: seq<Tree>, ghost start: Tree)
    requires |impacts| > 0 && BackupsApart(impacts) && NoBackups(impacts, fs.tree)
    requires forall p | p in changes :: !InBackups(impacts, p)
    modifies fs
    ensures Moves(impacts, moves) && moves[0] == old(fs.tree) && RestoreStart(impacts, moves, changes, start)
    ensures outcome == Stale <==> stale
    ensures stale ==> fs.tree == old(fs.tree)
    ensures outcome == Approved <==> !stale && |moves| == |impacts| + 1 && applied
    ensures outcome == Approved ==> fs.tree == start
    ensures SameAway(impacts, start, fs.tree)
    ensures outcome != Stale && outcome != Approved ==> Recovered(impacts, moves, start, outcome, fs.tree)
  {
    moves, start := [fs.tree], fs.tree;
    if stale {
      return Stale, moves, start;
    }
    var ok, trees := MoveTargets(fs, impacts);
    moves := trees;
    if ok {
      fs.Change(changes);
    }
    start := fs.tree;
    if ok && applied {
      return Approved, moves, start;
    }
    StartKeepsBackups(impacts, moves, changes, start);
    outcome := Recover(fs, impacts, moves, changes);
  }

  /**
   Rolling back an approved replacement: the Skill Set is rolled back, which writes `changes` or
   throws with nothing restored, and the backups move home. `moves` are those of the approval.
   */
  method Rollback(fs: FileSystem, impacts: seq<Impact>, changes: map<Path, Option<Node>>, removed: bool, ghost moves: seq<Tree>)
    returns (threw: bool, stuck: Option<nat>, ghost start: Tree)
    requires BackupsApart(impacts) && forall p | p in changes :: !InBackups(impacts, p)
    requires Moves(impacts, moves) && |moves| == |impacts| + 1 && NoBackups(impacts, moves[0])
    requires BackupsKept(impacts, moves[|impacts|], fs.tree)
    modifies fs
    ensures Changed(old(fs.tree), changes, start)
    ensures !removed ==> threw && fs.tree == start
    ensures removed ==> (threw <==> stuck.Some?) && RolledBack(impacts, moves, start, stuck, fs.tree)
  {
    fs.Change(changes);
    start := fs.tree;
    if !removed {
      return true, None, start;
    }
    ghost var turns;
    stuck, turns := RestoreBackups(fs, impacts);
    threw := stuck.Some?;
    RolledBackIs(impacts, moves, start, turns, stuck);
  }

  /**
   A package that is a link to nothing is moved away like any other, since it occupies its path,
   but the restore does not see it: both the failed approval and the rollback leave it in its backup.
   */
  lemma LinkToNothingStaysInBackup(target: Path, backup: Path, missing: Path)
    requires Apart(target, backup) && !Under(missing, target) && !Under(missing, backup)
    ensures
      var impacts := [Impact(target, backup)];
      var moves := [map[target := Link(Absolute(missing))], map[backup := Link(Absolute(missing))]];
      && BackupsApart(impacts) && Moves(impacts, moves) && NoBackups(impacts, moves[0])
      && Restores(impacts, [moves[1], moves[1]]) && LinksLeadAway(impacts, moves[1])
      && !Undone(impacts, moves, moves[1])
  {
    var impacts := [Impact(target, backup)];
    var moves := [map[target := Link(Absolute(missing))], map[backup := Link(Absolute(missing))]];
    NotUnderBoth(target, target, backup);
    NotUnderBoth(backup, backup, target);
    forall p ensures At(moves[1], p) == MovedAt(moves[0], target, backup, p) {
      if Under(p, backup) && p != backup {
        assert |target + p[|backup|..]| > |target|;
      } else if p == backup {
        assert target + p[|backup|..] == target;
      }
    }
    assert !ExistsWithin(moves[1], missing, MAX_LINKS - 1);
    assert !Exists(moves[1], backup);
    assert Under(backup, impacts[0].backup) && InBackups(impacts, backup);
    assert At(moves[1], backup).Some?;
    assert !InBackups(impacts, missing) && !InTargets(impacts, 1, missing);
    assert Away(impacts, moves[1], missing, MAX_LINKS - 1);
    forall p | InBackups(impacts, p) ensures At(moves[0], p) == None {
      NotUnderBoth(p, backup, target);
    }
  }

  lemma MovedBeside(target: Path, backup: Path, library: Path, node: Node)
    requires Apart(target, backup) && Apart(target, library) && Apart(library, backup) && !node.Directory?
    ensures
      var impacts := [Impact(target, backup)];
      var moves := [map[target := node, library := Directory], map[backup := node, library := Directory]];
      BackupsApart(impacts) && Moves(impacts, moves) && NoBackups(impacts, moves[0])
  {
    var impacts := [Impact(target, backup)];
    var moves := [map[target := node, library := Directory], map[backup := node, library := Directory]];
    NotUnderBoth(backup, backup, target);
    NotUnderBoth(library, library, target);
    forall p ensures At(moves[1], p) == MovedAt(moves[0], target, backup, p) {
      if Under(p, backup) {
        var rest := p[|backup|..];
        assert p == backup + rest && (rest == [] ==> target + rest == target);
        assert rest == [] <==> p == backup;
        BelowTarget(target, library, rest);
        NotUnderBoth(p, backup, library);
        assert MovedAt(moves[0], target, backup, p) == At(moves[0], target + rest);
      } else if Under(p, target) {
        assert p != library && p != backup;
      }
    }
    forall p | InBackups(impacts, p) ensures At(moves[0], p) == None {
      NotUnderBoth(p, backup, target);
      NotUnderBoth(p, backup, library);
    }
  }

  lemma BelowTarget(target: Path, library: Path, rest: Path)
    requires Apart(target, library)
    ensures target + rest != library && (target + rest == target ==> rest == [])
  {
    assert Under(target + rest, target);
    assert |target + rest| == |target| + |rest|;
  }

  lemma RelativeLinkLeads(directory: Path, name: string, other: string, backup: Path)
    requires name != other && backup != [] && Parent(backup) != directory && backup != Parent(backup) + [other]
    requires Apart(directory + [name], backup)
    ensures
      var target, library, link := directory + [name], directory + [other], Link(Relative(0, [other]));
      && Apart(target, library)
      && Exists(map[target := link, library := Directory], target)
      && !Exists(map[backup := link, library := Directory], backup)
  {
    var target, library, link := directory + [name], directory + [other], Link(Relative(0, [other]));
    var missing := Parent(backup) + [other];
    var before, after := map[target := link, library := Directory], map[backup := link, library := Directory];
    assert target[|directory|] != library[|directory|];
    assert Parent(target) == directory && Parent(library) == directory && Parent(missing) == Parent(backup);
    assert Resolve(target, link.destination) == library && Resolve(backup, link.destination) == missing;
    assert ExistsWithin(before, library, MAX_LINKS - 1);
    assert missing !in after && !ExistsWithin(after, missing, MAX_LINKS - 1);
  }

  lemma LinkLeftBehind(target: Path, backup: Path, before: Tree, after: Tree)
    requires backup in after && !Exists(after, backup)
    requires after[backup].Link?
    requires
      var missing := Resolve(backup, after[backup].destination);
      missing !in after && !Under(missing, target) && !Under(missing, backup)
    ensures
      var impacts := [Impact(target, backup)];
      && Restores(impacts, [after, after]) && LinksLeadAway(impacts, after)
      && !Undone(impacts, [before, after], after)
  {
    var impacts := [Impact(target, backup)];
    var missing := Resolve(backup, after[backup].destination);
    assert Under(backup, impacts[0].backup) && InBackups(impacts, backup) && At(after, backup).Some?;
    assert Away(impacts, after, missing, MAX_LINKS - 1);
  }

  /**
   A relative link that works where the package belongs leads nowhere from the backup, and is left
   behind in the same way.
   */
  lemma RelativeLinkStaysInBackup(directory: Path, name: string, other: string, backup: Path)
    requires name != other && Apart(directory + [name], backup) && Apart(directory + [other], backup)
    requires backup != [] && Parent(backup) != directory && backup != Parent(backup) + [other]
    requires !Under(Parent(backup) + [other], directory + [name])
    ensures
      var target, library, link := directory + [name], directory + [other], Link(Relative(0, [other]));
      var impacts := [Impact(target, backup)];
      var moves := [map[target := link, library := Directory], map[backup := link, library := Directory]];
      && BackupsApart(impacts) && Moves(impacts, moves) && NoBackups(impacts, moves[0])
      && Exists(moves[0], target) && !Exists(moves[1], backup)
      && Restores(impacts, [moves[1], moves[1]]) && LinksLeadAway(impacts, moves[1])
      && !Undone(impacts, moves, moves[1])
  {
    var target, library, link := directory + [name], directory + [other], Link(Relative(0, [other]));
    var before, after := map[target := link, library := Directory], map[backup := link, library := Directory];
    var missing := Parent(backup) + [other];
    RelativeLinkLeads(directory, name, other, backup);
    MovedBeside(target, backup, library, link);
    assert |missing| == |backup| && Resolve(backup, link.destination) == missing;
    assert Parent(missing) == Parent(backup) && Parent(library) == directory;
    LinkLeftBehind(target, backup, before, after);
  }

  /** The apply leaves a link to nothing on the target of a directory package and fails: the restore throws. */
  lemma LinkToNothingBlocksRestore(target: Path, backup: Path, missing: Path)
    requires Apart(target, backup) && !Under(missing, target) && !Under(missing, backup)
    ensures
      var impacts := [Impact(target, backup)];
      var moves := [map[target := Directory], map[backup := Directory]];
      var start := map[backup := Directory, target := Link(Absolute(missing))];
      && BackupsApart(impacts) && Moves(impacts, moves) && NoBackups(impacts, moves[0]) && NoLinks(impacts, moves[0])
      && RestoreStart(impacts, moves, map[target := Some(Link(Absolute(missing)))], start)
      && WillBlock(impacts, start, 0) && Blocked(start, impacts[0])
  {
    var impacts := [Impact(target, backup)];
    var moves := [map[target := Directory], map[backup := Directory]];
    var start := map[backup := Directory, target := Link(Absolute(missing))];
    NotUnderBoth(target, target, backup);
    NotUnderBoth(backup, backup, target);
    forall p ensures At(moves[1], p) == MovedAt(moves[0], target, backup, p) {
      if Under(p, backup) && p != backup {
        assert |target + p[|backup|..]| > |target|;
      } else if p == backup {
        assert target + p[|backup|..] == target;
      }
    }
    assert !ExistsWithin(start, missing, MAX_LINKS - 1);
    forall p | InBackups(impacts, p) ensures At(moves[0], p) == None {
      NotUnderBoth(p, backup, target);
    }
  }
}
