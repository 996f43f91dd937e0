/**
 Consolidation of installed skills: every reviewed installation is archived and, where it was
 project-local, replaced by a link to the library; a failure undoes what was recorded so far.
 */
module Consolidation {
  import opened Wrappers
  import FileTree

  /** A place that holds one whole package, one link, or nothing. */
  datatype Place = Installed(path: string) | Archive(id: string) | Library(hash: string)

  /** A relative link leads to a place that depends on where the link stands, or to none. */
  datatype Destination = Absolute(place: Place) | Relative(way: map<Place, Place>)

  datatype Entry = Package(content: string) | Link(destination: Destination)

  type Entries = map<Place, Entry>

  datatype Status = Preparing | Quarantined | Restoring | Restored

  datatype Record = Record(status: Status, original: Place, hash: Option<string>)

  type Records = map<string, Record>

  datatype Action = ReplaceWithLink | ArchiveCopy

  /** A reviewed installation; `archive` is the destination shown in the review. */
  datatype Target = Target(action: Action, package: Place, id: string, hash: string, archive: Place)

  /** What goes wrong, if anything, while one target is being consolidated. */
  datatype Fault =
    | Fine
    | CheckRefused(damaged: bool)
    | MoveFails
    | FinalRecordFails(damaged: bool)
    | LinkFails

  datatype Outcome = Stale | Approved | Failed

  /** How a turn of the apply loop ends. */
  datatype Step = StepDone | StepUnlinked | StepStranded | StepRefused | StepMoveRefused

  datatype QuarantineResult = Refused | MoveRefused | Stranded | Archived

  function At(e: Entries, p: Place): Option<Entry> {
    if p in e then Some(e[p]) else None
  }

  /** Where a link that stands at `p` leads. */
  function LeadsTo(p: Place, destination: Destination): Option<Place> {
    match destination
    case Absolute(place) => Some(place)
    case Relative(way) => if p in way then Some(way[p]) else None
  }

  /** The content found at a place, through links; it stands for the package's hash. */
  function ContentWithin(e: Entries, p: Place, links: nat): Option<string>
    decreases links, |e|
  {
    match At(e, p)
    case None => None
    case Some(Package(content)) => Some(content)
    case Some(Link(destination)) =>
      var next := LeadsTo(p, destination);
      if links == 0 || next == None then None else ContentWithin(e, next.value, links - 1)
  }

  function Content(e: Entries, p: Place): Option<string> {
    ContentWithin(e, p, FileTree.MAX_LINKS)
  }

  function MovedEntry(e: Entries, from: Place, to: Place): Entries {
    if from in e then (e - {from})[to := e[from]] else e
  }

  /** The same but for the library. */
  ghost predicate SameOutsideLibrary(e: Entries, f: Entries) {
    forall p: Place | !p.Library? :: At(f, p) == At(e, p)
  }

  ghost predicate SameLibrary(e: Entries, f: Entries) {
    forall p: Place | p.Library? :: At(f, p) == At(e, p)
  }

  /** A link that, standing at `p`, leads to this place. */
  ghost predicate StandsFor(entry: Option<Entry>, p: Place, place: Place) {
    match entry
    case Some(Link(Absolute(to))) => to == place
    case Some(Link(Relative(way))) => p in way && way[p] == place
    case _ => false
  }

  predicate LinkMatches(e: Entries, p: Place, library: Place) {
    p in e && e[p].Link? && LeadsTo(p, e[p].destination) == Some(library)
  }

  ghost predicate Distinct(targets: seq<Target>) {
    && (forall i, j | 0 <= i < |targets| && 0 <= j < |targets| && i != j ::
          targets[i].package != targets[j].package && targets[i].id != targets[j].id)
    && (forall i | 0 <= i < |targets| :: targets[i].package.Installed?)
  }

  ghost predicate IsPackage(targets: seq<Target>, n: nat, p: Place)
    requires n <= |targets|
  {
    exists j :: 0 <= j < n && targets[j].package == p
  }

  ghost predicate IsArchive(targets: seq<Target>, n: nat, p: Place)
    requires n <= |targets|
  {
    exists j :: 0 <= j < n && Archive(targets[j].id) == p
  }

  // ----- archiving -----

  /** A record left by an interrupted archival of `package`; its id is used again. */
  predicate Leftover(r: Record, package: Place) {
    r.status == Preparing && r.original == package
  }

  predicate HasLeftover(records: Records, package: Place) {
    exists id :: id in records && Leftover(records[id], package)
  }

  /** The first leftover record of `package`, in the order in which the directory lists the ids. */
  function FirstLeftover(listing: seq<string>, records: Records, package: Place): Option<string> {
    if listing == [] then None
    else if listing[0] in records && Leftover(records[listing[0]], package) then Some(listing[0])
    else FirstLeftover(listing[1..], records, package)
  }

  /** The id under which a target is archived. */
  function TakenId(listing: seq<string>, records: Records, target: Target): string {
    var leftover := FirstLeftover(listing, records, target.package);
    if leftover.Some? then leftover.value else target.id
  }

  /** The directory lists every record that an archival might use again. */
  ghost predicate Lists(listing: seq<string>, records: Records, package: Place) {
    forall id | id in records && Leftover(records[id], package) :: id in listing
  }

  /** An id under which a target may be archived: a leftover record's, or else its own. */
  predicate Takes(records: Records, target: Target, id: string) {
    if HasLeftover(records, target.package) then id in records && Leftover(records[id], target.package) else id == target.id
  }

  function Taken(records: Records, target: Target, id: string): Record {
    if id in records && Leftover(records[id], target.package)
      then records[id]
      else Record(Preparing, target.package, Some(target.hash))
  }

  /** A package moves to an archive that is empty; besides, a link replaces a link. */
  predicate Fits(e: Entries, package: Place, id: string) {
    Archive(id) !in e || (package in e && e[package].Link? && e[Archive(id)].Link?)
  }

  /** An earlier archival of the package was interrupted under this id. */
  ghost predicate Interrupted(records: Records, package: Place, id: string) {
    id in records && records[id].status == Preparing && records[id].original == package
  }

  /** The package is in the archive and nowhere else, and nothing else changed. */
  ghost predicate MovedTo(e: Entries, package: Place, id: string, f: Entries) {
    && At(f, package) == None && At(f, Archive(id)) == At(e, package)
    && forall p | p != package && p != Archive(id) :: At(f, p) == At(e, p)
  }

  lemma MovedEntryIs(e: Entries, package: Place, id: string)
    requires package in e && package.Installed?
    ensures MovedTo(e, package, id, MovedEntry(e, package, Archive(id)))
    ensures SameLibrary(e, MovedEntry(e, package, Archive(id)))
  {
  }

  lemma LinkedBesideLibrary(e: Entries, f: Entries, package: Place, link: Entry)
    requires SameLibrary(e, f) && package.Installed?
    ensures SameLibrary(e, f[package := link])
  {
  }

  /** The archive holds something that a move of the package would not replace. */
  ghost predicate Occupied(e: Entries, package: Place, id: string) {
    Archive(id) in e && !(package in e && e[package].Link? && e[Archive(id)].Link?)
  }

  /** The records after an archival; a record is destroyed by a failed write, and removed when the package could not be moved. */
  function RecordsAfter(records: Records, target: Target, id: string, fault: Fault, result: QuarantineResult): Records {
    var record := Taken(records, target, id);
    match result
    case Refused => if fault.CheckRefused? && fault.damaged then records - {id} else records
    case MoveRefused => records - {id}
    case Stranded => if fault.FinalRecordFails? && fault.damaged then records - {id} else records[id := record]
    case Archived => records[id := record.(status := Quarantined)]
  }

  /** The entries after an archival; where a move was refused the archive's whole directory is removed. */
  function EntriesAfter(e: Entries, target: Target, id: string, result: QuarantineResult): Entries {
    match result
    case Refused => e
    case MoveRefused => e - {Archive(id)}
    case _ => MovedEntry(e, target.package, Archive(id))
  }

  /** Only the record of this archival may have changed. */
  ghost predicate OthersKept(records: Records, target: Target, written: Records) {
    && (forall id | id in written && id != target.id :: id in records)
    && (forall id | id in records && id != target.id && !Leftover(records[id], target.package) ::
          id in written && written[id] == records[id])
  }

  /** As review prepares them: each package once, and ids that nothing uses yet. */
  ghost predicate Reviewed(targets: seq<Target>, listing: seq<string>, e: Entries, records: Records) {
    && Distinct(targets)
    && (forall i | 0 <= i < |targets| ::
          targets[i].id !in records && Archive(targets[i].id) !in e && Lists(listing, records, targets[i].package))
  }

  /** There was something to archive and, unless it was a link, it had the reviewed content. */
  ghost predicate Reviewable(target: Target, before: Entries) {
    && target.package in before
    && (before[target.package].Package? ==> before[target.package].content == target.hash)
  }

  // ----- moving home -----

  /** An archived link is taken as it is; an archived package must have the recorded content. */
  predicate Intact(e: Entries, id: string, record: Record) {
    match At(e, Archive(id))
    case Some(Package(content)) => record.hash == None || record.hash == Some(content)
    case _ => true
  }

  predicate AlreadyHome(e: Entries, id: string, record: Record) {
    record.status == Restored || (record.original in e && Archive(id) !in e)
  }

  predicate Restorable(e: Entries, id: string, record: Record) {
    && record.status != Restored
    && record.original !in e
    && Archive(id) in e
    && (e[Archive(id)].Package? ==> record.hash == None || record.hash == Some(e[Archive(id)].content))
  }

  /**
   Of the first `n` targets, those below `k` are still archived and the others are home. A target
   that was archived under the id of a leftover record has no record of its own.
   */
  ghost predicate Parked(targets: seq<Target>, before: Entries, n: nat, k: nat, e: Entries, records: Records)
    requires n <= |targets|
  {
    && k <= n
    && (forall j | 0 <= j < n :: At(e, targets[j].package) == if j < k then None else At(before, targets[j].package))
    && (forall j | 0 <= j < k && targets[j].id in records ::
          && records[targets[j].id] == Record(Quarantined, targets[j].package, Some(targets[j].hash))
          && At(e, Archive(targets[j].id)) == At(before, targets[j].package)
          && Reviewable(targets[j], before))
    && (forall j | k <= j < n :: At(e, Archive(targets[j].id)) == None)
  }

  ghost predicate SameBeside(targets: seq<Target>, n: nat, e: Entries, f: Entries)
    requires n <= |targets|
  {
    forall p | !IsPackage(targets, n, p) && !IsArchive(targets, n, p) :: At(f, p) == At(e, p)
  }

  lemma RestoresParked(targets: seq<Target>, before: Entries, n: nat, k: nat, e: Entries, records: Records, f: Entries, written: Records)
    requires Distinct(targets) && 0 < k <= n <= |targets| && Parked(targets, before, n, k, e, records)
    requires targets[k - 1].id in records
    requires f == MovedEntry(e, Archive(targets[k - 1].id), targets[k - 1].package)
    requires written == records[targets[k - 1].id := records[targets[k - 1].id].(status := Restored)]
    ensures Parked(targets, before, n, k - 1, f, written)
  {
  }

  // ----- the apply loop -----

  /** Nothing was archived under the id of a leftover record. */
  ghost predicate NoneAdopted(targets: seq<Target>, known: Records, n: nat)
    requires n <= |targets|
  {
    forall j | 0 <= j < n :: !HasLeftover(known, targets[j].package)
  }

  ghost predicate OutsideSame(targets: seq<Target>, n: nat, e: Entries, f: Entries)
    requires n <= |targets|
  {
    forall p: Place | !p.Library? && !IsPackage(targets, n, p) && !IsArchive(targets, n, p) :: At(f, p) == At(e, p)
  }

  /** The state in which the first `n` targets are archived and those in `linked` replaced by links. */
  ghost predicate Progress(
    targets: seq<Target>, before: Entries, known: Records, library: Place, n: nat, linked: seq<Place>, e: Entries, records: Records)
    requires n <= |targets|
  {
    && (forall p | p in linked :: IsPackage(targets, n, p))
    && (forall j | 0 <= j < n :: At(e, targets[j].package) == if targets[j].package in linked then Some(Link(Absolute(library))) else None)
    && (forall j | 0 <= j < n :: Reviewable(targets[j], before))
    && (forall j | 0 <= j < n && HasLeftover(known, targets[j].package) :: targets[j].id !in records)
    && (forall j | 0 <= j < n && !HasLeftover(known, targets[j].package) ::
          && targets[j].id in records
          && records[targets[j].id] == Record(Quarantined, targets[j].package, Some(targets[j].hash))
          && At(e, Archive(targets[j].id)) == At(before, targets[j].package))
  }

  ghost predicate Agree(records: Records, known: Records, package: Place) {
    forall id :: (id in records && Leftover(records[id], package)) <==> (id in known && Leftover(known[id], package))
  }

  /** The targets from `i` on are as they were before the apply, with the archives that they may use. */
  ghost predicate Ahead(targets: seq<Target>, before: Entries, known: Records, i: nat, e: Entries, records: Records)
    requires i <= |targets|
  {
    forall j | i <= j < |targets| ::
      && At(e, targets[j].package) == At(before, targets[j].package)
      && targets[j].id !in records && targets[j].id !in known
      && Archive(targets[j].id) !in before && Archive(targets[j].id) !in e
      && Agree(records, known, targets[j].package)
      && (forall id | id in known && Leftover(known[id], targets[j].package) :: At(e, Archive(id)) == At(before, Archive(id)))
  }

  /** Exactly the packages to be replaced by links are. */
  ghost predicate LinkedAsReviewed(targets: seq<Target>, n: nat, linked: seq<Place>)
    requires n <= |targets|
  {
    forall j | 0 <= j < n :: targets[j].package in linked <==> targets[j].action == ReplaceWithLink
  }

  /**
   A target that takes the id of a leftover record whose archive is occupied, and whose move is
   refused, costs that archive: it is removed together with the record.
   */
  ghost predicate Destroys(listing: seq<string>, targets: seq<Target>, before: Entries, known: Records, step: Step, n: nat) {
    step == StepMoveRefused && n < |targets| && Archive(TakenId(listing, known, targets[n])) in before
  }

  /** The apply loop after `n` targets were recorded for the undo and the last turn ended in `step`. */
  ghost predicate ApplyState(
    listing: seq<string>, targets: seq<Target>, before: Entries, known: Records, library: Place, step: Step, n: nat,
    linked: seq<Place>, e: Entries, records: Records)
  {
    && n <= |targets|
    && Progress(targets, before, known, library, n, linked, e, records)
    && (step != StepStranded && !Destroys(listing, targets, before, known, step, n) && NoneAdopted(targets, known, n) ==>
          OutsideSame(targets, n, before, e))
    && (step == StepStranded ==> n < |targets| && targets[n].package in before && At(e, targets[n].package) == None)
    && (step == StepMoveRefused ==> n < |targets| && At(e, Archive(TakenId(listing, known, targets[n]))) == None)
    && (step == StepDone ==> Ahead(targets, before, known, n, e, records) && LinkedAsReviewed(targets, n, linked))
  }

  predicate Pushes(step: Step) {
    step == StepDone || step == StepUnlinked
  }

  /** No fault that stops the apply loop once the content check has passed. */
  predicate Goes(target: Target, fault: Fault) {
    fault.Fine? || (fault.LinkFails? && target.action == ArchiveCopy)
  }

  /** The first `n` targets went through: none had a fault, and each archive was free. */
  ghost predicate AllGo(listing: seq<string>, targets: seq<Target>, before: Entries, known: Records, faults: seq<Fault>, n: nat)
    requires |faults| == |targets|
  {
    forall j | 0 <= j < n && j < |targets| ::
      Goes(targets[j], faults[j]) && Fits(before, targets[j].package, TakenId(listing, known, targets[j]))
  }

  /** Why the apply loop stopped after `n` recorded targets. */
  ghost predicate Stopped(
    listing: seq<string>, targets: seq<Target>, before: Entries, known: Records, faults: seq<Fault>, n: nat, step: Step)
    requires |faults| == |targets|
  {
    && AllGo(listing, targets, before, known, faults, if step == StepUnlinked && n > 0 then n - 1 else n)
    && match step
       case StepDone => false
       case StepUnlinked => 0 < n <= |targets| && targets[n - 1].action == ReplaceWithLink && faults[n - 1].LinkFails?
       case StepStranded => n < |targets| && faults[n].FinalRecordFails?
       case StepRefused =>
         n < |targets| && (faults[n].CheckRefused? || At(before, targets[n].package) != Some(Package(targets[n].hash)))
       case StepMoveRefused =>
         n < |targets| && (faults[n].MoveFails? || !Fits(before, targets[n].package, TakenId(listing, known, targets[n])))
  }

  /** Every reviewed archive destination holds the reviewed content. */
  ghost predicate Verified(targets: seq<Target>, e: Entries) {
    forall j | 0 <= j < |targets| :: Content(e, targets[j].archive) == Some(targets[j].hash)
  }

  function FirstIds(targets: seq<Target>, n: nat): seq<string>
    requires n <= |targets|
  {
    if n == 0 then [] else FirstIds(targets, n - 1) + [targets[n - 1].id]
  }

  lemma {:induction false} FirstIdsAre(targets: seq<Target>, n: nat)
    requires n <= |targets|
    ensures |FirstIds(targets, n)| == n && forall j | 0 <= j < n :: FirstIds(targets, n)[j] == targets[j].id
  {
    if n > 0 {
      FirstIdsAre(targets, n - 1);
    }
  }

  lemma {:induction false} FirstLeftoverIs(listing: seq<string>, records: Records, package: Place)
    ensures FirstLeftover(listing, records, package).Some? ==>
              var id := FirstLeftover(listing, records, package).value;
              && id in records && Leftover(records[id], package)
              && exists i :: 0 <= i < |listing| && listing[i] == id
                   && forall j | 0 <= j < i :: !(listing[j] in records && Leftover(records[listing[j]], package))
    ensures FirstLeftover(listing, records, package) == None ==>
              forall id | id in listing :: !(id in records && Leftover(records[id], package))
  {
    if listing != [] {
      FirstLeftoverIs(listing[1..], records, package);
      if !(listing[0] in records && Leftover(records[listing[0]], package)) && FirstLeftover(listing, records, package).Some? {
        var id := FirstLeftover(listing, records, package).value;
        var i :| 0 <= i < |listing[1..]| && listing[1..][i] == id
          && forall j | 0 <= j < i :: !(listing[1..][j] in records && Leftover(records[listing[1..][j]], package));
        assert listing[i + 1] == id;
        assert forall j | 0 < j < i + 1 :: listing[j] == listing[1..][j - 1];
      }
    }
  }

  lemma TakenIdTakes(listing: seq<string>, records: Records, target: Target)
    requires Lists(listing, records, target.package)
    ensures Takes(records, target, TakenId(listing, records, target))
  {
    FirstLeftoverIs(listing, records, target.package);
  }

  lemma {:induction false} FirstLeftoverSame(listing: seq<string>, records: Records, known: Records, package: Place)
    requires Agree(records, known, package)
    ensures FirstLeftover(listing, records, package) == FirstLeftover(listing, known, package)
  {
    if listing != [] {
      FirstLeftoverSame(listing[1..], records, known, package);
    }
  }

  /** The archive that a target takes, when its turn comes, is the one it would have taken at the start. */
  lemma Turn(
    listing: seq<string>, targets: seq<Target>, before: Entries, known: Records, i: nat, e: Entries, records: Records, id: string)
    requires i < |targets| && Ahead(targets, before, known, i, e, records) && Lists(listing, known, targets[i].package)
    requires id == TakenId(listing, known, targets[i])
    ensures Lists(listing, records, targets[i].package) && TakenId(listing, records, targets[i]) == id
    ensures Takes(records, targets[i], id)
    ensures At(e, Archive(id)) == At(before, Archive(id))
    ensures At(e, targets[i].package) == At(before, targets[i].package)
    ensures Fits(e, targets[i].package, id) == Fits(before, targets[i].package, id)
  {
    assert Agree(records, known, targets[i].package);
    FirstLeftoverSame(listing, records, known, targets[i].package);
    TakenIdTakes(listing, records, targets[i]);
    FirstLeftoverIs(listing, known, targets[i].package);
  }

  lemma RefusedProgress(
    targets: seq<Target>, before: Entries, known: Records, library: Place, i: nat, linked: seq<Place>,
    e: Entries, records: Records, written: Records)
    requires Distinct(targets) && i < |targets|
    requires Progress(targets, before, known, library, i, linked, e, records)
    requires OthersKept(records, targets[i], written)
    ensures Progress(targets, before, known, library, i, linked, e, written)
  {
  }

  lemma OnlyOwnRecord(records: Records, target: Target, id: string, fault: Fault, result: QuarantineResult)
    requires Takes(records, target, id)
    ensures OthersKept(records, target, RecordsAfter(records, target, id, fault, result))
  {
  }

  /** The id taken for one target is no other target's. */
  lemma TakenIdApart(
    targets: seq<Target>, before: Entries, known: Records, library: Place, i: nat, linked: seq<Place>,
    e: Entries, records: Records, id: string, j: nat)
    requires Distinct(targets) && i < |targets| && j < |targets| && j != i
    requires Progress(targets, before, known, library, i, linked, e, records)
    requires Ahead(targets, before, known, i, e, records)
    requires Takes(records, targets[i], id)
    ensures id != targets[j].id
  {
  }

  lemma MovedProgress(
    targets: seq<Target>, before: Entries, known: Records, library: Place, i: nat, linked: seq<Place>,
    e: Entries, records: Records, id: string, f: Entries)
    requires Distinct(targets) && i < |targets|
    requires Progress(targets, before, known, library, i, linked, e, records)
    requires Ahead(targets, before, known, i, e, records)
    requires Takes(records, targets[i], id)
    requires targets[i].package in e && f == MovedEntry(e, targets[i].package, Archive(id))
    ensures Progress(targets, before, known, library, i, linked, f, records)
    ensures At(f, targets[i].package) == None && At(f, Archive(id)) == At(before, targets[i].package)
    ensures forall j | i < j < |targets| :: At(f, targets[j].package) == At(before, targets[j].package)
  {
    forall j | 0 <= j < |targets| && j != i ensures id != targets[j].id {
      TakenIdApart(targets, before, known, library, i, linked, e, records, id, j);
    }
  }

  lemma RecordedProgress(
    targets: seq<Target>, before: Entries, known: Records, library: Place, i: nat, linked: seq<Place>,
    e: Entries, f: Entries, records: Records, id: string, written: Records)
    requires Distinct(targets) && i < |targets|
    requires Progress(targets, before, known, library, i, linked, e, records)
    requires Progress(targets, before, known, library, i, linked, f, records)
    requires Ahead(targets, before, known, i, e, records)
    requires Takes(records, targets[i], id) && Reviewable(targets[i], before)
    requires At(f, targets[i].package) == None && At(f, Archive(id)) == At(before, targets[i].package)
    requires written == records[id := Taken(records, targets[i], id).(status := Quarantined)]
    ensures Progress(targets, before, known, library, i + 1, linked, f, written)
  {
    forall j | 0 <= j < |targets| && j != i ensures id != targets[j].id {
      TakenIdApart(targets, before, known, library, i, linked, e, records, id, j);
    }
    assert HasLeftover(known, targets[i].package) <==> HasLeftover(records, targets[i].package);
    assert !IsPackage(targets, i, targets[i].package);
  }

  lemma RecordedAhead(
    targets: seq<Target>, before: Entries, known: Records, library: Place, i: nat, linked: seq<Place>,
    e: Entries, records: Records, id: string, f: Entries, written: Records)
    requires Distinct(targets) && i < |targets|
    requires Progress(targets, before, known, library, i, linked, e, records)
    requires Ahead(targets, before, known, i, e, records)
    requires Takes(records, targets[i], id)
    requires f == MovedEntry(e, targets[i].package, Archive(id))
    requires written == records[id := Taken(records, targets[i], id).(status := Quarantined)]
    ensures Ahead(targets, before, known, i + 1, f, written)
  {
    forall j | i < j < |targets|
      ensures targets[j].id !in written && Archive(targets[j].id) !in f
      ensures At(f, targets[j].package) == At(before, targets[j].package)
      ensures Agree(written, known, targets[j].package)
      ensures forall other | other in known && Leftover(known[other], targets[j].package) :: At(f, Archive(other)) == At(before, Archive(other))
    {
      TakenIdApart(targets, before, known, library, i, linked, e, records, id, j);
      assert Agree(records, known, targets[i].package) && Agree(records, known, targets[j].package);
      forall other ensures (other in written && Leftover(written[other], targets[j].package)) <==> (other in known && Leftover(known[other], targets[j].package)) {
        assert other != id ==> (other in written <==> other in records);
      }
    }
  }

  lemma ArchivedProgress(
    targets: seq<Target>, before: Entries, known: Records, library: Place, i: nat, linked: seq<Place>,
    e: Entries, records: Records, id: string, f: Entries, written: Records)
    requires Distinct(targets) && i < |targets|
    requires Progress(targets, before, known, library, i, linked, e, records)
    requires Ahead(targets, before, known, i, e, records)
    requires targets[i].package in e && Content(e, targets[i].package) == Some(targets[i].hash)
    requires Takes(records, targets[i], id)
    requires f == MovedEntry(e, targets[i].package, Archive(id))
    requires written == records[id := Taken(records, targets[i], id).(status := Quarantined)]
    ensures Progress(targets, before, known, library, i + 1, linked, f, written)
    ensures Ahead(targets, before, known, i + 1, f, written)
    ensures NoneAdopted(targets, known, i + 1) && OutsideSame(targets, i, before, e) ==> OutsideSame(targets, i + 1, before, f)
  {
    assert At(e, targets[i].package) == At(before, targets[i].package);
    MovedProgress(targets, before, known, library, i, linked, e, records, id, f);
    RecordedProgress(targets, before, known, library, i, linked, e, f, records, id, written);
    RecordedAhead(targets, before, known, library, i, linked, e, records, id, f, written);
    if NoneAdopted(targets, known, i + 1) && OutsideSame(targets, i, before, e) {
      assert !HasLeftover(known, targets[i].package) && !HasLeftover(records, targets[i].package);
      forall p: Place | !p.Library? && !IsPackage(targets, i + 1, p) && !IsArchive(targets, i + 1, p) ensures At(f, p) == At(before, p) {
        assert targets[i].package != p && Archive(targets[i].id) != p;
        assert !IsPackage(targets, i, p) && !IsArchive(targets, i, p);
      }
    }
  }

  lemma LinkedProgress(
    targets: seq<Target>, before: Entries, known: Records, library: Place, i: nat, linked: seq<Place>, e: Entries, records: Records)
    requires Distinct(targets) && i < |targets|
    requires Progress(targets, before, known, library, i + 1, linked, e, records)
    ensures Progress(targets, before, known, library, i + 1, linked + [targets[i].package], e[targets[i].package := Link(Absolute(library))], records)
  {
    assert IsPackage(targets, i + 1, targets[i].package);
  }

  lemma LinkedAhead(targets: seq<Target>, before: Entries, known: Records, i: nat, e: Entries, records: Records, library: Place)
    requires Distinct(targets) && i < |targets| && Ahead(targets, before, known, i + 1, e, records)
    ensures Ahead(targets, before, known, i + 1, e[targets[i].package := Link(Absolute(library))], records)
    ensures NoneAdopted(targets, known, i + 1) && OutsideSame(targets, i + 1, before, e) ==>
              OutsideSame(targets, i + 1, before, e[targets[i].package := Link(Absolute(library))])
  {
    assert IsPackage(targets, i + 1, targets[i].package);
  }

  lemma RefusedState(
    listing: seq<string>, targets: seq<Target>, before: Entries, known: Records, library: Place, i: nat, linked: seq<Place>,
    e: Entries, records: Records, id: string, fault: Fault, written: Records)
    requires Distinct(targets) && i < |targets| && Takes(records, targets[i], id)
    requires ApplyState(listing, targets, before, known, library, StepDone, i, linked, e, records)
    requires written == records || written == RecordsAfter(records, targets[i], id, fault, Refused)
    ensures ApplyState(listing, targets, before, known, library, StepRefused, i, linked, e, written)
  {
    OnlyOwnRecord(records, targets[i], id, fault, Refused);
    RefusedProgress(targets, before, known, library, i, linked, e, records, written);
  }

  /** A refused move takes what was in the archive with it. */
  lemma MoveRefusedState(
    listing: seq<string>, targets: seq<Target>, before: Entries, known: Records, library: Place, i: nat, linked: seq<Place>,
    e: Entries, records: Records, id: string, fault: Fault, f: Entries, written: Records)
    requires Distinct(targets) && i < |targets| && Lists(listing, known, targets[i].package)
    requires id == TakenId(listing, known, targets[i])
    requires ApplyState(listing, targets, before, known, library, StepDone, i, linked, e, records)
    requires f == EntriesAfter(e, targets[i], id, MoveRefused)
    requires written == RecordsAfter(records, targets[i], id, fault, MoveRefused)
    ensures ApplyState(listing, targets, before, known, library, StepMoveRefused, i, linked, f, written)
  {
    Turn(listing, targets, before, known, i, e, records, id);
    OnlyOwnRecord(records, targets[i], id, fault, MoveRefused);
    RefusedProgress(targets, before, known, library, i, linked, e, records, written);
    ArchiveRemoved(targets, before, known, library, i, linked, e, records, id, written);
    if Archive(id) !in e {
      assert f == e;
    }
  }

  lemma ArchiveRemoved(
    targets: seq<Target>, before: Entries, known: Records, library: Place, i: nat, linked: seq<Place>,
    e: Entries, records: Records, id: string, written: Records)
    requires Distinct(targets) && i < |targets| && Takes(records, targets[i], id)
    requires Progress(targets, before, known, library, i, linked, e, records)
    requires Progress(targets, before, known, library, i, linked, e, written)
    requires Ahead(targets, before, known, i, e, records)
    ensures Progress(targets, before, known, library, i, linked, e - {Archive(id)}, written)
  {
    forall j | 0 <= j < i ensures id != targets[j].id {
      TakenIdApart(targets, before, known, library, i, linked, e, records, id, j);
    }
  }

  lemma StrandedState(
    listing: seq<string>, targets: seq<Target>, before: Entries, known: Records, library: Place, i: nat, linked: seq<Place>,
    e: Entries, records: Records, id: string, fault: Fault, f: Entries, written: Records)
    requires Distinct(targets) && i < |targets| && Takes(records, targets[i], id) && targets[i].package in e
    requires ApplyState(listing, targets, before, known, library, StepDone, i, linked, e, records)
    requires f == EntriesAfter(e, targets[i], id, Stranded) && written == RecordsAfter(records, targets[i], id, fault, Stranded)
    ensures ApplyState(listing, targets, before, known, library, StepStranded, i, linked, f, written)
  {
    assert At(e, targets[i].package) == At(before, targets[i].package);
    MovedProgress(targets, before, known, library, i, linked, e, records, id, f);
    OnlyOwnRecord(records, targets[i], id, fault, Stranded);
    RefusedProgress(targets, before, known, library, i, linked, f, records, written);
  }

  /** The target is archived; then it is linked, or needs no link, or the link failed. */
  lemma ArchivedState(
    listing: seq<string>, targets: seq<Target>, before: Entries, known: Records, library: Place, i: nat, linked: seq<Place>,
    e: Entries, records: Records, id: string, f: Entries, written: Records, step: Step)
    requires Distinct(targets) && i < |targets| && Takes(records, targets[i], id) && targets[i].package in e
    requires ApplyState(listing, targets, before, known, library, StepDone, i, linked, e, records)
    requires Content(e, targets[i].package) == Some(targets[i].hash)
    requires f == MovedEntry(e, targets[i].package, Archive(id))
    requires written == records[id := Taken(records, targets[i], id).(status := Quarantined)]
    requires Pushes(step)
    ensures step == StepUnlinked || targets[i].action == ArchiveCopy ==>
              ApplyState(listing, targets, before, known, library, step, i + 1, linked, f, written)
    ensures step == StepDone && targets[i].action == ReplaceWithLink ==>
              ApplyState(listing, targets, before, known, library, step, i + 1, linked + [targets[i].package], f[targets[i].package := Link(Absolute(library))], written)
  {
    var package := targets[i].package;
    ArchivedProgress(targets, before, known, library, i, linked, e, records, id, f, written);
    LinkedProgress(targets, before, known, library, i, linked, f, written);
    assert !IsPackage(targets, i, package) && package !in linked;
    LinkedAhead(targets, before, known, i, f, written, library);
  }

  lemma UndoneSame(targets: seq<Target>, n: nat, before: Entries, applied: Entries, e: Entries)
    requires n <= |targets| && forall j | 0 <= j < n :: Archive(targets[j].id) !in before
    requires OutsideSame(targets, n, before, applied) && SameBeside(targets, n, applied, e)
    requires forall j | 0 <= j < n ::
               At(e, targets[j].package) == At(before, targets[j].package) && At(e, Archive(targets[j].id)) == None
    ensures SameOutsideLibrary(before, e)
  {
    forall p: Place | !p.Library? ensures At(e, p) == At(before, p) {
      if !IsPackage(targets, n, p) && !IsArchive(targets, n, p) {
        assert At(applied, p) == At(before, p);
      }
    }
  }

  /** The undo brings everything back unless a package was stranded, adopted by a leftover record, or destroyed. */
  lemma AfterUndo(
    listing: seq<string>, targets: seq<Target>, n: nat, before: Entries, known: Records, step: Step, applied: Entries, undone: bool, e: Entries)
    requires n <= |targets| && Reviewed(targets, listing, before, known)
    requires undone <==> NoneAdopted(targets, known, n)
    requires step != StepStranded && !Destroys(listing, targets, before, known, step, n) && undone ==> OutsideSame(targets, n, before, applied)
    requires step == StepStranded ==> n < |targets| && targets[n].package in before && At(applied, targets[n].package) == None
    requires step == StepMoveRefused ==> n < |targets| && At(applied, Archive(TakenId(listing, known, targets[n]))) == None
    requires SameBeside(targets, n, applied, e)
    requires undone ==> forall j | 0 <= j < n ::
               At(e, targets[j].package) == At(before, targets[j].package) && At(e, Archive(targets[j].id)) == None
    requires !undone ==> exists j :: 0 <= j < n && targets[j].package in before && At(e, targets[j].package) == None
    ensures SameOutsideLibrary(before, e) <==> step != StepStranded && undone && !Destroys(listing, targets, before, known, step, n)
    ensures Destroys(listing, targets, before, known, step, n) ==> At(e, Archive(TakenId(listing, known, targets[n]))) == None
  {
    if step == StepStranded {
      assert !IsPackage(targets, n, targets[n].package) && !IsArchive(targets, n, targets[n].package);
      assert At(e, targets[n].package) == None;
    } else if Destroys(listing, targets, before, known, step, n) {
      var p := Archive(TakenId(listing, known, targets[n]));
      FirstLeftoverIs(listing, known, targets[n].package);
      assert !IsPackage(targets, n, p) && !IsArchive(targets, n, p);
      assert At(e, p) == None && p in before;
    } else if undone {
      UndoneSame(targets, n, before, applied, e);
    }
  }

  lemma LibraryKept(targets: seq<Target>, n: nat, e: Entries, f: Entries)
    requires Distinct(targets) && n <= |targets| && SameBeside(targets, n, e, f)
    ensures SameLibrary(e, f)
  {
  }

  /** What is read through the new links is the canonical package. */
  lemma LinksLead(targets: seq<Target>, before: Entries, known: Records, canonical: string, linked: seq<Place>, e: Entries, records: Records)
    requires Progress(targets, before, known, Library(canonical), |targets|, linked, e, records)
    requires At(e, Library(canonical)) == Some(Package(canonical))
    ensures forall p | p in linked :: Content(e, p) == Some(canonical)
  {
    forall p | p in linked ensures Content(e, p) == Some(canonical) {
      assert IsPackage(targets, |targets|, p);
      assert At(e, p) == Some(Link(Absolute(Library(canonical))));
      assert ContentWithin(e, Library(canonical), FileTree.MAX_LINKS - 1) == Some(canonical);
    }
  }

  /** Untouched archives verify, if what was archived were packages and not links. */
  lemma UntouchedArchivesVerify(targets: seq<Target>, before: Entries, known: Records, library: Place, linked: seq<Place>, e: Entries, records: Records)
    requires Progress(targets, before, known, library, |targets|, linked, e, records)
    requires NoneAdopted(targets, known, |targets|)
    requires forall j | 0 <= j < |targets| :: targets[j].archive == Archive(targets[j].id)
    requires forall j | 0 <= j < |targets| && targets[j].package in before :: before[targets[j].package].Package?
    ensures Verified(targets, e)
  {
    forall j | 0 <= j < |targets| ensures Content(e, targets[j].archive) == Some(targets[j].hash) {
      assert Reviewable(targets[j], before);
      assert At(e, targets[j].archive) == At(before, targets[j].package);
    }
  }

  /** Reviewed targets without leftover records can lose nothing but a package whose record could not be completed. */
  lemma NoLeftoversNoLoss(listing: seq<string>, targets: seq<Target>, before: Entries, known: Records, step: Step, n: nat)
    requires Reviewed(targets, listing, before, known) && NoneAdopted(targets, known, |targets|) && n <= |targets|
    ensures NoneAdopted(targets, known, n) && !Destroys(listing, targets, before, known, step, n)
  {
    if n < |targets| {
      FirstLeftoverIs(listing, known, targets[n].package);
    }
  }

  // ----- the operations -----

  class Workspace {
    var entries: Entries
    var records: Records

    constructor (entries: Entries, records: Records)
      ensures this.entries == entries && this.records == records
    {
      this.entries, this.records := entries, records;
    }

    /** A record write; one that fails may still destroy the record it was replacing. */
    method WriteRecord(id: string, record: Record, fails: bool, damaged: bool)
      modifies this`records
      ensures records == if !fails then old(records)[id := record] else if damaged then old(records) - {id} else old(records)
    {
      if !fails {
        records := records[id := record];
      } else if damaged {
        records := records - {id};
      }
    }

    /**
     Archives one installed package: a record is written as preparing, the package is moved, and
     the record is completed. `Stranded` is the failure of that last write: the package stays
     archived although the call throws. `MoveRefused` removes the whole directory of the archive.
     */
    method Quarantine(target: Target, listing: seq<string>, fault: Fault) returns (result: QuarantineResult, id: string)
      requires target.package.Installed? && Lists(listing, records, target.package)
      modifies this
      ensures id == TakenId(listing, old(records), target)
      ensures if forall other :: !Interrupted(old(records), target.package, other) then id == target.id
              else exists i :: 0 <= i < |listing| && listing[i] == id && Interrupted(old(records), target.package, id)
                               && forall j | 0 <= j < i :: !Interrupted(old(records), target.package, listing[j])
      ensures result == Refused <==> Content(old(entries), target.package) != Some(target.hash) || fault.CheckRefused?
      ensures result == MoveRefused <==>
                && Content(old(entries), target.package) == Some(target.hash) && !fault.CheckRefused?
                && (fault.MoveFails? || Occupied(old(entries), target.package, id))
      ensures result == Archived <==>
                && Content(old(entries), target.package) == Some(target.hash)
                && (fault.Fine? || fault.LinkFails?) && !Occupied(old(entries), target.package, id)
      ensures result == Stranded ==> fault.FinalRecordFails?
      ensures entries == EntriesAfter(old(entries), target, id, result) && SameLibrary(old(entries), entries)
      ensures result == Stranded || result == Archived ==>
                target.package in old(entries) && MovedTo(old(entries), target.package, id, entries)
      ensures result == Archived ==>
                records == old(records)[id :=
                  if Interrupted(old(records), target.package, id) then old(records)[id].(status := Quarantined)
                  else Record(Quarantined, target.package, Some(target.hash))]
      ensures records == if Content(old(entries), target.package) == Some(target.hash)
                         then RecordsAfter(old(records), target, id, fault, result) else old(records)
    {
      id := TakenId(listing, records, target);
      FirstLeftoverIs(listing, records, target.package);
      assert forall other :: Interrupted(records, target.package, other) <==> other in records && Leftover(records[other], target.package);
      if Content(entries, target.package) != Some(target.hash) {
        return Refused, id;
      }
      var record := Taken(records, target, id);
      if fault.CheckRefused? {
        WriteRecord(id, record, true, fault.damaged);
        return Refused, id;
      }
      WriteRecord(id, record, false, false);
      if fault.MoveFails? || !Fits(entries, target.package, id) {
        entries, records := entries - {Archive(id)}, records - {id};
        return MoveRefused, id;
      }
      MovedEntryIs(entries, target.package, id);
      entries := MovedEntry(entries, target.package, Archive(id));
      WriteRecord(id, record.(status := Quarantined), fault.FinalRecordFails?, fault.FinalRecordFails? && fault.damaged);
      return if fault.FinalRecordFails? then Stranded else Archived, id;
    }

    /** Moves an archived package home; refuses rather than overwrite or restore changed content. */
    method Restore(id: string) returns (ok: bool)
      modifies this
      ensures ok <==>
                && id in old(records)
                && (AlreadyHome(old(entries), id, old(records)[id]) || Restorable(old(entries), id, old(records)[id]))
      ensures entries ==
                if ok && Restorable(old(entries), id, old(records)[id])
                then MovedEntry(old(entries), Archive(id), old(records)[id].original) else old(entries)
      ensures records == if ok then old(records)[id := old(records)[id].(status := Restored)] else old(records)
    {
      if id !in records {
        return false;
      }
      var record := records[id];
      var archive := Archive(id);
      if record.status == Restored || (record.original in entries && archive !in entries) {
        records := records[id := record.(status := Restored)];
        return true;
      }
      if record.original in entries || archive !in entries {
        return false;
      }
      if !Intact(entries, id, record) {
        return false;
      }
      WriteRecord(id, record.(status := Restoring), false, false);
      entries := MovedEntry(entries, archive, record.original);
      WriteRecord(id, record.(status := Restored), false, false);
      return true;
    }

    /** Removes the links that still lead to the library package, and nothing else. */
    method RemoveLinks(linked: seq<Place>, library: Place)
      modifies this`entries
      ensures forall p {:trigger At(entries, p)} :: At(entries, p) ==
                if p in linked && StandsFor(At(old(entries), p), p, library) then None else At(old(entries), p)
    {
      var k := |linked|;
      while k > 0
        invariant 0 <= k <= |linked|
        invariant forall p {:trigger At(entries, p)} :: At(entries, p) ==
                    if p in linked[k..] && LinkMatches(old(entries), p, library) then None else At(old(entries), p)
      {
        k := k - 1;
        assert linked[k..] == [linked[k]] + linked[k + 1..];
        ghost var was := entries;
        assert At(was, linked[k]) == if linked[k] in linked[k + 1..] && LinkMatches(old(entries), linked[k], library)
          then None else At(old(entries), linked[k]);
        if LinkMatches(entries, linked[k], library) {
          entries := entries - {linked[k]};
        }
        forall p
          ensures At(entries, p) == if p in linked[k..] && LinkMatches(old(entries), p, library) then None else At(old(entries), p)
        {
          assert At(was, p) == if p in linked[k + 1..] && LinkMatches(old(entries), p, library) then None else At(old(entries), p);
        }
      }
    }

    /** Moves the archived packages home in reverse order; the first refusal stops it. */
    method RestoreAll(ids: seq<string>, ghost targets: seq<Target>, ghost before: Entries) returns (ok: bool)
      requires Distinct(targets) && |ids| <= |targets| && forall j | 0 <= j < |ids| :: ids[j] == targets[j].id
      requires Parked(targets, before, |ids|, |ids|, entries, records)
      modifies this
      ensures ok <==> forall j | 0 <= j < |ids| :: ids[j] in old(records)
      ensures ok ==> Parked(targets, before, |ids|, 0, entries, records)
      ensures !ok ==> exists j :: 0 <= j < |ids| && At(entries, targets[j].package) == None
      ensures SameBeside(targets, |ids|, old(entries), entries)
    {
      var k := |ids|;
      while k > 0
        invariant 0 <= k <= |ids|
        invariant Parked(targets, before, |ids|, k, entries, records)
        invariant SameBeside(targets, |ids|, old(entries), entries)
        invariant forall j | 0 <= j < |ids| :: ids[j] in records <==> ids[j] in old(records)
        invariant forall j | k <= j < |ids| :: ids[j] in old(records)
      {
        ghost var was, recorded := entries, records;
        var restored := Restore(ids[k - 1]);
        if !restored {
          assert At(entries, targets[k - 1].package) == None;
          return false;
        }
        RestoresParked(targets, before, |ids|, k, was, recorded, entries, records);
        k := k - 1;
      }
      return true;
    }

    /** The undo of the first targets: links go, archives move home. */
    method Undo(linked: seq<Place>, ids: seq<string>, library: Place, ghost targets: seq<Target>, ghost before: Entries, ghost known: Records)
      returns (ok: bool)
      requires Distinct(targets) && |ids| <= |targets| && forall j | 0 <= j < |ids| :: ids[j] == targets[j].id
      requires Progress(targets, before, known, library, |ids|, linked, entries, records)
      modifies this
      ensures ok <==> NoneAdopted(targets, known, |ids|)
      ensures ok ==> forall j | 0 <= j < |ids| ::
                At(entries, targets[j].package) == At(before, targets[j].package) && At(entries, Archive(targets[j].id)) == None
      ensures !ok ==> exists j :: 0 <= j < |ids| && targets[j].package in before && At(entries, targets[j].package) == None
      ensures SameBeside(targets, |ids|, old(entries), entries)
    {
      RemoveLinks(linked, library);
      ok := RestoreAll(ids, targets, before);
    }

    /** One turn of the apply loop. */
    method ApplyOne(
      targets: seq<Target>, listing: seq<string>, faults: seq<Fault>, i: nat, library: Place, linked: seq<Place>,
      ghost before: Entries, ghost known: Records)
      returns (step: Step, links: seq<Place>)
      requires Distinct(targets) && i < |targets| == |faults| && Lists(listing, known, targets[i].package)
      requires ApplyState(listing, targets, before, known, library, StepDone, i, linked, entries, records)
      requires AllGo(listing, targets, before, known, faults, i)
      modifies this
      ensures ApplyState(listing, targets, before, known, library, step, if Pushes(step) then i + 1 else i, links, entries, records)
      ensures SameLibrary(old(entries), entries)
      ensures step != StepDone ==> Stopped(listing, targets, before, known, faults, if Pushes(step) then i + 1 else i, step)
      ensures step == StepDone ==> AllGo(listing, targets, before, known, faults, i + 1)
    {
      links := linked;
      var target, fault := targets[i], faults[i];
      ghost var was, recorded := entries, records;
      Turn(listing, targets, before, known, i, was, recorded, TakenId(listing, known, target));
      var result, id := Quarantine(target, listing, fault);
      match result
      case Refused =>
        step := StepRefused;
        RefusedState(listing, targets, before, known, library, i, linked, was, recorded, id, fault, records);
      case MoveRefused =>
        step := StepMoveRefused;
        MoveRefusedState(listing, targets, before, known, library, i, linked, was, recorded, id, fault, entries, records);
      case Stranded =>
        step := StepStranded;
        StrandedState(listing, targets, before, known, library, i, linked, was, recorded, id, fault, entries, records);
      case Archived =>
        ghost var moved := entries;
        if target.action == ArchiveCopy {
          step := StepDone;
        } else if fault.LinkFails? {
          step := StepUnlinked;
        } else {
          LinkedBesideLibrary(was, entries, target.package, Link(Absolute(library)));
          entries := entries[target.package := Link(Absolute(library))];
          links := linked + [target.package];
          step := StepDone;
        }
        ArchivedState(listing, targets, before, known, library, i, linked, was, recorded, id, moved, records, step);
    }

    /** The apply loop; it stops at the first target that throws. */
    method ApplyTargets(
      targets: seq<Target>, listing: seq<string>, faults: seq<Fault>, library: Place, ghost before: Entries, ghost known: Records)
      returns (step: Step, linked: seq<Place>, ids: seq<string>)
      requires Distinct(targets) && |faults| == |targets|
      requires forall j | 0 <= j < |targets| :: Lists(listing, known, targets[j].package)
      requires ApplyState(listing, targets, before, known, library, StepDone, 0, [], entries, records)
      modifies this
      ensures |ids| <= |targets| && forall j | 0 <= j < |ids| :: ids[j] == targets[j].id
      ensures ApplyState(listing, targets, before, known, library, step, |ids|, linked, entries, records)
      ensures SameLibrary(old(entries), entries)
      ensures step == StepDone ==> |ids| == |targets| && AllGo(listing, targets, before, known, faults, |targets|)
      ensures step != StepDone ==> Stopped(listing, targets, before, known, faults, |ids|, step)
    {
      step, linked, ids := StepDone, [], [];
      var n := 0;
      while n < |targets| && step == StepDone
        invariant n <= |targets| && ids == FirstIds(targets, n)
        invariant ApplyState(listing, targets, before, known, library, step, n, linked, entries, records)
        invariant SameLibrary(old(entries), entries)
        invariant step != StepDone ==> Stopped(listing, targets, before, known, faults, n, step)
        invariant step == StepDone ==> AllGo(listing, targets, before, known, faults, n)
        decreases |targets| - n, step == StepDone
      {
        step, linked := ApplyOne(targets, listing, faults, n, library, linked, before, known);
        if Pushes(step) {
          ids, n := ids + [targets[n].id], n + 1;
        }
      }
      FirstIdsAre(targets, n);
    }

    /**
     Approving a consolidation, where `listing` is the order in which the archive directory lists
     its ids. `pushed` counts the targets recorded for the undo, and `step` tells how the last turn
     of the apply loop ended.
     */
    method Approve(targets: seq<Target>, listing: seq<string>, canonical: string, stale: bool, cached: bool, faults: seq<Fault>)
      returns (outcome: Outcome, pushed: nat, step: Step, linked: seq<Place>)
      requires Reviewed(targets, listing, entries, records) && |faults| == |targets|
      modifies this
      ensures outcome == Stale <==> stale
      ensures stale ==> entries == old(entries) && records == old(records)
      ensures pushed <= |targets|
      ensures outcome == Approved ==>
                && cached && pushed == |targets|
                && AllGo(listing, targets, old(entries), old(records), faults, |targets|)
                && Progress(targets, old(entries), old(records), Library(canonical), |targets|, linked, entries, records)
                && LinkedAsReviewed(targets, |targets|, linked)
                && (forall p | p in linked :: Content(entries, p) == Some(canonical))
                && (NoneAdopted(targets, old(records), |targets|) ==> OutsideSame(targets, |targets|, old(entries), entries))
      ensures !stale && cached ==> SameLibrary(old(entries)[Library(canonical) := Package(canonical)], entries)
      ensures outcome == Failed && cached ==> Stopped(listing, targets, old(entries), old(records), faults, pushed, step)
      ensures outcome == Failed && !cached ==> pushed == 0 && step == StepRefused
      ensures outcome == Failed ==>
                (SameOutsideLibrary(old(entries), entries) <==>
                   && step != StepStranded
                   && NoneAdopted(targets, old(records), pushed)
                   && !Destroys(listing, targets, old(entries), old(records), step, pushed))
      ensures Destroys(listing, targets, old(entries), old(records), step, pushed) && outcome == Failed ==>
                At(entries, Archive(TakenId(listing, old(records), targets[pushed]))) == None
    {
      if stale {
        return Stale, 0, StepRefused, [];
      }
      if !cached {
        return Failed, 0, StepRefused, [];
      }
      ghost var before, known := entries, records;
      var library := Library(canonical);
      entries := entries[library := Package(canonical)];
      var ids;
      step, linked, ids := ApplyTargets(targets, listing, faults, library, before, known);
      pushed := |ids|;
      if step == StepDone {
        assert At(entries, library) == Some(Package(canonical));
        LinksLead(targets, before, known, canonical, linked, entries, records);
        return Approved, pushed, step, linked;
      }
      ghost var applied := entries;
      var undone := Undo(linked, ids, library, targets, before, known);
      outcome := Failed;
      LibraryKept(targets, pushed, applied, entries);
      AfterUndo(listing, targets, pushed, before, known, step, applied, undone, entries);
    }

    /**
     Rolling back an approved consolidation whose links, archives and records are as the approval
     left them; anything else may have changed since.
     */
    method Rollback(targets: seq<Target>, canonical: string, linked: seq<Place>, ids: seq<string>, ghost before: Entries, ghost known: Records)
      returns (ok: bool)
      requires Distinct(targets) && |ids| == |targets| && forall j | 0 <= j < |ids| :: ids[j] == targets[j].id
      requires Progress(targets, before, known, Library(canonical), |targets|, linked, entries, records)
      modifies this
      ensures ok <==> Verified(targets, old(entries)) && NoneAdopted(targets, known, |targets|)
      ensures !Verified(targets, old(entries)) ==> entries == old(entries)
      ensures ok ==> forall j | 0 <= j < |targets| ::
                At(entries, targets[j].package) == At(before, targets[j].package) && At(entries, Archive(targets[j].id)) == None
      ensures SameBeside(targets, |targets|, old(entries), entries)
    {
      var i := 0;
      while i < |linked|
        invariant i <= |linked|
      {
        assert linked[i] in linked;
        if !LinkMatches(entries, linked[i], Library(canonical)) {
          return false;
        }
        i := i + 1;
      }
      i := 0;
      while i < |targets|
        invariant i <= |targets|
        invariant forall j | 0 <= j < i :: Content(entries, targets[j].archive) == Some(targets[j].hash)
      {
        if Content(entries, targets[i].archive) != Some(targets[i].hash) {
          return false;
        }
        i := i + 1;
      }
      ok := Undo(linked, ids, Library(canonical), targets, before, known);
    }
  }

  /** A leftover record of an interrupted archival makes the undo of a later failure give up. */
  method ExampleLeftoverRecord() returns (outcome: Outcome, before: Entries, after: Entries)
    ensures outcome == Failed && !SameOutsideLibrary(before, after)
  {
    var first := Target(ArchiveCopy, Installed("first"), "skill-0", "content", Archive("old"));
    var second := Target(ArchiveCopy, Installed("second"), "skill-1", "content", Archive("skill-1"));
    before := map[first.package := Package("content"), second.package := Package("content")];
    var records := map["old" := Record(Preparing, first.package, Some("content"))];
    var w := new Workspace(before, records);
    assert Leftover(records["old"], first.package);
    assert first.id != second.id by { assert first.id[6] != second.id[6]; }
    assert "old" != first.id && "old" != second.id by { assert |"old"| != |first.id|; }
    var pushed, step, linked;
    var targets, faults := [first, second], [Fine, MoveFails];
    outcome, pushed, step, linked := w.Approve(targets, ["old"], "canonical", false, true, faults);
    after := w.entries;
    assert !Goes(targets[1], faults[1]);
    assert targets[0] == first && HasLeftover(records, first.package);
    FirstLeftoverIs(["old"], records, second.package);
  }

  /** A failing record write after the move strands the package in its archive. */
  method ExampleStranded() returns (outcome: Outcome, before: Entries, after: Entries)
    ensures outcome == Failed && !SameOutsideLibrary(before, after)
  {
    var target := Target(ArchiveCopy, Installed("first"), "skill-0", "content", Archive("skill-0"));
    before := map[target.package := Package("content")];
    var w := new Workspace(before, map[]);
    var pushed, step, linked;
    var targets, faults := [target], [FinalRecordFails(false)];
    outcome, pushed, step, linked := w.Approve(targets, [], "canonical", false, true, faults);
    after := w.entries;
    assert !Goes(targets[0], faults[0]);
    assert FirstLeftover([], map[], target.package) == None;
  }

  /** The same package installed again: its archival takes the old id, cannot move, and removes what was archived before. */
  method ExampleArchiveDestroyed() returns (outcome: Outcome, before: Entries, after: Entries)
    ensures outcome == Failed && At(before, Archive("old")) == Some(Package("precious")) && At(after, Archive("old")) == None
  {
    var target := Target(ArchiveCopy, Installed("first"), "skill-0", "content", Archive("old"));
    before := map[target.package := Package("content"), Archive("old") := Package("precious")];
    var records := map["old" := Record(Preparing, target.package, Some("precious"))];
    var w := new Workspace(before, records);
    assert "old" != target.id by { assert |"old"| != |target.id|; }
    var pushed, step, linked;
    var targets, faults := [target], [Fine];
    assert FirstLeftover(["old"], records, target.package) == Some("old");
    outcome, pushed, step, linked := w.Approve(targets, ["old"], "canonical", false, true, faults);
    after := w.entries;
    assert !Fits(before, targets[0].package, TakenId(["old"], records, targets[0]));
  }

  /** A relative link leads elsewhere from its archive: it is archived, and cannot be rolled back. */
  method ExampleRelativeLink() returns (result: QuarantineResult, ok: bool)
    ensures result == Archived && !ok
  {
    var target := Target(ArchiveCopy, Installed("first"), "skill-0", "content", Archive("skill-0"));
    var link := Link(Relative(map[target.package := Installed("second")]));
    var before: Entries := map[target.package := link, Installed("second") := Package("content")];
    var w := new Workspace(before, map[]);
    var id;
    assert target.package != Installed("second") by { assert "first"[0] != "second"[0]; }
    assert ContentWithin(before, Installed("second"), FileTree.MAX_LINKS - 1) == Some("content");
    result, id := w.Quarantine(target, [], Fine);
    assert At(w.entries, target.archive) == Some(link);
    assert Content(w.entries, target.archive) == None;
    var targets := [target];
    assert !Verified(targets, w.entries) by { assert targets[0] == target; }
    ok := w.Rollback(targets, "canonical", [], [target.id], before, map[]);
  }
}
