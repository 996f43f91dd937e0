/**
 Release of a synthesized skill: review, draft, edit, evaluation and release of one candidate, as
 tasks that interleave wherever the program waits. Content hashes are injective, so a hash is
 modelled by the content it stands for.
 */
module ReleaseGate {
  import opened Wrappers
  import opened Text

  type Task = nat

  datatype Status = Pending | Accepted | Rejected | Snoozed | Drafted | Released

  datatype Verb = Accept | Reject | Snooze | Edit

  datatype Decision = Decision(verb: Verb, reason: string)

  /** What the reviewed hash covers; the status is not part of it. */
  datatype Content = Content(title: string, evidence: string, history: seq<Decision>)

  /** `directory` is where a draft of the candidate goes, named after the skill. */
  datatype Candidate = Candidate(status: Status, content: Content, directory: string)

  datatype Evaluation = Evaluation(
    skill: string,
    directory: string,
    passed: bool,
    hostReplay: bool,
    replayFailures: nat,
    addsValue: bool,
    routingFailures: Option<nat>)

  /** What running an evaluation reports. */
  datatype Verdict = Verdict(
    skill: string,
    directory: string,
    published: bool,
    replayExit: Option<int>,
    baselineExit: Option<int>,
    evaluation: Option<Evaluation>)

  /** The state found when an evaluation began. */
  datatype Start = Start(content: Content, directory: string, draft: string, heldOut: nat)

  /** A saved gate. `start` and `read` tell where it came from: the begin of its evaluation and the draft the evaluator read. */
  datatype Gate = Gate(
    content: Content,
    skill: string,
    directory: string,
    revision: string,
    replayExit: int,
    baselineExit: int,
    heldOut: nat,
    recommended: bool,
    evaluation: Option<Evaluation>,
    start: nat,
    read: string)

  datatype Release = Release(content: Content, skill: string, revision: string)

  /** A candidate as a scan finds it. */
  datatype Found = Found(title: string, evidence: string, directory: string)

  datatype Phase =
    | Idle
    | Reviewing(loaded: Candidate)
    | Scanning(scanned: Option<Candidate>)
    | Drafting(loaded: Candidate)
    | Wrote(loaded: Candidate)
    | Evaluating(start: nat)
    | Evaluated(start: nat, read: string)

  /** Packages are kept by revision and skill name. `starts` lists the evaluations begun so far. */
  datatype State = State(
    candidate: Option<Candidate>,
    drafts: map<string, string>,
    gate: Option<Gate>,
    packages: map<(string, string), string>,
    releases: seq<Release>,
    starts: seq<Start>,
    tasks: map<Task, Phase>)

  datatype Action =
    | BeginReview(t: Task)
    | FinishReview(t: Task, decision: Decision, title: Option<string>, directory: string)
    | BeginScan(t: Task)
    | FinishScan(t: Task, found: Option<Found>)
    | BeginDraft(t: Task)
    | WriteDraft(t: Task, draft: string)
    | FinishDraft(t: Task)
    | EditDraft(directory: string, edited: Option<string>)
    | BeginEvaluation(t: Task, heldOut: nat)
    | ReadDraft(t: Task)
    | FinishEvaluation(t: Task, verdict: Verdict)
    | MakeRelease
    | MarkReleased
    | ChangePackage(revision: string, skill: string, package: Option<string>)

  datatype ReleaseError = NotFound | CandidateChanged | NotEvaluated | Blocked | DraftChanged | Unverified

  function TaskOf(s: State, t: Task): Phase {
    if t in s.tasks then s.tasks[t] else Idle
  }

  function Put(s: State, t: Task, phase: Phase): State {
    s.(tasks := s.tasks[t := phase])
  }

  function StatusFor(verb: Verb): Status {
    match verb
    case Accept => Accepted
    case Reject => Rejected
    case Snooze => Snoozed
    case Edit => Pending
  }

  /** A passing replay on the host of the named package, with value added and no routing failure. */
  predicate Passing(evaluation: Option<Evaluation>, skill: string, directory: string) {
    && evaluation.Some?
    && evaluation.value.skill == skill
    && evaluation.value.directory == directory
    && evaluation.value.passed
    && evaluation.value.hostReplay
    && evaluation.value.replayFailures == 0
    && evaluation.value.addsValue
    && (evaluation.value.routingFailures.Some? ==> evaluation.value.routingFailures.value == 0)
  }

  /** The gate that an evaluation saves. It carries the hashes taken when the evaluation began. */
  function GateOf(s: State, k: nat, read: string, verdict: Verdict): Gate
    requires k < |s.starts|
  {
    var start := s.starts[k];
    Gate(
      start.content, verdict.skill, start.directory, start.draft,
      if verdict.replayExit.Some? then verdict.replayExit.value else 1,
      if verdict.baselineExit.Some? then verdict.baselineExit.value else 1,
      start.heldOut,
      && verdict.published
      && verdict.skill == start.directory && verdict.directory == start.directory
      && Passing(verdict.evaluation, start.directory, start.directory)
      && verdict.replayExit == Some(0) && verdict.baselineExit == Some(0),
      verdict.evaluation, k, read)
  }

  predicate Open(gate: Gate) {
    && gate.recommended
    && gate.replayExit == 0
    && gate.baselineExit == 0
    && gate.heldOut > 0
    && Passing(gate.evaluation, gate.skill, gate.directory)
  }

  /** The release, check by check. */
  function Materialize(s: State): Result<State, ReleaseError> {
    if s.candidate == None then Failure(NotFound)
    else if s.candidate.value.status != Drafted then Failure(CandidateChanged)
    else if s.gate == None then Failure(NotEvaluated)
    else
      var gate := s.gate.value;
      if !Open(gate) then Failure(Blocked)
      else if s.candidate.value.content != gate.content then Failure(CandidateChanged)
      else if !(gate.directory in s.drafts && s.drafts[gate.directory] == gate.revision) then Failure(DraftChanged)
      else
        var key := (gate.revision, gate.skill);
        var packages := if key in s.packages then s.packages else s.packages[key := s.drafts[gate.directory]];
        if packages[key] != gate.revision then Failure(Unverified)
        else Success(s.(packages := packages, releases := s.releases + [Release(gate.content, gate.skill, gate.revision)]))
  }

  /** Listed are the releases whose package and gate are still what they were. */
  predicate Listed(s: State, release: Release) {
    && release in s.releases
    && (release.revision, release.skill) in s.packages
    && s.packages[(release.revision, release.skill)] == release.revision
    && s.gate.Some?
    && Open(s.gate.value)
    && s.gate.value.revision == release.revision
    && s.gate.value.content == release.content
  }

  /** What has been decided on outlives a scan; only its evidence is renewed. */
  function Merged(stored: Option<Candidate>, found: Option<Found>): Option<Candidate> {
    if stored.Some? && stored.value.content.history != []
    then
      Some(if found == None then stored.value
           else stored.value.(content := stored.value.content.(evidence := found.value.evidence)))
    else if found == None then None
    else Some(Candidate(Pending, Content(found.value.title, found.value.evidence, []), found.value.directory))
  }

  predicate Enabled(s: State, a: Action) {
    match a
    case BeginReview(t) => TaskOf(s, t) == Idle && s.candidate.Some?
    case FinishReview(t, _, _, _) => TaskOf(s, t).Reviewing?
    case BeginScan(t) => TaskOf(s, t) == Idle
    case FinishScan(t, _) => TaskOf(s, t).Scanning?
    case BeginDraft(t) => TaskOf(s, t) == Idle && s.candidate.Some? && s.candidate.value.status == Accepted
    case WriteDraft(t, _) => TaskOf(s, t).Drafting?
    case FinishDraft(t) => TaskOf(s, t).Wrote?
    case EditDraft(_, _) => true
    case BeginEvaluation(t, heldOut) =>
      && TaskOf(s, t) == Idle
      && s.candidate.Some? && s.candidate.value.status == Drafted
      && s.candidate.value.directory in s.drafts
      && heldOut > 0
    case ReadDraft(t) => TaskOf(s, t).Evaluating? && TaskOf(s, t).start < |s.starts| && s.starts[TaskOf(s, t).start].directory in s.drafts
    case FinishEvaluation(t, _) => TaskOf(s, t).Evaluated? && TaskOf(s, t).start < |s.starts|
    case MakeRelease => true
    case MarkReleased => s.candidate.Some?
    case ChangePackage(_, _, _) => true
  }

  function Next(s: State, a: Action): State
    requires Enabled(s, a)
  {
    match a
    case BeginReview(t) => Put(s, t, Reviewing(s.candidate.value))
    case FinishReview(t, decision, title, directory) =>
      var loaded := TaskOf(s, t).loaded;
      var content := Content(
        if title.Some? && Trim(title.value) != "" then Trim(title.value) else loaded.content.title,
        loaded.content.evidence,
        loaded.content.history + [decision]);
      Put(s.(candidate := Some(Candidate(StatusFor(decision.verb), content, directory)), gate := None), t, Idle)
    case BeginScan(t) => Put(s, t, Scanning(s.candidate))
    case FinishScan(t, found) =>
      Put(s.(candidate := Merged(TaskOf(s, t).scanned, found)), t, Idle)
    case BeginDraft(t) => Put(s, t, Drafting(s.candidate.value))
    case WriteDraft(t, draft) =>
      Put(s.(drafts := s.drafts[TaskOf(s, t).loaded.directory := draft]), t, Wrote(TaskOf(s, t).loaded))
    case FinishDraft(t) =>
      Put(s.(candidate := Some(TaskOf(s, t).loaded.(status := Drafted)), gate := None), t, Idle)
    case EditDraft(directory, edited) =>
      s.(drafts := if edited.Some? then s.drafts[directory := edited.value] else s.drafts - {directory})
    case BeginEvaluation(t, heldOut) =>
      var candidate := s.candidate.value;
      var start := Start(candidate.content, candidate.directory, s.drafts[candidate.directory], heldOut);
      Put(s.(starts := s.starts + [start]), t, Evaluating(|s.starts|))
    case ReadDraft(t) =>
      var k := TaskOf(s, t).start;
      Put(s, t, Evaluated(k, s.drafts[s.starts[k].directory]))
    case FinishEvaluation(t, verdict) =>
      Put(s.(gate := Some(GateOf(s, TaskOf(s, t).start, TaskOf(s, t).read, verdict))), t, Idle)
    case MakeRelease =>
      var released := Materialize(s);
      if released.Success? then released.value else s
    case MarkReleased => s.(candidate := Some(s.candidate.value.(status := Released)))
    case ChangePackage(revision, skill, package) =>
      s.(packages := if package.Some? then s.packages[(revision, skill) := package.value] else s.packages - {(revision, skill)})
  }

  ghost predicate Initial(s: State) {
    s.gate == None && s.releases == [] && s.starts == [] && s.tasks == map[]
  }

  ghost predicate Run(run: seq<State>, actions: seq<Action>) {
    && |run| == |actions| + 1
    && Initial(run[0])
    && forall i | 0 <= i < |actions| :: Enabled(run[i], actions[i]) && run[i + 1] == Next(run[i], actions[i])
  }

  /** A gate is the gate of the evaluation it came from, whatever happened in the meantime. */
  ghost predicate GateFromStart(s: State) {
    s.gate.Some? ==>
      var gate := s.gate.value;
      && gate.start < |s.starts|
      && gate.content == s.starts[gate.start].content
      && gate.directory == s.starts[gate.start].directory
      && gate.revision == s.starts[gate.start].draft
      && (gate.recommended ==> gate.skill == gate.directory && Passing(gate.evaluation, gate.skill, gate.directory))
  }

  lemma NextGateFromStart(s: State, a: Action)
    requires GateFromStart(s) && Enabled(s, a)
    ensures GateFromStart(Next(s, a))
    ensures s.starts <= Next(s, a).starts
  {
  }

  lemma {:induction false} RunGateFromStart(run: seq<State>, actions: seq<Action>, n: nat)
    requires Run(run, actions) && n < |run|
    ensures GateFromStart(run[n])
  {
    if n > 0 {
      RunGateFromStart(run, actions, n - 1);
      NextGateFromStart(run[n - 1], actions[n - 1]);
    }
  }

  /** Step `i` of the run began evaluation `k`, of that content and that draft. */
  ghost predicate Began(run: seq<State>, actions: seq<Action>, i: nat, k: nat, start: Start)
    requires Run(run, actions)
  {
    && i < |actions|
    && actions[i].BeginEvaluation?
    && |run[i].starts| == k
    && run[i].candidate.Some? && run[i].candidate.value.content == start.content
    && start.directory in run[i].drafts && run[i].drafts[start.directory] == start.draft
  }

  lemma {:induction false} StartsAreHistory(run: seq<State>, actions: seq<Action>, n: nat, k: nat)
    requires Run(run, actions) && n < |run| && k < |run[n].starts|
    ensures exists i :: 0 <= i < n && Began(run, actions, i, k, run[n].starts[k])
  {
    var s, a := run[n - 1], actions[n - 1];
    NextStarts(s, a);
    if k < |s.starts| {
      StartsAreHistory(run, actions, n - 1, k);
      var i :| 0 <= i < n - 1 && Began(run, actions, i, k, s.starts[k]);
      assert run[n].starts[k] == s.starts[k];
    } else {
      assert Began(run, actions, n - 1, k, run[n].starts[k]);
    }
  }

  lemma NextStarts(s: State, a: Action)
    requires Enabled(s, a)
    ensures
      var u := Next(s, a);
      || u.starts == s.starts
      || (&& a.BeginEvaluation? && |u.starts| == |s.starts| + 1 && s.starts == u.starts[..|s.starts|]
          && s.candidate.Some? && s.candidate.value.content == u.starts[|s.starts|].content
          && u.starts[|s.starts|].directory in s.drafts
          && s.drafts[u.starts[|s.starts|].directory] == u.starts[|s.starts|].draft)
  {
  }

  /**
   A release means that an evaluation passed which began with exactly the candidate content and
   exactly the draft of the moment of release, and the published package is that draft.
   */
  lemma ReleaseWasEvaluated(run: seq<State>, actions: seq<Action>, n: nat)
    requires Run(run, actions) && n < |run| && Materialize(run[n]).Success?
    ensures
      var gate, after := run[n].gate.value, Materialize(run[n]).value;
      var release := after.releases[|after.releases| - 1];
      && gate.start < |run[n].starts|
      && (exists i :: 0 <= i < n && Began(run, actions, i, gate.start, run[n].starts[gate.start]))
      && run[n].starts[gate.start].content == run[n].candidate.value.content
      && gate.directory in run[n].drafts
      && run[n].starts[gate.start].draft == run[n].drafts[gate.directory]
      && Passing(gate.evaluation, gate.directory, gate.directory)
      && release == Release(run[n].candidate.value.content, gate.directory, run[n].drafts[gate.directory])
      && (release.revision, release.skill) in after.packages
      && after.packages[(release.revision, release.skill)] == run[n].drafts[gate.directory]
      && Listed(after, release)
  {
    RunGateFromStart(run, actions, n);
    StartsAreHistory(run, actions, n, run[n].gate.value.start);
  }

  /** Step `j` of the run is the one where the evaluator of evaluation `k` read the draft, and found `read`. */
  ghost predicate ReadAt(run: seq<State>, actions: seq<Action>, j: nat, k: nat, read: string)
    requires Run(run, actions)
  {
    && j < |actions|
    && actions[j].ReadDraft?
    && TaskOf(run[j], actions[j].t) == Evaluating(k)
    && k < |run[j].starts|
    && run[j].starts[k].directory in run[j].drafts && run[j].drafts[run[j].starts[k].directory] == read
  }

  /** What a task or a gate says was read, was read at some earlier step. */
  ghost predicate ReadsAreHistory(run: seq<State>, actions: seq<Action>, n: nat)
    requires Run(run, actions) && n < |run|
  {
    && (forall t | t in run[n].tasks && run[n].tasks[t].Evaluated? ::
          exists j :: 0 <= j < n && ReadAt(run, actions, j, run[n].tasks[t].start, run[n].tasks[t].read))
    && (run[n].gate.Some? ==> exists j :: 0 <= j < n && ReadAt(run, actions, j, run[n].gate.value.start, run[n].gate.value.read))
  }

  /** A step adds what it reads itself and hands on what was read before. */
  lemma NextReads(s: State, a: Action)
    requires Enabled(s, a)
    ensures
      var u := Next(s, a);
      && (forall t | t in u.tasks && u.tasks[t].Evaluated? ::
            || (t in s.tasks && s.tasks[t] == u.tasks[t])
            || (&& a.ReadDraft? && a.t == t && TaskOf(s, t) == Evaluating(u.tasks[t].start) && u.tasks[t].start < |s.starts|
                && s.starts[u.tasks[t].start].directory in s.drafts
                && s.drafts[s.starts[u.tasks[t].start].directory] == u.tasks[t].read))
      && (u.gate.Some? ==>
            || s.gate == u.gate
            || (a.FinishEvaluation? && TaskOf(s, a.t) == Evaluated(u.gate.value.start, u.gate.value.read)))
  {
  }

  lemma {:induction false} RunReads(run: seq<State>, actions: seq<Action>, n: nat)
    requires Run(run, actions) && n < |run|
    ensures ReadsAreHistory(run, actions, n)
  {
    if n > 0 {
      var s, a := run[n - 1], actions[n - 1];
      RunReads(run, actions, n - 1);
      NextReads(s, a);
      forall t | t in run[n].tasks && run[n].tasks[t].Evaluated?
        ensures exists j :: 0 <= j < n && ReadAt(run, actions, j, run[n].tasks[t].start, run[n].tasks[t].read)
      {
        if t in s.tasks && s.tasks[t] == run[n].tasks[t] {
          var j :| 0 <= j < n - 1 && ReadAt(run, actions, j, s.tasks[t].start, s.tasks[t].read);
        } else {
          assert ReadAt(run, actions, n - 1, run[n].tasks[t].start, run[n].tasks[t].read);
        }
      }
    }
  }

  /** The step may change the draft in that directory. */
  predicate Touches(s: State, a: Action, directory: string) {
    || (a.EditDraft? && a.directory == directory)
    || (a.WriteDraft? && TaskOf(s, a.t).Drafting? && TaskOf(s, a.t).loaded.directory == directory)
  }

  function DraftAt(s: State, directory: string): Option<string> {
    if directory in s.drafts then Some(s.drafts[directory]) else None
  }

  lemma {:induction false} UntouchedDraftStays(run: seq<State>, actions: seq<Action>, i: nat, j: nat, directory: string)
    requires Run(run, actions) && i <= j < |run|
    requires forall m | i <= m < j :: !Touches(run[m], actions[m], directory)
    ensures DraftAt(run[j], directory) == DraftAt(run[i], directory)
    decreases j - i
  {
    if i < j {
      UntouchedDraftStays(run, actions, i, j - 1, directory);
      NextUntouched(run[j - 1], actions[j - 1], directory);
    }
  }

  lemma NextUntouched(s: State, a: Action, directory: string)
    requires Enabled(s, a) && !Touches(s, a, directory)
    ensures DraftAt(Next(s, a), directory) == DraftAt(s, directory)
  {
  }

  /** Evaluation `k` began at step `i`, and its evaluator read the draft at the later step `j`. */
  ghost predicate Read(run: seq<State>, actions: seq<Action>, i: nat, j: nat, k: nat, start: Start, read: string)
    requires Run(run, actions)
  {
    i < j && Began(run, actions, i, k, start) && ReadAt(run, actions, j, k, read)
  }

  /**
   Behind every release there is a step at which its evaluation began, and a later one, before the
   release, at which the evaluator read the draft: what is released stood in the draft at the
   first, what was read at the second. They are the same if nobody wrote to its directory in between.
   */
  lemma EvaluatorReadReleased(run: seq<State>, actions: seq<Action>, n: nat) returns (i: nat, j: nat)
    requires Run(run, actions) && n < |run| && Materialize(run[n]).Success?
    ensures
      var gate, released := run[n].gate.value, DraftAt(run[n], run[n].gate.value.directory);
      && gate.start < |run[n].starts|
      && i < j < n && Read(run, actions, i, j, gate.start, run[n].starts[gate.start], gate.read)
      && DraftAt(run[i], gate.directory) == released && DraftAt(run[j], gate.directory) == Some(gate.read)
      && ((forall m | i <= m < j :: !Touches(run[m], actions[m], gate.directory)) ==> Some(gate.read) == released)
  {
    var gate := run[n].gate.value;
    RunGateFromStart(run, actions, n);
    RunReads(run, actions, n);
    j :| 0 <= j < n && ReadAt(run, actions, j, gate.start, gate.read);
    StartsAreHistory(run, actions, j, gate.start);
    i :| 0 <= i < j && Began(run, actions, i, gate.start, run[j].starts[gate.start]);
    RunKeepsStarts(run, actions, j, n);
    if forall m | i <= m < j :: !Touches(run[m], actions[m], gate.directory) {
      UntouchedDraftStays(run, actions, i, j, gate.directory);
    }
  }

  lemma {:induction false} RunKeepsStarts(run: seq<State>, actions: seq<Action>, i: nat, j: nat)
    requires Run(run, actions) && i <= j < |run|
    ensures run[i].starts <= run[j].starts
    decreases j - i
  {
    if i < j {
      RunKeepsStarts(run, actions, i, j - 1);
      NextStarts(run[j - 1], actions[j - 1]);
    }
  }

  /** After a review or a new draft nothing is listed and nothing can be released until an evaluation ends. */
  lemma {:induction false} UnlistedUntilEvaluated(run: seq<State>, actions: seq<Action>, i: nat, j: nat, release: Release)
    requires Run(run, actions) && i < j < |run|
    requires actions[i].FinishReview? || actions[i].FinishDraft?
    requires forall m | i < m < j :: !actions[m].FinishEvaluation?
    ensures run[j].gate == None && !Listed(run[j], release) && Materialize(run[j]).Failure?
  {
    if i + 1 < j {
      UnlistedUntilEvaluated(run, actions, i, j - 1, release);
      NextUnlisted(run[j - 1], actions[j - 1]);
    }
  }

  /** A package that was changed or removed takes its release off the list, and so does a gate for another draft or candidate. */
  lemma TamperedIsUnlisted(s: State, release: Release)
    requires Listed(s, release)
    ensures forall package | package != Some(release.revision) ::
              !Listed(Next(s, ChangePackage(release.revision, release.skill, package)), release)
    ensures forall gate: Gate | gate.revision != release.revision || gate.content != release.content || !gate.recommended ::
              !Listed(s.(gate := Some(gate)), release)
  {
  }

  lemma NextUnlisted(s: State, a: Action)
    requires Enabled(s, a) && s.gate == None && !a.FinishEvaluation?
    ensures Next(s, a).gate == None
  {
  }

  // ----- what a reviewer accepted -----

  /** The status is what the last review decided, unless the candidate has been drafted or released since. */
  ghost predicate AsDecided(c: Candidate) {
    var history := c.content.history;
    var last := |history| - 1;
    match c.status
    case Accepted => history != [] && history[last].verb == Accept
    case Drafted => history != [] && history[last].verb == Accept
    case Rejected => history != [] && history[last].verb == Reject
    case Snoozed => history != [] && history[last].verb == Snooze
    case Pending => history == [] || history[last].verb == Edit
    case Released => true
  }

  ghost predicate WasAccepted(content: Content) {
    content.history != [] && content.history[|content.history| - 1].verb == Accept
  }

  /** That is so of the candidate and of what tasks remember of it; drafts and releases are of accepted candidates. */
  ghost predicate Reviewed(s: State) {
    && (s.candidate.Some? ==> AsDecided(s.candidate.value))
    && (forall t | t in s.tasks ::
          && (s.tasks[t].Scanning? && s.tasks[t].scanned.Some? ==> AsDecided(s.tasks[t].scanned.value))
          && (s.tasks[t].Drafting? || s.tasks[t].Wrote? ==> WasAccepted(s.tasks[t].loaded.content)))
    && (forall i | 0 <= i < |s.releases| :: WasAccepted(s.releases[i].content))
  }

  lemma NextReviewed(s: State, a: Action)
    requires Reviewed(s) && Enabled(s, a)
    ensures Reviewed(Next(s, a))
  {
    if a.MakeRelease? && Materialize(s).Success? {
      var u := Materialize(s).value;
      forall i | 0 <= i < |u.releases| ensures WasAccepted(u.releases[i].content) {
        assert i < |s.releases| ==> u.releases[i] == s.releases[i];
      }
    }
  }

  /** In every run a draft is only made, and a release only published, of what the last review accepted. */
  lemma {:induction false} OnlyAcceptedReleased(run: seq<State>, actions: seq<Action>, n: nat)
    requires Run(run, actions) && n < |run| && run[0].candidate == None
    ensures Reviewed(run[n])
    ensures n < |actions| && (actions[n].BeginDraft? || (actions[n].MakeRelease? && Materialize(run[n]).Success?)) ==>
              WasAccepted(run[n].candidate.value.content)
  {
    if n > 0 {
      OnlyAcceptedReleased(run, actions, n - 1);
      NextReviewed(run[n - 1], actions[n - 1]);
    }
  }

  /** What the task remembers of the candidate that its last step writes. */
  function Remembered(s: State, a: Action): Option<Candidate>
    requires Enabled(s, a)
  {
    match a
    case FinishReview(t, _, _, _) => Some(TaskOf(s, t).loaded)
    case FinishScan(t, _) => TaskOf(s, t).scanned
    case FinishDraft(t) => Some(TaskOf(s, t).loaded)
    case _ => s.candidate
  }

  /**
   A step that knows the candidate keeps all that was decided on it: a review adds its decision and
   nothing else changes the list.
   */
  lemma DecisionsKept(s: State, a: Action)
    requires Enabled(s, a) && s.candidate.Some? && Remembered(s, a) == s.candidate && s.candidate.value.content.history != []
    ensures Next(s, a).candidate.Some?
    ensures
      var before, after := s.candidate.value.content, Next(s, a).candidate.value.content;
      && after.history == (if a.FinishReview? then before.history + [a.decision] else before.history)
      && (a.FinishScan? || after.evidence == before.evidence)
      && after.title == if a.FinishReview? && a.title.Some? && Trim(a.title.value) != "" then Trim(a.title.value) else before.title
    ensures a.FinishScan? ==> Next(s, a).candidate.value.status == s.candidate.value.status
  {
  }

  // ----- the verdict behind a gate -----

  /** What an evaluation must report to recommend the release of the draft in `directory`. */
  ghost predicate Recommends(v: Verdict, directory: string) {
    && v.published && v.skill == directory && v.directory == directory
    && v.replayExit == Some(0) && v.baselineExit == Some(0)
    && v.evaluation.Some?
    && var e := v.evaluation.value;
    && e.skill == directory && e.directory == directory && e.passed && e.hostReplay && e.replayFailures == 0 && e.addsValue
    && (e.routingFailures == None || e.routingFailures == Some(0))
  }

  /** Step `m` saved the gate of evaluation `k` and its verdict. */
  ghost predicate Saved(run: seq<State>, actions: seq<Action>, m: nat, gate: Gate)
    requires Run(run, actions)
  {
    && m < |actions| && actions[m].FinishEvaluation?
    && TaskOf(run[m], actions[m].t) == Evaluated(gate.start, gate.read)
    && gate.evaluation == actions[m].verdict.evaluation
    && (gate.recommended <==> Recommends(actions[m].verdict, gate.directory))
  }

  lemma {:induction false} GateWasSaved(run: seq<State>, actions: seq<Action>, n: nat)
    requires Run(run, actions) && n < |run| && run[n].gate.Some?
    ensures exists m :: 0 <= m < n && Saved(run, actions, m, run[n].gate.value)
  {
    if actions[n - 1].FinishEvaluation? {
      SavesVerdict(run[n - 1], actions[n - 1]);
      assert Saved(run, actions, n - 1, run[n].gate.value);
    } else {
      GateStays(run[n - 1], actions[n - 1]);
      GateWasSaved(run, actions, n - 1);
    }
  }

  lemma SavesVerdict(s: State, a: Action)
    requires Enabled(s, a) && a.FinishEvaluation?
    ensures
      var gate := Next(s, a).gate;
      && gate.Some? && TaskOf(s, a.t) == Evaluated(gate.value.start, gate.value.read)
      && gate.value.evaluation == a.verdict.evaluation
      && (gate.value.recommended <==> Recommends(a.verdict, gate.value.directory))
  {
  }

  lemma GateStays(s: State, a: Action)
    requires Enabled(s, a) && !a.FinishEvaluation? && Next(s, a).gate.Some?
    ensures s.gate == Next(s, a).gate
  {
  }

  /** Behind every release stands the step at which an evaluation of its draft reported nothing but success. */
  lemma ReleaseWasRecommended(run: seq<State>, actions: seq<Action>, n: nat)
    requires Run(run, actions) && n < |run| && Materialize(run[n]).Success?
    ensures exists m :: 0 <= m < n && Saved(run, actions, m, run[n].gate.value)
              && Recommends(actions[m].verdict, run[n].gate.value.directory)
    ensures run[n].gate.value.heldOut > 0 && run[n].gate.value.replayExit == 0 && run[n].gate.value.baselineExit == 0
  {
    GateWasSaved(run, actions, n);
  }

  ghost predicate Reaches(s: State) {
    exists run, actions :: Run(run, actions) && run[|actions|] == s
  }

  lemma ReachesNext(s: State, a: Action, u: State)
    requires Reaches(s) && Enabled(s, a) && u == Next(s, a)
    ensures Reaches(u)
  {
    var run, actions :| Run(run, actions) && run[|actions|] == s;
    assert Run(run + [u], actions + [a]);
  }

  /** The draft is edited, read by the evaluator, and put back. */
  lemma ShownAndPutBack(s: State, t: Task, start: Start, shown: string, u: State)
    requires Reaches(s) && s.starts == [start] && s.tasks == map[t := Evaluating(0)] && s.drafts == map[start.directory := start.draft]
    requires u == s.(tasks := map[t := Evaluated(0, shown)])
    ensures Reaches(u)
  {
    var edited := s.(drafts := map[start.directory := shown]);
    ReachesNext(s, EditDraft(start.directory, Some(shown)), edited);
    var read := edited.(tasks := map[t := Evaluated(0, shown)]);
    ReachesNext(edited, ReadDraft(t), read);
    ReachesNext(read, EditDraft(start.directory, Some(start.draft)), u);
  }

  /** A draft that is edited for the evaluator's eyes only and then put back is released unevaluated. */
  lemma EditedDuringEvaluation(draft: string, shown: string)
    requires draft != shown
    ensures exists s :: Reaches(s) && s.gate.Some? && Materialize(s).Success? && s.gate.value.revision == draft && s.gate.value.read == shown
  {
    var content := Content("title", "evidence", [Decision(Accept, "good")]);
    var start := Start(content, "skill", draft, 1);
    var s0 := State(Some(Candidate(Drafted, content, "skill")), map["skill" := draft], None, map[], [], [], map[]);
    assert Run([s0], []);
    var s1 := s0.(starts := [start], tasks := map[1 := Evaluating(0)]);
    ReachesNext(s0, BeginEvaluation(1, 1), s1);
    var s2 := s1.(tasks := map[1 := Evaluated(0, shown)]);
    ShownAndPutBack(s1, 1, start, shown, s2);
    PassingOpens(s2, 1, start, shown);
  }

  /** A passing verdict on an unchanged candidate and draft opens the gate. */
  lemma PassingOpens(s: State, t: Task, start: Start, read: string)
    requires Reaches(s) && s.starts == [start] && s.tasks == map[t := Evaluated(0, read)] && start.heldOut > 0
    requires s.candidate.Some? && s.candidate.value.status == Drafted && s.candidate.value.content == start.content
    requires s.drafts == map[start.directory := start.draft] && s.packages == map[]
    ensures exists u :: Reaches(u) && u.gate.Some? && Materialize(u).Success? && u.gate.value.revision == start.draft && u.gate.value.read == read
  {
    var passing := Evaluation(start.directory, start.directory, true, true, 0, true, None);
    var verdict := Verdict(start.directory, start.directory, true, Some(0), Some(0), Some(passing));
    var u := Next(s, FinishEvaluation(t, verdict));
    ReachesNext(s, FinishEvaluation(t, verdict), u);
    assert Materialize(u).Success?;
  }
}
