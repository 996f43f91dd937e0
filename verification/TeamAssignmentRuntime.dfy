/**
 The team assignment runtime: install, rollback, flush and the reconcile pass they start with.

 Every durable update goes through `Write` or `Act`, which append to `trace`; `Valid`
 says that the trace is a run of `TeamAssignmentMachine`.  A crash may happen after any of
 them, and `Restart` resumes from whatever run the crash left.
 */
module TeamAssignmentRuntime {
  import opened Wrappers
  import opened TeamAssignmentState
  import opened TeamAssignmentMachine

  datatype Error =
    | Unavailable
    | ConfirmationRequired
    | AssignmentUnavailable
    | AssignmentNotReady
    | ProjectRootRequired
    | TargetMismatch
    | PlanRejected(code: FailureCode)
    | StaleAssignmentPreview
    | PackageRejected(code: FailureCode)
    | InstallerFailed(code: FailureCode)
    | InstallReceiptBindingMismatch
    | RollbackBindingMismatch
    | RollbackRecoveryFailed
    | RollbackLocalDrift

  /** What the cloud lists for one assignment. */
  datatype Assignment = Assignment(
    id: AssignmentId, requestId: string, releaseId: string, revisionSha256: string,
    envelopeSha256: string, observedSequence: Option<nat>)

  /** What a preview asks for; without a scope it is for all projects. */
  datatype InstallChoice = InstallChoice(assignmentId: AssignmentId, project: bool, projectRoot: Option<string>)

  /** What the installer plans for the downloaded package. */
  datatype Plan = Plan(previewToken: string, expected: seq<ReceiptId>, changed: seq<ReceiptId>, changedSkillCount: nat)

  datatype InstallInput = InstallInput(
    assignmentId: AssignmentId, requestId: string, releaseId: string, revisionSha256: string,
    envelopeSha256: string, confirmed: bool)

  /** How the installer answers: an error changes nothing, an answer activates every expected receipt. */
  datatype InstallerReply = Throws(code: FailureCode) | Returns(ids: seq<ReceiptId>, superseded: set<ReceiptId>)

  datatype RollbackReply = RollbackThrows(committed: bool) | Drifted | RolledBackAll

  /** What a returning reconcile owes an install that it found open. */
  ghost predicate InstallReconciled(s: State, p: PendingInstall, t: State, receipts: Receipts) {
    var id := p.assignmentId;
    var complete := AllIn(receipts, p.expected, Active);
    var untouched := forall r | r in p.changed :: !(r in receipts && receipts[r] == Active);
    && (complete <==> id in t.bindings && InstalledAs(t.bindings[id], p))
    && (!complete && untouched ==> t.bindings == s.bindings && t.outbox == s.outbox)
    && (!complete && !untouched ==> id in t.bindings && FailedAs(t.bindings[id], p, RecoveryFailed))
  }

  /** The binding once its receipts are removed. */
  ghost predicate RolledBackFrom(b: Binding, before: Binding, at: nat, sequence: nat) {
    b == before.(sequence := sequence, failureCode := None, state := RolledBack, rolledBackAt := Some(at))
  }

  /** What a returning reconcile owes a rollback that it found open. */
  ghost predicate RollbackReconciled(s: State, r: PendingRollback, t: State, receipts: Receipts) {
    var id := r.assignmentId;
    && id in t.bindings
    && (AllIn(receipts, r.binding.receipts, Removed) <==> RolledBackFrom(t.bindings[id], r.binding, r.rolledBackAt, r.sequence))
    && (AllIn(receipts, r.binding.receipts, Active) <==> t.bindings[id] == r.binding)
    && (t.bindings[id] == r.binding ==> t.bindings == s.bindings && t.outbox == s.outbox)
  }

  /** The store after the recovery pass has settled one interrupted install. */
  function AfterInstall(s: State, p: PendingInstall, receipts: Receipts, now: nat): State {
    if AllIn(receipts, p.expected, Active) then PersistLifecycle(s, CurrentBinding(p), Current, p.installedAt, 0)
    else if forall r | r in p.changed :: !(r in receipts && receipts[r] == Active) then
      s.(pendingInstalls := s.pendingInstalls - {p.assignmentId})
    else PersistLifecycle(s, FailedBinding(p, RecoveryFailed), Failed, now, Max(1, |p.changed|))
  }

  /** The store after the recovery pass has settled one interrupted rollback. */
  function AfterRollback(s: State, r: PendingRollback, receipts: Receipts): State {
    if AllIn(receipts, r.binding.receipts, Removed)
    then PersistLifecycle(s, RolledBackBinding(r), RolledBack, r.rolledBackAt, 0)
    else s.(pendingRollbacks := s.pendingRollbacks - {r.assignmentId})
  }

  /** What a recovery pass that returns makes of the whole store: nothing, if nothing was open. */
  ghost predicate Settled(s: State, t: State, receipts: Receipts, now: nat) {
    && NoPending(t)
    && (NoPending(s) ==> t == s)
    && (forall id | id in s.pendingInstalls :: t == AfterInstall(s, s.pendingInstalls[id], receipts, now))
    && (forall id | id in s.pendingRollbacks :: t == AfterRollback(s, s.pendingRollbacks[id], receipts))
  }

  predicate NeedsProjectRoot(choice: InstallChoice) {
    choice.project && (choice.projectRoot == None || choice.projectRoot == Some(""))
  }

  /** The key of a stored preview, a hash of its token. */
  function PreviewKey(previewToken: string): string {
    "install_preview_v1_" + previewToken
  }

  /** The preview that is stored; the install request is not known yet. */
  function StoredPreview(assignment: Assignment, choice: InstallChoice, agents: seq<string>, plan: Plan): Preview {
    Preview(
      assignment.id, assignment.releaseId, assignment.envelopeSha256,
      Terms(assignment.requestId, "", assignment.revisionSha256, if choice.project then "project" else "global", agents),
      if choice.project then choice.projectRoot else None,
      plan.previewToken, plan.expected, plan.changed, plan.changedSkillCount)
  }

  /** The preview is of what the cloud lists and names every receipt of the plan. */
  ghost predicate PlannedAs(preview: Preview, listed: Assignment, plan: Plan) {
    && preview.assignmentId == listed.id && preview.terms.assignmentRequestId == listed.requestId
    && preview.releaseId == listed.releaseId && preview.terms.revisionSha256 == listed.revisionSha256
    && preview.envelopeSha256 == listed.envelopeSha256
    && preview.previewToken == plan.previewToken
    && preview.expected == plan.expected && preview.changed == plan.changed && preview.changedSkillCount == plan.changedSkillCount
  }

  /** A project's root goes with its scope only. */
  ghost predicate ChosenAs(preview: Preview, choice: InstallChoice, agents: seq<string>) {
    && preview.terms.targetAgents == agents
    && (preview.terms.scope == "project" <==> choice.project) && preview.terms.scope in {"project", "global"}
    && preview.projectRoot == if choice.project then choice.projectRoot else None
  }

  /** The release is installed; there is nothing to do. */
  ghost predicate InstalledAlready(s: State, input: InstallInput) {
    && input.assignmentId in s.bindings
    && var b := s.bindings[input.assignmentId];
    b.state == Current && b.releaseId == input.releaseId && b.envelopeSha256 == input.envelopeSha256
  }

  /** What the caller confirms was previewed, and is still what the cloud lists. */
  predicate Reviewed(s: State, input: InstallInput, assignment: Assignment) {
    && input.requestId in s.previews
    && var preview := s.previews[input.requestId];
    && preview.assignmentId == input.assignmentId
    && preview.terms.assignmentRequestId == assignment.requestId
    && preview.releaseId == input.releaseId == assignment.releaseId
    && preview.terms.revisionSha256 == input.revisionSha256 == assignment.revisionSha256
    && preview.envelopeSha256 == input.envelopeSha256 == assignment.envelopeSha256
  }

  /**
   A stored preview is reviewed exactly for a caller who names its assignment, release, revision
   and envelope, and as long as the cloud lists the same request for the same bytes.
   */
  lemma PreviewIsReviewed(
    s: State, shown: Assignment, listed: Assignment, choice: InstallChoice, agents: seq<string>, plan: Plan, input: InstallInput)
    requires input.requestId == PreviewKey(plan.previewToken)
    ensures Reviewed(s.(previews := s.previews[PreviewKey(plan.previewToken) := StoredPreview(shown, choice, agents, plan)]), input, listed)
       <==> && input == InstallInput(shown.id, input.requestId, shown.releaseId, shown.revisionSha256, shown.envelopeSha256, input.confirmed)
            && listed == shown.(id := listed.id, observedSequence := listed.observedSequence)
  {
  }

  /** From `s` to `t` nothing but the binding changed, the open operation was closed, and one event was queued that tells the cloud. */
  ghost predicate Queued(s: State, t: State, b: Binding, at: nat, blocked: nat) {
    && NoPending(t) && t.previews == s.previews
    && t.bindings == s.bindings[b.assignmentId := b]
    && BindingRequest(b) !in s.outbox && t.outbox.Keys == s.outbox.Keys + {BindingRequest(b)}
    && (forall key | key in s.outbox :: t.outbox[key] == s.outbox[key])
    && var item := t.outbox[BindingRequest(b)];
    && Unsent(item) && Reports(item.request, b) && item.request.occurredAt == at && item.request.blockedSkillCount == blocked
  }

  lemma LifecycleQueues(s: System, e: Event)
    requires Invariant(s) && Lifecycle(e)
    requires var (b, at, blocked) := Written(e); StepBy(s, s.(state := PersistLifecycle(s.state, b, b.state, at, blocked)), e)
    ensures
      var (b, at, blocked) := Written(e);
      Queued(s.state, PersistLifecycle(s.state, b, b.state, at, blocked), b, at, blocked)
  {
    var (b, at, blocked) := Written(e);
    var t := s.(state := PersistLifecycle(s.state, b, b.state, at, blocked));
    LifecycleStepPersists(s, t, e);
    PersistWrites(s.state, b, at, blocked);
    NewEventReports(s, t, e);
  }

  /** What is undelivered at the start and not in `keys` any more has been attempted once; nothing else has changed. */
  ghost predicate Flushing(start: State, s: State, keys: set<RequestId>, at: nat) {
    && s == start.(outbox := s.outbox) && s.outbox.Keys == start.outbox.Keys && keys <= Undelivered(start)
    && (forall key | key in keys || key in start.outbox.Keys - Undelivered(start) :: s.outbox[key] == start.outbox[key])
    && (forall key | key in Undelivered(start) - keys :: AttemptedOnce(start.outbox[key], s.outbox[key], at))
  }

  lemma FlushedNext(start: State, s: State, t: State, keys: set<RequestId>, key: RequestId, at: nat)
    requires Flushing(start, s, keys, at) && key in keys
    requires t.outbox.Keys == s.outbox.Keys && t == s.(outbox := s.outbox[key := t.outbox[key]])
    requires AttemptedOnce(s.outbox[key], t.outbox[key], at)
    ensures Flushing(start, t, keys - {key}, at)
    ensures Undelivered(t) == if t.outbox[key].deliveredAt.Some? then Undelivered(s) - {key} else Undelivered(s)
    ensures key in Undelivered(s)
  {
  }

  /** One more attempt at this time; it delivered the event, or left it with its last terminal failure. */
  ghost predicate AttemptedOnce(before: OutboxItem, after: OutboxItem, at: nat) {
    && after.attempts == before.attempts + 1 && after.request == before.request && after.lastAttemptAt == Some(at)
    && if after.deliveredAt.Some?
       then after.deliveredAt == Some(at) && after.terminalFailureAt == None && after.hostedReceiptId.Some?
       else after.hostedReceiptId == before.hostedReceiptId
            && (after.terminalFailureAt == before.terminalFailureAt || after.terminalFailureAt == Some(at))
  }

  function Undelivered(s: State): set<RequestId> {
    set key | key in s.outbox && s.outbox[key].deliveredAt.None?
  }

  class Runtime {
    var state: State
    var world: World
    ghost var trace: seq<System>

    ghost predicate Valid()
      reads this
    {
      Run(trace) && trace[|trace| - 1] == System(state, world)
    }

    /** Start, or start again after a crash, on the durable state that a run left. */
    constructor Restart(ghost past: seq<System>, state: State, world: World)
      requires Run(past) && past[|past| - 1] == System(state, world)
      ensures Valid() && trace == past && this.state == state && this.world == world
    {
      this.state, this.world, this.trace := state, world, past;
    }

    lemma Established()
      requires Valid()
      ensures Invariant(System(state, world))
    {
      RunKeepsInvariant(trace, |trace| - 1);
    }

    /** Installs and rollbacks are not open together, and the installer is idle when nothing is open. */
    lemma OneKindOpen()
      requires Valid()
      ensures state.pendingInstalls != map[] ==> state.pendingRollbacks == map[]
      ensures NoPending(state) ==> world.inflight.None?
    {
      Established();
      if state.pendingInstalls != map[] {
        var id :| id in state.pendingInstalls;
        OnlyPending(state, id);
      }
    }

    /** One atomic replacement of the state file. */
    method Write(next: State, ghost e: Event)
      requires Valid() && StepBy(System(state, world), System(next, world), e)
      modifies this
      ensures Valid() && state == next && world == old(world) && trace == old(trace) + [System(next, world)]
    {
      assert Step(System(state, world), System(next, world));
      state := next;
      trace := trace + [System(state, world)];
    }

    /** One act of the installer or of the cloud. */
    method Act(next: World, ghost e: Event)
      requires Valid() && StepBy(System(state, world), System(state, next), e)
      modifies this
      ensures Valid() && world == next && state == old(state) && trace == old(trace) + [System(state, next)]
    {
      assert Step(System(state, world), System(state, next));
      world := next;
      trace := trace + [System(state, world)];
    }

    /** The installer settles an interrupted operation; it may fail before or after doing so. */
    method RecoverInstaller() returns (ok: bool)
      requires Valid()
      modifies this
      ensures Valid() && old(trace) <= trace && state == old(state)
      ensures ok ==> world.inflight.None?
      ensures old(world.inflight).None? ==> world == old(world)
    {
      if world.inflight.Some? {
        if * {
          return false;
        } else if * {
          Act(world.(receipts := Committed(world.inflight.value, world.receipts), inflight := None), EvCommit);
        } else {
          Act(world.(inflight := None), EvAbort);
        }
      }
      ok := *;
    }

    method FinalizeInstall(p: PendingInstall)
      requires Valid() && world.inflight.None?
      requires p.assignmentId in state.pendingInstalls ==> state.pendingInstalls[p.assignmentId] == p
      requires AllIn(world.receipts, p.expected, Active)
      modifies this
      ensures Valid() && old(trace) <= trace && world == old(world)
      ensures state == if p.assignmentId in old(state).pendingInstalls
                       then PersistLifecycle(old(state), CurrentBinding(p), Current, p.installedAt, 0)
                       else old(state)
      ensures p.assignmentId in old(state).pendingInstalls ==>
                && p.assignmentId in state.bindings && InstalledAs(state.bindings[p.assignmentId], p)
                && Queued(old(state), state, state.bindings[p.assignmentId], p.installedAt, 0)
    {
      Established();
      if p.assignmentId in state.pendingInstalls {
        LifecycleQueues(System(state, world), EvFinishInstall(p));
        Write(PersistLifecycle(state, CurrentBinding(p), Current, p.installedAt, 0), EvFinishInstall(p));
      }
    }

    method RecordFailedInstall(p: PendingInstall, code: FailureCode, now: nat)
      requires Valid() && world.inflight.None?
      requires (p.assignmentId in state.pendingInstalls && state.pendingInstalls[p.assignmentId] == p)
            || (NoPending(state) && IntentOk(state, p))
      modifies this
      ensures Valid() && old(trace) <= trace && world == old(world)
      ensures state == PersistLifecycle(old(state), FailedBinding(p, code), Failed, now, Max(1, |p.changed|))
      ensures p.assignmentId in state.bindings && FailedAs(state.bindings[p.assignmentId], p, code)
      ensures Queued(old(state), state, state.bindings[p.assignmentId], now, if p.changed == [] then 1 else |p.changed|)
    {
      Established();
      LifecycleQueues(System(state, world), EvFailure(p, code, now));
      Write(PersistLifecycle(state, FailedBinding(p, code), Failed, now, Max(1, |p.changed|)),
            EvFailure(p, code, now));
    }

    /** One turn of the install loop of the recovery pass. */
    method ReconcileInstall(pending: PendingInstall, now: nat) returns (r: Result<nat, Error>)
      requires Valid() && world.inflight.None?
      requires pending.assignmentId in state.pendingInstalls && state.pendingInstalls[pending.assignmentId] == pending
      modifies this
      ensures Valid() && old(trace) <= trace && world == old(world)
      ensures r.Failure? ==> r.error == Unavailable
      ensures r.Success? ==> NoPending(state)
      ensures r.Success? ==> InstallReconciled(old(state), pending, state, world.receipts)
      ensures state == if r.Success? then AfterInstall(old(state), pending, world.receipts, now) else old(state)
    {
      Established();
      OnlyPending(state, pending.assignmentId);
      if * {
        return Failure(Unavailable);
      }
      if AllIn(world.receipts, pending.expected, Active) {
        FinalizeInstall(pending);
        return Success(1);
      }
      if forall receipt | receipt in pending.changed ::
          !(receipt in world.receipts && world.receipts[receipt] == Active) {
        Write(state.(pendingInstalls := state.pendingInstalls - {pending.assignmentId}),
              EvDropInstall(pending.assignmentId));
      } else {
        RecordFailedInstall(pending, RecoveryFailed, now);
      }
      return Success(0);
    }

    method ReconcileInstalls(now: nat) returns (r: Result<nat, Error>)
      requires Valid() && world.inflight.None?
      modifies this
      ensures Valid() && old(trace) <= trace && world == old(world)
      ensures old(state.pendingInstalls) == map[] ==> r == Success(0) && state == old(state)
      ensures r.Failure? ==> r.error == Unavailable
      ensures r.Success? ==> state.pendingInstalls == map[]
      ensures r.Success? && old(state.pendingInstalls) != map[] ==> state.pendingRollbacks == map[]
      ensures r.Success? ==> forall id | id in old(state.pendingInstalls) ::
                && InstallReconciled(old(state), old(state.pendingInstalls[id]), state, world.receipts)
                && state == AfterInstall(old(state), old(state.pendingInstalls[id]), world.receipts, now)
      ensures r.Failure? ==> state == old(state)
    {
      var recovered := 0;
      ghost var start := state;
      var open := state.pendingInstalls;
      while open != map[]
        invariant Valid() && old(trace) <= trace && world == old(world)
        invariant open == state.pendingInstalls
        invariant open == start.pendingInstalls || open == map[]
        invariant open == start.pendingInstalls ==> state == start && recovered == 0
        invariant start.pendingInstalls != map[] && open == map[] ==> NoPending(state)
        invariant open == map[] ==> forall id | id in start.pendingInstalls ::
                    && InstallReconciled(start, start.pendingInstalls[id], state, world.receipts)
                    && state == AfterInstall(start, start.pendingInstalls[id], world.receipts, now)
        decreases |open|
      {
        Established();
        var id :| id in open;
        OnlyPending(state, id);
        var turn := ReconcileInstall(open[id], now);
        if turn.Failure? {
          return turn;
        }
        recovered := recovered + turn.value;
        open := open - {id};
      }
      return Success(recovered);
    }

    /** One turn of the rollback loop of the recovery pass. */
    method ReconcileRollback(pending: PendingRollback) returns (r: Result<nat, Error>)
      requires Valid() && world.inflight.None?
      requires pending.assignmentId in state.pendingRollbacks && state.pendingRollbacks[pending.assignmentId] == pending
      modifies this
      ensures Valid() && old(trace) <= trace && world == old(world)
      ensures r.Failure? ==> r.error == Unavailable
      ensures r.Success? ==> NoPending(state)
      ensures r.Success? ==> RollbackReconciled(old(state), pending, state, world.receipts)
      ensures state == if r.Success? then AfterRollback(old(state), pending, world.receipts) else old(state)
    {
      Established();
      OnlyPending(state, pending.assignmentId);
      if * {
        return Failure(Unavailable);
      }
      assert pending.binding.receipts[0] in pending.binding.receipts;
      if AllIn(world.receipts, pending.binding.receipts, Removed) {
        Write(PersistLifecycle(state, RolledBackBinding(pending), RolledBack, pending.rolledBackAt, 0),
              EvFinishRollback(pending));
        return Success(1);
      }
      if AllIn(world.receipts, pending.binding.receipts, Active) {
        Write(state.(pendingRollbacks := state.pendingRollbacks - {pending.assignmentId}),
              EvDropRollback(pending.assignmentId));
        return Success(0);
      }
      return Failure(RollbackRecoveryFailed);
    }

    method ReconcileRollbacks() returns (r: Result<nat, Error>)
      requires Valid() && world.inflight.None? && state.pendingInstalls == map[]
      modifies this
      ensures Valid() && old(trace) <= trace && world == old(world)
      ensures old(state.pendingRollbacks) == map[] ==> r == Success(0) && state == old(state)
      ensures r.Failure? ==> r.error == Unavailable
      ensures r.Success? ==> NoPending(state)
      ensures r.Success? ==> forall id | id in old(state.pendingRollbacks) ::
                && RollbackReconciled(old(state), old(state.pendingRollbacks[id]), state, world.receipts)
                && state == AfterRollback(old(state), old(state.pendingRollbacks[id]), world.receipts)
      ensures r.Failure? ==> state == old(state)
    {
      var recovered := 0;
      ghost var start := state;
      var open := state.pendingRollbacks;
      while open != map[]
        invariant Valid() && old(trace) <= trace && world == old(world)
        invariant open == state.pendingRollbacks && state.pendingInstalls == map[]
        invariant open == start.pendingRollbacks || open == map[]
        invariant open == start.pendingRollbacks ==> state == start && recovered == 0
        invariant start.pendingRollbacks != map[] && open == map[] ==> NoPending(state)
        invariant open == map[] ==> forall id | id in start.pendingRollbacks ::
                    && RollbackReconciled(start, start.pendingRollbacks[id], state, world.receipts)
                    && state == AfterRollback(start, start.pendingRollbacks[id], world.receipts)
        decreases |open|
      {
        Established();
        var id :| id in open;
        OnlyPending(state, id);
        var turn := ReconcileRollback(open[id]);
        if turn.Failure? {
          return turn;
        }
        recovered := recovered + turn.value;
        open := open - {id};
      }
      return Success(recovered);
    }

    /**
     The recovery pass.  If it returns, nothing is open any more and every open operation was
     settled by what the installer did; it only fails when the installer cannot be asked.
     */
    method Reconcile(now: nat) returns (r: Result<nat, Error>)
      requires Valid()
      modifies this
      ensures Valid() && old(trace) <= trace
      ensures old(NoPending(state)) ==> r == Success(0) && state == old(state) && world == old(world)
      ensures r.Failure? ==> r.error == Unavailable
      ensures r.Failure? ==> state == old(state) && !old(NoPending(state))
      ensures r.Success? ==> Settled(old(state), state, world.receipts, now) && world.inflight.None?
      ensures r.Success? ==> forall id | id in old(state.pendingInstalls) ::
                InstallReconciled(old(state), old(state.pendingInstalls[id]), state, world.receipts)
      ensures r.Success? ==> forall id | id in old(state.pendingRollbacks) ::
                RollbackReconciled(old(state), old(state.pendingRollbacks[id]), state, world.receipts)
    {
      OneKindOpen();
      if state.pendingInstalls != map[] || state.pendingRollbacks != map[] {
        var ok := RecoverInstaller();
        if !ok {
          return Failure(Unavailable);
        }
      }
      var installs := ReconcileInstalls(now);
      if installs.Failure? {
        return installs;
      }
      var rollbacks := ReconcileRollbacks();
      if rollbacks.Failure? {
        return rollbacks;
      }
      return Success(installs.value + rollbacks.value);
    }

    /** Send one queued event and record how that went. */
    method Submit(key: RequestId, attemptedAt: nat) returns (delivered: bool)
      requires Valid() && key in state.outbox && state.outbox[key].deliveredAt.None?
      modifies this
      ensures Valid() && old(trace) <= trace
      ensures world == old(world).(acknowledged := world.acknowledged)
      ensures key in state.outbox
      ensures state == old(state).(outbox := old(state).outbox[key := state.outbox[key]])
      ensures AttemptedOnce(old(state).outbox[key], state.outbox[key], attemptedAt)
      ensures delivered <==> state.outbox[key].deliveredAt.Some?
      ensures delivered ==> state.outbox[key].request in world.acknowledged
    {
      var item := state.outbox[key];
      var acknowledged, answered, terminal, hostedReceiptId := *, *, *, *;
      if acknowledged {
        Act(world.(acknowledged := world.acknowledged + {item.request}), EvAcknowledge(key));
      }
      delivered := acknowledged && answered;
      var next := item.(attempts := item.attempts + 1, lastAttemptAt := Some(attemptedAt));
      if delivered {
        next := next.(deliveredAt := Some(attemptedAt), terminalFailureAt := None, hostedReceiptId := Some(hostedReceiptId));
        Write(state.(outbox := state.outbox[key := next]), EvDelivery(key, next));
      } else {
        // an answer about another event counts as a failure that is not worth retrying
        next := next.(terminalFailureAt := if terminal then Some(attemptedAt) else item.terminalFailureAt);
        Write(state.(outbox := state.outbox[key := next]), EvAttempt(key, next));
      }
    }

    /** Every undelivered event is attempted once; what is delivered is not touched again. */
    method FlushOutbox(now: nat) returns (sent: nat, pending: nat)
      requires Valid()
      modifies this
      ensures Valid() && old(trace) <= trace
      ensures world == old(world).(acknowledged := world.acknowledged)
      ensures state == old(state).(outbox := state.outbox) && state.outbox.Keys == old(state).outbox.Keys
      ensures forall key | key in state.outbox ::
                if old(state).outbox[key].deliveredAt.Some? then state.outbox[key] == old(state).outbox[key]
                else AttemptedOnce(old(state).outbox[key], state.outbox[key], now)
      ensures pending == |Undelivered(state)| && sent + pending == |Undelivered(old(state))|
    {
      ghost var start := state;
      sent := 0;
      var keys := Undelivered(state);
      while keys != {}
        invariant Valid() && old(trace) <= trace
        invariant world == old(world).(acknowledged := world.acknowledged)
        invariant Flushing(start, state, keys, now)
        invariant sent + |Undelivered(state)| == |Undelivered(start)|
        decreases |keys|
      {
        var key :| key in keys;
        ghost var before := state;
        var delivered := Submit(key, now);
        FlushedNext(start, before, state, keys, key, now);
        if delivered {
          sent := sent + 1;
        }
        keys := keys - {key};
      }
      pending := |Undelivered(state)|;
    }

    /** Reconcile, then send what is queued. */
    method FlushPendingReceipts(now: nat) returns (r: Result<(nat, nat), Error>)
      requires Valid()
      modifies this
      ensures Valid() && old(trace) <= trace
      ensures r.Success? ==> NoPending(state) && world.inflight.None? && r.value.1 == |Undelivered(state)|
      ensures old(NoPending(state)) ==> r.Success? && world.receipts == old(world.receipts)
      ensures old(NoPending(state)) ==> state == old(state).(outbox := state.outbox)
    {
      var recovered := Reconcile(now);
      if recovered.Failure? {
        return Failure(recovered.error);
      }
      var sent, pending := FlushOutbox(now);
      OneKindOpen();
      return Success((sent, pending));
    }

    /**
     Reconcile, check what the cloud lists, and store the plan; `agents` are the tools chosen, if
     they are allowed, and `planned` is what download, verification and planning give. A plan only
     names receipts of its assignment.
     */
    method PreviewInstall(choice: InstallChoice, listed: Option<Assignment>, ready: bool, agents: Option<seq<string>>,
                          planned: Result<Plan, FailureCode>, now: nat)
      returns (r: Result<string, Error>, ghost settled: System)
      requires Valid()
      requires listed.Some? ==> listed.value.id == choice.assignmentId
      requires planned.Success? ==> PlanOk(choice.assignmentId, planned.value.expected, planned.value.changed)
      modifies this
      ensures Valid() && old(trace) <= trace
      ensures r == Failure(Unavailable) ==> state == old(state) && !old(NoPending(state))
      ensures r != Failure(Unavailable) ==>
                && settled in trace && Settled(old(state), settled.state, settled.world.receipts, now)
                && world == settled.world
                && (r == Failure(AssignmentUnavailable) <==> listed == None)
                && (r == Failure(AssignmentNotReady) <==> listed.Some? && !ready)
                && (r == Failure(ProjectRootRequired) <==>
                      listed.Some? && ready && choice.project && choice.projectRoot in {None, Some("")})
                && (r == Failure(TargetMismatch) <==>
                      listed.Some? && ready && (choice.project ==> choice.projectRoot !in {None, Some("")}) && agents == None)
                && (r.Success? <==>
                      && listed.Some? && ready && (choice.project ==> choice.projectRoot !in {None, Some("")})
                      && agents.Some? && planned.Success?)
                && (r.Failure? ==> state == settled.state)
      ensures r.Success? ==>
                && r.value == "install_preview_v1_" + planned.value.previewToken && r.value in state.previews
                && state == settled.state.(previews := settled.state.previews[r.value := state.previews[r.value]])
                && state.previews[r.value] == StoredPreview(listed.value, choice, agents.value, planned.value)
                && PlannedAs(state.previews[r.value], listed.value, planned.value)
                && ChosenAs(state.previews[r.value], choice, agents.value)
    {
      settled := System(state, world);
      var recovered := Reconcile(now);
      if recovered.Failure? {
        return Failure(recovered.error), settled;
      }
      settled := System(state, world);
      assert settled in trace;
      if listed.None? {
        return Failure(AssignmentUnavailable), settled;
      }
      if !ready {
        return Failure(AssignmentNotReady), settled;
      }
      if NeedsProjectRoot(choice) {
        return Failure(ProjectRootRequired), settled;
      }
      if agents.None? {
        return Failure(TargetMismatch), settled;
      }
      if planned.Failure? {
        return Failure(PlanRejected(planned.error)), settled;
      }
      var key := PreviewKey(planned.value.previewToken);
      var preview := StoredPreview(listed.value, choice, agents.value, planned.value);
      Write(state.(previews := state.previews[key := preview]), EvPreview(key, preview));
      return Success(key), settled;
    }

    /** The installer acts on the recorded intent; an error leaves every receipt as it was. */
    method InstallLocalSubject(p: PendingInstall, reply: InstallerReply)
      requires Valid() && world.inflight.None?
      requires p.assignmentId in state.pendingInstalls && state.pendingInstalls[p.assignmentId] == p
      modifies this
      ensures Valid() && old(trace) <= trace && state == old(state) && world.inflight.None?
      ensures reply.Throws? ==> world == old(world)
      ensures reply.Returns? ==> AllIn(world.receipts, p.expected, Active)
      ensures forall r | r in old(world.receipts) && r.owner != p.assignmentId && r !in p.expected ::
                r in world.receipts && world.receipts[r] == old(world.receipts)[r]
    {
      var op := Activate(p.assignmentId, p.expected, if reply.Returns? then reply.superseded else {});
      Act(world.(inflight := Some(op)), EvBegin(op));
      if reply.Returns? {
        Act(world.(receipts := Committed(op, world.receipts), inflight := None), EvCommit);
      } else {
        Act(world.(inflight := None), EvAbort);
      }
    }

    method Install(input: InstallInput, listed: Option<Assignment>, package: Option<FailureCode>,
                   reply: InstallerReply, now: nat)
      returns (r: Result<SyncStatus, Error>, ghost settled: System)
      requires Valid()
      requires listed.Some? ==> listed.value.id == input.assignmentId
      modifies this
      ensures Valid() && old(trace) <= trace
      ensures r == Failure(ConfirmationRequired) <==> !input.confirmed
      ensures r == Failure(ConfirmationRequired) ==> state == old(state) && world == old(world)
      ensures r == Failure(Unavailable) ==> state == old(state) && !old(NoPending(state))
      ensures input.confirmed && r != Failure(Unavailable) ==>
                && settled in trace && Settled(old(state), settled.state, settled.world.receipts, now)
                && forall id | id in settled.state.bindings && id != input.assignmentId ::
                     id in state.bindings && state.bindings[id] == settled.state.bindings[id]
      ensures r == Failure(AssignmentUnavailable) || r == Failure(StaleAssignmentPreview) ==> System(state, world) == settled
      ensures input.confirmed && r != Failure(Unavailable) ==>
                && (r == Failure(AssignmentUnavailable) <==> listed == None)
                && (r == Failure(StaleAssignmentPreview) <==> listed.Some? && !Reviewed(settled.state, input, listed.value))
      ensures r.Success? ==>
                && NoPending(state) && input.assignmentId in state.bindings
                && var b := state.bindings[input.assignmentId];
                && b.state == Current && b.releaseId == input.releaseId && b.envelopeSha256 == input.envelopeSha256
                && AllIn(world.receipts, b.receipts, Active)
                && MayReport(state, b, r.value)
      ensures r.Success? && InstalledAlready(settled.state, input) ==>
                state.bindings == settled.state.bindings && world.receipts == settled.world.receipts
      ensures r.Success? && !InstalledAlready(settled.state, input) ==>
                && reply.Returns? && input.requestId in settled.state.previews
                && var b, preview := state.bindings[input.assignmentId], settled.state.previews[input.requestId];
                && state.bindings == settled.state.bindings[input.assignmentId := b]
                && b.receipts == preview.expected == reply.ids && b.changedSkillCount == preview.changedSkillCount
                && b.terms == preview.terms.(installRequestId := input.requestId)
                && b.receiptId == InstallPointer(input.assignmentId, input.releaseId, preview.previewToken)
                && b.installedAt == now && b.rolledBackAt == None && b.failureCode == None
                && b.sequence > 0 && BoundsSequences(settled.state, input.assignmentId, b.sequence - 1)
      ensures r.Failure? && (r.error.InstallerFailed? || r.error.PackageRejected?) ==>
                && NoPending(state) && input.assignmentId in state.bindings && input.requestId in settled.state.previews
                && var b, preview := state.bindings[input.assignmentId], settled.state.previews[input.requestId];
                && state.bindings == settled.state.bindings[input.assignmentId := b]
                && b.state == Failed && b.failureCode == Some(r.error.code) && b.receipts == [] && b.changedSkillCount == 0
                && b.releaseId == input.releaseId && b.envelopeSha256 == input.envelopeSha256
                && b.terms == preview.terms.(installRequestId := input.requestId)
                && b.receiptId == FailurePointer(input.assignmentId, input.releaseId, b.sequence)
                && b.sequence > 0 && BoundsSequences(settled.state, input.assignmentId, b.sequence - 1)
                && world.receipts == settled.world.receipts
      ensures r == Failure(InstallReceiptBindingMismatch) ==>
                && reply.Returns? && input.requestId in settled.state.previews
                && input.assignmentId in state.pendingInstalls
                && state == settled.state.(pendingInstalls := map[input.assignmentId := state.pendingInstalls[input.assignmentId]])
                && state.pendingInstalls[input.assignmentId].expected == settled.state.previews[input.requestId].expected != reply.ids
      ensures r.Failure? && !r.error.InstallReceiptBindingMismatch? && !r.error.Unavailable? && !r.error.ConfirmationRequired?
              ==> NoPending(state)
      ensures r.Failure? && r.error.PackageRejected? ==> package == Some(r.error.code)
      ensures r.Failure? && r.error.InstallerFailed? ==> package == None && reply == Throws(r.error.code)
    {
      settled := System(state, world);
      if !input.confirmed {
        return Failure(ConfirmationRequired), settled;
      }
      var recovered := Reconcile(now);
      if recovered.Failure? {
        return Failure(recovered.error), settled;
      }
      settled := System(state, world);
      assert settled in trace;
      if listed.None? {
        return Failure(AssignmentUnavailable), settled;
      }
      var assignment := listed.value;
      if !Reviewed(state, input, assignment) {
        return Failure(StaleAssignmentPreview), settled;
      }
      var preview := state.previews[input.requestId];
      if assignment.id in state.bindings
         && state.bindings[assignment.id].state == Current
         && state.bindings[assignment.id].releaseId == assignment.releaseId
         && state.bindings[assignment.id].envelopeSha256 == assignment.envelopeSha256 {
        assert InstalledAlready(settled.state, input);
        CurrentReceiptsActive(assignment.id);
        r := ReportCurrent(assignment.id, now);
        return;
      }
      StoredPlanOk(input.requestId);
      r := InstallReviewed(assignment, preview, input.requestId, package, reply, now);
    }

    lemma StoredPlanOk(key: string)
      requires Valid() && key in state.previews
      ensures PlanOk(state.previews[key].assignmentId, state.previews[key].expected, state.previews[key].changed)
    {
      Established();
    }

    /** The write-ahead part of install: intent, installer, lifecycle record. */
    method InstallReviewed(assignment: Assignment, preview: Preview, requestId: string,
                           package: Option<FailureCode>, reply: InstallerReply, now: nat)
      returns (r: Result<SyncStatus, Error>)
      requires Valid() && NoPending(state) && world.inflight.None?
      requires preview.assignmentId == assignment.id && PlanOk(assignment.id, preview.expected, preview.changed)
      modifies this
      ensures Valid() && old(trace) <= trace
      ensures r.Success? ==>
                && NoPending(state) && assignment.id in state.bindings
                && var b := state.bindings[assignment.id];
                && b.state == Current && b.releaseId == assignment.releaseId && b.envelopeSha256 == assignment.envelopeSha256
                && AllIn(world.receipts, b.receipts, Active)
                && MayReport(state, b, r.value)
                && state.bindings == old(state).bindings[assignment.id := b]
                && reply.Returns? && b.receipts == preview.expected == reply.ids && b.changedSkillCount == preview.changedSkillCount
                && b.terms == preview.terms.(installRequestId := requestId)
                && b.receiptId == InstallPointer(assignment.id, assignment.releaseId, preview.previewToken)
                && b.installedAt == now && b.rolledBackAt == None && b.failureCode == None
                && b.sequence > 0 && BoundsSequences(old(state), assignment.id, b.sequence - 1)
      ensures r.Failure? ==> r.error.InstallerFailed? || r.error.PackageRejected? || r.error.InstallReceiptBindingMismatch?
      ensures r.Failure? && r.error.PackageRejected? ==> package == Some(r.error.code)
      ensures r.Failure? && r.error.InstallerFailed? ==> package == None && reply == Throws(r.error.code)
      ensures r.Failure? && !r.error.InstallReceiptBindingMismatch? ==>
                && NoPending(state) && assignment.id in state.bindings
                && var b := state.bindings[assignment.id];
                && state.bindings == old(state).bindings[assignment.id := b]
                && b.state == Failed && b.failureCode == Some(r.error.code) && b.receipts == [] && b.changedSkillCount == 0
                && b.releaseId == assignment.releaseId && b.envelopeSha256 == assignment.envelopeSha256
                && b.terms == preview.terms.(installRequestId := requestId)
                && b.receiptId == FailurePointer(assignment.id, assignment.releaseId, b.sequence)
                && b.sequence > 0 && BoundsSequences(old(state), assignment.id, b.sequence - 1)
                && world.receipts == old(world.receipts)
      ensures r == Failure(InstallReceiptBindingMismatch) ==>
                && reply.Returns? && assignment.id in state.pendingInstalls
                && state.pendingInstalls[assignment.id].expected == preview.expected != reply.ids
                && state == old(state).(pendingInstalls := map[assignment.id := state.pendingInstalls[assignment.id]])
      ensures forall id | id in old(state).bindings && id != assignment.id ::
                id in state.bindings && state.bindings[id] == old(state).bindings[id]
    {
      var sequence := NextLifecycleSequence(assignment.observedSequence, assignment.id, state);
      var pending := PendingInstall(
        assignment.id, assignment.releaseId, assignment.envelopeSha256,
        preview.terms.(installRequestId := requestId),
        InstallPointer(assignment.id, assignment.releaseId, preview.previewToken),
        preview.expected, preview.changed, preview.changedSkillCount, now, sequence);
      if package.Some? {
        r := FailInstall(pending, package.value, PackageRejected(package.value), now);
        return;
      }
      Write(state.(pendingInstalls := state.pendingInstalls[pending.assignmentId := pending]), EvInstallIntent(pending));
      InstallLocalSubject(pending, reply);
      if reply.Throws? {
        r := FailInstall(pending, reply.code, InstallerFailed(reply.code), now);
        return;
      }
      if reply.ids != pending.expected {
        return Failure(InstallReceiptBindingMismatch);
      }
      FinalizeInstall(pending);
      assert NoPending(state);
      r := ReportCurrent(pending.assignmentId, now);
    }

    /** Record a failed install, try to send the event, and report the original error. */
    method FailInstall(p: PendingInstall, code: FailureCode, error: Error, now: nat) returns (r: Result<SyncStatus, Error>)
      requires Valid() && world.inflight.None?
      requires (p.assignmentId in state.pendingInstalls && state.pendingInstalls[p.assignmentId] == p)
            || (NoPending(state) && IntentOk(state, p))
      modifies this
      ensures Valid() && old(trace) <= trace && r == Failure(error)
      ensures NoPending(state) && p.assignmentId in state.bindings
      ensures state.bindings == old(state).bindings[p.assignmentId := state.bindings[p.assignmentId]]
      ensures FailedAs(state.bindings[p.assignmentId], p, code)
      ensures world.receipts == old(world.receipts)
    {
      Established();
      OnlyPending(state, p.assignmentId);
      RecordFailedInstall(p, code, now);
      var _ := FlushPendingReceipts(now);
      return Failure(error);
    }

    /** Flush with nothing open, then report how the binding's own event stands. */
    method ReportCurrent(id: AssignmentId, now: nat) returns (r: Result<SyncStatus, Error>)
      requires Valid() && NoPending(state) && id in state.bindings
      modifies this
      ensures Valid() && old(trace) <= trace && r.Success?
      ensures NoPending(state) && state.bindings == old(state.bindings) && world.receipts == old(world.receipts)
      ensures MayReport(state, state.bindings[id], r.value)
    {
      var _ := FlushPendingReceipts(now);
      var status := CurrentReceiptSyncStatus(state, state.bindings[id]);
      return Success(status);
    }

    method Rollback(id: AssignmentId, receiptId: Pointer, confirmed: bool, reply: RollbackReply,
                    restored: set<ReceiptId>, now: nat)
      returns (r: Result<SyncStatus, Error>, ghost settled: Option<System>)
      requires Valid()
      modifies this
      ensures Valid() && old(trace) <= trace
      ensures r == Failure(ConfirmationRequired) <==> !confirmed
      ensures settled == None ==>
                && (r == Failure(ConfirmationRequired) || (r == Failure(Unavailable) && !old(NoPending(state))))
                && state == old(state)
      ensures !confirmed ==> settled == None && world == old(world)
      ensures settled.Some? ==>
                && settled.value in trace && Settled(old(state), settled.value.state, settled.value.world.receipts, now)
                && forall other | other in settled.value.state.bindings && other != id ::
                     other in state.bindings && state.bindings[other] == settled.value.state.bindings[other]
      ensures r.Success? ==>
                && settled.Some? && NoPending(state)
                && id in settled.value.state.bindings && settled.value.state.bindings[id].state == Current
                && settled.value.state.bindings[id].receiptId == receiptId
                && var b := settled.value.state.bindings[id];
                && id in state.bindings && state.bindings == settled.value.state.bindings[id := state.bindings[id]]
                && RolledBackFrom(state.bindings[id], b, now, b.sequence + 1)
                && AllIn(world.receipts, b.receipts, Removed)
                && MayReport(state, state.bindings[id], r.value)
      ensures settled.Some? && r == Failure(Unavailable) ==>
                && id in settled.value.state.bindings
                && var b := settled.value.state.bindings[id];
                && state == settled.value.state.(pendingRollbacks := map[id := PendingRollback(id, b, now, b.sequence + 1)])
                && (AllIn(world.receipts, b.receipts, Removed) || AllIn(world.receipts, b.receipts, Active))
      ensures r == Failure(RollbackLocalDrift) ==>
                && settled.Some? && state == settled.value.state && world.receipts == settled.value.world.receipts
                && id in state.bindings && state.bindings[id].state == Current
                && AllIn(world.receipts, state.bindings[id].receipts, Active)
      ensures r == Failure(RollbackBindingMismatch) ==>
                && settled == Some(System(state, world))
                && (id !in state.bindings || state.bindings[id].receiptId != receiptId || state.bindings[id].state != Current)
    {
      settled := None;
      if !confirmed {
        return Failure(ConfirmationRequired), settled;
      }
      var recovered := Reconcile(now);
      if recovered.Failure? {
        return Failure(recovered.error), settled;
      }
      settled := Some(System(state, world));
      assert settled.value in trace;
      if id !in state.bindings || state.bindings[id].receiptId != receiptId || state.bindings[id].state != Current {
        return Failure(RollbackBindingMismatch), settled;
      }
      r := RollbackCurrent(id, reply, restored, now);
    }

    lemma CurrentReceiptsActive(id: AssignmentId)
      requires Valid() && NoPending(state) && id in state.bindings && state.bindings[id].state == Current
      ensures AllIn(world.receipts, state.bindings[id].receipts, Active)
      ensures state.bindings[id].assignmentId == id
    {
      Established();
      assert BindingActive(state, world.receipts, id);
    }

    /** The write-ahead part of rollback: intent, installer, lifecycle record. */
    method RollbackCurrent(id: AssignmentId, reply: RollbackReply, restored: set<ReceiptId>, now: nat)
      returns (r: Result<SyncStatus, Error>)
      requires Valid() && NoPending(state) && world.inflight.None?
      requires id in state.bindings && state.bindings[id].state == Current
      modifies this
      ensures Valid() && old(trace) <= trace
      ensures r.Success? ==>
                && NoPending(state)
                && var b := old(state).bindings[id];
                && id in state.bindings && state.bindings == old(state).bindings[id := state.bindings[id]]
                && RolledBackFrom(state.bindings[id], b, now, b.sequence + 1)
                && AllIn(world.receipts, b.receipts, Removed)
                && MayReport(state, state.bindings[id], r.value)
      ensures r.Failure? ==> r.error.Unavailable? || r.error.RollbackLocalDrift?
      ensures r == Failure(Unavailable) ==>
                && var b := old(state).bindings[id];
                && state == old(state).(pendingRollbacks := map[id := PendingRollback(id, b, now, b.sequence + 1)])
                && (AllIn(world.receipts, b.receipts, Removed) || AllIn(world.receipts, b.receipts, Active))
      ensures r == Failure(RollbackLocalDrift) ==>
                && state == old(state) && world.receipts == old(world.receipts)
                && AllIn(world.receipts, state.bindings[id].receipts, Active)
    {
      var binding := state.bindings[id];
      var pending := PendingRollback(id, binding, now, binding.sequence + 1);
      CurrentReceiptsActive(id);
      Write(state.(pendingRollbacks := state.pendingRollbacks[id := pending]), EvRollbackIntent(id, now));
      var op := Deactivate(id, binding.receipts, restored);
      Act(world.(inflight := Some(op)), EvBegin(op));
      if reply.RolledBackAll? || (reply.RollbackThrows? && reply.committed) {
        Act(world.(receipts := Committed(op, world.receipts), inflight := None), EvCommit);
      } else {
        Act(world.(inflight := None), EvAbort);
      }
      if reply.RollbackThrows? {
        return Failure(Unavailable);
      }
      if reply.Drifted? {
        Write(state.(pendingRollbacks := state.pendingRollbacks - {id}), EvDropRollback(id));
        assert state.pendingRollbacks == old(state).pendingRollbacks;
        return Failure(RollbackLocalDrift);
      }
      Write(PersistLifecycle(state, RolledBackBinding(pending), RolledBack, now, 0), EvFinishRollback(pending));
      assert state.pendingRollbacks == map[];
      r := ReportCurrent(id, now);
    }
  }

  /**
   After a returning reconcile an interrupted install reads `current` exactly when all of its
   receipts are active, or when none of its changes happened and the assignment already had a
   `current` binding, of an older release.
   */
  lemma CurrentAfterReconcile(s: System, p: PendingInstall, t: State, receipts: Receipts)
    requires Invariant(s) && p.assignmentId in s.state.pendingInstalls && s.state.pendingInstalls[p.assignmentId] == p
    requires InstallReconciled(s.state, p, t, receipts)
    ensures (p.assignmentId in t.bindings && t.bindings[p.assignmentId].state == Current)
       <==> || AllIn(receipts, p.expected, Active)
            || (&& (forall r | r in p.changed :: !(r in receipts && receipts[r] == Active))
                && p.assignmentId in s.state.bindings && s.state.bindings[p.assignmentId].state == Current)
  {
  }

  function ExampleInstall(release: string, sequence: nat): PendingInstall {
    PendingInstall("a", release, "", Terms("", "", "", "", []), InstallPointer("a", release, ""),
                   [ReceiptId("a", release)], [ReceiptId("a", release)], 1, 0, sequence)
  }

  function ExampleInstalled(): System {
    var b := CurrentBinding(ExampleInstall("first", 1));
    System(State(map[], map[], map[], map["a" := b],
                 map[RequestId(b.receiptId, b.releaseId, 1, Current) := NewItem(ReceiptRequest(b, Current, 0, 0))]),
           World(map[ReceiptId("a", "first") := Active], None, {}))
  }

  lemma ExampleFirstInstall() returns (trace: seq<System>)
    ensures Run(trace) && trace[|trace| - 1] == ExampleInstalled()
  {
    var first := ExampleInstall("first", 1);
    var op := Activate("a", first.expected, {});
    var s0 := INITIAL;
    var s1 := s0.(state := s0.state.(pendingInstalls := map["a" := first]));
    var s2 := s1.(world := s1.world.(inflight := Some(op)));
    var s3 := s2.(world := World(map[ReceiptId("a", "first") := Active], None, {}));
    assert StepBy(s0, s1, EvInstallIntent(first));
    assert StepBy(s1, s2, EvBegin(op));
    assert Committed(op, map[]) == map[ReceiptId("a", "first") := Active];
    assert StepBy(s2, s3, EvCommit);
    assert StepBy(s3, ExampleInstalled(), EvFinishInstall(first));
    trace := [s0, s1, s2, s3, ExampleInstalled()];
  }

  /** The second way is reachable: an upgrade interrupted before its installer acted. */
  lemma InterruptedUpgradeKeepsOlderRelease() returns (trace: seq<System>)
    ensures Run(trace) && |trace| > 1
    ensures var p := ExampleInstall("second", 2);
            var s, t := trace[|trace| - 2], trace[|trace| - 1];
            && s.state.pendingInstalls == map["a" := p]
            && NoPending(t.state)
            && "a" in t.state.bindings && t.state.bindings["a"].state == Current
            && !AllIn(t.world.receipts, p.expected, Active)
  {
    var second := ExampleInstall("second", 2);
    var s := ExampleInstalled();
    var pending := s.(state := s.state.(pendingInstalls := map["a" := second]));
    trace := ExampleFirstInstall();
    assert StepBy(s, pending, EvInstallIntent(second));
    assert second.expected[0] !in s.world.receipts;
    assert StepBy(pending, s, EvDropInstall("a"));
    trace := trace + [pending, s];
  }
}
