/**
 The team assignment lifecycle as a machine over its durable state.

 Each step is one atomic durable update: one write of the state file, one act of the
 installer, or one acknowledgement by the cloud.  A crash leaves the durable state where it
 is, so the runs of the machine, cut off anywhere, are the executions with crashes.
 `TeamAssignmentRuntime` proves that every update of the program is a step of this machine.
 */
module TeamAssignmentMachine {
  import opened Wrappers
  import opened TeamAssignmentState

  /**
   An installer operation.  `Activate` makes every expected receipt active and may supersede
   other receipts of the same assignment; `Deactivate` removes every receipt and may bring
   superseded ones of the same assignment back.
   */
  datatype InstallerOp =
    | Activate(id: AssignmentId, ids: seq<ReceiptId>, touched: set<ReceiptId>)
    | Deactivate(id: AssignmentId, ids: seq<ReceiptId>, touched: set<ReceiptId>)

  /** What the installer and the cloud remember; `inflight` has begun and is not settled. */
  datatype World = World(receipts: Receipts, inflight: Option<InstallerOp>, acknowledged: set<Request>)

  datatype System = System(state: State, world: World)

  const INITIAL := System(EMPTY_STATE, World(map[], None, {}))

  function Committed(op: InstallerOp, receipts: Receipts): Receipts {
    map r | r in receipts.Keys + (set r | r in op.ids) ::
      if r in op.ids then (if op.Activate? then Active else Removed)
      else if r in op.touched && r.owner == op.id then (if op.Activate? then Superseded else Active)
      else receipts[r]
  }

  predicate OwnedNonempty(id: AssignmentId, receipts: seq<ReceiptId>) {
    receipts != [] && forall r | r in receipts :: r.owner == id
  }

  predicate PlanOk(id: AssignmentId, expected: seq<ReceiptId>, changed: seq<ReceiptId>) {
    OwnedNonempty(id, expected) && forall r | r in changed :: r in expected
  }

  // ----- steps -----

  ghost predicate RecordPreview(s: System, t: System, key: string, preview: Preview) {
    && PlanOk(preview.assignmentId, preview.expected, preview.changed)
    && t == s.(state := s.state.(previews := s.state.previews[key := preview]))
  }

  ghost predicate FreshSequence(s: State, id: AssignmentId, sequence: nat) {
    sequence > 0 && BoundsSequences(s, id, sequence - 1)
  }

  ghost predicate IntentOk(s: State, p: PendingInstall) {
    && PlanOk(p.assignmentId, p.expected, p.changed)
    && p.receiptId.InstallPointer? && p.receiptId.assignmentId == p.assignmentId
    && FreshSequence(s, p.assignmentId, p.sequence)
  }

  ghost predicate RecordInstallIntent(s: System, t: System, p: PendingInstall) {
    && NoPending(s.state) && s.world.inflight.None?
    && IntentOk(s.state, p)
    && t == s.(state := s.state.(pendingInstalls := s.state.pendingInstalls[p.assignmentId := p]))
  }

  ghost predicate RecordRollbackIntent(s: System, t: System, id: AssignmentId, at: nat) {
    && NoPending(s.state) && s.world.inflight.None?
    && id in s.state.bindings && s.state.bindings[id].state == Current
    && var binding := s.state.bindings[id];
    t == s.(state := s.state.(pendingRollbacks :=
                s.state.pendingRollbacks[id := PendingRollback(id, binding, at, binding.sequence + 1)]))
  }

  /** The installer may only act on a recorded intent. */
  predicate Intended(s: State, op: InstallerOp) {
    match op
    case Activate(id, ids, _) => id in s.pendingInstalls && ids == s.pendingInstalls[id].expected
    case Deactivate(id, ids, _) => id in s.pendingRollbacks && ids == s.pendingRollbacks[id].binding.receipts
  }

  ghost predicate InstallerBegins(s: System, t: System, op: InstallerOp) {
    && s.world.inflight.None? && Intended(s.state, op)
    && t == s.(world := s.world.(inflight := Some(op)))
  }

  ghost predicate InstallerCommits(s: System, t: System) {
    && s.world.inflight.Some?
    && t == s.(world := s.world.(receipts := Committed(s.world.inflight.value, s.world.receipts), inflight := None))
  }

  ghost predicate InstallerAborts(s: System, t: System) {
    && s.world.inflight.Some?
    && t == s.(world := s.world.(inflight := None))
  }

  ghost predicate FinishInstall(s: System, t: System, p: PendingInstall) {
    && s.world.inflight.None?
    && p.assignmentId in s.state.pendingInstalls && s.state.pendingInstalls[p.assignmentId] == p
    && AllIn(s.world.receipts, p.expected, Active)
    && t == s.(state := PersistLifecycle(s.state, CurrentBinding(p), Current, p.installedAt, 0))
  }

  /** No expected change was committed, so the install never happened. */
  ghost predicate DropInstall(s: System, t: System, id: AssignmentId) {
    && s.world.inflight.None?
    && id in s.state.pendingInstalls
    && !AllIn(s.world.receipts, s.state.pendingInstalls[id].expected, Active)
    && t == s.(state := s.state.(pendingInstalls := s.state.pendingInstalls - {id}))
  }

  ghost predicate RecordFailure(s: System, t: System, p: PendingInstall, code: FailureCode, at: nat) {
    && s.world.inflight.None?
    && (|| (p.assignmentId in s.state.pendingInstalls && s.state.pendingInstalls[p.assignmentId] == p)
        || (NoPending(s.state) && IntentOk(s.state, p)))
    && t == s.(state := PersistLifecycle(s.state, FailedBinding(p, code), Failed, at, Max(1, |p.changed|)))
  }

  ghost predicate FinishRollback(s: System, t: System, r: PendingRollback) {
    && s.world.inflight.None?
    && r.assignmentId in s.state.pendingRollbacks && s.state.pendingRollbacks[r.assignmentId] == r
    && AllIn(s.world.receipts, r.binding.receipts, Removed)
    && t == s.(state := PersistLifecycle(s.state, RolledBackBinding(r), RolledBack, r.rolledBackAt, 0))
  }

  ghost predicate DropRollback(s: System, t: System, id: AssignmentId) {
    && s.world.inflight.None?
    && id in s.state.pendingRollbacks
    && AllIn(s.world.receipts, s.state.pendingRollbacks[id].binding.receipts, Active)
    && t == s.(state := s.state.(pendingRollbacks := s.state.pendingRollbacks - {id}))
  }

  ghost predicate CloudAcknowledges(s: System, t: System, key: RequestId) {
    && key in s.state.outbox
    && t == s.(world := s.world.(acknowledged := s.world.acknowledged + {s.state.outbox[key].request}))
  }

  ghost predicate RecordDelivery(s: System, t: System, key: RequestId, item: OutboxItem) {
    && key in s.state.outbox && s.state.outbox[key].request in s.world.acknowledged
    && item.request == s.state.outbox[key].request && item.deliveredAt.Some?
    && t == s.(state := s.state.(outbox := s.state.outbox[key := item]))
  }

  ghost predicate RecordAttempt(s: System, t: System, key: RequestId, item: OutboxItem) {
    && key in s.state.outbox
    && item.request == s.state.outbox[key].request && item.deliveredAt == s.state.outbox[key].deliveredAt
    && t == s.(state := s.state.(outbox := s.state.outbox[key := item]))
  }

  datatype Event =
    | EvPreview(key: string, preview: Preview)
    | EvInstallIntent(p: PendingInstall)
    | EvRollbackIntent(id: AssignmentId, at: nat)
    | EvBegin(op: InstallerOp)
    | EvCommit
    | EvAbort
    | EvFinishInstall(p: PendingInstall)
    | EvDropInstall(id: AssignmentId)
    | EvFailure(p: PendingInstall, code: FailureCode, at: nat)
    | EvFinishRollback(r: PendingRollback)
    | EvDropRollback(id: AssignmentId)
    | EvAcknowledge(id': RequestId)
    | EvDelivery(id': RequestId, item: OutboxItem)
    | EvAttempt(id': RequestId, item: OutboxItem)

  ghost predicate StepBy(s: System, t: System, e: Event) {
    match e
    case EvPreview(key, preview) => RecordPreview(s, t, key, preview)
    case EvInstallIntent(p) => RecordInstallIntent(s, t, p)
    case EvRollbackIntent(id, at) => RecordRollbackIntent(s, t, id, at)
    case EvBegin(op) => InstallerBegins(s, t, op)
    case EvCommit => InstallerCommits(s, t)
    case EvAbort => InstallerAborts(s, t)
    case EvFinishInstall(p) => FinishInstall(s, t, p)
    case EvDropInstall(id) => DropInstall(s, t, id)
    case EvFailure(p, code, at) => RecordFailure(s, t, p, code, at)
    case EvFinishRollback(r) => FinishRollback(s, t, r)
    case EvDropRollback(id) => DropRollback(s, t, id)
    case EvAcknowledge(key) => CloudAcknowledges(s, t, key)
    case EvDelivery(key, item) => RecordDelivery(s, t, key, item)
    case EvAttempt(key, item) => RecordAttempt(s, t, key, item)
  }

  ghost predicate Step(s: System, t: System) {
    exists e :: StepBy(s, t, e)
  }

  /** A run, possibly cut off by a crash: restarting continues from its last state. */
  ghost predicate Run(trace: seq<System>) {
    && trace != []
    && trace[0] == INITIAL
    && forall i | 0 <= i < |trace| - 1 :: Step(trace[i], trace[i + 1])
  }

  // ----- the invariant -----

  ghost predicate OnePending(s: State) {
    |s.pendingInstalls| + |s.pendingRollbacks| <= 1
  }

  ghost predicate PreviewsOk(s: State) {
    forall key | key in s.previews ::
      PlanOk(s.previews[key].assignmentId, s.previews[key].expected, s.previews[key].changed)
  }

  ghost predicate PendingOk(s: State) {
    && OnePending(s)
    && (forall id | id in s.pendingInstalls :: s.pendingInstalls[id].assignmentId == id && IntentOk(s, s.pendingInstalls[id]))
    && (forall id | id in s.pendingRollbacks ::
          && id in s.bindings
          && s.bindings[id].state == Current
          && s.pendingRollbacks[id] == PendingRollback(id, s.bindings[id], s.pendingRollbacks[id].rolledBackAt, s.bindings[id].sequence + 1))
  }

  /** Every entry is filed under its own identifier. */
  ghost predicate OutboxOk(s: State) {
    forall key | key in s.outbox ::
      var request := s.outbox[key].request;
      && request.requestId == key
      && key.sequence == request.sequence && key.releaseId == request.releaseId && key.result == request.result
      && key.pointer.assignmentId == request.assignmentId
  }

  ghost predicate DistinctSequences(s: State) {
    forall k, k' | k in s.outbox && k' in s.outbox
                   && s.outbox[k].request.assignmentId == s.outbox[k'].request.assignmentId
                   && s.outbox[k].request.sequence == s.outbox[k'].request.sequence :: k == k'
  }

  ghost function BindingRequest(binding: Binding): RequestId {
    RequestId(binding.receiptId, binding.releaseId, binding.sequence, binding.state)
  }

  /** The binding carries the largest sequence, and its own event is in the outbox. */
  ghost predicate BindingsOk(s: State) {
    forall id | id in s.bindings ::
      var b := s.bindings[id];
      && b.assignmentId == id && b.receiptId.assignmentId == id
      && BoundsSequences(s, id, b.sequence)
      && BindingRequest(b) in s.outbox
      && MatchesBinding(s.outbox[BindingRequest(b)].request, b)
      && (b.state == Current ==> OwnedNonempty(id, b.receipts))
  }

  ghost predicate BindingActive(s: State, receipts: Receipts, id: AssignmentId) {
    id in s.bindings && s.bindings[id].state == Current ==> AllIn(receipts, s.bindings[id].receipts, Active)
  }

  /** Which receipts a binding may rely on, with and without an open operation. */
  ghost predicate ReceiptsOk(s: State, receipts: Receipts) {
    && (forall id | id in s.bindings && id !in s.pendingInstalls && id !in s.pendingRollbacks ::
          BindingActive(s, receipts, id))
    && (forall id | id in s.pendingInstalls ::
          AllIn(receipts, s.pendingInstalls[id].expected, Active) || BindingActive(s, receipts, id))
    && (forall id | id in s.pendingRollbacks ::
          || AllIn(receipts, s.pendingRollbacks[id].binding.receipts, Active)
          || AllIn(receipts, s.pendingRollbacks[id].binding.receipts, Removed))
  }

  ghost predicate InflightOk(s: System) {
    s.world.inflight.Some? ==> Intended(s.state, s.world.inflight.value)
  }

  ghost predicate DeliveryOk(s: System) {
    forall key | key in s.state.outbox && s.state.outbox[key].deliveredAt.Some? ::
      s.state.outbox[key].request in s.world.acknowledged
  }

  ghost predicate Invariant(s: System) {
    && PreviewsOk(s.state) && PendingOk(s.state)
    && OutboxOk(s.state) && DistinctSequences(s.state) && BindingsOk(s.state)
    && ReceiptsOk(s.state, s.world.receipts) && InflightOk(s) && DeliveryOk(s)
  }

  // ----- every step keeps the invariant -----

  lemma OnlyPending(s: State, id: AssignmentId)
    requires OnePending(s)
    requires id in s.pendingInstalls || id in s.pendingRollbacks || NoPending(s)
    ensures s.pendingInstalls - {id} == map[] && s.pendingRollbacks - {id} == map[]
    ensures forall other | other in s.pendingInstalls || other in s.pendingRollbacks :: other == id
    ensures id in s.pendingInstalls ==> id !in s.pendingRollbacks
  {
    var installs, rollbacks := s.pendingInstalls.Keys, s.pendingRollbacks.Keys;
    if id in installs {
      assert |installs - {id}| == |installs| - 1;
      assert installs - {id} == {} && rollbacks == {};
    } else if id in rollbacks {
      assert |rollbacks - {id}| == |rollbacks| - 1;
      assert rollbacks - {id} == {} && installs == {};
    }
    assert forall other | other in installs && other != id :: other in installs - {id};
    assert forall other | other in rollbacks && other != id :: other in rollbacks - {id};
  }

  ghost predicate MayPersist(s: State, b: Binding) {
    && b.receiptId.assignmentId == b.assignmentId
    && FreshSequence(s, b.assignmentId, b.sequence)
    && (b.state == Current ==> OwnedNonempty(b.assignmentId, b.receipts))
    && (b.assignmentId in s.pendingInstalls || b.assignmentId in s.pendingRollbacks || NoPending(s))
  }

  /** What the cloud is told about a binding; only a failure has blocked skills and a failure code. */
  ghost predicate Reports(request: Request, b: Binding) {
    && request.requestId == BindingRequest(b)
    && request.assignmentId == b.assignmentId && request.releaseId == b.releaseId
    && request.sequence == b.sequence && request.result == b.state
    && request.scope == b.terms.scope && request.targetAgents == b.terms.targetAgents
    && request.changedSkillCount == b.changedSkillCount
    && request.rollbackPointer == (if b.state == Failed then None else Some(b.receiptId))
    && request.failureCode == b.failureCode
    && (b.failureCode.Some? <==> b.state == Failed) && (request.blockedSkillCount > 0 <==> b.state == Failed)
    && (b.state == Current ==> request.occurredAt == b.installedAt)
    && (b.state == RolledBack ==> b.rolledBackAt == Some(request.occurredAt))
  }

  /** Nothing was sent yet. */
  predicate Unsent(item: OutboxItem) {
    item.attempts == 0 && item.lastAttemptAt.None? && item.deliveredAt.None? && item.terminalFailureAt.None?
  }

  /** A lifecycle write closes the open operation and queues a new event with the largest sequence. */
  lemma PersistWrites(s: State, b: Binding, at: nat, blocked: nat)
    requires OnePending(s) && OutboxOk(s) && MayPersist(s, b)
    ensures BindingRequest(b) !in s.outbox
    ensures
      var t := PersistLifecycle(s, b, b.state, at, blocked);
      var item := NewItem(ReceiptRequest(b, b.state, at, blocked));
      && t == s.(pendingInstalls := map[], pendingRollbacks := map[],
                 bindings := s.bindings[b.assignmentId := b],
                 outbox := s.outbox[BindingRequest(b) := item])
      && Unsent(item) && item.request.occurredAt == at && item.request.blockedSkillCount == blocked
  {
    assert forall key | key in s.outbox && s.outbox[key].request.assignmentId == b.assignmentId ::
        s.outbox[key].request.sequence < b.sequence;
    OnlyPending(s, b.assignmentId);
  }

  lemma PersistKeepsOutbox(s: State, b: Binding, at: nat, blocked: nat)
    requires OnePending(s) && OutboxOk(s) && DistinctSequences(s) && MayPersist(s, b)
    ensures OutboxOk(PersistLifecycle(s, b, b.state, at, blocked))
    ensures DistinctSequences(PersistLifecycle(s, b, b.state, at, blocked))
  {
    PersistWrites(s, b, at, blocked);
    assert forall key | key in s.outbox && s.outbox[key].request.assignmentId == b.assignmentId ::
        s.outbox[key].request.sequence < b.sequence;
  }

  lemma PersistKeepsBindings(s: State, b: Binding, at: nat, blocked: nat)
    requires OnePending(s) && OutboxOk(s) && BindingsOk(s) && MayPersist(s, b)
    ensures BindingsOk(PersistLifecycle(s, b, b.state, at, blocked))
  {
    PersistWrites(s, b, at, blocked);
    var t := PersistLifecycle(s, b, b.state, at, blocked);
    forall id | id in t.bindings
      ensures BoundsSequences(t, id, t.bindings[id].sequence)
    {
      if id != b.assignmentId {
        assert BoundsSequences(s, id, s.bindings[id].sequence);
      }
    }
  }

  lemma PersistKeeps(s: System, t: System, b: Binding, at: nat, blocked: nat)
    requires Invariant(s) && s.world.inflight.None? && MayPersist(s.state, b)
    requires t == s.(state := PersistLifecycle(s.state, b, b.state, at, blocked))
    requires b.state == Current ==> AllIn(s.world.receipts, b.receipts, Active)
    ensures Invariant(t) && NoPending(t.state)
  {
    PersistWrites(s.state, b, at, blocked);
    PersistKeepsOutbox(s.state, b, at, blocked);
    PersistKeepsBindings(s.state, b, at, blocked);
    OnlyPending(s.state, b.assignmentId);
    forall id | id in t.state.bindings ensures BindingActive(t.state, t.world.receipts, id) {
      if id != b.assignmentId {
        assert id in s.state.bindings && id !in s.state.pendingInstalls && id !in s.state.pendingRollbacks;
      }
    }
  }

  lemma UntouchedBindingStays(s: State, before: Receipts, after: Receipts, id: AssignmentId, other: AssignmentId)
    requires BindingsOk(s) && other != id
    requires forall r | r in before && r.owner != id :: r in after && after[r] == before[r]
    ensures BindingActive(s, before, other) ==> BindingActive(s, after, other)
  {
  }

  lemma CommitKeepsReceipts(s: System, op: InstallerOp)
    requires Invariant(s) && Intended(s.state, op)
    ensures ReceiptsOk(s.state, Committed(op, s.world.receipts))
  {
    var after := Committed(op, s.world.receipts);
    OnlyPending(s.state, op.id);
    forall other | other in s.state.bindings && other != op.id ensures BindingActive(s.state, after, other) {
      assert BindingActive(s.state, s.world.receipts, other);
      UntouchedBindingStays(s.state, s.world.receipts, after, op.id, other);
    }
    assert AllIn(after, op.ids, if op.Activate? then Active else Removed);
  }

  lemma InstallIntentKeeps(s: System, t: System, p: PendingInstall)
    requires Invariant(s) && RecordInstallIntent(s, t, p)
    ensures Invariant(t)
  {
    assert t.state.pendingInstalls == map[p.assignmentId := p];
    assert OnePending(t.state);
    assert IntentOk(t.state, p);
    SameBooks(s, t);
    assert BindingActive(t.state, t.world.receipts, p.assignmentId);
  }

  lemma RollbackIntentOk(s: State, t: State, r: PendingRollback)
    requires NoPending(s) && r.assignmentId in s.bindings && s.bindings[r.assignmentId].state == Current
    requires r.binding == s.bindings[r.assignmentId] && r.sequence == r.binding.sequence + 1
    requires t == s.(pendingRollbacks := map[r.assignmentId := r])
    ensures PendingOk(t)
  {
    assert |t.pendingRollbacks| == 1;
  }

  lemma RollbackIntentKeeps(s: System, t: System, id: AssignmentId, at: nat)
    requires Invariant(s) && RecordRollbackIntent(s, t, id, at)
    ensures Invariant(t)
  {
    var r := t.state.pendingRollbacks[id];
    assert t.state == s.state.(pendingRollbacks := map[id := r]);
    RollbackIntentOk(s.state, t.state, r);
    SameBooks(s, t);
    assert BindingActive(s.state, s.world.receipts, id);
  }

  /** Steps that leave bindings and outbox alone keep what is said about them. */
  lemma SameBooks(s: System, t: System)
    requires Invariant(s) && t.world == s.world
    requires t.state.bindings == s.state.bindings && t.state.outbox == s.state.outbox
    ensures OutboxOk(t.state) && DistinctSequences(t.state) && BindingsOk(t.state) && DeliveryOk(t)
  {
  }

  lemma ClosingKeeps(s: System, t: System)
    requires Invariant(s) && NoPending(t.state) && s.world.inflight.None? && t.world == s.world
    requires t.state == s.state.(pendingInstalls := map[], pendingRollbacks := map[])
    requires forall id | id in s.state.bindings :: BindingActive(s.state, s.world.receipts, id)
    ensures Invariant(t)
  {
    SameBooks(s, t);
  }

  lemma DropInstallKeeps(s: System, t: System, id: AssignmentId)
    requires Invariant(s) && DropInstall(s, t, id)
    ensures Invariant(t) && NoPending(t.state)
  {
    OnlyPending(s.state, id);
    forall other | other in s.state.bindings ensures BindingActive(s.state, s.world.receipts, other) {
      if other != id {
        assert other !in s.state.pendingInstalls && other !in s.state.pendingRollbacks;
      }
    }
    assert s.state.pendingRollbacks == map[];
    ClosingKeeps(s, t);
  }

  lemma DropRollbackKeeps(s: System, t: System, id: AssignmentId)
    requires Invariant(s) && DropRollback(s, t, id)
    ensures Invariant(t) && NoPending(t.state)
  {
    OnlyPending(s.state, id);
    forall other | other in s.state.bindings ensures BindingActive(s.state, s.world.receipts, other) {
      if other != id {
        assert other !in s.state.pendingInstalls && other !in s.state.pendingRollbacks;
      }
    }
    assert s.state.pendingInstalls == map[];
    ClosingKeeps(s, t);
  }

  lemma ItemUpdateKeepsOutbox(s: State, t: State, key: RequestId, item: OutboxItem)
    requires OutboxOk(s) && DistinctSequences(s) && BindingsOk(s)
    requires key in s.outbox && item.request == s.outbox[key].request
    requires t == s.(outbox := s.outbox[key := item])
    ensures OutboxOk(t) && DistinctSequences(t) && BindingsOk(t)
  {
    assert forall k | k in t.outbox :: k in s.outbox && t.outbox[k].request == s.outbox[k].request;
    forall id | id in t.bindings ensures BoundsSequences(t, id, t.bindings[id].sequence) {
      assert BoundsSequences(s, id, s.bindings[id].sequence);
    }
  }

  lemma ItemUpdateKeepsPending(s: State, t: State, key: RequestId, item: OutboxItem)
    requires PendingOk(s)
    requires key in s.outbox && item.request == s.outbox[key].request
    requires t == s.(outbox := s.outbox[key := item])
    ensures PendingOk(t)
  {
    assert forall k | k in t.outbox :: k in s.outbox && t.outbox[k].request == s.outbox[k].request;
    forall id | id in t.pendingInstalls ensures IntentOk(t, t.pendingInstalls[id]) {
      assert BoundsSequences(s, id, s.pendingInstalls[id].sequence - 1);
    }
  }

  lemma ItemUpdateKeeps(s: System, t: System, key: RequestId, item: OutboxItem)
    requires Invariant(s)
    requires key in s.state.outbox && item.request == s.state.outbox[key].request
    requires item.deliveredAt.Some? ==> s.state.outbox[key].deliveredAt.Some? || item.request in s.world.acknowledged
    requires t == s.(state := s.state.(outbox := s.state.outbox[key := item]))
    ensures Invariant(t)
  {
    ItemUpdateKeepsOutbox(s.state, t.state, key, item);
    ItemUpdateKeepsPending(s.state, t.state, key, item);
    ItemUpdateKeepsReceipts(s, t);
  }

  lemma ItemUpdateKeepsReceipts(s: System, t: System)
    requires ReceiptsOk(s.state, s.world.receipts) && InflightOk(s) && t.world == s.world
    requires t.state == s.state.(outbox := t.state.outbox)
    ensures ReceiptsOk(t.state, t.world.receipts) && InflightOk(t)
  {
  }

  lemma WorldStepKeeps(s: System, t: System)
    requires Invariant(s) && t.state == s.state
    requires t.world.acknowledged >= s.world.acknowledged
    requires ReceiptsOk(t.state, t.world.receipts) && InflightOk(t)
    ensures Invariant(t)
  {
  }

  lemma PreviewKeeps(s: System, t: System, key: string, preview: Preview)
    requires Invariant(s) && RecordPreview(s, t, key, preview)
    ensures Invariant(t)
  {
    SameBooks(s, t);
  }

  predicate Lifecycle(e: Event) {
    e.EvFinishInstall? || e.EvFailure? || e.EvFinishRollback?
  }

  /** The binding, the time and the blocked count that a lifecycle event writes. */
  function Written(e: Event): (Binding, nat, nat)
    requires Lifecycle(e)
  {
    match e
    case EvFinishInstall(p) => (CurrentBinding(p), p.installedAt, 0)
    case EvFailure(p, code, at) => (FailedBinding(p, code), at, Max(1, |p.changed|))
    case EvFinishRollback(r) => (RolledBackBinding(r), r.rolledBackAt, 0)
  }

  lemma FinishInstallPersists(s: System, t: System, p: PendingInstall)
    requires PendingOk(s.state) && FinishInstall(s, t, p)
    ensures MayPersist(s.state, CurrentBinding(p)) && AllIn(s.world.receipts, CurrentBinding(p).receipts, Active)
  {
  }

  lemma FailurePersists(s: System, t: System, p: PendingInstall, code: FailureCode, at: nat)
    requires PendingOk(s.state) && RecordFailure(s, t, p, code, at)
    ensures MayPersist(s.state, FailedBinding(p, code))
  {
  }

  lemma FinishRollbackPersists(s: System, t: System, r: PendingRollback)
    requires PendingOk(s.state) && BindingsOk(s.state) && FinishRollback(s, t, r)
    ensures MayPersist(s.state, RolledBackBinding(r))
  {
  }

  lemma LifecycleStepPersists(s: System, t: System, e: Event)
    requires PendingOk(s.state) && BindingsOk(s.state) && Lifecycle(e) && StepBy(s, t, e)
    ensures var (b, at, blocked) := Written(e);
            && s.world.inflight.None? && MayPersist(s.state, b)
            && t == s.(state := PersistLifecycle(s.state, b, b.state, at, blocked))
            && (b.state == Current ==> AllIn(s.world.receipts, b.receipts, Active))
  {
    match e
    case EvFinishInstall(p) => FinishInstallPersists(s, t, p);
    case EvFailure(p, code, at) => FailurePersists(s, t, p, code, at);
    case EvFinishRollback(r) => FinishRollbackPersists(s, t, r);
  }

  lemma LifecycleStepKeeps(s: System, t: System, e: Event)
    requires Invariant(s) && Lifecycle(e) && StepBy(s, t, e)
    ensures Invariant(t)
  {
    LifecycleStepPersists(s, t, e);
    var (b, at, blocked) := Written(e);
    PersistKeeps(s, t, b, at, blocked);
  }

  lemma PendingStepKeeps(s: System, t: System, e: Event)
    requires Invariant(s) && StepBy(s, t, e)
    requires e.EvInstallIntent? || e.EvRollbackIntent? || e.EvDropInstall? || e.EvDropRollback?
    ensures Invariant(t)
  {
    match e
    case EvInstallIntent(p) => InstallIntentKeeps(s, t, p);
    case EvRollbackIntent(id, at) => RollbackIntentKeeps(s, t, id, at);
    case EvDropInstall(id) => DropInstallKeeps(s, t, id);
    case EvDropRollback(id) => DropRollbackKeeps(s, t, id);
  }

  lemma InstallerStepKeeps(s: System, t: System, e: Event)
    requires Invariant(s) && StepBy(s, t, e)
    requires e.EvBegin? || e.EvCommit? || e.EvAbort?
    ensures Invariant(t)
  {
    if e.EvCommit? {
      CommitKeepsReceipts(s, s.world.inflight.value);
    }
    WorldStepKeeps(s, t);
  }

  lemma OutboxStepKeeps(s: System, t: System, e: Event)
    requires Invariant(s) && StepBy(s, t, e)
    requires e.EvPreview? || e.EvAcknowledge? || e.EvDelivery? || e.EvAttempt?
    ensures Invariant(t)
  {
    match e
    case EvPreview(key, preview) => PreviewKeeps(s, t, key, preview);
    case EvAcknowledge(key) => WorldStepKeeps(s, t);
    case EvDelivery(key, item) => ItemUpdateKeeps(s, t, key, item);
    case EvAttempt(key, item) => ItemUpdateKeeps(s, t, key, item);
  }

  /** Every atomic update keeps the invariant, whatever the installer and the cloud answer. */
  lemma StepKeepsInvariant(s: System, t: System)
    requires Invariant(s) && Step(s, t)
    ensures Invariant(t)
  {
    var e :| StepBy(s, t, e);
    if Lifecycle(e) {
      LifecycleStepKeeps(s, t, e);
    } else if e.EvInstallIntent? || e.EvRollbackIntent? || e.EvDropInstall? || e.EvDropRollback? {
      PendingStepKeeps(s, t, e);
    } else if e.EvBegin? || e.EvCommit? || e.EvAbort? {
      InstallerStepKeeps(s, t, e);
    } else {
      OutboxStepKeeps(s, t, e);
    }
  }

  // ----- runs -----

  lemma {:induction false} RunKeepsInvariant(trace: seq<System>, i: nat)
    requires Run(trace) && i < |trace|
    ensures Invariant(trace[i])
  {
    if i > 0 {
      RunKeepsInvariant(trace, i - 1);
      StepKeepsInvariant(trace[i - 1], trace[i]);
    }
  }

  /** In every reachable state at most one operation is open. */
  lemma AtMostOneOpenOperation(trace: seq<System>, i: nat)
    requires Run(trace) && i < |trace|
    ensures |trace[i].state.pendingInstalls| + |trace[i].state.pendingRollbacks| <= 1
  {
    RunKeepsInvariant(trace, i);
  }

  /** A `current` binding without an open operation names only active receipts, and at least one. */
  lemma CurrentBindingsNameActiveReceipts(trace: seq<System>, i: nat, id: AssignmentId)
    requires Run(trace) && i < |trace|
    requires id in trace[i].state.bindings && trace[i].state.bindings[id].state == Current
    requires id !in trace[i].state.pendingInstalls && id !in trace[i].state.pendingRollbacks
    ensures AllIn(trace[i].world.receipts, trace[i].state.bindings[id].receipts, Active)
    ensures trace[i].state.bindings[id].receipts != []
  {
    RunKeepsInvariant(trace, i);
  }

  /**
   From `s` to `t` no queued event is dropped or altered, no delivery is undone, and every new
   event of an assignment has a larger sequence than all of its older events.
   */
  ghost predicate OutboxGrows(s: State, t: State) {
    && (forall key | key in s.outbox ::
          && key in t.outbox
          && t.outbox[key].request == s.outbox[key].request
          && (s.outbox[key].deliveredAt.Some? ==> t.outbox[key].deliveredAt.Some?))
    && (forall later, past | later in t.outbox && later !in s.outbox && past in s.outbox
                             && s.outbox[past].request.assignmentId == t.outbox[later].request.assignmentId ::
          s.outbox[past].request.sequence < t.outbox[later].request.sequence)
  }

  lemma PersistGrowsOutbox(s: State, b: Binding, at: nat, blocked: nat)
    requires OnePending(s) && OutboxOk(s) && MayPersist(s, b)
    ensures OutboxGrows(s, PersistLifecycle(s, b, b.state, at, blocked))
  {
    PersistWrites(s, b, at, blocked);
    assert forall key | key in s.outbox && s.outbox[key].request.assignmentId == b.assignmentId ::
        s.outbox[key].request.sequence < b.sequence;
  }

  lemma LifecycleStepGrowsOutbox(s: System, t: System, e: Event)
    requires PendingOk(s.state) && BindingsOk(s.state) && OutboxOk(s.state)
    requires Lifecycle(e) && StepBy(s, t, e)
    ensures OutboxGrows(s.state, t.state)
  {
    LifecycleStepPersists(s, t, e);
    var (b, at, blocked) := Written(e);
    PersistGrowsOutbox(s.state, b, at, blocked);
  }

  lemma OtherStepGrowsOutbox(s: System, t: System, e: Event)
    requires !Lifecycle(e) && StepBy(s, t, e)
    ensures OutboxGrows(s.state, t.state)
  {
    if e.EvDelivery? || e.EvAttempt? {
      assert t.state.outbox.Keys == s.state.outbox.Keys;
    } else {
      assert t.state.outbox == s.state.outbox;
    }
  }

  lemma StepGrowsOutbox(s: System, t: System)
    requires PendingOk(s.state) && BindingsOk(s.state) && OutboxOk(s.state) && Step(s, t)
    ensures OutboxGrows(s.state, t.state)
  {
    var e :| StepBy(s, t, e);
    if Lifecycle(e) {
      LifecycleStepGrowsOutbox(s, t, e);
    } else {
      OtherStepGrowsOutbox(s, t, e);
    }
  }

  lemma OutboxGrowsTransitively(s: State, t: State, u: State)
    requires OutboxGrows(s, t) && OutboxGrows(t, u)
    ensures OutboxGrows(s, u)
  {
    forall later, past | later in u.outbox && later !in s.outbox && past in s.outbox
                         && s.outbox[past].request.assignmentId == u.outbox[later].request.assignmentId
      ensures s.outbox[past].request.sequence < u.outbox[later].request.sequence
    {
      assert t.outbox[past].request == s.outbox[past].request;
      if later in t.outbox {
        assert u.outbox[later].request == t.outbox[later].request;
      }
    }
  }

  lemma NextStateGrowsOutbox(trace: seq<System>, i: nat)
    requires Run(trace) && i + 1 < |trace|
    ensures OutboxGrows(trace[i].state, trace[i + 1].state)
  {
    RunKeepsInvariant(trace, i);
    StepGrowsOutbox(trace[i], trace[i + 1]);
  }

  lemma {:induction false} GrowthChains(states: seq<State>, i: nat, j: nat)
    requires i <= j < |states|
    requires forall k | i <= k < j :: OutboxGrows(states[k], states[k + 1])
    ensures OutboxGrows(states[i], states[j])
    decreases j - i
  {
    if i < j {
      GrowthChains(states, i, j - 1);
      OutboxGrowsTransitively(states[i], states[j - 1], states[j - 1 + 1]);
    }
  }

  /** Through failures, crashes, replays and rollbacks, the outbox only grows, in sequence order. */
  lemma OutboxOnlyGrows(trace: seq<System>, i: nat, j: nat)
    requires Run(trace) && i <= j < |trace|
    ensures OutboxGrows(trace[i].state, trace[j].state)
  {
    var states := seq(|trace|, k requires 0 <= k < |trace| => trace[k].state);
    forall k | i <= k < j ensures OutboxGrows(states[k], states[k + 1]) {
      NextStateGrowsOutbox(trace, k);
    }
    GrowthChains(states, i, j);
  }

  /** The sequences of one assignment are pairwise distinct, and its binding carries the largest. */
  lemma BindingCarriesLargestSequence(trace: seq<System>, i: nat, id: AssignmentId)
    requires Run(trace) && i < |trace| && id in trace[i].state.bindings
    ensures BoundsSequences(trace[i].state, id, trace[i].state.bindings[id].sequence)
    ensures DistinctSequences(trace[i].state)
  {
    RunKeepsInvariant(trace, i);
  }

  /** Every reachable binding has exactly one matching outbox entry. */
  lemma ExactlyOneMatchingEntry(trace: seq<System>, i: nat, id: AssignmentId)
    requires Run(trace) && i < |trace| && id in trace[i].state.bindings
    ensures var s := trace[i].state;
            BindingRequest(s.bindings[id]) in s.outbox
            && forall key | key in s.outbox ::
                 MatchesBinding(s.outbox[key].request, s.bindings[id]) <==> key == BindingRequest(s.bindings[id])
  {
    RunKeepsInvariant(trace, i);
  }

  // ----- what bindings and their events say -----

  /** What an intent lays down for the binding that comes of it. */
  ghost predicate Fulfils(b: Binding, p: PendingInstall) {
    && b.assignmentId == p.assignmentId && b.releaseId == p.releaseId && b.envelopeSha256 == p.envelopeSha256
    && b.terms == p.terms && b.receiptId == p.receiptId && b.receipts == p.expected
    && b.changedSkillCount == p.changedSkillCount && b.installedAt == p.installedAt
  }

  /** The binding of an install that went through. */
  ghost predicate InstalledAs(b: Binding, p: PendingInstall) {
    Fulfils(b, p) && b.state == Current && b.sequence == p.sequence && b.failureCode == None && b.rolledBackAt == None
  }

  /** The binding of one that did not: it names no receipts. */
  ghost predicate FailedAs(b: Binding, p: PendingInstall, code: FailureCode) {
    && b.assignmentId == p.assignmentId && b.releaseId == p.releaseId && b.envelopeSha256 == p.envelopeSha256
    && b.terms == p.terms && b.receiptId == FailurePointer(p.assignmentId, p.releaseId, p.sequence) && b.receipts == []
    && b.changedSkillCount == 0 && b.installedAt == p.installedAt
    && b.state == Failed && b.sequence == p.sequence && b.failureCode == Some(code) && b.rolledBackAt == None
  }

  /** An earlier step recorded this intent. */
  ghost predicate WasIntended(trace: seq<System>, i: nat, p: PendingInstall)
    requires i < |trace|
  {
    exists j :: 0 <= j < i && StepBy(trace[j], trace[j + 1], EvInstallIntent(p))
  }

  lemma {:induction false} PendingWasIntended(trace: seq<System>, i: nat, id: AssignmentId)
    requires Run(trace) && i < |trace| && id in trace[i].state.pendingInstalls
    ensures WasIntended(trace, i, trace[i].state.pendingInstalls[id])
  {
    var s, t := trace[i - 1], trace[i];
    RunKeepsInvariant(trace, i);
    if id in s.state.pendingInstalls && s.state.pendingInstalls[id] == t.state.pendingInstalls[id] {
      PendingWasIntended(trace, i - 1, id);
      var j :| 0 <= j < i - 1 && StepBy(trace[j], trace[j + 1], EvInstallIntent(t.state.pendingInstalls[id]));
    } else {
      var e :| StepBy(s, trace[i - 1 + 1], e);
      OnlyNewIntent(s, t, e, id);
      assert StepBy(trace[i - 1], trace[i - 1 + 1], EvInstallIntent(t.state.pendingInstalls[id]));
    }
  }

  lemma OnlyNewIntent(s: System, t: System, e: Event, id: AssignmentId)
    requires StepBy(s, t, e) && id in t.state.pendingInstalls && t.state.pendingInstalls[id].assignmentId == id
    requires !(id in s.state.pendingInstalls && s.state.pendingInstalls[id] == t.state.pendingInstalls[id])
    ensures e == EvInstallIntent(t.state.pendingInstalls[id])
  {
  }

  lemma OtherBindingsStay(s: System, t: System, e: Event, id: AssignmentId)
    requires StepBy(s, t, e) && id in t.state.bindings
    requires Lifecycle(e) ==> Written(e).0.assignmentId != id
    ensures id in s.state.bindings && t.state.bindings[id] == s.state.bindings[id]
  {
  }

  lemma NewBindingIs(s: System, t: System, e: Event)
    requires PendingOk(s.state) && BindingsOk(s.state) && Lifecycle(e) && StepBy(s, t, e)
    ensures
      var b := Written(e).0;
      && b.assignmentId in t.state.bindings && t.state.bindings[b.assignmentId] == b
      && match e
         case EvFinishInstall(p) =>
           p.assignmentId in s.state.pendingInstalls && p == s.state.pendingInstalls[p.assignmentId] && InstalledAs(b, p)
         case EvFailure(p, code, _) => FailedAs(b, p, code)
         case EvFinishRollback(r) =>
           && r.assignmentId in s.state.bindings && s.state.bindings[r.assignmentId].state == Current
           && var before := s.state.bindings[r.assignmentId];
           && b == before.(sequence := before.sequence + 1, failureCode := None, state := RolledBack, rolledBackAt := Some(r.rolledBackAt))
           && AllIn(s.world.receipts, before.receipts, Removed)
  {
    LifecycleStepPersists(s, t, e);
  }

  /** The binding is what an intent recorded before laid down. */
  ghost predicate Intends(trace: seq<System>, i: nat, b: Binding)
    requires i < |trace|
  {
    exists p :: WasIntended(trace, i, p) && InstalledAs(b, p)
  }

  lemma IntendedStill(trace: seq<System>, i: nat, p: PendingInstall)
    requires i + 1 < |trace| && WasIntended(trace, i, p)
    ensures WasIntended(trace, i + 1, p)
  {
    var j :| 0 <= j < i && StepBy(trace[j], trace[j + 1], EvInstallIntent(p));
  }

  lemma IntendsStill(trace: seq<System>, i: nat, b: Binding)
    requires i + 1 < |trace| && Intends(trace, i, b)
    ensures Intends(trace, i + 1, b)
  {
    var p :| WasIntended(trace, i, p) && InstalledAs(b, p);
    IntendedStill(trace, i, p);
  }

  lemma NewCurrentIntended(trace: seq<System>, i: nat, e: Event, id: AssignmentId)
    requires Run(trace) && i + 1 < |trace| && StepBy(trace[i], trace[i + 1], e)
    requires Lifecycle(e) && Written(e).0.assignmentId == id
    requires id in trace[i + 1].state.bindings && trace[i + 1].state.bindings[id].state == Current
    ensures Intends(trace, i + 1, trace[i + 1].state.bindings[id])
  {
    RunKeepsInvariant(trace, i);
    NewBindingIs(trace[i], trace[i + 1], e);
    PendingWasIntended(trace, i, id);
    IntendedStill(trace, i, e.p);
  }

  /**
   Behind every `current` binding stands an intent, recorded before, whose receipts are exactly
   those that the binding names.
   */
  lemma {:induction false} CurrentWasIntended(trace: seq<System>, i: nat, id: AssignmentId)
    requires Run(trace) && i < |trace| && id in trace[i].state.bindings && trace[i].state.bindings[id].state == Current
    ensures Intends(trace, i, trace[i].state.bindings[id])
  {
    assert i > 0;
    var e :| StepBy(trace[i - 1], trace[i - 1 + 1], e);
    if Lifecycle(e) && Written(e).0.assignmentId == id {
      NewCurrentIntended(trace, i - 1, e, id);
    } else {
      OtherBindingsStay(trace[i - 1], trace[i], e, id);
      CurrentWasIntended(trace, i - 1, id);
      IntendsStill(trace, i - 1, trace[i].state.bindings[id]);
    }
  }

  /** The binding names the receipts of an earlier intent, and at an earlier moment all of these were removed. */
  ghost predicate Removes(trace: seq<System>, i: nat, b: Binding)
    requires i < |trace|
  {
    exists p :: WasIntended(trace, i, p) && Fulfils(b, p) && WereRemoved(trace, i, p.expected)
  }

  lemma RemovesStill(trace: seq<System>, i: nat, b: Binding)
    requires i + 1 < |trace| && Removes(trace, i, b)
    ensures Removes(trace, i + 1, b)
  {
    var p :| WasIntended(trace, i, p) && Fulfils(b, p) && WereRemoved(trace, i, p.expected);
    IntendedStill(trace, i, p);
    var j :| 0 <= j < i && AllIn(trace[j].world.receipts, p.expected, Removed);
  }

  lemma NewRolledBackRemoved(trace: seq<System>, i: nat, e: Event, id: AssignmentId)
    requires Run(trace) && i + 1 < |trace| && StepBy(trace[i], trace[i + 1], e)
    requires Lifecycle(e) && Written(e).0.assignmentId == id
    requires id in trace[i + 1].state.bindings && trace[i + 1].state.bindings[id].state == RolledBack
    ensures Removes(trace, i + 1, trace[i + 1].state.bindings[id])
  {
    RunKeepsInvariant(trace, i);
    NewBindingIs(trace[i], trace[i + 1], e);
    CurrentWasIntended(trace, i, id);
    var p :| WasIntended(trace, i, p) && InstalledAs(trace[i].state.bindings[id], p);
    IntendedStill(trace, i, p);
    assert WereRemoved(trace, i + 1, p.expected);
  }

  /** Behind every rolled-back binding stands one too, and there was a moment when all of its receipts were removed. */
  lemma {:induction false} RolledBackWasRemoved(trace: seq<System>, i: nat, id: AssignmentId)
    requires Run(trace) && i < |trace| && id in trace[i].state.bindings && trace[i].state.bindings[id].state == RolledBack
    ensures Removes(trace, i, trace[i].state.bindings[id])
  {
    assert i > 0;
    var e :| StepBy(trace[i - 1], trace[i - 1 + 1], e);
    if Lifecycle(e) && Written(e).0.assignmentId == id {
      NewRolledBackRemoved(trace, i - 1, e, id);
    } else {
      OtherBindingsStay(trace[i - 1], trace[i], e, id);
      RolledBackWasRemoved(trace, i - 1, id);
      RemovesStill(trace, i - 1, trace[i].state.bindings[id]);
    }
  }

  /** At an earlier moment all of these receipts were removed. */
  ghost predicate WereRemoved(trace: seq<System>, i: nat, ids: seq<ReceiptId>)
    requires i < |trace|
  {
    exists j :: 0 <= j < i && AllIn(trace[j].world.receipts, ids, Removed)
  }

  /** The binding's own event is queued and says what the binding says. */
  ghost predicate Told(s: State, b: Binding) {
    BindingRequest(b) in s.outbox && Reports(s.outbox[BindingRequest(b)].request, b)
  }

  lemma NewEventReports(s: System, t: System, e: Event)
    requires PendingOk(s.state) && BindingsOk(s.state) && OutboxOk(s.state) && Lifecycle(e) && StepBy(s, t, e)
    ensures Told(t.state, Written(e).0)
  {
    LifecycleStepPersists(s, t, e);
    var (b, at, blocked) := Written(e);
    NewBindingIs(s, t, e);
    PersistWrites(s.state, b, at, blocked);
  }

  lemma ToldStill(s: State, t: State, b: Binding)
    requires Told(s, b) && OutboxGrows(s, t)
    ensures Told(t, b)
  {
  }

  lemma NewBindingTold(trace: seq<System>, i: nat, e: Event, id: AssignmentId)
    requires Run(trace) && i + 1 < |trace| && StepBy(trace[i], trace[i + 1], e)
    requires Lifecycle(e) && Written(e).0.assignmentId == id
    ensures id in trace[i + 1].state.bindings && Told(trace[i + 1].state, trace[i + 1].state.bindings[id])
  {
    RunKeepsInvariant(trace, i);
    NewBindingIs(trace[i], trace[i + 1], e);
    NewEventReports(trace[i], trace[i + 1], e);
  }

  /** The event of every reachable binding tells the cloud exactly what the binding says. */
  lemma {:induction false} EventReportsBinding(trace: seq<System>, i: nat, id: AssignmentId)
    requires Run(trace) && i < |trace| && id in trace[i].state.bindings
    ensures Told(trace[i].state, trace[i].state.bindings[id])
  {
    assert i > 0;
    var e :| StepBy(trace[i - 1], trace[i - 1 + 1], e);
    if Lifecycle(e) && Written(e).0.assignmentId == id {
      NewBindingTold(trace, i - 1, e, id);
    } else {
      OtherBindingsStay(trace[i - 1], trace[i], e, id);
      EventReportsBinding(trace, i - 1, id);
      NextStateGrowsOutbox(trace, i - 1);
      ToldStill(trace[i - 1].state, trace[i].state, trace[i].state.bindings[id]);
    }
  }

  /** `synced` is reported exactly when the event is marked delivered, and then the cloud has it. */
  lemma SyncedMeansAcknowledged(trace: seq<System>, i: nat, id: AssignmentId, status: SyncStatus)
    requires Run(trace) && i < |trace| && id in trace[i].state.bindings
    requires MayReport(trace[i].state, trace[i].state.bindings[id], status)
    ensures var key := BindingRequest(trace[i].state.bindings[id]);
            && key in trace[i].state.outbox
            && (status == Synced <==> trace[i].state.outbox[key].deliveredAt.Some?)
            && (status == Synced ==> trace[i].state.outbox[key].request in trace[i].world.acknowledged)
            && (status == SyncFailed ==>
                  trace[i].state.outbox[key].terminalFailureAt.Some? && trace[i].state.outbox[key].terminalFailureAt.value != 0)
            && (status == Pending ==>
                  trace[i].state.outbox[key].terminalFailureAt.None? || trace[i].state.outbox[key].terminalFailureAt.value == 0)
  {
    RunKeepsInvariant(trace, i);
    ExactlyOneMatchingEntry(trace, i, id);
  }
}
