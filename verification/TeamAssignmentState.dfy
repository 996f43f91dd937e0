/**
 The stored records of the team assignment runtime and its pure record functions.

 Digests are taken as injective, so an identifier that the program derives by hashing
 a tuple is modelled as that tuple: see `Pointer` and `RequestId`.
 */
module TeamAssignmentState {
  import opened Wrappers

  type AssignmentId = string

  /** An installer receipt; different assignments own disjoint receipts. */
  datatype ReceiptId = ReceiptId(owner: AssignmentId, key: string)

  datatype ReceiptState = Active | Superseded | Removed

  type Receipts = map<ReceiptId, ReceiptState>

  datatype Outcome = Current | Failed | RolledBack

  datatype FailureCode =
    InstallFailed | InstallConflict | PackageIntegrityFailed | LocalStateChanged | RecoveryFailed

  /** The receipt identifier of a binding: the hash of an install or of a failed attempt. */
  datatype Pointer =
    | InstallPointer(assignmentId: AssignmentId, releaseId: string, previewToken: string)
    | FailurePointer(assignmentId: AssignmentId, releaseId: string, sequence: nat)

  /** Fields that are copied from record to record and never inspected by the lifecycle. */
  datatype Terms = Terms(
    assignmentRequestId: string, installRequestId: string, revisionSha256: string,
    scope: string, targetAgents: seq<string>)

  datatype Preview = Preview(
    assignmentId: AssignmentId, releaseId: string, envelopeSha256: string, terms: Terms,
    projectRoot: Option<string>, previewToken: string,
    expected: seq<ReceiptId>, changed: seq<ReceiptId>, changedSkillCount: nat)

  datatype PendingInstall = PendingInstall(
    assignmentId: AssignmentId, releaseId: string, envelopeSha256: string, terms: Terms,
    receiptId: Pointer, expected: seq<ReceiptId>, changed: seq<ReceiptId>,
    changedSkillCount: nat, installedAt: nat, sequence: nat)

  datatype Binding = Binding(
    assignmentId: AssignmentId, releaseId: string, envelopeSha256: string, terms: Terms,
    receiptId: Pointer, receipts: seq<ReceiptId>, changedSkillCount: nat, sequence: nat,
    failureCode: Option<FailureCode>, state: Outcome, installedAt: nat, rolledBackAt: Option<nat>)

  datatype PendingRollback = PendingRollback(
    assignmentId: AssignmentId, binding: Binding, rolledBackAt: nat, sequence: nat)

  datatype RequestId = RequestId(pointer: Pointer, releaseId: string, sequence: nat, result: Outcome)

  datatype Request = Request(
    requestId: RequestId, assignmentId: AssignmentId, releaseId: string, sequence: nat,
    scope: string, targetAgents: seq<string>, changedSkillCount: nat, blockedSkillCount: nat,
    occurredAt: nat, result: Outcome, rollbackPointer: Option<Pointer>, failureCode: Option<FailureCode>)

  datatype OutboxItem = OutboxItem(
    request: Request, attempts: nat, lastAttemptAt: Option<nat>, deliveredAt: Option<nat>,
    terminalFailureAt: Option<nat>, hostedReceiptId: Option<string>)

  datatype State = State(
    previews: map<string, Preview>,
    pendingInstalls: map<AssignmentId, PendingInstall>,
    pendingRollbacks: map<AssignmentId, PendingRollback>,
    bindings: map<AssignmentId, Binding>,
    outbox: map<RequestId, OutboxItem>)

  const EMPTY_STATE := State(map[], map[], map[], map[], map[])

  datatype SyncStatus = Synced | Pending | SyncFailed

  function ReceiptRequest(binding: Binding, result: Outcome, occurredAt: nat, blockedSkillCount: nat): Request {
    Request(
      RequestId(binding.receiptId, binding.releaseId, binding.sequence, result),
      binding.assignmentId, binding.releaseId, binding.sequence,
      binding.terms.scope, binding.terms.targetAgents, binding.changedSkillCount, blockedSkillCount,
      occurredAt, result,
      if result.Failed? then None else Some(binding.receiptId),
      if !result.Failed? then None
      else if binding.failureCode.Some? then binding.failureCode
      else Some(InstallFailed))
  }

  function CurrentBinding(p: PendingInstall): Binding {
    Binding(p.assignmentId, p.releaseId, p.envelopeSha256, p.terms, p.receiptId, p.expected,
            p.changedSkillCount, p.sequence, None, Current, p.installedAt, None)
  }

  function FailedBinding(p: PendingInstall, code: FailureCode): Binding {
    CurrentBinding(p).(
    receiptId := FailurePointer(p.assignmentId, p.releaseId, p.sequence),
    receipts := [], changedSkillCount := 0, failureCode := Some(code), state := Failed)
  }

  function RolledBackBinding(r: PendingRollback): Binding {
    r.binding.(sequence := r.sequence, failureCode := None, state := RolledBack, rolledBackAt := Some(r.rolledBackAt))
  }

  function NewItem(request: Request): OutboxItem {
    OutboxItem(request, 0, None, None, None, None)
  }

  /** One stored update: close the pending operation, replace the binding, queue the event. */
  function PersistLifecycle(
    s: State, binding: Binding, result: Outcome, occurredAt: nat, blockedSkillCount: nat): State
  {
    var request := ReceiptRequest(binding, result, occurredAt, blockedSkillCount);
    var item := if request.requestId in s.outbox then s.outbox[request.requestId] else NewItem(request);
    s.(pendingInstalls := s.pendingInstalls - {binding.assignmentId},
       pendingRollbacks := s.pendingRollbacks - {binding.assignmentId},
       bindings := s.bindings[binding.assignmentId := binding],
       outbox := s.outbox[request.requestId := item])
  }

  predicate AllIn(receipts: Receipts, ids: seq<ReceiptId>, state: ReceiptState) {
    forall id | id in ids :: id in receipts && receipts[id] == state
  }

  predicate NoPending(s: State) {
    s.pendingInstalls == map[] && s.pendingRollbacks == map[]
  }

  /** The largest sequence recorded for one assignment: the bound that the next one exceeds. */
  ghost predicate BoundsSequences(s: State, id: AssignmentId, bound: nat) {
    && (id in s.bindings ==> s.bindings[id].sequence <= bound)
    && (forall key | key in s.outbox && s.outbox[key].request.assignmentId == id ::
          s.outbox[key].request.sequence <= bound)
  }

  /** The next lifecycle sequence: one more than every sequence seen in the cloud, the binding or the outbox. */
  method NextLifecycleSequence(observed: Option<nat>, id: AssignmentId, s: State) returns (next: nat)
    ensures next > 0 && BoundsSequences(s, id, next - 1)
    ensures observed.Some? ==> observed.value < next
    ensures next == 1
         || (observed.Some? && observed.value == next - 1)
         || (id in s.bindings && s.bindings[id].sequence == next - 1)
         || (exists key :: key in s.outbox && s.outbox[key].request.assignmentId == id
                           && s.outbox[key].request.sequence == next - 1)
  {
    var largest := Max(
      if observed.Some? then observed.value else 0,
      if id in s.bindings then s.bindings[id].sequence else 0);
    var keys := s.outbox.Keys;
    while keys != {}
      invariant keys <= s.outbox.Keys
      invariant observed.Some? ==> observed.value <= largest
      invariant id in s.bindings ==> s.bindings[id].sequence <= largest
      invariant forall key | key in s.outbox.Keys - keys && s.outbox[key].request.assignmentId == id ::
                  s.outbox[key].request.sequence <= largest
      invariant largest == 0
             || (observed.Some? && observed.value == largest)
             || (id in s.bindings && s.bindings[id].sequence == largest)
             || (exists key :: key in s.outbox && s.outbox[key].request.assignmentId == id
                               && s.outbox[key].request.sequence == largest)
      decreases |keys|
    {
      var key :| key in keys;
      if s.outbox[key].request.assignmentId == id {
        largest := Max(largest, s.outbox[key].request.sequence);
      }
      keys := keys - {key};
    }
    next := largest + 1;
  }

  predicate MatchesBinding(request: Request, binding: Binding) {
    && request.assignmentId == binding.assignmentId
    && request.releaseId == binding.releaseId
    && request.result == binding.state
    && request.sequence == binding.sequence
  }

  function ItemStatus(item: OutboxItem): SyncStatus {
    if item.deliveredAt.Some? then Synced
    else if item.terminalFailureAt.Some? && item.terminalFailureAt.value != 0 then SyncFailed
    else Pending
  }

  /** What may be reported: the status of an entry matching the binding, or `Synced` when none does. */
  ghost predicate MayReport(s: State, binding: Binding, status: SyncStatus) {
    || (exists key :: key in s.outbox && MatchesBinding(s.outbox[key].request, binding)
                      && status == ItemStatus(s.outbox[key]))
    || (status == Synced && forall key | key in s.outbox :: !MatchesBinding(s.outbox[key].request, binding))
  }

  method CurrentReceiptSyncStatus(s: State, binding: Binding) returns (status: SyncStatus)
    ensures MayReport(s, binding, status)
  {
    var keys := s.outbox.Keys;
    while keys != {}
      invariant keys <= s.outbox.Keys
      invariant forall key | key in s.outbox.Keys - keys :: !MatchesBinding(s.outbox[key].request, binding)
      decreases |keys|
    {
      var key :| key in keys;
      if MatchesBinding(s.outbox[key].request, binding) {
        return ItemStatus(s.outbox[key]);
      }
      keys := keys - {key};
    }
    status := Synced;
  }
}
