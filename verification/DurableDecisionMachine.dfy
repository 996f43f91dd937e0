/**
 Durable decisions as a machine: one decision file, one lock file, one live process with any
 number of asynchronous tasks.

 A step makes at most one change to a file.  `busy` is the task that is running between two
 awaits, so no other task moves while it is set; a crash may still come between any two steps.
 */
module DurableDecisionMachine {
  import opened Wrappers

  datatype Status = Pending | Approved | Declined | Stale | Expired | Failed

  datatype AuditEvent = Prepared | Decided(status: Status)

  datatype AuditEntry = AuditEntry(event: AuditEvent, at: int, reason: Option<string>)

  datatype Decision<!Receipt> = Decision(
    status: Status, expiresAt: int, updatedAt: int, decidedAt: Option<int>,
    receipt: Option<Receipt>, failure: Option<string>, audit: seq<AuditEntry>)

  /** What an approve callback, a decline or an expiry decides. */
  datatype Finish<!Receipt> = Finish(
    status: Status, receipt: Option<Receipt>, failure: Option<string>, reason: Option<string>)

  datatype Action = Approve | Decline

  /** The lock file: absent, created but without its owner, or owned by a process. */
  datatype Lock = Free | Blank | Held(pid: nat)

  datatype Task<!Receipt> =
    | Sleeping(action: Action, attempt: nat)
    | Approving(reviewed: Decision<Receipt>, entered: int)

  datatype Busy = Idle | Claiming(id: nat, action: Action, entered: int) | Owning(id: nat, action: Action, entered: int) | Unlocking(id: nat)

  datatype System<!Receipt> = System(
    decision: Decision<Receipt>, lock: Lock, pid: nat, retired: set<nat>,
    tasks: map<nat, Task<Receipt>>, busy: Busy)

  /** Polls before a waiter gives up, and the pause between two of them. */
  const ATTEMPTS: nat := 200

  function Prepare<Receipt>(createdAt: int, expiryMs: int): Decision<Receipt> {
    Decision(Pending, createdAt + expiryMs, createdAt, None, None, None, [AuditEntry(Prepared, createdAt, None)])
  }

  function Finished<Receipt>(d: Decision<Receipt>, f: Finish<Receipt>, at: int): Decision<Receipt> {
    d.(status := f.status, updatedAt := at, decidedAt := Some(at),
       receipt := if f.receipt.Some? then f.receipt else d.receipt,
       failure := if f.failure.Some? then f.failure else d.failure,
       audit := d.audit + [AuditEntry(Decided(f.status), at, if f.reason.Some? then f.reason else f.failure)])
  }

  function Expiry<Receipt>(message: string): Finish<Receipt> {
    Finish(Expired, None, Some(message), Some(message))
  }

  function Refusal<Receipt>(): Finish<Receipt> {
    Finish(Declined, None, None, Some("The reviewed action was declined."))
  }

  predicate Overdue<Receipt>(d: Decision<Receipt>, now: int) {
    d.status == Pending && now >= d.expiresAt
  }

  ghost predicate Initial<Receipt(!new)>(s: System<Receipt>) {
    && (exists at, ms :: s.decision == Prepare(at, ms))
    && s.lock == Free && s.tasks == map[] && s.busy == Idle && s.pid !in s.retired
  }

  datatype Move<!Receipt> =
    | Expire(now: int, message: string)
    | CreateLock(id: nat, action: Action, now: int)
    | WriteOwner
    | OwnerFails
    | DeclineNow(now: int)
    | StartApprove
    | Return(id: nat, finish: Finish<Receipt>, now: int)
    | Reject(id: nat)
    | GiveUp
    | Unlock
    | RemoveStale
    | Sleep(id: nat, action: Action, attempt: nat)
    | Forget(id: nat)
    | RewriteReceipt(receipt: Receipt, now: int)
    | Crash(pid: nat)

  ghost predicate StepBy<Receipt>(s: System<Receipt>, t: System<Receipt>, m: Move<Receipt>) {
    match m
    case Expire(now, message) =>
      && s.busy == Idle && Overdue(s.decision, now) && s.lock == Free
      && t == s.(decision := Finished(s.decision, Expiry(message), now))
    case CreateLock(id, action, now) =>
      && s.busy == Idle && s.lock == Free && id !in s.tasks
      && s.decision.status == Pending && !Overdue(s.decision, now)
      && t == s.(lock := Blank, busy := Claiming(id, action, now))
    case WriteOwner =>
      && s.busy.Claiming?
      && t == s.(lock := Held(s.pid), busy := Owning(s.busy.id, s.busy.action, s.busy.entered))
    case OwnerFails =>
      && s.busy.Claiming?
      && t == s.(lock := Free, busy := Idle)
    case DeclineNow(now) =>
      && s.busy.Owning? && s.busy.action == Decline && s.decision.status == Pending
      && t == s.(decision := Finished(s.decision, Refusal(), now),
                 busy := Unlocking(s.busy.id))
    case StartApprove =>
      && s.busy.Owning? && s.busy.action == Approve && s.decision.status == Pending
      && t == s.(tasks := s.tasks[s.busy.id := Approving(s.decision, s.busy.entered)], busy := Idle)
    case Return(id, finish, now) =>
      && s.busy == Idle && id in s.tasks && s.tasks[id].Approving? && finish.status != Pending
      && t == s.(decision := Finished(s.tasks[id].reviewed, finish, now), tasks := s.tasks - {id}, busy := Unlocking(id))
    case Reject(id) =>
      && s.busy == Idle && id in s.tasks && s.tasks[id].Approving?
      && t == s.(tasks := s.tasks - {id}, busy := Unlocking(id))
    case GiveUp =>
      && s.busy.Owning?
      && t == s.(busy := Unlocking(s.busy.id))
    case Unlock =>
      && s.busy.Unlocking?
      && t == s.(lock := Free, busy := Idle)
    case RemoveStale =>
      && s.busy == Idle && (s.lock.Held? ==> s.lock.pid in s.retired)
      && t == s.(lock := Free)
    case Sleep(id, action, attempt) =>
      && s.busy == Idle && id !in s.tasks
      && t == s.(tasks := s.tasks[id := Sleeping(action, attempt)])
    case Forget(id) =>
      && s.busy == Idle && id in s.tasks && s.tasks[id].Sleeping?
      && t == s.(tasks := s.tasks - {id})
    case RewriteReceipt(receipt, now) =>
      && s.busy == Idle && s.decision.status == Approved
      && t == s.(decision := s.decision.(receipt := Some(receipt), updatedAt := now))
    case Crash(pid) =>
      && pid != s.pid && pid !in s.retired
      && t == s.(pid := pid, retired := s.retired + {s.pid}, tasks := map[], busy := Idle)
  }

  ghost predicate Step<Receipt(!new)>(s: System<Receipt>, t: System<Receipt>) {
    exists m :: StepBy(s, t, m)
  }

  ghost predicate Run<Receipt(!new)>(trace: seq<System<Receipt>>) {
    && trace != []
    && Initial(trace[0])
    && forall i | 0 <= i < |trace| - 1 :: Step(trace[i], trace[i + 1])
  }

  // ----- the invariant -----

  /** The audit is `prepared`, plus one terminal event exactly when the decision is made; until then there is no receipt and no failure. */
  ghost predicate AuditOk<Receipt>(d: Decision<Receipt>) {
    if d.status == Pending then
      && |d.audit| == 1 && d.audit[0].event == Prepared && d.decidedAt == None
      && d.receipt == None && d.failure == None
    else
      |d.audit| == 2 && d.audit[0].event == Prepared && d.audit[1].event == Decided(d.status)
      && d.decidedAt == Some(d.audit[1].at)
  }

  ghost predicate InApprove<Receipt>(s: System<Receipt>, id: nat) {
    id in s.tasks && s.tasks[id].Approving?
  }

  ghost predicate OneApprove<Receipt>(s: System<Receipt>) {
    forall i, j | InApprove(s, i) && InApprove(s, j) :: i == j
  }

  /** A callback in flight reviews the stored, still pending decision and was let in on time. */
  ghost predicate ApproveOk<Receipt>(s: System<Receipt>) {
    forall id | InApprove(s, id) ::
      && s.tasks[id].reviewed == s.decision && s.decision.status == Pending
      && s.tasks[id].entered < s.decision.expiresAt
  }

  /** The lock belongs to this process exactly while one of its tasks is past the lock. */
  ghost predicate LockOk<Receipt>(s: System<Receipt>) {
    && s.pid !in s.retired
    && (s.lock.Held? ==> s.lock.pid == s.pid || s.lock.pid in s.retired)
    && (s.busy.Claiming? ==> s.lock == Blank)
    && (s.busy.Owning? || s.busy.Unlocking? ==> s.lock == Held(s.pid))
    && (forall id | InApprove(s, id) :: s.lock == Held(s.pid) && !s.busy.Owning? && !s.busy.Unlocking?)
    && (s.busy.Claiming? || s.busy.Owning? ==>
          s.decision.status == Pending && s.busy.entered < s.decision.expiresAt && s.busy.id !in s.tasks)
  }

  ghost predicate Invariant<Receipt>(s: System<Receipt>) {
    AuditOk(s.decision) && OneApprove(s) && ApproveOk(s) && LockOk(s)
  }

  lemma StepKeepsInvariant<Receipt>(s: System<Receipt>, t: System<Receipt>, m: Move<Receipt>)
    requires Invariant(s) && StepBy(s, t, m)
    ensures Invariant(t)
  {
    if m.Return? || m.Reject? {
      var gone := m.id;
      assert InApprove(s, gone) && gone !in t.tasks;
      assert forall id | id in t.tasks && id != gone :: !InApprove(s, id) && t.tasks[id] == s.tasks[id];
      assert forall id :: !InApprove(t, id);
    } else {
      assert forall id | InApprove(t, id) ::
          if m.StartApprove? then id == s.busy.id || InApprove(s, id)
          else InApprove(s, id) && t.tasks[id] == s.tasks[id];
    }
  }

  /** A decision that was made stays made: same status, same audit, same time. */
  ghost predicate Absorbs<Receipt>(d: Decision<Receipt>, e: Decision<Receipt>) {
    && e.expiresAt == d.expiresAt
    && (d.status != Pending ==> e.status == d.status && e.audit == d.audit && e.decidedAt == d.decidedAt)
  }

  lemma StepAbsorbs<Receipt>(s: System<Receipt>, t: System<Receipt>, m: Move<Receipt>)
    requires Invariant(s) && StepBy(s, t, m)
    ensures Absorbs(s.decision, t.decision)
  {
  }

  lemma {:induction false} RunKeepsInvariant<Receipt(!new)>(trace: seq<System<Receipt>>, i: nat)
    requires Run(trace) && i < |trace|
    ensures Invariant(trace[i])
  {
    if i > 0 {
      RunKeepsInvariant(trace, i - 1);
      var m :| StepBy(trace[i - 1], trace[i], m);
      StepKeepsInvariant(trace[i - 1], trace[i], m);
    }
  }

  /** At most one approve callback is in flight, and it was entered before the decision expired. */
  lemma OneApproveInFlight<Receipt(!new)>(trace: seq<System<Receipt>>, i: nat, id: nat, other: nat)
    requires Run(trace) && i < |trace|
    requires InApprove(trace[i], id) && InApprove(trace[i], other)
    ensures id == other
    ensures trace[i].tasks[id].entered < trace[i].decision.expiresAt
    ensures trace[i].decision.status == Pending && trace[i].tasks[id].reviewed == trace[i].decision
  {
    RunKeepsInvariant(trace, i);
  }

  /** A terminal status is absorbing, through every interleaving and every crash. */
  lemma {:induction false} TerminalStatusIsAbsorbing<Receipt(!new)>(trace: seq<System<Receipt>>, i: nat, j: nat)
    requires Run(trace) && i <= j < |trace|
    ensures Absorbs(trace[i].decision, trace[j].decision)
    decreases j - i
  {
    if i < j {
      TerminalStatusIsAbsorbing(trace, i, j - 1);
      RunKeepsInvariant(trace, j - 1);
      var m :| StepBy(trace[j - 1], trace[j], m);
      StepAbsorbs(trace[j - 1], trace[j], m);
    }
  }

  /** Once decided the audit is `prepared` and exactly one terminal event, naming the status. */
  lemma AuditHasOneTerminalEvent<Receipt(!new)>(trace: seq<System<Receipt>>, i: nat)
    requires Run(trace) && i < |trace|
    ensures |trace[i].decision.audit| == if trace[i].decision.status == Pending then 1 else 2
    ensures trace[i].decision.audit[0].event == Prepared
    ensures trace[i].decision.status != Pending ==> trace[i].decision.audit[1].event == Decided(trace[i].decision.status)
  {
    RunKeepsInvariant(trace, i);
  }

  // ----- who decides -----

  /** What a callback decided, entry by entry; without a reason of its own the audit gives that of the failure. */
  ghost predicate DecidedAs<Receipt>(before: Decision<Receipt>, f: Finish<Receipt>, at: int, d: Decision<Receipt>) {
    && d.status == f.status && d.expiresAt == before.expiresAt && d.updatedAt == at && d.decidedAt == Some(at)
    && d.receipt == f.receipt && d.failure == f.failure
    && d.audit == before.audit + [AuditEntry(Decided(f.status), at, if f.reason == None then f.failure else f.reason)]
  }

  /** Nobody decided in time. */
  ghost predicate ExpiredAs<Receipt>(before: Decision<Receipt>, message: string, at: int, d: Decision<Receipt>) {
    && at >= before.expiresAt
    && DecidedAs(before, Finish(Expired, None, Some(message), Some(message)), at, d)
  }

  ghost predicate DeclinedAs<Receipt>(before: Decision<Receipt>, at: int, d: Decision<Receipt>) {
    DecidedAs(before, Finish(Declined, None, None, Some("The reviewed action was declined.")), at, d)
  }

  /** The move makes the decision: an expiry, a decline, or a callback that comes back. */
  ghost predicate Makes<Receipt>(s: System<Receipt>, m: Move<Receipt>, t: System<Receipt>) {
    && s.decision.status == Pending && StepBy(s, t, m)
    && match m
       case Expire(now, message) => ExpiredAs(s.decision, message, now, t.decision)
       case DeclineNow(now) => s.busy.Owning? && s.busy.action == Decline && DeclinedAs(s.decision, now, t.decision)
       case Return(id, finish, now) =>
         && InApprove(s, id) && s.tasks[id].entered < s.decision.expiresAt
         && DecidedAs(s.decision, finish, now, t.decision)
       case _ => false
  }

  ghost predicate MadeAt<Receipt(!new)>(trace: seq<System<Receipt>>, j: nat, m: Move<Receipt>) {
    j + 1 < |trace| && Makes(trace[j], m, trace[j + 1])
  }

  lemma DecidingStep<Receipt>(s: System<Receipt>, t: System<Receipt>, m: Move<Receipt>)
    requires Invariant(s) && StepBy(s, t, m) && s.decision.status == Pending && t.decision.status != Pending
    ensures Makes(s, m, t)
  {
  }

  /**
   Behind every decision stands the one step that made it: `approved` only comes from a callback
   that says so, `expired` from one or from an expiry at or after the time, and `declined` from
   one or from a decline.
   */
  lemma {:induction false} DecidedByStep<Receipt(!new)>(trace: seq<System<Receipt>>, i: nat)
    requires Run(trace) && i < |trace| && trace[i].decision.status != Pending
    ensures exists j, m :: 0 <= j < i && MadeAt(trace, j, m) && Absorbs(trace[j + 1].decision, trace[i].decision)
  {
    RunKeepsInvariant(trace, i - 1);
    if trace[i - 1].decision.status == Pending {
      var m :| StepBy(trace[i - 1], trace[i - 1 + 1], m);
      DecidingStep(trace[i - 1], trace[i], m);
      assert MadeAt(trace, i - 1, m);
    } else {
      DecidedByStep(trace, i - 1);
      var j, m :| 0 <= j < i - 1 && MadeAt(trace, j, m) && Absorbs(trace[j + 1].decision, trace[i - 1].decision);
      TerminalStatusIsAbsorbing(trace, j + 1, i);
    }
  }

  /** In particular nothing is approved but by a callback that approves. */
  lemma ApprovedByCallback<Receipt(!new)>(trace: seq<System<Receipt>>, i: nat)
    requires Run(trace) && i < |trace| && trace[i].decision.status == Approved
    ensures exists j, m: Move<Receipt> :: 0 <= j < i && MadeAt(trace, j, m) && m.Return? && m.finish.status == Approved
  {
    DecidedByStep(trace, i);
    var j, m :| 0 <= j < i && MadeAt(trace, j, m) && Absorbs(trace[j + 1].decision, trace[i].decision);
  }
}
