/**
 The durable decision store: `get`, `finish` and `decide`, cut at their awaits.

 `Decide`, `Wake` and `Complete` are the code between two awaits of one call of `decide`.
 Every file operation goes through `Change`, which appends to `trace`; `Valid` says the trace
 is a run of `DurableDecisionMachine`, so its theorems hold after any interleaving of these
 methods, and after a crash at any file operation followed by `Restart`.
 */
module DurableDecisions {
  import opened Wrappers
  import opened DurableDecisionMachine

  /** How a segment of `decide` ends: with an answer, with an error, or suspended at an await. */
  datatype Reply<!Receipt> = Answered(decision: Decision<Receipt>) | Threw | Waiting | Calling(reviewed: Decision<Receipt>)

  /** What an approve callback comes back with. */
  datatype Outcome<!Receipt> = Decides(finish: Finish<Receipt>) | Rejects

  class Store<!Receipt(!new)> {
    var decision: Decision<Receipt>
    var lock: Lock
    var pid: nat
    var tasks: map<nat, Task<Receipt>>
    const expiryMessage: string
    ghost var retired: set<nat>
    ghost var busy: Busy
    ghost var trace: seq<System<Receipt>>

    ghost function Now(): System<Receipt>
      reads this
    {
      System(decision, lock, pid, retired, tasks, busy)
    }

    ghost predicate Valid()
      reads this
    {
      Run(trace) && trace[|trace| - 1] == Now()
    }

    ghost predicate AtAwait()
      reads this
    {
      Valid() && busy == Idle
    }

    /** A new process on the files that a run left; its process id is a fresh one. */
    constructor Restart(ghost past: seq<System<Receipt>>, decision: Decision<Receipt>, lock: Lock, pid: nat, message: string)
      requires Run(past)
      requires past[|past| - 1].decision == decision && past[|past| - 1].lock == lock
      requires pid != past[|past| - 1].pid && pid !in past[|past| - 1].retired
      ensures AtAwait() && past <= trace && this.decision == decision && this.lock == lock && tasks == map[]
    {
      var last := past[|past| - 1];
      this.decision, this.lock, this.pid, this.tasks, this.expiryMessage := decision, lock, pid, map[], message;
      this.retired, this.busy := last.retired + {last.pid}, Idle;
      this.trace := past + [System(decision, lock, pid, last.retired + {last.pid}, map[], Idle)];
      new;
      assert StepBy(last, Now(), Crash(pid));
    }

    lemma Established()
      requires Valid()
      ensures Invariant(Now())
    {
      RunKeepsInvariant(trace, |trace| - 1);
    }

    /** One file operation, or one move of a task at an await. */
    method Change(decision: Decision<Receipt>, lock: Lock, tasks: map<nat, Task<Receipt>>, ghost busy: Busy, ghost m: Move<Receipt>)
      requires Valid() && StepBy(Now(), System(decision, lock, pid, retired, tasks, busy), m)
      modifies this
      ensures Valid() && old(trace) <= trace
      ensures this.decision == decision && this.lock == lock && this.tasks == tasks && this.busy == busy
      ensures pid == old(pid) && retired == old(retired)
    {
      assert Step(Now(), System(decision, lock, pid, retired, tasks, busy));
      this.decision, this.lock, this.tasks := decision, lock, tasks;
      this.busy := busy;
      trace := trace + [Now()];
    }

    /** Read the decision, and expire it when it is overdue and nobody holds the lock. */
    method Get(now: int) returns (r: Option<Decision<Receipt>>)
      requires AtAwait()
      modifies this
      ensures AtAwait() && old(trace) <= trace
      ensures lock == old(lock) && tasks == old(tasks) && pid == old(pid) && retired == old(retired)
      ensures r.Some? ==> r.value == decision
      ensures r.Some? ==>
                if old(decision).status == Pending && now >= old(decision).expiresAt && lock == Free
                then ExpiredAs(old(decision), expiryMessage, now, decision) else decision == old(decision)
      ensures r.None? ==> decision == old(decision)
    {
      Established();
      if * {
        return None;
      }
      if Overdue(decision, now) && lock == Free {
        Change(Finished(decision, Expiry(expiryMessage), now), lock, tasks, busy, Expire(now, expiryMessage));
      }
      return Some(decision);
    }

    /**
     The start of a call of `decide`, up to its first await: the callback is only reached with
     the lock held, on a pending decision, after a look at a clock before its expiry.
     */
    method Decide(id: nat, action: Action, now: int, later: int) returns (r: Reply<Receipt>)
      requires AtAwait() && id !in tasks
      modifies this
      ensures AtAwait() && old(trace) <= trace && pid == old(pid)
      ensures Suspends(r, id, old(tasks))
      ensures r.Calling? ==> r.reviewed == decision == old(decision) && tasks[id].entered == now && now < decision.expiresAt
      ensures r.Answered? ==> r.decision == decision
      ensures old(decision).status != Pending ==> decision == old(decision) && (r == Threw || r == Answered(decision))
      ensures Outcomes(old(decision), action, now, later)
      ensures r.Answered? ==> decision.status != Pending
      decreases if lock == Free then 1 else 3
    {
      Established();
      var current := Get(now);
      if current.None? {
        return Threw;
      }
      if current.value.status != Pending {
        return Answered(current.value);
      }
      var created := *;
      if lock != Free || !created {
        r := Poll(id, action, 0, now, later);
        return;
      }
      Change(decision, Blank, tasks, Claiming(id, action, now), CreateLock(id, action, now));
      if * {
        Change(decision, Free, tasks, Idle, OwnerFails);
        r := Poll(id, action, 0, now, later);
        return;
      }
      Change(decision, Held(pid), tasks, Owning(id, action, now), WriteOwner);
      if * {
        Change(decision, lock, tasks, Unlocking(id), GiveUp);
        Change(decision, Free, tasks, Idle, Unlock);
        return Threw;
      }
      if action == Decline {
        Change(Finished(decision, Refusal(), later), lock, tasks, Unlocking(id), DeclineNow(later));
        Change(decision, Free, tasks, Idle, Unlock);
        return Answered(decision);
      }
      Change(decision, lock, tasks[id := Approving(decision, now)], Idle, StartApprove);
      return Calling(decision);
    }

    /** What a suspended call leaves behind, and that no other call is disturbed. */
    ghost predicate Suspends(r: Reply<Receipt>, id: nat, before: map<nat, Task<Receipt>>)
      reads this
    {
      && (r.Calling? ==> id in tasks && tasks[id].Approving? && tasks[id].reviewed == r.reviewed
                         && tasks == before[id := tasks[id]] && lock == Held(pid))
      && (r.Waiting? ==> id in tasks && tasks[id].Sleeping? && tasks == before[id := tasks[id]])
      && (r.Answered? || r.Threw? ==> tasks == before)
    }

    /** A segment leaves the decision alone, expires it when overdue, or declines it when asked to. */
    ghost predicate Outcomes(before: Decision<Receipt>, action: Action, now: int, later: int)
      reads this
    {
      || decision == before
      || (before.status == Pending && ExpiredAs(before, expiryMessage, now, decision))
      || (action == Decline && before.status == Pending && now < before.expiresAt && DeclinedAs(before, later, decision))
    }

    /** One turn of the waiting loop, or what follows it when the attempts are used up. */
    method Poll(id: nat, action: Action, attempt: nat, now: int, later: int) returns (r: Reply<Receipt>)
      requires AtAwait() && id !in tasks && attempt <= ATTEMPTS
      modifies this
      ensures AtAwait() && old(trace) <= trace && pid == old(pid)
      ensures Suspends(r, id, old(tasks))
      ensures r.Calling? ==> r.reviewed == decision == old(decision) && tasks[id].entered == now && now < decision.expiresAt
      ensures r.Answered? ==> r.decision == decision
      ensures old(decision).status != Pending ==> decision == old(decision) && (r == Threw || r == Answered(decision))
      ensures Outcomes(old(decision), action, now, later)
      ensures r.Answered? && decision.status == Pending ==> attempt == ATTEMPTS && lock.Held?
      decreases if attempt == ATTEMPTS then 4 else if lock == Free then 0 else 2
    {
      Established();
      if attempt < ATTEMPTS {
        var current := Get(now);
        if current.None? {
          return Threw;
        }
        if current.value.status != Pending {
          return Answered(current.value);
        }
        if lock.Held? && lock.pid != pid {
          Change(decision, Free, tasks, busy, RemoveStale);
          r := Decide(id, action, now, later);
          return;
        }
        Change(decision, lock, tasks[id := Sleeping(action, attempt + 1)], busy, Sleep(id, action, attempt + 1));
        return Waiting;
      }
      if !lock.Held? {
        Change(decision, Free, tasks, busy, RemoveStale);
        r := Decide(id, action, now, later);
        return;
      }
      var current := Get(now);
      return if current.Some? then Answered(current.value) else Threw;
    }

    /** A waiter's pause ends. */
    method Wake(id: nat, now: int, later: int) returns (r: Reply<Receipt>)
      requires AtAwait() && id in tasks && tasks[id].Sleeping? && tasks[id].attempt <= ATTEMPTS
      modifies this
      ensures AtAwait() && old(trace) <= trace && pid == old(pid)
      ensures r.Answered? ==> r.decision == decision
      ensures r.Calling? ==> now < decision.expiresAt
    {
      var task := tasks[id];
      Change(decision, lock, tasks - {id}, busy, Forget(id));
      r := Poll(id, task.action, task.attempt, now, later);
    }

    /** The approve callback comes back: record what it decided, then release the lock. */
    method Complete(id: nat, outcome: Outcome<Receipt>, now: int) returns (r: Reply<Receipt>)
      requires AtAwait() && id in tasks && tasks[id].Approving?
      requires outcome.Decides? ==> outcome.finish.status != Pending
      modifies this
      ensures AtAwait() && old(trace) <= trace && lock == Free && tasks == old(tasks) - {id}
      ensures r.Threw? || r.Answered?
      ensures r.Answered? ==> outcome.Decides? && r.decision == decision && DecidedAs(old(decision), outcome.finish, now, decision)
      ensures r.Threw? ==> decision == old(decision) && decision.status == Pending
    {
      Established();
      assert InApprove(Now(), id);
      var reviewed := tasks[id].reviewed;
      var persisted := *;
      if outcome.Decides? && persisted {
        Change(Finished(reviewed, outcome.finish, now), lock, tasks - {id}, Unlocking(id), Return(id, outcome.finish, now));
        r := Answered(decision);
      } else {
        Change(decision, lock, tasks - {id}, Unlocking(id), Reject(id));
        r := Threw;
      }
      Change(decision, Free, tasks, Idle, Unlock);
    }
  }
}
