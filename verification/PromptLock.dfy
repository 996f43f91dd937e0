/**
 Processes that reserve prompt indices of one session: a lock directory with an owner file in it,
 a counter file that is replaced as a whole, and the takeover of a lock that looks abandoned.
 */
module PromptLock {
  import opened Wrappers

  type Process = nat

  datatype Owner = Owner(process: Process, heartbeat: nat)

  /** The lock directory, who made it and when, and its owner file. */
  datatype Lock = Lock(maker: Process, made: nat, owner: Option<Owner>)

  /** The counter file; `Unusable` is one that does not decode or belongs to another session. */
  datatype CounterFile = Missing | Unusable | Counter(next: nat)

  datatype Phase =
    | Idle
    | Waiting(deadline: nat)
    | Stealing(deadline: nat)
    | Made
    | Owning
    | Touched
    | Loaded(index: nat)
    | Releasing
    | Removing

  datatype State = State(
    now: nat,
    lock: Option<Lock>,
    file: CounterFile,
    recovered: nat,
    phases: map<Process, Phase>,
    reserved: seq<(Process, nat)>)

  datatype Action =
    | Tick(milliseconds: nat)
    | Record(recovered: nat)
    | Begin(p: Process)
    | TryLock(p: Process)
    | Steal(p: Process)
    | WriteOwner(p: Process)
    | Touch(p: Process)
    | Load(p: Process)
    | Save(p: Process)
    | Throw(p: Process)
    | Check(p: Process)
    | Remove(p: Process)

  const LOCK_TIMEOUT: nat := 30_000

  function PhaseOf(s: State, p: Process): Phase {
    if p in s.phases then s.phases[p] else Idle
  }

  function Moved(s: State, p: Process, phase: Phase): State {
    s.(phases := s.phases[p := phase])
  }

  /** When the owner last gave a sign of life; without an owner file, when the directory was made. */
  function Heartbeat(lock: Lock): nat {
    if lock.owner.Some? then lock.owner.value.heartbeat else lock.made
  }

  predicate Stale(s: State, lock: Lock) {
    s.now > Heartbeat(lock) + LOCK_TIMEOUT
  }

  predicate Enabled(s: State, a: Action) {
    match a
    case Tick(_) => true
    case Record(_) => true
    case Begin(p) => PhaseOf(s, p) == Idle
    case TryLock(p) => PhaseOf(s, p).Waiting?
    case Steal(p) => PhaseOf(s, p).Stealing?
    case WriteOwner(p) => PhaseOf(s, p) == Made
    case Touch(p) => PhaseOf(s, p) == Owning
    case Load(p) => PhaseOf(s, p) == Touched
    case Save(p) => PhaseOf(s, p).Loaded?
    case Throw(p) => PhaseOf(s, p) == Owning || PhaseOf(s, p) == Touched || PhaseOf(s, p).Loaded?
    case Check(p) => PhaseOf(s, p) == Releasing
    case Remove(p) => PhaseOf(s, p) == Removing
  }

  function Next(s: State, a: Action): State
    requires Enabled(s, a)
  {
    match a
    case Tick(milliseconds) => s.(now := s.now + milliseconds)
    case Record(recovered) => s.(recovered := recovered)
    case Begin(p) => Moved(s, p, Waiting(s.now + LOCK_TIMEOUT))
    case TryLock(p) =>
      var deadline := PhaseOf(s, p).deadline;
      if s.lock == None then Moved(s.(lock := Some(Lock(p, s.now, None))), p, Made)
      else if Stale(s, s.lock.value) then Moved(s, p, Stealing(deadline))
      else if s.now >= deadline then Moved(s, p, Idle)
      else s
    case Steal(p) => Moved(s.(lock := None), p, Waiting(PhaseOf(s, p).deadline))
    case WriteOwner(p) =>
      if s.lock == None then Moved(s, p, Idle)
      else Moved(s.(lock := Some(s.lock.value.(owner := Some(Owner(p, s.now))))), p, Owning)
    case Touch(p) =>
      if s.lock == None then Moved(s, p, Releasing)
      else if s.lock.value.owner.Some? && s.lock.value.owner.value.process != p then Moved(s, p, Touched)
      else Moved(s.(lock := Some(s.lock.value.(owner := Some(Owner(p, s.now))))), p, Touched)
    case Load(p) =>
      if s.file.Counter? then Moved(s, p, Loaded(s.file.next)) else Moved(s.(file := Missing), p, Loaded(s.recovered))
    case Save(p) =>
      var index := PhaseOf(s, p).index;
      Moved(s.(file := Counter(index + 1), reserved := s.reserved + [(p, index)]), p, Releasing)
    case Throw(p) => Moved(s, p, Releasing)
    case Check(p) =>
      if s.lock == None || s.lock.value.owner == None || s.lock.value.owner.value.process == p
        then Moved(s, p, Removing) else Moved(s, p, Idle)
    case Remove(p) => Moved(s.(lock := None), p, Idle)
  }

  /** The states of a run. */
  ghost predicate Run(run: seq<State>, actions: seq<Action>) {
    && |run| == |actions| + 1
    && Initial(run[0])
    && forall i | 0 <= i < |actions| :: Enabled(run[i], actions[i]) && run[i + 1] == Next(run[i], actions[i])
  }

  /** Nobody is under way; there may or may not be a counter already. */
  ghost predicate Initial(s: State) {
    s.lock == None && s.phases == map[] && s.reserved == []
  }

  /** Whoever holds the lock is through with it inside the timeout. */
  ghost predicate Timely(s: State) {
    s.lock.Some? ==> s.now <= s.lock.value.made + LOCK_TIMEOUT
  }

  predicate Holding(phase: Phase) {
    !phase.Idle? && !phase.Waiting? && !phase.Stealing?
  }

  /** The holder made the lock, its owner file is its own, and nobody takes it away. */
  ghost predicate Exclusive(s: State) {
    && (forall p | p in s.phases :: !s.phases[p].Stealing?)
    && (forall p | p in s.phases && Holding(s.phases[p]) :: s.lock.Some? && s.lock.value.maker == p)
    && (s.lock.Some? ==> s.lock.value.made <= s.now)
    && (s.lock.Some? && s.lock.value.owner.Some? ==>
          s.lock.value.owner.value.process == s.lock.value.maker && s.lock.value.made <= s.lock.value.owner.value.heartbeat)
  }

  ghost predicate Consecutive(reserved: seq<(Process, nat)>) {
    forall i | 0 < i < |reserved| :: reserved[i].1 == reserved[i - 1].1 + 1
  }

  /** What the next reservation is, once there has been one. */
  ghost predicate Follows(s: State, index: nat) {
    s.reserved != [] ==> index == s.reserved[|s.reserved| - 1].1 + 1
  }

  ghost predicate Counting(s: State) {
    && Consecutive(s.reserved)
    && (s.reserved != [] ==> s.file.Counter?)
    && (s.file.Counter? ==> Follows(s, s.file.next))
    && (forall p | p in s.phases && s.phases[p].Loaded? :: Follows(s, s.phases[p].index))
  }

  lemma NextExclusive(s: State, a: Action)
    requires Exclusive(s) && Timely(s) && Enabled(s, a)
    ensures Exclusive(Next(s, a))
  {
  }

  lemma NextCounting(s: State, a: Action)
    requires Exclusive(s) && Counting(s) && Enabled(s, a)
    ensures Counting(Next(s, a))
  {
    if a.Save? {
      assert forall q | q in s.phases && q != a.p :: !s.phases[q].Loaded?;
    }
  }

  lemma {:induction false} RunExclusive(run: seq<State>, actions: seq<Action>, n: nat)
    requires Run(run, actions) && n < |run| && forall i | 0 <= i < n :: Timely(run[i])
    ensures Exclusive(run[n]) && Counting(run[n])
  {
    if n > 0 {
      RunExclusive(run, actions, n - 1);
      NextExclusive(run[n - 1], actions[n - 1]);
      NextCounting(run[n - 1], actions[n - 1]);
    }
  }

  /** While locks are held only briefly, at most one process is between taking and releasing it. */
  lemma MutualExclusion(run: seq<State>, actions: seq<Action>, n: nat, p: Process, q: Process)
    requires Run(run, actions) && n < |run| && forall i | 0 <= i < n :: Timely(run[i])
    requires Holding(PhaseOf(run[n], p)) && Holding(PhaseOf(run[n], q))
    ensures p == q
  {
    RunExclusive(run, actions, n);
  }

  /** The k-th reservation, by whichever process, gets the k-th index from the first one on. */
  lemma ReservationsAreConsecutive(run: seq<State>, actions: seq<Action>, n: nat, k: nat)
    requires Run(run, actions) && n < |run| && forall i | 0 <= i < n :: Timely(run[i])
    requires k < |run[n].reserved|
    ensures run[n].reserved[k].1 == run[n].reserved[0].1 + k
  {
    RunExclusive(run, actions, n);
    ConsecutiveFromFirst(run[n].reserved, k);
  }

  lemma {:induction false} ConsecutiveFromFirst(reserved: seq<(Process, nat)>, k: nat)
    requires Consecutive(reserved) && k < |reserved|
    ensures reserved[k].1 == reserved[0].1 + k
  {
    if k > 0 {
      ConsecutiveFromFirst(reserved, k - 1);
    }
  }

  /** When the holder of the lock last gave a sign of life. */
  ghost predicate LastSign(lock: Lock, at: nat) {
    at == match lock.owner case Some(owner) => owner.heartbeat case None => lock.made
  }

  /**
   A waiter makes the lock if there is none, takes it over only half a minute after the last sign
   of life, gives up at its deadline, and else goes on waiting.
   */
  lemma WaitingEnds(s: State, p: Process, sign: nat)
    requires Enabled(s, TryLock(p)) && (s.lock.Some? ==> LastSign(s.lock.value, sign))
    ensures
      var phase := PhaseOf(Next(s, TryLock(p)), p);
      && (phase.Made? <==> s.lock == None)
      && (phase.Stealing? <==> s.lock.Some? && s.now > sign + 30_000)
      && (phase.Idle? <==> s.lock.Some? && s.now <= sign + 30_000 && s.now >= PhaseOf(s, p).deadline)
      && (phase.Waiting? ==> phase == PhaseOf(s, p))
  {
  }

  /** The process may remove what it finds there: nothing, a lock without an owner, or its own. */
  ghost predicate MayRemove(lock: Option<Lock>, p: Process) {
    lock.Some? && lock.value.owner.Some? ==> lock.value.owner.value.process == p
  }

  /** Step `j` looked, and found nothing of another's; the process has been about to remove the lock since. */
  ghost predicate Looked(run: seq<State>, actions: seq<Action>, j: nat, n: nat, p: Process) {
    && j < n < |run| && j < |actions| && actions[j] == Check(p) && MayRemove(run[j].lock, p)
    && forall m | j < m <= n :: PhaseOf(run[m], p) == Removing
  }

  /** In any run, who is about to remove the lock has looked, and then saw no lock of another. */
  lemma {:induction false} RemovingLooked(run: seq<State>, actions: seq<Action>, n: nat, p: Process)
    requires Run(run, actions) && n < |run| && PhaseOf(run[n], p) == Removing
    ensures exists j :: 0 <= j < n && Looked(run, actions, j, n, p)
  {
    assert n > 0;
    if PhaseOf(run[n - 1], p) == Removing {
      RemovingLooked(run, actions, n - 1, p);
      var j :| 0 <= j < n - 1 && Looked(run, actions, j, n - 1, p);
      assert Looked(run, actions, j, n, p);
    } else {
      assert actions[n - 1] == Check(p);
      assert Looked(run, actions, n - 1, n, p);
    }
  }

  /** A counter is only loaded by a process that found a lock there when it set its sign of life. */
  lemma TouchedFoundLock(s: State, p: Process)
    requires Enabled(s, Touch(p))
    ensures PhaseOf(Next(s, Touch(p)), p) == if s.lock.Some? then Touched else Releasing
  {
  }

  // ----- whatever the timing -----

  /** Who saves still finds the counter that it loaded; before the first reservation any will do. */
  ghost predicate SavesCurrent(s: State, a: Action) {
    a.Save? && PhaseOf(s, a.p).Loaded? ==> s.reserved == [] || s.file == Counter(PhaseOf(s, a.p).index)
  }

  lemma {:induction false} CounterBehindLast(run: seq<State>, actions: seq<Action>, n: nat)
    requires Run(run, actions) && n < |run| && run[n].reserved != []
    ensures run[n].file == Counter(run[n].reserved[|run[n].reserved| - 1].1 + 1)
  {
    if n > 0 && run[n - 1].reserved != [] {
      CounterBehindLast(run, actions, n - 1);
    }
  }

  /** In any run the indices are consecutive if and only if everybody saved over the counter that it had loaded. */
  lemma {:induction false} ConsecutiveExactly(run: seq<State>, actions: seq<Action>, n: nat)
    requires Run(run, actions) && n < |run|
    ensures Consecutive(run[n].reserved) <==> forall i | 0 <= i < n :: SavesCurrent(run[i], actions[i])
  {
    if n > 0 {
      ConsecutiveExactly(run, actions, n - 1);
      if run[n - 1].reserved != [] {
        CounterBehindLast(run, actions, n - 1);
      }
      ConsecutiveNext(run[n - 1], actions[n - 1]);
    }
  }

  lemma ConsecutiveNext(s: State, a: Action)
    requires Enabled(s, a) && (s.reserved != [] ==> s.file == Counter(s.reserved[|s.reserved| - 1].1 + 1))
    ensures Consecutive(Next(s, a).reserved) <==> Consecutive(s.reserved) && SavesCurrent(s, a)
  {
    if a.Save? {
      var after := Next(s, a).reserved;
      assert after[..|s.reserved|] == s.reserved;
      ConsecutiveOneMore(s.reserved, after);
    }
  }

  lemma ConsecutiveOneMore(before: seq<(Process, nat)>, after: seq<(Process, nat)>)
    requires |after| == |before| + 1 && after[..|before|] == before
    ensures Consecutive(after)
       <==> Consecutive(before) && (before != [] ==> after[|before|].1 == before[|before| - 1].1 + 1)
  {
    if Consecutive(after) {
      forall i | 0 < i < |before| ensures before[i].1 == before[i - 1].1 + 1 {
        assert before[i] == after[i] && before[i - 1] == after[i - 1];
      }
    }
    if Consecutive(before) && (before != [] ==> after[|before|].1 == before[|before| - 1].1 + 1) {
      forall i | 0 < i < |after| ensures after[i].1 == after[i - 1].1 + 1 {
        assert after[i - 1] == before[i - 1] && (i < |before| ==> after[i] == before[i]);
      }
    }
  }

  /** As long as everybody does, the counter advances by one for each reservation. */
  lemma {:induction false} CounterAdvances(run: seq<State>, actions: seq<Action>, i: nat, j: nat)
    requires Run(run, actions) && i <= j < |run| && run[i].file.Counter?
    requires forall m | i <= m < j && actions[m].Save? :: run[m].file == Counter(PhaseOf(run[m], actions[m].p).index)
    ensures |run[i].reserved| <= |run[j].reserved|
    ensures run[j].file == Counter(run[i].file.next + |run[j].reserved| - |run[i].reserved|)
    decreases j - i
  {
    if i < j {
      CounterAdvances(run, actions, i, j - 1);
    }
  }

  /** Then a holder and the one that overtook it have loaded one index if and only if nobody saved in between. */
  lemma SharedExactly(run: seq<State>, actions: seq<Action>, i: nat, j: nat)
    requires Run(run, actions) && i < j < |actions| && actions[i].Load? && actions[j].Load? && run[i].file.Counter?
    requires forall m | i <= m < j && actions[m].Save? :: run[m].file == Counter(PhaseOf(run[m], actions[m].p).index)
    ensures PhaseOf(run[i + 1], actions[i].p) == PhaseOf(run[j + 1], actions[j].p)
       <==> forall m | i <= m < j :: !actions[m].Save?
  {
    CounterAdvances(run, actions, i, j);
    SavesCounted(run, actions, i, j);
  }

  lemma {:induction false} SavesCounted(run: seq<State>, actions: seq<Action>, i: nat, j: nat)
    requires Run(run, actions) && i <= j < |run|
    ensures |run[i].reserved| <= |run[j].reserved|
    ensures |run[i].reserved| == |run[j].reserved| <==> forall m | i <= m < j :: !actions[m].Save?
    decreases j - i
  {
    if i < j {
      SavesCounted(run, actions, i, j - 1);
    }
  }

  // ----- the first index -----

  /** Where an index may come from: the counter that was there at the start, or else the records. */
  ghost predicate Origin(first: CounterFile, seen: set<nat>, index: nat) {
    if first.Counter? then index == first.next else index in seen
  }

  ghost predicate FirstSoFar(first: CounterFile, seen: set<nat>, s: State) {
    && (s.reserved == [] ==> if first.Counter? then s.file == first else !s.file.Counter?)
    && (s.reserved == [] ==> forall p | p in s.phases && s.phases[p].Loaded? :: Origin(first, seen, s.phases[p].index))
    && (s.reserved != [] ==> Origin(first, seen, s.reserved[0].1))
  }

  lemma NextFirst(first: CounterFile, seen: set<nat>, s: State, a: Action)
    requires Enabled(s, a) && s.recovered in seen && FirstSoFar(first, seen, s)
    ensures FirstSoFar(first, seen, Next(s, a))
  {
  }

  function Seen(run: seq<State>, n: nat): set<nat>
    requires n < |run|
  {
    set i | 0 <= i <= n :: run[i].recovered
  }

  /** The first index is the counter's or, if there was none, what the records gave at some moment of the run. */
  lemma {:induction false} FirstReservation(run: seq<State>, actions: seq<Action>, n: nat)
    requires Run(run, actions) && n < |run|
    ensures FirstSoFar(run[0].file, Seen(run, n), run[n])
  {
    if n > 0 {
      FirstReservation(run, actions, n - 1);
      assert run[n - 1].recovered in Seen(run, n);
      assert forall index | index in Seen(run, n - 1) :: index in Seen(run, n);
      NextFirst(run[0].file, Seen(run, n), run[n - 1], actions[n - 1]);
    }
  }

  // ----- a slow holder -----

  ghost predicate Reaches(s: State) {
    exists run, actions :: Run(run, actions) && run[|actions|] == s
  }

  lemma ReachesNext(s: State, a: Action)
    requires Reaches(s) && Enabled(s, a)
    ensures Reaches(Next(s, a))
  {
    var run, actions :| Run(run, actions) && run[|actions|] == s;
    assert Run(run + [Next(s, a)], actions + [a]);
  }

  /** What one process does to a free lock: it takes it and loads the counter. */
  lemma TakesAndLoads(s: State, p: Process, loaded: State)
    requires Reaches(s) && s.lock == None && PhaseOf(s, p).Waiting? && s.file == Missing
    requires loaded == s.(lock := Some(Lock(p, s.now, Some(Owner(p, s.now)))), phases := s.phases[p := Loaded(s.recovered)])
    ensures Reaches(loaded)
  {
    var made := s.(lock := Some(Lock(p, s.now, None)), phases := s.phases[p := Made]);
    ReachesNext(s, TryLock(p));
    assert Next(s, TryLock(p)) == made;
    var owning := loaded.(phases := s.phases[p := Owning]);
    ReachesNext(made, WriteOwner(p));
    assert Next(made, WriteOwner(p)) == owning;
    var touched := loaded.(phases := s.phases[p := Touched]);
    ReachesNext(owning, Touch(p));
    assert Next(owning, Touch(p)) == touched;
    ReachesNext(touched, Load(p));
    assert Next(touched, Load(p)) == loaded;
  }

  lemma TakesOver(s: State, p: Process, free: State)
    requires Reaches(s) && PhaseOf(s, p) == Idle && s.lock.Some? && Stale(s, s.lock.value)
    requires free == s.(lock := None, phases := s.phases[p := Waiting(s.now + LOCK_TIMEOUT)])
    ensures Reaches(free)
  {
    var waiting := s.(phases := s.phases[p := Waiting(s.now + LOCK_TIMEOUT)]);
    ReachesNext(s, Begin(p));
    assert Next(s, Begin(p)) == waiting;
    var stealing := s.(phases := s.phases[p := Stealing(s.now + LOCK_TIMEOUT)]);
    ReachesNext(waiting, TryLock(p));
    assert Next(waiting, TryLock(p)) == stealing;
    ReachesNext(stealing, Steal(p));
    assert Next(stealing, Steal(p)) == free;
  }

  /** A holder slower than the timeout loses its lock to another process, and both reserve index 0. */
  lemma SlowHolderDuplicates()
    ensures exists s :: Reaches(s) && s.reserved == [(2, 0), (1, 0)]
  {
    var now := LOCK_TIMEOUT + 1;
    var start := State(0, None, Missing, 0, map[], []);
    assert Run([start], []);
    ReachesNext(start, Begin(1));
    var loaded := State(0, Some(Lock(1, 0, Some(Owner(1, 0)))), Missing, 0, map[1 := Loaded(0)], []);
    TakesAndLoads(Next(start, Begin(1)), 1, loaded);
    ReachesNext(loaded, Tick(now));
    var late := loaded.(now := now);
    assert Next(loaded, Tick(now)) == late;
    var free := late.(lock := None, phases := late.phases[2 := Waiting(now + LOCK_TIMEOUT)]);
    TakesOver(late, 2, free);
    var both := late.(lock := Some(Lock(2, now, Some(Owner(2, now)))), phases := map[1 := Loaded(0), 2 := Loaded(0)]);
    TakesAndLoads(free, 2, both);
    TwoSaves(both, 2, 1, 0);
  }

  lemma TwoSaves(s: State, p: Process, q: Process, index: nat)
    requires Reaches(s) && p != q && s.reserved == []
    requires PhaseOf(s, p) == Loaded(index) && PhaseOf(s, q) == Loaded(index)
    ensures exists t :: Reaches(t) && t.reserved == [(p, index), (q, index)]
  {
    var saved := s.(file := Counter(index + 1), reserved := [(p, index)], phases := s.phases[p := Releasing]);
    ReachesNext(s, Save(p));
    assert Next(s, Save(p)) == saved;
    ReachesNext(saved, Save(q));
    assert Next(saved, Save(q)).reserved == [(p, index), (q, index)];
  }
}
