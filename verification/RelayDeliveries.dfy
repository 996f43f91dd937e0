/** How often the relay stores a row of the queue. */
module RelayDeliveries {
  import opened Wrappers
  import opened RelayQueue

  function Times(ids: seq<nat>, id: nat): nat {
    multiset(ids)[id]
  }

  /** The flushers that took the row and have not uploaded it yet. */
  ghost function Hands(s: State, id: nat): set<Flusher> {
    set f | f in s.phases && s.phases[f].Taken? && s.phases[f].id == id
  }

  /** A step that puts the row back to `Pending`, */
  ghost predicate PutsBack(s: State, a: Action, id: nat) {
    && id < |s.rows|
    && ((a.RequeueSending? && s.rows[id].status == Sending) || (a.RequeueFailed? && s.rows[id].status == Failed))
  }

  /** and one that does so while the relay has it, or a flusher is about to upload it. */
  ghost predicate PutsBackTaken(s: State, a: Action, id: nat) {
    PutsBack(s, a, id) && (id in s.deliveries || Hands(s, id) != {})
  }

  ghost function PutBacks(run: seq<State>, actions: seq<Action>, id: nat, n: nat): nat
    requires n <= |actions| && n <= |run|
  {
    if n == 0 then 0 else PutBacks(run, actions, id, n - 1) + if PutsBackTaken(run[n - 1], actions[n - 1], id) then 1 else 0
  }

  // ----- at most once, and once more for every such step -----

  /** Stored, about to be uploaded and waiting together are one, and one more for every such step. */
  ghost predicate Accounted(s: State, id: nat, putBacks: nat) {
    if id < |s.rows|
    then Times(s.deliveries, id) + |Hands(s, id)| + (if s.rows[id].status == Pending then 1 else 0) <= 1 + putBacks
    else Times(s.deliveries, id) == 0 && Hands(s, id) == {}
  }

  lemma HandsNext(s: State, a: Action, id: nat)
    requires Enabled(s, a)
    ensures
      var after := Hands(Next(s, a), id);
      match a
      case Take(f) => after == if Next(s, a).rows != s.rows && PhaseOf(s, f).todo[0] == id then Hands(s, id) + {f} else Hands(s, id)
      case Discard(f) => after == Hands(s, id) - {f}
      case Upload(f, _) => after == Hands(s, id) - {f}
      case Crash(f) => after == Hands(s, id) - {f}
      case _ => after == Hands(s, id)
  {
  }

  lemma NextAccounted(s: State, a: Action, id: nat, putBacks: nat)
    requires Accounted(s, id, putBacks) && SentDelivered(s) && Enabled(s, a)
    ensures Accounted(Next(s, a), id, putBacks + if PutsBackTaken(s, a, id) then 1 else 0)
  {
    HandsNext(s, a, id);
  }

  /** In every run the relay stores a row at most once and once more for every such step. */
  lemma {:induction false} RunAccounted(run: seq<State>, actions: seq<Action>, id: nat, n: nat)
    requires Run(run, actions) && n < |run|
    ensures Accounted(run[n], id, PutBacks(run, actions, id, n))
    ensures Times(run[n].deliveries, id) <= 1 + PutBacks(run, actions, id, n)
  {
    if n > 0 {
      RunAccounted(run, actions, id, n - 1);
      RunInvariant(run, actions, n - 1);
      NextAccounted(run[n - 1], actions[n - 1], id, PutBacks(run, actions, id, n - 1));
    }
  }

  lemma {:induction false} SomePutBack(run: seq<State>, actions: seq<Action>, id: nat, n: nat)
    requires n <= |actions| && n <= |run| && PutBacks(run, actions, id, n) > 0
    ensures exists i :: 0 <= i < n && PutsBackTaken(run[i], actions[i], id)
  {
    if !PutsBackTaken(run[n - 1], actions[n - 1], id) {
      SomePutBack(run, actions, id, n - 1);
    }
  }

  /** A row that was stored twice was put back like that, and stored after it. */
  lemma {:induction false} TwiceOnlyAfterPutBack(run: seq<State>, actions: seq<Action>, id: nat, n: nat)
    requires Run(run, actions) && n < |run| && Times(run[n].deliveries, id) > 1
    ensures exists i, j :: 0 <= i < j < n
              && PutsBackTaken(run[i], actions[i], id)
              && Times(run[j + 1].deliveries, id) > Times(run[j].deliveries, id)
  {
    if Times(run[n - 1].deliveries, id) > 1 {
      TwiceOnlyAfterPutBack(run, actions, id, n - 1);
    } else {
      RunAccounted(run, actions, id, n);
      SomePutBack(run, actions, id, n);
      var i :| 0 <= i < n && PutsBackTaken(run[i], actions[i], id);
      assert i < n - 1 && Times(run[n - 1 + 1].deliveries, id) > Times(run[n - 1].deliveries, id);
    }
  }

  // ----- a relay that knows what it holds -----

  /** The relay stores nothing that it holds. */
  ghost predicate KnowsWhatItHolds(s: State, a: Action) {
    a.Upload? && PhaseOf(s, a.f).Taken? && PhaseOf(s, a.f).id in s.deliveries ==> a.reply.Conflict? || a.reply.Refused?
  }

  lemma {:induction false} StoredOnce(run: seq<State>, actions: seq<Action>, n: nat)
    requires Run(run, actions) && n < |run|
    requires forall i | 0 <= i < |actions| :: KnowsWhatItHolds(run[i], actions[i])
    ensures forall j, k | 0 <= j < k < |run[n].deliveries| :: run[n].deliveries[j] != run[n].deliveries[k]
  {
    if n > 0 {
      StoredOnce(run, actions, n - 1);
      assert KnowsWhatItHolds(run[n - 1], actions[n - 1]);
    }
  }

  // ----- when a row can be stored again -----

  ghost predicate Leads(s: State, u: State) {
    exists run, actions :: Continues(run, actions) && run[0] == s && run[|actions|] == u
  }

  lemma LeadsItself(s: State)
    ensures Leads(s, s)
  {
    assert Continues([s], []);
  }

  lemma LeadsOn(s: State, a: Action, u: State)
    requires Enabled(s, a) && Leads(Next(s, a), u)
    ensures Leads(s, u)
  {
    var run, actions :| Continues(run, actions) && run[0] == Next(s, a) && run[|actions|] == u;
    assert Continues([s] + run, [a] + actions);
  }

  /** From `s` on a state can be reached in which the relay stored the row at least `times` times. */
  ghost predicate CanReach(s: State, id: nat, times: nat) {
    exists u :: Leads(s, u) && Times(u.deliveries, id) >= times
  }

  lemma CanReachBefore(s: State, a: Action, id: nat, times: nat)
    requires Enabled(s, a) && CanReach(Next(s, a), id, times)
    ensures CanReach(s, id, times)
  {
    var u :| Leads(Next(s, a), u) && Times(u.deliveries, id) >= times;
    LeadsOn(s, a, u);
  }

  lemma UploadStores(s: State, f: Flusher, id: nat)
    requires PhaseOf(s, f).Taken? && PhaseOf(s, f).id == id && id < |s.rows| && s.rows[id].decodes
    ensures CanReach(s, id, Times(s.deliveries, id) + 1)
  {
    var u := Next(s, Upload(f, Stored));
    LeadsItself(u);
    CanReachBefore(s, Upload(f, Stored), id, Times(s.deliveries, id) + 1);
  }

  /** A flusher gets to every pending row of its list, whatever stands in front of it. */
  lemma {:induction false} GetsToRow(s: State, f: Flusher, id: nat)
    requires PhaseOf(s, f).Looping? && id in PhaseOf(s, f).todo
    requires id < |s.rows| && s.rows[id].status == Pending && s.rows[id].decodes
    ensures CanReach(s, id, Times(s.deliveries, id) + 1)
    decreases |PhaseOf(s, f).todo|
  {
    var first, rest := PhaseOf(s, f).todo[0], PhaseOf(s, f).todo[1..];
    var times := Times(s.deliveries, id) + 1;
    var t := Next(s, Take(f));
    if first == id {
      UploadStores(t, f, id);
    } else if t.rows == s.rows {
      GetsToRow(t, f, id);
    } else if t.rows[first].decodes {
      var refused := Next(t, Upload(f, Refused("")));
      GetsToRow(Next(refused, Settle(f)), f, id);
      CanReachBefore(refused, Settle(f), id, times);
      CanReachBefore(t, Upload(f, Refused("")), id, times);
    } else {
      GetsToRow(Next(t, Discard(f)), f, id);
      CanReachBefore(t, Discard(f), id, times);
    }
    CanReachBefore(s, Take(f), id, times);
  }

  lemma PendingCanBeStored(s: State, id: nat)
    requires id < |s.rows| && s.rows[id].status == Pending && s.rows[id].decodes
    ensures CanReach(s, id, Times(s.deliveries, id) + 1)
  {
    var times := Times(s.deliveries, id) + 1;
    var idle := Next(s, Crash(0));
    var select := Select(0, |s.rows| + 1);
    PendingIdsAreOldest(s.rows, 0, |s.rows| + 1);
    ShortList(PendingIds(s.rows, 0, |s.rows| + 1), |s.rows|);
    GetsToRow(Next(idle, select), 0, id);
    CanReachBefore(idle, select, id, times);
    CanReachBefore(s, Crash(0), id, times);
  }

  lemma {:induction false} ShortList(ids: seq<nat>, bound: nat)
    requires Ascending(ids) && forall i | 0 <= i < |ids| :: ids[i] < bound
    ensures |ids| <= bound
  {
    if ids != [] {
      ShortList(ids[..|ids| - 1], ids[|ids| - 1]);
    }
  }

  lemma UnsentCanBeStored(s: State, id: nat)
    requires id < |s.rows| && s.rows[id].status != Sent && s.rows[id].decodes
    ensures CanReach(s, id, Times(s.deliveries, id) + 1)
  {
    var times := Times(s.deliveries, id) + 1;
    if s.rows[id].status == Sending {
      PendingCanBeStored(Next(s, RequeueSending), id);
      CanReachBefore(s, RequeueSending, id, times);
    } else if s.rows[id].status == Failed {
      PendingCanBeStored(Next(s, RequeueFailed), id);
      CanReachBefore(s, RequeueFailed, id, times);
    } else {
      PendingCanBeStored(s, id);
    }
  }

  lemma {:induction false} NotAgain(run: seq<State>, actions: seq<Action>, id: nat, n: nat)
    requires Continues(run, actions) && n < |run| && id < |run[0].rows|
    requires !run[0].rows[id].decodes || (run[0].rows[id].status == Sent && Hands(run[0], id) == {})
    ensures id < |run[n].rows| && run[n].rows[id].decodes == run[0].rows[id].decodes
    ensures run[0].rows[id].decodes ==> run[n].rows[id].status == Sent && Hands(run[n], id) == {}
    ensures Times(run[n].deliveries, id) == Times(run[0].deliveries, id)
  {
    if n > 0 {
      NotAgain(run, actions, id, n - 1);
      NextGrows(run[n - 1], actions[n - 1]);
      HandsNext(run[n - 1], actions[n - 1], id);
      NotStored(run[n - 1], actions[n - 1], id);
    }
  }

  lemma NotStored(s: State, a: Action, id: nat)
    requires Enabled(s, a) && id < |s.rows| && (!s.rows[id].decodes || Hands(s, id) == {})
    ensures Times(Next(s, a).deliveries, id) == Times(s.deliveries, id)
  {
    assert a.Upload? ==> a.f in Hands(s, PhaseOf(s, a.f).id);
  }

  /** From any state on a row can be stored again if and only if it is not sent, or a flusher is about to upload it. */
  lemma StoredAgainExactly(s: State, id: nat)
    requires id < |s.rows|
    ensures CanReach(s, id, Times(s.deliveries, id) + 1)
       <==> s.rows[id].decodes && (s.rows[id].status != Sent || Hands(s, id) != {})
  {
    if s.rows[id].decodes && s.rows[id].status != Sent {
      UnsentCanBeStored(s, id);
    } else if s.rows[id].decodes && Hands(s, id) != {} {
      var f :| f in Hands(s, id);
      UploadStores(s, f, id);
    } else {
      forall u | Leads(s, u) ensures Times(u.deliveries, id) == Times(s.deliveries, id) {
        var run, actions :| Continues(run, actions) && run[0] == s && run[|actions|] == u;
        NotAgain(run, actions, id, |actions|);
      }
    }
  }

  /** Wherever such a step is made, the relay can come to hold the row twice. */
  lemma PutBackCanRepeat(s: State, a: Action, id: nat)
    requires Enabled(s, a) && PutsBackTaken(s, a, id) && s.rows[id].decodes
    ensures CanReach(Next(s, a), id, 2)
  {
    var t := Next(s, a);
    if id in s.deliveries {
      PendingCanBeStored(t, id);
    } else {
      var f :| f in Hands(s, id);
      var u := Next(t, Upload(f, Stored));
      PendingCanBeStored(u, id);
      CanReachBefore(t, Upload(f, Stored), id, 2);
    }
  }

  // ----- examples -----

  lemma OtherKey(rows: Rows, key: string)
    requires DistinctKeys(rows) && |rows| > 1
    ensures exists k :: 0 <= k < |rows| && rows[k].key != key
  {
    if rows[0].key == key {
      assert rows[1].key != key;
    }
  }

  lemma OneRow(key: string, payload: string, rows: Rows)
    requires DistinctKeys(rows) && HasKey(rows, key)
    requires forall k | 0 <= k < |rows| :: StagedFrom([(key, payload, true)], rows[k])
    ensures rows == [Row(key, payload, true, Pending, None)]
  {
    if |rows| > 1 {
      OtherKey(rows, key);
    }
  }

  lemma OnePending(rows: Rows, limit: nat)
    requires |rows| == 1 && rows[0].status == Pending && limit > 0
    ensures PendingIds(rows, 0, limit) == [0]
  {
    assert PendingIds(rows, 1, limit - 1) == [];
  }

  /** One flusher is enough: the answer to the first upload is lost, and the second is stored too. */
  method ExampleAnswerLost(key: string, payload: string, error: string) returns (queue: Queue)
    ensures |queue.rows| == 1 && queue.rows[0].status == Sent && queue.deliveries == [0, 0]
  {
    queue := new Queue();
    var records := [(key, payload, true)];
    var staged := queue.StageSignals(records);
    assert HasKey(queue.rows, records[0].0);
    OneRow(key, payload, queue.rows);
    OnePending(queue.rows, 50);
    var first := queue.Flush(Options(true, true, None, false, false), [AnswerLost(error)]);
    OnePending(Requeued(Requeued(queue.rows, Sending), Failed), 50);
    var second := queue.Flush(Options(true, true, None, false, true), [Stored]);
  }

  ghost predicate Reaches(s: State) {
    exists run, actions :: Run(run, actions) && run[|actions|] == s
  }

  lemma ReachesNext(s: State, a: Action, u: State)
    requires Reaches(s) && Enabled(s, a) && u == Next(s, a)
    ensures Reaches(u)
  {
    var run, actions :| Run(run, actions) && run[|actions|] == s;
    assert Run(run + [u], actions + [a]);
  }

  /** With two flushers a row can be delivered twice: the second requeues what the first is sending. */
  lemma TwoFlushersDeliverTwice(key: string, payload: string)
    ensures exists s :: Reaches(s) && |s.rows| == 1 && s.rows[0].status == Sent && s.deliveries == [0, 0]
  {
    var pending := Row(key, payload, true, Pending, None);
    var sending := pending.(status := Sending);
    var start := State([], [], map[]);
    assert Run([start], []);
    ReachesNext(start, Stage(key, payload, true), State([pending], [], map[]));
    assert PendingIds([pending], 1, 0) == [] && PendingIds([pending], 0, 1) == [0];
    ReachesNext(State([pending], [], map[]), Select(1, 1), State([pending], [], map[1 := Looping([0])]));
    ReachesNext(State([pending], [], map[1 := Looping([0])]), Take(1), State([sending], [], map[1 := Taken(0, [])]));
    SecondFlusher(pending, sending);
  }

  lemma SecondFlusher(pending: Row, sending: Row)
    requires pending.status == Pending && pending.decodes && sending == pending.(status := Sending)
    requires Reaches(State([sending], [], map[1 := Taken(0, [])]))
    ensures exists s :: Reaches(s) && |s.rows| == 1 && s.rows[0].status == Sent && s.deliveries == [0, 0]
  {
    var first := Taken(0, []);
    assert Requeued([sending], Sending) == [pending];
    assert PendingIds([pending], 1, 0) == [] && PendingIds([pending], 0, 1) == [0];
    ReachesNext(State([sending], [], map[1 := first]), RequeueSending, State([pending], [], map[1 := first]));
    ReachesNext(State([pending], [], map[1 := first]), Select(2, 1), State([pending], [], map[1 := first, 2 := Looping([0])]));
    ReachesNext(State([pending], [], map[1 := first, 2 := Looping([0])]), Take(2), State([sending], [], map[1 := first, 2 := first]));
    BothUpload(sending);
  }

  lemma BothUpload(sending: Row)
    requires sending.status == Sending && sending.decodes
    requires Reaches(State([sending], [], map[1 := Taken(0, []), 2 := Taken(0, [])]))
    ensures exists s :: Reaches(s) && |s.rows| == 1 && s.rows[0].status == Sent && s.deliveries == [0, 0]
  {
    var first, done := Taken(0, []), Answered(0, None, []);
    ReachesNext(State([sending], [], map[1 := first, 2 := first]), Upload(1, Stored), State([sending], [0], map[1 := done, 2 := first]));
    ReachesNext(State([sending], [0], map[1 := done, 2 := first]), Upload(2, Stored), State([sending], [0, 0], map[1 := done, 2 := done]));
    var end := Next(State([sending], [0, 0], map[1 := done, 2 := done]), Settle(1));
    ReachesNext(State([sending], [0, 0], map[1 := done, 2 := done]), Settle(1), end);
    assert end.rows[0].status == Sent && end.deliveries == [0, 0];
  }
}
