/**
 The queue of staged creator contributions: one row per key, guarded status changes, and any
 number of flushers that take rows, upload them and record what the relay answered.
 */
module RelayQueue {
  import opened Wrappers

  datatype Status = Pending | Sending | Sent | Failed

  /** A row's id is its position: rows are only ever added. `decodes` tells whether the payload does. */
  datatype Row = Row(key: string, payload: string, decodes: bool, status: Status, lastError: Option<string>)

  type Rows = seq<Row>

  /**
   What becomes of an upload: stored, held already and not stored again, stored although no good
   answer came back, or not stored.
   */
  datatype Reply = Stored | Conflict | AnswerLost(error: string) | Refused(error: string)

  type Flusher = nat

  datatype Phase =
    | Idle
    | Looping(todo: seq<nat>)
    | Taken(id: nat, todo: seq<nat>)
    | Answered(id: nat, error: Option<string>, todo: seq<nat>)

  /** `deliveries` lists the rows the relay stored, once per time it did. */
  datatype State = State(rows: Rows, deliveries: seq<nat>, phases: map<Flusher, Phase>)

  datatype Action =
    | Stage(key: string, payload: string, decodes: bool)
    | RequeueSending
    | RequeueFailed
    | Select(f: Flusher, limit: nat)
    | Take(f: Flusher)
    | Discard(f: Flusher)
    | Upload(f: Flusher, reply: Reply)
    | Settle(f: Flusher)
    | Crash(f: Flusher)

  // ----- guarded updates -----

  /** `UPDATE ... WHERE id = ? AND status = from`. */
  function Marked(rows: Rows, id: nat, from: Status, to: Status, error: Option<string>): Rows {
    if id < |rows| && rows[id].status == from then rows[id := rows[id].(status := to, lastError := error)] else rows
  }

  function MarkedSending(rows: Rows, id: nat): Rows {
    Marked(rows, id, Pending, Sending, if id < |rows| then rows[id].lastError else None)
  }

  function Settled(rows: Rows, id: nat, error: Option<string>): Rows {
    Marked(rows, id, Sending, if error == None then Sent else Failed, error)
  }

  /** Every row of one status is pending again. */
  function Requeued(rows: Rows, from: Status): (r: Rows)
    ensures |r| == |rows|
    ensures forall i | 0 <= i < |rows| :: r[i] == if rows[i].status == from then rows[i].(status := Pending) else rows[i]
  {
    seq(|rows|, i requires 0 <= i < |rows| => if rows[i].status == from then rows[i].(status := Pending) else rows[i])
  }

  /** The ids of pending rows in order, from row `from` on and at most `limit` of them. */
  function PendingIds(rows: Rows, from: nat, limit: nat): (ids: seq<nat>)
    requires from <= |rows|
    decreases |rows| - from
  {
    if from == |rows| || limit == 0 then []
    else if rows[from].status == Pending then [from] + PendingIds(rows, from + 1, limit - 1)
    else PendingIds(rows, from + 1, limit)
  }

  predicate HasKey(rows: Rows, key: string) {
    exists i :: 0 <= i < |rows| && rows[i].key == key
  }

  /** An insert that does nothing when the key is there. */
  function Inserted(rows: Rows, key: string, payload: string, decodes: bool): Rows {
    if HasKey(rows, key) then rows else rows + [Row(key, payload, decodes, Pending, None)]
  }

  function ErrorOf(reply: Reply): Option<string> {
    match reply
    case Stored => None
    case Conflict => None
    case AnswerLost(error) => Some(error)
    case Refused(error) => Some(error)
  }

  const INVALID := "Invalid staged creator contribution payload JSON"

  // ----- any number of flushers -----

  function PhaseOf(s: State, f: Flusher): Phase {
    if f in s.phases then s.phases[f] else Idle
  }

  predicate Enabled(s: State, a: Action) {
    match a
    case Stage(_, _, _) => true
    case RequeueSending => true
    case RequeueFailed => true
    case Select(f, _) => PhaseOf(s, f).Idle?
    case Take(f) => PhaseOf(s, f).Looping? && PhaseOf(s, f).todo != []
    case Discard(f) => PhaseOf(s, f).Taken? && PhaseOf(s, f).id < |s.rows| && !s.rows[PhaseOf(s, f).id].decodes
    case Upload(f, reply) =>
      && PhaseOf(s, f).Taken? && PhaseOf(s, f).id < |s.rows| && s.rows[PhaseOf(s, f).id].decodes
      && (reply == Conflict ==> PhaseOf(s, f).id in s.deliveries)
    case Settle(f) => PhaseOf(s, f).Answered?
    case Crash(f) => true
  }

  function Next(s: State, a: Action): State
    requires Enabled(s, a)
  {
    match a
    case Stage(key, payload, decodes) => s.(rows := Inserted(s.rows, key, payload, decodes))
    case RequeueSending => s.(rows := Requeued(s.rows, Sending))
    case RequeueFailed => s.(rows := Requeued(s.rows, Failed))
    case Select(f, limit) => s.(phases := s.phases[f := Looping(PendingIds(s.rows, 0, limit))])
    case Take(f) =>
      var id, todo := PhaseOf(s, f).todo[0], PhaseOf(s, f).todo[1..];
      if MarkedSending(s.rows, id) == s.rows
        then s.(phases := s.phases[f := Looping(todo)])
        else s.(rows := MarkedSending(s.rows, id), phases := s.phases[f := Taken(id, todo)])
    case Discard(f) =>
      s.(rows := Settled(s.rows, PhaseOf(s, f).id, Some(INVALID)), phases := s.phases[f := Looping(PhaseOf(s, f).todo)])
    case Upload(f, reply) =>
      var id := PhaseOf(s, f).id;
      s.(deliveries := s.deliveries + (if reply.Stored? || reply.AnswerLost? then [id] else []),
         phases := s.phases[f := Answered(id, ErrorOf(reply), PhaseOf(s, f).todo)])
    case Settle(f) =>
      var phase := PhaseOf(s, f);
      s.(rows := Settled(s.rows, phase.id, phase.error), phases := s.phases[f := Looping(phase.todo)])
    case Crash(f) => s.(phases := s.phases - {f})
  }

  ghost predicate Run(run: seq<State>, actions: seq<Action>) {
    Continues(run, actions) && run[0] == State([], [], map[])
  }

  ghost predicate Continues(run: seq<State>, actions: seq<Action>) {
    && |run| == |actions| + 1
    && forall i | 0 <= i < |actions| :: Enabled(run[i], actions[i]) && run[i + 1] == Next(run[i], actions[i])
  }

  ghost predicate DistinctKeys(rows: Rows) {
    forall i, j | 0 <= i < j < |rows| :: rows[i].key != rows[j].key
  }

  ghost predicate SentDelivered(s: State) {
    && (forall i | 0 <= i < |s.rows| && s.rows[i].status == Sent :: i in s.deliveries)
    && (forall f | f in s.phases && s.phases[f].Answered? && s.phases[f].error == None :: s.phases[f].id in s.deliveries)
    && (forall f | f in s.phases && s.phases[f].Taken? :: s.phases[f].id < |s.rows|)
  }

  /** Rows stay where they are with what was staged, and what was sent or delivered stays so. */
  ghost predicate Grows(s: State, u: State) {
    && |s.rows| <= |u.rows|
    && (forall i | 0 <= i < |s.rows| ::
          && u.rows[i].key == s.rows[i].key && u.rows[i].payload == s.rows[i].payload && u.rows[i].decodes == s.rows[i].decodes
          && (s.rows[i].status == Sent ==> u.rows[i] == s.rows[i]))
    && s.deliveries <= u.deliveries
  }

  lemma NextGrows(s: State, a: Action)
    requires Enabled(s, a)
    ensures Grows(s, Next(s, a))
  {
  }

  lemma GrowsOn(s: State, t: State, u: State)
    requires Grows(s, t) && Grows(t, u)
    ensures Grows(s, u)
  {
    assert s.deliveries == t.deliveries[..|s.deliveries|] == u.deliveries[..|t.deliveries|][..|s.deliveries|];
  }

  lemma NextDistinct(s: State, a: Action)
    requires DistinctKeys(s.rows) && Enabled(s, a)
    ensures DistinctKeys(Next(s, a).rows)
  {
  }

  lemma NextDelivered(s: State, a: Action)
    requires SentDelivered(s) && Enabled(s, a)
    ensures SentDelivered(Next(s, a))
  {
  }

  /** In every run each key has one row, and a sent row was stored by the relay. */
  lemma {:induction false} RunInvariant(run: seq<State>, actions: seq<Action>, n: nat)
    requires Run(run, actions) && n < |run|
    ensures DistinctKeys(run[n].rows) && SentDelivered(run[n])
  {
    if n > 0 {
      RunInvariant(run, actions, n - 1);
      NextDistinct(run[n - 1], actions[n - 1]);
      NextDelivered(run[n - 1], actions[n - 1]);
    }
  }

  /** No step of any flusher ever loses a row or takes one back from `Sent`. */
  lemma {:induction false} RunGrows(run: seq<State>, actions: seq<Action>, m: nat, n: nat)
    requires Run(run, actions) && m <= n < |run|
    ensures Grows(run[m], run[n])
  {
    if m < n {
      RunGrows(run, actions, m, n - 1);
      NextGrows(run[n - 1], actions[n - 1]);
      GrowsOn(run[m], run[n - 1], run[n]);
    }
  }

  // ----- one flusher -----

  ghost predicate Ascending(ids: seq<nat>) {
    forall i, j | 0 <= i < j < |ids| :: ids[i] < ids[j]
  }

  /** The oldest pending rows, in order: no pending row is passed over, and none is left while there is room. */
  lemma {:induction false} PendingIdsAreOldest(rows: Rows, from: nat, limit: nat)
    requires from <= |rows|
    ensures
      var ids := PendingIds(rows, from, limit);
      && |ids| <= limit && Ascending(ids)
      && (forall i | 0 <= i < |ids| :: from <= ids[i] < |rows| && rows[ids[i]].status == Pending)
      && (forall id | from <= id < |rows| && rows[id].status == Pending :: id in ids || (|ids| == limit && forall i | 0 <= i < |ids| :: ids[i] < id))
    decreases |rows| - from
  {
    if from < |rows| && limit > 0 {
      var next := if rows[from].status == Pending then limit - 1 else limit;
      PendingIdsAreOldest(rows, from + 1, next);
    }
  }

  function CountStatus(rows: Rows, status: Status): nat {
    if rows == [] then 0 else (if rows[0].status == status then 1 else 0) + CountStatus(rows[1..], status)
  }

  lemma {:induction false} RequeueKeepsCount(rows: Rows, from: Status, status: Status)
    requires status != from && status != Pending
    ensures CountStatus(Requeued(rows, from), status) == CountStatus(rows, status)
  {
    if rows != [] {
      assert Requeued(rows, from)[1..] == Requeued(rows[1..], from);
      RequeueKeepsCount(rows[1..], from, status);
    }
  }

  /** The outcome of one row: an undecodable payload is never uploaded. */
  function Outcome(row: Row, reply: Reply): Option<string> {
    if row.decodes then ErrorOf(reply) else Some(INVALID)
  }

  /** A row is sent if its payload decodes and the relay answers well, else it has failed with the reason. */
  ghost predicate SettledAs(row: Row, reply: Reply, ok: bool, after: Row) {
    && (ok <==> row.decodes && (reply.Stored? || reply.Conflict?))
    && after == row.(status := if ok then Sent else Failed, lastError :=
                       if ok then None
                       else Some(if row.decodes then reply.error else "Invalid staged creator contribution payload JSON"))
  }

  lemma SettledIsOutcome(row: Row, reply: Reply, ok: bool, after: Row)
    requires SettledAs(row, reply, ok, after)
    ensures ok <==> Outcome(row, reply) == None
    ensures after == row.(status := if Outcome(row, reply) == None then Sent else Failed, lastError := Outcome(row, reply))
  {
  }

  /** Which of these rows have the status. */
  function WithStatus(rows: Rows, ids: seq<nat>, status: Status): set<nat> {
    set id | id in ids && id < |rows| && rows[id].status == status
  }

  lemma OneMoreWithStatus(rows: Rows, ids: seq<nat>, k: nat, status: Status)
    requires Ascending(ids) && k < |ids| && ids[k] < |rows|
    ensures |WithStatus(rows, ids[..k + 1], status)|
         == |WithStatus(rows, ids[..k], status)| + if rows[ids[k]].status == status then 1 else 0
  {
    NotYet(ids, k);
    var few, more := WithStatus(rows, ids[..k], status), WithStatus(rows, ids[..k + 1], status);
    var last := if rows[ids[k]].status == status then {ids[k]} else {};
    forall id: nat ensures id in more <==> id in few + last {
      assert id in ids[..k + 1] <==> id in ids[..k] || id == ids[k];
    }
    assert more == few + last && ids[k] !in few;
  }

  /** The number of rows without an error. */
  function SentOf(rows: Rows, replies: seq<Reply>, ids: seq<nat>): nat
    requires |replies| == |rows| && forall i | 0 <= i < |ids| :: ids[i] < |rows|
  {
    if ids == [] then 0
    else
      var last := ids[|ids| - 1];
      SentOf(rows, replies, ids[..|ids| - 1]) + if Outcome(rows[last], replies[last]) == None then 1 else 0
  }

  function Deliveries(rows: Rows, replies: seq<Reply>, ids: seq<nat>): seq<nat>
    requires |replies| == |rows| && forall i | 0 <= i < |ids| :: ids[i] < |rows|
  {
    if ids == [] then []
    else
      var last := ids[|ids| - 1];
      Deliveries(rows, replies, ids[..|ids| - 1])
        + if rows[last].decodes && (replies[last].Stored? || replies[last].AnswerLost?) then [last] else []
  }

  datatype Report = Report(attempted: nat, sent: nat, failed: nat, requeued: nat, retried: nat)

  datatype FlushError = NoEndpoint | NoKey

  datatype Options = Options(endpoint: bool, key: bool, limit: Option<int>, dryRun: bool, retryFailed: bool)

  /** At least one row, and fifty unless the caller says otherwise. */
  function LimitOf(options: Options): nat {
    var limit := if options.limit.Some? then options.limit.value else 50;
    if limit < 1 then 1 else limit
  }

  function Startable(rows: Rows, options: Options): Rows {
    var idle := Requeued(rows, Sending);
    if options.retryFailed then Requeued(idle, Failed) else idle
  }

  /** The first `n` of the taken rows are settled, the other rows are as at the start of the loop. */
  ghost predicate Flushed(start: Rows, replies: seq<Reply>, ids: seq<nat>, n: nat, rows: Rows)
    requires |replies| == |start| && n <= |ids| && forall i | 0 <= i < |ids| :: ids[i] < |start|
  {
    && |rows| == |start|
    && (forall i | 0 <= i < n ::
          var error := Outcome(start[ids[i]], replies[ids[i]]);
          rows[ids[i]] == start[ids[i]].(status := if error == None then Sent else Failed, lastError := error))
    && (forall id | 0 <= id < |start| && id !in ids[..n] :: rows[id] == start[id])
  }

  lemma FlushedOne(start: Rows, replies: seq<Reply>, ids: seq<nat>, k: nat, rows: Rows, after: Rows)
    requires |replies| == |start| && k < |ids| && Ascending(ids) && forall i | 0 <= i < |ids| :: ids[i] < |start|
    requires Flushed(start, replies, ids, k, rows)
    requires
      var error := Outcome(start[ids[k]], replies[ids[k]]);
      after == rows[ids[k] := start[ids[k]].(status := if error == None then Sent else Failed, lastError := error)]
    ensures Flushed(start, replies, ids, k + 1, after)
  {
    assert ids[..k + 1] == ids[..k] + [ids[k]];
  }

  lemma SettledNotSending(start: Rows, replies: seq<Reply>, ids: seq<nat>, rows: Rows)
    requires |replies| == |start| && forall i | 0 <= i < |ids| :: ids[i] < |start|
    requires Flushed(start, replies, ids, |ids|, rows)
    requires forall id | 0 <= id < |start| :: start[id].status != Sending
    ensures forall id | 0 <= id < |rows| :: rows[id].status != Sending
  {
    forall id | 0 <= id < |rows| ensures rows[id].status != Sending {
      if i :| 0 <= i < |ids| && ids[i] == id {
      } else {
        assert id !in ids[..|ids|];
      }
    }
  }

  /** The rows counted as sent are those that are, and all others failed. */
  lemma {:induction false} SentAreCounted(start: Rows, replies: seq<Reply>, ids: seq<nat>, rows: Rows, n: nat)
    requires |replies| == |start| && Ascending(ids) && forall i | 0 <= i < |ids| :: ids[i] < |start|
    requires n <= |ids| && Flushed(start, replies, ids, |ids|, rows)
    ensures |WithStatus(rows, ids[..n], Sent)| == SentOf(start, replies, ids[..n])
    ensures |WithStatus(rows, ids[..n], Failed)| == n - SentOf(start, replies, ids[..n])
  {
    if n > 0 {
      SentAreCounted(start, replies, ids, rows, n - 1);
      OneMoreWithStatus(rows, ids, n - 1, Sent);
      OneMoreWithStatus(rows, ids, n - 1, Failed);
      OneMoreSent(start, replies, ids, n - 1);
      assert rows[ids[n - 1]].status == if Outcome(start[ids[n - 1]], replies[ids[n - 1]]) == None then Sent else Failed;
    }
  }

  lemma OneMoreSent(rows: Rows, replies: seq<Reply>, ids: seq<nat>, k: nat)
    requires |replies| == |rows| && k < |ids| && forall i | 0 <= i < |ids| :: ids[i] < |rows|
    ensures SentOf(rows, replies, ids[..k + 1])
         == SentOf(rows, replies, ids[..k]) + if Outcome(rows[ids[k]], replies[ids[k]]) == None then 1 else 0
  {
    assert ids[..k + 1][..k] == ids[..k] && ids[..k + 1][k] == ids[k];
  }

  lemma OneMoreDelivered(rows: Rows, replies: seq<Reply>, ids: seq<nat>, k: nat)
    requires |replies| == |rows| && k < |ids| && forall i | 0 <= i < |ids| :: ids[i] < |rows|
    ensures Deliveries(rows, replies, ids[..k + 1])
         == Deliveries(rows, replies, ids[..k])
            + if rows[ids[k]].decodes && (replies[ids[k]].Stored? || replies[ids[k]].AnswerLost?) then [ids[k]] else []
  {
    assert ids[..k + 1][..k] == ids[..k] && ids[..k + 1][k] == ids[k];
  }

  lemma NotYet(ids: seq<nat>, k: nat)
    requires Ascending(ids) && k < |ids|
    ensures ids[k] !in ids[..k]
  {
  }

  /** A staged row holds the first record of its key. */
  ghost predicate StagedFrom(records: seq<(string, string, bool)>, row: Row) {
    exists i :: 0 <= i < |records|
      && row == Row(records[i].0, records[i].1, records[i].2, Pending, None)
      && forall j | 0 <= j < i :: records[j].0 != records[i].0
  }

  lemma FirstOfKey(records: seq<(string, string, bool)>, i: nat, rows: Rows)
    requires i < |records| && !HasKey(rows, records[i].0) && forall j | 0 <= j < i :: HasKey(rows, records[j].0)
    ensures StagedFrom(records, Row(records[i].0, records[i].1, records[i].2, Pending, None))
  {
    forall j | 0 <= j < i ensures records[j].0 != records[i].0 {
      assert HasKey(rows, records[j].0);
    }
  }

  lemma InsertedHasKey(rows: Rows, key: string, payload: string, decodes: bool, other: string)
    requires other == key || HasKey(rows, other)
    ensures HasKey(Inserted(rows, key, payload, decodes), other)
  {
    var after := Inserted(rows, key, payload, decodes);
    if HasKey(rows, other) {
      var k :| 0 <= k < |rows| && rows[k].key == other;
      assert after[k].key == other;
    } else {
      assert after[|rows|].key == key;
    }
  }

  class Queue {
    var rows: Rows
    var deliveries: seq<nat>

    constructor ()
      ensures rows == [] && deliveries == []
    {
      rows, deliveries := [], [];
    }

    /** Stages records; one whose key is there already is not staged again. */
    method StageSignals(records: seq<(string, string, bool)>) returns (staged: nat)
      requires DistinctKeys(rows)
      modifies this`rows
      ensures DistinctKeys(rows) && old(rows) <= rows && staged == |rows| - |old(rows)|
      ensures forall i | 0 <= i < |records| :: HasKey(rows, records[i].0)
      ensures forall k | |old(rows)| <= k < |rows| :: StagedFrom(records, rows[k])
    {
      staged := 0;
      for i := 0 to |records|
        invariant DistinctKeys(rows) && old(rows) <= rows && staged == |rows| - |old(rows)|
        invariant forall j | 0 <= j < i :: HasKey(rows, records[j].0)
        invariant forall k | |old(rows)| <= k < |rows| :: StagedFrom(records, rows[k])
      {
        var before := rows;
        rows := Inserted(rows, records[i].0, records[i].1, records[i].2);
        if |rows| > |before| {
          staged := staged + 1;
          FirstOfKey(records, i, before);
        }
        forall j | 0 <= j <= i ensures HasKey(rows, records[j].0) {
          InsertedHasKey(before, records[i].0, records[i].1, records[i].2, records[j].0);
        }
      }
    }

    /** Uploads the oldest pending rows; `replies[id]` is what the relay answers for row `id`. */
    method Flush(options: Options, replies: seq<Reply>) returns (r: Result<Report, FlushError>)
      requires |replies| == |rows| && forall id | 0 <= id < |rows| && replies[id] == Conflict :: id in deliveries
      modifies this
      ensures options.dryRun ==>
                rows == old(rows) && deliveries == old(deliveries)
                && r == Success(Report(|PendingIds(rows, 0, LimitOf(options))|, 0, 0, 0, 0))
      ensures !options.dryRun && !options.endpoint ==> r == Failure(NoEndpoint) && rows == old(rows) && deliveries == old(deliveries)
      ensures !options.dryRun && options.endpoint && !options.key ==>
                r == Failure(NoKey) && rows == Startable(old(rows), options) && deliveries == old(deliveries)
      ensures !options.dryRun && options.endpoint && options.key ==>
                var start := Startable(old(rows), options);
                var ids := PendingIds(start, 0, if options.limit == None then 50 else if options.limit.value < 1 then 1 else options.limit.value);
                && r.Success?
                && (forall i | 0 <= i < |ids| :: ids[i] < |start|)
                && r.value.attempted == |ids| == r.value.sent + r.value.failed
                && r.value.sent == |WithStatus(rows, ids, Sent)| && r.value.failed == |WithStatus(rows, ids, Failed)|
                && r.value.requeued == CountStatus(old(rows), Sending)
                && r.value.retried == (if options.retryFailed then CountStatus(old(rows), Failed) else 0)
                && Flushed(start, replies, ids, |ids|, rows)
                && deliveries == old(deliveries) + Deliveries(start, replies, ids)
                && forall id | 0 <= id < |rows| :: rows[id].status != Sending
    {
      var limit := LimitOf(options);
      if options.dryRun {
        return Success(Report(|PendingIds(rows, 0, limit)|, 0, 0, 0, 0));
      }
      if !options.endpoint {
        return Failure(NoEndpoint);
      }
      var requeued := CountStatus(rows, Sending);
      rows := Requeued(rows, Sending);
      var retried := 0;
      if options.retryFailed {
        RequeueKeepsCount(old(rows), Sending, Failed);
        retried := CountStatus(rows, Failed);
        rows := Requeued(rows, Failed);
      }
      var ids := PendingIds(rows, 0, limit);
      if !options.key {
        return Failure(NoKey);
      }
      ghost var start := rows;
      PendingIdsAreOldest(rows, 0, limit);
      var sent, failed := UploadRows(ids, replies);
      SettledNotSending(start, replies, ids, rows);
      SentAreCounted(start, replies, ids, rows, |ids|);
      assert ids[..|ids|] == ids;
      r := Success(Report(|ids|, sent, failed, requeued, retried));
    }

    /** Takes, uploads and settles one row. */
    method UploadRow(id: nat, reply: Reply) returns (ok: bool)
      requires id < |rows| && rows[id].status == Pending
      modifies this
      ensures |rows| == |old(rows)| && rows == old(rows)[id := rows[id]]
      ensures SettledAs(old(rows)[id], reply, ok, rows[id])
      ensures deliveries == old(deliveries) + if old(rows)[id].decodes && (reply.Stored? || reply.AnswerLost?) then [id] else []
    {
      rows := MarkedSending(rows, id);
      if !rows[id].decodes {
        rows := Settled(rows, id, Some(INVALID));
        return false;
      }
      if reply.Stored? || reply.AnswerLost? {
        deliveries := deliveries + [id];
      }
      rows := Settled(rows, id, ErrorOf(reply));
      return ErrorOf(reply) == None;
    }

    /** One turn of the flush loop. */
    method UploadNext(ids: seq<nat>, k: nat, replies: seq<Reply>, ghost start: Rows) returns (ok: bool)
      requires |replies| == |start| && Ascending(ids) && k < |ids|
      requires forall i | 0 <= i < |ids| :: ids[i] < |start| && start[ids[i]].status == Pending
      requires Flushed(start, replies, ids, k, rows)
      modifies this
      ensures Flushed(start, replies, ids, k + 1, rows)
      ensures ok <==> Outcome(start[ids[k]], replies[ids[k]]) == None
      ensures deliveries == old(deliveries)
                + if start[ids[k]].decodes && (replies[ids[k]].Stored? || replies[ids[k]].AnswerLost?) then [ids[k]] else []
    {
      NotYet(ids, k);
      ghost var before := rows;
      assert before[ids[k]] == start[ids[k]];
      ok := UploadRow(ids[k], replies[ids[k]]);
      SettledIsOutcome(start[ids[k]], replies[ids[k]], ok, rows[ids[k]]);
      FlushedOne(start, replies, ids, k, before, rows);
    }

    /** The flush loop, for a flusher that is alone. */
    method UploadRows(ids: seq<nat>, replies: seq<Reply>) returns (sent: nat, failed: nat)
      requires |replies| == |rows| && Ascending(ids)
      requires forall i | 0 <= i < |ids| :: ids[i] < |rows| && rows[ids[i]].status == Pending
      modifies this
      ensures sent + failed == |ids| && sent == SentOf(old(rows), replies, ids)
      ensures Flushed(old(rows), replies, ids, |ids|, rows)
      ensures deliveries == old(deliveries) + Deliveries(old(rows), replies, ids)
    {
      sent, failed := 0, 0;
      ghost var start := rows;
      var k := 0;
      while k < |ids|
        invariant k <= |ids| && k == sent + failed
        invariant Flushed(start, replies, ids, k, rows)
        invariant sent == SentOf(start, replies, ids[..k])
        invariant deliveries == old(deliveries) + Deliveries(start, replies, ids[..k])
      {
        var ok := UploadNext(ids, k, replies, start);
        OneMoreSent(start, replies, ids, k);
        OneMoreDelivered(start, replies, ids, k);
        sent, failed := if ok then sent + 1 else sent, if ok then failed else failed + 1;
        k := k + 1;
      }
      assert ids[..|ids|] == ids;
    }
  }
}
