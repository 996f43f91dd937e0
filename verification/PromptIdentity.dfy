/** Prompt identities: the text of an id, and the rebuilding of a session's counter from what was recorded. */
module PromptIdentity {
  import opened Wrappers
  import opened Decimal

  function PromptId(session: string, index: nat): string {
    session + ":p" + Print(index)
  }

  /** Where the digits at the end of `s` begin. */
  function DigitsFrom(s: string): (k: nat)
    ensures k <= |s| && AllDigits(s[k..])
    ensures k > 0 ==> !IsDigit(s[k - 1])
  {
    if s == "" || !IsDigit(s[|s| - 1]) then |s|
    else
      var front := s[..|s| - 1];
      var k := DigitsFrom(front);
      assert s[k..] == front[k..] + [s[|s| - 1]];
      k
  }

  /** The number after a final `:p`, which must be followed by digits only. */
  function RecoveredIndex(id: string): Option<nat> {
    var k := DigitsFrom(id);
    if 2 <= k < |id| && id[k - 2..k] == ":p" then Some(Parse(id[k..])) else None
  }

  /** The recovery pattern: something, `:p`, and one or more digits up to the end. */
  ghost predicate EndsInIndex(id: string, value: nat) {
    exists k :: 2 <= k < |id| && id[k - 2..k] == ":p" && AllDigits(id[k..]) && Parse(id[k..]) == value
  }

  lemma RecoveredIndexIsPattern(id: string, value: nat)
    ensures RecoveredIndex(id) == Some(value) <==> EndsInIndex(id, value)
  {
    var from := DigitsFrom(id);
    forall k | 2 <= k < |id| && id[k - 2..k] == ":p" && AllDigits(id[k..]) ensures k == from {
      assert id[k - 2..k][1] == id[k - 1];
      assert forall j | from <= j < |id| :: id[j] == id[from..][j - from];
      assert forall j | k <= j < |id| :: id[j] == id[k..][j - k];
    }
    if RecoveredIndex(id) == Some(value) {
      assert 2 <= from < |id| && id[from - 2..from] == ":p" && AllDigits(id[from..]);
    }
  }

  /** The recovery pattern reads back exactly the index that an id was made from. */
  lemma IdReadBack(session: string, index: nat)
    ensures RecoveredIndex(PromptId(session, index)) == Some(index)
  {
    var id, k := PromptId(session, index), |session| + 2;
    PrintCanonical(index);
    ParsePrint(index);
    assert id[k..] == Print(index) && id[k - 2..k] == ":p";
    RecoveredIndexIsPattern(id, index);
  }

  lemma IdInjective(session: string, index: nat, other: string, another: nat)
    requires PromptId(session, index) == PromptId(other, another)
    ensures session == other && index == another
  {
    IdReadBack(session, index);
    IdReadBack(other, another);
    var tail := ":p" + Print(index);
    assert PromptId(session, index) == session + tail && PromptId(other, another) == other + tail;
    assert |session| == |other|;
    assert session == PromptId(session, index)[..|session|] == PromptId(other, another)[..|other|] == other;
  }

  // ----- rebuilding the counter -----

  /** One prompt record of the log, decoded. */
  datatype Line = Line(session: string, id: Option<string>, index: Option<nat>, actionable: bool)

  datatype Row = Row(id: string, index: nat, actionable: bool)

  datatype Recovered = Recovered(next: nat, last: Option<string>, lastActionable: Option<string>)

  const FRESH := Recovered(0, None, None)

  function LineIndex(line: Line): Option<nat> {
    if line.index.Some? || line.id == None then line.index else RecoveredIndex(line.id.value)
  }

  /** The index that a line records, or else the one that its id ends in. */
  ghost predicate HasIndex(line: Line, index: nat) {
    line.index == Some(index) || (line.index == None && line.id.Some? && EndsInIndex(line.id.value, index))
  }

  lemma LineIndexIs(line: Line, index: nat)
    ensures LineIndex(line) == Some(index) <==> HasIndex(line, index)
  {
    if line.id.Some? {
      RecoveredIndexIsPattern(line.id.value, index);
    }
  }

  /** The id of a line, or else the one made from its session and index. */
  ghost predicate Names(line: Line, index: nat, id: Option<string>) {
    id == if line.id.Some? then line.id else Some(line.session + ":p" + Print(index))
  }

  function LineId(line: Line, index: nat): string {
    if line.id.Some? then line.id.value else PromptId(line.session, index)
  }

  /** Line `i` is a readable prompt of the session with this index. */
  ghost predicate Records(lines: seq<Option<Line>>, session: string, i: int, index: nat) {
    0 <= i < |lines| && lines[i].Some? && lines[i].value.session == session && HasIndex(lines[i].value, index)
  }

  ghost predicate RecordsActionable(lines: seq<Option<Line>>, session: string, i: int, index: nat) {
    Records(lines, session, i, index) && lines[i].value.actionable
  }

  /** `next` is above every recorded index and no higher than it has to be; `last` names the latest holder of the largest one. */
  ghost predicate Summarizes(lines: seq<Option<Line>>, session: string, found: Recovered) {
    && (forall i, index: nat | Records(lines, session, i, index) :: index < found.next)
    && (found.next == 0 ==> found.last == None)
    && (found.next > 0 ==> exists i ::
          && Records(lines, session, i, found.next - 1)
          && Names(lines[i].value, found.next - 1, found.last)
          && forall j, other: nat | Records(lines, session, j, other) :: other == found.next - 1 ==> j <= i)
  }

  /** The counter is above the line's index, and without one above the index that its id was made from. */
  ghost predicate Above(line: Line, next: nat) {
    && (line.index.Some? ==> line.index.value < next)
    && forall s, n: nat | line.index == None && line.id == Some(PromptId(s, n)) :: n < next
  }

  lemma AboveWhatIsNamed(lines: seq<Option<Line>>, session: string, found: Recovered)
    requires Summarizes(lines, session, found)
    ensures forall i | 0 <= i < |lines| && lines[i].Some? && lines[i].value.session == session :: Above(lines[i].value, found.next)
  {
    forall i | 0 <= i < |lines| && lines[i].Some? && lines[i].value.session == session ensures Above(lines[i].value, found.next) {
      var line := lines[i].value;
      if line.index.Some? {
        assert Records(lines, session, i, line.index.value);
      }
      forall s, n: nat | line.index == None && line.id == Some(PromptId(s, n)) ensures n < found.next {
        IdReadBack(s, n);
        RecoveredIndexIsPattern(line.id.value, n);
        assert Records(lines, session, i, n);
      }
    }
  }

  /** The scan of the log. */
  method ScanLog(session: string, lines: seq<Option<Line>>) returns (found: Recovered)
    ensures Summarizes(lines, session, found)
    ensures LatestActionable(lines, session, found.lastActionable)
    ensures forall i | 0 <= i < |lines| && lines[i].Some? && lines[i].value.session == session :: Above(lines[i].value, found.next)
  {
    var next: nat, nextActionable: nat := 0, 0;
    var last, lastActionable: Option<string> := None, None;
    ghost var at, atActionable := -1, -1;
    var k := 0;
    while k < |lines|
      invariant k <= |lines|
      invariant forall i, index: nat | i < k && Records(lines, session, i, index) :: index < next && (index == next - 1 ==> i <= at)
      invariant next == 0 ==> last == None
      invariant next > 0 ==> at < k && Records(lines, session, at, next - 1) && last == Some(LineId(lines[at].value, next - 1))
      invariant forall i, index: nat | i < k && RecordsActionable(lines, session, i, index) ::
                  index < nextActionable && (index == nextActionable - 1 ==> i <= atActionable)
      invariant nextActionable == 0 <==> lastActionable == None
      invariant nextActionable > 0 ==>
                  && atActionable < k
                  && RecordsActionable(lines, session, atActionable, nextActionable - 1)
                  && lastActionable == Some(LineId(lines[atActionable].value, nextActionable - 1))
    {
      if lines[k].Some? && lines[k].value.session == session {
        var line := lines[k].value;
        var index := LineIndex(line);
        forall n: nat ensures LineIndex(line) == Some(n) <==> HasIndex(line, n) {
          LineIndexIs(line, n);
        }
        if index.Some? {
          if index.value + 1 >= next {
            next, last, at := index.value + 1, Some(LineId(line, index.value)), k;
          }
          if line.actionable && index.value + 1 >= nextActionable {
            nextActionable, lastActionable, atActionable := index.value + 1, Some(LineId(line, index.value)), k;
          }
        }
      }
      k := k + 1;
    }
    found := Recovered(next, last, lastActionable);
    if next > 0 {
      assert Records(lines, session, at, next - 1);
    }
    if nextActionable > 0 {
      assert RecordsActionable(lines, session, atActionable, nextActionable - 1);
    }
    AboveWhatIsNamed(lines, session, found);
  }

  /** What the database says about the session; the second of the two queries may still fail. */
  datatype Database = Unavailable | Interrupted(rows: seq<Row>) | Answers(rows: seq<Row>)

  /** A log that is missing, cannot be read, or holds these lines. */
  datatype Log = Unreadable | Lines(lines: seq<Option<Line>>)

  ghost predicate AboveRows(rows: seq<Row>, next: nat) {
    forall i | 0 <= i < |rows| :: rows[i].index < next
  }

  ghost predicate AboveLog(lines: seq<Option<Line>>, session: string, next: nat) {
    forall i, index: nat | Records(lines, session, i, index) :: index < next
  }

  /** For every row of the database the log records an index at least as large. */
  ghost predicate LogKeepsUp(lines: seq<Option<Line>>, session: string, rows: seq<Row>) {
    forall i | 0 <= i < |rows| :: exists j, index: nat :: Records(lines, session, j, index) && rows[i].index <= index
  }

  ghost predicate Largest(rows: seq<Row>, row: Row) {
    row in rows && forall i | 0 <= i < |rows| :: rows[i].index <= row.index
  }

  /** The row with the largest index. */
  method LargestRow(rows: seq<Row>) returns (row: Row)
    requires rows != []
    ensures Largest(rows, row)
  {
    row := rows[0];
    for i := 1 to |rows|
      invariant row in rows && forall j | 0 <= j < i :: rows[j].index <= row.index
    {
      if rows[i].index > row.index {
        row := rows[i];
      }
    }
  }

  /** The rows of actionable prompts. */
  function Actionable(rows: seq<Row>): (r: seq<Row>)
    ensures forall row :: row in r <==> row in rows && row.actionable
  {
    if rows == [] then []
    else
      assert rows == [rows[0]] + rows[1..];
      (if rows[0].actionable then [rows[0]] else []) + Actionable(rows[1..])
  }

  /** The counter and the ids as the rows give them. */
  ghost predicate FromRows(rows: seq<Row>, found: Recovered) {
    && (exists row :: Largest(rows, row) && found.next == row.index + 1 && found.last == Some(row.id))
    && (found.lastActionable == None <==> Actionable(rows) == [])
    && (found.lastActionable.Some? ==> exists row :: Largest(Actionable(rows), row) && found.lastActionable == Some(row.id))
  }

  /** The latest of the actionable lines with the largest index. */
  ghost predicate LatestActionable(lines: seq<Option<Line>>, session: string, id: Option<string>) {
    && (id == None <==> forall i, index: nat :: !RecordsActionable(lines, session, i, index))
    && (id.Some? ==> exists i, index: nat ::
          && RecordsActionable(lines, session, i, index)
          && Names(lines[i].value, index, id)
          && forall j, other: nat | RecordsActionable(lines, session, j, other) :: other < index || (other == index && j <= i))
  }

  /**
   Rebuilds the counter: from the database when it answers and knows the session, else from the
   log. `own` tells that the log is the default one, which then is not consulted.
   */
  method Derive(session: string, db: Database, log: Log, own: bool) returns (found: Recovered)
    ensures db.Answers? && db.rows != [] ==> FromRows(db.rows, found) && AboveRows(db.rows, found.next)
    ensures !db.Unavailable? && db.rows == [] && own ==> found == Recovered(0, None, None)
    ensures (db.Unavailable? || (db.rows == [] && !own)) && log == Unreadable ==> found == Recovered(0, None, None)
    ensures (db.Unavailable? || (db.rows == [] && !own)) && log.Lines? ==>
              Summarizes(log.lines, session, found) && LatestActionable(log.lines, session, found.lastActionable)
    ensures db.Interrupted? && db.rows != [] ==>
              (AboveRows(db.rows, found.next) <==> log == Unreadable || LogKeepsUp(log.lines, session, db.rows))
    ensures db.Interrupted? && db.rows != [] && log.Lines? ==>
              && AboveLog(log.lines, session, found.next)
              && LatestActionable(log.lines, session, found.lastActionable)
              && (found.next == 0 || Summarizes(log.lines, session, found))
  {
    found := FRESH;
    if !db.Unavailable? {
      if db.rows != [] {
        var row := LargestRow(db.rows);
        found := Recovered(row.index + 1, Some(row.id), None);
        if db.Answers? {
          var actionable := Actionable(db.rows);
          if actionable != [] {
            var latest := LargestRow(actionable);
            found := found.(lastActionable := Some(latest.id));
          }
          return found;
        }
      } else if own {
        return found;
      }
    }
    if log == Unreadable {
      return found;
    }
    var scanned := ScanLog(session, log.lines);
    found := Recovered(
      scanned.next,
      if scanned.last.Some? then scanned.last else found.last,
      scanned.lastActionable);
    if scanned.next > 0 {
      ghost var i :| Records(log.lines, session, i, scanned.next - 1);
    }
  }

  /** The database knows index 5, its second query fails and the log is empty: the counter starts again at 0. */
  method ExampleInterruptedDatabase() returns (found: Recovered)
    ensures !AboveRows([Row("s:p5", 5, false)], found.next)
  {
    var rows := [Row("s:p5", 5, false)];
    found := Derive("s", Interrupted(rows), Lines([]), true);
    assert forall j, index: nat :: !Records([], "s", j, index);
    assert !LogKeepsUp([], "s", rows) by {
      assert 0 <= 0 < |rows| && rows[0].index == 5;
    }
  }

  /** The database answers but knows nothing of the session: the default log is not consulted, whatever it records. */
  method ExampleOwnLogNotConsulted() returns (found: Recovered)
    ensures !AboveLog([Some(Line("s", None, Some(5), false))], "s", found.next)
  {
    var lines := [Some(Line("s", None, Some(5), false))];
    found := Derive("s", Answers([]), Lines(lines), true);
    assert Records(lines, "s", 0, 5);
  }
}
