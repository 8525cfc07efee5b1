/** A batch's event stream: transactions that commit in any order, the id each stamps
    on the rows it writes, and a stream that reads only rows stamped since its last poll. */
module EventStream {
  import opened Wrappers

  type Key = string
  type Xid = nat

  datatype Row = Row(theory: string, state: string, tier: string, attempts: nat, lastFailure: Option<string>, log: Option<string>)
  datatype BatchRow = BatchRow(state: string, failure: Option<string>)

  /** A row as the trigger leaves it. */
  datatype Stamped = Stamped(row: Row, changedXid: Xid)

  /** What a transaction has written and not committed. */
  datatype Pending = Pending(rows: map<Key, Stamped>, batch: Option<BatchRow>)

  datatype Line = ActionLine(key: Key, row: Row) | BatchLine(batch: BatchRow) | BlankLine

  datatype Stream = Stream(seen: map<Key, Row>, since: Xid, lines: seq<Line>, open: bool)

  datatype State = State(
    next: Xid,                    // the next transaction id the server gives out
    active: map<Xid, Pending>,    // running transactions that have an id
    table: map<Key, Stamped>,     // the batch's action rows, as committed
    batch: Option<BatchRow>,      // the batch's row, until it is pruned
    stream: Stream)

  datatype Event =
    | Begin
    | Write(xid: Xid, key: Key, row: Row)
    | WriteBatch(xid: Xid, batch: BatchRow)
    | Commit(xid: Xid)
    | Abort(xid: Xid)
    | Prune
    | Poll(order: seq<Key>, idle: bool)

  // ------------------------------------------------------------ the server

  function Rows(table: map<Key, Stamped>): map<Key, Row> {
    map k | k in table :: table[k].row
  }

  /** The trigger. */
  function Stamp(row: Row, xid: Xid): Stamped {
    Stamped(row, xid)
  }

  /** A snapshot's xmin: the oldest running transaction, or else the next id. */
  function Xmin(active: map<Xid, Pending>, upTo: Xid): (xmin: Xid)
    ensures xmin <= upTo
    ensures forall x <- active :: x < upTo ==> xmin <= x
    ensures xmin in active || xmin == upTo
  {
    if upTo == 0 then 0
    else
      var below := Xmin(active, upTo - 1);
      if below < upTo - 1 || upTo - 1 in active then below else upTo
  }

  function Changed(table: map<Key, Stamped>, since: Xid): set<Key> {
    set k | k in table && table[k].changedXid >= since
  }

  predicate Running(s: State) {
    s.batch.Some? && s.batch.value.state == "running"
  }

  function Ended(s: State, xid: Xid): State {
    s.(active := map x | x in s.active && x != xid :: s.active[x])
  }

  function Committed(s: State, xid: Xid): State
    requires xid in s.active
  {
    Ended(s, xid).(table := s.table + s.active[xid].rows,
                   batch := if s.batch.Some? && s.active[xid].batch.Some? then s.active[xid].batch else s.batch)
  }

  // ------------------------------------------------------------ the stream

  function Tell(held: map<Key, Row>, line: Line): map<Key, Row> {
    match line
    case ActionLine(key, row) => held[key := row]
    case _ => held
  }

  /** What a client that replays the lines holds. */
  function Client(lines: seq<Line>): map<Key, Row> {
    if lines == [] then map[] else Tell(Client(lines[..|lines| - 1]), lines[|lines| - 1])
  }

  /** The action lines for rows in `order`, given what was sent before. */
  function NewLines(seen: map<Key, Row>, table: map<Key, Row>, order: seq<Key>): seq<Line>
    requires forall k <- order :: k in table
    decreases |order|
  {
    if order == [] then []
    else
      var key := order[0];
      if key in seen && seen[key] == table[key] then NewLines(seen, table, order[1..])
      else [ActionLine(key, table[key])] + NewLines(seen[key := table[key]], table, order[1..])
  }

  /** The rows in `order`. */
  function Picked(table: map<Key, Row>, order: seq<Key>): map<Key, Row>
    requires forall k <- order :: k in table
  {
    map k | k in order :: table[k]
  }

  /** One poll: the rows changed since the last, then the batch line if it has ended. */
  function Polled(st: Stream, table: map<Key, Row>, order: seq<Key>, batch: BatchRow, xmin: Xid, idle: bool): Stream
    requires forall k <- order :: k in table
  {
    var lines := st.lines + NewLines(st.seen, table, order);
    var ended := batch.state != "running";
    Stream(st.seen + Picked(table, order), xmin,
           if ended then lines + [BatchLine(batch)] else if idle then lines + [BlankLine] else lines,
           !ended)
  }

  /** The rows a poll reads: those stamped since the last, in any order. */
  predicate Reads(s: State, order: seq<Key>) {
    && (forall k <- order :: k in Changed(s.table, s.stream.since))
    && (forall k <- Changed(s.table, s.stream.since) :: k in order)
  }

  /** An event that is not possible changes nothing. A transaction that ends after the
      batch has ended has no row of it to write: no transaction changes an ended batch
      (`CoordinatorTheorems.TerminalFrozen`). */
  function Step(s: State, e: Event): State {
    match e
    case Begin => s.(next := s.next + 1, active := s.active[s.next := Pending(map[], None)])
    case Write(xid, key, row) =>
      if xid in s.active then s.(active := s.active[xid := s.active[xid].(rows := s.active[xid].rows[key := Stamp(row, xid)])]) else s
    case WriteBatch(xid, batch) =>
      if xid in s.active then s.(active := s.active[xid := s.active[xid].(batch := Some(batch))]) else s
    case Commit(xid) =>
      if xid in s.active && (Running(s) || s.active[xid] == Pending(map[], None)) then Committed(s, xid) else s
    case Abort(xid) => Ended(s, xid)
    // Deleting the batch deletes its actions.
    case Prune => if Running(s) then s else s.(batch := None, table := map[])
    case Poll(order, idle) =>
      if !s.stream.open || !Reads(s, order) then s
      else
        match s.batch
        case None => s.(stream := s.stream.(open := false))
        case Some(batch) => s.(stream := Polled(s.stream, Rows(s.table), order, batch, Xmin(s.active, s.next), idle))
  }

  /** A stream opens on any committed table, whatever transactions are running. */
  predicate Opens(s: State) {
    && s.stream == Stream(map[], 0, [], true)
    && (forall x <- s.active :: x < s.next && forall k <- s.active[x].rows :: s.active[x].rows[k].changedXid == x)
  }

  function After(s: State, events: seq<Event>): State {
    if events == [] then s else Step(After(s, events[..|events| - 1]), events[|events| - 1])
  }

  // ------------------------------------------------------------ what every event keeps

  /** Any row the stream has not got was stamped since its last poll, and so will be
      every row of a transaction still running. */
  ghost predicate CatchesUp(s: State) {
    && s.stream.since <= s.next
    && (forall x <- s.active :: x < s.next && forall k <- s.active[x].rows :: s.active[x].rows[k].changedXid == x)
    && (s.stream.open ==> forall x <- s.active :: s.stream.since <= x)
    && (s.stream.open ==> forall k <- s.table :: s.table[k].changedXid >= s.stream.since || (k in s.stream.seen && s.stream.seen[k] == s.table[k].row))
  }

  predicate News(held: map<Key, Row>, line: Line) {
    match line
    case ActionLine(key, row) => key !in held || held[key] != row
    case _ => true
  }

  /** No line tells the client what it holds already. */
  ghost predicate NoRepeats(lines: seq<Line>) {
    forall i | 0 <= i < |lines| :: News(Client(lines[..i]), lines[i])
  }

  /** The batch line comes once the client holds every final row, and they stay so. */
  ghost predicate EndsWhole(s: State) {
    && (s.stream.open ==> forall line <- s.stream.lines :: !line.BatchLine?)
    && (forall line <- s.stream.lines :: line.BatchLine? ==>
          !Running(s) && (s.batch.Some? ==> s.stream.seen == Rows(s.table) && s.batch.value == line.batch))
  }

  ghost predicate Inv(s: State) {
    && CatchesUp(s)
    && (s.batch.Some? ==> s.stream.seen.Keys <= s.table.Keys)
    && Client(s.stream.lines) == s.stream.seen
    && NoRepeats(s.stream.lines)
    && EndsWhole(s)
  }

  lemma OneMore(lines: seq<Line>, line: Line)
    requires NoRepeats(lines)
    requires News(Client(lines), line)
    ensures Client(lines + [line]) == Tell(Client(lines), line)
    ensures NoRepeats(lines + [line])
  {
    var all := lines + [line];
    assert all[..|lines|] == lines;
    assert forall i | 0 <= i < |lines| :: all[..i] == lines[..i] && all[i] == lines[i];
  }

  lemma NewLinesEmpty(seen: map<Key, Row>, table: map<Key, Row>, order: seq<Key>)
    requires order == []
    ensures NewLines(seen, table, order) == []
  {}

  lemma NewLinesAt(seen: map<Key, Row>, table: map<Key, Row>, order: seq<Key>, i: nat)
    requires i < |order| && forall k <- order :: k in table
    ensures NewLines(seen, table, order[i..]) ==
            var key := order[i];
            if key in seen && seen[key] == table[key] then NewLines(seen, table, order[i + 1..])
            else [ActionLine(key, table[key])] + NewLines(seen[key := table[key]], table, order[i + 1..])
  {
    assert order[i..][1..] == order[i + 1..];
  }

  lemma PickedSplit(table: map<Key, Row>, front: seq<Key>, back: seq<Key>)
    requires forall k <- front + back :: k in table
    ensures Picked(table, front + back) == Picked(table, front) + Picked(table, back)
  {
    assert forall k :: k in front + back <==> k in front || k in back;
  }

  lemma EmptyPicked(table: map<Key, Row>)
    ensures Picked(table, []) == map[]
  {}

  lemma OnePicked(table: map<Key, Row>, key: Key)
    requires key in table
    ensures Picked(table, [key]) == map[key := table[key]]
  {}

  lemma {:induction false} NewLinesTell(lines: seq<Line>, table: map<Key, Row>, order: seq<Key>)
    requires forall k <- order :: k in table
    requires NoRepeats(lines)
    decreases |order|
    ensures var all := lines + NewLines(Client(lines), table, order);
            Client(all) == Client(lines) + Picked(table, order) && NoRepeats(all)
    ensures forall line <- NewLines(Client(lines), table, order) :: line.ActionLine?
  {
    hide Client, NoRepeats, Picked;
    var seen := Client(lines);
    if order == [] {
      assert lines + [] == lines;
      assert seen + Picked(table, order) == seen by { EmptyPicked(table); }
    } else {
      var key := order[0];
      var rest := order[1..];
      assert order == [key] + rest;
      PickedSplit(table, [key], rest);
      OnePicked(table, key);
      if key in seen && seen[key] == table[key] {
        NewLinesTell(lines, table, rest);
        assert seen[key := table[key]] == seen;
      } else {
        var told := lines + [ActionLine(key, table[key])];
        OneMore(lines, ActionLine(key, table[key]));
        NewLinesTell(told, table, rest);
        assert told + NewLines(Client(told), table, rest) == lines + NewLines(seen, table, order);
      }
      assert seen[key := table[key]] + Picked(table, rest) == seen + (Picked(table, [key]) + Picked(table, rest));
    }
  }

  /** After a poll the stream has the batch's whole action table, as that poll's snapshot has it. */
  lemma PollIsWhole(s: State, order: seq<Key>, idle: bool)
    requires Inv(s) && s.stream.open && s.batch.Some?
    requires Reads(s, order)
    ensures Step(s, Poll(order, idle)).stream.seen == Rows(s.table)
  {}

  lemma PollCatchesUp(s: State, order: seq<Key>, idle: bool)
    requires Inv(s) && s.stream.open && s.batch.Some?
    requires Reads(s, order)
    ensures CatchesUp(Step(s, Poll(order, idle)))
  {
    PollIsWhole(s, order, idle);
  }

  lemma PollEndsWhole(s: State, order: seq<Key>, idle: bool)
    requires Inv(s) && s.stream.open && s.batch.Some?
    requires Reads(s, order)
    ensures EndsWhole(Step(s, Poll(order, idle)))
  {
    PollIsWhole(s, order, idle);
    hide CatchesUp, Client, NoRepeats, Reads, Xmin, Polled, Rows;
    BatchLineLast(s.stream, Rows(s.table), order, s.batch.value, Xmin(s.active, s.next), idle);
  }

  /** A poll adds the batch line, and ends the stream, exactly when the batch has ended. */
  lemma BatchLineLast(st: Stream, table: map<Key, Row>, order: seq<Key>, batch: BatchRow, xmin: Xid, idle: bool)
    requires Client(st.lines) == st.seen && NoRepeats(st.lines) && forall k <- order :: k in table
    ensures var after := Polled(st, table, order, batch, xmin, idle);
            && (after.open <==> batch.state == "running")
            && forall line <- after.lines :: line.BatchLine? ==> line in st.lines || (!after.open && line.batch == batch)
  {
    NewLinesTell(st.lines, table, order);
    hide Client, NoRepeats, NewLines, Picked;
  }

  lemma PollTells(st: Stream, table: map<Key, Row>, order: seq<Key>, batch: BatchRow, xmin: Xid, idle: bool)
    requires forall k <- order :: k in table
    requires Client(st.lines) == st.seen && NoRepeats(st.lines)
    ensures var after := Polled(st, table, order, batch, xmin, idle);
            Client(after.lines) == after.seen && NoRepeats(after.lines)
  {
    NewLinesTell(st.lines, table, order);
    hide Client, NoRepeats, NewLines;
    var lines := st.lines + NewLines(st.seen, table, order);
    if batch.state != "running" { OneMore(lines, BatchLine(batch)); } else { OneMore(lines, BlankLine); }
  }

  lemma PollKeeps(s: State, order: seq<Key>, idle: bool)
    requires Inv(s) && s.stream.open && s.batch.Some?
    requires Reads(s, order)
    ensures Inv(Step(s, Poll(order, idle)))
  {
    PollIsWhole(s, order, idle);
    PollCatchesUp(s, order, idle);
    PollEndsWhole(s, order, idle);
    PollTells(s.stream, Rows(s.table), order, s.batch.value, Xmin(s.active, s.next), idle);
    hide CatchesUp, Client, NoRepeats, EndsWhole, Polled, Xmin;
  }

  lemma StepKeeps(s: State, e: Event)
    requires Inv(s)
    ensures Inv(Step(s, e))
  {
    hide Client, NoRepeats;
    match e
    case Poll(order, idle) =>
      if s.stream.open && s.batch.Some? && Reads(s, order) {
        hide Inv, Step;
        PollKeeps(s, order, idle);
      }
    case _ =>
  }

  lemma {:induction false} RunKeeps(s: State, events: seq<Event>)
    requires Opens(s)
    ensures Inv(After(s, events))
  {
    if events != [] {
      hide Step, Inv;
      RunKeeps(s, events[..|events| - 1]);
      StepKeeps(After(s, events[..|events| - 1]), events[|events| - 1]);
    }
  }

  /** Reading only what changed is reading everything: after any run of transactions
      that commit in any order, a poll leaves the stream, and the client that replays
      its lines, with the whole action table as the poll's snapshot has it. */
  lemma DeltasRefinePolling(s: State, events: seq<Event>, order: seq<Key>, idle: bool)
    requires Opens(s)
    requires var before := After(s, events); before.stream.open && before.batch.Some? && Reads(before, order)
    ensures var before := After(s, events);
            var after := Step(before, Poll(order, idle));
            after.stream.seen == Rows(before.table) && Client(after.stream.lines) == Rows(before.table) && NoRepeats(after.stream.lines)
  {
    RunKeeps(s, events);
    PollIsWhole(After(s, events), order, idle);
    PollKeeps(After(s, events), order, idle);
  }

  lemma AfterOne(s: State, events: seq<Event>, e: Event)
    ensures After(s, events + [e]) == Step(After(s, events), e)
  {
    assert (events + [e])[..|events|] == events;
  }

  /** A row written and committed is what the client holds after the next poll. */
  lemma WrittenIsTold(s: State, events: seq<Event>, xid: Xid, key: Key, row: Row, order: seq<Key>, idle: bool)
    requires Opens(s)
    requires var before := After(s, events); xid in before.active && Running(before) && before.stream.open
    requires var committed := After(s, events + [Write(xid, key, row), Commit(xid)]); committed.batch.Some? && Reads(committed, order)
    ensures var held := Client(After(s, events + [Write(xid, key, row), Commit(xid), Poll(order, idle)]).stream.lines);
            key in held && held[key] == row
  {
    var written := events + [Write(xid, key, row)];
    var done := events + [Write(xid, key, row), Commit(xid)];
    assert done == written + [Commit(xid)] && done + [Poll(order, idle)] == events + [Write(xid, key, row), Commit(xid), Poll(order, idle)];
    AfterOne(s, events, Write(xid, key, row));
    AfterOne(s, written, Commit(xid));
    AfterOne(s, done, Poll(order, idle));
    assert key in After(s, done).table && After(s, done).table[key].row == row && After(s, done).stream.open;
    hide After, Client, NoRepeats, Reads, Step;
    DeltasRefinePolling(s, done, order, idle);
  }

  /** A final state written and committed ends the stream at the next poll, as its last line. */
  lemma FinalIsTold(s: State, events: seq<Event>, xid: Xid, batch: BatchRow, order: seq<Key>, idle: bool)
    requires batch.state != "running"
    requires var before := After(s, events); xid in before.active && Running(before) && before.stream.open
    requires Reads(After(s, events + [WriteBatch(xid, batch), Commit(xid)]), order)
    ensures var stream := After(s, events + [WriteBatch(xid, batch), Commit(xid), Poll(order, idle)]).stream;
            !stream.open && stream.lines != [] && stream.lines[|stream.lines| - 1] == BatchLine(batch)
  {
    var written := events + [WriteBatch(xid, batch)];
    var done := events + [WriteBatch(xid, batch), Commit(xid)];
    assert done == written + [Commit(xid)] && done + [Poll(order, idle)] == events + [WriteBatch(xid, batch), Commit(xid), Poll(order, idle)];
    AfterOne(s, events, WriteBatch(xid, batch));
    AfterOne(s, written, Commit(xid));
    AfterOne(s, done, Poll(order, idle));
    hide After, Reads, NewLines;
  }

  ghost predicate ToldEnd(s: State) {
    exists batch :: BatchLine(batch) in s.stream.lines
  }

  lemma ToldStays(s: State, e: Event)
    requires Inv(s) && ToldEnd(s)
    ensures Step(s, e).stream == s.stream
  {}

  /** Once the batch line is out, the client holds every action's final row: the batch has
      ended, and whatever happens later the stream says no more and the table stays as the
      client has it, until the batch is pruned with its actions. */
  lemma {:induction false} BatchLineIsFinal(s: State, events: seq<Event>, more: seq<Event>)
    requires Opens(s) && ToldEnd(After(s, events))
    ensures var (told, after) := (After(s, events), After(s, events + more));
            && !Running(after) && after.stream == told.stream
            && (after.batch.Some? ==> Client(told.stream.lines) == Rows(after.table) && BatchLine(after.batch.value) in told.stream.lines)
    decreases |more|
  {
    hide Step, Client;
    var all := events + more;
    RunKeeps(s, all);
    if more == [] {
      assert all == events;
    } else {
      BatchLineIsFinal(s, events, more[..|more| - 1]);
      assert all[..|all| - 1] == events + more[..|more| - 1];
      RunKeeps(s, events + more[..|more| - 1]);
      ToldStays(After(s, all[..|all| - 1]), all[|all| - 1]);
    }
  }

  /** A client that has no batch line yet is still being served, unless the batch was pruned. */
  lemma {:induction false} StreamEndsTold(s: State, events: seq<Event>)
    requires Opens(s)
    ensures var after := After(s, events);
            after.stream.open || after.batch.None? || exists batch :: BatchLine(batch) in after.stream.lines
  {
    if events != [] {
      var before := After(s, events[..|events| - 1]);
      StreamEndsTold(s, events[..|events| - 1]);
      EndsTold(before, events[|events| - 1]);
    }
  }

  lemma EndsTold(s: State, e: Event)
    requires s.stream.open || s.batch.None? || exists batch :: BatchLine(batch) in s.stream.lines
    ensures var after := Step(s, e);
            after.stream.open || after.batch.None? || exists batch :: BatchLine(batch) in after.stream.lines
  {
    var after := Step(s, e);
    if e.Poll? && s.batch.Some? && s.stream.open && !after.stream.open {
      assert BatchLine(s.batch.value) == after.stream.lines[|after.stream.lines| - 1];
    }
  }

  // ------------------------------------------------------------ the loop

  /** The rows told of the first `i` keys. */
  ghost predicate PartTold(before: Stream, seen: map<Key, Row>, lines: seq<Line>, table: map<Key, Row>, order: seq<Key>, i: nat)
    requires i <= |order| && forall k <- order :: k in table
  {
    && lines + NewLines(seen, table, order[i..]) == before.lines + NewLines(before.seen, table, order)
    && seen == before.seen + Picked(table, order[..i])
  }

  lemma NoneTold(before: Stream, table: map<Key, Row>, order: seq<Key>)
    requires forall k <- order :: k in table
    ensures PartTold(before, before.seen, before.lines, table, order, 0)
  {
    EmptyPicked(table);
  }

  lemma OneMoreTold(before: Stream, seen: map<Key, Row>, lines: seq<Line>, table: map<Key, Row>, order: seq<Key>, i: nat)
    requires i < |order| && (forall k <- order :: k in table) && PartTold(before, seen, lines, table, order, i)
    ensures var key := order[i];
            if key in seen && seen[key] == table[key] then PartTold(before, seen, lines, table, order, i + 1)
            else PartTold(before, seen[key := table[key]], lines + [ActionLine(key, table[key])], table, order, i + 1)
  {
    hide NewLines, Picked;
    var key := order[i];
    NewLinesAt(seen, table, order, i);
    assert order[..i + 1] == order[..i] + [key];
    PickedSplit(table, order[..i], [key]);
    OnePicked(table, key);
    assert seen[key := table[key]] == before.seen + Picked(table, order[..i + 1]);
    assert key in seen && seen[key] == table[key] ==> seen[key := table[key]] == seen;
  }

  lemma AllTold(before: Stream, seen: map<Key, Row>, lines: seq<Line>, table: map<Key, Row>, order: seq<Key>)
    requires (forall k <- order :: k in table) && PartTold(before, seen, lines, table, order, |order|)
    ensures lines == before.lines + NewLines(before.seen, table, order) && seen == before.seen + Picked(table, order)
  {
    assert order[..|order|] == order;
    NewLinesEmpty(seen, table, order[|order|..]);
  }

  /** The generator's variables, and the lines it has yielded. */
  class Lines {
    var seen: map<Key, Row>
    var lines: seq<Line>
    var open: bool

    /** One turn of the loop, on what one poll read. */
    method Turn(ghost before: Stream, table: map<Key, Row>, order: seq<Key>, batch: BatchRow, xmin: Xid, idle: bool) returns (since: Xid)
      requires forall k <- order :: k in table
      requires before.seen == seen && before.lines == lines
      modifies this
      ensures Stream(seen, since, lines, open) == Polled(before, table, order, batch, xmin, idle)
    {
      hide NewLines, Picked, PartTold;
      NoneTold(before, table, order);
      var i := 0;
      while i < |order|
        invariant 0 <= i <= |order|
        invariant PartTold(before, seen, lines, table, order, i)
      {
        var key := order[i];
        OneMoreTold(before, seen, lines, table, order, i);
        if key !in seen || seen[key] != table[key] {
          seen := seen[key := table[key]];
          lines := lines + [ActionLine(key, table[key])];
        }
        i := i + 1;
      }
      AllTold(before, seen, lines, table, order);
      since := xmin;
      open := batch.state == "running";
      if !open {
        lines := lines + [BatchLine(batch)];
      } else if idle {
        lines := lines + [BlankLine];
      }
    }
  }
}
