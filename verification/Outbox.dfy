/** The outbox: messages waiting to be sent again, and how long each waits. */
module Outbox {
  import opened Basics

  const I64_MIN := -0x8000_0000_0000_0000
  const I64_MAX := 0x7FFF_FFFF_FFFF_FFFF

  predicate IsI64(x: int) { I64_MIN <= x <= I64_MAX }

  function Power2(n: nat): (p: nat)
    ensures p >= 1
  {
    if n == 0 then 1 else 2 * Power2(n - 1)
  }

  function Exponent(attempts: int): nat {
    if attempts - 1 < 0 then 0 else if attempts - 1 > 7 then 7 else attempts - 1
  }

  function BackoffSeconds(attempts: int): int {
    var wait := 30 * Power2(Exponent(attempts));
    if wait < 3600 then wait else 3600
  }

  /** Every intermediate value fits 64 bits, so nothing overflows. */
  predicate BackoffFits(attempts: int) {
    IsI64(attempts - 1) && IsI64(Power2(Exponent(attempts))) && IsI64(30 * Power2(Exponent(attempts)))
  }

  lemma {:induction false} PowersUpTo7(n: nat)
    requires n <= 7
    ensures Power2(n) == [1, 2, 4, 8, 16, 32, 64, 128][n]
  {
    if n > 0 {
      PowersUpTo7(n - 1);
    }
  }

  lemma {:induction false} Power2Monotone(a: nat, b: nat)
    requires a <= b
    ensures Power2(a) <= Power2(b)
  {
    if a < b {
      Power2Monotone(a, b - 1);
    }
  }

  /** Waits lie between 30 seconds and an hour and never shrink as failures mount;
      the arithmetic overflows for the least 64-bit count alone. */
  lemma BackoffIsMonotone(a: int, b: int)
    requires IsI64(a) && IsI64(b) && a <= b
    ensures 30 <= BackoffSeconds(a) <= BackoffSeconds(b) <= 3600
    ensures BackoffFits(a) <==> a != I64_MIN
  {
    Power2Monotone(Exponent(a), Exponent(b));
    PowersUpTo7(Exponent(a));
  }

  /** The wait doubles from 30 seconds through the seventh failure, then stays an hour. */
  lemma BackoffDoubles(attempts: int)
    requires attempts >= 1
    ensures BackoffSeconds(attempts) == if attempts <= 7 then 30 * Power2(attempts - 1) else 3600
  {
    PowersUpTo7(Exponent(attempts));
  }

  // ----- the table -----

  datatype Row = Row(account: string, mail: string, createdAt: int, attempts: int, nextAttemptAt: int,
      lastError: Option<string>)

  /** `lastId` is the table's AUTOINCREMENT counter. */
  datatype Table = Table(rows: map<int, Row>, lastId: int)

  ghost predicate Valid(t: Table) { forall id :: id in t.rows ==> id <= t.lastId }

  function Enqueue(t: Table, id: Option<int>, account: string, mail: string, now: int): (Table, int) {
    match id
    case Some(i) =>
      (if i in t.rows
       then t.(rows := t.rows[i := Row(account, mail, t.rows[i].createdAt, 0, now, None)])
       else t, i)
    case None => (Table(t.rows[t.lastId + 1 := Row(account, mail, now, 0, now, None)], t.lastId + 1), t.lastId + 1)
  }

  predicate IsDue(t: Table, id: int, now: int) { id in t.rows && t.rows[id].nextAttemptAt <= now }

  /** `None` when there is no such row: the query for its count fails. */
  function MarkFailed(t: Table, id: int, error: string, now: int): Option<Table> {
    if id !in t.rows then None
    else
      var attempts := t.rows[id].attempts + 1;
      Some(t.(rows := t.rows[id := t.rows[id].(attempts := attempts, lastError := Some(error),
                                               nextAttemptAt := now + BackoffSeconds(attempts))]))
  }

  function Delete(t: Table, id: int): Table { t.(rows := map i | i in t.rows && i != id :: t.rows[i]) }

  /** A row as the sender gets it. */
  datatype Item = Item(id: int, account: string, attempts: int, lastError: Option<string>, mail: string)

  function ItemOf(id: int, row: Row): Item { Item(id, row.account, row.attempts, row.lastError, row.mail) }

  class Queue {
    var rows: map<int, Row>
    var lastId: int

    function View(): Table
      reads this
    {
      Table(rows, lastId)
    }

    constructor ()
      ensures View() == Table(map[], 0)
    {
      rows, lastId := map[], 0;
    }

    /** `json` is the serialised mail; when that fails nothing is stored. */
    method EnqueueMail(id: Option<int>, account: string, json: Option<string>, now: int) returns (given: Option<int>)
      modifies this
      ensures given.Some? == json.Some?
      ensures json.None? ==> View() == old(View())
      ensures json.Some? ==> (View(), given.value) == Enqueue(old(View()), id, account, json.value, now)
    {
      if json.None? {
        return None;
      }
      var mail := json.value;
      match id {
        case Some(i) =>
          if i in rows {
            rows := rows[i := Row(account, mail, rows[i].createdAt, 0, now, None)];
          }
          given := Some(i);
        case None =>
          lastId := lastId + 1;
          rows := rows[lastId := Row(account, mail, now, 0, now, None)];
          given := Some(lastId);
      }
    }

    /** The due rows, by ascending id. */
    method DueMail(now: int) returns (due: seq<Item>)
      ensures forall item :: item in due <==>
                && item.id in rows && rows[item.id].nextAttemptAt <= now
                && var row := rows[item.id];
                   item == Item(item.id, row.account, row.attempts, row.lastError, row.mail)
      ensures forall i, j :: 0 <= i < j < |due| ==> due[i].id < due[j].id
    {
      due := [];
      var rest := rows.Keys;
      while rest != {}
        invariant rest <= rows.Keys
        invariant forall item :: item in due <==>
                    item.id !in rest && IsDue(View(), item.id, now) && item == ItemOf(item.id, rows[item.id])
        invariant forall a, b :: a in rows && a !in rest && b in rest ==> a < b
        invariant forall i, j :: 0 <= i < j < |due| ==> due[i].id < due[j].id
        decreases rest
      {
        LeastExists(rest, (id: int) => id);
        ghost var first :| IsLeast(rest, (id: int) => id, first);
        var least :| least in rest && forall id :: id in rest ==> least <= id;
        forall i | 0 <= i < |due| ensures due[i].id < least {
          assert due[i] in due;
        }
        if rows[least].nextAttemptAt <= now {
          due := due + [ItemOf(least, rows[least])];
        }
        rest := rest - {least};
      }
    }

    method MarkMailFailed(id: int, error: string, now: int) returns (ok: bool)
      modifies this
      ensures ok == MarkFailed(old(View()), id, error, now).Some?
      ensures View() == if ok then MarkFailed(old(View()), id, error, now).value else old(View())
    {
      if id !in rows {
        return false;
      }
      var attempts := rows[id].attempts + 1;
      rows := rows[id := rows[id].(attempts := attempts, lastError := Some(error),
          nextAttemptAt := now + BackoffSeconds(attempts))];
      ok := true;
    }

    method DeleteMail(id: int)
      modifies this
      ensures View() == Delete(old(View()), id)
    {
      rows := map i | i in rows && i != id :: rows[i];
    }
  }

  // ----- runs -----

  datatype Command = EnqueueCmd(id: Option<int>, account: string, mail: string, now: int)
                   | FailCmd(row: int, error: string, now: int)
                   | DeleteCmd(row: int)

  function Does(t: Table, c: Command): Table {
    match c
    case EnqueueCmd(id, account, mail, now) => Enqueue(t, id, account, mail, now).0
    case FailCmd(id, error, now) => if MarkFailed(t, id, error, now).Some? then MarkFailed(t, id, error, now).value
        else t
    case DeleteCmd(id) => Delete(t, id)
  }

  function Run(t: Table, commands: seq<Command>): Table {
    if commands == [] then t else Does(Run(t, commands[..|commands| - 1]), commands[|commands| - 1])
  }

  /** The command queues this row afresh. */
  predicate Requeues(c: Command, id: int) { c.EnqueueCmd? && c.id == Some(id) }

  predicate Fails(c: Command, id: int) { c.FailCmd? && c.row == id }

  /** The times at which the row failed since it was last queued, as the commands
      tell them, for a row that is there before and after all of them. */
  function Failures(commands: seq<Command>, id: int): seq<int> {
    if commands == [] then []
    else
      var c := commands[|commands| - 1];
      var before := Failures(commands[..|commands| - 1], id);
      if Requeues(c, id) then [] else if Fails(c, id) then before + [c.now] else before
  }

  /** The sender retries this row only when it is due, and does not delete it. */
  ghost predicate RetriesWhenDue(t: Table, commands: seq<Command>, id: int) {
    forall i :: 0 <= i < |commands| ==> RetryIsDue(Run(t, commands[..i]), commands[i], id)
  }

  predicate RetryIsDue(t: Table, c: Command, id: int) {
    && (Fails(c, id) ==> IsDue(t, id, c.now))
    && (c.DeleteCmd? ==> c.row != id)
  }

  /** The least time from the first failure to the n-th. */
  function LeastDelay(n: nat): int {
    if n <= 1 then 0 else LeastDelay(n - 1) + BackoffSeconds(n - 1)
  }

  /** In closed form: 30*(2^(n-1) - 1) through the eighth, and an hour for each after it. */
  lemma {:induction false} LeastDelayIs(n: nat)
    requires n >= 1
    ensures LeastDelay(n) == if n <= 8 then 30 * (Power2(n - 1) - 1) else 3810 + 3600 * (n - 8)
  {
    if n > 1 {
      LeastDelayIs(n - 1);
      BackoffDoubles(n - 1);
      if n == 9 {
        PowersUpTo7(7);
      }
    }
  }

  /** What the table says of the row after the commands. */
  ghost predicate Tracks(t: Table, failures: seq<int>, id: int) {
    && id in t.rows && t.rows[id].attempts == |failures|
    && (forall i :: 0 <= i < |failures| ==> failures[i] >= failures[0] + LeastDelay(i + 1))
    && (failures != [] ==> t.rows[id].nextAttemptAt >= failures[0] + LeastDelay(|failures| + 1))
  }

  lemma {:induction false} RowTracksFailures(t: Table, commands: seq<Command>, id: int)
    requires Valid(t) && id in t.rows && t.rows[id].attempts == 0 && RetriesWhenDue(t, commands, id)
    ensures Tracks(Run(t, commands), Failures(commands, id), id) && Valid(Run(t, commands))
  {
    if commands != [] {
      var n := |commands| - 1;
      var before := commands[..n];
      forall i | 0 <= i < n ensures RetryIsDue(Run(t, before[..i]), before[i], id) {
        assert before[..i] == commands[..i];
      }
      RowTracksFailures(t, before, id);
      assert RetryIsDue(Run(t, commands[..n]), commands[n], id);
      CommandTracks(Run(t, before), commands[n], Failures(before, id), id);
    }
  }

  lemma CommandTracks(t: Table, c: Command, failures: seq<int>, id: int)
    requires Valid(t) && Tracks(t, failures, id) && RetryIsDue(t, c, id)
    ensures var after := if Requeues(c, id) then [] else if Fails(c, id) then failures + [c.now] else failures;
            Tracks(Does(t, c), after, id) && Valid(Does(t, c))
  {
    if Fails(c, id) {
      var after := failures + [c.now];
      assert LeastDelay(|after| + 1) == LeastDelay(|after|) + BackoffSeconds(|after|);
    }
  }

  /** A row retried only when due fails for the n-th time, since it was last
      queued, no sooner than the schedule says after its first failure. */
  lemma FailuresKeepTheSchedule(t: Table, commands: seq<Command>, id: int, n: nat)
    requires Valid(t) && id in t.rows && t.rows[id].attempts == 0 && RetriesWhenDue(t, commands, id)
    requires 1 <= n <= |Failures(commands, id)|
    ensures var failures := Failures(commands, id);
            failures[n - 1] - failures[0] >= if n <= 8 then 30 * (Power2(n - 1) - 1) else 3810 + 3600 * (n - 8)
  {
    RowTracksFailures(t, commands, id);
    LeastDelayIs(n);
    assert Failures(commands, id)[n - 1] >= Failures(commands, id)[0] + LeastDelay(n - 1 + 1);
  }

  /** A new row gets an id no row ever had, and is due at once. */
  lemma NewRowsAreFresh(t: Table, account: string, mail: string, now: int)
    requires Valid(t)
    ensures var (u, id) := Enqueue(t, None, account, mail, now);
            && Valid(u) && id !in t.rows && IsDue(u, id, now)
            && u.rows.Keys == t.rows.Keys + {id} && (forall i :: i in t.rows ==> u.rows[i] == t.rows[i])
            && u.lastId == id > t.lastId
  {
    var (u, id) := Enqueue(t, None, account, mail, now);
    assert id !in t.rows;
  }

  const EMPTY_TABLE := Table(map[], 0)

  /** How many new rows were queued. */
  function NewRows(commands: seq<Command>): nat {
    if commands == [] then 0
    else
      var c := commands[|commands| - 1];
      NewRows(commands[..|commands| - 1]) + if c.EnqueueCmd? && c.id.None? then 1 else 0
  }

  /** What the commands say of one row: the mail last queued under its id, when that was
      first, the failures since, the last error, and when it is due. The n-th new row is row n. */
  function Story(commands: seq<Command>, id: int): Option<Row> {
    if commands == [] then None
    else
      var before := Story(commands[..|commands| - 1], id);
      match commands[|commands| - 1]
      case EnqueueCmd(None, account, mail, now) =>
        if NewRows(commands) == id then Some(Row(account, mail, now, 0, now, None)) else before
      case EnqueueCmd(Some(i), account, mail, now) =>
        if i == id && before.Some? then Some(Row(account, mail, before.value.createdAt, 0, now, None)) else before
      case FailCmd(i, error, now) =>
        if i == id && before.Some? then Some(Failed(before.value, error, now)) else before
      case DeleteCmd(i) => if i == id then None else before
  }

  /** Over every run from an empty outbox each row is what the commands say of it alone. */
  lemma {:induction false} RowsTellTheirStories(commands: seq<Command>)
    ensures var t := Run(EMPTY_TABLE, commands);
            && t.lastId == NewRows(commands)
            && forall id :: Found(t, id) == Story(commands, id)
  {
    if commands != [] {
      var n := |commands| - 1;
      RowsTellTheirStories(commands[..n]);
      RunsCountFailures(commands[..n]);
      forall id ensures Found(Does(Run(EMPTY_TABLE, commands[..n]), commands[n]), id) == Story(commands, id) {
        assert Found(Run(EMPTY_TABLE, commands[..n]), id) == Story(commands[..n], id);
        OneMoreCommand(commands, id);
      }
    }
  }

  function Found(t: Table, id: int): Option<Row> { if id in t.rows then Some(t.rows[id]) else None }

  /** What a failure makes of a row. */
  function Failed(row: Row, error: string, now: int): Row {
    var n := row.attempts + 1;
    var wait := if 1 <= n <= 7 then 30 * Power2(n - 1) else 3600;
    Row(row.account, row.mail, row.createdAt, n, now + wait, Some(error))
  }

  lemma FailureFound(t: Table, row: int, error: string, now: int, id: int)
    requires row in t.rows ==> t.rows[row].attempts >= 0
    ensures Found(Does(t, FailCmd(row, error, now)), id) ==
              if id == row && id in t.rows then Some(Failed(t.rows[id], error, now)) else Found(t, id)
  {
    if row in t.rows {
      BackoffDoubles(t.rows[row].attempts + 1);
    }
  }

  lemma QueuingFound(t: Table, given: Option<int>, account: string, mail: string, now: int, id: int)
    ensures Found(Does(t, EnqueueCmd(given, account, mail, now)), id) ==
              match given
              case None => if id == t.lastId + 1 then Some(Row(account, mail, now, 0, now, None)) else Found(t, id)
              case Some(i) =>
                if id == i && id in t.rows then Some(Row(account, mail, t.rows[id].createdAt, 0, now, None))
                else Found(t, id)
  {
  }

  lemma DeletionFound(t: Table, row: int, id: int)
    ensures Found(Does(t, DeleteCmd(row)), id) == if id == row then None else Found(t, id)
  {
  }

  lemma OneMoreCommand(commands: seq<Command>, id: int)
    requires commands != []
    requires var t := Run(EMPTY_TABLE, commands[..|commands| - 1]);
             && t.lastId == NewRows(commands[..|commands| - 1]) && Counted(t, |commands|)
             && Found(t, id) == Story(commands[..|commands| - 1], id)
    ensures Found(Run(EMPTY_TABLE, commands), id) == Story(commands, id)
  {
    var t := Run(EMPTY_TABLE, commands[..|commands| - 1]);
    match commands[|commands| - 1]
    case EnqueueCmd(given, account, mail, now) => QueuingFound(t, given, account, mail, now, id);
    case FailCmd(row, error, now) => FailureFound(t, row, error, now, id);
    case DeleteCmd(row) => DeletionFound(t, row, id);
  }

  /** Failures are counted from nothing, one at a time. */
  ghost predicate Counted(t: Table, most: nat) { forall id :: id in t.rows ==> 0 <= t.rows[id].attempts <= most }

  lemma {:induction false} RunsCountFailures(commands: seq<Command>)
    ensures Counted(Run(EMPTY_TABLE, commands), |commands|) && Valid(Run(EMPTY_TABLE, commands))
  {
    if commands != [] {
      var n := |commands| - 1;
      RunsCountFailures(commands[..n]);
      var t := Run(EMPTY_TABLE, commands[..n]);
      forall id | id in Does(t, commands[n]).rows ensures 0 <= Does(t, commands[n]).rows[id].attempts <= |commands| {
        assert id in t.rows ==> 0 <= t.rows[id].attempts <= n;
      }
    }
  }

  /** In every run from an empty outbox the backoff is asked for a count of at least
      one, and overflows for none that 63 bits can count to. */
  lemma BackoffNeverOverflows(commands: seq<Command>, id: int)
    requires |commands| < I64_MAX && id in Run(EMPTY_TABLE, commands).rows
    ensures var attempts := Run(EMPTY_TABLE, commands).rows[id].attempts + 1;
            && 1 <= attempts <= I64_MAX && BackoffFits(attempts)
            && 30 <= BackoffSeconds(attempts) <= 3600
  {
    RunsCountFailures(commands);
    var attempts := Run(EMPTY_TABLE, commands).rows[id].attempts + 1;
    BackoffIsMonotone(attempts, attempts);
  }
}
