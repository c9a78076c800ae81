/**
 * models/database.py: the REST gateway.  execute_query turns every outcome of
 * an HTTP call into a value; the get_* helpers read the first row or fall back
 * to a default; the store behind the REST interface is an in-memory set of
 * four tables whose add_* / set_* / save_* requests insert a row and whose
 * delete_* requests remove the rows with a given id.
 */
module Database {
  import opened Wrappers

  datatype TaskRow = TaskRow(id: int, userId: int, task: string, priority: int)

  /** remindAt is an instant: seconds since 0001-01-01T00:00:00 UTC. */
  datatype ReminderRow = ReminderRow(id: int, userId: int, message: string, remindAt: int)

  datatype TimezoneRow = TimezoneRow(userId: int, utcOffset: int)

  datatype SettingsRow = SettingsRow(
    userId: int,
    workDuration: int,
    breakDuration: int,
    longBreakDuration: int,
    sessionsBeforeLongBreak: int)

  /**
   * A parsed JSON body: an array of rows, or an object (the store's error
   * reports are objects) described only by its number of keys.
   */
  datatype JsonBody<R> = Rows(rows: seq<R>) | Object(size: nat)

  /**
   * What the HTTP call produced: an httpx.HTTPError, any other exception, or
   * a response with its status, its text and, when the text is valid JSON,
   * the parsed value.
   */
  datatype HttpOutcome<J> =
    | HttpError
    | OtherError
    | Response(status: int, content: string, json: Option<J>)

  /**
   * How a call of execute_query ends: the `httpx.AsyncClient` around the
   * request fails to open or to close, outside the try, so the exception
   * reaches the caller; or the block runs and returns what the request gave.
   */
  datatype Call<J> = ClientFailed | Answered(outcome: HttpOutcome<J>)

  /** What execute_query returns: None, parsed JSON, or the raw text. */
  datatype QueryResult<J> = NoData | Json(value: J) | Text(text: string)

  /** One character of method.lower() on ASCII: a capital letter becomes its small letter, any other character stays. */
  function LowerChar(c: char): (l: char)
    ensures 'A' <= c <= 'Z' ==> 'a' <= l <= 'z' && l as int - c as int == 'a' as int - 'A' as int
    ensures !('A' <= c <= 'Z') ==> l == c
  {
    if 'A' <= c <= 'Z' then (c as int + 32) as char else c
  }

  /** method.lower() on ASCII, character by character. */
  function AsciiLower(s: string): (r: string)
    ensures |r| == |s| && forall i :: 0 <= i < |s| ==> r[i] == LowerChar(s[i])
  {
    if s == [] then []
    else [LowerChar(s[0])] + AsciiLower(s[1..])
  }

  /** The verbs execute_query dispatches on, after method.lower(). */
  predicate KnownMethod(verb: string)
  {
    var m := AsciiLower(verb);
    m == "get" || m == "post" || m == "delete" || m == "patch"
  }

  /** Two verbs that differ only in the case of their ASCII letters. */
  predicate SameUpToCase(v: string, w: string)
  {
    |v| == |w| && forall i :: 0 <= i < |v| ==> LowerChar(v[i]) == LowerChar(w[i])
  }

  /** The dispatch ignores letter case: "GET", "Get" and "get" are the same verb. */
  lemma KnownMethodIgnoresCase(v: string, w: string)
    requires SameUpToCase(v, w)
    ensures AsciiLower(v) == AsciiLower(w) && KnownMethod(v) == KnownMethod(w)
  {
    var lv, lw := AsciiLower(v), AsciiLower(w);
    assert forall i :: 0 <= i < |lv| ==> lv[i] == lw[i];
  }

  /**
   * execute_query once its HTTP client is open: nothing the request raises
   * escapes the `try`.  An unknown verb leaves `response` unbound;
   * the resulting error, an HTTP error and any other exception all give
   * None.  A response gives None for status 204 or an empty body, the parsed
   * JSON when the body parses, and the raw text when it does not.
   */
  function ExecuteQuery<J>(verb: string, outcome: HttpOutcome<J>): (r: QueryResult<J>)
    ensures !KnownMethod(verb) || !outcome.Response? ==> r == NoData
    ensures outcome.Response? && (outcome.status == 204 || outcome.content == "") ==> r == NoData
    ensures r.Json? <==>
      KnownMethod(verb) && outcome.Response? && outcome.status != 204 &&
      outcome.content != "" && outcome.json.Some?
    ensures r.Json? ==> r.value == outcome.json.value
    ensures r.Text? <==>
      KnownMethod(verb) && outcome.Response? && outcome.status != 204 &&
      outcome.content != "" && outcome.json.None?
    ensures r.Text? ==> r.text == outcome.content
  {
    if !KnownMethod(verb) then NoData
    else
      match outcome
      case HttpError => NoData
      case OtherError => NoData
      case Response(status, content, json) =>
        if status == 204 then NoData
        else if content != "" then
          match json
          case Some(j) => Json(j)
          case None => Text(content)
        else NoData
  }

  /** Python's truth value of a query result (`if data`, `if not reminders`). */
  predicate Truthy<R>(q: QueryResult<JsonBody<R>>)
  {
    match q
    case NoData => false
    case Json(Rows(rows)) => rows != []
    case Json(Object(n)) => n > 0
    case Text(t) => t != ""
  }

  /**
   * What `for r in data: ... r["field"]` meets: None cannot be iterated;
   * the characters of a text and the keys of an object are strings, which
   * a field subscript rejects with TypeError; only an array yields rows.
   */
  datatype Iteration<R> = NotIterable | NonRows | RowsOf(rows: seq<R>)

  function Iterate<R>(q: QueryResult<JsonBody<R>>): (it: Iteration<R>)
    ensures it.RowsOf? && it.rows != [] ==> q == Json(Rows(it.rows))
    ensures it.RowsOf? ==> (it.rows != [] <==> Truthy(q))
    ensures it.NonRows? ==> Truthy(q)
  {
    match q
    case NoData => NotIterable
    case Json(Rows(rows)) => RowsOf(rows)
    case Json(Object(n)) => if n == 0 then RowsOf([]) else NonRows
    case Text(t) => if t == "" then RowsOf([]) else NonRows
  }

  /**
   * get_user_timezone: data[0]["utc_offset"] when the first element is a
   * row; 0 when there is no data, and also when data[0] fails (the key 0 of
   * an object, a character of a text), which the bare except turns into 0.
   */
  function GetUserTimezone(q: QueryResult<JsonBody<TimezoneRow>>): (offset: int)
    ensures (q.Json? && q.value.Rows? && q.value.rows != []) ==> offset == q.value.rows[0].utcOffset
    ensures !(q.Json? && q.value.Rows? && q.value.rows != []) ==> offset == 0
  {
    match q
    case Json(Rows(rows)) => if rows != [] then rows[0].utcOffset else 0
    case _ => 0
  }

  /**
   * What get_pomodoro_settings hands back: None, the first row, or (for a
   * non-JSON text) its first character, since a string can be indexed too.
   */
  datatype SettingsLookup = NoSettings | Found(row: SettingsRow) | FirstChar(c: char)

  function GetPomodoroSettings(q: QueryResult<JsonBody<SettingsRow>>): (s: SettingsLookup)
    ensures s.Found? <==> q.Json? && q.value.Rows? && q.value.rows != []
    ensures s.Found? ==> s.row == q.value.rows[0]
    ensures s.FirstChar? <==> q.Text? && q.text != ""
    ensures s.FirstChar? ==> s.c == q.text[0]
  {
    match q
    case Json(Rows(rows)) => if rows != [] then Found(rows[0]) else NoSettings
    case Json(Object(_)) => NoSettings
    case Text(t) => if t != "" then FirstChar(t[0]) else NoSettings
    case NoData => NoSettings
  }

  /**
   * The rows a PostgREST filter keeps.  The queries carry no `order=`; this
   * store serves them in table (insertion) order.
   */
  function Select<T(!new)>(rows: seq<T>, keep: T -> bool): (r: seq<T>)
    ensures |r| <= |rows|
    ensures forall x :: x in r <==> x in rows && keep(x)
  {
    if rows == [] then []
    else (if keep(rows[0]) then [rows[0]] else []) + Select(rows[1..], keep)
  }

  lemma {:induction false} SelectAppend<T(!new)>(a: seq<T>, b: seq<T>, keep: T -> bool)
    ensures Select(a + b, keep) == Select(a, keep) + Select(b, keep)
  {
    if a == [] {
      assert a + b == b;
    } else {
      assert (a + b)[1..] == a[1..] + b;
      SelectAppend(a[1..], b, keep);
    }
  }

  /** Two PostgREST filters may be applied in either order. */
  lemma {:induction false} SelectCommutes<T(!new)>(rows: seq<T>, a: T -> bool, b: T -> bool)
    ensures Select(Select(rows, a), b) == Select(Select(rows, b), a)
  {
    if rows != [] {
      var h := [rows[0]];
      SelectCommutes(rows[1..], a, b);
      SelectAppend(if a(rows[0]) then h else [], Select(rows[1..], a), b);
      SelectAppend(if b(rows[0]) then h else [], Select(rows[1..], b), a);
    }
  }

  /** An ordinary answer of the store to a read: status 200 and a JSON array of the selected rows. */
  function Served<R>(rows: seq<R>): HttpOutcome<JsonBody<R>>
  {
    Response(200, "[...]", Some(Rows(rows)))
  }

  lemma ServedRows<R>(rows: seq<R>)
    ensures ExecuteQuery("GET", Served(rows)) == Json(Rows(rows))
    ensures Iterate(ExecuteQuery("GET", Served(rows))) == RowsOf(rows)
    ensures Truthy(ExecuteQuery("GET", Served(rows))) <==> rows != []
  {
    assert AsciiLower("GET") == "get";
  }

  function TaskId(t: TaskRow): int { t.id }

  function ReminderId(r: ReminderRow): int { r.id }

  /** Every key is in [1, next) and the keys increase strictly in table order. */
  ghost predicate IdsIncreasing<T>(rows: seq<T>, key: T -> int, next: int)
  {
    (forall i :: 0 <= i < |rows| ==> 1 <= key(rows[i]) < next) &&
    (forall i, j :: 0 <= i < j < |rows| ==> key(rows[i]) < key(rows[j]))
  }

  lemma TailIncreasing<T>(rows: seq<T>, key: T -> int, next: int)
    requires rows != [] && IdsIncreasing(rows, key, next)
    ensures IdsIncreasing(rows[1..], key, next)
  {
    var rest := rows[1..];
    forall i, j | 0 <= i < j < |rest| ensures key(rest[i]) < key(rest[j]) {
      assert rest[i] == rows[i + 1] && rest[j] == rows[j + 1];
    }
  }

  lemma PrependIncreasing<T>(h: T, s: seq<T>, key: T -> int, next: int)
    requires IdsIncreasing(s, key, next) && 1 <= key(h) < next
    requires forall x :: x in s ==> key(h) < key(x)
    ensures IdsIncreasing([h] + s, key, next)
  {
    var out := [h] + s;
    forall i, j | 0 <= i < j < |out| ensures key(out[i]) < key(out[j]) {
      assert out[j] == s[j - 1] && s[j - 1] in s;
      if i > 0 {
        assert out[i] == s[i - 1];
      }
    }
  }

  /** A filter keeps the ids increasing: removing rows never reorders the rest. */
  lemma {:induction false} SelectKeepsIncreasing<T(!new)>(rows: seq<T>, key: T -> int, keep: T -> bool, next: int)
    requires IdsIncreasing(rows, key, next)
    ensures IdsIncreasing(Select(rows, keep), key, next)
  {
    if rows != [] {
      var rest := rows[1..];
      TailIncreasing(rows, key, next);
      SelectKeepsIncreasing(rest, key, keep, next);
      var s := Select(rest, keep);
      if keep(rows[0]) {
        forall x | x in s ensures key(rows[0]) < key(x) {
          var k :| 0 <= k < |rest| && rest[k] == x;
          assert rows[k + 1] == x;
        }
        PrependIncreasing(rows[0], s, key, next);
      }
    }
  }

  /** Appending a row with the next id keeps the ids increasing under the bumped counter. */
  lemma AppendKeepsIncreasing<T>(rows: seq<T>, key: T -> int, row: T, next: int)
    requires next >= 1 && IdsIncreasing(rows, key, next) && key(row) == next
    ensures IdsIncreasing(rows + [row], key, next + 1)
  {
    var out := rows + [row];
    forall i, j | 0 <= i < j < |out| ensures key(out[i]) < key(out[j]) {
      assert out[i] == rows[i];
      if j < |rows| {
        assert out[j] == rows[j];
      }
    }
    forall i | 0 <= i < |out| ensures 1 <= key(out[i]) < next + 1 {
      if i < |rows| {
        assert out[i] == rows[i];
      } else {
        assert out[i] == row;
      }
    }
  }

  /** delete_task: the rows whose id differs from the argument, in order. */
  function WithoutTask(rows: seq<TaskRow>, id: int): (r: seq<TaskRow>)
    ensures forall x :: x in r <==> x in rows && x.id != id
  {
    Select(rows, OtherTask(id))
  }

  /** delete_reminder: the rows whose id differs from the argument, in order. */
  function WithoutReminder(rows: seq<ReminderRow>, id: int): (r: seq<ReminderRow>)
    ensures forall x :: x in r <==> x in rows && x.id != id
  {
    Select(rows, OtherReminder(id))
  }

  /** The PostgREST filters the gateway sends. */
  function OwnedTask(userId: int): TaskRow -> bool { (t: TaskRow) => t.userId == userId }

  function OwnedReminder(userId: int): ReminderRow -> bool { (x: ReminderRow) => x.userId == userId }

  function OwnedTimezone(userId: int): TimezoneRow -> bool { (x: TimezoneRow) => x.userId == userId }

  function OwnedSettings(userId: int): SettingsRow -> bool { (x: SettingsRow) => x.userId == userId }

  function OtherTask(id: int): TaskRow -> bool { (t: TaskRow) => t.id != id }

  function OtherReminder(id: int): ReminderRow -> bool { (x: ReminderRow) => x.id != id }

  function DueBetween(start: int, end: int): ReminderRow -> bool { (x: ReminderRow) => start < x.remindAt <= end }

  /**
   * The four tables behind the REST interface.  Ids are assigned by the
   * store, one counter per table, so every id is positive and the ids of a
   * table increase in table order (hence are distinct).
   */
  class Store {
    var tasks: seq<TaskRow>
    var reminders: seq<ReminderRow>
    var timezones: seq<TimezoneRow>
    var pomodoroSessions: seq<SettingsRow>
    var nextTaskId: int
    var nextReminderId: int

    ghost predicate Valid()
      reads this
    {
      nextTaskId >= 1 && nextReminderId >= 1 &&
      IdsIncreasing(tasks, TaskId, nextTaskId) && IdsIncreasing(reminders, ReminderId, nextReminderId)
    }

    constructor ()
      ensures Valid()
      ensures tasks == [] && reminders == [] && timezones == [] && pomodoroSessions == []
    {
      tasks, reminders, timezones, pomodoroSessions := [], [], [], [];
      nextTaskId, nextReminderId := 1, 1;
    }

    /** get_tasks: the rows with user_id = eq.{userId}. */
    function TasksOf(userId: int): (r: seq<TaskRow>)
      reads this
      ensures forall x :: x in r <==> x in tasks && x.userId == userId
    {
      Select(tasks, OwnedTask(userId))
    }

    /** get_reminders: the rows with user_id = eq.{userId}. */
    function RemindersOf(userId: int): (r: seq<ReminderRow>)
      reads this
      ensures forall x :: x in r <==> x in reminders && x.userId == userId
    {
      Select(reminders, OwnedReminder(userId))
    }

    /** get_due_reminders: remind_at = gt.{start} and remind_at = lte.{end}. */
    function DueReminders(start: int, end: int): (r: seq<ReminderRow>)
      reads this
      ensures forall x :: x in r <==> x in reminders && start < x.remindAt <= end
    {
      Select(reminders, DueBetween(start, end))
    }

    /** The timezones rows get_user_timezone asks for. */
    function TimezonesOf(userId: int): (r: seq<TimezoneRow>)
      reads this
      ensures forall x :: x in r <==> x in timezones && x.userId == userId
    {
      Select(timezones, OwnedTimezone(userId))
    }

    /** The pomodoro_sessions rows get_pomodoro_settings asks for. */
    function SettingsOf(userId: int): (r: seq<SettingsRow>)
      reads this
      ensures forall x :: x in r <==> x in pomodoroSessions && x.userId == userId
    {
      Select(pomodoroSessions, OwnedSettings(userId))
    }

    /** add_task: a POST that inserts one row at the end of the table. */
    method AddTask(userId: int, task: string, priority: int) returns (id: int)
      requires Valid()
      modifies this
      ensures Valid()
      ensures id == old(nextTaskId) && nextTaskId == id + 1
      ensures tasks == old(tasks) + [TaskRow(id, userId, task, priority)]
      ensures TasksOf(userId) == old(TasksOf(userId)) + [TaskRow(id, userId, task, priority)]
      ensures forall u :: u != userId ==> TasksOf(u) == old(TasksOf(u))
      ensures reminders == old(reminders) && timezones == old(timezones)
      ensures pomodoroSessions == old(pomodoroSessions) && nextReminderId == old(nextReminderId)
    {
      id := nextTaskId;
      var row := TaskRow(id, userId, task, priority);
      forall u ensures Select(tasks + [row], OwnedTask(u)) == Select(tasks, OwnedTask(u)) + Select([row], OwnedTask(u)) {
        SelectAppend(tasks, [row], OwnedTask(u));
      }
      AppendKeepsIncreasing(tasks, TaskId, row, nextTaskId);
      tasks := tasks + [row];
      nextTaskId := nextTaskId + 1;
    }

    /** delete_task: the rows with id = eq.{id} disappear; the others keep their order. */
    method DeleteTask(id: int)
      requires Valid()
      modifies this
      ensures Valid()
      ensures tasks == WithoutTask(old(tasks), id)
      ensures forall u :: TasksOf(u) == WithoutTask(old(TasksOf(u)), id)
      ensures reminders == old(reminders) && timezones == old(timezones)
      ensures pomodoroSessions == old(pomodoroSessions)
      ensures nextTaskId == old(nextTaskId) && nextReminderId == old(nextReminderId)
    {
      SelectKeepsIncreasing(tasks, TaskId, OtherTask(id), nextTaskId);
      forall u ensures Select(Select(tasks, OtherTask(id)), OwnedTask(u)) == Select(Select(tasks, OwnedTask(u)), OtherTask(id)) {
        SelectCommutes(tasks, OtherTask(id), OwnedTask(u));
      }
      tasks := WithoutTask(tasks, id);
    }

    /** add_reminder: a POST that inserts one row at the end of the table. */
    method AddReminder(userId: int, message: string, remindAt: int) returns (id: int)
      requires Valid()
      modifies this
      ensures Valid()
      ensures id == old(nextReminderId) && nextReminderId == id + 1
      ensures reminders == old(reminders) + [ReminderRow(id, userId, message, remindAt)]
      ensures tasks == old(tasks) && timezones == old(timezones)
      ensures pomodoroSessions == old(pomodoroSessions) && nextTaskId == old(nextTaskId)
    {
      id := nextReminderId;
      AppendKeepsIncreasing(reminders, ReminderId, ReminderRow(id, userId, message, remindAt), nextReminderId);
      reminders := reminders + [ReminderRow(id, userId, message, remindAt)];
      nextReminderId := nextReminderId + 1;
    }

    /** delete_reminder: the rows with id = eq.{id} disappear; the others keep their order. */
    method DeleteReminder(id: int)
      requires Valid()
      modifies this
      ensures Valid()
      ensures reminders == WithoutReminder(old(reminders), id)
      ensures tasks == old(tasks) && timezones == old(timezones)
      ensures pomodoroSessions == old(pomodoroSessions)
      ensures nextTaskId == old(nextTaskId) && nextReminderId == old(nextReminderId)
    {
      SelectKeepsIncreasing(reminders, ReminderId, OtherReminder(id), nextReminderId);
      reminders := WithoutReminder(reminders, id);
    }

    /** set_user_timezone: a POST, so an insert, not an update of an existing row. */
    method SetUserTimezone(userId: int, offset: int)
      requires Valid()
      modifies this
      ensures Valid()
      ensures timezones == old(timezones) + [TimezoneRow(userId, offset)]
      ensures tasks == old(tasks) && reminders == old(reminders)
      ensures pomodoroSessions == old(pomodoroSessions)
      ensures nextTaskId == old(nextTaskId) && nextReminderId == old(nextReminderId)
    {
      timezones := timezones + [TimezoneRow(userId, offset)];
    }

    /** save_pomodoro_settings: a POST, so an insert, not an update of an existing row. */
    method SavePomodoroSettings(userId: int, work: int, shortBreak: int, longBreak: int, sessions: int)
      requires Valid()
      modifies this
      ensures Valid()
      ensures pomodoroSessions == old(pomodoroSessions) + [SettingsRow(userId, work, shortBreak, longBreak, sessions)]
      ensures tasks == old(tasks) && reminders == old(reminders) && timezones == old(timezones)
      ensures nextTaskId == old(nextTaskId) && nextReminderId == old(nextReminderId)
    {
      pomodoroSessions := pomodoroSessions + [SettingsRow(userId, work, shortBreak, longBreak, sessions)];
    }
  }

}
