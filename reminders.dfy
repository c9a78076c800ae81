/**
 * cogs/reminders.py: the reminder modal (validation and the conversion of
 * the entered local time to UTC), the reminder list (conversion back to
 * local time), and the once-a-minute sweep that delivers and then deletes
 * the reminders that fell due.
 */
module RemindersCog {
  import opened Wrappers
  import opened Strings
  import opened Helpers
  import opened Calendar
  import opened Database
  import opened Views

  // ---------------------------------------------------------------------
  // Creation

  datatype SubmitReply =
    | InvalidDateFormat
    | InvalidTimeFormat
    | DateTimeError
    | SubmitCrashed
    | TimeTravel
    | ReminderSet(remindAt: int, localTime: string)

  /** Both fields have the checked shape and strptime accepts their combination. */
  predicate Parsed(date: string, time: string)
  {
    ValidDateFormat(date) && ValidTimeFormat(time) && Strptime(date, time).Some?
  }

  /** remind_time = user_dt - timedelta(hours=offset), as an instant (possibly out of range). */
  function UtcInstant(date: string, time: string, offset: int): int
    requires Parsed(date, time)
  {
    ToInstant(Strptime(date, time).value) - offset * 3600
  }

  /**
   * ReminderModal.on_submit up to the store write.  nowMicros is
   * datetime.now() in microseconds since 0001-01-01T00:00.  The date shape
   * is checked first, then the time shape, then strptime; a result outside
   * the datetime range raises OverflowError, which no handler catches; a
   * time strictly before now is refused, so now itself is accepted.
   */
  function ReminderDecision(date: string, time: string, offset: int, nowMicros: int): (reply: SubmitReply)
    ensures reply == InvalidDateFormat <==> !ValidDateFormat(date)
    ensures reply == InvalidTimeFormat <==> ValidDateFormat(date) && !ValidTimeFormat(time)
    ensures reply == DateTimeError <==>
      ValidDateFormat(date) && ValidTimeFormat(time) && Strptime(date, time).None?
    ensures reply == SubmitCrashed <==> Parsed(date, time) && !InRange(UtcInstant(date, time, offset))
    ensures reply == TimeTravel <==>
      Parsed(date, time) && InRange(UtcInstant(date, time, offset)) &&
      UtcInstant(date, time, offset) * 1000000 < nowMicros
    ensures reply.ReminderSet? ==>
      Parsed(date, time) && reply.remindAt == UtcInstant(date, time, offset) &&
      InRange(reply.remindAt) && reply.remindAt * 1000000 >= nowMicros &&
      reply.localTime == date[..10] + " " + time
  {
    if !ValidDateFormat(date) then InvalidDateFormat
    else if !ValidTimeFormat(time) then InvalidTimeFormat
    else match Strptime(date, time)
      case None => DateTimeError
      case Some(userDt) =>
        var t := ToInstant(userDt) - offset * 3600;
        if !InRange(t) then SubmitCrashed
        else if t * 1000000 < nowMicros then TimeTravel
        else
          FormatParsed(date, time);
          ReminderSet(t, FormatDateTime(userDt))
  }

  /** A well-shaped date with month 13 is a date/time error, not a crash and not a reminder. */
  lemma MonthThirteenIsDateTimeError(date: string, time: string, offset: int, nowMicros: int)
    requires ValidDateFormat(date) && ValidTimeFormat(time)
    requires date[5] == '1' && date[6] == '3'
    ensures ReminderDecision(date, time, offset, nowMicros) == DateTimeError
  {
    MonthThirteenRejected(date, time);
  }

  /** on_submit: a row is inserted exactly when the reminder is accepted. */
  method ReminderSubmit(store: Store, userId: int, date: string, time: string, message: string,
                        offset: int, nowMicros: int) returns (reply: SubmitReply)
    requires store.Valid()
    modifies store
    ensures store.Valid()
    ensures reply == ReminderDecision(date, time, offset, nowMicros)
    ensures reply.ReminderSet? ==>
      store.reminders == old(store.reminders) + [ReminderRow(old(store.nextReminderId), userId, message, reply.remindAt)] &&
      store.nextReminderId == old(store.nextReminderId) + 1
    ensures !reply.ReminderSet? ==>
      store.reminders == old(store.reminders) && store.nextReminderId == old(store.nextReminderId)
    ensures store.tasks == old(store.tasks) && store.timezones == old(store.timezones)
    ensures store.pomodoroSessions == old(store.pomodoroSessions) && store.nextTaskId == old(store.nextTaskId)
  {
    reply := ReminderDecision(date, time, offset, nowMicros);
    if reply.ReminderSet? {
      var _ := store.AddReminder(userId, message, reply.remindAt);
    }
  }

  // ---------------------------------------------------------------------
  // Listing

  /** utc_time + timedelta(hours=offset), formatted; OverflowError (None) outside the datetime range. */
  function LocalTime(remindAt: int, offset: int): (shown: Option<string>)
    ensures shown.Some? <==> InRange(remindAt + offset * 3600)
    ensures shown.Some? ==> |shown.value| == 16
  {
    var t := remindAt + offset * 3600;
    if InRange(t) then Some(FormatDateTime(FromInstant(t))) else None
  }

  /**
   * With the offset unchanged, the list shows an accepted reminder at
   * exactly the date and time that were entered.
   */
  lemma ListedAsEntered(date: string, time: string, offset: int, nowMicros: int)
    requires ReminderDecision(date, time, offset, nowMicros).ReminderSet?
    ensures LocalTime(ReminderDecision(date, time, offset, nowMicros).remindAt, offset) ==
            Some(date[..10] + " " + time)
  {
    var dt := Strptime(date, time).value;
    assert ReminderDecision(date, time, offset, nowMicros).remindAt + offset * 3600 == ToInstant(dt);
    FromToInstant(dt);
    FormatParsed(date, time);
  }

  function ReminderLine(localTime: string, message: string): string
  {
    "`" + localTime + "` - " + message
  }

  /** The line of one row: its local time in backquotes, a dash, its message; None on overflow. */
  function RowLine(row: ReminderRow, offset: int): (line: Option<string>)
    ensures line.Some? <==> InRange(row.remindAt + offset * 3600)
    ensures line.Some? ==> line.value == ReminderLine(LocalTime(row.remindAt, offset).value, row.message)
  {
    match LocalTime(row.remindAt, offset)
    case Some(l) => Some(ReminderLine(l, row.message))
    case None => None
  }

  /** The line function of one offset. */
  function LineAt(offset: int): ReminderRow -> Option<string>
  {
    row => RowLine(row, offset)
  }

  /** The line of every element, in order, or None when one of them has none. */
  function AllLines<T>(xs: seq<T>, line: T -> Option<string>): (r: Option<seq<string>>)
    ensures r.Some? <==> forall i :: 0 <= i < |xs| ==> line(xs[i]).Some?
    ensures r.Some? ==> (|r.value| == |xs| && forall i :: 0 <= i < |xs| ==> r.value[i] == line(xs[i]).value)
  {
    if forall i :: 0 <= i < |xs| ==> line(xs[i]).Some? then
      Some(seq(|xs|, i requires 0 <= i < |xs| => line(xs[i]).value))
    else None
  }

  /** formatted_reminders: one line per row, or None when a conversion overflows. */
  function FormatReminders(rows: seq<ReminderRow>, offset: int): (r: Option<seq<string>>)
    ensures r.Some? <==> forall i :: 0 <= i < |rows| ==> RowLine(rows[i], offset).Some?
    ensures r.Some? ==>
      (|r.value| == |rows| && forall i :: 0 <= i < |rows| ==> r.value[i] == RowLine(rows[i], offset).value)
  {
    AllLines(rows, LineAt(offset))
  }

  /** The 1-based numbering of the description lines. */
  function Numbered(lines: seq<string>): (r: seq<string>)
    ensures |r| == |lines| && forall i :: 0 <= i < |lines| ==> r[i] == IntToString(i + 1) + ". " + lines[i]
  {
    seq(|lines|, i requires 0 <= i < |lines| => IntToString(i + 1) + ". " + lines[i])
  }

  datatype ListReply =
    | NoReminders
    | ListCrashed
    | ReminderListing(count: int, description: string, view: DeletionSelect)

  /**
   * reminder_list on the results of get_user_timezone and get_reminders:
   * no data or an empty array is "no reminders"; a body that is not an
   * array of rows, or a local time outside the datetime range, raises;
   * otherwise the numbered lines in store order with the count and a
   * reminder dropdown.
   */
  function ReminderListOf(q: QueryResult<JsonBody<ReminderRow>>, offset: int): (reply: ListReply)
    ensures reply.NoReminders? <==> !Truthy(q)
    ensures reply.ReminderListing? ==>
      q.Json? && q.value.Rows? && q.value.rows != [] &&
      FormatReminders(q.value.rows, offset).Some? &&
      reply.count == |q.value.rows| &&
      reply.description == Join("\n", Numbered(FormatReminders(q.value.rows, offset).value)) &&
      reply.view == DeletionSelectOf(ReminderEntries(q.value.rows), false)
    ensures Truthy(q) && q.Json? && q.value.Rows? ==>
      (reply.ReminderListing? <==> FormatReminders(q.value.rows, offset).Some?)
  {
    if !Truthy(q) then NoReminders
    else match Iterate(q)
      case RowsOf(rows) =>
        (match FormatReminders(rows, offset)
         case Some(lines) =>
           ReminderListing(|rows|, Join("\n", Numbered(lines)), DeletionSelectOf(ReminderEntries(rows), false))
         case None => ListCrashed)
      case _ => ListCrashed
  }

  lemma SameLines(a: seq<string>, b: seq<string>)
    requires |a| == |b| && forall i :: 0 <= i < |a| ==> a[i] == b[i]
    ensures a == b
  {
  }

  /** One more element extends the lines of the prefix by that element's line. */
  lemma AllLinesSnoc<T>(xs: seq<T>, line: T -> Option<string>, i: int)
    requires 0 <= i < |xs|
    requires AllLines(xs[..i], line).Some? && line(xs[i]).Some?
    ensures AllLines(xs[..i + 1], line) == Some(AllLines(xs[..i], line).value + [line(xs[i]).value])
  {
    var pre := xs[..i];
    var ext := xs[..i + 1];
    var lines := AllLines(pre, line).value + [line(xs[i]).value];
    forall k | 0 <= k < i + 1
      ensures line(ext[k]).Some? && line(ext[k]).value == lines[k]
    {
      if k < i {
        assert ext[k] == pre[k];
      } else {
        assert ext[k] == xs[i];
      }
    }
    SameLines(AllLines(ext, line).value, lines);
  }

  /** The loop of reminder_list: the lines are appended one by one; an overflow ends it. */
  method FormatLines(rows: seq<ReminderRow>, offset: int) returns (r: Option<seq<string>>)
    ensures r == FormatReminders(rows, offset)
  {
    var formatted: seq<string> := [];
    var i := 0;
    assert rows[..0] == [];
    while i < |rows|
      invariant 0 <= i <= |rows|
      invariant FormatReminders(rows[..i], offset) == Some(formatted)
    {
      var line := RowLine(rows[i], offset);
      if line.None? {
        return None;
      }
      AllLinesSnoc(rows, LineAt(offset), i);
      formatted := formatted + [line.value];
      i := i + 1;
    }
    assert rows[..i] == rows;
    r := Some(formatted);
  }

  /** reminder_list: the early replies, then the formatted lines. */
  method ReminderList(q: QueryResult<JsonBody<ReminderRow>>, offset: int) returns (reply: ListReply)
    ensures reply == ReminderListOf(q, offset)
  {
    if !Truthy(q) {
      return NoReminders;
    }
    var it := Iterate(q);
    if !it.RowsOf? {
      return ListCrashed;
    }
    var lines := FormatLines(it.rows, offset);
    if lines.None? {
      return ListCrashed;
    }
    reply := ReminderListing(|it.rows|, Join("\n", Numbered(lines.value)),
                             DeletionSelectOf(ReminderEntries(it.rows), false));
  }

  // ---------------------------------------------------------------------
  // The sweep

  datatype SweepEvent = Delivered(userId: int, message: string) | DeliveryFailed(userId: int) | Deleted(id: int)

  datatype SweepOutcome = SweepDone | SweepCrashed | FetchFailed

  /** The delivery attempt for one fetched reminder; canDeliver says whether fetch_user and send succeed. */
  function Attempt(row: ReminderRow, canDeliver: ReminderRow -> bool): SweepEvent
  {
    if canDeliver(row) then Delivered(row.userId, row.message) else DeliveryFailed(row.userId)
  }

  /** The deletions of the second pass: one per fetched reminder with a truthy (non-zero) id, in order. */
  function Deletions(rows: seq<ReminderRow>): seq<SweepEvent>
  {
    if rows == [] then []
    else
      var last := rows[|rows| - 1];
      Deletions(rows[..|rows| - 1]) + (if last.id != 0 then [Deleted(last.id)] else [])
  }

  /** The reminders table after the second pass over rows. */
  function RemoveIds(table: seq<ReminderRow>, rows: seq<ReminderRow>): seq<ReminderRow>
  {
    if rows == [] then table
    else
      var last := rows[|rows| - 1];
      var before := RemoveIds(table, rows[..|rows| - 1]);
      if last.id != 0 then WithoutReminder(before, last.id) else before
  }

  /** The deletion pass, one row further: the prefix grows by that row and its effect. */
  lemma PrefixSnoc(table: seq<ReminderRow>, rows: seq<ReminderRow>, j: int)
    requires 0 <= j < |rows|
    ensures RemoveIds(table, rows[..j + 1]) ==
      (if rows[j].id != 0 then WithoutReminder(RemoveIds(table, rows[..j]), rows[j].id) else RemoveIds(table, rows[..j]))
    ensures Deletions(rows[..j + 1]) == Deletions(rows[..j]) + (if rows[j].id != 0 then [Deleted(rows[j].id)] else [])
  {
    var ext := rows[..j + 1];
    assert ext[..|ext| - 1] == rows[..j] && ext[|ext| - 1] == rows[j];
  }

  ghost function DeletedIds(rows: seq<ReminderRow>): set<int>
  {
    set k | 0 <= k < |rows| && rows[k].id != 0 :: rows[k].id
  }

  /** The second pass removes exactly the rows whose id is a truthy id of a fetched reminder. */
  lemma {:induction false} RemoveIdsMembership(table: seq<ReminderRow>, rows: seq<ReminderRow>, x: ReminderRow)
    ensures x in RemoveIds(table, rows) <==> x in table && x.id !in DeletedIds(rows)
  {
    if rows != [] {
      var init := rows[..|rows| - 1];
      RemoveIdsMembership(table, init, x);
      var last := rows[|rows| - 1];
      if last.id != 0 {
        assert DeletedIds(rows) == DeletedIds(init) + {last.id} by {
          forall v | v in DeletedIds(rows) ensures v in DeletedIds(init) + {last.id} {
            var k :| 0 <= k < |rows| && rows[k].id != 0 && rows[k].id == v;
            if k < |rows| - 1 {
              assert init[k] == rows[k];
            }
          }
          forall v | v in DeletedIds(init) ensures v in DeletedIds(rows) {
            var k :| 0 <= k < |init| && init[k].id != 0 && init[k].id == v;
            assert rows[k] == init[k];
          }
        }
      } else {
        assert DeletedIds(rows) == DeletedIds(init) by {
          forall v | v in DeletedIds(rows) ensures v in DeletedIds(init) {
            var k :| 0 <= k < |rows| && rows[k].id != 0 && rows[k].id == v;
            assert init[k] == rows[k];
          }
          forall v | v in DeletedIds(init) ensures v in DeletedIds(rows) {
            var k :| 0 <= k < |init| && init[k].id != 0 && init[k].id == v;
            assert rows[k] == init[k];
          }
        }
      }
    }
  }

  /** The delivery pass of check_reminders: one attempt per fetched reminder, in order. */
  method DeliverAll(rows: seq<ReminderRow>, canDeliver: ReminderRow -> bool) returns (events: seq<SweepEvent>)
    ensures |events| == |rows| && forall k :: 0 <= k < |rows| ==> events[k] == Attempt(rows[k], canDeliver)
  {
    events := [];
    var i := 0;
    while i < |rows|
      invariant 0 <= i <= |rows|
      invariant |events| == i
      invariant forall k :: 0 <= k < i ==> events[k] == Attempt(rows[k], canDeliver)
    {
      events := events + [Attempt(rows[i], canDeliver)];
      i := i + 1;
    }
  }

  /** The deletion pass of check_reminders: every fetched reminder with a truthy id is deleted, in order. */
  method DeleteAll(store: Store, rows: seq<ReminderRow>) returns (events: seq<SweepEvent>)
    requires store.Valid()
    modifies store
    ensures store.Valid()
    ensures events == Deletions(rows)
    ensures store.reminders == RemoveIds(old(store.reminders), rows)
    ensures store.tasks == old(store.tasks) && store.timezones == old(store.timezones)
    ensures store.pomodoroSessions == old(store.pomodoroSessions)
    ensures store.nextTaskId == old(store.nextTaskId) && store.nextReminderId == old(store.nextReminderId)
  {
    events := [];
    var j := 0;
    while j < |rows|
      invariant 0 <= j <= |rows|
      invariant store.Valid()
      invariant events == Deletions(rows[..j])
      invariant store.reminders == RemoveIds(old(store.reminders), rows[..j])
      invariant store.tasks == old(store.tasks) && store.timezones == old(store.timezones)
      invariant store.pomodoroSessions == old(store.pomodoroSessions)
      invariant store.nextTaskId == old(store.nextTaskId) && store.nextReminderId == old(store.nextReminderId)
    {
      PrefixSnoc(old(store.reminders), rows, j);
      var rid := rows[j].id;
      if rid != 0 {
        store.DeleteReminder(rid);
        events := events + [Deleted(rid)];
      }
      j := j + 1;
    }
    assert rows[..|rows|] == rows;
  }

  /**
   * check_reminders after its call of get_due_reminders.  When that call
   * raises (the HTTP client fails to open or close), the handler gives up
   * the sweep before any delivery or deletion.  A body that is not an array
   * (None after a failed request, a text, an object) raises in the first
   * loop, also before any delivery or deletion.  Otherwise the delivery pass
   * attempts every fetched reminder in order, whatever the earlier attempts
   * gave, and only then the deletion pass deletes every fetched reminder
   * with a truthy id, whatever its delivery gave.
   */
  method CheckReminders(store: Store, call: Call<JsonBody<ReminderRow>>, canDeliver: ReminderRow -> bool)
    returns (outcome: SweepOutcome, events: seq<SweepEvent>)
    requires store.Valid()
    modifies store
    ensures store.Valid()
    ensures call.ClientFailed? ==>
      outcome == FetchFailed && events == [] && store.reminders == old(store.reminders)
    ensures call.Answered? ==>
      var it := Iterate(ExecuteQuery("GET", call.outcome));
      it.RowsOf? ==>
        outcome == SweepDone &&
        |events| == |it.rows| + |Deletions(it.rows)| &&
        (forall k :: 0 <= k < |it.rows| ==> events[k] == Attempt(it.rows[k], canDeliver)) &&
        events[|it.rows|..] == Deletions(it.rows) &&
        store.reminders == RemoveIds(old(store.reminders), it.rows)
    ensures call.Answered? && !Iterate(ExecuteQuery("GET", call.outcome)).RowsOf? ==>
      outcome == SweepCrashed && events == [] && store.reminders == old(store.reminders)
    ensures store.tasks == old(store.tasks) && store.timezones == old(store.timezones)
    ensures store.pomodoroSessions == old(store.pomodoroSessions)
    ensures store.nextTaskId == old(store.nextTaskId) && store.nextReminderId == old(store.nextReminderId)
  {
    if call.ClientFailed? {
      return FetchFailed, [];
    }
    var it := Iterate(ExecuteQuery("GET", call.outcome));
    if !it.RowsOf? {
      return SweepCrashed, [];
    }
    var deliveries := DeliverAll(it.rows, canDeliver);
    var deletions := DeleteAll(store, it.rows);
    events := deliveries + deletions;
    assert events[|it.rows|..] == deletions;
    outcome := SweepDone;
  }

  /** Ids of a table satisfying the store invariant identify its rows. */
  lemma IdsIdentify(table: seq<ReminderRow>, next: int, x: ReminderRow, y: ReminderRow)
    requires IdsIncreasing(table, ReminderId, next)
    requires x in table && y in table && x.id == y.id
    ensures x == y
  {
    var i :| 0 <= i < |table| && table[i] == x;
    var j :| 0 <= j < |table| && table[j] == y;
  }

  /**
   * When the store answers the sweep's query normally, the sweep removes
   * exactly the reminders due in the window and leaves every other row.
   */
  lemma SweepRemovesExactlyDue(table: seq<ReminderRow>, next: int, start: int, end: int, x: ReminderRow)
    requires IdsIncreasing(table, ReminderId, next)
    ensures var due := Select(table, DueBetween(start, end));
      x in RemoveIds(table, due) <==> x in table && !(start < x.remindAt <= end)
  {
    var due := Select(table, DueBetween(start, end));
    RemoveIdsMembership(table, due, x);
    if x in table {
      if start < x.remindAt <= end {
        var k :| 0 <= k < |due| && due[k] == x;
        assert ReminderId(x) >= 1;
        assert x.id in DeletedIds(due);
      } else if x.id in DeletedIds(due) {
        var k :| 0 <= k < |due| && due[k].id != 0 && due[k].id == x.id;
        assert due[k] in due;
        IdsIdentify(table, next, x, due[k]);
      }
    }
  }

  /** The index of the sweep window, 60 s wide and ending at e0 + 60 k, that contains instant t. */
  function WindowIndex(e0: int, t: int): int
  {
    (t - e0 + 59) / 60
  }

  /**
   * Sweeps whose windows (end - 60, end] end 60 seconds apart tile the time
   * line: an instant is due in the sweep of index k exactly when k is its
   * window index, so each reminder is fetched by exactly one of them.
   */
  lemma WindowsPartition(e0: int, t: int, k: int)
    ensures DueBetween(e0 + 60 * k - 60, e0 + 60 * k)(ReminderRow(0, 0, "", t)) <==> k == WindowIndex(e0, t)
  {
    var w := WindowIndex(e0, t);
    assert e0 + 60 * w - 60 < t <= e0 + 60 * w;
    if e0 + 60 * k - 60 < t <= e0 + 60 * k {
      assert k - 1 < w + 1 && w - 1 < k + 1 by {
        assert 60 * (k - 1) < 60 * (w + 1) && 60 * (w - 1) < 60 * (k + 1);
      }
    }
  }
}
