/**
 * cogs/tasks.py: the task modal's priority check and the task list.
 */
module TasksCog {
  import opened Wrappers
  import opened Strings
  import opened Database
  import opened Views

  /** The priority field: exactly "1", "2" or "3", stored as int(priority). */
  function PriorityValue(p: string): (r: Option<int>)
    ensures r.Some? <==> p == "1" || p == "2" || p == "3"
    ensures r.Some? ==> 1 <= r.value <= 3 && IntToString(r.value) == p
  {
    if p == "1" then Some(1) else if p == "2" then Some(2) else if p == "3" then Some(3) else None
  }

  /** Every stored priority prints back as the text that was entered. */
  lemma PriorityRoundTrip(n: int)
    requires 1 <= n <= 3
    ensures PriorityValue(IntToString(n)) == Some(n)
  {
  }

  datatype TaskReply = InvalidPriority | TaskAdded(task: string, priority: string)

  /** TaskModal.on_submit: an invalid priority is rejected before the store is touched. */
  method TaskSubmit(store: Store, userId: int, task: string, priority: string) returns (reply: TaskReply)
    requires store.Valid()
    modifies store
    ensures store.Valid()
    ensures reply == InvalidPriority <==> PriorityValue(priority).None?
    ensures reply == InvalidPriority ==>
      store.tasks == old(store.tasks) && store.nextTaskId == old(store.nextTaskId)
    ensures reply != InvalidPriority ==>
      reply == TaskAdded(task, priority) &&
      store.tasks == old(store.tasks) + [TaskRow(old(store.nextTaskId), userId, task, PriorityValue(priority).value)] &&
      store.TasksOf(userId) == old(store.TasksOf(userId)) + [TaskRow(old(store.nextTaskId), userId, task, PriorityValue(priority).value)] &&
      store.nextTaskId == old(store.nextTaskId) + 1
    ensures store.reminders == old(store.reminders) && store.timezones == old(store.timezones)
    ensures store.pomodoroSessions == old(store.pomodoroSessions) && store.nextReminderId == old(store.nextReminderId)
  {
    var p := PriorityValue(priority);
    if p.None? {
      return InvalidPriority;
    }
    var _ := store.AddTask(userId, task, p.value);
    reply := TaskAdded(task, priority);
  }

  /** One line of the task list. */
  function TaskLine(i: int, t: TaskRow): string
  {
    IntToString(i + 1) + ". **" + t.task + "** (Priority " + IntToString(t.priority) + ")"
  }

  function TaskLines(rows: seq<TaskRow>): (lines: seq<string>)
    ensures |lines| == |rows| && forall i :: 0 <= i < |rows| ==> lines[i] == TaskLine(i, rows[i])
  {
    seq(|rows|, i requires 0 <= i < |rows| => TaskLine(i, rows[i]))
  }

  datatype TaskListReply =
    | NoTasks
    | TaskListCrashed
    | TaskListing(count: int, description: string, view: DeletionSelect)

  /**
   * task_list on the result of get_tasks: no data or an empty array is "no
   * tasks"; a body that is not an array of rows raises TypeError in the
   * join; otherwise the numbered lines in store order, the count of rows in
   * the title and a task dropdown.
   */
  function TaskList(q: QueryResult<JsonBody<TaskRow>>): (reply: TaskListReply)
    ensures reply.NoTasks? <==> !Truthy(q)
    ensures reply.TaskListCrashed? <==> Iterate(q).NonRows?
    ensures reply.TaskListing? ==>
      q.Json? && q.value.Rows? && q.value.rows != [] &&
      reply.count == |q.value.rows| &&
      reply.description == Join("\n", TaskLines(q.value.rows)) &&
      reply.view == DeletionSelectOf(TaskEntries(q.value.rows), true)
  {
    if !Truthy(q) then NoTasks
    else match Iterate(q)
      case RowsOf(rows) =>
        TaskListing(|rows|, Join("\n", TaskLines(rows)), DeletionSelectOf(TaskEntries(rows), true))
      case _ => TaskListCrashed
  }

  lemma NatStringNoNewline(n: int)
    ensures '\n' !in IntToString(n)
  {
    if n < 0 {
      assert IntToString(n) == "-" + NatToString(-n);
    }
  }

  lemma TaskLineNoNewline(i: int, t: TaskRow)
    requires '\n' !in t.task
    ensures '\n' !in TaskLine(i, t)
  {
    NatStringNoNewline(i + 1);
    NatStringNoNewline(t.priority);
    var a := IntToString(i + 1);
    var b := IntToString(t.priority);
    assert TaskLine(i, t) == a + ". **" + t.task + "** (Priority " + b + ")";
    assert '\n' !in ". **" && '\n' !in "** (Priority " && '\n' !in ")";
  }

  /**
   * The description reads back, line by line, as the task lines when no task
   * text contains a line break; line i starts with i + 1 and quotes task i.
   */
  lemma TaskListLines(rows: seq<TaskRow>)
    requires rows != []
    requires forall i :: 0 <= i < |rows| ==> '\n' !in rows[i].task
    ensures Split(Join("\n", TaskLines(rows)), '\n') == TaskLines(rows)
  {
    var lines := TaskLines(rows);
    forall i | 0 <= i < |lines| ensures '\n' !in lines[i] {
      TaskLineNoNewline(i, rows[i]);
    }
    SplitJoin(lines, '\n');
  }

  /**
   * A task added through the modal is the last line of the owner's next
   * listing, with its text and the priority digit that was typed.
   */
  lemma AddedTaskListed(before: seq<TaskRow>, row: TaskRow, priority: string)
    requires PriorityValue(priority).Some? && row.priority == PriorityValue(priority).value
    ensures var rows := before + [row];
      var reply := TaskList(ExecuteQuery("GET", Served(rows)));
      reply.TaskListing? && reply.count == |before| + 1 &&
      TaskLines(rows)[|before|] == IntToString(|before| + 1) + ". **" + row.task + "** (Priority " + priority + ")"
  {
    ServedRows(before + [row]);
  }
}
