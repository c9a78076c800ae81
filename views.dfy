/**
 * utils/views.py: the dropdown offering one option per listed task or
 * reminder, and the callback that deletes the selected row.
 */
module Views {
  import opened Wrappers
  import opened Strings
  import opened Database

  /** A listed row as the dropdown sees it: its text (task or message) and its id. */
  datatype Entry = Entry(text: string, id: int)

  datatype SelectOption = SelectOption(caption: string, value: string)

  datatype DeletionSelect = DeletionSelect(
    placeholder: string, options: seq<SelectOption>,
    minValues: int, maxValues: int, isTask: bool)

  function TaskEntries(rows: seq<TaskRow>): (es: seq<Entry>)
    ensures |es| == |rows| && forall i :: 0 <= i < |rows| ==> es[i] == Entry(rows[i].task, rows[i].id)
  {
    seq(|rows|, i requires 0 <= i < |rows| => Entry(rows[i].task, rows[i].id))
  }

  function ReminderEntries(rows: seq<ReminderRow>): (es: seq<Entry>)
    ensures |es| == |rows| && forall i :: 0 <= i < |rows| ==> es[i] == Entry(rows[i].message, rows[i].id)
  {
    seq(|rows|, i requires 0 <= i < |rows| => Entry(rows[i].message, rows[i].id))
  }

  /** A text longer than 45 characters is cut to its first 45 and marked with "...". */
  function Truncate45(text: string): (shown: string)
    ensures |text| <= 45 ==> shown == text
    ensures |text| > 45 ==> |shown| == 48 && shown[..45] == text[..45] && shown[45..] == "..."
    ensures |shown| <= 48
  {
    if |text| > 45 then text[..45] + "..." else text
  }

  /** The options of DeletionSelect: the 1-based index, a dot, the shown text; the value is str(id). */
  function OptionsOf(entries: seq<Entry>): (opts: seq<SelectOption>)
    ensures |opts| == |entries|
    ensures forall i :: 0 <= i < |entries| ==>
      opts[i].caption == IntToString(i + 1) + ". " + Truncate45(entries[i].text)
    ensures forall i :: 0 <= i < |entries| ==> opts[i].value == IntToString(entries[i].id)
  {
    seq(|entries|, i requires 0 <= i < |entries| =>
      SelectOption(IntToString(i + 1) + ". " + Truncate45(entries[i].text), IntToString(entries[i].id)))
  }

  function Placeholder(isTask: bool): string
  {
    if isTask then "Select a task to delete" else "Select a reminder to delete"
  }

  /** DeletionSelect.__init__: exactly one choice among the options, placeholder by kind. */
  function DeletionSelectOf(entries: seq<Entry>, isTask: bool): (sel: DeletionSelect)
    ensures sel.options == OptionsOf(entries) && sel.isTask == isTask
    ensures sel.minValues == 1 && sel.maxValues == 1
    ensures sel.placeholder == Placeholder(isTask)
  {
    DeletionSelect(Placeholder(isTask), OptionsOf(entries), 1, 1, isTask)
  }

  /** A caption's number, read back by slicing it off the front. */
  lemma LeadingNumber(n: string, text: string, v: int)
    requires ParseInt(n) == Some(v)
    ensures var c := n + ". " + text;
      |n| <= |c| && ParseInt(c[..|n|]) == Some(v) && c[|n|..] == ". " + text
  {
    CaptionSlices(n, text);
  }

  lemma CaptionSlices(n: string, text: string)
    ensures var c := n + ". " + text;
      |n| <= |c| && c[..|n|] == n && c[|n|..] == ". " + text
  {
    var c := n + ". " + text;
    assert c[..|n|] == n;
    assert c[|n|..] == ". " + text;
  }

  /**
   * The dropdown's caption numbers read back as their positions, and its
   * values read back as the ids of the rows, in input order.
   */
  lemma OptionsReadBack(entries: seq<Entry>, i: int)
    requires 0 <= i < |entries|
    ensures var o := OptionsOf(entries)[i];
      ParseInt(o.value) == Some(entries[i].id) &&
      ParseInt(o.caption[..|IntToString(i + 1)|]) == Some(i + 1) &&
      o.caption[|IntToString(i + 1)|..] == ". " + Truncate45(entries[i].text)
  {
    var o := OptionsOf(entries)[i];
    var n := IntToString(i + 1);
    assert o.caption == n + ". " + Truncate45(entries[i].text);
    ParseIntRoundTrip(entries[i].id);
    ParseIntRoundTrip(i + 1);
    LeadingNumber(n, Truncate45(entries[i].text), i + 1);
  }

  /**
   * callback: the selected value names the row to delete, in the tasks
   * table for a task dropdown and in the reminders table otherwise; a value
   * that is not a number matches no id and nothing is deleted.
   */
  method Callback(store: Store, sel: DeletionSelect, chosen: string)
    requires store.Valid()
    modifies store
    ensures store.Valid()
    ensures ParseInt(chosen).Some? && sel.isTask ==>
      store.tasks == WithoutTask(old(store.tasks), ParseInt(chosen).value) &&
      store.reminders == old(store.reminders)
    ensures ParseInt(chosen).Some? && !sel.isTask ==>
      store.reminders == WithoutReminder(old(store.reminders), ParseInt(chosen).value) &&
      store.tasks == old(store.tasks)
    ensures ParseInt(chosen).None? ==> store.tasks == old(store.tasks) && store.reminders == old(store.reminders)
    ensures store.timezones == old(store.timezones) && store.pomodoroSessions == old(store.pomodoroSessions)
    ensures store.nextTaskId == old(store.nextTaskId) && store.nextReminderId == old(store.nextReminderId)
  {
    match ParseInt(chosen) {
      case Some(id) =>
        if sel.isTask {
          store.DeleteTask(id);
        } else {
          store.DeleteReminder(id);
        }
      case None =>
    }
  }
}
