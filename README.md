# taskforce-bot core, modelled in Dafny

taskforce-bot is a Discord productivity bot. It keeps per-user tasks and
time-zone offsets, schedules reminders that a once-a-minute sweep delivers
and deletes, and runs Pomodoro timers. This project models the logic behind
those commands and proves properties of it:

- the Pomodoro engine: the session record, the registry of active sessions,
  the countdown loop with its status pushes, the phase transition, and the
  start, stop, status, settings and unload commands;
- reminder creation (shape checks, `strptime`, the conversion from local
  time to UTC, the "time travel" check), the reminder list (the conversion
  back to local time) and the two-pass sweep;
- the REST gateway (`execute_query` and its `get_*` defaults) over an
  in-memory store of four tables;
- the validators and formatters: the date and time shape checks, `mm:ss`,
  the progress bar, the sweep window, the task priority and list, the
  time-zone range, and the deletion dropdown.

Modules, one per source file plus three for the Python library behaviour
the code relies on:

| module | file | models |
|---|---|---|
| `Wrappers` | wrappers.dfy | `Option` |
| `Strings` | strings.dfy | `str(int)`, `int(str)`, `{:02d}`, `{:+d}`, zero-filled fields, `join`/`split`, repetition |
| `Calendar` | calendar.dfy | `datetime` at minute precision: `strptime`/`strftime` with `"%Y-%m-%d %H:%M"`, the range of years 1-9999, `timedelta(hours=…)` |
| `Helpers` | helpers.dfy | utils/helpers.py |
| `Database` | database.dfy | models/database.py and the store behind it |
| `PomodoroModel` | pomodoro_model.dfy | models/pomodoro.py |
| `PomodoroCog` | pomodoro.dfy | cogs/pomodoro.py |
| `RemindersCog` | reminders.dfy | cogs/reminders.py |
| `TasksCog` | tasks.dfy | cogs/tasks.py |
| `GeneralCog` | general.dfy | cogs/general.py |
| `Views` | views.dfy | utils/views.py |

How things are represented:

- **Instants.** An instant is an integer number of seconds since
  0001-01-01T00:00:00, the smallest `datetime`. `ToInstant`/`FromInstant`
  map between instants and the proleptic Gregorian calendar, using CPython's
  closed form for the days before a year.
- **Store.** The store is a `Store` class with one sequence field per table.
  Each `add_*`, `set_*` and `save_*` request is an insert at the end. Each
  `delete_*` request removes the rows with the given id.
- **Ids.** The store assigns ids from one counter per table. The class
  invariant keeps the ids positive and strictly increasing, hence distinct.
- **Gateway answers.** A gateway answer is an `HttpOutcome` value: an HTTP
  error, another exception, or a response with status, body text and
  optional parsed JSON. JSON bodies are arrays of rows or objects. A `Call`
  is either such an answer or a failure of the `httpx.AsyncClient` itself,
  which happens outside `execute_query`'s `try` and reaches the caller.
- **Pomodoro sessions.** A session is a `PomodoroSession` class whose
  `state`, `remainingTime`, `completedSessions`, `task` and `outbox` fields
  change in place. `outbox` is the log of direct messages sent to the user.
  The registry is a `SessionRegistry` class with a `map` field.
- **Timer loop.** One iteration of `pomodoro_timer`'s loop (a status push
  when the count is a multiple of 5, then the one-second sleep and the
  decrement) is the `Tick` method. Phase expiry is the `Transition` method.
- **Loops.** The loops of `pomodoro_timer`, `reminder_list` and
  `check_reminders` are `while` loops, proved against specification
  functions (`Countdown`, `FormatReminders`, `Deletions`, `RemoveIds`).

## Model

| member | source | states |
|---|---|---|
| Helpers.MatchAnchoredShape | utils/helpers.py:4-8 | an anchored `re.match` of single-character atoms accepts exactly one matching character per atom, optionally followed by one final newline (Python's `$`) |
| Helpers.ValidTimeFormat | utils/helpers.py:4-5 | accepted iff two digits, ':', two digits, optionally then one "\n" |
| Helpers.ValidDateFormat | utils/helpers.py:7-8 | accepted iff 4-2-2 digits separated by '-', optionally then one "\n"; no calendar check |
| Helpers.FormatRemainingTime | utils/helpers.py:10-13 | for seconds >= 0 the text is a minutes field of at least two digits, ':', and a two-digit seconds field below 60; minutes*60+seconds equals the input |
| Helpers.Trunc | utils/helpers.py:16 | `int()` of a real truncates toward zero: within one of the value, on the side of zero |
| Helpers.FilledCells | utils/helpers.py:16 | for progress in [0,1] the filled count is between 0 and bars and is the whole part of bars*progress |
| Helpers.FilledGrows | utils/helpers.py:16 | for progress values in [0,1], more progress never gives fewer filled cells |
| Helpers.CreateProgressBar | utils/helpers.py:15-18 | the length is max(filled,0)+max(bars-filled,0); for progress in [0,1] it is exactly bars, filled cells first, then empty cells |
| Helpers.GetUtcTimestamps | utils/helpers.py:20-26 | the window ends at the current instant truncated to the second and starts exactly 60 s earlier |
| Strings.NatToString | cogs/tasks.py:92 | `str(n)` of a natural number is a digit string of value n with no leading zero |
| Strings.IntToString | utils/views.py:15 | `str(n)` starts with '-' iff n < 0 |
| Strings.ParseIntRoundTrip | cogs/pomodoro.py:44-47 | `int(str(n)) == n` for every integer |
| Strings.SignedString | cogs/general.py:69 | `{:+d}` writes '+' iff n >= 0 and '-' iff n < 0, then the digits of abs(n) |
| Strings.SignedStringRoundTrip | cogs/general.py:69 | `int` reads the `{:+d}` spelling back as n |
| Strings.Pad2 | utils/helpers.py:13 | `{:02d}` of n >= 0 is a digit string of value n, at least two long and exactly two for n < 100; a negative n prints as `str(n)` |
| Strings.Fixed | cogs/reminders.py:99 | a zero-filled field has exactly the width and, when n fits, the value n |
| Strings.FixedOfDigits | cogs/reminders.py:99 | zero-filling the value of a digit string to its own length gives the string back |
| Strings.TrimLeft | cogs/pomodoro.py:44 | removes exactly the leading whitespace that `int()` ignores |
| Strings.TrimRight | cogs/pomodoro.py:44 | removes exactly the trailing whitespace that `int()` ignores |
| Strings.SplitJoin | cogs/tasks.py:91-94 | splitting a "\n"-join on "\n" gives back the parts when no part holds a "\n" |
| Strings.Repeat | utils/helpers.py:18 | `c * n` has max(n,0) characters, all c |
| Calendar.DaysBeforeMonth | cogs/reminders.py:56-59 | the days of the year before a month leave room for that month, and December ends the year |
| Calendar.DaysBeforeYearStep | cogs/reminders.py:62 | CPython's closed form for the days before a year grows by exactly the length of each year |
| Calendar.ToInstant | cogs/reminders.py:62 | every datetime of years 1-9999 has an instant in range that is a whole minute |
| Calendar.FromInstant | cogs/reminders.py:145-146 | every instant in range denotes a valid datetime whose instant is the input rounded down to the minute |
| Calendar.FromToInstant | cogs/reminders.py:145-146 | converting a datetime to its instant and back gives the datetime |
| Calendar.FormatDateTime | cogs/reminders.py:99 | `strftime("%Y-%m-%d %H:%M")` is 16 characters long |
| Calendar.Strptime | cogs/reminders.py:56-59 | on shape-checked input, parses iff the time has no trailing newline, year >= 1, month 1-12, day within the month, hour <= 23 and minute <= 59; the result is the datetime of the digit fields |
| Calendar.MonthThirteenRejected | cogs/reminders.py:56-59 | a well-shaped date whose month digits are "13" does not parse |
| Calendar.FormatParsed | cogs/reminders.py:99 | `strftime` of what was parsed is the entered date (without a trailing newline), a space, and the entered time |
| Calendar.ParseFormatted | cogs/reminders.py:146 | the `strftime` text of any datetime passes both shape checks and parses back to that datetime |
| Database.LowerChar | models/database.py:10 | a capital ASCII letter becomes the matching small letter; any other character is unchanged |
| Database.AsciiLower | models/database.py:10 | lower-casing keeps the length and lower-cases each character on its own |
| Database.KnownMethodIgnoresCase | models/database.py:10-18 | verbs that differ only in letter case lower-case to the same text and are dispatched alike |
| Database.ExecuteQuery | models/database.py:9-35 | once the HTTP client is open, nothing raises: an unknown verb, an HTTP error or any other exception gives None; status 204 or an empty body gives None; otherwise the parsed JSON when the body parses and the raw text when it does not |
| Database.Iterate | cogs/reminders.py:173-175 | only a JSON array yields rows; None cannot be iterated; a non-empty text or object yields strings that a field subscript rejects; non-empty rows are truthy |
| Database.GetUserTimezone | models/database.py:38-43 | the first row's offset when the answer is a non-empty array, 0 in every other case |
| Database.GetPomodoroSettings | models/database.py:92-97 | the first row of a non-empty array; the first character of a non-empty text; otherwise None |
| Database.Select | models/database.py:54-55 | a filter keeps exactly the rows satisfying it, in table order |
| Database.SelectAppend | models/database.py:58-63 | filtering a table with rows appended is filtering each part |
| Database.SelectCommutes | models/database.py:66-67 | deleting by id and then filtering by owner equals filtering by owner and then deleting by id |
| Database.ServedRows | models/database.py:20-24 | a normal 200 answer carrying an array gives exactly those rows, which are truthy iff non-empty |
| Database.SelectKeepsIncreasing | models/database.py:66-67 | deleting rows keeps the ids strictly increasing |
| Database.AppendKeepsIncreasing | models/database.py:58-63 | inserting a row with the next id keeps the ids strictly increasing |
| Database.WithoutTask | models/database.py:66-67 | `delete_task` keeps exactly the rows whose id differs |
| Database.WithoutReminder | models/database.py:82-83 | `delete_reminder` keeps exactly the rows whose id differs |
| Database.Store.TasksOf | models/database.py:54-55 | `get_tasks` returns exactly the user's rows |
| Database.Store.RemindersOf | models/database.py:70-71 | `get_reminders` returns exactly the user's rows |
| Database.Store.DueReminders | models/database.py:86-89 | `get_due_reminders` returns exactly the rows with start < remind_at <= end |
| Database.Store.TimezonesOf | models/database.py:40 | the time-zone rows the query reads are exactly the user's |
| Database.Store.SettingsOf | models/database.py:94 | the settings rows the query reads are exactly the user's |
| Database.Store.AddTask | models/database.py:58-63 | inserts one row with the next id at the end; the user's list grows by it, other users' lists and other tables are unchanged |
| Database.Store.DeleteTask | models/database.py:66-67 | removes exactly the rows with the id, in every user's list; other tables are unchanged |
| Database.Store.AddReminder | models/database.py:74-79 | inserts one row with the next id at the end; other tables are unchanged |
| Database.Store.DeleteReminder | models/database.py:82-83 | removes exactly the rows with the id; other tables are unchanged |
| Database.Store.SetUserTimezone | models/database.py:46-51 | a POST: appends a row, does not update an existing one |
| Database.Store.SavePomodoroSettings | models/database.py:100-111 | a POST: appends a row, does not update an existing one |
| GeneralCog.TimezoneDecision | cogs/general.py:43-72 | rejected iff offset < -12 or > 14; the success text carries the sign ('+' iff offset >= 0) and reads back as the offset |
| GeneralCog.SetTimezone | cogs/general.py:43-72 | an accepted offset is inserted unchanged; a rejected one leaves the store as it was |
| GeneralCog.FirstOffsetWins | models/database.py:38-51 | in a store that serves rows in insertion order: with no row yet, the user reads 0 and, after setting, the offset set; after the first row, later writes change nothing a read sees |
| GeneralCog.OtherUsersIgnored | models/database.py:40-41 | another user's write never changes the offset a user reads |
| PomodoroModel.PomodoroSession.constructor | models/pomodoro.py:11-21 | stores the user id and the four durations (default 25/5/15/4); IDLE, 0 remaining, 0 completed, no task, no message |
| PomodoroModel.SessionRegistry.constructor | models/pomodoro.py:23 | the registry starts empty |
| PomodoroModel.DistinctSessions | models/pomodoro.py:23 | the registry is keyed by user id, so two users never share a session |
| PomodoroCog.SettingsDecision | cogs/pomodoro.py:42-84 | "Invalid Input" iff some field is not an integer; otherwise "Invalid Values" iff some value is below 1; otherwise the four values are saved unchanged |
| PomodoroCog.SettingsRoundTrip | cogs/pomodoro.py:44-65 | typing the decimal forms of four positive numbers saves exactly those numbers |
| PomodoroCog.PomodoroSettingsSubmit | cogs/pomodoro.py:42-74 | a settings row is inserted iff the values are accepted; nothing else in the store changes |
| PomodoroCog.Progress | cogs/pomodoro.py:109 | progress is in [0, 1) while 0 < remaining <= total |
| PomodoroCog.ProgressSpent | cogs/pomodoro.py:109 | (1 - progress) * total is the time left, so progress is the share of the phase already spent |
| PomodoroCog.ProgressGrows | cogs/pomodoro.py:109 | less time left means no less progress |
| PomodoroCog.FreshProgress | cogs/pomodoro.py:109 | a phase with all its time left has progress 0 |
| PomodoroCog.StatusNotice | cogs/pomodoro.py:95-120 | the push shows the state, minutes and seconds that recompose the remaining time, the completed count and threshold; while the phase runs, the bar is k filled then 10 - k empty cells, where k = int(10 * (1 - remaining / total)) and total is the work length for WORKING, the short break for SHORT_BREAK and the long break otherwise, in seconds |
| PomodoroCog.PhaseTotalMultipleOfFive | cogs/pomodoro.py:96-107 | every phase length is whole minutes, so a multiple of 5 seconds |
| PomodoroCog.PushBar | cogs/pomodoro.py:109-110 | the bar of a running phase's push has BarCells filled cells, then the empty ones |
| PomodoroCog.PushCellsGrow | cogs/pomodoro.py:109-110 | of two pushes of the same phase, the one with less time left has no fewer filled cells |
| PomodoroCog.FreshBar | cogs/pomodoro.py:109-110 | the push of a phase with all its time left shows ten empty cells |
| PomodoroCog.PushShift | cogs/pomodoro.py:133-139 | one second later the push times of a phase are unchanged, shifted by one after a push second |
| PomodoroCog.CountdownPushes | cogs/pomodoro.py:130-139 | a running phase with r seconds left produces r/5 pushes; push k is the status of the same phase at r - r%5 - 5k seconds left |
| PomodoroCog.CountdownShape | cogs/pomodoro.py:130-139 | a running phase with r seconds left produces r/5 pushes; push k shows r - r%5 - 5k seconds, the phase's state and counts, and a ten-cell bar |
| PomodoroCog.CountdownBars | cogs/pomodoro.py:109-139 | the countdown's bar fills up: push k has BarCells filled cells, a later push never has fewer, and the first push of a fresh phase is empty |
| PomodoroCog.UpdatePomodoroMessage | cogs/pomodoro.py:95-128 | appends one status push, marks the message as present, changes nothing else |
| PomodoroCog.Tick | cogs/pomodoro.py:131-139 | decrements the remaining time by exactly 1 and pushes a status exactly when it was a multiple of 5 |
| PomodoroCog.AfterExpiry | cogs/pomodoro.py:141-171 | from WORKING, completed + 1, and LONG_BREAK iff completed + 1 >= threshold, else SHORT_BREAK; from a break, WORKING with completed unchanged; the new phase has its full length; IDLE is unchanged |
| PomodoroCog.ExpiryNotice | cogs/pomodoro.py:140-184 | no message iff IDLE; a finished work phase announces which break follows and its length; a finished break announces the work length of the next phase |
| PomodoroCog.Transition | cogs/pomodoro.py:141-186 | the session moves to AfterExpiry of its phase, the notice is appended, and a new timer task is scheduled unless IDLE |
| PomodoroCog.PomodoroTimer | cogs/pomodoro.py:130-186 | an uninterrupted run pushes exactly the Countdown messages, reaches 0, then makes the transition |
| PomodoroCog.RunRegisteredTimer | cogs/pomodoro.py:130-186 | one timer run changes only its own session, which stays running, and the registry keeps its invariant |
| PomodoroCog.RunMonotone | cogs/pomodoro.py:141-171 | over any number of phases completed_sessions never decreases and a running session never turns IDLE |
| PomodoroCog.LongBreaksForever | cogs/pomodoro.py:142-171 | once the threshold is reached, every later work phase is followed by a long break and no short break ever recurs |
| PomodoroCog.DefaultCycle | cogs/pomodoro.py:141-171 | with 25/5/15/4: three 300 s short breaks, a 900 s long break after the fourth work phase, and a long break again after the fifth |
| PomodoroCog.FirstSettingsWin | models/database.py:92-111 | in a store that serves rows in insertion order, settings saved first are the ones later starts read; saving again changes nothing a read sees |
| PomodoroCog.StartDurations | cogs/pomodoro.py:208-223 | no stored settings gives 25/5/15/4; a stored row gives its four values |
| PomodoroCog.PomodoroStart | cogs/pomodoro.py:195-230 | rejected and nothing changes for a registered user; otherwise a fresh session, WORKING with work*60 seconds and a timer scheduled, is registered under the user and existing entries are kept |
| PomodoroCog.PomodoroStop | cogs/pomodoro.py:242-261 | rejected iff the user is absent; otherwise the session turns IDLE, its task is cancelled and exactly that user leaves the registry |
| PomodoroCog.StatusOf | cogs/pomodoro.py:290-321 | minutes and seconds recompose the remaining time; the counts are the session's; "next" is Long or Short Break |
| PomodoroCog.PomodoroStatus | cogs/pomodoro.py:277-323 | no report iff the user is absent; otherwise the report of the registered session |
| PomodoroCog.StatusPredictsNextBreak | cogs/pomodoro.py:317-321 | "Long Break" is shown iff the break after the next work phase to end is long |
| PomodoroCog.CogUnload | cogs/pomodoro.py:325-329 | every registered session's task is cancelled, nothing else about it changes, and the registry ends empty |
| RemindersCog.ReminderDecision | cogs/reminders.py:32-81 | date shape first, then time shape, then `strptime`; out of range is a crash; refused iff remind_time < now, so now itself is accepted; remind_time = local - offset hours |
| RemindersCog.MonthThirteenIsDateTimeError | cogs/reminders.py:53-81 | a well-shaped input with month "13" is a date/time error |
| RemindersCog.ReminderSubmit | cogs/reminders.py:32-106 | a reminder row is inserted iff the reminder is accepted; nothing else in the store changes |
| RemindersCog.LocalTime | cogs/reminders.py:145-146 | a local time is shown iff instant + offset hours is in range, as 16 characters |
| RemindersCog.ListedAsEntered | cogs/reminders.py:145-146 | with the offset unchanged, an accepted reminder is listed at exactly the entered date and time |
| RemindersCog.RowLine | cogs/reminders.py:144-147 | a row's line exists iff its local time is in range, and is that time in backquotes, " - ", the message |
| RemindersCog.AllLines | cogs/reminders.py:143-147 | lines exist iff every element has one, and then they are one per element, in order |
| RemindersCog.FormatReminders | cogs/reminders.py:143-147 | one line per row in store order, or none when a conversion overflows |
| RemindersCog.Numbered | cogs/reminders.py:149 | line i is prefixed with i+1 and ". " |
| RemindersCog.ReminderListOf | cogs/reminders.py:119-159 | "no reminders" iff the answer is falsy; a listing has the row count, the numbered lines in store order and a reminder dropdown; a converted array is listed iff every local time is in range |
| RemindersCog.FormatLines | cogs/reminders.py:143-147 | the appending loop computes FormatReminders |
| RemindersCog.ReminderList | cogs/reminders.py:120-159 | the command computes ReminderListOf |
| RemindersCog.RemoveIdsMembership | cogs/reminders.py:187-193 | after the deletion pass, a row remains iff it was there and its id is no truthy id of a fetched reminder |
| RemindersCog.DeliverAll | cogs/reminders.py:173-185 | one delivery attempt per fetched reminder, in order, whatever earlier attempts gave |
| RemindersCog.DeleteAll | cogs/reminders.py:187-193 | deletes every fetched reminder with a truthy id, in order; other tables are unchanged |
| RemindersCog.CheckReminders | cogs/reminders.py:162-193 | a fetch that raises ends the sweep before any delivery or deletion; an answer that is not an array crashes before any delivery or deletion; otherwise all delivery attempts come first, then all deletions, and only the reminders table changes |
| RemindersCog.IdsIdentify | models/database.py:82-83 | in a store with increasing ids, an id names at most one row |
| RemindersCog.SweepRemovesExactlyDue | cogs/reminders.py:165-193 | under a normal answer, the sweep removes exactly the rows due in the window and keeps every other row |
| RemindersCog.WindowsPartition | utils/helpers.py:20-26 | windows (end-60, end] ending 60 s apart tile time: each instant is due in exactly one sweep |
| TasksCog.PriorityValue | cogs/tasks.py:24-38 | accepted iff the text is exactly "1", "2" or "3"; the stored value is in 1..3 and prints as the text |
| TasksCog.PriorityRoundTrip | cogs/tasks.py:38 | each priority 1..3 reads back from its decimal text |
| TasksCog.TaskSubmit | cogs/tasks.py:23-56 | an invalid priority is rejected with the store untouched; otherwise one row with the text and int(priority) is appended to the user's tasks |
| TasksCog.TaskLines | cogs/tasks.py:91-94 | line i is the task line of row i, one per row |
| TasksCog.TaskList | cogs/tasks.py:69-104 | "no tasks" iff the answer is falsy; a crash iff a non-empty non-array; a listing has the row count, the "\n"-joined lines in store order and a task dropdown |
| TasksCog.TaskListLines | cogs/tasks.py:91-94 | when no task text holds a line break, the description splits back into exactly the task lines |
| TasksCog.AddedTaskListed | cogs/tasks.py:91-99 | a task just added is listed last, numbered by the new count, with its text and the typed priority |
| Views.TaskEntries | utils/views.py:14-15 | one entry per task row, with its text and id |
| Views.ReminderEntries | utils/views.py:17-18 | one entry per reminder row, with its message and id |
| Views.Truncate45 | utils/views.py:14 | text of at most 45 characters is shown in full; longer text shows its first 45 characters and "..." |
| Views.OptionsOf | utils/views.py:12-21 | one option per row, in order: caption "i+1. " plus the shown text, value `str(id)` |
| Views.DeletionSelectOf | utils/views.py:11-25 | exactly one choice (min = max = 1); the placeholder depends only on the kind |
| Views.OptionsReadBack | utils/views.py:12-21 | an option's value reads back as its row's id and its caption number as its 1-based position |
| Views.Callback | utils/views.py:27-35 | deletes the chosen id from tasks for a task dropdown, from reminders otherwise, and changes nothing else |

## Left out

- asyncio: `sleep`, `create_task`, `cancel`, the `tasks.loop` scheduler and
  the races between a stop and a running tick. Ticks are sequential steps,
  and cancelling a task marks it `Cancelled`.
- main.py: it is an older entry point with stub replies and `bot.run`.
- Discord rendering: embeds, colours, the help text and the modals'
  `TextInput` length limits. Sends are entries of an output log or reply
  values.
- The edit-or-send fallback of `update_pomodoro_message` is not modelled.
  The model records that a message exists.
- The 25-option limit of a Discord select menu is not modelled.
- The HTTP transport, `config`, and what the store does with a POST are
  outside this model. The store is an in-memory table that always applies a
  write.
- Row order: `get_user_timezone`, `get_pomodoro_settings`, `get_tasks`,
  `get_reminders` and `get_due_reminders` query without `order=`, and
  PostgREST promises no order for such a query. The model's store serves
  every query in insertion order (`Database.Select`), and every statement
  about "the first row" or "store order" is about that store.
- `execute_query` catches every exception the request raises
  (models/database.py:9-35), but `async with httpx.AsyncClient()`
  (models/database.py:8) is outside the `try`, so a failure to open or
  close the client reaches the caller. The model covers this for the
  sweep's fetch (`RemindersCog.CheckReminders`, the handler at
  cogs/reminders.py:167-171). The other `except Exception` handlers around
  a `Database` call are left out: `set_timezone` (cogs/general.py:54-64),
  `task_list`, `reminder_list`, the modals, the dropdown callback, the
  sweep's deletions, and the Pomodoro commands. A close failure after a
  POST leaves the write's effect undecided, and the store always applies it.
  `get_user_timezone` and `get_pomodoro_settings` catch the failure with a
  bare `except`, so they return 0 and None, as for an answer without data.
- The `print` diagnostics are not modelled: models/database.py:31 and
  models/database.py:34, and cogs/reminders.py:170, :185 and :193. They
  only write to standard output.
- The clock is a parameter (`nowMicros`, microseconds since 0001-01-01).
  `datetime.now()` in cogs/reminders.py is naive local server time; the
  model claims nothing about time-zone correctness.
- Reminder times are stored as instants, not as `isoformat()` strings with
  a "Z" appended.
- `fromisoformat` is not modelled.
- `%Y` is always four zero-filled digits; some platforms pad it
  differently.
- Progress: `Progress` and `FilledCells` work on exact reals. Python's
  floating point can differ by one cell at exact multiples.
- Helpers.FilledCells: states the real-number bounds of `int(bars *
  progress)`, not the floating-point result.
- Digits: only ASCII digits and ASCII whitespace are modelled. `int()` also
  accepts other Unicode digits and underscores between digits.
- Database.AsciiLower: lower-cases ASCII letters only. `str.lower` also
  maps other Unicode capitals, none of which lower-case to a letter of
  "get", "post", "delete" or "patch".
- JSON: only arrays of rows and objects are modelled. Other JSON values
  (numbers, strings, null) are not.
- A row missing the field a loop reads (a `KeyError`) is not modelled.
- Views.Callback: a value that `int()` cannot read deletes nothing. The
  store's reaction to a non-numeric `id=eq.` filter is outside this model.
- PomodoroCog.CogUnload: cancels every session's task as one simultaneous
  update rather than as a loop over the dictionary. Each iteration touches
  a different session, so the order does not matter.
- RemindersCog.CheckReminders: the crash on an answer that is not an array
  stops the `tasks.loop` task. The model records the crash but not the end
  of later sweeps.
- Calendar.MonthThirteenRejected: stated for every well-shaped date whose
  month digits are "13", of which 2025-13-01 is one.
- Timer-task failures other than cancellation are not modelled.
- Three behaviours of the code that the model keeps as they are:
  - `set_user_timezone` and `save_pomodoro_settings` POST an insert, and
    the readers take `data[0]`. So, in the insertion-ordered store, the
    first write wins (`GeneralCog.FirstOffsetWins`,
    `PomodoroCog.FirstSettingsWin`).
  - `completed_sessions` is never reset, so every work phase after the
    threshold is followed by a long break (`PomodoroCog.LongBreaksForever`).
  - `execute_query` turns every failure of the request into None
    (`Database.ExecuteQuery`).
