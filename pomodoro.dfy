/**
 * cogs/pomodoro.py: the settings modal, the per-session countdown loop with
 * its phase transition, and the start / stop / status commands and unload
 * hook that operate on the registry of active sessions.
 */
module PomodoroCog {
  import opened Wrappers
  import opened Strings
  import opened Helpers
  import opened Database
  import opened PomodoroModel

  // ---------------------------------------------------------------------
  // Settings modal

  datatype SettingsReply =
    | InvalidInput
    | InvalidValues
    | SettingsSaved(work: int, shortBreak: int, longBreak: int, sessions: int)

  /**
   * PomodoroSettingsModal.on_submit: all four fields go through int(); any
   * failure is "Invalid Input"; any value below 1 is "Invalid Values";
   * otherwise the four values are saved unchanged.
   */
  function SettingsDecision(work: string, shortBreak: string, longBreak: string, sessions: string): (reply: SettingsReply)
    ensures reply.InvalidInput? <==>
      ParseInt(work).None? || ParseInt(shortBreak).None? || ParseInt(longBreak).None? || ParseInt(sessions).None?
    ensures reply.InvalidValues? <==>
      !reply.InvalidInput? &&
      (ParseInt(work).value < 1 || ParseInt(shortBreak).value < 1 ||
       ParseInt(longBreak).value < 1 || ParseInt(sessions).value < 1)
    ensures reply.SettingsSaved? ==>
      reply == SettingsSaved(ParseInt(work).value, ParseInt(shortBreak).value,
                             ParseInt(longBreak).value, ParseInt(sessions).value)
  {
    match (ParseInt(work), ParseInt(shortBreak), ParseInt(longBreak), ParseInt(sessions))
    case (Some(w), Some(b), Some(l), Some(n)) =>
      if w < 1 || b < 1 || l < 1 || n < 1 then InvalidValues else SettingsSaved(w, b, l, n)
    case _ => InvalidInput
  }

  /** Typing the decimal forms of four positive numbers saves exactly those numbers. */
  lemma SettingsRoundTrip(w: int, b: int, l: int, n: int)
    requires w >= 1 && b >= 1 && l >= 1 && n >= 1
    ensures SettingsDecision(IntToString(w), IntToString(b), IntToString(l), IntToString(n)) ==
            SettingsSaved(w, b, l, n)
  {
    ParseIntRoundTrip(w);
    ParseIntRoundTrip(b);
    ParseIntRoundTrip(l);
    ParseIntRoundTrip(n);
  }

  /** on_submit: a row is inserted exactly when the values are accepted. */
  method PomodoroSettingsSubmit(store: Store, userId: int, work: string, shortBreak: string,
                                longBreak: string, sessions: string) returns (reply: SettingsReply)
    requires store.Valid()
    modifies store
    ensures store.Valid()
    ensures reply == SettingsDecision(work, shortBreak, longBreak, sessions)
    ensures reply.SettingsSaved? ==>
      store.pomodoroSessions ==
        old(store.pomodoroSessions) + [SettingsRow(userId, reply.work, reply.shortBreak, reply.longBreak, reply.sessions)]
    ensures !reply.SettingsSaved? ==> store.pomodoroSessions == old(store.pomodoroSessions)
    ensures store.tasks == old(store.tasks) && store.reminders == old(store.reminders)
    ensures store.timezones == old(store.timezones)
    ensures store.nextTaskId == old(store.nextTaskId) && store.nextReminderId == old(store.nextReminderId)
  {
    reply := SettingsDecision(work, shortBreak, longBreak, sessions);
    if reply.SettingsSaved? {
      store.SavePomodoroSettings(userId, reply.work, reply.shortBreak, reply.longBreak, reply.sessions);
    }
  }

  // ---------------------------------------------------------------------
  // Status pushes and the countdown

  /** progress = 1 - remaining / total, in [0, 1) while the phase runs. */
  function Progress(remaining: int, total: int): (p: real)
    requires total != 0
    ensures 0 < remaining <= total ==> 0.0 <= p < 1.0
  {
    var f := remaining as real / total as real;
    assert 0 < remaining <= total ==> 0.0 < f <= 1.0 by {
      if 0 < remaining <= total {
        assert f * total as real == remaining as real;
      }
    }
    1.0 - f
  }

  /** The progress of a phase is the share already spent: (1 - progress) * total is the time left. */
  lemma ProgressSpent(remaining: int, total: int)
    requires total != 0
    ensures (1.0 - Progress(remaining, total)) * total as real == remaining as real
  {
    var f := remaining as real / total as real;
    assert f * total as real == remaining as real;
  }

  lemma PositiveFactor(a: real, t: real)
    requires t > 0.0 && a * t >= 0.0
    ensures a >= 0.0
  {
  }

  /** Less time left means more progress. */
  lemma ProgressGrows(r1: int, r2: int, total: int)
    requires 0 < r2 <= r1 <= total
    ensures Progress(r1, total) <= Progress(r2, total)
  {
    var p1, p2 := Progress(r1, total), Progress(r2, total);
    ProgressSpent(r1, total);
    ProgressSpent(r2, total);
    assert (p2 - p1) * total as real == (r1 - r2) as real;
    PositiveFactor(p2 - p1, total as real);
  }

  /** A phase with all its time left has made no progress. */
  lemma FreshProgress(total: int)
    requires total > 0
    ensures Progress(total, total) == 0.0
  {
    var p := Progress(total, total);
    ProgressSpent(total, total);
    assert p * total as real == 0.0;
  }

  /**
   * The embed update_pomodoro_message sends for the current second: the
   * state, the time left as minutes and seconds, the counts, and a bar whose
   * filled cells are int(10 * progress), with progress measured against the
   * state's full length (the work length for WORKING, the short break for
   * SHORT_BREAK, the long break otherwise).
   */
  function StatusNotice(d: Durations, p: Phase): (n: Notice)
    requires PhaseTotal(d, p.state) != 0
    ensures n.StatusUpdate? && n.state == p.state && n.completed == p.completed
    ensures n.sessionsBeforeLongBreak == d.sessionsBeforeLongBreak
    ensures p.remaining >= 0 ==> n.minutes * 60 + n.seconds == p.remaining && 0 <= n.seconds < 60
    ensures 0 < p.remaining <= PhaseTotal(d, p.state) ==>
      var minutes := if p.state == Working then d.work
                     else if p.state == ShortBreak then d.shortBreak
                     else d.longBreak;
      var k := FilledCells(Progress(p.remaining, minutes * 60), 10);
      0 <= k <= 10 && |n.bar| == 10 && n.bar == Repeat('█', k) + Repeat('░', 10 - k)
  {
    StatusUpdate(p.state, p.remaining / 60, p.remaining % 60,
                 CreateProgressBar(Progress(p.remaining, PhaseTotal(d, p.state))),
                 p.completed, d.sessionsBeforeLongBreak)
  }

  /** The filled cells of the bar pushed for phase p. */
  function BarCells(d: Durations, p: Phase): int
  {
    var total := PhaseTotal(d, p.state);
    if total != 0 then FilledCells(Progress(p.remaining, total), 10) else 0
  }

  /**
   * The status pushes of one run of pomodoro_timer's loop from phase p:
   * one for each remaining value r, counting down to 1, with r % 5 == 0.
   */
  function Countdown(d: Durations, p: Phase): seq<Notice>
    requires PhaseValid(d, p)
    decreases if p.remaining > 0 then p.remaining else 0
  {
    if p.state == Idle || p.remaining <= 0 then []
    else (if p.remaining % 5 == 0 then [StatusNotice(d, p)] else []) + Countdown(d, p.(remaining := p.remaining - 1))
  }

  /** One second of the countdown: the push of that second, then the rest. */
  lemma CountdownStep(d: Durations, p: Phase)
    requires PhaseValid(d, p) && p.state != Idle && p.remaining > 0
    ensures Countdown(d, p) ==
      (if p.remaining % 5 == 0 then [StatusNotice(d, p)] else []) + Countdown(d, p.(remaining := p.remaining - 1))
  {
  }

  lemma Associative<T>(a: seq<T>, b: seq<T>, c: seq<T>)
    ensures a + b + c == a + (b + c)
  {
  }

  /** Phase p with the time of its k-th countdown push. */
  function PushAt(p: Phase, k: int): Phase
  {
    p.(remaining := p.remaining - p.remaining % 5 - 5 * k)
  }

  /**
   * One second later the pushes of a phase keep their times: after a push
   * second they are shifted by one, otherwise they stay in place.
   */
  lemma PushShift(p: Phase, k: int)
    requires p.remaining > 0
    ensures var q := p.(remaining := p.remaining - 1);
      (p.remaining % 5 == 0 ==> PushAt(q, k - 1) == PushAt(p, k) && q.remaining / 5 == p.remaining / 5 - 1) &&
      (p.remaining % 5 != 0 ==> PushAt(q, k) == PushAt(p, k) && q.remaining / 5 == p.remaining / 5)
  {
  }

  /**
   * A running phase with r seconds left produces r / 5 pushes; push k is the
   * status of the same phase at r - r % 5 - 5k seconds left.
   */
  lemma {:induction false} CountdownPushes(d: Durations, p: Phase)
    requires PhaseValid(d, p) && p.state != Idle && p.remaining >= 0
    ensures var c := Countdown(d, p);
      |c| == p.remaining / 5 &&
      forall k :: 0 <= k < |c| ==>
        PhaseTotal(d, p.state) >= PushAt(p, k).remaining >= 5 && c[k] == StatusNotice(d, PushAt(p, k))
    decreases p.remaining
  {
    if p.remaining > 0 {
      var q := p.(remaining := p.remaining - 1);
      CountdownPushes(d, q);
      var rest := Countdown(d, q);
      var c := Countdown(d, p);
      PushShift(p, 0);
      if p.remaining % 5 == 0 {
        assert c == [StatusNotice(d, p)] + rest;
        assert PushAt(p, 0) == p;
        forall k | 1 <= k < |c|
          ensures PhaseTotal(d, p.state) >= PushAt(p, k).remaining >= 5 && c[k] == StatusNotice(d, PushAt(p, k))
        {
          assert c[k] == rest[k - 1];
          PushShift(p, k);
        }
      } else {
        assert c == rest;
        forall k | 0 <= k < |c|
          ensures PhaseTotal(d, p.state) >= PushAt(p, k).remaining >= 5 && c[k] == StatusNotice(d, PushAt(p, k))
        {
          PushShift(p, k);
        }
      }
    }
  }

  /**
   * A running phase with r seconds left produces r / 5 pushes; push k shows
   * the time r - r % 5 - 5k as minutes and seconds, the phase's state and
   * counts, and a ten-cell bar.
   */
  lemma CountdownShape(d: Durations, p: Phase)
    requires PhaseValid(d, p) && p.state != Idle && p.remaining >= 0
    ensures var c := Countdown(d, p);
      |c| == p.remaining / 5 &&
      forall k :: 0 <= k < |c| ==>
        c[k].StatusUpdate? && c[k].state == p.state && c[k].completed == p.completed &&
        c[k].minutes * 60 + c[k].seconds == p.remaining - p.remaining % 5 - 5 * k &&
        0 <= c[k].seconds < 60 && |c[k].bar| == 10
  {
    CountdownPushes(d, p);
  }

  /** Every full phase length is a whole number of minutes, so a multiple of 5 seconds. */
  lemma PhaseTotalMultipleOfFive(d: Durations, s: PomodoroState)
    ensures PhaseTotal(d, s) % 5 == 0
  {
    match s
    case Working => assert PhaseTotal(d, s) == 5 * (d.work * 12);
    case ShortBreak => assert PhaseTotal(d, s) == 5 * (d.shortBreak * 12);
    case _ => assert PhaseTotal(d, s) == 5 * (d.longBreak * 12);
  }

  /** The bar of a status push has BarCells filled cells, then empty ones. */
  lemma PushBar(d: Durations, p: Phase)
    requires 0 < p.remaining <= PhaseTotal(d, p.state)
    ensures StatusNotice(d, p).bar == Repeat('█', BarCells(d, p)) + Repeat('░', 10 - BarCells(d, p))
  {
    var n := StatusNotice(d, p);
  }

  /** A push with less time left shows no fewer filled cells. */
  lemma PushCellsGrow(d: Durations, p: Phase, q: Phase)
    requires p.state == q.state && 0 < q.remaining <= p.remaining <= PhaseTotal(d, p.state)
    ensures BarCells(d, p) <= BarCells(d, q)
  {
    var total := PhaseTotal(d, p.state);
    ProgressGrows(p.remaining, q.remaining, total);
    FilledGrows(Progress(p.remaining, total), Progress(q.remaining, total), 10);
  }

  /** The push of a phase with all its time left shows an empty bar. */
  lemma FreshBar(d: Durations, p: Phase)
    requires p.remaining == PhaseTotal(d, p.state) > 0
    ensures BarCells(d, p) == 0 && StatusNotice(d, p).bar == Repeat('░', 10)
  {
    FreshProgress(p.remaining);
    PushBar(d, p);
    assert Repeat('█', 0) == [];
    assert Repeat('█', 0) + Repeat('░', 10) == Repeat('░', 10);
  }

  /**
   * The bar of the countdown fills up: push k shows BarCells filled cells,
   * a later push never shows fewer, and the first push of a fresh phase
   * shows an empty bar.
   */
  lemma CountdownBars(d: Durations, p: Phase)
    requires PhaseValid(d, p) && p.state != Idle && p.remaining >= 0
    ensures var c := Countdown(d, p);
      (forall k :: 0 <= k < |c| ==>
        c[k].StatusUpdate? && c[k].bar == Repeat('█', BarCells(d, PushAt(p, k))) + Repeat('░', 10 - BarCells(d, PushAt(p, k)))) &&
      (forall j, k :: 0 <= j <= k < |c| ==> BarCells(d, PushAt(p, j)) <= BarCells(d, PushAt(p, k))) &&
      (p.remaining == PhaseTotal(d, p.state) > 0 ==> |c| >= 1 && c[0].StatusUpdate? && c[0].bar == Repeat('░', 10))
  {
    var c := Countdown(d, p);
    CountdownPushes(d, p);
    forall k | 0 <= k < |c|
      ensures c[k].StatusUpdate? && c[k].bar == Repeat('█', BarCells(d, PushAt(p, k))) + Repeat('░', 10 - BarCells(d, PushAt(p, k)))
    {
      PushBar(d, PushAt(p, k));
    }
    forall j, k | 0 <= j <= k < |c|
      ensures BarCells(d, PushAt(p, j)) <= BarCells(d, PushAt(p, k))
    {
      PushCellsGrow(d, PushAt(p, j), PushAt(p, k));
    }
    if p.remaining == PhaseTotal(d, p.state) > 0 {
      PhaseTotalMultipleOfFive(d, p.state);
      assert PushAt(p, 0) == p;
      FreshBar(d, p);
    }
  }

  /** update_pomodoro_message: one status push for the current second. */
  method UpdatePomodoroMessage(s: PomodoroSession, minutes: int, seconds: int)
    requires PhaseTotal(s.Settings(), s.state) != 0
    requires minutes == s.remainingTime / 60 && seconds == s.remainingTime % 60
    modifies s
    ensures s.outbox == old(s.outbox) + [StatusNotice(s.Settings(), old(s.Current()))]
    ensures s.hasMessage
    ensures s.Current() == old(s.Current()) && s.task == old(s.task)
  {
    var total := PhaseTotal(s.Settings(), s.state);
    var bar := CreateProgressBar(Progress(s.remainingTime, total));
    s.outbox := s.outbox + [StatusUpdate(s.state, minutes, seconds, bar, s.completedSessions, s.sessionsBeforeLongBreak)];
    s.hasMessage := true;
  }

  /** One second of pomodoro_timer's loop: a push when the count is a multiple of 5, then the decrement. */
  method Tick(s: PomodoroSession)
    requires s.Valid() && s.state != Idle && s.remainingTime > 0
    modifies s
    ensures s.Current() == old(s.Current()).(remaining := old(s.remainingTime) - 1)
    ensures s.outbox == old(s.outbox) +
      (if old(s.remainingTime) % 5 == 0 then [StatusNotice(s.Settings(), old(s.Current()))] else [])
    ensures s.hasMessage == (old(s.hasMessage) || old(s.remainingTime) % 5 == 0)
    ensures s.task == old(s.task)
    ensures s.Valid()
  {
    var minutes := s.remainingTime / 60;
    var seconds := s.remainingTime % 60;
    if s.remainingTime % 5 == 0 {
      UpdatePomodoroMessage(s, minutes, seconds);
    }
    s.remainingTime := s.remainingTime - 1;
  }

  /**
   * The phase that follows when the countdown of phase p ends: a work phase
   * counts one more completed session and is followed by a long break once
   * the count reaches the threshold, by a short break before; a break is
   * followed by a work phase with the count unchanged; IDLE stays as it is.
   */
  function AfterExpiry(d: Durations, p: Phase): (q: Phase)
    ensures p.state == Idle ==> q == p
    ensures p.state == Working ==>
      q.completed == p.completed + 1 &&
      (q.state == LongBreak <==> p.completed + 1 >= d.sessionsBeforeLongBreak) &&
      (q.state == ShortBreak <==> p.completed + 1 < d.sessionsBeforeLongBreak)
    ensures p.state == ShortBreak || p.state == LongBreak ==>
      q.state == Working && q.completed == p.completed
    ensures p.state != Idle ==> q.remaining == PhaseTotal(d, q.state)
    ensures PhaseValid(d, q)
  {
    match p.state
    case Idle => p
    case Working =>
      var c := p.completed + 1;
      if c >= d.sessionsBeforeLongBreak then Phase(LongBreak, d.longBreak * 60, c)
      else Phase(ShortBreak, d.shortBreak * 60, c)
    case _ => Phase(Working, d.work * 60, p.completed)
  }

  /**
   * The message sent when phase p expires: a finished work phase announces
   * the kind and length of the break that follows; a finished break
   * announces the length of the work phase that follows; IDLE sends nothing.
   */
  function ExpiryNotice(d: Durations, p: Phase): (n: seq<Notice>)
    ensures p.state == Idle <==> n == []
    ensures p.state == Working ==>
      n == [WorkComplete(AfterExpiry(d, p).state == LongBreak,
                         if AfterExpiry(d, p).state == LongBreak then d.longBreak else d.shortBreak)]
    ensures p.state == ShortBreak || p.state == LongBreak ==>
      n == [BreakOver(d.work)] && AfterExpiry(d, p).remaining == d.work * 60
  {
    match p.state
    case Idle => []
    case Working =>
      var long := p.completed + 1 >= d.sessionsBeforeLongBreak;
      [WorkComplete(long, if long then d.longBreak else d.shortBreak)]
    case _ => [BreakOver(d.work)]
  }

  /** The tail of pomodoro_timer: switch phase, announce it, and schedule the next timer task. */
  method Transition(s: PomodoroSession)
    requires s.Valid()
    modifies s
    ensures s.Current() == AfterExpiry(s.Settings(), old(s.Current()))
    ensures s.outbox == old(s.outbox) + ExpiryNotice(s.Settings(), old(s.Current()))
    ensures s.task == (if old(s.state) == Idle then old(s.task) else Scheduled)
    ensures s.hasMessage == old(s.hasMessage)
    ensures s.Valid()
  {
    if s.state != Idle {
      if s.state == Working {
        s.completedSessions := s.completedSessions + 1;
        if s.completedSessions >= s.sessionsBeforeLongBreak {
          s.state := LongBreak;
          s.remainingTime := s.longBreakDuration * 60;
          s.outbox := s.outbox + [WorkComplete(true, s.longBreakDuration)];
        } else {
          s.state := ShortBreak;
          s.remainingTime := s.breakDuration * 60;
          s.outbox := s.outbox + [WorkComplete(false, s.breakDuration)];
        }
      } else {
        s.state := Working;
        s.remainingTime := s.workDuration * 60;
        s.outbox := s.outbox + [BreakOver(s.workDuration)];
      }
      s.task := Scheduled;
    }
  }

  /**
   * pomodoro_timer run without interruption: the countdown to zero with its
   * pushes, then the transition.
   */
  method PomodoroTimer(s: PomodoroSession)
    requires s.Valid()
    modifies s
    ensures s.Current() == AfterExpiry(s.Settings(), old(s.Current()))
    ensures s.outbox == old(s.outbox) + Countdown(s.Settings(), old(s.Current())) +
                        ExpiryNotice(s.Settings(), old(s.Current()))
    ensures s.hasMessage == (old(s.hasMessage) || Countdown(s.Settings(), old(s.Current())) != [])
    ensures s.task == (if old(s.state) == Idle then old(s.task) else Scheduled)
    ensures s.Valid()
  {
    ghost var d := s.Settings();
    ghost var p0 := s.Current();
    ghost var out0 := s.outbox;
    while s.state != Idle && s.remainingTime > 0
      invariant s.Valid()
      invariant s.state == p0.state && s.completedSessions == p0.completed
      invariant p0.state == Idle ==> s.Current() == p0
      invariant out0 + Countdown(d, p0) == s.outbox + Countdown(d, s.Current())
      invariant |s.outbox| >= |out0| && s.hasMessage == (old(s.hasMessage) || |s.outbox| > |out0|)
      invariant s.task == old(s.task)
      decreases s.remainingTime
    {
      ghost var before := s.Current();
      ghost var outbox := s.outbox;
      Tick(s);
      CountdownStep(d, before);
      Associative(outbox, if before.remaining % 5 == 0 then [StatusNotice(d, before)] else [],
                  Countdown(d, s.Current()));
    }
    assert Countdown(d, s.Current()) == [];
    assert s.outbox == out0 + Countdown(d, p0);
    Transition(s);
  }

  /**
   * The timer task of a registered session runs one phase: only that
   * session changes, it stays running, and the registry keeps its invariant.
   */
  method RunRegisteredTimer(r: SessionRegistry, userId: int)
    requires r.Valid() && userId in r.sessions
    modifies r.sessions[userId]
    ensures r.Valid()
    ensures r.sessions == old(r.sessions)
    ensures r.sessions[userId].Current() == AfterExpiry(r.sessions[userId].Settings(), old(r.sessions[userId].Current()))
    ensures r.sessions[userId].state != Idle
  {
    var s := r.sessions[userId];
    PomodoroTimer(s);
    forall u | u in r.sessions && u != userId ensures r.sessions[u] != s {
      DistinctSessions(r, u, userId);
    }
  }

  // ---------------------------------------------------------------------
  // Phase sequences

  /** The phase after n uninterrupted timer runs. */
  function Run(d: Durations, p: Phase, n: nat): Phase
    decreases n
  {
    if n == 0 then p else Run(d, AfterExpiry(d, p), n - 1)
  }

  /** completed_sessions never decreases and a running session never turns IDLE. */
  lemma {:induction false} RunMonotone(d: Durations, p: Phase, n: nat)
    requires p.state != Idle
    ensures Run(d, p, n).state != Idle && Run(d, p, n).completed >= p.completed
    decreases n
  {
    if n > 0 {
      RunMonotone(d, AfterExpiry(d, p), n - 1);
    }
  }

  lemma {:induction false} RunStep(d: Durations, p: Phase, n: nat)
    ensures Run(d, p, n + 1) == AfterExpiry(d, Run(d, p, n))
    decreases n
  {
    if n > 0 {
      RunStep(d, AfterExpiry(d, p), n - 1);
    }
  }

  /**
   * completed_sessions is never reset, so once the threshold is reached
   * every later work phase is followed by a long break and no short break
   * is ever entered again.
   */
  lemma LongBreaksForever(d: Durations, p: Phase, n: nat)
    requires p.state != Idle && p.completed >= d.sessionsBeforeLongBreak
    ensures Run(d, p, n).state == Working ==> Run(d, p, n + 1).state == LongBreak
    ensures Run(d, p, n + 1).state != ShortBreak
  {
    RunMonotone(d, p, n);
    RunStep(d, p, n);
  }

  /** With the default 25/5/15/4: three short breaks of 300 s, then a 900 s long break after the fourth work phase. */
  lemma DefaultCycle()
    ensures var d := Durations(25, 5, 15, 4);
      var p := Phase(Working, 1500, 0);
      Run(d, p, 1) == Phase(ShortBreak, 300, 1) &&
      Run(d, p, 2) == Phase(Working, 1500, 1) &&
      Run(d, p, 5) == Phase(ShortBreak, 300, 3) &&
      Run(d, p, 7) == Phase(LongBreak, 900, 4) &&
      Run(d, p, 8) == Phase(Working, 1500, 4) &&
      Run(d, p, 9) == Phase(LongBreak, 900, 5)
  {
    var d := Durations(25, 5, 15, 4);
    var p := Phase(Working, 1500, 0);
    RunStep(d, p, 0);
    RunStep(d, p, 1);
    RunStep(d, p, 2);
    RunStep(d, p, 3);
    RunStep(d, p, 4);
    RunStep(d, p, 5);
    RunStep(d, p, 6);
    RunStep(d, p, 7);
    RunStep(d, p, 8);
  }

  // ---------------------------------------------------------------------
  // Commands

  /**
   * save_pomodoro_settings inserts and get_pomodoro_settings reads the first
   * row, so in a store that serves rows in insertion order the first
   * settings a user saves are the ones every later start uses; saving again
   * has no visible effect.
   */
  lemma FirstSettingsWin(rows: seq<SettingsRow>, row: SettingsRow)
    ensures var owned := OwnedSettings(row.userId);
      var after := GetPomodoroSettings(ExecuteQuery("GET", Served(Select(rows + [row], owned))));
      (Select(rows, owned) == [] ==> after == Found(row)) &&
      (Select(rows, owned) != [] ==>
         after == GetPomodoroSettings(ExecuteQuery("GET", Served(Select(rows, owned)))))
  {
    var owned := OwnedSettings(row.userId);
    SelectAppend(rows, [row], owned);
    ServedRows(Select(rows + [row], owned));
    ServedRows(Select(rows, owned));
  }

  datatype StartReply = AlreadyActive | Started(workMinutes: int) | StartCrashed

  /** The durations pomodoro_start uses: the stored row, or 25/5/15/4 when there is none. */
  function StartDurations(lookup: SettingsLookup): (d: Durations)
    requires !lookup.FirstChar?
    ensures lookup.NoSettings? ==> d == Durations(25, 5, 15, 4)
    ensures lookup.Found? ==>
      d == Durations(lookup.row.workDuration, lookup.row.breakDuration,
                     lookup.row.longBreakDuration, lookup.row.sessionsBeforeLongBreak)
  {
    match lookup
    case Found(row) =>
      Durations(row.workDuration, row.breakDuration, row.longBreakDuration, row.sessionsBeforeLongBreak)
    case _ => Durations(25, 5, 15, 4)
  }

  /**
   * pomodoro_start: rejected for a user already registered; a first
   * character of a text body where a row was expected raises TypeError;
   * otherwise a fresh session, WORKING for the whole work phase with its
   * timer scheduled, is registered under the user's id.
   */
  method PomodoroStart(r: SessionRegistry, userId: int, lookup: SettingsLookup) returns (reply: StartReply)
    requires r.Valid()
    modifies r
    ensures r.Valid()
    ensures userId in old(r.sessions) ==> reply == AlreadyActive && r.sessions == old(r.sessions)
    ensures userId !in old(r.sessions) && lookup.FirstChar? ==>
      reply == StartCrashed && r.sessions == old(r.sessions)
    ensures userId !in old(r.sessions) && !lookup.FirstChar? ==>
      var d := StartDurations(lookup);
      reply == Started(d.work) &&
      r.sessions.Keys == old(r.sessions).Keys + {userId} &&
      (forall u :: u in old(r.sessions) ==> r.sessions[u] == old(r.sessions)[u]) &&
      fresh(r.sessions[userId]) &&
      r.sessions[userId].userId == userId && r.sessions[userId].Settings() == d &&
      r.sessions[userId].Current() == Phase(Working, d.work * 60, 0) &&
      r.sessions[userId].task == Scheduled && r.sessions[userId].outbox == [] &&
      !r.sessions[userId].hasMessage
  {
    if userId in r.sessions {
      return AlreadyActive;
    }
    if lookup.FirstChar? {
      return StartCrashed;
    }
    var d := StartDurations(lookup);
    var s := new PomodoroSession(userId, d.work, d.shortBreak, d.longBreak, d.sessionsBeforeLongBreak);
    s.state := Working;
    s.remainingTime := s.workDuration * 60;
    s.task := Scheduled;
    r.sessions := r.sessions[userId := s];
    reply := Started(d.work);
  }

  datatype StopReply = NoActiveSession | Stopped

  function Cancel(t: TimerTask): TimerTask
  {
    if t == NoTask then NoTask else Cancelled
  }

  /**
   * pomodoro_stop: rejected for an absent user; otherwise the session turns
   * IDLE, its timer task is cancelled and exactly that user leaves the registry.
   */
  method PomodoroStop(r: SessionRegistry, userId: int) returns (reply: StopReply)
    requires r.Valid()
    modifies r, if userId in r.sessions then {r.sessions[userId]} else {}
    ensures r.Valid()
    ensures reply == NoActiveSession <==> userId !in old(r.sessions)
    ensures reply == NoActiveSession ==> r.sessions == old(r.sessions)
    ensures reply == Stopped ==>
      var s := old(r.sessions)[userId];
      r.sessions == old(r.sessions) - {userId} &&
      s.state == Idle && s.task == Cancel(old(s.task)) &&
      s.remainingTime == old(s.remainingTime) && s.completedSessions == old(s.completedSessions) &&
      s.outbox == old(s.outbox) && s.hasMessage == old(s.hasMessage)
  {
    if userId !in r.sessions {
      return NoActiveSession;
    }
    var s := r.sessions[userId];
    s.state := Idle;
    if s.task != NoTask {
      s.task := Cancelled;
    }
    r.sessions := r.sessions - {userId};
    reply := Stopped;
  }

  datatype StatusReport = StatusReport(
    stateText: string, minutes: int, seconds: int,
    completed: int, sessionsBeforeLongBreak: int, next: string)

  /** The embed pomodoro_status builds for a session with durations d in phase p. */
  function StatusOf(d: Durations, p: Phase): (s: StatusReport)
    ensures p.remaining >= 0 ==> s.minutes * 60 + s.seconds == p.remaining && 0 <= s.seconds < 60
    ensures s.completed == p.completed && s.sessionsBeforeLongBreak == d.sessionsBeforeLongBreak
    ensures s.next == "Long Break" || s.next == "Short Break"
  {
    StatusReport(
      if p.state == Working then "Work Session" else if p.state == ShortBreak then "Short Break" else "Long Break",
      p.remaining / 60, p.remaining % 60, p.completed, d.sessionsBeforeLongBreak,
      if p.completed + 1 >= d.sessionsBeforeLongBreak then "Long Break" else "Short Break")
  }

  /** pomodoro_status: nothing for an absent user, otherwise the report of the registered session. */
  function PomodoroStatus(r: SessionRegistry, userId: int): (s: Option<StatusReport>)
    reads r, r.sessions.Values
    ensures s.None? <==> userId !in r.sessions
    ensures s.Some? ==> s.value == StatusOf(r.sessions[userId].Settings(), r.sessions[userId].Current())
  {
    if userId in r.sessions then Some(StatusOf(r.sessions[userId].Settings(), r.sessions[userId].Current()))
    else None
  }

  /**
   * The "Next Session" field names the break that follows the next work
   * phase to end: the coming one in a work phase, the one after the coming
   * work phase during a break.
   */
  lemma StatusPredictsNextBreak(d: Durations, p: Phase)
    requires p.state != Idle
    ensures var nextBreak := if p.state == Working then Run(d, p, 1) else Run(d, p, 2);
      (nextBreak.state == LongBreak <==> StatusOf(d, p).next == "Long Break") &&
      (nextBreak.state == ShortBreak <==> StatusOf(d, p).next == "Short Break")
  {
    assert Run(d, p, 1) == AfterExpiry(d, p);
    assert Run(d, p, 2) == Run(d, AfterExpiry(d, p), 1) == AfterExpiry(d, AfterExpiry(d, p));
  }

  /** cog_unload: every registered session's timer is cancelled and the registry is cleared. */
  method CogUnload(r: SessionRegistry)
    requires r.Valid()
    modifies r, r.sessions.Values
    ensures r.sessions == map[]
    ensures forall u :: u in old(r.sessions) ==>
      var s := old(r.sessions)[u];
      s.task == Cancel(old(s.task)) && s.Current() == old(s.Current()) &&
      s.outbox == old(s.outbox) && s.hasMessage == old(s.hasMessage)
  {
    // Each iteration of the source's loop touches a different session, so
    // the cancellations are made as one simultaneous update.
    forall s | s in r.sessions.Values && s.task != NoTask {
      s.task := Cancelled;
    }
    r.sessions := map[];
  }
}
