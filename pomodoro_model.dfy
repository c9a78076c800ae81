/**
 * models/pomodoro.py: the Pomodoro state set, the mutable per-user session
 * record and the module-level registry of active sessions.
 */
module PomodoroModel {

  /** Exactly the four states of PomodoroState. */
  datatype PomodoroState = Idle | Working | ShortBreak | LongBreak

  /** session.task: no timer task yet, a scheduled timer task, or a cancelled one. */
  datatype TimerTask = NoTask | Scheduled | Cancelled

  /** The four configured durations: minutes, minutes, minutes, and a session count. */
  datatype Durations = Durations(work: int, shortBreak: int, longBreak: int, sessionsBeforeLongBreak: int)

  /** The part of a session the timer changes. */
  datatype Phase = Phase(state: PomodoroState, remaining: int, completed: int)

  /**
   * A direct message sent to the session's user: a status push (the
   * update_pomodoro_message embed), the end of a work phase announcing the
   * kind and length of the break, or the end of a break.
   */
  datatype Notice =
    | StatusUpdate(state: PomodoroState, minutes: int, seconds: int, bar: string,
                   completed: int, sessionsBeforeLongBreak: int)
    | WorkComplete(longBreak: bool, breakMinutes: int)
    | BreakOver(workMinutes: int)

  /**
   * The length in seconds of the phase a state stands for, as
   * update_pomodoro_message chooses it: IDLE falls into the long-break branch.
   */
  function PhaseTotal(d: Durations, s: PomodoroState): int
  {
    match s
    case Working => d.work * 60
    case ShortBreak => d.shortBreak * 60
    case _ => d.longBreak * 60
  }

  /** A running phase never has more time left than its full length. */
  predicate PhaseValid(d: Durations, p: Phase)
  {
    p.state != Idle ==> p.remaining <= PhaseTotal(d, p.state)
  }

  class PomodoroSession {
    const userId: int
    const workDuration: int
    const breakDuration: int
    const longBreakDuration: int
    const sessionsBeforeLongBreak: int
    var state: PomodoroState
    var remainingTime: int
    var completedSessions: int
    var task: TimerTask
    /** Whether session.message holds a status message to edit. */
    var hasMessage: bool
    /** The direct messages sent to the user, oldest first. */
    var outbox: seq<Notice>

    constructor (userId: int, workDuration: int := 25, breakDuration: int := 5,
                 longBreakDuration: int := 15, sessionsBeforeLongBreak: int := 4)
      ensures this.userId == userId
      ensures Settings() == Durations(workDuration, breakDuration, longBreakDuration, sessionsBeforeLongBreak)
      ensures Current() == Phase(Idle, 0, 0)
      ensures task == NoTask && !hasMessage && outbox == []
      ensures Valid()
    {
      this.userId := userId;
      this.workDuration := workDuration;
      this.breakDuration := breakDuration;
      this.longBreakDuration := longBreakDuration;
      this.sessionsBeforeLongBreak := sessionsBeforeLongBreak;
      state := Idle;
      remainingTime := 0;
      completedSessions := 0;
      task := NoTask;
      hasMessage := false;
      outbox := [];
    }

    function Settings(): Durations
    {
      Durations(workDuration, breakDuration, longBreakDuration, sessionsBeforeLongBreak)
    }

    function Current(): Phase
      reads this
    {
      Phase(state, remainingTime, completedSessions)
    }

    predicate Valid()
      reads this
    {
      PhaseValid(Settings(), Current())
    }
  }

  /**
   * active_pomodoro_sessions: keyed by user id, so a user has at most one
   * session, and only running (non-IDLE) sessions are registered.
   */
  class SessionRegistry {
    var sessions: map<int, PomodoroSession>

    constructor ()
      ensures sessions == map[]
      ensures Valid()
    {
      sessions := map[];
    }

    ghost predicate Valid()
      reads this, sessions.Values
    {
      forall u :: u in sessions ==>
        sessions[u].userId == u && sessions[u].state != Idle && sessions[u].Valid()
    }
  }

  /** Because every session is stored under its own user id, two keys never share a session. */
  lemma DistinctSessions(r: SessionRegistry, u: int, v: int)
    requires r.Valid() && u in r.sessions && v in r.sessions && u != v
    ensures r.sessions[u] != r.sessions[v]
  {
  }
}
