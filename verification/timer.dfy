/**
 The Pomodoro timer as a state record and pure transition functions.

 The React component keeps the countdown, the running flag, the attempt's
 reference value and the session log in separate hooks; here they are one
 immutable `State`. The effect that fires whenever the active duration or the
 mode changes (set the countdown to the full duration, stop, clear the
 reference) has the same body as the reset control, so it is the single
 function `Reset`, composed into every transition that changes the mode or the
 active duration.
 */
module Timer {
  import opened Types
  import opened Settings

  datatype State = State(
    config: Config,
    mode: Mode,
    timeLeft: int,
    isRunning: bool,
    sessionStartTime: Option<int>,  // reference value in seconds; None while no attempt is in progress
    sessions: seq<Session>)

  /** The active mode's configured length in seconds (`duration * 60`). */
  function Duration(t: State): int
  {
    FullSeconds(t.config, t.mode)
  }

  /**
   The states the timer can be in: the countdown lies in (0, duration], an
   attempt's reference is always the full duration, and with no attempt in
   progress the timer is stopped at the full duration.
   */
  predicate Valid(t: State)
  {
    && ValidConfig(t.config)
    && 0 < t.timeLeft <= Duration(t)
    && (t.sessionStartTime.None? ==> !t.isRunning && t.timeLeft == Duration(t))
    && (t.sessionStartTime.Some? ==> t.sessionStartTime.value == Duration(t))
  }

  /**
   The timer as first rendered: the mode comes from storage (focus when
   absent), the countdown is the full duration, nothing is running and the
   stored log is kept as it is.
   */
  function Init(config: Config, storedMode: Option<Mode>, storedSessions: seq<Session>): (t: State)
    ensures storedMode.None? ==> t.mode == Focus
    ensures storedMode.Some? ==> t.mode == storedMode.value
    ensures t.sessions == storedSessions && t.config == config
    ensures CanToggleMode(t) && t.timeLeft == FullSeconds(config, t.mode)
    ensures ValidConfig(config) ==> Valid(t)
  {
    var mode := match storedMode case Some(m) => m case None => Focus;
    State(config, mode, FullSeconds(config, mode), false, None, storedSessions)
  }

  /** The mode buttons are enabled only while no attempt is in progress. */
  predicate CanToggleMode(t: State)
  {
    !t.isRunning && t.sessionStartTime.None?
  }

  /**
   The reset control, and the effect run when the mode or the active duration
   changes: back to the full duration, stopped, no attempt; the log is kept.
   */
  function Reset(t: State): (r: State)
    ensures r.timeLeft == Duration(t) && !r.isRunning && r.sessionStartTime.None?
    ensures r.mode == t.mode && r.config == t.config && r.sessions == t.sessions
    ensures ValidConfig(t.config) ==> Valid(r)
  {
    t.(timeLeft := Duration(t), isRunning := false, sessionStartTime := None)
  }

  /**
   The start/pause control. Starting with no attempt in progress records the
   full duration as the reference (not the current countdown); otherwise only
   the running flag flips.
   */
  function Toggle(t: State): (r: State)
    ensures r.isRunning == !t.isRunning
    ensures r.timeLeft == t.timeLeft && r.mode == t.mode && r.config == t.config && r.sessions == t.sessions
    ensures CanToggleMode(t) ==> r.sessionStartTime == Some(Duration(t))
    ensures !CanToggleMode(t) ==> r.sessionStartTime == t.sessionStartTime
    ensures Valid(t) ==> Valid(r)
  {
    var start := if !t.isRunning && t.sessionStartTime.None? then Some(Duration(t)) else t.sessionStartTime;
    t.(sessionStartTime := start, isRunning := !t.isRunning)
  }

  /**
   Appending one session of the current mode to the log: the old log stays
   a prefix and the log grows by exactly one entry.
   */
  function Record(t: State, duration: int, now: Instant): (log: seq<Session>)
    ensures t.sessions < log
    ensures |log| == |t.sessions| + 1 && log[..|t.sessions|] == t.sessions
    ensures log[|t.sessions|] == Session(t.mode, duration, now, None)
  {
    t.sessions + [Session(t.mode, duration, now, None)]
  }

  /**
   The log after an attempt ends: the old log stays a prefix, at most one
   entry is added, and an added entry is always a focus session.
   */
  function LogIfFocus(t: State, duration: int, now: Instant): (log: seq<Session>)
    ensures t.sessions <= log && |log| <= |t.sessions| + 1
    ensures |log| > |t.sessions| ==> log[|t.sessions|].mode == Focus
    ensures |log| > |t.sessions| <==> t.mode == Focus && t.sessionStartTime.Some?
    ensures t.mode == Focus && t.sessionStartTime.Some? ==>
              log == t.sessions + [Session(Focus, duration, now, None)]
    ensures !(t.mode == Focus && t.sessionStartTime.Some?) ==> log == t.sessions
  {
    if t.mode == Focus && t.sessionStartTime.Some? then Record(t, duration, now) else t.sessions
  }

  /**
   Natural completion: stop, log the focus attempt with the reference value as
   its duration, flip the mode, and (because the mode changed) reset to the new
   mode's full duration. The render in which the countdown shows 0, between the
   updater and the mode-change effect, is merged into this one step.
   */
  function Complete(t: State, now: Instant): (r: State)
    ensures r.mode == Flip(t.mode) && r.config == t.config
    ensures r.timeLeft == FullSeconds(t.config, Flip(t.mode)) && !r.isRunning && r.sessionStartTime.None?
    ensures t.mode == Focus && t.sessionStartTime.Some? ==>
              r.sessions == t.sessions + [Session(Focus, t.sessionStartTime.value, now, None)]
    ensures !(t.mode == Focus && t.sessionStartTime.Some?) ==> r.sessions == t.sessions
    ensures ValidConfig(t.config) ==> Valid(r)
  {
    var logged := match t.sessionStartTime
      case Some(start) => LogIfFocus(t, start, now)
      case None => t.sessions;
    var stopped := t.(timeLeft := 0, isRunning := false, sessions := logged);
    Reset(stopped.(mode := Flip(t.mode)))
  }

  /**
   The reference the interval effect sees: while running with no reference,
   the effect fills in the full duration before the first second elapses.
   */
  function Armed(t: State): (ref: Option<int>)
    ensures ref.Some?
    ensures t.sessionStartTime.Some? ==> ref == t.sessionStartTime
    ensures t.sessionStartTime.None? ==> ref == Some(Duration(t))
  {
    if t.sessionStartTime.None? then Some(Duration(t)) else t.sessionStartTime
  }

  /**
   One firing of the one-second interval. The interval exists only while
   running with time left; a tick with more than one second left counts down,
   a tick at one second or less completes the interval.
   */
  function Tick(t: State, now: Instant): (r: State)
    ensures r.config == t.config
    ensures !(t.isRunning && t.timeLeft > 0) ==> r == t
    ensures t.isRunning && t.timeLeft > 1 ==>
              && r.timeLeft == t.timeLeft - 1 && r.mode == t.mode && r.sessions == t.sessions
              && r.isRunning && r.sessionStartTime == Armed(t)
    ensures t.isRunning && 0 < t.timeLeft <= 1 ==> r.mode == Flip(t.mode) && !r.isRunning
    ensures Valid(t) ==> Valid(r)
  {
    if !(t.isRunning && t.timeLeft > 0) then t
    else
      var armed := t.(sessionStartTime := Armed(t));
      if t.timeLeft <= 1 then Complete(armed, now)
      else armed.(timeLeft := t.timeLeft - 1)
  }

  /** The sound named on a tick, if that tick completes the interval: the finishing mode's sound. */
  function CompletionSound(t: State): (sound: Option<string>)
    ensures sound.Some? <==> t.isRunning && 0 < t.timeLeft <= 1
    ensures sound.Some? ==> sound.value == SoundFor(t.config, t.mode)
  {
    if t.isRunning && 0 < t.timeLeft <= 1 then Some(SoundFor(t.config, t.mode)) else None
  }

  /**
   The stop control: a focus attempt in progress is logged with the elapsed
   time (reference minus countdown); then the timer resets exactly as the
   reset control does. Break time is never logged.
   */
  function StopAndSave(t: State, now: Instant): (r: State)
    ensures r.(sessions := t.sessions) == Reset(t)
    ensures t.mode == Focus && t.sessionStartTime.Some? ==>
              r.sessions == t.sessions + [Session(Focus, t.sessionStartTime.value - t.timeLeft, now, None)]
    ensures !(t.mode == Focus && t.sessionStartTime.Some?) ==> r.sessions == t.sessions
    ensures Valid(t) ==> Valid(r)
  {
    var elapsed := if t.sessionStartTime.Some? then t.sessionStartTime.value - t.timeLeft else 0;
    Reset(t.(sessions := LogIfFocus(t, elapsed, now)))
  }

  /**
   A mode button. Disabled (a no-op) while an attempt is in progress; picking
   the current mode changes nothing; picking the other mode resets the timer
   for that mode.
   */
  function SelectMode(t: State, m: Mode): (r: State)
    ensures !CanToggleMode(t) ==> r == t
    ensures CanToggleMode(t) ==> r.mode == m
    ensures CanToggleMode(t) && m != t.mode ==>
              r.timeLeft == FullSeconds(t.config, m) && !r.isRunning && r.sessionStartTime.None?
    ensures r.sessions == t.sessions && r.config == t.config
    ensures Valid(t) ==> Valid(r)
  {
    if CanToggleMode(t) && m != t.mode then Reset(t.(mode := m)) else t
  }

  /**
   An external settings change. If the active mode's duration changed, the
   timer resets for it, even mid-attempt; otherwise only the settings change.
   */
  function ChangeSettings(t: State, c: Config): (r: State)
    ensures r.config == c && r.mode == t.mode && r.sessions == t.sessions
    ensures MinutesFor(c, t.mode) != MinutesFor(t.config, t.mode) ==>
              r.timeLeft == FullSeconds(c, t.mode) && !r.isRunning && r.sessionStartTime.None?
    ensures MinutesFor(c, t.mode) == MinutesFor(t.config, t.mode) ==>
              r.timeLeft == t.timeLeft && r.isRunning == t.isRunning && r.sessionStartTime == t.sessionStartTime
    ensures Valid(t) && ValidConfig(c) ==> Valid(r)
  {
    var updated := t.(config := c);
    if MinutesFor(c, t.mode) != MinutesFor(t.config, t.mode) then Reset(updated) else updated
  }
}
