/**
 The timer over sequences of events: every reachable state is valid, the
 session log only ever grows by focus sessions, and whole attempts (start,
 a run of ticks, then completion, stop or reset) do what the controls promise.
 */
module TimerRuns {
  import opened Types
  import opened Settings
  import opened Timer
  import opened TimerProps

  /** One discrete input to the timer: a control, an interval firing, or a settings edit. */
  datatype Event =
    | Toggled
    | Ticked(now: Instant)
    | ResetPressed
    | Stopped(now: Instant)
    | ModeSelected(mode: Mode)
    | SettingsChanged(config: Config)

  function Step(t: State, e: Event): State
  {
    match e
    case Toggled => Toggle(t)
    case Ticked(now) => Tick(t, now)
    case ResetPressed => Reset(t)
    case Stopped(now) => StopAndSave(t, now)
    case ModeSelected(m) => SelectMode(t, m)
    case SettingsChanged(c) => ChangeSettings(t, c)
  }

  /** A settings edit can only write durations the sliders allow, so they are positive. */
  predicate Admissible(e: Event)
  {
    e.SettingsChanged? ==> ValidConfig(e.config)
  }

  function Run(t: State, es: seq<Event>): State
    decreases |es|
  {
    if |es| == 0 then t else Run(Step(t, es[0]), es[1..])
  }

  /** The interval firing once per clock reading in `nows`. */
  function Ticks(t: State, nows: seq<Instant>): State
    decreases |nows|
  {
    if |nows| == 0 then t else Ticks(Tick(t, nows[0]), nows[1..])
  }

  /**
   One step either keeps the log or appends one focus session whose duration
   lies between 0 and the full duration of the mode it was recorded in.
   */
  lemma StepAppendsFocusOnly(t: State, e: Event)
    requires Valid(t) && Admissible(e)
    ensures Valid(Step(t, e))
    ensures var log := Step(t, e).sessions;
            || log == t.sessions
            || (&& |log| == |t.sessions| + 1 && log[..|t.sessions|] == t.sessions
                && log[|t.sessions|].mode == Focus
                && 0 <= log[|t.sessions|].duration <= Duration(t))
  {
    match e
    case Ticked(now) =>
      if t.isRunning && t.timeLeft <= 1 {
        TickCompletes(t, now);
      }
    case Stopped(now) =>
      if t.mode == Focus && t.sessionStartTime.Some? {
        StopRecordsElapsed(t, now);
      }
    case _ =>
  }

  /** Every state reachable from a valid one by admissible events is valid. */
  lemma {:induction false} RunPreservesValid(t: State, es: seq<Event>)
    requires Valid(t)
    requires forall i :: 0 <= i < |es| ==> Admissible(es[i])
    ensures Valid(Run(t, es))
    decreases |es|
  {
    if |es| > 0 {
      StepAppendsFocusOnly(t, es[0]);
      RunPreservesValid(Step(t, es[0]), es[1..]);
    }
  }

  /**
   The log is append-only: any run keeps the existing entries as a prefix,
   adds at most one entry per event, and every added entry is a focus session
   with a non-negative duration. Break time never reaches the log.
   */
  lemma {:induction false} RunOnlyAppendsFocus(t: State, es: seq<Event>)
    requires Valid(t)
    requires forall i :: 0 <= i < |es| ==> Admissible(es[i])
    ensures var log := Run(t, es).sessions;
            && |t.sessions| <= |log| <= |t.sessions| + |es|
            && log[..|t.sessions|] == t.sessions
            && forall i :: |t.sessions| <= i < |log| ==> log[i].mode == Focus && log[i].duration >= 0
    decreases |es|
  {
    if |es| > 0 {
      var t' := Step(t, es[0]);
      StepAppendsFocusOnly(t, es[0]);
      RunOnlyAppendsFocus(t', es[1..]);
      var log := Run(t, es).sessions;
      assert Run(t, es) == Run(t', es[1..]);
      assert log[..|t'.sessions|] == t'.sessions;
      assert log[..|t.sessions|] == t'.sessions[..|t.sessions|];
    }
  }

  /** Ticks of a stopped timer change nothing. */
  lemma {:induction false} StoppedTicksIgnored(t: State, nows: seq<Instant>)
    requires !t.isRunning
    ensures Ticks(t, nows) == t
    decreases |nows|
  {
    if |nows| > 0 {
      StoppedTicksIgnored(t, nows[1..]);
    }
  }

  /** Fewer ticks than seconds left count the timer down by one per tick and change nothing else. */
  lemma {:induction false} Countdown(t: State, nows: seq<Instant>)
    requires Valid(t) && t.isRunning && |nows| < t.timeLeft
    ensures Ticks(t, nows) == t.(timeLeft := t.timeLeft - |nows|)
    decreases |nows|
  {
    if |nows| > 0 {
      TickDecrements(t, nows[0]);
      Countdown(Tick(t, nows[0]), nows[1..]);
    }
  }

  /**
   As many ticks as seconds left, or more, complete the interval on the tick
   that reads the countdown at one second; later ticks find the timer stopped.
   */
  lemma {:induction false} CountdownCompletes(t: State, nows: seq<Instant>)
    requires Valid(t) && t.isRunning && |nows| >= t.timeLeft
    ensures Ticks(t, nows) == Tick(t.(timeLeft := 1), nows[t.timeLeft - 1])
    decreases |nows|
  {
    if t.timeLeft == 1 {
      TickCompletes(t, nows[0]);
      StoppedTicksIgnored(Tick(t, nows[0]), nows[1..]);
    } else {
      TickDecrements(t, nows[0]);
      var t' := Tick(t, nows[0]);
      CountdownCompletes(t', nows[1..]);
      assert t'.(timeLeft := 1) == t.(timeLeft := 1);
    }
  }

  /**
   A focus interval started from idle and left to run logs exactly one
   session of the full configured duration, stamped with the completing
   tick's clock reading, and leaves the timer idle in break mode.
   */
  lemma FocusIntervalLogsOnce(t: State, nows: seq<Instant>)
    requires Valid(t) && CanToggleMode(t) && t.mode == Focus
    requires |nows| >= Duration(t)
    ensures var r := Ticks(Toggle(t), nows);
            && r.sessions == t.sessions + [Session(Focus, Duration(t), nows[Duration(t) - 1], None)]
            && r.mode == Break && !r.isRunning && r.sessionStartTime.None?
            && r.timeLeft == FullSeconds(t.config, Break)
  {
    StartFromIdle(t);
    CountdownCompletes(Toggle(t), nows);
    TickCompletes(Toggle(t).(timeLeft := 1), nows[Duration(t) - 1]);
  }

  /** A break interval left to run logs nothing and leaves the timer idle in focus mode. */
  lemma BreakIntervalLogsNothing(t: State, nows: seq<Instant>)
    requires Valid(t) && CanToggleMode(t) && t.mode == Break
    requires |nows| >= Duration(t)
    ensures var r := Ticks(Toggle(t), nows);
            && r.sessions == t.sessions
            && r.mode == Focus && !r.isRunning && r.sessionStartTime.None?
            && r.timeLeft == FullSeconds(t.config, Focus)
  {
    StartFromIdle(t);
    CountdownCompletes(Toggle(t), nows);
    TickCompletes(Toggle(t).(timeLeft := 1), nows[Duration(t) - 1]);
  }

  /**
   Stopping a focus interval after n ticks (fewer than its length) logs one
   session of exactly n seconds and otherwise returns the timer to where it
   started.
   */
  lemma StopAfterTicksLogsElapsed(t: State, nows: seq<Instant>, now: Instant)
    requires Valid(t) && CanToggleMode(t) && t.mode == Focus
    requires |nows| < Duration(t)
    ensures StopAndSave(Ticks(Toggle(t), nows), now)
              == t.(sessions := t.sessions + [Session(Focus, |nows|, now, None)])
  {
    StartFromIdle(t);
    Countdown(Toggle(t), nows);
  }

  /** Resetting part-way through an attempt discards it: the timer is back where it started. */
  lemma ResetAfterTicksDiscards(t: State, nows: seq<Instant>)
    requires Valid(t) && CanToggleMode(t)
    requires |nows| < Duration(t)
    ensures Reset(Ticks(Toggle(t), nows)) == t
  {
    StartFromIdle(t);
    Countdown(Toggle(t), nows);
  }

  /** The timer on first render with nothing in storage but the session log. */
  function Fresh(log: seq<Session>): State
  {
    Init(Resolve(Stored(None, None, None, None)), None, log)
  }

  /** A default 25-minute focus interval run for 1500 ticks logs one 1500-second session and switches to a 300-second break. */
  lemma ScenarioFullFocus(log: seq<Session>, nows: seq<Instant>)
    requires |nows| == 1500
    ensures var r := Ticks(Toggle(Fresh(log)), nows);
            && r.sessions == log + [Session(Focus, 1500, nows[1499], None)]
            && r.mode == Break && !r.isRunning && r.timeLeft == 300 && r.sessionStartTime.None?
  {
    DefaultsWhenEmpty();
    FocusIntervalLogsOnce(Fresh(log), nows);
  }

  /** 100 ticks into a default focus interval, stop logs a 100-second session and restores 1500 seconds in focus mode. */
  lemma ScenarioStopEarly(log: seq<Session>, nows: seq<Instant>, now: Instant)
    requires |nows| == 100
    ensures var r := StopAndSave(Ticks(Toggle(Fresh(log)), nows), now);
            && r.sessions == log + [Session(Focus, 100, now, None)]
            && r.mode == Focus && r.timeLeft == 1500 && !r.isRunning && r.sessionStartTime.None?
  {
    DefaultsWhenEmpty();
    StopAfterTicksLogsElapsed(Fresh(log), nows, now);
  }

  /** A default 5-minute break run for 300 ticks logs nothing and switches back to a 1500-second focus interval. */
  lemma ScenarioFullBreak(log: seq<Session>, nows: seq<Instant>)
    requires |nows| == 300
    ensures var t := Init(Resolve(Stored(None, None, None, None)), Some(Break), log);
            var r := Ticks(Toggle(t), nows);
            && r.sessions == log
            && r.mode == Focus && !r.isRunning && r.timeLeft == 1500 && r.sessionStartTime.None?
  {
    DefaultsWhenEmpty();
    var t := Init(Resolve(Stored(None, None, None, None)), Some(Break), log);
    BreakIntervalLogsNothing(t, nows);
  }

  /** Ten ticks into a default focus interval, reset restores the full duration, clears the attempt and logs nothing. */
  lemma ScenarioResetDiscards(log: seq<Session>, nows: seq<Instant>)
    requires |nows| == 10
    ensures var r := Reset(Ticks(Toggle(Fresh(log)), nows));
            && r.sessions == log && r.timeLeft == 1500 && r.sessionStartTime.None? && !r.isRunning
  {
    DefaultsWhenEmpty();
    ResetAfterTicksDiscards(Fresh(log), nows);
  }
}
