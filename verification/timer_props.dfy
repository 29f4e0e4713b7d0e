/**
 One-step properties of the timer: what each control promises on the states
 the timer can actually reach.
 */
module TimerProps {
  import opened Types
  import opened Settings
  import opened Timer
  import Display

  /** A tick with more than one second left decrements the countdown and changes nothing else. */
  lemma TickDecrements(t: State, now: Instant)
    requires Valid(t) && t.isRunning && t.timeLeft > 1
    ensures Tick(t, now) == t.(timeLeft := t.timeLeft - 1)
  {
  }

  /**
   A tick at one second completes: the mode flips, the timer stops at the new
   mode's full duration with no attempt, and a focus interval is logged once
   with the full configured duration while a break interval logs nothing.
   */
  lemma TickCompletes(t: State, now: Instant)
    requires Valid(t) && t.isRunning && t.timeLeft <= 1
    ensures Tick(t, now).mode == Flip(t.mode)
    ensures Tick(t, now).timeLeft == FullSeconds(t.config, Flip(t.mode)) > 0
    ensures !Tick(t, now).isRunning && Tick(t, now).sessionStartTime.None?
    ensures t.mode == Focus ==> Tick(t, now).sessions == t.sessions + [Session(Focus, Duration(t), now, None)]
    ensures t.mode == Break ==> Tick(t, now).sessions == t.sessions
  {
  }

  /**
   A tick appends to the log exactly when it completes a focus interval, and
   then exactly one entry, after the existing ones.
   */
  lemma TickLogsIffFocusCompletes(t: State, now: Instant)
    requires Valid(t)
    ensures |Tick(t, now).sessions| == |t.sessions| + 1 <==> t.isRunning && t.timeLeft <= 1 && t.mode == Focus
    ensures |Tick(t, now).sessions| != |t.sessions| + 1 ==> Tick(t, now).sessions == t.sessions
    ensures Tick(t, now).sessions[..|t.sessions|] == t.sessions
  {
    if t.isRunning && t.timeLeft <= 1 {
      TickCompletes(t, now);
    }
  }

  /**
   A sound is named exactly on the tick that switches the mode, and it is the
   sound configured for the mode that tick leaves.
   */
  lemma CompletionSoundOnFlip(t: State, now: Instant)
    requires Valid(t)
    ensures CompletionSound(t).Some? <==> Tick(t, now).mode != t.mode
    ensures CompletionSound(t).Some? ==> CompletionSound(t).value == SoundFor(t.config, Flip(Tick(t, now).mode))
  {
  }

  /** On reachable states the interval effect never has to fill in a missing reference. */
  lemma RunningHasReference(t: State)
    requires Valid(t) && t.isRunning
    ensures t.sessionStartTime.Some? && Armed(t) == t.sessionStartTime
  {
  }

  /**
   Starting from idle records the full duration as the reference; on
   reachable states that is also the countdown's current value.
   */
  lemma StartFromIdle(t: State)
    requires Valid(t) && CanToggleMode(t)
    ensures Toggle(t) == t.(isRunning := true, sessionStartTime := Some(Duration(t)))
    ensures Toggle(t).sessionStartTime == Some(t.timeLeft)
  {
  }

  /** Pausing only clears the running flag, and resuming restores the running state exactly. */
  lemma PauseResume(t: State)
    requires Valid(t) && t.isRunning
    ensures Toggle(t) == t.(isRunning := false)
    ensures Toggle(Toggle(t)) == t
  {
  }

  /** Reset is idempotent and discards only the attempt, never the log. */
  lemma ResetDiscards(t: State)
    ensures Reset(Reset(t)) == Reset(t)
    ensures Reset(t).sessions == t.sessions
    ensures CanToggleMode(Reset(t))
  {
  }

  /**
   Stop on a reachable focus attempt logs one session whose duration is the
   elapsed time, between 0 and the full duration, and leaves the timer as the
   reset control would.
   */
  lemma StopRecordsElapsed(t: State, now: Instant)
    requires Valid(t) && t.mode == Focus && t.sessionStartTime.Some?
    ensures StopAndSave(t, now).sessions == t.sessions + [Session(Focus, Duration(t) - t.timeLeft, now, None)]
    ensures 0 <= Duration(t) - t.timeLeft < Duration(t)
    ensures StopAndSave(t, now).(sessions := t.sessions) == Reset(t)
  {
  }

  /** With no attempt in progress, or in break mode, stop logs nothing and is a plain reset. */
  lemma StopWithoutFocusAttempt(t: State, now: Instant)
    requires t.mode == Break || t.sessionStartTime.None?
    ensures StopAndSave(t, now) == Reset(t)
  {
  }

  /**
   On reachable states the mode buttons are enabled exactly when no attempt
   is in progress, and selecting a mode and then the original one again
   returns the timer to where it was.
   */
  lemma ModeGuard(t: State, m: Mode)
    requires Valid(t)
    ensures CanToggleMode(t) <==> t.sessionStartTime.None?
    ensures t.sessionStartTime.Some? ==> SelectMode(t, m) == t
    ensures CanToggleMode(t) ==> SelectMode(SelectMode(t, m), t.mode) == t
    ensures CanToggleMode(t) ==> SelectMode(t, m).timeLeft == FullSeconds(t.config, m)
  {
  }

  /**
   Any change of the active duration stops the timer, clears the attempt and
   restarts the countdown from the new duration; a change that leaves the
   active duration alone is invisible to the countdown.
   */
  lemma SettingsChangeResets(t: State, c: Config)
    requires Valid(t) && ValidConfig(c)
    ensures MinutesFor(c, t.mode) != MinutesFor(t.config, t.mode) ==>
              ChangeSettings(t, c) == Reset(t.(config := c))
    ensures MinutesFor(c, t.mode) == MinutesFor(t.config, t.mode) ==>
              Duration(ChangeSettings(t, c)) == Duration(t) && ChangeSettings(t, c).timeLeft == t.timeLeft
  {
  }

  /**
   The countdown's display: minutes and seconds recombine to the countdown,
   seconds lie in [0, 60) and minutes never exceed the configured minutes.
   */
  lemma CountdownDisplay(t: State)
    requires Valid(t)
    ensures Display.Split(t.timeLeft).minutes * 60 + Display.Split(t.timeLeft).seconds == t.timeLeft
    ensures 0 <= Display.Split(t.timeLeft).seconds < 60
    ensures 0 <= Display.Split(t.timeLeft).minutes <= MinutesFor(t.config, t.mode)
  {
    Display.SplitRecombines(t.timeLeft, Display.Clock(0, 0));
  }
}
