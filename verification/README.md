# Tomodoro timer core in Dafny

A model of the Pomodoro timer of tomodoro and of the aggregation its history
view performs over the session log.

The timer component (`src/components/timer.tsx`) keeps its state in React hooks.
The model lifts that state into one immutable record, `Timer.State`, which holds:

- the resolved settings;
- the mode (focus or break);
- the countdown `timeLeft` in seconds;
- the running flag;
- the nullable reference value `sessionStartTime`;
- the append-only session log.

Each control is a pure transition function over that record:

- start/pause (`Toggle`);
- one firing of the one-second interval (`Tick`);
- natural completion (`Complete`);
- reset (`Reset`);
- stop-and-save (`StopAndSave`);
- the guarded mode buttons (`SelectMode`);
- an external settings edit (`ChangeSettings`).

The effect that runs whenever the mode or the active duration changes has the
same body as the reset control. So it is the single function `Reset`, composed
into completion, mode selection and settings edits. The settings read from local
storage are resolved with JavaScript's `value || default` rule in `Settings`.

The history view (`src/components/history-sheet.tsx`) is modelled in `History`:

- `SessionsForDate` is the filter of the log by a selected calendar day.
- `SessionsByDate` is the reduce of the log into per-day counts. A JavaScript
  object with string keys keeps insertion order, so the counts are an
  association list with distinct days.
- "Days active" is the number of keys.

Dates are abstracted to `(year, month, day)` triples. `Display` holds the
minutes/seconds split, which both views use. It keeps JavaScript's truncating
`%` distinct from `Math.floor`.

Modules, one per file:

- `Types` (`types.dfy`): modes, instants, the session record.
- `Display` (`display.dfy`): the minutes/seconds split.
- `Settings` (`settings.dfy`): defaults and stored-value resolution.
- `Timer` (`timer.dfy`): the state record and the transitions.
- `TimerProps` (`timer_props.dfy`): one-step properties on reachable states.
- `TimerRuns` (`timer_runs.dfy`): event traces, tick runs and whole-attempt scenarios.
- `History` (`history.dfy`): the day filter and the per-day tally.

The reachable states are characterised by `Timer.Valid`:

- the countdown lies in `(0, duration*60]`;
- an attempt's reference is always `duration*60`;
- with no attempt in progress, the timer is stopped at the full duration.

Every transition preserves `Valid`. The step lemmas are stated on valid states.

### Behaviour of the code worth knowing

- **Start.** Starting an attempt records `duration * 60` as the reference
  (timer.tsx:113-114), whatever the countdown shows at that moment. On
  reachable states the countdown equals `duration * 60` whenever no attempt is
  in progress, so the two coincide (`TimerProps.StartFromIdle`).
- **Completion.** The tick updater returns 0 and flips the mode (timer.tsx:62-67,
  86). The mode-change effect at timer.tsx:40-44 then restores the new mode's
  full duration. The component renders once with 0 in between. The model
  merges the updater and the effect into one `Complete` step, so that
  intermediate render is not a state of the model.
- **Session timestamp.** A session's `startTime` is the `new Date()` taken when
  the session is logged (timer.tsx:51). That is the moment of completion or of
  the stop, not the moment the attempt began. The model stamps each session with
  the instant passed to the step that logs it.
- **Stop.** The stop button is only rendered in focus mode while an attempt is
  running or paused (timer.tsx:236-237). The `stopAndSave` handler itself has
  its own guard (timer.tsx:126). The model accepts a stop in every state, which
  is more than the program allows; outside the rendered case it is a plain reset.

## Model

| member | source | states |
|---|---|---|
| Types.Flip | src/components/timer.tsx:62-67 | completion always switches to the other mode |
| Display.Minutes | src/components/history-sheet.tsx:117 | `Math.floor(v/60)` is the largest q with q*60 <= v |
| Display.Seconds | src/components/history-sheet.tsx:118 | JavaScript's `v % 60` lies in [0,60) for v >= 0 and in (-60,0] for v < 0 |
| Display.SplitRecombines | src/components/history-sheet.tsx:117-118 | for a non-negative duration, minutes*60 + seconds == duration with 0 <= seconds < 60, and no other such pair exists |
| Display.SplitNegativeDrifts | src/components/history-sheet.tsx:117-118 | for a negative duration that is not whole minutes, the displayed pair is one minute short of the value |
| Settings.OrNumber | src/components/timer.tsx:13-14 | a duration read never yields 0 when its default is non-zero, and it is either the stored value or the default; the default is used exactly when storage holds nothing or 0 |
| Settings.OrString | src/components/timer.tsx:17-18 | a sound read never yields the empty name when its default is non-empty, and it is either the stored value or the default; the default is used exactly when storage holds nothing or the empty string |
| Settings.Resolve | src/components/timer.tsx:13-18 | whatever storage holds, no duration resolves to 0 and no sound name to the empty string, and each setting is its stored value or its default |
| Settings.FullSeconds | src/components/timer.tsx:32-35 | with positive minutes, a mode's full length is at least 60 seconds |
| Settings.DefaultsWhenEmpty | src/components/timer.tsx:13-18 | empty storage resolves to 25 focus minutes, 5 break minutes, bell and chime |
| Settings.ResolvedWithinSliders | src/components/settings-sheet.tsx:50-106 | values the sliders can write (1..60 focus, 1..30 break), or nothing, resolve to durations within those ranges, hence valid |
| Timer.Init | src/components/timer.tsx:21-37 | the first render uses the stored mode (focus when absent) and the stored log; the countdown is the mode's full duration, the timer is stopped with no attempt (mode buttons enabled), and the state is valid |
| Timer.Reset | src/components/timer.tsx:119-123 | reset yields the full duration, stopped, no attempt; the mode and the log are unchanged |
| Timer.Toggle | src/components/timer.tsx:112-117 | start/pause flips only the running flag; starting with no attempt records the full duration as the reference; validity is preserved |
| Timer.Record | src/components/timer.tsx:47-54 | the old log is a strict prefix of the new one, which is exactly one entry longer; the entry carries the current mode |
| Timer.LogIfFocus | src/components/timer.tsx:126-128 | the old log stays a prefix and grows by at most one entry; an entry is added iff a focus attempt is in progress, and an added entry is always a focus session |
| Timer.Complete | src/components/timer.tsx:80-87 | completion flips the mode and stops at the new mode's full duration with no attempt; it logs the reference once iff the mode was focus and the reference was set, and nothing otherwise |
| Timer.Armed | src/components/timer.tsx:73-76 | the interval always runs with a reference; an existing reference is kept, and a missing one becomes `duration * 60` |
| Timer.Tick | src/components/timer.tsx:70-91 | a stopped or exhausted timer ignores the tick; with more than one second left the countdown drops by one while the mode, the log and the running flag stay and the reference is the armed one; at one second the mode flips and the timer stops; validity is preserved |
| Timer.CompletionSound | src/components/timer.tsx:57-60 | a sound is named iff the tick completes, and it is the finishing mode's sound; `TimerProps.CompletionSoundOnFlip` ties this to the tick that switches the mode |
| Timer.StopAndSave | src/components/timer.tsx:125-133 | apart from the log, the result equals reset; a focus attempt logs one session of reference minus countdown; otherwise nothing is logged |
| Timer.SelectMode | src/components/timer.tsx:135-153 | a disabled button changes nothing; picking the other mode resets to that mode's full duration; the log is unchanged |
| Timer.ChangeSettings | src/components/timer.tsx:39-44 | a change of the active mode's minutes resets the timer for the new duration; any other change leaves the countdown, flag and reference alone |
| TimerProps.TickDecrements | src/components/timer.tsx:78-89 | on a running valid state with more than one second left, a tick lowers the countdown by exactly 1 and changes nothing else |
| TimerProps.TickCompletes | src/components/timer.tsx:57-68 | a tick at one second flips the mode and restores the new mode's full positive duration with no attempt; focus logs one session of the full configured duration; break logs nothing |
| TimerProps.TickLogsIffFocusCompletes | src/components/timer.tsx:79-87 | a tick appends iff it completes a focus interval, then exactly one entry after the existing ones |
| TimerProps.CompletionSoundOnFlip | src/components/timer.tsx:57-60 | on reachable states a sound is named exactly on the tick that switches the mode, and it is the sound of the mode that tick leaves |
| TimerProps.RunningHasReference | src/components/timer.tsx:73-76 | on reachable states a running timer always has a reference, so the fill-in never fires |
| TimerProps.StartFromIdle | src/components/timer.tsx:112-117 | starting from idle sets the running flag and a reference equal to both the full duration and the current countdown |
| TimerProps.PauseResume | src/components/timer.tsx:116 | pausing changes only the running flag, and resuming gives back the running state exactly |
| TimerProps.ResetDiscards | src/components/timer.tsx:119-123 | reset is idempotent, keeps the log and re-enables the mode buttons |
| TimerProps.StopRecordsElapsed | src/components/timer.tsx:125-133 | stop on a focus attempt logs elapsed = full minus countdown, which lies in [0, full), and otherwise acts as reset |
| TimerProps.StopWithoutFocusAttempt | src/components/timer.tsx:126-132 | in break mode or with no attempt, stop is exactly reset |
| TimerProps.ModeGuard | src/components/timer.tsx:135-153 | the mode buttons are enabled iff no attempt is in progress; while one is, selection is a no-op; selecting a mode and then the original one restores the state |
| TimerProps.SettingsChangeResets | src/components/timer.tsx:40-44 | a change of the active duration equals a reset under the new settings; otherwise the duration and countdown are unchanged |
| TimerProps.CountdownDisplay | src/components/timer.tsx:108-109 | the countdown's minutes*60 + seconds equals the countdown, seconds in [0,60), minutes at most the configured minutes |
| TimerRuns.StepAppendsFocusOnly | src/components/timer.tsx:47-54 | every step keeps validity and either keeps the log or appends one focus session with duration in [0, full duration] |
| TimerRuns.RunPreservesValid | src/components/timer.tsx:35-44 | every state reachable by admissible events from a valid state is valid |
| TimerRuns.RunOnlyAppendsFocus | src/components/timer.tsx:53 | a run keeps the old log as a prefix, adds at most one entry per event, and every added entry is a focus session of non-negative duration |
| TimerRuns.StoppedTicksIgnored | src/components/timer.tsx:73 | ticks of a stopped timer change nothing |
| TimerRuns.Countdown | src/components/timer.tsx:78-89 | n ticks with more than n seconds left lower the countdown by exactly n and change nothing else |
| TimerRuns.CountdownCompletes | src/components/timer.tsx:80-87 | with at least as many ticks as seconds left, the result is the completion at the tick that saw one second; later ticks are ignored |
| TimerRuns.FocusIntervalLogsOnce | src/components/timer.tsx:83-85 | a focus interval started from idle and run out logs one session of the full configured duration and leaves the timer idle in break mode |
| TimerRuns.BreakIntervalLogsNothing | src/components/timer.tsx:63-67 | a break interval run out logs nothing and leaves the timer idle in focus mode at its full duration |
| TimerRuns.StopAfterTicksLogsElapsed | src/components/timer.tsx:125-133 | stopping a focus attempt after n ticks logs a session of exactly n seconds and otherwise restores the starting state |
| TimerRuns.ResetAfterTicksDiscards | src/components/timer.tsx:119-123 | reset part-way through an attempt returns the timer exactly to its starting state |
| TimerRuns.ScenarioFullFocus | src/components/timer.tsx:79-87 | default settings, start, 1500 ticks: one session {focus, 1500}, mode break, countdown 300, stopped |
| TimerRuns.ScenarioStopEarly | src/components/timer.tsx:125-133 | default settings, start, 100 ticks, stop: one session {focus, 100}, countdown 1500, mode focus |
| TimerRuns.ScenarioFullBreak | src/components/timer.tsx:63-67 | break mode with defaults, start, 300 ticks: nothing logged, mode focus, countdown 1500 |
| TimerRuns.ScenarioResetDiscards | src/components/timer.tsx:119-123 | default settings, start, 10 ticks, reset: countdown 1500, no attempt, nothing logged |
| History.SessionsForDate | src/components/history-sheet.tsx:37-45 | the selected day's list holds exactly the log's sessions on that day, with their multiplicities, as a subsequence in log order; it is empty with no selection and never longer than the log |
| History.CountOf | src/components/history-sheet.tsx:50 | `acc[date] \|\| 0` reads 0 for a day that is not yet a key |
| History.Put | src/components/history-sheet.tsx:50 | assigning a day's count keeps keys distinct and in insertion order, sets only that day's count, appends a new day at the end, and adjusts the total by the change |
| History.Bump | src/components/history-sheet.tsx:50 | the reducer step keeps the tally's keys distinct |
| History.SessionsByDate | src/components/history-sheet.tsx:47-54 | the tally has distinct keys and no more entries than the log has sessions |
| History.TallyKeys | src/components/history-sheet.tsx:47-54 | the tally's keys are exactly the days that have sessions |
| History.TallyCount | src/components/history-sheet.tsx:47-54 | each day's count equals the length of that day's session list |
| History.TallyTotal | src/components/history-sheet.tsx:47-54 | the counts add up to the number of sessions |
| History.TallyCounts | src/components/history-sheet.tsx:47-54 | keys, per-day counts and total together, for every day |
| History.EntryCounts | src/components/history-sheet.tsx:47-54 | every tally entry's count equals its day's session count and is at least 1 |
| History.DaysActive | src/components/history-sheet.tsx:168 | days active equals the number of distinct session days, is at most the number of sessions, and is 0 iff the log is empty |
| History.MarkedDays | src/components/history-sheet.tsx:56-58 | a calendar day is marked iff its session list is non-empty; its list length equals its count and never exceeds the overall total |

## Left out

- Rendering, styling and the SVG progress ring are presentational. The progress
  percentage and the dash offset are floating point (timer.tsx:110, 182-183).
- The zero-padding of the displayed minutes and seconds is string formatting
  (`padStart`).
- `setInterval` scheduling and React's effect ordering are not modelled. One
  firing of the interval is one `Tick` step. The effect that fills in a missing
  reference (timer.tsx:73-76) is folded into `Tick`, and it is proved never to
  fire on reachable states.
- The tick updater has side effects. A double invocation of it (as React's
  development strict mode does) is not modelled. The application entry point is
  not part of this model.
- Local storage is not modelled. Settings are an input record resolved from
  optional stored values, and the session log is a value of the state.
- Stored values are assumed to have the right JavaScript type: integers for
  durations, and `"focus"`/`"break"` for the mode. A non-number or NaN read from
  storage is not modelled.
- Colours are presentational and are not part of `Settings.Config`.
- Sound playback (`src/lib/sounds.ts`, `src/hooks/useSoundPlayer.ts`) is audio
  I/O. The timer only logs a sound name on completion, and
  `Timer.CompletionSound` models that name.
- Wall-clock time (`new Date()`) is an `Instant` parameter of the steps that log
  a session.
- Date formatting and time zones (`date-fns`, the `new Date(dateStr)` re-parse
  at history-sheet.tsx:56-58) are left out. Days are abstract triples, and the
  calendar's marked days are taken to be the tally's keys.
- History.MarkedDays: it is a statement about abstract days only.
  `new Date("yyyy-MM-dd")` at history-sheet.tsx:57 parses as UTC midnight. West
  of UTC that is the previous local day, so the real calendar underlines the day
  before each session's day. The model does not capture that shift.
- `sessionTitle` is never stored in a session.
- The render guard on the stop button (timer.tsx:236-237: focus mode, and an
  attempt running or paused) is not modelled. `TimerRuns.Step` accepts a stop in
  every state.
- `src/components/settings-sheet.tsx`, `src/components/navbar.tsx`,
  `src/App.tsx` and `src/lib/store/index.ts` are UI wiring. Only the slider
  bounds are used, as `Settings.SliderValue`.
- TimerRuns.RunOnlyAppendsFocus: over a whole run it bounds the logged durations
  only from below. The upper bound depends on the duration in force when each
  entry was logged, and a settings edit can change that duration mid-run. That
  bound is stated per step by `TimerRuns.StepAppendsFocusOnly`.
