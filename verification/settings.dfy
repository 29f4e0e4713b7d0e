/**
 The user preferences the timer reads from local storage. Each read falls
 back to a default when the stored value is missing or falsy (`value || default`
 in JavaScript: for a number that is 0, for a string the empty string).
 Colours are presentational and are not part of the model.
 */
module Settings {
  import opened Types

  const DefaultFocusMinutes: int := 25
  const DefaultBreakMinutes: int := 5
  const DefaultFocusSound: string := "bell"
  const DefaultBreakSound: string := "chime"

  /** The settings sliders' bounds, in minutes (minimum 1, step 1). */
  const MaxFocusMinutes: int := 60
  const MaxBreakMinutes: int := 30

  /** What local storage holds under each key, if anything. */
  datatype Stored = Stored(
    focusDuration: Option<int>,
    breakDuration: Option<int>,
    focusSound: Option<string>,
    breakSound: Option<string>)

  /** The preferences the timer actually uses once defaults are applied. */
  datatype Config = Config(focusMinutes: int, breakMinutes: int, focusSound: string, breakSound: string)

  /**
   `stored || fallback` for a number: the result is never falsy unless the
   fallback is, and it is either what storage holds or the fallback.
   */
  function OrNumber(stored: Option<int>, fallback: int): (r: int)
    ensures fallback != 0 ==> r != 0
    ensures stored == Some(r) || r == fallback
    ensures stored.Some? && stored.value != 0 ==> r == stored.value
    ensures stored.None? || stored.value == 0 ==> r == fallback
  {
    match stored
    case Some(v) => if v != 0 then v else fallback
    case None => fallback
  }

  /**
   `stored || fallback` for a string: the result is never empty unless the
   fallback is, and it is either what storage holds or the fallback.
   */
  function OrString(stored: Option<string>, fallback: string): (r: string)
    ensures fallback != "" ==> r != ""
    ensures stored == Some(r) || r == fallback
    ensures stored.Some? && stored.value != "" ==> r == stored.value
    ensures stored.None? || stored.value == "" ==> r == fallback
  {
    match stored
    case Some(v) => if v != "" then v else fallback
    case None => fallback
  }

  /**
   The settings as the timer reads them on every render. Whatever storage
   holds, no duration resolves to 0 and no sound name to the empty string;
   each field is the stored value or its default.
   */
  function Resolve(stored: Stored): (c: Config)
    ensures c.focusMinutes != 0 && c.breakMinutes != 0
    ensures c.focusSound != "" && c.breakSound != ""
    ensures stored.focusDuration == Some(c.focusMinutes) || c.focusMinutes == DefaultFocusMinutes
    ensures stored.breakDuration == Some(c.breakMinutes) || c.breakMinutes == DefaultBreakMinutes
    ensures stored.focusSound == Some(c.focusSound) || c.focusSound == DefaultFocusSound
    ensures stored.breakSound == Some(c.breakSound) || c.breakSound == DefaultBreakSound
  {
    Config(
      OrNumber(stored.focusDuration, DefaultFocusMinutes),
      OrNumber(stored.breakDuration, DefaultBreakMinutes),
      OrString(stored.focusSound, DefaultFocusSound),
      OrString(stored.breakSound, DefaultBreakSound))
  }

  /** Positive durations for both modes: what the timer needs to count down. */
  predicate ValidConfig(c: Config)
  {
    c.focusMinutes >= 1 && c.breakMinutes >= 1
  }

  /** The configured length of a mode, in minutes. */
  function MinutesFor(c: Config, m: Mode): int
  {
    match m
    case Focus => c.focusMinutes
    case Break => c.breakMinutes
  }

  /** The configured length of a mode, in seconds (`duration * 60`). */
  function FullSeconds(c: Config, m: Mode): (r: int)
    ensures ValidConfig(c) ==> r >= 60
  {
    MinutesFor(c, m) * 60
  }

  /** The sound named when an interval of the given mode completes. */
  function SoundFor(c: Config, m: Mode): string
  {
    match m
    case Focus => c.focusSound
    case Break => c.breakSound
  }

  /** A stored duration is what a slider with the given maximum could write, or absent. */
  predicate SliderValue(stored: Option<int>, max: int)
  {
    stored.None? || 1 <= stored.value <= max
  }

  /**
   Empty storage reads as 25-minute focus and 5-minute break intervals
   with the bell and chime sounds.
   */
  lemma DefaultsWhenEmpty()
    ensures Resolve(Stored(None, None, None, None)) == Config(25, 5, "bell", "chime")
  {
  }

  /**
   Whenever storage holds only what the sliders can write (or nothing),
   the resolved durations lie within the slider ranges, so they are valid.
   */
  lemma ResolvedWithinSliders(stored: Stored)
    requires SliderValue(stored.focusDuration, MaxFocusMinutes)
    requires SliderValue(stored.breakDuration, MaxBreakMinutes)
    ensures 1 <= Resolve(stored).focusMinutes <= MaxFocusMinutes
    ensures 1 <= Resolve(stored).breakMinutes <= MaxBreakMinutes
    ensures ValidConfig(Resolve(stored))
  {
  }
}
