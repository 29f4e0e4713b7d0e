/**
 The record types shared by the timer and the history view: the two interval
 modes, the abstract wall-clock instant and the session record of the log.
 */
module Types {

  /** A value that may be absent: a missing storage key, or the timer's null reference. */
  datatype Option<+T> = None | Some(value: T)

  /** The two interval kinds of the timer. */
  datatype Mode = Focus | Break

  /** The other mode: completion alternates focus and break. */
  function Flip(m: Mode): (r: Mode)
    ensures r != m
  {
    match m
    case Focus => Break
    case Break => Focus
  }

  /** A calendar day in local time, as `getFullYear`/`getMonth`/`getDate` see it. */
  datatype Day = Day(year: int, month: int, date: int)

  /**
   A wall-clock moment. Only its local calendar day matters to the model;
   the time of day is kept opaque (it is only ever formatted for display).
   */
  datatype Instant = Instant(day: Day, secondOfDay: int)

  /**
   One entry of the session log. `duration` is in seconds of active time;
   `endTime` exists in the record type but is never filled in.
   */
  datatype Session = Session(mode: Mode, duration: int, startTime: Instant, endTime: Option<Instant>)

  /** The local calendar day a session is filed under. */
  function DayOf(s: Session): Day
  {
    s.startTime.day
  }
}
