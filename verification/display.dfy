/**
 The minutes/seconds split used to show a number of seconds, both for the
 countdown and for a logged session's duration: minutes are `Math.floor(v / 60)`
 and seconds are the JavaScript remainder `v % 60`, which takes the sign of
 the dividend (unlike Dafny's `%`, which is never negative).
 */
module Display {

  datatype Clock = Clock(minutes: int, seconds: int)

  /** `Math.floor(v / 60)`: the largest q with q*60 <= v. */
  function Minutes(v: int): (q: int)
    ensures q * 60 <= v < q * 60 + 60
  {
    v / 60
  }

  /** JavaScript's `v % 60`: truncated division's remainder, sign of the dividend. */
  function Seconds(v: int): (r: int)
    ensures v >= 0 ==> 0 <= r < 60
    ensures v < 0 ==> -60 < r <= 0
  {
    if v >= 0 then v % 60 else -((-v) % 60)
  }

  /** The display split of a number of seconds. */
  function Split(v: int): Clock
  {
    Clock(Minutes(v), Seconds(v))
  }

  /**
   For a non-negative amount the split recombines to it, with seconds in
   [0, 60), and it is the only such pair that does.
   */
  lemma SplitRecombines(v: int, other: Clock)
    requires v >= 0
    ensures Split(v).minutes * 60 + Split(v).seconds == v
    ensures 0 <= Split(v).seconds < 60
    ensures 0 <= Split(v).minutes
    ensures other.minutes * 60 + other.seconds == v && 0 <= other.seconds < 60 ==> other == Split(v)
  {
  }

  /**
   For a negative amount that is not a whole number of minutes the two parts
   do not recombine: floor rounds down while the remainder keeps the sign of
   the dividend, so the pair is one minute short.
   */
  lemma SplitNegativeDrifts(v: int)
    requires v < 0 && Seconds(v) != 0
    ensures Split(v).minutes * 60 + Split(v).seconds == v - 60
    ensures -60 < Split(v).seconds < 0
  {
  }
}
