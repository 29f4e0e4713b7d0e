/**
 The history view's aggregation over the session log: the sessions filed
 under a selected day, and the per-day tally whose keys are the calendar's
 marked days and whose size is the "days active" figure.

 The tally is a JavaScript object keyed by date string; string keys keep
 insertion order, so it is modelled as a list of (day, count) entries with
 distinct days, in order of each day's first appearance in the log.
 */
module History {
  import opened Types

  /** `sessionsForDate`: the sessions filed under the selected day, in log order; none without a selection. */
  function SessionsForDate(sessions: seq<Session>, selected: Option<Day>): (r: seq<Session>)
    ensures selected.None? ==> r == []
    ensures |r| <= |sessions|
    ensures forall i :: 0 <= i < |r| ==> selected.Some? && DayOf(r[i]) == selected.value
    ensures forall x :: multiset(r)[x] == if selected.Some? && DayOf(x) == selected.value then multiset(sessions)[x] else 0
    ensures IsSubsequence(r, sessions)
    decreases |sessions|
  {
    if |sessions| == 0 then []
    else
      var prefix := sessions[..|sessions| - 1];
      var last := sessions[|sessions| - 1];
      assert sessions == prefix + [last];
      var init := SessionsForDate(prefix, selected);
      if selected.Some? && DayOf(last) == selected.value then
        assert (init + [last])[..|init|] == init;
        init + [last]
      else
        init
  }

  /** `a` can be obtained from `b` by deleting entries, without reordering. */
  predicate IsSubsequence<T(==)>(a: seq<T>, b: seq<T>)
    decreases |b|
  {
    || |a| == 0
    || (&& |b| > 0
        && (|| (a[|a| - 1] == b[|b| - 1] && IsSubsequence(a[..|a| - 1], b[..|b| - 1]))
            || IsSubsequence(a, b[..|b| - 1])))
  }

  /** One key of the per-day tally and its count. */
  datatype Entry = Entry(day: Day, count: int)

  /** A JavaScript object's keys are unique. */
  predicate Distinct(acc: seq<Entry>)
  {
    forall i, j :: 0 <= i < j < |acc| ==> acc[i].day != acc[j].day
  }

  function Keys(acc: seq<Entry>): set<Day>
    decreases |acc|
  {
    if |acc| == 0 then {} else {acc[0].day} + Keys(acc[1..])
  }

  /** A day is a key exactly when some entry carries it. */
  lemma {:induction false} KeyIndex(acc: seq<Entry>, d: Day)
    ensures d in Keys(acc) <==> exists i :: 0 <= i < |acc| && acc[i].day == d
    decreases |acc|
  {
    if |acc| > 0 {
      KeyIndex(acc[1..], d);
      if d in Keys(acc[1..]) {
        var i :| 0 <= i < |acc[1..]| && acc[1..][i].day == d;
        assert acc[i + 1].day == d;
      }
      if exists i :: 0 <= i < |acc| && acc[i].day == d {
        var i :| 0 <= i < |acc| && acc[i].day == d;
        if i > 0 {
          assert acc[1..][i - 1].day == d;
        }
      }
    }
  }

  /** `acc[day] || 0`: the count stored under a day, 0 when the day is not a key. */
  function CountOf(acc: seq<Entry>, d: Day): (c: int)
    ensures d !in Keys(acc) ==> c == 0
    decreases |acc|
  {
    if |acc| == 0 then 0
    else if acc[0].day == d then acc[0].count
    else CountOf(acc[1..], d)
  }

  /** The sum of all counts. */
  function Total(acc: seq<Entry>): int
    decreases |acc|
  {
    if |acc| == 0 then 0 else acc[0].count + Total(acc[1..])
  }

  /**
   `acc[day] = v`: overwrite the day's entry in place if the day is a key,
   otherwise add it as the last key.
   */
  function Put(acc: seq<Entry>, d: Day, v: int): (r: seq<Entry>)
    requires Distinct(acc)
    ensures Distinct(r)
    ensures Keys(r) == Keys(acc) + {d}
    ensures CountOf(r, d) == v
    ensures forall e :: e != d ==> CountOf(r, e) == CountOf(acc, e)
    ensures d in Keys(acc) ==> |r| == |acc|
    ensures d !in Keys(acc) ==> r == acc + [Entry(d, v)]
    ensures forall i :: 0 <= i < |acc| ==> r[i].day == acc[i].day
    ensures Total(r) == Total(acc) - CountOf(acc, d) + v
    decreases |acc|
  {
    if |acc| == 0 then [Entry(d, v)]
    else if acc[0].day == d then
      assert forall i :: 1 <= i < |acc| ==> acc[i].day != d;
      KeyIndex(acc[1..], d);
      var r := [Entry(d, v)] + acc[1..];
      assert r[1..] == acc[1..];
      r
    else
      var rest := Put(acc[1..], d, v);
      var r := [acc[0]] + rest;
      assert r[1..] == rest;
      assert acc[0].day !in Keys(acc[1..]) by {
        KeyIndex(acc[1..], acc[0].day);
      }
      assert forall i :: 1 <= i < |r| ==> r[i].day in Keys(rest) by {
        forall i | 1 <= i < |r| {
          KeyIndex(rest, r[i].day);
        }
      }
      r
  }

  /** The reducer's step: `acc[day] = (acc[day] || 0) + 1`. */
  function Bump(acc: seq<Entry>, d: Day): (r: seq<Entry>)
    requires Distinct(acc)
    ensures Distinct(r)
  {
    Put(acc, d, CountOf(acc, d) + 1)
  }

  /** The set of days that have at least one session. */
  function DaysOf(sessions: seq<Session>): set<Day>
  {
    set i | 0 <= i < |sessions| :: DayOf(sessions[i])
  }

  /**
   `sessionsByDate`: the log folded from the left into per-day counts. Its
   keys are exactly the days with sessions, each count is the number of
   sessions on that day (so at least 1), and the counts add up to the size
   of the log.
   */
  function SessionsByDate(sessions: seq<Session>): (r: seq<Entry>)
    ensures Distinct(r)
    ensures |r| <= |sessions|
    decreases |sessions|
  {
    if |sessions| == 0 then []
    else Bump(SessionsByDate(sessions[..|sessions| - 1]), DayOf(sessions[|sessions| - 1]))
  }

  /** Each fold step adds the session's day to the keys. */
  lemma {:induction false} TallyKeys(sessions: seq<Session>)
    ensures Keys(SessionsByDate(sessions)) == DaysOf(sessions)
    decreases |sessions|
  {
    if |sessions| > 0 {
      var prefix := sessions[..|sessions| - 1];
      var last := sessions[|sessions| - 1];
      TallyKeys(prefix);
      assert DaysOf(sessions) == DaysOf(prefix) + {DayOf(last)} by {
        assert sessions == prefix + [last];
      }
    }
  }

  /** A day's count is the number of sessions filed under it. */
  lemma {:induction false} TallyCount(sessions: seq<Session>, d: Day)
    ensures CountOf(SessionsByDate(sessions), d) == |SessionsForDate(sessions, Some(d))|
    decreases |sessions|
  {
    if |sessions| > 0 {
      TallyCount(sessions[..|sessions| - 1], d);
    }
  }

  /** Each fold step adds one to the sum of the counts. */
  lemma {:induction false} TallyTotal(sessions: seq<Session>)
    ensures Total(SessionsByDate(sessions)) == |sessions|
    decreases |sessions|
  {
    if |sessions| > 0 {
      TallyTotal(sessions[..|sessions| - 1]);
    }
  }

  /**
   The tally is what `sessionsByDate` promises the view: its keys are exactly
   the days with sessions, each day's count is the number of sessions filed
   under it, and the counts add up to the size of the log.
   */
  lemma TallyCounts(sessions: seq<Session>)
    ensures Keys(SessionsByDate(sessions)) == DaysOf(sessions)
    ensures forall d :: CountOf(SessionsByDate(sessions), d) == |SessionsForDate(sessions, Some(d))|
    ensures Total(SessionsByDate(sessions)) == |sessions|
  {
    TallyKeys(sessions);
    TallyTotal(sessions);
    forall d
      ensures CountOf(SessionsByDate(sessions), d) == |SessionsForDate(sessions, Some(d))|
    {
      TallyCount(sessions, d);
    }
  }

  /** In a tally with distinct keys, the count looked up for a key is that key's entry. */
  lemma {:induction false} CountOfEntry(acc: seq<Entry>, i: int)
    requires Distinct(acc) && 0 <= i < |acc|
    ensures CountOf(acc, acc[i].day) == acc[i].count
    decreases |acc|
  {
    if i > 0 {
      assert acc[0].day != acc[i].day;
      CountOfEntry(acc[1..], i - 1);
    }
  }

  /** With distinct keys there are as many keys as entries. */
  lemma {:induction false} DistinctKeysCount(acc: seq<Entry>)
    requires Distinct(acc)
    ensures |Keys(acc)| == |acc|
    decreases |acc|
  {
    if |acc| > 0 {
      DistinctKeysCount(acc[1..]);
      KeyIndex(acc[1..], acc[0].day);
    }
  }

  /** Every entry of the tally counts the sessions on its day, which is at least one. */
  lemma EntryCounts(sessions: seq<Session>, i: int)
    requires 0 <= i < |SessionsByDate(sessions)|
    ensures var e := SessionsByDate(sessions)[i];
            e.count == |SessionsForDate(sessions, Some(e.day))| >= 1
  {
    var r := SessionsByDate(sessions);
    var d := r[i].day;
    CountOfEntry(r, i);
    TallyCount(sessions, d);
    TallyKeys(sessions);
    KeyIndex(r, d);
    assert d in DaysOf(sessions);
    var j :| 0 <= j < |sessions| && DayOf(sessions[j]) == d;
    assert sessions[j] in multiset(sessions);
    assert multiset(SessionsForDate(sessions, Some(d)))[sessions[j]] > 0;
  }

  /**
   "Days active" is the number of distinct days with sessions; it is at most
   the number of sessions and is 0 exactly when the log is empty.
   */
  lemma DaysActive(sessions: seq<Session>)
    ensures |SessionsByDate(sessions)| == |DaysOf(sessions)|
    ensures |SessionsByDate(sessions)| <= |sessions|
    ensures |SessionsByDate(sessions)| == 0 <==> |sessions| == 0
  {
    DistinctKeysCount(SessionsByDate(sessions));
    TallyKeys(sessions);
    if |sessions| > 0 {
      assert DayOf(sessions[0]) in DaysOf(sessions);
    }
  }

  /**
   A calendar day is marked exactly when its session list is non-empty, and
   the selected-day total never exceeds the overall total.
   */
  lemma MarkedDays(sessions: seq<Session>, d: Day)
    ensures d in Keys(SessionsByDate(sessions)) <==> |SessionsForDate(sessions, Some(d))| > 0
    ensures |SessionsForDate(sessions, Some(d))| == CountOf(SessionsByDate(sessions), d)
    ensures |SessionsForDate(sessions, Some(d))| <= |sessions|
  {
    var r := SessionsByDate(sessions);
    TallyCount(sessions, d);
    KeyIndex(r, d);
    if d in Keys(r) {
      var i :| 0 <= i < |r| && r[i].day == d;
      EntryCounts(sessions, i);
    }
  }
}
