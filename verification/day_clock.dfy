/** Day arithmetic shared by every day-sensitive rule. Both the root package
    and the `global` package carry the same two functions; they differ only in
    which package variables hold the timezone and the daily rollover hour, so
    the model passes those as an explicit `TimePolicy`. */
module DayClock {
  import opened Records

  /** Timezone offset in hours and the hour at which a new day begins. */
  datatype TimePolicy = TimePolicy(timezone: int, rolloverHour: int)

  /** The defaults of the package variables: UTC+8, rollover at 05:00. */
  const DefaultPolicy := TimePolicy(8, 5)

  const SecondsPerDay := 86400

  /** A timestamp moved into the policy's local day frame. */
  function Shift(p: TimePolicy, t: int): int {
    t + (p.timezone - p.rolloverHour) * 3600
  }

  /** The day bucket of a shifted timestamp, with Go's truncating division. */
  function DayOf(s: int): (d: int)
    ensures s >= 0 ==> d >= 0 && d * SecondsPerDay <= s < d * SecondsPerDay + SecondsPerDay
    ensures s < 0 ==> d <= 0 && d * SecondsPerDay - SecondsPerDay < s <= d * SecondsPerDay
  {
    TruncDiv(s, SecondsPerDay)
  }

  /** How many day boundaries lie between `past` and `now`. */
  function DiffDayNum(p: TimePolicy, now: int, past: int): int {
    DayOf(Shift(p, now)) - DayOf(Shift(p, past))
  }

  predicate IsDifferDay(p: TimePolicy, now: int, past: int) {
    DiffDayNum(p, now, past) > 0
  }

  /** The day index of the design: a floor division of the shifted stamp. */
  function FloorDay(p: TimePolicy, t: int): int {
    Shift(p, t) / SecondsPerDay
  }

  lemma DayOfMonotone(a: int, b: int)
    requires a <= b
    ensures DayOf(a) <= DayOf(b)
  {
  }

  lemma DiffSelfIsZero(p: TimePolicy, t: int)
    ensures DiffDayNum(p, t, t) == 0
    ensures !IsDifferDay(p, t, t)
  {
  }

  lemma DiffAntisymmetric(p: TimePolicy, a: int, b: int)
    ensures DiffDayNum(p, a, b) == -DiffDayNum(p, b, a)
  {
  }

  lemma DiffMonotoneInNow(p: TimePolicy, now1: int, now2: int, past: int)
    requires now1 <= now2
    ensures DiffDayNum(p, now1, past) <= DiffDayNum(p, now2, past)
  {
    DayOfMonotone(Shift(p, now1), Shift(p, now2));
  }

  /** An earlier `now` is never a different day; a different day is a later one. */
  lemma DifferDayMeansLater(p: TimePolicy, now: int, past: int)
    ensures IsDifferDay(p, now, past) <==> DiffDayNum(p, now, past) > 0
    ensures IsDifferDay(p, now, past) ==> now > past
  {
    if now <= past {
      DiffMonotoneInNow(p, now, past, past);
    }
  }

  lemma NextDayAddsOne(p: TimePolicy, now: int, past: int)
    requires Shift(p, now) >= 0
    ensures DiffDayNum(p, now + SecondsPerDay, past) == DiffDayNum(p, now, past) + 1
  {
  }

  lemma SameBucketIsSameDay(p: TimePolicy, now: int, past: int, k: int)
    requires k * SecondsPerDay <= Shift(p, now) < k * SecondsPerDay + SecondsPerDay
    requires k * SecondsPerDay <= Shift(p, past) < k * SecondsPerDay + SecondsPerDay
    requires k >= 0
    ensures DiffDayNum(p, now, past) == 0
    ensures !IsDifferDay(p, now, past)
  {
  }

  /** For stamps at or after the shifted epoch, Go's day count is the
      difference of the design's floored day indexes. */
  lemma AgreesWithFloorDay(p: TimePolicy, now: int, past: int)
    requires Shift(p, now) >= 0 && Shift(p, past) >= 0
    ensures DiffDayNum(p, now, past) == FloorDay(p, now) - FloorDay(p, past)
  {
  }

  /** Before the shifted epoch truncation and flooring part ways: one second
      before and at the shifted epoch fall in the same truncated day, while
      the floored day indexes differ. */
  lemma TruncationDiffersFromFloorBeforeEpoch(p: TimePolicy, t: int)
    requires Shift(p, t) == -1
    ensures DiffDayNum(p, t + 1, t) == 0
    ensures FloorDay(p, t + 1) - FloorDay(p, t) == 1
  {
  }
}
