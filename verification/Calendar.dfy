/** Wall-clock instants: microseconds since midnight of day 0, with Python's weekdays. */
module Calendar {

  const MINUTE: int := 60_000_000
  const DAY: int := 86_400_000_000

  function DayOf(t: int): int {
    t / DAY
  }

  function TimeOfDay(t: int): (r: int)
    ensures 0 <= r < DAY
  {
    t % DAY
  }

  function At(day: int, timeOfDay: int): int {
    day * DAY + timeOfDay
  }

  /** `date.weekday()` of a proleptic ordinal: Monday is 0. */
  function Weekday(day: int): (w: int)
    ensures 0 <= w < 7
  {
    (day + 6) % 7
  }

  lemma AtParts(day: int, timeOfDay: int)
    requires 0 <= timeOfDay < DAY
    ensures DayOf(At(day, timeOfDay)) == day && TimeOfDay(At(day, timeOfDay)) == timeOfDay
  {
  }

  lemma PartsAt(t: int)
    ensures At(DayOf(t), TimeOfDay(t)) == t
  {
  }

  /** An earlier day comes wholly before a later one. */
  lemma DayOrder(s: int, t: int)
    ensures DayOf(s) < DayOf(t) ==> s < t
    ensures s <= t ==> DayOf(s) <= DayOf(t)
    ensures DayOf(s) == DayOf(t) ==> (s <= t <==> TimeOfDay(s) <= TimeOfDay(t))
  {
  }

  /** A day has 24 hours of 60 minutes, in microseconds; 1 January 2024, ordinal 738886, was a Monday. */
  lemma KnownMonday()
    ensures DAY == 24 * 60 * MINUTE && MINUTE == 60 * 1_000_000
    ensures Weekday(738_886) == 0 && DayOf(738_886 * 24 * 60 * 60 * 1_000_000) == 738_886
  {
  }

  /** The weekday moves on by one each day, from Sunday back to Monday. */
  lemma NextWeekday(day: int)
    ensures Weekday(day + 1) == if Weekday(day) == 6 then 0 else Weekday(day) + 1
  {
  }
}
