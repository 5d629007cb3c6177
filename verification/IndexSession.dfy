/** Market sessions, the latest index timestamp to expect, and the freshness decision. */
module IndexSession {
  import opened Calendar

  const PREMARKET_START_MINUTE := 4 * 60
  const REGULAR_OPEN_MINUTE := 9 * 60 + 30
  const REGULAR_CLOSE_MINUTE := 16 * 60
  const AFTER_HOURS_END_MINUTE := 20 * 60
  const PROVIDER_DELAY_TOLERANCE_MINUTES := 20
  const PRIOR_CLOSE_EARLY_TOLERANCE_MINUTES := 30

  datatype Session = Closed | Premarket | Regular | AfterHours

  function MinuteOfDay(t: int): int {
    TimeOfDay(t) / MINUTE
  }

  function SessionState(t: int): Session {
    var minute := MinuteOfDay(t);
    if Weekday(DayOf(t)) >= 5 then Closed
    else if PREMARKET_START_MINUTE <= minute < REGULAR_OPEN_MINUTE then Premarket
    else if REGULAR_OPEN_MINUTE <= minute < REGULAR_CLOSE_MINUTE then Regular
    else if REGULAR_CLOSE_MINUTE <= minute < AFTER_HOURS_END_MINUTE then AfterHours
    else Closed
  }

  /** The latest weekday not after `day`, as the loop steps back to it. */
  method PreviousWeekday(day: int) returns (candidate: int)
    ensures candidate == LatestWeekday(day)
  {
    candidate := day;
    while Weekday(candidate) >= 5
      invariant LatestWeekday(candidate) == LatestWeekday(day)
      invariant candidate <= day
      decreases Weekday(candidate)
    {
      candidate := candidate - 1;
    }
  }

  function LatestWeekday(day: int): (r: int)
    ensures r <= day && Weekday(r) < 5
    ensures forall d :: r < d <= day ==> Weekday(d) >= 5
  {
    if Weekday(day) < 5 then day
    else if Weekday(day) == 5 then day - 1
    else day - 2
  }

  function CloseOf(day: int): int {
    At(day, REGULAR_CLOSE_MINUTE * MINUTE)
  }

  function ExpectedLatest(now: int): int {
    var minute := MinuteOfDay(now);
    if Weekday(DayOf(now)) < 5 && REGULAR_OPEN_MINUTE <= minute < REGULAR_CLOSE_MINUTE then now
    else if Weekday(DayOf(now)) < 5 && minute >= REGULAR_CLOSE_MINUTE then CloseOf(DayOf(now))
    else CloseOf(LatestWeekday(DayOf(now) - 1))
  }

  /** A time of day in microseconds. */
  function Clock(hour: int, minute: int): int {
    (hour * 60 + minute) * 60 * 1_000_000
  }

  /** The sessions by the clock: 4:00, 9:30, 16:00 and 20:00 on weekdays, closed otherwise. */
  lemma SessionHours(t: int)
    ensures var tod, weekend := TimeOfDay(t), Weekday(DayOf(t)) == 5 || Weekday(DayOf(t)) == 6;
            && (SessionState(t) == Premarket <==> !weekend && Clock(4, 0) <= tod < Clock(9, 30))
            && (SessionState(t) == Regular <==> !weekend && Clock(9, 30) <= tod < Clock(16, 0))
            && (SessionState(t) == AfterHours <==> !weekend && Clock(16, 0) <= tod < Clock(20, 0))
  {
  }

  // ---------- What is expected ----------

  /** A regular session close: 16:00 on a weekday. */
  predicate IsClose(t: int) {
    TimeOfDay(t) == REGULAR_CLOSE_MINUTE * MINUTE && Weekday(DayOf(t)) < 5
  }

  ghost predicate IsLatestClose(now: int, r: int) {
    IsClose(r) && r <= now && forall t :: IsClose(t) && t <= now ==> t <= r
  }

  /** In the regular session the present instant, otherwise the latest close not in the future. */
  lemma ExpectedMeaning(now: int)
    ensures SessionState(now) == Regular ==> ExpectedLatest(now) == now
    ensures SessionState(now) != Regular ==> IsLatestClose(now, ExpectedLatest(now))
  {
    if SessionState(now) != Regular {
      var r := ExpectedLatest(now);
      var day := DayOf(r);
      AtParts(if Weekday(DayOf(now)) < 5 && MinuteOfDay(now) >= REGULAR_CLOSE_MINUTE then DayOf(now)
              else LatestWeekday(DayOf(now) - 1), REGULAR_CLOSE_MINUTE * MINUTE);
      DayOrder(r, now);
      forall t | IsClose(t) && t <= now
        ensures t <= r
      {
        DayOrder(t, now);
        DayOrder(t, r);
      }
    }
  }

  lemma ExpectedNotAfterNow(now: int)
    ensures ExpectedLatest(now) <= now
  {
    ExpectedMeaning(now);
  }

  lemma ExpectedMonotone(s: int, t: int)
    requires s <= t
    ensures ExpectedLatest(s) <= ExpectedLatest(t)
  {
    ExpectedMeaning(s);
    ExpectedMeaning(t);
    if SessionState(t) != Regular && SessionState(s) == Regular {
      // The close of the session that holds s lies between s and t.
      var close := CloseOf(DayOf(s));
      AtParts(DayOf(s), REGULAR_CLOSE_MINUTE * MINUTE);
      DayOrder(s, close);
      DayOrder(s, t);
      DayOrder(close, t);
    }
  }

  // ---------- Freshness ----------

  const MILLI_MINUTE: int := 60_000

  /**
   `round(seconds / 60, 3)` of a span, counted in thousandths of a minute. The
   quotient is a binary double, so where the span lies exactly between two
   thousandths either neighbour can come out; `up` says which.
   */
  function MilliMinutes(span: int, up: int -> bool): int {
    var below, part := span / MILLI_MINUTE, span % MILLI_MINUTE;
    if 2 * part < MILLI_MINUTE then below
    else if 2 * part > MILLI_MINUTE || up(span) then below + 1
    else below
  }

  function Accepted(asOf: int, now: int, expected: int, session: Session, staleMinutes: int, up: int -> bool): bool {
    if session == Regular then
      staleMinutes <= 0
      || MilliMinutes(now - asOf, up) <= (staleMinutes + PROVIDER_DELAY_TOLERANCE_MINUTES) * 1000
    else
      MilliMinutes(expected - asOf, up) <= PRIOR_CLOSE_EARLY_TOLERANCE_MINUTES * 1000
  }

  /** The span a tolerance lets pass: 30 milliseconds more, and those included unless they round up. */
  predicate Within(span: int, minutes: int, up: int -> bool) {
    span < minutes * MINUTE + 30_000 || (span == minutes * MINUTE + 30_000 && !up(span))
  }

  /** The three decimals lengthen every tolerance by 30 milliseconds; only the last microsecond is in doubt. */
  lemma {:induction false} MinutesAtMost(span: int, minutes: int, up: int -> bool)
    ensures MilliMinutes(span, up) <= minutes * 1000 <==> Within(span, minutes, up)
  {
    RoundAtMost(span / MILLI_MINUTE, span % MILLI_MINUTE, minutes * 1000, up(span));
  }

  lemma RoundAtMost(below: int, part: int, most: int, up: bool)
    requires 0 <= part < MILLI_MINUTE
    ensures (if 2 * part < MILLI_MINUTE then below
             else if 2 * part > MILLI_MINUTE || up then below + 1
             else below) <= most
       <==> var span, limit := below * MILLI_MINUTE + part, most * MILLI_MINUTE + MILLI_MINUTE / 2;
            span < limit || (span == limit && !up)
  {
  }

  /** However ties fall, 29.999 milliseconds over a tolerance pass and 30.001 do not. */
  lemma {:induction false} ToleranceEdge(minutes: int, up: int -> bool)
    ensures MilliMinutes(minutes * MINUTE + 29_999, up) <= minutes * 1000
    ensures MilliMinutes(minutes * MINUTE + 30_001, up) > minutes * 1000
  {
    MinutesAtMost(minutes * MINUTE + 29_999, minutes, up);
    MinutesAtMost(minutes * MINUTE + 30_001, minutes, up);
  }

  /** The decision in plain instants. */
  lemma AcceptedIff(asOf: int, now: int, staleMinutes: int, up: int -> bool)
    ensures var expected, session := ExpectedLatest(now), SessionState(now);
            Accepted(asOf, now, expected, session, staleMinutes, up) <==>
            if session == Regular
            then staleMinutes <= 0 || Within(now - asOf, staleMinutes + 20, up)
            else Within(expected - asOf, 30, up)
  {
    MinutesAtMost(now - asOf, staleMinutes + PROVIDER_DELAY_TOLERANCE_MINUTES, up);
    MinutesAtMost(ExpectedLatest(now) - asOf, PRIOR_CLOSE_EARLY_TOLERANCE_MINUTES, up);
  }

  /** A later timestamp is never refused where an earlier one is accepted, however ties fall. */
  lemma AcceptanceMonotone(early: int, late: int, now: int, staleMinutes: int, up: int -> bool)
    requires early <= late
    requires Accepted(early, now, ExpectedLatest(now), SessionState(now), staleMinutes, up)
    ensures Accepted(late, now, ExpectedLatest(now), SessionState(now), staleMinutes, up)
  {
    AcceptedIff(early, now, staleMinutes, up);
    AcceptedIff(late, now, staleMinutes, up);
  }

  lemma BeforeClose(close: int)
    requires IsClose(close)
    ensures SessionState(close - 1) == Regular
  {
    PartsAt(close);
    assert close - 1 == At(DayOf(close), REGULAR_CLOSE_MINUTE * MINUTE - 1);
    AtParts(DayOf(close), REGULAR_CLOSE_MINUTE * MINUTE - 1);
  }

  /** Between sessions a decision stands: it changes only when a session opens or closes. */
  lemma AcceptanceStands(asOf: int, s: int, t: int, staleMinutes: int, up: int -> bool)
    requires s <= t
    requires forall u :: s <= u <= t ==> SessionState(u) != Regular
    ensures ExpectedLatest(s) == ExpectedLatest(t)
    ensures Accepted(asOf, s, ExpectedLatest(s), SessionState(s), staleMinutes, up)
       <==> Accepted(asOf, t, ExpectedLatest(t), SessionState(t), staleMinutes, up)
  {
    ExpectedMeaning(s);
    ExpectedMeaning(t);
    var close := ExpectedLatest(t);
    if s < close {
      BeforeClose(close);
      assert false;
    }
    AcceptedIff(asOf, s, staleMinutes, up);
    AcceptedIff(asOf, t, staleMinutes, up);
  }
}
