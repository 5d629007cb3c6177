/** When a scheduled report runs next, in the schedule's own wall-clock time. */
module ReportSchedule {
  import opened Wrappers
  import opened Calendar

  predicate Permitted(frequency: string, day: int) {
    if frequency == "weekdays" then Weekday(day) < 5
    else if frequency == "weekly" then Weekday(day) == 0
    else true
  }

  /** An instant at which the schedule may run. */
  predicate Slot(frequency: string, runTime: int, t: int) {
    TimeOfDay(t) == runTime && Permitted(frequency, DayOf(t))
  }

  function RunTime(hour: int, minute: int): int {
    (hour * 60 + minute) * MINUTE
  }

  predicate ValidTime(hour: int, minute: int) {
    0 <= hour < 24 && 0 <= minute < 60
  }

  /** The least slot strictly after `now`. */
  ghost predicate IsNext(frequency: string, runTime: int, now: int, r: int) {
    && now < r && Slot(frequency, runTime, r)
    && forall t :: now < t && Slot(frequency, runTime, t) ==> r <= t
  }

  lemma NextUnique(frequency: string, runTime: int, now: int, r: int, s: int)
    requires IsNext(frequency, runTime, now, r) && IsNext(frequency, runTime, now, s)
    ensures r == s
  {
  }

  /** Every schedule has a slot within the week after today. */
  lemma SlotAhead(frequency: string, runTime: int, now: int) returns (t: int)
    requires 0 <= runTime < DAY
    ensures now < t && Slot(frequency, runTime, t)
  {
    // The Monday that follows today is permitted by every frequency.
    var day := DayOf(now) + 7 - Weekday(DayOf(now));
    t := At(day, runTime);
    AtParts(day, runTime);
    DayOrder(now, t);
    assert Weekday(day) == 0;
  }

  /** Slots lie at the run time of their day, so none lies within a day after one. */
  lemma NextDay(frequency: string, runTime: int, candidate: int, t: int)
    requires TimeOfDay(candidate) == runTime && Slot(frequency, runTime, t) && candidate < t
    ensures candidate + DAY <= t && TimeOfDay(candidate + DAY) == runTime
  {
    PartsAt(candidate);
    PartsAt(t);
  }

  /** In minutes and days: the run is at the minute asked for, on a day asked for, and soon. */
  predicate Promised(frequency: string, hour: int, minute: int, now: int, r: int) {
    && TimeOfDay(r) == (3600 * hour + 60 * minute) * 1_000_000
    && now < r
    && r - now <= (if frequency == "weekdays" then 3 else if frequency == "weekly" then 7 else 1) * 86_400 * 1_000_000
    && (frequency == "weekdays" ==> Weekday(DayOf(r)) != 5 && Weekday(DayOf(r)) != 6)
    && (frequency == "weekly" ==> Weekday(DayOf(r)) == 0)
  }

  /** The slot on day number `ahead` after today. */
  lemma SlotOnDay(frequency: string, runTime: int, now: int, ahead: nat)
    requires 0 <= runTime < DAY && Permitted(frequency, DayOf(now) + ahead)
    requires ahead > 0 || TimeOfDay(now) < runTime
    ensures now < At(DayOf(now) + ahead, runTime) && Slot(frequency, runTime, At(DayOf(now) + ahead, runTime))
    ensures At(DayOf(now) + ahead, runTime) - now == ahead * DAY + runTime - TimeOfDay(now)
  {
    AtParts(DayOf(now) + ahead, runTime);
    PartsAt(now);
  }

  lemma NextIsPromised(frequency: string, hour: int, minute: int, now: int, r: int)
    requires ValidTime(hour, minute) && IsNext(frequency, RunTime(hour, minute), now, r)
    ensures Promised(frequency, hour, minute, now, r)
  {
    var runTime, weekday := RunTime(hour, minute), Weekday(DayOf(now));
    var today := TimeOfDay(now) < runTime;
    var ahead: nat :=
      if frequency == "weekdays" then
        (if today && weekday < 5 then 0 else if weekday < 4 then 1 else 7 - weekday)
      else if frequency == "weekly" then
        (if today && weekday == 0 then 0 else 7 - weekday)
      else if today then 0 else 1;
    SlotOnDay(frequency, runTime, now, ahead);
  }

  method NextRunAt(now: int, frequency: string, hour: int, minute: int) returns (r: Option<int>)
    ensures r.Some? <==> 0 <= hour <= 23 && 0 <= minute <= 59
    ensures r.Some? ==> IsNext(frequency, RunTime(hour, minute), now, r.value)
    ensures r.Some? ==> Promised(frequency, hour, minute, now, r.value)
  {
    if !ValidTime(hour, minute) {
      return None;
    }
    var runTime := RunTime(hour, minute);
    var candidate := At(DayOf(now), runTime);
    AtParts(DayOf(now), runTime);
    forall t | now < t && Slot(frequency, runTime, t)
      ensures candidate <= t
    {
      DayOrder(now, t);
      DayOrder(t, candidate);
    }
    ghost var ahead := SlotAhead(frequency, runTime, now);
    if frequency == "weekdays" || frequency == "weekly" {
      while !(Permitted(frequency, DayOf(candidate)) && now < candidate)
        invariant TimeOfDay(candidate) == runTime
        invariant forall t :: now < t && Slot(frequency, runTime, t) ==> candidate <= t
        decreases ahead - candidate
      {
        NextDay(frequency, runTime, candidate, ahead);
        forall t | now < t && Slot(frequency, runTime, t)
          ensures candidate + DAY <= t
        {
          NextDay(frequency, runTime, candidate, t);
        }
        candidate := candidate + DAY;
      }
    } else if candidate <= now {
      forall t | now < t && Slot(frequency, runTime, t)
        ensures candidate + DAY <= t
      {
        NextDay(frequency, runTime, candidate, t);
      }
      NextDay(frequency, runTime, candidate, ahead);
      PartsAt(now);
      candidate := candidate + DAY;
    }
    r := Some(candidate);
    NextIsPromised(frequency, hour, minute, now, candidate);
  }

  // ---------- Running again and again ----------

  lemma NextExists(frequency: string, runTime: int, now: int)
    requires 0 <= runTime < DAY
    ensures exists r :: IsNext(frequency, runTime, now, r)
  {
    var r := SlotAhead(frequency, runTime, now);
    while exists t :: now < t < r && Slot(frequency, runTime, t)
      invariant now < r && Slot(frequency, runTime, r)
      decreases r - now
    {
      var t :| now < t < r && Slot(frequency, runTime, t);
      r := t;
    }
    assert IsNext(frequency, runTime, now, r);
  }

  ghost function Next(frequency: string, runTime: int, now: int): (r: int)
    requires 0 <= runTime < DAY
    ensures IsNext(frequency, runTime, now, r)
  {
    NextExists(frequency, runTime, now);
    var r :| IsNext(frequency, runTime, now, r);
    r
  }

  /** The instant of the k-th run after `now`, each scheduled from the one before. */
  ghost function Run(frequency: string, runTime: int, now: int, k: nat): int
    requires 0 <= runTime < DAY
  {
    if k == 0 then now else Next(frequency, runTime, Run(frequency, runTime, now, k - 1))
  }

  lemma {:induction false} RunShift(frequency: string, runTime: int, now: int, k: nat)
    requires 0 <= runTime < DAY
    ensures Run(frequency, runTime, Next(frequency, runTime, now), k) == Run(frequency, runTime, now, k + 1)
  {
    if k > 0 {
      RunShift(frequency, runTime, now, k - 1);
    }
  }

  lemma {:induction false} RunsIncrease(frequency: string, runTime: int, now: int, j: nat, k: nat)
    requires 0 <= runTime < DAY && j < k
    ensures Run(frequency, runTime, now, j) < Run(frequency, runTime, now, k)
    ensures Slot(frequency, runTime, Run(frequency, runTime, now, k))
  {
    if j < k - 1 {
      RunsIncrease(frequency, runTime, now, j, k - 1);
    }
  }

  lemma {:induction false} SlotIsRun(frequency: string, runTime: int, now: int, t: int) returns (k: nat)
    requires 0 <= runTime < DAY && now < t && Slot(frequency, runTime, t)
    ensures k > 0 && Run(frequency, runTime, now, k) == t
    decreases t - now
  {
    var next := Next(frequency, runTime, now);
    if next == t {
      k := 1;
      assert Run(frequency, runTime, now, 0) == now;
    } else {
      var j := SlotIsRun(frequency, runTime, next, t);
      RunShift(frequency, runTime, now, j);
      k := j + 1;
    }
  }

  /** Runs are slots, each permitted slot after `now` is run, and exactly once. */
  lemma EverySlotOnce(frequency: string, runTime: int, now: int, t: int)
    requires 0 <= runTime < DAY
    ensures (now < t && Slot(frequency, runTime, t)) <==> exists k :: k > 0 && Run(frequency, runTime, now, k) == t
    ensures forall j, k :: 0 < j < k ==> Run(frequency, runTime, now, j) != Run(frequency, runTime, now, k)
  {
    if now < t && Slot(frequency, runTime, t) {
      var k := SlotIsRun(frequency, runTime, now, t);
    }
    if k :| k > 0 && Run(frequency, runTime, now, k) == t {
      RunsIncrease(frequency, runTime, now, 0, k);
    }
    forall j, k | 0 < j < k
      ensures Run(frequency, runTime, now, j) != Run(frequency, runTime, now, k)
    {
      RunsIncrease(frequency, runTime, now, j, k);
    }
  }
}
