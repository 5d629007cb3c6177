/**
 The notification service: which channels an event goes to, what each attempt
 records, and the SMS limits read back from the append-only attempt log. The
 log queries are counts; the clock and the providers' answers are inputs.
 */
module Notifications {
  import opened Sequences
  import opened Wrappers
  import opened Calendar

  datatype Channel = Email | Sms
  datatype Status = Sent | Failed | Skipped | Disabled
  datatype Readiness = Ready | NotEnabled | Unconfigured

  datatype Attempt = Attempt(user: int, channel: Channel, status: Status, runId: Option<string>,
                             reason: Option<string>, createdAt: int)

  datatype Limits = Limits(perDay: int, perRun: int)

  /** A provider either accepts the message or fails with a reason. */
  datatype Delivery = Delivered | Rejected(reason: string)

  datatype Preference = NoChannel | EmailOnly | SmsOnly | Both

  /** One call of `send_event`, with what the outside world does during it. */
  datatype Event = Event(
    user: int, preference: Preference, emailEnabled: bool, smsEnabled: bool, runId: Option<string>,
    emailAddress: string, emailDelivery: Delivery, emailAt: int,
    readiness: Readiness, phone: string, consent: bool, smsDelivery: Delivery, checkedAt: int, smsAt: int)

  function AtLeastZero(n: int): nat {
    if n < 0 then 0 else n
  }

  // ---------- Log queries ----------

  datatype Query = Query(user: int, channel: Channel, from: Option<int>, to: Option<int>,
                         status: Option<Status>, runId: Option<string>)

  predicate Matches(a: Attempt, q: Query) {
    && a.user == q.user && a.channel == q.channel
    && (q.from.Some? ==> a.createdAt >= q.from.value)
    && (q.to.Some? ==> a.createdAt <= q.to.value)
    && (q.status.Some? ==> a.status == q.status.value)
    && (q.runId.Some? ==> a.runId == q.runId)
  }

  function Count(log: seq<Attempt>, q: Query): nat {
    if log == [] then 0
    else Count(log[..|log| - 1], q) + if Matches(log[|log| - 1], q) then 1 else 0
  }

  /** `count_recent` for SMS: every status counts. */
  function Recent(user: int, since: int): Query {
    Query(user, Sms, Some(since), None, None, None)
  }

  /** `count_for_run` for SMS. */
  function InRun(user: int, run: string): Query {
    Query(user, Sms, None, None, None, Some(run))
  }

  lemma {:induction false} CountMonotone(log: seq<Attempt>, narrow: Query, wide: Query)
    requires forall i :: 0 <= i < |log| && Matches(log[i], narrow) ==> Matches(log[i], wide)
    ensures Count(log, narrow) <= Count(log, wide)
  {
    if log != [] {
      CountMonotone(log[..|log| - 1], narrow, wide);
    }
  }

  // ---------- One attempt ----------

  function LimitReason(log: seq<Attempt>, limits: Limits, user: int, runId: Option<string>, now: int): Option<string> {
    if Count(log, Recent(user, now - DAY)) >= AtLeastZero(limits.perDay) then Some("sms_daily_rate_limit")
    else if runId.Some? && runId.value != [] && Count(log, InRun(user, runId.value)) >= AtLeastZero(limits.perRun)
    then Some("sms_run_rate_limit")
    else None
  }

  function SmsAttempt(log: seq<Attempt>, limits: Limits, e: Event): Attempt {
    var record := (status, reason) => Attempt(e.user, Sms, status, e.runId, reason, e.smsAt);
    if e.readiness == NotEnabled then record(Disabled, Some("sms_disabled"))
    else if e.readiness == Unconfigured then record(Skipped, Some("sms_unconfigured"))
    else if e.phone == [] then record(Skipped, Some("sms_phone_missing"))
    else if !e.consent then record(Skipped, Some("sms_consent_missing"))
    else
      var limited := LimitReason(log, limits, e.user, e.runId, e.checkedAt);
      if limited.Some? then record(Skipped, limited)
      else
        match e.smsDelivery
        case Delivered => record(Sent, None)
        case Rejected(reason) => record(Failed, Some(if |reason| <= 80 then reason else reason[..80]))
  }

  function EmailAttempt(e: Event): Attempt {
    var record := (status, reason) => Attempt(e.user, Email, status, e.runId, reason, e.emailAt);
    if e.emailAddress == [] || '@' !in e.emailAddress then record(Skipped, Some("email_missing"))
    else if e.emailDelivery.Delivered? then record(Sent, None)
    else record(Failed, Some("email_provider_failed"))
  }

  predicate WantsEmail(e: Event) {
    e.preference in {EmailOnly, Both} && e.emailEnabled
  }

  predicate WantsSms(e: Event) {
    e.preference in {SmsOnly, Both} && e.smsEnabled
  }

  /** Email first, then SMS: what one event appends to the log. */
  function EventAttempts(log: seq<Attempt>, limits: Limits, e: Event): seq<Attempt> {
    EmailPart(e) + if WantsSms(e) then [SmsAttempt(log + EmailPart(e), limits, e)] else []
  }

  function EmailPart(e: Event): seq<Attempt> {
    if WantsEmail(e) then [EmailAttempt(e)] else []
  }

  /** What it takes for an SMS to go out: all is set up, the provider accepts, and neither limit is reached. */
  predicate Sendable(log: seq<Attempt>, limits: Limits, e: Event) {
    && e.readiness == Ready && e.phone != [] && e.consent && e.smsDelivery.Delivered?
    && Count(log, Recent(e.user, e.checkedAt - DAY)) < limits.perDay
    && (e.runId.Some? && e.runId.value != [] ==> Count(log, InRun(e.user, e.runId.value)) < limits.perRun)
  }

  function Channels(attempts: seq<Attempt>): (r: seq<Channel>)
    ensures |r| == |attempts|
  {
    seq(|attempts|, i requires 0 <= i < |attempts| => attempts[i].channel)
  }

  // ---------- The service ----------

  class NotificationService {
    var log: seq<Attempt>
    const limits: Limits

    constructor (limits: Limits)
      ensures log == [] && this.limits == limits
    {
      log := [];
      this.limits := limits;
    }

    method CountRecent(q: Query) returns (n: nat)
      ensures n == Count(log, q)
    {
      n := 0;
      for i := 0 to |log|
        invariant n == Count(log[..i], q)
      {
        assert log[..i + 1][..i] == log[..i];
        if Matches(log[i], q) {
          n := n + 1;
        }
      }
      assert log[..|log|] == log;
    }

    method SmsAllowed(user: int, runId: Option<string>, now: int) returns (reason: Option<string>)
      ensures reason == LimitReason(log, limits, user, runId, now)
    {
      var dailyCount := CountRecent(Recent(user, now - DAY));
      if dailyCount >= AtLeastZero(limits.perDay) {
        return Some("sms_daily_rate_limit");
      }
      if runId.Some? && runId.value != [] {
        var runCount := CountRecent(InRun(user, runId.value));
        if runCount >= AtLeastZero(limits.perRun) {
          return Some("sms_run_rate_limit");
        }
      }
      reason := None;
    }

    method Record(a: Attempt)
      modifies this`log
      ensures log == old(log) + [a]
    {
      log := log + [a];
    }

    method SendSms(e: Event) returns (a: Attempt)
      modifies this`log
      ensures a == SmsAttempt(old(log), limits, e)
      ensures a.status == Sent <==> Sendable(old(log), limits, e)
      ensures log == old(log) + [a]
    {
      a := Attempt(e.user, Sms, Skipped, e.runId, None, e.smsAt);
      if e.readiness != Ready {
        a := if e.readiness == NotEnabled then a.(status := Disabled, reason := Some("sms_disabled"))
             else a.(reason := Some("sms_unconfigured"));
      } else if e.phone == [] {
        a := a.(reason := Some("sms_phone_missing"));
      } else if !e.consent {
        a := a.(reason := Some("sms_consent_missing"));
      } else {
        var limitedReason := SmsAllowed(e.user, e.runId, e.checkedAt);
        if limitedReason.Some? {
          a := a.(reason := limitedReason);
        } else {
          match e.smsDelivery {
            case Delivered =>
              a := a.(status := Sent);
            case Rejected(reason) =>
              a := a.(status := Failed, reason := Some(if |reason| <= 80 then reason else reason[..80]));
          }
        }
      }
      Record(a);
    }

    method SendEmail(e: Event) returns (a: Attempt)
      modifies this`log
      ensures a == EmailAttempt(e)
      ensures a.status == Sent <==> '@' in e.emailAddress && e.emailDelivery.Delivered?
      ensures log == old(log) + [a]
    {
      a := Attempt(e.user, Email, Sent, e.runId, None, e.emailAt);
      if e.emailAddress == [] || '@' !in e.emailAddress {
        a := a.(status := Skipped, reason := Some("email_missing"));
      } else if e.emailDelivery.Rejected? {
        a := a.(status := Failed, reason := Some("email_provider_failed"));
      }
      Record(a);
    }

    method SendEvent(e: Event) returns (attempts: seq<Attempt>)
      modifies this`log
      ensures attempts == EventAttempts(old(log), limits, e)
      ensures Channels(attempts) ==
                (if (e.preference == EmailOnly || e.preference == Both) && e.emailEnabled then [Email] else [])
                + (if (e.preference == SmsOnly || e.preference == Both) && e.smsEnabled then [Sms] else [])
      ensures log == old(log) + attempts && Stepped(old(log), log, limits, e)
    {
      attempts := [];
      if WantsEmail(e) {
        var a := SendEmail(e);
        attempts := attempts + [a];
      }
      assert log == old(log) + attempts;
      if WantsSms(e) {
        var a := SendSms(e);
        attempts := attempts + [a];
      } else {
        assert attempts == attempts + [];
      }
    }
  }

  // ---------- Every run of events ----------

  predicate Stepped(before: seq<Attempt>, after: seq<Attempt>, limits: Limits, e: Event) {
    after == before + EventAttempts(before, limits, e)
  }

  /** A run: the log before the first event, and after each one. */
  predicate IsRun(limits: Limits, events: seq<Event>, logs: seq<seq<Attempt>>) {
    && |logs| == |events| + 1 && logs[0] == []
    && forall i, j :: 0 <= i < |events| && 0 <= j < |logs| && j == i + 1 ==>
         Stepped(logs[i], logs[j], limits, events[i])
  }

  /** Any events make a run... */
  lemma {:induction false} RunExists(limits: Limits, events: seq<Event>) returns (logs: seq<seq<Attempt>>)
    ensures IsRun(limits, events, logs)
  {
    if events == [] {
      logs := [[]];
    } else {
      var n := |events| - 1;
      var before := RunExists(limits, events[..n]);
      var last := before[n] + EventAttempts(before[n], limits, events[n]);
      logs := before + [last];
      forall i, j | 0 <= i < |events| && 0 <= j < |logs| && j == i + 1
        ensures Stepped(logs[i], logs[j], limits, events[i])
      {
        if i < n {
          assert Stepped(before[i], before[j], limits, events[..n][i]);
        }
      }
    }
  }

  /** ...and only one. */
  lemma {:induction false} RunUnique(limits: Limits, events: seq<Event>, a: seq<seq<Attempt>>,
                                     b: seq<seq<Attempt>>, k: nat)
    requires IsRun(limits, events, a) && IsRun(limits, events, b) && k <= |events|
    ensures a[k] == b[k]
  {
    if k > 0 {
      RunUnique(limits, events, a, b, k - 1);
      assert Stepped(a[k - 1], a[k], limits, events[k - 1]) && Stepped(b[k - 1], b[k], limits, events[k - 1]);
    }
  }

  /** An SMS is not recorded before its own limit check; nothing is asked of the clock between events. */
  predicate RecordedAfterCheck(events: seq<Event>) {
    forall i :: 0 <= i < |events| ==> events[i].checkedAt <= events[i].smsAt
  }

  predicate IsSentSms(a: Attempt) {
    a.channel == Sms && a.status == Sent
  }

  /** When this SMS went out, the user's attempts of any status in the day before were below the limit. */
  predicate Guarded(log: seq<Attempt>, limits: Limits, i: nat)
    requires i < |log|
  {
    var a := log[i];
    && Count(log[..i], Recent(a.user, a.createdAt - DAY)) < AtLeastZero(limits.perDay)
    && (a.runId.Some? && a.runId.value != [] ==>
          Count(log[..i], InRun(a.user, a.runId.value)) < AtLeastZero(limits.perRun))
  }

  predicate AllGuarded(log: seq<Attempt>, limits: Limits) {
    forall i :: 0 <= i < |log| && IsSentSms(log[i]) ==> Guarded(log, limits, i)
  }

  lemma GuardedAppend(log: seq<Attempt>, limits: Limits, a: Attempt)
    requires AllGuarded(log, limits)
    requires IsSentSms(a) ==> Guarded(log + [a], limits, |log|)
    ensures AllGuarded(log + [a], limits)
  {
    var all := log + [a];
    forall i | 0 <= i < |all| && IsSentSms(all[i])
      ensures Guarded(all, limits, i)
    {
      if i < |log| {
        assert all[..i] == log[..i];
        assert Guarded(log, limits, i);
      }
    }
  }

  lemma SmsIsGuarded(log: seq<Attempt>, limits: Limits, e: Event)
    requires e.checkedAt <= e.smsAt
    ensures var a := SmsAttempt(log, limits, e);
            IsSentSms(a) ==> Guarded(log + [a], limits, |log|)
  {
    var a := SmsAttempt(log, limits, e);
    assert (log + [a])[..|log|] == log;
    CountMonotone(log, Recent(e.user, e.smsAt - DAY), Recent(e.user, e.checkedAt - DAY));
  }

  lemma EventKeepsGuarded(log: seq<Attempt>, limits: Limits, e: Event)
    requires AllGuarded(log, limits) && e.checkedAt <= e.smsAt
    ensures AllGuarded(log + EventAttempts(log, limits, e), limits)
  {
    var middle := log + EmailPart(e);
    if WantsEmail(e) {
      GuardedAppend(log, limits, EmailAttempt(e));
    } else {
      assert middle == log;
    }
    if WantsSms(e) {
      var a := SmsAttempt(middle, limits, e);
      SmsIsGuarded(middle, limits, e);
      GuardedAppend(middle, limits, a);
      assert log + EventAttempts(log, limits, e) == middle + [a];
    } else {
      assert log + EventAttempts(log, limits, e) == middle;
    }
  }

  lemma {:induction false} RunIsGuarded(limits: Limits, events: seq<Event>, logs: seq<seq<Attempt>>, k: nat)
    requires IsRun(limits, events, logs) && RecordedAfterCheck(events) && k <= |events|
    ensures AllGuarded(logs[k], limits)
  {
    if k > 0 {
      RunIsGuarded(limits, events, logs, k - 1);
      assert Stepped(logs[k - 1], logs[k], limits, events[k - 1]);
      EventKeepsGuarded(logs[k - 1], limits, events[k - 1]);
    }
  }

  /** Sent SMS of a user in the closed window of one day that starts at `from`. */
  function SentInWindow(user: int, from: int): Query {
    Query(user, Sms, Some(from), Some(from + DAY), Some(Sent), None)
  }

  function SentInRun(user: int, run: string): Query {
    Query(user, Sms, None, None, Some(Sent), Some(run))
  }

  lemma {:induction false} WindowWithinLimit(log: seq<Attempt>, limits: Limits, user: int, from: int)
    requires AllGuarded(log, limits)
    ensures Count(log, SentInWindow(user, from)) <= AtLeastZero(limits.perDay)
  {
    if log != [] {
      var n := |log| - 1;
      var a := log[n];
      GuardedPrefix(log, limits);
      if Matches(a, SentInWindow(user, from)) {
        assert Guarded(log, limits, n);
        CountMonotone(log[..n], SentInWindow(user, from), Recent(user, a.createdAt - DAY));
      } else {
        WindowWithinLimit(log[..n], limits, user, from);
      }
    }
  }

  lemma GuardedPrefix(log: seq<Attempt>, limits: Limits)
    requires AllGuarded(log, limits) && log != []
    ensures AllGuarded(log[..|log| - 1], limits)
  {
    var front := log[..|log| - 1];
    forall i | 0 <= i < |front| && IsSentSms(front[i])
      ensures Guarded(front, limits, i)
    {
      assert front[..i] == log[..i];
      assert Guarded(log, limits, i);
    }
  }

  lemma {:induction false} RunWithinLimit(log: seq<Attempt>, limits: Limits, user: int, run: string)
    requires AllGuarded(log, limits) && run != []
    ensures Count(log, SentInRun(user, run)) <= AtLeastZero(limits.perRun)
  {
    if log != [] {
      var n := |log| - 1;
      GuardedPrefix(log, limits);
      if Matches(log[n], SentInRun(user, run)) {
        assert Guarded(log, limits, n);
        CountMonotone(log[..n], SentInRun(user, run), InRun(user, run));
      } else {
        RunWithinLimit(log[..n], limits, user, run);
      }
    }
  }

  /** In every run of events both limits hold, for any day-long window and any run id. */
  lemma LimitsHold(limits: Limits, events: seq<Event>, logs: seq<seq<Attempt>>, k: nat,
                   user: int, from: int, run: string)
    requires IsRun(limits, events, logs) && RecordedAfterCheck(events) && k <= |events|
    ensures Count(logs[k], SentInWindow(user, from)) <= AtLeastZero(limits.perDay)
    ensures run != [] ==> Count(logs[k], SentInRun(user, run)) <= AtLeastZero(limits.perRun)
  {
    RunIsGuarded(limits, events, logs, k);
    WindowWithinLimit(logs[k], limits, user, from);
    if run != [] {
      RunWithinLimit(logs[k], limits, user, run);
    }
  }

  // ---------- What a sent message implies ----------

  /** The event asked for the channel, had what it takes, and the provider accepted. */
  predicate SentBy(e: Event, a: Attempt) {
    && a.user == e.user
    && match a.channel
       case Email => WantsEmail(e) && '@' in e.emailAddress && e.emailDelivery.Delivered?
       case Sms => WantsSms(e) && e.readiness == Ready && e.phone != [] && e.consent && e.smsDelivery.Delivered?
  }

  lemma EventSends(log: seq<Attempt>, limits: Limits, e: Event, i: nat)
    requires i < |EventAttempts(log, limits, e)| && EventAttempts(log, limits, e)[i].status == Sent
    ensures SentBy(e, EventAttempts(log, limits, e)[i])
  {
  }

  /** Every sent message of the log has its event among the first `k`. */
  ghost predicate SentAreAsked(log: seq<Attempt>, events: seq<Event>, k: nat)
    requires k <= |events|
  {
    forall a :: a in log && a.status == Sent ==> exists j :: 0 <= j < k && SentBy(events[j], a)
  }

  lemma AskedNext(log: seq<Attempt>, limits: Limits, events: seq<Event>, k: nat)
    requires k < |events| && SentAreAsked(log, events, k)
    ensures SentAreAsked(log + EventAttempts(log, limits, events[k]), events, k + 1)
  {
    var more := EventAttempts(log, limits, events[k]);
    forall a | a in log + more && a.status == Sent
      ensures exists j :: 0 <= j < k + 1 && SentBy(events[j], a)
    {
      if a !in log {
        var i :| 0 <= i < |more| && more[i] == a;
        EventSends(log, limits, events[k], i);
      }
    }
  }

  /** In every run, what was sent was asked for: an SMS never goes out without phone and consent. */
  lemma {:induction false} SentMeans(limits: Limits, events: seq<Event>, logs: seq<seq<Attempt>>, k: nat)
    requires IsRun(limits, events, logs) && k <= |events|
    ensures SentAreAsked(logs[k], events, k)
  {
    if k > 0 {
      SentMeans(limits, events, logs, k - 1);
      assert Stepped(logs[k - 1], logs[k], limits, events[k - 1]);
      AskedNext(logs[k - 1], limits, events, k - 1);
    }
  }

  // ---------- Lock-out ----------

  /** The SMS attempts of a user, whatever came of them. */
  function Mine(log: seq<Attempt>, user: int): seq<Attempt> {
    if log == [] then []
    else
      var last := log[|log| - 1];
      Mine(log[..|log| - 1], user) + if last.user == user && last.channel == Sms then [last] else []
  }

  predicate InTimeOrder(attempts: seq<Attempt>) {
    forall i, j :: 0 <= i < j < |attempts| ==> attempts[i].createdAt <= attempts[j].createdAt
  }

  function CountSince(attempts: seq<Attempt>, since: int): nat {
    if attempts == [] then 0
    else CountSince(attempts[..|attempts| - 1], since) + if attempts[|attempts| - 1].createdAt >= since then 1 else 0
  }

  lemma CountSinceAppend(attempts: seq<Attempt>, a: Attempt, since: int)
    ensures CountSince(attempts + [a], since) == CountSince(attempts, since) + if a.createdAt >= since then 1 else 0
  {
    assert (attempts + [a])[..|attempts|] == attempts;
  }

  lemma {:induction false} RecentIsMine(log: seq<Attempt>, user: int, since: int)
    ensures Count(log, Recent(user, since)) == CountSince(Mine(log, user), since)
  {
    if log != [] {
      var front, last := log[..|log| - 1], log[|log| - 1];
      RecentIsMine(front, user, since);
      if last.user == user && last.channel == Sms {
        CountSinceAppend(Mine(front, user), last, since);
      } else {
        assert Mine(log, user) == Mine(front, user);
      }
    }
  }

  /** The attempt `n` places from the end, when there is one, lies at or after `since`. */
  predicate NthLastSince(attempts: seq<Attempt>, n: nat, since: int) {
    n == 0 || (n <= |attempts| && attempts[|attempts| - n].createdAt >= since)
  }

  lemma {:induction false} CountSinceIff(attempts: seq<Attempt>, n: nat, since: int)
    requires InTimeOrder(attempts)
    ensures CountSince(attempts, since) >= n <==> NthLastSince(attempts, n, since)
  {
    if attempts != [] && n > 0 {
      var m := |attempts| - 1;
      CountSinceIff(attempts[..m], if attempts[m].createdAt >= since then n - 1 else n, since);
      assert n < |attempts| ==> attempts[..m][m - n].createdAt <= attempts[m].createdAt;
    }
  }

  /** The clock does not go back from one event to the next. */
  predicate ClockForward(events: seq<Event>) {
    forall i, j :: 0 <= i < j < |events| ==> events[i].smsAt <= events[j].smsAt
  }

  lemma MineAppend(log: seq<Attempt>, a: Attempt, user: int)
    ensures Mine(log + [a], user) == Mine(log, user) + if a.user == user && a.channel == Sms then [a] else []
  {
    assert (log + [a])[..|log|] == log;
  }

  lemma MineBeforeSms(log: seq<Attempt>, e: Event, user: int)
    ensures Mine(log + EmailPart(e), user) == Mine(log, user)
  {
    if WantsEmail(e) {
      MineAppend(log, EmailAttempt(e), user);
    } else {
      assert log + EmailPart(e) == log;
    }
  }

  /** The SMS attempt of an event that meets this log. */
  function SmsOf(log: seq<Attempt>, limits: Limits, e: Event): (a: Attempt)
    ensures a.user == e.user && a.channel == Sms && a.createdAt == e.smsAt
  {
    SmsAttempt(log + EmailPart(e), limits, e)
  }

  lemma SteppedBySms(log: seq<Attempt>, after: seq<Attempt>, limits: Limits, e: Event) returns (sms: Attempt)
    requires Stepped(log, after, limits, e)
    ensures sms == SmsOf(log, limits, e)
    ensures sms.user == e.user && sms.channel == Sms && sms.createdAt == e.smsAt
    ensures after == if WantsSms(e) then (log + EmailPart(e)) + [sms] else log + EmailPart(e)
  {
    sms := SmsOf(log, limits, e);
    if WantsSms(e) {
      ConcatAssociative(log, EmailPart(e), [sms]);
    } else {
      assert EmailPart(e) + [] == EmailPart(e);
    }
  }

  /** The user's attempts after an event: its SMS, if it asks for one, joins them. */
  lemma MineOfEvent(log: seq<Attempt>, after: seq<Attempt>, limits: Limits, e: Event, user: int)
    returns (sms: Attempt)
    requires Stepped(log, after, limits, e)
    ensures sms.createdAt == e.smsAt
    ensures Mine(after, user) == Mine(log, user) + if WantsSms(e) && e.user == user then [sms] else []
  {
    sms := SteppedBySms(log, after, limits, e);
    MineBeforeSms(log, e, user);
    MineAppend(log + EmailPart(e), sms, user);
  }

  /** In the order of time, none later than the last of the first `k` events. */
  predicate StampedBefore(attempts: seq<Attempt>, events: seq<Event>, k: nat)
    requires k <= |events|
  {
    && InTimeOrder(attempts)
    && forall i :: 0 <= i < |attempts| ==> k > 0 && attempts[i].createdAt <= events[k - 1].smsAt
  }

  lemma StampNext(attempts: seq<Attempt>, events: seq<Event>, k: nat, more: seq<Attempt>)
    requires ClockForward(events) && k < |events|
    requires StampedBefore(attempts, events, k)
    requires more == [] || (|more| == 1 && more[0].createdAt == events[k].smsAt)
    ensures StampedBefore(attempts + more, events, k + 1)
  {
    assert k > 0 ==> events[k - 1].smsAt <= events[k].smsAt;
  }

  lemma {:induction false} MineInOrder(limits: Limits, events: seq<Event>, logs: seq<seq<Attempt>>, k: nat, user: int)
    requires IsRun(limits, events, logs) && ClockForward(events) && k <= |events|
    ensures StampedBefore(Mine(logs[k], user), events, k)
  {
    if k > 0 {
      var before, e := logs[k - 1], events[k - 1];
      MineInOrder(limits, events, logs, k - 1, user);
      var sms := MineOfEvent(before, logs[k], limits, e, user);
      StampNext(Mine(before, user), events, k - 1, if WantsSms(e) && e.user == user then [sms] else []);
    }
  }

  predicate Deliverable(e: Event) {
    e.readiness == Ready && e.phone != [] && e.consent
  }

  lemma DailyReasonIff(log: seq<Attempt>, limits: Limits, user: int, runId: Option<string>, now: int)
    requires InTimeOrder(Mine(log, user))
    ensures LimitReason(log, limits, user, runId, now) == Some("sms_daily_rate_limit")
       <==> NthLastSince(Mine(log, user), AtLeastZero(limits.perDay), now - DAY)
  {
    RecentIsMine(log, user, now - DAY);
    CountSinceIff(Mine(log, user), AtLeastZero(limits.perDay), now - DAY);
    assert |"sms_daily_rate_limit"| != |"sms_run_rate_limit"|;
  }

  predicate RefusedDaily(a: Attempt) {
    a.status == Skipped && a.reason == Some("sms_daily_rate_limit")
  }

  lemma RefusedDailyIff(log: seq<Attempt>, limits: Limits, e: Event)
    requires Deliverable(e)
    ensures RefusedDaily(SmsAttempt(log, limits, e))
       <==> LimitReason(log, limits, e.user, e.runId, e.checkedAt) == Some("sms_daily_rate_limit")
  {
  }

  /**
   Attempts of every status count, so a refusal prolongs itself: an SMS that could
   go out is refused by the daily rule exactly when the user's attempt `perDay`
   places earlier - sent, failed or refused - lies within the last day.
   */
  lemma LockedOutIff(limits: Limits, events: seq<Event>, logs: seq<seq<Attempt>>, k: nat)
    requires IsRun(limits, events, logs) && ClockForward(events) && k < |events| && Deliverable(events[k])
    ensures RefusedDaily(SmsOf(logs[k], limits, events[k]))
       <==> NthLastSince(Mine(logs[k], events[k].user), AtLeastZero(limits.perDay), events[k].checkedAt - DAY)
  {
    var e, log := events[k], logs[k];
    MineInOrder(limits, events, logs, k, e.user);
    MineBeforeSms(log, e, e.user);
    RefusedDailyIff(log + EmailPart(e), limits, e);
    DailyReasonIff(log + EmailPart(e), limits, e.user, e.runId, e.checkedAt);
  }

  /** All events ask for an SMS to one user. */
  predicate OneUser(events: seq<Event>, user: int) {
    forall i :: 0 <= i < |events| ==> events[i].user == user && WantsSms(events[i])
  }

  /** One attempt for each of the first `k` events, at its time. */
  predicate StampedEach(attempts: seq<Attempt>, events: seq<Event>, k: nat)
    requires k <= |events|
  {
    |attempts| == k && forall i :: 0 <= i < k ==> attempts[i].createdAt == events[i].smsAt
  }

  lemma {:induction false} MineOfOneUser(limits: Limits, events: seq<Event>, logs: seq<seq<Attempt>>, k: nat, user: int)
    requires IsRun(limits, events, logs) && OneUser(events, user) && k <= |events|
    ensures StampedEach(Mine(logs[k], user), events, k)
  {
    if k > 0 {
      var before := Mine(logs[k - 1], user);
      MineOfOneUser(limits, events, logs, k - 1, user);
      var sms := MineOfEvent(logs[k - 1], logs[k], limits, events[k - 1], user);
      assert events[k - 1].user == user && WantsSms(events[k - 1]);
      OneMore(before, events, k - 1, sms);
    }
  }

  lemma OneMore(attempts: seq<Attempt>, events: seq<Event>, k: nat, a: Attempt)
    requires k < |events| && StampedEach(attempts, events, k) && a.createdAt == events[k].smsAt
    ensures StampedEach(attempts + [a], events, k + 1)
  {
  }

  /**
   A user written to so often that `perDay` attempts always fall within a day gets
   none after the first `perDay` attempts, for as long as that goes on.
   */
  lemma OftenIsNever(limits: Limits, events: seq<Event>, logs: seq<seq<Attempt>>, user: int, k: nat)
    requires IsRun(limits, events, logs) && ClockForward(events) && OneUser(events, user)
    requires forall i, j :: 0 <= i && j == i + AtLeastZero(limits.perDay) && j < |events| ==>
               events[i].smsAt >= events[j].checkedAt - DAY
    requires AtLeastZero(limits.perDay) <= k < |events|
    ensures SmsOf(logs[k], limits, events[k]).status != Sent
  {
    var n := AtLeastZero(limits.perDay);
    MineOfOneUser(limits, events, logs, k, user);
    assert events[k].user == user;
    assert n > 0 ==> events[k - n].smsAt >= events[k].checkedAt - DAY;
    if Deliverable(events[k]) {
      LockedOutIff(limits, events, logs, k);
    }
  }

  // ---------- When an SMS goes out, and what is recorded when it does not ----------

  lemma SmsSentIff(log: seq<Attempt>, limits: Limits, e: Event)
    ensures SmsAttempt(log, limits, e).status == Sent <==> Sendable(log, limits, e)
  {
  }

  /** Each obstacle in its turn: the service, the phone, the consent, the limits, the provider. */
  lemma SmsReasons(log: seq<Attempt>, limits: Limits, e: Event)
    ensures var a, set_up := SmsAttempt(log, limits, e), e.readiness == Ready && e.phone != [] && e.consent;
            && a.user == e.user && a.channel == Sms && a.runId == e.runId && a.createdAt == e.smsAt
            && (e.readiness == NotEnabled ==> a.status == Disabled && a.reason == Some("sms_disabled"))
            && (e.readiness == Unconfigured ==> a.status == Skipped && a.reason == Some("sms_unconfigured"))
            && (e.readiness == Ready && e.phone == [] ==>
                  a.status == Skipped && a.reason == Some("sms_phone_missing"))
            && (e.readiness == Ready && e.phone != [] && !e.consent ==>
                  a.status == Skipped && a.reason == Some("sms_consent_missing"))
            && (set_up && Count(log, Recent(e.user, e.checkedAt - DAY)) >= AtLeastZero(limits.perDay) ==>
                  a.status == Skipped && a.reason == Some("sms_daily_rate_limit"))
            && (set_up && Sendable(log, limits, e.(smsDelivery := Delivered)) ==>
                  match e.smsDelivery
                  case Delivered => a.status == Sent && a.reason.None?
                  case Rejected(reason) =>
                    && a.status == Failed && a.reason.Some? && a.reason.value <= reason
                    && |a.reason.value| == if |reason| < 80 then |reason| else 80)
  {
  }

  lemma RunLimitReason(log: seq<Attempt>, limits: Limits, e: Event)
    requires Deliverable(e) && Count(log, Recent(e.user, e.checkedAt - DAY)) < limits.perDay
    requires e.runId.Some? && e.runId.value != []
    requires Count(log, InRun(e.user, e.runId.value)) >= AtLeastZero(limits.perRun)
    ensures SmsAttempt(log, limits, e).status == Skipped
    ensures SmsAttempt(log, limits, e).reason == Some("sms_run_rate_limit")
  {
  }

  lemma EmailReasons(e: Event)
    ensures var a := EmailAttempt(e);
            && a.user == e.user && a.channel == Email && a.runId == e.runId && a.createdAt == e.emailAt
            && ('@' !in e.emailAddress ==> a.status == Skipped && a.reason == Some("email_missing"))
            && ('@' in e.emailAddress && e.emailDelivery.Rejected? ==>
                  a.status == Failed && a.reason == Some("email_provider_failed"))
            && ('@' in e.emailAddress && e.emailDelivery.Delivered? ==> a.status == Sent && a.reason.None?)
  {
  }

  /** An email neither uses up nor frees an SMS. */
  lemma EmailDoesNotCount(log: seq<Attempt>, e: Event, q: Query)
    requires q.channel == Sms
    ensures Count(log + EmailPart(e), q) == Count(log, q)
  {
    if WantsEmail(e) {
      assert (log + [EmailAttempt(e)])[..|log|] == log;
    } else {
      assert log + EmailPart(e) == log;
    }
  }

  /** In every run an event sends an SMS exactly when it asks for one and the log so far lets it. */
  lemma RunSendsIff(limits: Limits, events: seq<Event>, logs: seq<seq<Attempt>>, k: nat, next: nat)
    requires IsRun(limits, events, logs) && k < |events| && next == k + 1
    ensures (exists i :: |logs[k]| <= i < |logs[next]| && IsSentSms(logs[next][i]))
       <==> && (events[k].preference == SmsOnly || events[k].preference == Both) && events[k].smsEnabled
            && Sendable(logs[k], limits, events[k])
  {
    var e, log, after := events[k], logs[k], logs[next];
    assert Stepped(log, after, limits, e);
    var sms := SteppedBySms(log, after, limits, e);
    SmsSentIff(log + EmailPart(e), limits, e);
    SendableAfterEmail(log, limits, e);
    forall i | |log| <= i < |after|
      ensures IsSentSms(after[i]) ==> WantsSms(e) && after[i] == sms
    {
    }
    if WantsSms(e) {
      assert after[|after| - 1] == sms;
    }
  }

  lemma SendableAfterEmail(log: seq<Attempt>, limits: Limits, e: Event)
    ensures Sendable(log + EmailPart(e), limits, e) <==> Sendable(log, limits, e)
  {
    EmailDoesNotCount(log, e, Recent(e.user, e.checkedAt - DAY));
    if e.runId.Some? {
      EmailDoesNotCount(log, e, InRun(e.user, e.runId.value));
    }
  }

  // ---------- The limits, told in attempts ----------

  /** The SMS attempts of a user in a run. */
  function MineInRun(log: seq<Attempt>, user: int, run: string): seq<Attempt> {
    if log == [] then []
    else
      var last := log[|log| - 1];
      MineInRun(log[..|log| - 1], user, run)
      + if last.user == user && last.channel == Sms && last.runId == Some(run) then [last] else []
  }

  lemma {:induction false} InRunIsMine(log: seq<Attempt>, user: int, run: string)
    ensures Count(log, InRun(user, run)) == |MineInRun(log, user, run)|
  {
    if log != [] {
      InRunIsMine(log[..|log| - 1], user, run);
    }
  }

  /** Places in the log, one after the other. */
  predicate Picks(log: seq<Attempt>, picks: seq<nat>) {
    && (forall i :: 0 <= i < |picks| ==> picks[i] < |log|)
    && forall i, j :: 0 <= i < j < |picks| ==> picks[i] < picks[j]
  }

  lemma {:induction false} PicksCounted(log: seq<Attempt>, q: Query, picks: seq<nat>)
    requires Picks(log, picks) && forall i :: 0 <= i < |picks| ==> Matches(log[picks[i]], q)
    ensures |picks| <= Count(log, q)
  {
    if picks != [] {
      var n, m := |log| - 1, |picks| - 1;
      if picks[m] == n {
        PicksCounted(log[..n], q, picks[..m]);
      } else {
        PicksCounted(log[..n], q, picks);
      }
    }
  }

  /** No matter which places of the log are looked at: sent SMS of a user within a day are within the limit. */
  lemma SentWithinDay(limits: Limits, events: seq<Event>, logs: seq<seq<Attempt>>, k: nat,
                      user: int, from: int, picks: seq<nat>)
    requires IsRun(limits, events, logs) && RecordedAfterCheck(events) && k <= |events| && Picks(logs[k], picks)
    requires forall i :: 0 <= i < |picks| ==>
               var a := logs[k][picks[i]];
               && a.user == user && a.channel == Sms && a.status == Sent
               && from <= a.createdAt <= from + 86_400_000_000
    ensures picks != [] ==> |picks| <= limits.perDay
  {
    LimitsHold(limits, events, logs, k, user, from, []);
    PicksCounted(logs[k], SentInWindow(user, from), picks);
  }

  /** So are those of a run within the run limit. */
  lemma SentWithinRun(limits: Limits, events: seq<Event>, logs: seq<seq<Attempt>>, k: nat,
                      user: int, run: string, picks: seq<nat>)
    requires IsRun(limits, events, logs) && RecordedAfterCheck(events) && k <= |events| && Picks(logs[k], picks)
    requires run != [] && forall i :: 0 <= i < |picks| ==>
               var a := logs[k][picks[i]];
               a.user == user && a.channel == Sms && a.status == Sent && a.runId == Some(run)
    ensures picks != [] ==> |picks| <= limits.perRun
  {
    LimitsHold(limits, events, logs, k, user, 0, run);
    PicksCounted(logs[k], SentInRun(user, run), picks);
  }
}
