/** What holds over every run of one subscription: customer calls and sweeps in any order, time never going back. */
module SubscriptionRuns {
  import opened Wrappers
  import opened CivilDate
  import opened Subscriptions

  datatype Event =
    | Pause(now: DateTime, caller: nat)
    | Resume(now: DateTime, caller: nat)
    | Cancel(now: DateTime, caller: nat, why: Option<string>)
    | BillingSweep(now: DateTime, paid: bool)
    | NoticeSweep(now: DateTime)

  /** What the outside world sees of a run. */
  datatype Effect = Charged(at: DateTime) | Refused(at: DateTime) | Notified(at: DateTime, renewal: DateTime)

  datatype History = History(sub: Sub, log: seq<Effect>)

  function Step(h: History, e: Event): History
    requires e.now.Valid()
  {
    match e
    case Pause(now, caller) => h.(sub := PauseSub(h.sub, caller, now).0)
    case Resume(now, caller) => h.(sub := ResumeSub(h.sub, caller, now).0)
    case Cancel(now, caller, why) => h.(sub := CancelSub(h.sub, caller, now, why).0)
    case BillingSweep(now, paid) =>
      if !Due(h.sub, now) then h
      else History(RenewSub(h.sub, now, paid), h.log + [if paid then Charged(now) else Refused(now)])
    case NoticeSweep(now) =>
      if !NoticeDue(h.sub, now) then h
      else History(NoticeSub(h.sub, now), h.log + [Notified(now, h.sub.nextRenewal)])
  }

  ghost predicate Timely(run: seq<Event>) {
    && (forall i :: 0 <= i < |run| ==> run[i].now.Valid())
    && (forall i, j :: 0 <= i < j < |run| ==> run[i].now.Instant() <= run[j].now.Instant())
  }

  /** A new subscription, whatever its start date, then the events of the run. */
  function After(customer: nat, frequency: Frequency, start: DateTime, run: seq<Event>): History
    requires start.Valid() && forall i :: 0 <= i < |run| ==> run[i].now.Valid()
  {
    if run == [] then History(Created(customer, frequency, start), [])
    else Step(After(customer, frequency, start, run[..|run| - 1]), run[|run| - 1])
  }

  // ---- reading the log --------------------------------------------------------------------------

  /** Instants of the successful charges, oldest first. */
  function Charges(log: seq<Effect>): seq<int> {
    if log == [] then []
    else
      var e := log[|log| - 1];
      Charges(log[..|log| - 1]) + if e.Charged? then [e.at.Instant()] else []
  }

  /** Refused charges since the last success. */
  function Failures(log: seq<Effect>): nat {
    if log == [] then 0
    else match log[|log| - 1]
      case Charged(_) => 0
      case Refused(_) => Failures(log[..|log| - 1]) + 1
      case Notified(_, _) => Failures(log[..|log| - 1])
  }

  /** Notices since the last success. */
  function NoticesSinceCharge(log: seq<Effect>): nat {
    if log == [] then 0
    else match log[|log| - 1]
      case Charged(_) => 0
      case Refused(_) => NoticesSinceCharge(log[..|log| - 1])
      case Notified(_, _) => NoticesSinceCharge(log[..|log| - 1]) + 1
  }

  function Notices(log: seq<Effect>): nat {
    if log == [] then 0 else Notices(log[..|log| - 1]) + if log[|log| - 1].Notified? then 1 else 0
  }

  lemma LogNext(log: seq<Effect>, e: Effect)
    ensures Charges(log + [e]) == if e.Charged? then Charges(log) + [e.at.Instant()] else Charges(log)
    ensures Failures(log + [e]) == if e.Charged? then 0 else if e.Refused? then Failures(log) + 1 else Failures(log)
    ensures NoticesSinceCharge(log + [e])
         == if e.Charged? then 0 else if e.Notified? then NoticesSinceCharge(log) + 1 else NoticesSinceCharge(log)
    ensures Notices(log + [e]) == Notices(log) + if e.Notified? then 1 else 0
  {
    assert (log + [e])[..|log|] == log;
    assert Charges(log) + [] == Charges(log);
  }

  // ---- charges are spaced -----------------------------------------------------------------------

  ghost predicate Spaced(times: seq<int>, gap: int) {
    forall i :: 0 <= i < |times| - 1 ==> times[i] + gap <= times[i + 1]
  }

  /** The next renewal is a full period after the last charge, and charges are that far apart. */
  ghost predicate SpacedSoFar(h: History, now: int) {
    var times, gap := Charges(h.log), MinGap(h.sub.frequency);
    && h.sub.nextRenewal.Valid()
    && Spaced(times, gap)
    && (times != [] ==> times[|times| - 1] <= now && times[|times| - 1] + gap <= h.sub.nextRenewal.Instant())
  }

  lemma SpacedAppend(times: seq<int>, gap: int, t: int)
    requires Spaced(times, gap) && (times != [] ==> times[|times| - 1] + gap <= t)
    ensures Spaced(times + [t], gap)
  {
  }

  lemma ChargeKeepsSpacing(h: History, now: int, at: DateTime)
    requires SpacedSoFar(h, now) && at.Valid() && now <= at.Instant() && Due(h.sub, at)
    ensures SpacedSoFar(Step(h, BillingSweep(at, true)), at.Instant())
  {
    var times, gap := Charges(h.log), MinGap(h.sub.frequency);
    var h' := Step(h, BillingSweep(at, true));
    SchedulesAgree(h.sub.frequency, at);
    LogNext(h.log, Charged(at));
    SpacedAppend(times, gap, at.Instant());
    assert Charges(h'.log) == times + [at.Instant()];
    assert h'.sub.nextRenewal == Advance(h.sub.frequency, at);
  }

  /** A step that charges nothing keeps the spacing, if it moves the date at all to a full period ahead. */
  lemma QuietKeepsSpacing(h: History, h': History, now: int, later: int)
    requires SpacedSoFar(h, now) && now <= later
    requires Charges(h'.log) == Charges(h.log) && h'.sub.frequency == h.sub.frequency
    requires h'.sub.nextRenewal == h.sub.nextRenewal
      || (h'.sub.nextRenewal.Valid() && later + MinGap(h.sub.frequency) <= h'.sub.nextRenewal.Instant())
    ensures SpacedSoFar(h', later)
  {
  }

  predicate IsCharge(h: History, e: Event) {
    e.BillingSweep? && Due(h.sub, e.now) && e.paid
  }

  lemma QuietStep(h: History, e: Event)
    requires e.now.Valid() && !IsCharge(h, e)
    ensures Charges(Step(h, e).log) == Charges(h.log) && Step(h, e).sub.frequency == h.sub.frequency
    ensures Step(h, e).sub.nextRenewal == h.sub.nextRenewal
         || Step(h, e).sub.nextRenewal == ComputeNextRenewal(e.now, h.sub.frequency)
  {
    LogNext(h.log, Refused(e.now));
    LogNext(h.log, Notified(e.now, h.sub.nextRenewal));
  }

  lemma StepKeepsSpacing(h: History, now: int, e: Event)
    requires SpacedSoFar(h, now) && e.now.Valid() && now <= e.now.Instant()
    ensures SpacedSoFar(Step(h, e), e.now.Instant()) && Step(h, e).sub.frequency == h.sub.frequency
  {
    if IsCharge(h, e) {
      ChargeKeepsSpacing(h, now, e.now);
    } else {
      QuietStep(h, e);
      SchedulesAgree(h.sub.frequency, e.now);
      QuietKeepsSpacing(h, Step(h, e), now, e.now.Instant());
    }
  }

  lemma {:induction false} RunSpaced(customer: nat, frequency: Frequency, start: DateTime, run: seq<Event>, now: int)
    requires start.Valid() && Timely(run)
    requires run != [] ==> now == run[|run| - 1].now.Instant()
    ensures SpacedSoFar(After(customer, frequency, start, run), now)
    ensures After(customer, frequency, start, run).sub.frequency == frequency
  {
    if run != [] {
      var before := run[..|run| - 1];
      var earlier := if before == [] then now else before[|before| - 1].now.Instant();
      RunSpaced(customer, frequency, start, before, earlier);
      StepKeepsSpacing(After(customer, frequency, start, before), earlier, run[|run| - 1]);
    }
  }

  /** Successive successful charges are at least 7 days (weekly) or 28 days (monthly) apart. */
  lemma ChargesSpaced(customer: nat, frequency: Frequency, start: DateTime, run: seq<Event>)
    requires start.Valid() && Timely(run)
    ensures Spaced(Charges(After(customer, frequency, start, run).log), MinGap(frequency))
  {
    RunSpaced(customer, frequency, start, run, if run == [] then 0 else run[|run| - 1].now.Instant());
  }

  /** The charges in the closed span lo..hi. */
  function Within(times: seq<int>, lo: int, hi: int): seq<int> {
    if times == [] then []
    else
      var t := times[|times| - 1];
      Within(times[..|times| - 1], lo, hi) + if lo <= t <= hi then [t] else []
  }

  lemma {:induction false} SpacedBound(times: seq<int>, gap: int, lo: int, hi: int)
    requires Spaced(times, gap) && gap > 0
    ensures var inside := Within(times, lo, hi);
      inside != [] ==>
        && lo <= inside[|inside| - 1] <= times[|times| - 1]
        && inside[|inside| - 1] <= hi
        && (|inside| - 1) * gap <= inside[|inside| - 1] - lo
  {
    if times != [] {
      var front, t := times[..|times| - 1], times[|times| - 1];
      SpacedBound(front, gap, lo, hi);
      var inside := Within(front, lo, hi);
      if inside != [] {
        assert (|inside| + 1 - 1) * gap == (|inside| - 1) * gap + gap;
      }
    }
  }

  /** So a span of `days` days sees at most days/7 + 1 (weekly) or days/28 + 1 (monthly) successful charges. */
  lemma ChargesInSpan(customer: nat, frequency: Frequency, start: DateTime, run: seq<Event>, lo: int, days: nat)
    requires start.Valid() && Timely(run)
    ensures |Within(Charges(After(customer, frequency, start, run).log), lo, lo + days * DAY)|
         <= days / (if frequency == Weekly then 7 else 28) + 1
  {
    var times := Charges(After(customer, frequency, start, run).log);
    ChargesSpaced(customer, frequency, start, run);
    SpacedBound(times, MinGap(frequency), lo, lo + days * DAY);
    var inside := Within(times, lo, lo + days * DAY);
    if inside != [] {
      SpanBound(|inside| - 1, frequency, days);
    }
  }

  lemma SpanBound(n: nat, frequency: Frequency, days: nat)
    requires n * MinGap(frequency) <= days * DAY
    ensures n <= days / (if frequency == Weekly then 7 else 28)
  {
    var p := if frequency == Weekly then 7 else 28;
    assert n * MinGap(frequency) == (n * p) * DAY;
    QuotientAtLeast(n, p, days);
  }

  lemma QuotientAtLeast(n: nat, p: int, days: nat)
    requires (p == 7 || p == 28) && n * p <= days
    ensures n <= days / p
  {
  }

  // ---- failures, statuses and notices -----------------------------------------------------------

  ghost predicate Consistent(h: History) {
    var s := h.sub;
    && s.failed == Failures(h.log) <= MAX_RENEWAL_ATTEMPTS
    && (s.status == Active || s.status == Paused ==> s.failed < MAX_RENEWAL_ATTEMPTS)
    && (s.status == PastDue ==> s.failed == MAX_RENEWAL_ATTEMPTS)
    && s.status != Expired
    && NoticesSinceCharge(h.log) == (if s.noticeSent then 1 else 0)
    && Notices(h.log) <= |Charges(h.log)| + NoticesSinceCharge(h.log)
    && (forall e :: e in h.log && e.Notified? ==>
          e.at.Instant() < e.renewal.Instant() <= e.at.Instant() + RENEWAL_NOTICE_DAYS * DAY)
  }

  lemma StepKeepsConsistent(h: History, e: Event)
    requires Consistent(h) && e.now.Valid()
    ensures Consistent(Step(h, e))
  {
    match e
    case BillingSweep(at, paid) =>
      LogNext(h.log, if paid then Charged(at) else Refused(at));
    case NoticeSweep(at) =>
      LogNext(h.log, Notified(at, h.sub.nextRenewal));
    case _ =>
  }

  /** Over every run: the counter is the number of refusals since the last success, at most one notice goes out
      between successes, and every notice precedes its renewal date by at most the notice period. */
  lemma {:induction false} RunConsistent(customer: nat, frequency: Frequency, start: DateTime, run: seq<Event>)
    requires start.Valid() && Timely(run)
    ensures Consistent(After(customer, frequency, start, run))
    ensures var log := After(customer, frequency, start, run).log; Notices(log) <= |Charges(log)| + 1
  {
    if run != [] {
      RunConsistent(customer, frequency, start, run[..|run| - 1]);
      StepKeepsConsistent(After(customer, frequency, start, run[..|run| - 1]), run[|run| - 1]);
    }
  }

  /** A run reaches PAST_DUE exactly by the third refusal in a row. */
  lemma PastDueOnThirdRefusal(h: History, e: Event)
    requires Consistent(h) && e.now.Valid() && h.sub.status != PastDue
    ensures Step(h, e).sub.status == PastDue <==>
      Step(h, e).log == h.log + [Refused(e.now)] && Failures(Step(h, e).log) == MAX_RENEWAL_ATTEMPTS
  {
    LogNext(h.log, Refused(e.now));
    LogNext(h.log, Charged(e.now));
    LogNext(h.log, Notified(e.now, h.sub.nextRenewal));
    assert |Step(h, e).log| <= |h.log| + 1;
  }

  function Continue(h: History, run: seq<Event>): History
    requires forall i :: 0 <= i < |run| ==> run[i].now.Valid()
  {
    if run == [] then h else Step(Continue(h, run[..|run| - 1]), run[|run| - 1])
  }

  /** Nothing that happens later changes a cancelled subscription or adds to its log. */
  lemma {:induction false} CancelledIsFinal(h: History, run: seq<Event>)
    requires h.sub.status == Cancelled && forall i :: 0 <= i < |run| ==> run[i].now.Valid()
    ensures Continue(h, run) == h
  {
    if run != [] {
      CancelledIsFinal(h, run[..|run| - 1]);
    }
  }

  /** A past-due subscription only ever stays as it is or is cancelled, and is never charged again. */
  lemma {:induction false} PastDueOnlyCancels(h: History, run: seq<Event>)
    requires h.sub.status == PastDue && forall i :: 0 <= i < |run| ==> run[i].now.Valid()
    ensures Continue(h, run).log == h.log
    ensures Continue(h, run) == h || Continue(h, run).sub.status == Cancelled
  {
    if run != [] {
      PastDueOnlyCancels(h, run[..|run| - 1]);
    }
  }

  /** Billing and notices stop while a subscription is paused. */
  lemma {:induction false} PausedIsNotBilled(h: History, run: seq<Event>)
    requires h.sub.status == Paused
    requires forall i :: 0 <= i < |run| ==> run[i].now.Valid() && !run[i].Resume?
    ensures Continue(h, run).log == h.log && Continue(h, run).sub.status in {Paused, Cancelled}
  {
    if run != [] {
      PausedIsNotBilled(h, run[..|run| - 1]);
    }
  }

  /** Not billable before an instant: whatever the status, the renewal date lies at or past it. */
  ghost predicate QuietUntil(h: History, instant: int) {
    h.sub.nextRenewal.Valid() && instant <= h.sub.nextRenewal.Instant()
  }

  lemma StepStaysQuiet(h: History, e: Event, instant: int)
    requires QuietUntil(h, instant) && e.now.Valid()
    requires e.now.Instant() < instant <= e.now.Instant() + MinGap(h.sub.frequency)
    ensures QuietUntil(Step(h, e), instant) && Step(h, e).sub.frequency == h.sub.frequency
    ensures Charges(Step(h, e).log) == Charges(h.log) && Failures(Step(h, e).log) == Failures(h.log)
  {
    assert !Due(h.sub, e.now);
    SchedulesAgree(h.sub.frequency, e.now);
    LogNext(h.log, Notified(e.now, h.sub.nextRenewal));
  }

  /** After resuming, no charge is tried for a full minimal period, whatever the customer does in it. */
  lemma {:induction false} ResumedWaitsAPeriod(h: History, at: DateTime, run: seq<Event>)
    requires h.sub.status == Paused && at.Valid()
    requires forall i :: 0 <= i < |run| ==>
      run[i].now.Valid() && at.Instant() <= run[i].now.Instant() < at.Instant() + MinGap(h.sub.frequency)
    ensures var h' := Continue(Step(h, Resume(at, h.sub.customer)), run);
      && QuietUntil(h', at.Instant() + MinGap(h.sub.frequency)) && h'.sub.frequency == h.sub.frequency
      && Charges(h'.log) == Charges(h.log) && Failures(h'.log) == Failures(h.log)
  {
    var resumed := Step(h, Resume(at, h.sub.customer));
    SchedulesAgree(h.sub.frequency, at);
    if run != [] {
      ResumedWaitsAPeriod(h, at, run[..|run| - 1]);
      StepStaysQuiet(Continue(resumed, run[..|run| - 1]), run[|run| - 1], at.Instant() + MinGap(h.sub.frequency));
    }
  }

  // ---- repeated sweeps --------------------------------------------------------------------------

  /** One billing sweep over all subscriptions, `paid[i]` deciding the i-th charge. */
  function SweepAll(subs: seq<Sub>, now: DateTime, paid: seq<bool>): (r: seq<Sub>)
    requires now.Valid() && |paid| == |subs|
    ensures |r| == |subs|
  {
    seq(|subs|, i requires 0 <= i < |subs| => RenewSub(subs[i], now, paid[i]))
  }

  function Sweeps(subs: seq<Sub>, now: DateTime, rounds: seq<seq<bool>>): (r: seq<Sub>)
    requires now.Valid() && forall k :: 0 <= k < |rounds| ==> |rounds[k]| == |subs|
    ensures |r| == |subs|
    decreases |rounds|
  {
    if rounds == [] then subs else Sweeps(SweepAll(subs, now, rounds[0]), now, rounds[1..])
  }

  /** Sweeps that can still find the subscription due. */
  function AttemptsLeft(s: Sub, now: DateTime): nat {
    if Due(s, now) && s.failed < MAX_RENEWAL_ATTEMPTS then MAX_RENEWAL_ATTEMPTS - s.failed else 0
  }

  lemma SweepUsesAnAttempt(s: Sub, now: DateTime, paid: bool)
    requires now.Valid() && (s.status == Active ==> s.failed < MAX_RENEWAL_ATTEMPTS)
    ensures var r := RenewSub(s, now, paid);
      && (r.status == Active ==> r.failed < MAX_RENEWAL_ATTEMPTS)
      && (Due(s, now) ==> AttemptsLeft(r, now) < AttemptsLeft(s, now))
      && (!Due(s, now) ==> r == s)
  {
    SchedulesAgree(s.frequency, now);
  }

  lemma {:induction false} SweepsExhaust(subs: seq<Sub>, now: DateTime, rounds: seq<seq<bool>>, i: nat)
    requires now.Valid() && i < |subs| && forall k :: 0 <= k < |rounds| ==> |rounds[k]| == |subs|
    requires subs[i].status == Active ==> subs[i].failed < MAX_RENEWAL_ATTEMPTS
    ensures AttemptsLeft(subs[i], now) <= |rounds| ==> !Due(Sweeps(subs, now, rounds)[i], now)
    decreases |rounds|
  {
    if rounds != [] {
      SweepUsesAnAttempt(subs[i], now, rounds[0][i]);
      SweepsExhaust(SweepAll(subs, now, rounds[0]), now, rounds[1..], i);
    }
  }

  /** Three sweeps at one time, whatever the payments service answers, leave no subscription due. */
  lemma ThreeSweepsSettle(subs: seq<Sub>, now: DateTime, rounds: seq<seq<bool>>)
    requires now.Valid() && |rounds| >= MAX_RENEWAL_ATTEMPTS && forall k :: 0 <= k < |rounds| ==> |rounds[k]| == |subs|
    requires forall i :: 0 <= i < |subs| && subs[i].status == Active ==> subs[i].failed < MAX_RENEWAL_ATTEMPTS
    ensures forall i :: 0 <= i < |subs| ==> !Due(Sweeps(subs, now, rounds)[i], now)
  {
    forall i | 0 <= i < |subs| ensures !Due(Sweeps(subs, now, rounds)[i], now) {
      SweepsExhaust(subs, now, rounds, i);
    }
  }
}
