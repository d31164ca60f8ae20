/** What each customer call and each sweep does to a subscription, said in terms of its columns alone, and where its
    dates come from over every run. */
module SubscriptionLaws {
  import opened Wrappers
  import opened CivilDate
  import opened Subscriptions
  import opened SubscriptionRuns

  /** `next` is exactly seven days after `t`, or the same day and time of the next month, clamped to its last day. */
  ghost predicate PeriodAfter(frequency: Frequency, t: DateTime, next: DateTime) {
    && next.Valid()
    && (frequency == Weekly ==> next.Instant() == t.Instant() + 7 * 86_400_000_000)
    && (frequency == Monthly ==>
          && next.micros == t.micros
          && (next.date.year, next.date.month)
             == (if t.date.month == 12 then (t.date.year + 1, 1) else (t.date.year, t.date.month + 1))
          && next.date.day <= t.date.day
          && (next.date.day < t.date.day ==> next.date.day == DaysInMonth(next.date.year, next.date.month)))
  }

  lemma ScheduledIsPeriodAfter(frequency: Frequency, t: DateTime)
    requires t.Valid()
    ensures PeriodAfter(frequency, t, ComputeNextRenewal(t, frequency))
    ensures PeriodAfter(frequency, t, Advance(frequency, t))
  {
    SchedulesAgree(frequency, t);
  }

  /** The calendar's month lengths. */
  lemma MonthLengths(year: int)
    ensures seq(12, i requires 0 <= i < 12 => DaysInMonth(year, i + 1))
         == [31, if year % 4 == 0 && (year % 100 != 0 || year % 400 == 0) then 29 else 28, 31, 30, 31, 30,
             31, 31, 30, 31, 30, 31]
  {
  }

  // ---- the customer's calls ---------------------------------------------------------------------

  /** Calls by anyone but the customer are refused and change nothing. */
  lemma StrangersChangeNothing(h: History, at: DateTime, caller: nat, why: Option<string>)
    requires at.Valid() && caller != h.sub.customer
    ensures Step(h, Pause(at, caller)) == h && PauseSub(h.sub, caller, at).1 == Forbidden
    ensures Step(h, Resume(at, caller)) == h && ResumeSub(h.sub, caller, at).1 == Forbidden
    ensures Step(h, Cancel(at, caller, why)) == h && CancelSub(h.sub, caller, at, why).1 == Forbidden
  {
  }

  /** Cancelling cancels, whatever the status was: the call is recorded, and whatever happens later the log stays
      as it was, so no charge and no notice follows. A second cancel is refused. */
  lemma CancelTakesEffect(h: History, at: DateTime, why: Option<string>, run: seq<Event>)
    requires at.Valid() && forall i :: 0 <= i < |run| ==> run[i].now.Valid()
    ensures var s', outcome := CancelSub(h.sub, h.sub.customer, at, why).0, CancelSub(h.sub, h.sub.customer, at, why).1;
      if h.sub.status == Cancelled then s' == h.sub && outcome == BadRequest
      else s' == h.sub.(status := Cancelled, cancelledAt := Some(at), reason := why) && outcome == Done
    ensures var h' := Continue(Step(h, Cancel(at, h.sub.customer, why)), run);
      h'.sub.status == Cancelled && h'.log == h.log
  {
    CancelledIsFinal(Step(h, Cancel(at, h.sub.customer, why)), run);
  }

  ghost predicate OwnerDoesNotResume(customer: nat, run: seq<Event>) {
    forall i :: 0 <= i < |run| ==> run[i].now.Valid() && !(run[i].Resume? && run[i].caller == customer)
  }

  lemma {:induction false} StaysPaused(h: History, run: seq<Event>)
    requires h.sub.status == Paused && OwnerDoesNotResume(h.sub.customer, run)
    ensures var h' := Continue(h, run);
      h'.log == h.log && h'.sub.status in {Paused, Cancelled} && h'.sub.customer == h.sub.customer
  {
    if run != [] {
      StaysPaused(h, run[..|run| - 1]);
    }
  }

  /** Pausing an active subscription pauses it: no charge and no notice until its owner resumes it. */
  lemma PauseTakesEffect(h: History, at: DateTime, run: seq<Event>)
    requires at.Valid() && OwnerDoesNotResume(h.sub.customer, run)
    ensures var s', outcome := PauseSub(h.sub, h.sub.customer, at).0, PauseSub(h.sub, h.sub.customer, at).1;
      if h.sub.status == Active then s' == h.sub.(status := Paused, pausedAt := Some(at)) && outcome == Done
      else s' == h.sub && outcome == BadRequest
    ensures h.sub.status == Active ==>
      var h' := Continue(Step(h, Pause(at, h.sub.customer)), run);
      h'.log == h.log && h'.sub.status in {Paused, Cancelled}
  {
    if h.sub.status == Active {
      StaysPaused(Step(h, Pause(at, h.sub.customer)), run);
    }
  }

  /** Resuming a paused subscription puts it back to active, due a full period later; nothing else changes. */
  lemma ResumeTakesEffect(h: History, at: DateTime)
    requires at.Valid()
    ensures var s', outcome := ResumeSub(h.sub, h.sub.customer, at).0, ResumeSub(h.sub, h.sub.customer, at).1;
      if h.sub.status == Paused then
        && s' == h.sub.(status := Active, pausedAt := None, nextRenewal := s'.nextRenewal)
        && PeriodAfter(h.sub.frequency, at, s'.nextRenewal) && outcome == Done
      else s' == h.sub && outcome == BadRequest
  {
    ScheduledIsPeriodAfter(h.sub.frequency, at);
  }

  // ---- the sweeps -------------------------------------------------------------------------------

  /** A sweep bills exactly the active rows whose date has come. A paid charge is logged, clears the attempts and the
      flag, and moves the date to exactly a period after the sweep; a refused one counts, the third ending in
      PAST_DUE. Every other row is left alone. */
  lemma SweepBills(h: History, at: DateTime, paid: bool)
    requires at.Valid()
    ensures var s, h' := h.sub, Step(h, BillingSweep(at, paid));
      if s.status != Active || at.Instant() < s.nextRenewal.Instant() then h' == h
      else if paid then
        && h'.log == h.log + [Charged(at)] && PeriodAfter(s.frequency, at, h'.sub.nextRenewal)
        && h'.sub == s.(lastRenewed := Some(at), failed := 0, noticeSent := false, nextRenewal := h'.sub.nextRenewal)
      else
        && h'.log == h.log + [Refused(at)]
        && h'.sub == s.(failed := s.failed + 1, status := if s.failed + 1 >= 3 then PastDue else Active)
  {
    ScheduledIsPeriodAfter(h.sub.frequency, at);
  }

  /** A notice goes out exactly to active, unflagged rows that renew later, within three days. */
  lemma SweepReminds(h: History, at: DateTime)
    requires at.Valid()
    ensures var s, h' := h.sub, Step(h, NoticeSweep(at));
      var next, now := s.nextRenewal.Instant(), at.Instant();
      if s.status == Active && now < next <= now + 3 * 86_400_000_000 && !s.noticeSent
      then h' == History(s.(noticeSent := true), h.log + [Notified(at, s.nextRenewal)])
      else h' == h
  {
  }

  /** A new subscription is active and clean, due a period after its start. */
  lemma StartsClean(customer: nat, frequency: Frequency, start: DateTime)
    requires start.Valid()
    ensures var h := After(customer, frequency, start, []);
      && PeriodAfter(frequency, start, h.sub.nextRenewal) && h.log == []
      && h.sub == Sub(customer, frequency, Active, h.sub.nextRenewal, None, 0, false, None, None, None)
  {
    ScheduledIsPeriodAfter(frequency, start);
  }

  /** The successes a sweep reports are the rows whose charge the payments service takes. */
  lemma {:induction false} PaidAreCounted(subs: seq<Subscription>, accepted: set<nat>)
    ensures CountPaid(subs, accepted) == |set i: nat | i < |subs| && subs[i].id in accepted|
  {
    var all := set i: nat | i < |subs| && subs[i].id in accepted;
    if subs == [] {
      assert all == {};
    } else {
      var n := |subs| - 1;
      var most := set i: nat | i < n && subs[..n][i].id in accepted;
      PaidAreCounted(subs[..n], accepted);
      assert all == most + if subs[n].id in accepted then {n} else {};
    }
  }

  // ---- where the dates come from, over every run ------------------------------------------------

  /** When the date was last set: by a paid charge, by the owner resuming, or at the start. */
  function LastSet(customer: nat, frequency: Frequency, start: DateTime, run: seq<Event>): DateTime
    requires start.Valid() && forall i :: 0 <= i < |run| ==> run[i].now.Valid()
  {
    if run == [] then start
    else
      var before, e := run[..|run| - 1], run[|run| - 1];
      var s := After(customer, frequency, start, before).sub;
      if e.BillingSweep? && e.paid && s.status == Active && s.nextRenewal.Instant() <= e.now.Instant() then e.now
      else if e.Resume? && e.caller == customer && s.status == Paused then e.now
      else LastSet(customer, frequency, start, before)
  }

  /** The last charge in a log. */
  function LastCharge(log: seq<Effect>): Option<DateTime> {
    if log == [] then None
    else if log[|log| - 1].Charged? then Some(log[|log| - 1].at)
    else LastCharge(log[..|log| - 1])
  }

  lemma StepKeepsIdentity(h: History, e: Event)
    requires e.now.Valid()
    ensures Step(h, e).sub.customer == h.sub.customer && Step(h, e).sub.frequency == h.sub.frequency
  {
  }

  lemma LastChargeNext(log: seq<Effect>, e: Effect)
    ensures LastCharge(log + [e]) == if e.Charged? then Some(e.at) else LastCharge(log)
  {
    assert (log + [e])[..|log|] == log;
  }

  lemma StepKeepsLastRenewed(h: History, e: Event)
    requires e.now.Valid() && h.sub.lastRenewed == LastCharge(h.log)
    ensures Step(h, e).sub.lastRenewed == LastCharge(Step(h, e).log)
  {
    LastChargeNext(h.log, Charged(e.now));
    LastChargeNext(h.log, Refused(e.now));
    LastChargeNext(h.log, Notified(e.now, h.sub.nextRenewal));
  }

  lemma DateNext(h: History, e: Event, from: DateTime)
    requires e.now.Valid() && PeriodAfter(h.sub.frequency, from, h.sub.nextRenewal)
    ensures var s := h.sub;
      PeriodAfter(s.frequency,
        if e.BillingSweep? && e.paid && s.status == Active && s.nextRenewal.Instant() <= e.now.Instant() then e.now
        else if e.Resume? && e.caller == s.customer && s.status == Paused then e.now
        else from,
        Step(h, e).sub.nextRenewal)
  {
    ScheduledIsPeriodAfter(h.sub.frequency, e.now);
  }

  /** Over every run the renewal date is exactly one period after it was last set, and the last renewal is the last
      charge in the log. */
  lemma {:induction false} DatesComeFrom(customer: nat, frequency: Frequency, start: DateTime, run: seq<Event>)
    requires start.Valid() && forall i :: 0 <= i < |run| ==> run[i].now.Valid()
    ensures var h := After(customer, frequency, start, run);
      && h.sub.customer == customer && h.sub.frequency == frequency
      && PeriodAfter(frequency, LastSet(customer, frequency, start, run), h.sub.nextRenewal)
      && h.sub.lastRenewed == LastCharge(h.log)
  {
    if run == [] {
      StartsClean(customer, frequency, start);
    } else {
      var before, e := run[..|run| - 1], run[|run| - 1];
      var h := After(customer, frequency, start, before);
      DatesComeFrom(customer, frequency, start, before);
      StepKeepsIdentity(h, e);
      StepKeepsLastRenewed(h, e);
      DateNext(h, e, LastSet(customer, frequency, start, before));
    }
  }
}
