/** Recurring subscriptions: the customer's lifecycle calls and the two hourly sweeps. */
module Subscriptions {
  import opened Wrappers
  import opened CivilDate

  datatype Frequency = Weekly | Monthly {
    function Value(): string {
      match this case Weekly => "weekly" case Monthly => "monthly"
    }
  }

  datatype Status = Active | Paused | Cancelled | PastDue | Expired

  const MAX_RENEWAL_ATTEMPTS: nat := 3

  const RENEWAL_NOTICE_DAYS: nat := 3

  /** The service's schedule: one period after `start`. */
  function ComputeNextRenewal(start: DateTime, frequency: Frequency): (r: DateTime)
    requires start.Valid()
    ensures r.Valid()
  {
    if frequency == Weekly then AddDays(start, 7) else AddMonth(start)
  }

  /** The sweep's own schedule, which tests the frequency's string value. */
  function Advance(frequency: Frequency, now: DateTime): (r: DateTime)
    requires now.Valid()
    ensures r.Valid()
  {
    if frequency.Value() == "weekly" then AddDays(now, 7) else AddMonth(now)
  }

  /** The shortest time, in microseconds, a period can last. */
  function MinGap(frequency: Frequency): int {
    if frequency == Weekly then 7 * DAY else 28 * DAY
  }

  /** The two schedules agree, and put the next renewal a week, or 28 to 31 days, ahead. */
  lemma SchedulesAgree(frequency: Frequency, now: DateTime)
    requires now.Valid()
    ensures Advance(frequency, now) == ComputeNextRenewal(now, frequency)
    ensures var gap := Advance(frequency, now).Instant() - now.Instant();
      if frequency == Weekly then gap == 7 * DAY else 28 * DAY <= gap <= 31 * DAY
  {
    assert frequency.Value()[0] == if frequency == Weekly then 'w' else 'm';
  }

  datatype Sub = Sub(
    customer: nat, frequency: Frequency, status: Status, nextRenewal: DateTime, lastRenewed: Option<DateTime>,
    failed: nat, noticeSent: bool, pausedAt: Option<DateTime>, cancelledAt: Option<DateTime>, reason: Option<string>)

  function Created(customer: nat, frequency: Frequency, start: DateTime): Sub
    requires start.Valid()
  {
    Sub(customer, frequency, Active, ComputeNextRenewal(start, frequency), None, 0, false, None, None, None)
  }

  // ---- one subscription, one step ---------------------------------------------------------------

  function PauseSub(s: Sub, caller: nat, now: DateTime): (Sub, Outcome) {
    if s.customer != caller then (s, Forbidden)
    else if s.status != Active then (s, BadRequest)
    else (s.(status := Paused, pausedAt := Some(now)), Done)
  }

  function ResumeSub(s: Sub, caller: nat, now: DateTime): (Sub, Outcome)
    requires now.Valid()
  {
    if s.customer != caller then (s, Forbidden)
    else if s.status != Paused then (s, BadRequest)
    else (s.(status := Active, pausedAt := None, nextRenewal := ComputeNextRenewal(now, s.frequency)), Done)
  }

  function CancelSub(s: Sub, caller: nat, now: DateTime, reason: Option<string>): (Sub, Outcome) {
    if s.customer != caller then (s, Forbidden)
    else if s.status == Cancelled then (s, BadRequest)
    else (s.(status := Cancelled, cancelledAt := Some(now), reason := reason), Done)
  }

  predicate Due(s: Sub, now: DateTime) {
    s.status == Active && s.nextRenewal.NotAfter(now)
  }

  /** What a sweep makes of a subscription, `paid` telling whether the payments service takes the charge. */
  function RenewSub(s: Sub, now: DateTime, paid: bool): Sub
    requires now.Valid()
  {
    if !Due(s, now) then s
    else if paid then
      s.(lastRenewed := Some(now), failed := 0, noticeSent := false, nextRenewal := Advance(s.frequency, now))
    else
      s.(failed := s.failed + 1, status := if s.failed + 1 >= MAX_RENEWAL_ATTEMPTS then PastDue else s.status)
  }

  predicate NoticeDue(s: Sub, now: DateTime) {
    && s.status == Active
    && now.Instant() < s.nextRenewal.Instant() <= now.Instant() + RENEWAL_NOTICE_DAYS * DAY
    && !s.noticeSent
  }

  function NoticeSub(s: Sub, now: DateTime): Sub {
    if NoticeDue(s, now) then s.(noticeSent := true) else s
  }

  // ---- the objects ------------------------------------------------------------------------------

  class Subscription {
    const id: nat
    const customer: nat
    const frequency: Frequency
    var status: Status
    var nextRenewal: DateTime
    var lastRenewed: Option<DateTime>
    var failed: nat
    var noticeSent: bool
    var pausedAt: Option<DateTime>
    var cancelledAt: Option<DateTime>
    var reason: Option<string>

    function State(): Sub
      reads this
    {
      Sub(customer, frequency, status, nextRenewal, lastRenewed, failed, noticeSent, pausedAt, cancelledAt, reason)
    }

    /** `create_subscription`; `start` is the requested start date, or the present. */
    constructor (id: nat, customer: nat, frequency: Frequency, start: DateTime)
      requires start.Valid()
      ensures this.id == id && State() == Created(customer, frequency, start)
    {
      this.id, this.customer, this.frequency := id, customer, frequency;
      status, nextRenewal := Active, ComputeNextRenewal(start, frequency);
      lastRenewed, failed, noticeSent := None, 0, false;
      pausedAt, cancelledAt, reason := None, None, None;
    }

    method Pause(caller: nat, now: DateTime) returns (outcome: Outcome)
      modifies this
      ensures (State(), outcome) == PauseSub(old(State()), caller, now)
      ensures outcome == Done <==> caller == customer && old(status) == Active
      ensures outcome == Done ==> status == Paused && pausedAt == Some(now)
    {
      if customer != caller {
        return Forbidden;
      }
      if status != Active {
        return BadRequest;
      }
      status := Paused;
      pausedAt := Some(now);
      return Done;
    }

    method Resume(caller: nat, now: DateTime) returns (outcome: Outcome)
      requires now.Valid()
      modifies this
      ensures (State(), outcome) == ResumeSub(old(State()), caller, now)
      ensures outcome == Done <==> caller == customer && old(status) == Paused
      ensures outcome == Done ==> status == Active && pausedAt == None
    {
      if customer != caller {
        return Forbidden;
      }
      if status != Paused {
        return BadRequest;
      }
      status := Active;
      pausedAt := None;
      nextRenewal := ComputeNextRenewal(now, frequency);
      return Done;
    }

    method Cancel(caller: nat, now: DateTime, why: Option<string>) returns (outcome: Outcome)
      modifies this
      ensures (State(), outcome) == CancelSub(old(State()), caller, now, why)
      ensures outcome == Done <==> caller == customer && old(status) != Cancelled
      ensures outcome == Done ==> status == Cancelled && cancelledAt == Some(now) && reason == why
    {
      if customer != caller {
        return Forbidden;
      }
      if status == Cancelled {
        return BadRequest;
      }
      status := Cancelled;
      cancelledAt := Some(now);
      reason := why;
      return Done;
    }

    /** A sweep's charge went through, or was refused. */
    method Charge(now: DateTime, paid: bool)
      requires now.Valid() && Due(State(), now)
      modifies this
      ensures State() == RenewSub(old(State()), now, paid)
    {
      if paid {
        lastRenewed := Some(now);
        failed := 0;
        noticeSent := false;
        nextRenewal := Advance(frequency, now);
      } else {
        failed := failed + 1;
        if failed >= MAX_RENEWAL_ATTEMPTS {
          status := PastDue;
        }
      }
    }

    /** A reminder was queued. */
    method Noticed(now: DateTime)
      requires NoticeDue(State(), now)
      modifies this
      ensures State() == NoticeSub(old(State()), now)
    {
      noticeSent := true;
    }
  }

  // ---- the sweeps -------------------------------------------------------------------------------

  ghost predicate AllDifferent(subs: seq<Subscription>) {
    forall i, j :: 0 <= i < j < |subs| ==> subs[i] != subs[j]
  }

  /** The first query: active subscriptions whose renewal date has passed. */
  function DueSubs(subs: seq<Subscription>, now: DateTime): (due: seq<Subscription>)
    reads subs
    ensures forall s :: s in due ==> s in subs && Due(s.State(), now)
    ensures forall s :: s in subs && Due(s.State(), now) ==> s in due
  {
    if subs == [] then []
    else
      var rest := DueSubs(subs[1..], now);
      if Due(subs[0].State(), now) then [subs[0]] + rest else rest
  }

  /** The second query: active subscriptions that renew soon and were not told. */
  function UpcomingSubs(subs: seq<Subscription>, now: DateTime): (upcoming: seq<Subscription>)
    reads subs
    ensures forall s :: s in upcoming ==> s in subs && NoticeDue(s.State(), now)
    ensures forall s :: s in subs && NoticeDue(s.State(), now) ==> s in upcoming
  {
    if subs == [] then []
    else
      var rest := UpcomingSubs(subs[1..], now);
      if NoticeDue(subs[0].State(), now) then [subs[0]] + rest else rest
  }

  lemma {:induction false} QueriesKeepRowsApart(subs: seq<Subscription>, now: DateTime)
    requires AllDifferent(subs)
    ensures AllDifferent(DueSubs(subs, now)) && AllDifferent(UpcomingSubs(subs, now))
  {
    if subs != [] {
      QueriesKeepRowsApart(subs[1..], now);
      var due, upcoming := DueSubs(subs[1..], now), UpcomingSubs(subs[1..], now);
      assert subs[0] !in subs[1..];
      assert forall i :: 0 <= i < |due| ==> due[i] in due;
      assert forall i :: 0 <= i < |upcoming| ==> upcoming[i] in upcoming;
    }
  }

  ghost function States(subs: seq<Subscription>): (states: seq<Sub>)
    reads subs
    ensures |states| == |subs|
    ensures forall i :: 0 <= i < |subs| ==> states[i] == subs[i].State()
  {
    if subs == [] then [] else States(subs[..|subs| - 1]) + [subs[|subs| - 1].State()]
  }

  /** The reminders for some rows: each names the row and its renewal date. */
  function Reminders(subs: seq<Subscription>): (queue: seq<(nat, DateTime)>)
    reads subs
    ensures |queue| == |subs|
    ensures forall i :: 0 <= i < |subs| ==> queue[i] == (subs[i].id, subs[i].nextRenewal)
  {
    if subs == [] then []
    else
      var last := subs[|subs| - 1];
      Reminders(subs[..|subs| - 1]) + [(last.id, last.nextRenewal)]
  }

  /** How many of the rows the payments service takes. */
  function CountPaid(subs: seq<Subscription>, accepted: set<nat>): nat {
    if subs == [] then 0
    else CountPaid(subs[..|subs| - 1], accepted) + if subs[|subs| - 1].id in accepted then 1 else 0
  }

  /** The billing loop over the rows of the query; `accepted` holds the ids whose charge the payments service takes. */
  method ChargeRows(due: seq<Subscription>, now: DateTime, accepted: set<nat>)
    returns (processed: nat, succeeded: nat, failed: nat)
    requires AllDifferent(due) && now.Valid()
    requires forall j :: 0 <= j < |due| ==> Due(due[j].State(), now)
    modifies due
    ensures forall j :: 0 <= j < |due| ==> due[j].State() == RenewSub(old(States(due))[j], now, due[j].id in accepted)
    ensures processed == succeeded + failed == |due|
    ensures succeeded == CountPaid(due, accepted)
  {
    processed, succeeded, failed := 0, 0, 0;
    ghost var was := States(due);
    for i := 0 to |due|
      invariant processed == i && succeeded + failed == i
      invariant succeeded == CountPaid(due[..i], accepted)
      invariant forall j :: 0 <= j < i ==> due[j].State() == RenewSub(was[j], now, due[j].id in accepted)
      invariant forall j :: i <= j < |due| ==> due[j].State() == was[j]
    {
      var sub := due[i];
      assert due[..i + 1][..i] == due[..i];
      processed := processed + 1;
      var paid := sub.id in accepted;
      assert forall j :: 0 <= j < |due| && j != i ==> due[j] != sub;
      sub.Charge(now, paid);
      assert sub.State() == RenewSub(was[i], now, paid);
      if paid {
        succeeded := succeeded + 1;
      } else {
        failed := failed + 1;
      }
    }
    assert due[..|due|] == due;
  }

  /** The billing sweep. */
  method ProcessDueRenewals(subs: seq<Subscription>, now: DateTime, accepted: set<nat>)
    returns (processed: nat, succeeded: nat, failed: nat)
    requires AllDifferent(subs) && now.Valid()
    modifies subs
    ensures forall s :: s in subs ==> s.State() == RenewSub(old(s.State()), now, s.id in accepted)
    ensures processed == succeeded + failed == |old(DueSubs(subs, now))|
    ensures succeeded == CountPaid(old(DueSubs(subs, now)), accepted)
  {
    var due := DueSubs(subs, now);
    QueriesKeepRowsApart(subs, now);
    assert forall i :: 0 <= i < |due| ==> due[i] in due;
    ghost var was := States(due);
    processed, succeeded, failed := ChargeRows(due, now, accepted);
    forall s | s in due ensures s.State() == RenewSub(old(s.State()), now, s.id in accepted) {
      var j :| 0 <= j < |due| && due[j] == s;
    }
  }

  /** The reminder loop: one queued message per row, naming the renewal date. */
  method RemindRows(upcoming: seq<Subscription>, now: DateTime) returns (notified: nat, queued: seq<(nat, DateTime)>)
    requires AllDifferent(upcoming) && now.Valid()
    requires forall s :: s in upcoming ==> NoticeDue(s.State(), now)
    modifies upcoming
    ensures forall s :: s in upcoming ==> s.State() == NoticeSub(old(s.State()), now)
    ensures notified == |upcoming| && queued == old(Reminders(upcoming))
  {
    notified, queued := 0, [];
    ghost var was, reminders := States(upcoming), Reminders(upcoming);
    for i := 0 to |upcoming|
      invariant notified == i && queued == reminders[..i]
      invariant forall j :: 0 <= j < i ==> upcoming[j].State() == NoticeSub(was[j], now)
      invariant forall j :: i <= j < |upcoming| ==> upcoming[j].State() == was[j]
    {
      var sub := upcoming[i];
      assert sub.State() == was[i];
      queued := queued + [(sub.id, sub.nextRenewal)];
      sub.Noticed(now);
      notified := notified + 1;
    }
  }

  /** The notice sweep. */
  method SendUpcomingRenewalNotices(subs: seq<Subscription>, now: DateTime)
    returns (notified: nat, queued: seq<(nat, DateTime)>)
    requires AllDifferent(subs) && now.Valid()
    modifies subs
    ensures forall s :: s in subs ==> s.State() == NoticeSub(old(s.State()), now)
    ensures notified == |old(UpcomingSubs(subs, now))|
    ensures queued == old(Reminders(UpcomingSubs(subs, now)))
  {
    var upcoming := UpcomingSubs(subs, now);
    QueriesKeepRowsApart(subs, now);
    assert forall i :: 0 <= i < |upcoming| ==> upcoming[i] in upcoming;
    notified, queued := RemindRows(upcoming, now);
  }
}
