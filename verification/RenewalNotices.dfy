/** When a renewal date is announced before it is charged, over every run. */
module RenewalNotices {
  import opened CivilDate
  import opened Subscriptions
  import opened SubscriptionRuns

  ghost predicate AllValid(run: seq<Event>) {
    forall i :: 0 <= i < |run| ==> run[i].now.Valid()
  }

  /** The only steps that set a renewal date: an accepted charge, and the owner resuming a paused subscription. */
  predicate MovesDate(h: History, e: Event) {
    IsCharge(h, e) || (e.Resume? && h.sub.status == Paused && e.caller == h.sub.customer)
  }

  ghost predicate KeepsDate(h: History, run: seq<Event>)
    requires AllValid(run)
  {
    forall i :: 0 <= i < |run| ==> !MovesDate(Continue(h, run[..i]), run[i])
  }

  /** Some message names the date. */
  ghost predicate Announced(log: seq<Effect>, renewal: DateTime) {
    exists e :: e in log && e.Notified? && e.renewal == renewal
  }

  /** A notice sweep that finds the subscription active within the notice period before its renewal date. */
  predicate SweepsInPeriod(h: History, e: Event) {
    && e.NoticeSweep? && h.sub.status == Active
    && e.now.Instant() < h.sub.nextRenewal.Instant() <= e.now.Instant() + RENEWAL_NOTICE_DAYS * DAY
  }

  ghost predicate SweptInPeriod(h: History, run: seq<Event>)
    requires AllValid(run)
  {
    exists i :: 0 <= i < |run| && SweepsInPeriod(Continue(h, run[..i]), run[i])
  }

  // ---- one date ---------------------------------------------------------------------------------

  lemma PrefixKeepsDate(h: History, run: seq<Event>, e: Event)
    requires AllValid(run + [e]) && KeepsDate(h, run + [e])
    ensures AllValid(run) && KeepsDate(h, run) && e.now.Valid() && !MovesDate(Continue(h, run), e)
  {
    var all := run + [e];
    assert all[|run|] == e && all[..|run|] == run;
    forall i | 0 <= i < |run| ensures run[i].now.Valid() {
      assert all[i] == run[i];
    }
    forall i | 0 <= i < |run| ensures !MovesDate(Continue(h, run[..i]), run[i]) {
      assert all[i] == run[i] && all[..i] == run[..i];
    }
  }

  lemma SweptStays(h: History, run: seq<Event>, e: Event)
    requires AllValid(run) && AllValid(run + [e]) && SweptInPeriod(h, run)
    ensures SweptInPeriod(h, run + [e])
  {
    var i :| 0 <= i < |run| && SweepsInPeriod(Continue(h, run[..i]), run[i]);
    assert (run + [e])[i] == run[i] && (run + [e])[..i] == run[..i];
  }

  lemma SweptNext(h: History, run: seq<Event>, e: Event)
    requires AllValid(run) && AllValid(run + [e])
    ensures SweptInPeriod(h, run + [e]) <==> SweptInPeriod(h, run) || SweepsInPeriod(Continue(h, run), e)
  {
    var all := run + [e];
    assert all[|run|] == e && all[..|run|] == run;
    if SweptInPeriod(h, run) {
      SweptStays(h, run, e);
    }
    if SweptInPeriod(h, all) && !SweepsInPeriod(Continue(h, run), e) {
      var i :| 0 <= i < |all| && SweepsInPeriod(Continue(h, all[..i]), all[i]);
      assert all[i] == run[i] && all[..i] == run[..i];
    }
  }

  lemma AnnouncedNext(log: seq<Effect>, from: nat, e: Effect, renewal: DateTime)
    requires from <= |log|
    ensures Announced((log + [e])[from..], renewal) <==>
      Announced(log[from..], renewal) || (e.Notified? && e.renewal == renewal)
  {
    assert (log + [e])[from..] == log[from..] + [e];
  }

  lemma StepLog(h: History, e: Event)
    requires e.now.Valid() && !MovesDate(h, e)
    ensures var h' := Step(h, e);
      && h'.sub.nextRenewal == h.sub.nextRenewal
      && (h'.sub.noticeSent <==> h.sub.noticeSent || SweepsInPeriod(h, e))
      && (if !h.sub.noticeSent && SweepsInPeriod(h, e)
          then h'.log == h.log + [Notified(e.now, h.sub.nextRenewal)]
          else h'.log == h.log || h'.log == h.log + [Refused(e.now)])
  {
  }

  /** A step that leaves the date alone charges nothing, and raises the flag exactly when it announces the date. */
  lemma StepAnnounces(h: History, e: Event, from: nat)
    requires e.now.Valid() && !MovesDate(h, e) && from <= |h.log|
    ensures var h' := Step(h, e);
      && h.log <= h'.log && h'.sub.nextRenewal == h.sub.nextRenewal && Charges(h'.log) == Charges(h.log)
      && (h'.sub.noticeSent <==> h.sub.noticeSent || SweepsInPeriod(h, e))
      && (Announced(h'.log[from..], h.sub.nextRenewal) <==>
            Announced(h.log[from..], h.sub.nextRenewal) || (!h.sub.noticeSent && SweepsInPeriod(h, e)))
  {
    StepLog(h, e);
    if Step(h, e).log != h.log {
      var effect := Step(h, e).log[|h.log|];
      AnnouncedNext(h.log, from, effect, h.sub.nextRenewal);
      LogNext(h.log, effect);
    }
  }

  /** While a date stands it is announced exactly when the flag was down at the start and some notice sweep
      finds the subscription active within the notice period; the flag says whether that has happened. */
  lemma {:induction false} AnnouncedIff(h: History, run: seq<Event>)
    requires AllValid(run) && KeepsDate(h, run)
    ensures h.log <= Continue(h, run).log && Charges(Continue(h, run).log) == Charges(h.log)
    ensures Continue(h, run).sub.nextRenewal == h.sub.nextRenewal
    ensures Continue(h, run).sub.noticeSent <==> h.sub.noticeSent || SweptInPeriod(h, run)
    ensures Announced(Continue(h, run).log[|h.log|..], h.sub.nextRenewal) <==>
      !h.sub.noticeSent && SweptInPeriod(h, run)
  {
    if run != [] {
      var front, e := run[..|run| - 1], run[|run| - 1];
      assert run == front + [e];
      PrefixKeepsDate(h, front, e);
      AnnouncedIff(h, front);
      SweptNext(h, front, e);
      StepAnnounces(Continue(h, front), e, |h.log|);
    }
  }

  lemma {:induction false} AfterContinues(
      customer: nat, frequency: Frequency, start: DateTime, before: seq<Event>, rest: seq<Event>)
    requires start.Valid() && AllValid(before) && AllValid(rest)
    ensures AllValid(before + rest)
    ensures After(customer, frequency, start, before + rest)
         == Continue(After(customer, frequency, start, before), rest)
  {
    if rest == [] {
      assert before + rest == before;
    } else {
      var front, e := rest[..|rest| - 1], rest[|rest| - 1];
      AfterContinues(customer, frequency, start, before, front);
      assert before + rest == (before + front) + [e];
      assert (before + rest)[..|before + rest| - 1] == before + front;
    }
  }

  /** Over every run, from any moment to the next step that sets a date: the date is announced in that time exactly
      when no notice had gone out since the last charge, and a notice sweep finds the subscription active in period.
      So what creating or charging sets needs only the sweep; what resuming sets needs that no notice was out. */
  lemma {:induction false} DateAnnouncedIff(
      customer: nat, frequency: Frequency, start: DateTime, before: seq<Event>, rest: seq<Event>)
    requires start.Valid() && Timely(before + rest) && AllValid(before) && AllValid(rest)
    requires KeepsDate(After(customer, frequency, start, before), rest)
    ensures var h := After(customer, frequency, start, before);
      var log := After(customer, frequency, start, before + rest).log;
      h.log <= log &&
      (Announced(log[|h.log|..], h.sub.nextRenewal) <==> NoticesSinceCharge(h.log) == 0 && SweptInPeriod(h, rest))
  {
    AfterContinues(customer, frequency, start, before, rest);
    assert (before + rest)[..|before|] == before;
    assert Timely(before);
    RunConsistent(customer, frequency, start, before);
    AnnouncedIff(After(customer, frequency, start, before), rest);
  }

  // ---- which dates can be announced at all --------------------------------------------------------

  /** A run from `now` on in which the standing date is announced. */
  ghost predicate AnnouncingRun(h: History, now: DateTime, run: seq<Event>) {
    && Timely(run) && (forall i :: 0 <= i < |run| ==> now.Instant() <= run[i].now.Instant())
    && AllValid(run) && KeepsDate(h, run)
    && h.log <= Continue(h, run).log && Announced(Continue(h, run).log[|h.log|..], h.sub.nextRenewal)
  }

  lemma DayBeforeWalk(start: DateTime, n: nat) returns (t: DateTime)
    requires start.Valid() && n >= 1
    ensures t.Valid() && t.Instant() == DateTime(PlusDays(start.date, n), start.micros).Instant() - DAY
  {
    t := DateTime(PlusDays(start.date, n - 1), start.micros);
    DayNumberOfPlusDays(start.date, n);
    DayNumberOfPlusDays(start.date, n - 1);
  }

  lemma DayBefore(start: DateTime, frequency: Frequency) returns (t: DateTime)
    requires start.Valid()
    ensures t.Valid() && t.Instant() == ComputeNextRenewal(start, frequency).Instant() - DAY
  {
    if frequency == Weekly {
      t := DayBeforeWalk(start, 7);
    } else {
      PlusMonthIsAWalk(start.date);
      t := DayBeforeWalk(start, MonthGap(start.date));
    }
  }

  lemma SweepAnnounces(h: History, now: DateTime, at: DateTime)
    requires at.Valid() && now.Instant() <= at.Instant() && !h.sub.noticeSent && SweepsInPeriod(h, NoticeSweep(at))
    ensures AnnouncingRun(h, now, [NoticeSweep(at)])
  {
    var run := [NoticeSweep(at)];
    assert run[..0] == [];
    assert SweepsInPeriod(Continue(h, run[..0]), run[0]);
    AnnouncedIff(h, run);
  }

  lemma DateStands(h: History, run: seq<Event>, n: nat)
    requires AllValid(run) && KeepsDate(h, run) && n <= |run|
    ensures Continue(h, run[..n]).sub.nextRenewal == h.sub.nextRenewal
  {
    forall i | 0 <= i < n ensures !MovesDate(Continue(h, run[..n][..i]), run[..n][i]) {
      assert run[..n][..i] == run[..i];
    }
    AnnouncedIff(h, run[..n]);
  }

  lemma SweptBeforeDate(h: History, run: seq<Event>)
    requires AllValid(run) && KeepsDate(h, run) && SweptInPeriod(h, run)
    ensures exists i :: 0 <= i < |run| && run[i].now.Instant() < h.sub.nextRenewal.Instant()
  {
    var i :| 0 <= i < |run| && SweepsInPeriod(Continue(h, run[..i]), run[i]);
    DateStands(h, run, i);
  }

  /** A date set by creating or resuming can still be announced, from `now` on, exactly when the flag is down
      and the date lies ahead. Creating with a start date a period or more back, and resuming with the flag up,
      are the two ways the promise fails whatever the sweeps do. */
  lemma DateAnnounceableIff(h: History, from: DateTime, now: DateTime)
    requires from.Valid() && now.Valid() && h.sub.status == Active
    requires h.sub.nextRenewal == ComputeNextRenewal(from, h.sub.frequency)
    ensures (exists run :: AnnouncingRun(h, now, run)) <==>
      !h.sub.noticeSent && now.Instant() < h.sub.nextRenewal.Instant()
  {
    if run :| AnnouncingRun(h, now, run) {
      AnnouncedIff(h, run);
      SweptBeforeDate(h, run);
    }
    if !h.sub.noticeSent && now.Instant() < h.sub.nextRenewal.Instant() {
      var eve := DayBefore(from, h.sub.frequency);
      SweepAnnounces(h, now, if now.Instant() < eve.Instant() then eve else now);
    }
  }

  /** With a start date so far back that the first renewal is not ahead of any event, no notice goes out
      before the first charge, whatever happens. */
  lemma {:induction false} BackdatedStartUnannounced(
      customer: nat, frequency: Frequency, start: DateTime, run: seq<Event>)
    requires start.Valid() && Timely(run) && AllValid(run)
    requires KeepsDate(History(Created(customer, frequency, start), []), run)
    requires forall i :: 0 <= i < |run| ==> ComputeNextRenewal(start, frequency).NotAfter(run[i].now)
    ensures Notices(After(customer, frequency, start, run).log) == 0
  {
    var h := History(Created(customer, frequency, start), []);
    AfterContinues(customer, frequency, start, [], run);
    assert [] + run == run;
    AnnouncedIff(h, run);
    if SweptInPeriod(h, run) {
      SweptBeforeDate(h, run);
      assert false;
    }
    RunConsistent(customer, frequency, start, run);
  }

  // ---- both failures, step by step ----------------------------------------------------------------

  function January(day: int): DateTime { DateTime(Date(2025, 1, day), 0) }

  lemma WeekInJanuary(day: int)
    requires 1 <= day <= 24
    ensures January(day).Valid() && ComputeNextRenewal(January(day), Weekly) == January(day + 7)
  {
    PlusDaysInMonth(January(day).date, 7);
  }

  lemma AfterPrefix(customer: nat, frequency: Frequency, start: DateTime, run: seq<Event>, n: nat)
    requires start.Valid() && n < |run| && forall i :: 0 <= i < |run| ==> run[i].now.Valid()
    ensures After(customer, frequency, start, run[..n + 1])
         == Step(After(customer, frequency, start, run[..n]), run[n])
  {
    assert run[..n + 1][..n] == run[..n];
  }

  lemma AfterTwo(customer: nat, frequency: Frequency, start: DateTime, run: seq<Event>, n: nat)
    requires start.Valid() && n + 2 <= |run| && forall i :: 0 <= i < |run| ==> run[i].now.Valid()
    ensures After(customer, frequency, start, run[..n + 2])
         == Step(Step(After(customer, frequency, start, run[..n]), run[n]), run[n + 1])
  {
    AfterPrefix(customer, frequency, start, run, n);
    AfterPrefix(customer, frequency, start, run, n + 1);
  }

  lemma AfterThree(customer: nat, frequency: Frequency, start: DateTime, run: seq<Event>)
    requires start.Valid() && 3 <= |run| && forall i :: 0 <= i < |run| ==> run[i].now.Valid()
    ensures After(customer, frequency, start, run[..3])
         == Step(Step(Step(History(Created(customer, frequency, start), []), run[0]), run[1]), run[2])
  {
    var h0 := History(Created(customer, frequency, start), []);
    assert After(customer, frequency, start, run[..1]) == Step(h0, run[0]) by {
      assert run[..0] == [];
      AfterPrefix(customer, frequency, start, run, 0);
    }
    AfterTwo(customer, frequency, start, run, 1);
  }

  lemma AnnouncedThenResumed(customer: nat) returns (h: History)
    ensures January(1).Valid() && January(6).Valid() && January(7).Valid()
    ensures var h0 := History(Created(customer, Weekly, January(1)), []);
      h == Step(Step(Step(h0, NoticeSweep(January(6))), Pause(January(7), customer)), Resume(January(7), customer))
    ensures h.log == [Notified(January(6), January(8))]
    ensures h.sub.status == Active && h.sub.noticeSent && h.sub.nextRenewal == January(14) && h.sub.frequency == Weekly
  {
    WeekInJanuary(1);
    WeekInJanuary(7);
    var h0 := History(Created(customer, Weekly, January(1)), []);
    var h1 := Step(h0, NoticeSweep(January(6)));
    assert NoticeDue(h0.sub, January(6));
    h := Step(Step(h1, Pause(January(7), customer)), Resume(January(7), customer));
  }

  lemma ChargedAfterResume(h: History)
    requires h.sub.status == Active && h.sub.noticeSent && h.sub.nextRenewal == January(14)
    ensures January(12).Valid() && January(14).Valid()
    ensures Step(Step(h, NoticeSweep(January(12))), BillingSweep(January(14), true)).log
         == h.log + [Charged(January(14))]
  {
    assert Step(h, NoticeSweep(January(12))) == h;
  }

  lemma ChargedAfterResumedRun(customer: nat, run: seq<Event>, h: History)
    requires |run| == 5 && forall i :: 0 <= i < 5 ==> run[i].now.Valid()
    requires run[3] == NoticeSweep(January(12)) && run[4] == BillingSweep(January(14), true)
    requires January(1).Valid() && After(customer, Weekly, January(1), run[..3]) == h
    requires h.sub.status == Active && h.sub.noticeSent && h.sub.nextRenewal == January(14)
    ensures After(customer, Weekly, January(1), run).log == h.log + [Charged(January(14))]
  {
    assert run[..5] == run;
    AfterTwo(customer, Weekly, January(1), run, 3);
    ChargedAfterResume(h);
  }

  lemma ResumedRun(customer: nat, run: seq<Event>) returns (h: History)
    requires |run| == 5 && AllValid(run) && January(1).Valid()
    requires run[0] == NoticeSweep(January(6)) && run[1] == Pause(January(7), customer)
    requires run[2] == Resume(January(7), customer)
    ensures After(customer, Weekly, January(1), run[..3]) == h
    ensures h.log == [Notified(January(6), January(8))]
    ensures h.sub.status == Active && h.sub.noticeSent && h.sub.nextRenewal == January(14)
  {
    h := AnnouncedThenResumed(customer);
    AfterThree(customer, Weekly, January(1), run);
  }

  lemma FiveValid(customer: nat, run: seq<Event>)
    requires run == [NoticeSweep(January(6)), Pause(January(7), customer), Resume(January(7), customer),
                     NoticeSweep(January(12)), BillingSweep(January(14), true)]
    ensures January(1).Valid() && AllValid(run)
  {
  }

  /** The flag kept by resuming: announced for 8 January, paused and resumed on the 7th, charged on the 14th
      without a word, although the notice sweep ran two days before. */
  lemma ChargedUnannounced(customer: nat, run: seq<Event>)
    requires run == [NoticeSweep(January(6)), Pause(January(7), customer), Resume(January(7), customer),
                     NoticeSweep(January(12)), BillingSweep(January(14), true)]
    ensures January(1).Valid() && AllValid(run)
    ensures After(customer, Weekly, January(1), run).log == [Notified(January(6), January(8)), Charged(January(14))]
  {
    FiveValid(customer, run);
    var h := ResumedRun(customer, run);
    ChargedAfterResumedRun(customer, run, h);
  }

  /** The back-dated start: due since 8 January, charged on the 20th right after a notice sweep that says nothing. */
  lemma BackdatedChargedUnannounced(customer: nat, run: seq<Event>)
    requires run == [NoticeSweep(January(20)), BillingSweep(January(20), true)]
    ensures January(1).Valid() && AllValid(run)
    ensures After(customer, Weekly, January(1), run).log == [Charged(January(20))]
  {
    WeekInJanuary(1);
    var h0 := History(Created(customer, Weekly, January(1)), []);
    assert January(8).Instant() < January(20).Instant();
    assert run[..0] == [] && run[..2] == run;
    AfterTwo(customer, Weekly, January(1), run, 0);
    assert Step(h0, run[0]) == h0;
  }
}
