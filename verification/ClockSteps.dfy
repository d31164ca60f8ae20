/** What is left of the window's bound when the gateway's clock steps back. Each worker reads its own clock before
    the script runs, so the times one key sees need not be in order. */
module ClockSteps {
  import opened SlidingWindow
  import opened SlidingWindowSafety

  /** The gateway's clock goes back by at most `back` ms; the server's clock gains at most the slack on it. */
  ghost predicate StepsBack(reqs: seq<Request>, back: nat) {
    forall i, j :: 0 <= i < j < |reqs| ==>
      reqs[i].now <= reqs[j].now + back &&
      (reqs[j].server - reqs[j].now) - (reqs[i].server - reqs[i].now) <= SLACK_MS
  }

  ghost predicate ServerOrdered(reqs: seq<Request>) {
    forall i, j :: 0 <= i < j < |reqs| ==> reqs[i].server <= reqs[j].server
  }

  /** The same, for one more request after a run. */
  ghost predicate Follows(reqs: seq<Request>, r: Request, back: nat) {
    forall a :: a in reqs ==>
      a.now <= r.now + back && a.server <= r.server && (r.server - r.now) - (a.server - a.now) <= SLACK_MS
  }

  lemma LastFollows(reqs: seq<Request>, r: Request, back: nat)
    requires StepsBack(reqs + [r], back) && ServerOrdered(reqs + [r])
    ensures StepsBack(reqs, back) && ServerOrdered(reqs) && Follows(reqs, r, back)
  {
    var run := reqs + [r];
    assert forall i :: 0 <= i < |reqs| ==> reqs[i] == run[i];
    forall a | a in reqs
      ensures a.now <= r.now + back && a.server <= r.server && (r.server - r.now) - (a.server - a.now) <= SLACK_MS
    {
      var i :| 0 <= i < |reqs| && reqs[i] == a;
      assert run[i] == a && run[|reqs|] == r;
    }
  }

  // ---- what survives trims and expiry ----------------------------------------------------------

  /** Some request of the run came a whole window after the entry. */
  ghost predicate Aged(c: Config, reqs: seq<Request>, e: Entry) {
    exists a :: a in reqs && e.score + c.WindowMs() <= a.now
  }

  /** The TTL runs for the whole slack past the window of the request that was logged. */
  ghost predicate Guarded(c: Config, reqs: seq<Request>, deadline: int, e: Entry) {
    exists a :: a in reqs && e.score == a.now && a.server + 1000 * c.TtlS() <= deadline
  }

  /** A logged entry leaves the set only when a request came a whole window after it. */
  ghost predicate Covers(c: Config, reqs: seq<Request>, st: KeyState, log: seq<Entry>) {
    && Sorted(st.entries) && Distinct(st.entries)
    && (log != [] ==> exists a :: a in reqs && st.deadline == a.server + 1000 * c.TtlS())
    && (forall e :: e in log ==> (e in st.entries || Aged(c, reqs, e)) && Guarded(c, reqs, st.deadline, e))
  }

  lemma {:induction false} InsertKeeps(s: seq<Entry>, e: Entry)
    requires Sorted(s) && Distinct(s) && e !in s
    ensures Sorted(Insert(s, e)) && Distinct(Insert(s, e))
    ensures forall x :: x in Insert(s, e) <==> x == e || x in s
  {
    if s == [] || e.score < s[0].score {
      assert forall x :: x in s ==> s[0].score <= x.score;
      PrependKeeps(e, s);
    } else {
      assert s == [s[0]] + s[1..];
      InsertKeeps(s[1..], e);
      PrependKeeps(s[0], Insert(s[1..], e));
    }
  }

  lemma ZAddKeeps(s: seq<Entry>, e: Entry)
    requires Sorted(s) && Distinct(s)
    ensures Sorted(ZAdd(s, e)) && Distinct(ZAdd(s, e))
    ensures forall x :: x in ZAdd(s, e) <==> x == e || x in s
  {
    if e !in s {
      InsertKeeps(s, e);
    }
  }

  /** After the trim of the next request: still in the set, or a window old. */
  lemma KeptOrAged(c: Config, reqs: seq<Request>, st: KeyState, log: seq<Entry>, r: Request, back: nat, e: Entry)
    requires Covers(c, reqs, st, log) && e in log && Follows(reqs, r, back)
    ensures e in RemoveUpTo(Live(st, r.server), r.now - c.WindowMs())
         || Aged(c, reqs, e) || e.score + c.WindowMs() <= r.now
  {
    RemoveUpToMembers(Live(st, r.server), r.now - c.WindowMs());
    assert Guarded(c, reqs, st.deadline, e);
  }

  lemma AgedIsOld(c: Config, reqs: seq<Request>, r: Request, back: nat, e: Entry)
    requires Follows(reqs, r, back) && Aged(c, reqs, e)
    ensures e.score + c.WindowMs() <= r.now + back
  {
  }

  lemma AddKeepsMembers(s: seq<Entry>, start: int, e: Entry)
    requires Sorted(s) && Distinct(s)
    ensures forall x :: x in RemoveUpTo(s, start) ==> x in ZAdd(RemoveUpTo(s, start), e)
  {
    RemoveUpToKeeps(s, start);
    ZAddKeeps(RemoveUpTo(s, start), e);
  }

  lemma KeptStays(c: Config, st: KeyState, r: Request, e: Entry)
    requires Sorted(st.entries) && Distinct(st.entries)
    requires e in RemoveUpTo(Live(st, r.server), r.now - c.WindowMs())
    ensures e in Serve(c, st, r).state.entries
  {
    AddKeepsMembers(Live(st, r.server), r.now - c.WindowMs(), Entry(r.now, r.suffix));
  }

  lemma EntryCovered(c: Config, reqs: seq<Request>, st: KeyState, log: seq<Entry>, r: Request, back: nat, e: Entry)
    requires Covers(c, reqs, st, log) && e in log && Follows(reqs, r, back)
    ensures var st' := Serve(c, st, r).state;
      (e in st'.entries || Aged(c, reqs + [r], e)) && Guarded(c, reqs + [r], st'.deadline, e)
  {
    assert r in reqs + [r] && forall a :: a in reqs ==> a in reqs + [r];
    assert Guarded(c, reqs, st.deadline, e);
    assert st.deadline <= Serve(c, st, r).state.deadline;
    KeptOrAged(c, reqs, st, log, r, back, e);
    if e in RemoveUpTo(Live(st, r.server), r.now - c.WindowMs()) {
      KeptStays(c, st, r, e);
    }
  }

  lemma ServeCovers(c: Config, reqs: seq<Request>, st: KeyState, log: seq<Entry>, r: Request, back: nat)
    requires Covers(c, reqs, st, log) && Follows(reqs, r, back)
    ensures Covers(c, reqs + [r], Serve(c, st, r).state,
                   if Admits(c, st, r) then log + [Entry(r.now, r.suffix)] else log)
  {
    var kept := RemoveUpTo(Live(st, r.server), r.now - c.WindowMs());
    var e, st' := Entry(r.now, r.suffix), Serve(c, st, r).state;
    var log' := if Admits(c, st, r) then log + [e] else log;
    RemoveUpToKeeps(Live(st, r.server), r.now - c.WindowMs());
    ZAddKeeps(kept, e);
    assert r in reqs + [r] && forall a :: a in reqs ==> a in reqs + [r];
    forall x | x in log'
      ensures (x in st'.entries || Aged(c, reqs + [r], x)) && Guarded(c, reqs + [r], st'.deadline, x)
    {
      if x in log {
        EntryCovered(c, reqs, st, log, r, back, x);
      }
    }
  }

  lemma {:induction false} RunCovers(c: Config, reqs: seq<Request>, back: nat)
    requires StepsBack(reqs, back) && ServerOrdered(reqs)
    ensures Covers(c, reqs, After(c, reqs), Log(c, reqs))
  {
    if reqs != [] {
      var before, r := reqs[..|reqs| - 1], reqs[|reqs| - 1];
      assert before + [r] == reqs;
      LastFollows(before, r, back);
      RunCovers(c, before, back);
      ServeCovers(c, before, After(c, before), Log(c, before), r, back);
      assert Log(c, before) + [] == Log(c, before);
    }
  }

  // ---- the bound that survives -----------------------------------------------------------------

  /** Whatever lies in a window shorter by the step back was still in the set. */
  lemma ShorterWindowIsKept(
      c: Config, reqs: seq<Request>, st: KeyState, log: seq<Entry>, r: Request, t: int, back: nat, len: nat)
    requires Covers(c, reqs, st, log) && Follows(reqs, r, back)
    requires len + back <= c.WindowMs() && t - len < r.now <= t
    ensures |Window(log, t, len)| <= |RemoveUpTo(Live(st, r.server), r.now - c.WindowMs())|
  {
    var kept := RemoveUpTo(Live(st, r.server), r.now - c.WindowMs());
    forall e | e in Window(log, t, len) ensures e in kept {
      KeptOrAged(c, reqs, st, log, r, back, e);
      if Aged(c, reqs, e) {
        AgedIsOld(c, reqs, r, back, e);
      }
    }
    DistinctCard(kept);
    SubsetCard(Window(log, t, len), set e | e in kept);
  }

  lemma WindowOfAppend(log: seq<Entry>, e: Entry, t: int, len: nat)
    ensures |Window(log + [e], t, len)| <= |Window(log, t, len)| + 1
    ensures !(t - len < e.score <= t) ==> Window(log + [e], t, len) == Window(log, t, len)
  {
    SubsetCard(Window(log + [e], t, len), Window(log, t, len) + {e});
  }

  lemma ShorterWindowNext(
      c: Config, reqs: seq<Request>, st: KeyState, log: seq<Entry>, r: Request, t: int, back: nat, len: nat)
    requires Covers(c, reqs, st, log) && Follows(reqs, r, back)
    requires len + back <= c.WindowMs() && |Window(log, t, len)| <= Bound(c) && Admits(c, st, r)
    ensures |Window(log + [Entry(r.now, r.suffix)], t, len)| <= Bound(c)
  {
    WindowOfAppend(log, Entry(r.now, r.suffix), t, len);
    if t - len < r.now <= t {
      ShorterWindowIsKept(c, reqs, st, log, r, t, back, len);
    }
  }

  lemma AdmissionKeepsBound(c: Config, reqs: seq<Request>, r: Request, t: int, back: nat, len: nat)
    requires StepsBack(reqs + [r], back) && ServerOrdered(reqs + [r])
    requires len + back <= c.WindowMs() && |Window(Log(c, reqs), t, len)| <= Bound(c) && Admits(c, After(c, reqs), r)
    ensures |Window(Log(c, reqs) + [Entry(r.now, r.suffix)], t, len)| <= Bound(c)
  {
    LastFollows(reqs, r, back);
    RunCovers(c, reqs, back);
    ShorterWindowNext(c, reqs, After(c, reqs), Log(c, reqs), r, t, back, len);
  }

  /** Windows shorter by the step back hold at most `limit` distinct members over every run. */
  lemma {:induction false} ShorterWindowsBounded(c: Config, reqs: seq<Request>, t: int, back: nat, len: nat)
    requires StepsBack(reqs, back) && ServerOrdered(reqs)
    requires len + back <= c.WindowMs()
    ensures |Window(Log(c, reqs), t, len)| <= Bound(c)
  {
    if reqs == [] {
      assert Window([], t, len) == {};
    } else {
      var before, r := reqs[..|reqs| - 1], reqs[|reqs| - 1];
      assert before + [r] == reqs;
      ShorterWindowsBounded(c, before, t, back, len);
      LogNext(c, before, r);
      assert Log(c, before) + [] == Log(c, before);
      if Admits(c, After(c, before), r) {
        AdmissionKeepsBound(c, before, r, t, back, len);
      }
    }
  }

  // ---- a limit of one --------------------------------------------------------------------------

  /** The set holds the last admission and nothing else, and admissions are a window apart. */
  ghost predicate OneAtATime(c: Config, st: KeyState, log: seq<Entry>) {
    && st.entries == (if log == [] then [] else [log[|log| - 1]])
    && (forall i, j :: 0 <= i < j < |log| ==> log[i].score + c.WindowMs() <= log[j].score)
  }

  lemma OneKept(c: Config, e: Entry, start: int)
    ensures RemoveUpTo([e], start) == if e.score <= start then [] else [e]
  {
    assert RemoveUpTo([e][1..], start) == [];
  }

  lemma NextIsAWindowLater(
      c: Config, reqs: seq<Request>, st: KeyState, log: seq<Entry>, r: Request, back: nat, last: Entry)
    requires c.limit == 1 && Covers(c, reqs, st, log) && Follows(reqs, r, back)
    requires st.entries == [last] && last in log && Admits(c, st, r)
    ensures last.score + c.WindowMs() <= r.now
  {
    OneKept(c, last, r.now - c.WindowMs());
    assert Guarded(c, reqs, st.deadline, last);
  }

  lemma ServeOneEntries(c: Config, st: KeyState, r: Request, last: Entry)
    requires c.limit == 1 && st.entries == [last]
    ensures Serve(c, st, r).state.entries == if Admits(c, st, r) then [Entry(r.now, r.suffix)] else [last]
  {
    OneKept(c, last, r.now - c.WindowMs());
  }

  lemma ServeOne(c: Config, reqs: seq<Request>, st: KeyState, log: seq<Entry>, r: Request, back: nat)
    requires c.limit == 1 && OneAtATime(c, st, log)
    requires Covers(c, reqs, st, log) && Follows(reqs, r, back)
    ensures OneAtATime(c, Serve(c, st, r).state, if Admits(c, st, r) then log + [Entry(r.now, r.suffix)] else log)
  {
    if log != [] {
      var last := log[|log| - 1];
      ServeOneEntries(c, st, r, last);
      assert Admits(c, st, r) ==> last.score + c.WindowMs() <= r.now by {
        if Admits(c, st, r) { NextIsAWindowLater(c, reqs, st, log, r, back, last); }
      }
    }
  }

  lemma {:induction false} OneByOne(c: Config, reqs: seq<Request>, back: nat)
    requires c.limit == 1 && StepsBack(reqs, back) && ServerOrdered(reqs)
    ensures OneAtATime(c, After(c, reqs), Log(c, reqs))
  {
    if reqs != [] {
      var before, r := reqs[..|reqs| - 1], reqs[|reqs| - 1];
      assert before + [r] == reqs;
      LastFollows(before, r, back);
      OneByOne(c, before, back);
      RunCovers(c, before, back);
      ServeOne(c, before, After(c, before), Log(c, before), r, back);
      assert Log(c, before) + [] == Log(c, before);
    }
  }

  lemma LimitOneWindows(c: Config, reqs: seq<Request>, t: int, back: nat, len: nat)
    requires c.limit == 1 && StepsBack(reqs, back) && ServerOrdered(reqs)
    requires len <= c.WindowMs()
    ensures |Window(Log(c, reqs), t, len)| <= 1
  {
    var window := Window(Log(c, reqs), t, len);
    OneByOne(c, reqs, back);
    if e :| e in window {
      SubsetCard(window, {e});
    }
  }

  // ---- and no more than that -------------------------------------------------------------------

  /** The run starts with `n` requests at time zero. */
  ghost predicate ZerosFirst(reqs: seq<Request>, n: nat) {
    n <= |reqs| && forall i :: 0 <= i < n ==> reqs[i] == Request(0, 0, i)
  }

  /** The log starts with their admissions. */
  ghost predicate ZerosLogged(log: seq<Entry>, n: nat) {
    n <= |log| && forall i :: 0 <= i < n ==> log[i] == Entry(0, i)
  }

  lemma WindowAtMostLog(log: seq<Entry>, t: int, len: nat)
    ensures |Window(log, t, len)| <= |log|
  {
    DistinctCard(log);
    SubsetCard(Window(log, t, len), set e | e in log);
  }

  lemma {:induction false} FillAtZero(c: Config, n: nat) returns (reqs: seq<Request>)
    requires n <= c.limit
    ensures |reqs| == n == |Log(c, reqs)| && ZerosFirst(reqs, n) && ZerosLogged(Log(c, reqs), n)
  {
    if n == 0 {
      reqs := [];
    } else {
      var front := FillAtZero(c, n - 1);
      var r := Request(0, 0, n - 1);
      NextRequest(c, front, r);
      WindowAtMostLog(Log(c, front), 0, c.WindowMs());
      reqs := front + [r];
    }
  }

  lemma ServeAlone(c: Config, st: KeyState, r: Request)
    requires c.limit >= 1 && RemoveUpTo(Live(st, r.server), r.now - c.WindowMs()) == []
    ensures Serve(c, st, r).state.entries == [Entry(r.now, r.suffix)] && Admits(c, st, r)
  {
  }

  lemma AfterNext(c: Config, reqs: seq<Request>, r: Request)
    ensures After(c, reqs + [r]) == Serve(c, After(c, reqs), r).state
  {
    assert (reqs + [r])[..|reqs|] == reqs;
  }

  /** A request that finds the window empty is alone in the set. */
  lemma AloneAfter(c: Config, reqs: seq<Request>, r: Request)
    requires c.limit >= 1 && ClocksOk(reqs + [r], SLACK_MS)
    requires Window(Log(c, reqs), r.now, c.WindowMs()) == {}
    ensures After(c, reqs + [r]).entries == [Entry(r.now, r.suffix)]
    ensures Log(c, reqs + [r]) == Log(c, reqs) + [Entry(r.now, r.suffix)]
  {
    assert |RemoveUpTo(Live(After(c, reqs), r.server), r.now - c.WindowMs())| == 0 by {
      NextRequest(c, reqs, r);
    }
    ServeAlone(c, After(c, reqs), r);
    AfterNext(c, reqs, r);
    LogNext(c, reqs, r);
  }

  lemma AdmittedBesideOne(c: Config, reqs: seq<Request>, e: Entry, r: Request)
    requires c.limit >= 2 && After(c, reqs).entries == [e]
    ensures Log(c, reqs + [r]) == Log(c, reqs) + [Entry(r.now, r.suffix)]
  {
    OneKept(c, e, r.now - c.WindowMs());
    LogNext(c, reqs, r);
  }

  /** A full window at zero, then one request as the window has passed. */
  ghost predicate FullThenLate(c: Config, reqs: seq<Request>)
    requires c.limit >= 1
  {
    |reqs| == c.limit + 1 && ZerosFirst(reqs, c.limit) && reqs[c.limit] == Request(c.WindowMs(), c.WindowMs(), c.limit)
  }

  lemma WindowPassed(log: seq<Entry>, n: nat, w: nat)
    requires |log| == n && ZerosLogged(log, n)
    ensures Window(log, w, w) == {}
  {
  }

  lemma LateTrimsAll(c: Config) returns (reqs: seq<Request>)
    requires c.limit >= 1
    ensures FullThenLate(c, reqs)
    ensures After(c, reqs).entries == [Entry(c.WindowMs(), c.limit)]
    ensures ZerosLogged(Log(c, reqs), c.limit) && Entry(c.WindowMs(), c.limit) in Log(c, reqs)
  {
    var w := c.WindowMs();
    var full := FillAtZero(c, c.limit);
    var r := Request(w, w, c.limit);
    reqs := full + [r];
    WindowPassed(Log(c, full), c.limit, w);
    assert ClocksOk(reqs, SLACK_MS);
    AloneAfter(c, full, r);
  }

  lemma FullThenLateClocks(c: Config, reqs: seq<Request>)
    requires c.limit >= 1 && FullThenLate(c, reqs)
    ensures StepsBack(reqs, 0) && ServerOrdered(reqs) && MembersDiffer(reqs)
  {
  }

  lemma ThenBackClocks(reqs: seq<Request>, n: nat, w: nat, back: nat)
    requires |reqs| == n + 2 && ZerosFirst(reqs, n) && back <= SLACK_MS && back <= w
    requires reqs[n] == Request(w, w, n) && reqs[n + 1] == Request(w - back, w, n + 1)
    ensures StepsBack(reqs, back) && ServerOrdered(reqs) && MembersDiffer(reqs)
  {
    forall i, j | 0 <= i < j < |reqs|
      ensures reqs[i].now <= reqs[j].now + back && reqs[i].server <= reqs[j].server
      ensures (reqs[j].server - reqs[j].now) - (reqs[i].server - reqs[i].now) <= SLACK_MS
      ensures reqs[i].suffix != reqs[j].suffix
    {
      var a, b := reqs[i], reqs[j];
      assert a == Request(0, 0, i) || a == Request(w, w, n);
      assert b == Request(0, 0, j) || b == Request(w, w, n) || b == Request(w - back, w, n + 1);
    }
  }

  lemma StepBackClocks(c: Config, late: seq<Request>, reqs: seq<Request>, back: nat)
    requires c.limit >= 1 && FullThenLate(c, late) && back <= SLACK_MS && back <= c.WindowMs()
    requires reqs == late + [Request(c.WindowMs() - back, c.WindowMs(), c.limit + 1)]
    ensures StepsBack(reqs, back) && ServerOrdered(reqs) && MembersDiffer(reqs)
  {
    ThenBackClocks(reqs, c.limit, c.WindowMs(), back);
  }

  lemma TooMany(n: nat, log: seq<Entry>, e: Entry, t: int, len: nat)
    requires ZerosLogged(log, n) && e in log && e.suffix >= n
    requires t - len < 0 <= t && t - len < e.score <= t
    ensures |Window(log, t, len)| > n
  {
    DistinctCard(log[..n]);
    var zeros := set x | x in log[..n];
    assert log == log[..n] + log[n..];
    SubsetCard(zeros + {e}, Window(log, t, len));
  }

  lemma OneMoreIsTooMany(n: nat, log: seq<Entry>, e: Entry, t: int, len: nat)
    requires ZerosLogged(log, n) && e.suffix >= n
    requires t - len < 0 <= t && t - len < e.score <= t
    ensures |Window(log + [e], t, len)| > n
  {
    TooMany(n, log + [e], e, t, len);
  }

  /** The run is one the clocks allow, and has more than `limit` members in the window. */
  ghost predicate Overfills(c: Config, reqs: seq<Request>, t: int, back: nat, len: nat) {
    StepsBack(reqs, back) && ServerOrdered(reqs) && MembersDiffer(reqs) && |Window(Log(c, reqs), t, len)| > c.limit
  }

  lemma LateRun(c: Config, back: nat, len: nat) returns (reqs: seq<Request>)
    requires c.limit >= 1 && len > c.WindowMs()
    ensures Overfills(c, reqs, c.WindowMs(), back, len)
  {
    reqs := LateTrimsAll(c);
    FullThenLateClocks(c, reqs);
    TooMany(c.limit, Log(c, reqs), Entry(c.WindowMs(), c.limit), c.WindowMs(), len);
  }

  lemma StepBackWindow(c: Config, late: seq<Request>, r: Request, e: Entry, len: nat)
    requires c.limit >= 2 && After(c, late).entries == [e] && ZerosLogged(Log(c, late), c.limit)
    requires r.suffix >= c.limit && 0 <= r.now && r.now < len
    ensures |Window(Log(c, late + [r]), r.now, len)| > c.limit
  {
    AdmittedBesideOne(c, late, e, r);
    OneMoreIsTooMany(c.limit, Log(c, late), Entry(r.now, r.suffix), r.now, len);
  }

  lemma StepBackFrom(c: Config, late: seq<Request>, reqs: seq<Request>, back: nat, len: nat)
    requires c.limit >= 2 && back <= SLACK_MS && back <= c.WindowMs() && 1 <= len && len + back > c.WindowMs()
    requires FullThenLate(c, late) && After(c, late).entries == [Entry(c.WindowMs(), c.limit)]
    requires ZerosLogged(Log(c, late), c.limit)
    requires reqs == late + [Request(c.WindowMs() - back, c.WindowMs(), c.limit + 1)]
    ensures Overfills(c, reqs, c.WindowMs() - back, back, len)
  {
    var w := c.WindowMs();
    assert |Window(Log(c, reqs), w - back, len)| > c.limit by {
      StepBackWindow(c, late, Request(w - back, w, c.limit + 1), Entry(w, c.limit), len);
    }
    assert StepsBack(reqs, back) && ServerOrdered(reqs) && MembersDiffer(reqs) by {
      StepBackClocks(c, late, reqs, back);
    }
  }

  lemma StepBackRun(c: Config, back: nat, len: nat) returns (reqs: seq<Request>)
    requires c.limit >= 2 && back <= SLACK_MS && back <= c.WindowMs() && 1 <= len && len + back > c.WindowMs()
    ensures Overfills(c, reqs, c.WindowMs() - back, back, len)
  {
    var late := LateTrimsAll(c);
    reqs := late + [Request(c.WindowMs() - back, c.WindowMs(), c.limit + 1)];
    StepBackFrom(c, late, reqs, back, len);
  }

  lemma LongerWindowOverfilled(c: Config, back: nat, len: nat) returns (reqs: seq<Request>, t: int)
    requires c.limit >= 1 && back <= SLACK_MS && len >= 1
    requires len + (if c.limit == 1 then 0 else back) > c.WindowMs()
    ensures Overfills(c, reqs, t, back, len)
  {
    if len > c.WindowMs() {
      reqs := LateRun(c, back, len);
      t := c.WindowMs();
    } else {
      reqs := StepBackRun(c, back, len);
      t := c.WindowMs() - back;
    }
  }

  /** Exactly how much of the window keeps its bound over every run: all but the step back, and for a limit of
      one all of it. (A larger step than the slack would be a gain of the server's clock by more than the slack.) */
  lemma WindowLengthBoundedIff(c: Config, back: nat, len: nat)
    requires c.limit >= 1 && back <= SLACK_MS && len >= 1
    ensures (forall reqs, t :: !Overfills(c, reqs, t, back, len))
       <==> len + (if c.limit == 1 then 0 else back) <= c.WindowMs()
  {
    if len + (if c.limit == 1 then 0 else back) <= c.WindowMs() {
      forall reqs, t | StepsBack(reqs, back) && ServerOrdered(reqs) ensures !Overfills(c, reqs, t, back, len) {
        if c.limit == 1 {
          LimitOneWindows(c, reqs, t, back, len);
        } else {
          ShorterWindowsBounded(c, reqs, t, back, len);
        }
      }
    } else {
      var reqs, t := LongerWindowOverfilled(c, back, len);
    }
  }

  /** More distinct members lie in a full window than the limit allows. */
  ghost predicate PastBound(c: Config, reqs: seq<Request>, t: int, back: nat) {
    StepsBack(reqs, back) && MembersDiffer(reqs) && |Window(Log(c, reqs), t, 1000 * c.windowS)| > Bound(c)
  }

  /** So a single millisecond back already breaks the bound on a full window. */
  lemma ClockMustNotStepBack(back: nat)
    ensures (forall c, reqs, t :: !PastBound(c, reqs, t, back)) <==> back == 0
  {
    if back == 0 {
      forall c, reqs, t | StepsBack(reqs, back) ensures !PastBound(c, reqs, t, back) {
        WindowBounded(c, reqs, t);
      }
    } else {
      var c := Config(60, 2);
      var reqs, t := LongerWindowOverfilled(c, 1, c.WindowMs());
      assert PastBound(c, reqs, t, back);
    }
  }
}
