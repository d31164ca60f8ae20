/** What the sliding window promises over whole runs of one key. */
module SlidingWindowSafety {
  import opened SlidingWindow

  // ---- at most `limit` in any window ---------------------------------------------------------

  function Bound(c: Config): nat { if c.limit > 0 then c.limit else 0 }

  lemma WindowAfterAdmission(c: Config, log: seq<Entry>, e: Entry, t: int)
    requires forall x :: x in log ==> x.score <= e.score
    requires |Window(log, e.score, c.WindowMs())| < c.limit
    requires |Window(log, t, c.WindowMs())| <= c.limit
    ensures |Window(log + [e], t, c.WindowMs())| <= c.limit
  {
    var w := c.WindowMs();
    if t - w < e.score <= t {
      var before := Window(log, e.score, w);
      SubsetCard(Window(log + [e], t, w), before + {e});
      assert |before + {e}| <= |before| + 1;
    } else {
      assert Window(log + [e], t, w) == Window(log, t, w);
    }
  }

  lemma {:induction false} SimpleWindowBounded(c: Config, reqs: seq<Request>, t: int)
    requires ClocksOk(reqs, SLACK_MS)
    ensures |Window(SimpleLog(c, reqs), t, c.WindowMs())| <= Bound(c)
  {
    if reqs == [] {
      assert Window([], t, c.WindowMs()) == {};
    } else {
      var before, r := reqs[..|reqs| - 1], reqs[|reqs| - 1];
      assert before + [r] == reqs;
      SimpleWindowBounded(c, before, t);
      ScriptRefinesLog(c, before);
      var log := SimpleLog(c, before);
      if SimpleAdmits(c, log, r) {
        LogNotAhead(c, before, After(c, before), log, r, SLACK_MS);
        WindowAfterAdmission(c, log, Entry(r.now, r.suffix), t);
      } else {
        assert log + [] == log;
      }
    }
  }

  /** No interval (t - window, t], wherever it lies, holds more than `limit` distinct admitted members. */
  lemma WindowBounded(c: Config, reqs: seq<Request>, t: int)
    requires ClocksOk(reqs, SLACK_MS)
    ensures |Window(Log(c, reqs), t, c.WindowMs())| <= Bound(c)
  {
    ScriptRefinesLog(c, reqs);
    SimpleWindowBounded(c, reqs, t);
  }

  /** A request is turned away exactly when `limit` admitted members lie in its own window. */
  lemma DeniedIffWindowFull(c: Config, reqs: seq<Request>, r: Request)
    requires c.limit >= 1
    requires ClocksOk(reqs + [r], SLACK_MS)
    ensures !Admits(c, After(c, reqs), r) <==> |Window(Log(c, reqs), r.now, c.WindowMs())| == c.limit
  {
    NextRequest(c, reqs, r);
    WindowBounded(c, reqs, r.now);
  }

  lemma ReplyCount(c: Config, st: KeyState, r: Request)
    ensures var kept := RemoveUpTo(Live(st, r.server), r.now - c.WindowMs());
      Serve(c, st, r).reply.count == |kept| + if Admits(c, st, r) then 1 else 0
  {
  }

  /** The count in the reply is the number of distinct members already admitted in the window, plus one if this
      request is admitted. */
  lemma ReplyCountsWindow(c: Config, reqs: seq<Request>, r: Request)
    requires ClocksOk(reqs + [r], SLACK_MS)
    ensures var st := After(c, reqs);
      Serve(c, st, r).reply.count == |Window(Log(c, reqs), r.now, c.WindowMs())| + if Admits(c, st, r) then 1 else 0
  {
    NextRequest(c, reqs, r);
    ReplyCount(c, After(c, reqs), r);
  }

  // ---- members and admissions ----------------------------------------------------------------

  lemma {:induction false} AdmissionsAreWindow(log: seq<Entry>, t: int, w: nat)
    ensures (set e | e in Admissions(log, t, w)) == Window(log, t, w)
  {
    if log != [] {
      var front, e := log[..|log| - 1], log[|log| - 1];
      AdmissionsAreWindow(front, t, w);
      assert log == front + [e];
      assert forall x :: x in Admissions(front, t, w) <==> x in Window(front, t, w);
    }
  }

  /** The script sees every admission of the window exactly when their members differ. */
  lemma AdmissionsCountedIffDistinct(c: Config, reqs: seq<Request>, r: Request)
    requires ClocksOk(reqs + [r], SLACK_MS)
    ensures var kept := RemoveUpTo(Live(After(c, reqs), r.server), r.now - c.WindowMs());
      var admissions := Admissions(Log(c, reqs), r.now, c.WindowMs());
      |kept| <= |admissions| && (|kept| == |admissions| <==> Distinct(admissions))
  {
    var log := Log(c, reqs);
    NextRequest(c, reqs, r);
    AdmissionsAreWindow(log, r.now, c.WindowMs());
    DistinctCard(Admissions(log, r.now, c.WindowMs()));
  }

  ghost predicate MembersDiffer(reqs: seq<Request>) {
    forall i, j :: 0 <= i < j < |reqs| ==> reqs[i].now != reqs[j].now || reqs[i].suffix != reqs[j].suffix
  }

  lemma {:induction false} LogComesFromRun(c: Config, reqs: seq<Request>)
    ensures forall e :: e in Log(c, reqs) ==>
      exists i :: 0 <= i < |reqs| && e == Entry(reqs[i].now, reqs[i].suffix)
  {
    if reqs != [] {
      var before, r := reqs[..|reqs| - 1], reqs[|reqs| - 1];
      LogComesFromRun(c, before);
      forall e | e in Log(c, reqs)
        ensures exists i :: 0 <= i < |reqs| && e == Entry(reqs[i].now, reqs[i].suffix)
      {
        if e in Log(c, before) {
          var i :| 0 <= i < |before| && e == Entry(before[i].now, before[i].suffix);
          assert reqs[i] == before[i];
        }
      }
    }
  }

  lemma {:induction false} DifferentMembersDistinctLog(c: Config, reqs: seq<Request>)
    requires MembersDiffer(reqs)
    ensures Distinct(Log(c, reqs))
  {
    if reqs != [] {
      var before, r := reqs[..|reqs| - 1], reqs[|reqs| - 1];
      DifferentMembersDistinctLog(c, before);
      LogComesFromRun(c, before);
      var log, e := Log(c, before), Entry(r.now, r.suffix);
      forall x | x in log ensures x != e {
        var i :| 0 <= i < |before| && x == Entry(before[i].now, before[i].suffix);
        assert reqs[i] == before[i];
      }
      DistinctAppend(log, e);
      assert log + [] == log;
    }
  }

  lemma {:induction false} DistinctAdmissions(log: seq<Entry>, t: int, w: nat)
    requires Distinct(log)
    ensures Distinct(Admissions(log, t, w))
  {
    if log != [] {
      var front, e := log[..|log| - 1], log[|log| - 1];
      DistinctAdmissions(front, t, w);
      AdmissionsAreWindow(front, t, w);
      forall x | x in Admissions(front, t, w) ensures x != e {
        assert x in Window(front, t, w);
        var i :| 0 <= i < |front| && front[i] == x;
        assert log[i] == x;
      }
      DistinctAppend(Admissions(front, t, w), e);
    }
  }

  /** With members that differ, no window holds more than `limit` admissions. */
  lemma AdmissionsBounded(c: Config, reqs: seq<Request>, t: int)
    requires ClocksOk(reqs, SLACK_MS) && MembersDiffer(reqs)
    ensures |Admissions(Log(c, reqs), t, c.WindowMs())| <= Bound(c)
  {
    var log := Log(c, reqs);
    WindowBounded(c, reqs, t);
    DifferentMembersDistinctLog(c, reqs);
    DistinctAdmissions(log, t, c.WindowMs());
    AdmissionsAreWindow(log, t, c.WindowMs());
    DistinctCard(Admissions(log, t, c.WindowMs()));
  }

  // Without that, a repeated suffix inside one millisecond is not counted.

  function Repeated(n: nat): seq<Request> { seq(n, _ => Request(0, 0, 1)) }

  lemma {:induction false} RepeatsAllAdmitted(c: Config, n: nat)
    requires c.limit >= 2
    ensures Log(c, Repeated(n)) == seq(n, _ => Entry(0, 1))
  {
    if n > 0 {
      var reqs, r, e := Repeated(n - 1), Request(0, 0, 1), Entry(0, 1);
      assert Repeated(n) == reqs + [r];
      RepeatsAllAdmitted(c, n - 1);
      NextRequest(c, reqs, r);
      SubsetCard(Window(Log(c, reqs), 0, c.WindowMs()), {e});
      assert seq(n - 1, _ => e) + [e] == seq(n, _ => e);
    }
  }

  lemma {:induction false} AllAdmissions(n: nat, w: nat)
    requires w > 0
    ensures |Admissions(seq(n, _ => Entry(0, 1)), 0, w)| == n
  {
    if n > 0 {
      var log := seq(n, _ => Entry(0, 1));
      assert log[..n - 1] == seq(n - 1, _ => Entry(0, 1));
      AllAdmissions(n - 1, w);
    }
  }

  lemma {:induction false} NoAdmissionsOutside(log: seq<Entry>, t: int, w: nat)
    requires Window(log, t, w) == {}
    ensures Admissions(log, t, w) == []
  {
    if log != [] {
      var front, e := log[..|log| - 1], log[|log| - 1];
      assert log == front + [e];
      assert Window(front, t, w) <= Window(log, t, w);
      assert e !in Window(log, t, w);
      NoAdmissionsOutside(front, t, w);
    }
  }

  lemma {:induction false} LimitOneBounded(c: Config, reqs: seq<Request>, t: int)
    requires c.limit == 1 && ClocksOk(reqs, SLACK_MS)
    ensures |Admissions(Log(c, reqs), t, c.WindowMs())| <= 1
  {
    if reqs != [] {
      var before, r := reqs[..|reqs| - 1], reqs[|reqs| - 1];
      var log, w, e := Log(c, before), c.WindowMs(), Entry(r.now, r.suffix);
      assert before + [r] == reqs;
      NextRequest(c, before, r);
      LimitOneBounded(c, before, t);
      if SimpleAdmits(c, log, r) {
        assert (log + [e])[..|log|] == log;
        if t - w < e.score <= t {
          SubsetCard(Window(log, t, w), Window(log, r.now, w));
          NoAdmissionsOutside(log, t, w);
        }
      } else {
        assert log + [] == log;
      }
    }
  }

  /** Whatever suffixes are drawn, the bound on admissions holds over every run only for a limit of one
      (or an empty window): from a limit of two on, requests sharing a member pass uncounted. */
  lemma EveryRunBoundedIff(c: Config)
    requires c.limit >= 1
    ensures (forall reqs, t | ClocksOk(reqs, SLACK_MS) :: |Admissions(Log(c, reqs), t, c.WindowMs())| <= c.limit)
       <==> c.limit == 1 || c.windowS == 0
  {
    if c.limit == 1 || c.windowS == 0 {
      forall reqs, t | ClocksOk(reqs, SLACK_MS) ensures |Admissions(Log(c, reqs), t, c.WindowMs())| <= c.limit {
        if c.limit == 1 {
          LimitOneBounded(c, reqs, t);
        } else {
          NoAdmissionsOutside(Log(c, reqs), t, c.WindowMs());
        }
      }
    } else {
      var n := c.limit + 1;
      RepeatsAllAdmitted(c, n);
      AllAdmissions(n, c.WindowMs());
      assert ClocksOk(Repeated(n), SLACK_MS);
      assert |Admissions(Log(c, Repeated(n)), 0, c.WindowMs())| > c.limit;
    }
  }

  // ---- the one second of slack in the TTL -----------------------------------------------------

  lemma OneMore(c: Config, reqs: seq<Request>, r: Request, st: KeyState, log: seq<Entry>)
    requires Admits(c, After(c, reqs), r) && Serve(c, After(c, reqs), r).state == st
    requires log == Log(c, reqs) + [Entry(r.now, r.suffix)]
    ensures After(c, reqs + [r]) == st && Log(c, reqs + [r]) == log
  {
    assert (reqs + [r])[..|reqs|] == reqs;
  }

  lemma OneLogged(c: Config)
    requires c.limit == 1 && c.windowS == 1
    ensures After(c, [Request(0, 0, 1)]) == KeyState([Entry(0, 1)], 2000)
    ensures Log(c, [Request(0, 0, 1)]) == SimpleLog(c, [Request(0, 0, 1)]) == [Entry(0, 1)]
  {
    assert [] + [Request(0, 0, 1)] == [Request(0, 0, 1)];
    OneMore(c, [], Request(0, 0, 1), KeyState([Entry(0, 1)], 2000), [Entry(0, 1)]);
    ScriptRefinesLog(c, [Request(0, 0, 1)]);
  }

  /** Past the slack the key expires while its one entry is still in the window. */
  lemma DriftShows(drift: nat)
    requires drift > SLACK_MS
    ensures var c, reqs := Config(1, 1), [Request(0, 0, 1), Request(999, 2000, 2)];
      ClocksOk(reqs, drift) && Decisions(c, reqs)[1] && !SimpleDecisions(c, reqs)[1]
  {
    var c, reqs := Config(1, 1), [Request(0, 0, 1), Request(999, 2000, 2)];
    assert reqs[..1] == [Request(0, 0, 1)];
    OneLogged(c);
    assert Window([Entry(0, 1)], 999, 1000) == {Entry(0, 1)};
  }

  /** The TTL is invisible exactly as long as the server's clock gains no more than the second of slack. */
  lemma ExpiryInvisibleIff(drift: nat)
    ensures (forall c, reqs | ClocksOk(reqs, drift) :: Decisions(c, reqs) == SimpleDecisions(c, reqs))
       <==> drift <= SLACK_MS
  {
    if drift <= SLACK_MS {
      forall c, reqs | ClocksOk(reqs, drift) ensures Decisions(c, reqs) == SimpleDecisions(c, reqs) {
        ScriptRefinesLog(c, reqs);
      }
    } else {
      DriftShows(drift);
      var c, reqs := Config(1, 1), [Request(0, 0, 1), Request(999, 2000, 2)];
      assert ClocksOk(reqs, drift) && Decisions(c, reqs) != SimpleDecisions(c, reqs);
    }
  }

  // ---- denied requests leave no trace ---------------------------------------------------------

  function Keep<T>(s: seq<T>, keep: seq<bool>): seq<T>
    requires |s| == |keep|
  {
    if s == [] then []
    else
      var n := |s| - 1;
      Keep(s[..n], keep[..n]) + if keep[n] then [s[n]] else []
  }

  lemma {:induction false} KeptAreMembers<T>(s: seq<T>, keep: seq<bool>)
    requires |s| == |keep|
    ensures forall x :: x in Keep(s, keep) ==> x in s
  {
    if s != [] {
      var n := |s| - 1;
      KeptAreMembers(s[..n], keep[..n]);
      assert s == s[..n] + [s[n]];
    }
  }

  lemma {:induction false} KeptClocksOk(reqs: seq<Request>, keep: seq<bool>, drift: nat)
    requires |reqs| == |keep| && ClocksOk(reqs, drift)
    ensures ClocksOk(Keep(reqs, keep), drift)
  {
    if reqs != [] {
      var n := |reqs| - 1;
      KeptClocksOk(reqs[..n], keep[..n], drift);
      KeptAreMembers(reqs[..n], keep[..n]);
      var front := Keep(reqs[..n], keep[..n]);
      forall i | 0 <= i < |front|
        ensures front[i].now <= reqs[n].now
        ensures (reqs[n].server - reqs[n].now) - (front[i].server - front[i].now) <= drift
      {
        assert front[i] in reqs[..n];
        var k :| 0 <= k < n && reqs[k] == front[i];
      }
    }
  }

  lemma SimpleNext(c: Config, reqs: seq<Request>, r: Request)
    ensures var log := SimpleLog(c, reqs);
      && SimpleLog(c, reqs + [r]) == (if SimpleAdmits(c, log, r) then log + [Entry(r.now, r.suffix)] else log)
      && SimpleDecisions(c, reqs + [r]) == SimpleDecisions(c, reqs) + [SimpleAdmits(c, log, r)]
  {
    assert (reqs + [r])[..|reqs|] == reqs;
    assert SimpleLog(c, reqs) + [] == SimpleLog(c, reqs);
  }

  lemma KeepNext<T>(s: seq<T>, keep: seq<bool>, x: T, k: bool)
    requires |s| == |keep|
    ensures Keep(s + [x], keep + [k]) == if k then Keep(s, keep) + [x] else Keep(s, keep)
  {
    assert (s + [x])[..|s|] == s && (keep + [k])[..|s|] == keep;
    assert Keep(s, keep) + [] == Keep(s, keep);
  }

  lemma {:induction false} SimpleDeniedLeaveNoTrace(c: Config, reqs: seq<Request>, keep: seq<bool>)
    requires |reqs| == |keep|
    requires forall i :: 0 <= i < |reqs| && !keep[i] ==> !SimpleDecisions(c, reqs)[i]
    ensures SimpleLog(c, Keep(reqs, keep)) == SimpleLog(c, reqs)
    ensures SimpleDecisions(c, Keep(reqs, keep)) == Keep(SimpleDecisions(c, reqs), keep)
  {
    if reqs != [] {
      var n := |reqs| - 1;
      var before, r, mask, k := reqs[..n], reqs[n], keep[..n], keep[n];
      var flags := SimpleDecisions(c, before);
      var a := SimpleAdmits(c, SimpleLog(c, before), r);
      assert before + [r] == reqs && mask + [k] == keep;
      SimpleNext(c, before, r);
      assert SimpleDecisions(c, reqs) == flags + [a];
      SimpleDeniedLeaveNoTrace(c, before, mask);
      KeepNext(before, mask, r, k);
      KeepNext(flags, mask, a, k);
      SimpleNext(c, Keep(before, mask), r);
    }
  }

  /** Striking any of the denied requests out of a run changes no remaining decision and no admission. */
  lemma DeniedLeaveNoTrace(c: Config, reqs: seq<Request>, keep: seq<bool>)
    requires |reqs| == |keep| && ClocksOk(reqs, SLACK_MS)
    requires forall i :: 0 <= i < |reqs| && !keep[i] ==> !Decisions(c, reqs)[i]
    ensures Log(c, Keep(reqs, keep)) == Log(c, reqs)
    ensures Decisions(c, Keep(reqs, keep)) == Keep(Decisions(c, reqs), keep)
  {
    ScriptRefinesLog(c, reqs);
    KeptClocksOk(reqs, keep, SLACK_MS);
    ScriptRefinesLog(c, Keep(reqs, keep));
    SimpleDeniedLeaveNoTrace(c, reqs, keep);
  }

  // ---- Retry-After ----------------------------------------------------------------------------

  lemma CeilDivBounds(x: int, s: nat)
    requires 0 < x <= 1000 * s
    ensures 1 <= CeilDiv1000(x) <= s
    ensures 1000 * (CeilDiv1000(x) - 1) < x <= 1000 * CeilDiv1000(x)
  {
  }

  ghost predicate IsOldest(oldest: Entry, window: set<Entry>) {
    oldest in window && forall e :: e in window ==> oldest.score <= e.score
  }

  lemma OldestFirst(s: seq<Entry>, window: set<Entry>)
    requires s != [] && Sorted(s) && (set e | e in s) == window
    ensures IsOldest(s[0], window)
  {
    assert forall e :: e in s <==> e in window;
  }

  /** The reply of the deny branch: whole seconds, rounded up, until the oldest kept entry leaves the window. */
  lemma RetryReply(c: Config, st: KeyState, r: Request, kept: seq<Entry>)
    requires kept == RemoveUpTo(Live(st, r.server), r.now - c.WindowMs())
    requires !Admits(c, st, r) && kept != [] && r.now - c.WindowMs() < kept[0].score <= r.now
    ensures var k := Serve(c, st, r).reply.retry;
      1 <= k <= c.windowS && r.now + 1000 * (k - 1) < kept[0].score + c.WindowMs() <= r.now + 1000 * k
  {
    CeilDivBounds(kept[0].score + c.WindowMs() - r.now, c.windowS);
  }

  lemma RetryOfDenied(c: Config, reqs: seq<Request>, r: Request) returns (oldest: Entry)
    requires c.limit >= 1 && ClocksOk(reqs + [r], SLACK_MS)
    requires !Admits(c, After(c, reqs), r)
    ensures var window := Window(Log(c, reqs), r.now, c.WindowMs());
      |window| == c.limit && IsOldest(oldest, window)
    ensures var k := Serve(c, After(c, reqs), r).reply.retry;
      1 <= k <= c.windowS && r.now + 1000 * (k - 1) < oldest.score + c.WindowMs() <= r.now + 1000 * k
  {
    var st, w := After(c, reqs), c.WindowMs();
    var kept := RemoveUpTo(Live(st, r.server), r.now - w);
    var window := Window(Log(c, reqs), r.now, w);
    assert Sorted(kept) && (set e | e in kept) == window && |kept| == |window| by {
      NextRequest(c, reqs, r);
    }
    assert |window| == c.limit by {
      DeniedIffWindowFull(c, reqs, r);
    }
    OldestFirst(kept, window);
    oldest := kept[0];
    RetryReply(c, st, r, kept);
  }

  /** Once denied, and with nothing admitted since, a request is admitted exactly when the oldest entry has left. */
  lemma AdmittedAgainWhen(c: Config, log: seq<Entry>, r: Request, later: Request, oldest: Entry)
    requires forall e :: e in log ==> e.score <= r.now
    requires |Window(log, r.now, c.WindowMs())| == c.limit && r.now <= later.now
    requires IsOldest(oldest, Window(log, r.now, c.WindowMs()))
    ensures SimpleAdmits(c, log, later) <==> later.now >= oldest.score + c.WindowMs()
  {
    var w := c.WindowMs();
    var first, again := Window(log, r.now, w), Window(log, later.now, w);
    if later.now >= oldest.score + w {
      SubsetCard(again, first - {oldest});
    } else {
      SubsetCard(first, again);
    }
  }

  /** After a denial, and with nothing admitted since, a request is admitted exactly from the moment the oldest
      entry of the window leaves. The Retry-After value k is that moment rounded up to seconds: k lies in 1..window,
      k seconds later is late enough and k - 1 seconds later is not. */
  lemma RetryAfterIsExact(
      c: Config, reqs: seq<Request>, r: Request, mid: seq<Request>, later: Request, oldest: Entry)
    requires c.limit >= 1 && ClocksOk(reqs + [r] + mid + [later], SLACK_MS)
    requires !Admits(c, After(c, reqs), r) && IsOldest(oldest, Window(Log(c, reqs), r.now, c.WindowMs()))
    requires Log(c, reqs + [r] + mid) == Log(c, reqs)
    ensures Admits(c, After(c, reqs + [r] + mid), later) <==> later.now >= oldest.score + c.WindowMs()
    ensures var k := Serve(c, After(c, reqs), r).reply.retry;
      && 1 <= k <= c.windowS
      && (later.now >= r.now + 1000 * k ==> Admits(c, After(c, reqs + [r] + mid), later))
      && (later.now <= r.now + 1000 * (k - 1) ==> !Admits(c, After(c, reqs + [r] + mid), later))
  {
    var before := reqs + [r] + mid;
    var run := before + [later];
    ClocksOkPrefix(run, |reqs| + 1, SLACK_MS);
    assert run[..|reqs| + 1] == reqs + [r];
    assert run[|reqs|] == r && run[|run| - 1] == later;
    var first := RetryOfDenied(c, reqs, r);
    assert first.score == oldest.score;
    NextRequest(c, reqs, r);
    AdmittedAgainWhen(c, Log(c, reqs), r, later, oldest);
    NextRequest(c, before, later);
  }

  lemma LogNext(c: Config, reqs: seq<Request>, r: Request)
    ensures Log(c, reqs + [r]) == Log(c, reqs) + if Admits(c, After(c, reqs), r) then [Entry(r.now, r.suffix)] else []
  {
    assert (reqs + [r])[..|reqs|] == reqs;
  }

  /** One more retry: nothing is admitted with it exactly if nothing was before and it comes too early. */
  lemma OneMoreRetry(c: Config, reqs: seq<Request>, r: Request, mid: seq<Request>, later: Request, oldest: Entry)
    requires c.limit >= 1 && ClocksOk(reqs + [r] + mid + [later], SLACK_MS)
    requires !Admits(c, After(c, reqs), r) && IsOldest(oldest, Window(Log(c, reqs), r.now, c.WindowMs()))
    requires Log(c, reqs) <= Log(c, reqs + [r] + mid)
    ensures Log(c, reqs) <= Log(c, reqs + [r] + mid + [later])
    ensures Log(c, reqs + [r] + mid + [later]) == Log(c, reqs) <==>
      Log(c, reqs + [r] + mid) == Log(c, reqs) && later.now < oldest.score + c.WindowMs()
  {
    var before := reqs + [r] + mid;
    LogNext(c, before, later);
    if Log(c, before) == Log(c, reqs) {
      RetryAfterIsExact(c, reqs, r, mid, later, oldest);
    }
  }

  lemma RetriesSplit(reqs: seq<Request>, r: Request, mid: seq<Request>, t: int)
    requires mid != [] && ClocksOk(reqs + [r] + mid, SLACK_MS)
    ensures var front, last := mid[..|mid| - 1], mid[|mid| - 1];
      && reqs + [r] + mid == reqs + [r] + front + [last]
      && ClocksOk(reqs + [r] + front, SLACK_MS)
      && ((forall later :: later in mid ==> later.now < t) <==>
          (forall later :: later in front ==> later.now < t) && last.now < t)
  {
    var front, last := mid[..|mid| - 1], mid[|mid| - 1];
    var before := reqs + [r] + front;
    assert mid == front + [last] && reqs + [r] + mid == before + [last];
    ClocksOkPrefix(before + [last], |before|, SLACK_MS);
    assert (before + [last])[..|before|] == before;
  }

  /** However many retries follow a denial, none is admitted exactly if all come before the oldest entry leaves. */
  lemma {:induction false} EarlyRetriesDeniedIff(
      c: Config, reqs: seq<Request>, r: Request, mid: seq<Request>, oldest: Entry)
    requires c.limit >= 1 && ClocksOk(reqs + [r] + mid, SLACK_MS)
    requires !Admits(c, After(c, reqs), r) && IsOldest(oldest, Window(Log(c, reqs), r.now, c.WindowMs()))
    ensures Log(c, reqs) <= Log(c, reqs + [r] + mid)
    ensures Log(c, reqs + [r] + mid) == Log(c, reqs) <==>
      forall later :: later in mid ==> later.now < oldest.score + c.WindowMs()
  {
    if mid == [] {
      assert reqs + [r] + mid == reqs + [r];
      LogNext(c, reqs, r);
    } else {
      var front, last := mid[..|mid| - 1], mid[|mid| - 1];
      RetriesSplit(reqs, r, mid, oldest.score + c.WindowMs());
      EarlyRetriesDeniedIff(c, reqs, r, front, oldest);
      OneMoreRetry(c, reqs, r, front, last, oldest);
    }
  }
}
