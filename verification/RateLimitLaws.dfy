/** What a client of one counter sees over whole runs: which limit binds, who is answered, and when to come back.
    Said of the answers and the request times alone, with the window of 1000 * windowS ms written out. */
module RateLimitLaws {
  import opened SlidingWindow
  import opened SlidingWindowSafety
  import opened Wrappers
  import opened RateLimiter

  /** The caller's override binds first; without one, paths under the three auth prefixes get the auth limit and
      all others the general one. */
  lemma LimitApplied(s: Settings, path: string, override: Option<int>)
    ensures override.Some? ==> ResolveLimit(s, path, override) == override.value
    ensures override == None ==>
      ResolveLimit(s, path, override)
      == if "/api/v1/auth/" <= path || "/api/v1/users/login" <= path || "/api/v1/users/register" <= path
         then s.authMaxRequests else s.maxRequests
  {
    assert AUTH_PREFIXES[0] == "/api/v1/auth/" && AUTH_PREFIXES[1] == "/api/v1/users/login";
    assert AUTH_PREFIXES[2] == "/api/v1/users/register" && |AUTH_PREFIXES| == 3;
  }

  /** What each request of a run is told. */
  function Answers(c: Config, reqs: seq<Request>): (answers: seq<Verdict>)
    ensures |answers| == |reqs|
  {
    if reqs == [] then []
    else
      var before := reqs[..|reqs| - 1];
      Answers(c, before) + [VerdictOf(Serve(c, After(c, before), reqs[|reqs| - 1]).reply)]
  }

  /** The requests answered with Allowed whose time lies in (t - w, t]. */
  ghost function Picked(answers: seq<Verdict>, reqs: seq<Request>, t: int, w: nat): (ids: set<nat>)
    requires |answers| == |reqs|
    ensures forall i :: i in ids ==> i < |reqs|
  {
    set i: nat | i < |reqs| && answers[i] == Allowed && t - w < reqs[i].now <= t
  }

  lemma PickedNext(answers: seq<Verdict>, reqs: seq<Request>, a: Verdict, r: Request, t: int, w: nat)
    requires |answers| == |reqs|
    ensures Picked(answers + [a], reqs + [r], t, w)
         == Picked(answers, reqs, t, w) + if a == Allowed && t - w < r.now <= t then {|reqs|} else {}
  {
  }

  /** The allowed requests of the window that ends at `t`. */
  ghost function AllowedIn(c: Config, reqs: seq<Request>, t: int): (ids: set<nat>)
    ensures forall i :: i in ids ==> i < |reqs|
  {
    Picked(Answers(c, reqs), reqs, t, 1000 * c.windowS)
  }

  lemma AnswersNext(c: Config, reqs: seq<Request>, r: Request)
    ensures Answers(c, reqs + [r]) == Answers(c, reqs) + [VerdictOf(Serve(c, After(c, reqs), r).reply)]
  {
    assert (reqs + [r])[..|reqs|] == reqs;
  }

  lemma AdmissionsNext(log: seq<Entry>, e: Entry, t: int, w: nat)
    ensures Admissions(log + [e], t, w)
         == if t - w < e.score <= t then Admissions(log, t, w) + [e] else Admissions(log, t, w)
  {
    assert (log + [e])[..|log|] == log;
  }

  lemma AllowedIsAdmitted(c: Config, st: KeyState, r: Request)
    requires c.limit >= 1
    ensures VerdictOf(Serve(c, st, r).reply) == Allowed <==> Admits(c, st, r)
  {
    DenialAlwaysRaisedIff(c);
  }

  lemma AllowedNext(c: Config, reqs: seq<Request>, r: Request, t: int)
    requires c.limit >= 1
    ensures AllowedIn(c, reqs + [r], t)
         == AllowedIn(c, reqs, t)
            + if Admits(c, After(c, reqs), r) && t - 1000 * c.windowS < r.now <= t then {|reqs|} else {}
  {
    var verdict := VerdictOf(Serve(c, After(c, reqs), r).reply);
    AnswersNext(c, reqs, r);
    AllowedIsAdmitted(c, After(c, reqs), r);
    PickedNext(Answers(c, reqs), reqs, verdict, r, t, 1000 * c.windowS);
  }

  /** Counting allowed requests is counting admissions. */
  lemma {:induction false} AllowedAreAdmissions(c: Config, reqs: seq<Request>, t: int)
    requires c.limit >= 1
    ensures |AllowedIn(c, reqs, t)| == |Admissions(Log(c, reqs), t, 1000 * c.windowS)|
  {
    if reqs != [] {
      var before, r := reqs[..|reqs| - 1], reqs[|reqs| - 1];
      assert reqs == before + [r];
      AllowedAreAdmissions(c, before, t);
      AllowedNext(c, before, r, t);
      LogNext(c, before, r);
      AdmissionsNext(Log(c, before), Entry(r.now, r.suffix), t, 1000 * c.windowS);
      assert Log(c, before) + [] == Log(c, before);
    } else {
      assert AllowedIn(c, reqs, t) == {};
    }
  }

  /** Over every run, at most `limit` requests whose time lies in any one window are answered with Allowed. */
  lemma AllowedBounded(c: Config, reqs: seq<Request>, t: int)
    requires c.limit >= 1 && ClocksOk(reqs, SLACK_MS) && MembersDiffer(reqs)
    ensures |AllowedIn(c, reqs, t)| <= c.limit
  {
    AdmissionsBounded(c, reqs, t);
    AllowedAreAdmissions(c, reqs, t);
  }

  /** And a request is answered with Allowed exactly when fewer than `limit` were in its own window. */
  lemma AllowedIff(c: Config, reqs: seq<Request>, r: Request)
    requires c.limit >= 1 && ClocksOk(reqs + [r], SLACK_MS) && MembersDiffer(reqs)
    ensures VerdictOf(Serve(c, After(c, reqs), r).reply) == Allowed <==> |AllowedIn(c, reqs, r.now)| < c.limit
  {
    var log := Log(c, reqs);
    RefusedIffWindowFull(c, reqs, r);
    NextRequest(c, reqs, r);
    WindowBounded(c, reqs, r.now);
    AllowedAreAdmissions(c, reqs, r.now);
    AdmissionsAreWindow(log, r.now, c.WindowMs());
    DifferentMembersDistinctLog(c, reqs);
    DistinctAdmissions(log, r.now, c.WindowMs());
    DistinctCard(Admissions(log, r.now, c.WindowMs()));
  }

  // ---- when to come back ------------------------------------------------------------------------

  lemma {:induction false} LoggedWasAllowed(c: Config, reqs: seq<Request>, t: int, e: Entry)
    requires c.limit >= 1 && e in Log(c, reqs) && t - 1000 * c.windowS < e.score <= t
    ensures exists i :: i in AllowedIn(c, reqs, t) && reqs[i].now == e.score
  {
    if reqs != [] {
      var before, r := reqs[..|reqs| - 1], reqs[|reqs| - 1];
      assert reqs == before + [r];
      LogNext(c, before, r);
      AllowedNext(c, before, r, t);
      if e in Log(c, before) {
        LoggedWasAllowed(c, before, t, e);
        var i :| i in AllowedIn(c, before, t) && before[i].now == e.score;
        assert i in AllowedIn(c, reqs, t) && reqs[i].now == e.score;
      } else {
        assert |before| in AllowedIn(c, reqs, t) && reqs[|before|].now == e.score;
      }
    }
  }

  lemma {:induction false} AllowedWasLogged(c: Config, reqs: seq<Request>, t: int, i: nat)
    requires c.limit >= 1 && i in AllowedIn(c, reqs, t)
    ensures exists e :: e in Window(Log(c, reqs), t, 1000 * c.windowS) && e.score == reqs[i].now
  {
    var before, r := reqs[..|reqs| - 1], reqs[|reqs| - 1];
    assert reqs == before + [r];
    LogNext(c, before, r);
    AllowedNext(c, before, r, t);
    if i < |before| {
      AllowedWasLogged(c, before, t, i);
      var e :| e in Window(Log(c, before), t, 1000 * c.windowS) && e.score == before[i].now;
      assert e in Window(Log(c, reqs), t, 1000 * c.windowS);
    } else {
      assert Entry(r.now, r.suffix) in Window(Log(c, reqs), t, 1000 * c.windowS);
    }
  }

  /** `first` is an allowed request of the window, and none of the others is older. */
  ghost predicate OldestAllowed(c: Config, reqs: seq<Request>, t: int, first: nat) {
    first in AllowedIn(c, reqs, t) && forall i :: i in AllowedIn(c, reqs, t) ==> reqs[first].now <= reqs[i].now
  }

  lemma OldestIsLogged(c: Config, reqs: seq<Request>, t: int, first: nat) returns (oldest: Entry)
    requires c.limit >= 1 && OldestAllowed(c, reqs, t, first)
    ensures IsOldest(oldest, Window(Log(c, reqs), t, c.WindowMs())) && oldest.score == reqs[first].now
  {
    var window := Window(Log(c, reqs), t, c.WindowMs());
    AllowedWasLogged(c, reqs, t, first);
    oldest :| oldest in window && oldest.score == reqs[first].now;
    forall e | e in window ensures oldest.score <= e.score {
      LoggedWasAllowed(c, reqs, t, e);
    }
  }

  /** The Retry-After a refused client is sent: the time until the oldest allowed request of its window is a whole
      window old, rounded up to seconds, from one second to the window's length. */
  lemma RetryAfterSent(c: Config, reqs: seq<Request>, r: Request, first: nat)
    requires c.limit >= 1 && ClocksOk(reqs + [r], SLACK_MS) && OldestAllowed(c, reqs, r.now, first)
    requires VerdictOf(Serve(c, After(c, reqs), r).reply).TooManyRequests?
    ensures var k := VerdictOf(Serve(c, After(c, reqs), r).reply).retryAfter;
      && 1 <= k <= c.windowS
      && r.now + 1000 * (k - 1) < reqs[first].now + 1000 * c.windowS <= r.now + 1000 * k
  {
    DenialAlwaysRaisedIff(c);
    var oldest := OldestIsLogged(c, reqs, r.now, first);
    var same := RetryOfDenied(c, reqs, r);
    assert same.score == oldest.score;
  }

  lemma {:induction false} RefusedAddNothing(c: Config, reqs: seq<Request>, mid: seq<Request>)
    requires c.limit >= 1
    requires forall i :: |reqs| <= i < |reqs| + |mid| ==> Answers(c, reqs + mid)[i].TooManyRequests?
    ensures Log(c, reqs + mid) == Log(c, reqs)
  {
    if mid == [] {
      assert reqs + mid == reqs;
    } else {
      var front, last := mid[..|mid| - 1], mid[|mid| - 1];
      assert reqs + mid == (reqs + front) + [last];
      AnswersNext(c, reqs + front, last);
      forall i | |reqs| <= i < |reqs| + |front| ensures Answers(c, reqs + front)[i].TooManyRequests? {
        assert Answers(c, reqs + mid)[i] == Answers(c, reqs + front)[i];
      }
      RefusedAddNothing(c, reqs, front);
      LogNext(c, reqs + front, last);
      AllowedIsAdmitted(c, After(c, reqs + front), last);
      assert Answers(c, reqs + mid)[|reqs + front|] == VerdictOf(Serve(c, After(c, reqs + front), last).reply);
    }
  }

  /** And it is honoured to the second: with only refusals in between, the client is allowed in again exactly from
      the moment that request is a window old; so after the seconds it was sent, and not a second sooner. */
  lemma RetryAfterHonoured(
      c: Config, reqs: seq<Request>, r: Request, k: int, mid: seq<Request>, later: Request, first: nat)
    requires c.limit >= 1 && ClocksOk(reqs + [r] + mid + [later], SLACK_MS)
    requires OldestAllowed(c, reqs, r.now, first)
    requires VerdictOf(Serve(c, After(c, reqs), r).reply) == TooManyRequests(k)
    requires forall i :: |reqs| + 1 <= i < |reqs| + 1 + |mid| ==> Answers(c, reqs + [r] + mid)[i].TooManyRequests?
    ensures var verdict := VerdictOf(Serve(c, After(c, reqs + [r] + mid), later).reply);
      && (verdict == Allowed <==> later.now >= reqs[first].now + 1000 * c.windowS)
      && (later.now >= r.now + 1000 * k ==> verdict == Allowed)
      && (later.now <= r.now + 1000 * (k - 1) ==> verdict.TooManyRequests?)
  {
    AllowedIsAdmitted(c, After(c, reqs), r);
    LogNext(c, reqs, r);
    RefusedAddNothing(c, reqs + [r], mid);
    AllowedIsAdmitted(c, After(c, reqs + [r] + mid), later);
    var oldest := OldestIsLogged(c, reqs, r.now, first);
    assert Log(c, reqs + [r] + mid) == Log(c, reqs);
    RetryAfterIsExact(c, reqs, r, mid, later, oldest);
  }
}
