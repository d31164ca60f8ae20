/** One key of the rate limiter: the Lua script over the key's sorted set, and the log it must agree with. */
module SlidingWindow {

  /** A member of the sorted set, `"<now>:<suffix>"`, whose score is the time in the name. */
  datatype Entry = Entry(score: int, suffix: nat)

  /** A sorted set and the server time at which its TTL removes it; an absent key has no entries. */
  datatype KeyState = KeyState(entries: seq<Entry>, deadline: int)

  /** A script call: the gateway's clock, the Redis server's clock (both ms) and the random suffix drawn. */
  datatype Request = Request(now: int, server: int, suffix: nat)

  datatype Reply = Reply(count: int, retry: int)

  datatype Step = Step(state: KeyState, reply: Reply)

  /** Window length in seconds and requests allowed in it. */
  datatype Config = Config(windowS: nat, limit: int) {
    function WindowMs(): nat { 1000 * windowS }
    function TtlS(): nat { windowS + 1 }
  }

  const ABSENT := KeyState([], 0)

  // ---- Redis commands ----------------------------------------------------------------------

  /** ZREMRANGEBYSCORE key -inf start */
  function RemoveUpTo(s: seq<Entry>, start: int): seq<Entry> {
    if s == [] then []
    else if s[0].score <= start then RemoveUpTo(s[1..], start)
    else [s[0]] + RemoveUpTo(s[1..], start)
  }

  /** The position ZADD gives a new entry; the order inside one score does not matter to the script. */
  function Insert(s: seq<Entry>, e: Entry): seq<Entry> {
    if s == [] || e.score < s[0].score then [e] + s else [s[0]] + Insert(s[1..], e)
  }

  /** ZADD: a member already there keeps its one entry (its score is part of its name). */
  function ZAdd(s: seq<Entry>, e: Entry): seq<Entry> {
    if e in s then s else Insert(s, e)
  }

  /** What the server still holds for the key: nothing once the TTL has run out. */
  function Live(st: KeyState, server: int): seq<Entry> {
    if server >= st.deadline then [] else st.entries
  }

  function CeilDiv1000(x: int): int { -((-x) / 1000) }

  /** The script. */
  function Serve(c: Config, st: KeyState, r: Request): Step {
    var kept := RemoveUpTo(Live(st, r.server), r.now - c.WindowMs());
    var count := |kept|;
    if count >= c.limit then
      var retry := if kept == [] then 0 else CeilDiv1000(kept[0].score + c.WindowMs() - r.now);
      Step(KeyState(kept, st.deadline), Reply(count, retry))
    else
      Step(KeyState(ZAdd(kept, Entry(r.now, r.suffix)), r.server + 1000 * c.TtlS()), Reply(count + 1, 0))
  }

  /** The script takes its add branch. */
  predicate Admits(c: Config, st: KeyState, r: Request) {
    |RemoveUpTo(Live(st, r.server), r.now - c.WindowMs())| < c.limit
  }

  // ---- runs of one key ---------------------------------------------------------------------

  function After(c: Config, reqs: seq<Request>): KeyState {
    if reqs == [] then ABSENT
    else Serve(c, After(c, reqs[..|reqs| - 1]), reqs[|reqs| - 1]).state
  }

  /** One flag per request of the run: was it admitted? */
  function Decisions(c: Config, reqs: seq<Request>): (flags: seq<bool>)
    ensures |flags| == |reqs|
  {
    if reqs == [] then []
    else
      var before := reqs[..|reqs| - 1];
      Decisions(c, before) + [Admits(c, After(c, before), reqs[|reqs| - 1])]
  }

  /** What was admitted, one item per admission: the log the real script does not keep. */
  function Log(c: Config, reqs: seq<Request>): seq<Entry> {
    if reqs == [] then []
    else
      var before, r := reqs[..|reqs| - 1], reqs[|reqs| - 1];
      Log(c, before) + if Admits(c, After(c, before), r) then [Entry(r.now, r.suffix)] else []
  }

  // ---- the simple limiter: an unbounded log filtered by the window ----------------------------

  /** The distinct members of a log inside the window (t - w, t]. */
  function Window(log: seq<Entry>, t: int, w: nat): set<Entry> {
    set e | e in log && t - w < e.score <= t
  }

  /** The admissions of a log inside (t - w, t], repeats included. */
  function Admissions(log: seq<Entry>, t: int, w: nat): seq<Entry> {
    if log == [] then []
    else
      var rest := Admissions(log[..|log| - 1], t, w);
      var e := log[|log| - 1];
      if t - w < e.score <= t then rest + [e] else rest
  }

  predicate SimpleAdmits(c: Config, log: seq<Entry>, r: Request) {
    |Window(log, r.now, c.WindowMs())| < c.limit
  }

  function SimpleLog(c: Config, reqs: seq<Request>): seq<Entry> {
    if reqs == [] then []
    else
      var log, r := SimpleLog(c, reqs[..|reqs| - 1]), reqs[|reqs| - 1];
      log + if SimpleAdmits(c, log, r) then [Entry(r.now, r.suffix)] else []
  }

  function SimpleDecisions(c: Config, reqs: seq<Request>): (flags: seq<bool>)
    ensures |flags| == |reqs|
  {
    if reqs == [] then []
    else
      var before := reqs[..|reqs| - 1];
      SimpleDecisions(c, before) + [SimpleAdmits(c, SimpleLog(c, before), reqs[|reqs| - 1])]
  }

  /** The gateway's clock never goes back, and against it the server's clock never gains more than `drift` ms. */
  ghost predicate ClocksOk(reqs: seq<Request>, drift: nat) {
    forall i, j :: 0 <= i < j < |reqs| ==>
      reqs[i].now <= reqs[j].now &&
      (reqs[j].server - reqs[j].now) - (reqs[i].server - reqs[i].now) <= drift
  }

  /** The TTL is window + 1 s: one second of slack. */
  const SLACK_MS: nat := 1000

  // ---- refinement --------------------------------------------------------------------------

  ghost predicate Sorted(s: seq<Entry>) {
    forall i, j :: 0 <= i < j < |s| ==> s[i].score <= s[j].score
  }

  ghost predicate Distinct<T>(s: seq<T>) {
    forall i, j :: 0 <= i < j < |s| ==> s[i] != s[j]
  }

  lemma {:induction false} RemoveUpToMembers(s: seq<Entry>, start: int)
    ensures forall e :: e in RemoveUpTo(s, start) <==> e in s && start < e.score
  {
    if s != [] {
      RemoveUpToMembers(s[1..], start);
      assert s == [s[0]] + s[1..];
    }
  }

  lemma PrependKeeps(e: Entry, s: seq<Entry>)
    requires Sorted(s) && Distinct(s)
    requires forall x :: x in s ==> x != e && e.score <= x.score
    ensures Sorted([e] + s) && Distinct([e] + s)
  {
    assert forall i :: 0 <= i < |s| ==> s[i] in s;
  }

  lemma {:induction false} RemoveUpToKeeps(s: seq<Entry>, start: int)
    requires Sorted(s) && Distinct(s)
    ensures Sorted(RemoveUpTo(s, start)) && Distinct(RemoveUpTo(s, start))
  {
    if s != [] {
      var rest := RemoveUpTo(s[1..], start);
      RemoveUpToKeeps(s[1..], start);
      RemoveUpToMembers(s[1..], start);
      forall x | x in rest ensures x != s[0] && s[0].score <= x.score {
        var i :| 0 <= i < |s[1..]| && s[1..][i] == x;
        assert s[i + 1] == x;
      }
      PrependKeeps(s[0], rest);
    }
  }

  lemma {:induction false} InsertLast(s: seq<Entry>, e: Entry)
    requires forall x :: x in s ==> x.score <= e.score
    ensures Insert(s, e) == s + [e]
  {
    if s != [] {
      assert s[0] in s;
      InsertLast(s[1..], e);
      assert s == [s[0]] + s[1..];
    }
  }

  lemma {:induction false} DistinctCard<T>(s: seq<T>)
    ensures |set x | x in s| <= |s|
    ensures |set x | x in s| == |s| <==> Distinct(s)
  {
    if s != [] {
      var front, last := s[..|s| - 1], s[|s| - 1];
      DistinctCard(front);
      var all, most := set x | x in s, set x | x in front;
      assert s == front + [last];
      assert all == most + {last};
      if last in front {
        assert all == most;
        var i :| 0 <= i < |front| && front[i] == last;
        assert s[i] == s[|s| - 1];
      } else {
        assert Distinct(front) ==> Distinct(s);
      }
      assert Distinct(s) ==> Distinct(front);
    }
  }

  lemma ListsSet<T>(s: seq<T>, all: set<T>)
    requires Distinct(s) && forall x :: x in s <==> x in all
    ensures (set x | x in s) == all && |s| == |all|
  {
    DistinctCard(s);
    assert (set x | x in s) == all;
  }

  lemma DistinctAppend<T>(s: seq<T>, e: T)
    requires Distinct(s) && forall x :: x in s ==> x != e
    ensures Distinct(s + [e])
  {
    assert forall i :: 0 <= i < |s| ==> s[i] in s;
  }

  lemma SubsetCard<T>(a: set<T>, b: set<T>)
    requires a <= b
    ensures |a| <= |b|
  {
    assert b == a + (b - a);
  }

  /** The set holds every logged member newer than now - w, and nothing that was not logged. */
  ghost predicate Mirrors(s: seq<Entry>, log: seq<Entry>, now: int, w: nat) {
    && Sorted(s) && Distinct(s)
    && (forall e :: e in s ==> e in log)
    && (forall e :: e in log ==> e.score <= now && (now - w < e.score ==> e in s))
  }

  /** The TTL was last set by a request of the run that is no older than any admission. */
  ghost predicate TtlFollows(c: Config, reqs: seq<Request>, deadline: int, log: seq<Entry>) {
    exists i :: 0 <= i < |reqs| && SetBy(c, reqs[i], deadline, log)
  }

  ghost predicate SetBy(c: Config, r: Request, deadline: int, log: seq<Entry>) {
    deadline == r.server + 1000 * c.TtlS() && forall e :: e in log ==> e.score <= r.now
  }

  /** How the trimmed, expiring set stands against the full log, after the run `reqs`. */
  ghost predicate Represents(c: Config, reqs: seq<Request>, st: KeyState, log: seq<Entry>) {
    if reqs == [] then st.entries == [] && log == []
    else
      && Mirrors(st.entries, log, reqs[|reqs| - 1].now, c.WindowMs())
      && (log != [] ==> TtlFollows(c, reqs, st.deadline, log))
  }

  /** Whether or not the TTL struck, what is still in the window is still in the set. */
  lemma YoungAreLive(c: Config, reqs: seq<Request>, st: KeyState, log: seq<Entry>, r: Request)
    requires Represents(c, reqs, st, log)
    requires ClocksOk(reqs + [r], SLACK_MS)
    ensures forall e :: e in Live(st, r.server) ==> e in log
    ensures forall e :: e in log ==> e.score <= r.now && (r.now - c.WindowMs() < e.score ==> e in Live(st, r.server))
  {
    var run := reqs + [r];
    if reqs != [] {
      assert run[|reqs| - 1] == reqs[|reqs| - 1] && run[|reqs|] == r;
    }
    if log != [] && r.server >= st.deadline {
      var i :| 0 <= i < |reqs| && SetBy(c, reqs[i], st.deadline, log);
      assert run[i] == reqs[i] && run[|reqs|] == r;
      assert r.now >= reqs[i].now + c.WindowMs();
    }
  }

  /** After the trim the set is the log filtered to (now - window, now], whether or not the TTL struck. */
  lemma TrimmedIsWindow(c: Config, reqs: seq<Request>, st: KeyState, log: seq<Entry>, r: Request)
    requires Represents(c, reqs, st, log)
    requires ClocksOk(reqs + [r], SLACK_MS)
    ensures var kept := RemoveUpTo(Live(st, r.server), r.now - c.WindowMs());
      && Sorted(kept) && Distinct(kept)
      && (set e | e in kept) == Window(log, r.now, c.WindowMs())
      && |kept| == |Window(log, r.now, c.WindowMs())|
  {
    var w := c.WindowMs();
    var live := Live(st, r.server);
    var kept := RemoveUpTo(live, r.now - w);
    RemoveUpToKeeps(live, r.now - w);
    RemoveUpToMembers(live, r.now - w);
    YoungAreLive(c, reqs, st, log, r);
    ListsSet(kept, Window(log, r.now, w));
  }

  lemma AddMirrors(kept: seq<Entry>, log: seq<Entry>, e: Entry, w: nat)
    requires Sorted(kept) && Distinct(kept)
    requires (set x | x in kept) == Window(log, e.score, w)
    requires forall x :: x in log ==> x.score <= e.score
    ensures Mirrors(ZAdd(kept, e), log + [e], e.score, w)
  {
    assert forall x :: x in kept <==> x in Window(log, e.score, w);
    if e !in kept { InsertLast(kept, e); }
    var s := if e in kept then kept else kept + [e];
    assert Sorted(s) && Distinct(s);
    forall x | x in s ensures x in log + [e] {}
    forall x | x in log + [e] ensures x.score <= e.score && (e.score - w < x.score ==> x in s) {
      if x != e { assert x in log; }
    }
  }

  lemma TtlStillFollows(c: Config, reqs: seq<Request>, r: Request, deadline: int, log: seq<Entry>)
    requires TtlFollows(c, reqs, deadline, log)
    ensures TtlFollows(c, reqs + [r], deadline, log)
  {
    var i :| 0 <= i < |reqs| && SetBy(c, reqs[i], deadline, log);
    assert SetBy(c, (reqs + [r])[i], deadline, log);
  }

  lemma LogNotAhead(c: Config, reqs: seq<Request>, st: KeyState, log: seq<Entry>, r: Request, drift: nat)
    requires Represents(c, reqs, st, log) && ClocksOk(reqs + [r], drift)
    ensures forall e :: e in log ==> e.score <= r.now
  {
    if reqs != [] {
      assert (reqs + [r])[|reqs| - 1] == reqs[|reqs| - 1] && (reqs + [r])[|reqs|] == r;
    }
  }

  lemma ServeKeepsRepresents(c: Config, reqs: seq<Request>, st: KeyState, log: seq<Entry>, r: Request)
    requires Represents(c, reqs, st, log)
    requires ClocksOk(reqs + [r], SLACK_MS)
    ensures Admits(c, st, r) <==> SimpleAdmits(c, log, r)
    ensures Represents(c, reqs + [r], Serve(c, st, r).state,
                       if SimpleAdmits(c, log, r) then log + [Entry(r.now, r.suffix)] else log)
  {
    var e, w := Entry(r.now, r.suffix), c.WindowMs();
    var kept := RemoveUpTo(Live(st, r.server), r.now - w);
    TrimmedIsWindow(c, reqs, st, log, r);
    LogNotAhead(c, reqs, st, log, r, SLACK_MS);
    if SimpleAdmits(c, log, r) {
      AddMirrors(kept, log, e, w);
      assert SetBy(c, (reqs + [r])[|reqs|], r.server + 1000 * c.TtlS(), log + [e]);
    } else {
      assert forall x :: x in kept <==> x in Window(log, r.now, w);
      assert Mirrors(kept, log, r.now, w);
      if log != [] {
        TtlStillFollows(c, reqs, r, st.deadline, log);
      }
    }
  }

  lemma ClocksOkPrefix(reqs: seq<Request>, n: nat, drift: nat)
    requires n <= |reqs| && ClocksOk(reqs, drift)
    ensures ClocksOk(reqs[..n], drift)
  {
  }

  /** The trimmed, expiring sorted set decides every run as the unbounded log does. */
  lemma {:induction false} ScriptRefinesLog(c: Config, reqs: seq<Request>)
    requires ClocksOk(reqs, SLACK_MS)
    ensures Decisions(c, reqs) == SimpleDecisions(c, reqs)
    ensures Log(c, reqs) == SimpleLog(c, reqs)
    ensures Represents(c, reqs, After(c, reqs), Log(c, reqs))
  {
    if reqs != [] {
      var before, r := reqs[..|reqs| - 1], reqs[|reqs| - 1];
      assert before + [r] == reqs;
      ScriptRefinesLog(c, before);
      ServeKeepsRepresents(c, before, After(c, before), Log(c, before), r);
      assert Log(c, before) + [] == Log(c, before);
    }
  }

  /** The next request of a run, seen from the log alone. */
  lemma NextRequest(c: Config, reqs: seq<Request>, r: Request)
    requires ClocksOk(reqs + [r], SLACK_MS)
    ensures ClocksOk(reqs, SLACK_MS)
    ensures forall e :: e in Log(c, reqs) ==> e.score <= r.now
    ensures Admits(c, After(c, reqs), r) <==> SimpleAdmits(c, Log(c, reqs), r)
    ensures Log(c, reqs + [r])
         == Log(c, reqs) + if SimpleAdmits(c, Log(c, reqs), r) then [Entry(r.now, r.suffix)] else []
    ensures var kept := RemoveUpTo(Live(After(c, reqs), r.server), r.now - c.WindowMs());
      && Sorted(kept) && Distinct(kept)
      && (set e | e in kept) == Window(Log(c, reqs), r.now, c.WindowMs())
      && |kept| == |Window(Log(c, reqs), r.now, c.WindowMs())|
  {
    var st, log := After(c, reqs), Log(c, reqs);
    assert (reqs + [r])[..|reqs|] == reqs;
    ScriptRefinesLog(c, reqs);
    ServeKeepsRepresents(c, reqs, st, log, r);
    LogNotAhead(c, reqs, st, log, r, SLACK_MS);
    TrimmedIsWindow(c, reqs, st, log, r);
  }
}
