/** The gateway's rate limiter: the keys in Redis, the limit of a path and the 429 decision. */
module RateLimiter {
  import opened SlidingWindow
  import opened SlidingWindowSafety
  import opened Wrappers

  const AUTH_PREFIXES: seq<string> := ["/api/v1/auth/", "/api/v1/users/login", "/api/v1/users/register"]

  datatype Settings = Settings(windowS: nat, maxRequests: int, authMaxRequests: int)

  predicate IsAuthPath(path: string) {
    exists i :: 0 <= i < |AUTH_PREFIXES| && AUTH_PREFIXES[i] <= path
  }

  function ResolveLimit(s: Settings, path: string, override: Option<int>): int {
    if override.Some? then override.value
    else if IsAuthPath(path) then s.authMaxRequests
    else s.maxRequests
  }

  function KeyOf(verb: string, path: string, ip: string): string {
    "rate:" + verb + ":" + path + ":" + ip
  }

  /** What the limiter reads of an HTTP request. */
  datatype Call = Call(client: Option<string>, verb: string, path: string)

  datatype Verdict = Allowed | TooManyRequests(retryAfter: int)

  function VerdictOf(reply: Reply): Verdict {
    if reply.retry > 0 then TooManyRequests(reply.retry) else Allowed
  }

  class Limiter {
    const settings: Settings
    var keys: map<string, KeyState>

    constructor (settings: Settings)
      ensures this.settings == settings && keys == map[]
    {
      this.settings := settings;
      keys := map[];
    }

    function StateOf(key: string): KeyState
      reads this
    {
      if key in keys then keys[key] else ABSENT
    }

    /** The Lua script, command by command. */
    method Eval(key: string, c: Config, r: Request) returns (reply: Reply)
      modifies this
      ensures reply == Serve(c, old(StateOf(key)), r).reply
      ensures keys == old(keys)[key := Serve(c, old(StateOf(key)), r).state]
    {
      var st := StateOf(key);
      var entries := RemoveUpTo(Live(st, r.server), r.now - c.WindowMs());
      keys := keys[key := KeyState(entries, st.deadline)];
      var count := |entries|;
      if count >= c.limit {
        var retry := 0;
        if entries != [] {
          retry := CeilDiv1000(entries[0].score + c.WindowMs() - r.now);
        }
        return Reply(count, retry);
      }
      entries := ZAdd(entries, Entry(r.now, r.suffix));
      keys := keys[key := KeyState(entries, r.server + 1000 * c.TtlS())];
      return Reply(count + 1, 0);
    }

    /** Without a client address or without Redis the request passes and nothing is recorded. */
    method CheckRateLimit(call: Call, override: Option<int>, r: Request, redisUp: bool) returns (verdict: Verdict)
      modifies this
      ensures call.client.None? || !redisUp ==> verdict == Allowed && keys == old(keys)
      ensures call.client.Some? && redisUp ==>
        var c := Config(settings.windowS, ResolveLimit(settings, call.path, override));
        var key := KeyOf(call.verb, call.path, call.client.value);
        var reply := Serve(c, old(StateOf(key)), r).reply;
        && keys == old(keys)[key := Serve(c, old(StateOf(key)), r).state]
        && verdict == (if reply.retry > 0 then TooManyRequests(reply.retry) else Allowed) == VerdictOf(reply)
    {
      if call.client.None? {
        return Allowed;
      }
      var limit := ResolveLimit(settings, call.path, override);
      var key := KeyOf(call.verb, call.path, call.client.value);
      if !redisUp {
        return Allowed;
      }
      var reply := Eval(key, Config(settings.windowS, limit), r);
      if reply.retry > 0 {
        return TooManyRequests(reply.retry);
      }
      return Allowed;
    }
  }

  // ---- the 429 decision ------------------------------------------------------------------------

  lemma {:induction false} KeptAreYoung(s: seq<Entry>, start: int)
    ensures forall i :: 0 <= i < |RemoveUpTo(s, start)| ==> start < RemoveUpTo(s, start)[i].score
  {
    if s != [] {
      KeptAreYoung(s[1..], start);
    }
  }

  /** A 429 is raised exactly when the script takes its deny branch and still holds an entry. */
  lemma RaisedIff(c: Config, st: KeyState, r: Request)
    ensures VerdictOf(Serve(c, st, r).reply).TooManyRequests?
       <==> !Admits(c, st, r) && RemoveUpTo(Live(st, r.server), r.now - c.WindowMs()) != []
  {
    KeptAreYoung(Live(st, r.server), r.now - c.WindowMs());
  }

  /** So the deny branch is always signalled exactly for positive limits; a limit of zero lets everything pass. */
  lemma DenialAlwaysRaisedIff(c: Config)
    ensures (forall st, r :: VerdictOf(Serve(c, st, r).reply).TooManyRequests? <==> !Admits(c, st, r)) <==> c.limit >= 1
  {
    if c.limit >= 1 {
      forall st, r ensures VerdictOf(Serve(c, st, r).reply).TooManyRequests? <==> !Admits(c, st, r) {
        RaisedIff(c, st, r);
      }
    } else {
      var r := Request(0, 0, 1);
      assert VerdictOf(Serve(c, ABSENT, r).reply).Allowed? && !Admits(c, ABSENT, r);
    }
  }

  lemma {:induction false} NonPositiveLimitNeverRaises(c: Config, reqs: seq<Request>, r: Request)
    requires c.limit <= 0
    ensures After(c, reqs).entries == []
    ensures VerdictOf(Serve(c, After(c, reqs), r).reply) == Allowed
  {
    if reqs != [] {
      NonPositiveLimitNeverRaises(c, reqs[..|reqs| - 1], r);
    }
  }

  /** Over a whole run with a positive limit, a request is refused exactly when its window is full. */
  lemma RefusedIffWindowFull(c: Config, reqs: seq<Request>, r: Request)
    requires c.limit >= 1 && ClocksOk(reqs + [r], SLACK_MS)
    ensures VerdictOf(Serve(c, After(c, reqs), r).reply).TooManyRequests?
       <==> |Window(Log(c, reqs), r.now, c.WindowMs())| == c.limit
  {
    DenialAlwaysRaisedIff(c);
    DeniedIffWindowFull(c, reqs, r);
  }

  // ---- many keys -------------------------------------------------------------------------------

  datatype KeyedRequest = KeyedRequest(key: string, request: Request)

  function Lookup(store: map<string, KeyState>, key: string): KeyState {
    if key in store then store[key] else ABSENT
  }

  function StoreAfter(windowS: nat, limits: string -> int, run: seq<KeyedRequest>): map<string, KeyState> {
    if run == [] then map[]
    else
      var store, e := StoreAfter(windowS, limits, run[..|run| - 1]), run[|run| - 1];
      store[e.key := Serve(Config(windowS, limits(e.key)), Lookup(store, e.key), e.request).state]
  }

  /** One flag per request, over all keys. */
  function KeyedDecisions(windowS: nat, limits: string -> int, run: seq<KeyedRequest>): (flags: seq<bool>)
    ensures |flags| == |run|
  {
    if run == [] then []
    else
      var before, e := run[..|run| - 1], run[|run| - 1];
      KeyedDecisions(windowS, limits, before)
        + [Admits(Config(windowS, limits(e.key)), Lookup(StoreAfter(windowS, limits, before), e.key), e.request)]
  }

  /** The requests of one key. */
  function Project(run: seq<KeyedRequest>, key: string): seq<Request> {
    if run == [] then []
    else
      var e := run[|run| - 1];
      Project(run[..|run| - 1], key) + if e.key == key then [e.request] else []
  }

  /** Which requests of a run are the key's. */
  function Mask(run: seq<KeyedRequest>, key: string): (mask: seq<bool>)
    ensures |mask| == |run|
  {
    seq(|run|, i requires 0 <= i < |run| => run[i].key == key)
  }

  lemma {:induction false} KeyStateIsItsOwn(windowS: nat, limits: string -> int, run: seq<KeyedRequest>, key: string)
    ensures Lookup(StoreAfter(windowS, limits, run), key) == After(Config(windowS, limits(key)), Project(run, key))
  {
    if run != [] {
      var before, e := run[..|run| - 1], run[|run| - 1];
      var mine := Project(before, key);
      KeyStateIsItsOwn(windowS, limits, before, key);
      assert (mine + [e.request])[..|mine|] == mine && mine + [] == mine;
    }
  }

  lemma MaskNext(run: seq<KeyedRequest>, e: KeyedRequest, key: string)
    ensures Mask(run + [e], key) == Mask(run, key) + [e.key == key]
  {
  }

  lemma DecisionsNext(c: Config, reqs: seq<Request>, r: Request)
    ensures Decisions(c, reqs + [r]) == Decisions(c, reqs) + [Admits(c, After(c, reqs), r)]
  {
    assert (reqs + [r])[..|reqs|] == reqs;
  }

  /** One more request of any key adds its flag to the decisions of its own key only. */
  lemma KeyedNext(windowS: nat, limits: string -> int, run: seq<KeyedRequest>, e: KeyedRequest, key: string)
    requires Keep(KeyedDecisions(windowS, limits, run), Mask(run, key))
          == Decisions(Config(windowS, limits(key)), Project(run, key))
    ensures Keep(KeyedDecisions(windowS, limits, run + [e]), Mask(run + [e], key))
         == Decisions(Config(windowS, limits(key)), Project(run + [e], key))
  {
    var flags, mine := KeyedDecisions(windowS, limits, run), Project(run, key);
    var a := Admits(Config(windowS, limits(e.key)), Lookup(StoreAfter(windowS, limits, run), e.key), e.request);
    assert (run + [e])[..|run|] == run;
    assert KeyedDecisions(windowS, limits, run + [e]) == flags + [a];
    MaskNext(run, e, key);
    KeepNext(flags, Mask(run, key), a, e.key == key);
    if e.key == key {
      KeyStateIsItsOwn(windowS, limits, run, key);
      DecisionsNext(Config(windowS, limits(key)), mine, e.request);
    } else {
      assert mine + [] == mine;
    }
  }

  /** In any interleaving, a key's state and decisions are those of its own requests alone. */
  lemma {:induction false} KeysDoNotInteract(windowS: nat, limits: string -> int, run: seq<KeyedRequest>, key: string)
    ensures Lookup(StoreAfter(windowS, limits, run), key) == After(Config(windowS, limits(key)), Project(run, key))
    ensures Keep(KeyedDecisions(windowS, limits, run), Mask(run, key))
         == Decisions(Config(windowS, limits(key)), Project(run, key))
  {
    KeyStateIsItsOwn(windowS, limits, run, key);
    if run == [] {
      assert Mask(run, key) == [];
    } else {
      var before, e := run[..|run| - 1], run[|run| - 1];
      assert run == before + [e];
      KeysDoNotInteract(windowS, limits, before, key);
      KeyedNext(windowS, limits, before, e, key);
    }
  }

  // ---- key names -------------------------------------------------------------------------------

  lemma SplitAtFirstColon(a: string, x: string, b: string, y: string)
    requires ':' !in a && ':' !in b && a + ":" + x == b + ":" + y
    ensures a == b && x == y
  {
    var s := a + ":" + x;
    assert s[|a|] == ':' && s[|b|] == ':';
    assert s[..|a|] == a && s[..|b|] == b;
    assert forall i :: 0 <= i < |a| ==> s[i] == a[i] && s[i] in a;
    assert forall i :: 0 <= i < |b| ==> s[i] == b[i] && s[i] in b;
    assert s[|a| + 1..] == x && s[|b| + 1..] == y;
  }

  lemma SplitAtLastColon(x: string, a: string, y: string, b: string)
    requires ':' !in a && ':' !in b && x + ":" + a == y + ":" + b
    ensures a == b && x == y
  {
    var s := x + ":" + a;
    assert s[|x|] == ':' && s[|y|] == ':';
    assert s[|x| + 1..] == a && s[|y| + 1..] == b;
    assert forall i :: |x| < i < |s| ==> s[i] == a[i - |x| - 1] && s[i] in a;
    assert forall i :: |y| < i < |s| ==> s[i] == b[i - |y| - 1] && s[i] in b;
    assert s[..|x|] == x && s[..|y|] == y;
  }

  /** Two requests share a counter exactly when they agree on the verb and on path:client as one string. */
  lemma KeysSharedIff(verb: string, path: string, ip: string, verb': string, path': string, ip': string)
    requires ':' !in verb && ':' !in verb'
    ensures KeyOf(verb, path, ip) == KeyOf(verb', path', ip') <==> verb == verb' && path + ":" + ip == path' + ":" + ip'
  {
    var s, s' := path + ":" + ip, path' + ":" + ip';
    assert KeyOf(verb, path, ip) == "rate:" + (verb + ":" + s);
    assert KeyOf(verb', path', ip') == "rate:" + (verb' + ":" + s');
    if KeyOf(verb, path, ip) == KeyOf(verb', path', ip') {
      assert KeyOf(verb, path, ip)[5..] == verb + ":" + s == verb' + ":" + s';
      SplitAtFirstColon(verb, s, verb', s');
    }
  }

  /** For client addresses without a colon a key names one verb, one path and one client. */
  lemma KeysDistinguishClients(verb: string, path: string, ip: string, verb': string, path': string, ip': string)
    requires ':' !in verb && ':' !in verb' && ':' !in ip && ':' !in ip'
    requires KeyOf(verb, path, ip) == KeyOf(verb', path', ip')
    ensures verb == verb' && path == path' && ip == ip'
  {
    KeysSharedIff(verb, path, ip, verb', path', ip');
    SplitAtLastColon(path, ip, path', ip');
  }

  /** One address is the other with something and a colon in front. */
  predicate EndsWithAddress(long: string, short: string) {
    |short| < |long| && long[|long| - |short| - 1] == ':' && long[|long| - |short|..] == short
  }

  lemma SharedKeyNests(path: string, ip: string, path': string, ip': string)
    requires path + ":" + ip == path' + ":" + ip' && |ip| >= |ip'|
    ensures ip == ip' || EndsWithAddress(ip, ip')
  {
    var s, n := path + ":" + ip, |ip| - |ip'|;
    assert |path'| == |path| + n;
    assert s[|path| + 1..] == ip && s[|path'| + 1..] == ip';
    assert ip[n..] == s[|path| + 1 + n..];
    assert s[|path'|] == ':' && (n > 0 ==> s[|path'|] == ip[n - 1]);
  }

  lemma NestedShareKey(verb: string, ip: string, ip': string)
    requires EndsWithAddress(ip, ip')
    ensures KeyOf(verb, "/", ip) == KeyOf(verb, "/:" + ip[..|ip| - |ip'| - 1], ip')
  {
    var x := ip[..|ip| - |ip'| - 1];
    assert ip == x + ":" + ip';
    assert "rate:" + verb + ":" + "/" + ":" + ip == "rate:" + verb + ":" + ("/:" + x) + ":" + ip';
  }

  /** Two clients can ever share a counter, on paths that start with a slash as all do, exactly when one address
      ends with a colon and the other. No two IPv4 addresses do, and many IPv6 addresses do. */
  lemma ClientsCanShareIff(verb: string, ip: string, ip': string)
    requires ':' !in verb && ip != ip'
    ensures (exists path, path' :: "/" <= path && "/" <= path' && KeyOf(verb, path, ip) == KeyOf(verb, path', ip'))
       <==> EndsWithAddress(ip, ip') || EndsWithAddress(ip', ip)
  {
    forall path, path' | KeyOf(verb, path, ip) == KeyOf(verb, path', ip')
      ensures EndsWithAddress(ip, ip') || EndsWithAddress(ip', ip)
    {
      KeysSharedIff(verb, path, ip, verb, path', ip');
      if |ip| >= |ip'| {
        SharedKeyNests(path, ip, path', ip');
      } else {
        SharedKeyNests(path', ip', path, ip);
      }
    }
    if EndsWithAddress(ip, ip') {
      NestedShareKey(verb, ip, ip');
    } else if EndsWithAddress(ip', ip) {
      NestedShareKey(verb, ip', ip);
    }
  }

  /** With IPv6 addresses it need not: these two clients share a counter. */
  lemma Ipv6KeysCollide()
    ensures KeyOf("GET", "/x:a", "1::2") == KeyOf("GET", "/x", "a:1::2")
  {
    KeysSharedIff("GET", "/x:a", "1::2", "GET", "/x", "a:1::2");
    assert "/x:a" + ":" + "1::2" == "/x:a:1::2" == "/x" + ":" + "a:1::2";
  }
}
