/** Return requests: approve, reject and resolve, each leaving an event in the request's audit trail. */
module Returns {
  import opened Wrappers

  datatype Status = Pending | Approved | Rejected | Resolved

  datatype Tier = A | B | C

  datatype Event = Event(from: Status, to: Status, actor: nat, notes: Option<string>)

  datatype Decision = Decision(tier: Tier, refund: Option<nat>, restock: bool, notes: Option<string>)

  /** The logistics service fails, or answers with a reference it may omit. */
  datatype Pickup = Unavailable | Scheduled(reference: Option<string>)

  datatype Request = Request(
    status: Status, tier: Tier, refund: Option<nat>, restock: bool, reference: Option<string>,
    decidedBy: Option<nat>, notes: Option<string>, events: seq<Event>)

  function Opened(tier: Tier): Request {
    Request(Pending, tier, None, false, None, None, None, [])
  }

  predicate MayMove(from: Status, to: Status) {
    from == Pending || to == Resolved
  }

  function Transition(r: Request, to: Status, actor: nat, notes: Option<string>): Request {
    r.(status := to, decidedBy := Some(actor), events := r.events + [Event(r.status, to, actor, notes)],
       notes := if notes.Some? && notes.value != "" then notes else r.notes)
  }

  function Approve(r: Request, d: Decision, actor: nat, pickup: Pickup): Request {
    if !MayMove(r.status, Approved) then r
    else
      var r' := Transition(r.(tier := d.tier, refund := d.refund, restock := d.restock), Approved, actor, d.notes);
      if d.restock && pickup.Scheduled? then r'.(reference := pickup.reference) else r'
  }

  function Reject(r: Request, d: Decision, actor: nat): Request {
    if !MayMove(r.status, Rejected) then r else Transition(r.(tier := d.tier), Rejected, actor, d.notes)
  }

  function Resolve(r: Request, actor: nat, notes: Option<string>): Request {
    Transition(r, Resolved, actor, notes)
  }

  class ReturnRequest {
    var status: Status
    var tier: Tier
    var refund: Option<nat>
    var restock: bool
    var reference: Option<string>
    var decidedBy: Option<nat>
    var notes: Option<string>
    var events: seq<Event>

    constructor (tier: Tier)
      ensures State() == Opened(tier)
    {
      status, this.tier, refund, restock, reference := Pending, tier, None, false, None;
      decidedBy, notes, events := None, None, [];
    }

    function State(): Request
      reads this
    {
      Request(status, tier, refund, restock, reference, decidedBy, notes, events)
    }

    /** The session's rollback: every column as it was read. */
    method Rollback(r: Request)
      modifies this
      ensures State() == r
    {
      status, tier, refund, restock, reference := r.status, r.tier, r.refund, r.restock, r.reference;
      decidedBy, notes, events := r.decidedBy, r.notes, r.events;
    }

    method Move(to: Status, actor: nat, why: Option<string>) returns (outcome: Outcome)
      modifies this
      ensures outcome == if MayMove(old(status), to) then Done else Conflict
      ensures State() == if MayMove(old(status), to) then Transition(old(State()), to, actor, why) else old(State())
    {
      if status in {Approved, Rejected, Resolved} && to !in {Resolved} {
        return Conflict;
      }
      events := events + [Event(status, to, actor, why)];
      status := to;
      decidedBy := Some(actor);
      if why.Some? && why.value != "" {
        notes := why;
      }
      return Done;
    }

    method ApproveReturn(d: Decision, actor: nat, pickup: Pickup) returns (outcome: Outcome)
      modifies this
      ensures State() == Approve(old(State()), d, actor, pickup)
      ensures outcome == if old(status) == Pending then Done else Conflict
    {
      var before := State();
      tier := d.tier;
      refund := d.refund;
      restock := d.restock;
      outcome := Move(Approved, actor, d.notes);
      if outcome == Conflict {
        Rollback(before);
        return;
      }
      if restock && pickup.Scheduled? {
        reference := pickup.reference;
      }
    }

    method RejectReturn(d: Decision, actor: nat) returns (outcome: Outcome)
      modifies this
      ensures State() == Reject(old(State()), d, actor)
      ensures outcome == if old(status) == Pending then Done else Conflict
    {
      var before := State();
      tier := d.tier;
      outcome := Move(Rejected, actor, d.notes);
      if outcome == Conflict {
        Rollback(before);
      }
    }

    method ResolveReturn(actor: nat, why: Option<string>) returns (outcome: Outcome)
      modifies this
      ensures State() == Resolve(old(State()), actor, why) && outcome == Done
    {
      outcome := Move(Resolved, actor, why);
    }
  }

  // ---- every run --------------------------------------------------------------------------------------

  datatype Call =
    | Approving(decision: Decision, actor: nat, pickup: Pickup)
    | Rejecting(decision: Decision, actor: nat)
    | Resolving(actor: nat, notes: Option<string>)

  function Step(r: Request, c: Call): Request {
    match c
    case Approving(d, actor, pickup) => Approve(r, d, actor, pickup)
    case Rejecting(d, actor) => Reject(r, d, actor)
    case Resolving(actor, notes) => Resolve(r, actor, notes)
  }

  function After(tier: Tier, run: seq<Call>): Request {
    if run == [] then Opened(tier) else Step(After(tier, run[..|run| - 1]), run[|run| - 1])
  }

  /** The trail starts at PENDING, each event starting where the last one ended, and ends at the current status. */
  ghost predicate Chained(r: Request) {
    && (if r.events == [] then r.status == Pending
        else r.events[0].from == Pending && r.events[|r.events| - 1].to == r.status)
    && (forall i :: 0 <= i < |r.events| - 1 ==> r.events[i].to == r.events[i + 1].from)
  }

  function Statuses(events: seq<Event>): seq<Status> {
    seq(|events|, i requires 0 <= i < |events| => events[i].to)
  }

  /** The status sequences of all trails: at most one decision, which comes first, then only resolutions. */
  predicate IsTrail(tos: seq<Status>) {
    (forall i :: 0 <= i < |tos| ==> tos[i] != Pending) && (forall i :: 1 <= i < |tos| ==> tos[i] == Resolved)
  }

  /** The latest non-empty notes of a trail. */
  function LatestNotes(events: seq<Event>): Option<string> {
    if events == [] then None
    else
      var notes := events[|events| - 1].notes;
      if notes.Some? && notes.value != "" then notes else LatestNotes(events[..|events| - 1])
  }

  /** What the other columns say about the trail. */
  ghost predicate ColumnsAgree(r: Request) {
    && (r.refund.Some? || r.restock ==> r.events != [] && r.events[0].to == Approved)
    && (r.reference.Some? ==> r.restock)
    && r.notes == LatestNotes(r.events)
    && (r.decidedBy == if r.events == [] then None else Some(r.events[|r.events| - 1].actor))
  }

  lemma StatusesNext(events: seq<Event>, e: Event)
    ensures Statuses(events + [e]) == Statuses(events) + [e.to]
  {
  }

  lemma TrailNext(tos: seq<Status>, to: Status)
    requires IsTrail(tos) && to != Pending && (tos == [] || to == Resolved)
    ensures IsTrail(tos + [to])
  {
  }

  lemma StepKeeps(r: Request, c: Call)
    requires Chained(r) && IsTrail(Statuses(r.events)) && ColumnsAgree(r)
    ensures Chained(Step(r, c)) && IsTrail(Statuses(Step(r, c).events)) && ColumnsAgree(Step(r, c))
  {
    var r' := Step(r, c);
    if r.events != [] {
      assert Statuses(r.events)[|r.events| - 1] == r.status;
    }
    if r'.events != r.events {
      var e := r'.events[|r.events|];
      assert r'.events == r.events + [e];
      StatusesNext(r.events, e);
      TrailNext(Statuses(r.events), e.to);
    }
  }

  /** Over every run the trail is a chain with at most one decision, a refund or a restock means it was an approval,
      and a logistics reference means a restock. */
  lemma {:induction false} RunKeeps(tier: Tier, run: seq<Call>)
    ensures var r := After(tier, run); Chained(r) && IsTrail(Statuses(r.events)) && ColumnsAgree(r)
  {
    if run != [] {
      RunKeeps(tier, run[..|run| - 1]);
      StepKeeps(After(tier, run[..|run| - 1]), run[|run| - 1]);
    }
  }

  /** A call that would lead to the given status. */
  function CallFor(to: Status): Call {
    match to
    case Approved => Approving(Decision(A, None, false, None), 1, Unavailable)
    case Rejected => Rejecting(Decision(A, None, false, None), 1)
    case _ => Resolving(1, None)
  }

  function CallsFor(tos: seq<Status>): seq<Call> {
    if tos == [] then [] else CallsFor(tos[..|tos| - 1]) + [CallFor(tos[|tos| - 1])]
  }

  lemma CallReaches(r: Request, to: Status)
    requires to != Pending && MayMove(r.status, to)
    ensures Statuses(Step(r, CallFor(to)).events) == Statuses(r.events) + [to]
  {
    StatusesNext(r.events, Event(r.status, to, 1, None));
  }

  lemma AfterNext(tier: Tier, run: seq<Call>, c: Call)
    ensures After(tier, run + [c]) == Step(After(tier, run), c)
  {
    assert (run + [c])[..|run|] == run;
  }

  lemma {:induction false} TrailIsReached(tier: Tier, tos: seq<Status>)
    requires IsTrail(tos)
    ensures Statuses(After(tier, CallsFor(tos)).events) == tos
  {
    if tos != [] {
      var front, to := tos[..|tos| - 1], tos[|tos| - 1];
      TrailIsReached(tier, front);
      RunKeeps(tier, CallsFor(front));
      AfterNext(tier, CallsFor(front), CallFor(to));
      CallReaches(After(tier, CallsFor(front)), to);
      assert front + [to] == tos && CallsFor(tos) == CallsFor(front) + [CallFor(to)];
    }
  }

  /** The trails that occur are exactly these sequences. */
  lemma ReachableTrails(tier: Tier, tos: seq<Status>)
    ensures (exists run :: Statuses(After(tier, run).events) == tos) <==> IsTrail(tos)
  {
    if IsTrail(tos) {
      TrailIsReached(tier, tos);
    }
    forall run | Statuses(After(tier, run).events) == tos ensures IsTrail(tos) {
      RunKeeps(tier, run);
    }
  }

  function Continue(r: Request, run: seq<Call>): Request {
    if run == [] then r else Step(Continue(r, run[..|run| - 1]), run[|run| - 1])
  }

  /** After its first event a request keeps its decision columns for good, and a resolved one stays resolved. */
  lemma {:induction false} DecidedIsFinal(r: Request, run: seq<Call>)
    requires r.status != Pending
    ensures var r' := Continue(r, run);
      && r'.status != Pending && (r.status == Resolved ==> r'.status == Resolved) && r.events <= r'.events
      && (r'.tier, r'.refund, r'.restock, r'.reference) == (r.tier, r.refund, r.restock, r.reference)
  {
    if run != [] {
      DecidedIsFinal(r, run[..|run| - 1]);
    }
  }

  /** A request is pending exactly while nothing was decided on it. */
  lemma PendingIffUntouched(tier: Tier, run: seq<Call>)
    ensures After(tier, run).status == Pending <==> After(tier, run).events == []
  {
    RunKeeps(tier, run);
    var r := After(tier, run);
    if r.events != [] {
      assert Statuses(r.events)[|r.events| - 1] == r.status;
    }
  }

  /** Whatever is called later, an approved return keeps the approving decision, and has a pickup reference
      exactly when a restock was wanted and logistics answered with one. */
  lemma ApprovalStands(tier: Tier, run: seq<Call>, d: Decision, actor: nat, pickup: Pickup, later: seq<Call>)
    requires After(tier, run).status == Pending
    ensures var r := Continue(Approve(After(tier, run), d, actor, pickup), later);
      && (r.tier, r.refund, r.restock) == (d.tier, d.refund, d.restock)
      && r.reference == (if d.restock && pickup.Scheduled? then pickup.reference else None)
  {
    PendingIffUntouched(tier, run);
    RunKeeps(tier, run);
    var r := After(tier, run);
    DecidedIsFinal(Approve(r, d, actor, pickup), later);
  }

  /** And a rejected one never carries a refund, a restock or a reference. */
  lemma RejectionStands(tier: Tier, run: seq<Call>, d: Decision, actor: nat, later: seq<Call>)
    requires After(tier, run).status == Pending
    ensures var r := Continue(Reject(After(tier, run), d, actor), later);
      (r.tier, r.refund, r.restock, r.reference) == (d.tier, None, false, None)
  {
    PendingIffUntouched(tier, run);
    RunKeeps(tier, run);
    var r := After(tier, run);
    DecidedIsFinal(Reject(r, d, actor), later);
  }

  /** A decision after the first is refused and changes nothing. */
  lemma SecondDecisionRefused(tier: Tier, run: seq<Call>, c: Call)
    requires After(tier, run).events != [] && !c.Resolving?
    ensures After(tier, run + [c]) == After(tier, run)
  {
    PendingIffUntouched(tier, run);
    AfterNext(tier, run, c);
  }

  /** Resolving is meant for approved returns but is never refused: the trail of a resolved return holds an approval
      exactly when the return was approved, or resolved after an approval, before the call. */
  lemma ResolvedApprovedIff(tier: Tier, run: seq<Call>, actor: nat, notes: Option<string>)
    ensures var r, r' := After(tier, run), After(tier, run + [Resolving(actor, notes)]);
      && r'.status == Resolved
      && ((exists e :: e in r'.events && e.to == Approved) <==>
          r.status == Approved || (r.status == Resolved && r.events != [] && r.events[0].to == Approved))
  {
    var r, r' := After(tier, run), After(tier, run + [Resolving(actor, notes)]);
    RunKeeps(tier, run);
    assert (run + [Resolving(actor, notes)])[..|run|] == run;
    assert r'.events == r.events + [Event(r.status, Resolved, actor, notes)];
    forall i | 0 <= i < |r'.events| && r'.events[i].to == Approved ensures i == 0 && |r.events| > 0 {
      if i < |r.events| { assert Statuses(r.events)[i] == Approved; }
    }
    if r.events != [] {
      assert r'.events[0] in r'.events && Statuses(r.events)[0] == r.events[0].to;
      assert Statuses(r.events)[|r.events| - 1] == r.status;
    }
  }
}
