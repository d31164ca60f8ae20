/** What each call does to a return request, said in terms of its columns alone. */
module ReturnLaws {
  import opened Wrappers
  import opened Returns

  /** Given, and not the empty text. */
  predicate Given(notes: Option<string>) {
    notes.Some? && |notes.value| > 0
  }

  /** Approving takes a pending request, and only such, to APPROVED: the decision is stored, one event is added, notes
      are replaced only by notes, and a restock that logistics answers gets its reference. */
  lemma ApproveDecides(r: Request, d: Decision, actor: nat, pickup: Pickup)
    ensures var r' := Approve(r, d, actor, pickup);
      if r.status == Pending then
        && r'.status == Approved && r'.decidedBy == Some(actor)
        && (r'.tier, r'.refund, r'.restock) == (d.tier, d.refund, d.restock)
        && r'.reference == (if d.restock && pickup != Unavailable then pickup.reference else r.reference)
        && r'.notes == (if Given(d.notes) then d.notes else r.notes)
        && r'.events == r.events + [Event(Pending, Approved, actor, d.notes)]
      else r' == r
  {
  }

  /** Rejecting takes a pending request, and only such, to REJECTED, storing the tier alone of the decision. */
  lemma RejectDecides(r: Request, d: Decision, actor: nat)
    ensures var r' := Reject(r, d, actor);
      if r.status == Pending then
        && r'.status == Rejected && r'.decidedBy == Some(actor)
        && (r'.tier, r'.refund, r'.restock, r'.reference) == (d.tier, r.refund, r.restock, r.reference)
        && r'.notes == (if Given(d.notes) then d.notes else r.notes)
        && r'.events == r.events + [Event(Pending, Rejected, actor, d.notes)]
      else r' == r
  {
  }

  /** Resolving takes any request to RESOLVED and leaves the decision as it is. */
  lemma ResolveCloses(r: Request, actor: nat, notes: Option<string>)
    ensures var r' := Resolve(r, actor, notes);
      && r'.status == Resolved && r'.decidedBy == Some(actor)
      && (r'.tier, r'.refund, r'.restock, r'.reference) == (r.tier, r.refund, r.restock, r.reference)
      && r'.notes == (if Given(notes) then notes else r.notes)
      && r'.events == r.events + [Event(r.status, Resolved, actor, notes)]
  {
  }

  /** The first call of a run. */
  function FirstCall(run: seq<Call>): Option<Call> {
    if run == [] then None else Some(run[0])
  }

  /** Over every run the very first call decides for good: an approval leaves its decision and, if logistics answered
      a wanted restock, the reference; a rejection its tier; a resolution nothing at all. */
  lemma {:induction false} FirstCallDecides(tier: Tier, run: seq<Call>)
    ensures var r := After(tier, run);
      var columns := (r.tier, r.refund, r.restock, r.reference);
      match FirstCall(run)
      case None => r.status == Pending && r.events == [] && columns == (tier, None, false, None)
      case Some(Approving(d, _, pickup)) =>
        && r.status in {Approved, Resolved} && r.events != [] && r.events[0].to == Approved
        && columns == (d.tier, d.refund, d.restock, if d.restock && pickup.Scheduled? then pickup.reference else None)
      case Some(Rejecting(d, _)) =>
        && r.status in {Rejected, Resolved} && r.events != [] && r.events[0].to == Rejected
        && columns == (d.tier, None, false, None)
      case Some(Resolving(_, _)) =>
        r.status == Resolved && r.events != [] && r.events[0].to == Resolved && columns == (tier, None, false, None)
  {
    if run != [] {
      FirstCallDecides(tier, run[..|run| - 1]);
      assert |run| > 1 ==> FirstCall(run[..|run| - 1]) == FirstCall(run);
    }
  }

  /** Over every run a request is resolved exactly when some call resolved it. */
  lemma {:induction false} ResolvedIffCalled(tier: Tier, run: seq<Call>)
    ensures After(tier, run).status == Resolved <==> exists i :: 0 <= i < |run| && run[i].Resolving?
  {
    if run != [] {
      var before, c := run[..|run| - 1], run[|run| - 1];
      ResolvedIffCalled(tier, before);
      if c.Resolving? {
        assert run[|run| - 1].Resolving?;
      } else if After(tier, before).status == Resolved {
        var i :| 0 <= i < |before| && before[i].Resolving?;
        assert run[i].Resolving?;
      } else {
        assert forall i :: 0 <= i < |run| ==> run[i] == if i < |before| then before[i] else c;
      }
    }
  }
}
