/** Where stock goes: what each call does to each level, and what is on hand after a whole run. */
module InventoryFlow {
  import opened Inventory
  import opened InventoryLaws

  /** All other levels are as they were. */
  ghost predicate OnlyAt(s: Stock, s': Stock, slot: Slot) {
    forall other :: other != slot ==> At(s'.levels, other) == At(s.levels, other)
  }

  // ---- each call --------------------------------------------------------------------------------

  /** A quantity is held exactly when the row exists and that much is on hand beyond what is reserved. */
  lemma ReserveHolds(s: Stock, slot: Slot, quantity: real, expiresAt: int)
    ensures var l, s' := At(s.levels, slot), Reserve(s, slot, quantity, expiresAt);
      if slot in s.levels && l.onHand - l.reserved >= quantity then
        && At(s'.levels, slot) == Level(l.onHand, l.reserved + quantity) && OnlyAt(s, s', slot)
        && s'.reservations == s.reservations + [Reservation(slot, quantity, Active, expiresAt)]
        && s'.log == s.log + [Movement(slot, 0.0)]
      else s' == s
  {
  }

  /** Confirming consumes the stock: on hand and reserved both fall by the quantity, and the log says so. */
  lemma ConfirmConsumes(s: Stock, id: nat)
    requires id < |s.reservations|
    ensures var r := s.reservations[id];
      var l, s' := At(s.levels, r.slot), Confirm(s, id);
      if r.status == Active then
        && At(s'.levels, r.slot) == Level(l.onHand - r.quantity, l.reserved - r.quantity) && OnlyAt(s, s', r.slot)
        && s'.reservations == s.reservations[id := Reservation(r.slot, r.quantity, Confirmed, r.expiresAt)]
        && s'.log == s.log + [Movement(r.slot, -r.quantity)]
      else s' == s
  {
  }

  /** Releasing gives the hold back and leaves what is on hand. */
  lemma ReleaseGivesBack(s: Stock, id: nat)
    requires Accounted(s) && id < |s.reservations|
    ensures var r := s.reservations[id];
      var l, s' := At(s.levels, r.slot), Release(s, id);
      if r.status == Active then
        && At(s'.levels, r.slot) == Level(l.onHand, l.reserved - r.quantity) && OnlyAt(s, s', r.slot)
        && s'.reservations == s.reservations[id := Reservation(r.slot, r.quantity, Released, r.expiresAt)]
        && s'.log == s.log + [Movement(r.slot, 0.0)]
      else s' == s
  {
    ReleaseAccounts(s, id);
  }

  /** An adjustment moves what is on hand by its amount, unless that would fall below what is reserved. */
  lemma AdjustMoves(s: Stock, slot: Slot, delta: real)
    ensures var l, s' := At(s.levels, slot), Adjust(s, slot, delta);
      if l.onHand + delta >= l.reserved then
        && At(s'.levels, slot) == Level(l.onHand + delta, l.reserved) && OnlyAt(s, s', slot)
        && s'.reservations == s.reservations && s'.log == s.log + [Movement(slot, delta)]
      else s' == s
  {
  }

  /** An available quantity leaves the one warehouse and enters the other, and both legs are logged. */
  lemma TransferMoves(s: Stock, item: nat, source: nat, target: nat, quantity: real)
    ensures var from, to := At(s.levels, Slot(source, item)), At(s.levels, Slot(target, item));
      var s' := Transfer(s, item, source, target, quantity);
      if source != target && from.onHand - from.reserved >= quantity then
        && At(s'.levels, Slot(source, item)) == Level(from.onHand - quantity, from.reserved)
        && At(s'.levels, Slot(target, item)) == Level(to.onHand + quantity, to.reserved)
        && (forall other :: other != Slot(source, item) && other != Slot(target, item) ==>
              At(s'.levels, other) == At(s.levels, other))
        && s'.reservations == s.reservations
        && s'.log == s.log + [Movement(Slot(source, item), -quantity), Movement(Slot(target, item), quantity)]
      else s' == s
  {
    assert s.log + [Movement(Slot(source, item), -quantity)] + [Movement(Slot(target, item), quantity)]
        == s.log + [Movement(Slot(source, item), -quantity), Movement(Slot(target, item), quantity)];
  }

  // ---- the flow at one place --------------------------------------------------------------------

  /** What a call brings in (or takes) at a place, sales apart. */
  function Arrives(s: Stock, c: Call, slot: Slot): real {
    var here := At(s.levels, slot);
    match c
    case Adjusting(at, delta) => if at == slot && here.onHand + delta >= here.reserved then delta else 0.0
    case Yielding(at, quantity) => if at == slot then quantity else 0.0
    case Transferring(item, source, target, quantity) =>
      var from := At(s.levels, Slot(source, item));
      if source == target || from.onHand - from.reserved < quantity then 0.0
      else if slot == Slot(source, item) then -quantity
      else if slot == Slot(target, item) then quantity
      else 0.0
    case Starting(warehouse, needs) =>
      if warehouse == slot.warehouse && EachFits(s, warehouse, needs) then -Needed(needs, slot.item) else 0.0
    case _ => 0.0
  }

  /** Every line of the batch by itself is on hand beyond what is reserved. */
  predicate EachFits(s: Stock, warehouse: nat, needs: seq<Need>) {
    forall i :: 0 <= i < |needs| ==>
      var l := At(s.levels, Slot(warehouse, needs[i].item));
      l.onHand - l.reserved >= needs[i].quantity
  }

  function Arrived(run: seq<Call>, slot: Slot): real {
    if run == [] then 0.0
    else
      var before := run[..|run| - 1];
      Arrived(before, slot) + Arrives(After(before), run[|run| - 1], slot)
  }

  /** What the confirmed reservations have sold. */
  function Sold(reservations: seq<Reservation>, slot: Slot): real {
    if reservations == [] then 0.0
    else
      var r := reservations[|reservations| - 1];
      Sold(reservations[..|reservations| - 1], slot)
        + if r.slot == slot && r.status == Confirmed then r.quantity else 0.0
  }

  lemma {:induction false} SoldOfEnding(reservations: seq<Reservation>, id: nat, status: Status, slot: Slot)
    requires id < |reservations| && reservations[id].status == Active
    ensures var r := reservations[id];
      Sold(reservations[id := r.(status := status)], slot)
      == Sold(reservations, slot) + if r.slot == slot && status == Confirmed then r.quantity else 0.0
  {
    var n, r' := |reservations| - 1, reservations[id].(status := status);
    if id == n {
      assert reservations[id := r'][..n] == reservations[..n];
    } else {
      SoldOfEnding(reservations[..n], id, status, slot);
      assert reservations[id := r'][..n] == reservations[..n][id := r'];
    }
  }

  lemma SoldOfNew(reservations: seq<Reservation>, r: Reservation, slot: Slot)
    requires r.status == Active
    ensures Sold(reservations + [r], slot) == Sold(reservations, slot)
  {
    assert (reservations + [r])[..|reservations|] == reservations;
  }

  /** What is on hand plus what was sold. */
  function HandledAt(s: Stock, slot: Slot): real {
    At(s.levels, slot).onHand + Sold(s.reservations, slot)
  }

  lemma EndKeepsHandled(s: Stock, id: nat, slot: Slot)
    ensures HandledAt(Confirm(s, id), slot) == HandledAt(s, slot) == HandledAt(Release(s, id), slot)
  {
    if IsActive(s, id) {
      SoldOfEnding(s.reservations, id, Confirmed, slot);
      SoldOfEnding(s.reservations, id, Released, slot);
    }
  }

  lemma {:induction false} ReleaseAllKeepsHandled(s: Stock, ids: seq<nat>, slot: Slot)
    ensures HandledAt(ReleaseAll(s, ids), slot) == HandledAt(s, slot)
  {
    if ids != [] {
      ReleaseAllKeepsHandled(s, ids[..|ids| - 1], slot);
      EndKeepsHandled(ReleaseAll(s, ids[..|ids| - 1]), ids[|ids| - 1], slot);
    }
  }

  lemma BatchTakes(s: Stock, warehouse: nat, needs: seq<Need>, slot: Slot)
    ensures HandledAt(StartBatch(s, warehouse, needs), slot)
         == HandledAt(s, slot) + Arrives(s, Starting(warehouse, needs), slot)
  {
    ConsumeTakes(s, warehouse, needs, slot);
    ConsumeKeepsReservations(s, warehouse, needs);
    assert EachFits(s, warehouse, needs) <==> Covers(s, warehouse, needs) by {
      assert forall i :: 0 <= i < |needs| ==>
        (Enough(s.levels, warehouse, needs[i]) <==>
           var l := At(s.levels, Slot(warehouse, needs[i].item)); l.onHand - l.reserved >= needs[i].quantity);
    }
  }

  lemma StepFlows(s: Stock, c: Call, slot: Slot)
    ensures HandledAt(Step(s, c), slot) == HandledAt(s, slot) + Arrives(s, c, slot)
  {
    match c
    case Reserving(at, quantity, expiresAt) =>
      SoldOfNew(s.reservations, Reservation(at, quantity, Active, expiresAt), slot);
    case Confirming(id) => EndKeepsHandled(s, id, slot);
    case Releasing(id) => EndKeepsHandled(s, id, slot);
    case Expiring(now) => ReleaseAllKeepsHandled(s, ExpiredIds(s.reservations, now), slot);
    case Starting(warehouse, needs) => BatchTakes(s, warehouse, needs, slot);
    case Transferring(item, source, target, quantity) => TransferMoves(s, item, source, target, quantity);
    case _ =>
  }

  /** Over every run, at every warehouse and item: what is on hand is what came in, less what batches and
      transfers took, less the quantities of all confirmed reservations. */
  lemma {:induction false} OnHandIsArrivedLessSold(run: seq<Call>, slot: Slot)
    ensures At(After(run).levels, slot).onHand == Arrived(run, slot) - Sold(After(run).reservations, slot)
  {
    if run != [] {
      OnHandIsArrivedLessSold(run[..|run| - 1], slot);
      StepFlows(After(run[..|run| - 1]), run[|run| - 1], slot);
    }
  }
}
