/** Stock levels per warehouse and item: reservations, adjustments, transfers, production, and the movement log. */
module Inventory {
  import opened Wrappers

  datatype Slot = Slot(warehouse: nat, item: nat)

  datatype Level = Level(onHand: real, reserved: real)

  datatype Status = Active | Confirmed | Released

  datatype Reservation = Reservation(slot: Slot, quantity: real, status: Status, expiresAt: int)

  datatype Movement = Movement(slot: Slot, delta: real)

  /** One line of a bill of materials, scaled to the batch. */
  datatype Need = Need(item: nat, quantity: real)

  /** A reservation's id is its position. */
  datatype Stock = Stock(levels: map<Slot, Level>, reservations: seq<Reservation>, log: seq<Movement>)

  function At(levels: map<Slot, Level>, slot: Slot): Level {
    if slot in levels then levels[slot] else Level(0.0, 0.0)
  }

  function Available(levels: map<Slot, Level>, slot: Slot): real {
    At(levels, slot).onHand - At(levels, slot).reserved
  }

  function Max(x: real, y: real): real {
    if x < y then y else x
  }

  /** Changes the quantity on hand, creating the row if needed, and records the movement. */
  function Move(s: Stock, slot: Slot, delta: real): Stock {
    var l := At(s.levels, slot);
    s.(levels := s.levels[slot := l.(onHand := l.onHand + delta)], log := s.log + [Movement(slot, delta)])
  }

  // ---- what each call does ------------------------------------------------------------------------------

  predicate CanReserve(s: Stock, slot: Slot, quantity: real) {
    slot in s.levels && Available(s.levels, slot) >= quantity
  }

  function Reserve(s: Stock, slot: Slot, quantity: real, expiresAt: int): Stock {
    if !CanReserve(s, slot, quantity) then s
    else
      var l := s.levels[slot];
      Stock(s.levels[slot := l.(reserved := l.reserved + quantity)],
            s.reservations + [Reservation(slot, quantity, Active, expiresAt)], s.log + [Movement(slot, 0.0)])
  }

  predicate IsActive(s: Stock, id: nat) {
    id < |s.reservations| && s.reservations[id].status == Active
  }

  function Confirm(s: Stock, id: nat): Stock {
    if !IsActive(s, id) then s
    else
      var r := s.reservations[id];
      var l := At(s.levels, r.slot);
      Stock(s.levels[r.slot := Level(l.onHand - r.quantity, l.reserved - r.quantity)],
            s.reservations[id := r.(status := Confirmed)], s.log + [Movement(r.slot, -r.quantity)])
  }

  /** Releasing twice does nothing; the reserved quantity is kept from going below zero. */
  function Release(s: Stock, id: nat): Stock {
    if !IsActive(s, id) then s
    else
      var r := s.reservations[id];
      var l := At(s.levels, r.slot);
      Stock(s.levels[r.slot := l.(reserved := Max(0.0, l.reserved - r.quantity))],
            s.reservations[id := r.(status := Released)], s.log + [Movement(r.slot, 0.0)])
  }

  /** The query of the expiry sweep. */
  function ExpiredIds(reservations: seq<Reservation>, now: int): seq<nat> {
    if reservations == [] then []
    else
      var n := |reservations| - 1;
      var r := reservations[n];
      ExpiredIds(reservations[..n], now) + if r.status == Active && r.expiresAt <= now then [n] else []
  }

  function ReleaseAll(s: Stock, ids: seq<nat>): Stock {
    if ids == [] then s else Release(ReleaseAll(s, ids[..|ids| - 1]), ids[|ids| - 1])
  }

  predicate CanAdjust(s: Stock, slot: Slot, delta: real) {
    At(s.levels, slot).onHand + delta >= At(s.levels, slot).reserved
  }

  function Adjust(s: Stock, slot: Slot, delta: real): Stock {
    if CanAdjust(s, slot, delta) then Move(s, slot, delta) else s
  }

  predicate CanTransfer(s: Stock, item: nat, source: nat, target: nat, quantity: real) {
    source != target && Available(s.levels, Slot(source, item)) >= quantity
  }

  function Transfer(s: Stock, item: nat, source: nat, target: nat, quantity: real): Stock {
    if CanTransfer(s, item, source, target, quantity)
    then Move(Move(s, Slot(source, item), -quantity), Slot(target, item), quantity)
    else s
  }

  predicate Enough(levels: map<Slot, Level>, warehouse: nat, n: Need) {
    Available(levels, Slot(warehouse, n.item)) >= n.quantity
  }

  /** `check_availability` looks at the lines one by one. */
  predicate Covers(s: Stock, warehouse: nat, needs: seq<Need>) {
    forall i :: 0 <= i < |needs| ==> Enough(s.levels, warehouse, needs[i])
  }

  function Consume(s: Stock, warehouse: nat, needs: seq<Need>): Stock {
    if needs == [] then s
    else
      var n := needs[|needs| - 1];
      Move(Consume(s, warehouse, needs[..|needs| - 1]), Slot(warehouse, n.item), -n.quantity)
  }

  function StartBatch(s: Stock, warehouse: nat, needs: seq<Need>): Stock {
    if Covers(s, warehouse, needs) then Consume(s, warehouse, needs) else s
  }

  // ---- the service ----------------------------------------------------------------------------------------

  class InventoryService {
    var levels: map<Slot, Level>
    var reservations: seq<Reservation>
    var log: seq<Movement>

    constructor ()
      ensures State() == Stock(map[], [], [])
    {
      levels, reservations, log := map[], [], [];
    }

    function State(): Stock
      reads this
    {
      Stock(levels, reservations, log)
    }

    method Record(slot: Slot, delta: real)
      modifies this`log
      ensures log == old(log) + [Movement(slot, delta)]
    {
      log := log + [Movement(slot, delta)];
    }

    method CreateReservation(slot: Slot, quantity: real, expiresAt: int) returns (outcome: Outcome)
      requires quantity > 0.0
      modifies this
      ensures State() == Reserve(old(State()), slot, quantity, expiresAt)
      ensures outcome == if CanReserve(old(State()), slot, quantity) then Done else BadRequest
    {
      if slot !in levels || Available(levels, slot) < quantity {
        return BadRequest;
      }
      levels := levels[slot := levels[slot].(reserved := levels[slot].reserved + quantity)];
      reservations := reservations + [Reservation(slot, quantity, Active, expiresAt)];
      Record(slot, 0.0);
      return Done;
    }

    method ConfirmReservation(id: nat) returns (outcome: Outcome)
      modifies this
      ensures State() == Confirm(old(State()), id)
      ensures id >= |old(reservations)| ==> outcome == NotFound
      ensures id < |old(reservations)| ==> outcome == if IsActive(old(State()), id) then Done else BadRequest
      ensures outcome == Done ==>
        var r := old(reservations)[id];
        var l := At(old(levels), r.slot);
        && levels == old(levels)[r.slot := Level(l.onHand - r.quantity, l.reserved - r.quantity)]
        && log == old(log) + [Movement(r.slot, -r.quantity)]
    {
      if id >= |reservations| {
        return NotFound;
      }
      var r := reservations[id];
      if r.status != Active {
        return BadRequest;
      }
      var l := At(levels, r.slot);
      levels := levels[r.slot := Level(l.onHand - r.quantity, l.reserved - r.quantity)];
      reservations := reservations[id := r.(status := Confirmed)];
      Record(r.slot, -r.quantity);
      return Done;
    }

    method ReleaseReservation(id: nat) returns (outcome: Outcome)
      modifies this
      ensures State() == Release(old(State()), id)
      ensures outcome == if id >= |old(reservations)| then NotFound else Done
    {
      if id >= |reservations| {
        return NotFound;
      }
      var r := reservations[id];
      if r.status != Active {
        return Done;
      }
      var l := At(levels, r.slot);
      levels := levels[r.slot := l.(reserved := Max(0.0, l.reserved - r.quantity))];
      reservations := reservations[id := r.(status := Released)];
      Record(r.slot, 0.0);
      return Done;
    }

    method ReleaseExpiredReservations(now: int) returns (released: nat)
      modifies this
      ensures State() == ReleaseAll(old(State()), ExpiredIds(old(reservations), now))
      ensures released == |ExpiredIds(old(reservations), now)|
    {
      var expired := ExpiredIds(reservations, now);
      for i := 0 to |expired|
        invariant State() == ReleaseAll(old(State()), expired[..i])
      {
        assert expired[..i + 1][..i] == expired[..i];
        var _ := ReleaseReservation(expired[i]);
      }
      assert expired[..|expired|] == expired;
      return |expired|;
    }

    method AdjustStock(slot: Slot, delta: real) returns (outcome: Outcome)
      modifies this
      ensures State() == Adjust(old(State()), slot, delta)
      ensures outcome == if CanAdjust(old(State()), slot, delta) then Done else BadRequest
    {
      var l := At(levels, slot);
      if l.onHand + delta < l.reserved {
        return BadRequest;
      }
      levels := levels[slot := l.(onHand := l.onHand + delta)];
      Record(slot, delta);
      return Done;
    }

    method TransferStock(item: nat, source: nat, target: nat, quantity: real) returns (outcome: Outcome)
      requires quantity > 0.0
      modifies this
      ensures State() == Transfer(old(State()), item, source, target, quantity)
      ensures outcome == if CanTransfer(old(State()), item, source, target, quantity) then Done else BadRequest
    {
      if source == target {
        return BadRequest;
      }
      var from, to := At(levels, Slot(source, item)), At(levels, Slot(target, item));
      if from.onHand - from.reserved < quantity {
        return BadRequest;
      }
      levels := levels[Slot(source, item) := from.(onHand := from.onHand - quantity)];
      levels := levels[Slot(target, item) := to.(onHand := to.onHand + quantity)];
      Record(Slot(source, item), -quantity);
      Record(Slot(target, item), quantity);
      return Done;
    }

    /** Line by line, against the stock as it is. */
    method CheckAvailability(warehouse: nat, needs: seq<Need>) returns (available: bool)
      ensures available <==> Covers(State(), warehouse, needs)
    {
      for i := 0 to |needs|
        invariant forall j :: 0 <= j < i ==> Enough(levels, warehouse, needs[j])
      {
        if !Enough(levels, warehouse, needs[i]) {
          return false;
        }
      }
      return true;
    }

    method ConsumeLines(warehouse: nat, needs: seq<Need>)
      modifies this
      ensures State() == Consume(old(State()), warehouse, needs)
    {
      for i := 0 to |needs|
        invariant State() == Consume(old(State()), warehouse, needs[..i])
      {
        assert needs[..i + 1][..i] == needs[..i];
        var slot := Slot(warehouse, needs[i].item);
        var l := At(levels, slot);
        levels := levels[slot := l.(onHand := l.onHand - needs[i].quantity)];
        Record(slot, -needs[i].quantity);
      }
      assert needs[..|needs|] == needs;
    }

    /** The stock side of starting a batch: check every line, then consume every line. */
    method StartProduction(warehouse: nat, needs: seq<Need>) returns (outcome: Outcome)
      modifies this
      ensures State() == StartBatch(old(State()), warehouse, needs)
      ensures outcome == if Covers(old(State()), warehouse, needs) then Done else BadRequest
    {
      var available := CheckAvailability(warehouse, needs);
      if !available {
        return BadRequest;
      }
      ConsumeLines(warehouse, needs);
      return Done;
    }

    /** The stock side of completing a batch. */
    method YieldProduct(slot: Slot, quantity: real)
      requires quantity >= 0.0
      modifies this
      ensures State() == Move(old(State()), slot, quantity)
    {
      var l := At(levels, slot);
      levels := levels[slot := l.(onHand := l.onHand + quantity)];
      Record(slot, quantity);
    }
  }
}
