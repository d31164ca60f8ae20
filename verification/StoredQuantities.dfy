/** The quantity columns keep three decimals and are rounded one by one, to the nearest thousandth with a half
    going away from zero. When that is invisible, and when it is not. */
module StoredQuantities {
  import opened Inventory
  import opened InventoryLaws

  /** Nearest integer, a half away from zero. */
  function RoundAway(x: real): (n: int)
    ensures n as real - 0.5 <= x <= n as real + 0.5
    ensures x == n as real + 0.5 ==> x < 0.0
    ensures x == n as real - 0.5 ==> x > 0.0
  {
    var f := x.Floor;
    var d := x - f as real;
    if d < 0.5 || (d == 0.5 && x < 0.0) then f else f + 1
  }

  /** What a column holds of a quantity. */
  function Stored(x: real): real {
    RoundAway(1000.0 * x) as real / 1000.0
  }

  /** A whole number of thousandths. */
  predicate Whole(x: real) {
    (1000.0 * x).Floor as real == 1000.0 * x
  }

  lemma FloorOfShift(n: int, x: real)
    ensures (n as real + x).Floor == n + x.Floor
  {
  }

  lemma WholeIsStored(x: real)
    ensures Whole(x) <==> Stored(x) == x
  {
    var y := 1000.0 * x;
    assert RoundAway(y) as real == y <==> y.Floor as real == y;
  }

  lemma IntegerIsWhole(x: real, n: int)
    requires 1000.0 * x == n as real
    ensures Whole(x)
  {
  }

  lemma WholeSums(x: real, y: real)
    requires Whole(x) && Whole(y)
    ensures Whole(x + y) && Whole(x - y) && Whole(-x)
  {
    var m, n := (1000.0 * x).Floor, (1000.0 * y).Floor;
    IntegerIsWhole(x + y, m + n);
    IntegerIsWhole(x - y, m - n);
    IntegerIsWhole(-x, -m);
  }

  // ---- one adjustment ---------------------------------------------------------------------------

  /** Half way between two thousandths. */
  predicate Tie(x: real) {
    1000.0 * x - (1000.0 * x).Floor as real == 0.5
  }

  lemma RoundAwayOfShift(n: int, x: real)
    ensures RoundAway(n as real + x) == n + RoundAway(x) <==>
      !(x - x.Floor as real == 0.5 && (n as real + x < 0.0 <==> x >= 0.0))
  {
    FloorOfShift(n, x);
  }

  /** The stored level moves by exactly the stored movement, unless the change is a tie and the new level has the
      other sign: then one is rounded up and the other down. */
  lemma {:induction false} StoredChangeAgreesIff(onHand: real, delta: real)
    requires Whole(onHand)
    ensures Stored(onHand + delta) == onHand + Stored(delta) <==>
      !(Tie(delta) && (onHand + delta < 0.0 <==> delta >= 0.0))
  {
    var n, x := (1000.0 * onHand).Floor, 1000.0 * delta;
    assert 1000.0 * (onHand + delta) == n as real + x;
    RoundAwayOfShift(n, x);
    assert onHand + Stored(delta) == (n + RoundAway(x)) as real / 1000.0;
  }

  /** Taking half a thousandth from 10 leaves 10 on hand, and a thousandth in the log. */
  lemma HalfThousandthLost()
    ensures Stored(10.0 - 0.0005) == 10.0 && Stored(-0.0005) == -0.001
  {
    assert 1000.0 * (10.0 - 0.0005) == 9999.5 && 1000.0 * -0.0005 == -0.5;
    assert RoundAway(9999.5) == 10000 && RoundAway(-0.5) == -1;
  }

  // ---- whole runs -------------------------------------------------------------------------------

  predicate WholeLevel(l: Level) {
    Whole(l.onHand) && Whole(l.reserved)
  }

  ghost predicate WholeStock(s: Stock) {
    && (forall slot :: WholeLevel(At(s.levels, slot)))
    && (forall i :: 0 <= i < |s.reservations| ==> Whole(s.reservations[i].quantity))
    && (forall i :: 0 <= i < |s.log| ==> Whole(s.log[i].delta))
  }

  ghost predicate WholeCall(c: Call) {
    match c
    case Reserving(_, quantity, _) => Whole(quantity)
    case Adjusting(_, delta) => Whole(delta)
    case Transferring(_, _, _, quantity) => Whole(quantity)
    case Starting(_, needs) => forall i :: 0 <= i < |needs| ==> Whole(needs[i].quantity)
    case Yielding(_, quantity) => Whole(quantity)
    case _ => true
  }

  lemma MoveStaysWhole(s: Stock, slot: Slot, delta: real)
    requires WholeStock(s) && Whole(delta)
    ensures WholeStock(Move(s, slot, delta))
  {
    var s' := Move(s, slot, delta);
    WholeSums(At(s.levels, slot).onHand, delta);
    assert WholeLevel(At(s.levels, slot));
    forall other ensures WholeLevel(At(s'.levels, other)) {
      assert WholeLevel(At(s.levels, other));
    }
  }

  lemma ReserveStaysWhole(s: Stock, slot: Slot, quantity: real, expiresAt: int)
    requires WholeStock(s) && Whole(quantity)
    ensures WholeStock(Reserve(s, slot, quantity, expiresAt))
  {
    var s' := Reserve(s, slot, quantity, expiresAt);
    assert WholeLevel(At(s.levels, slot)) && Whole(0.0);
    WholeSums(At(s.levels, slot).reserved, quantity);
    forall other ensures WholeLevel(At(s'.levels, other)) {
      assert WholeLevel(At(s.levels, other));
    }
  }

  lemma EndStaysWhole(s: Stock, id: nat)
    requires WholeStock(s) && IsActive(s, id)
    ensures WholeStock(Confirm(s, id)) && WholeStock(Release(s, id))
  {
    var r, confirmed, released := s.reservations[id], Confirm(s, id), Release(s, id);
    assert WholeLevel(At(s.levels, r.slot)) && Whole(0.0);
    WholeSums(At(s.levels, r.slot).onHand, r.quantity);
    WholeSums(At(s.levels, r.slot).reserved, r.quantity);
    WholeSums(r.quantity, 0.0);
    forall other ensures WholeLevel(At(confirmed.levels, other)) && WholeLevel(At(released.levels, other)) {
      assert WholeLevel(At(s.levels, other));
    }
  }

  lemma {:induction false} ReleaseAllStaysWhole(s: Stock, ids: seq<nat>)
    requires WholeStock(s)
    ensures WholeStock(ReleaseAll(s, ids))
  {
    if ids != [] {
      var before, id := ReleaseAll(s, ids[..|ids| - 1]), ids[|ids| - 1];
      ReleaseAllStaysWhole(s, ids[..|ids| - 1]);
      if IsActive(before, id) { EndStaysWhole(before, id); }
    }
  }

  lemma {:induction false} ConsumeStaysWhole(s: Stock, warehouse: nat, needs: seq<Need>)
    requires WholeStock(s) && forall i :: 0 <= i < |needs| ==> Whole(needs[i].quantity)
    ensures WholeStock(Consume(s, warehouse, needs))
  {
    if needs != [] {
      var front, n := needs[..|needs| - 1], needs[|needs| - 1];
      ConsumeStaysWhole(s, warehouse, front);
      WholeSums(n.quantity, n.quantity);
      MoveStaysWhole(Consume(s, warehouse, front), Slot(warehouse, n.item), -n.quantity);
    }
  }

  lemma StepStaysWhole(s: Stock, c: Call)
    requires WholeStock(s) && WholeCall(c)
    ensures WholeStock(Step(s, c))
  {
    match c
    case Reserving(slot, quantity, expiresAt) => ReserveStaysWhole(s, slot, quantity, expiresAt);
    case Confirming(id) => if IsActive(s, id) { EndStaysWhole(s, id); }
    case Releasing(id) => if IsActive(s, id) { EndStaysWhole(s, id); }
    case Expiring(now) => ReleaseAllStaysWhole(s, ExpiredIds(s.reservations, now));
    case Adjusting(slot, delta) => MoveStaysWhole(s, slot, delta);
    case Transferring(item, source, target, quantity) =>
      WholeSums(quantity, quantity);
      MoveStaysWhole(s, Slot(source, item), -quantity);
      MoveStaysWhole(Move(s, Slot(source, item), -quantity), Slot(target, item), quantity);
    case Starting(warehouse, needs) => ConsumeStaysWhole(s, warehouse, needs);
    case Yielding(slot, quantity) => MoveStaysWhole(s, slot, quantity);
  }

  lemma {:induction false} RunStaysWhole(run: seq<Call>)
    requires forall c :: c in run ==> WholeCall(c)
    ensures WholeStock(After(run))
  {
    if run == [] {
      assert Whole(0.0);
    } else {
      assert run[|run| - 1] in run;
      RunStaysWhole(run[..|run| - 1]);
      StepStaysWhole(After(run[..|run| - 1]), run[|run| - 1]);
    }
  }

  /** Over every run in whole thousandths, rounding changes nothing: the columns hold the exact levels,
      reservations and movements, so the sums of the stored rows agree with the stored levels. */
  lemma WholeRunsStoredExactly(run: seq<Call>)
    requires forall c :: c in run ==> WholeCall(c)
    ensures var s := After(run);
      && (forall slot :: Stored(At(s.levels, slot).onHand) == At(s.levels, slot).onHand
            && Stored(At(s.levels, slot).reserved) == At(s.levels, slot).reserved)
      && (forall i :: 0 <= i < |s.reservations| ==> Stored(s.reservations[i].quantity) == s.reservations[i].quantity)
      && (forall i :: 0 <= i < |s.log| ==> Stored(s.log[i].delta) == s.log[i].delta)
  {
    var s := After(run);
    RunStaysWhole(run);
    forall slot
      ensures Stored(At(s.levels, slot).onHand) == At(s.levels, slot).onHand
      ensures Stored(At(s.levels, slot).reserved) == At(s.levels, slot).reserved
    {
      assert WholeLevel(At(s.levels, slot));
      WholeIsStored(At(s.levels, slot).onHand);
      WholeIsStored(At(s.levels, slot).reserved);
    }
    forall i | 0 <= i < |s.reservations| ensures Stored(s.reservations[i].quantity) == s.reservations[i].quantity {
      WholeIsStored(s.reservations[i].quantity);
    }
    forall i | 0 <= i < |s.log| ensures Stored(s.log[i].delta) == s.log[i].delta {
      WholeIsStored(s.log[i].delta);
    }
  }
}
