/** What every run of the inventory keeps: the log accounts for the stock, the holds for the reserved quantity,
    and stock is not oversold. */
module InventoryLaws {
  import opened Inventory

  datatype Call =
    | Reserving(slot: Slot, quantity: real, expiresAt: int)
    | Confirming(id: nat)
    | Releasing(id: nat)
    | Expiring(now: int)
    | Adjusting(slot: Slot, delta: real)
    | Transferring(item: nat, source: nat, target: nat, quantity: real)
    | Starting(warehouse: nat, needs: seq<Need>)
    | Yielding(slot: Slot, quantity: real)

  /** What the request schemas guarantee. */
  ghost predicate Allowed(c: Call) {
    match c
    case Reserving(_, quantity, _) => quantity > 0.0
    case Transferring(_, _, _, quantity) => quantity > 0.0
    case Starting(_, needs) => forall n :: n in needs ==> n.quantity > 0.0
    case Yielding(_, quantity) => quantity >= 0.0
    case _ => true
  }

  function Step(s: Stock, c: Call): Stock {
    match c
    case Reserving(slot, quantity, expiresAt) => Reserve(s, slot, quantity, expiresAt)
    case Confirming(id) => Confirm(s, id)
    case Releasing(id) => Release(s, id)
    case Expiring(now) => ReleaseAll(s, ExpiredIds(s.reservations, now))
    case Adjusting(slot, delta) => Adjust(s, slot, delta)
    case Transferring(item, source, target, quantity) => Transfer(s, item, source, target, quantity)
    case Starting(warehouse, needs) => StartBatch(s, warehouse, needs)
    case Yielding(slot, quantity) => Move(s, slot, quantity)
  }

  function After(run: seq<Call>): Stock {
    if run == [] then Stock(map[], [], []) else Step(After(run[..|run| - 1]), run[|run| - 1])
  }

  // ---- sums ------------------------------------------------------------------------------------------------

  /** What the log says has come in and gone out. */
  function Logged(log: seq<Movement>, slot: Slot): real {
    if log == [] then 0.0
    else
      var m := log[|log| - 1];
      Logged(log[..|log| - 1], slot) + if m.slot == slot then m.delta else 0.0
  }

  /** What the active reservations hold. */
  function Held(reservations: seq<Reservation>, slot: Slot): real {
    if reservations == [] then 0.0
    else
      var r := reservations[|reservations| - 1];
      Held(reservations[..|reservations| - 1], slot) + if r.slot == slot && r.status == Active then r.quantity else 0.0
  }

  lemma LoggedNext(log: seq<Movement>, m: Movement, slot: Slot)
    ensures Logged(log + [m], slot) == Logged(log, slot) + if m.slot == slot then m.delta else 0.0
  {
    assert (log + [m])[..|log|] == log;
  }

  lemma HeldNext(reservations: seq<Reservation>, r: Reservation, slot: Slot)
    ensures Held(reservations + [r], slot)
         == Held(reservations, slot) + if r.slot == slot && r.status == Active then r.quantity else 0.0
  {
    assert (reservations + [r])[..|reservations|] == reservations;
  }

  /** Ending an active reservation takes its quantity out of what is held. */
  lemma {:induction false} HeldOfEnding(reservations: seq<Reservation>, id: nat, status: Status, slot: Slot)
    requires id < |reservations| && reservations[id].status == Active && status != Active
    ensures var r := reservations[id];
      Held(reservations[id := r.(status := status)], slot)
      == Held(reservations, slot) - if r.slot == slot then r.quantity else 0.0
  {
    var n, r' := |reservations| - 1, reservations[id].(status := status);
    if id == n {
      assert reservations[id := r'][..n] == reservations[..n];
    } else {
      HeldOfEnding(reservations[..n], id, status, slot);
      assert reservations[id := r'][..n] == reservations[..n][id := r'];
    }
  }

  ghost predicate Positive(reservations: seq<Reservation>) {
    forall i :: 0 <= i < |reservations| ==> reservations[i].quantity > 0.0
  }

  lemma {:induction false} HeldBounds(reservations: seq<Reservation>, id: nat)
    requires Positive(reservations) && id < |reservations| && reservations[id].status == Active
    ensures Held(reservations, reservations[id].slot) >= reservations[id].quantity
  {
    var n := |reservations| - 1;
    if id < n {
      HeldBounds(reservations[..n], id);
    } else {
      HeldNonNegative(reservations[..n], reservations[id].slot);
    }
  }

  lemma {:induction false} HeldNonNegative(reservations: seq<Reservation>, slot: Slot)
    requires Positive(reservations)
    ensures Held(reservations, slot) >= 0.0
  {
    if reservations != [] {
      HeldNonNegative(reservations[..|reservations| - 1], slot);
    }
  }

  // ---- the log and the holds account for every level ----------------------------------------------------------

  ghost predicate AccountedAt(s: Stock, slot: Slot) {
    At(s.levels, slot) == Level(Logged(s.log, slot), Held(s.reservations, slot))
  }

  ghost predicate Accounted(s: Stock) {
    Positive(s.reservations) && forall slot :: AccountedAt(s, slot)
  }

  lemma MoveAccounts(s: Stock, slot: Slot, delta: real)
    requires Accounted(s)
    ensures Accounted(Move(s, slot, delta)) && Move(s, slot, delta).reservations == s.reservations
  {
    forall other ensures AccountedAt(Move(s, slot, delta), other) {
      assert AccountedAt(s, other) && AccountedAt(s, slot);
      LoggedNext(s.log, Movement(slot, delta), other);
    }
  }

  lemma ReserveAccounts(s: Stock, slot: Slot, quantity: real, expiresAt: int)
    requires Accounted(s) && quantity > 0.0
    ensures Accounted(Reserve(s, slot, quantity, expiresAt))
  {
    forall other ensures AccountedAt(Reserve(s, slot, quantity, expiresAt), other) {
      assert AccountedAt(s, other) && AccountedAt(s, slot);
      LoggedNext(s.log, Movement(slot, 0.0), other);
      HeldNext(s.reservations, Reservation(slot, quantity, Active, expiresAt), other);
    }
  }

  lemma ConfirmAccountsAt(s: Stock, id: nat, slot: Slot)
    requires IsActive(s, id) && AccountedAt(s, slot)
    ensures AccountedAt(Confirm(s, id), slot)
  {
    var r := s.reservations[id];
    LoggedNext(s.log, Movement(r.slot, -r.quantity), slot);
    HeldOfEnding(s.reservations, id, Confirmed, slot);
  }

  lemma ConfirmAccounts(s: Stock, id: nat)
    requires Accounted(s)
    ensures Accounted(Confirm(s, id))
  {
    if IsActive(s, id) {
      forall slot ensures AccountedAt(Confirm(s, id), slot) {
        ConfirmAccountsAt(s, id, slot);
      }
    }
  }

  /** The guard against a negative reserved quantity never binds. */
  lemma ReleaseAccounts(s: Stock, id: nat)
    requires Accounted(s)
    ensures Accounted(Release(s, id))
    ensures IsActive(s, id) ==> At(s.levels, s.reservations[id].slot).reserved >= s.reservations[id].quantity
  {
    if IsActive(s, id) {
      var r := s.reservations[id];
      assert AccountedAt(s, r.slot);
      HeldBounds(s.reservations, id);
      forall other ensures AccountedAt(Release(s, id), other) {
        assert AccountedAt(s, other);
        LoggedNext(s.log, Movement(r.slot, 0.0), other);
        HeldOfEnding(s.reservations, id, Released, other);
      }
    }
  }

  lemma {:induction false} ReleaseAllAccounts(s: Stock, ids: seq<nat>)
    requires Accounted(s)
    ensures Accounted(ReleaseAll(s, ids))
  {
    if ids != [] {
      ReleaseAllAccounts(s, ids[..|ids| - 1]);
      ReleaseAccounts(ReleaseAll(s, ids[..|ids| - 1]), ids[|ids| - 1]);
    }
  }

  lemma {:induction false} ConsumeAccounts(s: Stock, warehouse: nat, needs: seq<Need>)
    requires Accounted(s)
    ensures Accounted(Consume(s, warehouse, needs)) && Consume(s, warehouse, needs).reservations == s.reservations
  {
    if needs != [] {
      var n := needs[|needs| - 1];
      ConsumeAccounts(s, warehouse, needs[..|needs| - 1]);
      MoveAccounts(Consume(s, warehouse, needs[..|needs| - 1]), Slot(warehouse, n.item), -n.quantity);
    }
  }

  lemma StepAccounts(s: Stock, c: Call)
    requires Accounted(s) && Allowed(c)
    ensures Accounted(Step(s, c))
  {
    match c
    case Reserving(slot, quantity, expiresAt) => ReserveAccounts(s, slot, quantity, expiresAt);
    case Confirming(id) => ConfirmAccounts(s, id);
    case Releasing(id) => ReleaseAccounts(s, id);
    case Expiring(now) => ReleaseAllAccounts(s, ExpiredIds(s.reservations, now));
    case Adjusting(slot, delta) => MoveAccounts(s, slot, delta);
    case Transferring(item, source, target, quantity) =>
      MoveAccounts(s, Slot(source, item), -quantity);
      MoveAccounts(Move(s, Slot(source, item), -quantity), Slot(target, item), quantity);
    case Starting(warehouse, needs) => ConsumeAccounts(s, warehouse, needs);
    case Yielding(slot, quantity) => MoveAccounts(s, slot, quantity);
  }

  /** Over every run the quantity on hand is the sum of the logged movements and the reserved quantity
      is the sum of the active reservations, for every warehouse and item. */
  lemma {:induction false} RunAccounted(run: seq<Call>)
    requires forall c :: c in run ==> Allowed(c)
    ensures Accounted(After(run))
  {
    if run != [] {
      assert run[|run| - 1] in run;
      RunAccounted(run[..|run| - 1]);
      StepAccounts(After(run[..|run| - 1]), run[|run| - 1]);
    }
  }

  // ---- transfers ------------------------------------------------------------------------------------------------

  /** The quantity of an item on hand in a list of warehouses. */
  function OnHand(levels: map<Slot, Level>, item: nat, warehouses: seq<nat>): real {
    if warehouses == [] then 0.0
    else
      OnHand(levels, item, warehouses[..|warehouses| - 1])
        + At(levels, Slot(warehouses[|warehouses| - 1], item)).onHand
  }

  lemma {:induction false} OnHandOfMove(s: Stock, slot: Slot, delta: real, item: nat, warehouses: seq<nat>)
    requires forall i, j :: 0 <= i < j < |warehouses| ==> warehouses[i] != warehouses[j]
    ensures OnHand(Move(s, slot, delta).levels, item, warehouses)
         == OnHand(s.levels, item, warehouses)
            + if slot.item == item && slot.warehouse in warehouses then delta else 0.0
  {
    if warehouses != [] {
      var front, last := warehouses[..|warehouses| - 1], warehouses[|warehouses| - 1];
      assert warehouses == front + [last];
      OnHandOfMove(s, slot, delta, item, front);
    }
  }

  /** A transfer moves stock without making or losing any, of any item, over warehouses that include both ends. */
  lemma TransferConserves(s: Stock, item: nat, source: nat, target: nat, quantity: real, any: nat, warehouses: seq<nat>)
    requires forall i, j :: 0 <= i < j < |warehouses| ==> warehouses[i] != warehouses[j]
    requires source in warehouses && target in warehouses
    ensures OnHand(Transfer(s, item, source, target, quantity).levels, any, warehouses)
         == OnHand(s.levels, any, warehouses)
  {
    var taken := Move(s, Slot(source, item), -quantity);
    OnHandOfMove(s, Slot(source, item), -quantity, any, warehouses);
    OnHandOfMove(taken, Slot(target, item), quantity, any, warehouses);
    if CanTransfer(s, item, source, target, quantity) {
      assert Transfer(s, item, source, target, quantity) == Move(taken, Slot(target, item), quantity);
    }
  }

  // ---- stock is not oversold ------------------------------------------------------------------------------------

  /** Nothing is reserved that is not on hand, and nothing on hand is negative. */
  ghost predicate NotOversold(s: Stock) {
    forall slot :: NotOversoldAt(s, slot)
  }

  ghost predicate NotOversoldAt(s: Stock, slot: Slot) {
    0.0 <= At(s.levels, slot).reserved <= At(s.levels, slot).onHand
  }

  /** What a batch needs of one item, over all its lines. */
  function Needed(needs: seq<Need>, item: nat): real {
    if needs == [] then 0.0
    else
      var n := needs[|needs| - 1];
      Needed(needs[..|needs| - 1], item) + if n.item == item then n.quantity else 0.0
  }

  lemma {:induction false} ConsumeTakes(s: Stock, warehouse: nat, needs: seq<Need>, slot: Slot)
    ensures At(Consume(s, warehouse, needs).levels, slot)
         == Level(At(s.levels, slot).onHand - (if slot.warehouse == warehouse then Needed(needs, slot.item) else 0.0),
                  At(s.levels, slot).reserved)
  {
    if needs != [] {
      ConsumeTakes(s, warehouse, needs[..|needs| - 1], slot);
      var n := needs[|needs| - 1];
      ConsumeTakes(s, warehouse, needs[..|needs| - 1], Slot(warehouse, n.item));
    }
  }

  ghost predicate Fits(s: Stock, warehouse: nat, needs: seq<Need>) {
    forall item :: FitsItem(s, warehouse, needs, item)
  }

  ghost predicate FitsItem(s: Stock, warehouse: nat, needs: seq<Need>, item: nat) {
    Needed(needs, item) <= Available(s.levels, Slot(warehouse, item))
  }

  /** The batch is refused, or its lines fit together. */
  ghost predicate SafeBatch(s: Stock, warehouse: nat, needs: seq<Need>) {
    !Covers(s, warehouse, needs) || Fits(s, warehouse, needs)
  }

  lemma ConsumeSafeAtIff(s: Stock, warehouse: nat, needs: seq<Need>, slot: Slot)
    requires NotOversoldAt(s, slot)
    ensures NotOversoldAt(Consume(s, warehouse, needs), slot) <==>
      (slot.warehouse == warehouse ==> FitsItem(s, warehouse, needs, slot.item))
  {
    ConsumeTakes(s, warehouse, needs, slot);
  }

  /** Starting a batch checks each line by itself: it keeps stock from being oversold exactly when, item by item,
      the lines together fit the available quantity (or the batch is refused). */
  lemma StartBatchSafeIff(s: Stock, warehouse: nat, needs: seq<Need>)
    requires NotOversold(s)
    ensures NotOversold(StartBatch(s, warehouse, needs)) <==> SafeBatch(s, warehouse, needs)
  {
    if Covers(s, warehouse, needs) {
      var s' := StartBatch(s, warehouse, needs);
      forall slot ensures NotOversoldAt(s', slot) <==>
        (slot.warehouse == warehouse ==> FitsItem(s, warehouse, needs, slot.item))
      {
        ConsumeSafeAtIff(s, warehouse, needs, slot);
      }
      if NotOversold(s') {
        forall item ensures FitsItem(s, warehouse, needs, item) {
          assert NotOversoldAt(s', Slot(warehouse, item));
        }
      }
    }
  }

  ghost predicate ItemsDiffer(needs: seq<Need>) {
    forall i, j :: 0 <= i < j < |needs| ==> needs[i].item != needs[j].item
  }

  lemma {:induction false} NeededOfDifferent(needs: seq<Need>, item: nat)
    requires ItemsDiffer(needs)
    ensures Needed(needs, item) == 0.0 || exists n :: n in needs && n.item == item && Needed(needs, item) == n.quantity
    ensures (forall n :: n in needs ==> n.item != item) ==> Needed(needs, item) == 0.0
  {
    if needs != [] {
      var front, last := needs[..|needs| - 1], needs[|needs| - 1];
      assert needs == front + [last] && last in needs;
      NeededOfDifferent(front, item);
      assert last.item == item ==> forall n :: n in front ==> n.item != item;
    }
  }

  lemma DifferentItemsFit(s: Stock, warehouse: nat, needs: seq<Need>)
    requires NotOversold(s) && ItemsDiffer(needs)
    ensures SafeBatch(s, warehouse, needs)
  {
    if Covers(s, warehouse, needs) {
      forall item ensures FitsItem(s, warehouse, needs, item) {
        NeededOfDifferent(needs, item);
        assert NotOversoldAt(s, Slot(warehouse, item));
      }
    }
  }

  lemma RepeatedLineTakesBoth(s: Stock, warehouse: nat, item: nat)
    requires At(s.levels, Slot(warehouse, item)) == Level(10.0, 0.0)
    ensures var s' := StartBatch(s, warehouse, [Need(item, 6.0), Need(item, 6.0)]);
      At(s'.levels, Slot(warehouse, item)).onHand == -2.0
  {
    var needs := [Need(item, 6.0), Need(item, 6.0)];
    assert needs[..1] == [Need(item, 6.0)] && needs[..1][..0] == [];
    ConsumeTakes(s, warehouse, needs, Slot(warehouse, item));
    assert Needed(needs[..1], item) == 6.0;
  }

  /** From nothing: 10 come in, and a batch with two lines of 6 of that item leaves -2 on hand. */
  lemma RepeatedLineOversells(warehouse: nat, item: nat)
    ensures var run := [Adjusting(Slot(warehouse, item), 10.0),
                        Starting(warehouse, [Need(item, 6.0), Need(item, 6.0)])];
      (forall c :: c in run ==> Allowed(c)) && At(After(run).levels, Slot(warehouse, item)).onHand == -2.0
  {
    var run := [Adjusting(Slot(warehouse, item), 10.0), Starting(warehouse, [Need(item, 6.0), Need(item, 6.0)])];
    assert run[..1] == [run[0]] && run[..1][..0] == [];
    assert After(run[..1]) == Adjust(Stock(map[], [], []), Slot(warehouse, item), 10.0);
    RepeatedLineTakesBoth(After(run[..1]), warehouse, item);
  }

  lemma ReleaseKeepsNotOversold(s: Stock, id: nat)
    requires Accounted(s) && NotOversold(s)
    ensures NotOversold(Release(s, id))
  {
    ReleaseAccounts(s, id);
    var s' := Release(s, id);
    forall slot ensures NotOversoldAt(s', slot) {
      assert NotOversoldAt(s, slot);
      assert IsActive(s, id) ==> s.reservations[id].quantity > 0.0;
    }
  }

  lemma {:induction false} ReleaseAllKeepsNotOversold(s: Stock, ids: seq<nat>)
    requires Accounted(s) && NotOversold(s)
    ensures NotOversold(ReleaseAll(s, ids))
  {
    if ids != [] {
      ReleaseAllAccounts(s, ids[..|ids| - 1]);
      ReleaseAllKeepsNotOversold(s, ids[..|ids| - 1]);
      ReleaseKeepsNotOversold(ReleaseAll(s, ids[..|ids| - 1]), ids[|ids| - 1]);
    }
  }

  lemma ConfirmKeepsNotOversold(s: Stock, id: nat)
    requires Accounted(s) && NotOversold(s)
    ensures NotOversold(Confirm(s, id))
  {
    ReleaseAccounts(s, id);
    var s' := Confirm(s, id);
    forall slot ensures NotOversoldAt(s', slot) {
      assert NotOversoldAt(s, slot);
    }
  }

  lemma StepKeepsNotOversold(s: Stock, c: Call)
    requires Accounted(s) && NotOversold(s) && Allowed(c) && (c.Starting? ==> SafeBatch(s, c.warehouse, c.needs))
    ensures NotOversold(Step(s, c))
  {
    match c
    case Confirming(id) => ConfirmKeepsNotOversold(s, id);
    case Releasing(id) => ReleaseKeepsNotOversold(s, id);
    case Expiring(now) => ReleaseAllKeepsNotOversold(s, ExpiredIds(s.reservations, now));
    case Starting(warehouse, needs) => StartBatchSafeIff(s, warehouse, needs);
    case _ =>
      var s' := Step(s, c);
      forall slot ensures NotOversoldAt(s', slot) {
        assert NotOversoldAt(s, slot);
      }
  }

  /** Every batch of the run, when it was started, was refused or fitted together. */
  ghost predicate BatchesSafe(run: seq<Call>) {
    forall i :: 0 <= i < |run| && run[i].Starting? ==> SafeBatch(After(run[..i]), run[i].warehouse, run[i].needs)
  }

  lemma AfterPrefix(run: seq<Call>, n: nat)
    requires n < |run|
    ensures After(run[..n + 1]) == Step(After(run[..n]), run[n])
  {
    assert run[..n + 1][..n] == run[..n];
  }

  lemma {:induction false} SafeRunNotOversold(run: seq<Call>, n: nat)
    requires (forall c :: c in run ==> Allowed(c)) && BatchesSafe(run) && n <= |run|
    ensures NotOversold(After(run[..n]))
    decreases n
  {
    if n == 0 {
      assert run[..0] == [];
    } else {
      SafeRunNotOversold(run, n - 1);
      RunAccounted(run[..n - 1]);
      AfterPrefix(run, n - 1);
      StepKeepsNotOversold(After(run[..n - 1]), run[n - 1]);
    }
  }

  lemma UnsafeBatchOversells(run: seq<Call>, i: nat)
    requires i < |run| && run[i].Starting? && !SafeBatch(After(run[..i]), run[i].warehouse, run[i].needs)
    ensures !NotOversold(After(run[..i])) || !NotOversold(After(run[..i + 1]))
  {
    AfterPrefix(run, i);
    if NotOversold(After(run[..i])) {
      StartBatchSafeIff(After(run[..i]), run[i].warehouse, run[i].needs);
    }
  }

  /** Stock is oversold at no moment of a run exactly when every batch, as it was started, was refused
      or its lines fitted together. */
  lemma NeverOversoldIff(run: seq<Call>)
    requires forall c :: c in run ==> Allowed(c)
    ensures (forall n :: 0 <= n <= |run| ==> NotOversold(After(run[..n]))) <==> BatchesSafe(run)
  {
    if BatchesSafe(run) {
      forall n | 0 <= n <= |run| ensures NotOversold(After(run[..n])) {
        SafeRunNotOversold(run, n);
      }
    } else {
      var i :| 0 <= i < |run| && run[i].Starting? && !SafeBatch(After(run[..i]), run[i].warehouse, run[i].needs);
      UnsafeBatchOversells(run, i);
    }
  }

  /** So over every run whose batches list no item twice, no reservation is ever without its stock. */
  lemma {:induction false} RunNotOversold(run: seq<Call>)
    requires forall c :: c in run ==> Allowed(c) && (c.Starting? ==> ItemsDiffer(c.needs))
    ensures NotOversold(After(run))
  {
    if run != [] {
      var before, c := run[..|run| - 1], run[|run| - 1];
      assert c in run;
      RunNotOversold(before);
      RunAccounted(before);
      if c.Starting? { DifferentItemsFit(After(before), c.warehouse, c.needs); }
      StepKeepsNotOversold(After(before), c);
    }
  }

  // ---- the expiry sweep -------------------------------------------------------------------------------------------

  lemma {:induction false} ExpiredIdsAre(reservations: seq<Reservation>, now: int)
    ensures forall id: nat :: id in ExpiredIds(reservations, now) <==>
      id < |reservations| && reservations[id].status == Active && reservations[id].expiresAt <= now
  {
    if reservations != [] {
      ExpiredIdsAre(reservations[..|reservations| - 1], now);
    }
  }

  lemma {:induction false} ReleasedAre(s: Stock, ids: seq<nat>)
    ensures var after := ReleaseAll(s, ids).reservations;
      |after| == |s.reservations| && forall id :: 0 <= id < |after| ==>
        after[id] == if id in ids && s.reservations[id].status == Active then s.reservations[id].(status := Released)
                     else s.reservations[id]
  {
    if ids != [] {
      var front, last := ids[..|ids| - 1], ids[|ids| - 1];
      assert ids == front + [last];
      ReleasedAre(s, front);
    }
  }

  /** After the sweep no expired reservation is active, and every other reservation is as it was. */
  lemma SweepReleasesExactlyExpired(s: Stock, now: int)
    ensures var after := ReleaseAll(s, ExpiredIds(s.reservations, now)).reservations;
      |after| == |s.reservations| && forall id :: 0 <= id < |after| ==>
        var r := s.reservations[id];
        after[id] == if r.status == Active && r.expiresAt <= now then r.(status := Released) else r
  {
    ExpiredIdsAre(s.reservations, now);
    ReleasedAre(s, ExpiredIds(s.reservations, now));
  }

  /** Releasing what was just reserved puts every level back, and the reservation is spent. */
  lemma ReleaseUndoesReserve(s: Stock, slot: Slot, quantity: real, expiresAt: int)
    requires NotOversold(s) && quantity > 0.0 && CanReserve(s, slot, quantity)
    ensures var s' := Release(Reserve(s, slot, quantity, expiresAt), |s.reservations|);
      s'.levels == s.levels && s'.reservations == s.reservations + [Reservation(slot, quantity, Released, expiresAt)]
  {
    assert NotOversoldAt(s, slot);
    var s' := Release(Reserve(s, slot, quantity, expiresAt), |s.reservations|);
    assert s'.levels[slot] == s.levels[slot];
  }

  function Continue(s: Stock, run: seq<Call>): Stock {
    if run == [] then s else Step(Continue(s, run[..|run| - 1]), run[|run| - 1])
  }

  lemma {:induction false} ConsumeKeepsReservations(s: Stock, warehouse: nat, needs: seq<Need>)
    ensures Consume(s, warehouse, needs).reservations == s.reservations
  {
    if needs != [] {
      ConsumeKeepsReservations(s, warehouse, needs[..|needs| - 1]);
    }
  }

  /** A confirmed or released reservation never changes again. */
  lemma {:induction false} EndedIsFinal(s: Stock, run: seq<Call>, id: nat)
    requires id < |s.reservations| && s.reservations[id].status != Active
    ensures id < |Continue(s, run).reservations| && Continue(s, run).reservations[id] == s.reservations[id]
  {
    if run != [] {
      var before, c := Continue(s, run[..|run| - 1]), run[|run| - 1];
      EndedIsFinal(s, run[..|run| - 1], id);
      match c
      case Expiring(now) => ReleasedAre(before, ExpiredIds(before.reservations, now));
      case Starting(warehouse, needs) => ConsumeKeepsReservations(before, warehouse, needs);
      case _ =>
    }
  }
}
