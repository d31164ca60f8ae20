/** What a cart's lines become, said in terms of the lines alone. */
module CartLaws {
  import opened Carts
  import opened MapSums

  /** The map knows exactly the products that have a line. */
  lemma {:induction false} InViewIff(items: seq<Item>, product: nat)
    ensures product in View(items) <==> exists k :: 0 <= k < |items| && items[k].product == product
  {
    if items != [] {
      var front, last := items[..|items| - 1], items[|items| - 1];
      InViewIff(front, product);
      if product in View(front) {
        var k :| 0 <= k < |front| && front[k].product == product;
        assert items[k].product == product;
      } else if last.product == product {
        assert items[|items| - 1].product == product;
      } else {
        assert forall k :: 0 <= k < |items| - 1 ==> items[k] == front[k];
      }
    }
  }

  /** And says of it what its line says. */
  lemma ViewIs(items: seq<Item>, k: nat)
    requires Valid(items) && k < |items|
    ensures items[k].product in View(items)
    ensures View(items)[items[k].product].quantity == items[k].quantity
    ensures View(items)[items[k].product].price == items[k].price
  {
    ViewAt(items, k);
  }

  /** Adding to a product already in the cart changes its one line: the quantities add up to at most 100 and the
      new price stands. Otherwise the new line comes last. */
  lemma AddMerges(items: seq<Item>, x: Item)
    requires Valid(items)
    ensures forall k :: 0 <= k < |items| && items[k].product == x.product ==>
      var old', sum := items[k], items[k].quantity + x.quantity;
      Add(items, x)
      == items[k := Item(old'.id, old'.product, old'.name, x.price, if sum > 100 then 100 else sum, old'.image)]
    ensures (forall k :: 0 <= k < |items| ==> items[k].product != x.product) ==> Add(items, x) == items + [x]
  {
  }

  /** What each line costs. */
  ghost function LineCosts(items: seq<Item>): map<nat, int> {
    map i: nat | i < |items| :: items[i].price * items[i].quantity
  }

  /** The subtotal is price times quantity, added up over the lines. */
  lemma {:induction false} SubtotalIsLineSum(items: seq<Item>)
    ensures Subtotal(items) == Sum(LineCosts(items))
  {
    if items == [] {
      assert LineCosts(items) == map[];
    } else {
      var front, last := items[..|items| - 1], items[|items| - 1];
      SubtotalIsLineSum(front);
      assert LineCosts(items) == LineCosts(front)[|front| := last.price * last.quantity];
      SumUpdate<nat>(LineCosts(front), |front|, last.price * last.quantity);
    }
  }
}
