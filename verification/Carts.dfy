/** A shopping cart: a list of lines that stands for a map from product to quantity and price (in paise). */
module Carts {
  import opened Wrappers
  import opened MapSums

  const MAX_QUANTITY: nat := 100

  datatype Item = Item(id: nat, product: nat, name: string, price: nat, quantity: nat, image: Option<string>)

  /** A line as the map sees it. */
  datatype Entry = Entry(quantity: nat, price: nat)

  predicate ValidQuantity(q: int) { 1 <= q <= MAX_QUANTITY }

  ghost predicate Valid(items: seq<Item>) {
    && (forall i, j :: 0 <= i < j < |items| ==> items[i].product != items[j].product && items[i].id != items[j].id)
    && (forall i :: 0 <= i < |items| ==> ValidQuantity(items[i].quantity))
  }

  /** The position of the first line wanted, or the length. */
  function IndexOf(items: seq<Item>, wanted: Item -> bool): (k: nat)
    ensures k <= |items|
    ensures k < |items| ==> wanted(items[k])
    ensures forall i :: 0 <= i < k ==> !wanted(items[i])
  {
    if items == [] then 0
    else if wanted(items[0]) then 0
    else 1 + IndexOf(items[1..], wanted)
  }

  function IndexOfProduct(items: seq<Item>, product: nat): nat {
    IndexOf(items, (i: Item) => i.product == product)
  }

  function IndexOfId(items: seq<Item>, id: nat): nat {
    IndexOf(items, (i: Item) => i.id == id)
  }

  function Capped(q: int): int {
    if q > MAX_QUANTITY then MAX_QUANTITY else q
  }

  /** The abstract cart. */
  function View(items: seq<Item>): map<nat, Entry> {
    if items == [] then map[]
    else
      var last := items[|items| - 1];
      View(items[..|items| - 1])[last.product := Entry(last.quantity, last.price)]
  }

  lemma ViewNext(items: seq<Item>, x: Item)
    ensures View(items + [x]) == View(items)[x.product := Entry(x.quantity, x.price)]
  {
    assert (items + [x])[..|items|] == items;
  }

  lemma {:induction false} NotInView(items: seq<Item>, product: nat)
    requires forall i :: 0 <= i < |items| ==> items[i].product != product
    ensures product !in View(items)
  {
    if items != [] {
      NotInView(items[..|items| - 1], product);
    }
  }

  /** Line `k` is the only one of its product. */
  ghost predicate Only(items: seq<Item>, k: nat)
    requires k < |items|
  {
    forall i :: 0 <= i < |items| && i != k ==> items[i].product != items[k].product
  }

  lemma {:induction false} ViewAt(items: seq<Item>, k: nat)
    requires k < |items| && Only(items, k)
    ensures items[k].product in View(items) && View(items)[items[k].product] == Entry(items[k].quantity, items[k].price)
  {
    if k < |items| - 1 {
      ViewAt(items[..|items| - 1], k);
    }
  }

  lemma {:induction false} ViewOfUpdate(items: seq<Item>, k: nat, x: Item)
    requires k < |items| && Only(items, k) && x.product == items[k].product
    ensures View(items[k := x]) == View(items)[x.product := Entry(x.quantity, x.price)]
  {
    var n := |items| - 1;
    var front, last := items[..n], items[n];
    if k == n {
      assert items[k := x] == front + [x];
      ViewNext(front, x);
    } else {
      ViewOfUpdate(front, k, x);
      assert items[k := x] == front[k := x] + [last];
      ViewNext(front[k := x], last);
    }
  }

  lemma MinusUpdated(v: map<nat, Entry>, gone: nat, product: nat, e: Entry)
    requires gone != product
    ensures (v - {gone})[product := e] == v[product := e] - {gone}
  {
  }

  lemma {:induction false} ViewOfRemoval(items: seq<Item>, k: nat)
    requires k < |items| && Only(items, k)
    ensures View(items[..k] + items[k + 1..]) == View(items) - {items[k].product}
  {
    var n := |items| - 1;
    var front, last := items[..n], items[n];
    if k == n {
      assert items[..k] + items[k + 1..] == front;
      NotInView(front, items[k].product);
    } else {
      var rest := front[..k] + front[k + 1..];
      ViewOfRemoval(front, k);
      assert items[..k] + items[k + 1..] == rest + [last];
      ViewNext(rest, last);
      MinusUpdated(View(front), items[k].product, last.product, Entry(last.quantity, last.price));
    }
  }

  /** What the response reports: each line's price times its quantity, summed. */
  function Subtotal(items: seq<Item>): nat {
    if items == [] then 0
    else Subtotal(items[..|items| - 1]) + items[|items| - 1].price * items[|items| - 1].quantity
  }

  /** The cost of each product of the abstract cart. */
  function Costs(v: map<nat, Entry>): map<nat, int> {
    map p | p in v :: v[p].price * v[p].quantity
  }

  /** The subtotal is the sum over the map. */
  lemma {:induction false} SubtotalIsSum(items: seq<Item>)
    requires Valid(items)
    ensures Subtotal(items) == Sum(Costs(View(items)))
  {
    if items != [] {
      var front, last := items[..|items| - 1], items[|items| - 1];
      SubtotalIsSum(front);
      NotInView(front, last.product);
      CostsNext(View(front), last.product, Entry(last.quantity, last.price));
    }
  }

  lemma CostsNext(v: map<nat, Entry>, product: nat, e: Entry)
    requires product !in v
    ensures Sum(Costs(v[product := e])) == Sum(Costs(v)) + e.price * e.quantity
  {
    assert Costs(v[product := e]) == Costs(v)[product := e.price * e.quantity];
    SumUpdate(Costs(v), product, e.price * e.quantity);
  }

  // ---- the four operations on the list -------------------------------------------------------------------

  /** Adding merges into the product's line, capped, or appends a line under a new id. */
  function Add(items: seq<Item>, new': Item): seq<Item> {
    var k := IndexOfProduct(items, new'.product);
    if k < |items|
    then items[k := items[k].(quantity := Capped(items[k].quantity + new'.quantity), price := new'.price)]
    else items + [new']
  }

  function Update(items: seq<Item>, id: nat, quantity: nat): seq<Item> {
    var k := IndexOfId(items, id);
    if k < |items| then items[k := items[k].(quantity := quantity)] else items
  }

  function Remove(items: seq<Item>, id: nat): seq<Item> {
    var k := IndexOfId(items, id);
    if k < |items| then items[..k] + items[k + 1..] else items
  }

  ghost predicate FreshId(items: seq<Item>, id: nat) {
    forall i :: 0 <= i < |items| ==> items[i].id != id
  }

  /** On the map: the quantity grows up to the cap and the latest price stands. */
  function AddToView(v: map<nat, Entry>, product: nat, quantity: nat, price: nat): map<nat, Entry> {
    v[product := Entry(if product in v then Capped(v[product].quantity + quantity) else quantity, price)]
  }

  lemma AddKeepsValid(items: seq<Item>, new': Item)
    requires Valid(items) && ValidQuantity(new'.quantity) && FreshId(items, new'.id)
    ensures Valid(Add(items, new'))
  {
  }

  lemma AddRefines(items: seq<Item>, new': Item)
    requires Valid(items) && ValidQuantity(new'.quantity) && FreshId(items, new'.id)
    ensures Valid(Add(items, new'))
    ensures View(Add(items, new')) == AddToView(View(items), new'.product, new'.quantity, new'.price)
  {
    var k := IndexOfProduct(items, new'.product);
    AddKeepsValid(items, new');
    if k < |items| {
      ViewAt(items, k);
      ViewOfUpdate(items, k, items[k].(quantity := Capped(items[k].quantity + new'.quantity), price := new'.price));
    } else {
      NotInView(items, new'.product);
      ViewNext(items, new');
    }
  }

  /** The line with the id is the one the search finds. */
  lemma FoundById(items: seq<Item>, id: nat)
    requires Valid(items)
    ensures forall k :: 0 <= k < |items| && items[k].id == id ==> IndexOfId(items, id) == k
    ensures FreshId(items, id) <==> IndexOfId(items, id) == |items|
  {
  }

  lemma UpdateLine(items: seq<Item>, k: nat, quantity: nat)
    requires Valid(items) && k < |items| && ValidQuantity(quantity)
    ensures var items' := items[k := items[k].(quantity := quantity)];
      Valid(items') && View(items') == View(items)[items[k].product := Entry(quantity, items[k].price)]
  {
    ViewOfUpdate(items, k, items[k].(quantity := quantity));
  }

  /** Updating the line with an id sets that line's quantity and nothing else; on the map, its product's. */
  lemma UpdateRefines(items: seq<Item>, id: nat, quantity: nat)
    requires Valid(items) && ValidQuantity(quantity)
    ensures Valid(Update(items, id, quantity))
    ensures FreshId(items, id) ==> Update(items, id, quantity) == items
    ensures forall k :: 0 <= k < |items| && items[k].id == id ==>
      && Update(items, id, quantity) == items[k := items[k].(quantity := quantity)]
      && View(Update(items, id, quantity)) == View(items)[items[k].product := Entry(quantity, items[k].price)]
  {
    FoundById(items, id);
    var k := IndexOfId(items, id);
    if k < |items| {
      UpdateLine(items, k, quantity);
    }
  }

  lemma RemoveKeepsValid(items: seq<Item>, k: nat)
    requires Valid(items) && k < |items|
    ensures Valid(items[..k] + items[k + 1..])
  {
    var items' := items[..k] + items[k + 1..];
    forall i | 0 <= i < |items'| ensures items'[i] == items[if i < k then i else i + 1] {}
  }

  lemma RemoveLine(items: seq<Item>, k: nat)
    requires Valid(items) && k < |items|
    ensures var items' := items[..k] + items[k + 1..];
      Valid(items') && View(items') == View(items) - {items[k].product}
  {
    RemoveKeepsValid(items, k);
    ViewOfRemoval(items, k);
  }

  /** Removing the line with an id takes out that line and nothing else; on the map, its product. */
  lemma RemoveRefines(items: seq<Item>, id: nat)
    requires Valid(items)
    ensures Valid(Remove(items, id))
    ensures FreshId(items, id) ==> Remove(items, id) == items
    ensures forall k :: 0 <= k < |items| && items[k].id == id ==>
      && Remove(items, id) == items[..k] + items[k + 1..]
      && View(Remove(items, id)) == View(items) - {items[k].product}
  {
    FoundById(items, id);
    var k := IndexOfId(items, id);
    if k < |items| {
      assert Remove(items, id) == items[..k] + items[k + 1..];
      RemoveLine(items, k);
      assert forall j :: 0 <= j < |items| && items[j].id == id ==> j == k;
    }
  }

  class Cart {
    var items: seq<Item>
    var coupon: Option<string>

    ghost predicate Ok()
      reads this
    {
      Valid(items)
    }

    constructor ()
      ensures Ok() && items == [] && coupon == None
    {
      items, coupon := [], None;
    }

    /** `id` is the key the database gives a new line. */
    method AddItem(id: nat, product: nat, name: string, price: nat, quantity: nat, image: Option<string>)
      requires Ok() && FreshId(items, id) && price > 0 && ValidQuantity(quantity)
      modifies this`items
      ensures Ok() && items == Add(old(items), Item(id, product, name, price, quantity, image))
      ensures View(items) == AddToView(old(View(items)), product, quantity, price)
    {
      AddRefines(items, Item(id, product, name, price, quantity, image));
      var k := IndexOfProduct(items, product);
      if k < |items| {
        var merged := items[k].quantity + quantity;
        if merged > MAX_QUANTITY {
          merged := MAX_QUANTITY;
        }
        items := items[k := items[k].(quantity := merged, price := price)];
      } else {
        items := items + [Item(id, product, name, price, quantity, image)];
      }
    }

    method UpdateItem(id: nat, quantity: nat) returns (outcome: Outcome)
      requires Ok() && ValidQuantity(quantity)
      modifies this`items
      ensures Ok() && items == Update(old(items), id, quantity)
      ensures forall k :: 0 <= k < |old(items)| && old(items)[k].id == id ==>
        items == old(items)[k := old(items)[k].(quantity := quantity)]
      ensures outcome == NotFound <==> old(FreshId(items, id))
      ensures outcome == NotFound || outcome == Done
    {
      UpdateRefines(items, id, quantity);
      var k := IndexOfId(items, id);
      if k == |items| {
        return NotFound;
      }
      items := items[k := items[k].(quantity := quantity)];
      return Done;
    }

    method RemoveItem(id: nat) returns (outcome: Outcome)
      requires Ok()
      modifies this`items
      ensures Ok() && items == Remove(old(items), id)
      ensures forall k :: 0 <= k < |old(items)| && old(items)[k].id == id ==>
        items == old(items)[..k] + old(items)[k + 1..]
      ensures outcome == NotFound <==> old(FreshId(items, id))
      ensures outcome == NotFound || outcome == Done
    {
      RemoveRefines(items, id);
      var k := IndexOfId(items, id);
      if k == |items| {
        return NotFound;
      }
      items := items[..k] + items[k + 1..];
      return Done;
    }

    method Clear()
      modifies this
      ensures Ok() && items == [] && View(items) == map[] && coupon == None
    {
      items := [];
      coupon := None;
    }

    /** The subtotal of the response. */
    method ComputeSubtotal() returns (subtotal: nat)
      requires Ok()
      ensures subtotal == Subtotal(items) == Sum(Costs(View(items)))
    {
      subtotal := 0;
      for i := 0 to |items|
        invariant subtotal == Subtotal(items[..i])
      {
        assert items[..i + 1][..i] == items[..i];
        subtotal := subtotal + items[i].price * items[i].quantity;
      }
      assert items[..|items|] == items;
      SubtotalIsSum(items);
    }
  }

  // ---- every run --------------------------------------------------------------------------------------------

  datatype Call =
    | Adding(item: Item)
    | Updating(id: nat, quantity: nat)
    | Removing(id: nat)
    | Clearing

  /** What the request schemas and the database's fresh keys guarantee. */
  ghost predicate Allowed(items: seq<Item>, c: Call) {
    match c
    case Adding(item) => ValidQuantity(item.quantity) && item.price > 0 && FreshId(items, item.id)
    case Updating(_, quantity) => ValidQuantity(quantity)
    case _ => true
  }

  function Step(items: seq<Item>, c: Call): seq<Item> {
    match c
    case Adding(item) => Add(items, item)
    case Updating(id, quantity) => Update(items, id, quantity)
    case Removing(id) => Remove(items, id)
    case Clearing => []
  }

  function After(run: seq<Call>): seq<Item> {
    if run == [] then [] else Step(After(run[..|run| - 1]), run[|run| - 1])
  }

  ghost predicate AllAllowed(run: seq<Call>) {
    run == [] || (AllAllowed(run[..|run| - 1]) && Allowed(After(run[..|run| - 1]), run[|run| - 1]))
  }

  /** Over every run each product has one line, of 1 to 100, and the subtotal is the sum over the map. */
  lemma {:induction false} RunValid(run: seq<Call>)
    requires AllAllowed(run)
    ensures Valid(After(run)) && Subtotal(After(run)) == Sum(Costs(View(After(run))))
  {
    if run != [] {
      var items, c := After(run[..|run| - 1]), run[|run| - 1];
      RunValid(run[..|run| - 1]);
      match c
      case Adding(item) => AddRefines(items, item);
      case Updating(id, quantity) => UpdateRefines(items, id, quantity);
      case Removing(id) => RemoveRefines(items, id);
      case Clearing =>
    }
    SubtotalIsSum(After(run));
  }

  /** How much of a product a run of adds asks for. */
  function Requested(run: seq<Call>, product: nat): nat {
    if run == [] then 0
    else
      var c := run[|run| - 1];
      Requested(run[..|run| - 1], product) + if c.Adding? && c.item.product == product then c.item.quantity else 0
  }

  /** The price in the last add of a product. */
  function LatestPrice(run: seq<Call>, product: nat): nat {
    if run == [] then 0
    else
      var c := run[|run| - 1];
      if c.Adding? && c.item.product == product then c.item.price else LatestPrice(run[..|run| - 1], product)
  }

  /** What a cart made by adds alone says of one product. */
  ghost predicate Saturated(v: map<nat, Entry>, product: nat, requested: nat, price: nat) {
    if product in v then requested > 0 && v[product] == Entry(Capped(requested), price) else requested == 0
  }

  lemma AddSaturates(v: map<nat, Entry>, product: nat, requested: nat, price: nat, x: Item)
    requires Saturated(v, product, requested, price) && ValidQuantity(x.quantity)
    ensures var v' := AddToView(v, x.product, x.quantity, x.price);
      if x.product == product then Saturated(v', product, requested + x.quantity, x.price)
      else Saturated(v', product, requested, price)
  {
  }

  /** Adds of any products in any order and grouping: each product ends at the sum asked for, capped at 100,
      at the latest price, and is in the cart exactly if it was asked for. */
  lemma {:induction false} AddsSaturate(run: seq<Call>, product: nat)
    requires AllAllowed(run) && forall c :: c in run ==> c.Adding?
    ensures Saturated(View(After(run)), product, Requested(run, product), LatestPrice(run, product))
  {
    if run != [] {
      var before, c := run[..|run| - 1], run[|run| - 1];
      var items := After(before);
      assert c in run && After(run) == Add(items, c.item);
      AddsSaturate(before, product);
      assert View(Add(items, c.item)) == AddToView(View(items), c.item.product, c.item.quantity, c.item.price) by {
        RunValid(before);
        AddRefines(items, c.item);
      }
      AddSaturates(View(items), product, Requested(before, product), LatestPrice(before, product), c.item);
    }
  }

  /** Removing the line of a product just added puts the list back as it was. */
  lemma RemoveUndoesAdd(items: seq<Item>, x: Item)
    requires Valid(items) && FreshId(items, x.id) && x.product !in View(items)
    ensures Remove(Add(items, x), x.id) == items
  {
    var k := IndexOfProduct(items, x.product);
    if k < |items| {
      ViewAt(items, k);
    } else {
      assert (items + [x])[|items|].id == x.id;
      assert IndexOfId(items + [x], x.id) == |items|;
    }
  }
}
