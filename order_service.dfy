/** `CreateOrderService.execute` as the sequential script it is. The
    service object holds the state its repositories write: the stock on
    hand per product, the orders created, and the log of repository writes
    in the order they were made. The customer lookup's result and the list
    `findAllById` returned are inputs. */
module Service {
  import opened Domain
  import opened Validation
  import opened FetchContract

  /** A repository write made by `execute`. */
  datatype Call = Created(order: Order) | QuantitiesUpdated(updates: seq<Update>)

  /** How the repositories answer `execute`'s two writes: both accepted,
      the order creation rejected, or the order created and the stock
      update rejected. */
  datatype StoreAnswer = BothAccepted | CreateRejected | UpdateRejected

  /** The ids an update list writes to. */
  function UpdatedIds(us: seq<Update>): (ids: set<Id>)
    ensures forall i :: 0 <= i < |us| ==> us[i].id in ids
    ensures forall id :: id in ids ==> exists i :: 0 <= i < |us| && us[i].id == id
  {
    if us == [] then {} else {us[0].id} + UpdatedIds(us[1..])
  }

  /** `updateQuantity` applied to a stock map: each entry sets a new
      absolute quantity, in list order, so for a repeated id the last entry
      wins. */
  function Applied(stock: map<Id, int>, us: seq<Update>): (r: map<Id, int>)
    ensures r.Keys == stock.Keys + UpdatedIds(us)
    decreases us
  {
    if us == [] then stock
    else Applied(stock[us[0].id := us[0].quantity], us[1..])
  }

  /** A product the update list does not name keeps its stock. */
  lemma {:induction false} AppliedUntouched(stock: map<Id, int>, us: seq<Update>)
    ensures forall id :: id in stock && id !in UpdatedIds(us) ==> Applied(stock, us)[id] == stock[id]
    decreases us
  {
    if us != [] {
      AppliedUntouched(stock[us[0].id := us[0].quantity], us[1..]);
    }
  }

  /** An entry that no later entry overrides decides its product's new
      stock. */
  lemma {:induction false} AppliedLastWins(stock: map<Id, int>, us: seq<Update>, i: nat)
    requires i < |us|
    requires forall j :: i < j < |us| ==> us[j].id != us[i].id
    ensures us[i].id in Applied(stock, us) && Applied(stock, us)[us[i].id] == us[i].quantity
    decreases us
  {
    var next := stock[us[0].id := us[0].quantity];
    if i == 0 {
      AppliedUntouched(next, us[1..]);
      forall j | 0 <= j < |us[1..]| ensures us[1..][j].id != us[0].id {
        assert us[1..][j] == us[j + 1];
      }
    } else {
      AppliedLastWins(next, us[1..], i - 1);
    }
  }

  /** Under `findAllById`'s promise, a successful order lowers the stock of
      each requested product by exactly the quantity requested, and leaves
      every other product's stock as it was. */
  lemma {:induction false} StockDropsByRequested(stock: map<Id, int>, c: Customer, reqs: seq<Request>, ps: seq<Product>)
    requires FetchedFrom(stock, reqs, ps)
    requires Decide(Some(c), reqs, ps).Ok?
    ensures var after := Applied(stock, Decide(Some(c), reqs, ps).value.updates);
      after.Keys == stock.Keys &&
      (forall i :: 0 <= i < |reqs| ==>
        reqs[i].id in stock && after[reqs[i].id] == stock[reqs[i].id] - reqs[i].quantity) &&
      forall id :: id in stock && id !in RequestIds(reqs) ==> after[id] == stock[id]
  {
    var us := Decide(Some(c), reqs, ps).value.updates;
    CountCheckForcesMatch(reqs, ps);
    UpdatesFromSnapshot(Some(c), reqs, ps);
    AppliedUntouched(stock, us);
    forall i | 0 <= i < |reqs|
      ensures reqs[i].id in stock && stock[reqs[i].id] == Matched(ps, reqs[i].id).quantity
      ensures Applied(stock, us)[us[i].id] == us[i].quantity
    {
      var k := Find(ps, reqs[i].id).value;
      assert ps[k] == Matched(ps, reqs[i].id);
      AppliedLastWins(stock, us, i);
    }
    assert UpdatedIds(us) <= stock.Keys;
    forall id | id in stock && id !in RequestIds(reqs) ensures id !in UpdatedIds(us) {
      forall i | 0 <= i < |us| ensures us[i].id != id {
        assert us[i].id == reqs[i].id;
      }
    }
  }

  class OrderService {
    /** The products repository's stock on hand per product id. */
    var stock: map<Id, int>
    /** The orders repository's orders, oldest first. */
    var orders: seq<Order>
    /** Every repository write, oldest first. */
    var calls: seq<Call>

    constructor (initial: map<Id, int>)
      ensures stock == initial && orders == [] && calls == []
    {
      stock := initial;
      orders := [];
      calls := [];
    }

    /** `ordersRepository.create`: stores the order. */
    method Create(order: Order)
      modifies this`orders, this`calls
      ensures orders == old(orders) + [order]
      ensures calls == old(calls) + [Created(order)]
    {
      orders := orders + [order];
      calls := calls + [Created(order)];
    }

    /** `productsRepository.updateQuantity`: writes new absolute stock
        quantities in one batch. */
    method UpdateQuantity(us: seq<Update>)
      modifies this`stock, this`calls
      ensures stock == Applied(old(stock), us)
      ensures calls == old(calls) + [QuantitiesUpdated(us)]
    {
      stock := Applied(stock, us);
      calls := calls + [QuantitiesUpdated(us)];
    }

    /** `execute`: on any refusal nothing is written; on success the order
        is created first and the stock updated second, each exactly once,
        with the line items and updates `Decide` derives. The two writes are
        not atomic: when the stock update is rejected the order stays
        stored, the stock is unchanged and the rejection is returned. */
    method Execute(customer: Option<Customer>, products: seq<Request>, productsSelected: seq<Product>,
                   store: StoreAnswer)
      returns (r: Result<Order>)
      modifies this
      ensures Decide(customer, products, productsSelected).Err? ==>
        r == Err(Decide(customer, products, productsSelected).error) &&
        stock == old(stock) && orders == old(orders) && calls == old(calls)
      ensures Decide(customer, products, productsSelected).Ok? && store == CreateRejected ==>
        r == Err(WriteRejected) &&
        stock == old(stock) && orders == old(orders) && calls == old(calls)
      ensures Decide(customer, products, productsSelected).Ok? && store == UpdateRejected ==>
        var commit := Decide(customer, products, productsSelected).value;
        r == Err(WriteRejected) &&
        orders == old(orders) + [commit.order] &&
        stock == old(stock) &&
        calls == old(calls) + [Created(commit.order)]
      ensures Decide(customer, products, productsSelected).Ok? && store == BothAccepted ==>
        var commit := Decide(customer, products, productsSelected).value;
        r == Ok(commit.order) &&
        orders == old(orders) + [commit.order] &&
        stock == Applied(old(stock), commit.updates) &&
        calls == old(calls) + [Created(commit.order), QuantitiesUpdated(commit.updates)]
    {
      if customer.None? {
        return Err(CustomerNotFound);
      }
      if |products| == 0 || |productsSelected| != |products| {
        return Err(ProductsInvalid);
      }
      var hasStockSufficient := StockCheck(products, productsSelected);
      if hasStockSufficient.Fail? {
        return Err(hasStockSufficient.error);
      }
      NotFoundUnreachableAfterScan(products, productsSelected);
      var orderProducts := BuildLineItems(products, productsSelected).value;
      var order := Order(customer.value, orderProducts);
      if store == CreateRejected {
        return Err(WriteRejected);
      }
      Create(order);
      var productsUpdate := BuildUpdates(products, productsSelected).value;
      if store == UpdateRejected {
        return Err(WriteRejected);
      }
      UpdateQuantity(productsUpdate);
      r := Ok(order);
    }
  }

  /** Two successful orders in a row, the second fetched after the first
      was written: each requested product's stock drops by the request
      twice, so repeating an order is not idempotent. */
  lemma {:induction false} RepeatedOrdersAccumulate(stock: map<Id, int>, c: Customer, reqs: seq<Request>,
                                                    first: seq<Product>, second: seq<Product>)
    requires FetchedFrom(stock, reqs, first) && Decide(Some(c), reqs, first).Ok?
    requires var mid := Applied(stock, Decide(Some(c), reqs, first).value.updates);
      FetchedFrom(mid, reqs, second) && Decide(Some(c), reqs, second).Ok?
    ensures var mid := Applied(stock, Decide(Some(c), reqs, first).value.updates);
      var after := Applied(mid, Decide(Some(c), reqs, second).value.updates);
      after.Keys == stock.Keys &&
      forall i :: 0 <= i < |reqs| ==>
        reqs[i].id in stock && after[reqs[i].id] == stock[reqs[i].id] - 2 * reqs[i].quantity
  {
    var mid := Applied(stock, Decide(Some(c), reqs, first).value.updates);
    StockDropsByRequested(stock, c, reqs, first);
    StockDropsByRequested(mid, c, reqs, second);
  }

  /** The same valid order placed twice, each time against a fresh fetch:
      the stock is lowered twice, from 5 to 4 to 3. */
  method RepeatedOrderDecrementsTwice() returns (first: Result<Order>, second: Result<Order>, left: int)
    ensures first.Ok? && second.Ok? && first == second
    ensures left == 3
  {
    var service := new OrderService(map["p1" := 5]);
    var c := Some(Customer("c1"));
    var request := [Request("p1", 1)];
    first := service.Execute(c, request, [Product("p1", 10.0, service.stock["p1"])], BothAccepted);
    assert Find([Product("p1", 10.0, 5)], "p1") == Some(0);
    assert service.stock == map["p1" := 4];
    second := service.Execute(c, request, [Product("p1", 10.0, service.stock["p1"])], BothAccepted);
    assert Find([Product("p1", 10.0, 4)], "p1") == Some(0);
    left := service.stock["p1"];
  }

  /** Customer "c1" orders 3 of product "p1" (price 10.0, 5 in stock): one
      line item at price 10.0 for 3, and "p1" is left with 2. */
  method HappyPath() returns (r: Result<Order>, left: int, written: seq<Call>)
    ensures r == Ok(Order(Customer("c1"), [LineItem("p1", 10.0, 3)]))
    ensures left == 2
    ensures written == [Created(r.value), QuantitiesUpdated([Update("p1", 2)])]
  {
    var service := new OrderService(map["p1" := 5]);
    var request, selected := [Request("p1", 3)], [Product("p1", 10.0, 5)];
    assert Find(selected, "p1") == Some(0);
    assert Matched(selected, "p1") == selected[0];
    assert BuildLineItems(request, selected).value == [LineItem("p1", 10.0, 3)];
    assert BuildUpdates(request, selected).value == [Update("p1", 2)];
    r := service.Execute(Some(Customer("c1")), request, selected, BothAccepted);
    assert service.stock == Applied(map["p1" := 2], []);
    left := service.stock["p1"];
    written := service.calls;
  }

  /** Ordering exactly the stock on hand is refused: 3 of a product with 3
      in stock. */
  lemma ExactStockRefused()
    ensures Decide(Some(Customer("c1")), [Request("p1", 3)], [Product("p1", 10.0, 3)])
      == Err(StockInsufficient)
  {
  }

  /** One item of two lacks stock: the whole order is refused, and nothing
      is written, not even for the item that had enough. */
  method OneInsufficientRefusesAll() returns (r: Result<Order>, p1Left: int, written: seq<Call>)
    ensures r == Err(StockInsufficient)
    ensures p1Left == 5 && written == []
  {
    var service := new OrderService(map["p1" := 5, "p2" := 5]);
    r := service.Execute(Some(Customer("c1")), [Request("p1", 1), Request("p2", 10)],
                         [Product("p1", 10.0, 5), Product("p2", 7.5, 5)], BothAccepted);
    p1Left := service.stock["p1"];
    written := service.calls;
  }
}
