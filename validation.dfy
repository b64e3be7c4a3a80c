/** The decision logic of `CreateOrderService.execute`: the customer and
    count checks, the stock scan (`every` over the request with a `find`
    into the fetched products), and the two `map`s that derive the order's
    line items and the stock updates. `Decide` puts them together in the
    order the service runs them; it is the specification the imperative
    `OrderService.Execute` is proved against. */
module Validation {
  import opened Domain

  /** `k` is the index of the first product in `ps` whose id is `id`. */
  ghost predicate IsFirstMatch(ps: seq<Product>, id: Id, k: nat)
  {
    k < |ps| && ps[k].id == id && forall j :: 0 <= j < k ==> ps[j].id != id
  }

  /** `productsSelected.find(el => el.id === id)`, as the index of the
      element found. */
  function Find(ps: seq<Product>, id: Id): (r: Option<nat>)
    ensures r.Some? ==> IsFirstMatch(ps, id, r.value)
    ensures r.None? ==> forall j :: 0 <= j < |ps| ==> ps[j].id != id
  {
    if ps == [] then None
    else if ps[0].id == id then Some(0)
    else match Find(ps[1..], id)
      case None => None
      case Some(k) => Some(k + 1)
  }

  /** The product `find` returns when it finds one. */
  function Matched(ps: seq<Product>, id: Id): (p: Product)
    requires Find(ps, id).Some?
  {
    ps[Find(ps, id).value]
  }

  /** The `every` callback for one requested item: raise "Product not
      found" when nothing matches, otherwise pass exactly when the stock
      on hand is strictly greater than the quantity requested. */
  function ItemCheck(q: Request, ps: seq<Product>): (r: Check)
    ensures r == Fail(ProductNotFound) <==> Find(ps, q.id).None?
    ensures r.Pass? <==> Find(ps, q.id).Some? && Matched(ps, q.id).quantity > q.quantity
    ensures r.Fail? ==> r.error == ProductNotFound || r.error == StockInsufficient
  {
    match Find(ps, q.id)
    case None => Fail(ProductNotFound)
    case Some(k) => if ps[k].quantity > q.quantity then Pass else Fail(StockInsufficient)
  }

  /** `products.every(...)` followed by the insufficient-stock throw: the
      items are visited in request order and the first one that does not
      pass ends the scan with its own error. */
  function StockCheck(reqs: seq<Request>, ps: seq<Product>): (r: Check)
    ensures r.Pass? <==> forall i :: 0 <= i < |reqs| ==> ItemCheck(reqs[i], ps).Pass?
    ensures r.Fail? ==>
      exists i :: 0 <= i < |reqs| && r == ItemCheck(reqs[i], ps) &&
        forall j :: 0 <= j < i ==> ItemCheck(reqs[j], ps).Pass?
  {
    if reqs == [] then Pass
    else
      var c := ItemCheck(reqs[0], ps);
      if c.Fail? then c
      else
        var rest := StockCheck(reqs[1..], ps);
        assert forall i :: 1 <= i < |reqs| ==> reqs[i] == reqs[1..][i - 1];
        rest
  }

  /** `products.map(...)` building `orderProducts`: one line item per
      requested item, with the matched product's id and price and the
      requested quantity; "Product not found" when an item has no match. */
  function BuildLineItems(reqs: seq<Request>, ps: seq<Product>): (r: Result<seq<LineItem>>)
    ensures r.Ok? <==> forall i :: 0 <= i < |reqs| ==> Find(ps, reqs[i].id).Some?
    ensures r.Err? ==> r.error == ProductNotFound
    ensures r.Ok? ==> (|r.value| == |reqs| &&
      forall i :: 0 <= i < |reqs| ==>
        r.value[i] == LineItem(reqs[i].id, Matched(ps, reqs[i].id).price, reqs[i].quantity))
  {
    if reqs == [] then Ok([])
    else match Find(ps, reqs[0].id)
      case None => Err(ProductNotFound)
      case Some(k) =>
        match BuildLineItems(reqs[1..], ps)
        case Err(e) => Err(e)
        case Ok(rest) =>
          assert forall i :: 1 <= i < |reqs| ==> reqs[i] == reqs[1..][i - 1];
          Ok([LineItem(ps[k].id, ps[k].price, reqs[0].quantity)] + rest)
  }

  /** `products.map(...)` building `productsUpdate`: one update per
      requested item, whose new absolute quantity is the matched product's
      stock minus the requested quantity; "Product not found" when an item
      has no match. */
  function BuildUpdates(reqs: seq<Request>, ps: seq<Product>): (r: Result<seq<Update>>)
    ensures r.Ok? <==> forall i :: 0 <= i < |reqs| ==> Find(ps, reqs[i].id).Some?
    ensures r.Err? ==> r.error == ProductNotFound
    ensures r.Ok? ==> (|r.value| == |reqs| &&
      forall i :: 0 <= i < |reqs| ==>
        r.value[i] == Update(reqs[i].id, Matched(ps, reqs[i].id).quantity - reqs[i].quantity))
  {
    if reqs == [] then Ok([])
    else match Find(ps, reqs[0].id)
      case None => Err(ProductNotFound)
      case Some(k) =>
        match BuildUpdates(reqs[1..], ps)
        case Err(e) => Err(e)
        case Ok(rest) =>
          assert forall i :: 1 <= i < |reqs| ==> reqs[i] == reqs[1..][i - 1];
          Ok([Update(ps[k].id, ps[k].quantity - reqs[0].quantity)] + rest)
  }

  /** What a successful `execute` hands to its two repository writes: the
      order passed to `create` and the list passed to `updateQuantity`. */
  datatype Commit = Commit(order: Order, updates: seq<Update>)

  /** The whole decision of `execute`, from the customer lookup's result,
      the request and the products `findAllById` returned. */
  function Decide(customer: Option<Customer>, reqs: seq<Request>, ps: seq<Product>): (r: Result<Commit>)
    ensures r.Ok? <==> customer.Some? && 0 < |reqs| == |ps| && StockCheck(reqs, ps).Pass?
    ensures r.Ok? ==>
      r.value.order.customer == customer.value &&
      |r.value.order.products| == |reqs| && |r.value.updates| == |reqs|
    ensures r.Err? ==> r.error != ProductNotFound || StockCheck(reqs, ps) == Fail(ProductNotFound)
  {
    if customer.None? then Err(CustomerNotFound)
    else if |reqs| == 0 || |ps| != |reqs| then Err(ProductsInvalid)
    else match StockCheck(reqs, ps)
      case Fail(e) => Err(e)
      case Pass =>
        match BuildLineItems(reqs, ps)
        case Err(e) => Err(e)
        case Ok(items) =>
          match BuildUpdates(reqs, ps)
          case Err(e) => Err(e)
          case Ok(updates) => Ok(Commit(Order(customer.value, items), updates))
  }

  /** Once the stock scan has passed, the "Product not found" branches of
      the two later maps cannot be taken: they repeat the same `find` over
      the same list. */
  lemma NotFoundUnreachableAfterScan(reqs: seq<Request>, ps: seq<Product>)
    requires StockCheck(reqs, ps).Pass?
    ensures BuildLineItems(reqs, ps).Ok?
    ensures BuildUpdates(reqs, ps).Ok?
  {
  }

  /** The earliest item of the request that does not pass decides the
      error of the stock scan, whatever the items after it are. */
  lemma EarliestFailureDecides(reqs: seq<Request>, ps: seq<Product>, i: nat)
    requires i < |reqs| && ItemCheck(reqs[i], ps).Fail?
    requires forall j :: 0 <= j < i ==> ItemCheck(reqs[j], ps).Pass?
    ensures StockCheck(reqs, ps) == ItemCheck(reqs[i], ps)
  {
  }

  /** A missing customer decides the outcome before anything else: the
      request and the products fetched play no part. */
  lemma NoCustomerRefused(reqs: seq<Request>, ps: seq<Product>)
    ensures Decide(None, reqs, ps) == Err(CustomerNotFound)
  {
  }

  /** With the customer found, an empty request or a fetched count that
      differs from the requested count is refused as invalid products,
      before and whatever the stock of any item. */
  lemma CountMismatchInvalid(c: Customer, reqs: seq<Request>, ps: seq<Product>)
    requires |reqs| == 0 || |ps| != |reqs|
    ensures Decide(Some(c), reqs, ps) == Err(ProductsInvalid)
  {
  }

  /** Past the customer and count checks, the first item in request order
      that does not pass decides the error. */
  lemma FirstFailingItemDecides(c: Customer, reqs: seq<Request>, ps: seq<Product>, i: nat)
    requires |ps| == |reqs|
    requires i < |reqs| && ItemCheck(reqs[i], ps).Fail?
    requires forall j :: 0 <= j < i ==> ItemCheck(reqs[j], ps).Pass?
    ensures Decide(Some(c), reqs, ps) == Err(ItemCheck(reqs[i], ps).error)
  {
  }

  /** When an insufficient item is met before an item with no match, the
      scan ends there: the error is insufficient stock, not a missing
      product. */
  lemma {:induction false} InsufficientBeforeMissing(c: Customer, reqs: seq<Request>, ps: seq<Product>, i: nat, j: nat)
    requires |ps| == |reqs| && i < j < |reqs|
    requires forall k :: 0 <= k < i ==> ItemCheck(reqs[k], ps).Pass?
    requires Find(ps, reqs[i].id).Some? && Matched(ps, reqs[i].id).quantity <= reqs[i].quantity
    requires Find(ps, reqs[j].id).None?
    ensures Decide(Some(c), reqs, ps) == Err(StockInsufficient)
  {
  }

  /** `execute` succeeds exactly when the customer exists, the request is
      non-empty, as many products were fetched as were requested, and every
      requested item's first match has strictly more stock than requested. */
  lemma DecideSucceedsIff(customer: Option<Customer>, reqs: seq<Request>, ps: seq<Product>)
    ensures Decide(customer, reqs, ps).Ok? <==>
      customer.Some? && 0 < |reqs| == |ps| &&
      forall i :: 0 <= i < |reqs| ==>
        Find(ps, reqs[i].id).Some? && Matched(ps, reqs[i].id).quantity > reqs[i].quantity
  {
  }

  /** A successful order belongs to the customer found, and its line items
      mirror the request: same length and order, each with the requested
      product's id, the matched product's price and the requested
      quantity. */
  lemma OrderMirrorsRequest(customer: Option<Customer>, reqs: seq<Request>, ps: seq<Product>)
    requires Decide(customer, reqs, ps).Ok?
    ensures customer.Some? && Decide(customer, reqs, ps).value.order.customer == customer.value
    ensures var items := Decide(customer, reqs, ps).value.order.products;
      |items| == |reqs| &&
      forall i :: 0 <= i < |reqs| ==>
        Find(ps, reqs[i].id).Some? &&
        items[i] == LineItem(reqs[i].id, Matched(ps, reqs[i].id).price, reqs[i].quantity)
  {
  }

  /** The updates of a successful order: one per requested item in request
      order, each the matched product's stock minus the requested quantity,
      and so at least 1 because of the strict stock check. */
  lemma UpdatesFromSnapshot(customer: Option<Customer>, reqs: seq<Request>, ps: seq<Product>)
    requires Decide(customer, reqs, ps).Ok?
    ensures var us := Decide(customer, reqs, ps).value.updates;
      |us| == |reqs| &&
      forall i :: 0 <= i < |reqs| ==>
        Find(ps, reqs[i].id).Some? &&
        us[i] == Update(reqs[i].id, Matched(ps, reqs[i].id).quantity - reqs[i].quantity) &&
        us[i].quantity >= 1
  {
  }

  /** Every update is computed from the same fetched snapshot: two entries
      for the same id start from the same original stock, they are not
      cumulative. */
  lemma RepeatedIdSameSnapshot(customer: Option<Customer>, reqs: seq<Request>, ps: seq<Product>, i: nat, j: nat)
    requires Decide(customer, reqs, ps).Ok?
    requires i < |reqs| && j < |reqs| && reqs[i].id == reqs[j].id
    ensures var us := Decide(customer, reqs, ps).value.updates;
      |us| == |reqs| &&
      us[i].quantity + reqs[i].quantity == us[j].quantity + reqs[j].quantity
  {
  }
}
