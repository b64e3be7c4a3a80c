# Order creation: a Dafny model of `CreateOrderService.execute`

This project models the order-creation service of a small e-commerce
backend. Given a customer id and a list of requested products with
quantities, `execute`:

1. looks the customer up and refuses with "Customer not found" when there is none;
2. fetches the requested products in one batch and refuses with "Products invalid"
   when the request is empty or the number of products fetched differs from the
   number of items requested;
3. scans the request in order (`every`), finding each item's product (`find`, first
   match): an item with no match raises "Product not found", an item whose product
   does not have strictly more stock than requested ends the scan and raises
   "Products with stock insufficient";
4. builds the order's line items, snapshotting each product's price;
5. asks the orders repository to create the order;
6. computes each product's new absolute stock (`stock - requested`, all from the
   same fetched snapshot) and sends the list to the products repository in one
   batched `updateQuantity`.

The model has four modules:

- `Domain` (domain.dfy): the entities (request item, product, line item, update,
  order, customer), the four error kinds the service raises and the rejection of a
  repository write, as a datatype.
- `Validation` (validation.dfy): the decision logic as pure functions: `Find` (the
  `find`, as the index of the first match), `ItemCheck` and `StockCheck` (the `every`
  with its throw), `BuildLineItems` and `BuildUpdates` (the two `map`s, each with its
  own "Product not found" branch), and `Decide`, the whole decision in the order the
  service takes it. The lemmas state what the source promises about them.
- `FetchContract` (fetch_contract.dfy): what `findAllById` promises (distinct
  products, each for a requested id, with its current stock), and what the count
  check then implies: every requested id is found and none is repeated, so unknown
  or duplicated ids are refused as "Products invalid" and the stock scan's
  "Product not found" never fires.
- `Service` (order_service.dfy): the class `OrderService`, holding the stock map and
  the orders the repositories write, plus a log of those writes. `Execute` runs the
  script step by step and is proved against `Decide`: on a refusal nothing is
  written; on success `create` comes first and `updateQuantity` second, each exactly
  once. The two writes are not atomic: when `updateQuantity` is rejected after
  `create` succeeded, the order stays stored while the stock is unchanged, and
  `Execute` says so. `Applied` is the effect of `updateQuantity` on the stock map; the lemmas
  show that stock drops by exactly the requested amounts. Four small client
  members replay concrete scenarios.

The customer lookup's result (`Option<Customer>`) and the product list returned by
`findAllById` are inputs of `Execute`; the repositories' writes are recorded effects
on the service object.

## Model

| member | source | states |
|---|---|---|
| Validation.ItemCheck | src/modules/orders/services/CreateOrderService.ts:50-58 | "Product not found" exactly when no product has the requested id; a pass exactly when the first match has stock strictly greater than requested; any other failure is "Products with stock insufficient" |
| Validation.Find | src/modules/orders/services/CreateOrderService.ts:50-52 | the index returned is that of the first product with the requested id; none is returned only when no product has that id |
| Validation.StockCheck | src/modules/orders/services/CreateOrderService.ts:49-63 | the scan passes exactly when every requested item passes its check; when it fails, its error is that of some item all of whose predecessors passed |
| Validation.BuildLineItems | src/modules/orders/services/CreateOrderService.ts:65-79 | succeeds exactly when every requested id has a match, else fails with "Product not found"; on success one line item per request in request order, with the requested id, the matched product's price and the requested quantity |
| Validation.BuildUpdates | src/modules/orders/services/CreateOrderService.ts:86-99 | succeeds exactly when every requested id has a match, else fails with "Product not found"; on success one update per request in request order, with the matched product's stock minus the requested quantity |
| Validation.Decide | src/modules/orders/services/CreateOrderService.ts:34-99 | succeeds exactly when the customer exists, the request is non-empty, the counts agree and the stock scan passes; on success the order is the customer's, with one line item and one update per request; "Product not found" is returned only when the stock scan raised it |
| Validation.NotFoundUnreachableAfterScan | src/modules/orders/services/CreateOrderService.ts:65-99 | once the stock scan has passed, neither map can raise "Product not found" |
| Validation.EarliestFailureDecides | src/modules/orders/services/CreateOrderService.ts:49-59 | the first item in request order that does not pass decides the scan's error, whatever follows it |
| Validation.NoCustomerRefused | src/modules/orders/services/CreateOrderService.ts:35-39 | a missing customer gives "Customer not found" whatever the request and the products fetched |
| Validation.CountMismatchInvalid | src/modules/orders/services/CreateOrderService.ts:45-47 | with the customer found, an empty request or a fetched count different from the requested count gives "Products invalid", whatever the stock of any item |
| Validation.FirstFailingItemDecides | src/modules/orders/services/CreateOrderService.ts:49-63 | past the customer and count checks, the first item in request order that does not pass decides the error of the whole call |
| Validation.InsufficientBeforeMissing | src/modules/orders/services/CreateOrderService.ts:49-62 | an insufficient item met before an item with no match gives "Products with stock insufficient", not "Product not found" |
| Validation.DecideSucceedsIff | src/modules/orders/services/CreateOrderService.ts:37-63 | success exactly when the customer exists, the request is non-empty, the counts agree and every item's first match has stock strictly greater than requested (so requesting exactly the stock fails) |
| Validation.OrderMirrorsRequest | src/modules/orders/services/CreateOrderService.ts:65-84 | the created order belongs to the customer found and its line items mirror the request in length and order, with snapshotted prices and the requested quantities |
| Validation.UpdatesFromSnapshot | src/modules/orders/services/CreateOrderService.ts:86-99 | the update list has one entry per request in request order, each the matched stock minus the requested quantity, and at least 1 |
| Validation.RepeatedIdSameSnapshot | src/modules/orders/services/CreateOrderService.ts:86-99 | two entries for the same id are computed from the same original stock, not cumulatively |
| FetchContract.CountCheckForcesMatch | src/modules/orders/services/CreateOrderService.ts:41-47 | when the fetched products are distinct and requested, equal counts force every requested id to be found and no requested id to repeat |
| FetchContract.UnknownIdIsInvalid | src/modules/orders/services/CreateOrderService.ts:41-47 | a requested id with no product makes the order fail with "Products invalid" |
| FetchContract.DuplicateIdIsInvalid | src/modules/orders/services/CreateOrderService.ts:41-47 | a product id requested twice makes the order fail with "Products invalid" |
| FetchContract.ProductNotFoundUnreachable | src/modules/orders/services/CreateOrderService.ts:45-56 | with products fetched as the repository promises, the outcome is never "Product not found" |
| Service.Applied | src/modules/orders/services/CreateOrderService.ts:101 | the batched update leaves a stock map whose products are those already stocked plus those it names |
| Service.AppliedUntouched | src/modules/orders/services/CreateOrderService.ts:101 | the batched update writes only the products it names; every other product keeps its stock |
| Service.AppliedLastWins | src/modules/orders/services/CreateOrderService.ts:101 | an update entry not overridden by a later one for the same id sets that product's new stock |
| Service.StockDropsByRequested | src/modules/orders/services/CreateOrderService.ts:86-101 | after a successful order each requested product's stock is its old stock minus the quantity requested, and no other product's stock changes |
| Service.RepeatedOrdersAccumulate | src/modules/orders/services/CreateOrderService.ts:86-101 | two successful orders of the same request, the second fetched after the first was written, lower each requested product's stock by twice the requested quantity and keep the same products |
| Service.OrderService.Create | src/modules/orders/services/CreateOrderService.ts:81-84 | the order is appended to the stored orders and the write is logged |
| Service.OrderService.UpdateQuantity | src/modules/orders/services/CreateOrderService.ts:101 | the stock becomes the old stock with the updates applied and the write is logged |
| Service.OrderService.Execute | src/modules/orders/services/CreateOrderService.ts:34-104 | on refusal returns the decided error and leaves stock, orders and log unchanged; when `create` is rejected the same holds with the rejection returned; when `updateQuantity` is rejected the order stays stored and logged, the stock is unchanged and the rejection is returned; when both writes succeed returns the order, appends it, applies the updates, and logs exactly one create followed by exactly one stock update |
| Service.RepeatedOrderDecrementsTwice | src/modules/orders/services/CreateOrderService.ts:34-104 | placing the same valid order twice lowers the stock twice (5, then 4, then 3): execute is not idempotent |
| Service.HappyPath | src/modules/orders/services/CreateOrderService.ts:34-104 | 3 of a product priced 10.0 with 5 in stock: one line item (p1, 10.0, 3), stock left 2, one create then one update to 2 |
| Service.ExactStockRefused | src/modules/orders/services/CreateOrderService.ts:58-62 | ordering exactly the stock on hand is refused with "Products with stock insufficient" |
| Service.OneInsufficientRefusesAll | src/modules/orders/services/CreateOrderService.ts:49-63 | one insufficient item of two refuses the whole order and nothing is written, not even for the item that had enough |

## Left out

- Dependency injection and the constructor wiring (lines 21-32): framework plumbing; the repositories become the inputs and fields of `OrderService`.
- async/await and the real repository implementations (`findById`, `findAllById`, `create`, `updateQuantity` over TypeORM): their code is not part of this model. The lookups are inputs, and so is whether each write is accepted (`StoreAnswer`); a rejected write is returned as `WriteRejected`, whatever the store's own error was. `create` appends to `orders`; `updateQuantity` is modelled as writing each entry's absolute quantity in list order (last write wins), which is an assumption about the unseen implementation.
- `findAllById`'s behaviour is stated as a predicate (`FetchContract.FetchedFrom`: distinct products, each requested, each with its current stock) that the lemmas assume; `Execute` itself accepts any fetched list, as the service does.
- The order of the reads (customer lookup before product fetch) is not observable in the model, because both results are inputs; the model shows only that a missing customer decides the outcome whatever was fetched.
- The read-then-write race between concurrent orders on the same product: the model is sequential.
- Prices are JavaScript numbers (floating point); they are only copied, and are modelled as `real`.
- Quantities are JavaScript numbers; they are modelled as unbounded integers, so fractional quantities and floating-point rounding of `stock - requested` are not modelled. The service does not check that requested quantities are positive, and neither does the model.
- The error message strings and their HTTP translation: the errors are a datatype.
- Order identity and timestamps assigned by the store, and the fields of `Order` and `Product` beyond customer, id, price and quantity.
- `RepeatedOrderDecrementsTwice` assumes the second fetch returns the stock left by the first order, which is what the repository would return.
