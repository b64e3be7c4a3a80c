/** Entities of order creation: requested items, fetched products, the
    line items and stock updates derived from them, and the error kinds
    the service reports. */
module Domain {

  /** Product and customer identifiers are opaque strings. */
  type Id = string

  /** A product price is only ever copied from a product into a line item,
      never computed with. */
  type Price = real

  datatype Customer = Customer(id: Id)

  /** One entry of the request: a product id and the quantity wanted. */
  datatype Request = Request(id: Id, quantity: int)

  /** A product as the products repository returns it: its stock on hand
      is `quantity`. */
  datatype Product = Product(id: Id, price: Price, quantity: int)

  /** An order line: the product, the price snapshotted at order time and
      the quantity ordered. */
  datatype LineItem = LineItem(productId: Id, price: Price, quantity: int)

  /** A new absolute stock quantity for one product. */
  datatype Update = Update(id: Id, quantity: int)

  datatype Order = Order(customer: Customer, products: seq<LineItem>)

  /** The four application errors the service raises, and the rejection
      of a repository write, which `execute` lets propagate. */
  datatype Error =
    | CustomerNotFound       // "Customer not found."
    | ProductsInvalid        // "Products invalid."
    | ProductNotFound        // "Product not found."
    | StockInsufficient      // "Products with stock insufficient."
    | WriteRejected          // a repository write failed

  datatype Option<T> = None | Some(value: T)

  datatype Result<T> = Ok(value: T) | Err(error: Error)

  /** Outcome of a check that either passes or raises an error. */
  datatype Check = Pass | Fail(error: Error)
}
