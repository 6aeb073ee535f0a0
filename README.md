# Order placement, modelled in Dafny

This project models the order-placement service of a small e-commerce backend that has
customers, products and orders. A request names a customer and lists `(product id, quantity)`
pairs. The service works as follows:

1. It looks the customer up and fails with "customer not found" when there is none.
2. It fetches the requested products in one batch.
3. It walks the request in order. An item fails when no fetched product carries its id. It
   also fails when it asks for more units than the product's stored quantity. Otherwise it
   becomes a line item `{product id, price copied from the product, quantity}`.
4. Only when every item passes does it create a single order for the customer with all the
   line items.

Files and modules:

- `shared.dfy` (`Shared`): `Id`, `Option`, `Result`.
- `customers.dfy` (`Customers`): the `Customer` record and an in-memory `CustomersRepository`
  (a map from id to customer).
- `products.dfy` (`Products`): the `Product` record (`id`, `name`, `price`, `quantity`), the
  batch lookup `FilterById` and an in-memory `ProductsRepository` (a sequence of products
  with unique ids).
- `orders.dfy` (`Orders`): the request shapes (`RequestedProduct`, `Request`), `LineItem`,
  `Order`, and the three error kinds `CustomerNotFound`, `ProductNotFound(id)` and
  `InsufficientStock(available, id)`. It also holds the pure line-item construction
  (`Find`, `PriceItem`, `ProductsWithPrice`), the reference meaning of a whole placement
  (`PlaceOrder`), an in-memory `OrdersRepository`, and the `CreateOrderService` class.
  `CreateOrderService.Execute` performs the placement against the repositories.
- `order_properties.dfy` (`OrderProperties`): lemmas about the model. Some are stated over
  the fetched products. Others are stated over the stored customers and products.

Prices are decimals with two fractional digits, kept as a whole number of hundredths. The
service only copies them. Quantities are unbounded integers.

Two facts about the service shape the model:

- The service never decrements stock. There is no product update call in
  `src/modules/orders/services/CreateOrderService.ts:31-67`. `Execute` leaves the products
  repository unchanged, and no stock decrement appears anywhere in the model.
- The service checks neither that a request is non-empty nor that quantities are positive.
  The model accepts an empty request, which yields an order with no line items. It also
  accepts zero or negative quantities, which pass against any non-negative stock. Stored
  quantities are not constrained to be non-negative either, so a request for 0 units fails
  against a stock of -1.

## Model

| member | source | states |
|---|---|---|
| Customers.CustomersRepository.FindById | src/modules/orders/services/CreateOrderService.ts:32 | returns a customer exactly when the id is stored, and then the stored record, whose id is the requested one |
| Products.FilterById | src/modules/orders/services/CreateOrderService.ts:38 | the batch lookup returns exactly the stored products whose id was requested; missing ids produce nothing and no error |
| Products.ProductsRepository.FindAllById | src/modules/orders/services/CreateOrderService.ts:38 | returns exactly the stored products with a requested id, leaving the repository unchanged |
| Orders.RequestedIds | src/modules/orders/services/CreateOrderService.ts:38 | the set of ids the batch lookup matches against is exactly the set of ids named by the request items |
| Orders.Find | src/modules/orders/services/CreateOrderService.ts:41-43 | finds a product exactly when some fetched product carries the id, and then returns the first such product |
| Orders.PriceItem | src/modules/orders/services/CreateOrderService.ts:41-58 | one item succeeds exactly when it is accepted; no fetched product with its id gives `ProductNotFound(id)`; a requested quantity above the fetched product's gives `InsufficientStock(stored quantity, id)`; otherwise the line item has the item's id and quantity and the fetched product's price |
| Orders.ProductsWithPrice | src/modules/orders/services/CreateOrderService.ts:40-59 | on success there is one line item per requested item, in request order; every item passed the existence and stock checks; line item i has request i's id and quantity and the fetched product's price |
| Orders.PlaceOrder | src/modules/orders/services/CreateOrderService.ts:31-66 | an unknown customer gives `CustomerNotFound`; a placed order holds the stored customer and one line item per requested item; the full characterisation is in the lemmas PlaceOrderSucceedsIff, PlacedOrderContents, PlaceOrderReportsFirstRejection and PlaceOrderFailureHasFirstRejection |
| Orders.OrdersRepository.Create | src/modules/orders/services/CreateOrderService.ts:61-64 | appends exactly one order holding the given customer and line items, and returns it |
| Orders.CreateOrderService.Execute | src/modules/orders/services/CreateOrderService.ts:31-67 | the result is `PlaceOrder` of the stored customers and products; an unknown customer gives `CustomerNotFound`; on success the order belongs to the requesting customer and has one line item per requested item; exactly one order is appended on success and none on failure; products and customers are unchanged |
| OrderProperties.SucceedsIffEveryItemAccepted | src/modules/orders/services/CreateOrderService.ts:40-59 | line-item construction succeeds if and only if every requested item, taken alone, has a fetched product with at least the requested quantity |
| OrderProperties.FailureIsFirstRejection | src/modules/orders/services/CreateOrderService.ts:40-52 | a failure carries the error of an item k that fails while every item before k passes |
| OrderProperties.FirstRejectionIsReported | src/modules/orders/services/CreateOrderService.ts:40-52 | when item k is the first failing item, the whole mapping fails with item k's error, whatever follows it |
| OrderProperties.FindInUniqueStore | src/modules/orders/services/CreateOrderService.ts:41-43 | when product ids are unique, the lookup by id returns p if and only if p is stored and carries that id |
| OrderProperties.BatchFindAgreesWithStore | src/modules/orders/services/CreateOrderService.ts:38-43 | for a requested id, finding it among the batch result gives the same answer as finding it in the whole store |
| OrderProperties.AcceptedIffInStock | src/modules/orders/services/CreateOrderService.ts:38-52 | a requested item passes against the batch result if and only if some stored product with its id has at least the requested quantity |
| OrderProperties.CustomerCheckedFirst | src/modules/orders/services/CreateOrderService.ts:32-38 | an unknown customer fails with `CustomerNotFound`, whatever products are stored or requested |
| OrderProperties.PlaceOrderSucceedsIff | src/modules/orders/services/CreateOrderService.ts:31-67 | an order is placed if and only if the customer exists and every requested item is in stock, each checked on its own |
| OrderProperties.PlacedOrderContents | src/modules/orders/services/CreateOrderService.ts:54-64 | a placed order holds the found customer, whose id is the requested one; it has one line item per requested item, in order, with that item's id and quantity and the stored product's price |
| OrderProperties.PlaceOrderReportsFirstRejection | src/modules/orders/services/CreateOrderService.ts:40-52 | with the customer found and item k the first item not in stock: if no stored product has its id, the error is `ProductNotFound(id)`; otherwise the requested quantity exceeds the stored one and the error is `InsufficientStock(stored quantity, id)` |
| OrderProperties.PlaceOrderFailureHasFirstRejection | src/modules/orders/services/CreateOrderService.ts:40-52 | with the customer found, a failed placement always has a first requested item that is not in stock |
| OrderProperties.StockBoundary | src/modules/orders/services/CreateOrderService.ts:48-58 | requesting exactly the stored quantity succeeds, with the stored price; requesting one more fails with `InsufficientStock(stored quantity, id)` |
| OrderProperties.DuplicateItemsCheckedIndependently | src/modules/orders/services/CreateOrderService.ts:40-58 | two items for the same product each pass against the same unchanged stored quantity, with no check on their sum, and each gets the stored price |
| OrderProperties.OversubscribedRequestAccepted | src/modules/orders/services/CreateOrderService.ts:40-58 | a request naming one product twice, each quantity within the stock but their sum above it, is accepted, and the order's two line items ask for more units than are in stock |

## Left out

- Dependency injection and asynchrony: the repositories are fixed at construction and every call is a plain sequential call.
- The repository implementations are not part of this model. They are in-memory stand-ins: a map of customers, a sequence of products with unique ids, and a sequence of orders.
- Order ids and timestamps, which the orders repository assigns, are not modelled. An `Order` is its customer and its line items.
- Error message texts are not modelled. An error records its kind and the id or available quantity it names.
- The product price transformer parses a decimal string into a floating-point number. Prices are kept as exact hundredths instead.
- The database migration and the entity schema mappings are not modelled. Only their fields `id`, `name`, `email`, `price` and `quantity` appear as record fields.
- Request quantities are JavaScript numbers in the service; the model takes integers. Fractional, `NaN` and missing quantities are therefore not covered. In the service all of them can pass the `>` comparison against stock, and `NaN` or a missing quantity passes it whatever the stock.
- The service passes the request items themselves (id and quantity objects) to the batch lookup. The model passes the set of their ids, since the lookup matches on ids only.
- Concurrent requests and transactions are not modelled. The service has neither locking nor transactions, and with no error nothing is written before the single create call.
