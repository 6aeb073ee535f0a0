/** Order placement: the request shapes, the line-item construction and the service that creates orders. */
module Orders {
  import opened Shared
  import opened Customers
  import opened Products

  /** One requested product: which product and how many units. */
  datatype RequestedProduct = RequestedProduct(id: Id, quantity: int)

  /** A request to place an order. */
  datatype Request = Request(customerId: Id, products: seq<RequestedProduct>)

  /** One line of an order: the product, the price copied from it, and the units ordered. */
  datatype LineItem = LineItem(productId: Id, price: Price, quantity: int)

  /** A created order: the customer who placed it and its line items in request order. */
  datatype Order = Order(customer: Customer, products: seq<LineItem>)

  /** The application errors order placement raises. */
  datatype OrderError =
    | CustomerNotFound
    | ProductNotFound(productId: Id)
    | InsufficientStock(available: int, productId: Id)

  /** The ids named by a request, as passed to the batch lookup. */
  function RequestedIds(products: seq<RequestedProduct>): (ids: set<Id>)
    ensures forall i :: 0 <= i < |products| ==> products[i].id in ids
    ensures forall id :: id in ids ==> exists i :: 0 <= i < |products| && products[i].id == id
  {
    set item | item in products :: item.id
  }

  /** The first fetched product carrying `id`, or nothing. */
  function Find(current: seq<Product>, id: Id): (r: Option<Product>)
    ensures r.Some? <==> exists i :: 0 <= i < |current| && current[i].id == id
    ensures r.Some? ==> exists k :: 0 <= k < |current| && current[k] == r.value && r.value.id == id
                                      && forall j :: 0 <= j < k ==> current[j].id != id
  {
    if current == [] then None
    else if current[0].id == id then Some(current[0])
    else
      var r := Find(current[1..], id);
      assert r.Some? ==> exists k :: 0 <= k < |current[1..]| && current[1..][k] == r.value && r.value.id == id
                                      && forall j :: 0 <= j < k ==> current[1..][j].id != id;
      assert r.Some? ==> exists k :: 1 <= k < |current| && current[k] == r.value && r.value.id == id
                                      && forall j :: 0 <= j < k ==> current[j].id != id;
      r
  }

  /** An item passes when a fetched product carries its id and holds at least the requested units. */
  predicate Accepted(item: RequestedProduct, current: seq<Product>)
  {
    Find(current, item.id).Some? && item.quantity <= Find(current, item.id).value.quantity
  }

  /** Checks one requested item against the fetched products and prices it. */
  function PriceItem(item: RequestedProduct, current: seq<Product>): (r: Result<LineItem, OrderError>)
    ensures r.Success? <==> Accepted(item, current)
    ensures Find(current, item.id).None? ==> r == Failure(ProductNotFound(item.id))
    ensures forall p :: Find(current, item.id) == Some(p) && item.quantity > p.quantity
              ==> r == Failure(InsufficientStock(p.quantity, item.id))
    ensures r.Success? ==> r.value == LineItem(item.id, Find(current, item.id).value.price, item.quantity)
  {
    match Find(current, item.id)
    case None => Failure(ProductNotFound(item.id))
    case Some(product) =>
      if item.quantity > product.quantity then Failure(InsufficientStock(product.quantity, item.id))
      else Success(LineItem(item.id, product.price, item.quantity))
  }

  /**
   * Maps the requested items, in order, to line items; the first item that fails
   * aborts the whole mapping with that item's error.
   */
  function ProductsWithPrice(requested: seq<RequestedProduct>, current: seq<Product>)
    : (r: Result<seq<LineItem>, OrderError>)
    ensures r.Success? ==> |r.value| == |requested|
    ensures r.Success? ==> forall i :: 0 <= i < |requested| ==>
              && Accepted(requested[i], current)
              && r.value[i] == LineItem(requested[i].id, Find(current, requested[i].id).value.price, requested[i].quantity)
  {
    if requested == [] then Success([])
    else
      match PriceItem(requested[0], current)
      case Failure(e) => Failure(e)
      case Success(item) =>
        match ProductsWithPrice(requested[1..], current)
        case Failure(e) => Failure(e)
        case Success(rest) => Success([item] + rest)
  }

  /**
   * What placing an order means, given the stored customers and products: the customer
   * check, then the batch lookup, then the line items, then one new order.
   */
  function PlaceOrder(customers: map<Id, Customer>, stored: seq<Product>, request: Request)
    : (r: Result<Order, OrderError>)
    ensures request.customerId !in customers ==> r == Failure(CustomerNotFound)
    ensures r.Success? ==> && request.customerId in customers
                           && r.value.customer == customers[request.customerId]
                           && |r.value.products| == |request.products|
  {
    if request.customerId !in customers then Failure(CustomerNotFound)
    else
      var current := FilterById(stored, RequestedIds(request.products));
      match ProductsWithPrice(request.products, current)
      case Failure(e) => Failure(e)
      case Success(items) => Success(Order(customers[request.customerId], items))
  }

  /** The orders table, as the sequence of created orders. */
  class OrdersRepository {
    var orders: seq<Order>

    constructor (orders: seq<Order>)
      ensures this.orders == orders
    {
      this.orders := orders;
    }

    /** Records a new order for `customer` with the given line items. */
    method Create(customer: Customer, products: seq<LineItem>) returns (order: Order)
      modifies this
      ensures order == Order(customer, products)
      ensures orders == old(orders) + [order]
    {
      order := Order(customer, products);
      orders := orders + [order];
    }
  }

  /** The order-placement service, wired to its three repositories. */
  class CreateOrderService {
    const ordersRepository: OrdersRepository
    const productsRepository: ProductsRepository
    const customersRepository: CustomersRepository

    ghost predicate Valid()
      reads productsRepository, customersRepository
    {
      productsRepository.Valid() && customersRepository.Valid()
    }

    constructor (
      ordersRepository: OrdersRepository,
      productsRepository: ProductsRepository,
      customersRepository: CustomersRepository)
      ensures this.ordersRepository == ordersRepository
      ensures this.productsRepository == productsRepository
      ensures this.customersRepository == customersRepository
    {
      this.ordersRepository := ordersRepository;
      this.productsRepository := productsRepository;
      this.customersRepository := customersRepository;
    }

    /**
     * Places an order: fails when the customer is unknown, when a requested product was
     * not fetched or when a requested quantity exceeds the stored one; otherwise creates
     * exactly one order. Products and customers are never written.
     */
    method Execute(request: Request) returns (r: Result<Order, OrderError>)
      requires Valid()
      modifies ordersRepository
      ensures r == PlaceOrder(customersRepository.customers, productsRepository.products, request)
      ensures request.customerId !in customersRepository.customers ==> r == Failure(CustomerNotFound)
      ensures r.Success? ==> r.value.customer.id == request.customerId
      ensures r.Success? ==> |r.value.products| == |request.products|
      ensures ordersRepository.orders
              == if r.Success? then old(ordersRepository.orders) + [r.value] else old(ordersRepository.orders)
      ensures unchanged(productsRepository) && unchanged(customersRepository)
    {
      var customer := customersRepository.FindById(request.customerId);
      if customer.None? {
        return Failure(CustomerNotFound);
      }
      var currentProducts := productsRepository.FindAllById(RequestedIds(request.products));
      var productsWithPrice := ProductsWithPrice(request.products, currentProducts);
      if productsWithPrice.Failure? {
        return Failure(productsWithPrice.error);
      }
      var order := ordersRepository.Create(customer.value, productsWithPrice.value);
      return Success(order);
    }
  }
}
