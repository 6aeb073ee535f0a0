/** What order placement promises, proved about the model in Orders. */
module OrderProperties {
  import opened Shared
  import opened Customers
  import opened Products
  import opened Orders

  /** Some stored product carries the item's id and holds at least the requested units. */
  ghost predicate InStock(stored: seq<Product>, item: RequestedProduct)
  {
    exists p :: p in stored && p.id == item.id && item.quantity <= p.quantity
  }

  // ---- Line items over the fetched products ----

  /** The mapping succeeds exactly when every requested item passes on its own. */
  lemma {:induction false} SucceedsIffEveryItemAccepted(requested: seq<RequestedProduct>, current: seq<Product>)
    ensures ProductsWithPrice(requested, current).Success?
            <==> forall i :: 0 <= i < |requested| ==> Accepted(requested[i], current)
  {
    if requested != [] {
      SucceedsIffEveryItemAccepted(requested[1..], current);
      assert forall i :: 1 <= i < |requested| ==> requested[i] == requested[1..][i - 1];
    }
  }

  /** A failure is the error of some item that every earlier item got past. */
  lemma {:induction false} FailureIsFirstRejection(requested: seq<RequestedProduct>, current: seq<Product>)
    requires ProductsWithPrice(requested, current).Failure?
    ensures exists k :: 0 <= k < |requested|
                        && (forall j :: 0 <= j < k ==> Accepted(requested[j], current))
                        && !Accepted(requested[k], current)
                        && PriceItem(requested[k], current) == Failure(ProductsWithPrice(requested, current).error)
  {
    if Accepted(requested[0], current) {
      var tail := requested[1..];
      FailureIsFirstRejection(tail, current);
      var k :| 0 <= k < |tail|
               && (forall j :: 0 <= j < k ==> Accepted(tail[j], current))
               && !Accepted(tail[k], current)
               && PriceItem(tail[k], current) == Failure(ProductsWithPrice(tail, current).error);
      assert forall j :: 0 <= j < k + 1 ==> Accepted(requested[j], current) by {
        forall j | 0 <= j < k + 1 ensures Accepted(requested[j], current) {
          if j > 0 { assert requested[j] == tail[j - 1]; }
        }
      }
      assert requested[k + 1] == tail[k];
    }
  }

  /** The reported error is that of the first failing item, whatever follows it. */
  lemma {:induction false} FirstRejectionIsReported(requested: seq<RequestedProduct>, current: seq<Product>, k: nat)
    requires k < |requested|
    requires forall j :: 0 <= j < k ==> Accepted(requested[j], current)
    requires !Accepted(requested[k], current)
    ensures PriceItem(requested[k], current).Failure?
    ensures ProductsWithPrice(requested, current) == Failure(PriceItem(requested[k], current).error)
  {
    if k > 0 {
      var tail := requested[1..];
      assert Accepted(requested[0], current);
      forall j | 0 <= j < k - 1 ensures Accepted(tail[j], current) {
        assert tail[j] == requested[j + 1];
      }
      assert tail[k - 1] == requested[k];
      FirstRejectionIsReported(tail, current, k - 1);
    }
  }

  // ---- From the fetched products back to the stored ones ----

  /** With unique ids, looking an id up finds exactly the stored product that carries it. */
  lemma FindInUniqueStore(stored: seq<Product>, id: Id, p: Product)
    requires UniqueIds(stored)
    ensures Find(stored, id) == Some(p) <==> p in stored && p.id == id
  {
    if p in stored && p.id == id {
      var r := Find(stored, id);
      assert r.Some?;
      var i :| 0 <= i < |stored| && stored[i] == p;
      var k :| 0 <= k < |stored| && stored[k] == r.value;
      assert i == k;
    }
  }

  /** Looking a requested id up in the batch result gives what looking it up in the store gives. */
  lemma BatchFindAgreesWithStore(stored: seq<Product>, ids: set<Id>, id: Id)
    requires UniqueIds(stored)
    requires id in ids
    ensures Find(FilterById(stored, ids), id) == Find(stored, id)
  {
    var current := FilterById(stored, ids);
    var r := Find(current, id);
    if r.Some? {
      FindInUniqueStore(stored, id, r.value);
    }
  }

  /** An item passes the check against the batch result exactly when the store has it in stock. */
  lemma AcceptedIffInStock(stored: seq<Product>, ids: set<Id>, item: RequestedProduct)
    requires UniqueIds(stored)
    requires item.id in ids
    ensures Accepted(item, FilterById(stored, ids)) <==> InStock(stored, item)
  {
    BatchFindAgreesWithStore(stored, ids, item.id);
    if InStock(stored, item) {
      var p :| p in stored && p.id == item.id && item.quantity <= p.quantity;
      FindInUniqueStore(stored, item.id, p);
    } else if Find(stored, item.id).Some? {
      FindInUniqueStore(stored, item.id, Find(stored, item.id).value);
    }
  }

  // ---- Placing an order against the stored customers and products ----

  /** An unknown customer fails the request whatever products it asks for. */
  lemma CustomerCheckedFirst(customers: map<Id, Customer>, stored: seq<Product>, request: Request)
    requires request.customerId !in customers
    ensures PlaceOrder(customers, stored, request) == Failure(CustomerNotFound)
  {
  }

  /** An order is placed exactly when the customer exists and every requested item is in stock. */
  lemma PlaceOrderSucceedsIff(customers: map<Id, Customer>, stored: seq<Product>, request: Request)
    requires UniqueIds(stored)
    ensures PlaceOrder(customers, stored, request).Success?
            <==> request.customerId in customers
                 && forall i :: 0 <= i < |request.products| ==> InStock(stored, request.products[i])
  {
    if request.customerId in customers {
      var ids := RequestedIds(request.products);
      var current := FilterById(stored, ids);
      SucceedsIffEveryItemAccepted(request.products, current);
      forall i | 0 <= i < |request.products|
        ensures Accepted(request.products[i], current) <==> InStock(stored, request.products[i])
      {
        AcceptedIffInStock(stored, ids, request.products[i]);
      }
    }
  }

  /**
   * A placed order belongs to the requesting customer and has one line item per
   * requested item, in order, carrying its id and quantity and the stored price.
   */
  lemma PlacedOrderContents(customers: map<Id, Customer>, stored: seq<Product>, request: Request)
    requires KeyedById(customers)
    requires UniqueIds(stored)
    requires PlaceOrder(customers, stored, request).Success?
    ensures var order := PlaceOrder(customers, stored, request).value;
            && order.customer == customers[request.customerId]
            && order.customer.id == request.customerId
            && |order.products| == |request.products|
            && (forall i :: 0 <= i < |request.products| ==>
                  order.products[i].productId == request.products[i].id
                  && order.products[i].quantity == request.products[i].quantity)
            && (forall i, p :: 0 <= i < |request.products| && p in stored && p.id == request.products[i].id ==>
                  order.products[i].price == p.price)
  {
    var ids := RequestedIds(request.products);
    var current := FilterById(stored, ids);
    var order := PlaceOrder(customers, stored, request).value;
    forall i, p | 0 <= i < |request.products| && p in stored && p.id == request.products[i].id
      ensures order.products[i].price == p.price
    {
      BatchFindAgreesWithStore(stored, ids, p.id);
      FindInUniqueStore(stored, p.id, p);
    }
  }

  /**
   * With the customer found, the first item that is not in stock decides the error:
   * an unknown product, or the stock that product has.
   */
  lemma PlaceOrderReportsFirstRejection(customers: map<Id, Customer>, stored: seq<Product>, request: Request, k: nat)
    requires UniqueIds(stored)
    requires request.customerId in customers
    requires k < |request.products|
    requires forall j :: 0 <= j < k ==> InStock(stored, request.products[j])
    requires !InStock(stored, request.products[k])
    ensures (forall p :: p in stored ==> p.id != request.products[k].id)
            ==> PlaceOrder(customers, stored, request) == Failure(ProductNotFound(request.products[k].id))
    ensures forall p :: p in stored && p.id == request.products[k].id ==>
              (&& request.products[k].quantity > p.quantity
               && PlaceOrder(customers, stored, request) == Failure(InsufficientStock(p.quantity, request.products[k].id)))
  {
    var ids := RequestedIds(request.products);
    var current := FilterById(stored, ids);
    forall j | 0 <= j < k ensures Accepted(request.products[j], current) {
      AcceptedIffInStock(stored, ids, request.products[j]);
    }
    var item := request.products[k];
    AcceptedIffInStock(stored, ids, item);
    FirstRejectionIsReported(request.products, current, k);
    BatchFindAgreesWithStore(stored, ids, item.id);
    forall p | p in stored && p.id == item.id
      ensures Find(current, item.id) == Some(p)
    {
      FindInUniqueStore(stored, item.id, p);
    }
    if Find(stored, item.id).Some? {
      FindInUniqueStore(stored, item.id, Find(stored, item.id).value);
    }
  }

  /** With the customer found, a failed request always has a first item that is not in stock. */
  lemma PlaceOrderFailureHasFirstRejection(customers: map<Id, Customer>, stored: seq<Product>, request: Request)
    requires UniqueIds(stored)
    requires request.customerId in customers
    requires PlaceOrder(customers, stored, request).Failure?
    ensures exists k :: 0 <= k < |request.products|
                        && (forall j :: 0 <= j < k ==> InStock(stored, request.products[j]))
                        && !InStock(stored, request.products[k])
  {
    var ids := RequestedIds(request.products);
    var current := FilterById(stored, ids);
    FailureIsFirstRejection(request.products, current);
    var k :| 0 <= k < |request.products|
             && (forall j :: 0 <= j < k ==> Accepted(request.products[j], current))
             && !Accepted(request.products[k], current);
    forall j | 0 <= j <= k
      ensures Accepted(request.products[j], current) <==> InStock(stored, request.products[j])
    {
      AcceptedIffInStock(stored, ids, request.products[j]);
    }
  }

  /** Asking for exactly the stored quantity succeeds; asking for one more fails naming the stock. */
  lemma StockBoundary(customers: map<Id, Customer>, stored: seq<Product>, customerId: Id, p: Product)
    requires UniqueIds(stored)
    requires customerId in customers
    requires p in stored
    ensures PlaceOrder(customers, stored, Request(customerId, [RequestedProduct(p.id, p.quantity)]))
            == Success(Order(customers[customerId], [LineItem(p.id, p.price, p.quantity)]))
    ensures PlaceOrder(customers, stored, Request(customerId, [RequestedProduct(p.id, p.quantity + 1)]))
            == Failure(InsufficientStock(p.quantity, p.id))
  {
    FindInUniqueStore(stored, p.id, p);
    var exact := [RequestedProduct(p.id, p.quantity)];
    BatchFindAgreesWithStore(stored, RequestedIds(exact), p.id);
    assert exact[1..] == [];
    assert [LineItem(p.id, p.price, p.quantity)] + [] == [LineItem(p.id, p.price, p.quantity)];
    assert ProductsWithPrice(exact, FilterById(stored, RequestedIds(exact)))
           == Success([LineItem(p.id, p.price, p.quantity)]);
    var over := [RequestedProduct(p.id, p.quantity + 1)];
    BatchFindAgreesWithStore(stored, RequestedIds(over), p.id);
  }

  /**
   * Two items for the same product are each checked against the same stored quantity:
   * both pass when each fits, even when together they exceed the stock.
   */
  lemma DuplicateItemsCheckedIndependently(
    customers: map<Id, Customer>, stored: seq<Product>, customerId: Id, p: Product, q1: int, q2: int)
    requires UniqueIds(stored)
    requires customerId in customers
    requires p in stored
    requires q1 <= p.quantity && q2 <= p.quantity
    ensures PlaceOrder(customers, stored, Request(customerId, [RequestedProduct(p.id, q1), RequestedProduct(p.id, q2)]))
            == Success(Order(customers[customerId], [LineItem(p.id, p.price, q1), LineItem(p.id, p.price, q2)]))
  {
    var requested := [RequestedProduct(p.id, q1), RequestedProduct(p.id, q2)];
    FindInUniqueStore(stored, p.id, p);
    var current := FilterById(stored, RequestedIds(requested));
    BatchFindAgreesWithStore(stored, RequestedIds(requested), p.id);
    assert Find(current, p.id) == Some(p);
    assert requested[1..] == [RequestedProduct(p.id, q2)];
    assert requested[1..][1..] == [];
    assert [LineItem(p.id, p.price, q2)] + [] == [LineItem(p.id, p.price, q2)];
    assert ProductsWithPrice(requested[1..], current) == Success([LineItem(p.id, p.price, q2)]);
    assert [LineItem(p.id, p.price, q1)] + [LineItem(p.id, p.price, q2)]
           == [LineItem(p.id, p.price, q1), LineItem(p.id, p.price, q2)];
  }

  /**
   * A request for the same product twice is accepted whenever each item fits the stock,
   * even though the order then asks for more units than the product holds.
   */
  lemma OversubscribedRequestAccepted(
    customers: map<Id, Customer>, stored: seq<Product>, customerId: Id, p: Product, q1: int, q2: int)
    requires UniqueIds(stored)
    requires customerId in customers
    requires p in stored
    requires q1 <= p.quantity && q2 <= p.quantity && q1 + q2 > p.quantity
    ensures var request := Request(customerId, [RequestedProduct(p.id, q1), RequestedProduct(p.id, q2)]);
            && PlaceOrder(customers, stored, request).Success?
            && PlaceOrder(customers, stored, request).value.products[0].quantity
               + PlaceOrder(customers, stored, request).value.products[1].quantity > p.quantity
  {
    DuplicateItemsCheckedIndependently(customers, stored, customerId, p, q1, q2);
  }
}
