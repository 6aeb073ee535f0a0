/** Products and the in-memory products repository that the order service consults. */
module Products {
  import opened Shared

  /** Prices are decimals with two fractional digits, held here as a whole number of hundredths. */
  type Price = int

  /** A product record: its stored price and its available stock. */
  datatype Product = Product(id: Id, name: string, price: Price, quantity: int)

  /** No two stored products share an id (the primary key). */
  ghost predicate UniqueIds(products: seq<Product>)
  {
    forall i, j :: 0 <= i < |products| && 0 <= j < |products| && products[i].id == products[j].id ==> i == j
  }

  /** The stored products whose id is one of `ids`, in stored order: the batch lookup. */
  function FilterById(stored: seq<Product>, ids: set<Id>): (found: seq<Product>)
    ensures forall p :: p in found <==> p in stored && p.id in ids
    ensures |found| <= |stored|
  {
    if stored == [] then []
    else if stored[0].id in ids then [stored[0]] + FilterById(stored[1..], ids)
    else FilterById(stored[1..], ids)
  }

  /** The products table, as a sequence of records. */
  class ProductsRepository {
    var products: seq<Product>

    ghost predicate Valid()
      reads this
    {
      UniqueIds(products)
    }

    constructor (products: seq<Product>)
      requires UniqueIds(products)
      ensures Valid() && this.products == products
    {
      this.products := products;
    }

    /** Every stored product whose id is requested; ids that match nothing are silently dropped. */
    method FindAllById(ids: set<Id>) returns (found: seq<Product>)
      ensures forall p :: p in found <==> p in products && p.id in ids
      ensures found == FilterById(products, ids)
    {
      found := FilterById(products, ids);
    }
  }
}
