/** Customers and the in-memory customers repository that the order service consults. */
module Customers {
  import opened Shared

  /** A customer record; only its identity matters to order placement. */
  datatype Customer = Customer(id: Id, name: string, email: string)

  /** Every stored customer is filed under its own id (the primary key). */
  ghost predicate KeyedById(customers: map<Id, Customer>)
  {
    forall id :: id in customers ==> customers[id].id == id
  }

  /** The customers table, as a map from id to record. */
  class CustomersRepository {
    var customers: map<Id, Customer>

    ghost predicate Valid()
      reads this
    {
      KeyedById(customers)
    }

    constructor (customers: map<Id, Customer>)
      requires KeyedById(customers)
      ensures Valid() && this.customers == customers
    {
      this.customers := customers;
    }

    /** The customer with the given id, or nothing when there is none. */
    method FindById(id: Id) returns (customer: Option<Customer>)
      requires Valid()
      ensures customer.Some? <==> id in customers
      ensures customer.Some? ==> customer.value == customers[id] && customer.value.id == id
    {
      if id in customers {
        customer := Some(customers[id]);
      } else {
        customer := None;
      }
    }
  }
}
