/** The admin's order table operations: look up, overwrite the status, delete.
    The table is a map from order id to order. */
module OrderAdmin {
  import opened Wrappers
  import opened Models
  import Pricing

  /** Why an order operation failed; in every case the table is unchanged.
      NotFound: no order has the id (a 404 answer).
      MissingStatus: the update form has no status field (a 400 answer). */
  datatype OrderError = NotFound | MissingStatus

  /** The Order table, keyed by id. */
  class OrderTable {
    var orders: map<int, Order>

    /** Every order is stored under its own id, as the primary key column does; a lookup therefore
        returns the order with the id asked for. */
    ghost predicate Valid()
      reads this
    {
      forall id :: id in orders ==> orders[id].id == id
    }

    /** A table holding the given orders. */
    constructor (initial: map<int, Order>)
      requires forall id :: id in initial ==> initial[id].id == id
      ensures Valid() && orders == initial
    {
      orders := initial;
    }

    /** The order with this id, or NotFound. */
    function Get(id: int): (r: Result<Order, OrderError>)
      reads this
      requires Valid()
      ensures r.Failure? <==> id !in orders
      ensures r.Failure? ==> r.error == NotFound
      ensures r.Success? ==> id in orders && r.value == orders[id] && r.value.id == id
    {
      if id in orders then Success(orders[id]) else Failure(NotFound)
    }

    /** Overwrite the status of an order with any text; no transition between statuses is checked.
        A missing order is NotFound, a missing status field is MissingStatus, and then nothing changes;
        otherwise only that order's status changes. */
    method UpdateOrder(id: int, status: Option<string>) returns (r: Outcome<OrderError>)
      requires Valid()
      modifies this
      ensures Valid()
      ensures id !in old(orders) ==> r == Fail(NotFound) && orders == old(orders)
      ensures id in old(orders) && status.None? ==> r == Fail(MissingStatus) && orders == old(orders)
      ensures id in old(orders) && status.Some? ==>
        && r == Pass
        && orders == old(orders)[id := old(orders)[id].(status := status.value)]
      ensures orders.Keys == old(orders).Keys
      ensures forall j :: j in old(orders) && j != id ==> orders[j] == old(orders)[j]
    {
      if id !in orders {
        return Fail(NotFound);
      }
      if status.None? {
        return Fail(MissingStatus);
      }
      var order := orders[id];
      orders := orders[id := order.(status := status.value)];
      r := Pass;
    }

    /** Delete an order for good. A missing order is NotFound and nothing changes;
        otherwise exactly that id leaves the table and every other order is unchanged. */
    method DeleteOrder(id: int) returns (r: Outcome<OrderError>)
      requires Valid()
      modifies this
      ensures Valid()
      ensures id !in old(orders) ==> r == Fail(NotFound) && orders == old(orders)
      ensures id in old(orders) ==> r == Pass && orders == old(orders) - {id}
      ensures id !in orders
      ensures forall j :: j in old(orders) && j != id ==> j in orders && orders[j] == old(orders)[j]
    {
      if id !in orders {
        return Fail(NotFound);
      }
      orders := orders - {id};
      r := Pass;
    }
  }

  /** An order's life as the admin pages see it: priced, created Pending, its status overwritten
      (also backwards), deleted, and then no longer found. */
  method OrderLifecycle(now: int)
  {
    var deadline := now + 5 * Pricing.SecondsPerDay;
    assert Pricing.CalculatePrice(2000, "Undergrad", deadline, now) == 100.0;
    var o := NewOrder(7, "Essay", "On verification", deadline, 2000, "Undergrad", None, None, 3, now);
    assert o.status == "Pending";
    var table := new OrderTable(map[7 := o]);
    var r := table.UpdateOrder(7, Some("Completed"));
    assert r == Pass && table.Get(7) == Success(o.(status := "Completed"));
    r := table.UpdateOrder(7, Some("Pending"));
    assert r == Pass && table.Get(7) == Success(o);
    r := table.UpdateOrder(7, None);
    assert r == Fail(MissingStatus);
    r := table.DeleteOrder(7);
    assert r == Pass && table.Get(7) == Failure(NotFound);
    r := table.UpdateOrder(7, Some("Completed"));
    assert r == Fail(NotFound);
    r := table.DeleteOrder(7);
    assert r == Fail(NotFound);
  }
}
