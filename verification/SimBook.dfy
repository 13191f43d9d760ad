/** The simulator's own order book: a hash map of live orders and a list of their ids for random picks. */
module SimBook {
  import opened Basics
  import opened Market

  // ---------------------------------------------------------------- what each operation does to the orders

  function Executed(orders: map<OrderId, Order>, id: OrderId, qty: Quantity): map<OrderId, Order> {
    if id !in orders then orders
    else if qty >= orders[id].remaining then orders - {id}
    else orders[id := orders[id].(remaining := orders[id].remaining - qty)]
  }

  function Replaced(orders: map<OrderId, Order>, id: OrderId, price: Price, qty: Quantity): map<OrderId, Order> {
    if id !in orders then orders else orders[id := orders[id].(price := price, remaining := qty)]
  }

  // `ids` names every live order exactly once.
  ghost predicate ListsOnce(ids: seq<OrderId>, orders: map<OrderId, Order>) {
    && (forall i, j :: 0 <= i < j < |ids| ==> ids[i] != ids[j])
    && (forall id :: id in ids <==> id in orders)
  }

  ghost predicate IsBest(orders: map<OrderId, Order>, side: Side, best: Option<OrderId>) {
    match best
    case None => forall id :: id in orders ==> orders[id].side != side
    case Some(b) =>
      b in orders && orders[b].side == side &&
      forall id :: id in orders && orders[id].side == side ==>
        if side == Buy then orders[id].price <= orders[b].price else orders[b].price <= orders[id].price
  }

  class SimOrderBook {
    var orders: map<OrderId, Order>
    var orderIds: seq<OrderId>

    ghost predicate Valid()
      reads this
    {
      ListsOnce(orderIds, orders)
    }

    constructor ()
      ensures Valid() && orders == map[]
    {
      orders, orderIds := map[], [];
    }

    method Add(id: OrderId, order: Order) returns (ok: bool)
      requires Valid()
      modifies this
      ensures Valid() && ok == (id !in old(orders))
      ensures orders == if ok then old(orders)[id := order] else old(orders)
    {
      if id in orders {
        return false;
      }
      orders := orders[id := order];
      orderIds := orderIds + [id];
      return true;
    }

    method Cancel(id: OrderId) returns (cancelled: Option<Order>)
      requires Valid()
      modifies this
      ensures Valid() && orders == old(orders) - {id}
      ensures cancelled == if id in old(orders) then Some(old(orders)[id]) else None
    {
      if id !in orders {
        assert orders - {id} == orders;
        return None;
      }
      cancelled := Some(orders[id]);
      orders := orders - {id};
      RebuildIds();
    }

    method Execute(id: OrderId, qty: Quantity) returns (order: Option<Order>)
      requires Valid()
      modifies this
      ensures Valid() && orders == Executed(old(orders), id, qty)
      ensures order == if id !in old(orders) then None
                       else Some(old(orders)[id].(remaining := Max(old(orders)[id].remaining - qty, 0)))
    {
      if id !in orders {
        return None;
      }
      var o := orders[id];
      if qty >= o.remaining {
        orders := orders - {id};
        RebuildIds();
        return Some(o.(remaining := 0));
      }
      orders := orders[id := o.(remaining := o.remaining - qty)];
      return Some(orders[id]);
    }

    method Replace(id: OrderId, price: Price, qty: Quantity) returns (ok: bool)
      requires Valid()
      modifies this
      ensures Valid() && ok == (id in old(orders)) && orders == Replaced(old(orders), id, price, qty)
      ensures ok ==> id in orders && orders[id] == Order(old(orders)[id].symbol, old(orders)[id].side, price, qty)
    {
      ok := id in orders;
      if ok {
        orders := orders[id := orders[id].(price := price, remaining := qty)];
      }
    }

    // Lists the keys in whatever order the hash map yields them.
    method RebuildIds()
      modifies this`orderIds
      ensures Valid()
    {
      orderIds := [];
      var todo := orders.Keys;
      while todo != {}
        invariant todo <= orders.Keys
        invariant forall i, j :: 0 <= i < j < |orderIds| ==> orderIds[i] != orderIds[j]
        invariant forall id :: id in orderIds <==> id in orders && id !in todo
        decreases todo
      {
        var id :| id in todo;
        orderIds := orderIds + [id];
        todo := todo - {id};
      }
    }

    // The scan keeps the first strictly best price it meets, so ties go to hash order.
    method BestBidOrder() returns (best: Option<OrderId>)
      ensures IsBest(orders, Buy, best)
    {
      best := None;
      var bestPrice := 0;
      var todo := orders.Keys;
      while todo != {}
        invariant todo <= orders.Keys
        invariant best.None? ==> forall id :: id in orders && id !in todo ==> orders[id].side != Buy
        invariant best.Some? ==>
          best.value in orders && orders[best.value].side == Buy && bestPrice == orders[best.value].price
        invariant best.Some? ==>
          forall id :: id in orders && id !in todo && orders[id].side == Buy ==> orders[id].price <= bestPrice
        decreases todo
      {
        var id :| id in todo;
        if orders[id].side == Buy && (best.None? || orders[id].price > bestPrice) {
          bestPrice, best := orders[id].price, Some(id);
        }
        todo := todo - {id};
      }
    }

    method BestAskOrder() returns (best: Option<OrderId>)
      ensures IsBest(orders, Sell, best)
    {
      best := None;
      var bestPrice := 0xFFFF_FFFF;
      var todo := orders.Keys;
      while todo != {}
        invariant todo <= orders.Keys
        invariant best.None? ==> forall id :: id in orders && id !in todo ==> orders[id].side != Sell
        invariant best.Some? ==>
          best.value in orders && orders[best.value].side == Sell && bestPrice == orders[best.value].price
        invariant best.Some? ==>
          forall id :: id in orders && id !in todo && orders[id].side == Sell ==> bestPrice <= orders[id].price
        decreases todo
      {
        var id :| id in todo;
        if orders[id].side == Sell && (best.None? || orders[id].price < bestPrice) {
          bestPrice, best := orders[id].price, Some(id);
        }
        todo := todo - {id};
      }
    }
  }
}
