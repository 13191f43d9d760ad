/**
 The feed handler's order book: an order store plus, per side, one aggregate per price.
 Quantities and counts in the aggregates are 32-bit and wrap on addition; removal saturates at zero.
 */
module OrderBook {
  import opened Basics
  import opened Market
  import opened MapSum

  datatype Level = Level(price: Price, total: nat, count: nat)

  type Levels = map<Price, Level>
  type Store = map<OrderId, Order>

  // ---------------------------------------------------------------- the store

  function StoreAdd(store: Store, id: OrderId, order: Order): Store {
    if id in store then store else store[id := order]
  }

  // An execution for nothing, or for more than remains, is refused.
  function StoreExecute(store: Store, id: OrderId, qty: Quantity): Store {
    if id !in store || qty == 0 || qty > store[id].remaining then store
    else if qty == store[id].remaining then store - {id}
    else store[id := store[id].(remaining := store[id].remaining - qty)]
  }

  function StoreReplace(store: Store, id: OrderId, price: Price, qty: Quantity): Store {
    if id !in store then store else store[id := store[id].(price := price, remaining := qty)]
  }

  // ---------------------------------------------------------------- one aggregate

  function LevelAdd(l: Level, qty: Quantity): Level {
    Level(l.price, (l.total + qty) % U32, (l.count + 1) % U32)
  }

  function LevelRemove(l: Level, qty: Quantity): Level {
    Level(l.price, if qty >= l.total then 0 else l.total - qty, if l.count > 0 then l.count - 1 else 0)
  }

  function AddToSide(levels: Levels, price: Price, qty: Quantity): Levels {
    var l := if price in levels then levels[price] else Level(0, 0, 0);
    var l := if l.price == 0 then l.(price := price) else l;
    levels[price := LevelAdd(l, qty)]
  }

  function RemoveFromSide(levels: Levels, price: Price, qty: Quantity): Levels {
    if price !in levels then levels
    else
      var l := LevelRemove(levels[price], qty);
      if l.count == 0 then levels - {price} else levels[price := l]
  }

  // The in-place level update of an execution; `filled` says whether the order is used up.
  function ExecuteOnSide(levels: Levels, price: Price, qty: Quantity, filled: bool): Levels
    requires price in levels
  {
    var l := levels[price].(total := (levels[price].total - qty) % U32);
    var l := if filled then l.(count := (l.count - 1) % U32) else l;
    if filled && l.count == 0 then levels - {price} else levels[price := l]
  }

  // ---------------------------------------------------------------- what the aggregates stand for

  function QuantityAt(side: Side, p: Price): (OrderId, Order) -> int {
    (id, o: Order) => if o.side == side && o.price == p then o.remaining else 0
  }

  function OneAt(side: Side, p: Price): (OrderId, Order) -> int {
    (id, o: Order) => if o.side == side && o.price == p then 1 else 0
  }

  ghost function LiveQuantity(store: Store, side: Side, p: Price): int {
    Sum(store, QuantityAt(side, p))
  }

  ghost function LiveCount(store: Store, side: Side, p: Price): int {
    Sum(store, OneAt(side, p))
  }

  // The level the live orders at one price call for.  Existence, price and count must be right; the 32-bit
  // total only if `exact`.
  ghost predicate LevelAgrees(levels: Levels, store: Store, side: Side, p: Price, exact: bool) {
    var quantity, count := LiveQuantity(store, side, p), LiveCount(store, side, p);
    && (p in levels <==> count > 0)
    && (p in levels ==> levels[p].price == p && levels[p].total < U32 && levels[p].count == count < U32)
    && (p in levels && exact ==> levels[p].total == quantity)
  }

  ghost predicate Aggregates(levels: Levels, store: Store, side: Side, exact: bool) {
    forall p: Price :: LevelAgrees(levels, store, side, p, exact)
  }

  // One more order still fits the 32-bit count of its level and, if `exact`, its quantity the 32-bit total.
  ghost predicate Room(store: Store, side: Side, p: Price, qty: Quantity, exact: bool) {
    (exact ==> LiveQuantity(store, side, p) + qty < U32) && LiveCount(store, side, p) + 1 < U32
  }

  // ---------------------------------------------------------------- how store changes move the sums

  lemma SumsPut(store: Store, id: OrderId, o: Order, side: Side, p: Price)
    requires id !in store
    ensures LiveQuantity(store[id := o], side, p) == LiveQuantity(store, side, p) + QuantityAt(side, p)(id, o)
    ensures LiveCount(store[id := o], side, p) == LiveCount(store, side, p) + OneAt(side, p)(id, o)
  {
    SumPut(store, QuantityAt(side, p), id, o);
    SumPut(store, OneAt(side, p), id, o);
    SumAbsent(store, QuantityAt(side, p), id);
    SumAbsent(store, OneAt(side, p), id);
  }

  lemma SumsTake(store: Store, id: OrderId, side: Side, p: Price)
    requires id in store
    ensures LiveQuantity(store, side, p) == LiveQuantity(store - {id}, side, p) + QuantityAt(side, p)(id, store[id])
    ensures LiveCount(store, side, p) == LiveCount(store - {id}, side, p) + OneAt(side, p)(id, store[id])
    ensures LiveQuantity(store - {id}, side, p) >= 0 && LiveCount(store - {id}, side, p) >= 0
  {
    SumTakeOut(store, QuantityAt(side, p), id);
    SumTakeOut(store, OneAt(side, p), id);
    SumBounds(store - {id}, QuantityAt(side, p), id);
    SumBounds(store - {id}, OneAt(side, p), id);
  }

  lemma SumsNonNegative(store: Store, side: Side, p: Price)
    ensures LiveQuantity(store, side, p) >= 0 && LiveCount(store, side, p) >= 0
    ensures LiveCount(store, side, p) == 0 ==> LiveQuantity(store, side, p) == 0
    ensures LiveCount(store, side, p) > 0 <==>
            exists id :: id in store && store[id].side == side && store[id].price == p
  {
    SumBounds(store, QuantityAt(side, p), 0);
    SumBounds(store, OneAt(side, p), 0);
    SumPositive(store, OneAt(side, p));
    SumPositive(store, QuantityAt(side, p));
    if id :| id in store && store[id].side == side && store[id].price == p {
      assert OneAt(side, p)(id, store[id]) > 0;
    }
    forall id | id in store && QuantityAt(side, p)(id, store[id]) > 0 ensures OneAt(side, p)(id, store[id]) > 0 {}
  }

  lemma {:induction false} CountAtMostSize(store: Store, side: Side, p: Price)
    ensures LiveCount(store, side, p) <= |store|
    decreases |store|
  {
    if store == map[] {
      SumsNonNegative(store, side, p);
    } else {
      var id :| id in store;
      SumsTake(store, id, side, p);
      CountAtMostSize(store - {id}, side, p);
      assert store.Keys == (store - {id}).Keys + {id};
    }
  }

  // ---------------------------------------------------------------- each operation on one side

  lemma AddKeepsAt(levels: Levels, store: Store, id: OrderId, o: Order, side: Side, p: Price, exact: bool)
    requires id !in store && LevelAgrees(levels, store, side, p, exact)
    ensures side != o.side ==> LevelAgrees(levels, store[id := o], side, p, exact)
    ensures side == o.side ==>
      (LevelAgrees(AddToSide(levels, o.price, o.remaining), store[id := o], side, p, exact)
       <==> p != o.price || Room(store, side, p, o.remaining, exact))
  {
    SumsPut(store, id, o, side, p);
    SumsNonNegative(store, side, p);
    hide LiveQuantity, LiveCount;
  }

  // Adding an order keeps the aggregates exactly when its level has room for it.
  lemma AddKeeps(levels: Levels, store: Store, id: OrderId, o: Order, side: Side, exact: bool)
    requires id !in store && Aggregates(levels, store, side, exact)
    ensures side != o.side ==> Aggregates(levels, store[id := o], side, exact)
    ensures side == o.side ==>
      (Aggregates(AddToSide(levels, o.price, o.remaining), store[id := o], side, exact)
       <==> Room(store, side, o.price, o.remaining, exact))
  {
    hide LevelAgrees, Room, AddToSide;
    var levels' := if side == o.side then AddToSide(levels, o.price, o.remaining) else levels;
    var store' := store[id := o];
    if side != o.side || Room(store, side, o.price, o.remaining, exact) {
      forall p: Price ensures LevelAgrees(levels', store', side, p, exact)
      {
        assert LevelAgrees(levels, store, side, p, exact);
        AddKeepsAt(levels, store, id, o, side, p, exact);
      }
    } else {
      assert LevelAgrees(levels, store, side, o.price, exact);
      AddKeepsAt(levels, store, id, o, side, o.price, exact);
      assert !LevelAgrees(levels', store', side, o.price, exact);
    }
  }

  // Without room the total wraps: 2^32 - 1 units plus 2 more are reported as 1.  The level itself stays right.
  lemma OverflowWraps() returns (levels: Levels, store: Store, o: Order)
    ensures 2 !in store && Aggregates(levels, store, Buy, true)
    ensures o.side == Buy && !Room(store, Buy, o.price, o.remaining, true)
    ensures AddToSide(levels, o.price, o.remaining)[o.price].total == 1
    ensures LiveQuantity(store[2 := o], Buy, o.price) == U32 + 1
    ensures Aggregates(AddToSide(levels, o.price, o.remaining), store[2 := o], Buy, false)
  {
    var first := Order(7, Buy, 100, U32 - 1);
    store, o := map[1 := first], Order(7, Buy, 100, 2);
    levels := map[100 := Level(100, U32 - 1, 1)];
    assert store == map[][1 := first];
    forall p: Price ensures LevelAgrees(levels, store, Buy, p, true) && LevelAgrees(levels, store, Buy, p, false)
    {
      SumsPut(map[], 1, first, Buy, p);
    }
    SumsPut(map[], 1, first, Buy, 100);
    SumsPut(store, 2, o, Buy, 100);
    AddKeeps(levels, store, 2, o, Buy, false);
  }

  lemma RemoveKeepsAt(levels: Levels, store: Store, id: OrderId, side: Side, p: Price, exact: bool)
    requires id in store && LevelAgrees(levels, store, side, p, exact)
    ensures side != store[id].side ==> LevelAgrees(levels, store - {id}, side, p, exact)
    ensures side == store[id].side ==>
      LevelAgrees(RemoveFromSide(levels, store[id].price, store[id].remaining), store - {id}, side, p, exact)
  {
    SumsTake(store, id, side, p);
    SumsNonNegative(store - {id}, side, p);
  }

  lemma RemoveKeeps(levels: Levels, store: Store, id: OrderId, side: Side, exact: bool)
    requires id in store && Aggregates(levels, store, side, exact)
    ensures side != store[id].side ==> Aggregates(levels, store - {id}, side, exact)
    ensures side == store[id].side ==>
      Aggregates(RemoveFromSide(levels, store[id].price, store[id].remaining), store - {id}, side, exact)
  {
    hide LevelAgrees, RemoveFromSide;
    var levels' :=
      if side == store[id].side then RemoveFromSide(levels, store[id].price, store[id].remaining) else levels;
    forall p: Price ensures LevelAgrees(levels', store - {id}, side, p, exact)
    {
      assert LevelAgrees(levels, store, side, p, exact);
      RemoveKeepsAt(levels, store, id, side, p, exact);
    }
  }

  // The sums after an execution.
  lemma SumsExecute(store: Store, id: OrderId, qty: Quantity, side: Side, p: Price)
    requires id in store && 0 < qty <= store[id].remaining
    ensures var here := store[id].side == side && store[id].price == p;
      var store' := StoreExecute(store, id, qty);
      && LiveQuantity(store', side, p) == LiveQuantity(store, side, p) - (if here then qty else 0)
      && LiveCount(store', side, p) ==
           LiveCount(store, side, p) - (if here && qty == store[id].remaining then 1 else 0)
  {
    var o := store[id];
    var less := o.(remaining := o.remaining - qty);
    SumsTake(store, id, side, p);
    SumsPut(store - {id}, id, less, side, p);
    assert (store - {id})[id := less] == store[id := less];
  }

  lemma ExecuteKeepsAt(levels: Levels, store: Store, id: OrderId, qty: Quantity, side: Side, p: Price, exact: bool)
    requires id in store && 0 < qty <= store[id].remaining && LevelAgrees(levels, store, side, p, exact)
    requires side == store[id].side ==> store[id].price in levels
    ensures side != store[id].side ==> LevelAgrees(levels, StoreExecute(store, id, qty), side, p, exact)
    ensures side == store[id].side ==>
      LevelAgrees(ExecuteOnSide(levels, store[id].price, qty, qty == store[id].remaining),
                  StoreExecute(store, id, qty), side, p, exact)
  {
    SumsExecute(store, id, qty, side, p);
    SumsTake(store, id, side, p);
    SumsNonNegative(store - {id}, side, p);
    hide StoreExecute, LiveQuantity, LiveCount;
  }

  lemma ExecuteKeeps(levels: Levels, store: Store, id: OrderId, qty: Quantity, side: Side, exact: bool)
    requires id in store && 0 < qty <= store[id].remaining && Aggregates(levels, store, side, exact)
    ensures side != store[id].side ==> Aggregates(levels, StoreExecute(store, id, qty), side, exact)
    ensures side == store[id].side ==>
      && store[id].price in levels
      && Aggregates(ExecuteOnSide(levels, store[id].price, qty, qty == store[id].remaining),
                    StoreExecute(store, id, qty), side, exact)
  {
    var o := store[id];
    if side == o.side { LivePriceListed(levels, store, id, exact); }
    hide LevelAgrees, ExecuteOnSide, StoreExecute;
    var levels' := if side == o.side then ExecuteOnSide(levels, o.price, qty, qty == o.remaining) else levels;
    forall p: Price ensures LevelAgrees(levels', StoreExecute(store, id, qty), side, p, exact)
    {
      assert LevelAgrees(levels, store, side, p, exact);
      ExecuteKeepsAt(levels, store, id, qty, side, p, exact);
    }
  }

  // A live order's level exists.
  lemma LivePriceListed(levels: Levels, store: Store, id: OrderId, exact: bool)
    requires id in store && Aggregates(levels, store, store[id].side, exact)
    ensures store[id].price in levels
  {
    assert LevelAgrees(levels, store, store[id].side, store[id].price, exact);
    SumsNonNegative(store, store[id].side, store[id].price);
  }

  // ---------------------------------------------------------------- first and last price of a side

  // The order in which a side's sorted map is iterated: bids from the highest price, asks from the lowest.
  predicate Before(side: Side, p: Price, q: Price) {
    if side == Buy then p > q else p < q
  }

  lemma {:induction false} FirstExists(levels: Levels, side: Side) returns (first: Price)
    requires levels != map[]
    ensures first in levels && forall q :: q in levels ==> q == first || Before(side, first, q)
    decreases |levels|
  {
    var k :| k in levels;
    var rest := levels - {k};
    first := k;
    if rest != map[] {
      var h := FirstExists(rest, side);
      first := if Before(side, h, k) then h else k;
    }
    forall q | q in levels ensures q == first || Before(side, first, q)
    {
      if q != k { assert q in rest; }
    }
  }

  // The key such a map iterates first.
  function First(levels: Levels, side: Side): (r: Option<Price>)
    ensures r == None <==> levels == map[]
    ensures r.Some? ==> r.value in levels && forall q :: q in levels ==> q == r.value || Before(side, r.value, q)
  {
    if levels == map[] then None
    else
      assert exists p :: p in levels && forall q :: q in levels ==> q == p || Before(side, p, q) by {
        var first := FirstExists(levels, side);
      }
      var p :| p in levels && forall q :: q in levels ==> q == p || Before(side, p, q);
      Some(p)
  }

  // best_bid and best_ask are the best prices among the live orders themselves.
  lemma FirstIsBestLive(levels: Levels, store: Store, side: Side)
    requires Aggregates(levels, store, side, false)
    ensures First(levels, side) == None <==> forall id :: id in store ==> store[id].side != side
    ensures First(levels, side).Some? ==>
      && (exists id :: id in store && store[id].side == side && store[id].price == First(levels, side).value)
      && (forall id :: id in store && store[id].side == side ==>
            !Before(side, store[id].price, First(levels, side).value))
  {
    forall id | id in store && store[id].side == side ensures store[id].price in levels
    {
      LivePriceListed(levels, store, id, false);
    }
    forall p: Price | p in levels ensures exists id :: id in store && store[id].side == side && store[id].price == p
    {
      assert LevelAgrees(levels, store, side, p, false);
      SumsNonNegative(store, side, p);
    }
  }

  // ---------------------------------------------------------------- the book object

  datatype Snapshot = Snapshot(bestBid: Option<Price>, bestAsk: Option<Price>)

  // The best prices are those of the live orders: the highest bid, the lowest ask, or none.
  ghost predicate ShowsBest(best: Option<Price>, store: Store, side: Side) {
    match best
    case None => forall id :: id in store ==> store[id].side != side
    case Some(p) =>
      && (exists id :: id in store && store[id].side == side && store[id].price == p)
      && (forall id :: id in store && store[id].side == side ==>
            if side == Buy then store[id].price <= p else p <= store[id].price)
  }

  ghost predicate Shows(update: Option<Snapshot>, store: Store) {
    update.Some? ==> ShowsBest(update.value.bestBid, store, Buy) && ShowsBest(update.value.bestAsk, store, Sell)
  }

  lemma FirstShows(levels: Levels, store: Store, side: Side)
    requires Aggregates(levels, store, side, false)
    ensures ShowsBest(First(levels, side), store, side)
  {
    hide Aggregates, First;
    FirstIsBestLive(levels, store, side);
  }

  class Book {
    const symbol: Symbol
    var store: Store
    var bids: Levels
    var asks: Levels

    // Both sides' levels are those of the live orders, with the right totals if `exact`.
    ghost predicate Sound(exact: bool)
      reads this
    {
      Aggregates(bids, store, Buy, exact) && Aggregates(asks, store, Sell, exact)
    }

    function TopOfBook(): Snapshot
      reads this
    {
      Snapshot(First(bids, Buy), First(asks, Sell))
    }

    // In a sound book the snapshot shows the best live prices.
    lemma TopShows()
      requires Sound(false)
      ensures Shows(Some(TopOfBook()), store)
    {
      FirstShows(bids, store, Buy);
      FirstShows(asks, store, Sell);
    }

    constructor (symbol: Symbol)
      ensures Sound(true) && Sound(false) && this.symbol == symbol && store == map[]
    {
      this.symbol := symbol;
      store, bids, asks := map[], map[], map[];
    }

    /** Refuses a live id; otherwise the aggregates stay right exactly when the level has room. */
    method AddOrder(id: OrderId, side: Side, price: Price, qty: Quantity) returns (update: Option<Snapshot>)
      modifies this
      ensures store == StoreAdd(old(store), id, Order(symbol, side, price, qty))
      ensures update == if id in old(store) then None else Some(TopOfBook())
      ensures Sound(false) ==> Shows(update, store)
      ensures old(Sound(false)) ==> (Sound(false) <==> id in old(store) || Room(old(store), side, price, qty, false))
      ensures old(Sound(true)) ==> (Sound(true) <==> id in old(store) || Room(old(store), side, price, qty, true))
    {
      hide Aggregates, Room, First;
      if id in store {
        return None;
      }
      var order := Order(symbol, side, price, qty);
      if Sound(false) {
        AddKeeps(bids, store, id, order, Buy, false);
        AddKeeps(asks, store, id, order, Sell, false);
      }
      if Sound(true) {
        AddKeeps(bids, store, id, order, Buy, true);
        AddKeeps(asks, store, id, order, Sell, true);
      }
      store := store[id := order];
      if side == Buy {
        bids := AddToSide(bids, price, qty);
      } else {
        asks := AddToSide(asks, price, qty);
      }
      if Sound(false) { TopShows(); }
      return Some(TopOfBook());
    }

    method CancelOrder(id: OrderId) returns (update: Option<Snapshot>)
      modifies this
      ensures store == old(store) - {id}
      ensures (old(Sound(false)) ==> Sound(false)) && (old(Sound(true)) ==> Sound(true))
      ensures Sound(false) ==> Shows(update, store)
      ensures update == if id in old(store) then Some(TopOfBook()) else None
    {
      hide Aggregates, First;
      if id !in store {
        assert store - {id} == store;
        return None;
      }
      var order := store[id];
      if Sound(false) {
        RemoveKeeps(bids, store, id, Buy, false);
        RemoveKeeps(asks, store, id, Sell, false);
      }
      if Sound(true) {
        RemoveKeeps(bids, store, id, Buy, true);
        RemoveKeeps(asks, store, id, Sell, true);
      }
      store := store - {id};
      if order.side == Buy {
        bids := RemoveFromSide(bids, order.price, order.remaining);
      } else {
        asks := RemoveFromSide(asks, order.price, order.remaining);
      }
      if Sound(false) { TopShows(); }
      return Some(TopOfBook());
    }

    // A fill would use the order up, but its level is not there.  Then the order stays, with nothing left.
    ghost predicate Stuck(id: OrderId, qty: Quantity)
      reads this
    {
      && id in store && 0 < qty == store[id].remaining
      && store[id].price !in (if store[id].side == Buy then bids else asks)
    }

    method ExecuteOrder(id: OrderId, qty: Quantity) returns (update: Option<Snapshot>)
      modifies this
      ensures store == if old(Stuck(id, qty)) then old(store)[id := old(store)[id].(remaining := 0)]
                       else StoreExecute(old(store), id, qty)
      ensures old(Sound(false)) ==> Sound(false) && !old(Stuck(id, qty))
      ensures old(Sound(true)) ==> Sound(true)
      ensures Sound(false) ==> Shows(update, store)
      ensures update == if id !in old(store) || qty == 0 || qty > old(store)[id].remaining then None
                        else Some(TopOfBook())
    {
      hide Aggregates, First, ExecuteOnSide;
      if id !in store || qty == 0 || qty > store[id].remaining {
        return None;
      }
      var order := store[id];
      ghost var stuck := Stuck(id, qty);
      if Sound(false) {
        ExecuteKeeps(bids, store, id, qty, Buy, false);
        ExecuteKeeps(asks, store, id, qty, Sell, false);
      }
      if Sound(true) {
        ExecuteKeeps(bids, store, id, qty, Buy, true);
        ExecuteKeeps(asks, store, id, qty, Sell, true);
      }
      var filled := order.remaining == qty;
      store := store[id := order.(remaining := order.remaining - qty)];
      if order.side == Buy {
        if order.price in bids {
          bids := ExecuteOnSide(bids, order.price, qty, filled);
          if filled { store := store - {id}; }
        }
      } else {
        if order.price in asks {
          asks := ExecuteOnSide(asks, order.price, qty, filled);
          if filled { store := store - {id}; }
        }
      }
      assert !stuck ==> store == StoreExecute(old(store), id, qty);
      if Sound(false) { TopShows(); }
      return Some(TopOfBook());
    }

    /** The order leaves its old level first, so its own quantity never counts against the new one. */
    method ReplaceOrder(id: OrderId, price: Price, qty: Quantity) returns (update: Option<Snapshot>)
      modifies this
      ensures store == StoreReplace(old(store), id, price, qty)
      ensures id in old(store) ==>
        id in store && store[id] == Order(old(store)[id].symbol, old(store)[id].side, price, qty)
      ensures Sound(false) ==> Shows(update, store)
      ensures update == if id in old(store) then Some(TopOfBook()) else None
      ensures old(Sound(false)) ==>
        (Sound(false) <==> id !in old(store) || Room(old(store) - {id}, old(store)[id].side, price, qty, false))
      ensures old(Sound(true)) ==>
        (Sound(true) <==> id !in old(store) || Room(old(store) - {id}, old(store)[id].side, price, qty, true))
    {
      hide Aggregates, First, Room, RemoveFromSide, AddToSide;
      if id !in store {
        return None;
      }
      var order := store[id];
      ghost var wasSound, wasExact := Sound(false), Sound(true);
      if wasSound {
        RemoveKeeps(bids, store, id, Buy, false);
        RemoveKeeps(asks, store, id, Sell, false);
      }
      if wasExact {
        RemoveKeeps(bids, store, id, Buy, true);
        RemoveKeeps(asks, store, id, Sell, true);
      }
      ghost var without := store - {id};
      if order.side == Buy {
        bids := RemoveFromSide(bids, order.price, order.remaining);
      } else {
        asks := RemoveFromSide(asks, order.price, order.remaining);
      }
      var renewed := order.(price := price, remaining := qty);
      if wasSound {
        AddKeeps(bids, without, id, renewed, Buy, false);
        AddKeeps(asks, without, id, renewed, Sell, false);
      }
      if wasExact {
        AddKeeps(bids, without, id, renewed, Buy, true);
        AddKeeps(asks, without, id, renewed, Sell, true);
      }
      store := store[id := renewed];
      assert store == without[id := renewed];
      if order.side == Buy {
        bids := AddToSide(bids, price, qty);
      } else {
        asks := AddToSide(asks, price, qty);
      }
      if Sound(false) { TopShows(); }
      return Some(TopOfBook());
    }

    /** The first n levels of a side in its own order, best price first. */
    method Depth(side: Side, n: nat) returns (result: seq<Level>)
      ensures IsDepth(if side == Buy then bids else asks, side, n, result)
    {
      hide Walk;
      var levels := if side == Buy then bids else asks;
      var rest := levels;
      WalkStart(levels, side);
      result := [];
      while rest != map[] && |result| < n
        invariant |result| <= n
        invariant Walk(levels, rest, side, result)
        decreases |rest|
      {
        var p := First(rest, side).value;
        DepthStep(levels, rest, side, result, p);
        result := result + [Level(p, rest[p].total, rest[p].count)];
        rest := rest - {p};
      }
      WalkEnd(levels, rest, side, n, result);
    }
  }

  ghost predicate Listed(result: seq<Level>, p: Price) {
    exists i :: 0 <= i < |result| && result[i].price == p
  }

  ghost predicate ListsInOrder(levels: Levels, side: Side, result: seq<Level>) {
    && (forall i :: 0 <= i < |result| ==>
          var l := result[i]; l.price in levels && l.total == levels[l.price].total && l.count == levels[l.price].count)
    && (forall i, j :: 0 <= i < j < |result| ==> Before(side, result[i].price, result[j].price))
  }

  // As many levels as asked for and available, in order, and none better left out.
  ghost predicate IsDepth(levels: Levels, side: Side, n: nat, result: seq<Level>) {
    && |result| == Min(n, |levels|)
    && ListsInOrder(levels, side, result)
    && (forall p :: p in levels ==>
          Listed(result, p) || forall i :: 0 <= i < |result| ==> Before(side, result[i].price, p))
  }

  // Part way through the iteration: `result` has been listed, `rest` comes after it.
  ghost predicate Walk(levels: Levels, rest: Levels, side: Side, result: seq<Level>) {
    && |rest| + |result| == |levels| && ListsInOrder(levels, side, result)
    && (forall p :: p in rest ==> p in levels && rest[p] == levels[p])
    && (forall p :: p in levels && p !in rest ==> Listed(result, p))
    && (forall p, i :: p in rest && 0 <= i < |result| ==> Before(side, result[i].price, p))
  }

  lemma WalkStart(levels: Levels, side: Side)
    ensures Walk(levels, levels, side, [])
  {
  }

  lemma DepthStep(levels: Levels, rest: Levels, side: Side, result: seq<Level>, p: Price)
    requires Walk(levels, rest, side, result) && p in rest
    requires forall q :: q in rest ==> q == p || Before(side, p, q)
    ensures Walk(levels, rest - {p}, side, result + [Level(p, rest[p].total, rest[p].count)])
  {
    var more := result + [Level(p, rest[p].total, rest[p].count)];
    assert more[|result|].price == p;
    forall q | Listed(result, q) ensures Listed(more, q)
    {
      var i :| 0 <= i < |result| && result[i].price == q;
      assert more[i].price == q;
    }
  }

  lemma WalkEnd(levels: Levels, rest: Levels, side: Side, n: nat, result: seq<Level>)
    requires Walk(levels, rest, side, result) && |result| <= n && (rest == map[] || |result| == n)
    ensures IsDepth(levels, side, n, result)
  {
  }
}
