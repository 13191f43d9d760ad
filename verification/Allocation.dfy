/**
 Who trades.  All symbols share one book and ties between equal prices are broken by hash order, so which orders
 trade is decided by price alone at the level of prices, and by chance among equals.
 */
module Allocation {
  import opened Basics
  import opened Market
  import opened MapSum
  import opened SimBook
  import opened MatchingEngine
  import OrderBook

  type Orders = map<OrderId, Order>

  // ---------------------------------------------------------------- reach

  // The orders ahead of a price leave something on the other side for it.
  ghost predicate PriceReachable(orders: Orders, side: Side, p: Price) {
    if side == Buy then Demand(orders, p + 1) < Supply(orders, p) else Supply(orders, p - 1) < Demand(orders, p)
  }

  // The order has something to trade and its price is reached.  A caller can tell before matching.
  ghost predicate Reachable(orders: Orders, id: OrderId) {
    id in orders && orders[id].remaining >= 1 && PriceReachable(orders, orders[id].side, orders[id].price)
  }

  ghost predicate Lost(orders0: Orders, orders: Orders, id: OrderId) {
    id in orders0 && RemainingOf(orders, id) < orders0[id].remaining
  }

  ghost predicate AtLevel(orders: Orders, id: OrderId, side: Side, p: Price) {
    id in orders && orders[id].side == side && orders[id].price == p
  }

  ghost function Level(orders: Orders, side: Side, p: Price): int {
    OrderBook.LiveQuantity(orders, side, p)
  }

  // What is bid from p on is what is bid above p and at p, and likewise for asks.
  lemma LevelSplit(orders: Orders, p: Price)
    ensures Demand(orders, p) == Demand(orders, p + 1) + Level(orders, Buy, p)
    ensures Supply(orders, p) == Supply(orders, p - 1) + Level(orders, Sell, p)
  {
    SumSplit(orders, BidsFrom(p), BidsFrom(p + 1), OrderBook.QuantityAt(Buy, p));
    SumSplit(orders, AsksUpTo(p), AsksUpTo(p - 1), OrderBook.QuantityAt(Sell, p));
  }

  lemma LevelHolds(orders: Orders, id: OrderId)
    requires id in orders
    ensures Level(orders, orders[id].side, orders[id].price) >= orders[id].remaining
  {
    SumBounds(orders, OrderBook.QuantityAt(orders[id].side, orders[id].price), id);
  }

  // ---------------------------------------------------------------- price levels

  /**
   Which price levels trade, in every run alike: a level with anything in it loses some of it if and only if it
   is reached.
   */
  lemma LevelLoss(orders0: Orders, orders: Orders, volume: int, side: Side, p: Price)
    requires Allocated(orders0, orders, volume) && IsClearingVolume(orders0, volume) && Level(orders0, side, p) > 0
    ensures Level(orders, side, p) < Level(orders0, side, p) <==> PriceReachable(orders0, side, p)
  {
    LevelSplit(orders0, p);
    LevelSplit(orders, p);
    var best: int :| Min(Demand(orders0, best), Supply(orders0, best)) == volume;
    if side == Buy {
      DemandFalls(orders0, p + 1, best);
      DemandFalls(orders0, best, p);
      SupplyRises(orders0, best, p);
    } else {
      SupplyRises(orders0, best, p - 1);
      DemandFalls(orders0, p, best);
    }
    hide Demand, Supply, Level;
  }

  lemma DemandFalls(orders: Orders, p: int, q: int)
    ensures p <= q ==> Demand(orders, q) <= Demand(orders, p)
  {
    if p <= q {
      var between := (id: OrderId, o: Order) => if o.side == Buy && p <= o.price < q then o.remaining else 0;
      SumSplit(orders, BidsFrom(p), BidsFrom(q), between);
      SumBounds(orders, between, 0);
    }
  }

  lemma SupplyRises(orders: Orders, p: int, q: int)
    ensures p <= q ==> Supply(orders, p) <= Supply(orders, q)
  {
    if p <= q {
      var between := (id: OrderId, o: Order) => if o.side == Sell && p < o.price <= q then o.remaining else 0;
      SumSplit(orders, AsksUpTo(q), AsksUpTo(p), between);
      SumBounds(orders, between, 0);
    }
  }

  // ---------------------------------------------------------------- facts about runs

  lemma CrossShrunk(orders0: Orders, orders: Orders, bid: OrderId, ask: OrderId)
    requires BestPair(orders, bid, ask) && Shrunk(orders0, orders)
    ensures Shrunk(orders0, Crossed(orders, bid, ask))
  {
  }

  lemma {:induction false} RunFacts(orders0: Orders, pairs: seq<Pair>, orders: Orders) returns (volume: int)
    requires Matched(orders0, pairs) == Some(orders)
    ensures OnTheWay(orders0, orders, volume) && Shrunk(orders0, orders)
  {
    hide OnTheWay, Shrunk, BestPair;
    volume := 0;
    if pairs == [] {
      Start(orders0);
      StartShrunk(orders0);
    } else {
      var n := |pairs| - 1;
      var before, last := Matched(orders0, pairs[..n]).value, pairs[n];
      volume := RunFacts(orders0, pairs[..n], before);
      PairKnown(before, last.0, last.1);
      CrossOnTheWay(orders0, before, volume, last.0, last.1);
      CrossShrunk(orders0, before, last.0, last.1);
      volume := volume + Min(before[last.0].remaining, before[last.1].remaining);
    }
  }

  lemma StartShrunk(orders: Orders)
    ensures Shrunk(orders, orders)
  {
  }

  lemma PairKnown(orders: Orders, bid: OrderId, ask: OrderId)
    requires BestPair(orders, bid, ask)
    ensures bid in orders && ask in orders && bid != ask
    ensures orders[bid].side == Buy && orders[ask].side == Sell
  {
  }

  // What one match does to one order.
  lemma CrossOrder(orders: Orders, bid: OrderId, ask: OrderId, id: OrderId)
    requires BestPair(orders, bid, ask)
    ensures var q := Min(orders[bid].remaining, orders[ask].remaining);
      RemainingOf(Crossed(orders, bid, ask), id) == RemainingOf(orders, id) - (if id == bid || id == ask then q else 0)
    ensures id != bid && id != ask ==>
      && (id in Crossed(orders, bid, ask) <==> id in orders)
      && (id in orders ==> Crossed(orders, bid, ask)[id] == orders[id])
  {
  }

  /** Only reachable orders ever lose anything. */
  lemma {:induction false} LostReachable(orders0: Orders, pairs: seq<Pair>, orders: Orders, id: OrderId)
    requires Matched(orders0, pairs) == Some(orders) && Lost(orders0, orders, id)
    ensures Reachable(orders0, id)
  {
    hide OnTheWay, Shrunk, BestPair, Crossed, Demand, Supply;
    if pairs != [] {
      var n := |pairs| - 1;
      var before, last := Matched(orders0, pairs[..n]).value, pairs[n];
      if Lost(orders0, before, id) {
        LostReachable(orders0, pairs[..n], before, id);
      } else {
        PairKnown(before, last.0, last.1);
        CrossOrder(before, last.0, last.1, id);
        var volume := RunFacts(orders0, pairs[..n], before);
        PairInReach(orders0, before, volume, last.0, last.1);
        SamePrice(orders0, before, id);
      }
    }
  }

  lemma SamePrice(orders0: Orders, orders: Orders, id: OrderId)
    requires Shrunk(orders0, orders) && id in orders
    ensures id in orders0 && orders0[id].side == orders[id].side && orders0[id].price == orders[id].price
    ensures orders[id].remaining <= orders0[id].remaining
  {
  }

  /**
   In every run alike: at a price and side some order trades if and only if an order there is reachable.
   */
  lemma LevelTradesExactly(orders0: Orders, pairs: seq<Pair>, end: Orders, side: Side, p: Price)
    requires IsOutcome(orders0, pairs, end)
    ensures (exists id :: AtLevel(orders0, id, side, p) && Lost(orders0, end, id)) <==>
            (exists id :: AtLevel(orders0, id, side, p) && Reachable(orders0, id))
  {
    hide Level, PriceReachable, Matched, Uncrossed, OnTheWay, Shrunk, Allocated, IsClearingVolume;
    var volume := RunFacts(orders0, pairs, end);
    VolumeClears(orders0, end, volume);
    AllocatedOnTheWay(orders0, end, volume);
    if id :| AtLevel(orders0, id, side, p) && Lost(orders0, end, id) {
      LostReachable(orders0, pairs, end, id);
    }
    if id :| AtLevel(orders0, id, side, p) && Reachable(orders0, id) {
      LevelHolds(orders0, id);
      LevelLoss(orders0, end, volume, side, p);
      SomeoneLost(orders0, end, side, p);
    }
  }

  lemma SomeoneLost(orders0: Orders, orders: Orders, side: Side, p: Price)
    requires Shrunk(orders0, orders) && Level(orders, side, p) < Level(orders0, side, p)
    ensures exists id :: AtLevel(orders0, id, side, p) && Lost(orders0, orders, id)
  {
    if forall id :: AtLevel(orders0, id, side, p) ==> !Lost(orders0, orders, id) {
      var f := OrderBook.QuantityAt(side, p);
      forall j | j in orders ensures j in orders0 && f(j, orders[j]) == f(j, orders0[j])
      {
        if AtLevel(orders0, j, side, p) { assert !Lost(orders0, orders, j); }
      }
      forall j | j in orders0 && j !in orders ensures f(j, orders0[j]) == 0
      {
        if AtLevel(orders0, j, side, p) { assert !Lost(orders0, orders, j); }
      }
      SumSame(orders0, orders, f);
    }
  }

  // ---------------------------------------------------------------- single orders

  // Some way of breaking ties makes the order trade.
  ghost predicate MayTrade(orders: Orders, id: OrderId) {
    exists pairs, end :: IsOutcome(orders, pairs, end) && Lost(orders, end, id)
  }

  // The order has traded, or neither it nor anything else at its level has.
  ghost predicate Favoured(orders0: Orders, orders: Orders, id: OrderId) {
    && id in orders0
    && (|| Lost(orders0, orders, id)
        || (id in orders && orders[id] == orders0[id] &&
            Level(orders, orders0[id].side, orders0[id].price) == Level(orders0, orders0[id].side, orders0[id].price)))
  }

  // The pair leaves no order of the favoured one's price and side ahead of it.
  ghost predicate Favours(orders: Orders, bid: OrderId, ask: OrderId, id: OrderId) {
    id in orders && bid in orders && ask in orders ==>
      && (orders[id].side == Buy && orders[id].price == orders[bid].price ==> bid == id)
      && (orders[id].side == Sell && orders[id].price == orders[ask].price ==> ask == id)
  }

  lemma CrossLevel(orders: Orders, bid: OrderId, ask: OrderId, side: Side, p: Price)
    requires BestPair(orders, bid, ask)
    ensures var q := Min(orders[bid].remaining, orders[ask].remaining);
      Level(Crossed(orders, bid, ask), side, p) ==
      Level(orders, side, p) - (if p == (if side == Buy then orders[bid].price else orders[ask].price) then q else 0)
  {
    var next := Crossed(orders, bid, ask);
    LevelSplit(orders, p);
    LevelSplit(next, p);
    CrossSums(orders, bid, ask, p);
    CrossSums(orders, bid, ask, p + 1);
    CrossSums(orders, bid, ask, p - 1);
    hide Demand, Supply, Level, Crossed;
  }

  lemma FavouredStep(orders0: Orders, orders: Orders, bid: OrderId, ask: OrderId, id: OrderId)
    requires BestPair(orders, bid, ask) && Favours(orders, bid, ask, id)
    requires Favoured(orders0, orders, id) && orders0[id].remaining >= 1
    ensures Favoured(orders0, Crossed(orders, bid, ask), id)
  {
    PairKnown(orders, bid, ask);
    CrossOrder(orders, bid, ask, id);
    CrossLevel(orders, bid, ask, orders0[id].side, orders0[id].price);
    var q := Min(orders[bid].remaining, orders[ask].remaining);
    if !Lost(orders0, orders, id) && (id == bid || id == ask) && q == 0 { KeptOrLost(orders, bid, ask, id); }
    hide BestPair, Level, Crossed;
  }

  lemma KeptOrLost(orders: Orders, bid: OrderId, ask: OrderId, id: OrderId)
    requires BestPair(orders, bid, ask) && (id == bid || id == ask) && orders[id].remaining >= 1
    requires Min(orders[bid].remaining, orders[ask].remaining) == 0
    ensures id in Crossed(orders, bid, ask) && Crossed(orders, bid, ask)[id] == orders[id]
  {
  }

  // A best order of a side, and the favoured one if it is among the best.
  lemma {:induction false} BestOf(orders: Orders, side: Side, some: OrderId) returns (best: OrderId)
    requires some in orders && orders[some].side == side
    ensures IsBest(orders, side, Some(best))
    decreases |orders|
  {
    best := some;
    if other :| other in orders && other != some && orders[other].side == side {
      var rest := orders - {some};
      assert orders.Keys == rest.Keys + {some};
      var b := BestOf(rest, side, other);
      best := if (if side == Buy then orders[b].price > orders[some].price else orders[b].price < orders[some].price)
              then b else some;
      forall id | id in orders && orders[id].side == side
        ensures if side == Buy then orders[id].price <= orders[best].price else orders[best].price <= orders[id].price
      {
        if id != some { assert id in rest; }
      }
    }
  }

  lemma ChooseBest(orders: Orders, side: Side, some: OrderId, id: OrderId) returns (best: OrderId)
    requires some in orders && orders[some].side == side
    ensures IsBest(orders, side, Some(best))
    ensures id in orders && orders[id].side == side && orders[id].price == orders[best].price ==> best == id
  {
    best := BestOf(orders, side, some);
    if id in orders && orders[id].side == side && orders[id].price == orders[best].price { best := id; }
  }

  // Matching on, always preferring the one order among its equals.
  lemma {:induction false} FavouringRun(orders0: Orders, pairs: seq<Pair>, orders: Orders, id: OrderId)
    returns (all: seq<Pair>, end: Orders)
    requires Matched(orders0, pairs) == Some(orders) && Favoured(orders0, orders, id) && orders0[id].remaining >= 1
    ensures IsOutcome(orders0, all, end) && Favoured(orders0, end, id)
    decreases |orders|
  {
    hide Matched, Favoured, Crossed;
    all, end := pairs, orders;
    if !Uncrossed(orders) {
      var b, a :| b in orders && a in orders && orders[b].side == Buy && orders[a].side == Sell &&
                  orders[a].price <= orders[b].price;
      var bid := ChooseBest(orders, Buy, b, id);
      var ask := ChooseBest(orders, Sell, a, id);
      assert BestPair(orders, bid, ask);
      CrossShrinks(orders, bid, ask);
      MatchedAppend(orders0, pairs, orders, (bid, ask));
      FavouredId(orders0, orders, id);
      FavouredStep(orders0, orders, bid, ask, id);
      all, end := FavouringRun(orders0, pairs + [(bid, ask)], Crossed(orders, bid, ask), id);
    }
  }

  lemma FavouredId(orders0: Orders, orders: Orders, id: OrderId)
    requires Favoured(orders0, orders, id)
    ensures id in orders0
  {
  }

  lemma NothingYet(orders: Orders, id: OrderId)
    requires id in orders
    ensures Matched(orders, []) == Some(orders) && Favoured(orders, orders, id)
  {
  }

  lemma ReachableMayTrade(orders: Orders, id: OrderId)
    requires Reachable(orders, id)
    ensures MayTrade(orders, id)
  {
    hide Matched, Uncrossed, OnTheWay, Shrunk, Allocated, IsClearingVolume, Level, PriceReachable;
    NothingYet(orders, id);
    var pairs, end := FavouringRun(orders, [], orders, id);
    var volume := RunFacts(orders, pairs, end);
    VolumeClears(orders, end, volume);
    AllocatedOnTheWay(orders, end, volume);
    LevelHolds(orders, id);
    LevelLoss(orders, end, volume, orders[id].side, orders[id].price);
    assert Lost(orders, end, id);
  }

  /** Exactly which orders can trade: some way of breaking ties trades an order if and only if it is reachable. */
  lemma MayTradeExactly(orders: Orders, id: OrderId)
    ensures MayTrade(orders, id) <==> Reachable(orders, id)
  {
    if Reachable(orders, id) { ReachableMayTrade(orders, id); }
    if MayTrade(orders, id) {
      var pairs, end :| IsOutcome(orders, pairs, end) && Lost(orders, end, id);
      LostReachable(orders, pairs, end, id);
    }
  }

  // ---------------------------------------------------------------- symbols

  ghost predicate Foreign(orders: Orders, id: OrderId, symbol: Symbol) {
    id in orders && orders[id].symbol != symbol
  }

  /**
   Trades for a symbol stay among its own orders, however ties are broken, if and only if no order of another
   symbol is reachable in the shared book.
   */
  lemma ForeignTradesExactly(orders: Orders, symbol: Symbol)
    ensures (exists id :: Foreign(orders, id, symbol) && MayTrade(orders, id)) <==>
            (exists id :: Foreign(orders, id, symbol) && Reachable(orders, id))
  {
    hide MayTrade, Reachable;
    forall id: OrderId ensures MayTrade(orders, id) <==> Reachable(orders, id)
    {
      MayTradeExactly(orders, id);
    }
  }

  // Both orders of the trade are of the trade's symbol.
  predicate JoinsOwn(orders: Orders, t: Trade)
    requires t.buyOrder in orders && t.sellOrder in orders
  {
    orders[t.buyOrder].symbol == t.symbol == orders[t.sellOrder].symbol
  }

  // Whatever the engine reports with a quantity names two reachable orders, and hence its own ones if only those are.
  lemma TradesAreReachable(orders: Orders, symbol: Symbol, t: Trade)
    requires WithinLimits(orders, symbol, t) && InReach(orders, t) && t.quantity > 0
    ensures Reachable(orders, t.buyOrder) && Reachable(orders, t.sellOrder)
    ensures (forall id :: Foreign(orders, id, symbol) ==> !Reachable(orders, id)) ==> JoinsOwn(orders, t)
  {
    hide Demand, Supply;
    assert Reachable(orders, t.buyOrder) && Reachable(orders, t.sellOrder);
  }

  // Two orders of different symbols that meet: a trade joins a bid for one symbol with an ask for another.
  method CrossSymbolTrade() returns (orders: Orders, trades: seq<Trade>)
    ensures orders == map[1 := Order(10, Buy, 100, 5), 2 := Order(20, Sell, 100, 5)]
    ensures trades != [] && WithinLimits(orders, 10, trades[0]) && !JoinsOwn(orders, trades[0])
  {
    hide IsClearingVolume, Uncrossed, ListsOnce, Volume, InReach, Allocated, Matched, IsOutcome, Conserved;
    var book := new SimOrderBook();
    var ok := book.Add(1, Order(10, Buy, 100, 5));
    ok := book.Add(2, Order(20, Sell, 100, 5));
    orders := book.orders;
    trades := TryMatch(book, 10);
    SomethingTrades(orders, book.orders, trades);
    assert trades[0] in trades;
  }

  /**
   What orders for nothing add: trades for nothing, which can name orders that are not reachable.  Every trade for
   nothing names an order that was for nothing from the start.
   */
  method TradeForNothing() returns (orders: Orders, trades: seq<Trade>)
    ensures orders == map[1 := Order(10, Buy, 100, 5), 2 := Order(20, Sell, 100, 0)]
    ensures trades != [] && trades[0].quantity == 0 && trades[0].buyOrder == 1 && !Reachable(orders, 1)
  {
    hide IsClearingVolume, Uncrossed, ListsOnce, Volume, Allocated, Matched, IsOutcome, Conserved;
    var book := new SimOrderBook();
    var ok := book.Add(1, Order(10, Buy, 100, 5));
    ok := book.Add(2, Order(20, Sell, 100, 0));
    orders := book.orders;
    trades := TryMatch(book, 10);
    SomethingTrades(orders, book.orders, trades);
    assert trades[0] in trades;
    TwoOrders(orders, Order(10, Buy, 100, 5), Order(20, Sell, 100, 0));
  }

  // Two orders that cross cannot both stay, and the one that goes is named in a trade.
  lemma SomethingTrades(orders0: Orders, orders: Orders, trades: seq<Trade>)
    requires 1 in orders0 && 2 in orders0 && orders0[1].side == Buy && orders0[2].side == Sell
    requires orders0[2].price <= orders0[1].price && Conserved(orders0, orders, trades) && Uncrossed(orders)
    ensures trades != []
  {
    assert !(1 in orders && 2 in orders);
  }

  lemma TwoOrders(orders: Orders, bid: Order, ask: Order)
    requires orders == map[1 := bid, 2 := ask] && bid.side == Buy && ask.side == Sell && ask.price <= bid.price
    ensures Demand(orders, bid.price + 1) == 0 && Supply(orders, bid.price) == ask.remaining
  {
    var none: Orders := map[];
    var one := none[1 := bid];
    assert orders == one[2 := ask] && none - {1} == none && one - {2} == one;
    SumPut(none, BidsFrom(bid.price + 1), 1, bid);
    SumPut(none, AsksUpTo(bid.price), 1, bid);
    SumPut(one, BidsFrom(bid.price + 1), 2, ask);
    SumPut(one, AsksUpTo(bid.price), 2, ask);
  }
}
