/**
 The simulator's matching engine: cross the best bid with the best ask until the book no longer crosses.
 Whatever order the hash map yields among equals, the traded volume is the clearing volume of the book.
 */
module MatchingEngine {
  import opened Basics
  import opened Market
  import opened MapSum
  import opened SimBook

  datatype Trade = Trade(symbol: Symbol, price: Price, quantity: Quantity, buyOrder: OrderId, sellOrder: OrderId)

  // ---------------------------------------------------------------- clearing volume

  function BidsFrom(p: int): (OrderId, Order) -> int {
    (id, o: Order) => if o.side == Buy && o.price >= p then o.remaining else 0
  }

  function AsksUpTo(p: int): (OrderId, Order) -> int {
    (id, o: Order) => if o.side == Sell && o.price <= p then o.remaining else 0
  }

  // Quantity bid at p or better, and quantity offered at p or better.
  ghost function Demand(orders: map<OrderId, Order>, p: int): int {
    Sum(orders, BidsFrom(p))
  }

  ghost function Supply(orders: map<OrderId, Order>, p: int): int {
    Sum(orders, AsksUpTo(p))
  }

  // v is the maximum over all prices of min(demand, supply).
  ghost predicate IsClearingVolume(orders: map<OrderId, Order>, v: int) {
    && (forall p: int :: Min(Demand(orders, p), Supply(orders, p)) <= v)
    && (exists p: int :: Min(Demand(orders, p), Supply(orders, p)) == v)
  }

  function Volume(trades: seq<Trade>): int {
    if trades == [] then 0 else Volume(trades[..|trades| - 1]) + trades[|trades| - 1].quantity
  }

  // The quantity an order traded, on whichever side it was.
  function TradedBy(trades: seq<Trade>, id: OrderId): int {
    if trades == [] then 0
    else
      var t := trades[|trades| - 1];
      TradedBy(trades[..|trades| - 1], id) + if t.buyOrder == id || t.sellOrder == id then t.quantity else 0
  }

  function RemainingOf(orders: map<OrderId, Order>, id: OrderId): int {
    if id in orders then orders[id].remaining else 0
  }

  ghost predicate Uncrossed(orders: map<OrderId, Order>) {
    forall b, a :: b in orders && a in orders && orders[b].side == Buy && orders[a].side == Sell ==>
      orders[b].price < orders[a].price
  }

  // ---------------------------------------------------------------- sums under execution

  lemma ExecuteSums(orders: map<OrderId, Order>, id: OrderId, qty: Quantity, p: int)
    requires id in orders && qty <= orders[id].remaining
    ensures Demand(Executed(orders, id, qty), p) ==
            Demand(orders, p) - if orders[id].side == Buy && orders[id].price >= p then qty else 0
    ensures Supply(Executed(orders, id, qty), p) ==
            Supply(orders, p) - if orders[id].side == Sell && orders[id].price <= p then qty else 0
  {
    var less := orders[id].(remaining := orders[id].remaining - qty);
    SumTakeOut(orders, BidsFrom(p), id);
    SumTakeOut(orders, AsksUpTo(p), id);
    SumPut(orders, BidsFrom(p), id, less);
    SumPut(orders, AsksUpTo(p), id, less);
  }

  lemma SumsNonNegative(orders: map<OrderId, Order>, p: int)
    ensures Demand(orders, p) >= 0 && Supply(orders, p) >= 0
  {
    SumBounds(orders, BidsFrom(p), 0);
    SumBounds(orders, AsksUpTo(p), 0);
  }

  // In an uncrossed book no price has both demand and supply left.
  lemma UncrossedEmpties(orders: map<OrderId, Order>, p: int)
    requires Uncrossed(orders)
    ensures Demand(orders, p) == 0 || Supply(orders, p) == 0
  {
    SumPositive(orders, BidsFrom(p));
    SumPositive(orders, AsksUpTo(p));
    SumsNonNegative(orders, p);
  }

  // ---------------------------------------------------------------- the loop invariant

  // How far a partly matched book has moved from the original one.  `bid` and `ask` are the limits of
  // the last pair matched: below them nothing has traded yet on either side.
  ghost predicate Progress(orders0: map<OrderId, Order>, orders: map<OrderId, Order>, volume: int, bid: int, ask: int) {
    && ask <= bid
    && (forall id :: id in orders ==>
          if orders[id].side == Buy then orders[id].price <= bid else ask <= orders[id].price)
    && (forall p: int :: Demand(orders0, p) - Demand(orders, p) <= volume)
    && (forall p: int :: p <= bid ==> Demand(orders0, p) - Demand(orders, p) == volume)
    && (forall p: int :: Supply(orders0, p) - Supply(orders, p) <= volume)
    && (forall p: int :: ask <= p ==> Supply(orders0, p) - Supply(orders, p) == volume)
  }

  // Nothing has been matched yet, or the last match left its pivot.
  ghost predicate OnTheWay(orders0: map<OrderId, Order>, orders: map<OrderId, Order>, volume: int) {
    || (orders == orders0 && volume == 0)
    || exists bid: int, ask: int :: Progress(orders0, orders, volume, bid, ask)
  }

  // Orders only lose quantity.
  ghost predicate Shrunk(orders0: map<OrderId, Order>, orders: map<OrderId, Order>) {
    forall id :: id in orders ==>
      && id in orders0 && orders[id] == orders0[id].(remaining := orders[id].remaining)
      && orders[id].remaining <= orders0[id].remaining
  }

  // Each order loses exactly what its trades say, and none goes without being named in one.
  ghost predicate Conserved(orders0: map<OrderId, Order>, orders: map<OrderId, Order>, trades: seq<Trade>) {
    && Shrunk(orders0, orders)
    && (forall id :: id in orders0 ==> RemainingOf(orders0, id) - RemainingOf(orders, id) == TradedBy(trades, id))
    && (forall id :: id in orders0 && id !in orders ==> Named(trades, id))
  }

  // Some trade mentions the order.
  ghost predicate Named(trades: seq<Trade>, id: OrderId) {
    exists i :: 0 <= i < |trades| && (trades[i].buyOrder == id || trades[i].sellOrder == id)
  }

  // The orders that come before the two of a trade leave at least its quantity on the other side.
  ghost predicate InReach(orders0: map<OrderId, Order>, t: Trade) {
    && t.buyOrder in orders0 && t.sellOrder in orders0
    && var b, a := orders0[t.buyOrder].price, orders0[t.sellOrder].price;
    && Demand(orders0, b + 1) + t.quantity <= Supply(orders0, b)
    && Supply(orders0, a - 1) + t.quantity <= Demand(orders0, a)
    && t.quantity <= orders0[t.buyOrder].remaining && t.quantity <= orders0[t.sellOrder].remaining
    && (t.quantity == 0 ==> orders0[t.buyOrder].remaining == 0 || orders0[t.sellOrder].remaining == 0)
  }

  // Every trade joins a buyer and a seller at the seller's limit, which the buyer's limit reaches.
  ghost predicate WithinLimits(orders0: map<OrderId, Order>, symbol: Symbol, t: Trade) {
    && t.symbol == symbol && t.buyOrder in orders0 && t.sellOrder in orders0
    && orders0[t.buyOrder].side == Buy && orders0[t.sellOrder].side == Sell
    && orders0[t.sellOrder].price == t.price <= orders0[t.buyOrder].price
  }

  function Crossed(orders: map<OrderId, Order>, bid: OrderId, ask: OrderId): map<OrderId, Order>
    requires bid in orders && ask in orders
  {
    var q := Min(orders[bid].remaining, orders[ask].remaining);
    Executed(Executed(orders, bid, q), ask, q)
  }

  ghost predicate BestPair(orders: map<OrderId, Order>, bid: OrderId, ask: OrderId) {
    IsBest(orders, Buy, Some(bid)) && IsBest(orders, Sell, Some(ask)) && orders[ask].price <= orders[bid].price
  }

  lemma CrossSums(orders: map<OrderId, Order>, bid: OrderId, ask: OrderId, p: int)
    requires BestPair(orders, bid, ask)
    ensures var q := Min(orders[bid].remaining, orders[ask].remaining);
      && Demand(Crossed(orders, bid, ask), p) == Demand(orders, p) - (if orders[bid].price >= p then q else 0)
      && Supply(Crossed(orders, bid, ask), p) == Supply(orders, p) - (if orders[ask].price <= p then q else 0)
  {
    var q := Min(orders[bid].remaining, orders[ask].remaining);
    ExecuteSums(orders, bid, q, p);
    ExecuteSums(Executed(orders, bid, q), ask, q, p);
  }

  // A match at (b, a) keeps the progress statement, with the pivot moved to (b, a).
  lemma CrossProgress(orders0: map<OrderId, Order>, orders: map<OrderId, Order>, volume: int,
                      bid: OrderId, ask: OrderId)
    requires BestPair(orders, bid, ask)
    requires OnTheWay(orders0, orders, volume)
    ensures Progress(orders0, Crossed(orders, bid, ask), volume + Min(orders[bid].remaining, orders[ask].remaining),
                     orders[bid].price, orders[ask].price)
  {
    forall p: int ensures var q := Min(orders[bid].remaining, orders[ask].remaining);
      && Demand(Crossed(orders, bid, ask), p) == Demand(orders, p) - (if orders[bid].price >= p then q else 0)
      && Supply(Crossed(orders, bid, ask), p) == Supply(orders, p) - (if orders[ask].price <= p then q else 0)
    {
      CrossSums(orders, bid, ask, p);
    }
  }

  lemma CrossOnTheWay(orders0: map<OrderId, Order>, orders: map<OrderId, Order>, volume: int,
                      bid: OrderId, ask: OrderId)
    requires BestPair(orders, bid, ask) && OnTheWay(orders0, orders, volume)
    ensures OnTheWay(orders0, Crossed(orders, bid, ask), volume + Min(orders[bid].remaining, orders[ask].remaining))
  {
    hide Progress;
    CrossProgress(orders0, orders, volume, bid, ask);
    var b: int, a: int := orders[bid].price, orders[ask].price;
    assert Progress(orders0, Crossed(orders, bid, ask),
                    volume + Min(orders[bid].remaining, orders[ask].remaining), b, a);
  }

  lemma CrossConserved(orders0: map<OrderId, Order>, orders: map<OrderId, Order>, trades: seq<Trade>,
                       bid: OrderId, ask: OrderId, t: Trade)
    requires BestPair(orders, bid, ask) && Conserved(orders0, orders, trades)
    requires t.buyOrder == bid && t.sellOrder == ask && t.quantity == Min(orders[bid].remaining, orders[ask].remaining)
    ensures Conserved(orders0, Crossed(orders, bid, ask), trades + [t])
  {
    hide Named;
    assert (trades + [t])[..|trades|] == trades;
    forall id: OrderId ensures Named(trades + [t], id) <==> Named(trades, id) || id == bid || id == ask
    {
      NamedAppend(trades, t, id);
    }
  }

  lemma NamedAppend(trades: seq<Trade>, t: Trade, id: OrderId)
    ensures Named(trades + [t], id) <==> Named(trades, id) || id == t.buyOrder || id == t.sellOrder
  {
    var more := trades + [t];
    assert more[|trades|] == t;
    if i :| 0 <= i < |trades| && (trades[i].buyOrder == id || trades[i].sellOrder == id) {
      assert more[i] == trades[i];
    }
  }

  // At least one of the two orders is used up.
  lemma CrossShrinks(orders: map<OrderId, Order>, bid: OrderId, ask: OrderId)
    requires BestPair(orders, bid, ask)
    ensures |Crossed(orders, bid, ask)| < |orders|
  {
    var q := Min(orders[bid].remaining, orders[ask].remaining);
    var mid, end := Executed(orders, bid, q), Crossed(orders, bid, ask);
    assert mid.Keys == if orders[bid].remaining == q then orders.Keys - {bid} else orders.Keys;
    assert end.Keys == if orders[ask].remaining == q then mid.Keys - {ask} else mid.Keys;
  }

  // Everything ahead of the best pair is gone, and what it took from the other side leaves the pair its own.
  lemma PairInReach(orders0: map<OrderId, Order>, orders: map<OrderId, Order>, volume: int,
                    bid: OrderId, ask: OrderId)
    requires BestPair(orders, bid, ask) && OnTheWay(orders0, orders, volume)
    ensures Demand(orders0, orders[bid].price + 1) <= volume
    ensures Supply(orders0, orders[ask].price - 1) <= volume
    ensures volume + orders[ask].remaining <= Supply(orders0, orders[bid].price)
    ensures volume + orders[bid].remaining <= Demand(orders0, orders[ask].price)
  {
    var b, a := orders[bid].price, orders[ask].price;
    NoneBeyond(orders, bid, ask);
    SumBounds(orders, AsksUpTo(b), ask);
    SumBounds(orders, BidsFrom(a), bid);
  }

  lemma NoneBeyond(orders: map<OrderId, Order>, bid: OrderId, ask: OrderId)
    requires BestPair(orders, bid, ask)
    ensures Demand(orders, orders[bid].price + 1) == 0 && Supply(orders, orders[ask].price - 1) == 0
  {
    SumZero(orders, BidsFrom(orders[bid].price + 1));
    SumZero(orders, AsksUpTo(orders[ask].price - 1));
  }

  lemma CrossInReach(orders0: map<OrderId, Order>, orders: map<OrderId, Order>, trades: seq<Trade>, volume: int,
                     t: Trade)
    requires BestPair(orders, t.buyOrder, t.sellOrder) && OnTheWay(orders0, orders, volume)
    requires Conserved(orders0, orders, trades) && ZerosAreOld(orders0, orders)
    requires t.quantity == Min(orders[t.buyOrder].remaining, orders[t.sellOrder].remaining)
    ensures InReach(orders0, t) && ZerosAreOld(orders0, Crossed(orders, t.buyOrder, t.sellOrder))
  {
    hide Demand, Supply, OnTheWay;
    PairInReach(orders0, orders, volume, t.buyOrder, t.sellOrder);
  }

  // An order with nothing left had nothing from the start: whatever is used up is removed.
  ghost predicate ZerosAreOld(orders0: map<OrderId, Order>, orders: map<OrderId, Order>) {
    forall id :: id in orders && orders[id].remaining == 0 ==> id in orders0 && orders0[id].remaining == 0
  }

  // When nothing crosses any more, the volume traded is the clearing volume of the original book.
  lemma VolumeClears(orders0: map<OrderId, Order>, orders: map<OrderId, Order>, volume: int)
    requires Uncrossed(orders)
    requires OnTheWay(orders0, orders, volume)
    ensures IsClearingVolume(orders0, volume)
  {
    forall p: int ensures Min(Demand(orders0, p), Supply(orders0, p)) <= volume
    {
      UncrossedEmpties(orders, p);
    }
    var p := 0;
    if orders == orders0 && volume == 0 {
      SumsNonNegative(orders0, p);
    } else {
      var b: int, a: int :| Progress(orders0, orders, volume, b, a);
      p := a;
      SumsNonNegative(orders, p);
    }
    assert Min(Demand(orders0, p), Supply(orders0, p)) == volume;
  }

  // The volume goes to the best prices first: from every price on, it takes all there is or all of itself.
  ghost predicate Allocated(orders0: map<OrderId, Order>, orders: map<OrderId, Order>, volume: int) {
    && (forall p: int :: Demand(orders0, p) - Demand(orders, p) == Min(Demand(orders0, p), volume))
    && (forall p: int :: Supply(orders0, p) - Supply(orders, p) == Min(Supply(orders0, p), volume))
  }

  /** Price priority holds at every moment of the matching, whatever the tie breaks. */
  lemma AllocatedOnTheWay(orders0: map<OrderId, Order>, orders: map<OrderId, Order>, volume: int)
    requires OnTheWay(orders0, orders, volume)
    ensures Allocated(orders0, orders, volume)
  {
    forall p: int
      ensures Demand(orders0, p) - Demand(orders, p) == Min(Demand(orders0, p), volume)
      ensures Supply(orders0, p) - Supply(orders, p) == Min(Supply(orders0, p), volume)
    {
      SumsNonNegative(orders0, p);
      SumsNonNegative(orders, p);
      if !(orders == orders0 && volume == 0) {
        var b: int, a: int :| Progress(orders0, orders, volume, b, a);
        if p > b { SumZero(orders, BidsFrom(p)); }
        if p < a { SumZero(orders, AsksUpTo(p)); }
      }
    }
  }

  lemma Start(orders: map<OrderId, Order>)
    ensures Conserved(orders, orders, []) && OnTheWay(orders, orders, 0) && ZerosAreOld(orders, orders)
  {
  }

  // ---------------------------------------------------------------- runs

  type Pair = (OrderId, OrderId)  // a bid and an ask

  // The book after matching the pairs one after the other, if each was a best pair in its turn.  Ties between
  // equal prices may be broken in any way.
  ghost function Matched(orders: map<OrderId, Order>, pairs: seq<Pair>): Option<map<OrderId, Order>> {
    if pairs == [] then Some(orders)
    else
      var before, last := Matched(orders, pairs[..|pairs| - 1]), pairs[|pairs| - 1];
      if before.None? || !BestPair(before.value, last.0, last.1) then None
      else Some(Crossed(before.value, last.0, last.1))
  }

  function Pairs(trades: seq<Trade>): (r: seq<Pair>)
    ensures |r| == |trades| && forall i :: 0 <= i < |trades| ==> r[i] == (trades[i].buyOrder, trades[i].sellOrder)
  {
    seq(|trades|, i requires 0 <= i < |trades| => (trades[i].buyOrder, trades[i].sellOrder))
  }

  lemma MatchedAppend(orders0: map<OrderId, Order>, pairs: seq<Pair>, orders: map<OrderId, Order>, pair: Pair)
    requires Matched(orders0, pairs) == Some(orders) && BestPair(orders, pair.0, pair.1)
    ensures Matched(orders0, pairs + [pair]) == Some(Crossed(orders, pair.0, pair.1))
  {
    assert (pairs + [pair])[..|pairs|] == pairs;
  }

  // The pairs lead from one book to another that no longer crosses.
  ghost predicate IsOutcome(orders0: map<OrderId, Order>, pairs: seq<Pair>, orders: map<OrderId, Order>) {
    Matched(orders0, pairs) == Some(orders) && Uncrossed(orders)
  }

  lemma CrossWithinLimits(orders0: map<OrderId, Order>, orders: map<OrderId, Order>, trades: seq<Trade>,
                          symbol: Symbol, bid: OrderId, ask: OrderId, q: nat)
    requires BestPair(orders, bid, ask) && Conserved(orders0, orders, trades)
    ensures WithinLimits(orders0, symbol, Trade(symbol, orders[ask].price, q, bid, ask))
  {
  }

  lemma NothingCrosses(orders: map<OrderId, Order>, bid: Option<OrderId>, ask: Option<OrderId>)
    requires IsBest(orders, Buy, bid) && IsBest(orders, Sell, ask)
    requires bid.Some? && ask.Some? ==> orders[bid.value].price < orders[ask.value].price
    ensures Uncrossed(orders)
  {
  }

  // ---------------------------------------------------------------- the engine

  /**
   Runs on every valid book, including books with zero-quantity orders: each round removes at least one order.
   */
  method TryMatch(book: SimOrderBook, symbol: Symbol) returns (trades: seq<Trade>)
    requires book.Valid()
    modifies book
    ensures book.Valid() && Uncrossed(book.orders)
    ensures IsClearingVolume(old(book.orders), Volume(trades))
    ensures Conserved(old(book.orders), book.orders, trades)
    ensures forall t :: t in trades ==> WithinLimits(old(book.orders), symbol, t) && InReach(old(book.orders), t)
    ensures Allocated(old(book.orders), book.orders, Volume(trades))
    ensures IsOutcome(old(book.orders), Pairs(trades), book.orders)
  {
    hide Progress, Conserved, WithinLimits, IsClearingVolume, Uncrossed, ListsOnce, OnTheWay, Executed, TradedBy;
    hide InReach, Allocated, ZerosAreOld, Matched;
    trades := [];
    ghost var orders0 := book.orders;
    Start(orders0);
    NothingMatched(orders0);
    while true
      invariant book.Valid()
      invariant Conserved(orders0, book.orders, trades)
      invariant OnTheWay(orders0, book.orders, Volume(trades))
      invariant forall t :: t in trades ==> WithinLimits(orders0, symbol, t) && InReach(orders0, t)
      invariant ZerosAreOld(orders0, book.orders) && Matched(orders0, Pairs(trades)) == Some(book.orders)
      decreases |book.orders|
    {
      var bidId := book.BestBidOrder();
      var askId := book.BestAskOrder();
      if bidId.None? || askId.None? {
        NothingCrosses(book.orders, bidId, askId);
        break;
      }
      ghost var before := book.orders;
      var bid, ask := book.orders[bidId.value], book.orders[askId.value];
      if bid.price < ask.price {
        NothingCrosses(book.orders, bidId, askId);
        break;
      }

      var quantity := Min(bid.remaining, ask.remaining);
      var trade := Trade(symbol, ask.price, quantity, bidId.value, askId.value);
      CrossOnTheWay(orders0, book.orders, Volume(trades), bidId.value, askId.value);
      CrossConserved(orders0, book.orders, trades, bidId.value, askId.value, trade);
      CrossShrinks(book.orders, bidId.value, askId.value);
      CrossWithinLimits(orders0, book.orders, trades, symbol, bidId.value, askId.value, quantity);
      CrossInReach(orders0, book.orders, trades, Volume(trades), trade);
      MatchedAppend(orders0, Pairs(trades), book.orders, (bidId.value, askId.value));
      assert Pairs(trades + [trade]) == Pairs(trades) + [(bidId.value, askId.value)];
      assert (trades + [trade])[..|trades|] == trades;
      trades := trades + [trade];

      var filledBid := book.Execute(bidId.value, quantity);
      var filledAsk := book.Execute(askId.value, quantity);
      assert book.orders == Crossed(before, bidId.value, askId.value);
    }
    VolumeClears(orders0, book.orders, Volume(trades));
    AllocatedOnTheWay(orders0, book.orders, Volume(trades));
  }

  lemma NothingMatched(orders: map<OrderId, Order>)
    ensures Matched(orders, Pairs([])) == Some(orders)
  {
  }

  // Tie breaking cannot matter: the clearing volume of a book is unique.
  lemma ClearingVolumeUnique(orders: map<OrderId, Order>, v: int, w: int)
    requires IsClearingVolume(orders, v) && IsClearingVolume(orders, w)
    ensures v == w
  {
    var p: int :| Min(Demand(orders, p), Supply(orders, p)) == v;
    var q: int :| Min(Demand(orders, q), Supply(orders, q)) == w;
  }
}
