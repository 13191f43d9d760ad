/**
 The simulator's stream producer.  Each call draws a message, encodes it and, if it was encoded, applies
 it to the simulator's own book.  Random draws are parameters.
 */
module OrderGenerator {
  import opened Basics
  import opened Market
  import opened SimBook
  import opened OrderBook
  import opened BookManager
  import Wire

  datatype Kind = DrawAdd | DrawCancel | DrawExecute | DrawReplace | DrawTrade

  // One set of random draws.  `pick` indexes the live ids; `bid` and `ask` are the picks by side.
  datatype Draw = Draw(kind: Kind, symbol: Symbol, side: Side, price: Price, quantity: Quantity,
                       pick: nat, portion: Quantity, bid: Option<OrderId>, ask: Option<OrderId>)

  // What the simulator does to its own book for a message it has sent.
  function SimApply(orders: Store, m: Message): Store {
    match m
    case AddOrder(id, side, symbol, price, quantity) =>
      if id in orders then orders else orders[id := Order(symbol, side, price, quantity)]
    case CancelOrder(id) => orders - {id}
    case ExecuteOrder(id, quantity) => Executed(orders, id, quantity)
    case ReplaceOrder(id, price, quantity) => Replaced(orders, id, price, quantity)
    case TradeMessage(_, _, quantity, buyOrder, sellOrder) =>
      Executed(Executed(orders, buyOrder, quantity), sellOrder, quantity)
  }

  // The message about the live order `id` that a draw asks for.
  function LiveMessage(d: Draw, id: OrderId): Message {
    match d.kind
    case DrawCancel => CancelOrder(id)
    case DrawExecute => ExecuteOrder(id, d.portion)
    case _ => ReplaceOrder(id, d.price, d.quantity)
  }

  // The kind of message a draw leads to.
  predicate IsDrawn(d: Draw, empty: bool, m: Message) {
    if empty || d.kind == DrawAdd || (d.kind == DrawTrade && (d.bid.None? || d.ask.None?)) then m.AddOrder?
    else match d.kind
      case DrawTrade => m.TradeMessage? && m.buyOrder == d.bid.value && m.sellOrder == d.ask.value
      case DrawCancel => m.CancelOrder?
      case DrawExecute => m.ExecuteOrder? && m.quantity == d.portion
      case DrawReplace => m.ReplaceOrder? && m.price == d.price && m.quantity == d.quantity
      case DrawAdd => m.AddOrder?
  }

  // The messages the generator can send in a given state: fresh ids, live targets, sensible quantities.
  ghost predicate Sendable(orders: Store, nextId: OrderId, m: Message) {
    match m
    case AddOrder(id, _, _, _, quantity) => id == nextId && quantity >= 1
    case CancelOrder(id) => id in orders
    case ExecuteOrder(id, quantity) => id in orders && 1 <= quantity <= orders[id].remaining
    case ReplaceOrder(id, _, quantity) => id in orders && quantity >= 1
    case TradeMessage(_, _, quantity, buyOrder, sellOrder) =>
      && buyOrder in orders && sellOrder in orders && buyOrder != sellOrder
      && quantity == Min(orders[buyOrder].remaining, orders[sellOrder].remaining)
  }

  // All ids are below the next one and every live order has something left.
  ghost predicate Sound(orders: Store, nextId: OrderId) {
    forall id :: id in orders ==> id < nextId && orders[id].remaining >= 1
  }

  /**
   Replica agreement, step by step: from equal books, the handler's flat map follows the simulator's book
   exactly when the message is not a Trade, which the simulator executes and the handler does not.
   */
  lemma StepAgrees(orders: Store, nextId: OrderId, m: Message)
    requires Sound(orders, nextId) && Sendable(orders, nextId, m)
    ensures FlatApply(orders, m) == SimApply(orders, m) <==> !m.TradeMessage?
    ensures Sound(SimApply(orders, m), if m.AddOrder? then nextId + 1 else nextId)
  {
    if m.TradeMessage? {
      assert Removed(orders, m) in orders && Removed(orders, m) !in SimApply(orders, m);
    }
  }

  // The order a Trade uses up at the simulator.
  function Removed(orders: Store, m: Message): OrderId
    requires m.TradeMessage? && m.buyOrder in orders && m.sellOrder in orders
  {
    if orders[m.buyOrder].remaining <= orders[m.sellOrder].remaining then m.buyOrder else m.sellOrder
  }

  // The handler knows every live order of the simulator, with no less remaining, and no id from the future.
  ghost predicate Behind(flat: Store, orders: Store, nextId: OrderId) {
    && (forall id :: id in orders ==> id in flat && flat[id].remaining >= orders[id].remaining)
    && (forall id :: id in flat ==> id < nextId)
  }

  // One message keeps the handler behind; an order only the handler still has stays with it for ever, and
  // every Trade leaves it one more.
  lemma StepBehind(flat: Store, orders: Store, nextId: OrderId, m: Message)
    requires Sound(orders, nextId) && Sendable(orders, nextId, m) && Behind(flat, orders, nextId)
    ensures !Ambiguous(flat, m)
    ensures Behind(FlatApply(flat, m), SimApply(orders, m), if m.AddOrder? then nextId + 1 else nextId)
    ensures forall id :: id in flat && id !in orders ==> id in FlatApply(flat, m) && id !in SimApply(orders, m)
    ensures m.TradeMessage? ==> Removed(orders, m) in FlatApply(flat, m) && Removed(orders, m) !in SimApply(orders, m)
  {
  }

  predicate NoTrade(stream: seq<Message>) {
    forall i :: 0 <= i < |stream| ==> !stream[i].TradeMessage?
  }

  ghost predicate Stale(flat: Store, orders: Store) {
    exists id :: id in flat && id !in orders
  }

  // What a handler that has applied the stream holds, compared with the simulator's book.
  ghost predicate Replayed(stream: seq<Message>, orders: Store, nextId: OrderId) {
    var flat := FlatAll(map[], stream);
    && Unambiguous(map[], stream) && Behind(flat, orders, nextId)
    && if NoTrade(stream) then flat == orders else Stale(flat, orders)
  }

  lemma ReplayStep(stream: seq<Message>, orders: Store, nextId: OrderId, m: Message)
    requires Sound(orders, nextId) && Sendable(orders, nextId, m) && Replayed(stream, orders, nextId)
    ensures Replayed(stream + [m], SimApply(orders, m), if m.AddOrder? then nextId + 1 else nextId)
  {
    hide SimApply, FlatApply, Behind, Sendable;
    var more, flat := stream + [m], FlatAll(map[], stream);
    assert more[..|stream|] == stream && more[|stream|] == m;
    StepAgrees(orders, nextId, m);
    StepBehind(flat, orders, nextId, m);
    if NoTrade(more) {
      assert forall i :: 0 <= i < |stream| ==> stream[i] == more[i];
    } else if !m.TradeMessage? {
      var i :| 0 <= i < |more| && more[i].TradeMessage?;
      assert stream[i] == more[i];
    }
  }

  class Generator {
    const book: SimOrderBook
    const minQty: Quantity
    var nextId: OrderId
    var totalGenerated: nat
    ghost var stream: seq<Message>  // everything sent so far

    // A handler that applied the stream holds exactly this book, or, after a Trade, an order more.
    ghost predicate Valid()
      reads this, book
    {
      && book.Valid() && minQty >= 1 && Sound(book.orders, nextId) && totalGenerated == |stream|
      && Replayed(stream, book.orders, nextId)
    }

    constructor (book: SimOrderBook, minQty: Quantity)
      requires minQty >= 1 && book.Valid() && book.orders == map[]
      ensures Valid() && stream == [] && this.book == book && this.minQty == minQty && nextId == 1
    {
      this.book, this.minQty := book, minQty;
      nextId, totalGenerated, stream := 1, 0, [];
    }

    // Records a message that was sent and already applied to the book.
    ghost method Sent(m: Message, before: Store, idBefore: OrderId)
      requires book.Valid() && minQty >= 1 && totalGenerated == |stream| + 1
      requires Sound(before, idBefore) && Sendable(before, idBefore, m) && book.orders == SimApply(before, m)
      requires nextId == if m.AddOrder? then idBefore + 1 else idBefore
      requires Replayed(stream, before, idBefore)
      modifies this`stream
      ensures Valid() && stream == old(stream) + [m]
    {
      StepAgrees(before, idBefore, m);
      ReplayStep(stream, before, idBefore, m);
      stream := stream + [m];
    }

    method GenerateAdd(d: Draw, bufferSize: nat) returns (m: Option<Message>)
      requires Valid() && d.quantity >= minQty
      modifies this, book
      ensures Valid()
      ensures bufferSize < 36 ==> m == None && stream == old(stream) && book.orders == old(book.orders)
      ensures bufferSize >= 36 ==>
        && m == Some(AddOrder(old(nextId), d.side, d.symbol, d.price, d.quantity))
        && stream == old(stream) + [m.value]
      ensures m.Some? ==> book.orders == SimApply(old(book.orders), m.value)
      ensures nextId == old(nextId) + 1
    {
      ghost var before := book.orders;
      var msg := AddOrder(nextId, d.side, d.symbol, d.price, d.quantity);
      nextId := nextId + 1;
      if Wire.WireSize(msg) > bufferSize {
        return None;
      }
      var ok := book.Add(msg.id, Order(d.symbol, d.side, d.price, d.quantity));
      totalGenerated := totalGenerated + 1;
      Sent(msg, before, msg.id);
      return Some(msg);
    }

    // A message about one live order, picked by its position in the id list.
    method GenerateOnLive(d: Draw, bufferSize: nat) returns (m: Option<Message>)
      requires Valid() && (d.kind == DrawCancel || d.kind == DrawExecute || d.kind == DrawReplace)
      requires d.pick < |book.orderIds| && d.quantity >= minQty
      requires 1 <= d.portion <= PickedRemaining(d.pick)
      modifies this, book
      ensures Valid() && nextId == old(nextId)
      ensures m == var msg := LiveMessage(d, old(book.orderIds)[d.pick]);
                   if Wire.WireSize(msg) > bufferSize then None else Some(msg)
      ensures m == None ==> stream == old(stream) && book.orders == old(book.orders)
      ensures m.Some? ==> stream == old(stream) + [m.value] && book.orders == SimApply(old(book.orders), m.value)
      ensures d.kind == DrawCancel ==>
        m == if bufferSize >= 19 then Some(CancelOrder(old(book.orderIds)[d.pick])) else None
      ensures d.kind == DrawExecute ==>
        m == if bufferSize >= 23 then Some(ExecuteOrder(old(book.orderIds)[d.pick], d.portion)) else None
      ensures d.kind == DrawReplace ==>
        m == if bufferSize >= 27 then Some(ReplaceOrder(old(book.orderIds)[d.pick], d.price, d.quantity)) else None
    {
      ghost var before := book.orders;
      var id := book.orderIds[d.pick];
      assert id in book.orderIds;
      var msg := LiveMessage(d, id);
      if Wire.WireSize(msg) > bufferSize {
        return None;
      }
      if msg.CancelOrder? {
        var done := book.Cancel(id);
      } else if msg.ExecuteOrder? {
        var done := book.Execute(id, msg.quantity);
      } else {
        var ok := book.Replace(id, msg.price, msg.quantity);
      }
      totalGenerated := totalGenerated + 1;
      Sent(msg, before, nextId);
      return Some(msg);
    }

    ghost function PickedRemaining(pick: nat): nat
      requires pick < |book.orderIds|
      reads this, book
    {
      var id := book.orderIds[pick];
      if id in book.orders then book.orders[id].remaining else 0
    }

    method GenerateTrade(bid: OrderId, ask: OrderId, bufferSize: nat) returns (m: Option<Message>)
      requires Valid() && bid in book.orders && ask in book.orders
      requires book.orders[bid].side == Buy && book.orders[ask].side == Sell
      modifies this, book
      ensures Valid() && nextId == old(nextId)
      ensures bufferSize < 43 ==> m == None && stream == old(stream) && book.orders == old(book.orders)
      ensures bufferSize >= 43 ==>
        var b, a := old(book.orders)[bid], old(book.orders)[ask];
        && m == Some(TradeMessage(b.symbol, a.price, Min(b.remaining, a.remaining), bid, ask))
        && stream == old(stream) + [m.value] && book.orders == SimApply(old(book.orders), m.value)
        && (Proper(old(book.orders), m.value) <==> b.symbol == a.symbol && a.price <= b.price)
    {
      ghost var before := book.orders;
      var bidOrder, askOrder := book.orders[bid], book.orders[ask];
      var quantity: Quantity := Max(1, Min(bidOrder.remaining, askOrder.remaining));
      var msg := TradeMessage(bidOrder.symbol, askOrder.price, quantity, bid, ask);
      if Wire.WireSize(msg) > bufferSize {
        return None;
      }
      var b := book.Execute(bid, quantity);
      var a := book.Execute(ask, quantity);
      totalGenerated := totalGenerated + 1;
      Sent(msg, before, nextId);
      return Some(msg);
    }

    // A draw that the random source could make in the current state.
    ghost predicate Possible(d: Draw)
      reads this, book
    {
      && d.quantity >= minQty
      && (book.orderIds != [] ==> d.pick < |book.orderIds| && 1 <= d.portion <= PickedRemaining(d.pick))
      && (d.bid.Some? ==> d.bid.value in book.orders && book.orders[d.bid.value].side == Buy)
      && (d.ask.Some? ==> d.ask.value in book.orders && book.orders[d.ask.value].side == Sell)
    }

    /** One message.  An empty book forces an Add, and so does a Trade without orders on both sides. */
    method Next(d: Draw, bufferSize: nat) returns (m: Option<Message>)
      requires Valid() && Possible(d)
      modifies this, book
      ensures Valid()
      ensures stream == if m.Some? then old(stream) + [m.value] else old(stream)
      ensures book.orders == if m.Some? then SimApply(old(book.orders), m.value) else old(book.orders)
      ensures m.Some? ==> IsDrawn(d, old(book.orders) == map[], m.value)
      ensures bufferSize >= 43 ==> m.Some?
    {
      assert book.orders != map[] ==> book.orderIds != [] by {
        if book.orders != map[] { var id :| id in book.orders; assert id in book.orderIds; }
      }
      if d.kind == DrawAdd || book.orders == map[] {
        m := GenerateAdd(d, bufferSize);
      } else if d.kind == DrawTrade {
        if d.bid.Some? && d.ask.Some? {
          m := GenerateTrade(d.bid.value, d.ask.value, bufferSize);
        } else {
          m := GenerateAdd(d, bufferSize);
        }
      } else {
        m := GenerateOnLive(d, bufferSize);
      }
    }
  }

  /**
   A handler fed a generated stream holds exactly the simulator's live orders, book by book, if and only if the
   stream has no Trade.
   */
  lemma ReplicaAgrees(g: Generator)
    requires g.Valid()
    ensures Routed(ApplyAll(EMPTY, g.stream))
    ensures Flat(ApplyAll(EMPTY, g.stream)) == g.book.orders <==> NoTrade(g.stream)
    ensures ListsOnce(g.book.orderIds, g.book.orders)
  {
    assert Flat(EMPTY) == map[];
    ManagerIsFlat(EMPTY, g.stream);
  }

  // Three messages after which the simulator's book is empty and the handler's is not.
  method TradeDiverges() returns (g: Generator)
    ensures g.Valid() && |g.stream| == 3 && g.book.orders == map[]
    ensures Flat(ApplyAll(EMPTY, g.stream)) != g.book.orders
  {
    hide Replayed, Sound, ListsOnce, Routed, Flat, ApplyAll;
    var book := new SimOrderBook();
    g := new Generator(book, 1);
    var bid := Draw(DrawAdd, 7, Buy, 100, 5, 0, 0, None, None);
    var m := g.GenerateAdd(bid, 1400);
    m := g.GenerateAdd(bid.(side := Sell), 1400);
    m := g.GenerateTrade(1, 2, 1400);
    assert g.stream[2].TradeMessage?;
    ReplicaAgrees(g);
  }

  // The orders of a Trade are of its symbol, and its price respects both limits.
  predicate Proper(orders: Store, m: Message)
    requires m.TradeMessage? && m.buyOrder in orders && m.sellOrder in orders
  {
    var b, a := orders[m.buyOrder], orders[m.sellOrder];
    b.symbol == m.symbol == a.symbol && a.price <= m.price <= b.price
  }
}
