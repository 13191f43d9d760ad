/** The vocabulary shared by the books, the matching engine and the accounting. */
module Market {

  datatype Side = Buy | Sell

  type Symbol = nat    // the eight symbol bytes read as one integer
  type Price = nat     // in 1/10000 dollar
  type Quantity = nat
  type OrderId = nat

  datatype Order = Order(symbol: Symbol, side: Side, price: Price, remaining: Quantity)

  // One message of the market data feed.
  datatype Message =
    | AddOrder(id: OrderId, side: Side, symbol: Symbol, price: Price, quantity: Quantity)
    | CancelOrder(id: OrderId)
    | ExecuteOrder(id: OrderId, quantity: Quantity)
    | ReplaceOrder(id: OrderId, price: Price, quantity: Quantity)
    | TradeMessage(symbol: Symbol, price: Price, quantity: Quantity, buyOrder: OrderId, sellOrder: OrderId)
}
