/**
 The feed handler's book manager: one order book per symbol and an index from order id to symbol that
 routes the messages that carry no symbol.
 */
module BookManager {
  import opened Basics
  import opened Market
  import opened OrderBook

  // ---------------------------------------------------------------- the manager as a value

  // The order stores by symbol and the routing index.
  datatype State = State(stores: map<Symbol, Store>, route: map<OrderId, Symbol>)

  const EMPTY := State(map[], map[])

  function StoreOf(s: State, symbol: Symbol): Store {
    if symbol in s.stores then s.stores[symbol] else map[]
  }

  function Apply(s: State, m: Message): State {
    match m
    case AddOrder(id, side, symbol, price, quantity) =>
      State(s.stores[symbol := StoreAdd(StoreOf(s, symbol), id, Order(symbol, side, price, quantity))],
            s.route[id := symbol])
    case CancelOrder(id) =>
      if id !in s.route || s.route[id] !in s.stores then s
      else State(s.stores[s.route[id] := s.stores[s.route[id]] - {id}], s.route - {id})
    case ExecuteOrder(id, quantity) =>
      if id !in s.route || s.route[id] !in s.stores then s
      else s.(stores := s.stores[s.route[id] := StoreExecute(s.stores[s.route[id]], id, quantity)])
    case ReplaceOrder(id, price, quantity) =>
      if id !in s.route || s.route[id] !in s.stores then s
      else s.(stores := s.stores[s.route[id] := StoreReplace(s.stores[s.route[id]], id, price, quantity)])
    case TradeMessage(symbol, _, _, _, _) => s.(stores := s.stores[symbol := StoreOf(s, symbol)])
  }

  function ApplyAll(s: State, ms: seq<Message>): State {
    if ms == [] then s else Apply(ApplyAll(s, ms[..|ms| - 1]), ms[|ms| - 1])
  }

  // ---------------------------------------------------------------- one flat map

  // Every live order is routed to the store that holds it.
  ghost predicate Routed(s: State) {
    forall symbol, id :: symbol in s.stores && id in s.stores[symbol] ==>
      id in s.route && s.route[id] == symbol && s.stores[symbol][id].symbol == symbol
  }

  // All live orders of all books in one map.
  ghost function Flat(s: State): Store {
    map id | id in s.route && s.route[id] in s.stores && id in s.stores[s.route[id]] :: s.stores[s.route[id]][id]
  }

  // What a message does to one flat map of live orders, with no routing at all.
  function FlatApply(orders: Store, m: Message): Store {
    match m
    case AddOrder(id, side, symbol, price, quantity) => StoreAdd(orders, id, Order(symbol, side, price, quantity))
    case CancelOrder(id) => orders - {id}
    case ExecuteOrder(id, quantity) => StoreExecute(orders, id, quantity)
    case ReplaceOrder(id, price, quantity) => StoreReplace(orders, id, price, quantity)
    case TradeMessage(_, _, _, _, _) => orders
  }

  function FlatAll(orders: Store, ms: seq<Message>): Store {
    if ms == [] then orders else FlatApply(FlatAll(orders, ms[..|ms| - 1]), ms[|ms| - 1])
  }

  // An Add that reuses an id still live under another symbol.
  predicate Ambiguous(orders: Store, m: Message) {
    m.AddOrder? && m.id in orders && orders[m.id].symbol != m.symbol
  }

  predicate Unambiguous(orders: Store, ms: seq<Message>) {
    ms == [] || (Unambiguous(orders, ms[..|ms| - 1]) && !Ambiguous(FlatAll(orders, ms[..|ms| - 1]), ms[|ms| - 1]))
  }

  // Whatever a message leaves in a store was there before or was just added.
  lemma AfterApply(s: State, m: Message, symbol: Symbol, id: OrderId)
    requires symbol in Apply(s, m).stores && id in Apply(s, m).stores[symbol]
    ensures (symbol in s.stores && id in s.stores[symbol] &&
             s.stores[symbol][id].symbol == Apply(s, m).stores[symbol][id].symbol) ||
            (m.AddOrder? && id == m.id && symbol == m.symbol && Apply(s, m).stores[symbol][id].symbol == symbol)
    ensures m.CancelOrder? && id == m.id && id in s.route ==> s.route[id] != symbol
  {
  }

  // Only an Add sets a route and only a cancel removes one.
  lemma RouteAfter(s: State, m: Message, id: OrderId)
    ensures !((m.AddOrder? || m.CancelOrder?) && m.id == id) ==> (id in Apply(s, m).route <==> id in s.route)
    ensures id in s.route && !((m.AddOrder? || m.CancelOrder?) && m.id == id) ==> Apply(s, m).route[id] == s.route[id]
    ensures m.AddOrder? && m.id == id ==> id in Apply(s, m).route && Apply(s, m).route[id] == m.symbol
  {
  }

  /** Routing stays sound exactly when no Add takes over an id that is live under another symbol. */
  lemma RoutedExactly(s: State, m: Message)
    requires Routed(s)
    ensures Routed(Apply(s, m)) <==> !Ambiguous(Flat(s), m)
  {
    if Ambiguous(Flat(s), m) {
      var s', other := Apply(s, m), Flat(s)[m.id].symbol;
      assert other in s'.stores && m.id in s'.stores[other] && s'.route[m.id] == m.symbol;
    } else {
      hide Apply;
      var s' := Apply(s, m);
      forall symbol, id | symbol in s'.stores && id in s'.stores[symbol]
        ensures id in s'.route && s'.route[id] == symbol && s'.stores[symbol][id].symbol == symbol
      {
        AfterApply(s, m, symbol, id);
        RouteAfter(s, m, id);
        if symbol in s.stores && id in s.stores[symbol] { assert id in Flat(s) && Flat(s)[id].symbol == symbol; }
      }
    }
  }

  function Get(orders: Store, id: OrderId): Option<Order> {
    if id in orders then Some(orders[id]) else None
  }

  // Where the routing index leads for one id.
  function Lookup(s: State, id: OrderId): Option<Order> {
    if id in s.route && s.route[id] in s.stores then Get(s.stores[s.route[id]], id) else None
  }

  // What a message does to a single order.
  function OrderAfter(o: Option<Order>, m: Message, id: OrderId): Option<Order> {
    if m.TradeMessage? || m.id != id then o
    else match m
      case AddOrder(_, side, symbol, price, quantity) =>
        if o.Some? then o else Some(Order(symbol, side, price, quantity))
      case CancelOrder(_) => None
      case ExecuteOrder(_, quantity) =>
        if o.None? || quantity == 0 || quantity > o.value.remaining then o
        else if quantity == o.value.remaining then None
        else Some(o.value.(remaining := o.value.remaining - quantity))
      case ReplaceOrder(_, price, quantity) =>
        if o.None? then o else Some(o.value.(price := price, remaining := quantity))
  }

  lemma FlatApplyOrder(orders: Store, m: Message, id: OrderId)
    ensures Get(FlatApply(orders, m), id) == OrderAfter(Get(orders, id), m, id)
  {
  }

  // The stores of the other symbols and the routing of the other ids stay.
  lemma ApplyOther(s: State, m: Message, id: OrderId)
    requires m.TradeMessage? || m.id != id
    ensures Lookup(Apply(s, m), id) == Lookup(s, id)
  {
  }

  lemma ApplyAdd(s: State, m: Message)
    requires Routed(s) && !Ambiguous(Flat(s), m) && m.AddOrder?
    ensures Lookup(Apply(s, m), m.id) == OrderAfter(Lookup(s, m.id), m, m.id)
  {
    if m.symbol in s.stores && m.id in s.stores[m.symbol] { assert s.route[m.id] == m.symbol; }
    if Lookup(s, m.id).Some? { assert m.id in Flat(s); }
  }

  lemma ApplyRouted(s: State, m: Message)
    requires m.CancelOrder? || m.ExecuteOrder? || m.ReplaceOrder?
    ensures Lookup(Apply(s, m), m.id) == OrderAfter(Lookup(s, m.id), m, m.id)
  {
  }

  lemma ApplyOrder(s: State, m: Message, id: OrderId)
    requires Routed(s) && !Ambiguous(Flat(s), m)
    ensures Lookup(Apply(s, m), id) == OrderAfter(Lookup(s, id), m, id)
  {
    hide Apply, Lookup, Routed, Flat, Ambiguous;
    if m.TradeMessage? || m.id != id {
      ApplyOther(s, m, id);
    } else if m.AddOrder? {
      ApplyAdd(s, m);
    } else {
      ApplyRouted(s, m);
    }
  }

  lemma FlatLookup(s: State, id: OrderId)
    ensures Get(Flat(s), id) == Lookup(s, id)
  {
  }

  /** The routed books behave as one flat map, stale routing entries and all. */
  lemma ApplyIsFlat(s: State, m: Message)
    requires Routed(s) && !Ambiguous(Flat(s), m)
    ensures Routed(Apply(s, m)) && Flat(Apply(s, m)) == FlatApply(Flat(s), m)
  {
    hide Apply, FlatApply, Flat, Routed, Lookup, OrderAfter, Ambiguous;
    RoutedExactly(s, m);
    var f', f := Flat(Apply(s, m)), FlatApply(Flat(s), m);
    forall id: OrderId ensures Get(f', id) == Get(f, id)
    {
      ApplyOrder(s, m, id);
      FlatLookup(s, id);
      FlatLookup(Apply(s, m), id);
      FlatApplyOrder(Flat(s), m, id);
    }
    SameOrders(f', f);
  }

  lemma SameOrders(a: Store, b: Store)
    requires forall id: OrderId :: Get(a, id) == Get(b, id)
    ensures a == b
  {
    forall id: OrderId ensures id in a <==> id in b { assert Get(a, id) == Get(b, id); }
    forall id: OrderId | id in a ensures a[id] == b[id] { assert Get(a, id) == Get(b, id); }
  }

  /** After every unambiguous message stream the union of the books is the flat map. */
  lemma {:induction false} ManagerIsFlat(s: State, ms: seq<Message>)
    requires Routed(s) && Unambiguous(Flat(s), ms)
    ensures Routed(ApplyAll(s, ms)) && Flat(ApplyAll(s, ms)) == FlatAll(Flat(s), ms)
  {
    if ms != [] {
      ManagerIsFlat(s, ms[..|ms| - 1]);
      ApplyIsFlat(ApplyAll(s, ms[..|ms| - 1]), ms[|ms| - 1]);
    }
  }

  // Reusing a live id under another symbol orphans the first order: it is live, yet no cancel reaches it.
  lemma AmbiguousAddOrphans()
    ensures var s := ApplyAll(EMPTY, [AddOrder(1, Buy, 10, 100, 5), AddOrder(1, Buy, 20, 100, 5),
                                      CancelOrder(1), CancelOrder(1)]);
      10 in s.stores && 1 in s.stores[10] && 1 !in s.route
  {
    var a, b, c := AddOrder(1, Buy, 10, 100, 5), AddOrder(1, Buy, 20, 100, 5), CancelOrder(1);
    var s1 := Apply(EMPTY, a);
    var s2 := Apply(s1, b);
    var s3 := Apply(s2, c);
    assert [a, b, c, c][..3] == [a, b, c] && [a, b, c][..2] == [a, b] && [a, b][..1] == [a] && [a][..0] == [];
    assert ApplyAll(EMPTY, [a]) == s1;
    assert ApplyAll(EMPTY, [a, b]) == s2;
    assert ApplyAll(EMPTY, [a, b, c]) == s3;
  }

  // ---------------------------------------------------------------- the manager object

  // The level touched by the message has room for it.
  ghost predicate RoomFor(s: State, m: Message, exact: bool) {
    match m
    case AddOrder(id, side, symbol, price, quantity) =>
      id in StoreOf(s, symbol) || Room(StoreOf(s, symbol), side, price, quantity, exact)
    case ReplaceOrder(id, price, quantity) =>
      Lookup(s, id).None? ||
      Room(s.stores[s.route[id]] - {id}, Lookup(s, id).value.side, price, quantity, exact)
    case _ => true
  }

  datatype Update = NoUpdate | Update(symbol: Symbol, bid: Option<Level>, ask: Option<Level>)

  // The top level of a side as published: always with an order count of one.
  function Top(levels: Levels, side: Side): Option<Level> {
    var p := First(levels, side);
    if p.None? then None else Some(Level(p.value, levels[p.value].total, 1))
  }

  function MakeUpdate(book: Book): Update
    reads book
  {
    Update(book.symbol, Top(book.bids, Buy), Top(book.asks, Sell))
  }

  // The published level of a side is the best one of the live orders, always with a count of one, and with the live
  // quantity at that price if totals are exact.
  ghost predicate Publishes(top: Option<Level>, store: Store, side: Side, exact: bool) {
    && ShowsBest(if top.Some? then Some(top.value.price) else None, store, side)
    && (top.Some? ==> top.value.count == 1 && (exact ==> top.value.total == LiveQuantity(store, side, top.value.price)))
  }

  ghost predicate PublishesBook(update: Update, symbol: Symbol, store: Store, exact: bool) {
    && update.Update? && update.symbol == symbol
    && Publishes(update.bid, store, Buy, exact) && Publishes(update.ask, store, Sell, exact)
  }

  lemma TopPublishes(levels: Levels, store: Store, side: Side, exact: bool)
    requires Aggregates(levels, store, side, false) && Aggregates(levels, store, side, exact)
    ensures Publishes(Top(levels, side), store, side, exact)
  {
    FirstShows(levels, store, side);
    var p := First(levels, side);
    if p.Some? { assert LevelAgrees(levels, store, side, p.value, exact); }
    hide First, Aggregates, LiveQuantity, LiveCount;
  }

  lemma UpdatePublishes(book: Book, exact: bool)
    requires book.Sound(false) && book.Sound(exact)
    ensures PublishesBook(MakeUpdate(book), book.symbol, book.store, exact)
  {
    hide Aggregates, Top, Publishes;
    TopPublishes(book.bids, book.store, Buy, exact);
    TopPublishes(book.asks, book.store, Sell, exact);
  }

  lemma PutTwice(m: map<Symbol, Store>, symbol: Symbol, a: Store, b: Store)
    ensures m[symbol := a][symbol := b] == m[symbol := b]
  {
  }

  lemma PutSame(m: map<Symbol, Store>, symbol: Symbol)
    requires symbol in m
    ensures m[symbol := m[symbol]] == m
  {
  }

  class Manager {
    var books: map<Symbol, Book>
    var route: map<OrderId, Symbol>

    // One separate book per symbol.
    ghost predicate Shaped()
      reads this`books, books.Values
    {
      && (forall symbol :: symbol in books ==> books[symbol].symbol == symbol)
      && (forall a, b :: a in books && b in books && a != b ==> books[a] != books[b])
    }

    // Every book's levels are right, totals included if `exact`.
    ghost predicate Sound(exact: bool)
      reads this`books, books.Values
    {
      Shaped() && forall symbol :: symbol in books ==> books[symbol].Sound(exact)
    }

    ghost function Stores(): map<Symbol, Store>
      reads this`books, books.Values
    {
      map symbol | symbol in books :: books[symbol].store
    }

    ghost function Abs(): State
      reads this, books.Values
    {
      State(Stores(), route)
    }

    constructor ()
      ensures Sound(true) && Sound(false) && Abs() == EMPTY && fresh(books.Values)
    {
      books, route := map[], map[];
    }

    method GetOrCreate(symbol: Symbol) returns (book: Book)
      requires Shaped()
      modifies this`books
      ensures Shaped() && (old(Sound(false)) ==> Sound(false)) && (old(Sound(true)) ==> Sound(true))
      ensures symbol in books && book == books[symbol] && book.symbol == symbol && route == old(route)
      ensures books.Keys == old(books.Keys) + {symbol} && fresh(books.Values - old(books.Values))
      ensures forall other :: other in old(books) ==> books[other] == old(books[other])
      ensures Stores() == old(Stores())[symbol := StoreOf(old(Abs()), symbol)]
    {
      hide Aggregates, Stores;
      if symbol in books {
        BookOf(symbol);
        book := books[symbol];
        PutSame(Stores(), symbol);
      } else {
        hide Shaped, Sound;
        book := new Book(symbol);
        books := books[symbol := book];
        Created(symbol, book);
      }
    }

    // A new empty book changes nothing for the others.
    twostate lemma Created(symbol: Symbol, new book: Book)
      requires old(Shaped()) && symbol !in old(books) && books == old(books)[symbol := book]
      requires book !in old(books.Values) && book.symbol == symbol && book.store == map[]
      requires book.Sound(false) && book.Sound(true)
      requires forall other :: other in old(books) ==> unchanged(old(books)[other])
      ensures Stores() == old(Stores())[symbol := map[]] && symbol !in old(Stores()) && Shaped()
      ensures (old(Sound(false)) ==> Sound(false)) && (old(Sound(true)) ==> Sound(true))
    {
      hide Aggregates;
      forall other, exact | other in old(books)
        ensures books[other].Sound(exact) == old(books[other].Sound(exact))
      {
        assert unchanged(old(books)[other]);
      }
    }

    // When a single book has changed, so has a single store, and soundness rests on that book alone.
    twostate lemma OneBookChanged(symbol: Symbol)
      requires old(Shaped()) && books == old(books) && symbol in books
      requires forall other :: other in books && other != symbol ==> unchanged(books[other])
      ensures Shaped() && Stores() == old(Stores())[symbol := books[symbol].store]
      ensures old(Sound(false)) ==> (Sound(false) <==> books[symbol].Sound(false))
      ensures old(Sound(true)) ==> (Sound(true) <==> books[symbol].Sound(true))
    {
      hide Aggregates;
      forall other, exact | other in books && other != symbol
        ensures books[other].Sound(exact) == old(books[other].Sound(exact))
      {
        assert unchanged(books[other]);
      }
    }

    method OnAdd(id: OrderId, side: Side, symbol: Symbol, price: Price, quantity: Quantity) returns (book: Book)
      requires Shaped()
      modifies this, books.Values
      ensures Shaped() && Abs() == Apply(old(Abs()), AddOrder(id, side, symbol, price, quantity))
      ensures fresh(books.Values - old(books.Values)) && symbol in books && book == books[symbol]
      ensures old(Sound(false)) ==>
        (Sound(false) <==> RoomFor(old(Abs()), AddOrder(id, side, symbol, price, quantity), false))
      ensures old(Sound(true)) ==>
        (Sound(true) <==> RoomFor(old(Abs()), AddOrder(id, side, symbol, price, quantity), true))
    {
      hide Aggregates, Room, StoreAdd, Stores, Sound, Shaped;
      ghost var before := Abs();
      book := GetOrCreate(symbol);
      BookOf(symbol);
      route := route[id := symbol];
      var done := AddTo(book, id, side, price, quantity);
      PutTwice(before.stores, symbol, StoreOf(before, symbol), book.store);
    }

    lemma BookOf(symbol: Symbol)
      requires symbol in books
      ensures symbol in Stores() && Stores()[symbol] == books[symbol].store
    {
    }

    lemma BookAt(symbol: Symbol)
      requires Shaped() && symbol in books
      ensures Sound(false) ==> books[symbol].Sound(false)
      ensures Sound(true) ==> books[symbol].Sound(true)
      ensures symbol in Stores() && Stores()[symbol] == books[symbol].store
      ensures forall other :: other in books && other != symbol ==> books[other] != books[symbol]
    {
      hide Aggregates;
    }

    method AddTo(book: Book, id: OrderId, side: Side, price: Price, quantity: Quantity)
      returns (done: Option<Snapshot>)
      requires Shaped() && book.symbol in books && book == books[book.symbol]
      modifies book
      ensures Shaped() && book.store == StoreAdd(old(book.store), id, Order(book.symbol, side, price, quantity))
      ensures Stores() == old(Stores())[book.symbol := book.store]
      ensures old(Sound(false)) ==>
        (Sound(false) <==> id in old(book.store) || Room(old(book.store), side, price, quantity, false))
      ensures old(Sound(true)) ==>
        (Sound(true) <==> id in old(book.store) || Room(old(book.store), side, price, quantity, true))
    {
      hide Aggregates, Room, StoreAdd;
      done := book.AddOrder(id, side, price, quantity);
      OneBookChanged(book.symbol);
    }

    lemma EmptySound()
      requires Abs() == EMPTY
      ensures Sound(false) && Sound(true)
    {
      assert forall symbol :: symbol in books ==> symbol in Stores();
    }

    // A fill that uses up an order whose level is missing from its book.
    ghost predicate StuckOn(m: Message)
      reads this, books.Values
    {
      m.ExecuteOrder? && m.id in route && route[m.id] in books && books[route[m.id]].Stuck(m.id, m.quantity)
    }

    // Cancel, execute and replace reach the book through the routing index.
    method OnRouted(m: Message) returns (book: Book)
      requires Shaped() && (m.CancelOrder? || m.ExecuteOrder? || m.ReplaceOrder?)
      requires m.id in route && route[m.id] in books
      modifies this, books.Values
      ensures Shaped() && books == old(books) && book == books[old(route)[m.id]]
      ensures Abs() == if old(StuckOn(m)) then UsedUp(old(Abs()), m.id) else Apply(old(Abs()), m)
      ensures old(Sound(false)) ==> !old(StuckOn(m)) && (Sound(false) <==> RoomFor(old(Abs()), m, false))
      ensures old(Sound(true)) ==> (Sound(true) <==> RoomFor(old(Abs()), m, true))
    {
      hide Aggregates, StoreAfter, Apply, RoomFor, RoomIn, Shaped, Stores, Sound;
      ghost var symbol, before := route[m.id], Abs();
      BookAt(symbol);
      RoutedApply(before, m);
      book := books[route[m.id]];
      BookAct(book, m);
      OneBookChanged(symbol);
      if m.CancelOrder? { route := route - {m.id}; }
    }

    /**
     Processes one message, in any state.  The stores and the routing follow `Apply` exactly unless the message
     uses up an order whose level is missing, which then stays with nothing left.  Levels, counts and best prices
     of sound books stay right exactly while 32-bit counts have room, and then no level is missing; the totals stay
     right exactly while they have room too.
     */
    method Process(m: Message) returns (update: Update)
      requires Shaped()
      modifies this, books.Values
      ensures Shaped() && fresh(books.Values - old(books.Values))
      ensures Abs() == if old(StuckOn(m)) then UsedUp(old(Abs()), m.id) else Apply(old(Abs()), m)
      ensures old(Sound(false)) ==> !old(StuckOn(m)) && (Sound(false) <==> RoomFor(old(Abs()), m, false))
      ensures old(Sound(true)) ==> (Sound(true) <==> RoomFor(old(Abs()), m, true))
      ensures update == NoUpdate <==>
              !m.AddOrder? && !m.TradeMessage? && (m.id !in old(route) || old(route)[m.id] !in old(books))
      ensures update != NoUpdate ==>
              var symbol := if m.AddOrder? || m.TradeMessage? then m.symbol else old(route)[m.id];
              && symbol in books && update == MakeUpdate(books[symbol]) && symbol in Stores()
              && (Sound(false) ==> PublishesBook(update, symbol, Stores()[symbol], false))
              && (Sound(false) && Sound(true) ==> PublishesBook(update, symbol, Stores()[symbol], true))
    {
      hide Aggregates, Room, StoreAdd, StoreExecute, StoreReplace, First, Top, PublishesBook;
      var book;
      if m.AddOrder? {
        book := OnAdd(m.id, m.side, m.symbol, m.price, m.quantity);
      } else if m.TradeMessage? {
        book := GetOrCreate(m.symbol);
      } else {
        if m.id !in route || route[m.id] !in books {
          return NoUpdate;
        }
        book := OnRouted(m);
      }
      update := MakeUpdate(book);
      ghost var symbol := if m.AddOrder? || m.TradeMessage? then m.symbol else old(route)[m.id];
      BookAt(symbol);
      BookShows(symbol);
    }

    // What a sound manager publishes for a symbol.
    lemma BookShows(symbol: Symbol)
      requires Shaped() && symbol in books
      ensures Sound(false) ==> PublishesBook(MakeUpdate(books[symbol]), symbol, books[symbol].store, false)
      ensures Sound(false) && Sound(true) ==>
        PublishesBook(MakeUpdate(books[symbol]), symbol, books[symbol].store, true)
    {
      hide Aggregates, PublishesBook;
      if Sound(false) { UpdatePublishes(books[symbol], false); }
      if Sound(false) && Sound(true) { UpdatePublishes(books[symbol], true); }
    }
  }

  // The order is left in place with nothing remaining.
  function UsedUp(s: State, id: OrderId): State {
    if id !in s.route || s.route[id] !in s.stores || id !in s.stores[s.route[id]] then s
    else
      var symbol := s.route[id];
      s.(stores := s.stores[symbol := s.stores[symbol][id := s.stores[symbol][id].(remaining := 0)]])
  }

  // What a routed message does to the store of its book.
  function StoreAfter(store: Store, m: Message): Store
    requires m.CancelOrder? || m.ExecuteOrder? || m.ReplaceOrder?
  {
    match m
    case CancelOrder(id) => store - {id}
    case ExecuteOrder(id, quantity) => StoreExecute(store, id, quantity)
    case ReplaceOrder(id, price, quantity) => StoreReplace(store, id, price, quantity)
  }

  ghost predicate RoomIn(store: Store, m: Message, exact: bool) {
    m.ReplaceOrder? && m.id in store ==> Room(store - {m.id}, store[m.id].side, m.price, m.quantity, exact)
  }

  // On the level of values: a routed message changes one store, and only a cancel the routing.
  lemma RoutedApply(s: State, m: Message)
    requires (m.CancelOrder? || m.ExecuteOrder? || m.ReplaceOrder?) && m.id in s.route && s.route[m.id] in s.stores
    ensures var symbol := s.route[m.id];
      && Apply(s, m) == State(s.stores[symbol := StoreAfter(s.stores[symbol], m)],
                              if m.CancelOrder? then s.route - {m.id} else s.route)
      && forall exact :: RoomFor(s, m, exact) <==> RoomIn(s.stores[symbol], m, exact)
  {
    hide Room, StoreExecute, StoreReplace;
  }

  method BookAct(book: Book, m: Message)
    requires m.CancelOrder? || m.ExecuteOrder? || m.ReplaceOrder?
    modifies book
    ensures var stuck := m.ExecuteOrder? && old(book.Stuck(m.id, m.quantity));
      && book.store == (if stuck then old(book.store)[m.id := old(book.store)[m.id].(remaining := 0)]
                        else StoreAfter(old(book.store), m))
      && (old(book.Sound(false)) ==> !stuck && (book.Sound(false) <==> RoomIn(old(book.store), m, false)))
    ensures old(book.Sound(true)) ==> (book.Sound(true) <==> RoomIn(old(book.store), m, true))
  {
    hide Aggregates, Room, StoreExecute, StoreReplace;
    match m {
      case CancelOrder(id) =>
        var done := book.CancelOrder(id);
      case ExecuteOrder(id, quantity) =>
        var done := book.ExecuteOrder(id, quantity);
      case ReplaceOrder(id, price, quantity) =>
        var done := book.ReplaceOrder(id, price, quantity);
    }
  }

  // ---------------------------------------------------------------- how many orders there can be

  // Every store is no larger than the number of messages so far.
  lemma {:induction false} StoreSize(ms: seq<Message>, symbol: Symbol)
    ensures |StoreOf(ApplyAll(EMPTY, ms), symbol)| <= |ms|
  {
    if ms != [] {
      var before, m := ApplyAll(EMPTY, ms[..|ms| - 1]), ms[|ms| - 1];
      StoreSize(ms[..|ms| - 1], symbol);
      StoreGrows(before, m, symbol);
    }
  }

  lemma StoreGrows(s: State, m: Message, symbol: Symbol)
    ensures |StoreOf(Apply(s, m), symbol)| <= |StoreOf(s, symbol)| + 1
  {
    var a, b := StoreOf(s, symbol), StoreOf(Apply(s, m), symbol);
    if !m.TradeMessage? {
      assert b.Keys <= a.Keys + {m.id};
      SubsetSize(b.Keys, a.Keys + {m.id});
    }
  }

  lemma {:induction false} SubsetSize(a: set<OrderId>, b: set<OrderId>)
    requires a <= b
    ensures |a| <= |b|
  {
    if a != {} {
      var x :| x in a;
      SubsetSize(a - {x}, b - {x});
    }
  }

  /** No 32-bit count can wrap in a stream of fewer than 2^32 messages. */
  lemma ShortStreamsHaveRoom(ms: seq<Message>, k: nat)
    requires k < |ms| < U32
    ensures RoomFor(ApplyAll(EMPTY, ms[..k]), ms[k], false)
  {
    var s, m := ApplyAll(EMPTY, ms[..k]), ms[k];
    if m.AddOrder? {
      StoreSize(ms[..k], m.symbol);
      CountAtMostSize(StoreOf(s, m.symbol), m.side, m.price);
    } else if m.ReplaceOrder? && Lookup(s, m.id).Some? {
      var store := s.stores[s.route[m.id]];
      StoreSize(ms[..k], s.route[m.id]);
      CountAtMostSize(store - {m.id}, Lookup(s, m.id).value.side, m.price);
      SubsetSize((store - {m.id}).Keys, store.Keys);
    }
  }
}
