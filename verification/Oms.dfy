/**
 The order management system: the table of legal order state changes, the journal with its per-order index,
 and the manager that drives both.
 */
module Oms {
  import opened Basics
  import opened Market

  datatype OrderState = New | Sent | Acked | PartialFill | Filled | Cancelled | Rejected

  // The table the state machine is built with.
  predicate IsValid(from: OrderState, to: OrderState) {
    match from
    case New => to == Sent
    case Sent => to == Acked || to == Rejected
    case Acked => to == PartialFill || to == Filled || to == Cancelled
    case PartialFill => to == PartialFill || to == Filled || to == Cancelled
    case _ => false
  }

  // A second table, which the manager does not use.
  predicate IsValidElsewhere(from: OrderState, to: OrderState) {
    match from
    case New => to == Sent || to == Cancelled || to == Rejected
    case Sent => to == Acked || to == Cancelled || to == Rejected
    case Acked => to == PartialFill || to == Filled || to == Cancelled
    case PartialFill => to == PartialFill || to == Filled || to == Cancelled
    case _ => false
  }

  // The second table allows everything the first one does and, beyond it, exactly three steps.
  lemma TablesDiffer(from: OrderState, to: OrderState)
    ensures IsValid(from, to) ==> IsValidElsewhere(from, to)
    ensures IsValidElsewhere(from, to) && !IsValid(from, to) <==>
            (from == New && (to == Cancelled || to == Rejected)) || (from == Sent && to == Cancelled)
  {
  }

  predicate Terminal(s: OrderState) {
    s == Filled || s == Cancelled || s == Rejected
  }

  datatype Event = Event(id: OrderId, from: OrderState, to: OrderState, timestamp: nat, reason: string)

  datatype Entry = Entry(number: nat, event: Event)

  // ---------------------------------------------------------------- the journal

  // The log filtered by order, and the positions the index should hold for it.
  function HistoryOf(entries: seq<Entry>, id: OrderId): seq<Entry> {
    if entries == [] then []
    else
      var e := entries[|entries| - 1];
      HistoryOf(entries[..|entries| - 1], id) + if e.event.id == id then [e] else []
  }

  function PositionsOf(entries: seq<Entry>, id: OrderId): (r: seq<nat>)
    ensures forall i :: 0 <= i < |r| ==> r[i] < |entries|
  {
    if entries == [] then []
    else
      var n := |entries| - 1;
      PositionsOf(entries[..n], id) + if entries[n].event.id == id then [n] else []
  }

  // Looking up the indexed positions gives the filtered log.
  lemma {:induction false} PositionsGiveHistory(entries: seq<Entry>, id: OrderId)
    ensures |PositionsOf(entries, id)| == |HistoryOf(entries, id)|
    ensures forall i :: 0 <= i < |PositionsOf(entries, id)| ==>
      entries[PositionsOf(entries, id)[i]] == HistoryOf(entries, id)[i]
  {
    if entries != [] { PositionsGiveHistory(entries[..|entries| - 1], id); }
  }

  function Lookup(index: map<OrderId, seq<nat>>, id: OrderId): seq<nat> {
    if id in index then index[id] else []
  }

  ghost predicate Indexed(index: map<OrderId, seq<nat>>, entries: seq<Entry>) {
    forall id: OrderId :: Lookup(index, id) == PositionsOf(entries, id)
  }

  lemma IndexAppend(index: map<OrderId, seq<nat>>, entries: seq<Entry>, e: Entry)
    requires Indexed(index, entries)
    ensures Indexed(index[e.event.id := Lookup(index, e.event.id) + [|entries|]], entries + [e])
  {
    var index', entries' := index[e.event.id := Lookup(index, e.event.id) + [|entries|]], entries + [e];
    assert entries'[..|entries|] == entries;
    forall id: OrderId ensures Lookup(index', id) == PositionsOf(entries', id)
    {
      assert Lookup(index, id) == PositionsOf(entries, id);
    }
  }

  // The log with one more event, numbered next.
  function Logged(entries: seq<Entry>, event: Event): seq<Entry> {
    entries + [Entry(|entries| + 1, event)]
  }

  class Journal {
    var entries: seq<Entry>
    var index: map<OrderId, seq<nat>>
    var nextSequence: nat

    ghost predicate Valid()
      reads this
    {
      && nextSequence == |entries| + 1
      && (forall i :: 0 <= i < |entries| ==> entries[i].number == i + 1)
      && Indexed(index, entries)
    }

    constructor ()
      ensures Valid() && entries == []
    {
      entries, index, nextSequence := [], map[], 1;
    }

    method Append(event: Event) returns (number: nat)
      requires Valid()
      modifies this
      ensures Valid() && number == |entries| && entries == Logged(old(entries), event)
    {
      number := nextSequence;
      nextSequence := nextSequence + 1;
      var position := |entries|;
      IndexAppend(index, entries, Entry(number, event));
      entries := entries + [Entry(number, event)];
      index := index[event.id := Lookup(index, event.id) + [position]];
    }

    /** The index is only a fast form of filtering the log. */
    method GetHistory(id: OrderId) returns (result: seq<Entry>)
      requires Valid()
      ensures result == HistoryOf(entries, id)
    {
      PositionsGiveHistory(entries, id);
      assert Lookup(index, id) == PositionsOf(entries, id);
      result := [];
      if id !in index {
        return;
      }
      var found := index[id];
      for k := 0 to |found|
        invariant |result| == k && forall i :: 0 <= i < k ==> result[i] == HistoryOf(entries, id)[i]
      {
        result := result + [entries[found[k]]];
      }
    }

    method GetRecent(n: nat) returns (result: seq<Entry>)
      requires Valid()
      ensures |result| == Min(n, |entries|) && result == entries[|entries| - |result|..]
    {
      if n == 0 || entries == [] { return []; }
      var count := if n <= |entries| then n else |entries|;
      result := entries[|entries| - count..];
    }
  }

  // ---------------------------------------------------------------- the life of an order

  // The events lead from New to `state`, each starting where the last one ended, by allowed steps only.
  predicate LeadsTo(history: seq<Entry>, state: OrderState) {
    if history == [] then state == New
    else
      var e := history[|history| - 1].event;
      e.to == state && IsValid(e.from, e.to) && LeadsTo(history[..|history| - 1], e.from)
  }

  // Nothing is journalled for an order after a terminal state.
  lemma {:induction false} NothingAfterTerminal(history: seq<Entry>, state: OrderState, i: nat)
    requires LeadsTo(history, state) && i < |history| && Terminal(history[i].event.to)
    ensures i == |history| - 1 && Terminal(state)
    decreases |history|
  {
    if i < |history| - 1 {
      NothingAfterTerminal(history[..|history| - 1], history[|history| - 1].event.from, i);
    }
  }

  lemma {:induction false} StepsAllowed(history: seq<Entry>, state: OrderState, i: nat)
    requires LeadsTo(history, state) && i < |history|
    ensures IsValid(history[i].event.from, history[i].event.to)
    ensures history[i].event.from == if i == 0 then New else history[i - 1].event.to
    ensures i == |history| - 1 ==> history[i].event.to == state
    decreases |history|
  {
    if i < |history| - 1 {
      StepsAllowed(history[..|history| - 1], history[|history| - 1].event.from, i);
    } else if i > 0 {
      StepsAllowed(history[..i], history[i].event.from, i - 1);
    }
  }

  datatype OrderType = MarketOrder | LimitOrder

  datatype OmsOrder = OmsOrder(symbol: Symbol, side: Side, kind: OrderType, price: Price, quantity: Quantity,
                               filled: Quantity, state: OrderState,
                               created: nat, sent: nat, acked: nat, lastFill: nat)

  datatype Outcome = Success(id: OrderId) | ZeroQuantity | NotFound | InvalidTransition

  predicate Full(o: OmsOrder) {
    o.filled >= o.quantity
  }

  // An order agrees with its history, and a partly filled order is not yet full.
  ghost predicate OrderOk(o: OmsOrder, history: seq<Entry>) {
    && 0 < o.quantity < U32 && o.filled < U32 && o.state != New
    && LeadsTo(history, o.state)
    && (o.state == PartialFill ==> !Full(o))
  }

  // A further fill report on a filled order that makes the 32-bit sum wrap below the order quantity.
  predicate WrapsFilled(o: OmsOrder, fill: Quantity) {
    o.state == Filled && o.filled + fill >= U32 && o.filled + fill - U32 < o.quantity
  }

  // Every order agrees with its part of the log, and the log mentions no other order.
  ghost predicate Consistent(orders: map<OrderId, OmsOrder>, nextId: OrderId, entries: seq<Entry>) {
    && (forall id :: id in orders ==> id < nextId && OrderOk(orders[id], HistoryOf(entries, id)))
    && (forall id: OrderId :: id !in orders ==> HistoryOf(entries, id) == [])
  }

  lemma HistoryAppend(entries: seq<Entry>, e: Entry, id: OrderId)
    ensures HistoryOf(entries + [e], id) ==
            if id == e.event.id then HistoryOf(entries, id) + [e] else HistoryOf(entries, id)
  {
    assert (entries + [e])[..|entries|] == entries;
  }

  lemma LeadsOn(history: seq<Entry>, state: OrderState, e: Entry)
    requires LeadsTo(history, state) && e.event.from == state && IsValid(state, e.event.to)
    ensures LeadsTo(history + [e], e.event.to)
  {
    assert (history + [e])[..|history|] == history;
  }

  // A journalled change of one order, old or new, keeps everything consistent.
  lemma Journalled(orders: map<OrderId, OmsOrder>, nextId: OrderId, entries: seq<Entry>, id: OrderId, o: OmsOrder,
                   e: Entry)
    requires Consistent(orders, nextId, entries) && id <= nextId
    requires e.event.id == id && e.event.to == o.state && IsValid(e.event.from, o.state)
    requires e.event.from == if id in orders then orders[id].state else New
    requires 0 < o.quantity < U32 && o.filled < U32 && (o.state == PartialFill ==> !Full(o))
    ensures Consistent(orders[id := o], if id == nextId then nextId + 1 else nextId, entries + [e])
  {
    hide HistoryOf, LeadsTo;
    forall x: OrderId
      ensures HistoryOf(entries + [e], x) == if x == id then HistoryOf(entries, x) + [e] else HistoryOf(entries, x)
    {
      HistoryAppend(entries, e, x);
    }
    StartsAtNew();
    LeadsOn(HistoryOf(entries, id), e.event.from, e);
  }

  lemma StartsAtNew()
    ensures LeadsTo([], New)
  {
  }

  // A change that leaves state and quantity alone needs no journal entry.
  lemma Unjournalled(orders: map<OrderId, OmsOrder>, nextId: OrderId, entries: seq<Entry>, id: OrderId, o: OmsOrder)
    requires Consistent(orders, nextId, entries) && id in orders && o.filled < U32
    requires o.state == orders[id].state && o.quantity == orders[id].quantity && (o.state == PartialFill ==> !Full(o))
    ensures Consistent(orders[id := o], nextId, entries)
  {
    hide HistoryOf, LeadsTo;
  }

  // ---------------------------------------------------------------- what a fill report does

  function FillTarget(o: OmsOrder, fill: Quantity): OrderState {
    if (o.filled + fill) % U32 >= o.quantity then Filled else PartialFill
  }

  // The filled quantity grows in any case, the state follows if the table allows it.
  function AfterFill(o: OmsOrder, fill: Quantity, stamp: nat): OmsOrder {
    o.(filled := (o.filled + fill) % U32, lastFill := stamp,
       state := if IsValid(o.state, FillTarget(o, fill)) then FillTarget(o, fill) else o.state)
  }

  lemma FillConsistent(orders: map<OrderId, OmsOrder>, nextId: OrderId, entries: seq<Entry>, id: OrderId,
                       fill: Quantity, stamp: nat, e: Entry)
    requires Consistent(orders, nextId, entries) && id in orders
    requires e.event.id == id && e.event.from == orders[id].state && e.event.to == FillTarget(orders[id], fill)
    ensures var o := AfterFill(orders[id], fill, stamp);
      var ok := IsValid(orders[id].state, FillTarget(orders[id], fill));
      id < nextId && Consistent(orders[id := o], nextId, if ok then entries + [e] else entries)
  {
    hide HistoryOf, LeadsTo;
    var o := AfterFill(orders[id], fill, stamp);
    assert OrderOk(orders[id], HistoryOf(entries, id));
    if IsValid(orders[id].state, FillTarget(orders[id], fill)) {
      Journalled(orders, nextId, entries, id, o, e);
    } else {
      Unjournalled(orders, nextId, entries, id, o);
    }
  }

  predicate AllFilledFull(orders: map<OrderId, OmsOrder>) {
    forall id :: id in orders && orders[id].state == Filled ==> Full(orders[id])
  }

  lemma FillFull(orders: map<OrderId, OmsOrder>, nextId: OrderId, entries: seq<Entry>, id: OrderId, fill: Quantity,
                 stamp: nat)
    requires Consistent(orders, nextId, entries) && id in orders && fill < U32
    ensures var o, o' := orders[id], AfterFill(orders[id], fill, stamp);
      && (Full(o') && o'.state != Filled <==>
            o'.filled >= o.quantity && (o.state == Sent || o.state == Cancelled || o.state == Rejected))
      && (AllFilledFull(orders) ==> (AllFilledFull(orders[id := o']) <==> !WrapsFilled(o, fill)))
      && (o.state == Acked || o.state == PartialFill ==>
            IsValid(o.state, FillTarget(o, fill)) && o'.state == if Full(o') then Filled else PartialFill)
  {
    hide HistoryOf, LeadsTo;
    var o, o' := orders[id], AfterFill(orders[id], fill, stamp);
    assert OrderOk(o, HistoryOf(entries, id));
    if WrapsFilled(o, fill) { assert orders[id := o'][id] == o'; }
  }

  // ---------------------------------------------------------------- what the filled quantity counts

  // A fill report for a known order, and whether the state machine accepted it.
  datatype Report = Report(id: OrderId, quantity: Quantity, accepted: bool)

  function Reported(reports: seq<Report>, id: OrderId): nat {
    if reports == [] then 0
    else
      var r := reports[|reports| - 1];
      Reported(reports[..|reports| - 1], id) + if r.id == id then r.quantity else 0
  }

  predicate AnyRefused(reports: seq<Report>, id: OrderId) {
    reports != [] &&
    var r := reports[|reports| - 1];
    (r.id == id && !r.accepted) || AnyRefused(reports[..|reports| - 1], id)
  }

  // `filled` is the sum of all reports modulo 2^32, and only refused reports can fill an order that is not Filled.
  ghost predicate OrderCounts(o: OmsOrder, reports: seq<Report>, id: OrderId) {
    && o.filled == Reported(reports, id) % U32
    && (o.state != Filled && Full(o) ==> AnyRefused(reports, id))
  }

  ghost predicate Counted(orders: map<OrderId, OmsOrder>, nextId: OrderId, reports: seq<Report>) {
    && (forall id :: id in orders ==> OrderCounts(orders[id], reports, id))
    && (forall i :: 0 <= i < |reports| ==> reports[i].id < nextId)
  }

  lemma ReportAppend(reports: seq<Report>, r: Report, id: OrderId)
    ensures Reported(reports + [r], id) == Reported(reports, id) + if r.id == id then r.quantity else 0
    ensures AnyRefused(reports + [r], id) <==> (r.id == id && !r.accepted) || AnyRefused(reports, id)
  {
    assert (reports + [r])[..|reports|] == reports;
  }

  lemma {:induction false} NoReports(reports: seq<Report>, id: OrderId)
    requires forall i :: 0 <= i < |reports| ==> reports[i].id < id
    ensures Reported(reports, id) == 0 && !AnyRefused(reports, id)
  {
    if reports != [] { NoReports(reports[..|reports| - 1], id); }
  }

  // A new order has no reports.
  lemma CountedNew(orders: map<OrderId, OmsOrder>, nextId: OrderId, reports: seq<Report>, o: OmsOrder)
    requires Counted(orders, nextId, reports) && o.filled == 0 < o.quantity
    ensures Counted(orders[nextId := o], nextId + 1, reports)
  {
    NoReports(reports, nextId);
  }

  // A change of an order that is not Filled, leaving its quantities alone, keeps the count.
  lemma CountedMove(orders: map<OrderId, OmsOrder>, nextId: OrderId, reports: seq<Report>, id: OrderId, o: OmsOrder)
    requires Counted(orders, nextId, reports) && id in orders && orders[id].state != Filled
    requires o.filled == orders[id].filled && o.quantity == orders[id].quantity
    ensures Counted(orders[id := o], nextId, reports)
  {
    hide Reported, AnyRefused;
    assert OrderCounts(orders[id], reports, id);
  }

  // A legal, journalled change to a state other than the filled ones.
  lemma MoveKeeps(orders: map<OrderId, OmsOrder>, nextId: OrderId, entries: seq<Entry>, reports: seq<Report>,
                  id: OrderId, target: OrderState, e: Entry)
    requires Consistent(orders, nextId, entries) && Counted(orders, nextId, reports) && id in orders
    requires IsValid(orders[id].state, target) && target != PartialFill && target != Filled
    requires e.event.id == id && e.event.from == orders[id].state && e.event.to == target
    ensures var orders' := orders[id := orders[id].(state := target)];
      && Consistent(orders', nextId, entries + [e]) && Counted(orders', nextId, reports)
      && (AllFilledFull(orders) ==> AllFilledFull(orders'))
  {
    hide HistoryOf, LeadsTo, Counted;
    assert OrderOk(orders[id], HistoryOf(entries, id));
    Journalled(orders, nextId, entries, id, orders[id].(state := target), e);
    CountedMove(orders, nextId, reports, id, orders[id].(state := target));
  }

  lemma WrappedSum(a: nat, b: nat)
    ensures (a % U32 + b) % U32 == (a + b) % U32
  {
  }

  lemma CountedAfterFill(orders: map<OrderId, OmsOrder>, nextId: OrderId, reports: seq<Report>, id: OrderId,
                         fill: Quantity, stamp: nat)
    requires Counted(orders, nextId, reports) && id in orders && id < nextId
    ensures var ok := IsValid(orders[id].state, FillTarget(orders[id], fill));
      Counted(orders[id := AfterFill(orders[id], fill, stamp)], nextId, reports + [Report(id, fill, ok)])
  {
    hide Reported, AnyRefused;
    var r := Report(id, fill, IsValid(orders[id].state, FillTarget(orders[id], fill)));
    var orders' := orders[id := AfterFill(orders[id], fill, stamp)];
    assert OrderCounts(orders[id], reports, id);
    WrappedSum(Reported(reports, id), fill);
    forall x | x in orders' ensures OrderCounts(orders'[x], reports + [r], x)
    {
      ReportAppend(reports, r, x);
      if x != id { assert OrderCounts(orders[x], reports, x); }
    }
  }

  // ---------------------------------------------------------------- the manager object

  lemma FilledInRange(orders: map<OrderId, OmsOrder>, nextId: OrderId, entries: seq<Entry>, id: OrderId)
    requires Consistent(orders, nextId, entries) && id in orders
    ensures orders[id].filled < U32
  {
  }

  class OrderManager {
    const journal: Journal
    var orders: map<OrderId, OmsOrder>
    var nextId: OrderId
    ghost var reports: seq<Report>

    ghost predicate Valid()
      reads this, journal
    {
      journal.Valid() && Consistent(orders, nextId, journal.entries) && Counted(orders, nextId, reports)
    }

    // Filled orders are full.
    ghost predicate FilledAreFull()
      reads this
    {
      AllFilledFull(orders)
    }

    constructor ()
      ensures Valid() && FilledAreFull() && orders == map[] && nextId == 1 && reports == [] && fresh(journal)
    {
      journal := new Journal();
      orders, nextId, reports := map[], 1, [];
    }

    // Changes the state of an order if the table allows it, and journals the change.
    method ApplyTransition(id: OrderId, target: OrderState, reason: string, at: nat) returns (ok: bool)
      requires journal.Valid() && id in orders
      modifies this`orders, journal
      ensures journal.Valid() && ok == IsValid(old(orders)[id].state, target)
      ensures orders == if ok then old(orders)[id := old(orders)[id].(state := target)] else old(orders)
      ensures journal.entries ==
              if ok then Logged(old(journal.entries), Event(id, old(orders)[id].state, target, at, reason))
              else old(journal.entries)
    {
      hide Indexed;
      var from := orders[id].state;
      ok := IsValid(from, target);
      if ok {
        orders := orders[id := orders[id].(state := target)];
        var number := journal.Append(Event(id, from, target, at, reason));
      }
    }

    // `created`, `at` and `sent` are successive readings of the clock.
    method Submit(symbol: Symbol, side: Side, kind: OrderType, price: Price, quantity: Quantity,
                  created: nat, at: nat, sent: nat) returns (r: Outcome)
      requires Valid() && quantity < U32
      modifies this, journal
      ensures Valid() && (old(FilledAreFull()) ==> FilledAreFull()) && reports == old(reports)
      ensures quantity == 0 ==> r == ZeroQuantity && orders == old(orders) && nextId == old(nextId)
      ensures quantity > 0 ==> r == Success(old(nextId)) && old(nextId) !in old(orders) && nextId == old(nextId) + 1
      ensures quantity > 0 ==> orders == old(orders)[old(nextId) :=
        OmsOrder(symbol, side, kind, price, quantity, 0, Sent, created, sent, 0, 0)]
      ensures journal.entries ==
              if quantity == 0 then old(journal.entries)
              else Logged(old(journal.entries), Event(old(nextId), New, Sent, at, "submit"))
    {
      hide HistoryOf, LeadsTo, PositionsOf, Indexed, Reported, AnyRefused, Consistent, Counted;
      NextIdUnused();
      if quantity == 0 { return ZeroQuantity; }
      var id := nextId;
      nextId := nextId + 1;
      orders := orders[id := OmsOrder(symbol, side, kind, price, quantity, 0, New, created, 0, 0, 0)];
      var ok := ApplyTransition(id, Sent, "submit", at);
      orders := orders[id := orders[id].(sent := sent)];
      Journalled(old(orders), id, old(journal.entries), id, orders[id], journal.entries[|journal.entries| - 1]);
      CountedNew(old(orders), id, reports, orders[id]);
      assert orders == old(orders)[id := orders[id]];
      return Success(id);
    }

    lemma NextIdUnused()
      requires Valid()
      ensures nextId !in orders
    {
    }

    // Looks the order up and changes its state if the table allows it.
    method Move(id: OrderId, target: OrderState, reason: string, at: nat) returns (r: Outcome)
      requires Valid() && (target == Acked || target == Cancelled || target == Rejected)
      modifies this`orders, journal
      ensures Valid() && (old(FilledAreFull()) ==> FilledAreFull())
      ensures r == if id !in old(orders) then NotFound
                   else if IsValid(old(orders)[id].state, target) then Success(id) else InvalidTransition
      ensures orders == if r.Success? then old(orders)[id := old(orders)[id].(state := target)] else old(orders)
      ensures journal.entries ==
              if r.Success? then Logged(old(journal.entries), Event(id, old(orders)[id].state, target, at, reason))
              else old(journal.entries)
    {
      hide Consistent, Counted, Indexed, AllFilledFull;
      if id !in orders { return NotFound; }
      ghost var e := Entry(|journal.entries| + 1, Event(id, orders[id].state, target, at, reason));
      var ok := ApplyTransition(id, target, reason, at);
      if ok { MoveKeeps(old(orders), nextId, old(journal.entries), reports, id, target, e); }
      return if ok then Success(id) else InvalidTransition;
    }

    method OnAck(id: OrderId, at: nat, acked: nat) returns (r: Outcome)
      requires Valid()
      modifies this`orders, journal
      ensures Valid() && (old(FilledAreFull()) ==> FilledAreFull())
      ensures r == if id !in old(orders) then NotFound
                   else if old(orders)[id].state == Sent then Success(id) else InvalidTransition
      ensures orders == if r.Success? then old(orders)[id := old(orders)[id].(state := Acked, acked := acked)]
                        else old(orders)
      ensures journal.entries == if r.Success? then Logged(old(journal.entries), Event(id, Sent, Acked, at, "ack"))
                                 else old(journal.entries)
    {
      hide HistoryOf, LeadsTo, PositionsOf, Indexed, Reported, AnyRefused, Consistent, Counted;
      r := Move(id, Acked, "ack", at);
      if r.Success? {
        ghost var before := orders;
        orders := orders[id := orders[id].(acked := acked)];
        FilledInRange(before, nextId, journal.entries, id);
        Unjournalled(before, nextId, journal.entries, id, orders[id]);
        CountedMove(before, nextId, reports, id, orders[id]);
      }
    }

    method Cancel(id: OrderId, at: nat) returns (r: Outcome)
      requires Valid()
      modifies this`orders, journal
      ensures Valid() && (old(FilledAreFull()) ==> FilledAreFull())
      ensures r == if id !in old(orders) then NotFound
                   else if old(orders)[id].state == Acked || old(orders)[id].state == PartialFill then Success(id)
                   else InvalidTransition
      ensures orders == if r.Success? then old(orders)[id := old(orders)[id].(state := Cancelled)] else old(orders)
      ensures r.Success? ==>
        journal.entries == Logged(old(journal.entries), Event(id, old(orders)[id].state, Cancelled, at, "cancel"))
    {
      hide Consistent, Counted, Indexed;
      r := Move(id, Cancelled, "cancel", at);
    }

    method OnReject(id: OrderId, reason: string, at: nat) returns (r: Outcome)
      requires Valid()
      modifies this`orders, journal
      ensures Valid() && (old(FilledAreFull()) ==> FilledAreFull())
      ensures r == if id !in old(orders) then NotFound
                   else if old(orders)[id].state == Sent then Success(id) else InvalidTransition
      ensures orders == if r.Success? then old(orders)[id := old(orders)[id].(state := Rejected)] else old(orders)
      ensures r.Success? ==> journal.entries == Logged(old(journal.entries), Event(id, Sent, Rejected, at, reason))
    {
      hide Consistent, Counted, Indexed;
      r := Move(id, Rejected, reason, at);
    }

    /**
     A fill report.  The filled quantity grows before the state change is checked, so it also grows on orders
     that cannot be filled; a filled order stays full exactly unless the 32-bit sum wraps below its quantity.
     */
    method OnFill(id: OrderId, fill: Quantity, reported: nat, now: nat, at: nat) returns (r: Outcome)
      requires Valid() && fill < U32
      modifies this`orders, this`reports, journal
      ensures Valid()
      ensures id !in old(orders) ==>
        r == NotFound && orders == old(orders) && reports == old(reports) && journal.entries == old(journal.entries)
      ensures id in old(orders) ==>
        var o := old(orders)[id];
        var target := FillTarget(o, fill);
        && (r == if IsValid(o.state, target) then Success(id) else InvalidTransition)
        && orders == old(orders)[id := AfterFill(o, fill, if reported != 0 then reported else now)]
        && reports == old(reports) + [Report(id, fill, r.Success?)]
        && journal.entries == (if r.Success? then Logged(old(journal.entries), Event(id, o.state, target, at, "fill"))
                               else old(journal.entries))
        && (Full(orders[id]) && orders[id].state != Filled <==>
              orders[id].filled >= o.quantity && (o.state == Sent || o.state == Cancelled || o.state == Rejected))
      ensures id in old(orders) && (old(orders)[id].state == Acked || old(orders)[id].state == PartialFill) ==>
        r == Success(id) && orders[id].state == if Full(orders[id]) then Filled else PartialFill
      ensures old(FilledAreFull()) ==>
        (FilledAreFull() <==> !(id in old(orders) && WrapsFilled(old(orders)[id], fill)))
    {
      hide Consistent, Counted, Indexed, AllFilledFull, WrapsFilled, Full;
      if id !in orders { return NotFound; }
      var o, stamp := orders[id], if reported != 0 then reported else now;
      var filled := (o.filled + fill) % U32;
      orders := orders[id := o.(filled := filled, lastFill := stamp)];
      var target := if filled >= o.quantity then Filled else PartialFill;
      ghost var e := Entry(|journal.entries| + 1, Event(id, o.state, target, at, "fill"));
      FillConsistent(old(orders), nextId, journal.entries, id, fill, stamp, e);
      FillFull(old(orders), nextId, journal.entries, id, fill, stamp);
      var ok := ApplyTransition(id, target, "fill", at);
      assert orders == old(orders)[id := AfterFill(o, fill, stamp)];
      CountedAfterFill(old(orders), nextId, reports, id, fill, stamp);
      reports := reports + [Report(id, fill, ok)];
      return if ok then Success(id) else InvalidTransition;
    }
  }

  /** Run safety: what holds of every order after every sequence of calls. */
  lemma OrderRunSafety(m: OrderManager, id: OrderId)
    requires m.Valid() && id in m.orders
    ensures var h, o := HistoryOf(m.journal.entries, id), m.orders[id];
      && h != [] && h[0].event.from == New && h[|h| - 1].event.to == o.state
      && (forall i :: 0 <= i < |h| ==> IsValid(h[i].event.from, h[i].event.to))
      && (forall i :: 0 < i < |h| ==> h[i].event.from == h[i - 1].event.to)
      && (forall i :: 0 <= i < |h| - 1 ==> !Terminal(h[i].event.to))
      && (o.state == PartialFill ==> !Full(o))
    ensures forall i :: 0 <= i < |m.journal.entries| ==> m.journal.entries[i].number == i + 1
  {
    var h, o := HistoryOf(m.journal.entries, id), m.orders[id];
    assert OrderOk(o, h);
    StepsAllowed(h, o.state, 0);
    forall i | 0 <= i < |h|
      ensures IsValid(h[i].event.from, h[i].event.to)
      ensures h[i].event.from == if i == 0 then New else h[i - 1].event.to
    {
      StepsAllowed(h, o.state, i);
    }
    forall i | 0 <= i < |h| - 1 ensures !Terminal(h[i].event.to)
    {
      if Terminal(h[i].event.to) { NothingAfterTerminal(h, o.state, i); }
    }
  }

  /** What `filled` counts: every report for the order, refused ones too, modulo 2^32. */
  lemma FilledCountsReports(m: OrderManager, id: OrderId)
    requires m.Valid() && id in m.orders
    ensures m.orders[id].filled == Reported(m.reports, id) % U32
    ensures Full(m.orders[id]) && m.orders[id].state != Filled ==> AnyRefused(m.reports, id)
  {
    assert OrderCounts(m.orders[id], m.reports, id);
  }

  // The wrap is reachable: a late report of 2^32 - 1 units leaves a filled order of 10 with 9 filled.
  method WrappedFill() returns (m: OrderManager)
    ensures m.Valid() && !m.FilledAreFull()
  {
    hide Consistent, Indexed, HistoryOf, LeadsTo, Counted, Logged;
    m := new OrderManager();
    var r := m.Submit(1, Buy, LimitOrder, 100, 10, 0, 0, 0);
    var id := r.id;
    r := m.OnAck(id, 0, 0);
    r := m.OnFill(id, 10, 0, 0, 0);
    r := m.OnFill(id, U32 - 1, 0, 0, 0);
    assert m.orders[id].state == Filled && m.orders[id].filled == 9;
  }

  // A report that is refused still counts: the order ends cancelled and full.
  method RefusedFillCounts() returns (m: OrderManager)
    ensures m.Valid() && 1 in m.orders && m.orders[1].state == Cancelled && Full(m.orders[1])
  {
    hide Consistent, Indexed, HistoryOf, LeadsTo, Counted, Logged;
    m := new OrderManager();
    var r := m.Submit(1, Buy, LimitOrder, 100, 10, 0, 0, 0);
    r := m.OnFill(1, 10, 0, 0, 0);
    assert r == InvalidTransition;
    r := m.OnAck(1, 0, 0);
    r := m.Cancel(1, 0);
  }
}
