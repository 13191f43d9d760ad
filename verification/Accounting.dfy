/**
 Profit and loss by first-in first-out lot matching, the position tracker beside it, and the portfolio
 that feeds both.  Prices and money are exact integers in 1/10000 dollar.
 */
module Accounting {
  import opened Basics
  import opened Market

  datatype Fill = Fill(symbol: Symbol, side: Side, price: Price, quantity: Quantity)

  datatype Lot = Lot(price: Price, quantity: Quantity)

  datatype SymbolState = SymbolState(longLots: seq<Lot>, shortLots: seq<Lot>, realized: int, unrealized: int)

  const NOTHING := SymbolState([], [], 0, 0)

  // ---------------------------------------------------------------- the unit-by-unit reference

  function Repeat(price: Price, quantity: nat): (r: seq<int>)
    ensures |r| == quantity && forall i :: 0 <= i < quantity ==> r[i] == price
  {
    seq(quantity, _ => price)
  }

  // The price of every single unit traded on one side, in order.
  function Units(fills: seq<Fill>, side: Side): seq<int> {
    if fills == [] then []
    else
      var f := fills[|fills| - 1];
      Units(fills[..|fills| - 1], side) + if f.side == side then Repeat(f.price, f.quantity) else []
  }

  // The unit prices held in a queue of lots.
  function Expand(lots: seq<Lot>): seq<int> {
    if lots == [] then [] else Repeat(lots[0].price, lots[0].quantity) + Expand(lots[1..])
  }

  function Total(s: seq<int>): int {
    if s == [] then 0 else Total(s[..|s| - 1]) + s[|s| - 1]
  }

  // The sum over j < m of (price of the j-th unit sold - price of the j-th unit bought).
  function PairedGain(sold: seq<int>, bought: seq<int>, m: nat): int
    requires m <= |sold| && m <= |bought|
  {
    if m == 0 then 0 else PairedGain(sold, bought, m - 1) + (sold[m - 1] - bought[m - 1])
  }

  function Matched(sold: seq<int>, bought: seq<int>): nat {
    if |sold| <= |bought| then |sold| else |bought|
  }

  // The fills of one symbol.
  function Of(fills: seq<Fill>, symbol: Symbol): seq<Fill> {
    if fills == [] then []
    else
      var f := fills[|fills| - 1];
      Of(fills[..|fills| - 1], symbol) + if f.symbol == symbol then [f] else []
  }

  // Signed quantity and signed cash of a list of fills.
  function Position(fills: seq<Fill>): int {
    if fills == [] then 0
    else
      var f := fills[|fills| - 1];
      Position(fills[..|fills| - 1]) + if f.side == Buy then f.quantity else -(f.quantity as int)
  }

  function Cash(fills: seq<Fill>): int {
    if fills == [] then 0
    else
      var f := fills[|fills| - 1];
      Cash(fills[..|fills| - 1]) + if f.side == Buy then -(f.price * f.quantity) else f.price * f.quantity
  }

  // The lot queues and the realized gain of a state are those of pairing units first in, first out.
  ghost predicate Agrees(s: SymbolState, bought: seq<int>, sold: seq<int>) {
    var m := Matched(sold, bought);
    && Expand(s.longLots) == bought[m..] && Expand(s.shortLots) == sold[m..]
    && s.realized == PairedGain(sold, bought, m)
    && NoEmptyLot(s.longLots) && NoEmptyLot(s.shortLots)
  }

  ghost predicate NoEmptyLot(lots: seq<Lot>) {
    forall i :: 0 <= i < |lots| ==> lots[i].quantity > 0
  }

  // ---------------------------------------------------------------- sequences of units

  lemma {:induction false} TotalAppend(a: seq<int>, b: seq<int>)
    ensures Total(a + b) == Total(a) + Total(b)
  {
    if b == [] {
      assert a + b == a;
    } else {
      assert (a + b)[..|a + b| - 1] == a + b[..|b| - 1];
      TotalAppend(a, b[..|b| - 1]);
    }
  }

  lemma {:induction false} TotalRepeat(price: Price, quantity: nat)
    ensures Total(Repeat(price, quantity)) == price * quantity
  {
    if quantity > 0 {
      assert Repeat(price, quantity)[..quantity - 1] == Repeat(price, quantity - 1);
      TotalRepeat(price, quantity - 1);
      assert price * quantity == price * (quantity - 1) + price;
    }
  }

  lemma {:induction false} ExpandAppend(lots: seq<Lot>, lot: Lot)
    ensures Expand(lots + [lot]) == Expand(lots) + Repeat(lot.price, lot.quantity)
  {
    if lots == [] {
      assert lots + [lot] == [lot] && [lot][1..] == [];
    } else {
      assert (lots + [lot])[1..] == lots[1..] + [lot];
      ExpandAppend(lots[1..], lot);
    }
  }

  lemma {:induction false} PairedGainTotals(sold: seq<int>, bought: seq<int>, m: nat)
    requires m <= |sold| && m <= |bought|
    ensures PairedGain(sold, bought, m) == Total(sold[..m]) - Total(bought[..m])
  {
    if m > 0 {
      PairedGainTotals(sold, bought, m - 1);
      assert sold[..m][..m - 1] == sold[..m - 1] && bought[..m][..m - 1] == bought[..m - 1];
    }
  }

  lemma LotsExist(lots: seq<Lot>)
    requires NoEmptyLot(lots)
    ensures Expand(lots) == [] <==> lots == []
  {
  }

  // ---------------------------------------------------------------- closing and opening lots

  /**
   Takes up to `quantity` units from the front of a lot queue.  `closed` is the sum of (entry price - px)
   over the units taken.
   */
  method ConsumeLots(lots: seq<Lot>, px: Price, quantity: Quantity)
    returns (rest: seq<Lot>, remaining: Quantity, closed: int)
    requires NoEmptyLot(lots)
    ensures NoEmptyLot(rest)
    ensures var units := Expand(lots);
      var k := Min(quantity, |units|);
      remaining == quantity - k && Expand(rest) == units[k..] && closed == Total(units[..k]) - Total(Repeat(px, k))
  {
    hide Expand, Total;
    rest, remaining, closed := lots, quantity, 0;
    ghost var units, taken := Expand(lots), 0;
    NothingTaken(units, px);
    while remaining > 0 && rest != []
      invariant NoEmptyLot(rest)
      invariant 0 <= taken <= |units| && remaining == quantity - taken
      invariant Expand(rest) == units[taken..] && closed == Total(units[..taken]) - Total(Repeat(px, taken))
      decreases remaining
    {
      var front := rest[0];
      var matched := Min(remaining, front.quantity);
      TakeFront(rest, matched);
      SplitTotal(units, taken, matched, front.price);
      SplitRepeat(px, taken, matched);
      Spread(front.price, px, matched);
      closed := closed + (front.price - px) * matched;
      rest := if front.quantity == matched then rest[1..] else [Lot(front.price, front.quantity - matched)] + rest[1..];
      remaining := remaining - matched;
      taken := taken + matched;
    }
    LotsExist(rest);
  }

  lemma NothingTaken(units: seq<int>, px: Price)
    ensures units[0..] == units && Total(units[..0]) == 0 == Total(Repeat(px, 0))
  {
  }

  lemma TakeFront(lots: seq<Lot>, k: nat)
    requires lots != [] && k <= lots[0].quantity
    ensures k <= |Expand(lots)| && Expand(lots)[..k] == Repeat(lots[0].price, k)
    ensures Expand(lots)[k..] ==
            Expand(if k == lots[0].quantity then lots[1..] else [Lot(lots[0].price, lots[0].quantity - k)] + lots[1..])
  {
    var front := lots[0];
    assert Repeat(front.price, front.quantity)[k..] == Repeat(front.price, front.quantity - k);
    if k < front.quantity {
      var rest := [Lot(front.price, front.quantity - k)] + lots[1..];
      assert rest[1..] == lots[1..];
    }
  }

  lemma SplitTotal(units: seq<int>, taken: nat, k: nat, price: Price)
    requires taken + k <= |units| && units[taken..][..k] == Repeat(price, k)
    ensures Total(units[..taken + k]) == Total(units[..taken]) + Total(Repeat(price, k))
    ensures units[taken..][k..] == units[taken + k..]
  {
    assert units[..taken + k] == units[..taken] + units[taken..][..k];
    TotalAppend(units[..taken], Repeat(price, k));
  }

  lemma SplitRepeat(price: Price, a: nat, b: nat)
    ensures Total(Repeat(price, a + b)) == Total(Repeat(price, a)) + Total(Repeat(price, b))
  {
    assert Repeat(price, a + b) == Repeat(price, a) + Repeat(price, b);
    TotalAppend(Repeat(price, a), Repeat(price, b));
  }

  lemma Spread(price: Price, px: Price, k: nat)
    ensures (price - px) * k == Total(Repeat(price, k)) - Total(Repeat(px, k))
  {
    TotalRepeat(price, k);
    TotalRepeat(px, k);
  }

  // What a fill on one side leaves: the opposite queue shrinks, the remainder opens a lot.
  function AfterFill(s: SymbolState, side: Side, price: Price, rest: seq<Lot>, remaining: nat, closed: int)
    : SymbolState
  {
    if side == Buy then
      s.(shortLots := rest, realized := s.realized + closed,
         longLots := if remaining > 0 then s.longLots + [Lot(price, remaining)] else s.longLots)
    else
      s.(longLots := rest, realized := s.realized - closed,
         shortLots := if remaining > 0 then s.shortLots + [Lot(price, remaining)] else s.shortLots)
  }

  lemma OpenLot(lots: seq<Lot>, price: Price, remaining: nat)
    requires NoEmptyLot(lots)
    ensures var lots' := if remaining > 0 then lots + [Lot(price, remaining)] else lots;
      NoEmptyLot(lots') && Expand(lots') == Expand(lots) + Repeat(price, remaining)
  {
    ExpandAppend(lots, Lot(price, remaining));
    if remaining == 0 { assert Expand(lots) + Repeat(price, remaining) == Expand(lots); }
  }

  // Buying pairs the next k = min(quantity, unpaired sells) units with the oldest unpaired sells.
  lemma BuyPairs(bought: seq<int>, sold: seq<int>, price: Price, quantity: Quantity, m: nat, k: nat)
    requires m == Matched(sold, bought) && k == Min(quantity, |sold| - m)
    ensures Matched(sold, bought + Repeat(price, quantity)) == m + k
    ensures sold[m..][k..] == sold[m + k..]
    ensures (bought + Repeat(price, quantity))[m + k..] == bought[m..] + Repeat(price, quantity - k)
  {
    var more := bought + Repeat(price, quantity);
    if |sold| > |bought| { assert more[m + k..] == Repeat(price, quantity)[k..] == Repeat(price, quantity - k); }
  }

  lemma BuyGain(bought: seq<int>, sold: seq<int>, price: Price, quantity: Quantity, m: nat, k: nat)
    requires m == Matched(sold, bought) && k == Min(quantity, |sold| - m)
    ensures m + k <= |bought + Repeat(price, quantity)|
    ensures PairedGain(sold, bought + Repeat(price, quantity), m + k) ==
            PairedGain(sold, bought, m) + Total(sold[m..][..k]) - Total(Repeat(price, k))
  {
    hide PairedGain, Total;
    var more := bought + Repeat(price, quantity);
    PairedGainTotals(sold, bought, m);
    PairedGainTotals(sold, more, m + k);
    assert sold[..m + k] == sold[..m] + sold[m..][..k];
    TotalAppend(sold[..m], sold[m..][..k]);
    assert more[..m + k] == bought[..m] + Repeat(price, k);
    TotalAppend(bought[..m], Repeat(price, k));
  }

  // The new lots and the new gain in terms of the units alone.
  lemma BuyOnUnits(s: SymbolState, bought: seq<int>, sold: seq<int>, price: Price, quantity: Quantity,
                   rest: seq<Lot>, m: nat, k: nat)
    requires m == Matched(sold, bought) && k == Min(quantity, |sold| - m)
    requires NoEmptyLot(s.longLots) && NoEmptyLot(rest) && Expand(s.longLots) == bought[m..]
    requires Expand(rest) == sold[m..][k..] && s.realized == PairedGain(sold, bought, m)
    ensures var closed := Total(sold[m..][..k]) - Total(Repeat(price, k));
      Agrees(AfterFill(s, Buy, price, rest, quantity - k, closed), bought + Repeat(price, quantity), sold)
  {
    hide Expand, Total, PairedGain, NoEmptyLot, Repeat, Matched, Agrees;
    var more := bought + Repeat(price, quantity);
    BuyPairs(bought, sold, price, quantity, m, k);
    BuyGain(bought, sold, price, quantity, m, k);
    OpenLot(s.longLots, price, quantity - k);
    var closed := Total(sold[m..][..k]) - Total(Repeat(price, k));
    AgreesIf(AfterFill(s, Buy, price, rest, quantity - k, closed), more, sold, m + k);
  }

  lemma AgreesIf(s: SymbolState, bought: seq<int>, sold: seq<int>, m: nat)
    requires m == Matched(sold, bought) && NoEmptyLot(s.longLots) && NoEmptyLot(s.shortLots)
    requires Expand(s.longLots) == bought[m..] && Expand(s.shortLots) == sold[m..]
    requires s.realized == PairedGain(sold, bought, m)
    ensures Agrees(s, bought, sold)
  {
  }

  lemma BuyAgrees(s: SymbolState, bought: seq<int>, sold: seq<int>, price: Price, quantity: Quantity,
                  rest: seq<Lot>, remaining: nat, closed: int)
    requires Agrees(s, bought, sold) && NoEmptyLot(rest)
    requires var units := Expand(s.shortLots);
      var k := Min(quantity, |units|);
      remaining == quantity - k && Expand(rest) == units[k..] && closed == Total(units[..k]) - Total(Repeat(price, k))
    ensures Agrees(AfterFill(s, Buy, price, rest, remaining, closed), bought + Repeat(price, quantity), sold)
  {
    hide Expand, Total, PairedGain, NoEmptyLot, Repeat, AfterFill;
    var m := Matched(sold, bought);
    var units := Expand(s.shortLots);
    assert units == sold[m..] && |units| == |sold| - m;
    BuyOnUnits(s, bought, sold, price, quantity, rest, m, Min(quantity, |units|));
  }

  // Selling is buying with the two queues and the sign of the gain exchanged.
  function Mirror(s: SymbolState): SymbolState {
    SymbolState(s.shortLots, s.longLots, -s.realized, s.unrealized)
  }

  lemma {:induction false} PairedGainMirror(a: seq<int>, b: seq<int>, m: nat)
    requires m <= |a| && m <= |b|
    ensures PairedGain(a, b, m) == -PairedGain(b, a, m)
  {
    if m > 0 { PairedGainMirror(a, b, m - 1); }
  }

  lemma MirrorAgrees(s: SymbolState, bought: seq<int>, sold: seq<int>)
    ensures Agrees(s, bought, sold) <==> Agrees(Mirror(s), sold, bought)
  {
    PairedGainMirror(sold, bought, Matched(sold, bought));
  }

  lemma SellAgrees(s: SymbolState, bought: seq<int>, sold: seq<int>, price: Price, quantity: Quantity,
                   rest: seq<Lot>, remaining: nat, closed: int)
    requires Agrees(s, bought, sold) && NoEmptyLot(rest)
    requires var units := Expand(s.longLots);
      var k := Min(quantity, |units|);
      remaining == quantity - k && Expand(rest) == units[k..] && closed == Total(units[..k]) - Total(Repeat(price, k))
    ensures Agrees(AfterFill(s, Sell, price, rest, remaining, closed), bought, sold + Repeat(price, quantity))
  {
    MirrorAgrees(s, bought, sold);
    BuyAgrees(Mirror(s), sold, bought, price, quantity, rest, remaining, closed);
    assert Mirror(AfterFill(s, Sell, price, rest, remaining, closed)) ==
           AfterFill(Mirror(s), Buy, price, rest, remaining, closed);
    MirrorAgrees(AfterFill(s, Sell, price, rest, remaining, closed), bought, sold + Repeat(price, quantity));
  }

  // ---------------------------------------------------------------- consequences for whole fill lists

  // Signed totals of the units are the signed totals of the fills.
  lemma {:induction false} UnitTotals(fills: seq<Fill>)
    ensures |Units(fills, Buy)| - |Units(fills, Sell)| == Position(fills)
    ensures Total(Units(fills, Sell)) - Total(Units(fills, Buy)) == Cash(fills)
  {
    if fills != [] {
      var front, f := fills[..|fills| - 1], fills[|fills| - 1];
      UnitTotals(front);
      TotalAppend(Units(front, f.side), Repeat(f.price, f.quantity));
      TotalRepeat(f.price, f.quantity);
      var other := if f.side == Buy then Sell else Buy;
      assert Units(front, other) + [] == Units(front, other);
    }
  }

  ghost predicate Tracks(s: SymbolState, fills: seq<Fill>) {
    Agrees(s, Units(fills, Buy), Units(fills, Sell))
  }

  // Long and short lots are never open together, and the open lots net to the tracked position.
  lemma OneSidedAndNet(s: SymbolState, fills: seq<Fill>)
    requires Tracks(s, fills)
    ensures s.longLots == [] || s.shortLots == []
    ensures |Expand(s.longLots)| - |Expand(s.shortLots)| == Position(fills)
  {
    UnitTotals(fills);
    LotsExist(s.longLots);
    LotsExist(s.shortLots);
  }

  // Realized gain does not depend on how buys and sells interleave.
  lemma InterleavingIrrelevant(s: SymbolState, fills: seq<Fill>, s': SymbolState, fills': seq<Fill>)
    requires Tracks(s, fills) && Tracks(s', fills')
    requires Units(fills, Buy) == Units(fills', Buy) && Units(fills, Sell) == Units(fills', Sell)
    ensures s.realized == s'.realized
    ensures Expand(s.longLots) == Expand(s'.longLots) && Expand(s.shortLots) == Expand(s'.shortLots)
  {
  }

  // The value of open lots against a mark, lot by lot.
  function LotGain(lots: seq<Lot>, mark: Price): int {
    if lots == [] then 0
    else LotGain(lots[..|lots| - 1], mark) + (mark - lots[|lots| - 1].price) * lots[|lots| - 1].quantity
  }

  lemma {:induction false} LotGainUnits(lots: seq<Lot>, mark: Price)
    ensures LotGain(lots, mark) == mark * |Expand(lots)| - Total(Expand(lots))
  {
    if lots != [] {
      var front, lot := lots[..|lots| - 1], lots[|lots| - 1];
      LotGainUnits(front, mark);
      assert lots == front + [lot];
      ExpandAppend(front, lot);
      TotalAppend(Expand(front), Repeat(lot.price, lot.quantity));
      TotalRepeat(lot.price, lot.quantity);
      MarkScalars(mark, |Expand(front)|, lot.price, lot.quantity);
    }
  }

  lemma MarkScalars(mark: int, n: int, price: int, q: int)
    ensures mark * n + (mark - price) * q == mark * (n + q) - price * q
  {
  }

  /** Right after marking at m, realized plus unrealized gain is the cash flow plus the position valued at m. */
  lemma TotalIsCashPlusPosition(s: SymbolState, fills: seq<Fill>, mark: Price)
    requires Tracks(s, fills) && s.unrealized == LotGain(s.longLots, mark) - LotGain(s.shortLots, mark)
    ensures s.realized + s.unrealized == Cash(fills) + mark * Position(fills)
  {
    hide Expand, Total, PairedGain, LotGain, Units, Cash, Position;
    var bought, sold := Units(fills, Buy), Units(fills, Sell);
    var m := Matched(sold, bought);
    LotGainUnits(s.longLots, mark);
    LotGainUnits(s.shortLots, mark);
    PairedGainTotals(sold, bought, m);
    assert bought == bought[..m] + bought[m..] && sold == sold[..m] + sold[m..];
    TotalAppend(bought[..m], bought[m..]);
    TotalAppend(sold[..m], sold[m..]);
    UnitTotals(fills);
    ValueScalars(mark, |bought| - m, |sold| - m, Position(fills));
  }

  lemma ValueScalars(mark: int, a: int, b: int, position: int)
    requires a - b == position
    ensures mark * a - mark * b == mark * position
  {
  }

  // ---------------------------------------------------------------- the objects

  lemma LotsOf(s: SymbolState, fills: seq<Fill>)
    requires Tracks(s, fills)
    ensures NoEmptyLot(s.longLots) && NoEmptyLot(s.shortLots)
  {
  }

  lemma OfAppend(history: seq<Fill>, fill: Fill, symbol: Symbol)
    ensures Of(history + [fill], symbol) ==
            if symbol == fill.symbol then Of(history, symbol) + [fill] else Of(history, symbol)
  {
    assert (history + [fill])[..|history|] == history;
  }

  lemma UnitsAppend(fills: seq<Fill>, fill: Fill, side: Side)
    ensures Units(fills + [fill], side) ==
            if side == fill.side then Units(fills, side) + Repeat(fill.price, fill.quantity) else Units(fills, side)
  {
    assert (fills + [fill])[..|fills|] == fills;
  }

  lemma PositionAppend(fills: seq<Fill>, fill: Fill)
    ensures Position(fills + [fill]) ==
            Position(fills) + if fill.side == Buy then fill.quantity else -(fill.quantity as int)
  {
    assert (fills + [fill])[..|fills|] == fills;
  }

  // One more fill of the symbol, its lots consumed and opened as `ConsumeLots` and `AfterFill` say.
  lemma FillTracks(s: SymbolState, fills: seq<Fill>, fill: Fill, rest: seq<Lot>, remaining: nat, closed: int)
    requires Tracks(s, fills) && NoEmptyLot(rest)
    requires var units := Expand(if fill.side == Buy then s.shortLots else s.longLots);
      var k := Min(fill.quantity, |units|);
      remaining == fill.quantity - k && Expand(rest) == units[k..] &&
      closed == Total(units[..k]) - Total(Repeat(fill.price, k))
    ensures Tracks(AfterFill(s, fill.side, fill.price, rest, remaining, closed), fills + [fill])
  {
    hide Expand, Total, Units, Agrees;
    UnitsAppend(fills, fill, Buy);
    UnitsAppend(fills, fill, Sell);
    if fill.side == Buy {
      BuyAgrees(s, Units(fills, Buy), Units(fills, Sell), fill.price, fill.quantity, rest, remaining, closed);
    } else {
      SellAgrees(s, Units(fills, Buy), Units(fills, Sell), fill.price, fill.quantity, rest, remaining, closed);
    }
  }

  class PnLCalculator {
    var states: map<Symbol, SymbolState>
    ghost var history: seq<Fill>

    function StateOf(symbol: Symbol): SymbolState
      reads this
    {
      if symbol in states then states[symbol] else NOTHING
    }

    ghost predicate Valid()
      reads this
    {
      forall symbol :: Tracks(StateOf(symbol), Of(history, symbol))
    }

    constructor ()
      ensures Valid() && history == []
    {
      states, history := map[], [];
    }

    method OnFill(fill: Fill)
      requires Valid()
      modifies this
      ensures Valid() && history == old(history) + [fill]
      ensures StateOf(fill.symbol).unrealized == old(StateOf(fill.symbol)).unrealized
      ensures forall other :: other != fill.symbol ==> StateOf(other) == old(StateOf(other))
    {
      hide Expand, Total, Of, Tracks;
      var s := StateOf(fill.symbol);
      ghost var mine := Of(history, fill.symbol);
      assert Tracks(s, mine);
      LotsOf(s, mine);
      var rest, remaining, closed :=
        ConsumeLots(if fill.side == Buy then s.shortLots else s.longLots, fill.price, fill.quantity);
      FillTracks(s, mine, fill, rest, remaining, closed);
      states := states[fill.symbol := AfterFill(s, fill.side, fill.price, rest, remaining, closed)];
      history := history + [fill];
      forall symbol ensures Tracks(StateOf(symbol), Of(history, symbol))
      {
        OfAppend(old(history), fill, symbol);
        assert old(Tracks(StateOf(symbol), Of(history, symbol)));
      }
    }

    // Marks every open lot of the symbol; realized gain and lots stay as they are.
    method MarkToMarket(symbol: Symbol, mark: Price)
      requires Valid()
      modifies this`states
      ensures Valid()
      ensures StateOf(symbol).realized + StateOf(symbol).unrealized ==
              Cash(Of(history, symbol)) + mark * Position(Of(history, symbol))
      ensures forall other :: other != symbol ==> StateOf(other) == old(StateOf(other))
    {
      hide Agrees, Units, LotGain, Cash, Position;
      var s := StateOf(symbol);
      var unrealized := OpenGain(s.longLots, s.shortLots, mark);
      assert Tracks(s, Of(history, symbol));
      MarkKeeps(s, unrealized, Of(history, symbol));
      states := states[symbol := s.(unrealized := unrealized)];
      assert forall other :: other != symbol ==> StateOf(other) == old(StateOf(other));
      forall other ensures Tracks(StateOf(other), Of(history, other))
      {
        assert old(Tracks(StateOf(other), Of(history, other)));
      }
      TotalIsCashPlusPosition(StateOf(symbol), Of(history, symbol), mark);
    }
  }

  lemma MarkKeeps(s: SymbolState, unrealized: int, fills: seq<Fill>)
    requires Tracks(s, fills)
    ensures Tracks(s.(unrealized := unrealized), fills)
  {
  }

  // The gain of all open lots against a mark.
  method OpenGain(longLots: seq<Lot>, shortLots: seq<Lot>, mark: Price) returns (unrealized: int)
    ensures unrealized == LotGain(longLots, mark) - LotGain(shortLots, mark)
  {
    unrealized := 0;
    for i := 0 to |longLots|
      invariant unrealized == LotGain(longLots[..i], mark)
    {
      assert longLots[..i + 1][..i] == longLots[..i];
      unrealized := unrealized + (mark - longLots[i].price) * longLots[i].quantity;
    }
    assert longLots[..|longLots|] == longLots;
    for i := 0 to |shortLots|
      invariant unrealized == LotGain(longLots, mark) - LotGain(shortLots[..i], mark)
    {
      assert shortLots[..i + 1][..i] == shortLots[..i];
      Opposite(shortLots[i].price, mark, shortLots[i].quantity);
      unrealized := unrealized + (shortLots[i].price - mark) * shortLots[i].quantity;
    }
    assert shortLots[..|shortLots|] == shortLots;
  }

  lemma Opposite(price: int, mark: int, q: int)
    ensures (price - mark) * q == -((mark - price) * q)
  {
  }

  class PositionTracker {
    var positions: map<Symbol, int>
    ghost var history: seq<Fill>

    function Get(symbol: Symbol): int
      reads this
    {
      if symbol in positions then positions[symbol] else 0
    }

    ghost predicate Valid()
      reads this
    {
      forall symbol :: Get(symbol) == Position(Of(history, symbol))
    }

    constructor ()
      ensures Valid() && history == []
    {
      positions, history := map[], [];
    }

    method Update(ghost fill: Fill, symbol: Symbol, side: Side, quantity: Quantity)
      requires Valid() && fill.symbol == symbol && fill.side == side && fill.quantity == quantity
      modifies this
      ensures Valid() && history == old(history) + [fill]
    {
      hide Of, Position;
      if side == Buy {
        positions := positions[symbol := Get(symbol) + quantity];
      } else {
        positions := positions[symbol := Get(symbol) - quantity];
      }
      history := history + [fill];
      forall other ensures Get(other) == Position(Of(history, other))
      {
        OfAppend(old(history), fill, other);
        PositionAppend(Of(old(history), other), fill);
        assert old(Get(other) == Position(Of(history, other)));
      }
    }
  }

  class Portfolio {
    const positions: PositionTracker
    const pnl: PnLCalculator
    var fills: map<Symbol, seq<Fill>>

    // All three components have seen exactly the same fills.
    ghost predicate Valid()
      reads this, positions, pnl
    {
      && positions.Valid() && pnl.Valid() && positions.history == pnl.history
      && (forall symbol :: (if symbol in fills then fills[symbol] else []) == Of(pnl.history, symbol))
    }

    constructor ()
      ensures Valid() && pnl.history == [] && fresh(positions) && fresh(pnl)
    {
      positions := new PositionTracker();
      pnl := new PnLCalculator();
      fills := map[];
    }

    method OnFill(symbol: Symbol, side: Side, price: Price, quantity: Quantity)
      requires Valid()
      modifies this, positions, pnl
      ensures Valid() && pnl.history == old(pnl.history) + [Fill(symbol, side, price, quantity)]
    {
      hide Of, Tracks, Position, Units;
      var fill := Fill(symbol, side, price, quantity);
      forall other
        ensures Of(pnl.history + [fill], other) ==
                if other == symbol then Of(pnl.history, other) + [fill] else Of(pnl.history, other)
      {
        OfAppend(pnl.history, fill, other);
      }
      positions.Update(fill, symbol, side, quantity);
      fills := fills[symbol := (if symbol in fills then fills[symbol] else []) + [fill]];
      pnl.OnFill(fill);
    }

    method MarkToMarket(symbol: Symbol, mark: Price)
      requires Valid()
      modifies pnl
      ensures Valid() && pnl.history == old(pnl.history)
      ensures pnl.StateOf(symbol).realized + pnl.StateOf(symbol).unrealized ==
              Cash(Of(pnl.history, symbol)) + mark * positions.Get(symbol)
    {
      pnl.MarkToMarket(symbol, mark);
    }

    // The three views of a symbol agree: open lots, tracked position and recorded fills.
    lemma ViewsAgree(symbol: Symbol)
      requires Valid()
      ensures var s := pnl.StateOf(symbol);
        && (s.longLots == [] || s.shortLots == [])
        && |Expand(s.longLots)| - |Expand(s.shortLots)| == positions.Get(symbol)
        && (symbol in fills ==> positions.Get(symbol) == Position(fills[symbol]))
    {
      OneSidedAndNet(pnl.StateOf(symbol), Of(pnl.history, symbol));
    }
  }
}
