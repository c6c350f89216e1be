/** The matching engine as functions on values: one state, one deterministic step per command. */
module EngineModel {
  import opened Types
  import opened Levels
  import opened Orders
  import opened OrderBooks
  import opened OrderManagers
  import opened TradeStores

  datatype Engine = Engine(book: Book, orders: seq<LimitOrder>, store: Store, nextId: nat, nextSequence: nat)

  /** The aggressive side of a match. A market order has neither limit nor id. */
  datatype Taker = Taker(side: Side, limit: Option<int>, id: Option<nat>) {
    predicate Accepts(price: int) {
      limit.None? || !Better(side.Opposite(), limit.value, price)
    }
  }

  function TakerOf(o: LimitOrder): Taker {
    Taker(o.side, Some(o.price), Some(o.id))
  }

  function ExecutionOf(taker: Taker, maker: LimitOrder, quantity: int): Execution {
    Execution(taker.side, maker.price, quantity,
              if taker.side.Buy? then taker.id else Some(maker.id),
              if taker.side.Sell? then taker.id else Some(maker.id))
  }

  /** The slot of the best opposite order, if its price is acceptable. */
  function BestMatch(orders: seq<LimitOrder>, taker: Taker): (r: Option<nat>)
    ensures r.Some? ==> r.value < |orders| && orders[r.value].side == taker.side.Opposite()
  {
    var b := Best(orders, taker.side.Opposite());
    if b.Some? && taker.Accepts(orders[b.value].price) then b else None
  }

  /** The result of a sweep: new state, unfilled quantity, trades in execution order. */
  datatype Swept = Swept(engine: Engine, left: int, trades: seq<Trade>)

  /** The vector after a trade with the order in slot `b`, which leaves when it is filled. */
  function Reduced(orders: seq<LimitOrder>, b: nat, quantity: int): seq<LimitOrder>
    requires b < |orders|
  {
    if quantity == orders[b].remaining then RemoveAt(orders, b)
    else orders[b := orders[b].(remaining := orders[b].remaining - quantity)]
  }

  /** One trade against the order in slot `b`. */
  function Fill(e: Engine, taker: Taker, b: nat, quantity: int): Engine
    requires b < |e.orders|
  {
    var maker := e.orders[b];
    e.(book := e.book.Adjusted(maker.side, maker.price, -quantity),
       orders := Reduced(e.orders, b, quantity),
       store := Record(e.store, ExecutionOf(taker, maker, quantity)))
  }

  /** The matching loop: trade against the best acceptable order until filled or none is left. */
  function Match(e: Engine, taker: Taker, want: int): Swept
    decreases |e.orders|
  {
    var b := BestMatch(e.orders, taker);
    if want <= 0 || b.None? then Swept(e, want, [])
    else
      var maker := e.orders[b.value];
      var quantity := Min(want, maker.remaining);
      var trade := Numbered(e.store, ExecutionOf(taker, maker, quantity));
      var next := Fill(e, taker, b.value, quantity);
      if quantity == maker.remaining then
        var rest := Match(next, taker, want - quantity);
        Swept(rest.engine, rest.left, [trade] + rest.trades)
      else Swept(next, want - quantity, [trade])
  }

  /** Put an unfilled remainder on the book. */
  function Rest(e: Engine, o: LimitOrder): Engine {
    e.(orders := e.orders + [o], book := e.book.Adjusted(o.side, o.price, o.remaining))
  }

  /** Match an incoming order and rest what is left; `None` when its own level would overflow. */
  function Enter(e: Engine, o: LimitOrder): Option<Swept> {
    var m := Match(e, TakerOf(o), o.remaining);
    if m.left <= 0 then Some(m)
    else if AdjustError(m.engine.book.Ladder(o.side), o.price, m.left).Some? then None
    else Some(m.(engine := Rest(m.engine, o.(remaining := m.left))))
  }

  /** What a command returns: new state, result or exception, and the trades it recorded. */
  datatype Outcome<T> = Outcome(engine: Engine, result: Result<T>, trades: seq<Trade>)

  function Place(e: Engine, side: Side, price: int, quantity: int): Outcome<nat> {
    if price <= 0 || quantity <= 0 then Outcome(e, Err(InvalidArgument), [])
    else if e.nextId == UINT64_MAX then Outcome(e, Err(Overflow), [])
    else
      var start := e.(book := if e.orders == [] then EMPTY else e.book,
                      nextId := e.nextId + 1, nextSequence := e.nextSequence + 1);
      match Enter(start, LimitOrder(e.nextId, side, price, quantity, quantity, e.nextSequence))
      case None => Outcome(e, Err(Overflow), [])
      case Some(m) => Outcome(m.engine, Ok(e.nextId), m.trades)
  }

  /** Take the order in slot `i` out of the vector and its open quantity out of the book. */
  function Withdraw(e: Engine, i: nat): Engine
    requires i < |e.orders|
  {
    var o := e.orders[i];
    e.(orders := RemoveAt(e.orders, i), book := e.book.Adjusted(o.side, o.price, -o.remaining))
  }

  function Cancel(e: Engine, id: nat): Outcome<bool> {
    match Slot(e.orders, id)
    case None => Outcome(e, Ok(false), [])
    case Some(i) => Outcome(Withdraw(e, i), Ok(true), [])
  }

  /** A change of quantity at the same price; only an increase takes a new sequence number. */
  function Resize(e: Engine, i: nat, quantity: int): Engine
    requires i < |e.orders|
  {
    var o := e.orders[i];
    var later := quantity > o.remaining;
    e.(book := e.book.Adjusted(o.side, o.price, quantity - o.remaining),
       orders := e.orders[i := o.(original := quantity, remaining := quantity,
                                  sequence := if later then e.nextSequence else o.sequence)],
       nextSequence := if later then e.nextSequence + 1 else e.nextSequence)
  }

  function Modify(e: Engine, id: nat, price: int, quantity: int): Outcome<bool> {
    if price <= 0 || quantity <= 0 then Outcome(e, Err(InvalidArgument), [])
    else
      match Slot(e.orders, id)
      case None => Outcome(e, Ok(false), [])
      case Some(i) =>
        var o := e.orders[i];
        if price == o.price then
          match AdjustError(e.book.Ladder(o.side), price, quantity - o.remaining)
          case Some(x) => Outcome(e, Err(x), [])
          case None => Outcome(Resize(e, i, quantity), Ok(true), [])
        else
          match Enter(Withdraw(e, i).(nextSequence := e.nextSequence + 1),
                      o.(price := price, original := quantity, remaining := quantity, sequence := e.nextSequence))
          case None => Outcome(e, Err(Overflow), [])
          case Some(m) => Outcome(m.engine, Ok(true), m.trades)
  }

  datatype ExecutionResult = ExecutionResult(
    side: Side, requested: int, executed: int, remaining: int, average: Option<int>, trades: seq<Trade>)

  /** One trade against the touch of an external book. */
  function Consume(e: Engine, side: Side, quantity: int): Engine
    requires e.book.Ladder(side.Opposite()) != []
  {
    var levels := e.book.Ladder(side.Opposite());
    var left := if quantity == levels[0].quantity then levels[1..]
                else [Level(levels[0].price, levels[0].quantity - quantity)] + levels[1..];
    e.(book := e.book.With(side.Opposite(), left),
       store := Record(e.store, Execution(side, levels[0].price, quantity, None, None)))
  }

  /** With no active orders a market order consumes the book's own levels; a level at price zero cannot trade. */
  function MatchBook(e: Engine, side: Side, want: int): Option<Swept>
    decreases |e.book.Ladder(side.Opposite())|
  {
    var levels := e.book.Ladder(side.Opposite());
    if want <= 0 || levels == [] then Some(Swept(e, want, []))
    else if levels[0].price <= 0 || levels[0].quantity <= 0 then None
    else
      var quantity := Min(want, levels[0].quantity);
      var trade := Numbered(e.store, Execution(side, levels[0].price, quantity, None, None));
      if quantity < levels[0].quantity then Some(Swept(Consume(e, side, quantity), want - quantity, [trade]))
      else
        match MatchBook(Consume(e, side, quantity), side, want - quantity)
        case None => None
        case Some(m) => Some(m.(trades := [trade] + m.trades))
  }

  function Market(e: Engine, side: Side, quantity: int): Outcome<ExecutionResult> {
    if quantity <= 0 then Outcome(e, Err(InvalidArgument), [])
    else
      var swept := if e.orders == [] then MatchBook(e, side, quantity)
                   else Some(Match(e, Taker(side, None, None), quantity));
      match swept
      case None => Outcome(e, Err(InvalidArgument), [])
      case Some(m) =>
        var executed := quantity - m.left;
        var report := ExecutionResult(side, quantity, executed, m.left, AverageOf(m.trades, executed), m.trades);
        Outcome(m.engine, Ok(report), m.trades)
  }

  datatype Command =
    | PlaceLimit(side: Side, price: Int64, quantity: Int64)
    | ExecuteMarket(side: Side, quantity: Int64)
    | CancelOrder(id: nat)
    | ModifyOrder(id: nat, price: Int64, quantity: Int64)
    | ActiveOrders
    | TradeHistory
    | ClearHistory

  datatype Response =
    | Placed(id: Result<nat>)
    | Executed(execution: Result<ExecutionResult>)
    | Changed(found: Result<bool>)
    | OrdersAre(orders: seq<LimitOrder>)
    | TradesAre(trades: seq<Trade>)
    | Cleared

  datatype Stepped = Stepped(engine: Engine, response: Response, trades: seq<Trade>)

  function Step(e: Engine, c: Command): Stepped {
    match c
    case PlaceLimit(side, price, quantity) =>
      var o := Place(e, side, price, quantity); Stepped(o.engine, Placed(o.result), o.trades)
    case ExecuteMarket(side, quantity) =>
      var o := Market(e, side, quantity); Stepped(o.engine, Executed(o.result), o.trades)
    case CancelOrder(id) =>
      var o := Cancel(e, id); Stepped(o.engine, Changed(o.result), o.trades)
    case ModifyOrder(id, price, quantity) =>
      var o := Modify(e, id, price, quantity); Stepped(o.engine, Changed(o.result), o.trades)
    case ActiveOrders => Stepped(e, OrdersAre(e.orders), [])
    case TradeHistory => Stepped(e, TradesAre(e.store.trades), [])
    case ClearHistory => Stepped(e.(store := e.store.(trades := [])), Cleared, [])
  }

  /** Book and orders describe the same liquidity on one side. */
  ghost predicate SideAgrees(levels: seq<Level>, orders: seq<LimitOrder>, side: Side) {
    WellFormed(side, levels) && forall p :: Quantity(levels, p) == SumAt(orders, side, p)
  }

  ghost predicate Agrees(book: Book, orders: seq<LimitOrder>) {
    SideAgrees(book.bids, orders, Buy) && SideAgrees(book.asks, orders, Sell)
  }

  ghost predicate Sound(o: LimitOrder, nextId: nat, nextSequence: nat) {
    1 <= o.id < nextId && 1 <= o.sequence < nextSequence && o.price > 0 && 0 < o.remaining <= o.original <= INT64_MAX
  }

  ghost predicate DistinctSequences(orders: seq<LimitOrder>) {
    forall i, j :: 0 <= i < j < |orders| ==> orders[i].sequence != orders[j].sequence
  }

  ghost predicate Uncrossed(orders: seq<LimitOrder>) {
    forall i, j :: 0 <= i < |orders| && 0 <= j < |orders| && orders[i].side.Buy? && orders[j].side.Sell? ==>
      orders[i].price < orders[j].price
  }

  ghost predicate OrdersSound(orders: seq<LimitOrder>, nextId: nat, nextSequence: nat) {
    DistinctIds(orders) && DistinctSequences(orders) && Uncrossed(orders) &&
    forall i :: 0 <= i < |orders| ==> Sound(orders[i], nextId, nextSequence)
  }

  /** The engine owns the book: every level is the sum of the orders resting there. */
  ghost predicate Live(e: Engine) {
    OrdersSound(e.orders, e.nextId, e.nextSequence) && Agrees(e.book, e.orders) && Ordered(e.store) &&
    1 <= e.nextId <= UINT64_MAX && 1 <= e.nextSequence
  }

  /** With no active order the book may instead be any well-formed external snapshot. */
  ghost predicate Inv(e: Engine) {
    if e.orders == [] then
      e.book.WellFormed() && Ordered(e.store) && 1 <= e.nextId <= UINT64_MAX && 1 <= e.nextSequence
    else Live(e)
  }
}
