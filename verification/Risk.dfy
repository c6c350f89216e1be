/** Exposure limits around market execution: no individual fill of any run takes a position past the limit. */
module Risk {
  import opened Types
  import opened Allocation
  import opened Positions
  import opened TradeStores
  import opened EngineModel
  import opened EngineInvariant
  import opened Transactions
  import opened MatchingEngines
  import opened Ledgers
  import opened MarketImpact

  type Portfolio = map<string, Holding>

  predicate TradeAllowed(limit: int, current: int, quantity: int) {
    -limit <= current + quantity <= limit
  }

  predicate PositionAllowed(limit: int, position: int) {
    position != INT64_MIN && Abs(position) <= limit
  }

  function HoldingOf(p: Portfolio, symbol: string): Holding {
    if symbol in p then p[symbol] else FLAT
  }

  /** Every position is within the limit. */
  ghost predicate Safe(p: Portfolio, limit: int) {
    forall s :: s in p ==> PositionAllowed(limit, p[s].quantity)
  }

  function Deals(side: Side, trades: seq<Trade>): (r: seq<Deal>)
    ensures |r| == |trades|
  {
    if trades == [] then []
    else
      var signed := if side.Buy? then trades[0].quantity else -trades[0].quantity;
      [Deal(signed, trades[0].price)] + Deals(side, trades[1..])
  }

  function Booked(p: Portfolio, symbol: string, deals: seq<Deal>): Portfolio
    decreases |deals|
  {
    if deals == [] then p else Booked(p[symbol := Applied(HoldingOf(p, symbol), deals[0])], symbol, deals[1..])
  }

  /** The portfolios seen after each individual fill. */
  function Snapshots(p: Portfolio, symbol: string, deals: seq<Deal>): seq<Portfolio>
    decreases |deals|
  {
    if deals == [] then []
    else
      var next := p[symbol := Applied(HoldingOf(p, symbol), deals[0])];
      [next] + Snapshots(next, symbol, deals[1..])
  }

  /** A deal moves the position by its signed quantity, whether it opens, extends, reduces, closes or flips. */
  lemma AppliedQuantity(h: Holding, d: Deal)
    requires Tradable(d)
    ensures Applied(h, d).quantity == h.quantity + d.quantity
  {
  }

  /** The pre-trade check admits exactly the trades whose resulting position is allowed. */
  lemma TradeCheckIsExact(limit: int, current: int, quantity: int)
    requires 0 < limit <= INT64_MAX
    ensures TradeAllowed(limit, current, quantity) <==> PositionAllowed(limit, current + quantity)
  {
  }

  /** There is one snapshot per fill, and each is what booking the fills up to it gives. */
  lemma {:induction false} SnapshotsAre(p: Portfolio, symbol: string, deals: seq<Deal>)
    ensures |Snapshots(p, symbol, deals)| == |deals|
    ensures forall k :: 0 <= k < |deals| ==> Snapshots(p, symbol, deals)[k] == Booked(p, symbol, deals[..k + 1])
    decreases |deals|
  {
    hide Positions.Applied;
    if deals != [] {
      var next := p[symbol := Applied(HoldingOf(p, symbol), deals[0])];
      SnapshotsAre(next, symbol, deals[1..]);
      forall k | 0 <= k < |deals| ensures Snapshots(p, symbol, deals)[k] == Booked(p, symbol, deals[..k + 1]) {
        assert deals[..k + 1][1..] == deals[1..][..k];
      }
    }
  }

  /** Partial fills stay between the position before and the position the limit was checked for. */
  lemma {:induction false} FillsStayWithin(p: Portfolio, symbol: string, side: Side, trades: seq<Trade>, limit: int)
    requires 0 < limit <= INT64_MAX && Safe(p, limit)
    requires forall k :: 0 <= k < |trades| ==> trades[k].price > 0 && trades[k].quantity > 0
    requires TradeAllowed(limit, HoldingOf(p, symbol).quantity, if side.Buy? then Volume(trades) else -Volume(trades))
    ensures Safe(Booked(p, symbol, Deals(side, trades)), limit)
    ensures forall q :: q in Snapshots(p, symbol, Deals(side, trades)) ==> Safe(q, limit)
    decreases |trades|
  {
    if trades != [] {
      var deals := Deals(side, trades);
      var h := HoldingOf(p, symbol);
      AppliedQuantity(h, deals[0]);
      var next := p[symbol := Applied(h, deals[0])];
      VolumePrefix(trades[1..], 0);
      assert symbol in p ==> PositionAllowed(limit, p[symbol].quantity);
      assert Safe(next, limit);
      assert deals[1..] == Deals(side, trades[1..]);
      FillsStayWithin(next, symbol, side, trades[1..], limit);
    }
  }

  /** The desk: an engine and the positions that fills are booked to. */
  datatype Desk = Desk(engine: Engine, positions: Portfolio)

  datatype Managed = Managed(desk: Desk, result: Result<ExecutionResult>)

  function Execute(desk: Desk, limit: int, symbol: string, side: Side, quantity: int): Managed {
    if quantity <= 0 || symbol == "" then Managed(desk, Err(InvalidArgument))
    else if !TradeAllowed(limit, HoldingOf(desk.positions, symbol).quantity,
                          if side.Buy? then quantity else -quantity) then
      Managed(desk, Err(RiskRejected))
    else
      var sold := Market(desk.engine, side, quantity);
      match sold.result
      case Err(e) => Managed(desk, Err(e))
      case Ok(x) => Managed(Desk(sold.engine, Booked(desk.positions, symbol, Deals(side, x.trades))), sold.result)
  }

  /** Admission, with the arithmetic written out: an order is turned down for risk exactly when the position it asks
      for is outside the limit; any other valid order gets what the engine answers. */
  lemma AdmissionIsExact(desk: Desk, limit: int, symbol: string, side: Side, quantity: int)
    ensures var held := if symbol in desk.positions then desk.positions[symbol].quantity else 0;
            var asked := if side.Buy? then held + quantity else held - quantity;
            var done, sold := Execute(desk, limit, symbol, side, quantity), Market(desk.engine, side, quantity);
            if quantity <= 0 || symbol == "" then done == Managed(desk, Err(InvalidArgument))
            else
              (done.result == Err(RiskRejected) <==> asked < -limit || asked > limit) &&
              (done.result == Err(RiskRejected) ==> done.desk == desk) &&
              (-limit <= asked <= limit ==> done.result == sold.result && done.desk.engine == sold.engine)
  {
    hide MatchBook, Match;
  }

  /** Booking is folding: the symbol's position takes the deals in order, and no other symbol changes. */
  lemma {:induction false} BookedIsFold(p: Portfolio, symbol: string, deals: seq<Deal>)
    ensures HoldingOf(Booked(p, symbol, deals), symbol) == Fold(HoldingOf(p, symbol), deals)
    ensures forall other :: other != symbol ==>
              (other in Booked(p, symbol, deals) <==> other in p) &&
              HoldingOf(Booked(p, symbol, deals), other) == HoldingOf(p, other)
    ensures symbol in Booked(p, symbol, deals) <==> symbol in p || deals != []
    decreases |deals|
  {
    hide Positions.Applied;
    if deals != [] {
      BookedIsFold(p[symbol := Applied(HoldingOf(p, symbol), deals[0])], symbol, deals[1..]);
    }
  }

  /** As deals, the fills of a buy are worth their volume at the mark less the cash paid for them; of a sell, the
      opposite. */
  lemma {:induction false} DealsAreFills(side: Side, trades: seq<Trade>, mark: int)
    ensures MarkToMarket(Deals(side, trades), mark) ==
            if side.Buy? then Volume(trades) * mark - Notional(trades) else Notional(trades) - Volume(trades) * mark
  {
    if trades != [] {
      DealsAreFills(side, trades[1..], mark);
      var q, p := trades[0].quantity, trades[0].price;
      assert Deals(side, trades)[1..] == Deals(side, trades[1..]);
      assert (q + Volume(trades[1..])) * mark == q * mark + Volume(trades[1..]) * mark;
      assert q * (mark - p) == q * mark - p * q && (-q) * (mark - p) == p * q - q * mark;
    }
  }

  /** What a booked execution does to a position: its quantity moves by the executed volume, and its profit at every
      mark by the value of that volume less the cash exchanged, up to the accounting error of the position. */
  lemma ExecutionMovesPosition(p: Portfolio, symbol: string, side: Side, trades: seq<Trade>, mark: int)
    requires Healthy(HoldingOf(p, symbol))
    requires forall k :: 0 <= k < |trades| ==> trades[k].price > 0 && trades[k].quantity > 0
    ensures var was, now := HoldingOf(p, symbol), HoldingOf(Booked(p, symbol, Deals(side, trades)), symbol);
            var error := Drift(was, Deals(side, trades)) - Wrapped(was, Deals(side, trades));
            if side.Buy? then
              now.quantity == was.quantity + Volume(trades) &&
              Pnl(now, mark) == Pnl(was, mark) + Volume(trades) * mark - Notional(trades) + error
            else
              now.quantity == was.quantity - Volume(trades) &&
              Pnl(now, mark) == Pnl(was, mark) + Notional(trades) - Volume(trades) * mark + error
  {
    hide Positions.Applied, Booked, Deals, Fold, Pnl, Drift, Wrapped;
    var deals := Deals(side, trades);
    DealsPointwise(side, trades);
    BookedIsFold(p, symbol, deals);
    DealsAreFills(side, trades, mark);
    PnlIdentity(HoldingOf(p, symbol), deals, mark);
    FoldQuantity(HoldingOf(p, symbol), side, trades);
  }

  lemma {:induction false} FoldQuantity(h: Holding, side: Side, trades: seq<Trade>)
    requires forall k :: 0 <= k < |trades| ==> trades[k].price > 0 && trades[k].quantity > 0
    ensures Fold(h, Deals(side, trades)).quantity ==
            if side.Buy? then h.quantity + Volume(trades) else h.quantity - Volume(trades)
    decreases |trades|
  {
    hide Positions.Applied;
    if trades != [] {
      var deals := Deals(side, trades);
      AppliedQuantity(h, deals[0]);
      assert deals[1..] == Deals(side, trades[1..]);
      FoldQuantity(Applied(h, deals[0]), side, trades[1..]);
    }
  }

  /** A managed order that succeeds moves its own symbol's position by what it executed, and no other. */
  lemma ExecuteMovesPosition(desk: Desk, limit: int, symbol: string, side: Side, quantity: Int64)
    requires Inv(desk.engine)
    ensures var done := Execute(desk, limit, symbol, side, quantity);
            match done.result
            case Err(_) => done.desk.positions == desk.positions
            case Ok(x) =>
              var was := HoldingOf(desk.positions, symbol).quantity;
              var now := HoldingOf(done.desk.positions, symbol).quantity;
              now == (if side.Buy? then was + x.executed else was - x.executed) &&
              forall other :: other != symbol ==>
                HoldingOf(done.desk.positions, other) == HoldingOf(desk.positions, other)
  {
    hide Inv, Market, Booked, Deals, Fold;
    if Execute(desk, limit, symbol, side, quantity).result.Ok? {
      MarketFills(desk.engine, side, quantity);
      var x := Market(desk.engine, side, quantity).result.value;
      BookedIsFold(desk.positions, symbol, Deals(side, x.trades));
      FoldQuantity(HoldingOf(desk.positions, symbol), side, x.trades);
    }
  }

  /** The portfolios seen during one managed order, fill by fill. */
  function FillsOf(desk: Desk, limit: int, symbol: string, side: Side, quantity: int): seq<Portfolio> {
    match Execute(desk, limit, symbol, side, quantity).result
    case Err(_) => []
    case Ok(x) => Snapshots(desk.positions, symbol, Deals(side, x.trades))
  }

  lemma ExecuteKeepsSafe(desk: Desk, limit: int, symbol: string, side: Side, quantity: Int64)
    requires 0 < limit <= INT64_MAX && Inv(desk.engine) && Safe(desk.positions, limit)
    ensures Inv(Execute(desk, limit, symbol, side, quantity).desk.engine)
    ensures Safe(Execute(desk, limit, symbol, side, quantity).desk.positions, limit)
    ensures forall p :: p in FillsOf(desk, limit, symbol, side, quantity) ==> Safe(p, limit)
  {
    hide Inv, Safe, Market, Booked, Snapshots, HoldingOf;
    MarketKeepsInv(desk.engine, side, quantity);
    if Execute(desk, limit, symbol, side, quantity).result.Ok? {
      MarketFills(desk.engine, side, quantity);
      var x := Market(desk.engine, side, quantity).result.value;
      PartialWithin(limit, HoldingOf(desk.positions, symbol).quantity, quantity, x.executed, side, desk.positions,
                    symbol);
      FillsStayWithin(desk.positions, symbol, side, x.trades, limit);
    }
  }

  lemma PartialWithin(limit: int, current: int, quantity: int, executed: int, side: Side, p: Portfolio, symbol: string)
    requires Safe(p, limit) && current == HoldingOf(p, symbol).quantity && 0 < limit
    requires TradeAllowed(limit, current, if side.Buy? then quantity else -quantity) && 0 <= executed <= quantity
    ensures TradeAllowed(limit, current, if side.Buy? then executed else -executed)
  {
  }

  /** A run of the desk mixes managed orders with anything else that happens to the engine. */
  datatype Action =
    | ManagedOrder(symbol: string, side: Side, quantity: Int64)
    | Elsewhere(event: Event)

  function Act(desk: Desk, limit: int, a: Action): Desk {
    match a
    case ManagedOrder(symbol, side, quantity) => Execute(desk, limit, symbol, side, quantity).desk
    case Elsewhere(event) => desk.(engine := Apply(desk.engine, event))
  }

  ghost predicate AdmittedActions(desk: Desk, limit: int, actions: seq<Action>)
    decreases |actions|
  {
    actions != [] ==>
      (actions[0].Elsewhere? ==> Admitted(desk.engine, actions[0].event)) &&
      AdmittedActions(Act(desk, limit, actions[0]), limit, actions[1..])
  }

  /** Every portfolio that ever existed in a run, one per individual fill. */
  function History(desk: Desk, limit: int, actions: seq<Action>): seq<Portfolio>
    decreases |actions|
  {
    if actions == [] then []
    else
      (match actions[0]
       case ManagedOrder(symbol, side, quantity) => FillsOf(desk, limit, symbol, side, quantity)
       case Elsewhere(_) => []) + History(Act(desk, limit, actions[0]), limit, actions[1..])
  }

  function ActAll(desk: Desk, limit: int, actions: seq<Action>): Desk
    decreases |actions|
  {
    if actions == [] then desk else ActAll(Act(desk, limit, actions[0]), limit, actions[1..])
  }

  /** Exposure safety over every run: started within the limit, every symbol is within it after every single fill and at
      the end. */
  lemma {:induction false} RunStaysWithinLimit(desk: Desk, limit: int, actions: seq<Action>)
    requires 0 < limit <= INT64_MAX && Inv(desk.engine) && Safe(desk.positions, limit)
    requires AdmittedActions(desk, limit, actions)
    ensures forall p :: p in History(desk, limit, actions) ==> Safe(p, limit)
    ensures Safe(ActAll(desk, limit, actions).positions, limit)
    decreases |actions|
  {
    hide Inv, Safe, Execute, FillsOf, Step;
    if actions != [] {
      var next := Act(desk, limit, actions[0]);
      match actions[0] {
        case ManagedOrder(symbol, side, quantity) => ExecuteKeepsSafe(desk, limit, symbol, side, quantity);
        case Elsewhere(event) => ApplyKeepsInv(desk.engine, event);
      }
      RunStaysWithinLimit(next, limit, actions[1..]);
    }
  }

  lemma ApplyKeepsInv(e: Engine, event: Event)
    requires Inv(e) && Admitted(e, event)
    ensures Inv(Apply(e, event))
  {
    hide Live, Step;
    if event.Do? {
      StepKeepsInv(e, event.command);
    }
  }

  class PositionManager {
    var positions: Portfolio

    constructor ()
      ensures positions == map[]
    {
      positions := map[];
    }

    /** A refused trade leaves no empty position behind. Only a symbol seen for the first time needs memory. */
    method ApplyTrade(symbol: string, quantity: int, price: int, memory: Memory) returns (r: Result<()>)
      modifies this, memory
      ensures r == if symbol == "" then Err(InvalidArgument)
                   else if symbol !in old(positions) && memory.exhausted(old(memory.clock)) then
                     Err(OutOfMemory(Storage))
                   else if !Tradable(Deal(quantity, price)) then Err(InvalidArgument)
                   else Ok(())
      ensures positions == if r.Ok? then
                             old(positions)[symbol := Applied(HoldingOf(old(positions), symbol), Deal(quantity, price))]
                           else old(positions)
      ensures memory.clock == old(memory.clock) + if symbol == "" || symbol in old(positions) then 0 else 1
    {
      hide Positions.Applied;
      if symbol == "" {
        return Err(InvalidArgument);
      }
      var inserted := symbol !in positions;
      if inserted {
        var grown := memory.Allocate();
        if !grown {
          return Err(OutOfMemory(Storage));
        }
        positions := positions[symbol := FLAT];
      }
      if quantity == 0 || price <= 0 {
        if inserted {
          positions := positions - {symbol};
        }
        return Err(InvalidArgument);
      }
      positions := positions[symbol := Applied(positions[symbol], Deal(quantity, price))];
      return Ok(());
    }

    /** The loop that folds fills into a position. It stops at the first fill that is refused, with the fills before it
        booked; when the symbol is new and there is no memory for it, nothing is booked. */
    method ApplyExecution(symbol: string, side: Side, trades: seq<Trade>, memory: Memory) returns (r: Result<()>)
      modifies this, memory
      ensures r == if symbol == "" then Err(InvalidArgument)
                   else if Unaffordable(old(positions), symbol, trades, memory, old(memory.clock)) then
                     Err(OutOfMemory(Storage))
                   else if Accepted(trades) < |trades| then Err(InvalidArgument)
                   else Ok(())
      ensures positions == if symbol == "" || r == Err(OutOfMemory(Storage)) then old(positions)
                           else Booked(old(positions), symbol, Deals(side, trades)[..Accepted(trades)])
    {
      hide Positions.Applied, Booked;
      var deals := Deals(side, trades);
      DealsPointwise(side, trades);
      FirstRefused(trades);
      BookedNothing(old(positions), symbol, deals);
      if symbol == "" {
        return Err(InvalidArgument);
      }
      for i := 0 to |trades|
        invariant i <= Accepted(trades) && positions == Booked(old(positions), symbol, deals[..i])
        invariant i == 0 ==> memory.clock == old(memory.clock) && positions == old(positions)
        invariant i > 0 ==>
                  symbol in positions && !Unaffordable(old(positions), symbol, trades, memory, old(memory.clock))
      {
        var signed := if side.Buy? then trades[i].quantity else -trades[i].quantity;
        BookedStep(old(positions), symbol, deals, i);
        r := ApplyTrade(symbol, signed, trades[i].price, memory);
        if r.Err? {
          return;
        }
      }
      return Ok(());
    }
  }

  /** The first fill needs an entry for a new symbol, and there is no memory for it. */
  predicate Unaffordable(p: Portfolio, symbol: string, trades: seq<Trade>, memory: Memory, clock: nat) {
    trades != [] && symbol !in p && memory.exhausted(clock)
  }

  predicate Bookable(t: Trade) {
    t.price > 0 && t.quantity != 0
  }

  /** How many fills come before the first one that is refused. */
  function Accepted(trades: seq<Trade>): (r: nat)
    ensures r <= |trades|
  {
    if trades == [] || !Bookable(trades[0]) then 0 else 1 + Accepted(trades[1..])
  }

  lemma {:induction false} FirstRefused(trades: seq<Trade>)
    ensures forall k :: 0 <= k < Accepted(trades) ==> trades[k].price > 0 && trades[k].quantity != 0
    ensures Accepted(trades) < |trades| ==>
            trades[Accepted(trades)].price <= 0 || trades[Accepted(trades)].quantity == 0
  {
    if trades != [] && Bookable(trades[0]) {
      FirstRefused(trades[1..]);
    }
  }

  lemma BookedNothing(p: Portfolio, symbol: string, deals: seq<Deal>)
    ensures Booked(p, symbol, deals[..0]) == p
  {
  }

  lemma {:induction false} DealsPointwise(side: Side, trades: seq<Trade>)
    ensures forall k :: 0 <= k < |trades| ==>
              Deals(side, trades)[k] ==
              Deal(if side.Buy? then trades[k].quantity else -trades[k].quantity, trades[k].price)
  {
    if trades != [] {
      DealsPointwise(side, trades[1..]);
    }
  }

  lemma {:induction false} BookedStep(p: Portfolio, symbol: string, deals: seq<Deal>, n: nat)
    requires n < |deals|
    ensures var before := Booked(p, symbol, deals[..n]);
            Booked(p, symbol, deals[..n + 1]) == before[symbol := Applied(HoldingOf(before, symbol), deals[n])]
    decreases n
  {
    if n > 0 {
      BookedStep(p[symbol := Applied(HoldingOf(p, symbol), deals[0])], symbol, deals[1..], n - 1);
      assert deals[..n + 1][1..] == deals[1..][..n];
      assert deals[..n][1..] == deals[1..][..n - 1];
    } else {
      assert deals[..1] == [deals[0]];
    }
  }

  class RiskManagedExecution {
    const engine: MatchingEngine
    const manager: PositionManager
    const limit: int
    const hasAnalytics: bool
    var analyticsHealthy: bool

    ghost predicate Valid()
      reads this, manager, engine, engine.book, engine.manager, engine.store, engine.ids
    {
      engine.Valid() && 0 < limit <= INT64_MAX && Safe(manager.positions, limit)
    }

    constructor (engine: MatchingEngine, manager: PositionManager, limit: int, hasAnalytics: bool)
      requires engine.Valid() && 0 < limit <= INT64_MAX && Safe(manager.positions, limit)
      ensures Valid() && this.engine == engine && this.manager == manager && this.limit == limit && analyticsHealthy
    {
      this.engine, this.manager, this.limit, this.hasAnalytics := engine, manager, limit, hasAnalytics;
      analyticsHealthy := true;
    }

    function Value(): Desk
      reads this, manager, engine, engine.book, engine.manager, engine.store, engine.ids
    {
      Desk(engine.State(), manager.positions)
    }

    /** `execute_market_buy` and `execute_market_sell`; analytics that throw only clear the health flag. It
        succeeds exactly when the order is admitted, the engine's sweep succeeds and its fills can be booked. A
        failure leaves engine and positions alone, except where the engine's own rollback is not exact, and except
        that an execution which the engine has committed is not undone when there is no memory to book it. */
    method ExecuteMarket(symbol: string, side: Side, quantity: Int64, analyticsThrow: bool)
      returns (r: Result<ExecutionResult>)
      requires Valid()
      modifies this, manager, engine.book, engine.manager, engine.store, engine.memory
      ensures r.Ok? ==> Execute(old(Value()), limit, symbol, side, quantity) == Managed(Value(), r)
      ensures r.Ok? <==> Execute(old(Value()), limit, symbol, side, quantity).result.Ok? &&
                         engine.memory.Quiet(old(engine.memory.clock), old(engine.memory.clock) +
                                             MarketRequests(old(engine.State()), side, quantity)) &&
                         !Unbooked(engine.memory, old(engine.memory.clock), old(Value()), limit, symbol, side, quantity)
      ensures quantity <= 0 || symbol == "" ==> r == Err(InvalidArgument)
      ensures quantity > 0 && symbol != "" ==>
              var held := if symbol in old(manager.positions) then old(manager.positions)[symbol].quantity else 0;
              var asked := if side.Buy? then held + quantity else held - quantity;
              (r == Err(RiskRejected) <==> asked < -limit || asked > limit)
      ensures engine.memory.Unlimited() ==> r == Execute(old(Value()), limit, symbol, side, quantity).result
      ensures Unbooked(engine.memory, old(engine.memory.clock), old(Value()), limit, symbol, side, quantity) ==>
              r == Err(OutOfMemory(Storage)) &&
              Value() == old(Value()).(engine := Market(old(engine.State()), side, quantity).engine) &&
              Value() != old(Value())
      ensures r.Err? ==>
              (Value() == old(Value()) <==>
               !Unbooked(engine.memory, old(engine.memory.clock), old(Value()), limit, symbol, side, quantity) &&
               (Refused(old(Value()), limit, symbol, side, quantity) ||
                MarketRestores(engine.memory, old(engine.memory.clock), old(engine.State()), side, quantity)))
      ensures r.Err? ==> manager.positions == old(manager.positions)
      ensures r.Ok? ==> Valid()
      ensures Safe(manager.positions, limit)
      ensures analyticsHealthy == (old(analyticsHealthy) &&
                                   !(r.Ok? && hasAnalytics && r.value.executed != 0 && analyticsThrow))
    {
      hide Inv, Safe, Booked, Market, MarketRestores, MarketRequests, LosesFill, Damaged, Accepted, Deals,
           Positions.Applied;
      ghost var before, clock := Value(), engine.memory.clock;
      if quantity <= 0 || symbol == "" {
        return Err(InvalidArgument);
      }
      var current := if symbol in manager.positions then manager.positions[symbol].quantity else 0;
      if !TradeAllowed(limit, current, if side.Buy? then quantity else -quantity) {
        return Err(RiskRejected);
      }
      var executed := engine.ExecuteMarketOrder(side, quantity);
      if executed.Err? {
        return executed;
      }
      ExecuteKeepsSafe(before, limit, symbol, side, quantity);
      MarketFills(before.engine, side, quantity);
      AllAccepted(executed.value, side);
      FillsReachLog(before.engine, side, quantity);
      var booked := manager.ApplyExecution(symbol, side, executed.value.trades, engine.memory);
      if booked.Err? {
        return Err(booked.error);
      }
      if hasAnalytics && executed.value.executed != 0 {
        if analyticsThrow {
          analyticsHealthy := false;
        }
      }
      return executed;
    }
  }

  /** The order is turned down before it reaches the engine. */
  predicate Refused(desk: Desk, limit: int, symbol: string, side: Side, quantity: int) {
    quantity <= 0 || symbol == "" ||
    !TradeAllowed(limit, HoldingOf(desk.positions, symbol).quantity, if side.Buy? then quantity else -quantity)
  }

  /** Said before the call: the execution will be committed, but its first fill opens a position for which there
      will be no memory. */
  ghost predicate Unbooked(memory: Memory, clock: nat, desk: Desk, limit: int, symbol: string, side: Side,
                           quantity: int)
  {
    !Refused(desk, limit, symbol, side, quantity) && Market(desk.engine, side, quantity).result.Ok? &&
    Market(desk.engine, side, quantity).trades != [] && symbol !in desk.positions &&
    memory.FirstFailure(clock, clock + MarketRequests(desk.engine, side, quantity))
  }

  /** Every fill of an execution that adds up can be booked. */
  lemma AllAccepted(x: ExecutionResult, side: Side)
    requires AddsUp(x)
    ensures Accepted(x.trades) == |x.trades|
    ensures Deals(side, x.trades)[..Accepted(x.trades)] == Deals(side, x.trades)
  {
    FirstRefused(x.trades);
  }

  /** An execution with fills is not without trace. */
  lemma FillsReachLog(e: Engine, side: Side, quantity: Int64)
    ensures Market(e, side, quantity).trades != [] ==> Market(e, side, quantity).engine != e
  {
    hide Market;
    StepContinues(e, ExecuteMarket(side, quantity));
  }
}
