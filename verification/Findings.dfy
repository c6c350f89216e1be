/** Concrete inputs for the failures that do not restore the state: one resting sell order, one market buy, and the
    request that fails. */
module Findings {
  import opened Types
  import opened Levels
  import opened Orders
  import opened OrderBooks
  import opened OrderManagers
  import opened TradeStores
  import opened Allocation
  import opened EngineModel
  import opened EngineInvariant
  import opened Transactions
  import opened MatchingEngines
  import opened Answers
  import opened Ledgers
  import opened Risk

  /** The engine with a single resting sell order at price 100. */
  function Resting(quantity: int): Engine {
    Engine(Book([], [Level(100, quantity)]), [LimitOrder(1, Sell, 100, quantity, quantity, 1)], Store([], 1, 1), 2, 2)
  }

  /** A smaller market buy makes one trade with it. */
  lemma OnlyFill(quantity: int, want: int)
    requires 0 < want < quantity
    ensures Match(Resting(quantity), Taker(Buy, None, None), want).trades ==
            [Trade(Buy, 100, want, 1, None, Some(1), 1)]
    ensures var store := Store([Trade(Buy, 100, want, 1, None, Some(1), 1)], 2, 2);
            After(Resting(quantity), Taker(Buy, None, None), want, 1).engine.store == store &&
            Match(Resting(quantity), Taker(Buy, None, None), want).engine.store == store
  {
    var e, taker := Resting(quantity), Taker(Buy, None, None);
    assert Best(e.orders, Sell) == Some(0);
    AfterNext(e, taker, want, 0, 0);
  }

  /** The first pass of a market order makes requests 0, 1 and 2; failing at 1 or 2 loses its fill. */
  lemma FirstPass(memory: Memory, clock: nat)
    ensures memory.FirstFailure(clock, clock + 1) ==>
            LosesFill(memory, clock, true, 0) && Logged(memory, clock, true, 0) == 0
    ensures memory.FirstFailure(clock, clock + 2) ==>
            LosesFill(memory, clock, true, 0) && Logged(memory, clock, true, 0) == 1
  {
  }

  /** What losing that trade leaves behind. */
  lemma FillRestored(quantity: int, want: int, logged: nat, end: Engine)
    requires 0 < want < quantity && logged <= 1
    requires Damaged(Resting(quantity), Resting(quantity), Taker(Buy, None, None), want, 0, logged,
                     TradeRecord(100, want), end)
    ensures Unrepresentable(Resting(quantity), Sell, TradeRecord(100, want)) <==> quantity + want > INT64_MAX
    ensures quantity + want <= INT64_MAX ==>
            end == Resting(quantity).(book := Book([], [Level(100, quantity + want)]))
    ensures quantity + want > INT64_MAX ==>
            end == Resting(quantity).(store := if logged == 0 then Store([], 1, 1)
                                               else Store([Trade(Buy, 100, want, 1, None, Some(1), 1)], 2, 2))
  {
    var e, taker := Resting(quantity), Taker(Buy, None, None);
    OnlyFill(quantity, want);
    assert Quantity(e.book.asks, 100) == quantity;
    if quantity + want > INT64_MAX {
      var j: nat :| Stranded(e, taker, want, 0, logged, TradeRecord(100, want), j, end);
    }
  }

  lemma ExcessIsHarmful(quantity: int, want: int)
    requires Inv(Resting(quantity)) && 0 < want
    ensures !Inv(Resting(quantity).(book := Book([], [Level(100, quantity + want)])))
  {
    hide Live;
    var after := Resting(quantity).(book := Book([], [Level(100, quantity + want)]));
    OpenOrder(Resting(quantity), 0);
    OverfedBreaksInvariant(Resting(quantity), after, Sell, TradeRecord(100, want));
  }

  /** Ten units rest at 100, four are bought and recording the trade fails: the level is left with fourteen while the
      order still has its ten. */
  method GapExample(engine: MatchingEngine) returns (r: Result<ExecutionResult>)
    requires engine.Valid() && engine.State() == Place(Initial(EMPTY), Sell, 100, 10).engine
    requires engine.memory.FirstFailure(engine.memory.clock, engine.memory.clock + 1)
    modifies engine.book, engine.manager, engine.store, engine.memory
    ensures r == Err(OutOfMemory(TradeRecord(100, 4)))
    ensures engine.book.asks == [Level(100, 14)]
    ensures engine.manager.orders == old(engine.manager.orders) && engine.store.trades == []
    ensures !engine.Valid()
  {
    hide Match, Place, Inv, Live, LosesFill, Damaged, Unrepresentable, MarketRestores, Logged, MarketLaw;
    FirstPlacement(Sell, 100, 10);
    FirstPass(engine.memory, engine.memory.clock);
    OnlyFill(10, 4);
    r := engine.ExecuteMarketOrder(Buy, 4);
    FillRestored(10, 4, 0, engine.State());
    ExcessIsHarmful(10, 4);
  }

  /** The whole 64-bit range rests at 100, one unit is bought and collecting the trade fails: putting the unit back
      overflows, so the rollback throws before it reaches the log, which keeps the trade. */
  method AbortExample(engine: MatchingEngine) returns (r: Result<ExecutionResult>)
    requires engine.Valid() && engine.State() == Place(Initial(EMPTY), Sell, 100, INT64_MAX).engine
    requires engine.memory.FirstFailure(engine.memory.clock, engine.memory.clock + 2)
    modifies engine.book, engine.manager, engine.store, engine.memory
    ensures r == Err(RollbackAborted(TradeRecord(100, 1)))
    ensures engine.State() == old(engine.State()).(store := Store([Trade(Buy, 100, 1, 1, None, Some(1), 1)], 2, 2))
  {
    hide Match, Place, Inv, Live, LosesFill, Damaged, Unrepresentable, MarketRestores, Logged, MarketLaw;
    FirstPlacement(Sell, 100, INT64_MAX);
    FirstPass(engine.memory, engine.memory.clock);
    OnlyFill(INT64_MAX, 1);
    r := engine.ExecuteMarketOrder(Buy, 1);
    FillRestored(INT64_MAX, 1, 1, engine.State());
  }

  /** Four of the ten units are bought for a new symbol and there is no memory for its position: the engine has
      sold them, the desk has no position, and the risk check would admit the same order again. */
  method UnbookedExample(desk: RiskManagedExecution) returns (r: Result<ExecutionResult>)
    requires desk.Valid() && desk.engine.State() == Place(Initial(EMPTY), Sell, 100, 10).engine
    requires desk.manager.positions == map[] && desk.limit == 4
    requires desk.engine.memory.FirstFailure(desk.engine.memory.clock, desk.engine.memory.clock + 3)
    modifies desk, desk.manager, desk.engine.book, desk.engine.manager, desk.engine.store, desk.engine.memory
    ensures r == Err(OutOfMemory(Storage))
    ensures desk.engine.store.trades == [Trade(Buy, 100, 4, 1, None, Some(1), 1)] && desk.manager.positions == map[]
    ensures !Refused(desk.Value(), desk.limit, "A", Buy, 4)
  {
    hide Market, Place, Inv, Unbooked, Execute, MarketRestores, MarketRequests;
    FirstPlacement(Sell, 100, 10);
    BookingFails(desk.engine.memory, desk.engine.memory.clock);
    r := desk.ExecuteMarket("A", Buy, 4, false);
  }

  lemma BookingFails(memory: Memory, clock: nat)
    requires memory.FirstFailure(clock, clock + 3)
    ensures Unbooked(memory, clock, Desk(Resting(10), map[]), 4, "A", Buy, 4)
    ensures Market(Resting(10), Buy, 4).engine.store.trades == [Trade(Buy, 100, 4, 1, None, Some(1), 1)]
  {
    hide Match;
    OnlyFill(10, 4);
  }

  /** Two removal records restored in the order they were taken instead of the reverse: the call succeeds and the
      id index points past the end of the vector. */
  method OutOfOrderExample(manager: OrderManager, a: LimitOrder, b: LimitOrder) returns (r: Result<()>)
    requires manager.Valid() && manager.orders == [a, b]
    modifies manager
    ensures r.Ok? && manager.orders == [b] && !manager.Valid()
  {
    hide Consistent;
    IndexedDistinctly(manager, a, b);
    var removedB, recordB := manager.RemoveOrder(b.id);
    var removedA, recordA := manager.RemoveOrder(a.id);
    var spent;
    r, spent := manager.RestoreRemoval(recordB);
  }

  lemma IndexedDistinctly(manager: OrderManager, a: LimitOrder, b: LimitOrder)
    requires manager.Valid() && manager.orders == [a, b]
    ensures a.id != b.id
    ensures Slot([a, b], b.id) == Some(1) && Slot([a], a.id) == Some(0) && Slot([], b.id).None?
    ensures RemoveAt([a, b], 1) == [a] && RemoveAt([a], 0) == []
  {
    assert manager.indices[manager.orders[0].id] == 0 && manager.indices[manager.orders[1].id] == 1;
  }
}
