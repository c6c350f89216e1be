/** The transactional engine: in-place loops, journals and catch blocks over the five pieces of mutable state. */
module MatchingEngines {
  import opened Types
  import opened Levels
  import opened Orders
  import opened OrderBooks
  import opened OrderManagers
  import opened TradeStores
  import opened Allocation
  import opened EngineModel
  import opened EngineInvariant
  import opened Journals
  import opened Transactions
  import opened Answers

  class MatchingEngine {
    const book: OrderBook
    const manager: OrderManager
    const store: TradeStore
    const ids: OrderIdGenerator
    const memory: Memory
    var nextSequence: nat

    function State(): Engine
      reads this, book, manager, store, ids
    {
      Engine(book.Value(), manager.orders, store.Value(), ids.nextId, nextSequence)
    }

    ghost predicate Valid()
      reads this, book, manager, store, ids
    {
      manager.Valid() && Inv(State())
    }

    constructor (book: OrderBook, memory: Memory)
      requires book.Value().WellFormed()
      ensures Valid() && this.book == book && this.memory == memory
      ensures fresh(manager) && fresh(store) && fresh(ids)
      ensures State() == Initial(book.Value())
    {
      this.book, this.memory := book, memory;
      manager := new OrderManager();
      store := new TradeStore();
      ids := new OrderIdGenerator();
      nextSequence := 1;
    }

    function FindBestMatch(taker: Taker): (r: Option<nat>)
      requires manager.Valid()
      reads this, manager
      ensures r == BestMatch(manager.orders, taker)
    {
      var best := manager.BestOrder(taker.side.Opposite());
      if best.None? || !taker.Accepts(manager.orders[best.value].price) then None else best
    }

    /** Reduce the book and the resting order, removing it when filled; none of this can fail. */
    method ReduceResting(b: nat, quantity: int, pending: Mutation) returns (entry: Mutation)
      requires manager.Valid() && Live(State()) && b < |manager.orders| && 0 < quantity <= manager.orders[b].remaining
      requires pending == MutationOf(manager.orders[b], quantity)
      modifies book, manager
      ensures manager.Valid()
      ensures var maker := old(manager.orders)[b];
              book.Value() == old(book.Value()).Adjusted(maker.side, maker.price, -quantity) &&
              manager.orders == Reduced(old(manager.orders), b, quantity)
      ensures Reverts(entry, manager.orders, old(manager.orders), true)
    {
      hide Live, Reverts, Consistent, AddAt, AdjustError, Quantity, Sorted, Representable, Slot, RemovalOf, MutationOf;
      var maker := manager.orders[b];
      ghost var before := State();
      OpenOrder(before, b);
      OpenQuantityFits(before, b, quantity);
      entry := pending;
      var adjusted := book.Adjust(maker.side, maker.price, -quantity, true);
      manager.SetQuantities(b, maker.original, maker.remaining - quantity);
      ghost var emptied := manager.orders;
      if manager.orders[b].remaining == 0 {
        SlotUnique(emptied, b);
        var removed, removal := manager.RemoveOrder(maker.id);
        entry := entry.(removal := removal, removed := true);
        assert RemoveAt(emptied, b) == RemoveAt(old(manager.orders), b);
      }
      FillReverts(before, Taker(Buy, None, None), b, quantity);
    }

    /** One pass of the matching loop after the journal entry was pushed. Only the recording can fail. */
    method ExecuteTrade(taker: Taker, b: nat, want: int, collect: bool) returns (r: Result<Trade>, entry: Mutation)
      requires manager.Valid() && Live(State()) && want > 0
      requires BestMatch(manager.orders, taker) == Some(b)
      modifies book, manager, store, memory
      ensures manager.Valid()
      ensures var maker := old(manager.orders)[b]; var quantity := Min(want, maker.remaining);
              if r.Ok? then
                r.value == Numbered(old(store.Value()), ExecutionOf(taker, maker, quantity)) &&
                State() == Fill(old(State()), taker, b, quantity) &&
                Reverts(entry, manager.orders, old(manager.orders), true)
              else
                r.error == OutOfMemory(TradeRecord(maker.price, quantity)) && !memory.Unlimited() &&
                book.Value() == old(book.Value()) && manager.orders == old(manager.orders) &&
                entry == MutationOf(maker, quantity) &&
                store.Value() == if memory.exhausted(old(memory.clock)) then old(store.Value())
                                 else Record(old(store.Value()), ExecutionOf(taker, maker, quantity))
      ensures r.Err? <==> memory.exhausted(old(memory.clock)) || (collect && memory.exhausted(old(memory.clock) + 1))
      ensures r.Ok? ==> memory.clock == old(memory.clock) + if collect then 2 else 1
      ensures Extends(store.Value(), old(store.Value()))
    {
      hide OrdersSound, Ordered, Agrees, Reverts, BestMatch, Consistent, Reduced, AddAt, Sorted, Representable;
      var maker := manager.orders[b];
      OpenOrder(State(), b);
      var quantity := Min(want, maker.remaining);
      entry := MutationOf(maker, quantity);
      var recorded := store.RecordTrade(ExecutionOf(taker, maker, quantity), memory);
      if recorded.Err? {
        return Err(OutOfMemory(TradeRecord(maker.price, quantity))), entry;
      }
      if collect {
        var collected := memory.Allocate();
        if !collected {
          return Err(OutOfMemory(TradeRecord(maker.price, quantity))), entry;
        }
      }
      RecordKeepsOrdered(old(store.Value()), ExecutionOf(taker, maker, quantity));
      entry := ReduceResting(b, quantity, entry);
      return Ok(recorded.value), entry;
    }

    /** One pass of the matching loop: push a journal entry, trade, complete the entry. */
    method JournalTrade(taker: Taker, b: nat, want: int, collect: bool, journal: seq<Mutation>)
      returns (r: Result<Trade>, extended: seq<Mutation>)
      requires manager.Valid() && Live(State()) && want > 0
      requires BestMatch(manager.orders, taker) == Some(b)
      modifies book, manager, store, memory
      ensures manager.Valid()
      ensures var start := old(memory.clock);
              r.Err? <==>
              memory.exhausted(start) || memory.exhausted(start + 1) || (collect && memory.exhausted(start + 2))
      ensures r.Ok? ==> memory.clock == old(memory.clock) + if collect then 3 else 2
      ensures var maker := old(manager.orders)[b]; var quantity := Min(want, maker.remaining);
              if memory.exhausted(old(memory.clock)) then
                r == Err(OutOfMemory(Storage)) && extended == journal && State() == old(State())
              else if r.Err? then
                r.error == OutOfMemory(TradeRecord(maker.price, quantity)) &&
                extended == journal + [MutationOf(maker, quantity)] &&
                State() == old(State()).(store := if memory.exhausted(old(memory.clock) + 1) then old(store.Value())
                                                  else Record(old(store.Value()), ExecutionOf(taker, maker, quantity)))
              else
                |extended| == |journal| + 1 && extended == journal + [extended[|journal|]] &&
                r.value == Numbered(old(store.Value()), ExecutionOf(taker, maker, quantity)) &&
                State() == Fill(old(State()), taker, b, quantity) &&
                Reverts(extended[|journal|], manager.orders, old(manager.orders), true)
    {
      hide Live, BestMatch, Reverts, Consistent, Fill;
      var pushed := memory.Allocate();
      if !pushed {
        return Err(OutOfMemory(Storage)), journal;
      }
      OpenOrder(State(), b);
      extended := journal + [MutationOf(manager.orders[b], Min(want, manager.orders[b].remaining))];
      var mutation;
      r, mutation := ExecuteTrade(taker, b, want, collect);
      extended := extended[|journal| := mutation];
    }

    /** The matching loop shared by market orders, limit orders and price changes. On failure the journal still
        leads back to the vector on entry; its last entry is unapplied when the trade could not be recorded. */
    method SweepResting(taker: Taker, want: int, collect: bool)
      returns (r: Result<int>, trades: seq<Trade>, journal: seq<Mutation>, ghost trail: seq<seq<LimitOrder>>)
      requires manager.Valid() && Live(State()) && want >= 0
      modifies book, manager, store, memory
      ensures manager.Valid() && Agrees(book.Value(), manager.orders)
      ensures r.Ok? ==> Live(State()) && Match(old(State()), taker, want) == Swept(State(), r.value, trades)
      ensures Extends(store.Value(), old(store.Value()))
      ensures |trail| == |journal| + 1 && trail[0] == old(manager.orders) && trail[|journal|] == manager.orders
      ensures Chain(journal, trail, Unrecorded(r).Some?)
      ensures r.Err? ==> r.error.OutOfMemory? && !memory.Unlimited()
      ensures r.Ok? <==> Untroubled(memory, old(memory.clock), collect, |Match(old(State()), taker, want).trades|)
      ensures r.Ok? ==> memory.clock == PassStart(old(memory.clock), collect, |trades|)
      ensures forall k: nat :: k < |Match(old(State()), taker, want).trades| ==>
                (LosesFill(memory, old(memory.clock), collect, k) <==> Unrecorded(r).Some? && k == |trades|)
      ensures Unrecorded(r).Some? ==>
              Lost(memory, old(memory.clock), collect, old(State()), taker, want, |trades|, journal, trail,
                   book.Value(), store.Value()) && Unrecorded(r) == Some(SiteOf(journal[|journal| - 1]))
    {
      hide Live, BestMatch, Match, Chain, Reverts, Consistent, Fill, Agrees, Extends, LosesFill, Untroubled,
           RecordFails, Lost, Sweeping, PassStart, Record, Numbered, ExecutionOf;
      ghost var entry, start := State(), memory.clock;
      StartsUntroubled(memory, start, collect);
      SweepStarts(entry, taker, want);
      var left := want;
      trades, journal, trail := [], [], [manager.orders];
      while left > 0
        invariant manager.Valid() && Sweeping(entry, taker, want, State(), left, trades, journal, trail)
        invariant memory.clock == PassStart(start, collect, |trades|) && Untroubled(memory, start, collect, |trades|)
        decreases left
      {
        ghost var before := State();
        SweepingFacts(entry, taker, want, before, left, trades, journal, trail);
        var best := FindBestMatch(taker);
        if best.None? {
          break;
        }
        SweepContinues(entry, taker, want, before, left, trades, journal, trail);
        var b := best.value;
        var quantity := Min(left, manager.orders[b].remaining);
        OpenOrder(before, b);
        ghost var done := journal;
        var traded;
        traded, journal := JournalTrade(taker, b, left, collect, journal);
        if traded.Err? {
          ghost var planned := |Match(entry, taker, want).trades|;
          if traded.error.site.Storage? {
            PushFails(memory, start, collect, |trades|, planned);
          } else {
            PassFails(memory, start, collect, |trades|, planned);
            SweepLoses(memory, start, collect, entry, taker, want, before, left, trades, done, trail, b, store.Value());
            trail := trail + [manager.orders];
          }
          return Err(traded.error), trades, journal, trail;
        }
        SweepStep(entry, taker, want, before, left, trades, done, trail, b, journal[|done|]);
        UntroubledPass(memory, start, collect, |trades|);
        trail := trail + [manager.orders];
        trades := trades + [traded.value];
        left := left - quantity;
      }
      SweepingFacts(entry, taker, want, State(), left, trades, journal, trail);
      SweepEnds(entry, taker, want, State(), left, trades, journal, trail);
      NothingLost(memory, start, collect, |trades|);
      return Ok(left), trades, journal, trail;
    }

    /** Undo one journal entry in the order vector; the "disappeared" branch is unreachable. */
    method RevertOrder(m: Mutation, ghost before: seq<LimitOrder>) returns (r: Result<()>)
      requires manager.Valid() && RevertsOrders(m, manager.orders, before)
      modifies manager
      ensures r.Ok? && manager.Valid() && manager.orders == before
    {
      if m.removed {
        var spent;
        r, spent := manager.RestoreRemoval(m.Revived());
      } else {
        var slot := manager.Find(m.id);
        if slot.None? {
          return Err(LogicError);
        }
        manager.SetQuantities(slot.value, manager.orders[slot.value].original, m.original);
        return Ok(());
      }
    }

    /** The rollback loop, newest entry first. With `readd` each entry's quantity also goes back into the book, which
        is exact unless the newest entry was never applied: then the book ends up with that quantity in excess, and the
        loop itself raises exactly when the excess makes the level on entry unrepresentable. */
    method UndoJournal(journal: seq<Mutation>, readd: bool, ghost trail: seq<seq<LimitOrder>>, ghost gap: bool)
      returns (r: Result<()>)
      requires manager.Valid() && Chain(journal, trail, gap) && manager.orders == trail[|journal|]
      requires readd ==> Agrees(book.Value(), manager.orders)
      modifies book, manager
      ensures manager.Valid()
      ensures !readd ==> r.Ok? && book.Value() == old(book.Value())
      ensures r.Ok? ==> manager.orders == trail[0]
      ensures readd && !gap ==> r.Ok? && Agrees(book.Value(), trail[0])
      ensures readd && gap ==>
              var m := journal[|journal| - 1];
              (r.Ok? <==> SumAt(trail[0], m.side, m.price) + m.executed <= INT64_MAX) &&
              (r.Ok? ==> Padded(book.Value(), trail[0], m.side, m.price, m.executed))
      ensures r.Err? ==> r.error == RollbackAborted(SiteOf(journal[|journal| - 1])) && gap &&
                         exists j: nat :: Stuck(journal, trail, j, manager.orders, book.Value(), old(book.Value()))
    {
      hide Consistent, RevertsOrders, Agrees, Padded, SumAt, Fits, NoMore, AdjustError;
      var k := |journal|;
      ghost var excess := if gap then journal[|journal| - 1] else MutationOf(LimitOrder(0, Buy, 0, 0, 0, 0), 0);
      AgreesIsPadded(book.Value(), manager.orders, excess.side, excess.price);
      while k > 0
        invariant 0 <= k <= |journal|
        invariant manager.Valid() && manager.orders == trail[k]
        invariant !readd ==> book.Value() == old(book.Value())
        invariant readd ==> Padded(book.Value(), trail[k], excess.side, excess.price,
                                   if gap && k < |journal| then excess.executed else 0)
        invariant readd && gap && k < |journal| ==>
                  SumAt(trail[k], excess.side, excess.price) + excess.executed <= INT64_MAX
        invariant k == |journal| ==> book.Value() == old(book.Value())
      {
        k := k - 1;
        var m := journal[k];
        ghost var applied := !(gap && k == |journal| - 1);
        assert Reverts(m, trail[k + 1], trail[k], applied);
        var reverted := RevertOrder(m, trail[k]);
        if readd {
          ghost var extra := if gap && k + 1 < |journal| then excess.executed else 0;
          if applied {
            UndoPads(m, trail[k + 1], trail[k], book.Value(), excess.side, excess.price, extra);
          } else {
            GapPads(m, trail[k], book.Value());
          }
          PaddedWellFormed(book.Value(), trail[k + 1], excess.side, excess.price, extra);
          LevelGrowth(trail[k], trail[0], excess.side, excess.price);
          var adjusted := book.Adjust(m.side, m.price, m.executed, true);
          if adjusted.Err? {
            assert Stuck(journal, trail, k, manager.orders, book.Value(), old(book.Value()));
            return Err(RollbackAborted(SiteOf(journal[|journal| - 1])));
          }
        }
      }
      AgreesIsPadded(book.Value(), manager.orders, excess.side, excess.price);
      return Ok(());
    }

    /** One trade against the touch of an external book. */
    method TradeTouch(side: Side, want: int) returns (r: Result<Trade>)
      requires Inv(State()) && manager.orders == [] && want > 0 && book.Value().Ladder(side.Opposite()) != []
      modifies book, store, memory
      ensures var touch := old(book.Value()).Ladder(side.Opposite())[0];
              var quantity := Min(want, touch.quantity);
              var x := Execution(side, touch.price, quantity, None, None);
              0 < quantity && (r == Err(InvalidArgument) <==> touch.price <= 0) &&
              if r.Ok? then
                State() == Consume(old(State()), side, quantity) && r.value == Numbered(old(store.Value()), x)
              else store.Value() == old(store.Value()) || store.Value() == Record(old(store.Value()), x)
      ensures r.Ok? ==> memory.clock == old(memory.clock) + 2 && memory.Quiet(old(memory.clock), memory.clock)
      ensures r.Err? ==> r.error == InvalidArgument ||
                         (r.error == OutOfMemory(Storage) && !memory.Quiet(old(memory.clock), old(memory.clock) + 2))
    {
      hide Inv, Consume, AddAt, Sorted, Representable, Quantity, Record, Numbered;
      ExternalSound(State(), side);
      var touch := (if side.Buy? then book.asks else book.bids)[0];
      var quantity := Min(want, touch.quantity);
      UpdateConsumes(State(), side, quantity);
      r := store.RecordTrade(Execution(side, touch.price, quantity, None, None), memory);
      if r.Err? {
        return;
      }
      var collected := memory.Allocate();
      if !collected {
        return Err(OutOfMemory(Storage));
      }
      var updated := book.Update(side.Opposite(), touch.price, touch.quantity - quantity, true);
    }

    /** The market loop against an external book; the caller restores book and log when it fails. */
    method SweepExternal(side: Side, want: int) returns (r: Result<int>, trades: seq<Trade>)
      requires manager.orders == [] && Inv(State()) && want >= 0
      modifies book, store, memory
      ensures r.Ok? ==> Inv(State()) && MatchBook(old(State()), side, want) == Some(Swept(State(), r.value, trades))
      ensures r == Err(InvalidArgument) ==> MatchBook(old(State()), side, want).None?
      ensures r.Err? ==> r.error == InvalidArgument || (r.error == OutOfMemory(Storage) && !memory.Unlimited())
      ensures Extends(store.Value(), old(store.Value()))
      ensures MatchBook(old(State()), side, want).Some? ==>
              var end := old(memory.clock) + ExternalRequests(MatchBook(old(State()), side, want).value);
              (r.Ok? <==> memory.Quiet(old(memory.clock), end)) && (r.Ok? ==> memory.clock == end)
    {
      hide Inv, MatchBook, Consume, Extends, AddAt, Sorted, Representable, Quantity, SweepingBook, Record, Numbered;
      ghost var entry, start := State(), memory.clock;
      BookSweepStarts(entry, side, want);
      var left := want;
      trades := [];
      while left > 0
        invariant SweepingBook(entry, side, want, State(), left, trades)
        invariant memory.clock == start + 3 * |trades| && memory.Quiet(start, memory.clock)
        decreases left
      {
        ghost var before := State();
        BookSweepFacts(entry, side, want, before, left, trades);
        BookSweepContinues(entry, side, want, before, left, trades);
        var copied := memory.Allocate();
        if !copied {
          return Err(OutOfMemory(Storage)), trades;
        }
        var levels := if side.Buy? then book.asks else book.bids;
        if levels == [] {
          return Ok(left), trades;
        }
        var quantity := Min(left, levels[0].quantity);
        var traded := TradeTouch(side, left);
        if traded.Err? {
          ghost var x := Execution(side, levels[0].price, quantity, None, None);
          RecordExtends(before.store, x);
          ExtendsTransitive(entry.store, before.store, Record(before.store, x));
          return Err(traded.error), trades;
        }
        BookSweepStep(entry, side, want, before, left, trades);
        trades := trades + [traded.value];
        left := left - quantity;
      }
      BookSweepFacts(entry, side, want, State(), left, trades);
      BookSweepEnds(entry, side, want, State(), trades);
      return Ok(left), trades;
    }

    /** A market order while no order is active; a failure restores the copy of the book and the log. */
    method ExecuteExternal(side: Side, quantity: Int64) returns (r: Result<ExecutionResult>)
      requires Valid() && manager.orders == [] && quantity > 0
      modifies book, store, memory
      ensures r.Ok? ==> Valid() && Market(old(State()), side, quantity) == Outcome(State(), r, r.value.trades) &&
                        memory.clock == old(memory.clock) + MarketRequests(old(State()), side, quantity)
      ensures r.Ok? <==> Market(old(State()), side, quantity).result.Ok? &&
                         memory.Quiet(old(memory.clock),
                                      old(memory.clock) + MarketRequests(old(State()), side, quantity))
      ensures r == Err(InvalidArgument) ==> Market(old(State()), side, quantity).result == r
      ensures r.Err? ==> State() == old(State()) && (r.error == InvalidArgument || r.error == OutOfMemory(Storage))
      ensures memory.Unlimited() ==> r == Market(old(State()), side, quantity).result
    {
      hide Inv, MatchBook, Extends, Consistent;
      var checkpoint := CheckpointOf(store.Value());
      var copied := memory.Allocate();
      if !copied {
        return Err(OutOfMemory(Storage));
      }
      var backup := Book(book.bids, book.asks);
      var left, trades := SweepExternal(side, quantity);
      if left.Err? {
        book.Assign(backup);
        RollbackExact(store.Value(), old(store.Value()));
        var undone := store.Rollback(checkpoint);
        return Err(left.error);
      }
      var average := AveragePrice(trades, quantity - left.value);
      return Ok(ExecutionResult(side, quantity, quantity - left.value, left.value, average, trades));
    }

    /** A market order against the active orders, with its journal. */
    method ExecuteActive(side: Side, quantity: Int64) returns (r: Result<ExecutionResult>)
      requires Valid() && manager.orders != [] && quantity > 0
      modifies book, manager, store, memory
      ensures manager.Valid()
      ensures r.Ok? ==> Valid() && Market(old(State()), side, quantity) == Outcome(State(), r, r.value.trades) &&
                        memory.clock == old(memory.clock) + MarketRequests(old(State()), side, quantity)
      ensures r.Ok? <==> memory.Quiet(old(memory.clock),
                                      old(memory.clock) + MarketRequests(old(State()), side, quantity))
      ensures r.Err? ==> r.error.OutOfMemory? || r.error.RollbackAborted?
      ensures r.Err? ==> (State() == old(State()) <==>
                          MarketRestores(memory, old(memory.clock), old(State()), side, quantity))
      ensures forall k: nat ::
                k < |AtRisk(old(State()), side, quantity)| && LosesFill(memory, old(memory.clock), true, k) ==>
                  var site := SiteFor(AtRisk(old(State()), side, quantity)[k]);
                  r == Err(LossError(old(State()), side.Opposite(), site)) &&
                  Damaged(old(State()), old(State()), Taker(side, None, None), quantity, k,
                          Logged(memory, old(memory.clock), true, k), site, State())
    {
      hide Live, Match, MatchBook, Extends, Consistent, Chain, Padded, Agrees, LosesFill, RecordFails, Stuck, Stranded,
           After, Follows;
      ghost var clock := memory.clock;
      var checkpoint := CheckpointOf(store.Value());
      var taker := Taker(side, None, None);
      LiveAgrees(State());
      ghost var entry := State();
      var left, trades, journal, trail := SweepResting(taker, quantity, true);
      if left.Err? {
        ghost var gap := Unrecorded(left).Some?;
        var undone := UndoJournal(journal, true, trail, gap);
        ChainGap(journal, trail, gap);
        RollbackOutcome(entry, book.Value(), side.Opposite(), left, undone, journal);
        assert gap ==> LosesFill(memory, clock, true, |trades|);
        if undone.Err? {
          MarketStranded(entry, State(), taker, quantity, |trades|, memory, clock, journal, trail);
          return Err(undone.error);
        }
        RollbackExact(store.Value(), entry.store);
        var restored := store.Rollback(checkpoint);
        return Err(left.error);
      }
      LiveImpliesInv(State());
      var average := AveragePrice(trades, quantity - left.value);
      return Ok(ExecutionResult(side, quantity, quantity - left.value, left.value, average, trades));
    }

    /** A market order commits the greedy sweep or fails; it succeeds exactly when the sweep is not refused and
        none of its requests fails. Which failures restore the state is decided before the call: all but those
        whose first failing request records or collects a fill against an active order. Such a failure leaves that
        fill's quantity in the book in excess or, when its level on entry has no room for it, makes the rollback
        throw and strands the state. */
    method ExecuteMarketOrder(side: Side, quantity: Int64) returns (r: Result<ExecutionResult>)
      requires Valid()
      modifies book, manager, store, memory
      ensures manager.Valid()
      ensures memory.Unlimited() ==> r == Market(old(State()), side, quantity).result
      ensures r.Ok? ==> Valid() && Market(old(State()), side, quantity) == Outcome(State(), r, r.value.trades) &&
                        memory.clock == old(memory.clock) + MarketRequests(old(State()), side, quantity)
      ensures r.Ok? <==> Market(old(State()), side, quantity).result.Ok? &&
                         memory.Quiet(old(memory.clock),
                                      old(memory.clock) + MarketRequests(old(State()), side, quantity))
      ensures r.Ok? ==> MarketLaw(old(State()), side, quantity, Stepped(State(), Executed(r), r.value.trades))
      ensures r == Err(InvalidArgument) ==> Market(old(State()), side, quantity).result == r
      ensures r.Err? ==> r.error == InvalidArgument || r.error.OutOfMemory? || r.error.RollbackAborted?
      ensures r.Err? ==> (State() == old(State()) <==>
                          MarketRestores(memory, old(memory.clock), old(State()), side, quantity))
      ensures forall k: nat ::
                k < |AtRisk(old(State()), side, quantity)| && LosesFill(memory, old(memory.clock), true, k) ==>
                  var site := SiteFor(AtRisk(old(State()), side, quantity)[k]);
                  r == Err(LossError(old(State()), side.Opposite(), site)) &&
                  Damaged(old(State()), old(State()), Taker(side, None, None), quantity, k,
                          Logged(memory, old(memory.clock), true, k), site, State())
    {
      hide Inv, Match, MatchBook, LosesFill, Damaged, Logged, LossError, MarketRequests, MarketLaw;
      MarketAnswer(State(), side, quantity);
      if quantity <= 0 {
        return Err(InvalidArgument);
      }
      if manager.orders == [] {
        r := ExecuteExternal(side, quantity);
      } else {
        r := ExecuteActive(side, quantity);
      }
    }

    /** Match an incoming order and rest its remainder, the forward part of a crossing placement and of a price change.
        On failure the journal and `added` say what the caller's catch block has to undo. */
    method SweepAndRest(o: LimitOrder)
      returns (r: Result<()>, trades: seq<Trade>, journal: seq<Mutation>, added: bool,
               ghost trail: seq<seq<LimitOrder>>)
      requires manager.Valid() && Live(State()) && Sound(o, ids.nextId, nextSequence) && Fresh(manager.orders, o)
      modifies book, manager, store, memory
      ensures manager.Valid() && Extends(store.Value(), old(store.Value()))
      ensures r.Ok? ==> Live(State()) && Enter(old(State()), o).Some? &&
                        Enter(old(State()), o).value.engine == State() && Enter(old(State()), o).value.trades == trades
      ensures r.Err? ==>
              (r.error.OutOfMemory? && !memory.Unlimited()) || (r.error == Overflow && Enter(old(State()), o).None?)
      ensures r.Err? ==>
              |trail| == |journal| + 1 && trail[0] == old(manager.orders) && Agrees(book.Value(), trail[|journal|]) &&
              Chain(journal, trail, Unrecorded(r).Some?) &&
              if added then Unrecorded(r).None? && Slot(manager.orders, o.id) == Some(|manager.orders| - 1) &&
                            manager.orders[..|manager.orders| - 1] == trail[|journal|]
              else manager.orders == trail[|journal|]
      ensures forall k: nat :: k < |Match(old(State()), TakerOf(o), o.remaining).trades| ==>
                (LosesFill(memory, old(memory.clock), false, k) <==> Unrecorded(r).Some? && k == |trades|)
      ensures Unrecorded(r).Some? ==>
              Lost(memory, old(memory.clock), false, old(State()), TakerOf(o), o.remaining, |trades|, journal, trail,
                   book.Value(), store.Value()) && Unrecorded(r) == Some(SiteOf(journal[|journal| - 1]))
    {
      hide Live, Match, Extends, Consistent, Chain, Agrees, BestMatch, Fresh, AddAt, AdjustError, Quantity, LosesFill,
           Lost, Untroubled;
      added := false;
      ghost var entry := State();
      EnterKeepsLive(entry, o);
      MatchKeepsFresh(entry, TakerOf(o), o.remaining, o);
      var left;
      left, trades, journal, trail := SweepResting(TakerOf(o), o.remaining, false);
      if left.Err? {
        return Err(left.error), trades, journal, added, trail;
      }
      if left.value > 0 {
        var rest := o.(remaining := left.value);
        MatchKeepsLive(entry, TakerOf(o), o.remaining);
        FreshIgnoresQuantity(manager.orders, o, left.value);
        FreshSlot(manager.orders, rest);
        LiveWellFormed(State());
        var inserted := manager.AddOrder(rest, memory);
        if inserted.Err? {
          return Err(inserted.error), trades, journal, added, trail;
        }
        added := true;
        var grown := memory.Allocate();
        var adjusted := book.Adjust(o.side, o.price, left.value, grown);
        if adjusted.Err? {
          OverflowOnly(book.Value().Ladder(o.side), o.price, left.value);
          return Err(adjusted.error), trades, journal, added, trail;
        }
      }
      return Ok(()), trades, journal, added, trail;
    }

    /** The catch block of a crossing placement: the vector and the log go back, the book is left to its backup. */
    method UndoPlacement(id: nat, journal: seq<Mutation>, added: bool, checkpoint: Checkpoint,
                         ghost trail: seq<seq<LimitOrder>>, ghost gap: bool, ghost log: Store)
      requires manager.Valid() && Chain(journal, trail, gap)
      requires if added then Slot(manager.orders, id) == Some(|manager.orders| - 1) &&
                             manager.orders[..|manager.orders| - 1] == trail[|journal|]
               else manager.orders == trail[|journal|]
      requires Extends(store.Value(), log) && checkpoint == CheckpointOf(log)
      modifies book, manager, store
      ensures manager.Valid() && manager.orders == trail[0] && store.Value() == log && book.Value() == old(book.Value())
    {
      hide Chain, Consistent, Extends;
      if added {
        var cancelled := manager.CancelOrder(id);
      }
      var undone := UndoJournal(journal, false, trail, gap);
      RollbackExact(store.Value(), log);
      var restored := store.Rollback(checkpoint);
    }

    /** A placement that does not cross: the level first, then the order. */
    method PlaceUncrossed(o: LimitOrder) returns (r: Result<()>, adjusted: bool)
      requires manager.Valid() && Live(State()) && Sound(o, ids.nextId, nextSequence) && Fresh(manager.orders, o)
      requires BestMatch(manager.orders, TakerOf(o)).None?
      modifies book, manager, memory
      ensures manager.Valid()
      ensures r.Ok? ==> Live(State()) && Enter(old(State()), o).Some? &&
                        Enter(old(State()), o).value.engine == State() && Enter(old(State()), o).value.trades == []
      ensures r.Err? ==> manager.orders == old(manager.orders)
      ensures r.Err? ==>
              (r.error.OutOfMemory? && !memory.Unlimited()) || (r.error == Overflow && Enter(old(State()), o).None?)
      ensures r.Err? ==> if adjusted then AdjustError(old(book.Value()).Ladder(o.side), o.price, o.remaining).None? &&
                                          book.Value() == old(book.Value()).Adjusted(o.side, o.price, o.remaining)
                         else book.Value() == old(book.Value())
    {
      hide Live, Fresh, BestMatch, Match, Consistent, AddAt, AdjustError, Quantity;
      adjusted := false;
      ghost var start := State();
      LiveWellFormed(start);
      EnterKeepsLive(start, o);
      MatchStops(start, TakerOf(o), o.remaining);
      OverflowOnly(start.book.Ladder(o.side), o.price, o.remaining);
      var grown := memory.Allocate();
      var rested := book.Adjust(o.side, o.price, o.remaining, grown);
      if rested.Err? {
        return Err(rested.error), adjusted;
      }
      adjusted := true;
      FreshSlot(manager.orders, o);
      var inserted := manager.AddOrder(o, memory);
      if inserted.Err? {
        return Err(inserted.error), adjusted;
      }
      return Ok(()), adjusted;
    }

    /** The try block of a placement. On failure only book, id generator and sequence counter may differ from entry, and
        `backup` or `adjusted` tells how to put the book back. */
    method TryPlace(side: Side, price: Int64, quantity: Int64, kept: Option<Book>)
      returns (r: Result<nat>, backup: Option<Book>, adjusted: bool, ghost trades: seq<Trade>)
      requires Valid() && price > 0 && quantity > 0
      requires kept == if manager.orders == [] then Some(book.Value()) else None
      modifies this, book, manager, store, ids, memory
      ensures r.Ok? ==> Valid() && Place(old(State()), side, price, quantity) == Outcome(State(), r, trades)
      ensures r.Err? ==> manager.Valid() && manager.orders == old(manager.orders) && store.Value() == old(store.Value())
      ensures r.Err? ==> (r.error.OutOfMemory? && !memory.Unlimited()) ||
                         (r.error == Overflow && Place(old(State()), side, price, quantity).result == r)
      ensures r.Err? ==> if backup.Some? then backup.value == old(book.Value())
                         else if adjusted then AdjustError(old(book.Value()).Ladder(side), price, quantity).None? &&
                                               book.Value() == old(book.Value()).Adjusted(side, price, quantity)
                         else book.Value() == old(book.Value())
    {
      hide Live, Fresh, BestMatch, Enter, Extends, Consistent, Chain, Agrees, AddAt, AdjustError, Quantity;
      ghost var entry := State();
      backup, adjusted, trades := kept, false, [];
      if kept.Some? {
        book.Assign(EMPTY);
      }
      CountersPositive(entry);
      var id := ids.Next();
      if id.Err? {
        return Err(Overflow), backup, adjusted, trades;
      }
      var o := LimitOrder(id.value, side, price, quantity, quantity, nextSequence);
      nextSequence := nextSequence + 1;
      OpenedLive(entry);
      assert State() == Opened(entry);
      ghost var start := State();
      LiveWellFormed(start);
      CrossingAgrees(start, TakerOf(o));
      EnterKeepsLive(start, o);
      if !CrossesBook(Book(book.bids, book.asks), side, price) {
        var rested;
        rested, adjusted := PlaceUncrossed(o);
        if rested.Err? {
          return Err(rested.error), backup, adjusted, trades;
        }
        LiveImpliesInv(State());
        return Ok(id.value), backup, adjusted, trades;
      }
      if backup.None? {
        var copied := memory.Allocate();
        if !copied {
          return Err(OutOfMemory(Storage)), backup, adjusted, trades;
        }
        backup := Some(Book(book.bids, book.asks));
      }
      var checkpoint := CheckpointOf(store.Value());
      var entered, made, journal, added, trail := SweepAndRest(o);
      if entered.Err? {
        UndoPlacement(id.value, journal, added, checkpoint, trail, Unrecorded(entered).Some?, start.store);
        return Err(entered.error), backup, adjusted, trades;
      }
      trades := made;
      LiveImpliesInv(State());
      return Ok(id.value), backup, adjusted, trades;
    }

    /** A limit order is placed exactly as specified or not at all: whichever forward step fails, the vector, all
        indexes, book, trade log, both trade counters, id generator and sequence counter are those of entry. */
    method PlaceLimitOrder(side: Side, price: Int64, quantity: Int64) returns (r: Result<nat>)
      requires Valid()
      modifies this, book, manager, store, ids, memory
      ensures Valid()
      ensures memory.Unlimited() ==> r == Place(old(State()), side, price, quantity).result
      ensures r.Ok? ==> Place(old(State()), side, price, quantity).engine == State() &&
                        Place(old(State()), side, price, quantity).result == r
      ensures r.Err? ==> State() == old(State()) && manager.indices == old(manager.indices) &&
                         manager.buyKeys == old(manager.buyKeys) && manager.sellKeys == old(manager.sellKeys)
      ensures r.Err? ==> r.error.OutOfMemory? || r == Place(old(State()), side, price, quantity).result
      ensures r.Ok? ==> |old(store.trades)| <= |store.trades| &&
                        PlaceLaw(old(State()), side, price, quantity,
                                 Stepped(State(), Placed(r), store.trades[|old(store.trades)|..]))
    {
      hide Inv, Place, AddAt, AdjustError, Quantity, Indexes, KeysOf;
      ghost var entry := State();
      PlacedLog(entry, side, price, quantity);
      if price <= 0 || quantity <= 0 {
        PlaceInvalid(entry, side, price, quantity);
        return Err(InvalidArgument);
      }
      var idBackup, sequenceBackup := ids.nextId, nextSequence;
      var backup: Option<Book> := None;
      if manager.orders == [] {
        var copied := memory.Allocate();
        if !copied {
          return Err(OutOfMemory(Storage));
        }
        backup := Some(Book(book.bids, book.asks));
      }
      var adjusted;
      ghost var trades;
      ghost var indices := manager.indices;
      r, backup, adjusted, trades := TryPlace(side, price, quantity, backup);
      if r.Err? {
        ids.nextId := idBackup;
        nextSequence := sequenceBackup;
        if backup.Some? {
          book.Assign(backup.value);
        } else if adjusted {
          InvWellFormed(entry);
          AdjustThenUndo(side, entry.book.Ladder(side), price, quantity);
          AdjustRefinesMap(side, entry.book.Ladder(side), price, quantity);
          var undone := book.Adjust(side, price, -quantity, true);
        }
        VectorDeterminesIndex(manager.orders, manager.indices, indices);
      }
    }

    /** Cancellation never raises; its catch block, which would re-add the order, is unreachable. */
    method CancelOrder(id: nat) returns (r: Result<bool>)
      requires Valid()
      modifies book, manager
      ensures Valid()
      ensures Cancel(old(State()), id) == Outcome(State(), r, [])
      ensures CancelLaw(old(State()), id, Stepped(State(), Changed(r), []))
    {
      hide Live, Consistent, AddAt, AdjustError, Quantity, CancelLaw;
      CancelAnswer(State(), id);
      var slot := manager.Find(id);
      if slot.None? {
        return Ok(false);
      }
      ghost var entry := State();
      var i := slot.value;
      var order := manager.orders[i];
      OpenOrder(entry, i);
      OpenQuantityFits(entry, i, order.remaining);
      WithdrawKeepsLive(entry, i);
      LiveImpliesInv(Withdraw(entry, i));
      var cancelled := manager.CancelOrder(id);
      if cancelled != Ok(true) {
        return cancelled;
      }
      var adjusted := book.Adjust(order.side, order.price, -order.remaining, true);
      if adjusted.Err? {
        assert false;
      }
      return Ok(true);
    }

    /** A change of quantity at the same price. */
    method ResizeOrder(i: nat, quantity: Int64) returns (r: Result<bool>)
      requires Valid() && i < |manager.orders| && quantity > 0
      modifies this, book, manager, memory
      ensures Valid()
      ensures var o := old(manager.orders)[i];
              Modify(old(State()), o.id, o.price, quantity) == Outcome(State(), r, []) ||
              (r == Err(OutOfMemory(Storage)) && !memory.Unlimited() && State() == old(State()))
    {
      hide Live, Consistent, AddAt, AdjustError, Quantity, Modify, Slot, Sorted, Representable;
      ghost var entry := State();
      var order := manager.orders[i];
      OpenOrder(entry, i);
      ResizeSpec(entry, i, quantity);
      CountersPositive(entry);
      var delta := quantity - order.remaining;
      if AdjustError(entry.book.Ladder(order.side), order.price, delta).None? {
        ResizeKeepsLive(entry, i, quantity);
        LiveImpliesInv(Resize(entry, i, quantity));
        AdjustThenUndo(order.side, entry.book.Ladder(order.side), order.price, delta);
      }
      ZeroChange(entry, i);
      if delta != 0 {
        var adjusted := book.Adjust(order.side, order.price, delta, true);
        if adjusted.Err? {
          return Err(adjusted.error);
        }
      }
      if delta > 0 {
        var updated := manager.UpdateSequence(order.id, nextSequence, memory);
        if updated.Err? {
          var undone := book.Adjust(order.side, order.price, -delta, true);
          return Err(updated.error);
        }
        nextSequence := nextSequence + 1;
      }
      var slot := manager.Find(order.id);
      if slot.None? {
        return Err(LogicError);
      }
      manager.SetQuantities(slot.value, quantity, quantity);
      assert manager.orders == Resize(entry, i, quantity).orders;
      return Ok(true);
    }

    /** The catch block of a price change. It puts back the resting orders, the original order's level and its slot;
        it is exact unless the sweep left an unapplied entry. */
    method UndoPriceChange(original: LimitOrder, removal: Removal, journal: seq<Mutation>, added: bool,
                           ghost entry: Engine, ghost i: nat, ghost trail: seq<seq<LimitOrder>>,
                           ghost failed: Result<()>)
      returns (r: Result<()>)
      requires Live(entry) && i < |entry.orders| && original == entry.orders[i] && removal == RemovalOf(entry.orders, i)
      requires manager.Valid() && Chain(journal, trail, Unrecorded(failed).Some?) && failed.Err?
      requires |trail| == |journal| + 1 && trail[0] == RemoveAt(entry.orders, i) &&
               Agrees(book.Value(), trail[|journal|])
      requires if added then Unrecorded(failed).None? &&
                             Slot(manager.orders, original.id) == Some(|manager.orders| - 1) &&
                             manager.orders[..|manager.orders| - 1] == trail[|journal|]
               else manager.orders == trail[|journal|]
      requires Unrecorded(failed).Some? ==>
               journal != [] && Unrecorded(failed) == Some(SiteOf(journal[|journal| - 1])) &&
               journal[|journal| - 1].side == original.side.Opposite()
      modifies book, manager
      ensures manager.Valid()
      ensures r.Ok? ==> manager.orders == entry.orders
      ensures r.Err? ==> Unrecorded(failed).Some? && r.error == RollbackAborted(failed.error.site)
      ensures Unrecorded(failed).None? ==> book.Value() == entry.book
      ensures Unrecorded(failed).Some? ==>
              (r.Err? <==> Unrepresentable(entry, original.side.Opposite(), failed.error.site)) &&
              (r.Ok? ==> Overfed(entry, entry.(book := book.Value()), original.side.Opposite(), failed.error.site))
      ensures r.Err? ==>
              !added && exists j: nat :: Stuck(journal, trail, j, manager.orders, book.Value(), old(book.Value()))
    {
      hide Stuck, Live, Consistent, Chain, Agrees, Padded, SumAt, Reverts, AdjustError, Quantity, Restorable, Restored,
           RemovalOf;
      OpenOrder(entry, i);
      if added {
        var cancelled := manager.CancelOrder(original.id);
      }
      ghost var gap := Unrecorded(failed).Some?;
      var undone := UndoJournal(journal, true, trail, gap);
      ChainGap(journal, trail, gap);
      ghost var side := original.side.Opposite();
      ghost var price := if gap then journal[|journal| - 1].price else 0;
      ghost var extra := if gap then journal[|journal| - 1].executed else 0;
      WithdrawalReverts(entry, i);
      SameOppositeLevel(entry, i, price);
      LiveAgrees(entry);
      AgreesIsPadded(book.Value(), trail[0], side, price);
      if undone.Err? {
        RollbackOutcome(entry, book.Value(), side, failed, undone, journal);
        return Err(undone.error);
      }
      UndoPads(WithdrawalOf(entry, i), trail[0], entry.orders, book.Value(), side, price, extra);
      PaddedWellFormed(book.Value(), trail[0], side, price, extra);
      var readjusted := book.Adjust(original.side, original.price, original.remaining, true);
      AgreesIsPadded(book.Value(), entry.orders, side, price);
      RollbackOutcome(entry, book.Value(), side, failed, undone, journal);
      var revived := removal.(order := original);
      RestorableAccepted(manager.orders, revived);
      var restored, spent := manager.RestoreRemoval(revived);
      return Ok(());
    }

    /** Take an order out of the vector and out of its level; neither can fail. */
    method WithdrawOrder(i: nat) returns (removal: Removal)
      requires manager.Valid() && Live(State()) && i < |manager.orders|
      modifies book, manager
      ensures manager.Valid() && removal == RemovalOf(old(manager.orders), i)
      ensures State() == Withdraw(old(State()), i)
    {
      hide Live, Consistent, AdjustError, AddAt, Quantity;
      var order := manager.orders[i];
      OpenOrder(State(), i);
      SlotUnique(manager.orders, i);
      OpenQuantityFits(State(), i, order.remaining);
      var removed;
      removed, removal := manager.RemoveOrder(order.id);
      var adjusted := book.Adjust(order.side, order.price, -order.remaining, true);
    }

    /** A change of price: withdraw the order, match its replacement, rest what is left. */
    method ChangePrice(i: nat, price: Int64, quantity: Int64) returns (r: Result<bool>, ghost trades: seq<Trade>)
      requires Valid() && i < |manager.orders| && price > 0 && quantity > 0 && price != manager.orders[i].price
      modifies this, book, manager, store, memory
      ensures manager.Valid()
      ensures r.Ok? ==>
              Valid() && Modify(old(State()), old(manager.orders)[i].id, price, quantity) == Outcome(State(), r, trades)
      ensures r == Err(Overflow) ==> Modify(old(State()), old(manager.orders)[i].id, price, quantity).result == r
      ensures r.Err? ==>
              r.error == Overflow || ((r.error.OutOfMemory? || r.error.RollbackAborted?) && !memory.Unlimited())
      ensures r.Err? ==> (State() == old(State()) <==> ModifyRestores(memory, old(memory.clock), old(State()),
                                                                     old(manager.orders)[i].id, price, quantity))
      ensures forall k: nat :: k < |Modify(old(State()), old(manager.orders)[i].id, price, quantity).trades| &&
                               LosesFill(memory, old(memory.clock), false, k) ==>
                PriceChangeLoss(old(State()), i, price, quantity, k, Logged(memory, old(memory.clock), false, k), r,
                                State())
    {
      hide Live, Consistent, Chain, Agrees, Extends, Fresh, Sound, Enter, Unrepresentable, Modify, AddAt, RemovalOf,
           RemoveAt, Slot, LosesFill, RecordFails, After, Follows, Stuck, Stranded, Match;
      trades := [];
      ghost var entry, clock := State(), memory.clock;
      var original := manager.orders[i];
      var modified := original.(price := price, original := quantity, remaining := quantity, sequence := nextSequence);
      var sequenceBackup := nextSequence;
      var checkpoint := CheckpointOf(store.Value());
      ReopenedLive(entry, i, price, quantity);
      PriceChangeSpec(entry, i, price, quantity);
      var removal := WithdrawOrder(i);
      nextSequence := nextSequence + 1;
      ghost var start := Reopened(entry, i);
      assert State() == start;
      var entered, made, journal, added, trail := SweepAndRest(modified);
      if entered.Err? {
        ChainGap(journal, trail, Unrecorded(entered).Some?);
        var undone := UndoPriceChange(original, removal, journal, added, entry, i, trail, entered);
        if undone.Err? {
          assert LosesFill(memory, clock, false, |made|);
          ghost var j: nat :| Stuck(journal, trail, j, manager.orders, book.Value(),
                                    After(start, TakerOf(modified), quantity, |made|).engine.book);
          StuckIsStranded(start, TakerOf(modified), quantity, |made|, Logged(memory, clock, false, |made|), j, journal,
                          trail, State());
          return Err(undone.error), trades;
        }
        nextSequence := sequenceBackup;
        RollbackExact(store.Value(), entry.store);
        var restored := store.Rollback(checkpoint);
        return Err(entered.error), trades;
      }
      trades := made;
      LiveImpliesInv(State());
      return Ok(true), trades;
    }

    /** A modification commits as specified or fails. Decided before the call: it restores the exact prior state, vector
        positions included, unless the first failing request records one of its fills. */
    method ModifyOrder(id: nat, price: Int64, quantity: Int64) returns (r: Result<bool>)
      requires Valid()
      modifies this, book, manager, store, memory
      ensures manager.Valid()
      ensures memory.Unlimited() ==> r == Modify(old(State()), id, price, quantity).result
      ensures r.Ok? ==> Valid() && Modify(old(State()), id, price, quantity).engine == State() &&
                        Modify(old(State()), id, price, quantity).result == r
      ensures r.Err? ==>
              r == Modify(old(State()), id, price, quantity).result || r.error.OutOfMemory? || r.error.RollbackAborted?
      ensures r.Err? ==> (State() == old(State()) <==>
                          ModifyRestores(memory, old(memory.clock), old(State()), id, price, quantity))
      ensures forall k: nat :: k < |Modify(old(State()), id, price, quantity).trades| &&
                               LosesFill(memory, old(memory.clock), false, k) ==>
                Slot(old(manager.orders), id).Some? &&
                PriceChangeLoss(old(State()), Slot(old(manager.orders), id).value, price, quantity, k,
                                Logged(memory, old(memory.clock), false, k), r, State())
      ensures r.Ok? ==> |old(store.trades)| <= |store.trades| &&
                        ModifyLaw(old(State()), id, price, quantity,
                                  Stepped(State(), Changed(r), store.trades[|old(store.trades)|..]))
    {
      hide BestMatch, Inv, Consistent, PriceChangeLoss, LosesFill, Enter, ModifyLaw;
      ghost var entry := State();
      ModifiedLog(entry, id, price, quantity);
      if price <= 0 || quantity <= 0 {
        return Err(InvalidArgument);
      }
      var slot := manager.Find(id);
      if slot.None? {
        return Ok(false);
      }
      if price == manager.orders[slot.value].price {
        r := ResizeOrder(slot.value, quantity);
      } else {
        ghost var trades;
        r, trades := ChangePrice(slot.value, price, quantity);
      }
    }
  }
}
