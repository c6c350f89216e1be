/** What each command answers, in terms of the state before and after it and of the trades it made. */
module Answers {
  import opened Types
  import opened Orders
  import opened OrderManagers
  import opened TradeStores
  import opened EngineModel
  import opened EngineInvariant
  import opened Ledgers
  import opened MarketImpact

  /** The trades of one taker: on its side, in its name, for a positive quantity and no worse than its limit. */
  ghost predicate TradesOf(trades: seq<Trade>, side: Side, own: Option<nat>, limit: Option<int>) {
    forall k :: 0 <= k < |trades| ==>
      trades[k].aggressor == side && (if side.Buy? then trades[k].buyId else trades[k].sellId) == own &&
      trades[k].quantity > 0 &&
      (limit.Some? ==> if side.Buy? then trades[k].price <= limit.value else trades[k].price >= limit.value)
  }

  /** After `filled` of it the order rests with what is left, or is gone when nothing is. */
  ghost predicate RestsWith(orders: seq<LimitOrder>, o: LimitOrder, filled: int) {
    0 <= filled <= o.remaining &&
    if filled == o.remaining then !Active(orders, o.id) else o.(remaining := o.remaining - filled) in orders
  }

  /** The log gained exactly the trades of the command. */
  ghost predicate LogGains(before: Store, trades: seq<Trade>, after: Store) {
    after.trades == before.trades + trades
  }

  ghost predicate PlaceLaw(e: Engine, side: Side, price: int, quantity: int, s: Stepped) {
    s.response.Placed? && LogGains(e.store, s.trades, s.engine.store) &&
    match s.response.id
    case Err(x) =>
      s.engine == e && s.trades == [] && x == if price <= 0 || quantity <= 0 then InvalidArgument else Overflow
    case Ok(id) =>
      price > 0 && quantity > 0 && id == e.nextId && s.engine.nextId == e.nextId + 1 &&
      TradesOf(s.trades, side, Some(id), Some(price)) &&
      RestsWith(s.engine.orders, LimitOrder(id, side, price, quantity, quantity, e.nextSequence), Volume(s.trades))
  }

  ghost predicate MarketLaw(e: Engine, side: Side, quantity: int, s: Stepped) {
    s.response.Executed? && LogGains(e.store, s.trades, s.engine.store) &&
    match s.response.execution
    case Err(x) => s.engine == e && s.trades == [] && x == InvalidArgument
    case Ok(x) =>
      quantity > 0 && x.side == side && x.requested == quantity && x.executed + x.remaining == quantity &&
      x.executed >= 0 && x.remaining >= 0 && x.trades == s.trades && Volume(s.trades) == x.executed &&
      TradesOf(s.trades, side, None, None) && IsAverage(x.average, s.trades, x.executed)
  }

  ghost predicate CancelLaw(e: Engine, id: nat, s: Stepped) {
    s.response == Changed(Ok(Active(e.orders, id))) && s.trades == [] && s.engine.store == e.store &&
    !Active(s.engine.orders, id) &&
    (forall o: LimitOrder :: o.id != id ==> (o in s.engine.orders <==> o in e.orders)) &&
    (!Active(e.orders, id) ==> s.engine == e)
  }

  /** The order a modification asks for; it keeps its place only at the same price and with no more quantity. */
  function Asked(e: Engine, o: LimitOrder, price: int, quantity: int): LimitOrder {
    LimitOrder(o.id, o.side, price, quantity, quantity,
               if price == o.price && quantity <= o.remaining then o.sequence else e.nextSequence)
  }

  ghost predicate ModifyLaw(e: Engine, id: nat, price: int, quantity: int, s: Stepped) {
    s.response.Changed? && LogGains(e.store, s.trades, s.engine.store) &&
    match s.response.found
    case Err(x) =>
      s.engine == e && s.trades == [] && x == if price <= 0 || quantity <= 0 then InvalidArgument else Overflow
    case Ok(found) =>
      price > 0 && quantity > 0 && found == Active(e.orders, id) && (!found ==> s.engine == e && s.trades == []) &&
      forall o :: o in e.orders && o.id == id ==>
        TradesOf(s.trades, o.side, Some(id), Some(price)) && (price == o.price ==> s.trades == []) &&
        RestsWith(s.engine.orders, Asked(e, o, price, quantity), Volume(s.trades))
  }

  /** The law of every command. */
  ghost predicate Lawful(e: Engine, c: Command, s: Stepped) {
    match c
    case PlaceLimit(side, price, quantity) => PlaceLaw(e, side, price, quantity, s)
    case ExecuteMarket(side, quantity) => MarketLaw(e, side, quantity, s)
    case CancelOrder(id) => CancelLaw(e, id, s)
    case ModifyOrder(id, price, quantity) => ModifyLaw(e, id, price, quantity, s)
    case ActiveOrders => s == Stepped(e, OrdersAre(e.orders), [])
    case TradeHistory => s == Stepped(e, TradesAre(e.store.trades), [])
    case ClearHistory => s.response == Cleared && s.trades == [] && s.engine.store.trades == [] &&
                         s.engine.(store := e.store) == e && s.engine.store.(trades := e.store.trades) == e.store
  }

  /** One more trade in front, with an order whose price the taker accepts. */
  lemma FillFirst(s: Store, taker: Taker, maker: LimitOrder, quantity: int, trades: seq<Trade>, after: Store)
    requires quantity > 0 && taker.Accepts(maker.price)
    ensures var x := ExecutionOf(taker, maker, quantity); var all := [Numbered(s, x)] + trades;
            (TradesOf(trades, taker.side, taker.id, taker.limit) ==>
              TradesOf(all, taker.side, taker.id, taker.limit)) &&
            (LogGains(Record(s, x), trades, after) ==> LogGains(s, all, after))
  {
    LogTwice(s, [Numbered(s, ExecutionOf(taker, maker, quantity))], trades);
  }

  lemma MatchAccepts(orders: seq<LimitOrder>, taker: Taker)
    ensures var b := BestMatch(orders, taker); b.Some? ==> taker.Accepts(orders[b.value].price)
  {
  }

  lemma {:induction false} MatchTrades(e: Engine, taker: Taker, want: int)
    requires Live(e)
    ensures TradesOf(Match(e, taker, want).trades, taker.side, taker.id, taker.limit)
    ensures LogGains(e.store, Match(e, taker, want).trades, Match(e, taker, want).engine.store)
    decreases |e.orders|
  {
    hide Live, BestMatch, Fill, TradesOf, LogGains, Numbered, Record, ExecutionOf, Taker.Accepts, DistinctIds;
    NothingTraded(taker, e.store);
    var b := BestMatch(e.orders, taker);
    if want > 0 && b.Some? {
      var maker := e.orders[b.value];
      OpenOrder(e, b.value);
      MatchAccepts(e.orders, taker);
      var quantity := Min(want, maker.remaining);
      var next := Fill(e, taker, b.value, quantity);
      FillFrame(e, taker, b.value, quantity);
      if quantity == maker.remaining {
        FillKeepsLive(e, taker, b.value, quantity);
        FilledLeaves(e, taker, b.value);
        MatchTrades(next, taker, want - quantity);
        var rest := Match(next, taker, want - quantity);
        FillFirst(e.store, taker, maker, quantity, rest.trades, rest.engine.store);
      } else {
        NothingTraded(taker, next.store);
        FillFirst(e.store, taker, maker, quantity, [], next.store);
        var trade := Numbered(e.store, ExecutionOf(taker, maker, quantity));
        assert [trade] + [] == [trade];
      }
    }
  }

  lemma LogTwice(s: Store, a: seq<Trade>, b: seq<Trade>)
    ensures s.trades + (a + b) == (s.trades + a) + b
  {
  }

  /** The quantities of the side a market order meets. */
  ghost predicate PositiveLevels(e: Engine, side: Side) {
    forall i :: 0 <= i < |e.book.Ladder(side.Opposite())| ==> e.book.Ladder(side.Opposite())[i].quantity > 0
  }

  /** One more trade in front, taken at the touch of an external book. */
  lemma TouchFirst(s: Store, side: Side, price: int, quantity: int, trades: seq<Trade>, after: Store)
    requires quantity > 0
    ensures var x := Execution(side, price, quantity, None, None); var all := [Numbered(s, x)] + trades;
            (TradesOf(trades, side, None, None) ==> TradesOf(all, side, None, None)) &&
            (LogGains(Record(s, x), trades, after) ==> LogGains(s, all, after))
  {
    LogTwice(s, [Numbered(s, Execution(side, price, quantity, None, None))], trades);
  }

  lemma {:induction false} MatchBookTrades(e: Engine, side: Side, want: int)
    requires PositiveLevels(e, side)
    ensures MatchBook(e, side, want).Some? ==>
            var m := MatchBook(e, side, want).value;
            TradesOf(m.trades, side, None, None) && LogGains(e.store, m.trades, m.engine.store)
    decreases |e.book.Ladder(side.Opposite())|
  {
    hide TradesOf, LogGains, Record, Numbered;
    NothingTraded(Taker(side, None, None), e.store);
    var levels := e.book.Ladder(side.Opposite());
    if want > 0 && levels != [] && MatchBook(e, side, want).Some? {
      var quantity := Min(want, levels[0].quantity);
      var next := Consume(e, side, quantity);
      var trade := Numbered(e.store, Execution(side, levels[0].price, quantity, None, None));
      NothingTraded(Taker(side, None, None), next.store);
      if quantity < levels[0].quantity {
        TouchFirst(e.store, side, levels[0].price, quantity, [], next.store);
        assert [trade] + [] == [trade];
      } else {
        assert next.book.Ladder(side.Opposite()) == levels[1..];
        MatchBookTrades(next, side, want - quantity);
        var rest := MatchBook(next, side, want - quantity).value;
        TouchFirst(e.store, side, levels[0].price, quantity, rest.trades, rest.engine.store);
      }
    }
  }

  lemma NothingTraded(taker: Taker, s: Store)
    ensures TradesOf([], taker.side, taker.id, taker.limit) && LogGains(s, [], s)
  {
  }

  lemma EnterAnswer(e: Engine, o: LimitOrder)
    requires Live(e) && Fresh(e.orders, o) && o.remaining > 0 && Enter(e, o).Some?
    ensures var m := Enter(e, o).value;
            TradesOf(m.trades, o.side, Some(o.id), Some(o.price)) && RestsWith(m.engine.orders, o, Volume(m.trades)) &&
            LogGains(e.store, m.trades, m.engine.store) && m.engine.nextId == e.nextId
  {
    hide Live, Match, TradesOf, LogGains;
    var taker := TakerOf(o);
    MatchTrades(e, taker, o.remaining);
    MatchVolume(e, taker, o.remaining);
    MatchKeepsLive(e, taker, o.remaining);
    MatchKeepsFresh(e, taker, o.remaining, o);
    var m := Match(e, taker, o.remaining);
    if m.left > 0 {
      var rest := o.(remaining := m.left);
      assert (m.engine.orders + [rest])[|m.engine.orders|] == rest;
    }
  }

  lemma NothingLogged(s: Store)
    ensures LogGains(s, [], s) && Volume([]) == 0
  {
  }

  lemma LogSuffix(before: Store, trades: seq<Trade>, after: Store)
    requires LogGains(before, trades, after)
    ensures |before.trades| <= |after.trades| && after.trades[|before.trades|..] == trades
  {
  }

  lemma PlaceAnswer(e: Engine, side: Side, price: Int64, quantity: Int64)
    requires Inv(e)
    ensures PlaceLaw(e, side, price, quantity, Step(e, PlaceLimit(side, price, quantity)))
  {
    hide Live, Inv, Enter, Fresh, TradesOf, RestsWith, LogGains;
    NothingLogged(e.store);
    if Place(e, side, price, quantity).result.Ok? {
      CountersPositive(e);
      OpenedLive(e);
      EnterAnswer(Opened(e), LimitOrder(e.nextId, side, price, quantity, quantity, e.nextSequence));
    }
  }

  /** The placement's law, with its trades read off the log. */
  lemma PlacedLog(e: Engine, side: Side, price: Int64, quantity: Int64)
    requires Inv(e)
    ensures var o := Place(e, side, price, quantity); var n := |e.store.trades|;
            n <= |o.engine.store.trades| &&
            PlaceLaw(e, side, price, quantity, Stepped(o.engine, Placed(o.result), o.engine.store.trades[n..]))
  {
    hide Inv, Place, LogGains;
    PlaceAnswer(e, side, price, quantity);
    var o := Place(e, side, price, quantity);
    LogSuffix(e.store, o.trades, o.engine.store);
  }

  lemma MarketAnswer(e: Engine, side: Side, quantity: Int64)
    requires Inv(e)
    ensures MarketLaw(e, side, quantity, Step(e, ExecuteMarket(side, quantity)))
  {
    hide Live, Inv, Match, MatchBook, TradesOf, LogGains, IsAverage, AverageOf;
    NothingLogged(e.store);
    if Market(e, side, quantity).result.Ok? {
      var x := Market(e, side, quantity).result.value;
      MarketFills(e, side, quantity);
      AverageIsFloor(x.trades, x.executed);
      if e.orders == [] {
        ExternalSound(e, side);
        MatchBookTrades(e, side, quantity);
      } else {
        LiveWhenActive(e);
        MatchTrades(e, Taker(side, None, None), quantity);
      }
    }
  }

  lemma LiveWhenActive(e: Engine)
    requires Inv(e) && e.orders != []
    ensures Live(e)
  {
  }

  lemma ActiveSlot(orders: seq<LimitOrder>, id: nat)
    ensures Active(orders, id) <==> Slot(orders, id).Some?
  {
    if Slot(orders, id).Some? {
      assert orders[Slot(orders, id).value] in orders;
    }
  }

  lemma CancelAnswer(e: Engine, id: nat)
    requires Inv(e)
    ensures CancelLaw(e, id, Step(e, CancelOrder(id)))
  {
    hide Live, Inv;
    ActiveSlot(e.orders, id);
    if Slot(e.orders, id).Some? {
      LiveWhenActive(e);
      LiveDistinct(e);
      RemoveAtContents(e.orders, Slot(e.orders, id).value);
    }
  }

  lemma ModifyAnswer(e: Engine, id: nat, price: Int64, quantity: Int64)
    requires Inv(e)
    ensures ModifyLaw(e, id, price, quantity, Step(e, ModifyOrder(id, price, quantity)))
  {
    hide Live, Inv, Enter, Fresh, Sound, TradesOf, RestsWith, LogGains, Active;
    ActiveSlot(e.orders, id);
    NothingLogged(e.store);
    if price > 0 && quantity > 0 && Slot(e.orders, id).Some? {
      var i := Slot(e.orders, id).value;
      LiveWhenActive(e);
      OpenOrder(e, i);
      if price == e.orders[i].price {
        ResizeAnswer(e, i, quantity);
      } else if Modify(e, id, price, quantity).result.Ok? {
        ReopenedLive(e, i, price, quantity);
        EnterAnswer(Reopened(e, i), Replacement(e, i, price, quantity));
      }
      forall o | o in e.orders && o.id == id ensures o == e.orders[i] {
        SameIdSameOrder(e, i, o);
      }
    }
  }

  /** The modification's law, with its trades read off the log. */
  lemma ModifiedLog(e: Engine, id: nat, price: Int64, quantity: Int64)
    requires Inv(e)
    ensures var o := Modify(e, id, price, quantity); var n := |e.store.trades|;
            n <= |o.engine.store.trades| &&
            ModifyLaw(e, id, price, quantity, Stepped(o.engine, Changed(o.result), o.engine.store.trades[n..]))
  {
    hide Inv, Modify, LogGains;
    ModifyAnswer(e, id, price, quantity);
    var o := Modify(e, id, price, quantity);
    LogSuffix(e.store, o.trades, o.engine.store);
  }

  lemma SameIdSameOrder(e: Engine, i: nat, o: LimitOrder)
    requires DistinctIds(e.orders) && i < |e.orders| && o in e.orders && o.id == e.orders[i].id
    ensures o == e.orders[i]
  {
  }

  lemma ResizeAnswer(e: Engine, i: nat, quantity: Int64)
    requires Live(e) && i < |e.orders| && quantity > 0
    ensures var o := e.orders[i]; var changed := Modify(e, o.id, o.price, quantity);
            (changed.result == Ok(true) && TradesOf(changed.trades, o.side, Some(o.id), Some(o.price)) &&
             changed.trades == [] && RestsWith(changed.engine.orders, Asked(e, o, o.price, quantity), 0)) ||
            (changed.result == Err(Overflow) && changed.engine == e && changed.trades == [])
    ensures LogGains(e.store, [], Modify(e, e.orders[i].id, e.orders[i].price, quantity).engine.store)
  {
    hide Agrees, LogGains;
    var o := e.orders[i];
    OpenOrder(e, i);
    SlotUnique(e.orders, i);
    NothingLogged(e.store);
    if quantity < o.remaining {
      OpenQuantityFits(e, i, o.remaining - quantity);
    }
    assert Resize(e, i, quantity).orders[i] in Resize(e, i, quantity).orders;
  }

  /** Every command obeys its law. */
  lemma StepIsLawful(e: Engine, c: Command)
    requires Inv(e)
    ensures Lawful(e, c, Step(e, c))
  {
    hide Inv, PlaceLaw, MarketLaw, CancelLaw, ModifyLaw, Place, Market, Cancel, Modify;
    match c
    case PlaceLimit(side, price, quantity) => PlaceAnswer(e, side, price, quantity);
    case ExecuteMarket(side, quantity) => MarketAnswer(e, side, quantity);
    case CancelOrder(id) => CancelAnswer(e, id);
    case ModifyOrder(id, price, quantity) => ModifyAnswer(e, id, price, quantity);
    case _ =>
  }
}
