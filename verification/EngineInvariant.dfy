/** The engine invariant: what every command keeps, and exactly which commands are refused. */
module EngineInvariant {
  import opened Types
  import opened Levels
  import opened Orders
  import opened OrderBooks
  import opened OrderManagers
  import opened TradeStores
  import opened EngineModel

  /** The two vectors differ by `delta` at one price of one side. */
  ghost predicate Shifts(orders: seq<LimitOrder>, orders': seq<LimitOrder>, side: Side, price: int, delta: int) {
    forall s, p :: SumAt(orders', s, p) == SumAt(orders, s, p) + if s == side && p == price then delta else 0
  }

  lemma PushShifts(orders: seq<LimitOrder>, o: LimitOrder)
    ensures Shifts(orders, orders + [o], o.side, o.price, o.remaining)
  {
    forall s, p ensures SumAt(orders + [o], s, p) == SumAt(orders, s, p) + Share(o, s, p) {
      SumAtPush(orders, o, s, p);
    }
  }

  lemma RemoveShifts(orders: seq<LimitOrder>, i: nat)
    requires i < |orders|
    ensures Shifts(orders, RemoveAt(orders, i), orders[i].side, orders[i].price, -orders[i].remaining)
  {
    forall s, p ensures SumAt(RemoveAt(orders, i), s, p) == SumAt(orders, s, p) - Share(orders[i], s, p) {
      SumAtRemove(orders, i, s, p);
    }
  }

  /** Rewriting quantities and sequence shifts the level by the change in remaining quantity. */
  lemma RewriteShifts(orders: seq<LimitOrder>, i: nat, o: LimitOrder)
    requires i < |orders| && o.side == orders[i].side && o.price == orders[i].price
    ensures Shifts(orders, orders[i := o], o.side, o.price, o.remaining - orders[i].remaining)
  {
    forall s, p ensures SumAt(orders[i := o], s, p) == SumAt(orders, s, p) - Share(orders[i], s, p) + Share(o, s, p) {
      SumAtUpdate(orders, i, o, s, p);
    }
  }

  /** An adjustment that raises nothing follows a shift of the orders. */
  lemma AdjustFollowsShift(book: Book, orders: seq<LimitOrder>, orders': seq<LimitOrder>,
                           side: Side, price: int, delta: int)
    requires Agrees(book, orders) && Shifts(orders, orders', side, price, delta)
    requires AdjustError(book.Ladder(side), price, delta).None?
    ensures Agrees(book.Adjusted(side, price, delta), orders')
  {
    AdjustRefinesMap(side, book.Ladder(side), price, delta);
    forall s, p ensures Quantity(book.Adjusted(side, price, delta).Ladder(s), p) == SumAt(orders', s, p) {
      assert Quantity(book.Ladder(s), p) == SumAt(orders, s, p);
      if s == side {
        assert book.Adjusted(side, price, delta).Ladder(s) == AddAt(side, book.Ladder(side), price, delta);
      } else {
        assert book.Adjusted(side, price, delta).Ladder(s) == book.Ladder(s);
      }
    }
  }

  /** The orders determine the book. */
  lemma OrdersDetermineBook(a: Book, b: Book, orders: seq<LimitOrder>)
    requires Agrees(a, orders) && Agrees(b, orders)
    ensures a == b
  {
    MapDeterminesLevels(Buy, a.bids, b.bids);
    MapDeterminesLevels(Sell, a.asks, b.asks);
  }

  lemma RemoveKeepsOrders(orders: seq<LimitOrder>, i: nat, nextId: nat, nextSequence: nat)
    requires OrdersSound(orders, nextId, nextSequence) && i < |orders|
    ensures OrdersSound(RemoveAt(orders, i), nextId, nextSequence)
  {
    var r := RemoveAt(orders, i);
    forall k | 0 <= k < |r| ensures r[k] == orders[if k == i then |orders| - 1 else k] {}
  }

  /** Taking an open order's quantity, or part of it, out of the book never raises. */
  lemma OpenQuantityFits(e: Engine, i: nat, quantity: int)
    requires Live(e) && i < |e.orders| && 0 < quantity <= e.orders[i].remaining
    ensures AdjustError(e.book.Ladder(e.orders[i].side), e.orders[i].price, -quantity).None?
  {
    var o := e.orders[i];
    SumAtMember(e.orders, i, o.side, o.price);
    assert Quantity(e.book.Ladder(o.side), o.price) == SumAt(e.orders, o.side, o.price);
  }

  /** What every active order satisfies. */
  lemma OpenOrder(e: Engine, i: nat)
    requires Live(e) && i < |e.orders|
    ensures DistinctIds(e.orders) && e.book.WellFormed()
    ensures 1 <= e.orders[i].id < UINT64_MAX && e.orders[i].price > 0 && 0 < e.orders[i].remaining <= INT64_MAX
  {
  }

  lemma LiveDistinct(e: Engine)
    requires Live(e)
    ensures DistinctIds(e.orders)
  {
  }

  /** One trade keeps the orders sound and moves the level by the traded quantity. */
  lemma FillKeepsOrders(e: Engine, taker: Taker, b: nat, quantity: int)
    requires OrdersSound(e.orders, e.nextId, e.nextSequence)
    requires b < |e.orders| && 0 < quantity <= e.orders[b].remaining
    ensures OrdersSound(Fill(e, taker, b, quantity).orders, e.nextId, e.nextSequence)
    ensures Shifts(e.orders, Fill(e, taker, b, quantity).orders, e.orders[b].side, e.orders[b].price, -quantity)
  {
    hide SumAt, Share;
    var maker := e.orders[b];
    if quantity == maker.remaining {
      RemoveShifts(e.orders, b);
      RemoveKeepsOrders(e.orders, b, e.nextId, e.nextSequence);
    } else {
      RewriteShifts(e.orders, b, maker.(remaining := maker.remaining - quantity));
    }
  }

  /** One trade keeps the engine live. */
  lemma FillKeepsLive(e: Engine, taker: Taker, b: nat, quantity: int)
    requires Live(e) && b < |e.orders| && 0 < quantity <= e.orders[b].remaining
    ensures Live(Fill(e, taker, b, quantity))
  {
    hide OrdersSound, Agrees, Shifts;
    var maker := e.orders[b];
    OpenQuantityFits(e, b, quantity);
    FillKeepsOrders(e, taker, b, quantity);
    AdjustFollowsShift(e.book, e.orders, Fill(e, taker, b, quantity).orders, maker.side, maker.price, -quantity);
  }

  lemma FillFrame(e: Engine, taker: Taker, b: nat, quantity: int)
    requires b < |e.orders|
    ensures var next := Fill(e, taker, b, quantity); next.nextId == e.nextId && next.nextSequence == e.nextSequence
    ensures Fill(e, taker, b, quantity).store == Record(e.store, ExecutionOf(taker, e.orders[b], quantity))
  {
  }

  lemma FilledLeaves(e: Engine, taker: Taker, b: nat)
    requires b < |e.orders|
    ensures |Fill(e, taker, b, e.orders[b].remaining).orders| < |e.orders|
  {
  }

  /** The whole sweep keeps the engine live, and leaves an unfilled taker with nothing it could still trade with. */
  lemma {:induction false} MatchKeepsLive(e: Engine, taker: Taker, want: int)
    requires Live(e) && want >= 0
    ensures Live(Match(e, taker, want).engine)
    ensures 0 <= Match(e, taker, want).left <= want
    ensures Match(e, taker, want).engine.nextId == e.nextId
    ensures Match(e, taker, want).engine.nextSequence == e.nextSequence
    ensures Match(e, taker, want).left > 0 ==> BestMatch(Match(e, taker, want).engine.orders, taker).None?
    decreases |e.orders|
  {
    hide Live, BestMatch, Fill, DistinctIds;
    var b := BestMatch(e.orders, taker);
    if want > 0 && b.Some? {
      OpenOrder(e, b.value);
      var quantity := Min(want, e.orders[b.value].remaining);
      FillKeepsLive(e, taker, b.value, quantity);
      FillFrame(e, taker, b.value, quantity);
      if quantity == e.orders[b.value].remaining {
        FilledLeaves(e, taker, b.value);
        MatchKeepsLive(Fill(e, taker, b.value, quantity), taker, want - quantity);
      }
    }
  }

  /** A match only touches the opposite side's levels. */
  lemma {:induction false} MatchSparesOwnSide(e: Engine, taker: Taker, want: int, price: int)
    requires Live(e) && want >= 0
    ensures SumAt(Match(e, taker, want).engine.orders, taker.side, price) == SumAt(e.orders, taker.side, price)
    decreases |e.orders|
  {
    hide SumAt, Agrees;
    var b := BestMatch(e.orders, taker);
    if want > 0 && b.Some? {
      OpenOrder(e, b.value);
      var quantity := Min(want, e.orders[b.value].remaining);
      FillKeepsOrders(e, taker, b.value, quantity);
      if quantity == e.orders[b.value].remaining {
        FillKeepsLive(e, taker, b.value, quantity);
        MatchSparesOwnSide(Fill(e, taker, b.value, quantity), taker, want - quantity, price);
      }
    }
  }

  /** The touch of the book is the price of the highest-priority order. */
  lemma TouchIsBestOrder(e: Engine, side: Side)
    requires Live(e)
    ensures e.book.Ladder(side) == [] <==> Best(e.orders, side).None?
    ensures Best(e.orders, side).Some? ==> e.book.Ladder(side)[0].price == e.orders[Best(e.orders, side).value].price
  {
    var levels := e.book.Ladder(side);
    if levels != [] {
      QuantityAtIndex(side, levels, 0);
      var i := SumAtWitness(e.orders, side, levels[0].price);
    }
    if Best(e.orders, side).Some? {
      var b := Best(e.orders, side).value;
      BestIsBest(e.orders, side);
      SumAtMember(e.orders, b, side, e.orders[b].price);
      var k := QuantityWitness(levels, e.orders[b].price);
      QuantityAtIndex(side, levels, 0);
      var i := SumAtWitness(e.orders, side, levels[0].price);
    }
  }

  /** `crosses_order_book`: does the touch accept the price? */
  predicate CrossesBook(book: Book, side: Side, price: int) {
    var opposite := book.Ladder(side.Opposite());
    opposite != [] && Taker(side, Some(price), None).Accepts(opposite[0].price)
  }

  /** The aggregated book and the order search agree on what crosses. */
  lemma CrossingAgrees(e: Engine, taker: Taker)
    requires Live(e) && taker.limit.Some?
    ensures CrossesBook(e.book, taker.side, taker.limit.value) <==> BestMatch(e.orders, taker).Some?
  {
    hide Live;
    TouchIsBestOrder(e, taker.side.Opposite());
  }

  /** While orders are active the best bid is below the best ask. */
  lemma BookUncrossed(e: Engine)
    requires Live(e)
    ensures e.book.bids != [] && e.book.asks != [] ==> e.book.bids[0].price < e.book.asks[0].price
  {
    hide Agrees;
    TouchIsBestOrder(e, Buy);
    TouchIsBestOrder(e, Sell);
  }

  /** No active order shares the id or the sequence number of `o`. */
  ghost predicate Fresh(orders: seq<LimitOrder>, o: LimitOrder) {
    forall i :: 0 <= i < |orders| ==> orders[i].id != o.id && orders[i].sequence != o.sequence
  }

  lemma {:induction false} MatchKeepsFresh(e: Engine, taker: Taker, want: int, o: LimitOrder)
    requires Fresh(e.orders, o)
    ensures Fresh(Match(e, taker, want).engine.orders, o)
    decreases |e.orders|
  {
    var b := BestMatch(e.orders, taker);
    if want > 0 && b.Some? {
      var quantity := Min(want, e.orders[b.value].remaining);
      var next := Fill(e, taker, b.value, quantity);
      assert Fresh(next.orders, o);
      if quantity == e.orders[b.value].remaining {
        MatchKeepsFresh(next, taker, want - quantity, o);
      }
    }
  }

  /** An order that crosses the opposite side has no level of its own side to land on. */
  lemma CrossingLandsOnEmptyLevel(e: Engine, o: LimitOrder)
    requires Live(e) && BestMatch(e.orders, TakerOf(o)).Some?
    ensures SumAt(e.orders, o.side, o.price) == 0
  {
    if SumAt(e.orders, o.side, o.price) != 0 {
      var i := SumAtWitness(e.orders, o.side, o.price);
      assert false;
    }
  }

  /** An incoming order is refused exactly when it does not cross and its own level would overflow. */
  lemma EnterRejection(e: Engine, o: LimitOrder)
    requires Live(e) && o.price > 0 && 0 < o.remaining <= INT64_MAX
    ensures Enter(e, o).None? <==> BestMatch(e.orders, TakerOf(o)).None? &&
                                   Quantity(e.book.Ladder(o.side), o.price) + o.remaining > INT64_MAX
  {
    hide BestMatch, OrdersSound, WellFormed, SumAt;
    if BestMatch(e.orders, TakerOf(o)).Some? {
      var m := Match(e, TakerOf(o), o.remaining);
      CrossingLandsOnEmptyLevel(e, o);
      MatchSparesOwnSide(e, TakerOf(o), o.remaining, o.price);
      MatchKeepsLive(e, TakerOf(o), o.remaining);
      assert Quantity(m.engine.book.Ladder(o.side), o.price) == SumAt(m.engine.orders, o.side, o.price);
    }
  }

  lemma RestKeepsOrders(orders: seq<LimitOrder>, o: LimitOrder, nextId: nat, nextSequence: nat)
    requires OrdersSound(orders, nextId, nextSequence) && Sound(o, nextId, nextSequence) && Fresh(orders, o)
    requires BestMatch(orders, TakerOf(o)).None?
    ensures OrdersSound(orders + [o], nextId, nextSequence)
  {
    BestIsBest(orders, o.side.Opposite());
  }

  lemma RestKeepsLive(e: Engine, o: LimitOrder)
    requires Live(e) && Sound(o, e.nextId, e.nextSequence) && Fresh(e.orders, o)
    requires BestMatch(e.orders, TakerOf(o)).None?
    requires AdjustError(e.book.Ladder(o.side), o.price, o.remaining).None?
    ensures Live(Rest(e, o))
  {
    hide OrdersSound, Agrees, Shifts, Fresh, BestMatch, Sound;
    RestKeepsOrders(e.orders, o, e.nextId, e.nextSequence);
    PushShifts(e.orders, o);
    AdjustFollowsShift(e.book, e.orders, e.orders + [o], o.side, o.price, o.remaining);
  }

  lemma EnterKeepsLive(e: Engine, o: LimitOrder)
    requires Live(e) && Sound(o, e.nextId, e.nextSequence) && Fresh(e.orders, o)
    ensures Enter(e, o).Some? ==> Live(Enter(e, o).value.engine) &&
                                  Enter(e, o).value.engine.nextId == e.nextId &&
                                  Enter(e, o).value.engine.nextSequence == e.nextSequence
  {
    hide Live, Fresh, BestMatch, Match;
    var m := Match(e, TakerOf(o), o.remaining);
    MatchKeepsLive(e, TakerOf(o), o.remaining);
    MatchKeepsFresh(e, TakerOf(o), o.remaining, o);
    if m.left > 0 && Enter(e, o).Some? {
      BestMatchIgnoresQuantity(m.engine.orders, o, m.left);
      FreshIgnoresQuantity(m.engine.orders, o, m.left);
      RestKeepsLive(m.engine, o.(remaining := m.left));
    }
  }

  lemma BestMatchIgnoresQuantity(orders: seq<LimitOrder>, o: LimitOrder, quantity: int)
    ensures BestMatch(orders, TakerOf(o.(remaining := quantity))) == BestMatch(orders, TakerOf(o))
  {
  }

  lemma FreshIgnoresQuantity(orders: seq<LimitOrder>, o: LimitOrder, quantity: int)
    requires Fresh(orders, o)
    ensures Fresh(orders, o.(remaining := quantity))
  {
  }

  lemma LiveImpliesInv(e: Engine)
    requires Live(e)
    ensures Inv(e)
  {
  }

  /** An engine that owns an empty book with no orders. */
  lemma LiveWithoutOrders(e: Engine)
    requires Live(e) && e.orders == []
    ensures e.book == EMPTY
  {
    OrdersDetermineBook(e.book, EMPTY, e.orders);
  }

  /** The state in which a new order starts matching: the first local order discards an external book. */
  function Opened(e: Engine): Engine {
    e.(book := if e.orders == [] then EMPTY else e.book, nextId := e.nextId + 1, nextSequence := e.nextSequence + 1)
  }

  lemma OpenedLive(e: Engine)
    requires Inv(e) && e.nextId < UINT64_MAX
    ensures Live(Opened(e))
    ensures forall o: LimitOrder :: o.id == e.nextId && o.sequence == e.nextSequence ==> Fresh(Opened(e).orders, o)
  {
    hide Agrees;
    if e.orders == [] {
      EmptyAgrees();
    }
  }

  lemma EmptyAgrees()
    ensures Agrees(EMPTY, [])
  {
  }

  lemma PlaceKeepsInv(e: Engine, side: Side, price: Int64, quantity: Int64)
    requires Inv(e)
    ensures Inv(Place(e, side, price, quantity).engine)
  {
    hide Live, Enter, Fresh, Inv;
    if price > 0 && quantity > 0 && e.nextId < UINT64_MAX {
      var o := LimitOrder(e.nextId, side, price, quantity, quantity, e.nextSequence);
      OpenedLive(e);
      CountersPositive(e);
      EnterKeepsLive(Opened(e), o);
      if Enter(Opened(e), o).Some? {
        LiveImpliesInv(Enter(Opened(e), o).value.engine);
      }
    }
    CountersPositive(e);
  }

  lemma CountersPositive(e: Engine)
    requires Inv(e)
    ensures 1 <= e.nextId <= UINT64_MAX && 1 <= e.nextSequence
  {
  }

  /** A valid limit order is refused exactly on id exhaustion, or when it does not cross the book and its
      own level would overflow. */
  lemma PlaceRejection(e: Engine, side: Side, price: Int64, quantity: Int64)
    requires Inv(e) && price > 0 && quantity > 0
    ensures Place(e, side, price, quantity).result.Err? <==>
            e.nextId == UINT64_MAX ||
            (e.orders != [] && !CrossesBook(e.book, side, price) &&
             Quantity(e.book.Ladder(side), price) + quantity > INT64_MAX)
  {
    hide Live, Enter, Fresh, Inv, BestMatch;
    CountersPositive(e);
    if e.nextId < UINT64_MAX {
      var o := LimitOrder(e.nextId, side, price, quantity, quantity, e.nextSequence);
      OpenedLive(e);
      EnterRejection(Opened(e), o);
      CrossingAgrees(Opened(e), TakerOf(o));
      if e.orders == [] {
        assert Quantity(EMPTY.Ladder(side), price) == 0;
      }
    }
  }

  lemma WithdrawKeepsLive(e: Engine, i: nat)
    requires Live(e) && i < |e.orders|
    ensures Live(Withdraw(e, i))
    ensures Shifts(e.orders, Withdraw(e, i).orders, e.orders[i].side, e.orders[i].price, -e.orders[i].remaining)
  {
    hide OrdersSound, Agrees, Shifts;
    var o := e.orders[i];
    OpenOrder(e, i);
    OpenQuantityFits(e, i, o.remaining);
    RemoveShifts(e.orders, i);
    RemoveKeepsOrders(e.orders, i, e.nextId, e.nextSequence);
    AdjustFollowsShift(e.book, e.orders, RemoveAt(e.orders, i), o.side, o.price, -o.remaining);
  }

  lemma CancelKeepsInv(e: Engine, id: nat)
    requires Inv(e)
    ensures Inv(Cancel(e, id).engine)
  {
    hide Live, Withdraw;
    if Slot(e.orders, id).Some? {
      WithdrawKeepsLive(e, Slot(e.orders, id).value);
      LiveImpliesInv(Withdraw(e, Slot(e.orders, id).value));
    }
  }

  lemma ResizeKeepsOrders(e: Engine, i: nat, quantity: int)
    requires OrdersSound(e.orders, e.nextId, e.nextSequence) && i < |e.orders| && 0 < quantity <= INT64_MAX
    ensures OrdersSound(Resize(e, i, quantity).orders, e.nextId, Resize(e, i, quantity).nextSequence)
  {
  }

  lemma ResizeKeepsLive(e: Engine, i: nat, quantity: int)
    requires Live(e) && i < |e.orders| && 0 < quantity <= INT64_MAX
    requires AdjustError(e.book.Ladder(e.orders[i].side), e.orders[i].price, quantity - e.orders[i].remaining).None?
    ensures Live(Resize(e, i, quantity))
  {
    hide OrdersSound, Agrees, Shifts;
    var o := e.orders[i];
    ResizeKeepsOrders(e, i, quantity);
    RewriteShifts(e.orders, i, Resize(e, i, quantity).orders[i]);
    AdjustFollowsShift(e.book, e.orders, Resize(e, i, quantity).orders, o.side, o.price, quantity - o.remaining);
  }

  /** The state and the order with which a price change re-enters matching. */
  function Reopened(e: Engine, i: nat): Engine
    requires i < |e.orders|
  {
    Withdraw(e, i).(nextSequence := e.nextSequence + 1)
  }

  function Replacement(e: Engine, i: nat, price: int, quantity: int): LimitOrder
    requires i < |e.orders|
  {
    e.orders[i].(price := price, original := quantity, remaining := quantity, sequence := e.nextSequence)
  }

  lemma ReopenedLive(e: Engine, i: nat, price: int, quantity: int)
    requires Live(e) && i < |e.orders| && price > 0 && 0 < quantity <= INT64_MAX
    ensures Live(Reopened(e, i))
    ensures Fresh(Reopened(e, i).orders, Replacement(e, i, price, quantity))
    ensures Sound(Replacement(e, i, price, quantity), e.nextId, e.nextSequence + 1)
  {
    hide Agrees;
    WithdrawKeepsLive(e, i);
    var r := RemoveAt(e.orders, i);
    forall k | 0 <= k < |r| ensures r[k].id != e.orders[i].id && r[k].sequence != e.nextSequence {
      assert r[k] == e.orders[if k == i then |e.orders| - 1 else k];
    }
  }

  lemma ModifyKeepsInv(e: Engine, id: nat, price: Int64, quantity: Int64)
    requires Inv(e)
    ensures Inv(Modify(e, id, price, quantity).engine)
  {
    hide Live, Enter, Resize, Fresh, Sound, AdjustError;
    var slot := Slot(e.orders, id);
    if price > 0 && quantity > 0 && slot.Some? {
      var i := slot.value;
      if price == e.orders[i].price {
        if AdjustError(e.book.Ladder(e.orders[i].side), price, quantity - e.orders[i].remaining).None? {
          ResizeKeepsLive(e, i, quantity);
          LiveImpliesInv(Resize(e, i, quantity));
        }
      } else {
        ReopenedLive(e, i, price, quantity);
        var o := Replacement(e, i, price, quantity);
        EnterKeepsLive(Reopened(e, i), o);
        if Enter(Reopened(e, i), o).Some? {
          LiveImpliesInv(Enter(Reopened(e, i), o).value.engine);
        }
      }
    }
  }

  /** An order's own price never crosses the other side. */
  lemma OwnPriceDoesNotCross(e: Engine, i: nat, o: LimitOrder)
    requires Live(e) && i < |e.orders| && o.side == e.orders[i].side && o.price == e.orders[i].price
    ensures BestMatch(RemoveAt(e.orders, i), TakerOf(o)).None?
  {
    hide Agrees;
    var r := RemoveAt(e.orders, i);
    forall k | 0 <= k < |r| ensures r[k] == e.orders[if k == i then |e.orders| - 1 else k] {}
  }

  lemma LevelBounded(e: Engine, side: Side, price: int)
    requires Live(e)
    ensures 0 <= Quantity(e.book.Ladder(side), price) <= INT64_MAX
  {
    BoundedQuantity(side, e.book.Ladder(side), price);
  }

  /** A valid modification of an active order is refused exactly when, with the order withdrawn, the new
      price does not cross and its level would overflow. */
  lemma ModifyRejection(e: Engine, id: nat, price: Int64, quantity: Int64)
    requires Inv(e) && price > 0 && quantity > 0
    ensures Modify(e, id, price, quantity).result.Err? <==>
            Slot(e.orders, id).Some? &&
            var i := Slot(e.orders, id).value;
            !CrossesBook(Withdraw(e, i).book, e.orders[i].side, price) &&
            Quantity(Withdraw(e, i).book.Ladder(e.orders[i].side), price) + quantity > INT64_MAX
  {
    hide Live, Enter, Fresh, Sound, BestMatch, AddAt;
    var slot := Slot(e.orders, id);
    if slot.Some? {
      var i := slot.value;
      var side := e.orders[i].side;
      var o := Replacement(e, i, price, quantity);
      ReopenedLive(e, i, price, quantity);
      CrossingAgrees(Reopened(e, i), TakerOf(o));
      EnterRejection(Reopened(e, i), o);
      if price == e.orders[i].price {
        OwnPriceDoesNotCross(e, i, o);
        AddAtQuantity(side, e.book.Ladder(side), price, -e.orders[i].remaining, price);
        OpenOrder(e, i);
        OpenQuantityFits(e, i, e.orders[i].remaining);
        LevelBounded(e, side, price);
      }
    }
  }

  lemma ConsumeKeepsInv(e: Engine, side: Side, quantity: int)
    requires Inv(e) && e.orders == [] && e.book.Ladder(side.Opposite()) != []
    requires 0 < quantity <= e.book.Ladder(side.Opposite())[0].quantity
    ensures Inv(Consume(e, side, quantity))
  {
    hide Ordered, WellFormed, Record;
    var levels := e.book.Ladder(side.Opposite());
    ConsumedLevels(side.Opposite(), levels, quantity);
    RecordKeepsOrdered(e.store, Execution(side, levels[0].price, quantity, None, None));
  }

  lemma ConsumedLevels(side: Side, levels: seq<Level>, quantity: int)
    requires WellFormed(side, levels) && levels != [] && 0 < quantity <= levels[0].quantity
    ensures WellFormed(side, levels[1..])
    ensures quantity < levels[0].quantity ==>
            WellFormed(side, [Level(levels[0].price, levels[0].quantity - quantity)] + levels[1..])
  {
  }

  lemma RecordKeepsOrdered(s: Store, x: Execution)
    requires Ordered(s)
    ensures Ordered(Record(s, x))
  {
  }

  /** Consuming external levels keeps the book well formed and the log ordered. */
  lemma {:induction false} MatchBookKeepsInv(e: Engine, side: Side, want: int)
    requires Inv(e) && e.orders == [] && want >= 0
    ensures MatchBook(e, side, want).Some? ==>
            var m := MatchBook(e, side, want).value;
            Inv(m.engine) && m.engine.orders == [] && 0 <= m.left <= want &&
            m.engine.nextId == e.nextId && m.engine.nextSequence == e.nextSequence
    decreases |e.book.Ladder(side.Opposite())|
  {
    hide Inv;
    var levels := e.book.Ladder(side.Opposite());
    if want > 0 && levels != [] && levels[0].price > 0 && levels[0].quantity > 0 {
      var quantity := Min(want, levels[0].quantity);
      ConsumeKeepsInv(e, side, quantity);
      if quantity == levels[0].quantity {
        MatchBookKeepsInv(Consume(e, side, quantity), side, want - quantity);
      }
    }
  }

  /** A sweep for `want` reaches a level at price zero. */
  ghost predicate ReachesZero(levels: seq<Level>, want: int) {
    exists k :: 0 <= k < |levels| && levels[k].price == 0 && Total(levels[..k]) < want
  }

  lemma ReachesZeroHead(levels: seq<Level>, want: int)
    requires Representable(levels)
    ensures levels != [] && levels[0].price == 0 && want > 0 ==> ReachesZero(levels, want)
    ensures want <= 0 ==> !ReachesZero(levels, want)
  {
    assert levels != [] ==> Total(levels[..0]) == 0;
    forall k | 0 <= k < |levels| ensures Total(levels[..k]) >= 0 {
      TotalPrefix(levels, k);
    }
  }

  lemma ReachesZeroTail(levels: seq<Level>, want: int)
    requires Representable(levels) && levels != [] && levels[0].price > 0
    ensures ReachesZero(levels, want) <==> ReachesZero(levels[1..], want - levels[0].quantity)
  {
    var rest := levels[1..];
    forall k | 1 <= k < |levels| ensures Total(levels[..k]) == levels[0].quantity + Total(rest[..k - 1]) {
      assert levels[..k][1..] == rest[..k - 1];
    }
    assert forall k :: 0 <= k < |rest| ==> rest[k] == levels[k + 1];
    if ReachesZero(levels, want) {
      var k :| 0 <= k < |levels| && levels[k].price == 0 && Total(levels[..k]) < want;
      assert rest[k - 1].price == 0;
    }
  }

  /** A market order against an external book is refused exactly when it would reach a level at price zero. */
  lemma {:induction false} MatchBookRejection(e: Engine, side: Side, want: int)
    requires Representable(e.book.Ladder(side.Opposite())) && want >= 0
    ensures MatchBook(e, side, want).None? <==> ReachesZero(e.book.Ladder(side.Opposite()), want)
    decreases |e.book.Ladder(side.Opposite())|
  {
    hide ReachesZero, Record;
    var levels := e.book.Ladder(side.Opposite());
    ReachesZeroHead(levels, want);
    if levels == [] {
      NoLevels(want);
    } else if want > 0 && levels[0].price > 0 {
      ReachesZeroTail(levels, want);
      if levels[0].quantity <= want {
        assert Consume(e, side, levels[0].quantity).book.Ladder(side.Opposite()) == levels[1..];
        MatchBookRejection(Consume(e, side, levels[0].quantity), side, want - levels[0].quantity);
      } else {
        ReachesZeroHead(levels[1..], want - levels[0].quantity);
      }
    }
  }

  lemma NoLevels(want: int)
    ensures !ReachesZero([], want)
  {
  }

  lemma MatchStops(e: Engine, taker: Taker, want: int)
    requires want <= 0 || BestMatch(e.orders, taker).None?
    ensures Match(e, taker, want) == Swept(e, want, [])
  {
  }

  lemma MatchBookStops(e: Engine, side: Side, want: int)
    requires want <= 0 || e.book.Ladder(side.Opposite()) == []
    ensures MatchBook(e, side, want) == Some(Swept(e, want, []))
  {
  }

  lemma ExternalSound(e: Engine, side: Side)
    requires Inv(e) && e.orders == []
    ensures e.book.WellFormed() && WellFormed(side.Opposite(), e.book.Ladder(side.Opposite()))
    ensures Representable(e.book.Ladder(side.Opposite()))
    ensures var levels := e.book.Ladder(side.Opposite());
            levels != [] ==> levels[0].price >= 0 && 0 < levels[0].quantity <= INT64_MAX
  {
  }

  lemma MarketKeepsInv(e: Engine, side: Side, quantity: Int64)
    requires Inv(e)
    ensures Inv(Market(e, side, quantity).engine)
    ensures e.orders != [] && quantity > 0 ==> Market(e, side, quantity).result.Ok?
  {
    hide Live, Match, MatchBook;
    if quantity > 0 {
      if e.orders == [] {
        MatchBookKeepsInv(e, side, quantity);
      } else {
        MatchKeepsLive(e, Taker(side, None, None), quantity);
        LiveImpliesInv(Match(e, Taker(side, None, None), quantity).engine);
      }
    }
  }

  /** Every command keeps the invariant. */
  lemma StepKeepsInv(e: Engine, c: Command)
    requires Inv(e)
    ensures Inv(Step(e, c).engine)
  {
    match c
    case PlaceLimit(side, price, quantity) => PlaceKeepsInv(e, side, price, quantity);
    case ExecuteMarket(side, quantity) => MarketKeepsInv(e, side, quantity);
    case CancelOrder(id) => CancelKeepsInv(e, id);
    case ModifyOrder(id, price, quantity) => ModifyKeepsInv(e, id, price, quantity);
    case ActiveOrders =>
    case TradeHistory =>
    case ClearHistory =>
  }

  /** A run interleaves commands with snapshots published into the shared book by a feed. */
  datatype Event = Do(command: Command) | Publish(book: Book)

  function Apply(e: Engine, event: Event): Engine {
    match event
    case Do(c) => Step(e, c).engine
    case Publish(book) => e.(book := book)
  }

  /** The feed writes well-formed snapshots, and only while the engine holds no active order. */
  ghost predicate Admitted(e: Engine, event: Event) {
    event.Publish? ==> event.book.WellFormed() && e.orders == []
  }

  ghost predicate AdmittedRun(e: Engine, events: seq<Event>)
    decreases |events|
  {
    events != [] ==> Admitted(e, events[0]) && AdmittedRun(Apply(e, events[0]), events[1..])
  }

  function Run(e: Engine, events: seq<Event>): Engine
    decreases |events|
  {
    if events == [] then e else Run(Apply(e, events[0]), events[1..])
  }

  /** A newly constructed engine on a given book. */
  function Initial(book: Book): (e: Engine)
    ensures book.WellFormed() ==> Inv(e)
  {
    Engine(book, [], Store([], 1, 1), 1, 1)
  }

  /** Safety over whole runs: from a fresh engine on any well-formed book, every reachable state satisfies the
      invariant, and while orders are active the touch is uncrossed and agrees with the order search. */
  lemma {:induction false} RunKeepsInv(e: Engine, events: seq<Event>)
    requires Inv(e) && AdmittedRun(e, events)
    ensures Inv(Run(e, events))
    ensures var end := Run(e, events);
            end.orders != [] ==>
              (end.book.bids != [] && end.book.asks != [] ==> end.book.bids[0].price < end.book.asks[0].price) &&
              forall taker: Taker :: taker.limit.Some? ==>
                (CrossesBook(end.book, taker.side, taker.limit.value) <==> BestMatch(end.orders, taker).Some?)
    decreases |events|
  {
    hide Live, Step, CrossesBook, BestMatch;
    if events == [] {
      if e.orders != [] {
        BookUncrossed(e);
        forall taker: Taker | taker.limit.Some?
          ensures CrossesBook(e.book, taker.side, taker.limit.value) <==> BestMatch(e.orders, taker).Some?
        {
          CrossingAgrees(e, taker);
        }
      }
    } else {
      if events[0].Do? {
        StepKeepsInv(e, events[0].command);
      }
      RunKeepsInv(Apply(e, events[0]), events[1..]);
    }
  }

  /** A price change is a cancellation followed by a new placement under the same id: running `Place` from the
      cancelled state with the id generator set back to this order's id gives the same book, orders, log and
      sequence counter, and is refused in the same cases. */
  lemma ModifyIsCancelThenPlace(e: Engine, id: nat, price: Int64, quantity: Int64)
    requires Inv(e) && Slot(e.orders, id).Some? && price > 0 && quantity > 0
    requires price != e.orders[Slot(e.orders, id).value].price
    ensures var side := e.orders[Slot(e.orders, id).value].side;
            var changed := Modify(e, id, price, quantity);
            var placed := Place(Cancel(e, id).engine.(nextId := id), side, price, quantity);
            (changed.result.Ok? <==> placed.result.Ok?) &&
            (changed.result.Ok? ==> placed.result == Ok(id) && changed.trades == placed.trades &&
                                    changed.engine == placed.engine.(nextId := e.nextId)) &&
            (changed.result.Err? ==> changed.engine == e)
  {
    hide Live, Enter, Fresh, Sound;
    var i := Slot(e.orders, id).value;
    var o := Replacement(e, i, price, quantity);
    ReopenedLive(e, i, price, quantity);
    OpenOrder(e, i);
    var start := Reopened(e, i);
    if start.orders == [] {
      LiveWithoutOrders(start);
    }
    EnterIgnoresIdCounter(start, o, id + 1);
  }

  lemma {:induction false} MatchIgnoresIdCounter(e: Engine, taker: Taker, want: int, nextId: nat)
    ensures var m := Match(e, taker, want);
            Match(e.(nextId := nextId), taker, want) == m.(engine := m.engine.(nextId := nextId)) &&
            m.engine.nextId == e.nextId
    decreases |e.orders|
  {
    hide BestMatch;
    var b := BestMatch(e.orders, taker);
    if want > 0 && b.Some? {
      var quantity := Min(want, e.orders[b.value].remaining);
      if quantity == e.orders[b.value].remaining {
        MatchIgnoresIdCounter(Fill(e, taker, b.value, quantity), taker, want - quantity, nextId);
      }
    }
  }

  lemma EnterIgnoresIdCounter(e: Engine, o: LimitOrder, nextId: nat)
    ensures Enter(e.(nextId := nextId), o).None? <==> Enter(e, o).None?
    ensures Enter(e, o).Some? ==>
            var m := Enter(e, o).value;
            Enter(e.(nextId := nextId), o) == Some(m.(engine := m.engine.(nextId := nextId))) &&
            m.engine.nextId == e.nextId
  {
    MatchIgnoresIdCounter(e, TakerOf(o), o.remaining, nextId);
  }
}
