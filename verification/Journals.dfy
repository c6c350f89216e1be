/** The journal of a sweep and what undoing it restores. */
module Journals {
  import opened Types
  import opened Levels
  import opened Orders
  import opened OrderBooks
  import opened OrderManagers
  import opened TradeStores
  import opened EngineModel
  import opened EngineInvariant

  /** A journal entry, pushed before the trade it describes is recorded. */
  datatype Mutation = Mutation(
    id: nat, side: Side, price: int, executed: int, original: int, removed: bool, removal: Removal)
  {
    /** The removal record with the quantity the order had before the trade. */
    function Revived(): Removal {
      removal.(order := removal.order.(remaining := original))
    }
  }

  function MutationOf(maker: LimitOrder, quantity: int): Mutation {
    Mutation(maker.id, maker.side, maker.price, quantity, maker.remaining, false, NO_REMOVAL)
  }

  /** The vector an entry's undo produces. */
  ghost predicate RevertsOrders(m: Mutation, after: seq<LimitOrder>, before: seq<LimitOrder>) {
    if m.removed then Restorable(after, m.Revived()) && Restored(after, m.Revived()) == before
    else
      var slot := Slot(after, m.id);
      slot.Some? && before == after[slot.value := after[slot.value].(remaining := m.original)]
  }

  /** Every level of these orders is representable. */
  ghost predicate Fits(orders: seq<LimitOrder>) {
    forall s, p :: SumAt(orders, s, p) <= INT64_MAX
  }

  /** No level of `now` is larger than it was in `then`. */
  ghost predicate NoMore(now: seq<LimitOrder>, earlier: seq<LimitOrder>) {
    forall s, p :: SumAt(now, s, p) <= SumAt(earlier, s, p)
  }

  /** Undoing `m` takes `after` back to `before`; an applied entry had moved its level, an unapplied one nothing. */
  ghost predicate Reverts(m: Mutation, after: seq<LimitOrder>, before: seq<LimitOrder>, applied: bool) {
    RevertsOrders(m, after, before) && m.price >= 0 && 0 < m.executed <= INT64_MAX &&
    (if applied then Shifts(after, before, m.side, m.price, m.executed) else before == after)
  }

  /** `trail[k]` is the vector before entry `k`; the vector after the last entry comes last. Only the last entry
      may be unapplied. */
  ghost predicate Chain(journal: seq<Mutation>, trail: seq<seq<LimitOrder>>, gap: bool) {
    |trail| == |journal| + 1 &&
    (gap ==> journal != []) &&
    (forall k :: 0 <= k < |journal| ==>
      Reverts(journal[k], trail[k + 1], trail[k], !(gap && k == |journal| - 1))) &&
    forall k :: 0 <= k < |trail| ==> Fits(trail[k]) && NoMore(trail[k], trail[0])
  }

  /** The book shows the orders, plus `extra` at one price of one side. */
  ghost predicate Padded(book: Book, orders: seq<LimitOrder>, side: Side, price: int, extra: int) {
    book.WellFormed() &&
    forall s, p :: Quantity(book.Ladder(s), p) == SumAt(orders, s, p) + if s == side && p == price then extra else 0
  }

  lemma AgreesIsPadded(book: Book, orders: seq<LimitOrder>, side: Side, price: int)
    ensures Agrees(book, orders) <==> Padded(book, orders, side, price, 0)
  {
    if Padded(book, orders, side, price, 0) {
      assert book.Ladder(Buy) == book.bids && book.Ladder(Sell) == book.asks;
      assert forall p :: Quantity(book.Ladder(Buy), p) == SumAt(orders, Buy, p);
      assert forall p :: Quantity(book.Ladder(Sell), p) == SumAt(orders, Sell, p);
    }
  }

  /** A padded book is the true book with the padding added. */
  lemma PaddedBook(actual: Book, padded: Book, orders: seq<LimitOrder>, side: Side, price: int, extra: int)
    requires Agrees(actual, orders) && Padded(padded, orders, side, price, extra) && price >= 0 && extra >= 0
    requires SumAt(orders, side, price) + extra <= INT64_MAX
    ensures padded == actual.Adjusted(side, price, extra)
    ensures extra > 0 ==> padded != actual
  {
    assert Quantity(actual.Ladder(side), price) == SumAt(orders, side, price);
    BoundedQuantity(side, actual.Ladder(side), price);
    AdjustRefinesMap(side, actual.Ladder(side), price, extra);
    var sum := actual.Adjusted(side, price, extra);
    forall s, p ensures Quantity(sum.Ladder(s), p) == Quantity(padded.Ladder(s), p) {
      assert Quantity(actual.Ladder(s), p) == SumAt(orders, s, p);
    }
    MapDeterminesLevels(Buy, sum.bids, padded.bids);
    MapDeterminesLevels(Sell, sum.asks, padded.asks);
  }

  /** Undoing one entry in the book: it succeeds exactly when the padded level is representable. */
  lemma UndoPads(m: Mutation, after: seq<LimitOrder>, before: seq<LimitOrder>, book: Book,
                 side: Side, price: int, extra: int)
    requires Padded(book, after, side, price, extra) && Reverts(m, after, before, true)
    requires Fits(before) && extra >= 0
    ensures AdjustError(book.Ladder(m.side), m.price, m.executed).None? <==>
            SumAt(before, side, price) + extra <= INT64_MAX
    ensures extra == 0 ==> AdjustError(book.Ladder(m.side), m.price, m.executed).None?
    ensures AdjustError(book.Ladder(m.side), m.price, m.executed).None? ==>
            Padded(book.Adjusted(m.side, m.price, m.executed), before, side, price, extra)
  {
    assert SumAt(before, m.side, m.price) == SumAt(after, m.side, m.price) + m.executed;
    if AdjustError(book.Ladder(m.side), m.price, m.executed).None? {
      AdjustRefinesMap(m.side, book.Ladder(m.side), m.price, m.executed);
      var next := book.Adjusted(m.side, m.price, m.executed);
      forall s, p ensures Quantity(next.Ladder(s), p) ==
                          SumAt(before, s, p) + if s == side && p == price then extra else 0
      {
        assert SumAt(before, s, p) == SumAt(after, s, p) + if s == m.side && p == m.price then m.executed else 0;
      }
      BoundedQuantity(side, next.Ladder(side), price);
    }
  }

  /** Undoing the unapplied entry adds a quantity that was never taken. */
  lemma GapPads(m: Mutation, orders: seq<LimitOrder>, book: Book)
    requires Padded(book, orders, m.side, m.price, 0) && m.price >= 0 && 0 < m.executed <= INT64_MAX
    ensures AdjustError(book.Ladder(m.side), m.price, m.executed).None? <==>
            SumAt(orders, m.side, m.price) + m.executed <= INT64_MAX
    ensures AdjustError(book.Ladder(m.side), m.price, m.executed).None? ==>
            Padded(book.Adjusted(m.side, m.price, m.executed), orders, m.side, m.price, m.executed)
  {
    assert Quantity(book.Ladder(m.side), m.price) == SumAt(orders, m.side, m.price);
    if AdjustError(book.Ladder(m.side), m.price, m.executed).None? {
      AdjustRefinesMap(m.side, book.Ladder(m.side), m.price, m.executed);
    }
  }

  /** The entry written for a trade: a filled order leaves with its removal record. */
  function EntryFor(orders: seq<LimitOrder>, b: nat, quantity: int): Mutation
    requires b < |orders|
  {
    var maker := orders[b];
    if quantity == maker.remaining
    then MutationOf(maker, quantity).(removed := true, removal := RemovalOf(orders[b := maker.(remaining := 0)], b))
    else MutationOf(maker, quantity)
  }

  lemma ReducedReverts(orders: seq<LimitOrder>, b: nat, quantity: int)
    requires DistinctIds(orders) && b < |orders|
    ensures RevertsOrders(EntryFor(orders, b, quantity), Reduced(orders, b, quantity), orders)
  {
    var maker := orders[b];
    if quantity == maker.remaining {
      var emptied := orders[b := maker.(remaining := 0)];
      RestoreUndoesRemoval(emptied, b, maker.remaining);
      assert RemoveAt(emptied, b) == RemoveAt(orders, b);
      assert emptied[b := emptied[b].(remaining := maker.remaining)] == orders;
    } else {
      var after := Reduced(orders, b, quantity);
      SlotUnique(after, b);
      assert after[b := after[b].(remaining := maker.remaining)] == orders;
    }
  }

  /** The entry written for a trade undoes that trade. */
  lemma FillReverts(e: Engine, taker: Taker, b: nat, quantity: int)
    requires Live(e) && b < |e.orders| && 0 < quantity <= e.orders[b].remaining
    ensures Reverts(EntryFor(e.orders, b, quantity), Fill(e, taker, b, quantity).orders, e.orders, true)
  {
    hide Agrees, RevertsOrders, SumAt;
    FillKeepsOrders(e, taker, b, quantity);
    ReducedReverts(e.orders, b, quantity);
  }

  /** An entry whose trade never happened reverts to the vector as it is. */
  lemma GapReverts(e: Engine, b: nat, quantity: int)
    requires Live(e) && b < |e.orders| && 0 < quantity <= e.orders[b].remaining
    ensures Reverts(MutationOf(e.orders[b], quantity), e.orders, e.orders, false)
  {
    hide Agrees;
    SlotUnique(e.orders, b);
    assert e.orders[b := e.orders[b].(remaining := e.orders[b].remaining)] == e.orders;
  }

  lemma LiveFits(e: Engine)
    requires Live(e)
    ensures Fits(e.orders)
  {
    forall s, p ensures SumAt(e.orders, s, p) <= INT64_MAX {
      LevelBounded(e, s, p);
      assert Quantity(e.book.Ladder(s), p) == SumAt(e.orders, s, p);
    }
  }

  lemma ChainExtends(journal: seq<Mutation>, trail: seq<seq<LimitOrder>>, m: Mutation, now: seq<LimitOrder>,
                     applied: bool)
    requires Chain(journal, trail, false)
    requires Reverts(m, now, trail[|journal|], applied) && Fits(now)
    ensures Chain(journal + [m], trail + [now], !applied)
  {
    var j, t := journal + [m], trail + [now];
    forall k | 0 <= k < |j| ensures Reverts(j[k], t[k + 1], t[k], !(!applied && k == |j| - 1)) {
      if k < |journal| {
        assert Reverts(journal[k], trail[k + 1], trail[k], true);
      }
    }
    assert NoMore(trail[|journal|], trail[0]);
    assert NoMore(now, trail[0]);
  }
}
