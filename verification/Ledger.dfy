/** Conservation over runs: what every active order has filled is exactly what the trades naming it say. */
module Ledgers {
  import opened Types
  import opened Orders
  import OrderBooks
  import opened OrderManagers
  import opened TradeStores
  import opened EngineModel
  import opened EngineInvariant

  /** Quantity traded in the name of one order. */
  function Traded(trades: seq<Trade>, id: nat): int {
    if trades == [] then 0
    else (if trades[0].Names(id) then trades[0].quantity else 0) + Traded(trades[1..], id)
  }

  lemma {:induction false} TradedSplit(a: seq<Trade>, b: seq<Trade>, id: nat)
    ensures Traded(a + b, id) == Traded(a, id) + Traded(b, id)
  {
    if a == [] {
      assert a + b == b;
    } else {
      TradedSplit(a[1..], b, id);
      assert (a + b)[1..] == a[1..] + b;
    }
  }

  /** `now` is `before` after these trades. */
  ghost predicate Accounts(before: LimitOrder, now: LimitOrder, trades: seq<Trade>) {
    now == before.(remaining := before.remaining - Traded(trades, before.id))
  }

  ghost predicate Foreign(orders: seq<LimitOrder>, taker: Taker) {
    taker.id.Some? ==> forall i :: 0 <= i < |orders| ==> orders[i].id != taker.id.value
  }

  /** A single trade accounts for every order that is still active after it. */
  lemma FillAccounts(e: Engine, taker: Taker, b: nat, quantity: int, now: LimitOrder) returns (before: LimitOrder)
    requires DistinctIds(e.orders) && b < |e.orders| && e.orders[b].side == taker.side.Opposite() &&
             Foreign(e.orders, taker)
    requires now in Fill(e, taker, b, quantity).orders
    ensures before in e.orders && Accounts(before, now, [Numbered(e.store, ExecutionOf(taker, e.orders[b], quantity))])
  {
    var maker := e.orders[b];
    var trade := Numbered(e.store, ExecutionOf(taker, maker, quantity));
    assert Traded([trade], now.id) == if trade.Names(now.id) then quantity else 0;
    if quantity == maker.remaining {
      RemoveAtContents(e.orders, b);
      before := now;
    } else if now.id == maker.id {
      before := maker;
    } else {
      before := now;
    }
  }

  lemma AccountsCompose(before: LimitOrder, middle: LimitOrder, now: LimitOrder, a: seq<Trade>, b: seq<Trade>)
    requires Accounts(before, middle, a) && Accounts(middle, now, b)
    ensures Accounts(before, now, a + b)
  {
    TradedSplit(a, b, before.id);
  }

  lemma FillKeepsForeign(e: Engine, taker: Taker, b: nat, quantity: int)
    requires Foreign(e.orders, taker) && b < |e.orders|
    ensures Foreign(Fill(e, taker, b, quantity).orders, taker)
  {
  }

  /** A whole sweep accounts for every order that is still active after it. */
  lemma {:induction false} MatchAccounts(e: Engine, taker: Taker, want: int, now: LimitOrder)
    returns (before: LimitOrder)
    requires Live(e) && Foreign(e.orders, taker)
    requires now in Match(e, taker, want).engine.orders
    ensures before in e.orders && Accounts(before, now, Match(e, taker, want).trades)
    decreases |e.orders|
  {
    hide Live, BestMatch, Foreign, Fill, Accounts, DistinctIds;
    LiveDistinct(e);
    var b := BestMatch(e.orders, taker);
    if want <= 0 || b.None? {
      before := now;
      AccountsNothing(now);
    } else {
      var maker := e.orders[b.value];
      OpenOrder(e, b.value);
      var quantity := Min(want, maker.remaining);
      var next := Fill(e, taker, b.value, quantity);
      var trade := Numbered(e.store, ExecutionOf(taker, maker, quantity));
      if quantity == maker.remaining {
        FillKeepsLive(e, taker, b.value, quantity);
        FillKeepsForeign(e, taker, b.value, quantity);
        FilledLeaves(e, taker, b.value);
        var middle := MatchAccounts(next, taker, want - quantity, now);
        before := FillAccounts(e, taker, b.value, quantity, middle);
        AccountsCompose(before, middle, now, [trade], Match(next, taker, want - quantity).trades);
      } else {
        before := FillAccounts(e, taker, b.value, quantity, now);
      }
    }
  }

  lemma AccountsNothing(o: LimitOrder)
    ensures Accounts(o, o, [])
  {
  }

  /** The taker's own account: executed plus unfilled is what was asked, and all of it is in its name. */
  lemma {:induction false} MatchVolume(e: Engine, taker: Taker, want: int)
    ensures Volume(Match(e, taker, want).trades) == want - Match(e, taker, want).left
    ensures taker.id.Some? ==> Traded(Match(e, taker, want).trades, taker.id.value) == want - Match(e, taker, want).left
    decreases |e.orders|
  {
    hide BestMatch;
    var b := BestMatch(e.orders, taker);
    if want > 0 && b.Some? {
      var maker := e.orders[b.value];
      var quantity := Min(want, maker.remaining);
      var trade := Numbered(e.store, ExecutionOf(taker, maker, quantity));
      if quantity == maker.remaining {
        var rest := Match(Fill(e, taker, b.value, quantity), taker, want - quantity);
        MatchVolume(Fill(e, taker, b.value, quantity), taker, want - quantity);
        assert ([trade] + rest.trades)[1..] == rest.trades;
      }
    }
  }

  /** A trade names its taker on the taker's side, and on the other side an order of that side at that price. */
  ghost predicate NamesBothSides(t: Trade, taker: Taker, orders: seq<LimitOrder>) {
    t.aggressor == taker.side && (if taker.side.Buy? then t.buyId else t.sellId) == taker.id &&
    exists i :: 0 <= i < |orders| && orders[i].side == taker.side.Opposite() && orders[i].price == t.price &&
                (if taker.side.Buy? then t.sellId else t.buyId) == Some(orders[i].id)
  }

  /** A maker after a fill is a maker before it, under the same id, side and price. */
  lemma MakerPersists(e: Engine, taker: Taker, b: nat, quantity: int, t: Trade)
    requires b < |e.orders| && NamesBothSides(t, taker, Fill(e, taker, b, quantity).orders)
    ensures NamesBothSides(t, taker, e.orders)
  {
    var after := Fill(e, taker, b, quantity).orders;
    var i :| 0 <= i < |after| && after[i].side == taker.side.Opposite() && after[i].price == t.price &&
             (if taker.side.Buy? then t.sellId else t.buyId) == Some(after[i].id);
    var j := if quantity == e.orders[b].remaining && i == b then |e.orders| - 1 else i;
    assert e.orders[j].id == after[i].id && e.orders[j].side == after[i].side && e.orders[j].price == after[i].price;
  }

  /** Every trade of a sweep is in the name of the taker and of an opposite order that was active on entry, at its
      price. */
  lemma {:induction false} MatchNamesBothSides(e: Engine, taker: Taker, want: int, k: nat)
    requires k < |Match(e, taker, want).trades|
    ensures NamesBothSides(Match(e, taker, want).trades[k], taker, e.orders)
    decreases |e.orders|
  {
    hide NamesBothSides, BestMatch, Fill, Numbered, ExecutionOf;
    var b := BestMatch(e.orders, taker).value;
    var maker := e.orders[b];
    var quantity := Min(want, maker.remaining);
    if k == 0 {
      FillNamesBothSides(e, taker, b, quantity);
    } else {
      FilledLeaves(e, taker, b);
      MatchNamesBothSides(Fill(e, taker, b, quantity), taker, want - quantity, k - 1);
      MakerPersists(e, taker, b, quantity, Match(e, taker, want).trades[k]);
    }
  }

  lemma FillNamesBothSides(e: Engine, taker: Taker, b: nat, quantity: int)
    requires b < |e.orders| && e.orders[b].side == taker.side.Opposite()
    ensures NamesBothSides(Numbered(e.store, ExecutionOf(taker, e.orders[b], quantity)), taker, e.orders)
  {
  }

  /** An incoming order, matched and rested, is accounted for, and so is every other active order. */
  lemma EnterAccounts(e: Engine, o: LimitOrder, now: LimitOrder)
    requires Live(e) && Fresh(e.orders, o) && o.original == o.remaining
    requires Enter(e, o).Some? && now in Enter(e, o).value.engine.orders
    ensures var trades := Enter(e, o).value.trades;
            if now.id == o.id then now.Filled() == Traded(trades, o.id)
            else exists before :: before in e.orders && Accounts(before, now, trades)
  {
    hide Live, Match;
    var m := Match(e, TakerOf(o), o.remaining);
    MatchVolume(e, TakerOf(o), o.remaining);
    MatchKeepsFresh(e, TakerOf(o), o.remaining, o);
    if now in m.engine.orders {
      var before := MatchAccounts(e, TakerOf(o), o.remaining, now);
    }
  }

  /** The order whose fill count a command starts afresh. */
  function Renewed(e: Engine, c: Command): Option<nat> {
    match c
    case PlaceLimit(side, price, quantity) =>
      if Place(e, side, price, quantity).result.Ok? then Some(e.nextId) else None
    case ModifyOrder(id, price, quantity) =>
      if Modify(e, id, price, quantity).result == Ok(true) then Some(id) else None
    case _ => None
  }

  /** An order after a command: either its count was started afresh, or it is an older order plus the new trades. */
  ghost predicate Explained(e: Engine, now: LimitOrder, trades: seq<Trade>, renewed: Option<nat>) {
    if renewed == Some(now.id) then now.Filled() == Traded(trades, now.id)
    else exists before :: before in e.orders && Accounts(before, now, trades)
  }

  lemma Unchanged(e: Engine, now: LimitOrder, renewed: Option<nat>)
    requires now in e.orders && renewed != Some(now.id)
    ensures Explained(e, now, [], renewed)
  {
    AccountsNothing(now);
  }

  lemma PlaceExplained(e: Engine, side: Side, price: Int64, quantity: Int64, now: LimitOrder)
    requires Inv(e) && now in Place(e, side, price, quantity).engine.orders
    ensures Explained(e, now, Place(e, side, price, quantity).trades, Renewed(e, PlaceLimit(side, price, quantity)))
  {
    hide Live, Inv, Enter, Fresh, Accounts;
    if Place(e, side, price, quantity).result.Ok? {
      CountersPositive(e);
      OpenedLive(e);
      EnterAccounts(Opened(e), LimitOrder(e.nextId, side, price, quantity, quantity, e.nextSequence), now);
    } else {
      AccountsNothing(now);
    }
  }

  lemma ModifyExplained(e: Engine, id: nat, price: Int64, quantity: Int64, now: LimitOrder)
    requires Inv(e) && now in Modify(e, id, price, quantity).engine.orders
    ensures Explained(e, now, Modify(e, id, price, quantity).trades, Renewed(e, ModifyOrder(id, price, quantity)))
  {
    hide Live, Enter, Fresh, Accounts, Sound;
    if Modify(e, id, price, quantity).result == Ok(true) {
      var i := Slot(e.orders, id).value;
      LiveDistinct(e);
      if price == e.orders[i].price {
        if now.id != id {
          AccountsNothing(now);
        }
      } else {
        ReopenedLive(e, i, price, quantity);
        EnterAccounts(Reopened(e, i), Replacement(e, i, price, quantity), now);
        RemoveAtContents(e.orders, i);
      }
    } else {
      AccountsNothing(now);
    }
  }

  lemma MarketExplained(e: Engine, side: Side, quantity: Int64, now: LimitOrder)
    requires Inv(e) && now in Market(e, side, quantity).engine.orders
    ensures Explained(e, now, Market(e, side, quantity).trades, None)
  {
    hide Live, Match, MatchBook, Accounts;
    if Market(e, side, quantity).result.Ok? {
      if e.orders == [] {
        MatchBookKeepsInv(e, side, quantity);
      } else {
        var before := MatchAccounts(e, Taker(side, None, None), quantity, now);
      }
    } else {
      AccountsNothing(now);
    }
  }

  lemma StepExplained(e: Engine, c: Command, now: LimitOrder)
    requires Inv(e) && now in Step(e, c).engine.orders
    ensures Explained(e, now, Step(e, c).trades, Renewed(e, c))
  {
    hide Inv, Accounts, Explained, Place, Modify, Market;
    match c
    case PlaceLimit(side, price, quantity) => PlaceExplained(e, side, price, quantity, now);
    case ExecuteMarket(side, quantity) => MarketExplained(e, side, quantity, now);
    case CancelOrder(id) => CancelExplained(e, id, now);
    case ModifyOrder(id, price, quantity) => ModifyExplained(e, id, price, quantity, now);
    case ActiveOrders => Unchanged(e, now, None);
    case TradeHistory => Unchanged(e, now, None);
    case ClearHistory => Unchanged(e, now, None);
  }

  lemma CancelExplained(e: Engine, id: nat, now: LimitOrder)
    requires Inv(e) && now in Cancel(e, id).engine.orders
    ensures Explained(e, now, [], None)
  {
    hide Live, Accounts;
    if Slot(e.orders, id).Some? {
      LiveDistinct(e);
      RemoveAtContents(e.orders, Slot(e.orders, id).value);
    }
    AccountsNothing(now);
  }

  /** An engine with the memory the program lacks: every trade ever made, and for each id the length of that
      history when the order was placed or last modified. */
  datatype Ledger = Ledger(engine: Engine, history: seq<Trade>, since: map<nat, nat>)

  function Advance(l: Ledger, event: Event): Ledger {
    match event
    case Publish(book) => l.(engine := l.engine.(book := book))
    case Do(c) =>
      var s := Step(l.engine, c);
      Ledger(s.engine, l.history + s.trades,
             match Renewed(l.engine, c)
             case Some(id) => l.since[id := |l.history|]
             case None => l.since)
  }

  ghost predicate BalancedOrder(l: Ledger, o: LimitOrder) {
    o.id in l.since && l.since[o.id] <= |l.history| && o.Filled() == Traded(l.history[l.since[o.id]..], o.id)
  }

  ghost predicate Balanced(l: Ledger) {
    forall o :: o in l.engine.orders ==> BalancedOrder(l, o)
  }

  lemma AdvanceBalancesOrder(l: Ledger, c: Command, now: LimitOrder)
    requires Inv(l.engine) && Balanced(l) && now in Step(l.engine, c).engine.orders
    ensures BalancedOrder(Advance(l, Do(c)), now)
  {
    hide Inv, Step, Renewed;
    var s := Step(l.engine, c);
    StepExplained(l.engine, c, now);
    var next := Advance(l, Do(c));
    if Renewed(l.engine, c) == Some(now.id) {
      assert next.history[|l.history|..] == s.trades;
    } else {
      var before :| before in l.engine.orders && Accounts(before, now, s.trades);
      assert BalancedOrder(l, before);
      var k := l.since[now.id];
      assert next.history[k..] == l.history[k..] + s.trades;
      TradedSplit(l.history[k..], s.trades, now.id);
    }
  }

  function LedgerRun(l: Ledger, events: seq<Event>): Ledger
    decreases |events|
  {
    if events == [] then l else LedgerRun(Advance(l, events[0]), events[1..])
  }

  /** Conservation over every run: after any events, each active order's filled quantity is the total of the trades that
      named it since it was placed or last modified, and the ledger's engine is the engine. */
  lemma {:induction false} RunBalances(l: Ledger, events: seq<Event>)
    requires Inv(l.engine) && Balanced(l) && AdmittedRun(l.engine, events)
    ensures Balanced(LedgerRun(l, events))
    ensures LedgerRun(l, events).engine == Run(l.engine, events)
    decreases |events|
  {
    hide Inv, Step, Renewed, BalancedOrder;
    if events != [] {
      var next := Advance(l, events[0]);
      match events[0] {
        case Publish(book) => PublishKeeps(l, book);
        case Do(c) =>
          StepKeepsInv(l.engine, c);
          forall now | now in next.engine.orders ensures BalancedOrder(next, now) {
            AdvanceBalancesOrder(l, c, now);
          }
      }
      RunBalances(next, events[1..]);
    }
  }

  lemma PublishKeeps(l: Ledger, book: OrderBooks.Book)
    requires Inv(l.engine) && Balanced(l) && book.WellFormed() && l.engine.orders == []
    ensures Inv(l.engine.(book := book)) && Balanced(l.(engine := l.engine.(book := book)))
  {
  }

  /** The trades carry the store's next numbers, in order, and the store moves past them. */
  ghost predicate Continues(s: Store, trades: seq<Trade>, s': Store) {
    s'.nextTradeId == s.nextTradeId + |trades| && s'.nextExecution == s.nextExecution + |trades| &&
    forall k :: 0 <= k < |trades| ==>
      trades[k].tradeId == s.nextTradeId + k && trades[k].executionSequence == s.nextExecution + k
  }

  lemma ContinuesAfter(s: Store, x: Execution, trades: seq<Trade>, s': Store)
    requires Continues(Record(s, x), trades, s')
    ensures Continues(s, [Numbered(s, x)] + trades, s')
  {
  }

  lemma {:induction false} MatchContinues(e: Engine, taker: Taker, want: int)
    ensures Continues(e.store, Match(e, taker, want).trades, Match(e, taker, want).engine.store)
    decreases |e.orders|
  {
    hide BestMatch, Continues, Reduced;
    NothingContinues(e.store);
    var b := BestMatch(e.orders, taker);
    if want > 0 && b.Some? {
      var maker := e.orders[b.value];
      var quantity := Min(want, maker.remaining);
      var next := Fill(e, taker, b.value, quantity);
      var x := ExecutionOf(taker, maker, quantity);
      NothingContinues(next.store);
      if quantity == maker.remaining {
        FilledLeaves(e, taker, b.value);
        MatchContinues(next, taker, want - quantity);
        ContinuesAfter(e.store, x, Match(next, taker, want - quantity).trades, Match(e, taker, want).engine.store);
      } else {
        ContinuesAfter(e.store, x, [], next.store);
        assert [Numbered(e.store, x)] + [] == [Numbered(e.store, x)];
      }
    }
  }

  lemma NothingContinues(s: Store)
    ensures Continues(s, [], s)
  {
  }

  lemma {:induction false} MatchBookContinues(e: Engine, side: Side, want: int)
    ensures MatchBook(e, side, want).Some? ==>
            Continues(e.store, MatchBook(e, side, want).value.trades, MatchBook(e, side, want).value.engine.store)
    decreases |e.book.Ladder(side.Opposite())|
  {
    hide Continues;
    NothingContinues(e.store);
    var levels := e.book.Ladder(side.Opposite());
    if want > 0 && levels != [] && MatchBook(e, side, want).Some? {
      var quantity := Min(want, levels[0].quantity);
      var next := Consume(e, side, quantity);
      var x := Execution(side, levels[0].price, quantity, None, None);
      NothingContinues(next.store);
      if quantity == levels[0].quantity {
        MatchBookContinues(next, side, want - quantity);
        var rest := MatchBook(next, side, want - quantity).value;
        ContinuesAfter(e.store, x, rest.trades, rest.engine.store);
      } else {
        ContinuesAfter(e.store, x, [], next.store);
        assert [Numbered(e.store, x)] + [] == [Numbered(e.store, x)];
      }
    }
  }

  lemma StepContinues(e: Engine, c: Command)
    ensures Continues(e.store, Step(e, c).trades, Step(e, c).engine.store)
  {
    hide Match, MatchBook, Continues;
    NothingContinues(e.store);
    match c
    case PlaceLimit(side, price, quantity) =>
      MatchContinues(Opened(e), Taker(side, Some(price), Some(e.nextId)), quantity);
    case ExecuteMarket(side, quantity) =>
      MatchBookContinues(e, side, quantity);
      MatchContinues(e, Taker(side, None, None), quantity);
    case ModifyOrder(id, price, quantity) =>
      if Slot(e.orders, id).Some? {
        var i := Slot(e.orders, id).value;
        MatchContinues(Reopened(e, i), TakerOf(Replacement(e, i, price, quantity)), quantity);
      }
    case ClearHistory => ClearContinues(e.store);
    case _ =>
  }

  lemma ClearContinues(s: Store)
    ensures Continues(s, [], s.(trades := []))
  {
  }

  /** No number is ever reused: the trades of a whole run, including those a clear has removed from the program's log,
      carry strictly increasing trade ids and execution sequences below the counters. */
  lemma {:induction false} RunNumbersIncrease(l: Ledger, events: seq<Event>)
    requires Ordered(l.engine.store.(trades := l.history))
    ensures var end := LedgerRun(l, events); Ordered(end.engine.store.(trades := end.history))
    decreases |events|
  {
    hide Step, Renewed;
    if events != [] {
      if events[0].Do? {
        StepContinues(l.engine, events[0].command);
      }
      RunNumbersIncrease(Advance(l, events[0]), events[1..]);
    }
  }
}
