/** First in, first out over whole runs: while an order is active, nothing behind it in its queue trades. */
module Fifo {
  import opened Types
  import opened Orders
  import opened OrderBooks
  import opened OrderManagers
  import opened TradeStores
  import opened EngineModel
  import opened EngineInvariant
  import opened Ledgers

  /** `a` stands before `b` in the queue of their side. */
  ghost predicate Ahead(orders: seq<LimitOrder>, a: LimitOrder, b: LimitOrder) {
    a in orders && b in orders && a.side == b.side && Precedes(a.side, KeyOf(a), KeyOf(b))
  }

  ghost predicate Unnamed(trades: seq<Trade>, id: nat) {
    forall t :: t in trades ==> !t.Names(id)
  }

  /** The command gives the order a new place: another price, or more quantity than it has left. */
  ghost predicate Repositions(e: Engine, c: Command, id: nat) {
    c.ModifyOrder? && c.id == id && Modify(e, id, c.price, c.quantity).result.Ok? &&
    exists o :: o in e.orders && o.id == id && (c.price != o.price || c.quantity > o.remaining)
  }

  /** Whatever is left of the order stands where it stood. */
  ghost predicate KeepsPlace(orders: seq<LimitOrder>, o: LimitOrder) {
    forall x :: x in orders && x.id == o.id ==> x.side == o.side && KeyOf(x) == KeyOf(o)
  }

  /** The best match is never the one behind. */
  lemma BestIsNotBehind(orders: seq<LimitOrder>, taker: Taker, k: nat, a: LimitOrder, b: LimitOrder)
    requires DistinctIds(orders) && Ahead(orders, a, b) && BestMatch(orders, taker) == Some(k)
    ensures orders[k].id != b.id
  {
    hide Best;
    BestIsBest(orders, taker.side.Opposite());
    var i, j :| 0 <= i < |orders| && 0 <= j < |orders| && orders[i] == a && orders[j] == b;
    assert orders[k].id == b.id ==> k == j;
  }

  /** A sweep never brings an order back. */
  lemma SurvivorWasActive(e: Engine, taker: Taker, want: int, id: nat)
    requires Live(e) && Foreign(e.orders, taker) && Active(Match(e, taker, want).engine.orders, id)
    ensures Active(e.orders, id)
  {
    hide Live, Match;
    var now :| now in Match(e, taker, want).engine.orders && now.id == id;
    var before := MatchAccounts(e, taker, want, now);
  }

  /** A sweep that leaves `a` active does not trade with `b` behind it. */
  lemma {:induction false} MatchFifo(e: Engine, taker: Taker, want: int, a: LimitOrder, b: LimitOrder)
    requires Live(e) && Foreign(e.orders, taker) && Ahead(e.orders, a, b)
    requires Active(Match(e, taker, want).engine.orders, a.id)
    ensures Unnamed(Match(e, taker, want).trades, b.id)
    decreases |e.orders|
  {
    hide Live, BestMatch, DistinctIds;
    var best := BestMatch(e.orders, taker);
    if want > 0 && best.Some? {
      var k := best.value;
      LiveDistinct(e);
      OpenOrder(e, k);
      BestIsNotBehind(e.orders, taker, k, a, b);
      var maker := e.orders[k];
      var quantity := Min(want, maker.remaining);
      assert b.id != maker.id && taker.id != Some(b.id);
      if quantity == maker.remaining {
        var next := Fill(e, taker, k, quantity);
        FillKeepsLive(e, taker, k, quantity);
        FillKeepsForeign(e, taker, k, quantity);
        FilledLeaves(e, taker, k);
        SurvivorWasActive(next, taker, want - quantity, a.id);
        RemoveAtContents(e.orders, k);
        MatchFifo(next, taker, want - quantity, a, b);
      }
    }
  }

  lemma EnterFifo(e: Engine, o: LimitOrder, a: LimitOrder, b: LimitOrder)
    requires Live(e) && Fresh(e.orders, o) && Ahead(e.orders, a, b) && Enter(e, o).Some?
    requires Active(Enter(e, o).value.engine.orders, a.id)
    ensures Unnamed(Enter(e, o).value.trades, b.id)
  {
    hide Live, Match, Unnamed;
    MatchFifo(e, TakerOf(o), o.remaining, a, b);
  }

  lemma PlaceFifo(e: Engine, side: Side, price: Int64, quantity: Int64, a: LimitOrder, b: LimitOrder)
    requires Inv(e) && Ahead(e.orders, a, b) && Active(Place(e, side, price, quantity).engine.orders, a.id)
    ensures Unnamed(Place(e, side, price, quantity).trades, b.id)
  {
    hide Live, Inv, Enter, Fresh, Ahead, Active;
    if Place(e, side, price, quantity).result.Ok? {
      CountersPositive(e);
      OpenedLive(e);
      EnterFifo(Opened(e), LimitOrder(e.nextId, side, price, quantity, quantity, e.nextSequence), a, b);
    }
  }

  lemma ModifyFifo(e: Engine, id: nat, price: Int64, quantity: Int64, a: LimitOrder, b: LimitOrder)
    requires Inv(e) && Ahead(e.orders, a, b) && Active(Modify(e, id, price, quantity).engine.orders, a.id)
    requires !Repositions(e, ModifyOrder(id, price, quantity), a.id) &&
             !Repositions(e, ModifyOrder(id, price, quantity), b.id)
    ensures Unnamed(Modify(e, id, price, quantity).trades, b.id)
  {
    hide Live, Enter, Fresh, Active, Sound;
    if Modify(e, id, price, quantity).result == Ok(true) {
      var i := Slot(e.orders, id).value;
      LiveDistinct(e);
      if price != e.orders[i].price {
        assert e.orders[i] in e.orders;
        RemoveAtContents(e.orders, i);
        ReopenedLive(e, i, price, quantity);
        EnterFifo(Reopened(e, i), Replacement(e, i, price, quantity), a, b);
      }
    }
  }

  lemma StepFifo(e: Engine, c: Command, a: LimitOrder, b: LimitOrder)
    requires Inv(e) && Ahead(e.orders, a, b) && !Repositions(e, c, a.id) && !Repositions(e, c, b.id)
    requires Active(Step(e, c).engine.orders, a.id)
    ensures Unnamed(Step(e, c).trades, b.id)
  {
    hide Live, Place, Modify, Match, MatchBook, Repositions, Active, Precedes;
    match c
    case PlaceLimit(side, price, quantity) => PlaceFifo(e, side, price, quantity, a, b);
    case ExecuteMarket(side, quantity) =>
      if quantity > 0 {
        MatchFifo(e, Taker(side, None, None), quantity, a, b);
      }
    case ModifyOrder(id, price, quantity) => ModifyFifo(e, id, price, quantity, a, b);
    case _ =>
  }

  lemma SameId(e: Engine, x: LimitOrder, y: LimitOrder)
    requires Inv(e) && x in e.orders && y in e.orders && x.id == y.id
    ensures x == y
  {
  }

  /** A command that does not reposition an order leaves it in its place. */
  lemma StepKeepsPlace(e: Engine, c: Command, o: LimitOrder)
    requires Inv(e) && o in e.orders && !Repositions(e, c, o.id)
    ensures KeepsPlace(Step(e, c).engine.orders, o)
  {
    hide Inv, Live, Step;
    forall x | x in Step(e, c).engine.orders && x.id == o.id ensures x.side == o.side && KeyOf(x) == KeyOf(o) {
      StepExplained(e, c, x);
      if Renewed(e, c) == Some(x.id) {
        RenewedInPlace(e, c, o, x);
      } else {
        var before :| before in e.orders && Accounts(before, x, Step(e, c).trades);
        SameId(e, before, o);
      }
    }
  }

  lemma IdIssued(e: Engine, o: LimitOrder)
    requires Inv(e) && o in e.orders
    ensures o.id < e.nextId && DistinctIds(e.orders)
  {
  }

  lemma RenewedInPlace(e: Engine, c: Command, o: LimitOrder, x: LimitOrder)
    requires Inv(e) && o in e.orders && !Repositions(e, c, o.id) && Renewed(e, c) == Some(o.id)
    requires x in Step(e, c).engine.orders && x.id == o.id
    ensures x.side == o.side && KeyOf(x) == KeyOf(o)
  {
    hide Inv, Place, Enter;
    IdIssued(e, o);
    var i := Slot(e.orders, o.id).value;
    SameId(e, e.orders[i], o);
  }

  /** The id was issued, and its order has left for good. */
  ghost predicate Gone(e: Engine, id: nat) {
    id < e.nextId && !Active(e.orders, id)
  }

  lemma {:induction false} MatchBookAnonymous(e: Engine, side: Side, want: int, id: nat)
    ensures MatchBook(e, side, want).Some? ==> Unnamed(MatchBook(e, side, want).value.trades, id)
    decreases |e.book.Ladder(side.Opposite())|
  {
    hide Record;
    var levels := e.book.Ladder(side.Opposite());
    if want > 0 && levels != [] && levels[0].quantity <= want {
      MatchBookAnonymous(Consume(e, side, levels[0].quantity), side, want - levels[0].quantity, id);
    }
  }

  lemma MatchUnnamed(e: Engine, taker: Taker, want: int, id: nat)
    requires !Active(e.orders, id) && taker.id != Some(id)
    ensures Unnamed(Match(e, taker, want).trades, id)
  {
    hide Match;
    var trades := Match(e, taker, want).trades;
    forall t | t in trades ensures !t.Names(id) {
      var k :| 0 <= k < |trades| && trades[k] == t;
      MatchNamesBothSides(e, taker, want, k);
    }
  }

  lemma GoneIsUnnamed(e: Engine, c: Command, id: nat)
    requires Inv(e) && Gone(e, id)
    ensures Unnamed(Step(e, c).trades, id)
  {
    hide Live, Match, MatchBook, Unnamed, Active;
    UnnamedNothing(id);
    match c
    case PlaceLimit(side, price, quantity) =>
      if Place(e, side, price, quantity).result.Ok? {
        MatchUnnamed(Opened(e), Taker(side, Some(price), Some(e.nextId)), quantity, id);
      }
    case ExecuteMarket(side, quantity) =>
      if e.orders == [] {
        MatchBookAnonymous(e, side, quantity, id);
      } else {
        MatchUnnamed(e, Taker(side, None, None), quantity, id);
      }
    case ModifyOrder(other, price, quantity) =>
      if Modify(e, other, price, quantity).result == Ok(true) && price != e.orders[Slot(e.orders, other).value].price {
        GoneOnReopening(e, Slot(e.orders, other).value, price, quantity, id);
      }
    case _ =>
  }

  lemma UnnamedNothing(id: nat)
    ensures Unnamed([], id)
  {
  }

  lemma GoneOnReopening(e: Engine, i: nat, price: Int64, quantity: Int64, id: nat)
    requires Live(e) && i < |e.orders| && !Active(e.orders, id) && price > 0 && quantity > 0
    ensures Unnamed(Match(Reopened(e, i), TakerOf(Replacement(e, i, price, quantity)), quantity).trades, id)
  {
    hide Live, Match;
    assert e.orders[i] in e.orders;
    LiveDistinct(e);
    RemoveAtContents(e.orders, i);
    MatchUnnamed(Reopened(e, i), TakerOf(Replacement(e, i, price, quantity)), quantity, id);
  }

  lemma StepKeepsGone(e: Engine, c: Command, id: nat)
    requires Inv(e) && Gone(e, id)
    ensures Gone(Step(e, c).engine, id) && Unnamed(Step(e, c).trades, id)
  {
    hide Inv, Step, Unnamed;
    GoneIsUnnamed(e, c, id);
    IdsOnlyGrow(e, c);
    if Active(Step(e, c).engine.orders, id) {
      var x :| x in Step(e, c).engine.orders && x.id == id;
      StepExplained(e, c, x);
      RenewedIsActive(e, c, id);
    }
  }

  lemma RenewedIsActive(e: Engine, c: Command, id: nat)
    requires Renewed(e, c) == Some(id)
    ensures id == e.nextId || Active(e.orders, id)
  {
    hide Place;
    if c.ModifyOrder? {
      assert e.orders[Slot(e.orders, id).value] in e.orders;
    }
  }

  lemma IdsOnlyGrow(e: Engine, c: Command)
    requires Inv(e)
    ensures e.nextId <= Step(e, c).engine.nextId
  {
    hide Live, Match, MatchBook, Fresh, Sound;
    match c
    case PlaceLimit(side, price, quantity) =>
      if Place(e, side, price, quantity).result.Ok? {
        CountersPositive(e);
        OpenedLive(e);
        MatchKeepsLive(Opened(e), Taker(side, Some(price), Some(e.nextId)), quantity);
      }
    case ExecuteMarket(side, quantity) =>
      if quantity > 0 {
        if e.orders == [] {
          MatchBookKeepsInv(e, side, quantity);
        } else {
          MatchKeepsLive(e, Taker(side, None, None), quantity);
        }
      }
    case ModifyOrder(id, price, quantity) =>
      if Modify(e, id, price, quantity).result == Ok(true) && price != e.orders[Slot(e.orders, id).value].price {
        var i := Slot(e.orders, id).value;
        ReopenedLive(e, i, price, quantity);
        MatchKeepsLive(Reopened(e, i), TakerOf(Replacement(e, i, price, quantity)), quantity);
      }
    case _ =>
  }

  /** Every trade of a run, in order. */
  function RunTrades(e: Engine, events: seq<Event>): seq<Trade>
    decreases |events|
  {
    if events == [] then []
    else (if events[0].Do? then Step(e, events[0].command).trades else []) + RunTrades(Apply(e, events[0]), events[1..])
  }

  /** No command of the run gives the order a new place. */
  ghost predicate StaysPut(e: Engine, events: seq<Event>, id: nat)
    decreases |events|
  {
    events != [] ==>
      (events[0].Do? ==> !Repositions(e, events[0].command, id)) && StaysPut(Apply(e, events[0]), events[1..], id)
  }

  /** An order that has left is not traded again and does not come back. */
  lemma {:induction false} RunKeepsGone(e: Engine, events: seq<Event>, id: nat)
    requires Inv(e) && AdmittedRun(e, events) && Gone(e, id)
    ensures Gone(Run(e, events), id) && Unnamed(RunTrades(e, events), id)
    decreases |events|
  {
    hide Inv, Step;
    if events != [] {
      match events[0] {
        case Do(c) =>
          StepKeepsInv(e, c);
          StepKeepsGone(e, c, id);
        case Publish(book) => PublishedInv(e, book);
      }
      RunKeepsGone(Apply(e, events[0]), events[1..], id);
    }
  }

  lemma PublishedInv(e: Engine, book: Book)
    requires Inv(e) && e.orders == [] && book.WellFormed()
    ensures Inv(e.(book := book))
  {
  }

  lemma StillActive(e: Engine, events: seq<Event>, id: nat)
    requires Inv(e) && AdmittedRun(e, events) && id < e.nextId && Active(Run(e, events).orders, id)
    ensures Active(e.orders, id)
  {
    hide Inv, AdmittedRun, Run;
    if !Active(e.orders, id) {
      RunKeepsGone(e, events, id);
    }
  }

  lemma PlaceKept(e: Engine, o: LimitOrder)
    requires Inv(e) && o in e.orders
    ensures KeepsPlace(e.orders, o)
  {
    hide Inv;
    forall x | x in e.orders && x.id == o.id ensures x == o {
      SameId(e, x, o);
    }
  }

  lemma {:induction false} RunKeepsPlace(e: Engine, events: seq<Event>, o: LimitOrder)
    requires Inv(e) && AdmittedRun(e, events) && o in e.orders && StaysPut(e, events, o.id)
    ensures KeepsPlace(Run(e, events).orders, o)
    decreases |events|
  {
    hide Inv, Step, Repositions;
    PlaceKept(e, o);
    if events != [] && events[0].Do? {
      var c, next, rest := events[0].command, Apply(e, events[0]), events[1..];
      StepKeepsInv(e, c);
      StepKeepsPlace(e, c, o);
      IdIssued(e, o);
      IdsOnlyGrow(e, c);
      if Active(next.orders, o.id) {
        var now :| now in next.orders && now.id == o.id;
        RunKeepsPlace(next, rest, now);
      } else {
        RunKeepsGone(next, rest, o.id);
      }
    }
  }

  /** First in, first out over every run: if `a` stands before `b`, neither is given a new place and `a` is still
      active at the end, then `b` was not traded at all, and what is left of the two stands where it stood. */
  lemma {:induction false} RunIsFifo(e: Engine, events: seq<Event>, a: LimitOrder, b: LimitOrder)
    requires Inv(e) && AdmittedRun(e, events) && Ahead(e.orders, a, b)
    requires StaysPut(e, events, a.id) && StaysPut(e, events, b.id)
    requires Active(Run(e, events).orders, a.id)
    ensures Unnamed(RunTrades(e, events), b.id)
    ensures KeepsPlace(Run(e, events).orders, a) && KeepsPlace(Run(e, events).orders, b)
    decreases |events|
  {
    hide Inv, Step, Repositions, Precedes;
    RunKeepsPlace(e, events, a);
    RunKeepsPlace(e, events, b);
    if events != [] && events[0].Do? {
      var c, next, rest := events[0].command, Apply(e, events[0]), events[1..];
      StepKeepsInv(e, c);
      IdIssued(e, a);
      IdIssued(e, b);
      IdsOnlyGrow(e, c);
      StillActive(next, rest, a.id);
      StepFifo(e, c, a, b);
      StepKeepsPlace(e, c, a);
      StepKeepsPlace(e, c, b);
      var first :| first in next.orders && first.id == a.id;
      if Active(next.orders, b.id) {
        var second :| second in next.orders && second.id == b.id;
        RunIsFifo(next, rest, first, second);
      } else {
        RunKeepsGone(next, rest, b.id);
      }
    }
  }
}
