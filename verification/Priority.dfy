/** Price-time priority over commands: how placement, cancellation and modification move the two queues. */
module Priority {
  import opened Types
  import Levels
  import opened Orders
  import opened OrderManagers
  import opened Queues
  import opened TradeStores
  import opened EngineModel
  import opened EngineInvariant
  import opened Sweeps

  /** Sequence numbers are distinct, so price and sequence alone rank active orders and the id never decides. */
  lemma TieBreakNeverDecides(e: Engine, i: nat, j: nat)
    requires Inv(e) && i < |e.orders| && j < |e.orders| && i != j && e.orders[i].side == e.orders[j].side
    ensures var a, b := e.orders[i], e.orders[j];
            Precedes(a.side, KeyOf(a), KeyOf(b)) <==>
            Better(a.side, a.price, b.price) || (a.price == b.price && a.sequence < b.sequence)
  {
    hide Agrees;
    assert e.orders[i].sequence != e.orders[j].sequence;
  }

  /** Position `k` is behind every order at a better or equal price and ahead of every worse one. */
  ghost predicate BackOfPrice(side: Side, q: seq<LimitOrder>, price: int, k: nat) {
    k <= |q| && (forall j :: 0 <= j < k ==> !Better(side, price, q[j].price)) &&
    forall j :: k <= j < |q| ==> Better(side, price, q[j].price)
  }

  /** An order with the newest sequence number joins at the back of its price. */
  lemma {:induction false} NewestJoinsBack(side: Side, q: seq<LimitOrder>, o: LimitOrder) returns (k: nat)
    requires SortedQueue(side, q) && forall j :: 0 <= j < |q| ==> q[j].sequence < o.sequence
    ensures BackOfPrice(side, q, o.price, k)
    ensures Insert(side, q, o) == q[..k] + [o] + q[k..]
  {
    if q == [] || Precedes(side, KeyOf(o), KeyOf(q[0])) {
      k := 0;
      forall j | 0 <= j < |q| ensures Better(side, o.price, q[j].price) {
        assert j == 0 || Precedes(side, KeyOf(q[0]), KeyOf(q[j]));
      }
    } else {
      var rest := NewestJoinsBack(side, q[1..], o);
      k := rest + 1;
      assert q[..k] == [q[0]] + q[1..][..rest];
      assert q[1..][rest..] == q[k..];
      forall j | 0 <= j < k ensures !Better(side, o.price, q[j].price) {
        assert j == 0 || q[1..][j - 1] == q[j];
      }
      forall j | k <= j < |q| ensures Better(side, o.price, q[j].price) {
        assert q[1..][j - 1] == q[j];
      }
    }
  }

  /** A command that enters an order, on the queues: the opposite queue is swept, and a remainder joins the own
      queue. */
  lemma EnterRefinesSweep(e: Engine, o: LimitOrder)
    requires Live(e) && o.remaining >= 0 && Enter(e, o).Some?
    ensures var m := Enter(e, o).value; var g := Sweep(Queue(e.orders, o.side.Opposite()), TakerOf(o), o.remaining);
            Queue(m.engine.orders, o.side.Opposite()) == g.rest &&
            Queue(m.engine.orders, o.side) ==
              (if g.left == 0 then Queue(e.orders, o.side)
               else Insert(o.side, Queue(e.orders, o.side), o.(remaining := g.left))) &&
            m.trades == Issued(e.store, Executions(TakerOf(o), g.taken)) &&
            m.engine.store == RecordAll(e.store, Executions(TakerOf(o), g.taken))
  {
    hide Live, Match, Sweep, Executions, Issued, RecordAll;
    var m := Match(e, TakerOf(o), o.remaining);
    MatchIsSweep(e, TakerOf(o), o.remaining);
    MatchKeepsLive(e, TakerOf(o), o.remaining);
    if m.left > 0 {
      var rest := o.(remaining := m.left);
      assert (m.engine.orders + [rest])[..|m.engine.orders|] == m.engine.orders;
    }
  }

  /** Placement refines the specification: sweep the opposite queue, then join the back of the own price. */
  lemma PlaceRefinesSweep(e: Engine, side: Side, price: Int64, quantity: Int64)
    requires Inv(e) && Place(e, side, price, quantity).result.Ok?
    ensures var placed := Place(e, side, price, quantity);
            var taker := Taker(side, Some(price), Some(e.nextId));
            var own, g := Queue(e.orders, side), Sweep(Queue(e.orders, side.Opposite()), taker, quantity);
            placed.trades == Issued(e.store, Executions(taker, g.taken)) &&
            placed.engine.store == RecordAll(e.store, Executions(taker, g.taken)) &&
            Queue(placed.engine.orders, side.Opposite()) == g.rest &&
            if g.left == 0 then Queue(placed.engine.orders, side) == own
            else exists k: nat :: BackOfPrice(side, own, price, k) && Queue(placed.engine.orders, side) ==
                   own[..k] + [LimitOrder(e.nextId, side, price, quantity, g.left, e.nextSequence)] + own[k..]
  {
    hide Live, Enter, Sweep, Executions, Issued, RecordAll, Queue, Insert, Inv, Fresh;
    var o := LimitOrder(e.nextId, side, price, quantity, quantity, e.nextSequence);
    CountersPositive(e);
    OpenedLive(e);
    EnterRefinesSweep(Opened(e), o);
    NewestSequence(e, side);
    var g := Sweep(Queue(e.orders, side.Opposite()), TakerOf(o), quantity);
    var k := NewestJoinsBack(side, Queue(e.orders, side), o.(remaining := g.left));
  }

  lemma NewestSequence(e: Engine, side: Side)
    requires Inv(e)
    ensures var q := Queue(e.orders, side);
            SortedQueue(side, q) && forall j :: 0 <= j < |q| ==> q[j].sequence < e.nextSequence
  {
    hide Agrees, Queue;
    if e.orders == [] {
      EmptyQueue(side);
    } else {
      var q := Queue(e.orders, side);
      QueueIsQueue(e.orders, side);
      forall j | 0 <= j < |q| ensures q[j].sequence < e.nextSequence {
        assert q[j] in e.orders;
      }
    }
  }

  lemma EmptyQueue(side: Side)
    ensures Queue([], side) == []
  {
  }

  /** Market orders refine the specification. */
  lemma MarketRefinesSweep(e: Engine, side: Side, quantity: Int64)
    requires Inv(e) && e.orders != [] && quantity > 0
    ensures var sold := Market(e, side, quantity); var taker := Taker(side, None, None);
            var g := Sweep(Queue(e.orders, side.Opposite()), taker, quantity);
            sold.result == Ok(ExecutionResult(side, quantity, quantity - g.left, g.left,
                                              AverageOf(sold.trades, quantity - g.left), sold.trades)) &&
            quantity - g.left == Min(quantity, Liquidity(taker, e.orders)) &&
            sold.trades == Issued(e.store, Executions(taker, g.taken)) &&
            Queue(sold.engine.orders, side.Opposite()) == g.rest &&
            Queue(sold.engine.orders, side) == Queue(e.orders, side)
  {
    hide Live, Match, Sweep, Executions, Issued, RecordAll, Queue;
    MatchIsSweep(e, Taker(side, None, None), quantity);
    MatchExecutesMinimum(e, Taker(side, None, None), quantity);
  }

  /** Where an active order stands in its queue. */
  lemma Rank(e: Engine, i: nat) returns (k: nat)
    requires Inv(e) && i < |e.orders|
    ensures k < |Queue(e.orders, e.orders[i].side)| && Queue(e.orders, e.orders[i].side)[k] == e.orders[i]
  {
    hide Agrees, Queue;
    QueueIsQueue(e.orders, e.orders[i].side);
    assert e.orders[i] in Queue(e.orders, e.orders[i].side);
    k :| 0 <= k < |Queue(e.orders, e.orders[i].side)| && Queue(e.orders, e.orders[i].side)[k] == e.orders[i];
  }

  /** Cancelling an order, in spite of the swap in the vector, leaves every other order's relative priority alone. */
  lemma CancelKeepsPriorities(e: Engine, i: nat, k: nat)
    requires Inv(e) && i < |e.orders|
    requires k < |Queue(e.orders, e.orders[i].side)| && Queue(e.orders, e.orders[i].side)[k] == e.orders[i]
    ensures var o := e.orders[i]; var q := Queue(e.orders, o.side); var after := Cancel(e, o.id).engine.orders;
            Queue(after, o.side) == q[..k] + q[k + 1..] &&
            Queue(after, o.side.Opposite()) == Queue(e.orders, o.side.Opposite())
  {
    hide Agrees, Queue;
    SlotUnique(e.orders, i);
    QueueRemove(e.orders, i, k);
  }

  /** A decrease at the same price keeps the order's place. */
  lemma DecreaseKeepsPlace(e: Engine, i: nat, k: nat, quantity: Int64)
    requires Inv(e) && i < |e.orders| && 0 < quantity <= e.orders[i].remaining
    requires k < |Queue(e.orders, e.orders[i].side)| && Queue(e.orders, e.orders[i].side)[k] == e.orders[i]
    ensures var o := e.orders[i]; var changed := Modify(e, o.id, o.price, quantity);
            changed.result == Ok(true) &&
            Queue(changed.engine.orders, o.side) ==
              Queue(e.orders, o.side)[k := o.(original := quantity, remaining := quantity)] &&
            Queue(changed.engine.orders, o.side.Opposite()) == Queue(e.orders, o.side.Opposite())
  {
    hide OrdersSound, Queue, Agrees;
    var o := e.orders[i];
    OpenOrder(e, i);
    SlotUnique(e.orders, i);
    DecreaseFits(e, i, quantity);
    QueueRewrite(e.orders, i, k, o.(original := quantity, remaining := quantity));
  }

  lemma DecreaseFits(e: Engine, i: nat, quantity: int)
    requires Inv(e) && i < |e.orders| && 0 < quantity <= e.orders[i].remaining
    ensures Levels.AdjustError(e.book.Ladder(e.orders[i].side), e.orders[i].price,
                               quantity - e.orders[i].remaining).None?
  {
    if quantity < e.orders[i].remaining {
      OpenQuantityFits(e, i, e.orders[i].remaining - quantity);
    }
  }

  /** An increase moves the order behind everyone at its price; the others keep their order. */
  lemma IncreaseGoesBehind(e: Engine, i: nat, k: nat, quantity: Int64)
    requires Inv(e) && i < |e.orders| && quantity > e.orders[i].remaining
    requires Modify(e, e.orders[i].id, e.orders[i].price, quantity).result.Ok?
    requires k < |Queue(e.orders, e.orders[i].side)| && Queue(e.orders, e.orders[i].side)[k] == e.orders[i]
    ensures var o := e.orders[i]; var changed := Modify(e, o.id, o.price, quantity);
            var q := Queue(e.orders, o.side); var others := q[..k] + q[k + 1..];
            Queue(changed.engine.orders, o.side.Opposite()) == Queue(e.orders, o.side.Opposite()) &&
            exists n: nat :: BackOfPrice(o.side, others, o.price, n) && Queue(changed.engine.orders, o.side) ==
              others[..n] + [o.(original := quantity, remaining := quantity, sequence := e.nextSequence)] + others[n..]
  {
    hide OrdersSound, Queue, Insert, Agrees, BackOfPrice, SortedQueue;
    var o := e.orders[i];
    var renewed := o.(original := quantity, remaining := quantity, sequence := e.nextSequence);
    OpenOrder(e, i);
    SlotUnique(e.orders, i);
    var q := Queue(e.orders, o.side);
    var others := q[..k] + q[k + 1..];
    Requeue(e.orders, i, k, renewed);
    OthersOlder(e, i, k);
    var n := NewestJoinsBack(o.side, others, renewed);
  }

  lemma OthersOlder(e: Engine, i: nat, k: nat)
    requires Inv(e) && i < |e.orders|
    requires k < |Queue(e.orders, e.orders[i].side)| && Queue(e.orders, e.orders[i].side)[k] == e.orders[i]
    ensures var side := e.orders[i].side; var q := Queue(e.orders, side); var others := q[..k] + q[k + 1..];
            SortedQueue(side, others) && forall j :: 0 <= j < |others| ==> others[j].sequence < e.nextSequence
  {
    hide Inv, Queue;
    NewestSequence(e, e.orders[i].side);
  }

  /** Giving an order a new key moves it in its queue and nowhere else. */
  lemma Requeue(orders: seq<LimitOrder>, i: nat, k: nat, o: LimitOrder)
    requires DistinctIds(orders) && i < |orders| && o.id == orders[i].id && o.side == orders[i].side
    requires k < |Queue(orders, o.side)| && Queue(orders, o.side)[k] == orders[i]
    ensures var q := Queue(orders, o.side);
            Queue(orders[i := o], o.side) == Insert(o.side, q[..k] + q[k + 1..], o)
    ensures Queue(orders[i := o], o.side.Opposite()) == Queue(orders, o.side.Opposite())
  {
    hide Queue, Insert;
    var side := o.side;
    var others := RemoveAt(orders, i);
    QueueRemove(orders, i, k);
    RemoveAtContents(orders, i);
    assert DistinctIds(orders[i := o]);
    forall x: LimitOrder ensures x in orders[i := o] <==> x == o || x in others {
      UpdateMembers(orders, i, o, x);
    }
    forall s: Side ensures IsQueue(Queue(others, s), others, s) {
      QueueIsQueue(others, s);
    }
    forall x | x in Queue(others, side) ensures x.id != o.id {
      assert x in others;
    }
    InsertSorted(side, Queue(others, side), o);
    forall x: LimitOrder ensures x in Insert(side, Queue(others, side), o) <==> x == o || x in Queue(others, side) {
      InsertMembers(side, Queue(others, side), o, x);
    }
    QueueUnique(Insert(side, Queue(others, side), o), orders[i := o], side);
    QueueUnique(Queue(others, side.Opposite()), orders[i := o], side.Opposite());
  }

  /** A price change trades what it can; the remainder joins the back of the new price, and the others keep their
      order. */
  lemma PriceChangeGoesBehind(e: Engine, i: nat, k: nat, price: Int64, quantity: Int64)
    requires Inv(e) && i < |e.orders| && price > 0 && quantity > 0 && price != e.orders[i].price
    requires Modify(e, e.orders[i].id, price, quantity).result.Ok?
    requires k < |Queue(e.orders, e.orders[i].side)| && Queue(e.orders, e.orders[i].side)[k] == e.orders[i]
    ensures var o := e.orders[i]; var changed := Modify(e, o.id, price, quantity);
            var q := Queue(e.orders, o.side); var others := q[..k] + q[k + 1..];
            var moved := o.(price := price, original := quantity, remaining := quantity, sequence := e.nextSequence);
            var g := Sweep(Queue(e.orders, o.side.Opposite()), TakerOf(moved), quantity);
            changed.trades == Issued(e.store, Executions(TakerOf(moved), g.taken)) &&
            Queue(changed.engine.orders, o.side.Opposite()) == g.rest &&
            if g.left == 0 then Queue(changed.engine.orders, o.side) == others
            else exists n: nat :: BackOfPrice(o.side, others, price, n) && Queue(changed.engine.orders, o.side) ==
                   others[..n] + [moved.(remaining := g.left)] + others[n..]
  {
    hide Live, Enter, Sweep, Executions, Issued, RecordAll, Queue, Insert, Fresh, Sound, BackOfPrice, SortedQueue;
    var o := e.orders[i];
    OpenOrder(e, i);
    SlotUnique(e.orders, i);
    var moved := Replacement(e, i, price, quantity);
    ReopenedLive(e, i, price, quantity);
    EnterRefinesSweep(Reopened(e, i), moved);
    QueueRemove(e.orders, i, k);
    OthersOlder(e, i, k);
    var q := Queue(e.orders, o.side);
    var g := Sweep(Queue(e.orders, o.side.Opposite()), TakerOf(moved), quantity);
    var n := NewestJoinsBack(o.side, q[..k] + q[k + 1..], moved.(remaining := g.left));
  }
}
