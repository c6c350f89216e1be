/** The specification of matching: a greedy sweep of the sorted opposite queue, and the proof that the engine's
    loop over the unsorted vector computes it. */
module Sweeps {
  import opened Types
  import opened Orders
  import opened Queues
  import opened TradeStores
  import opened EngineModel
  import opened EngineInvariant

  /** A quantity taken from a resting order, recorded as that order stood before the trade. */
  datatype Take = Take(maker: LimitOrder, quantity: int)

  /** What a sweep takes, what it leaves of the queue, and the part of the demand it could not meet. */
  datatype Greedy = Greedy(taken: seq<Take>, rest: seq<LimitOrder>, left: int)

  function Sweep(q: seq<LimitOrder>, taker: Taker, want: int): Greedy {
    if want <= 0 || q == [] || !taker.Accepts(q[0].price) then Greedy([], q, want)
    else
      var quantity := Min(want, q[0].remaining);
      if quantity == q[0].remaining then
        var g := Sweep(q[1..], taker, want - quantity);
        g.(taken := [Take(q[0], quantity)] + g.taken)
      else Greedy([Take(q[0], quantity)], q[0 := q[0].(remaining := q[0].remaining - quantity)], want - quantity)
  }

  function Executions(taker: Taker, taken: seq<Take>): seq<Execution> {
    if taken == [] then []
    else [ExecutionOf(taker, taken[0].maker, taken[0].quantity)] + Executions(taker, taken[1..])
  }

  /** The trades a store issues for a list of executions. */
  function Issued(s: Store, xs: seq<Execution>): seq<Trade>
    decreases |xs|
  {
    if xs == [] then [] else [Numbered(s, xs[0])] + Issued(Record(s, xs[0]), xs[1..])
  }

  /** One trade with the best order is one step of the sweep. */
  lemma FillMovesQueue(e: Engine, taker: Taker, b: nat, quantity: int)
    requires Live(e) && BestMatch(e.orders, taker) == Some(b) && 0 < quantity <= e.orders[b].remaining
    ensures var q := Queue(e.orders, taker.side.Opposite()); var maker := e.orders[b];
            q != [] && q[0] == maker &&
            Queue(Fill(e, taker, b, quantity).orders, taker.side.Opposite()) ==
            (if quantity == maker.remaining then q[1..] else q[0 := maker.(remaining := maker.remaining - quantity)])
    ensures Queue(Fill(e, taker, b, quantity).orders, taker.side) == Queue(e.orders, taker.side)
  {
    hide Agrees, Queue;
    var opposite := taker.side.Opposite();
    var q := Queue(e.orders, opposite);
    var maker := e.orders[b];
    QueueHead(e.orders, opposite);
    if quantity == maker.remaining {
      QueueRemove(e.orders, b, 0);
      assert q[..0] + q[1..] == q[1..];
    } else {
      QueueRewrite(e.orders, b, 0, maker.(remaining := maker.remaining - quantity));
    }
  }

  /** Refinement: the matching loop on any vector computes the greedy sweep of the sorted queue. */
  lemma {:induction false} MatchIsSweep(e: Engine, taker: Taker, want: int)
    requires Live(e) && want >= 0
    ensures var m := Match(e, taker, want); var g := Sweep(Queue(e.orders, taker.side.Opposite()), taker, want);
            Queue(m.engine.orders, taker.side.Opposite()) == g.rest &&
            Queue(m.engine.orders, taker.side) == Queue(e.orders, taker.side) &&
            m.left == g.left &&
            m.trades == Issued(e.store, Executions(taker, g.taken)) &&
            m.engine.store == RecordAll(e.store, Executions(taker, g.taken))
    decreases |e.orders|
  {
    hide Live, Queue, RecordAll, Issued, Best;
    var q := Queue(e.orders, taker.side.Opposite());
    NothingToMatch(e, taker);
    NoExecutions(e.store);
    var b := BestMatch(e.orders, taker);
    if want > 0 && b.Some? {
      OpenOrder(e, b.value);
      var maker := e.orders[b.value];
      var quantity := Min(want, maker.remaining);
      FillMovesQueue(e, taker, b.value, quantity);
      var next := Fill(e, taker, b.value, quantity);
      if quantity == maker.remaining {
        FillKeepsLive(e, taker, b.value, quantity);
        MatchIsSweep(next, taker, want - quantity);
        FirstExecution(e.store, ExecutionOf(taker, maker, quantity),
                       Executions(taker, Sweep(q[1..], taker, want - quantity).taken));
      } else {
        FirstExecution(e.store, ExecutionOf(taker, maker, quantity), []);
        NoExecutions(next.store);
      }
    }
  }

  /** The loop stops where the sweep stops. */
  lemma NothingToMatch(e: Engine, taker: Taker)
    requires Live(e)
    ensures var q := Queue(e.orders, taker.side.Opposite());
            BestMatch(e.orders, taker).None? <==> q == [] || !taker.Accepts(q[0].price)
  {
    hide Agrees, Queue;
    QueueHead(e.orders, taker.side.Opposite());
  }

  lemma NoExecutions(s: Store)
    ensures RecordAll(s, []) == s && Issued(s, []) == []
  {
  }

  lemma FirstExecution(s: Store, x: Execution, xs: seq<Execution>)
    ensures RecordAll(s, [x] + xs) == RecordAll(Record(s, x), xs)
    ensures Issued(s, [x] + xs) == [Numbered(s, x)] + Issued(Record(s, x), xs)
  {
    assert ([x] + xs)[1..] == xs;
  }

  /** What the taker could trade with this order. */
  function Offer(taker: Taker, o: LimitOrder): int {
    if o.side == taker.side.Opposite() && taker.Accepts(o.price) then o.remaining else 0
  }

  /** Acceptable liquidity, in any order. */
  function Liquidity(taker: Taker, orders: seq<LimitOrder>): int {
    if orders == [] then 0 else Offer(taker, orders[0]) + Liquidity(taker, orders[1..])
  }

  lemma {:induction false} LiquidityAppend(taker: Taker, orders: seq<LimitOrder>, o: LimitOrder)
    ensures Liquidity(taker, orders + [o]) == Liquidity(taker, orders) + Offer(taker, o)
  {
    if orders == [] {
      assert orders + [o] == [o];
    } else {
      LiquidityAppend(taker, orders[1..], o);
      assert (orders + [o])[1..] == orders[1..] + [o];
    }
  }

  lemma {:induction false} LiquidityInsert(taker: Taker, side: Side, q: seq<LimitOrder>, o: LimitOrder)
    ensures Liquidity(taker, Insert(side, q, o)) == Liquidity(taker, q) + Offer(taker, o)
  {
    if q == [] || Precedes(side, KeyOf(o), KeyOf(q[0])) {
      assert ([o] + q)[1..] == q;
    } else {
      LiquidityInsert(taker, side, q[1..], o);
      assert Insert(side, q, o)[1..] == Insert(side, q[1..], o);
    }
  }

  /** Sorting does not change the liquidity. */
  lemma {:induction false} LiquidityOfQueue(taker: Taker, orders: seq<LimitOrder>)
    ensures Liquidity(taker, Queue(orders, taker.side.Opposite())) == Liquidity(taker, orders)
  {
    if orders != [] {
      var last := |orders| - 1;
      LiquidityOfQueue(taker, orders[..last]);
      LiquidityAppend(taker, orders[..last], orders[last]);
      assert orders[..last] + [orders[last]] == orders;
      LiquidityInsert(taker, taker.side.Opposite(), Queue(orders[..last], taker.side.Opposite()), orders[last]);
    }
  }

  /** Open quantity ahead of position `i`. */
  function Ahead(q: seq<LimitOrder>, i: nat): int
    requires i <= |q|
  {
    if i == 0 then 0 else q[0].remaining + Ahead(q[1..], i - 1)
  }

  /** A queue one side of which may be swept: sorted, one-sided, with open quantities. */
  ghost predicate Sweepable(q: seq<LimitOrder>, side: Side) {
    SortedQueue(side, q) && forall i :: 0 <= i < |q| ==> q[i].side == side && q[i].remaining > 0
  }

  /** Past an unacceptable head nothing further back is acceptable. */
  lemma {:induction false} UnacceptableHead(q: seq<LimitOrder>, taker: Taker)
    requires Sweepable(q, taker.side.Opposite()) && (q != [] ==> !taker.Accepts(q[0].price))
    ensures Liquidity(taker, q) == 0
  {
    if q != [] {
      if |q| > 1 {
        assert Precedes(taker.side.Opposite(), KeyOf(q[0]), KeyOf(q[1]));
      }
      UnacceptableHead(q[1..], taker);
    }
  }

  lemma {:induction false} LiquidityNonNegative(taker: Taker, q: seq<LimitOrder>)
    requires forall i :: 0 <= i < |q| ==> q[i].remaining > 0
    ensures Liquidity(taker, q) >= 0
  {
    if q != [] {
      LiquidityNonNegative(taker, q[1..]);
    }
  }

  /** Closed form, amounts: the order in position `i` gives whatever demand the quantity ahead of it leaves, and
      everyone before the last maker is exhausted, so no order trades past one with priority over it. */
  lemma {:induction false} SweepTakes(q: seq<LimitOrder>, taker: Taker, want: int, i: nat)
    requires forall k :: 0 <= k < |q| ==> q[k].remaining > 0
    requires i < |Sweep(q, taker, want).taken|
    ensures i < |q| && taker.Accepts(q[i].price) && Ahead(q, i) < want
    ensures Sweep(q, taker, want).taken[i] == Take(q[i], Min(q[i].remaining, want - Ahead(q, i)))
    ensures i + 1 < |Sweep(q, taker, want).taken| ==> Sweep(q, taker, want).taken[i].quantity == q[i].remaining
  {
    if i > 0 {
      SweepTakes(q[1..], taker, want - q[0].remaining, i - 1);
    }
  }

  /** What is left of the last maker, if anything. */
  function Stub(q: seq<LimitOrder>, taken: seq<Take>): seq<LimitOrder>
    requires |taken| <= |q|
  {
    var n := |taken|;
    if n > 0 && taken[n - 1].quantity < q[n - 1].remaining
    then [q[n - 1].(remaining := q[n - 1].remaining - taken[n - 1].quantity)] else []
  }

  /** Closed form, remainder: at most the last maker survives reduced, and the rest of the queue is untouched. */
  lemma {:induction false} SweepLeaves(q: seq<LimitOrder>, taker: Taker, want: int)
    requires forall k :: 0 <= k < |q| ==> q[k].remaining > 0
    ensures var g := Sweep(q, taker, want);
            |g.taken| <= |q| && g.rest == Stub(q, g.taken) + q[|g.taken|..]
  {
    hide Stub, Taker.Accepts;
    var g := Sweep(q, taker, want);
    if g.taken == [] {
      StubNone(q);
    } else if q[0].remaining <= want {
      var h := Sweep(q[1..], taker, want - q[0].remaining);
      SweepLeaves(q[1..], taker, want - q[0].remaining);
      StubTail(q, h.taken);
    } else {
      StubOne(q, g.taken);
    }
  }

  lemma StubNone(q: seq<LimitOrder>)
    ensures Stub(q, []) + q[0..] == q
  {
  }

  lemma StubTail(q: seq<LimitOrder>, taken: seq<Take>)
    requires q != [] && |taken| < |q|
    ensures Stub(q, [Take(q[0], q[0].remaining)] + taken) == Stub(q[1..], taken)
    ensures q[1..][|taken|..] == q[|taken| + 1..]
  {
  }

  lemma StubOne(q: seq<LimitOrder>, taken: seq<Take>)
    requires q != [] && |taken| == 1 && taken[0].quantity < q[0].remaining
    ensures Stub(q, taken) + q[1..] == q[0 := q[0].(remaining := q[0].remaining - taken[0].quantity)]
  {
  }

  /** Closed form, demand: what is met is the smaller of demand and acceptable liquidity. */
  lemma {:induction false} SweepMeets(q: seq<LimitOrder>, taker: Taker, want: int)
    requires Sweepable(q, taker.side.Opposite()) && want >= 0
    ensures want - Sweep(q, taker, want).left == Min(want, Liquidity(taker, q))
  {
    LiquidityNonNegative(taker, q);
    if want > 0 && q != [] && taker.Accepts(q[0].price) {
      LiquidityNonNegative(taker, q[1..]);
      if q[0].remaining <= want {
        SweepMeets(q[1..], taker, want - q[0].remaining);
      }
    } else if want > 0 {
      UnacceptableHead(q, taker);
    }
  }

  /** A match executes exactly the smaller of the demand and the acceptable liquidity in the vector. */
  lemma MatchExecutesMinimum(e: Engine, taker: Taker, want: int)
    requires Live(e) && want >= 0
    ensures want - Match(e, taker, want).left == Min(want, Liquidity(taker, e.orders))
  {
    hide Match, Sweep, Queue, Liquidity, Agrees;
    var side := taker.side.Opposite();
    var q := Queue(e.orders, side);
    MatchIsSweep(e, taker, want);
    LiquidityOfQueue(taker, e.orders);
    LiveSweepable(e, side);
    SweepMeets(q, taker, want);
  }

  lemma LiveSweepable(e: Engine, side: Side)
    requires Live(e)
    ensures Sweepable(Queue(e.orders, side), side)
  {
    hide Agrees, Queue;
    QueueIsQueue(e.orders, side);
    var q := Queue(e.orders, side);
    forall i | 0 <= i < |q| ensures q[i].side == side && q[i].remaining > 0 {
      assert q[i] in e.orders;
    }
  }
}
