/** Facts about the fills of a market order that follow only from the order of the sweep, and the impact analysis
    that relies on them. */
module MarketImpact {
  import opened Types
  import opened Levels
  import opened Orders
  import opened OrderBooks
  import opened TradeStores
  import opened EngineModel
  import opened EngineInvariant
  import opened Sweeps
  import opened Ledgers

  /** Every fill is positive, and no fill is at a better price for the taker than the touch. */
  ghost predicate FairFills(trades: seq<Trade>, side: Side, touch: int) {
    forall k :: 0 <= k < |trades| ==>
      trades[k].aggressor == side && trades[k].price > 0 && trades[k].quantity > 0 &&
      !Better(side.Opposite(), trades[k].price, touch)
  }

  /** The taker meets only orders no better than `touch`. */
  ghost predicate NoneBetter(orders: seq<LimitOrder>, side: Side, touch: int) {
    forall i :: 0 <= i < |orders| && orders[i].side == side ==> !Better(side, orders[i].price, touch)
  }

  lemma {:induction false} MatchFairFills(e: Engine, taker: Taker, want: int, touch: int)
    requires Live(e) && NoneBetter(e.orders, taker.side.Opposite(), touch)
    ensures FairFills(Match(e, taker, want).trades, taker.side, touch)
    ensures NoneBetter(Match(e, taker, want).engine.orders, taker.side.Opposite(), touch)
    decreases |e.orders|
  {
    hide Live, BestMatch, NoneBetter, Fill;
    var b := BestMatch(e.orders, taker);
    if want > 0 && b.Some? {
      OpenOrder(e, b.value);
      var quantity := Min(want, e.orders[b.value].remaining);
      FillNoneBetter(e, taker, b.value, quantity, touch);
      FilledLeaves(e, taker, b.value);
      if quantity == e.orders[b.value].remaining {
        FillKeepsLive(e, taker, b.value, quantity);
        MatchFairFills(Fill(e, taker, b.value, quantity), taker, want - quantity, touch);
      }
    }
  }

  lemma FillNoneBetter(e: Engine, taker: Taker, b: nat, quantity: int, touch: int)
    requires b < |e.orders| && e.orders[b].side == taker.side.Opposite()
    requires NoneBetter(e.orders, taker.side.Opposite(), touch)
    ensures NoneBetter(Fill(e, taker, b, quantity).orders, taker.side.Opposite(), touch)
    ensures !Better(taker.side.Opposite(), e.orders[b].price, touch)
  {
  }

  lemma {:induction false} MatchBookFairFills(e: Engine, side: Side, want: int, touch: int)
    requires WellFormed(side.Opposite(), e.book.Ladder(side.Opposite())) && MatchBook(e, side, want).Some?
    requires e.book.Ladder(side.Opposite()) != [] ==>
             !Better(side.Opposite(), e.book.Ladder(side.Opposite())[0].price, touch)
    ensures FairFills(MatchBook(e, side, want).value.trades, side, touch)
    ensures var after := MatchBook(e, side, want).value.engine.book; var levels := after.Ladder(side.Opposite());
            after.Ladder(side) == e.book.Ladder(side) &&
            (levels != [] ==> e.book.Ladder(side.Opposite()) != [] && !Better(side.Opposite(), levels[0].price, touch))
    decreases |e.book.Ladder(side.Opposite())|
  {
    hide MatchBook, Consume;
    var levels := e.book.Ladder(side.Opposite());
    BookUnfolds(e, side, want);
    if want > 0 && levels != [] && levels[0].quantity <= want {
      assert |levels| > 1 ==> Better(side.Opposite(), levels[0].price, levels[1].price);
      MatchBookFairFills(Consume(e, side, levels[0].quantity), side, want - levels[0].quantity, touch);
    }
  }

  lemma {:induction false} MatchBookVolume(e: Engine, side: Side, want: int)
    requires Representable(e.book.Ladder(side.Opposite())) && MatchBook(e, side, want).Some? && want >= 0
    ensures Volume(MatchBook(e, side, want).value.trades) == want - MatchBook(e, side, want).value.left
    ensures want - MatchBook(e, side, want).value.left == Min(want, Total(e.book.Ladder(side.Opposite())))
    decreases |e.book.Ladder(side.Opposite())|
  {
    hide MatchBook, Consume;
    var levels := e.book.Ladder(side.Opposite());
    BookUnfolds(e, side, want);
    TotalPrefix(levels, 0);
    if want > 0 && levels != [] {
      TotalPrefix(levels[1..], 0);
      if levels[0].quantity <= want {
        var next := Consume(e, side, levels[0].quantity);
        MatchBookVolume(next, side, want - levels[0].quantity);
        var rest := MatchBook(next, side, want - levels[0].quantity).value.trades;
        assert MatchBook(e, side, want).value.trades[1..] == rest;
      }
    }
  }

  /** One level of an external sweep. */
  lemma BookUnfolds(e: Engine, side: Side, want: int)
    requires Representable(e.book.Ladder(side.Opposite())) && MatchBook(e, side, want).Some?
    ensures var levels := e.book.Ladder(side.Opposite()); var m := MatchBook(e, side, want).value;
            if want <= 0 || levels == [] then m == Swept(e, want, [])
            else
              var quantity := Min(want, levels[0].quantity);
              var next := Consume(e, side, quantity);
              var trade := Numbered(e.store, Execution(side, levels[0].price, quantity, None, None));
              levels[0].price > 0 && next.book.Ladder(side) == e.book.Ladder(side) &&
              if quantity < levels[0].quantity then
                m == Swept(next, 0, [trade]) && next.book.Ladder(side.Opposite()) ==
                [Level(levels[0].price, levels[0].quantity - quantity)] + levels[1..]
              else
                next.book.Ladder(side.Opposite()) == levels[1..] && MatchBook(next, side, want - quantity).Some? &&
                var rest := MatchBook(next, side, want - quantity).value;
                m.trades == [trade] + rest.trades && m.engine == rest.engine && m.left == rest.left
  {
    hide Record;
  }

  /** Closed form of an external sweep, trade by trade: the levels from the touch on, each for what the levels before it
      leave of the demand. */
  lemma {:induction false} MatchBookTakes(e: Engine, side: Side, want: int, k: nat)
    requires Representable(e.book.Ladder(side.Opposite())) && MatchBook(e, side, want).Some?
    requires k < |MatchBook(e, side, want).value.trades|
    ensures var levels := e.book.Ladder(side.Opposite()); var t := MatchBook(e, side, want).value.trades[k];
            k < |levels| && t.price == levels[k].price &&
            t.quantity == Min(levels[k].quantity, want - Total(levels[..k])) > 0
    decreases |e.book.Ladder(side.Opposite())|
  {
    hide MatchBook, Consume;
    var levels := e.book.Ladder(side.Opposite());
    BookUnfolds(e, side, want);
    if k == 0 {
      assert levels[..0] == [];
    } else {
      MatchBookTakes(Consume(e, side, levels[0].quantity), side, want - levels[0].quantity, k - 1);
      assert levels[..k][1..] == levels[1..][..k - 1];
    }
  }

  /** Closed form of what an external sweep leaves: the levels it emptied are gone, the last one may keep a rest. */
  lemma {:induction false} MatchBookLeaves(e: Engine, side: Side, want: int)
    requires Representable(e.book.Ladder(side.Opposite())) && MatchBook(e, side, want).Some? && want >= 0
    ensures var levels := e.book.Ladder(side.Opposite()); var m := MatchBook(e, side, want).value;
            var n := |m.trades|; var after := m.engine.book.Ladder(side.Opposite());
            n <= |levels| &&
            if Total(levels[..n]) <= want then after == levels[n..]
            else n > 0 && after == [Level(levels[n - 1].price, Total(levels[..n]) - want)] + levels[n..]
    decreases |e.book.Ladder(side.Opposite())|
  {
    hide MatchBook, Consume;
    var levels := e.book.Ladder(side.Opposite());
    BookUnfolds(e, side, want);
    if want > 0 && levels != [] {
      if levels[0].quantity <= want {
        MatchBookLeaves(Consume(e, side, levels[0].quantity), side, want - levels[0].quantity);
        var n := |MatchBook(e, side, want).value.trades|;
        assert levels[..n][1..] == levels[1..][..n - 1];
        assert levels[1..][n - 1..] == levels[n..];
      } else {
        assert levels[..1] == [levels[0]];
        assert Total([levels[0]]) == levels[0].quantity;
      }
    } else {
      assert levels[..0] == [] && levels[0..] == levels;
    }
  }

  lemma {:induction false} TotalAddAt(side: Side, levels: seq<Level>, price: int, delta: int)
    ensures Total(AddAt(side, levels, price, delta)) == Total(levels) + delta
  {
    var result := AddAt(side, levels, price, delta);
    if levels == [] || Better(side, price, levels[0].price) {
      if delta != 0 {
        assert result[1..] == levels;
      }
    } else if levels[0].price == price {
      if levels[0].quantity + delta != 0 {
        assert result[1..] == levels[1..];
      }
    } else {
      TotalAddAt(side, levels[1..], price, delta);
      assert result[1..] == AddAt(side, levels[1..], price, delta);
    }
  }

  /** Taking the last order out of a side's level. */
  lemma WithoutLast(levels: seq<Level>, orders: seq<LimitOrder>, side: Side)
    requires SideAgrees(levels, orders, side) && orders != []
    requires forall i :: 0 <= i < |orders| ==> orders[i].price >= 0 && orders[i].remaining > 0
    ensures var last := orders[|orders| - 1];
            SideAgrees(if last.side == side then AddAt(side, levels, last.price, -last.remaining) else levels,
                       orders[..|orders| - 1], side)
  {
    hide AddAt, Sorted, Representable;
    var init, last := orders[..|orders| - 1], orders[|orders| - 1];
    forall p ensures Quantity(levels, p) == SumAt(init, side, p) + Share(last, side, p) {
    }
    if last.side == side {
      SumAtNonNegative(init, side, last.price);
      BoundedQuantity(side, levels, last.price);
      AdjustRefinesMap(side, levels, last.price, -last.remaining);
    }
  }

  lemma NoOrdersNoLevels(levels: seq<Level>, side: Side)
    requires SideAgrees(levels, [], side)
    ensures levels == []
  {
    assert SideAgrees([], [], side);
    MapDeterminesLevels(side, levels, []);
  }

  /** The total of a side's levels is the open quantity of that side's orders. */
  lemma {:induction false} TotalIsOpenQuantity(levels: seq<Level>, orders: seq<LimitOrder>, side: Side)
    requires SideAgrees(levels, orders, side)
    requires forall i :: 0 <= i < |orders| ==> orders[i].price >= 0 && orders[i].remaining > 0
    ensures Total(levels) == Liquidity(Taker(side.Opposite(), None, None), orders)
    decreases |orders|
  {
    hide SideAgrees, AddAt, Quantity, SumAt;
    var taker := Taker(side.Opposite(), None, None);
    if orders == [] {
      NoOrdersNoLevels(levels, side);
    } else {
      var init, last := orders[..|orders| - 1], orders[|orders| - 1];
      var rest := if last.side == side then AddAt(side, levels, last.price, -last.remaining) else levels;
      WithoutLast(levels, orders, side);
      TotalIsOpenQuantity(rest, init, side);
      OpenQuantityStep(levels, init, last, side);
      assert orders == init + [last];
    }
  }

  lemma OpenQuantityStep(levels: seq<Level>, init: seq<LimitOrder>, last: LimitOrder, side: Side)
    ensures var taker := Taker(side.Opposite(), None, None);
            Liquidity(taker, init + [last]) - Liquidity(taker, init) ==
            Total(levels) - if last.side == side then Total(AddAt(side, levels, last.price, -last.remaining))
                            else Total(levels)
  {
    hide AddAt, Liquidity, Total;
    LiquidityAppend(Taker(side.Opposite(), None, None), init, last);
    TotalAddAt(side, levels, last.price, -last.remaining);
  }

  datatype Quote = Quote(bestBid: Option<int>, bestAsk: Option<int>, bidDepth: int, askDepth: int) {
    function Best(side: Side): Option<int> {
      if side.Buy? then bestBid else bestAsk
    }

    function Depth(side: Side): int {
      if side.Buy? then bidDepth else askDepth
    }

    function Mid(): Option<real> {
      if bestBid.None? || bestAsk.None? then None
      else Some((bestBid.value as real + bestAsk.value as real) / 2.0)
    }
  }

  function TouchPrice(levels: seq<Level>): Option<int> {
    if levels == [] then None else Some(levels[0].price)
  }

  function QuoteOf(book: Book): Quote {
    Quote(TouchPrice(book.bids), TouchPrice(book.asks), Min(Total(book.bids), INT64_MAX),
          Min(Total(book.asks), INT64_MAX))
  }

  method CaptureQuote(book: OrderBook) returns (q: Quote)
    requires book.Value().WellFormed()
    ensures q == QuoteOf(book.Value())
  {
    var bid, ask := book.Best(Buy), book.Best(Sell);
    var bidDepth := book.Depth(Buy);
    var askDepth := book.Depth(Sell);
    q := Quote(if bid.Some? then Some(bid.value.price) else None,
               if ask.Some? then Some(ask.value.price) else None, bidDepth, askDepth);
  }

  /** The quote of a side: its extreme price, and its total as far as 64 bits reach. */
  lemma QuoteIsTouch(book: Book)
    requires book.WellFormed()
    ensures var q := QuoteOf(book);
            (q.bestBid.Some? <==> book.bids != []) && (q.bestAsk.Some? <==> book.asks != []) &&
            (q.bestBid.Some? ==> (exists l :: l in book.bids && l.price == q.bestBid.value) &&
                                 forall l :: l in book.bids ==> l.price <= q.bestBid.value) &&
            (q.bestAsk.Some? ==> (exists l :: l in book.asks && l.price == q.bestAsk.value) &&
                                 forall l :: l in book.asks ==> l.price >= q.bestAsk.value) &&
            q.bidDepth == (if Total(book.bids) <= INT64_MAX then Total(book.bids) else INT64_MAX) &&
            q.askDepth == if Total(book.asks) <= INT64_MAX then Total(book.asks) else INT64_MAX
  {
    hide Total;
    assert book.bids != [] ==> book.bids[0] in book.bids;
    assert book.asks != [] ==> book.asks[0] in book.asks;
  }

  datatype Summary = Summary(
    side: Side, requested: int, executed: int, remaining: int, consumed: int, fills: nat,
    average: Option<real>, reference: Option<real>, slippage: Option<real>, effectiveSpread: Option<real>,
    preMid: Option<real>, postMid: Option<real>, midChange: Option<real>, signedImpact: Option<real>,
    consumedRatio: Option<real>)

  /** A figure times the direction of the trade. */
  function Signed(side: Side, figure: real): real {
    if side.Buy? then figure else -figure
  }

  /** The analysis over the reals; every figure that needs a fill or a quote side it does not have is missing. */
  function SummaryOf(x: ExecutionResult, before: Quote, after: Quote): Summary {
    var none := Summary(x.side, x.requested, x.executed, x.remaining, x.executed, |x.trades|, None, None, None, None,
                        before.Mid(), after.Mid(), None, None, None);
    if x.executed <= 0 then none
    else
      var average := Notional(x.trades) as real / x.executed as real;
      var touch := before.Best(x.side.Opposite());
      var reference := if touch.None? then None else Some(touch.value as real);
      var change := if before.Mid().None? || after.Mid().None? then None
                    else Some(after.Mid().value - before.Mid().value);
      var depth := before.Depth(x.side.Opposite());
      none.(average := Some(average), reference := reference,
            slippage := if reference.None? then None else Some(Signed(x.side, average - reference.value)),
            effectiveSpread := if before.Mid().None? then None
                               else Some(2.0 * Signed(x.side, average - before.Mid().value)),
            midChange := change,
            signedImpact := if change.None? then None else Some(Signed(x.side, change.value)),
            consumedRatio := if depth <= 0 then None else Some(x.executed as real / depth as real))
  }

  /** Half way between the two sides of a quote that has both. */
  ghost predicate IsMid(mid: Option<real>, q: Quote) {
    (mid.Some? <==> q.bestBid.Some? && q.bestAsk.Some?) &&
    (mid.Some? ==> mid.value - q.bestBid.value as real == q.bestAsk.value as real - mid.value)
  }

  /** What the figures mean, each tied to its inputs by an equation without division. */
  ghost predicate FiguresAddUp(s: Summary, x: ExecutionResult, before: Quote, after: Quote) {
    s.side == x.side && s.requested == x.requested && s.executed == x.executed && s.remaining == x.remaining &&
    s.consumed == x.executed && s.fills == |x.trades| && IsMid(s.preMid, before) && IsMid(s.postMid, after) &&
    if x.executed == 0 then
      s.average.None? && s.reference.None? && s.slippage.None? && s.effectiveSpread.None? && s.midChange.None? &&
      s.signedImpact.None? && s.consumedRatio.None?
    else
      var touch := if x.side.Buy? then before.bestAsk else before.bestBid;
      var depth := if x.side.Buy? then before.askDepth else before.bidDepth;
      s.average.Some? && s.average.value * x.executed as real == Notional(x.trades) as real &&
      (s.reference.Some? <==> touch.Some?) && (s.slippage.Some? <==> touch.Some?) &&
      (touch.Some? ==>
        s.reference.value == touch.value as real &&
        s.average.value == if x.side.Buy? then s.reference.value + s.slippage.value
                           else s.reference.value - s.slippage.value) &&
      (s.effectiveSpread.Some? <==> s.preMid.Some?) &&
      (s.preMid.Some? ==> 2.0 * s.average.value == if x.side.Buy? then 2.0 * s.preMid.value + s.effectiveSpread.value
                                                   else 2.0 * s.preMid.value - s.effectiveSpread.value) &&
      (s.midChange.Some? <==> s.preMid.Some? && s.postMid.Some?) && (s.signedImpact.Some? <==> s.midChange.Some?) &&
      (s.midChange.Some? ==>
        s.preMid.value + s.midChange.value == s.postMid.value &&
        s.signedImpact.value == if x.side.Buy? then s.midChange.value else -s.midChange.value) &&
      (s.consumedRatio.Some? <==> depth > 0) &&
      (depth > 0 ==> s.consumedRatio.value * depth as real == x.executed as real)
  }

  lemma MidIsMid(q: Quote)
    ensures IsMid(q.Mid(), q)
  {
  }

  lemma SummaryAddsUp(x: ExecutionResult, before: Quote, after: Quote)
    requires x.executed >= 0
    ensures FiguresAddUp(SummaryOf(x, before, after), x, before, after)
  {
    hide Notional, IsMid, Quote.Mid;
    MidIsMid(before);
    MidIsMid(after);
    if x.executed > 0 {
      var depth := before.Depth(x.side.Opposite());
      Undivided(Notional(x.trades) as real, x.executed as real);
      if depth > 0 {
        Undivided(x.executed as real, depth as real);
      }
    }
  }

  lemma Undivided(a: real, b: real)
    requires b > 0.0
    ensures a / b * b == a
  {
  }

  /** An execution report that adds up. */
  ghost predicate AddsUp(x: ExecutionResult) {
    0 <= x.executed <= x.requested && x.remaining == x.requested - x.executed &&
    (forall k :: 0 <= k < |x.trades| ==> x.trades[k].price > 0 && x.trades[k].quantity > 0) &&
    Volume(x.trades) == x.executed
  }

  lemma {:induction false} VolumePrefix(trades: seq<Trade>, n: nat)
    requires n <= |trades| && forall k :: 0 <= k < |trades| ==> trades[k].quantity > 0
    ensures 0 <= Volume(trades[..n]) <= Volume(trades)
  {
    if trades != [] {
      if n == 0 {
        VolumePrefix(trades[1..], 0);
      } else {
        VolumePrefix(trades[1..], n - 1);
        assert trades[..n][1..] == trades[1..][..n - 1];
      }
    }
  }

  /** The figures, once the fills have been added up. */
  method Summarize(x: ExecutionResult, before: Quote, after: Quote, filled: int, notional: int) returns (s: Summary)
    requires filled == x.executed >= 0 && notional == Notional(x.trades)
    ensures s == SummaryOf(x, before, after)
  {
    hide Notional;
    s := Summary(x.side, x.requested, x.executed, x.remaining, filled, |x.trades|, None, None, None, None,
                     before.Mid(), after.Mid(), None, None, None);
    if filled == 0 {
      return s;
    }
    var average := notional as real / filled as real;
    s := s.(average := Some(average));
    var touch := if x.side.Buy? then before.bestAsk else before.bestBid;
    if touch.Some? {
      s := s.(reference := Some(touch.value as real),
              slippage := Some(Signed(x.side, average - touch.value as real)));
    }
    if s.preMid.Some? {
      s := s.(effectiveSpread := Some(2.0 * Signed(x.side, average - s.preMid.value)));
    }
    if s.preMid.Some? && s.postMid.Some? {
      var change := s.postMid.value - s.preMid.value;
      s := s.(midChange := Some(change), signedImpact := Some(Signed(x.side, change)));
    }
    var available := if x.side.Buy? then before.askDepth else before.bidDepth;
    if available > 0 {
      s := s.(consumedRatio := Some(filled as real / available as real));
    }
    return s;
  }

  method Analyze(x: ExecutionResult, before: Quote, after: Quote) returns (r: Result<Summary>)
    ensures r == if AddsUp(x) then Ok(SummaryOf(x, before, after)) else Err(InvalidArgument)
    ensures r.Ok? ==> FiguresAddUp(r.value, x, before, after)
  {
    hide FiguresAddUp;
    if x.requested < 0 || x.executed < 0 || x.remaining < 0 || x.executed > x.requested ||
       x.remaining != x.requested - x.executed
    {
      return Err(InvalidArgument);
    }
    var notional, filled := 0, 0;
    for i := 0 to |x.trades|
      invariant forall k :: 0 <= k < i ==> x.trades[k].price > 0 && x.trades[k].quantity > 0
      invariant filled == Volume(x.trades[..i]) && notional == Notional(x.trades[..i])
      invariant 0 <= filled <= x.executed
    {
      var t := x.trades[i];
      FoldStep(x.trades, i);
      if t.price <= 0 || t.quantity <= 0 || t.quantity > x.executed - filled {
        if forall k :: 0 <= k < |x.trades| ==> x.trades[k].quantity > 0 {
          VolumePrefix(x.trades, i + 1);
        }
        return Err(InvalidArgument);
      }
      filled := filled + t.quantity;
      notional := notional + t.price * t.quantity;
    }
    assert x.trades[..|x.trades|] == x.trades;
    if filled != x.executed {
      return Err(InvalidArgument);
    }
    var s := Summarize(x, before, after, filled, notional);
    SummaryAddsUp(x, before, after);
    return Ok(s);
  }

  lemma {:induction false} NotionalBound(trades: seq<Trade>, side: Side, touch: int)
    requires FairFills(trades, side, touch)
    ensures if side.Buy? then Notional(trades) >= touch * Volume(trades) else Notional(trades) <= touch * Volume(trades)
  {
    if trades != [] {
      NotionalBound(trades[1..], side, touch);
      var t := trades[0];
      assert touch * (t.quantity + Volume(trades[1..])) == touch * t.quantity + touch * Volume(trades[1..]);
      if side.Buy? {
        assert (t.price - touch) * t.quantity >= 0;
      } else {
        assert (touch - t.price) * t.quantity >= 0;
      }
    }
  }

  /** The own side of the book does not move, and the other side's touch does not improve. */
  ghost predicate TouchRetreats(before: Book, after: Book, side: Side) {
    var was, now := before.Ladder(side.Opposite()), after.Ladder(side.Opposite());
    after.Ladder(side) == before.Ladder(side) &&
    (now != [] ==> was != [] && !Better(side.Opposite(), now[0].price, was[0].price))
  }

  lemma OwnSideStays(e: Engine, taker: Taker, want: int)
    requires Live(e) && want >= 0
    ensures Match(e, taker, want).engine.book.Ladder(taker.side) == e.book.Ladder(taker.side)
  {
    hide Match, SumAt, Quantity, Sorted, Representable;
    var after := Match(e, taker, want).engine;
    MatchKeepsLive(e, taker, want);
    forall p ensures Quantity(after.book.Ladder(taker.side), p) == Quantity(e.book.Ladder(taker.side), p) {
      MatchSparesOwnSide(e, taker, want, p);
    }
    MapDeterminesLevels(taker.side, after.book.Ladder(taker.side), e.book.Ladder(taker.side));
  }

  lemma ActiveFills(e: Engine, side: Side, quantity: Int64)
    requires Inv(e) && e.orders != [] && quantity > 0
    ensures var m := Match(e, Taker(side, None, None), quantity); var levels := e.book.Ladder(side.Opposite());
            Volume(m.trades) == quantity - m.left && 0 <= m.left <= quantity &&
            quantity - m.left <= Total(levels) &&
            (levels == [] ==> m.trades == []) &&
            (levels != [] ==> FairFills(m.trades, side, levels[0].price)) &&
            TouchRetreats(e.book, m.engine.book, side)
  {
    hide Live, Match, Liquidity, Total, NoneBetter;
    var taker := Taker(side, None, None);
    var opposite := side.Opposite();
    MatchVolume(e, taker, quantity);
    MatchKeepsLive(e, taker, quantity);
    MatchExecutesMinimum(e, taker, quantity);
    OwnSideStays(e, taker, quantity);
    OpenTotal(e, opposite);
    TouchIsBestOrder(e, opposite);
    if e.book.Ladder(opposite) == [] {
      MatchStops(e, taker, quantity);
    } else {
      BestIsTouch(e, opposite);
      MatchFairFills(e, taker, quantity, e.book.Ladder(opposite)[0].price);
      NoneBetterTouch(Match(e, taker, quantity).engine, opposite, e.book.Ladder(opposite)[0].price);
    }
  }

  lemma BestIsTouch(e: Engine, side: Side)
    requires Live(e) && e.book.Ladder(side) != []
    ensures NoneBetter(e.orders, side, e.book.Ladder(side)[0].price)
  {
    hide Agrees;
    TouchIsBestOrder(e, side);
    BestIsBest(e.orders, side);
  }

  lemma NoneBetterTouch(e: Engine, side: Side, touch: int)
    requires Live(e) && NoneBetter(e.orders, side, touch)
    ensures e.book.Ladder(side) != [] ==> !Better(side, e.book.Ladder(side)[0].price, touch)
  {
    hide Live;
    TouchIsBestOrder(e, side);
  }

  lemma OpenTotal(e: Engine, side: Side)
    requires Live(e)
    ensures Total(e.book.Ladder(side)) == Liquidity(Taker(side.Opposite(), None, None), e.orders)
  {
    TotalIsOpenQuantity(e.book.Ladder(side), e.orders, side);
  }

  /** For every market execution the engine returns: its report adds up, its fills are no better than the touch, it does
      not execute more than the reported, saturated, depth, and it only ever pushes the other side's touch away. */
  lemma MarketFills(e: Engine, side: Side, quantity: Int64)
    requires Inv(e) && Market(e, side, quantity).result.Ok?
    ensures var x := Market(e, side, quantity).result.value; var before := QuoteOf(e.book);
            AddsUp(x) && x.side == side && x.requested == quantity &&
            (x.executed > 0 ==>
              before.Best(side.Opposite()).Some? &&
              var touch := before.Best(side.Opposite()).value;
              if side.Buy? then Notional(x.trades) >= touch * x.executed
              else Notional(x.trades) <= touch * x.executed) &&
            x.executed <= before.Depth(side.Opposite())
    ensures TouchRetreats(e.book, Market(e, side, quantity).engine.book, side)
  {
    hide Live, Match, MatchBook, Total, Notional, WellFormed, Representable, FairFills, Inv;
    MarketOk(e, side, quantity);
    var levels := e.book.Ladder(side.Opposite());
    var x := Market(e, side, quantity).result.value;
    var touch := if levels == [] then 0 else levels[0].price;
    if e.orders == [] {
      MatchBookKeepsInv(e, side, quantity);
      ExternalSound(e, side);
      MatchBookFairFills(e, side, quantity, touch);
      MatchBookVolume(e, side, quantity);
      if levels == [] {
        MatchBookStops(e, side, quantity);
      }
    } else {
      ActiveFills(e, side, quantity);
      if levels == [] {
        NoFills(side, touch);
      }
    }
    NotionalBound(x.trades, side, touch);
    FillsPositive(x.trades, side, touch);
  }

  lemma NoFills(side: Side, touch: int)
    ensures FairFills([], side, touch)
  {
  }

  lemma FillsPositive(trades: seq<Trade>, side: Side, touch: int)
    requires FairFills(trades, side, touch)
    ensures forall k :: 0 <= k < |trades| ==> trades[k].price > 0 && trades[k].quantity > 0
  {
  }

  lemma MarketOk(e: Engine, side: Side, quantity: int)
    requires Market(e, side, quantity).result.Ok?
    ensures quantity > 0
  {
  }

  /** The truncated average against the touch. */
  lemma WholeAverage(notional: int, executed: int, touch: int)
    requires executed > 0
    ensures notional >= touch * executed ==> notional / executed >= touch
    ensures notional <= touch * executed ==> notional / executed <= touch
  {
    var whole := notional / executed;
    if notional >= touch * executed {
      assert (whole + 1 - touch) * executed == (whole * executed + executed) - touch * executed;
      PositiveFactor(whole + 1 - touch, executed);
    }
    if notional <= touch * executed {
      assert (touch + 1 - whole) * executed == touch * executed + executed - whole * executed;
      PositiveFactor(touch + 1 - whole, executed);
    }
  }

  /** The exact average against the touch. */
  lemma ExactAverage(notional: int, executed: int, touch: int)
    requires executed > 0
    ensures notional >= touch * executed ==> notional as real / executed as real >= touch as real
    ensures notional <= touch * executed ==> notional as real / executed as real <= touch as real
  {
    var average, n := notional as real / executed as real, executed as real;
    assert average * n == notional as real;
    assert (touch * executed) as real == touch as real * n;
    assert (average - touch as real) * n == notional as real - touch as real * n;
  }

  lemma PortionOfDepth(executed: int, depth: int)
    requires 0 < executed <= depth
    ensures 0.0 < executed as real / depth as real <= 1.0
  {
    var ratio, n := executed as real / depth as real, depth as real;
    assert ratio * n == executed as real;
    assert ratio > 1.0 ==> (ratio - 1.0) * n > 0.0;
    assert ratio <= 0.0 ==> -ratio * n >= 0.0;
  }

  /** A summary in which every figure points the way the trade pushed. */
  ghost predicate Sane(s: Summary, before: Quote) {
    s.average.Some? && s.reference.Some? && s.slippage.Some? && s.slippage.value >= 0.0 &&
    s.consumedRatio.Some? && 0.0 < s.consumedRatio.value <= 1.0 &&
    (s.signedImpact.Some? ==> s.signedImpact.value >= 0.0) &&
    (before.bestBid.Some? && before.bestAsk.Some? ==>
      s.effectiveSpread.Some? && s.effectiveSpread.value >= before.bestAsk.value as real - before.bestBid.value as real)
  }

  /** For every market execution that filled anything, with the quotes of the book just before and just after: the
      analysis accepts it, slippage and signed mid impact are not negative, the effective spread is at least the quoted
      one, at most the whole depth is consumed, and the engine's own average is no better than the touch. */
  lemma MarketImpactIsSane(e: Engine, side: Side, quantity: Int64)
    requires Inv(e) && Market(e, side, quantity).result.Ok? && Market(e, side, quantity).result.value.executed > 0
    ensures var x := Market(e, side, quantity).result.value;
            var before, after := QuoteOf(e.book), QuoteOf(Market(e, side, quantity).engine.book);
            AddsUp(x) && Sane(SummaryOf(x, before, after), before) &&
            x.average.Some? &&
            var touch := before.Best(side.Opposite()).value;
            if side.Buy? then x.average.value >= touch else x.average.value <= touch
  {
    hide Market, Inv, AddsUp, Notional, Total;
    MarketFills(e, side, quantity);
    AverageReported(e, side, quantity);
    var x := Market(e, side, quantity).result.value;
    var before := QuoteOf(e.book);
    ExactAverage(Notional(x.trades), x.executed, before.Best(side.Opposite()).value);
    WholeAverage(Notional(x.trades), x.executed, before.Best(side.Opposite()).value);
    PortionOfDepth(x.executed, before.Depth(side.Opposite()));
  }

  lemma AverageReported(e: Engine, side: Side, quantity: int)
    requires Market(e, side, quantity).result.Ok?
    ensures var x := Market(e, side, quantity).result.value; x.average == AverageOf(x.trades, x.executed)
  {
  }
}
