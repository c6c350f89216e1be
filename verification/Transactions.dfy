/** What the engine's transactions leave behind: sweeps in progress, unrecorded fills and the outcome of a rollback. */
module Transactions {
  import opened Types
  import opened Levels
  import opened Orders
  import opened OrderBooks
  import opened OrderManagers
  import opened TradeStores
  import opened EngineModel
  import opened EngineInvariant
  import opened Allocation
  import opened Journals

  /** A log that has only grown since it was checkpointed. */
  predicate Extends(now: Store, earlier: Store) {
    |earlier.trades| <= |now.trades| && now.trades[..|earlier.trades|] == earlier.trades
  }

  lemma ExtendsTransitive(a: Store, b: Store, c: Store)
    requires Extends(b, a) && Extends(c, b)
    ensures Extends(c, a)
  {
    assert c.trades[..|a.trades|] == c.trades[..|b.trades|][..|a.trades|];
  }

  /** A sweep that has already produced some trades. */
  function Resume(trades: seq<Trade>, s: Swept): Swept {
    s.(trades := trades + s.trades)
  }

  lemma MatchUnfolds(e: Engine, taker: Taker, want: int, done: seq<Trade>, b: nat)
    requires want > 0 && BestMatch(e.orders, taker) == Some(b)
    ensures var maker := e.orders[b];
            var quantity := Min(want, maker.remaining);
            var trade := Numbered(e.store, ExecutionOf(taker, maker, quantity));
            Resume(done, Match(e, taker, want)) ==
            Resume(done + [trade], Match(Fill(e, taker, b, quantity), taker, want - quantity))
  {
    hide BestMatch;
    var maker := e.orders[b];
    var quantity := Min(want, maker.remaining);
    var trade := Numbered(e.store, ExecutionOf(taker, maker, quantity));
    var rest := Match(Fill(e, taker, b, quantity), taker, want - quantity);
    assert done + ([trade] + rest.trades) == (done + [trade]) + rest.trades;
  }

  lemma PriceChangeSpec(e: Engine, i: nat, price: int, quantity: int)
    requires Live(e) && i < |e.orders| && price > 0 && quantity > 0 && price != e.orders[i].price
    ensures Modify(e, e.orders[i].id, price, quantity) ==
            match Enter(Reopened(e, i), Replacement(e, i, price, quantity))
            case None => Outcome(e, Err(Overflow), [])
            case Some(m) => Outcome(m.engine, Ok(true), m.trades)
    ensures quantity <= INT64_MAX ==>
            Match(Reopened(e, i), TakerOf(Replacement(e, i, price, quantity)), quantity).trades ==
            Modify(e, e.orders[i].id, price, quantity).trades
  {
    OpenOrder(e, i);
    SlotUnique(e.orders, i);
    if quantity <= INT64_MAX {
      ReopenedLive(e, i, price, quantity);
      EnterRejection(Reopened(e, i), Replacement(e, i, price, quantity));
    }
  }

  /** The withdrawal of an order, seen as a journal entry. */
  function WithdrawalOf(e: Engine, i: nat): Mutation
    requires i < |e.orders|
  {
    MutationOf(e.orders[i], e.orders[i].remaining).(removed := true, removal := RemovalOf(e.orders, i))
  }

  lemma WithdrawalReverts(e: Engine, i: nat)
    requires Live(e) && i < |e.orders|
    ensures Reverts(WithdrawalOf(e, i), RemoveAt(e.orders, i), e.orders, true) && Fits(e.orders)
    ensures Restorable(RemoveAt(e.orders, i), RemovalOf(e.orders, i)) &&
            Restored(RemoveAt(e.orders, i), RemovalOf(e.orders, i)) == e.orders
    ensures RemovalOf(e.orders, i).(order := e.orders[i]) == RemovalOf(e.orders, i)
  {
    hide Agrees, SumAt;
    LiveFits(e);
    RestoreUndoesRemoval(e.orders, i, e.orders[i].remaining);
    assert e.orders[i := e.orders[i]] == e.orders;
    RemoveShifts(e.orders, i);
  }

  /** Withdrawing an order leaves the other side's levels as they are. */
  lemma SameOppositeLevel(e: Engine, i: nat, price: int)
    requires i < |e.orders|
    ensures SumAt(RemoveAt(e.orders, i), e.orders[i].side.Opposite(), price) ==
            SumAt(e.orders, e.orders[i].side.Opposite(), price)
  {
    SumAtRemove(e.orders, i, e.orders[i].side.Opposite(), price);
  }

  lemma ResizeSpec(e: Engine, i: nat, quantity: int)
    requires DistinctIds(e.orders) && i < |e.orders| && e.orders[i].price > 0 && quantity > 0
    ensures var o := e.orders[i];
            Modify(e, o.id, o.price, quantity) ==
            match AdjustError(e.book.Ladder(o.side), o.price, quantity - o.remaining)
            case Some(x) => Outcome(e, Err(x), [])
            case None => Outcome(Resize(e, i, quantity), Ok(true), [])
    ensures forall orders: seq<LimitOrder> {:trigger Slot(orders, e.orders[i].id)} ::
              |orders| == |e.orders| && (forall k :: 0 <= k < |orders| ==> orders[k].id == e.orders[k].id) ==>
              Slot(orders, e.orders[i].id) == Some(i)
  {
    SlotUnique(e.orders, i);
    forall orders: seq<LimitOrder> |
      |orders| == |e.orders| && (forall k :: 0 <= k < |orders| ==> orders[k].id == e.orders[k].id)
      ensures Slot(orders, e.orders[i].id) == Some(i)
    {
      SlotUnique(orders, i);
    }
  }

  /** Leaving a quantity as it is leaves the book as it is. */
  lemma ZeroChange(e: Engine, i: nat)
    requires Live(e) && i < |e.orders|
    ensures AdjustError(e.book.Ladder(e.orders[i].side), e.orders[i].price, 0).None?
    ensures e.book.Adjusted(e.orders[i].side, e.orders[i].price, 0) == e.book
  {
    var side, price := e.orders[i].side, e.orders[i].price;
    LevelBounded(e, side, price);
    AdjustRefinesMap(side, e.book.Ladder(side), price, 0);
    MapDeterminesLevels(side, AddAt(side, e.book.Ladder(side), price, 0), e.book.Ladder(side));
  }

  lemma PlaceInvalid(e: Engine, side: Side, price: int, quantity: int)
    requires price <= 0 || quantity <= 0
    ensures Place(e, side, price, quantity).result == Err(InvalidArgument)
  {
  }

  lemma InvWellFormed(e: Engine)
    requires Inv(e)
    ensures e.book.WellFormed()
  {
  }

  lemma LiveWellFormed(e: Engine)
    requires Live(e)
    ensures e.book.WellFormed()
  {
  }

  /** A fresh order is not in the vector, and would be its last element. */
  lemma FreshSlot(orders: seq<LimitOrder>, o: LimitOrder)
    requires Fresh(orders, o)
    ensures Slot(orders, o.id).None?
    ensures Slot(orders + [o], o.id) == Some(|orders|)
  {
  }

  /** Adding a positive quantity at a valid price only ever overflows. */
  lemma OverflowOnly(levels: seq<Level>, price: int, delta: int)
    requires price >= 0 && delta >= 0
    ensures AdjustError(levels, price, delta).Some? ==> AdjustError(levels, price, delta).value == Overflow
  {
  }

  /** The number of a pass's first allocation request. A pass pushes a journal entry, records the trade and, for a
      market order, collects it into the report. */
  function PassStart(clock: nat, collect: bool, k: nat): nat {
    if collect then clock + 3 * k else clock + 2 * k
  }

  /** The first request to fail from `clock` on is the one that records fill `k`. */
  ghost predicate RecordFails(memory: Memory, clock: nat, collect: bool, k: nat) {
    memory.FirstFailure(clock, PassStart(clock, collect, k) + 1)
  }

  /** The first request to fail from `clock` on falls after the push of pass `k` and before its book reduction. */
  ghost predicate LosesFill(memory: Memory, clock: nat, collect: bool, k: nat) {
    RecordFails(memory, clock, collect, k) ||
    (collect && memory.FirstFailure(clock, PassStart(clock, collect, k) + 2))
  }

  /** No request failed before pass `n`. */
  ghost predicate Untroubled(memory: Memory, clock: nat, collect: bool, n: nat) {
    memory.Quiet(clock, PassStart(clock, collect, n))
  }

  lemma NothingLost(memory: Memory, clock: nat, collect: bool, n: nat)
    requires Untroubled(memory, clock, collect, n)
    ensures forall k: nat :: k < n ==> !LosesFill(memory, clock, collect, k)
  {
  }

  /** The push of pass `n` is the first request to fail: no fill is lost. */
  lemma PushFails(memory: Memory, clock: nat, collect: bool, n: nat, total: nat)
    requires n < total && Untroubled(memory, clock, collect, n) && memory.exhausted(PassStart(clock, collect, n))
    ensures forall k: nat :: !LosesFill(memory, clock, collect, k)
    ensures !Untroubled(memory, clock, collect, total)
  {
    assert memory.FirstFailure(clock, PassStart(clock, collect, n));
    forall k: nat ensures !LosesFill(memory, clock, collect, k) {
      assert PassStart(clock, collect, n) != PassStart(clock, collect, k) + 1;
      assert collect ==> PassStart(clock, collect, n) != PassStart(clock, collect, k) + 2;
    }
  }

  /** Pass `n` gets past its push and fails: it loses its fill, and no other pass does. */
  lemma PassFails(memory: Memory, clock: nat, collect: bool, n: nat, total: nat)
    requires n < total && Untroubled(memory, clock, collect, n)
    requires var start := PassStart(clock, collect, n);
             !memory.exhausted(start) && (memory.exhausted(start + 1) || (collect && memory.exhausted(start + 2)))
    ensures forall k: nat :: LosesFill(memory, clock, collect, k) <==> k == n
    ensures RecordFails(memory, clock, collect, n) <==> memory.exhausted(PassStart(clock, collect, n) + 1)
    ensures !Untroubled(memory, clock, collect, total)
  {
    var start := PassStart(clock, collect, n);
    assert memory.FirstFailure(clock, if memory.exhausted(start + 1) then start + 1 else start + 2);
    forall k: nat | LosesFill(memory, clock, collect, k) ensures k == n {
    }
  }

  /** A sweep under way: the state so far and the demand left. */
  datatype Progress = Progress(engine: Engine, left: int)

  function OneFill(p: Progress, taker: Taker): Progress {
    var b := BestMatch(p.engine.orders, taker);
    if p.left <= 0 || b.None? then p
    else
      var quantity := Min(p.left, p.engine.orders[b.value].remaining);
      Progress(Fill(p.engine, taker, b.value, quantity), p.left - quantity)
  }

  /** The sweep after its first `k` fills. */
  function After(e: Engine, taker: Taker, want: int, k: nat): Progress {
    if k == 0 then Progress(e, want) else OneFill(After(e, taker, want, k - 1), taker)
  }

  lemma {:induction false} AfterLive(e: Engine, taker: Taker, want: int, k: nat)
    requires Live(e)
    ensures Live(After(e, taker, want, k).engine)
  {
    hide Live, BestMatch, Fill;
    if k > 0 {
      AfterLive(e, taker, want, k - 1);
      var p := After(e, taker, want, k - 1);
      var b := BestMatch(p.engine.orders, taker);
      if p.left > 0 && b.Some? {
        OpenOrder(p.engine, b.value);
        FillKeepsLive(p.engine, taker, b.value, Min(p.left, p.engine.orders[b.value].remaining));
      }
    }
  }

  /** The trail of a journal holds the vectors the sweep passed through. */
  ghost predicate Follows(trail: seq<seq<LimitOrder>>, e: Engine, taker: Taker, want: int, n: nat) {
    n < |trail| && forall k: nat :: k <= n ==> trail[k] == After(e, taker, want, k).engine.orders
  }

  lemma FollowsOn(trail: seq<seq<LimitOrder>>, e: Engine, taker: Taker, want: int, n: nat, now: seq<LimitOrder>)
    requires Follows(trail, e, taker, want, n) && |trail| == n + 1
    requires now == After(e, taker, want, n + 1).engine.orders
    ensures Follows(trail + [now], e, taker, want, n + 1)
  {
    hide After;
  }

  lemma FollowsStill(trail: seq<seq<LimitOrder>>, e: Engine, taker: Taker, want: int, n: nat, now: seq<LimitOrder>)
    requires Follows(trail, e, taker, want, n)
    ensures Follows(trail + [now], e, taker, want, n)
  {
    hide After;
  }

  lemma AfterNext(e: Engine, taker: Taker, want: int, n: nat, b: nat)
    requires After(e, taker, want, n).left > 0
    requires BestMatch(After(e, taker, want, n).engine.orders, taker) == Some(b)
    ensures var p := After(e, taker, want, n);
            var quantity := Min(p.left, p.engine.orders[b].remaining);
            After(e, taker, want, n + 1) == Progress(Fill(p.engine, taker, b, quantity), p.left - quantity) &&
            After(e, taker, want, n + 1).engine.store ==
            Record(p.engine.store, ExecutionOf(taker, p.engine.orders[b], quantity))
  {
    hide BestMatch;
  }

  lemma StartsUntroubled(memory: Memory, clock: nat, collect: bool)
    ensures Untroubled(memory, clock, collect, 0) && PassStart(clock, collect, 0) == clock
  {
  }

  lemma UntroubledPass(memory: Memory, clock: nat, collect: bool, n: nat)
    requires Untroubled(memory, clock, collect, n)
    requires !memory.exhausted(PassStart(clock, collect, n)) && !memory.exhausted(PassStart(clock, collect, n) + 1)
    requires collect ==> !memory.exhausted(PassStart(clock, collect, n) + 2)
    ensures Untroubled(memory, clock, collect, n + 1)
    ensures PassStart(clock, collect, n + 1) == PassStart(clock, collect, n) + if collect then 3 else 2
  {
  }

  /** How many trades are in the log when fill `k` is lost: the recording failed, or only the collecting did. */
  ghost function Logged(memory: Memory, clock: nat, collect: bool, k: nat): nat {
    if RecordFails(memory, clock, collect, k) then k else k + 1
  }

  /** The loop invariant of a sweep: `now` and `left` are the state and the demand after `trades`, the journal
      leads back to the vector on entry and the trail holds the vectors passed through. */
  ghost predicate Sweeping(e: Engine, taker: Taker, want: int, now: Engine, left: int, trades: seq<Trade>,
                           journal: seq<Mutation>, trail: seq<seq<LimitOrder>>)
  {
    Live(now) && left >= 0 && now.nextId == e.nextId && now.nextSequence == e.nextSequence &&
    Match(e, taker, want) == Resume(trades, Match(now, taker, left)) &&
    Extends(now.store, e.store) && |now.store.trades| == |e.store.trades| + |trades| &&
    |journal| == |trades| && |trail| == |journal| + 1 && trail[0] == e.orders && trail[|journal|] == now.orders &&
    Chain(journal, trail, false) &&
    After(e, taker, want, |trades|) == Progress(now, left) && Follows(trail, e, taker, want, |trades|)
  }

  lemma SweepStarts(e: Engine, taker: Taker, want: int)
    requires Live(e) && want >= 0
    ensures Sweeping(e, taker, want, e, want, [], [], [e.orders])
  {
    hide Live, Match, Chain;
    StartChain(e);
    assert [] + Match(e, taker, want).trades == Match(e, taker, want).trades;
  }

  lemma SweepStep(e: Engine, taker: Taker, want: int, now: Engine, left: int, trades: seq<Trade>,
                  journal: seq<Mutation>, trail: seq<seq<LimitOrder>>, b: nat, m: Mutation)
    requires Sweeping(e, taker, want, now, left, trades, journal, trail)
    requires left > 0 && BestMatch(now.orders, taker) == Some(b)
    requires var quantity := Min(left, now.orders[b].remaining);
             Reverts(m, Fill(now, taker, b, quantity).orders, now.orders, true)
    ensures var quantity := Min(left, now.orders[b].remaining);
            var next := Fill(now, taker, b, quantity);
            Sweeping(e, taker, want, next, left - quantity,
                     trades + [Numbered(now.store, ExecutionOf(taker, now.orders[b], quantity))],
                     journal + [m], trail + [next.orders])
  {
    hide Live, BestMatch, Match, Chain, Reverts, After, Follows, Extends, Reduced;
    var quantity := Min(left, now.orders[b].remaining);
    var next := Fill(now, taker, b, quantity);
    OpenOrder(now, b);
    MatchUnfolds(now, taker, left, trades, b);
    AfterNext(e, taker, want, |trades|, b);
    FillKeepsLive(now, taker, b, quantity);
    LiveFits(next);
    RecordExtends(now.store, ExecutionOf(taker, now.orders[b], quantity));
    ExtendsTransitive(e.store, now.store, next.store);
    ChainExtends(journal, trail, m, next.orders, true);
    FollowsOn(trail, e, taker, want, |trades|, next.orders);
  }

  lemma SweepContinues(e: Engine, taker: Taker, want: int, now: Engine, left: int, trades: seq<Trade>,
                       journal: seq<Mutation>, trail: seq<seq<LimitOrder>>)
    requires Sweeping(e, taker, want, now, left, trades, journal, trail)
    requires left > 0 && BestMatch(now.orders, taker).Some?
    ensures |trades| < |Match(e, taker, want).trades|
  {
    hide Live, BestMatch, Chain, After, Follows;
  }

  lemma SweepingFacts(e: Engine, taker: Taker, want: int, now: Engine, left: int, trades: seq<Trade>,
                      journal: seq<Mutation>, trail: seq<seq<LimitOrder>>)
    requires Sweeping(e, taker, want, now, left, trades, journal, trail)
    ensures Live(now) && left >= 0 && Agrees(now.book, now.orders) && Extends(now.store, e.store)
    ensures |trail| == |journal| + 1 && trail[0] == e.orders && trail[|journal|] == now.orders
    ensures Chain(journal, trail, false)
  {
  }

  lemma SweepEnds(e: Engine, taker: Taker, want: int, now: Engine, left: int, trades: seq<Trade>,
                  journal: seq<Mutation>, trail: seq<seq<LimitOrder>>)
    requires Sweeping(e, taker, want, now, left, trades, journal, trail)
    requires left == 0 || BestMatch(now.orders, taker).None?
    ensures Match(e, taker, want) == Swept(now, left, trades)
  {
    hide Live, BestMatch, Match, Chain, After, Follows;
    MatchStops(now, taker, left);
    assert trades + [] == trades;
  }

  /** A sweep that lost its fill `n`: it made `n` fills and one more journal entry, which was not applied. */
  ghost predicate Lost(memory: Memory, clock: nat, collect: bool, e: Engine, taker: Taker, want: int, n: nat,
                       journal: seq<Mutation>, trail: seq<seq<LimitOrder>>, book: Book, store: Store)
  {
    var planned := Match(e, taker, want).trades;
    var logged := Logged(memory, clock, collect, n);
    n < |planned| && |journal| == n + 1 && journal[n].side == taker.side.Opposite() &&
    SiteOf(journal[n]) == SiteFor(planned[n]) &&
    Follows(trail, e, taker, want, n) && book == After(e, taker, want, n).engine.book &&
    store == After(e, taker, want, logged).engine.store && |store.trades| == |e.store.trades| + logged
  }

  lemma SweepLoses(memory: Memory, clock: nat, collect: bool, e: Engine, taker: Taker, want: int, now: Engine,
                   left: int, trades: seq<Trade>, journal: seq<Mutation>, trail: seq<seq<LimitOrder>>, b: nat,
                   store: Store)
    requires Sweeping(e, taker, want, now, left, trades, journal, trail)
    requires left > 0 && BestMatch(now.orders, taker) == Some(b)
    requires var x := ExecutionOf(taker, now.orders[b], Min(left, now.orders[b].remaining));
             store == if RecordFails(memory, clock, collect, |trades|) then now.store else Record(now.store, x)
    ensures var m := MutationOf(now.orders[b], Min(left, now.orders[b].remaining));
            Chain(journal + [m], trail + [now.orders], true) && Extends(store, e.store) &&
            Lost(memory, clock, collect, e, taker, want, |trades|, journal + [m], trail + [now.orders], now.book, store)
  {
    hide Live, BestMatch, Match, Chain, Reverts, After, Follows, Extends, RecordFails, Fill;
    var quantity := Min(left, now.orders[b].remaining);
    var m := MutationOf(now.orders[b], quantity);
    OpenOrder(now, b);
    GapReverts(now, b, quantity);
    LiveFits(now);
    ChainExtends(journal, trail, m, now.orders, false);
    MatchUnfolds(now, taker, left, trades, b);
    AfterNext(e, taker, want, |trades|, b);
    FollowsStill(trail, e, taker, want, |trades|, now.orders);
    RecordExtends(now.store, ExecutionOf(taker, now.orders[b], quantity));
    ExtendsTransitive(e.store, now.store, store);
  }

  /** Where a rollback that throws stops: at the newest entry whose restored level cannot hold the excess. The vector is
      already reverted to before that entry, the book is not. */
  ghost predicate Stuck(journal: seq<Mutation>, trail: seq<seq<LimitOrder>>, j: nat,
                        orders: seq<LimitOrder>, book: Book, entryBook: Book)
  {
    |trail| == |journal| + 1 && j < |journal| && orders == trail[j] &&
    var m := journal[|journal| - 1];
    SumAt(trail[j], m.side, m.price) + m.executed > INT64_MAX &&
    if j == |journal| - 1 then book == entryBook
    else SumAt(trail[j + 1], m.side, m.price) + m.executed <= INT64_MAX &&
         Padded(book, trail[j + 1], m.side, m.price, m.executed)
  }

  /** The same, said of the sweep: `lost` is the fill that was lost, `logged` the number of trades left in the log. The
      state is a mixture: orders from before fill `j`, the book from after it with the excess, and a log that was not
      rolled back. */
  ghost predicate Stranded(start: Engine, taker: Taker, want: int, lost: nat, logged: nat, site: Site, j: nat,
                           end: Engine)
  {
    var side := taker.side.Opposite();
    site.TradeRecord? && j <= lost &&
    end.orders == After(start, taker, want, j).engine.orders &&
    end.store == After(start, taker, want, logged).engine.store &&
    end.nextId == start.nextId && end.nextSequence == start.nextSequence &&
    Unrepresentable(After(start, taker, want, j).engine, side, site) &&
    if j == lost then end.book == After(start, taker, want, lost).engine.book
    else !Unrepresentable(After(start, taker, want, j + 1).engine, side, site) &&
         end.book == After(start, taker, want, j + 1).engine.book.Adjusted(side, site.price, site.quantity)
  }

  lemma StuckIsStranded(start: Engine, taker: Taker, want: int, lost: nat, logged: nat, j: nat,
                        journal: seq<Mutation>, trail: seq<seq<LimitOrder>>, end: Engine)
    requires Live(start) && |journal| == lost + 1 && Follows(trail, start, taker, want, lost)
    requires Chain(journal, trail, true) && journal[lost].side == taker.side.Opposite()
    requires Stuck(journal, trail, j, end.orders, end.book, After(start, taker, want, lost).engine.book)
    requires end.store == After(start, taker, want, logged).engine.store
    requires end.nextId == start.nextId && end.nextSequence == start.nextSequence
    ensures Stranded(start, taker, want, lost, logged, SiteOf(journal[lost]), j, end)
  {
    hide Live, After, Agrees, Padded, Chain, SumAt;
    var side, m := taker.side.Opposite(), journal[lost];
    ChainGap(journal, trail, true);
    AfterLive(start, taker, want, j);
    LiveAgrees(After(start, taker, want, j).engine);
    AgreedLevel(After(start, taker, want, j).engine.book, trail[j], side, m.price);
    if j < lost {
      var next := After(start, taker, want, j + 1).engine;
      AfterLive(start, taker, want, j + 1);
      LiveAgrees(next);
      AgreedLevel(next.book, trail[j + 1], side, m.price);
      PaddedBook(next.book, end.book, trail[j + 1], side, m.price, m.executed);
    }
  }

  /** What losing fill `lost` does: the rollback completes with the excess in the book, or throws and strands the
      state. */
  ghost predicate Damaged(before: Engine, start: Engine, taker: Taker, want: int, lost: nat, logged: nat, site: Site,
                          end: Engine)
  {
    if Unrepresentable(before, taker.side.Opposite(), site)
    then exists j: nat :: Stranded(start, taker, want, lost, logged, site, j, end)
    else Overfed(before, end, taker.side.Opposite(), site)
  }

  lemma StrandedNowhere(start: Engine, taker: Taker, want: int, site: Site, j: nat, end: Engine)
    requires Stranded(start, taker, want, 0, 0, site, j, end)
    ensures end == start
  {
  }

  /** The fills of a market order that a failure can lose: those against active orders. */
  function AtRisk(e: Engine, side: Side, quantity: int): seq<Trade> {
    if e.orders == [] then [] else Market(e, side, quantity).trades
  }

  /** Said before the call: a failing market order will leave the state as it was. Either the first failing request
      loses no fill, or it is the very first recording and its level on entry has no room for the excess, so that
      the rollback throws before it has changed anything. */
  ghost predicate MarketRestores(memory: Memory, clock: nat, e: Engine, side: Side, quantity: int) {
    forall k: nat :: k < |AtRisk(e, side, quantity)| && LosesFill(memory, clock, true, k) ==>
      k == 0 && RecordFails(memory, clock, true, 0) &&
      Unrepresentable(e, side.Opposite(), SiteFor(AtRisk(e, side, quantity)[0]))
  }

  /** Said before the call: the first failing request, if any, loses none of the fills of a modification. */
  ghost predicate ModifyRestores(memory: Memory, clock: nat, e: Engine, id: nat, price: int, quantity: int) {
    forall k: nat :: k < |Modify(e, id, price, quantity).trades| ==> !LosesFill(memory, clock, false, k)
  }

  /** What a price change that loses fill `k` raises and leaves behind. */
  ghost predicate PriceChangeLoss<T>(before: Engine, i: nat, price: int, quantity: int, k: nat, logged: nat,
                                     r: Result<T>, end: Engine)
  {
    i < |before.orders| &&
    var taker := TakerOf(Replacement(before, i, price, quantity));
    var planned := Match(Reopened(before, i), taker, quantity).trades;
    k < |planned| &&
    r == Err(LossError(before, taker.side.Opposite(), SiteFor(planned[k]))) &&
    Damaged(before, Reopened(before, i), taker, quantity, k, logged, SiteFor(planned[k]), end)
  }

  /** A throwing rollback of a market order strands the state; only losing the first recording leaves it as it was. */
  lemma MarketStranded(entry: Engine, end: Engine, taker: Taker, want: int, n: nat, memory: Memory, clock: nat,
                       journal: seq<Mutation>, trail: seq<seq<LimitOrder>>)
    requires Live(entry) && |journal| == n + 1 && Follows(trail, entry, taker, want, n) && Chain(journal, trail, true)
    requires journal[n].side == taker.side.Opposite()
    requires exists j: nat ::
               Stuck(journal, trail, j, end.orders, end.book, After(entry, taker, want, n).engine.book)
    requires end.store == After(entry, taker, want, Logged(memory, clock, true, n)).engine.store
    requires |end.store.trades| == |entry.store.trades| + Logged(memory, clock, true, n)
    requires end.nextId == entry.nextId && end.nextSequence == entry.nextSequence
    ensures exists j: nat ::
              Stranded(entry, taker, want, n, Logged(memory, clock, true, n), SiteOf(journal[n]), j, end)
    ensures end == entry <==> n == 0 && RecordFails(memory, clock, true, 0)
  {
    hide Live, After, Follows, Chain, RecordFails, Stuck, Stranded;
    var logged := Logged(memory, clock, true, n);
    var j: nat :| Stuck(journal, trail, j, end.orders, end.book, After(entry, taker, want, n).engine.book);
    StuckIsStranded(entry, taker, want, n, logged, j, journal, trail, end);
    if logged == 0 {
      StrandedNowhere(entry, taker, want, SiteOf(journal[n]), j, end);
    }
  }

  function SiteFor(t: Trade): Site {
    TradeRecord(t.price, t.quantity)
  }

  /** The exception that leaves a command which lost a fill. */
  ghost function LossError(before: Engine, side: Side, site: Site): Error {
    if Unrepresentable(before, side, site) then RollbackAborted(site) else OutOfMemory(site)
  }

  /** The state with a fill's quantity in the book that no order stands for. */
  ghost predicate Overfed(before: Engine, after: Engine, side: Side, site: Site) {
    site.TradeRecord? && after == before.(book := before.book.Adjusted(side, site.price, site.quantity)) &&
    after != before
  }

  /** Adding the fill's quantity to its level on entry would overflow. */
  ghost predicate Unrepresentable(before: Engine, side: Side, site: Site) {
    site.TradeRecord? && Quantity(before.book.Ladder(side), site.price) + site.quantity > INT64_MAX
  }

  /** The excess is not harmless: the book no longer shows the active orders, so the engine invariant is broken. */
  lemma OverfedBreaksInvariant(before: Engine, after: Engine, side: Side, site: Site)
    requires Live(before) && before.orders != [] && Overfed(before, after, side, site)
    requires site.quantity > 0
    ensures Quantity(after.book.Ladder(side), site.price) == SumAt(after.orders, side, site.price) + site.quantity
    ensures !Inv(after)
  {
    AddAtQuantity(side, before.book.Ladder(side), site.price, site.quantity, site.price);
    AgreedLevel(before.book, before.orders, side, site.price);
    if Inv(after) {
      AgreedLevel(after.book, after.orders, side, site.price);
    }
  }

  /** The first order of a new engine. */
  lemma FirstPlacement(side: Side, price: Int64, quantity: Int64)
    requires price > 0 && quantity > 0
    ensures Place(Initial(EMPTY), side, price, quantity).engine ==
            Engine(EMPTY.With(side, [Level(price, quantity)]), [LimitOrder(1, side, price, quantity, quantity, 1)],
                   Store([], 1, 1), 2, 2)
  {
    hide Match, AddAt;
    var o := LimitOrder(1, side, price, quantity, quantity, 1);
    MatchStops(Opened(Initial(EMPTY)), TakerOf(o), quantity);
    SoleLevel(side, price, quantity);
    assert [] + [o] == [o];
  }

  lemma SoleLevel(side: Side, price: int, quantity: int)
    requires quantity != 0
    ensures AddAt(side, [], price, quantity) == [Level(price, quantity)]
  {
  }

  /** What the re-adding rollback of a failed sweep leaves behind. */
  lemma RollbackOutcome<T>(before: Engine, after: Book, side: Side, failed: Result<T>, undone: Result<()>,
                           journal: seq<Mutation>)
    requires Agrees(before.book, before.orders)
    requires failed.Err? && (Unrecorded(failed).None? ==> undone.Ok? && Agrees(after, before.orders))
    requires Unrecorded(failed).Some? ==>
             journal != [] && var m := journal[|journal| - 1];
             Unrecorded(failed) == Some(SiteOf(m)) && m.side == side && m.price >= 0 && 0 < m.executed &&
             (undone.Ok? <==> SumAt(before.orders, m.side, m.price) + m.executed <= INT64_MAX) &&
             (undone.Ok? ==> Padded(after, before.orders, m.side, m.price, m.executed))
    ensures Unrecorded(failed).None? ==> after == before.book
    ensures Unrecorded(failed).Some? ==> (undone.Err? <==> Unrepresentable(before, side, failed.error.site))
    ensures Unrecorded(failed).Some? && undone.Ok? ==> Overfed(before, before.(book := after), side, failed.error.site)
  {
    hide Padded, Agrees;
    if Unrecorded(failed).None? {
      OrdersDetermineBook(after, before.book, before.orders);
    } else {
      var m := journal[|journal| - 1];
      AgreedLevel(before.book, before.orders, side, m.price);
      if undone.Ok? {
        PaddedBook(before.book, after, before.orders, side, m.price, m.executed);
      }
    }
  }

  lemma ChainGap(journal: seq<Mutation>, trail: seq<seq<LimitOrder>>, gap: bool)
    requires Chain(journal, trail, gap)
    ensures gap ==> journal != [] && journal[|journal| - 1].price >= 0 && journal[|journal| - 1].executed > 0
  {
    if gap {
      var k := |journal| - 1;
      assert Reverts(journal[k], trail[k + 1], trail[k], false);
    }
  }

  lemma AgreedLevel(book: Book, orders: seq<LimitOrder>, side: Side, price: int)
    requires Agrees(book, orders)
    ensures Quantity(book.Ladder(side), price) == SumAt(orders, side, price)
  {
  }

  lemma RollbackExact(now: Store, earlier: Store)
    requires Extends(now, earlier)
    ensures CheckpointOf(earlier).count <= |now.trades|
    ensures RolledBack(now, CheckpointOf(earlier)) == earlier
  {
  }

  lemma RecordExtends(s: Store, x: Execution)
    ensures Extends(Record(s, x), s)
  {
  }

  /** A sweep of an external book that has already produced some trades. */
  function ResumeIf(trades: seq<Trade>, s: Option<Swept>): Option<Swept> {
    if s.None? then None else Some(Resume(trades, s.value))
  }

  lemma ResumeNothing(s: Option<Swept>)
    ensures ResumeIf([], s) == s
  {
    if s.Some? {
      assert [] + s.value.trades == s.value.trades;
    }
  }

  /** The requests of a completed sweep of external levels: a copy, a record and a collection for every trade, and
      a last copy that finds no level. */
  function ExternalRequests(s: Swept): nat {
    3 * |s.trades| + if s.left > 0 then 1 else 0
  }

  /** The requests of a market order that succeeds. */
  function MarketRequests(e: Engine, side: Side, quantity: int): nat {
    var m := if e.orders == [] then MatchBook(e, side, quantity) else Some(Match(e, Taker(side, None, None), quantity));
    if quantity <= 0 || m.None? then 0
    else if e.orders == [] then 1 + ExternalRequests(m.value)
    else PassStart(0, true, |m.value.trades|)
  }

  /** The loop invariant of a sweep of external levels. */
  ghost predicate SweepingBook(e: Engine, side: Side, want: int, now: Engine, left: int, trades: seq<Trade>) {
    Inv(now) && now.orders == [] && left >= 0 && Extends(now.store, e.store) &&
    MatchBook(e, side, want) == ResumeIf(trades, MatchBook(now, side, left))
  }

  lemma BookSweepStarts(e: Engine, side: Side, want: int)
    requires Inv(e) && e.orders == [] && want >= 0
    ensures SweepingBook(e, side, want, e, want, [])
  {
    hide Inv, MatchBook;
    ResumeNothing(MatchBook(e, side, want));
  }

  lemma BookSweepStep(e: Engine, side: Side, want: int, now: Engine, left: int, trades: seq<Trade>)
    requires SweepingBook(e, side, want, now, left, trades) && left > 0
    requires now.book.Ladder(side.Opposite()) != [] && now.book.Ladder(side.Opposite())[0].price > 0
    ensures var touch := now.book.Ladder(side.Opposite())[0];
            var quantity := Min(left, touch.quantity);
            0 < quantity &&
            SweepingBook(e, side, want, Consume(now, side, quantity), left - quantity,
                         trades + [Numbered(now.store, Execution(side, touch.price, quantity, None, None))])
  {
    hide Inv, MatchBook, Extends, Sorted, Representable;
    ExternalSound(now, side);
    var touch := now.book.Ladder(side.Opposite())[0];
    var quantity := Min(left, touch.quantity);
    MatchBookUnfolds(now, side, left, trades);
    ConsumeKeepsInv(now, side, quantity);
    RecordExtends(now.store, Execution(side, touch.price, quantity, None, None));
    ExtendsTransitive(e.store, now.store, Consume(now, side, quantity).store);
  }

  /** There is more to do: another trade, a refusal, or the copy that finds no level. */
  lemma BookSweepContinues(e: Engine, side: Side, want: int, now: Engine, left: int, trades: seq<Trade>)
    requires SweepingBook(e, side, want, now, left, trades) && left > 0
    ensures var levels := now.book.Ladder(side.Opposite());
            if levels == [] then MatchBook(e, side, want) == Some(Swept(now, left, trades))
            else if levels[0].price <= 0 then MatchBook(e, side, want).None?
            else MatchBook(e, side, want).Some? ==> |trades| < |MatchBook(e, side, want).value.trades|
  {
    hide Inv;
    ExternalSound(now, side);
    assert trades + [] == trades;
  }

  lemma BookSweepEnds(e: Engine, side: Side, want: int, now: Engine, trades: seq<Trade>)
    requires SweepingBook(e, side, want, now, 0, trades)
    ensures MatchBook(e, side, want) == Some(Swept(now, 0, trades))
  {
    assert trades + [] == trades;
  }

  lemma BookSweepFacts(e: Engine, side: Side, want: int, now: Engine, left: int, trades: seq<Trade>)
    requires SweepingBook(e, side, want, now, left, trades)
    ensures Inv(now) && left >= 0 && Extends(now.store, e.store)
  {
  }

  lemma MatchBookUnfolds(e: Engine, side: Side, want: int, done: seq<Trade>)
    requires want > 0 && WellFormed(side.Opposite(), e.book.Ladder(side.Opposite()))
    ensures var levels := e.book.Ladder(side.Opposite());
            levels != [] ==>
              var quantity := Min(want, levels[0].quantity);
              var trade := Numbered(e.store, Execution(side, levels[0].price, quantity, None, None));
              (levels[0].price <= 0 ==> MatchBook(e, side, want).None?) &&
              (levels[0].price > 0 ==>
                ResumeIf(done, MatchBook(e, side, want)) ==
                ResumeIf(done + [trade], MatchBook(Consume(e, side, quantity), side, want - quantity)))
  {
    hide Record, Numbered, Consume;
    var levels := e.book.Ladder(side.Opposite());
    if levels != [] && levels[0].price > 0 {
      var quantity := Min(want, levels[0].quantity);
      var trade := Numbered(e.store, Execution(side, levels[0].price, quantity, None, None));
      var rest := MatchBook(Consume(e, side, quantity), side, want - quantity);
      if quantity < levels[0].quantity {
        MatchBookStops(Consume(e, side, quantity), side, 0);
        assert done + [trade] == (done + [trade]) + [];
      } else if rest.Some? {
        assert done + ([trade] + rest.value.trades) == (done + [trade]) + rest.value.trades;
      }
    }
  }

  /** Overwriting the touch with what is left of it consumes it. */
  lemma UpdateConsumes(e: Engine, side: Side, quantity: int)
    requires WellFormed(side.Opposite(), e.book.Ladder(side.Opposite())) && e.book.Ladder(side.Opposite()) != []
    requires 0 < quantity <= e.book.Ladder(side.Opposite())[0].quantity
    ensures var levels := e.book.Ladder(side.Opposite()); var touch := levels[0];
            Consume(e, side, quantity) ==
            e.(book := e.book.Adjusted(side.Opposite(), touch.price,
                                       touch.quantity - quantity - Quantity(levels, touch.price)),
               store := Record(e.store, Execution(side, touch.price, quantity, None, None)))
  {
    QuantityAtIndex(side.Opposite(), e.book.Ladder(side.Opposite()), 0);
  }

  lemma PaddedWellFormed(book: Book, orders: seq<LimitOrder>, side: Side, price: int, extra: int)
    requires Padded(book, orders, side, price, extra)
    ensures book.WellFormed()
  {
  }

  lemma LevelGrowth(now: seq<LimitOrder>, earlier: seq<LimitOrder>, side: Side, price: int)
    requires NoMore(now, earlier)
    ensures SumAt(now, side, price) <= SumAt(earlier, side, price)
  {
  }

  /** The fill whose recording failed, if that is how a sweep ended. */
  function Unrecorded<T>(r: Result<T>): Option<Site> {
    if r.Err? && r.error.OutOfMemory? && r.error.site.TradeRecord? then Some(r.error.site) else None
  }

  function SiteOf(m: Mutation): Site {
    TradeRecord(m.price, m.executed)
  }

  lemma StartChain(e: Engine)
    requires Live(e)
    ensures Chain([], [e.orders], false)
  {
    LiveFits(e);
  }

  lemma LiveAgrees(e: Engine)
    requires Live(e)
    ensures Agrees(e.book, e.orders)
  {
  }
}
