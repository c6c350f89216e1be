/** The trade log with its two counters, and the order-id generator. */
module TradeStores {
  import opened Types
  import opened Allocation

  datatype Store = Store(trades: seq<Trade>, nextTradeId: nat, nextExecution: nat)

  datatype Checkpoint = Checkpoint(count: nat, nextTradeId: nat, nextExecution: nat)

  /** What a caller asks to be recorded; the store supplies the two numbers. */
  datatype Execution = Execution(aggressor: Side, price: int, quantity: int, buyId: Option<nat>, sellId: Option<nat>)

  function Numbered(s: Store, x: Execution): Trade {
    Trade(x.aggressor, x.price, x.quantity, s.nextTradeId, x.buyId, x.sellId, s.nextExecution)
  }

  function Record(s: Store, x: Execution): Store {
    Store(s.trades + [Numbered(s, x)], s.nextTradeId + 1, s.nextExecution + 1)
  }

  function CheckpointOf(s: Store): Checkpoint {
    Checkpoint(|s.trades|, s.nextTradeId, s.nextExecution)
  }

  function RolledBack(s: Store, c: Checkpoint): Store
    requires c.count <= |s.trades|
  {
    Store(s.trades[..c.count], c.nextTradeId, c.nextExecution)
  }

  function Volume(trades: seq<Trade>): int {
    if trades == [] then 0 else trades[0].quantity + Volume(trades[1..])
  }

  /** Cash exchanged in the fills. */
  function Notional(trades: seq<Trade>): int {
    if trades == [] then 0 else trades[0].price * trades[0].quantity + Notional(trades[1..])
  }

  lemma {:induction false} FoldStep(trades: seq<Trade>, n: nat)
    requires n < |trades|
    ensures Volume(trades[..n + 1]) == Volume(trades[..n]) + trades[n].quantity
    ensures Notional(trades[..n + 1]) == Notional(trades[..n]) + trades[n].price * trades[n].quantity
  {
    if n == 0 {
      assert trades[..1] == [trades[0]];
    } else {
      FoldStep(trades[1..], n - 1);
      assert trades[..n + 1][1..] == trades[1..][..n];
      assert trades[..n][1..] == trades[1..][..n - 1];
    }
  }

  lemma TotalsOfOne(t: Trade)
    ensures Volume([t]) == t.quantity && Notional([t]) == t.price * t.quantity
  {
    assert [t][1..] == [];
  }

  /** Volume and notional add up over any split of the trades; `TotalsOfOne` says what a single trade counts. */
  lemma {:induction false} TotalsAdd(a: seq<Trade>, b: seq<Trade>)
    ensures Volume(a + b) == Volume(a) + Volume(b) && Notional(a + b) == Notional(a) + Notional(b)
  {
    if a == [] {
      assert a + b == b;
    } else {
      TotalsAdd(a[1..], b);
      assert (a + b)[1..] == a[1..] + b;
    }
  }

  /** The average a report may give: none when nothing executed, otherwise the exact average rounded down. */
  ghost predicate IsAverage(average: Option<int>, trades: seq<Trade>, executed: int) {
    match average
    case None => executed == 0
    case Some(a) => executed > 0 && a * executed <= Notional(trades) < (a + 1) * executed
  }

  lemma AverageIsFloor(trades: seq<Trade>, executed: int)
    requires executed >= 0
    ensures IsAverage(AverageOf(trades, executed), trades, executed)
  {
    if executed > 0 {
      RoundedDown(Notional(trades), executed);
    }
  }

  lemma RoundedDown(a: int, b: int)
    requires b > 0
    ensures a / b * b <= a < (a / b + 1) * b
  {
    assert (a / b + 1) * b == a / b * b + b;
  }

  /** There is only one such average. */
  lemma AverageUnique(a: Option<int>, b: Option<int>, trades: seq<Trade>, executed: int)
    requires IsAverage(a, trades, executed) && IsAverage(b, trades, executed)
    ensures a == b
  {
    if a.Some? {
      BelowNext(a.value, b.value, executed);
      BelowNext(b.value, a.value, executed);
    }
  }

  lemma BelowNext(a: int, b: int, n: int)
    requires n > 0 && a * n < (b + 1) * n
    ensures a <= b
  {
    assert (b + 1 - a) * n == (b + 1) * n - a * n;
    PositiveFactor(b + 1 - a, n);
  }

  lemma PositiveFactor(a: int, b: int)
    requires b > 0 && a * b > 0
    ensures a > 0
  {
  }

  /** The reported average price: the exact average, truncated. */
  function AverageOf(trades: seq<Trade>, executed: int): Option<int> {
    if executed <= 0 then None else Some(Notional(trades) / executed)
  }

  method AveragePrice(trades: seq<Trade>, executed: int) returns (average: Option<int>)
    ensures average == AverageOf(trades, executed)
  {
    var weighted := 0;
    for i := 0 to |trades|
      invariant weighted == Notional(trades[..i])
    {
      FoldStep(trades, i);
      weighted := weighted + trades[i].price * trades[i].quantity;
    }
    assert trades[..|trades|] == trades;
    return if executed > 0 then Some(weighted / executed) else None;
  }

  /** Numbers in the history strictly increase and stay below the counters. */
  ghost predicate Ordered(s: Store) {
    (forall i, j :: 0 <= i < j < |s.trades| ==>
      s.trades[i].tradeId < s.trades[j].tradeId && s.trades[i].executionSequence < s.trades[j].executionSequence) &&
    forall i :: 0 <= i < |s.trades| ==>
      s.trades[i].tradeId < s.nextTradeId && s.trades[i].executionSequence < s.nextExecution
  }

  function RecordAll(s: Store, xs: seq<Execution>): (r: Store)
    ensures |r.trades| == |s.trades| + |xs|
    decreases |xs|
  {
    if xs == [] then s else RecordAll(Record(s, xs[0]), xs[1..])
  }

  /** Any number of records after a checkpoint are undone exactly, counters included. */
  lemma {:induction false} RollbackUndoesRecords(s: Store, xs: seq<Execution>)
    ensures RolledBack(RecordAll(s, xs), CheckpointOf(s)) == s
    ensures Ordered(s) ==> Ordered(RecordAll(s, xs))
    decreases |xs|
  {
    if xs == [] {
      assert s.trades[..|s.trades|] == s.trades;
    } else {
      RollbackUndoesRecords(Record(s, xs[0]), xs[1..]);
      var end := RecordAll(Record(s, xs[0]), xs[1..]);
      assert end.trades[..|s.trades|] == end.trades[..|s.trades| + 1][..|s.trades|] == s.trades;
    }
  }

  class TradeStore {
    var trades: seq<Trade>
    var nextTradeId: nat
    var nextExecution: nat

    function Value(): Store
      reads this
    {
      Store(trades, nextTradeId, nextExecution)
    }

    constructor ()
      ensures Value() == Store([], 1, 1)
    {
      trades, nextTradeId, nextExecution := [], 1, 1;
    }

    method RecordTrade(x: Execution, memory: Memory) returns (r: Result<Trade>)
      modifies this, memory
      ensures r == Err(InvalidArgument) <==> x.price <= 0 || x.quantity <= 0
      ensures r.Ok? ==> r.value == Numbered(old(Value()), x) && Value() == Record(old(Value()), x)
      ensures r.Err? ==> Value() == old(Value()) && (r.error == InvalidArgument || r.error == OutOfMemory(Storage))
      ensures r == Err(OutOfMemory(Storage)) <==> x.price > 0 && x.quantity > 0 && memory.exhausted(old(memory.clock))
      ensures memory.clock == if r == Err(InvalidArgument) then old(memory.clock) else old(memory.clock) + 1
    {
      if x.price <= 0 || x.quantity <= 0 {
        return Err(InvalidArgument);
      }
      var trade := Trade(x.aggressor, x.price, x.quantity, nextTradeId, x.buyId, x.sellId, nextExecution);
      nextTradeId, nextExecution := nextTradeId + 1, nextExecution + 1;
      var pushed := memory.Allocate();
      if !pushed {
        nextTradeId, nextExecution := nextTradeId - 1, nextExecution - 1;
        return Err(OutOfMemory(Storage));
      }
      trades := trades + [trade];
      return Ok(trade);
    }

    method Rollback(c: Checkpoint) returns (r: Result<()>)
      modifies this
      ensures r.Ok? <==> c.count <= |old(trades)|
      ensures r.Ok? ==> Value() == RolledBack(old(Value()), c)
      ensures r.Err? ==> Value() == old(Value())
    {
      if c.count > |trades| {
        return Err(InvalidArgument);
      }
      trades, nextTradeId, nextExecution := trades[..c.count], c.nextTradeId, c.nextExecution;
      return Ok(());
    }

    /** The counters survive, so numbers are never reused across a clear. */
    method Clear()
      modifies this
      ensures Value() == old(Value()).(trades := [])
    {
      trades := [];
    }
  }

  class OrderIdGenerator {
    var nextId: nat

    constructor ()
      ensures nextId == 1
    {
      nextId := 1;
    }

    /** The largest id is never handed out. */
    method Next() returns (r: Result<nat>)
      modifies this
      ensures r == if old(nextId) == UINT64_MAX then Err(Overflow) else Ok(old(nextId))
      ensures nextId == if r.Ok? then old(nextId) + 1 else old(nextId)
    {
      if nextId == UINT64_MAX {
        return Err(Overflow);
      }
      var id := nextId;
      nextId := nextId + 1;
      return Ok(id);
    }
  }
}
