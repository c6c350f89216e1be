/** Records shared by every component: sides, orders, trades, price levels and error results. */
module Types {
  const INT64_MAX: int := 0x7fff_ffff_ffff_ffff
  const INT64_MIN: int := -0x8000_0000_0000_0000
  const UINT64_MAX: int := 0xffff_ffff_ffff_ffff

  type Int64 = x: int | INT64_MIN <= x <= INT64_MAX

  datatype Option<+T> = None | Some(value: T)

  /** Where a forward step ran out of memory. `TradeRecord` is the gap between pushing a journal
      entry and reducing the book; every other allocation is `Storage`. */
  datatype Site = Storage | TradeRecord(price: int, quantity: int)

  /** The exceptions of the program. `RollbackAborted` is an exception raised by a catch block. */
  datatype Error =
    | InvalidArgument
    | Overflow
    | LogicError
    | OutOfMemory(site: Site)
    | RollbackAborted(site: Site)
    | RiskRejected

  datatype Result<+T> = Ok(value: T) | Err(error: Error)

  datatype Side = Buy | Sell {
    function Opposite(): Side {
      if Buy? then Sell else Buy
    }
  }

  datatype LimitOrder = LimitOrder(
    id: nat, side: Side, price: int, original: int, remaining: int, sequence: nat)
  {
    function Filled(): int {
      original - remaining
    }
  }

  datatype Trade = Trade(
    aggressor: Side, price: int, quantity: int, tradeId: nat,
    buyId: Option<nat>, sellId: Option<nat>, executionSequence: nat)
  {
    predicate Names(id: nat) {
      buyId == Some(id) || sellId == Some(id)
    }
  }

  datatype Level = Level(price: int, quantity: int)

  function Min(a: int, b: int): int {
    if a <= b then a else b
  }

  /** Price `a` is strictly closer to the touch than `b` on this side of the book. */
  predicate Better(side: Side, a: int, b: int) {
    if side.Buy? then a > b else a < b
  }
}
