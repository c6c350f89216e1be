/** Signed position accounting with a truncated average price, and the exact size of its profit-and-loss error. */
module Positions {
  import opened Types

  datatype Holding = Holding(quantity: int, average: int, realized: int)

  const TWO64: int := 0x1_0000_0000_0000_0000

  const FLAT := Holding(0, 0, 0)

  datatype Deal = Deal(quantity: int, price: int)

  function Abs(x: int): nat {
    if x < 0 then -x else x
  }

  function Sign(x: int): int {
    if x > 0 then 1 else if x < 0 then -1 else 0
  }

  /** C++ division: truncation toward zero. */
  function TruncDiv(a: int, b: int): int
    requires b > 0
  {
    if a >= 0 then a / b else -((-a) / b)
  }

  predicate Tradable(d: Deal) {
    d.quantity != 0 && d.price > 0
  }

  /** The deal extends an existing position. */
  predicate Extends(h: Holding, d: Deal) {
    h.quantity != 0 && (h.quantity > 0) == (d.quantity > 0)
  }

  function WeightedTotal(h: Holding, d: Deal): int {
    h.average * Abs(h.quantity) + d.price * Abs(d.quantity)
  }

  /** The conversion to a 64-bit integer: reduction modulo 2^64 into the signed range. */
  function Narrow64(x: int): (r: Int64)
    ensures (x - r) % TWO64 == 0
    ensures r == x <==> INT64_MIN <= x <= INT64_MAX
  {
    (x - INT64_MIN) % TWO64 + INT64_MIN
  }

  /** The profit a deal realizes: nothing unless it reduces, closes or flips a position. */
  function RealizedChange(h: Holding, d: Deal): int {
    if h.quantity == 0 || Extends(h, d) then 0
    else (if h.quantity > 0 then d.price - h.average else h.average - d.price) * Min(Abs(d.quantity), Abs(h.quantity))
  }

  /** What the conversion of a realized profit to 64 bits drops. */
  function Wrap(h: Holding, d: Deal): (r: int)
    ensures r % TWO64 == 0
    ensures r == 0 <==> INT64_MIN <= RealizedChange(h, d) <= INT64_MAX
  {
    RealizedChange(h, d) - Narrow64(RealizedChange(h, d))
  }

  function Applied(h: Holding, d: Deal): Holding {
    if h.quantity == 0 then h.(quantity := d.quantity, average := d.price)
    else if Extends(h, d) then
      h.(quantity := h.quantity + d.quantity,
         average := TruncDiv(WeightedTotal(h, d), Abs(h.quantity) + Abs(d.quantity)))
    else
      var realized := h.realized + Narrow64(RealizedChange(h, d));
      if Abs(d.quantity) < Abs(h.quantity) then Holding(h.quantity + d.quantity, h.average, realized)
      else if Abs(d.quantity) == Abs(h.quantity) then Holding(0, 0, realized)
      else Holding(h.quantity + d.quantity, d.price, realized)
  }

  function Unrealized(h: Holding, mark: int): int {
    if h.quantity == 0 then 0 else (mark - h.average) * h.quantity
  }

  function Pnl(h: Holding, mark: int): int {
    h.realized + Unrealized(h, mark)
  }

  /** What truncating the average throws away, as cash; nothing except when a position is extended. */
  function Remainder(h: Holding, d: Deal): int {
    if Extends(h, d) then WeightedTotal(h, d) - Applied(h, d).average * Abs(Applied(h, d).quantity) else 0
  }

  ghost predicate Healthy(h: Holding) {
    h.quantity != 0 ==> h.average > 0
  }

  lemma DivisionRemainder(a: int, b: int)
    requires a >= 0 && b > 0
    ensures 0 <= a - (a / b) * b < b
  {
  }

  lemma AverageStaysPositive(x: int, m: int, y: int, n: int)
    requires x > 0 && y > 0 && m > 0 && n > 0
    ensures (x * m + y * n) / (m + n) > 0
  {
    assert x * m >= m && y * n >= n by {
      assert (x - 1) * m >= 0 && (y - 1) * n >= 0;
    }
    DivisionRemainder(x * m + y * n, m + n);
  }

  /** The remainder of an extension is smaller than the new position; reductions, closes and flips have none. */
  lemma RemainderBound(h: Holding, d: Deal)
    requires Healthy(h) && Tradable(d)
    ensures Healthy(Applied(h, d))
    ensures Extends(h, d) ==> 0 <= Remainder(h, d) < Abs(h.quantity + d.quantity)
    ensures !Extends(h, d) ==> Remainder(h, d) == 0
  {
    if Extends(h, d) {
      var m, n := Abs(h.quantity), Abs(d.quantity);
      assert h.average * m >= 0 && d.price * n >= 0;
      AverageStaysPositive(h.average, m, d.price, n);
      DivisionRemainder(WeightedTotal(h, d), m + n);
    }
  }

  /** One deal changes profit and loss by its own mark-to-market value, plus the signed remainder, less the wrap. */
  lemma PnlStep(h: Holding, d: Deal, mark: int)
    requires Healthy(h) && Tradable(d)
    ensures Pnl(Applied(h, d), mark) ==
            Pnl(h, mark) + d.quantity * (mark - d.price) + Sign(h.quantity) * Remainder(h, d) - Wrap(h, d)
  {
    hide Narrow64;
    var q, a, x, p := h.quantity, h.average, d.quantity, d.price;
    var after := Applied(h, d);
    if q == 0 {
    } else if Extends(h, d) {
      ExtendedPnl(q, a, x, p, after.average, mark);
    } else {
      ReducedPnl(q, a, x, p, mark);
    }
  }

  lemma ExtendedPnl(q: int, a: int, x: int, p: int, average: int, mark: int)
    requires q != 0 && x != 0 && (q > 0) == (x > 0)
    ensures (mark - average) * (q + x) ==
            (mark - a) * q + x * (mark - p) + Sign(q) * (a * Abs(q) + p * Abs(x) - average * Abs(q + x))
  {
    if q > 0 {
      assert (mark - average) * (q + x) == mark * q + mark * x - average * (q + x);
      assert (mark - a) * q == mark * q - a * q;
      assert x * (mark - p) == mark * x - p * x;
    } else {
      assert Abs(q + x) == -(q + x);
      assert average * Abs(q + x) == -(average * (q + x));
      assert a * Abs(q) == -(a * q) && p * Abs(x) == -(p * x);
      assert (mark - average) * (q + x) == mark * q + mark * x - average * (q + x);
      assert (mark - a) * q == mark * q - a * q;
      assert x * (mark - p) == mark * x - p * x;
    }
  }

  /** A deal that leaves part of the position open realizes the closed part at the old average. */
  lemma PartlyClosedPnl(q: int, a: int, x: int, p: int, mark: int)
    requires q != 0 && x != 0 && (q > 0) != (x > 0) && Abs(x) < Abs(q)
    ensures (if q > 0 then p - a else a - p) * Min(Abs(x), Abs(q)) + (mark - a) * (q + x) ==
            (mark - a) * q + x * (mark - p)
  {
    assert (if q > 0 then p - a else a - p) * Min(Abs(x), Abs(q)) == (p - a) * (-x);
    assert (p - a) * (-x) == a * x - p * x;
    assert (mark - a) * (q + x) == (mark - a) * q + mark * x - a * x;
    assert x * (mark - p) == mark * x - p * x;
  }

  /** A deal that closes or flips the position realizes all of it and reopens the rest at its own price. */
  lemma FullyClosedPnl(q: int, a: int, x: int, p: int, mark: int)
    requires q != 0 && x != 0 && (q > 0) != (x > 0) && Abs(x) >= Abs(q)
    ensures (if q > 0 then p - a else a - p) * Min(Abs(x), Abs(q)) + (mark - p) * (q + x) ==
            (mark - a) * q + x * (mark - p)
  {
    assert (if q > 0 then p - a else a - p) * Min(Abs(x), Abs(q)) == (p - a) * q;
    assert (mark - p) * (q + x) == (mark - p) * q + x * (mark - p);
    assert (p - a) * q + (mark - p) * q == (mark - a) * q;
  }

  lemma ReducedPnl(q: int, a: int, x: int, p: int, mark: int)
    requires q != 0 && x != 0 && (q > 0) != (x > 0)
    ensures var h, d := Holding(q, a, 0), Deal(x, p);
            RealizedChange(h, d) + Unrealized(Applied(h, d), mark) == (mark - a) * q + x * (mark - p)
  {
    hide Narrow64;
    if Abs(x) < Abs(q) {
      PartlyClosedPnl(q, a, x, p, mark);
    } else {
      FullyClosedPnl(q, a, x, p, mark);
    }
  }

  /** The position after a sequence of deals. */
  function Fold(h: Holding, deals: seq<Deal>): Holding
    decreases |deals|
  {
    if deals == [] then h else Fold(Applied(h, deals[0]), deals[1..])
  }

  /** What the deals are worth at a mark price, with no accounting in between. */
  function MarkToMarket(deals: seq<Deal>, mark: int): int {
    if deals == [] then 0 else deals[0].quantity * (mark - deals[0].price) + MarkToMarket(deals[1..], mark)
  }

  /** The accumulated error; no mark price occurs in it. */
  function Drift(h: Holding, deals: seq<Deal>): int
    decreases |deals|
  {
    if deals == [] then 0
    else Sign(h.quantity) * Remainder(h, deals[0]) + Drift(Applied(h, deals[0]), deals[1..])
  }

  /** The accumulated wrap. */
  function Wrapped(h: Holding, deals: seq<Deal>): int
    decreases |deals|
  {
    if deals == [] then 0 else Wrap(h, deals[0]) + Wrapped(Applied(h, deals[0]), deals[1..])
  }

  lemma SumOfMultiples(a: int, b: int)
    requires a % TWO64 == 0 && b % TWO64 == 0
    ensures (a + b) % TWO64 == 0
  {
  }

  /** The wrap is a multiple of 2^64, and nothing when every realized profit fits in 64 bits. */
  lemma {:induction false} WrappedIsMultiple(h: Holding, deals: seq<Deal>)
    ensures Wrapped(h, deals) % TWO64 == 0
    ensures Fit(h, deals) ==> Wrapped(h, deals) == 0
    decreases |deals|
  {
    hide Applied, Wrap, RealizedChange;
    if deals != [] {
      WrappedIsMultiple(Applied(h, deals[0]), deals[1..]);
      SumOfMultiples(Wrap(h, deals[0]), Wrapped(Applied(h, deals[0]), deals[1..]));
    }
  }

  ghost predicate Fit(h: Holding, deals: seq<Deal>)
    decreases |deals|
  {
    deals != [] ==>
      INT64_MIN <= RealizedChange(h, deals[0]) <= INT64_MAX && Fit(Applied(h, deals[0]), deals[1..])
  }

  /** A bound on the error: one unit less than the new position for every extension. */
  function DriftLimit(h: Holding, deals: seq<Deal>): int
    decreases |deals|
  {
    if deals == [] then 0
    else (if Extends(h, deals[0]) then Abs(h.quantity + deals[0].quantity) - 1 else 0) +
         DriftLimit(Applied(h, deals[0]), deals[1..])
  }

  /** For every sequence of deals and every mark price, realized plus unrealized profit is, modulo 2^64, the
      mark-to-market value of the deals plus an error that does not depend on the mark price and is bounded by the
      positions extended. When every realized profit fits in 64 bits this is an equality. */
  lemma {:induction false} PnlIdentity(h: Holding, deals: seq<Deal>, mark: int)
    requires Healthy(h) && forall i :: 0 <= i < |deals| ==> Tradable(deals[i])
    ensures Pnl(Fold(h, deals), mark) == Pnl(h, mark) + MarkToMarket(deals, mark) + Drift(h, deals) - Wrapped(h, deals)
    ensures -DriftLimit(h, deals) <= Drift(h, deals) <= DriftLimit(h, deals)
    ensures Wrapped(h, deals) % TWO64 == 0 && (Fit(h, deals) ==> Wrapped(h, deals) == 0)
    decreases |deals|
  {
    WrappedIsMultiple(h, deals);
    hide Applied, Remainder, Wrap, Pnl, Extends;
    if deals != [] {
      PnlStep(h, deals[0], mark);
      RemainderBound(h, deals[0]);
      PnlIdentity(Applied(h, deals[0]), deals[1..], mark);
    }
  }

  /** Profit is realized on the quantity that a deal and the position have in common and on nothing else: what the two
      absolute quantities lose when they are added, counted once. */
  lemma RealizedOnClosedQuantity(h: Holding, d: Deal)
    requires Tradable(d)
    ensures var lost := Abs(h.quantity) + Abs(d.quantity) - Abs(h.quantity + d.quantity);
            lost % 2 == 0 &&
            Applied(h, d).realized == h.realized + Narrow64(Sign(h.quantity) * (d.price - h.average) * (lost / 2))
  {
    hide Narrow64;
    var q, x := h.quantity, d.quantity;
    var closed := (Abs(q) + Abs(x) - Abs(q + x)) / 2;
    if q == 0 || Extends(h, d) {
      assert closed == 0;
      assert Sign(q) * (d.price - h.average) * closed == 0;
      assert Narrow64(0) == 0;
    } else {
      assert closed == Min(Abs(x), Abs(q));
      assert Sign(q) * (d.price - h.average) == if q > 0 then d.price - h.average else h.average - d.price;
    }
  }

  /** The entry price, by what a deal does to the position alone: opening and flipping take the deal's price, reducing
      leaves it, closing clears it, extending takes the weighted average rounded down. */
  lemma EntryPriceStep(h: Holding, d: Deal)
    requires Healthy(h) && Tradable(d)
    ensures var now, average := h.quantity + d.quantity, Applied(h, d).average;
            Applied(h, d).quantity == now &&
            (now == 0 ==> average == 0) &&
            (now != 0 && Sign(now) != Sign(h.quantity) ==> average == d.price) &&
            (Sign(now) == Sign(h.quantity) && Abs(now) < Abs(h.quantity) ==> average == h.average) &&
            (Sign(now) == Sign(h.quantity) && Abs(now) > Abs(h.quantity) ==>
              average * Abs(now) <= h.average * Abs(h.quantity) + d.price * Abs(d.quantity) < (average + 1) * Abs(now))
  {
    hide Narrow64, RealizedChange;
    if Extends(h, d) {
      RemainderBound(h, d);
      var average, now := Applied(h, d).average, Abs(h.quantity + d.quantity);
      assert (average + 1) * now == average * now + now;
    }
  }

  /** The net quantity of the deals. */
  function Net(deals: seq<Deal>): int {
    if deals == [] then 0 else Net(deals[..|deals| - 1]) + deals[|deals| - 1].quantity
  }

  /** Deal `k` opened the position the deals leave open: before it the position was flat or on the other side, and since
      then it has been on this side throughout. */
  ghost predicate OpensAt(deals: seq<Deal>, k: nat) {
    k < |deals| && Net(deals) != 0 && Sign(Net(deals[..k])) != Sign(Net(deals)) &&
    forall j :: k < j <= |deals| ==> Sign(Net(deals[..j])) == Sign(Net(deals))
  }

  lemma {:induction false} FoldLast(h: Holding, deals: seq<Deal>)
    requires deals != []
    ensures Fold(h, deals) == Applied(Fold(h, deals[..|deals| - 1]), deals[|deals| - 1])
    decreases |deals|
  {
    hide Applied;
    if |deals| > 1 {
      FoldLast(Applied(h, deals[0]), deals[1..]);
      assert deals[1..][..|deals| - 2] == deals[..|deals| - 1][1..];
    }
  }

  /** Every open position was opened by exactly one of the deals. */
  lemma {:induction false} OpeningExists(deals: seq<Deal>) returns (k: nat)
    requires Net(deals) != 0
    ensures OpensAt(deals, k)
  {
    hide Sign;
    var init := deals[..|deals| - 1];
    assert deals[..|deals|] == deals;
    if Sign(Net(init)) != Sign(Net(deals)) {
      k := |deals| - 1;
    } else {
      SignZero(Net(init));
      SignZero(Net(deals));
      k := OpeningExists(init);
      assert init[..k] == deals[..k];
      forall j | k < j <= |deals| ensures Sign(Net(deals[..j])) == Sign(Net(deals)) {
        assert j < |deals| ==> init[..j] == deals[..j];
      }
    }
  }

  lemma SignZero(x: int)
    ensures Sign(x) == 0 <==> x == 0
  {
  }

  /** A weighted average, rounded down, of prices between two bounds is between them. */
  lemma AverageBetween(average: int, now: nat, x: int, m: nat, y: int, n: nat, lo: int, hi: int)
    requires m + n == now > 0 && lo <= x <= hi && lo <= y <= hi
    requires average * now <= x * m + y * n < (average + 1) * now
    ensures lo <= average <= hi
  {
    Scaled(lo, x, m);
    Scaled(x, hi, m);
    Scaled(lo, y, n);
    Scaled(y, hi, n);
    Spread(lo, m, n);
    Spread(hi, m, n);
    Cancelled(lo, average + 1, now);
    assert (hi + 1) * now == hi * now + now;
    Cancelled(average, hi + 1, now);
  }

  lemma Scaled(a: int, b: int, n: nat)
    requires a <= b
    ensures a * n <= b * n
  {
  }

  lemma Spread(a: int, m: int, n: int)
    ensures a * (m + n) == a * m + a * n
  {
  }

  lemma Cancelled(a: int, b: int, n: nat)
    requires a * n < b * n
    ensures a < b
  {
    if a >= b {
      Scaled(b, a, n);
    }
  }

  /** The entry-price law: over every sequence of deals, the average price of the position they leave open lies between
      the lowest and the highest price dealt since that position was opened. */
  lemma {:induction false} EntryPriceLaw(deals: seq<Deal>, k: nat, lo: int, hi: int)
    requires (forall j :: 0 <= j < |deals| ==> Tradable(deals[j])) && OpensAt(deals, k)
    requires forall j :: k <= j < |deals| ==> lo <= deals[j].price <= hi
    ensures lo <= Fold(FLAT, deals).average <= hi
  {
    hide Applied, Sign, Healthy;
    var init, d := deals[..|deals| - 1], deals[|deals| - 1];
    var h := Fold(FLAT, init);
    FoldLast(FLAT, deals);
    FoldIsNet(init);
    EntryPriceStep(h, d);
    assert deals[..|deals|] == deals;
    if k < |deals| - 1 {
      assert init[..k] == deals[..k];
      assert Sign(Net(init)) == Sign(Net(deals));
      SignZero(Net(init));
      SignZero(Net(deals));
      forall j | k < j <= |init| ensures Sign(Net(init[..j])) == Sign(Net(init)) {
        assert init[..j] == deals[..j];
      }
      EntryPriceLaw(init, k, lo, hi);
      SameSide(h.quantity, d.quantity);
      if Abs(h.quantity + d.quantity) > Abs(h.quantity) {
        AverageBetween(Fold(FLAT, deals).average, Abs(h.quantity + d.quantity), h.average, Abs(h.quantity), d.price,
                       Abs(d.quantity), lo, hi);
      }
    }
  }

  lemma SameSide(q: int, x: int)
    requires q != 0 && x != 0 && Sign(q) == Sign(q + x)
    ensures Abs(q + x) > Abs(q) ==> Abs(q + x) == Abs(q) + Abs(x)
    ensures Abs(q + x) != Abs(q)
  {
  }

  /** The position is the net quantity of the deals. */
  lemma {:induction false} FoldIsNet(deals: seq<Deal>)
    requires forall j :: 0 <= j < |deals| ==> Tradable(deals[j])
    ensures Fold(FLAT, deals).quantity == Net(deals) && Healthy(Fold(FLAT, deals))
  {
    hide Applied, Tradable;
    if deals != [] {
      var init := deals[..|deals| - 1];
      FoldIsNet(init);
      FoldLast(FLAT, deals);
      EntryPriceStep(Fold(FLAT, init), deals[|deals| - 1]);
      RemainderBound(Fold(FLAT, init), deals[|deals| - 1]);
    }
  }

  class Position {
    var quantity: int
    var average: int
    var realized: int

    function Value(): Holding
      reads this
    {
      Holding(quantity, average, realized)
    }

    constructor ()
      ensures Value() == FLAT
    {
      quantity, average, realized := 0, 0, 0;
    }

    method ApplyTrade(q: int, price: int) returns (r: Result<()>)
      modifies this
      ensures r == if q != 0 && price > 0 then Ok(()) else Err(InvalidArgument)
      ensures Value() == if r.Ok? then Applied(old(Value()), Deal(q, price)) else old(Value())
    {
      if q == 0 || price <= 0 {
        return Err(InvalidArgument);
      }
      if quantity == 0 {
        quantity, average := q, price;
        return Ok(());
      }
      var held, traded := Abs(quantity), Abs(q);
      if (quantity > 0) == (q > 0) {
        average := TruncDiv(average * held + price * traded, held + traded);
        quantity := quantity + q;
        return Ok(());
      }
      var closing := if traded < held then traded else held;
      var difference := if quantity > 0 then price - average else average - price;
      realized := realized + Narrow64(difference * closing);
      if traded < held {
        quantity := quantity + q;
      } else if traded == held {
        quantity, average := 0, 0;
      } else {
        quantity, average := quantity + q, price;
      }
      return Ok(());
    }

    method UnrealizedPnl(mark: int) returns (r: Result<Int64>)
      ensures r == if mark <= 0 then Err(InvalidArgument) else Ok(Narrow64(Unrealized(Value(), mark)))
    {
      if mark <= 0 {
        return Err(InvalidArgument);
      }
      if quantity == 0 {
        return Ok(0);
      }
      return Ok(Narrow64((mark - average) * quantity));
    }
  }
}
