/** The aggregated order book: in-place level updates, snapshot normalisation and depth. */
module OrderBooks {
  import opened Types
  import opened Levels

  datatype Book = Book(bids: seq<Level>, asks: seq<Level>) {
    function Ladder(side: Side): seq<Level> {
      if side.Buy? then bids else asks
    }

    function With(side: Side, levels: seq<Level>): Book {
      if side.Buy? then this.(bids := levels) else this.(asks := levels)
    }

    ghost predicate WellFormed() {
      Levels.WellFormed(Buy, bids) && Levels.WellFormed(Sell, asks)
    }

    function Adjusted(side: Side, price: int, delta: int): Book {
      With(side, AddAt(side, Ladder(side), price, delta))
    }
  }

  const EMPTY: Book := Book([], [])

  /** Binary search for the first level that is not better than `price`. */
  function LowerBound(side: Side, levels: seq<Level>, price: int, lo: nat, hi: nat): (i: nat)
    requires lo <= hi <= |levels|
    requires Sorted(side, levels)
    requires forall k :: 0 <= k < lo ==> Better(side, levels[k].price, price)
    requires forall k :: hi <= k < |levels| ==> !Better(side, levels[k].price, price)
    ensures i <= |levels|
    ensures forall k :: 0 <= k < i ==> Better(side, levels[k].price, price)
    ensures forall k :: i <= k < |levels| ==> !Better(side, levels[k].price, price)
    decreases hi - lo
  {
    if lo == hi then lo
    else
      var mid := (lo + hi) / 2;
      if Better(side, levels[mid].price, price) then LowerBound(side, levels, price, mid + 1, hi)
      else LowerBound(side, levels, price, lo, mid)
  }

  /** The reference walk passes over every better level untouched. */
  lemma {:induction false} AddAtSplice(side: Side, levels: seq<Level>, price: int, delta: int, i: nat)
    requires i <= |levels|
    requires forall k :: 0 <= k < i ==> Better(side, levels[k].price, price)
    ensures AddAt(side, levels, price, delta) == levels[..i] + AddAt(side, levels[i..], price, delta)
    ensures Quantity(levels, price) == Quantity(levels[i..], price)
  {
    if i > 0 {
      AddAtSplice(side, levels[1..], price, delta, i - 1);
      assert levels[1..][i - 1..] == levels[i..];
      assert levels[..i] == [levels[0]] + levels[1..][..i - 1];
    } else {
      assert levels[0..] == levels;
    }
  }

  /** At a price with no level the walk inserts one at the lower bound. */
  lemma AddAtAbsent(side: Side, levels: seq<Level>, price: int, delta: int, i: nat)
    requires Sorted(side, levels) && i <= |levels|
    requires forall k :: 0 <= k < i ==> Better(side, levels[k].price, price)
    requires i == |levels| || Better(side, price, levels[i].price)
    ensures Quantity(levels, price) == 0
    ensures AddAt(side, levels, price, delta) ==
            if delta == 0 then levels else levels[..i] + [Level(price, delta)] + levels[i..]
  {
    AddAtSplice(side, levels, price, delta, i);
    AbsentQuantity(side, levels[i..], price);
    assert levels == levels[..i] + levels[i..];
  }

  /** At a price with a level the walk rewrites it, or erases it when nothing is left. */
  lemma AddAtPresent(side: Side, levels: seq<Level>, price: int, delta: int, i: nat)
    requires Sorted(side, levels) && i < |levels| && levels[i].price == price
    ensures Quantity(levels, price) == levels[i].quantity
    ensures AddAt(side, levels, price, delta) ==
            if levels[i].quantity + delta == 0 then levels[..i] + levels[i + 1..]
            else levels[i := Level(price, levels[i].quantity + delta)]
  {
    AddAtSplice(side, levels, price, delta, i);
    QuantityAtIndex(side, levels, i);
    assert levels[i..][1..] == levels[i + 1..];
  }

  /** An adjustment inserts a level, and so allocates, exactly when there is none at the price yet. */
  predicate Grows(levels: seq<Level>, price: int, delta: int) {
    delta > 0 && Quantity(levels, price) == 0
  }

  method AdjustLevels(side: Side, levels: seq<Level>, price: int, delta: Int64, mayGrow: bool)
    returns (r: Result<seq<Level>>)
    requires WellFormed(side, levels)
    ensures r == match AdjustError(levels, price, delta)
                 case Some(e) => Err(e)
                 case None =>
                   if Grows(levels, price, delta) && !mayGrow then Err(OutOfMemory(Storage))
                   else Ok(AddAt(side, levels, price, delta))
  {
    hide AddAt, Quantity, LowerBound;
    if price < 0 {
      return Err(InvalidArgument);
    }
    var i := LowerBound(side, levels, price, 0, |levels|);
    if i == |levels| || levels[i].price != price {
      AddAtAbsent(side, levels, price, delta, i);
      if delta < 0 {
        return Err(InvalidArgument);
      }
      if delta == 0 {
        return Ok(levels);
      }
      if !mayGrow {
        return Err(OutOfMemory(Storage));
      }
      return Ok(levels[..i] + [Level(price, delta)] + levels[i..]);
    }
    AddAtPresent(side, levels, price, delta, i);
    if delta == 0 {
      assert levels[i := Level(price, levels[i].quantity)] == levels;
      return Ok(levels);
    }
    if delta > 0 {
      if levels[i].quantity > INT64_MAX - delta {
        return Err(Overflow);
      }
      return Ok(levels[i := levels[i].(quantity := levels[i].quantity + delta)]);
    }
    if delta == INT64_MIN {
      return Err(InvalidArgument);
    }
    var removed := -delta;
    if removed > levels[i].quantity {
      return Err(InvalidArgument);
    }
    if removed == levels[i].quantity {
      return Ok(levels[..i] + levels[i + 1..]);
    }
    return Ok(levels[i := levels[i].(quantity := levels[i].quantity - removed)]);
  }

  /** Setting a level is the map update: the adjustment by the difference from the old total. */
  method UpdateLevels(side: Side, levels: seq<Level>, price: int, quantity: Int64, mayGrow: bool)
    returns (r: Result<seq<Level>>)
    requires WellFormed(side, levels)
    ensures r == if price < 0 || quantity < 0 then Err(InvalidArgument)
                 else if Grows(levels, price, quantity) && !mayGrow then Err(OutOfMemory(Storage))
                 else Ok(AddAt(side, levels, price, quantity - Quantity(levels, price)))
  {
    hide AddAt, Quantity, LowerBound;
    if price < 0 || quantity < 0 {
      return Err(InvalidArgument);
    }
    var i := LowerBound(side, levels, price, 0, |levels|);
    if i < |levels| && levels[i].price == price {
      AddAtPresent(side, levels, price, quantity - levels[i].quantity, i);
      if quantity == 0 {
        return Ok(levels[..i] + levels[i + 1..]);
      }
      return Ok(levels[i := levels[i].(quantity := quantity)]);
    }
    AddAtAbsent(side, levels, price, quantity, i);
    if quantity == 0 {
      return Ok(levels);
    }
    if !mayGrow {
      return Err(OutOfMemory(Storage));
    }
    return Ok(levels[..i] + [Level(price, quantity)] + levels[i..]);
  }

  /** What a snapshot must satisfy to be accepted; no clause mentions the order of the levels. */
  ghost predicate Acceptable(levels: seq<Level>) {
    (forall l :: l in levels ==> l.price >= 0 && l.quantity >= 0) &&
    forall p :: Quantity(levels, p) <= INT64_MAX
  }

  /** The first level at which a snapshot stops being acceptable, and what it is refused for. */
  ghost predicate FirstFault(levels: seq<Level>, k: nat, error: Error) {
    k < |levels| && Acceptable(levels[..k]) && !Acceptable(levels[..k + 1]) &&
    error == if levels[k].price < 0 || levels[k].quantity < 0 then InvalidArgument else Overflow
  }

  lemma {:induction false} QuantityAppend(levels: seq<Level>, l: Level, p: int)
    ensures Quantity(levels + [l], p) == Quantity(levels, p) + (if l.price == p then l.quantity else 0)
  {
    if levels == [] {
      assert levels + [l] == [l];
    } else {
      QuantityAppend(levels[1..], l, p);
      assert (levels + [l])[1..] == levels[1..] + [l];
    }
  }

  lemma {:induction false} QuantityPrefix(levels: seq<Level>, n: nat, p: int)
    requires n <= |levels|
    requires forall i :: 0 <= i < |levels| ==> levels[i].quantity >= 0
    ensures Quantity(levels[..n], p) <= Quantity(levels, p)
  {
    if n > 0 {
      QuantityPrefix(levels[1..], n - 1, p);
      assert levels[..n][1..] == levels[1..][..n - 1];
    } else {
      QuantityNonNegative(levels, p);
    }
  }

  /** Duplicate prices are merged into a price-ordered map (kept here as its sorted list of entries). */
  method NormalizeLevels(side: Side, levels: seq<Level>) returns (r: Result<seq<Level>>)
    requires forall i :: 0 <= i < |levels| ==> levels[i].quantity <= INT64_MAX
    ensures r.Ok? <==> Acceptable(levels)
    ensures r.Ok? ==> Normalizes(side, r.value, levels)
    ensures r.Err? ==> exists k: nat :: FirstFault(levels, k, r.error)
  {
    var aggregated: seq<Level> := [];
    for i := 0 to |levels|
      invariant WellFormed(side, aggregated)
      invariant forall k :: 0 <= k < i ==> levels[k].price >= 0 && levels[k].quantity >= 0
      invariant forall p :: Quantity(aggregated, p) == Quantity(levels[..i], p)
    {
      var l := levels[i];
      if l.price < 0 || l.quantity < 0 {
        assert l in levels && l in levels[..i + 1];
        AcceptableSoFar(side, levels, i, aggregated);
        assert FirstFault(levels, i, InvalidArgument);
        return Err(InvalidArgument);
      }
      assert levels[..i + 1] == levels[..i] + [l];
      forall p
        ensures Quantity(levels[..i + 1], p) == Quantity(levels[..i], p) + (if l.price == p then l.quantity else 0)
      {
        QuantityAppend(levels[..i], l, p);
      }
      if l.quantity != 0 {
        var held := Quantity(aggregated, l.price);
        if l.quantity > INT64_MAX - held {
          if forall k :: 0 <= k < |levels| ==> levels[k].quantity >= 0 {
            QuantityPrefix(levels, i + 1, l.price);
          }
          AcceptableSoFar(side, levels, i, aggregated);
          assert Quantity(levels[..i + 1], l.price) > INT64_MAX;
          assert FirstFault(levels, i, Overflow);
          return Err(Overflow);
        }
        AdjustRefinesMap(side, aggregated, l.price, l.quantity);
        aggregated := AddAt(side, aggregated, l.price, l.quantity);
      }
    }
    assert levels[..|levels|] == levels;
    forall p ensures Quantity(levels, p) <= INT64_MAX {
      assert Quantity(levels, p) == Quantity(aggregated, p);
      BoundedQuantity(side, aggregated, p);
    }
    r := Ok(aggregated);
  }

  lemma AcceptableSoFar(side: Side, levels: seq<Level>, n: nat, aggregated: seq<Level>)
    requires n <= |levels| && WellFormed(side, aggregated)
    requires forall k :: 0 <= k < n ==> levels[k].price >= 0 && levels[k].quantity >= 0
    requires forall p :: Quantity(aggregated, p) == Quantity(levels[..n], p)
    ensures Acceptable(levels[..n])
  {
    hide Quantity;
    forall p ensures Quantity(levels[..n], p) <= INT64_MAX {
      assert Quantity(levels[..n], p) == Quantity(aggregated, p);
      BoundedQuantity(side, aggregated, p);
    }
  }

  lemma BoundedQuantity(side: Side, levels: seq<Level>, p: int)
    requires WellFormed(side, levels)
    ensures 0 <= Quantity(levels, p) <= INT64_MAX
  {
    QuantityNonNegative(levels, p);
    if Quantity(levels, p) != 0 {
      var i := QuantityWitness(levels, p);
      QuantityAtIndex(side, levels, i);
    }
  }

  lemma {:induction false} QuantitySplit(a: seq<Level>, b: seq<Level>, p: int)
    ensures Quantity(a + b, p) == Quantity(a, p) + Quantity(b, p)
  {
    if a == [] {
      assert a + b == b;
    } else {
      QuantitySplit(a[1..], b, p);
      assert (a + b)[1..] == a[1..] + b;
    }
  }

  /** Totals per price do not depend on the order in which levels arrive. */
  lemma {:induction false} QuantityPermutation(a: seq<Level>, b: seq<Level>, p: int)
    requires multiset(a) == multiset(b)
    ensures Quantity(a, p) == Quantity(b, p)
  {
    if a == [] {
      assert |b| == |multiset(a)| == 0;
    } else {
      assert a[0] in multiset(b);
      var j :| 0 <= j < |b| && b[j] == a[0];
      var rest := b[..j] + b[j + 1..];
      assert a == [a[0]] + a[1..];
      assert b == b[..j] + ([b[j]] + b[j + 1..]);
      assert multiset(rest) == multiset(b) - multiset{b[j]};
      QuantityPermutation(a[1..], rest, p);
      QuantitySplit(b[..j], [b[j]] + b[j + 1..], p);
      QuantitySplit(b[..j], b[j + 1..], p);
      assert ([b[j]] + b[j + 1..])[1..] == b[j + 1..];
    }
  }

  /** `x` is the normal form of `levels`: sorted, and with the same total at every price. */
  ghost predicate Normalizes(side: Side, x: seq<Level>, levels: seq<Level>) {
    WellFormed(side, x) && forall p :: Quantity(x, p) == Quantity(levels, p)
  }

  /** A snapshot and any reordering of it are accepted or refused together, and normalise to the same list. */
  lemma SnapshotOrderIrrelevant(side: Side, a: seq<Level>, b: seq<Level>, x: seq<Level>, y: seq<Level>)
    requires multiset(a) == multiset(b)
    ensures Acceptable(a) <==> Acceptable(b)
    ensures Normalizes(side, x, a) && Normalizes(side, y, b) ==> x == y
  {
    forall p ensures Quantity(a, p) == Quantity(b, p) {
      QuantityPermutation(a, b, p);
    }
    forall l: Level ensures l in a <==> l in b {
      assert l in multiset(a) <==> l in multiset(b);
    }
    if Normalizes(side, x, a) && Normalizes(side, y, b) {
      MapDeterminesLevels(side, x, y);
    }
  }

  /** Unbounded sum of a side. */
  function Total(levels: seq<Level>): int {
    if levels == [] then 0 else levels[0].quantity + Total(levels[1..])
  }

  lemma {:induction false} TotalAppend(levels: seq<Level>, n: nat)
    requires n < |levels|
    ensures Total(levels[..n + 1]) == Total(levels[..n]) + levels[n].quantity
  {
    if n == 0 {
      assert levels[..1] == [levels[0]];
    } else {
      TotalAppend(levels[1..], n - 1);
      assert levels[..n + 1][1..] == levels[1..][..n];
      assert levels[..n][1..] == levels[1..][..n - 1];
    }
  }

  lemma {:induction false} TotalPrefix(levels: seq<Level>, n: nat)
    requires n <= |levels|
    requires forall i :: 0 <= i < |levels| ==> levels[i].quantity >= 0
    ensures 0 <= Total(levels[..n]) <= Total(levels)
  {
    if levels != [] {
      if n == 0 {
        TotalPrefix(levels[1..], 0);
      } else {
        TotalPrefix(levels[1..], n - 1);
        assert levels[..n][1..] == levels[1..][..n - 1];
      }
    }
  }

  method CalculateDepth(levels: seq<Level>) returns (r: Result<int>)
    requires Representable(levels)
    ensures r == if Total(levels) <= INT64_MAX then Ok(Total(levels)) else Err(Overflow)
  {
    var depth := 0;
    for i := 0 to |levels|
      invariant depth == Total(levels[..i]) <= INT64_MAX
    {
      TotalAppend(levels, i);
      if levels[i].quantity > INT64_MAX - depth {
        TotalPrefix(levels, i + 1);
        return Err(Overflow);
      }
      depth := depth + levels[i].quantity;
      TotalPrefix(levels, i + 1);
    }
    assert levels[..|levels|] == levels;
    return Ok(depth);
  }

  class OrderBook {
    var bids: seq<Level>
    var asks: seq<Level>

    function Value(): Book
      reads this
    {
      Book(bids, asks)
    }

    constructor ()
      ensures Value() == EMPTY
    {
      bids, asks := [], [];
    }

    /** Copy constructor and assignment. */
    method Assign(other: Book)
      modifies this
      ensures Value() == other
    {
      bids, asks := other.bids, other.asks;
    }

    /** `adjust_bid` and `adjust_ask`: a refused adjustment leaves the book as it was. */
    method Adjust(side: Side, price: int, delta: Int64, mayGrow: bool) returns (r: Result<()>)
      requires Value().WellFormed()
      modifies this
      ensures Value().WellFormed()
      ensures r.Ok? <==> AdjustError(old(Value()).Ladder(side), price, delta).None? &&
                         (Grows(old(Value()).Ladder(side), price, delta) ==> mayGrow)
      ensures r.Ok? ==> Value() == old(Value()).Adjusted(side, price, delta)
      ensures r.Err? ==> Value() == old(Value())
      ensures r.Err? ==> match AdjustError(old(Value()).Ladder(side), price, delta)
                         case Some(e) => r.error == e
                         case None => r.error == OutOfMemory(Storage)
    {
      if side.Buy? {
        var levels := AdjustLevels(Buy, bids, price, delta, mayGrow);
        if levels.Err? {
          return Err(levels.error);
        }
        AdjustRefinesMap(Buy, bids, price, delta);
        bids := levels.value;
      } else {
        var levels := AdjustLevels(Sell, asks, price, delta, mayGrow);
        if levels.Err? {
          return Err(levels.error);
        }
        AdjustRefinesMap(Sell, asks, price, delta);
        asks := levels.value;
      }
      return Ok(());
    }

    /** `update_bid` and `update_ask`: overwrite the quantity at one price. */
    method Update(side: Side, price: int, quantity: Int64, mayGrow: bool) returns (r: Result<()>)
      requires Value().WellFormed()
      modifies this
      ensures Value().WellFormed()
      ensures r.Ok? <==> price >= 0 && quantity >= 0 &&
                         (Grows(old(Value()).Ladder(side), price, quantity) ==> mayGrow)
      ensures r.Ok? ==>
              Value() == old(Value()).Adjusted(side, price, quantity - Quantity(old(Value()).Ladder(side), price))
      ensures r.Ok? ==> forall p :: Quantity(Value().Ladder(side), p) ==
                                    if p == price then quantity else Quantity(old(Value()).Ladder(side), p)
      ensures r.Err? ==> Value() == old(Value())
    {
      if side.Buy? {
        var levels := UpdateLevels(Buy, bids, price, quantity, mayGrow);
        if levels.Err? {
          return Err(levels.error);
        }
        BoundedQuantity(Buy, bids, price);
        AdjustRefinesMap(Buy, bids, price, quantity - Quantity(bids, price));
        bids := levels.value;
      } else {
        var levels := UpdateLevels(Sell, asks, price, quantity, mayGrow);
        if levels.Err? {
          return Err(levels.error);
        }
        BoundedQuantity(Sell, asks, price);
        AdjustRefinesMap(Sell, asks, price, quantity - Quantity(asks, price));
        asks := levels.value;
      }
      return Ok(());
    }

    /** Both sides are normalised before either is stored, so a refused snapshot changes nothing. */
    method ReplaceSnapshot(newBids: seq<Level>, newAsks: seq<Level>) returns (r: Result<()>)
      requires forall i :: 0 <= i < |newBids| ==> newBids[i].quantity <= INT64_MAX
      requires forall i :: 0 <= i < |newAsks| ==> newAsks[i].quantity <= INT64_MAX
      modifies this
      ensures r.Ok? <==> Acceptable(newBids) && Acceptable(newAsks)
      ensures r.Ok? ==> Normalizes(Buy, bids, newBids) && Normalizes(Sell, asks, newAsks)
      ensures r.Err? ==> Value() == old(Value())
      ensures r.Err? ==> var faulty := if Acceptable(newBids) then newAsks else newBids;
                         exists k: nat :: FirstFault(faulty, k, r.error)
    {
      hide Acceptable, FirstFault;
      var b := NormalizeLevels(Buy, newBids);
      if b.Err? {
        return Err(b.error);
      }
      var a := NormalizeLevels(Sell, newAsks);
      if a.Err? {
        return Err(a.error);
      }
      bids, asks := b.value, a.value;
      return Ok(());
    }

    /** `best_bid` and `best_ask`: the level every other level of its side is worse than. */
    function Best(side: Side): (r: Option<Level>)
      reads this
      ensures Value().WellFormed() ==>
              (r.Some? <==> Value().Ladder(side) != []) &&
              (r.Some? ==> r.value in Value().Ladder(side) &&
                           forall l :: l in Value().Ladder(side) && l != r.value ==>
                             if side.Buy? then l.price < r.value.price else l.price > r.value.price)
    {
      var levels := Value().Ladder(side);
      if levels == [] then None else Some(levels[0])
    }

    /** `bid_depth` and `ask_depth` saturate instead of overflowing. */
    method Depth(side: Side) returns (depth: int)
      requires Value().WellFormed()
      ensures depth == Min(Total(Value().Ladder(side)), INT64_MAX)
    {
      var r := CalculateDepth(if side.Buy? then bids else asks);
      depth := match r case Ok(total) => total case Err(_) => INT64_MAX;
    }
  }
}
