/** One side of the aggregated book: a strictly sorted vector of price levels, read as a finite map. */
module Levels {
  import opened Types

  ghost predicate Sorted(side: Side, levels: seq<Level>) {
    forall i, j :: 0 <= i < j < |levels| ==> Better(side, levels[i].price, levels[j].price)
  }

  /** What every stored level satisfies: a representable positive quantity at a non-negative price. */
  ghost predicate Representable(levels: seq<Level>) {
    forall i :: 0 <= i < |levels| ==> 0 <= levels[i].price && 0 < levels[i].quantity <= INT64_MAX
  }

  ghost predicate WellFormed(side: Side, levels: seq<Level>) {
    Sorted(side, levels) && Representable(levels)
  }

  /** The map a level list denotes: total quantity per price, zero where there is no level. */
  function Quantity(levels: seq<Level>, price: int): int {
    if levels == [] then 0
    else (if levels[0].price == price then levels[0].quantity else 0) + Quantity(levels[1..], price)
  }

  /** Reference definition of a quantity change: walk to the price, then add, drop or insert a level. */
  function AddAt(side: Side, levels: seq<Level>, price: int, delta: int): seq<Level> {
    if levels == [] || Better(side, price, levels[0].price) then
      if delta == 0 then levels else [Level(price, delta)] + levels
    else if levels[0].price == price then
      if levels[0].quantity + delta == 0 then levels[1..]
      else [Level(price, levels[0].quantity + delta)] + levels[1..]
    else [levels[0]] + AddAt(side, levels[1..], price, delta)
  }

  /** The exception an adjustment raises; both overflow and underflow are decided by the map alone. */
  function AdjustError(levels: seq<Level>, price: int, delta: int): Option<Error> {
    if price < 0 then Some(InvalidArgument)
    else if delta < 0 && Quantity(levels, price) + delta < 0 then Some(InvalidArgument)
    else if delta > 0 && Quantity(levels, price) + delta > INT64_MAX then Some(Overflow)
    else None
  }

  lemma {:induction false} AbsentQuantity(side: Side, levels: seq<Level>, price: int)
    requires Sorted(side, levels)
    requires levels == [] || Better(side, price, levels[0].price)
    ensures Quantity(levels, price) == 0
  {
    if levels != [] {
      AbsentQuantity(side, levels[1..], price);
    }
  }

  /** A level is found exactly where it stands. */
  lemma {:induction false} QuantityAtIndex(side: Side, levels: seq<Level>, i: nat)
    requires Sorted(side, levels) && i < |levels|
    ensures Quantity(levels, levels[i].price) == levels[i].quantity
  {
    if i == 0 {
      AbsentQuantity(side, levels[1..], levels[0].price);
    } else {
      QuantityAtIndex(side, levels[1..], i - 1);
    }
  }

  /** A positive total comes from some level. */
  lemma {:induction false} QuantityWitness(levels: seq<Level>, price: int) returns (i: nat)
    requires Quantity(levels, price) != 0
    ensures i < |levels| && levels[i].price == price
  {
    if levels[0].price == price {
      i := 0;
    } else {
      i := QuantityWitness(levels[1..], price);
      i := i + 1;
    }
  }

  lemma {:induction false} QuantityNonNegative(levels: seq<Level>, price: int)
    requires forall i :: 0 <= i < |levels| ==> levels[i].quantity >= 0
    ensures Quantity(levels, price) >= 0
  {
    if levels != [] {
      QuantityNonNegative(levels[1..], price);
    }
  }

  /** `AddAt` changes the denoted map at one price only. */
  lemma {:induction false} AddAtQuantity(side: Side, levels: seq<Level>, price: int, delta: int, p: int)
    ensures Quantity(AddAt(side, levels, price, delta), p) ==
            Quantity(levels, p) + (if p == price then delta else 0)
  {
    var result := AddAt(side, levels, price, delta);
    if levels == [] || Better(side, price, levels[0].price) {
      if delta != 0 {
        assert result[1..] == levels;
      }
    } else if levels[0].price == price {
      if levels[0].quantity + delta != 0 {
        assert result[1..] == levels[1..];
      }
    } else {
      AddAtQuantity(side, levels[1..], price, delta, p);
      assert result[1..] == AddAt(side, levels[1..], price, delta);
    }
  }

  /** `AddAt` introduces no price but its own. */
  lemma {:induction false} AddAtPrices(side: Side, levels: seq<Level>, price: int, delta: int, l: Level)
    requires l in AddAt(side, levels, price, delta)
    ensures l.price == price || l in levels
  {
    if !(levels == [] || Better(side, price, levels[0].price) || levels[0].price == price) {
      if l != levels[0] {
        AddAtPrices(side, levels[1..], price, delta, l);
      }
    }
  }

  /** `AddAt` keeps the list well formed when the new total is representable. */
  lemma {:induction false} AddAtWellFormed(side: Side, levels: seq<Level>, price: int, delta: int)
    requires WellFormed(side, levels) && price >= 0
    requires 0 <= Quantity(levels, price) + delta <= INT64_MAX
    ensures WellFormed(side, AddAt(side, levels, price, delta))
  {
    if levels == [] || Better(side, price, levels[0].price) {
      AbsentQuantity(side, levels, price);
    } else if levels[0].price == price {
      AbsentQuantity(side, levels[1..], price);
    } else {
      var rest := AddAt(side, levels[1..], price, delta);
      AddAtWellFormed(side, levels[1..], price, delta);
      forall j | 0 <= j < |rest| ensures Better(side, levels[0].price, rest[j].price) {
        AddAtPrices(side, levels[1..], price, delta, rest[j]);
      }
    }
  }

  /** A well-formed side is determined by the map it denotes. */
  lemma {:induction false} MapDeterminesLevels(side: Side, a: seq<Level>, b: seq<Level>)
    requires WellFormed(side, a) && WellFormed(side, b)
    requires forall p :: Quantity(a, p) == Quantity(b, p)
    ensures a == b
  {
    if a == [] {
      if b != [] {
        QuantityAtIndex(side, b, 0);
      }
    } else {
      QuantityAtIndex(side, a, 0);
      var i := QuantityWitness(b, a[0].price);
      QuantityAtIndex(side, b, 0);
      var j := QuantityWitness(a, b[0].price);
      assert a[0].price == b[0].price;
      forall p ensures Quantity(a[1..], p) == Quantity(b[1..], p) {
        assert Quantity(a, p) == Quantity(b, p);
      }
      MapDeterminesLevels(side, a[1..], b[1..]);
      assert a == [a[0]] + a[1..] && b == [b[0]] + b[1..];
    }
  }

  /** An adjustment that raises nothing lands on a representable total. */
  lemma NetQuantityBounds(side: Side, levels: seq<Level>, price: int, delta: int)
    requires WellFormed(side, levels)
    requires AdjustError(levels, price, delta).None?
    ensures 0 <= Quantity(levels, price) <= INT64_MAX
    ensures 0 <= Quantity(levels, price) + delta <= INT64_MAX
  {
    QuantityNonNegative(levels, price);
    if Quantity(levels, price) != 0 {
      var i := QuantityWitness(levels, price);
      QuantityAtIndex(side, levels, i);
    }
  }

  /** An adjustment that raises nothing updates the map and keeps the side well formed. */
  lemma AdjustRefinesMap(side: Side, levels: seq<Level>, price: int, delta: int)
    requires WellFormed(side, levels)
    requires AdjustError(levels, price, delta).None?
    ensures WellFormed(side, AddAt(side, levels, price, delta))
    ensures forall p :: Quantity(AddAt(side, levels, price, delta), p) ==
                        Quantity(levels, p) + (if p == price then delta else 0)
  {
    NetQuantityBounds(side, levels, price, delta);
    AddAtWellFormed(side, levels, price, delta);
    forall p ensures Quantity(AddAt(side, levels, price, delta), p) ==
                     Quantity(levels, p) + (if p == price then delta else 0)
    {
      AddAtQuantity(side, levels, price, delta, p);
    }
  }

  /** Which adjustments are refused, and how: the new total at the price decides, and nothing else. */
  lemma AdjustmentIsExact(side: Side, levels: seq<Level>, price: int, delta: int)
    requires WellFormed(side, levels)
    ensures var error, total := AdjustError(levels, price, delta), Quantity(levels, price) + delta;
            (error.None? <==> price >= 0 && 0 <= total <= INT64_MAX) &&
            (error == Some(Overflow) <==> price >= 0 && total > INT64_MAX) &&
            (error == Some(InvalidArgument) <==> price < 0 || total < 0)
  {
    QuantityNonNegative(levels, price);
    if Quantity(levels, price) != 0 {
      var i := QuantityWitness(levels, price);
      QuantityAtIndex(side, levels, i);
    }
  }

  /** Adding a quantity and taking it away again is the identity on the level list, not just on the map. */
  lemma AdjustThenUndo(side: Side, levels: seq<Level>, price: int, delta: int)
    requires WellFormed(side, levels)
    requires AdjustError(levels, price, delta).None?
    ensures AdjustError(AddAt(side, levels, price, delta), price, -delta).None?
    ensures AddAt(side, AddAt(side, levels, price, delta), price, -delta) == levels
  {
    NetQuantityBounds(side, levels, price, delta);
    AdjustRefinesMap(side, levels, price, delta);
    var there := AddAt(side, levels, price, delta);
    AdjustRefinesMap(side, there, price, -delta);
    MapDeterminesLevels(side, AddAt(side, there, price, -delta), levels);
  }
}
