/** The active-order vector as a value: price-time priority, removal by swapping with the back, per-price sums. */
module Orders {
  import opened Types

  datatype Key = Key(price: int, sequence: nat, id: nat)

  function KeyOf(o: LimitOrder): Key {
    Key(o.price, o.sequence, o.id)
  }

  /** The buy and sell comparators: better price, then lower sequence, then lower id. */
  predicate Precedes(side: Side, a: Key, b: Key) {
    if a.price != b.price then Better(side, a.price, b.price)
    else if a.sequence != b.sequence then a.sequence < b.sequence
    else a.id < b.id
  }

  ghost predicate DistinctIds(orders: seq<LimitOrder>) {
    forall i, j :: 0 <= i < j < |orders| ==> orders[i].id != orders[j].id
  }

  ghost predicate Active(orders: seq<LimitOrder>, id: nat) {
    exists o :: o in orders && o.id == id
  }

  /** Erase slot `i` the way the vector does: the last order moves into the hole. */
  function RemoveAt(orders: seq<LimitOrder>, i: nat): (r: seq<LimitOrder>)
    requires i < |orders|
    ensures |r| == |orders| - 1
  {
    var last := |orders| - 1;
    if i == last then orders[..last] else orders[..last][i := orders[last]]
  }

  /** Slot `i` holds the highest-priority order of its side. */
  ghost predicate IsBest(orders: seq<LimitOrder>, side: Side, i: nat) {
    i < |orders| && orders[i].side == side &&
    forall j :: 0 <= j < |orders| && orders[j].side == side && j != i ==>
                  Precedes(side, KeyOf(orders[i]), KeyOf(orders[j]))
  }

  /** Linear scan for the highest-priority order of one side. */
  function Best(orders: seq<LimitOrder>, side: Side): (r: Option<nat>)
    ensures r.Some? ==> r.value < |orders| && orders[r.value].side == side
    ensures r.None? <==> forall j :: 0 <= j < |orders| ==> orders[j].side != side
  {
    if orders == [] then None
    else
      var last := |orders| - 1;
      var b := Best(orders[..last], side);
      if orders[last].side != side then b
      else if b.None? || Precedes(side, KeyOf(orders[last]), KeyOf(orders[b.value])) then Some(last)
      else b
  }

  lemma {:induction false} BestIsBest(orders: seq<LimitOrder>, side: Side)
    requires DistinctIds(orders)
    ensures Best(orders, side).Some? ==> IsBest(orders, side, Best(orders, side).value)
  {
    if orders != [] {
      var last := |orders| - 1;
      BestIsBest(orders[..last], side);
      var before := Best(orders[..last], side);
      forall j | before.Some? && 0 <= j < last && orders[j].side == side && j != before.value
        ensures Precedes(side, KeyOf(orders[before.value]), KeyOf(orders[j]))
      {
        assert orders[..last][j] == orders[j];
      }
    }
  }

  lemma BestUnique(orders: seq<LimitOrder>, side: Side, i: nat)
    requires DistinctIds(orders) && IsBest(orders, side, i)
    ensures Best(orders, side) == Some(i)
  {
    BestIsBest(orders, side);
    assert orders[i].side == side;
  }

  /** Where each surviving order came from. */
  lemma RemoveAtContents(orders: seq<LimitOrder>, i: nat)
    requires i < |orders| && DistinctIds(orders)
    ensures DistinctIds(RemoveAt(orders, i))
    ensures forall o :: o in RemoveAt(orders, i) <==> o in orders && o.id != orders[i].id
  {
    var last := |orders| - 1;
    var r := RemoveAt(orders, i);
    forall k | 0 <= k < last ensures r[k] == orders[if k == i then last else k] {}
    forall o: LimitOrder ensures o in r <==> o in orders && o.id != orders[i].id {
      if o in r {
        var k :| 0 <= k < last && r[k] == o;
        assert o == orders[if k == i then last else k];
      }
      if o in orders && o.id != orders[i].id {
        var k :| 0 <= k <= last && orders[k] == o;
        assert r[if k == last then i else k] == o;
      }
    }
  }

  /** What one order contributes to the level at a price. */
  function Share(o: LimitOrder, side: Side, price: int): int {
    if o.side == side && o.price == price then o.remaining else 0
  }

  /** Remaining quantity of one side at one price, summed over the vector. */
  function SumAt(orders: seq<LimitOrder>, side: Side, price: int): int {
    if orders == [] then 0
    else SumAt(orders[..|orders| - 1], side, price) + Share(orders[|orders| - 1], side, price)
  }

  lemma SumAtPush(orders: seq<LimitOrder>, o: LimitOrder, side: Side, price: int)
    ensures SumAt(orders + [o], side, price) == SumAt(orders, side, price) + Share(o, side, price)
  {
    assert (orders + [o])[..|orders|] == orders;
  }

  lemma {:induction false} SumAtUpdate(orders: seq<LimitOrder>, i: nat, o: LimitOrder, side: Side, price: int)
    requires i < |orders|
    ensures SumAt(orders[i := o], side, price) ==
            SumAt(orders, side, price) - Share(orders[i], side, price) + Share(o, side, price)
  {
    var last := |orders| - 1;
    if i == last {
      assert orders[i := o][..last] == orders[..last];
    } else {
      SumAtUpdate(orders[..last], i, o, side, price);
      assert orders[i := o][..last] == orders[..last][i := o];
    }
  }

  lemma SumAtRemove(orders: seq<LimitOrder>, i: nat, side: Side, price: int)
    requires i < |orders|
    ensures SumAt(RemoveAt(orders, i), side, price) == SumAt(orders, side, price) - Share(orders[i], side, price)
  {
    if i < |orders| - 1 {
      SumAtUpdate(orders[..|orders| - 1], i, orders[|orders| - 1], side, price);
    }
  }

  ghost predicate AllPositive(orders: seq<LimitOrder>) {
    forall i :: 0 <= i < |orders| ==> orders[i].remaining > 0
  }

  lemma {:induction false} SumAtNonNegative(orders: seq<LimitOrder>, side: Side, price: int)
    requires AllPositive(orders)
    ensures SumAt(orders, side, price) >= 0
  {
    if orders != [] {
      SumAtNonNegative(orders[..|orders| - 1], side, price);
    }
  }

  lemma SumAtMember(orders: seq<LimitOrder>, i: nat, side: Side, price: int)
    requires AllPositive(orders) && i < |orders|
    ensures SumAt(orders, side, price) >= Share(orders[i], side, price)
  {
    SumAtRemove(orders, i, side, price);
    SumAtNonNegative(RemoveAt(orders, i), side, price);
  }

  /** A level is only non-empty because some order rests there. */
  lemma {:induction false} SumAtWitness(orders: seq<LimitOrder>, side: Side, price: int) returns (i: nat)
    requires SumAt(orders, side, price) != 0
    ensures i < |orders| && orders[i].side == side && orders[i].price == price
  {
    var last := |orders| - 1;
    if Share(orders[last], side, price) != 0 {
      i := last;
    } else {
      i := SumAtWitness(orders[..last], side, price);
    }
  }
}
