/** The active orders with their id index and two priority sets, and transactional removal. */
module OrderManagers {
  import opened Types
  import opened Orders
  import opened Allocation

  /** The record a transactional removal leaves behind; the three nodes are the extracted index entries. */
  datatype Removal = Removal(
    order: LimitOrder, originalIndex: nat, swapped: bool, swappedId: nat,
    indexNode: Option<nat>, buyNode: Option<Key>, sellNode: Option<Key>)
  {
    function KeyNode(): Option<Key> {
      if order.side.Buy? then buyNode else sellNode
    }

    /** The nodes are those of the order, as the removal left them. */
    predicate Genuine() {
      indexNode == Some(order.id) && KeyNode() == Some(KeyOf(order))
    }

    /** The record after its nodes have gone back into the indexes. */
    function Spent(): Removal {
      if order.side.Buy? then this.(indexNode := None, buyNode := None) else this.(indexNode := None, sellNode := None)
    }
  }

  const NO_REMOVAL := Removal(LimitOrder(0, Buy, 0, 0, 0, 0), 0, false, 0, None, None, None)

  function RemovalOf(orders: seq<LimitOrder>, i: nat): Removal
    requires i < |orders|
  {
    var last := |orders| - 1;
    var o := orders[i];
    Removal(o, i, i != last, if i != last then orders[last].id else 0, Some(o.id),
            if o.side.Buy? then Some(KeyOf(o)) else None,
            if o.side.Sell? then Some(KeyOf(o)) else None)
  }

  /** The vector after a restoration: the order returns to its slot and the moved order goes to the back. */
  function Restored(orders: seq<LimitOrder>, r: Removal): seq<LimitOrder>
    requires r.swapped ==> r.originalIndex < |orders|
  {
    if r.swapped then orders[r.originalIndex := r.order] + [orders[r.originalIndex]]
    else orders + [r.order]
  }

  /** The vector is in the state the removal left it in, as far as restoration can tell. */
  ghost predicate Restorable(orders: seq<LimitOrder>, r: Removal) {
    r.Genuine() &&
    (forall i :: 0 <= i < |orders| ==> orders[i].id != r.order.id) &&
    (if r.swapped then r.originalIndex < |orders| && orders[r.originalIndex].id == r.swappedId
     else r.originalIndex == |orders|)
  }

  /** Removal and restoration are inverse on the vector, even if the quantity was rewritten in between. */
  lemma RestoreUndoesRemoval(orders: seq<LimitOrder>, i: nat, remaining: int)
    requires DistinctIds(orders) && i < |orders|
    ensures var r := RemovalOf(orders, i);
            var fixed := r.(order := r.order.(remaining := remaining));
            Restorable(RemoveAt(orders, i), fixed) &&
            Restored(RemoveAt(orders, i), fixed) == orders[i := orders[i].(remaining := remaining)]
  {
    RemoveAtContents(orders, i);
    var r := RemovalOf(orders, i);
    var fixed := r.(order := r.order.(remaining := remaining));
    forall k | 0 <= k < |orders| - 1 ensures RemoveAt(orders, i)[k].id != orders[i].id {
      assert RemoveAt(orders, i)[k] in RemoveAt(orders, i);
    }
    assert Restored(RemoveAt(orders, i), fixed) == orders[i := orders[i].(remaining := remaining)];
  }

  /** The slot of the order with this id. */
  function Slot(orders: seq<LimitOrder>, id: nat): (r: Option<nat>)
    ensures r.Some? ==> r.value < |orders| && orders[r.value].id == id
    ensures r.None? <==> forall i :: 0 <= i < |orders| ==> orders[i].id != id
  {
    if orders == [] then None
    else if orders[|orders| - 1].id == id then Some(|orders| - 1)
    else Slot(orders[..|orders| - 1], id)
  }

  lemma SlotUnique(orders: seq<LimitOrder>, i: nat)
    requires DistinctIds(orders) && i < |orders|
    ensures Slot(orders, orders[i].id) == Some(i)
  {
  }

  /** The vector after removing the orders with these ids one after another, and the stack of removal records; an
      absent id is skipped. */
  function RemoveAll(orders: seq<LimitOrder>, ids: seq<nat>): (seq<LimitOrder>, seq<Removal>)
    decreases |ids|
  {
    if ids == [] then (orders, [])
    else
      match Slot(orders, ids[0])
      case None => RemoveAll(orders, ids[1..])
      case Some(i) =>
        var (rest, stack) := RemoveAll(RemoveAt(orders, i), ids[1..]);
        (rest, [RemovalOf(orders, i)] + stack)
  }

  /** Restoring from the top of the stack; `None` is a restoration that raises. */
  ghost function RestoreAll(orders: seq<LimitOrder>, stack: seq<Removal>): Option<seq<LimitOrder>>
    decreases |stack|
  {
    if stack == [] then Some(orders)
    else
      var top := stack[|stack| - 1];
      if Restorable(orders, top) then RestoreAll(Restored(orders, top), stack[..|stack| - 1]) else None
  }

  lemma {:induction false} RestoreAllBottom(orders: seq<LimitOrder>, bottom: Removal, stack: seq<Removal>)
    ensures RestoreAll(orders, [bottom] + stack) ==
            match RestoreAll(orders, stack)
            case None => None
            case Some(o) => if Restorable(o, bottom) then Some(Restored(o, bottom)) else None
    decreases |stack|
  {
    var whole := [bottom] + stack;
    if stack == [] {
      assert whole == [bottom] && whole[..0] == [];
    } else {
      var top := stack[|stack| - 1];
      assert whole[|whole| - 1] == top && whole[..|whole| - 1] == [bottom] + stack[..|stack| - 1];
      if Restorable(orders, top) {
        RestoreAllBottom(Restored(orders, top), bottom, stack[..|stack| - 1]);
      }
    }
  }

  /** Any removals restored last-in-first-out give back the identical vector, and no restoration raises. */
  lemma {:induction false} LifoRestoration(orders: seq<LimitOrder>, ids: seq<nat>)
    requires DistinctIds(orders)
    ensures RestoreAll(RemoveAll(orders, ids).0, RemoveAll(orders, ids).1) == Some(orders)
    decreases |ids|
  {
    if ids != [] {
      match Slot(orders, ids[0])
      case None => LifoRestoration(orders, ids[1..]);
      case Some(i) =>
        RemoveAtContents(orders, i);
        LifoRestoration(RemoveAt(orders, i), ids[1..]);
        var (rest, stack) := RemoveAll(RemoveAt(orders, i), ids[1..]);
        RestoreAllBottom(rest, RemovalOf(orders, i), stack);
        RestoreUndoesRemoval(orders, i, orders[i].remaining);
        assert orders[i := orders[i]] == orders;
    }
  }

  /** The keys a priority set must hold: those of one side's orders, no more and no fewer. */
  ghost function KeysOf(orders: seq<LimitOrder>, side: Side): set<Key> {
    set o | o in orders && o.side == side :: KeyOf(o)
  }

  /** The id index is a bijection between the ids and the slots of the vector. */
  ghost predicate Indexes(indices: map<nat, nat>, orders: seq<LimitOrder>) {
    (forall i :: 0 <= i < |orders| ==> orders[i].id in indices && indices[orders[i].id] == i) &&
    forall id :: id in indices ==> indices[id] < |orders| && orders[indices[id]].id == id
  }

  /** The vector determines the id index, so restoring the one restores the other. */
  lemma VectorDeterminesIndex(orders: seq<LimitOrder>, a: map<nat, nat>, b: map<nat, nat>)
    requires Indexes(a, orders) && Indexes(b, orders)
    ensures a == b
  {
    forall id: nat ensures id in a <==> id in b {
      if id in a {
        assert orders[a[id]].id in b;
      }
      if id in b {
        assert orders[b[id]].id in a;
      }
    }
    forall id | id in a ensures a[id] == b[id] {
      assert orders[a[id]].id == id;
    }
  }

  predicate Admissible(o: LimitOrder) {
    o.id != 0 && o.price > 0 && o.original > 0 && o.remaining > 0 && o.remaining <= o.original && o.sequence != 0
  }

  /** The first key of an ordered set. */
  predicate IsFirst(side: Side, keys: set<Key>, k: Key) {
    k in keys && forall x :: x in keys && x != k ==> Precedes(side, k, x)
  }

  lemma {:induction false} FirstExists(side: Side, keys: set<Key>)
    requires keys != {}
    ensures exists k :: IsFirst(side, keys, k)
    decreases |keys|
  {
    var any :| any in keys;
    if keys == {any} {
      assert IsFirst(side, keys, any);
    } else {
      FirstExists(side, keys - {any});
      var k :| IsFirst(side, keys - {any}, k);
      var first := if Precedes(side, any, k) then any else k;
      forall x | x in keys && x != first ensures Precedes(side, first, x) {
        assert x == any || x == k || Precedes(side, k, x);
      }
      assert IsFirst(side, keys, first);
    }
  }

  function First(side: Side, keys: set<Key>): (k: Key)
    requires keys != {}
    ensures IsFirst(side, keys, k)
  {
    FirstExists(side, keys);
    var k :| IsFirst(side, keys, k);
    k
  }

  /** Every secondary index agrees with the vector. */
  ghost predicate Consistent(orders: seq<LimitOrder>, indices: map<nat, nat>, buyKeys: set<Key>, sellKeys: set<Key>) {
    Indexes(indices, orders) && buyKeys == KeysOf(orders, Buy) && sellKeys == KeysOf(orders, Sell)
  }

  lemma PushConsistent(orders: seq<LimitOrder>, indices: map<nat, nat>, buyKeys: set<Key>, sellKeys: set<Key>,
                       o: LimitOrder)
    requires Consistent(orders, indices, buyKeys, sellKeys) && o.id !in indices
    ensures KeyOf(o) !in (if o.side.Buy? then buyKeys else sellKeys)
    ensures indices[o.id := |orders|] - {o.id} == indices
    ensures Consistent(orders + [o], indices[o.id := |orders|],
                       if o.side.Buy? then buyKeys + {KeyOf(o)} else buyKeys,
                       if o.side.Buy? then sellKeys else sellKeys + {KeyOf(o)})
  {
    forall x: LimitOrder ensures x in orders + [o] <==> x in orders || x == o {}
  }

  lemma FirstIsBest(orders: seq<LimitOrder>, indices: map<nat, nat>, side: Side, first: Key)
    requires Indexes(indices, orders)
    requires IsFirst(side, KeysOf(orders, side), first)
    ensures first.id in indices && DistinctIds(orders) && IsBest(orders, side, indices[first.id])
  {
    var o :| o in orders && o.side == side && KeyOf(o) == first;
    var i :| 0 <= i < |orders| && orders[i] == o;
    assert orders[i].id == first.id;
    forall j | 0 <= j < |orders| && orders[j].side == side && j != i
      ensures Precedes(side, first, KeyOf(orders[j]))
    {
      assert KeyOf(orders[j]) in KeysOf(orders, side);
      assert orders[j].id != orders[i].id;
    }
  }

  lemma RemoveConsistent(orders: seq<LimitOrder>, indices: map<nat, nat>, buyKeys: set<Key>, sellKeys: set<Key>,
                         i: nat)
    requires Consistent(orders, indices, buyKeys, sellKeys) && i < |orders|
    ensures var o, last := orders[i], |orders| - 1;
            KeyOf(o) in (if o.side.Buy? then buyKeys else sellKeys) && orders[last].id in indices &&
            Consistent(RemoveAt(orders, i),
                       (if i != last then indices[orders[last].id := i] else indices) - {o.id},
                       if o.side.Buy? then buyKeys - {KeyOf(o)} else buyKeys,
                       if o.side.Buy? then sellKeys else sellKeys - {KeyOf(o)})
  {
    hide Indexes, RemoveAt;
    IndexDistinct(orders, indices, i);
    RemoveAtContents(orders, i);
    RemoveIndexes(orders, indices, i);
    assert orders[i] in orders;
  }

  lemma IndexDistinct(orders: seq<LimitOrder>, indices: map<nat, nat>, i: nat)
    requires Indexes(indices, orders) && i < |orders|
    ensures DistinctIds(orders) && orders[i].id in indices && orders[|orders| - 1].id in indices
  {
  }

  lemma RemoveIndexes(orders: seq<LimitOrder>, indices: map<nat, nat>, i: nat)
    requires Indexes(indices, orders) && i < |orders|
    ensures var last := |orders| - 1;
            Indexes((if i != last then indices[orders[last].id := i] else indices) - {orders[i].id},
                    RemoveAt(orders, i))
  {
  }

  lemma RestoreConsistent(orders: seq<LimitOrder>, indices: map<nat, nat>, buyKeys: set<Key>, sellKeys: set<Key>,
                          r: Removal)
    requires Consistent(orders, indices, buyKeys, sellKeys) && Restorable(orders, r)
    ensures r.order.id !in indices
    ensures KeyOf(r.order) !in (if r.order.side.Buy? then buyKeys else sellKeys)
    ensures r.swapped ==> r.swappedId in indices
    ensures var restored := indices[r.order.id := r.originalIndex];
            Consistent(Restored(orders, r),
                       if r.swapped then restored[r.swappedId := |orders|] else restored,
                       if r.order.side.Buy? then buyKeys + {KeyOf(r.order)} else buyKeys,
                       if r.order.side.Buy? then sellKeys else sellKeys + {KeyOf(r.order)})
  {
    var grown := Restored(orders, r);
    forall o: LimitOrder ensures o in grown <==> o in orders || o == r.order {
      if o in orders {
        var k :| 0 <= k < |orders| && orders[k] == o;
        assert grown[if r.swapped && k == r.originalIndex then |orders| else k] == o;
      }
      assert grown[r.originalIndex] == r.order;
    }
  }

  /** The entry checks of a restoration turn the record down. */
  predicate Refuses(orders: seq<LimitOrder>, r: Removal) {
    r.indexNode.None? || Slot(orders, r.order.id).Some? || r.KeyNode().None? ||
    (r.swapped && (r.originalIndex >= |orders| || orders[r.originalIndex].id != r.swappedId))
  }

  lemma RestorableAccepted(orders: seq<LimitOrder>, r: Removal)
    requires Restorable(orders, r)
    ensures !Refuses(orders, r) && r.Genuine() && (r.swapped || r.originalIndex == |orders|)
  {
  }

  /** What a restoration meets in indexes that are right, and whether it leaves them right. */
  lemma CheckedAgainstVector(orders: seq<LimitOrder>, indices: map<nat, nat>, buyKeys: set<Key>, sellKeys: set<Key>,
                             r: Removal)
    requires Consistent(orders, indices, buyKeys, sellKeys)
    ensures r.order.id in indices <==> Slot(orders, r.order.id).Some?
    ensures (if r.order.side.Buy? then buyKeys else sellKeys) == KeysOf(orders, r.order.side)
    ensures r.swapped && !Refuses(orders, r) ==> r.swappedId in indices
    ensures !Refuses(orders, r) && r.Genuine() ==>
            KeyOf(r.order) !in KeysOf(orders, r.order.side) &&
            var restored := indices[r.order.id := r.originalIndex];
            (Consistent(Restored(orders, r),
                        if r.swapped then restored[r.swappedId := |orders|] else restored,
                        if r.order.side.Buy? then buyKeys + {KeyOf(r.order)} else buyKeys,
                        if r.order.side.Buy? then sellKeys else sellKeys + {KeyOf(r.order)}) <==>
             r.swapped || r.originalIndex == |orders|)
  {
    hide KeysOf;
    if !Refuses(orders, r) && r.Genuine() {
      NoKeyWithoutOrder(orders, r.order);
      if r.swapped || r.originalIndex == |orders| {
        RestoreConsistent(orders, indices, buyKeys, sellKeys, r);
      } else {
        assert Restored(orders, r)[|orders|] == r.order;
      }
    }
  }

  lemma NoKeyWithoutOrder(orders: seq<LimitOrder>, o: LimitOrder)
    requires Slot(orders, o.id).None?
    ensures KeyOf(o) !in KeysOf(orders, o.side)
  {
  }

  /** Rewriting an order in place without touching its id or side. */
  lemma RewriteConsistent(orders: seq<LimitOrder>, indices: map<nat, nat>, buyKeys: set<Key>, sellKeys: set<Key>,
                          i: nat, o: LimitOrder)
    requires Consistent(orders, indices, buyKeys, sellKeys) && i < |orders|
    requires o.id == orders[i].id && o.side == orders[i].side
    ensures KeyOf(orders[i]) in (if o.side.Buy? then buyKeys else sellKeys)
    ensures KeyOf(o) != KeyOf(orders[i]) ==> KeyOf(o) !in (if o.side.Buy? then buyKeys else sellKeys)
    ensures Consistent(orders[i := o], indices,
                       if o.side.Buy? then buyKeys - {KeyOf(orders[i])} + {KeyOf(o)} else buyKeys,
                       if o.side.Buy? then sellKeys else sellKeys - {KeyOf(orders[i])} + {KeyOf(o)})
  {
    forall x: LimitOrder ensures x in orders[i := o] <==> x == o || (x in orders && x.id != o.id) {
      if x in orders {
        var k :| 0 <= k < |orders| && orders[k] == x;
        assert k != i ==> orders[i := o][k] == x;
      }
      if x in orders[i := o] {
        var k :| 0 <= k < |orders| && orders[i := o][k] == x;
        assert k != i ==> orders[k] == x && orders[k].id != orders[i].id;
      }
      assert orders[i := o][i] == o;
    }
    assert orders[i] in orders;
  }

  class OrderManager {
    var orders: seq<LimitOrder>
    var indices: map<nat, nat>
    var buyKeys: set<Key>
    var sellKeys: set<Key>

    ghost predicate Valid()
      reads this
    {
      Consistent(orders, indices, buyKeys, sellKeys)
    }

    constructor ()
      ensures Valid() && orders == []
    {
      orders, indices, buyKeys, sellKeys := [], map[], {}, {};
    }

    /** A slot stands for the pointer the program returns. */
    function Find(id: nat): (r: Option<nat>)
      requires Valid()
      reads this
      ensures r == Slot(orders, id)
    {
      if id in indices then
        SlotUnique(orders, indices[id]);
        Some(indices[id])
      else
        assert forall i :: 0 <= i < |orders| ==> orders[i].id in indices;
        None
    }

    /** `best_buy_order` and `best_sell_order`: the head of the priority set is the linear-scan optimum. */
    function BestOrder(side: Side): (r: Option<nat>)
      requires Valid()
      reads this
      ensures r == Best(orders, side)
    {
      var keys := if side.Buy? then buyKeys else sellKeys;
      if keys == {} then
        assert forall j :: 0 <= j < |orders| && orders[j].side == side ==> KeyOf(orders[j]) in keys;
        None
      else
        var first := First(side, keys);
        FirstIsBest(orders, indices, side, first);
        BestUnique(orders, side, indices[first.id]);
        Find(first.id)
    }

    method AddOrder(order: LimitOrder, memory: Memory) returns (r: Result<()>)
      requires Valid()
      modifies this, memory
      ensures Valid()
      ensures r.Ok? ==> orders == old(orders) + [order]
      ensures r.Err? ==> orders == old(orders)
      ensures r == Err(InvalidArgument) <==>
              order.id == 0 || order.price <= 0 || order.remaining <= 0 || order.remaining > order.original ||
              order.sequence == 0 || Slot(old(orders), order.id).Some?
      ensures r.Ok? || r.error == InvalidArgument || r.error == OutOfMemory(Storage)
      ensures memory.Unlimited() ==> r != Err(OutOfMemory(Storage))
    {
      hide Consistent, Slot;
      if !Admissible(order) {
        return Err(InvalidArgument);
      }
      if order.id in indices {
        assert Find(order.id).Some?;
        return Err(InvalidArgument);
      }
      assert Find(order.id).None?;
      ghost var before := orders;
      PushConsistent(orders, indices, buyKeys, sellKeys, order);
      var pushed := memory.Allocate();
      if !pushed {
        return Err(OutOfMemory(Storage));
      }
      orders := orders + [order];
      var indexed := memory.Allocate();
      if !indexed {
        orders := orders[..|orders| - 1];
        assert orders == before;
        return Err(OutOfMemory(Storage));
      }
      indices := indices[order.id := |orders| - 1];
      var key := KeyOf(order);
      var ranked := memory.Allocate();
      if !ranked || key in (if order.side.Buy? then buyKeys else sellKeys) {
        indices := indices - {order.id};
        orders := orders[..|orders| - 1];
        assert orders == before;
        return Err(if ranked then LogicError else OutOfMemory(Storage));
      }
      if order.side.Buy? {
        buyKeys := buyKeys + {key};
      } else {
        sellKeys := sellKeys + {key};
      }
      return Ok(());
    }

    method CancelOrder(id: nat) returns (r: Result<bool>)
      requires Valid()
      modifies this
      ensures Valid()
      ensures r == Ok(Slot(old(orders), id).Some?)
      ensures orders == match Slot(old(orders), id) case Some(i) => RemoveAt(old(orders), i) case None => old(orders)
    {
      hide Consistent, Slot;
      assert Find(id) == Slot(orders, id);
      if id !in indices {
        return Ok(false);
      }
      var i, last := indices[id], |orders| - 1;
      RemoveConsistent(orders, indices, buyKeys, sellKeys, i);
      var order := orders[i];
      var key := KeyOf(order);
      if key !in (if order.side.Buy? then buyKeys else sellKeys) {
        return Err(LogicError);
      }
      if order.side.Buy? {
        buyKeys := buyKeys - {key};
      } else {
        sellKeys := sellKeys - {key};
      }
      if i != last {
        orders := orders[i := orders[last]];
        if orders[i].id !in indices {
          return Err(LogicError);
        }
        indices := indices[orders[i].id := i];
      }
      orders := orders[..last];
      indices := indices - {id};
      assert orders == RemoveAt(old(orders), i);
      return Ok(true);
    }

    /** The transactional overload: the same removal, leaving a record from which it can be undone. */
    method RemoveOrder(id: nat) returns (r: Result<bool>, removal: Removal)
      requires Valid()
      modifies this
      ensures Valid()
      ensures r == Ok(Slot(old(orders), id).Some?)
      ensures match Slot(old(orders), id)
              case Some(i) => orders == RemoveAt(old(orders), i) && removal == RemovalOf(old(orders), i)
              case None => orders == old(orders)
    {
      hide Consistent, Slot;
      removal := NO_REMOVAL;
      assert Find(id) == Slot(orders, id);
      if id !in indices {
        return Ok(false), removal;
      }
      var i, last := indices[id], |orders| - 1;
      RemoveConsistent(orders, indices, buyKeys, sellKeys, i);
      var order := orders[i];
      var key := KeyOf(order);
      removal := removal.(order := order, originalIndex := i, swapped := i != last,
                          swappedId := if i != last then orders[last].id else 0);
      if key !in (if order.side.Buy? then buyKeys else sellKeys) {
        return Err(LogicError), removal;
      }
      if order.side.Buy? {
        buyKeys := buyKeys - {key};
        removal := removal.(buyNode := Some(key));
      } else {
        sellKeys := sellKeys - {key};
        removal := removal.(sellNode := Some(key));
      }
      if removal.swapped {
        orders := orders[i := orders[last]];
        if orders[i].id !in indices {
          return Err(LogicError), removal;
        }
        indices := indices[orders[i].id := i];
      }
      orders := orders[..last];
      indices := indices - {id};
      removal := removal.(indexNode := Some(id));
      assert orders == RemoveAt(old(orders), i);
      return Ok(true), removal;
    }

    /** A record refused by the entry checks changes nothing, and neither does a spent one. Past them the vector always
        changes. A genuine record is then restored and spent, and the indexes are right exactly when a record without a
        swap was restored at the end it was taken from, which the program does not check. */
    method RestoreRemoval(removal: Removal) returns (r: Result<()>, spent: Removal)
      requires Valid()
      modifies this
      ensures Refuses(old(orders), removal) ==>
              r == Err(LogicError) && spent == removal && Valid() && orders == old(orders)
      ensures !Refuses(old(orders), removal) ==> orders == Restored(old(orders), removal) && Refuses(orders, spent)
      ensures r.Ok? <==> !Refuses(old(orders), removal) && removal.indexNode.value !in old(indices) &&
                         removal.KeyNode().value !in KeysOf(old(orders), removal.order.side)
      ensures !Refuses(old(orders), removal) && removal.Genuine() ==>
              r.Ok? && spent == removal.Spent() &&
              (Valid() <==> removal.swapped || removal.originalIndex == |old(orders)|)
    {
      hide Consistent, Slot, KeysOf;
      spent := removal;
      CheckedAgainstVector(orders, indices, buyKeys, sellKeys, removal);
      if removal.indexNode.None? {
        return Err(LogicError), spent;
      }
      if removal.order.id in indices {
        return Err(LogicError), spent;
      }
      if removal.KeyNode().None? {
        return Err(LogicError), spent;
      }
      var last := |orders|;
      orders := orders + [removal.order];
      if removal.swapped {
        if removal.originalIndex >= last || orders[removal.originalIndex].id != removal.swappedId {
          orders := orders[..last];
          assert orders == old(orders);
          return Err(LogicError), spent;
        }
        orders := orders[removal.originalIndex := orders[last]][last := orders[removal.originalIndex]];
      }
      assert orders == Restored(old(orders), removal);
      spent := spent.(indexNode := None);
      if removal.indexNode.value in indices {
        return Err(LogicError), spent;
      }
      indices := indices[removal.indexNode.value := removal.originalIndex];
      var key := removal.KeyNode().value;
      spent := removal.Spent();
      if key in (if removal.order.side.Buy? then buyKeys else sellKeys) {
        return Err(LogicError), spent;
      }
      if removal.order.side.Buy? {
        buyKeys := buyKeys + {key};
      } else {
        sellKeys := sellKeys + {key};
      }
      if !removal.swapped {
        return Ok(()), spent;
      }
      if removal.swappedId !in indices {
        return Err(LogicError), spent;
      }
      indices := indices[removal.swappedId := last];
      return Ok(()), spent;
    }

    method UpdateSequence(id: nat, sequence: nat, memory: Memory) returns (r: Result<bool>)
      requires Valid()
      modifies this, memory
      ensures Valid()
      ensures r == Err(InvalidArgument) <==> sequence == 0
      ensures r.Err? ==> orders == old(orders) && (r.error == InvalidArgument || r.error == OutOfMemory(Storage))
      ensures r.Ok? ==> r.value == Slot(old(orders), id).Some?
      ensures r.Ok? ==> orders == match Slot(old(orders), id)
                                  case Some(i) => old(orders)[i := old(orders)[i].(sequence := sequence)]
                                  case None => old(orders)
      ensures memory.Unlimited() ==> r != Err(OutOfMemory(Storage))
    {
      hide Consistent, Slot;
      if sequence == 0 {
        return Err(InvalidArgument);
      }
      var slot := Find(id);
      if slot.None? {
        return Ok(false);
      }
      var i := slot.value;
      if orders[i].sequence == sequence {
        assert orders[i := orders[i].(sequence := sequence)] == orders;
        return Ok(true);
      }
      var order := orders[i];
      var oldKey := KeyOf(order);
      var newKey := oldKey.(sequence := sequence);
      RewriteConsistent(orders, indices, buyKeys, sellKeys, i, order.(sequence := sequence));
      var inserted := memory.Allocate();
      if !inserted {
        return Err(OutOfMemory(Storage));
      }
      var keys := if order.side.Buy? then buyKeys else sellKeys;
      if newKey in keys || oldKey !in keys {
        return Err(LogicError);
      }
      if order.side.Buy? {
        buyKeys := buyKeys + {newKey} - {oldKey};
        assert buyKeys == old(buyKeys) - {oldKey} + {newKey};
      } else {
        sellKeys := sellKeys + {newKey} - {oldKey};
        assert sellKeys == old(sellKeys) - {oldKey} + {newKey};
      }
      orders := orders[i := order.(sequence := sequence)];
      return Ok(true);
    }

    /** Writes made through the pointer returned by `find_order`. */
    method SetQuantities(i: nat, original: int, remaining: int)
      requires Valid() && i < |orders|
      modifies this`orders
      ensures Valid()
      ensures orders == old(orders)[i := old(orders)[i].(original := original, remaining := remaining)]
    {
      var order := orders[i].(original := original, remaining := remaining);
      RewriteConsistent(orders, indices, buyKeys, sellKeys, i, order);
      assert buyKeys - {KeyOf(orders[i])} + {KeyOf(order)} == buyKeys || order.side.Sell?;
      assert sellKeys - {KeyOf(orders[i])} + {KeyOf(order)} == sellKeys || order.side.Buy?;
      orders := orders[i := order];
    }
  }
}
