/** Price-time priority as a list: one side's orders sorted by the comparator, and how vector updates move it. */
module Queues {
  import opened Types
  import opened Orders

  ghost predicate SortedQueue(side: Side, q: seq<LimitOrder>) {
    forall i, j :: 0 <= i < j < |q| ==> Precedes(side, KeyOf(q[i]), KeyOf(q[j]))
  }

  function Insert(side: Side, q: seq<LimitOrder>, o: LimitOrder): seq<LimitOrder> {
    if q == [] || Precedes(side, KeyOf(o), KeyOf(q[0])) then [o] + q
    else [q[0]] + Insert(side, q[1..], o)
  }

  /** One side of the vector in priority order. */
  function Queue(orders: seq<LimitOrder>, side: Side): seq<LimitOrder> {
    if orders == [] then []
    else
      var last := |orders| - 1;
      var q := Queue(orders[..last], side);
      if orders[last].side == side then Insert(side, q, orders[last]) else q
  }

  lemma {:induction false} InsertMembers(side: Side, q: seq<LimitOrder>, o: LimitOrder, x: LimitOrder)
    ensures x in Insert(side, q, o) <==> x == o || x in q
  {
    if !(q == [] || Precedes(side, KeyOf(o), KeyOf(q[0]))) {
      InsertMembers(side, q[1..], o, x);
    }
  }

  lemma {:induction false} InsertSorted(side: Side, q: seq<LimitOrder>, o: LimitOrder)
    requires SortedQueue(side, q) && forall i :: 0 <= i < |q| ==> q[i].id != o.id
    ensures SortedQueue(side, Insert(side, q, o))
  {
    if !(q == [] || Precedes(side, KeyOf(o), KeyOf(q[0]))) {
      InsertSorted(side, q[1..], o);
      var rest := Insert(side, q[1..], o);
      forall j | 0 <= j < |rest| ensures Precedes(side, KeyOf(q[0]), KeyOf(rest[j])) {
        InsertMembers(side, q[1..], o, rest[j]);
      }
    }
  }

  /** `q` lists exactly one side of the vector in priority order. */
  ghost predicate IsQueue(q: seq<LimitOrder>, orders: seq<LimitOrder>, side: Side) {
    SortedQueue(side, q) && forall o :: o in q <==> o in orders && o.side == side
  }

  lemma {:induction false} QueueIsQueue(orders: seq<LimitOrder>, side: Side)
    requires DistinctIds(orders)
    ensures IsQueue(Queue(orders, side), orders, side)
  {
    if orders != [] {
      var last := |orders| - 1;
      var init := orders[..last];
      QueueIsQueue(init, side);
      var q := Queue(init, side);
      forall x: LimitOrder ensures x in orders <==> x in init || x == orders[last] {
        assert orders == init + [orders[last]];
      }
      if orders[last].side == side {
        forall i | 0 <= i < |q| ensures q[i].id != orders[last].id {
          assert q[i] in init;
        }
        InsertSorted(side, q, orders[last]);
        forall x: LimitOrder ensures x in Queue(orders, side) <==> x == orders[last] || x in q {
          InsertMembers(side, q, orders[last], x);
        }
      }
    }
  }

  /** Strict priority leaves no choice: two sorted lists of the same orders are the same list. */
  lemma {:induction false} SortedUnique(side: Side, a: seq<LimitOrder>, b: seq<LimitOrder>)
    requires SortedQueue(side, a) && SortedQueue(side, b)
    requires forall o :: o in a <==> o in b
    ensures a == b
  {
    assert b == [] || b[0] in b;
    if a != [] {
      assert a[0] in b && b[0] in a;
      assert a[0] == b[0];
      forall o: LimitOrder ensures o in a[1..] <==> o in b[1..] {
        TailMembers(side, a, o);
        TailMembers(side, b, o);
      }
      SortedUnique(side, a[1..], b[1..]);
      assert a == [a[0]] + a[1..] && b == [b[0]] + b[1..];
    }
  }

  lemma TailMembers(side: Side, q: seq<LimitOrder>, o: LimitOrder)
    requires SortedQueue(side, q) && q != []
    ensures o in q[1..] <==> o in q && o != q[0]
  {
    if o in q && o != q[0] {
      var k :| 0 <= k < |q| && q[k] == o;
      assert q[1..][k - 1] == o;
    }
    if o in q[1..] {
      var k :| 0 <= k < |q[1..]| && q[1..][k] == o;
      assert Precedes(side, KeyOf(q[0]), KeyOf(q[k + 1]));
    }
  }

  lemma QueueUnique(q: seq<LimitOrder>, orders: seq<LimitOrder>, side: Side)
    requires DistinctIds(orders) && IsQueue(q, orders, side)
    ensures q == Queue(orders, side)
  {
    QueueIsQueue(orders, side);
    SortedUnique(side, q, Queue(orders, side));
  }

  /** The head of the queue is the best order. */
  lemma QueueHead(orders: seq<LimitOrder>, side: Side)
    requires DistinctIds(orders)
    ensures Queue(orders, side) == [] <==> Best(orders, side).None?
    ensures Best(orders, side).Some? ==> Queue(orders, side)[0] == orders[Best(orders, side).value]
  {
    QueueIsQueue(orders, side);
    BestIsBest(orders, side);
    var q := Queue(orders, side);
    assert q == [] || q[0] in q;
    if Best(orders, side).Some? {
      assert orders[Best(orders, side).value] in q;
    }
  }

  /** Removing any order, in spite of the swap in the vector, only closes its gap in the queue. */
  lemma QueueRemove(orders: seq<LimitOrder>, i: nat, k: nat)
    requires DistinctIds(orders) && i < |orders|
    requires k < |Queue(orders, orders[i].side)| && Queue(orders, orders[i].side)[k] == orders[i]
    ensures var side := orders[i].side; var q := Queue(orders, side);
            Queue(RemoveAt(orders, i), side) == q[..k] + q[k + 1..] &&
            Queue(RemoveAt(orders, i), side.Opposite()) == Queue(orders, side.Opposite())
  {
    var side := orders[i].side;
    var q := Queue(orders, side);
    RemoveAtContents(orders, i);
    QueueIsQueue(orders, side);
    QueueIsQueue(orders, side.Opposite());
    var gap := q[..k] + q[k + 1..];
    forall o: LimitOrder ensures o in gap <==> o in q && o.id != orders[i].id {
      GapMembers(side, q, k, o);
      if o in q {
        SameIdSameOrder(orders, o, orders[i]);
      }
    }
    QueueUnique(gap, RemoveAt(orders, i), side);
    forall o | o in Queue(orders, side.Opposite()) ensures o.id != orders[i].id {
      SameIdSameOrder(orders, o, orders[i]);
    }
    QueueUnique(Queue(orders, side.Opposite()), RemoveAt(orders, i), side.Opposite());
  }

  lemma SameIdSameOrder(orders: seq<LimitOrder>, a: LimitOrder, b: LimitOrder)
    requires DistinctIds(orders) && a in orders && b in orders
    ensures a.id == b.id ==> a == b
  {
  }

  lemma GapMembers(side: Side, q: seq<LimitOrder>, k: nat, o: LimitOrder)
    requires SortedQueue(side, q) && k < |q|
    ensures o in q[..k] + q[k + 1..] <==> o in q && o != q[k]
  {
    var gap := q[..k] + q[k + 1..];
    if o in q && o != q[k] {
      var j :| 0 <= j < |q| && q[j] == o;
      assert gap[if j < k then j else j - 1] == o;
    }
    if o in gap {
      var j :| 0 <= j < |gap| && gap[j] == o;
      assert o == q[if j < k then j else j + 1];
      assert Precedes(side, KeyOf(o), KeyOf(q[k])) || Precedes(side, KeyOf(q[k]), KeyOf(o));
    }
  }

  /** Rewriting quantities only keeps the order's place. */
  lemma QueueRewrite(orders: seq<LimitOrder>, i: nat, k: nat, o: LimitOrder)
    requires DistinctIds(orders) && i < |orders| && KeyOf(o) == KeyOf(orders[i]) && o.side == orders[i].side
    requires k < |Queue(orders, o.side)| && Queue(orders, o.side)[k] == orders[i]
    ensures Queue(orders[i := o], o.side) == Queue(orders, o.side)[k := o]
    ensures Queue(orders[i := o], o.side.Opposite()) == Queue(orders, o.side.Opposite())
  {
    var side := o.side;
    var q := Queue(orders, side);
    QueueIsQueue(orders, side);
    QueueIsQueue(orders, side.Opposite());
    forall x: LimitOrder ensures x in orders[i := o] <==> x == o || (x in orders && x.id != o.id) {
      UpdateMembers(orders, i, o, x);
    }
    forall x: LimitOrder ensures x in q[k := o] <==> x == o || (x in q && x.id != o.id) {
      QueueUpdateMembers(side, orders, q, k, o, x);
    }
    QueueUnique(q[k := o], orders[i := o], side);
    forall x | x in Queue(orders, side.Opposite()) ensures x.id != o.id {
      SameIdSameOrder(orders, x, orders[i]);
    }
    QueueUnique(Queue(orders, side.Opposite()), orders[i := o], side.Opposite());
  }

  lemma UpdateMembers(orders: seq<LimitOrder>, i: nat, o: LimitOrder, x: LimitOrder)
    requires DistinctIds(orders) && i < |orders| && o.id == orders[i].id
    ensures x in orders[i := o] <==> x == o || (x in orders && x.id != o.id)
  {
    if x in orders && x.id != o.id {
      var j :| 0 <= j < |orders| && orders[j] == x;
      assert orders[i := o][j] == x;
    }
    assert orders[i := o][i] == o;
  }

  lemma QueueUpdateMembers(side: Side, orders: seq<LimitOrder>, q: seq<LimitOrder>, k: nat, o: LimitOrder,
                           x: LimitOrder)
    requires DistinctIds(orders) && IsQueue(q, orders, side) && k < |q| && o.id == q[k].id
    ensures x in q[k := o] <==> x == o || (x in q && x.id != o.id)
  {
    if x in q && x.id != o.id {
      var j :| 0 <= j < |q| && q[j] == x;
      assert q[k := o][j] == x;
    }
    if x in q[k := o] && x != o {
      var j :| 0 <= j < |q| && q[k := o][j] == x;
      assert j != k && x == q[j];
      assert q[j] in orders && q[k] in orders;
      SameIdSameOrder(orders, q[j], q[k]);
      assert Precedes(side, KeyOf(q[j]), KeyOf(q[k])) || Precedes(side, KeyOf(q[k]), KeyOf(q[j]));
    }
    assert q[k := o][k] == o;
  }
}
