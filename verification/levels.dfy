/** OrderBook.Orders and OrderBook.OrdersStats: one price level's FIFO list and its running totals. */
module Levels {
  import opened Orders

  /** OrdersStats: the running totals, updated by deltas and never recomputed. */
  datatype Stats = Stats(totalQuantity: int, totalVolume: int)

  /** Orders: the level's statistics and its orders, oldest first. */
  datatype Level = Level(stats: Stats, orders: seq<Order>)

  /** Sum of the quantities of the first `n` orders. */
  function QuantityUpTo(os: seq<Order>, n: nat): int
    requires n <= |os|
  {
    if n == 0 then 0 else QuantityUpTo(os, n - 1) + os[n - 1].quantity
  }

  /** Sum of quantity times price over the first `n` orders. */
  function VolumeUpTo(os: seq<Order>, n: nat): int
    requires n <= |os|
  {
    if n == 0 then 0 else VolumeUpTo(os, n - 1) + os[n - 1].quantity * os[n - 1].price
  }

  /** Sum of the quantities of a list of orders. */
  function SumQuantity(os: seq<Order>): int {
    QuantityUpTo(os, |os|)
  }

  /** Sum of quantity times price over a list of orders. */
  function SumVolume(os: seq<Order>): int {
    VolumeUpTo(os, |os|)
  }

  /** The statistics a list of orders must carry: its totals computed from scratch. */
  function Tally(os: seq<Order>): Stats {
    Stats(SumQuantity(os), SumVolume(os))
  }

  /** The running totals agree with the list they summarise. */
  predicate Consistent(l: Level) {
    l.stats == Tally(l.orders)
  }

  /** The id of the order at position `i`. */
  function IdAt(os: seq<Order>, i: int): string
    requires 0 <= i < |os|
  {
    os[i].orderId
  }

  /**
   * No order id appears twice in the list. The pairwise fact is only drawn for
   * positions whose ids a proof names through IdAt.
   */
  predicate DistinctIds(os: seq<Order>) {
    forall i, j {:trigger IdAt(os, i), IdAt(os, j)} :: 0 <= i < j < |os| ==> IdAt(os, i) != IdAt(os, j)
  }

  /** The partial sums of a list do not look past the positions they cover. */
  lemma {:induction false} UpToPrefix(a: seq<Order>, b: seq<Order>, n: nat)
    requires n <= |a|
    ensures QuantityUpTo(a + b, n) == QuantityUpTo(a, n)
    ensures VolumeUpTo(a + b, n) == VolumeUpTo(a, n)
  {
    if n > 0 {
      UpToPrefix(a, b, n - 1);
      assert (a + b)[n - 1] == a[n - 1];
    }
  }

  /** The partial sums of a concatenation past its first part add the first part's totals. */
  lemma {:induction false} UpToConcat(a: seq<Order>, b: seq<Order>, k: nat)
    requires k <= |b|
    ensures QuantityUpTo(a + b, |a| + k) == SumQuantity(a) + QuantityUpTo(b, k)
    ensures VolumeUpTo(a + b, |a| + k) == SumVolume(a) + VolumeUpTo(b, k)
  {
    if k == 0 {
      UpToPrefix(a, b, |a|);
    } else {
      UpToConcat(a, b, k - 1);
      assert (a + b)[|a| + k - 1] == b[k - 1];
    }
  }

  /** The totals of a concatenation are the sums of the totals. */
  lemma TallyConcat(a: seq<Order>, b: seq<Order>)
    ensures SumQuantity(a + b) == SumQuantity(a) + SumQuantity(b)
    ensures SumVolume(a + b) == SumVolume(a) + SumVolume(b)
  {
    UpToConcat(a, b, |b|);
  }

  /** The totals of a one-order list are that order's. */
  lemma TallySingle(x: Order)
    ensures SumQuantity([x]) == x.quantity && SumVolume([x]) == x.quantity * x.price
  {
    assert QuantityUpTo([x], 1) == QuantityUpTo([x], 0) + x.quantity;
    assert VolumeUpTo([x], 1) == VolumeUpTo([x], 0) + x.quantity * x.price;
  }

  /** The totals of a list split around index `i`. */
  lemma TallySplit(os: seq<Order>, i: nat)
    requires i < |os|
    ensures SumQuantity(os) == SumQuantity(os[..i]) + os[i].quantity + SumQuantity(os[i + 1..])
    ensures SumVolume(os) == SumVolume(os[..i]) + os[i].quantity * os[i].price + SumVolume(os[i + 1..])
  {
    assert os == os[..i] + [os[i]] + os[i + 1..];
    TallyConcat(os[..i] + [os[i]], os[i + 1..]);
    TallyConcat(os[..i], [os[i]]);
    TallySingle(os[i]);
  }

  /** Within one level every order has the level's price, so volume is price times quantity. */
  lemma VolumeIsPriceTimesQuantity(os: seq<Order>, price: int)
    requires forall o :: o in os ==> o.price == price
    ensures SumVolume(os) == price * SumQuantity(os)
  {
    VolumeUpToIsPriceTimesQuantity(os, price, |os|);
  }

  /** The partial-sum form of VolumeIsPriceTimesQuantity. */
  lemma {:induction false} VolumeUpToIsPriceTimesQuantity(os: seq<Order>, price: int, n: nat)
    requires n <= |os| && forall o :: o in os ==> o.price == price
    ensures VolumeUpTo(os, n) == price * QuantityUpTo(os, n)
  {
    if n > 0 {
      VolumeUpToIsPriceTimesQuantity(os, price, n - 1);
      assert os[n - 1] in os;
    }
  }

  /** OrdersStats.add. */
  function AddStats(s: Stats, o: Order): Stats {
    Stats(s.totalQuantity + o.quantity, s.totalVolume + o.quantity * o.price)
  }

  /** OrdersStats.remove. */
  function RemoveStats(s: Stats, o: Order): Stats {
    Stats(s.totalQuantity - o.quantity, s.totalVolume - o.quantity * o.price)
  }

  /** The Orders(order) constructor: a level holding one order. */
  function NewLevel(o: Order): Level {
    Level(AddStats(Stats(0, 0), o), [o])
  }

  /** A new level's totals are those of its one order. */
  lemma NewLevelConsistent(o: Order)
    ensures NewLevel(o).orders == [o] && Consistent(NewLevel(o))
  {
    TallySingle(o);
  }

  /** Orders.add: appends at the tail and adds the order's totals. */
  function Append(l: Level, o: Order): Level {
    Level(AddStats(l.stats, o), l.orders + [o])
  }

  /** Adding the appended order's totals keeps the running totals in step with the list. */
  lemma AppendConsistent(l: Level, o: Order)
    requires Consistent(l)
    ensures Append(l, o).orders == l.orders + [o] && Consistent(Append(l, o))
  {
    TallyConcat(l.orders, [o]);
    TallySingle(o);
  }

  /** `removeIf(o -> o.getOrderId().equals(id))`: every order with that id, dropped in place. */
  function WithoutId(os: seq<Order>, id: string): (r: seq<Order>)
    ensures forall o :: o in r <==> o in os && o.orderId != id
    ensures |r| <= |os|
  {
    if os == [] then []
    else (if os[0].orderId == id then [] else [os[0]]) + WithoutId(os[1..], id)
  }

  /** Dropping an id no listed order carries changes nothing. */
  lemma {:induction false} WithoutAbsentId(os: seq<Order>, id: string)
    requires forall o :: o in os ==> o.orderId != id
    ensures WithoutId(os, id) == os
  {
    if os != [] {
      assert os[0] in os;
      WithoutAbsentId(os[1..], id);
    }
  }

  /** With distinct ids, the tail has distinct ids and none of them is the head's. */
  lemma DistinctTail(os: seq<Order>)
    requires DistinctIds(os) && os != []
    ensures DistinctIds(os[1..])
    ensures forall y :: y in os[1..] ==> y.orderId != os[0].orderId
  {
    forall i, j | 0 <= i < j < |os[1..]|
      ensures IdAt(os[1..], i) != IdAt(os[1..], j)
    {
      assert IdAt(os[1..], i) == IdAt(os, i + 1) && IdAt(os[1..], j) == IdAt(os, j + 1);
    }
    forall y | y in os[1..]
      ensures y.orderId != os[0].orderId
    {
      var j :| 0 <= j < |os[1..]| && os[1..][j] == y;
      assert IdAt(os, 0) != IdAt(os, j + 1);
    }
  }

  /** Putting an order whose id is new in front of a list with distinct ids keeps them distinct. */
  lemma DistinctCons(x: Order, rest: seq<Order>)
    requires DistinctIds(rest) && forall y :: y in rest ==> y.orderId != x.orderId
    ensures DistinctIds([x] + rest)
  {
    forall i, j | 0 <= i < j < |[x] + rest|
      ensures IdAt([x] + rest, i) != IdAt([x] + rest, j)
    {
      assert ([x] + rest)[j] == rest[j - 1];
      if i == 0 {
        assert rest[j - 1] in rest;
      } else {
        assert ([x] + rest)[i] == rest[i - 1];
        assert IdAt(rest, i - 1) != IdAt(rest, j - 1);
      }
    }
  }

  /** Putting the head back in front of the tail with position `i - 1` dropped drops position `i`. */
  lemma ConsDropped(os: seq<Order>, i: nat)
    requires 0 < i < |os|
    ensures [os[0]] + (os[1..][..i - 1] + os[1..][i..]) == os[..i] + os[i + 1..]
  {
    assert os[1..][..i - 1] == os[1..i];
    assert os[1..][i..] == os[i + 1..];
    assert [os[0]] + os[1..i] == os[..i];
  }

  /** No order other than the one at position `i` carries that order's id. */
  predicate UniqueAt(os: seq<Order>, i: nat) {
    i < |os| && forall j :: 0 <= j < |os| && j != i ==> os[j].orderId != os[i].orderId
  }

  /** With distinct ids, every position holds the only order carrying its id. */
  lemma DistinctUnique(os: seq<Order>, i: nat)
    requires DistinctIds(os) && i < |os|
    ensures UniqueAt(os, i)
  {
    forall j | 0 <= j < |os| && j != i
      ensures os[j].orderId != os[i].orderId
    {
      if j < i {
        assert IdAt(os, j) != IdAt(os, i);
      } else {
        assert IdAt(os, i) != IdAt(os, j);
      }
    }
  }

  /** Dropping the id of the only order carrying it removes exactly that position. */
  lemma {:induction false} WithoutUniqueAt(os: seq<Order>, i: nat)
    requires UniqueAt(os, i)
    ensures WithoutId(os, os[i].orderId) == os[..i] + os[i + 1..]
    decreases i
  {
    var id := os[i].orderId;
    if i == 0 {
      forall y | y in os[1..]
        ensures y.orderId != id
      {
        var j :| 0 <= j < |os[1..]| && os[1..][j] == y;
        assert os[j + 1] == y;
      }
      WithoutAbsentId(os[1..], id);
      assert WithoutId(os, id) == [] + os[1..];
    } else {
      assert os[0].orderId != id;
      assert os[1..][i - 1] == os[i];
      forall j | 0 <= j < |os[1..]| && j != i - 1
        ensures os[1..][j].orderId != os[1..][i - 1].orderId
      {
        assert os[1..][j] == os[j + 1];
      }
      WithoutUniqueAt(os[1..], i - 1);
      assert WithoutId(os, id) == [os[0]] + (os[1..][..i - 1] + os[1..][i..]);
      ConsDropped(os, i);
    }
  }

  /** With distinct ids, dropping the id of the order at `i` removes exactly that position. */
  lemma WithoutIdAt(os: seq<Order>, i: nat)
    requires DistinctIds(os) && i < |os|
    ensures WithoutId(os, os[i].orderId) == os[..i] + os[i + 1..]
  {
    DistinctUnique(os, i);
    WithoutUniqueAt(os, i);
  }

  /** The totals of a list without position `i` are the list's totals less that order's. */
  lemma TallyDropped(os: seq<Order>, i: nat)
    requires i < |os|
    ensures Tally(os[..i] + os[i + 1..]) == RemoveStats(Tally(os), os[i])
  {
    TallySplit(os, i);
    TallyConcat(os[..i], os[i + 1..]);
  }

  /** Dropping a listed order's id subtracts exactly that order's totals. */
  lemma TallyWithoutId(os: seq<Order>, o: Order)
    requires DistinctIds(os) && o in os
    ensures Tally(WithoutId(os, o.orderId)) == RemoveStats(Tally(os), o)
  {
    var i :| 0 <= i < |os| && os[i] == o;
    WithoutIdAt(os, i);
    TallyDropped(os, i);
  }

  /** Orders.remove: drops the orders with the passed order's id, and subtracts the passed order's totals. */
  function Remove(l: Level, o: Order): Level {
    Level(RemoveStats(l.stats, o), WithoutId(l.orders, o.orderId))
  }

  /** Removing a listed order of a list with distinct ids keeps the running totals in step with the list. */
  lemma RemoveConsistent(l: Level, o: Order)
    requires Consistent(l) && DistinctIds(l.orders) && o in l.orders
    ensures Consistent(Remove(l, o))
  {
    TallyWithoutId(l.orders, o);
  }

  /** List.indexOf: the first position holding an order equal in all five fields, or -1. */
  function IndexOfOrder(os: seq<Order>, o: Order): (r: int)
    ensures -1 <= r < |os|
    ensures r == -1 <==> o !in os
    ensures r >= 0 ==> os[r] == o && forall j :: 0 <= j < r ==> os[j] != o
  {
    if os == [] then -1
    else if os[0] == o then 0
    else
      var k := IndexOfOrder(os[1..], o);
      if k == -1 then -1 else k + 1
  }

  /** modifyDown's in-place step: `set(index, newOrder)`, then subtract the old totals and add the new. */
  function ReplaceAt(l: Level, i: nat, previous: Order, revised: Order): Level
    requires i < |l.orders|
  {
    Level(AddStats(RemoveStats(l.stats, previous), revised), l.orders[i := revised])
  }

  /** Swapping the order at `i` for a revision, and its totals with it, keeps the running totals in step. */
  lemma ReplaceAtConsistent(l: Level, i: nat, previous: Order, revised: Order)
    requires i < |l.orders| && Consistent(l) && l.orders[i] == previous
    ensures Consistent(ReplaceAt(l, i, previous, revised))
  {
    var r := ReplaceAt(l, i, previous, revised);
    TallySplit(l.orders, i);
    TallySplit(r.orders, i);
    assert r.orders[..i] == l.orders[..i] && r.orders[i + 1..] == l.orders[i + 1..];
  }

  /** Appending an order whose id is new keeps the ids distinct. */
  lemma DistinctAppend(os: seq<Order>, o: Order)
    requires DistinctIds(os)
    requires forall x :: x in os ==> x.orderId != o.orderId
    ensures DistinctIds(os + [o])
  {
    forall i, j | 0 <= i < j < |os + [o]|
      ensures IdAt(os + [o], i) != IdAt(os + [o], j)
    {
      assert (os + [o])[i] == os[i];
      if j == |os| {
        assert os[i] in os;
      } else {
        assert (os + [o])[j] == os[j];
        assert IdAt(os, i) != IdAt(os, j);
      }
    }
  }

  /** removeIf keeps the ids distinct. */
  lemma {:induction false} DistinctWithoutId(os: seq<Order>, id: string)
    requires DistinctIds(os)
    ensures DistinctIds(WithoutId(os, id))
  {
    if os != [] {
      DistinctTail(os);
      DistinctWithoutId(os[1..], id);
      var rest := WithoutId(os[1..], id);
      if os[0].orderId != id {
        assert WithoutId(os, id) == [os[0]] + rest;
        DistinctCons(os[0], rest);
      } else {
        assert WithoutId(os, id) == [] + rest;
        assert [] + rest == rest;
      }
    }
  }

  /** Replacing an order by a revision with the same id keeps the ids distinct. */
  lemma DistinctReplace(os: seq<Order>, i: nat, o: Order)
    requires DistinctIds(os) && i < |os| && o.orderId == os[i].orderId
    ensures DistinctIds(os[i := o])
  {
    var r := os[i := o];
    forall k, j | 0 <= k < j < |r|
      ensures IdAt(r, k) != IdAt(r, j)
    {
      assert IdAt(r, k) == IdAt(os, k) && IdAt(r, j) == IdAt(os, j);
    }
  }

  /** Dropping the id of an order just appended, whose id the list did not carry, restores the list. */
  lemma WithoutAppended(os: seq<Order>, o: Order)
    requires DistinctIds(os) && forall x :: x in os ==> x.orderId != o.orderId
    ensures WithoutId(os + [o], o.orderId) == os
  {
    DistinctAppend(os, o);
    WithoutIdAt(os + [o], |os|);
    assert (os + [o])[..|os|] == os;
  }

  /** With distinct ids, an in-place revision lists the revision and every order whose id differs. */
  lemma ReplaceMembers(os: seq<Order>, i: nat, o: Order)
    requires DistinctIds(os) && i < |os| && o.orderId == os[i].orderId
    ensures forall x :: x in os[i := o] <==> x == o || (x in os && x.orderId != o.orderId)
  {
    forall x
      ensures x in os[i := o] <==> x == o || (x in os && x.orderId != o.orderId)
    {
      if x in os && x.orderId != o.orderId {
        var j :| 0 <= j < |os| && os[j] == x;
        assert os[i := o][j] == x;
      }
      if x in os[i := o] && x != o {
        var j :| 0 <= j < |os| && os[i := o][j] == x;
        assert j != i && os[j] == x;
        if j < i {
          assert IdAt(os, j) != IdAt(os, i);
        } else {
          assert IdAt(os, i) != IdAt(os, j);
        }
      }
      if x == o {
        assert os[i := o][i] == o;
      }
    }
  }
}
