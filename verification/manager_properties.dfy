/** Arrival order within a level, isolation of pairs, and the add/delete round trip. */
module ManagerProperties {
  import opened Wrappers
  import opened Validation
  import opened Orders
  import opened Levels
  import opened OrderBook
  import opened BookInvariants
  import opened BookManager
  import opened ManagerInvariants

  /** The list at the order's level in the book of its pair, as getOrdersAtLevel answers it. */
  function Queue(m: Manager, o: Order): seq<Order> {
    OrdersAt(View(m, o.instrument, o.side), o.price)
  }

  /** The list a live order sits in lists it once, at the position IndexOfOrder finds. */
  lemma QueuePosition(m: Manager, orderId: string)
    requires BookManager.Valid(m) && orderId in m.ordersById
    ensures var t := m.ordersById[orderId];
            var j := IndexOfOrder(Queue(m, t), t);
            && 0 <= j < |Queue(m, t)| && Queue(m, t)[j] == t && t.orderId == orderId
            && DistinctIds(Queue(m, t))
  {
    var t := m.ordersById[orderId];
    RestsHeld(m, t);
    var b := m.books[BookKey(t)];
    assert LevelValid(b.side, t.price, b.levels[t.price]);
  }

  /** Stored books other than the one at `key` are untouched, so every other pair reads the same. */
  lemma OtherPairsUnchanged(m: Manager, m': Manager, key: string)
    requires key in m'.books && m'.books == m.books[key := m'.books[key]]
    ensures forall i, s :: SideInstrumentKey(i, s) != key ==> View(m', i, s) == View(m, i, s)
  {
  }

  /** addOrder leaves every other (instrument, side) pair as it was. */
  lemma AddOrderIsolated(m: Manager, o: Order)
    requires AddOrder(m, Some(o)).Ok?
    ensures forall i, s :: SideInstrumentKey(i, s) != BookKey(o) ==> View(AddOrder(m, Some(o)).value, i, s) == View(m, i, s)
  {
    OtherPairsUnchanged(m, AddOrder(m, Some(o)).value, BookKey(o));
  }

  /** modifyOrder leaves every other (instrument, side) pair as it was. */
  lemma ModifyOrderIsolated(m: Manager, orderId: string, newQuantity: Long)
    requires BookManager.Valid(m) && ModifyOrder(m, Some(orderId), newQuantity).Ok?
    ensures forall i, s :: SideInstrumentKey(i, s) != BookKey(m.ordersById[orderId]) ==>
              View(ModifyOrder(m, Some(orderId), newQuantity).value.0, i, s) == View(m, i, s)
  {
    ModifyOrderOutcome(m, orderId, newQuantity);
    var r := ModifyOrder(m, Some(orderId), newQuantity).value;
    if r.1 {
      OtherPairsUnchanged(m, r.0, BookKey(m.ordersById[orderId]));
    }
  }

  /** deleteOrder leaves every other (instrument, side) pair as it was. */
  lemma DeleteOrderIsolated(m: Manager, orderId: string)
    requires LevelsCover(m) && DeleteOrder(m, Some(orderId)).Ok?
    ensures forall i, s :: SideInstrumentKey(i, s) != BookKey(m.ordersById[orderId]) ==>
              View(DeleteOrder(m, Some(orderId)).value.0, i, s) == View(m, i, s)
  {
    OtherPairsUnchanged(m, DeleteOrder(m, Some(orderId)).value.0, BookKey(m.ordersById[orderId]));
  }

  /** `after` is `before` with position `j` taken out and every other order in its old relative place. */
  predicate TakenOut(before: seq<Order>, after: seq<Order>, j: int) {
    0 <= j < |before| && after == before[..j] + before[j + 1..]
  }

  /** With distinct ids, dropping the id of the order at `j` is removing position `j`. */
  lemma DropAt(before: seq<Order>, after: seq<Order>, t: Order, j: int)
    requires DistinctIds(before) && 0 <= j < |before| && before[j] == t
    requires after == WithoutId(before, t.orderId)
    ensures TakenOut(before, after, j)
  {
    WithoutIdAt(before, j);
  }

  /** What modifyOrder does to the list of a live order whose quantity changes. */
  lemma ModifyOrderLists(m: Manager, orderId: string, newQuantity: Long)
    requires BookManager.Valid(m) && orderId in m.ordersById && newQuantity > 0
    requires newQuantity != m.ordersById[orderId].quantity
    ensures var t := m.ordersById[orderId];
            var n := t.(quantity := newQuantity);
            var r := ModifyOrder(m, Some(orderId), newQuantity);
            && r.Ok? && r.value.1
            && (newQuantity > t.quantity ==> Queue(r.value.0, t) == WithoutId(Queue(m, t), orderId) + [n])
            && (newQuantity < t.quantity ==> Queue(r.value.0, t) == Queue(m, t)[IndexOfOrder(Queue(m, t), t) := n])
  {
    var t := m.ordersById[orderId];
    RestsHeld(m, t);
    ModifyOrderOutcome(m, orderId, newQuantity);
    ModifyOrderUnfolds(m, orderId, newQuantity);
  }

  /** `after` is `before` with position `j` taken out and `n` appended at the tail. */
  predicate MovedToTail(before: seq<Order>, after: seq<Order>, j: int, n: Order) {
    0 <= j < |before| && after == before[..j] + before[j + 1..] + [n]
  }

  /** With distinct ids, dropping the id at `j` and appending `n` moves position `j` to a tail `n`. */
  lemma RequeueAt(before: seq<Order>, after: seq<Order>, t: Order, n: Order, j: int)
    requires DistinctIds(before) && 0 <= j < |before| && before[j] == t
    requires after == WithoutId(before, t.orderId) + [n]
    ensures MovedToTail(before, after, j, n)
  {
    WithoutIdAt(before, j);
  }

  /** Raising the quantity sends the revision to the tail: it leaves its position and every other order keeps its relative place. */
  lemma ModifyUpRequeues(m: Manager, orderId: string, newQuantity: Long)
    requires BookManager.Valid(m) && orderId in m.ordersById && newQuantity > m.ordersById[orderId].quantity
    ensures var t := m.ordersById[orderId];
            var r := ModifyOrder(m, Some(orderId), newQuantity);
            && r.Ok? && r.value.1
            && MovedToTail(Queue(m, t), Queue(r.value.0, t), IndexOfOrder(Queue(m, t), t), t.(quantity := newQuantity))
  {
    var t := m.ordersById[orderId];
    ModifyOrderLists(m, orderId, newQuantity);
    QueuePosition(m, orderId);
    RequeueAt(Queue(m, t), Queue(ModifyOrder(m, Some(orderId), newQuantity).value.0, t), t, t.(quantity := newQuantity), IndexOfOrder(Queue(m, t), t));
  }

  /** Lowering the quantity keeps the order's position: the revision replaces it in place. */
  lemma ModifyDownKeepsPlace(m: Manager, orderId: string, newQuantity: Long)
    requires BookManager.Valid(m) && orderId in m.ordersById && 0 < newQuantity < m.ordersById[orderId].quantity
    ensures var t := m.ordersById[orderId];
            var r := ModifyOrder(m, Some(orderId), newQuantity);
            var j := IndexOfOrder(Queue(m, t), t);
            && r.Ok? && r.value.1 && 0 <= j
            && Queue(r.value.0, t) == Queue(m, t)[j := t.(quantity := newQuantity)]
  {
    ModifyOrderLists(m, orderId, newQuantity);
    QueuePosition(m, orderId);
  }

  /** deleteOrder drops the order's id from the list it sat in and leaves the pair's other prices alone. */
  lemma DeleteOrderList(m: Manager, orderId: string)
    requires LevelsCover(m) && DeleteOrder(m, Some(orderId)).Ok?
    ensures var t := m.ordersById[orderId];
            var after := View(DeleteOrder(m, Some(orderId)).value.0, t.instrument, t.side);
            && Queue(DeleteOrder(m, Some(orderId)).value.0, t) == WithoutId(Queue(m, t), t.orderId)
            && forall p :: p != t.price ==> OrdersAt(after, p) == OrdersAt(View(m, t.instrument, t.side), p)
  {
  }

  /** deleteOrder takes the order out of its position and keeps every other order in arrival order. */
  lemma DeleteOrderDequeues(m: Manager, orderId: string)
    requires BookManager.Valid(m) && orderId in m.ordersById
    ensures var t := m.ordersById[orderId];
            var r := DeleteOrder(m, Some(orderId));
            && r.Ok?
            && TakenOut(Queue(m, t), Queue(r.value.0, t), IndexOfOrder(Queue(m, t), t))
  {
    var t := m.ordersById[orderId];
    DeleteOrderOutcome(m, orderId);
    DeleteOrderList(m, orderId);
    QueuePosition(m, orderId);
    DropAt(Queue(m, t), Queue(DeleteOrder(m, Some(orderId)).value.0, t), t, IndexOfOrder(Queue(m, t), t));
  }

  /** Two books list the same orders at every price. */
  ghost predicate SameLists(b1: Book, b2: Book) {
    forall p :: OrdersAt(b1, p) == OrdersAt(b2, p)
  }

  /** addOrder appends the order at the tail of its price's list and leaves the pair's other prices alone. */
  lemma AddOrderList(m: Manager, o: Order)
    requires AddOrder(m, Some(o)).Ok?
    ensures var after := View(AddOrder(m, Some(o)).value, o.instrument, o.side);
            && Queue(AddOrder(m, Some(o)).value, o) == Queue(m, o) + [o]
            && forall p :: p != o.price ==> OrdersAt(after, p) == OrdersAt(View(m, o.instrument, o.side), p)
  {
    AddOrderUnfolds(m, o);
    AddToPairUnfolds(m, o);
  }

  /** After a successful add the manager is valid, the order is live, and deleting its id succeeds. */
  lemma AddThenDeleteOk(m: Manager, o: Order)
    requires BookManager.Valid(m) && o.Valid() && AddOrder(m, Some(o)).Ok?
    ensures var m1 := AddOrder(m, Some(o)).value;
            && BookManager.Valid(m1) && LevelsCover(m1) && m1.ordersById[o.orderId] == o
            && DeleteOrder(m1, Some(o.orderId)).Ok?
  {
    AddOrderPreserves(m, o);
    DeleteOrderOutcome(AddOrder(m, Some(o)).value, o.orderId);
  }

  /** The list an added order joins did not carry its id and has distinct ids. */
  lemma AddedIdFresh(m: Manager, o: Order)
    requires BookManager.Valid(m) && AddOrder(m, Some(o)).Ok?
    ensures DistinctIds(Queue(m, o)) && forall x :: x in Queue(m, o) ==> x.orderId != o.orderId
  {
    AddOrderOutcome(m, o);
    ViewValid(m, o.instrument, o.side);
    ViewIsIndex(m, o.instrument, o.side);
    if o.price in View(m, o.instrument, o.side).levels {
      assert LevelValid(o.side, o.price, View(m, o.instrument, o.side).levels[o.price]);
    }
    forall x | x in Queue(m, o)
      ensures x.orderId != o.orderId
    {
      assert RestsIn(m, o.instrument, o.side, x);
    }
  }

  /** Deleting an order just added restores every list of its pair. */
  lemma AddThenDeleteLists(m: Manager, o: Order)
    requires AddOrder(m, Some(o)).Ok?
    requires DistinctIds(Queue(m, o)) && forall x :: x in Queue(m, o) ==> x.orderId != o.orderId
    requires var m1 := AddOrder(m, Some(o)).value;
             LevelsCover(m1) && m1.ordersById[o.orderId] == o && DeleteOrder(m1, Some(o.orderId)).Ok?
    ensures var m1 := AddOrder(m, Some(o)).value;
            SameLists(View(DeleteOrder(m1, Some(o.orderId)).value.0, o.instrument, o.side), View(m, o.instrument, o.side))
  {
    var m1 := AddOrder(m, Some(o)).value;
    var m2 := DeleteOrder(m1, Some(o.orderId)).value.0;
    AddOrderList(m, o);
    DeleteOrderList(m1, o.orderId);
    WithoutAppended(Queue(m, o), o);
    var v, v1, v2 := View(m, o.instrument, o.side), View(m1, o.instrument, o.side), View(m2, o.instrument, o.side);
    forall p
      ensures OrdersAt(v2, p) == OrdersAt(v, p)
    {
      if p != o.price {
        assert OrdersAt(v2, p) == OrdersAt(v1, p);
      }
    }
  }

  /** Putting a fresh key into an index and dropping it again gives back the index. */
  lemma PutThenDrop(idx: Index, id: string, o: Order)
    requires id !in idx
    ensures idx[id := o] - {id} == idx
  {
    assert (idx[id := o] - {id}).Keys == idx.Keys;
  }

  /** Deleting the id an add just put into the index gives back the index the add started from. */
  lemma AddThenDeleteIndex(m: Manager, o: Order)
    requires AddOrder(m, Some(o)).Ok?
    requires LevelsCover(AddOrder(m, Some(o)).value) && DeleteOrder(AddOrder(m, Some(o)).value, Some(o.orderId)).Ok?
    ensures DeleteOrder(AddOrder(m, Some(o)).value, Some(o.orderId)).value.0.ordersById == m.ordersById
  {
    var idx := m.ordersById;
    assert o.orderId !in idx;
    var idx1 := AddOrder(m, Some(o)).value.ordersById;
    assert idx1 == idx[o.orderId := o];
    var idx2 := DeleteOrder(AddOrder(m, Some(o)).value, Some(o.orderId)).value.0.ordersById;
    assert idx2 == idx1 - {o.orderId};
    PutThenDrop(idx, o.orderId, o);
  }

  /** Every query answers the same in `m2` as in `m`: the same index, and per pair the same levels and best price. */
  ghost predicate Restored(m2: Manager, m: Manager) {
    && m2.ordersById == m.ordersById
    && forall i, s :: View(m2, i, s).levels == View(m, i, s).levels && BestPrice(View(m2, i, s)) == BestPrice(View(m, i, s))
  }

  /** Valid managers whose pair at `key` lists the same orders and whose other pairs are untouched answer every query alike. */
  lemma RestoredViews(m: Manager, m2: Manager, i0: string, s0: Side)
    requires BookManager.Valid(m) && BookManager.Valid(m2) && m2.ordersById == m.ordersById
    requires SameLists(View(m2, i0, s0), View(m, i0, s0))
    requires forall i, s :: SideInstrumentKey(i, s) != SideInstrumentKey(i0, s0) ==> View(m2, i, s) == View(m, i, s)
    ensures Restored(m2, m)
  {
    forall i, s
      ensures View(m2, i, s).levels == View(m, i, s).levels && BestPrice(View(m2, i, s)) == BestPrice(View(m, i, s))
    {
      if SideInstrumentKey(i, s) == SideInstrumentKey(i0, s0) {
        KeyInjective(i, s, i0, s0);
        ViewValid(m2, i, s);
        ViewValid(m, i, s);
        ListsDetermineBook(View(m2, i, s), View(m, i, s));
      }
    }
  }

  /** After add then delete the manager is valid again and its index is the one the add started from. */
  lemma AddThenDeleteValid(m: Manager, o: Order)
    requires BookManager.Valid(m) && o.Valid() && AddOrder(m, Some(o)).Ok?
    ensures var m1 := AddOrder(m, Some(o)).value;
            && LevelsCover(m1) && DeleteOrder(m1, Some(o.orderId)).Ok?
            && BookManager.Valid(DeleteOrder(m1, Some(o.orderId)).value.0)
            && DeleteOrder(m1, Some(o.orderId)).value.0.ordersById == m.ordersById
  {
    AddThenDeleteOk(m, o);
    DeleteOrderPreserves(AddOrder(m, Some(o)).value, o.orderId);
    AddThenDeleteIndex(m, o);
  }

  /** After add then delete the order's pair lists what it listed before. */
  lemma AddThenDeletePair(m: Manager, o: Order)
    requires BookManager.Valid(m) && o.Valid() && AddOrder(m, Some(o)).Ok?
    ensures var m1 := AddOrder(m, Some(o)).value;
            && LevelsCover(m1) && DeleteOrder(m1, Some(o.orderId)).Ok?
            && SameLists(View(DeleteOrder(m1, Some(o.orderId)).value.0, o.instrument, o.side), View(m, o.instrument, o.side))
  {
    AddThenDeleteOk(m, o);
    AddedIdFresh(m, o);
    AddThenDeleteLists(m, o);
  }

  /** After add then delete every other pair reads as before. */
  lemma AddThenDeleteOthers(m: Manager, o: Order)
    requires BookManager.Valid(m) && o.Valid() && AddOrder(m, Some(o)).Ok?
    ensures var m1 := AddOrder(m, Some(o)).value;
            && LevelsCover(m1) && DeleteOrder(m1, Some(o.orderId)).Ok?
            && forall i, s :: SideInstrumentKey(i, s) != BookKey(o) ==>
                 View(DeleteOrder(m1, Some(o.orderId)).value.0, i, s) == View(m, i, s)
  {
    var m1 := AddOrder(m, Some(o)).value;
    AddThenDeleteOk(m, o);
    AddOrderIsolated(m, o);
    DeleteOrderIsolated(m1, o.orderId);
  }

  /** addOrder followed by deleteOrder of the same id restores the index and every pair's levels and best price. */
  lemma DeleteUndoesAdd(m: Manager, o: Order)
    requires BookManager.Valid(m) && o.Valid() && AddOrder(m, Some(o)).Ok?
    ensures var m1 := AddOrder(m, Some(o)).value;
            && LevelsCover(m1)
            && DeleteOrder(m1, Some(o.orderId)).Ok?
            && Restored(DeleteOrder(m1, Some(o.orderId)).value.0, m)
  {
    AddThenDeleteValid(m, o);
    AddThenDeletePair(m, o);
    AddThenDeleteOthers(m, o);
    RestoredViews(m, DeleteOrder(AddOrder(m, Some(o)).value, Some(o.orderId)).value.0, o.instrument, o.side);
  }
}
