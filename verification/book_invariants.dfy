/** The cross-structure invariants of OrderBook.java and their preservation by add, delete and modify. */
module BookInvariants {
  import opened Wrappers
  import opened Validation
  import opened Orders
  import opened Prices
  import opened Levels
  import opened OrderBook

  /** Under the invariant every level key is a positive long. */
  lemma KeysArePrices(b: Book)
    requires Valid(b)
    ensures forall p :: p in b.levels ==> 0 < p <= LONG_MAX
  {
    forall p | p in b.levels
      ensures 0 < p <= LONG_MAX
    {
      assert b.levels[p].orders[0] in b.levels[p].orders;
    }
  }

  /** getBestPrice is empty iff no level exists, else the least key for SELL and the greatest for BUY. */
  lemma BestPriceIsExtreme(b: Book)
    requires Valid(b)
    ensures BestPrice(b) == if b.levels == map[] then None
                            else Some(if b.side == SELL then MinOf(b.levels.Keys) else MaxOf(b.levels.Keys))
  {
  }

  /** The best price is the lowest (SELL) or highest (BUY) price of a held order, and absent exactly when the book holds none. */
  lemma BestPriceOfHeld(b: Book)
    requires Valid(b)
    ensures BestPrice(b).None? <==> forall o :: !Holds(b, o)
    ensures BestPrice(b).Some? ==> exists o :: Holds(b, o) && o.price == BestPrice(b).value
    ensures BestPrice(b).Some? ==> forall o :: Holds(b, o) ==>
              if b.side == SELL then BestPrice(b).value <= o.price else o.price <= BestPrice(b).value
  {
    BestPriceIsExtreme(b);
    if b.levels != map[] {
      var best := BestPrice(b).value;
      assert LevelValid(b.side, best, b.levels[best]);
      var o := b.levels[best].orders[0];
      assert Holds(b, o) && o.price == best;
    }
  }

  /** The empty book satisfies the invariant and agrees with any index. */
  lemma EmptyBookValid(side: Side, idx: Index)
    ensures Valid(EmptyBook(side)) && Agrees(EmptyBook(side), idx)
    ensures forall o :: !Holds(EmptyBook(side), o)
  {
  }

  /** The level add writes satisfies the level invariant when the new id is absent from the index. */
  lemma InsertLevelValid(b: Book, idx: Index, o: Order)
    requires Valid(b) && Agrees(b, idx) && o.Valid() && o.side == b.side && o.orderId !in idx
    ensures LevelValid(b.side, o.price, Insert(b, o).levels[o.price])
  {
    var before := OrdersAt(b, o.price);
    forall x | x in before
      ensures x.orderId != o.orderId
    {
      assert Holds(b, x);
    }
    if o.price in b.levels {
      DistinctAppend(before, o);
      AppendConsistent(b.levels[o.price], o);
      assert Insert(b, o).levels[o.price] == Append(b.levels[o.price], o);
    } else {
      NewLevelConsistent(o);
    }
  }

  /** add widens min/max so the side-relevant extreme stays the best key. */
  lemma InsertBestValid(b: Book, o: Order)
    requires Valid(b) && o.Valid()
    ensures BestValid(Insert(b, o))
  {
    var r := Insert(b, o);
    assert r.minPrice == Min(b.minPrice, o.price) && r.maxPrice == Max(b.maxPrice, o.price);
    if b.levels == map[] {
      assert r.levels.Keys == {o.price};
    }
  }

  /** add rests exactly the new order in addition to the old ones. */
  lemma InsertHolds(b: Book, o: Order)
    ensures forall x :: Holds(Insert(b, o), x) <==> Holds(b, x) || x == o
  {
    var r := Insert(b, o);
    forall x
      ensures Holds(r, x) <==> Holds(b, x) || x == o
    {
      assert OrdersAt(r, x.price) == OrdersAt(b, x.price) || x.price == o.price;
    }
  }

  /** add keeps the book invariant. */
  lemma InsertValid(b: Book, idx: Index, o: Order)
    requires Valid(b) && Agrees(b, idx) && o.Valid() && o.side == b.side && o.orderId !in idx
    ensures Valid(Insert(b, o))
  {
    var r := Insert(b, o);
    InsertLevelValid(b, idx, o);
    InsertBestValid(b, o);
    forall q | q in r.levels
      ensures LevelValid(r.side, q, r.levels[q])
    {
      if q != o.price {
        assert r.levels[q] == b.levels[q];
      }
    }
  }

  /** add keeps every listed order equal to its index entry. */
  lemma InsertAgrees(b: Book, idx: Index, o: Order)
    requires Agrees(b, idx) && o.orderId !in idx
    ensures Agrees(Insert(b, o), idx[o.orderId := o])
  {
    var r := Insert(b, o);
    var idx' := idx[o.orderId := o];
    InsertHolds(b, o);
    forall x | Holds(r, x)
      ensures x.orderId in idx' && idx'[x.orderId] == x
    {
      if x != o {
        assert Holds(b, x);
      }
    }
  }

  /** add keeps the invariant and index agreement, and rests exactly the new order in addition. */
  lemma AddPreserves(b: Book, idx: Index, o: Order)
    requires Valid(b) && Agrees(b, idx) && o.Valid()
    requires Add(b, idx, o).Ok?
    ensures Valid(Add(b, idx, o).value.0)
    ensures Agrees(Add(b, idx, o).value.0, Add(b, idx, o).value.1)
    ensures forall x :: Holds(Add(b, idx, o).value.0, x) <==> Holds(b, x) || x == o
  {
    assert Add(b, idx, o).value == (Insert(b, o), idx[o.orderId := o]);
    InsertValid(b, idx, o);
    InsertAgrees(b, idx, o);
    InsertHolds(b, o);
  }

  /** The level removeAndResetMinMax leaves behind, when not empty, satisfies the level invariant. */
  lemma RemoveLevelValid(b: Book, t: Order)
    requires Valid(b) && Holds(b, t)
    ensures var l := Remove(b.levels[t.price], t);
            l.orders != [] ==> LevelValid(b.side, t.price, l)
  {
    var l := b.levels[t.price];
    DistinctWithoutId(l.orders, t.orderId);
    RemoveConsistent(l, t);
  }

  /** The rescan leaves the side-relevant extreme equal to the best remaining key, or the sentinel. */
  lemma RemoveBestValid(b: Book, t: Order)
    requires Valid(b) && t.price in b.levels
    ensures BestValid(RemoveAndResetMinMax(b, t))
  {
    var r := RemoveAndResetMinMax(b, t);
    KeysArePrices(b);
    assert r.levels.Keys <= b.levels.Keys;
  }

  /** After removeAndResetMinMax the book rests the old orders except those at the removed order's price with its id. */
  lemma RemoveHolds(b: Book, t: Order)
    requires t.price in b.levels
    ensures forall x :: Holds(RemoveAndResetMinMax(b, t), x) <==> Holds(b, x) && (x.price != t.price || x.orderId != t.orderId)
  {
    var r := RemoveAndResetMinMax(b, t);
    forall x
      ensures Holds(r, x) <==> Holds(b, x) && (x.price != t.price || x.orderId != t.orderId)
    {
      assert Holds(r, x) <==> x in OrdersAt(r, x.price);
      assert Holds(b, x) <==> x in OrdersAt(b, x.price);
      if x.price == t.price {
        assert OrdersAt(r, x.price) == WithoutId(OrdersAt(b, x.price), t.orderId);
        assert x in WithoutId(OrdersAt(b, x.price), t.orderId) <==> x in OrdersAt(b, x.price) && x.orderId != t.orderId;
      } else {
        assert OrdersAt(r, x.price) == OrdersAt(b, x.price);
      }
    }
  }

  /** removeAndResetMinMax keeps the book invariant. */
  lemma RemoveValid(b: Book, t: Order)
    requires Valid(b) && Holds(b, t)
    ensures Valid(RemoveAndResetMinMax(b, t))
  {
    var r := RemoveAndResetMinMax(b, t);
    RemoveLevelValid(b, t);
    RemoveBestValid(b, t);
    forall q | q in r.levels
      ensures LevelValid(r.side, q, r.levels[q])
    {
      if q != t.price {
        assert r.levels[q] == b.levels[q];
      } else {
        assert r.levels[q] == Remove(b.levels[t.price], t);
      }
    }
  }

  /** Removing an order the index maps its id to drops exactly that id from the book. */
  lemma RemoveById(b: Book, idx: Index, t: Order)
    requires Valid(b) && Agrees(b, idx) && Holds(b, t)
    requires t.orderId in idx && idx[t.orderId] == t
    ensures forall x :: Holds(RemoveAndResetMinMax(b, t), x) <==> Holds(b, x) && x.orderId != t.orderId
  {
    RemoveHolds(b, t);
    forall x | Holds(b, x) && x.orderId == t.orderId
      ensures x == t
    {
    }
  }

  /** After removing `t`, the book agrees with the index without `t`'s id. */
  lemma RemoveAgrees(b: Book, idx: Index, t: Order)
    requires Valid(b) && Agrees(b, idx) && Holds(b, t)
    requires t.orderId in idx && idx[t.orderId] == t
    ensures Agrees(RemoveAndResetMinMax(b, t), idx - {t.orderId})
  {
    var r := RemoveAndResetMinMax(b, t);
    RemoveById(b, idx, t);
    forall x | Holds(r, x)
      ensures x.orderId in idx - {t.orderId} && (idx - {t.orderId})[x.orderId] == x
    {
      assert Holds(b, x);
    }
  }

  /** delete keeps the invariant and index agreement, and rests every old order but the deleted one. */
  lemma DeletePreserves(b: Book, idx: Index, orderId: string)
    requires Valid(b) && Agrees(b, idx)
    requires orderId in idx && idx[orderId].orderId == orderId && Holds(b, idx[orderId])
    requires Delete(b, idx, orderId).Ok?
    ensures Valid(Delete(b, idx, orderId).value.0)
    ensures Agrees(Delete(b, idx, orderId).value.0, Delete(b, idx, orderId).value.1)
    ensures forall x :: Holds(Delete(b, idx, orderId).value.0, x) <==> Holds(b, x) && x.orderId != orderId
  {
    var t := idx[orderId];
    RemoveValid(b, t);
    RemoveById(b, idx, t);
    RemoveAgrees(b, idx, t);
  }

  /** The revision of `t` with quantity `q`, as modify builds it. */
  predicate IsRevision(t: Order, n: Order) {
    n == t.(quantity := n.quantity) && n.quantity > 0
  }

  /** `b'` rests what `b` rests, minus `t`'s id at `t`'s price, plus the revision `n`. */
  ghost predicate Revised(b: Book, b': Book, t: Order, n: Order) {
    forall x :: Holds(b', x) <==> (Holds(b, x) && (x.price != t.price || x.orderId != t.orderId)) || x == n
  }

  /** modifyUp keeps the book invariant. */
  lemma ModifyUpValid(b: Book, t: Order, n: Order)
    requires Valid(b) && Holds(b, t) && IsRevision(t, n)
    ensures Valid(ModifyUp(b, t, n).0)
  {
    var r := ModifyUp(b, t, n).0;
    var l := b.levels[t.price];
    var removed := Remove(l, t);
    DistinctWithoutId(l.orders, t.orderId);
    DistinctAppend(removed.orders, n);
    RemoveConsistent(l, t);
    AppendConsistent(removed, n);
    assert r.levels[t.price] == Append(removed, n);
    forall q | q in r.levels
      ensures LevelValid(r.side, q, r.levels[q])
    {
      if q != t.price {
        assert r.levels[q] == b.levels[q];
      }
    }
  }

  /** modifyUp rests the revision in place of the old order. */
  lemma ModifyUpHolds(b: Book, t: Order, n: Order)
    requires Holds(b, t) && IsRevision(t, n)
    ensures Revised(b, ModifyUp(b, t, n).0, t, n)
  {
    var r := ModifyUp(b, t, n).0;
    forall x
      ensures Holds(r, x) <==> (Holds(b, x) && (x.price != t.price || x.orderId != t.orderId)) || x == n
    {
      assert Holds(r, x) <==> x in OrdersAt(r, x.price);
      assert Holds(b, x) <==> x in OrdersAt(b, x.price);
      if x.price == t.price {
        var os := OrdersAt(b, t.price);
        assert OrdersAt(r, x.price) == WithoutId(os, t.orderId) + [n];
        assert x in WithoutId(os, t.orderId) <==> x in os && x.orderId != t.orderId;
      } else {
        assert OrdersAt(r, x.price) == OrdersAt(b, x.price);
      }
    }
  }

  /** Under the invariant modifyDown finds the old order, so its indexOf is never -1. */
  lemma ModifyDownFinds(b: Book, t: Order, n: Order)
    requires Holds(b, t)
    ensures ModifyDown(b, t, n).1
  {
  }

  /** modifyDown keeps the book invariant. */
  lemma ModifyDownValid(b: Book, t: Order, n: Order)
    requires Valid(b) && Holds(b, t) && IsRevision(t, n)
    ensures Valid(ModifyDown(b, t, n).0)
  {
    var r := ModifyDown(b, t, n).0;
    var l := b.levels[t.price];
    var i := IndexOfOrder(l.orders, t);
    DistinctReplace(l.orders, i, n);
    ReplaceAtConsistent(l, i, t, n);
    assert r.levels[t.price] == ReplaceAt(l, i, t, n);
    forall q | q in r.levels
      ensures LevelValid(r.side, q, r.levels[q])
    {
      if q != t.price {
        assert r.levels[q] == b.levels[q];
      }
    }
  }

  /** modifyDown rests the revision in place of the old order. */
  lemma ModifyDownHolds(b: Book, t: Order, n: Order)
    requires Valid(b) && Holds(b, t) && IsRevision(t, n)
    ensures Revised(b, ModifyDown(b, t, n).0, t, n)
  {
    var r := ModifyDown(b, t, n).0;
    var os := OrdersAt(b, t.price);
    var i := IndexOfOrder(os, t);
    assert LevelValid(b.side, t.price, b.levels[t.price]);
    ReplaceMembers(os, i, n);
    forall x
      ensures Holds(r, x) <==> (Holds(b, x) && (x.price != t.price || x.orderId != t.orderId)) || x == n
    {
      assert Holds(r, x) <==> x in OrdersAt(r, x.price);
      assert Holds(b, x) <==> x in OrdersAt(b, x.price);
      if x.price == t.price {
        assert OrdersAt(r, x.price) == os[i := n];
      } else {
        assert OrdersAt(r, x.price) == OrdersAt(b, x.price);
      }
    }
  }

  /** What modify computes once the revision is built: modifyUp for an increase, modifyDown otherwise. */
  lemma ModifyUnfolds(b: Book, idx: Index, orderId: string, newQuantity: Long)
    requires orderId in idx && idx[orderId].Valid() && idx[orderId].orderId == orderId
    requires idx[orderId].price in b.levels && newQuantity > 0
    ensures var t := idx[orderId];
            var n := t.(quantity := newQuantity);
            var r := if newQuantity > t.quantity then ModifyUp(b, t, n) else ModifyDown(b, t, n);
            Modify(b, idx, orderId, newQuantity) == Ok((r.0, idx[orderId := n], r.1))
  {
    var t := idx[orderId];
    assert Revise(Some(t), newQuantity) == Ok(t.(quantity := newQuantity));
  }

  /** A revision that replaces the old order in both book and index keeps them in agreement. */
  lemma RevisedAgrees(b: Book, b': Book, idx: Index, t: Order, n: Order)
    requires Agrees(b, idx) && Holds(b, t) && IsRevision(t, n) && Revised(b, b', t, n)
    ensures Agrees(b', idx[t.orderId := n])
  {
    var idx' := idx[t.orderId := n];
    forall x | Holds(b', x)
      ensures x.orderId in idx' && idx'[x.orderId] == x
    {
      if x != n {
        assert Holds(b, x);
      }
    }
  }

  /** modify of a resting order always reports a change and keeps the invariant and index agreement. */
  lemma ModifyPreserves(b: Book, idx: Index, orderId: string, newQuantity: Long)
    requires Valid(b) && Agrees(b, idx)
    requires orderId in idx && idx[orderId].orderId == orderId && Holds(b, idx[orderId])
    requires newQuantity > 0
    ensures Modify(b, idx, orderId, newQuantity).Ok?
    ensures Modify(b, idx, orderId, newQuantity).value.2
    ensures Valid(Modify(b, idx, orderId, newQuantity).value.0)
    ensures Agrees(Modify(b, idx, orderId, newQuantity).value.0, Modify(b, idx, orderId, newQuantity).value.1)
    ensures Revised(b, Modify(b, idx, orderId, newQuantity).value.0, idx[orderId], idx[orderId].(quantity := newQuantity))
  {
    var t := idx[orderId];
    var n := t.(quantity := newQuantity);
    assert t.Valid();
    ModifyUnfolds(b, idx, orderId, newQuantity);
    if newQuantity > t.quantity {
      ModifyUpValid(b, t, n);
      ModifyUpHolds(b, t, n);
      RevisedAgrees(b, ModifyUp(b, t, n).0, idx, t, n);
    } else {
      ModifyDownValid(b, t, n);
      ModifyDownHolds(b, t, n);
      RevisedAgrees(b, ModifyDown(b, t, n).0, idx, t, n);
    }
  }

  /** A valid book is determined by its lists: books of one side listing the same orders at every price have the same levels and best price. */
  lemma ListsDetermineBook(b1: Book, b2: Book)
    requires Valid(b1) && Valid(b2) && b1.side == b2.side
    requires forall p :: OrdersAt(b1, p) == OrdersAt(b2, p)
    ensures b1.levels == b2.levels && BestPrice(b1) == BestPrice(b2)
  {
    forall p
      ensures p in b1.levels <==> p in b2.levels
    {
      assert OrdersAt(b1, p) == OrdersAt(b2, p);
      if p in b1.levels {
        assert LevelValid(b1.side, p, b1.levels[p]);
      }
      if p in b2.levels {
        assert LevelValid(b2.side, p, b2.levels[p]);
      }
    }
    forall p | p in b1.levels
      ensures b1.levels[p] == b2.levels[p]
    {
      assert OrdersAt(b1, p) == OrdersAt(b2, p);
      assert LevelValid(b1.side, p, b1.levels[p]) && LevelValid(b2.side, p, b2.levels[p]);
    }
    BestPriceIsExtreme(b1);
    BestPriceIsExtreme(b2);
  }
}
