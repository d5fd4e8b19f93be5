/** The manager's invariant, its preservation by every update, and what the queries answer in terms of the resting orders. */
module ManagerInvariants {
  import opened Wrappers
  import opened Validation
  import opened Orders
  import opened Prices
  import opened Levels
  import opened OrderBook
  import opened BookInvariants
  import opened BookManager

  /** The order rests for the pair: it is live and belongs to that instrument and side. */
  ghost predicate RestsIn(m: Manager, instrument: string, side: Side, o: Order) {
    Rests(m, o) && o.instrument == instrument && o.side == side
  }

  /** A constructed manager satisfies the invariant. */
  lemma EmptyValid()
    ensures BookManager.Valid(Empty())
  {
  }

  /** In a valid manager OrderBook.delete and OrderBook.modify always find their level. */
  lemma ValidCovers(m: Manager)
    requires BookManager.Valid(m)
    ensures LevelsCover(m)
  {
  }

  /** An order listed by a stored book is live, belongs to that book's pair, and is well formed. */
  lemma HeldRests(m: Manager, k: string, o: Order)
    requires BookManager.Valid(m) && k in m.books && Holds(m.books[k], o)
    ensures Rests(m, o) && BookKey(o) == k && o.Valid()
  {
    assert LevelValid(m.books[k].side, o.price, m.books[k].levels[o.price]);
  }

  /** A live order is listed by the book of its pair and is well formed. */
  lemma RestsHeld(m: Manager, o: Order)
    requires BookManager.Valid(m) && Rests(m, o)
    ensures BookKey(o) in m.books && Holds(m.books[BookKey(o)], o) && o.Valid()
  {
    HeldRests(m, BookKey(o), o);
  }

  /** The book a query sees lists exactly the live orders of the pair. */
  lemma ViewIsIndex(m: Manager, instrument: string, side: Side)
    requires BookManager.Valid(m)
    ensures forall o :: Holds(View(m, instrument, side), o) <==> RestsIn(m, instrument, side, o)
  {
    var key := SideInstrumentKey(instrument, side);
    forall o
      ensures Holds(View(m, instrument, side), o) <==> RestsIn(m, instrument, side, o)
    {
      KeyInjective(o.instrument, o.side, instrument, side);
      if Holds(View(m, instrument, side), o) {
        HeldRests(m, key, o);
      }
      if RestsIn(m, instrument, side, o) {
        RestsHeld(m, o);
      }
    }
  }

  /** The book a query sees keeps the book invariant. */
  lemma ViewValid(m: Manager, instrument: string, side: Side)
    requires BookManager.Valid(m)
    ensures OrderBook.Valid(View(m, instrument, side)) && View(m, instrument, side).side == side
  {
    var key := SideInstrumentKey(instrument, side);
    if key in m.books {
      KeyNamesSide(instrument, side);
    } else {
      EmptyBookValid(side, m.ordersById);
    }
  }

  /** A successful addOrder passed both argument checks, so it is the add to the order's pair. */
  lemma AddOrderUnfolds(m: Manager, o: Order)
    requires AddOrder(m, Some(o)).Ok?
    ensures AddOrder(m, Some(o)) == AddToPair(m, o)
  {
    assert ValidateObject(Some(o)) == Ok(o);
    assert ValidateString(Some(o.instrument)) == Ok(o.instrument);
  }

  /** A successful add to the pair adds the order to the book a query sees, over the shared index. */
  lemma AddToPairUnfolds(m: Manager, o: Order)
    requires AddToPair(m, o).Ok?
    ensures var book := View(m, o.instrument, o.side);
            && Add(book, m.ordersById, o).Ok?
            && AddToPair(m, o).value == Manager(Add(book, m.ordersById, o).value.1, m.books[BookKey(o) := Add(book, m.ordersById, o).value.0])
  {
  }

  /** The facts OrderBook.add establishes about the pair's book, as the manager-level proofs use them. */
  ghost predicate AddedTo(m: Manager, o: Order, b': Book) {
    && OrderBook.Valid(b') && b'.side == o.side
    && Agrees(b', m.ordersById[o.orderId := o])
    && o.orderId !in m.ordersById
    && forall x :: Holds(b', x) <==> Holds(View(m, o.instrument, o.side), x) || x == o
  }

  /** A book of another pair lists nothing under the added id, so it agrees with the extended index. */
  lemma AddOtherBook(m: Manager, o: Order, k: string)
    requires BookManager.Valid(m) && o.orderId !in m.ordersById && k in m.books
    ensures Agrees(m.books[k], m.ordersById[o.orderId := o])
  {
    forall x | Holds(m.books[k], x)
      ensures x.orderId in m.ordersById[o.orderId := o] && m.ordersById[o.orderId := o][x.orderId] == x
    {
      HeldRests(m, k, x);
    }
  }

  /** The pair's book after the add lists only orders of the pair. */
  lemma AddOwnBook(m: Manager, o: Order, b': Book)
    requires BookManager.Valid(m) && AddedTo(m, o, b')
    ensures forall x :: Holds(b', x) ==> BookKey(x) == BookKey(o)
  {
    ViewIsIndex(m, o.instrument, o.side);
    forall x | Holds(b', x)
      ensures BookKey(x) == BookKey(o)
    {
      if x != o {
        assert RestsIn(m, o.instrument, o.side, x);
      }
    }
  }

  /** After an add every stored book still keeps its invariant, agrees with the index and lists only its pair. */
  lemma AddBooksValid(m: Manager, o: Order, b': Book)
    requires BookManager.Valid(m) && AddedTo(m, o, b')
    ensures BooksValid(Manager(m.ordersById[o.orderId := o], m.books[BookKey(o) := b']))
  {
    AddOwnBook(m, o, b');
    forall k | k in m.books && k != BookKey(o)
      ensures Agrees(m.books[k], m.ordersById[o.orderId := o])
    {
      AddOtherBook(m, o, k);
    }
  }

  /** After an add every index entry is still listed by the book of its pair. */
  lemma AddIndexListed(m: Manager, o: Order, b': Book)
    requires BookManager.Valid(m) && AddedTo(m, o, b')
    ensures IndexListed(Manager(m.ordersById[o.orderId := o], m.books[BookKey(o) := b']))
  {
    var m' := Manager(m.ordersById[o.orderId := o], m.books[BookKey(o) := b']);
    ViewIsIndex(m, o.instrument, o.side);
    forall id | id in m'.ordersById
      ensures && m'.ordersById[id].orderId == id
              && BookKey(m'.ordersById[id]) in m'.books
              && Holds(m'.books[BookKey(m'.ordersById[id])], m'.ordersById[id])
    {
      if id != o.orderId {
        AddKeepsEntry(m, o, b', id);
      }
    }
  }

  /** An entry that was live before the add is still listed by the book of its pair. */
  lemma AddKeepsEntry(m: Manager, o: Order, b': Book, id: string)
    requires IndexListed(m) && id in m.ordersById
    requires forall x :: Holds(b', x) <==> Holds(View(m, o.instrument, o.side), x) || x == o
    requires forall x :: Holds(View(m, o.instrument, o.side), x) <==> RestsIn(m, o.instrument, o.side, x)
    ensures var books := m.books[BookKey(o) := b'];
            var x := m.ordersById[id];
            BookKey(x) in books && Holds(books[BookKey(x)], x)
  {
    var x := m.ordersById[id];
    if BookKey(x) == BookKey(o) {
      KeyInjective(x.instrument, x.side, o.instrument, o.side);
      assert RestsIn(m, o.instrument, o.side, x);
    }
  }

  /** After an add every stored book still has the side its key names. */
  lemma AddSidesMatch(m: Manager, o: Order, b': Book)
    requires BookManager.Valid(m) && AddedTo(m, o, b')
    ensures SidesMatch(Manager(m.ordersById[o.orderId := o], m.books[BookKey(o) := b']))
  {
    KeyNamesSide(o.instrument, o.side);
  }

  /** A successful add to the pair stores the book OrderBook.add produced, with the facts AddedTo bundles. */
  lemma AddToPairAddsTo(m: Manager, o: Order)
    requires BookManager.Valid(m) && o.Valid() && AddToPair(m, o).Ok?
    ensures var b' := Add(View(m, o.instrument, o.side), m.ordersById, o).value.0;
            && AddedTo(m, o, b')
            && AddToPair(m, o).value == Manager(m.ordersById[o.orderId := o], m.books[BookKey(o) := b'])
  {
    var book := View(m, o.instrument, o.side);
    AddToPairUnfolds(m, o);
    ViewValid(m, o.instrument, o.side);
    ViewIsIndex(m, o.instrument, o.side);
    AddPreserves(book, m.ordersById, o);
  }

  /** A successful addOrder stores the book OrderBook.add produced, with the facts AddedTo bundles. */
  lemma AddOrderAddsTo(m: Manager, o: Order)
    requires BookManager.Valid(m) && o.Valid() && AddOrder(m, Some(o)).Ok?
    ensures var b' := Add(View(m, o.instrument, o.side), m.ordersById, o).value.0;
            && AddedTo(m, o, b')
            && AddOrder(m, Some(o)).value == Manager(m.ordersById[o.orderId := o], m.books[BookKey(o) := b'])
  {
    AddOrderUnfolds(m, o);
    AddToPairAddsTo(m, o);
  }

  /** A successful add to the pair keeps the invariant and makes the order live beside every order that was. */
  lemma AddToPairPreserves(m: Manager, o: Order)
    requires BookManager.Valid(m) && o.Valid() && AddToPair(m, o).Ok?
    ensures BookManager.Valid(AddToPair(m, o).value)
    ensures forall x :: Rests(AddToPair(m, o).value, x) <==> Rests(m, x) || x == o
  {
    var b' := Add(View(m, o.instrument, o.side), m.ordersById, o).value.0;
    AddToPairAddsTo(m, o);
    AddBooksValid(m, o, b');
    AddIndexListed(m, o, b');
    AddSidesMatch(m, o, b');
    AddToPairRests(m, o);
  }

  /** Filing a new id adds exactly that order to the live ones. */
  lemma AddToPairRests(m: Manager, o: Order)
    requires AddToPair(m, o).Ok?
    ensures forall x :: Rests(AddToPair(m, o).value, x) <==> Rests(m, x) || x == o
  {
    var m' := AddToPair(m, o).value;
    assert m'.ordersById == m.ordersById[o.orderId := o] && o.orderId !in m.ordersById;
  }

  /** addOrder keeps the invariant and makes the order live beside every order that was. */
  lemma AddOrderPreserves(m: Manager, o: Order)
    requires BookManager.Valid(m) && o.Valid() && AddOrder(m, Some(o)).Ok?
    ensures BookManager.Valid(AddOrder(m, Some(o)).value)
    ensures forall x :: Rests(AddOrder(m, Some(o)).value, x) <==> Rests(m, x) || x == o
  {
    AddOrderUnfolds(m, o);
    AddToPairPreserves(m, o);
  }

  /** The facts OrderBook.delete establishes about the book of the deleted order `t`. */
  ghost predicate DeletedFrom(m: Manager, t: Order, b': Book) {
    && Rests(m, t) && BookKey(t) in m.books
    && OrderBook.Valid(b') && b'.side == t.side
    && Agrees(b', m.ordersById - {t.orderId})
    && forall x :: Holds(b', x) <==> Holds(m.books[BookKey(t)], x) && x.orderId != t.orderId
  }

  /** deleteOrder of a live id deletes it from the stored book of its pair over the shared index. */
  lemma DeleteOrderUnfolds(m: Manager, orderId: string)
    requires BookManager.Valid(m) && DeleteOrder(m, Some(orderId)).Ok?
    ensures var t := m.ordersById[orderId];
            var key := BookKey(t);
            && key in m.books
            && Delete(m.books[key], m.ordersById, orderId).Ok?
            && DeleteOrder(m, Some(orderId)).value.0 == Manager(m.ordersById - {orderId}, m.books[key := Delete(m.books[key], m.ordersById, orderId).value.0])
  {
    RestsHeld(m, m.ordersById[orderId]);
  }

  /** A book of another pair does not list the deleted id, so it agrees with the reduced index. */
  lemma DeleteOtherBook(m: Manager, t: Order, k: string)
    requires BooksValid(m) && Rests(m, t) && k in m.books && k != BookKey(t)
    ensures Agrees(m.books[k], m.ordersById - {t.orderId})
  {
    forall x | Holds(m.books[k], x)
      ensures x.orderId in m.ordersById - {t.orderId} && (m.ordersById - {t.orderId})[x.orderId] == x
    {
      assert BookKey(x) == k;
    }
  }

  /** After a delete every stored book still keeps its invariant, agrees with the index and lists only its pair. */
  lemma DeleteBooksValid(m: Manager, t: Order, b': Book)
    requires BooksValid(m) && DeletedFrom(m, t, b')
    ensures BooksValid(Manager(m.ordersById - {t.orderId}, m.books[BookKey(t) := b']))
  {
    forall k | k in m.books && k != BookKey(t)
      ensures Agrees(m.books[k], m.ordersById - {t.orderId})
    {
      DeleteOtherBook(m, t, k);
    }
  }

  /** After a delete every remaining index entry is still listed by the book of its pair. */
  lemma DeleteIndexListed(m: Manager, t: Order, b': Book)
    requires IndexListed(m) && DeletedFrom(m, t, b')
    ensures IndexListed(Manager(m.ordersById - {t.orderId}, m.books[BookKey(t) := b']))
  {
    var m' := Manager(m.ordersById - {t.orderId}, m.books[BookKey(t) := b']);
    forall id | id in m'.ordersById
      ensures && m'.ordersById[id].orderId == id
              && BookKey(m'.ordersById[id]) in m'.books
              && Holds(m'.books[BookKey(m'.ordersById[id])], m'.ordersById[id])
    {
      assert m'.ordersById[id] == m.ordersById[id];
    }
  }

  /** OrderBook.delete on the stored book of a live id establishes DeletedFrom. */
  lemma DeleteFromBook(m: Manager, orderId: string)
    requires BookManager.Valid(m) && orderId in m.ordersById
    ensures var t := m.ordersById[orderId];
            && BookKey(t) in m.books && t.orderId == orderId
            && Delete(m.books[BookKey(t)], m.ordersById, orderId).Ok?
            && DeletedFrom(m, t, Delete(m.books[BookKey(t)], m.ordersById, orderId).value.0)
  {
    var t := m.ordersById[orderId];
    RestsHeld(m, t);
    var book := m.books[BookKey(t)];
    KeyNamesSide(t.instrument, t.side);
    assert Agrees(book, m.ordersById) && OrderBook.Valid(book);
    DeletePreserves(book, m.ordersById, orderId);
  }

  /** The manager after a delete, assembled from the reduced index and the updated book, is valid. */
  lemma DeleteValid(m: Manager, t: Order, b': Book)
    requires BookManager.Valid(m) && DeletedFrom(m, t, b')
    ensures BookManager.Valid(Manager(m.ordersById - {t.orderId}, m.books[BookKey(t) := b']))
  {
    DeleteBooksValid(m, t, b');
    DeleteIndexListed(m, t, b');
  }

  /** deleteOrder keeps the invariant and answers true. */
  lemma DeleteOrderPreserves(m: Manager, orderId: string)
    requires BookManager.Valid(m) && DeleteOrder(m, Some(orderId)).Ok?
    ensures DeleteOrder(m, Some(orderId)).value.1
    ensures BookManager.Valid(DeleteOrder(m, Some(orderId)).value.0)
  {
    DeleteOrderUnfolds(m, orderId);
    DeleteFromBook(m, orderId);
    var t := m.ordersById[orderId];
    DeleteValid(m, t, Delete(m.books[BookKey(t)], m.ordersById, orderId).value.0);
  }

  /** Dropping an id from the index retires exactly the order filed under it. */
  lemma DropId(m: Manager, m': Manager, orderId: string)
    requires m'.ordersById == m.ordersById - {orderId}
    ensures forall x :: Rests(m', x) <==> Rests(m, x) && x.orderId != orderId
  {
  }

  /** deleteOrder retires exactly the deleted id: every other live order stays live. */
  lemma DeleteOrderRetires(m: Manager, orderId: string)
    requires BookManager.Valid(m) && DeleteOrder(m, Some(orderId)).Ok?
    ensures forall x :: Rests(DeleteOrder(m, Some(orderId)).value.0, x) <==> Rests(m, x) && x.orderId != orderId
  {
    DropId(m, DeleteOrder(m, Some(orderId)).value.0, orderId);
  }

  /** The facts OrderBook.modify establishes about the book of the revised order `t`, revised to `n`. */
  ghost predicate ModifiedIn(m: Manager, t: Order, n: Order, b': Book) {
    && Rests(m, t) && BookKey(t) in m.books && IsRevision(t, n)
    && OrderBook.Valid(b') && b'.side == t.side
    && Agrees(b', m.ordersById[t.orderId := n])
    && forall x :: Holds(b', x) <==> (Holds(m.books[BookKey(t)], x) && x.orderId != t.orderId) || x == n
  }

  /** OrderBook.modify on the stored book of a live id reports a change and establishes ModifiedIn. */
  lemma ModifyInBook(m: Manager, orderId: string, newQuantity: Long)
    requires BookManager.Valid(m) && orderId in m.ordersById && newQuantity > 0
    ensures var t := m.ordersById[orderId];
            var n := t.(quantity := newQuantity);
            var r := Modify(m.books[BookKey(t)], m.ordersById, orderId, newQuantity);
            && BookKey(t) in m.books && t.orderId == orderId
            && r.Ok? && r.value.1 == m.ordersById[orderId := n] && r.value.2
            && ModifiedIn(m, t, n, r.value.0)
  {
    var t := m.ordersById[orderId];
    var n := t.(quantity := newQuantity);
    RestsHeld(m, t);
    var book := m.books[BookKey(t)];
    KeyNamesSide(t.instrument, t.side);
    assert Agrees(book, m.ordersById) && OrderBook.Valid(book);
    ModifyPreserves(book, m.ordersById, orderId, newQuantity);
    var b' := Modify(book, m.ordersById, orderId, newQuantity).value.0;
    forall x
      ensures Holds(b', x) <==> (Holds(book, x) && x.orderId != t.orderId) || x == n
    {
      if Holds(book, x) && x.orderId == t.orderId {
        assert x == t;
      }
    }
  }

  /** modifyOrder with a changed quantity revises the order in the stored book of its pair over the shared index. */
  lemma ModifyOrderUnfolds(m: Manager, orderId: string, newQuantity: Long)
    requires BookManager.Valid(m) && ModifyOrder(m, Some(orderId), newQuantity).Ok?
    requires m.ordersById[orderId].quantity != newQuantity
    ensures var key := BookKey(m.ordersById[orderId]);
            var r := Modify(m.books[key], m.ordersById, orderId, newQuantity);
            && key in m.books && r.Ok?
            && ModifyOrder(m, Some(orderId), newQuantity).value == (Manager(r.value.1, m.books[key := r.value.0]), r.value.2)
  {
    RestsHeld(m, m.ordersById[orderId]);
  }

  /** A book of another pair does not list the revised id, so it agrees with the revised index. */
  lemma ModifyOtherBook(m: Manager, t: Order, n: Order, k: string)
    requires BooksValid(m) && Rests(m, t) && k in m.books && k != BookKey(t)
    ensures Agrees(m.books[k], m.ordersById[t.orderId := n])
  {
    forall x | Holds(m.books[k], x)
      ensures x.orderId in m.ordersById[t.orderId := n] && m.ordersById[t.orderId := n][x.orderId] == x
    {
      assert BookKey(x) == k;
    }
  }

  /** After a modify every stored book still keeps its invariant, agrees with the index and lists only its pair. */
  lemma ModifyBooksValid(m: Manager, t: Order, n: Order, b': Book)
    requires BooksValid(m) && ModifiedIn(m, t, n, b')
    ensures BooksValid(Manager(m.ordersById[t.orderId := n], m.books[BookKey(t) := b']))
  {
    forall k | k in m.books && k != BookKey(t)
      ensures Agrees(m.books[k], m.ordersById[t.orderId := n])
    {
      ModifyOtherBook(m, t, n, k);
    }
    assert BookKey(n) == BookKey(t);
  }

  /** After a modify every index entry is still listed by the book of its pair. */
  lemma ModifyIndexListed(m: Manager, t: Order, n: Order, b': Book)
    requires IndexListed(m) && ModifiedIn(m, t, n, b')
    ensures IndexListed(Manager(m.ordersById[t.orderId := n], m.books[BookKey(t) := b']))
  {
    var m' := Manager(m.ordersById[t.orderId := n], m.books[BookKey(t) := b']);
    assert BookKey(n) == BookKey(t);
    forall id | id in m'.ordersById
      ensures && m'.ordersById[id].orderId == id
              && BookKey(m'.ordersById[id]) in m'.books
              && Holds(m'.books[BookKey(m'.ordersById[id])], m'.ordersById[id])
    {
      if id != t.orderId {
        assert m'.ordersById[id] == m.ordersById[id];
      }
    }
  }

  /** The manager after a modify, assembled from the revised index and the updated book, is valid. */
  lemma ModifyValid(m: Manager, t: Order, n: Order, b': Book)
    requires BookManager.Valid(m) && ModifiedIn(m, t, n, b')
    ensures BookManager.Valid(Manager(m.ordersById[t.orderId := n], m.books[BookKey(t) := b']))
  {
    ModifyBooksValid(m, t, n, b');
    ModifyIndexListed(m, t, n, b');
  }

  /** modifyOrder keeps the invariant; an unchanged quantity leaves the manager as it was. */
  lemma ModifyOrderPreserves(m: Manager, orderId: string, newQuantity: Long)
    requires BookManager.Valid(m) && ModifyOrder(m, Some(orderId), newQuantity).Ok?
    ensures BookManager.Valid(ModifyOrder(m, Some(orderId), newQuantity).value.0)
  {
    if m.ordersById[orderId].quantity != newQuantity {
      ModifyOrderUnfolds(m, orderId, newQuantity);
      ModifyInBook(m, orderId, newQuantity);
      var t := m.ordersById[orderId];
      var n := t.(quantity := newQuantity);
      ModifyValid(m, t, n, Modify(m.books[BookKey(t)], m.ordersById, orderId, newQuantity).value.0);
    }
  }

  /** Filing a revision under its own id replaces exactly the entry of that id. */
  lemma PutRevision(m: Manager, m': Manager, n: Order)
    requires m'.ordersById == m.ordersById[n.orderId := n]
    ensures forall x :: Rests(m', x) <==> (Rests(m, x) && x.orderId != n.orderId) || x == n
  {
  }

  /** A modify that reports a change swaps the live order for its revision and leaves every other live order live. */
  lemma ModifyOrderRevises(m: Manager, orderId: string, newQuantity: Long)
    requires BookManager.Valid(m) && ModifyOrder(m, Some(orderId), newQuantity).Ok?
    requires ModifyOrder(m, Some(orderId), newQuantity).value.1
    ensures forall x :: Rests(ModifyOrder(m, Some(orderId), newQuantity).value.0, x) <==>
                        (Rests(m, x) && x.orderId != orderId) || x == m.ordersById[orderId].(quantity := newQuantity)
  {
    var t := m.ordersById[orderId];
    assert t.orderId == orderId;
    PutRevision(m, ModifyOrder(m, Some(orderId), newQuantity).value.0, t.(quantity := newQuantity));
  }

  /** With the invariant, addOrder of a present order fails only for a blank instrument or a live id, across all pairs. */
  lemma AddOrderOutcome(m: Manager, o: Order)
    requires BookManager.Valid(m)
    ensures AddOrder(m, Some(o)).Ok? <==> !IsBlank(o.instrument) && o.orderId !in m.ordersById
    ensures !IsBlank(o.instrument) && o.orderId in m.ordersById ==> AddOrder(m, Some(o)) == InvalidArgument(DuplicateId)
  {
    KeyNamesSide(o.instrument, o.side);
  }

  /** With the invariant, deleteOrder succeeds exactly for a live id. */
  lemma DeleteOrderOutcome(m: Manager, orderId: string)
    requires BookManager.Valid(m)
    ensures DeleteOrder(m, Some(orderId)).Ok? <==> orderId in m.ordersById
  {
    if orderId in m.ordersById {
      RestsHeld(m, m.ordersById[orderId]);
    }
  }

  /** With the invariant, modifyOrder succeeds exactly for a live id and a positive quantity, and reports a change exactly when the quantity differs. */
  lemma ModifyOrderOutcome(m: Manager, orderId: string, newQuantity: Long)
    requires BookManager.Valid(m)
    ensures ModifyOrder(m, Some(orderId), newQuantity).Ok? <==> orderId in m.ordersById && newQuantity > 0
    ensures ModifyOrder(m, Some(orderId), newQuantity).Ok? ==>
              (ModifyOrder(m, Some(orderId), newQuantity).value.1 <==> m.ordersById[orderId].quantity != newQuantity)
  {
    if orderId in m.ordersById && newQuantity > 0 {
      if m.ordersById[orderId].quantity != newQuantity {
        ModifyChangedOk(m, orderId, newQuantity);
      } else {
        ModifySameQuantity(m, orderId);
      }
    } else if orderId in m.ordersById {
      RestsHeld(m, m.ordersById[orderId]);
    }
  }

  /** With the invariant, modifyOrder of a live id to a different positive quantity succeeds and reports a change. */
  lemma ModifyChangedOk(m: Manager, orderId: string, newQuantity: Long)
    requires BookManager.Valid(m) && orderId in m.ordersById && newQuantity > 0
    requires m.ordersById[orderId].quantity != newQuantity
    ensures ModifyOrder(m, Some(orderId), newQuantity).Ok? && ModifyOrder(m, Some(orderId), newQuantity).value.1
  {
    var t := m.ordersById[orderId];
    RestsHeld(m, t);
    ModifyInBook(m, orderId, newQuantity);
    assert ValidateString(Some(orderId)) == Ok(orderId);
    assert GetOrderBook(m, Some(t.instrument), Some(t.side)) == Ok(m.books[BookKey(t)]);
  }

  /** modifyOrder to the quantity an order already has changes nothing and answers false. */
  lemma ModifySameQuantity(m: Manager, orderId: string)
    requires BookManager.Valid(m) && orderId in m.ordersById
    ensures ModifyOrder(m, Some(orderId), m.ordersById[orderId].quantity) == Ok((m, false))
  {
    RestsHeld(m, m.ordersById[orderId]);
  }

  /** The best price is the lowest (SELL) or highest (BUY) price among the pair's live orders, and absent exactly when none rests. */
  lemma BestPriceOfResting(m: Manager, instrument: string, side: Side)
    requires BookManager.Valid(m) && !IsBlank(instrument)
    ensures var r := GetBestPrice(m, Some(instrument), Some(side));
            && r.Ok?
            && (r.value.None? <==> forall o :: !RestsIn(m, instrument, side, o))
            && (r.value.Some? ==> exists o :: RestsIn(m, instrument, side, o) && o.price == r.value.value)
            && (r.value.Some? ==> forall o :: RestsIn(m, instrument, side, o) ==>
                  if side == SELL then r.value.value <= o.price else o.price <= r.value.value)
  {
    var b := View(m, instrument, side);
    ViewValid(m, instrument, side);
    ViewIsIndex(m, instrument, side);
    BestPriceOfHeld(b);
  }

  /** The level queries describe the pair's live orders at the price: the list holds exactly them, and count, quantity and volume are its size and sums. */
  lemma LevelQueriesAgree(m: Manager, instrument: string, side: Side, price: Long)
    requires BookManager.Valid(m) && !IsBlank(instrument) && price > 0
    ensures var list := GetOrdersAtLevel(m, Some(instrument), Some(side), price);
            var count := GetOrderNumAtLevel(m, Some(instrument), Some(side), price);
            var quantity := GetTotalQuantityAtLevel(m, Some(instrument), Some(side), price);
            var volume := GetTotalVolumeAtLevel(m, Some(instrument), Some(side), price);
            && list.Ok? && count.Ok? && quantity.Ok? && volume.Ok?
            && (forall o :: o in list.value <==> RestsIn(m, instrument, side, o) && o.price == price)
            && DistinctIds(list.value)
            && count.value == |list.value|
            && quantity.value == SumQuantity(list.value)
            && volume.value == SumVolume(list.value)
            && volume.value == price * quantity.value
  {
    var b := View(m, instrument, side);
    ViewValid(m, instrument, side);
    ViewIsIndex(m, instrument, side);
    if price in b.levels {
      assert LevelValid(side, price, b.levels[price]);
    }
    forall o
      ensures o in OrdersAt(b, price) <==> Holds(b, o) && o.price == price
    {
    }
  }
}
