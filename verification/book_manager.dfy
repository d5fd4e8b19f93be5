/** OrderBookManagerImpl.java: routes each call to the book of its (instrument, side) pair over one shared id index. */
module BookManager {
  import opened Wrappers
  import opened Validation
  import opened Orders
  import opened Levels
  import opened OrderBook

  /** m_ordersById and m_ordersByInstrumentSide: the shared index and the books created so far, by book key. */
  datatype Manager = Manager(ordersById: Index, books: map<string, Book>)

  /** A freshly constructed manager. */
  function Empty(): Manager {
    Manager(map[], map[])
  }

  /** What getOrderBook without `create` answers: the stored book, or the empty book of the side (EMPTY_BUY_BOOK, EMPTY_SELL_BOOK). */
  function View(m: Manager, instrument: string, side: Side): Book {
    var key := SideInstrumentKey(instrument, side);
    if key in m.books then m.books[key] else EmptyBook(side)
  }

  /** getOrderBook(instrument, side, false): side is checked before the instrument; no book is created. */
  function GetOrderBook(m: Manager, instrument: Option<string>, side: Option<Side>): (r: Result<Book>)
    ensures side.None? ==> r == InvalidArgument(NullArgument)
    ensures side.Some? && instrument.None? ==> r == InvalidArgument(NullArgument)
    ensures side.Some? && instrument.Some? && IsBlank(instrument.value) ==> r == InvalidArgument(BlankArgument)
    ensures r.Ok? <==> side.Some? && instrument.Some? && !IsBlank(instrument.value)
    ensures r.Ok? ==> r.value == View(m, instrument.value, side.value)
  {
    var s :- ValidateObject(side);
    var i :- ValidateString(instrument);
    var key := SideInstrumentKey(i, s);
    if key in m.books then Ok(m.books[key]) else Ok(EmptyBook(s))
  }

  /** The index the order's book was built over: the shared one, or the empty map of EMPTY_BUY_BOOK and EMPTY_SELL_BOOK. */
  function BookIndex(m: Manager, order: Order): Index {
    if BookKey(order) in m.books then m.ordersById else map[]
  }

  /**
   * The manager after the order's book changed: a stored book and the shared index
   * are updated; the updates to an unstored empty book are lost with it.
   */
  function Store(m: Manager, order: Order, book: Book, idx: Index): Manager {
    if BookKey(order) in m.books then Manager(idx, m.books[BookKey(order) := book]) else m
  }

  /**
   * Every stored order's level exists in the book its key names: the state in which
   * OrderBook.delete and OrderBook.modify find the level they dereference.
   */
  predicate LevelsCover(m: Manager) {
    forall id :: id in m.ordersById && BookKey(m.ordersById[id]) in m.books ==>
      m.ordersById[id].price in m.books[BookKey(m.ordersById[id])].levels
  }

  /**
   * addOrder: rejects a missing order, finds or creates the book of the order's pair
   * (validating the instrument on the way), and adds the order over the shared index.
   */
  function AddOrder(m: Manager, order: Option<Order>): (r: Result<Manager>)
    ensures order.None? ==> r == InvalidArgument(NullArgument)
    ensures order.Some? && IsBlank(order.value.instrument) ==> r == InvalidArgument(BlankArgument)
    ensures order.Some? && !IsBlank(order.value.instrument) ==> r == AddToPair(m, order.value)
  {
    var o :- ValidateObject(order);
    var i :- ValidateString(Some(o.instrument));
    AddToPair(m, o)
  }

  /** getOrCreateOrderBook(order).add(order): the stored book of the pair, or a new empty one, takes the order. */
  function AddToPair(m: Manager, o: Order): (r: Result<Manager>)
    ensures var key := BookKey(o);
            && (r.Ok? <==> o.orderId !in m.ordersById && (key in m.books ==> m.books[key].side == o.side))
            && (o.orderId in m.ordersById && (key in m.books ==> m.books[key].side == o.side) ==> r == InvalidArgument(DuplicateId))
    ensures r.Ok? ==>
              var key := BookKey(o);
              && r.value.ordersById == m.ordersById[o.orderId := o]
              && key in r.value.books
              && r.value.books == m.books[key := r.value.books[key]]
  {
    var key := BookKey(o);
    var book := if key in m.books then m.books[key] else EmptyBook(o.side);
    var added :- Add(book, m.ordersById, o);
    Ok(Manager(added.1, m.books[key := added.0]))
  }

  /**
   * modifyOrder: validates the id and quantity, looks the order up (failing if absent),
   * answers false for an unchanged quantity, and otherwise lets the order's book modify it.
   */
  function ModifyOrder(m: Manager, orderId: Option<string>, newQuantity: Long): (r: Result<(Manager, bool)>)
    requires LevelsCover(m)
    ensures orderId.None? ==> r == InvalidArgument(NullArgument)
    ensures orderId.Some? && IsBlank(orderId.value) ==> r == InvalidArgument(BlankArgument)
    ensures orderId.Some? && !IsBlank(orderId.value) && newQuantity <= 0 ==> r == InvalidArgument(NonPositiveQuantity)
    ensures orderId.Some? && !IsBlank(orderId.value) && newQuantity > 0 && orderId.value !in m.ordersById ==>
              r == InvalidArgument(UnknownId)
    ensures (orderId.Some? && !IsBlank(orderId.value) && newQuantity > 0 && orderId.value in m.ordersById &&
             m.ordersById[orderId.value].quantity == newQuantity) ==> r == Ok((m, false))
    ensures r.Ok? && r.value.1 ==>
              var order := m.ordersById[orderId.value];
              var key := BookKey(order);
              && order.quantity != newQuantity
              && r.value.0.ordersById == m.ordersById[order.orderId := order.(quantity := newQuantity)]
              && key in m.books && key in r.value.0.books
              && r.value.0.books == m.books[key := r.value.0.books[key]]
  {
    var id :- ValidateString(orderId);
    if newQuantity <= 0 then InvalidArgument(NonPositiveQuantity)
    else if id !in m.ordersById then InvalidArgument(UnknownId)
    else
      var order := m.ordersById[id];
      if order.quantity == newQuantity then Ok((m, false))
      else
        var book :- GetOrderBook(m, Some(order.instrument), Some(order.side));
        var modified :- Modify(book, BookIndex(m, order), id, newQuantity);
        Ok((Store(m, order, modified.0, modified.1), modified.2))
  }

  /**
   * deleteOrder: validates the id, looks the order up (failing if absent) and deletes it
   * from its book; the answer is always true, since a missing order is an error.
   */
  function DeleteOrder(m: Manager, orderId: Option<string>): (r: Result<(Manager, bool)>)
    requires LevelsCover(m)
    ensures orderId.None? ==> r == InvalidArgument(NullArgument)
    ensures orderId.Some? && IsBlank(orderId.value) ==> r == InvalidArgument(BlankArgument)
    ensures orderId.Some? && !IsBlank(orderId.value) && orderId.value !in m.ordersById ==> r == InvalidArgument(UnknownId)
    ensures r.Ok? ==>
              var order := m.ordersById[orderId.value];
              var key := BookKey(order);
              && r.value.1
              && r.value.0.ordersById == m.ordersById - {orderId.value}
              && key in m.books && key in r.value.0.books
              && r.value.0.books == m.books[key := r.value.0.books[key]]
  {
    var id :- ValidateString(orderId);
    if id !in m.ordersById then InvalidArgument(UnknownId)
    else
      var order := m.ordersById[id];
      var book :- GetOrderBook(m, Some(order.instrument), Some(order.side));
      var deleted :- Delete(book, BookIndex(m, order), id);
      Ok((Store(m, order, deleted.0, deleted.1), true))
  }

  /** getBestPrice: the best price of the pair's book; never creates a book. */
  function GetBestPrice(m: Manager, instrument: Option<string>, side: Option<Side>): (r: Result<Option<int>>)
    ensures r.Ok? <==> side.Some? && instrument.Some? && !IsBlank(instrument.value)
    ensures r.Ok? ==> (r.value.None? <==> View(m, instrument.value, side.value).levels == map[])
  {
    var b :- GetOrderBook(m, instrument, side);
    Ok(BestPrice(b))
  }

  /** getOrderNumAtLevel: the number of orders listed at the price in the pair's book. */
  function GetOrderNumAtLevel(m: Manager, instrument: Option<string>, side: Option<Side>, priceLevel: Long): (r: Result<int>)
    ensures r.Ok? <==> side.Some? && instrument.Some? && !IsBlank(instrument.value) && priceLevel > 0
    ensures side.Some? && instrument.Some? && !IsBlank(instrument.value) && priceLevel <= 0 ==> r == InvalidArgument(NonPositiveLevel)
    ensures r.Ok? ==> r.value == |OrdersAt(View(m, instrument.value, side.value), priceLevel)|
  {
    var b :- GetOrderBook(m, instrument, side);
    OrderNumAtLevel(b, priceLevel)
  }

  /** getTotalQuantityAtLevel: the kept quantity total of the price's level in the pair's book. */
  function GetTotalQuantityAtLevel(m: Manager, instrument: Option<string>, side: Option<Side>, priceLevel: Long): (r: Result<int>)
    ensures r.Ok? <==> side.Some? && instrument.Some? && !IsBlank(instrument.value) && priceLevel > 0
    ensures side.Some? && instrument.Some? && !IsBlank(instrument.value) && priceLevel <= 0 ==> r == InvalidArgument(NonPositiveLevel)
    ensures r.Ok? && priceLevel !in View(m, instrument.value, side.value).levels ==> r.value == 0
    ensures r.Ok? && OrderBook.Valid(View(m, instrument.value, side.value)) ==>
              r.value == SumQuantity(OrdersAt(View(m, instrument.value, side.value), priceLevel))
  {
    var b :- GetOrderBook(m, instrument, side);
    TotalQuantityAtLevel(b, priceLevel)
  }

  /** getTotalVolumeAtLevel: the kept volume total of the price's level in the pair's book. */
  function GetTotalVolumeAtLevel(m: Manager, instrument: Option<string>, side: Option<Side>, priceLevel: Long): (r: Result<int>)
    ensures r.Ok? <==> side.Some? && instrument.Some? && !IsBlank(instrument.value) && priceLevel > 0
    ensures side.Some? && instrument.Some? && !IsBlank(instrument.value) && priceLevel <= 0 ==> r == InvalidArgument(NonPositiveLevel)
    ensures r.Ok? && priceLevel !in View(m, instrument.value, side.value).levels ==> r.value == 0
    ensures r.Ok? && OrderBook.Valid(View(m, instrument.value, side.value)) ==>
              r.value == SumVolume(OrdersAt(View(m, instrument.value, side.value), priceLevel))
  {
    var b :- GetOrderBook(m, instrument, side);
    TotalVolumeAtLevel(b, priceLevel)
  }

  /** getOrdersAtLevel: the arrival-ordered list at the price in the pair's book, empty when there is no level. */
  function GetOrdersAtLevel(m: Manager, instrument: Option<string>, side: Option<Side>, priceLevel: Long): (r: Result<seq<Order>>)
    ensures r.Ok? <==> side.Some? && instrument.Some? && !IsBlank(instrument.value) && priceLevel > 0
    ensures side.Some? && instrument.Some? && !IsBlank(instrument.value) && priceLevel <= 0 ==> r == InvalidArgument(NonPositiveLevel)
    ensures r.Ok? ==> r.value == OrdersAt(View(m, instrument.value, side.value), priceLevel)
  {
    var b :- GetOrderBook(m, instrument, side);
    OrdersAtLevel(b, priceLevel)
  }

  /** The order is live: the index holds it under its own id. */
  ghost predicate Rests(m: Manager, o: Order) {
    o.orderId in m.ordersById && m.ordersById[o.orderId] == o
  }

  /** Each stored book has the side its key names. */
  predicate SidesMatch(m: Manager) {
    forall k :: k in m.books ==> KeySide(k) == m.books[k].side
  }

  /** Each stored book keeps its own invariant, agrees with the index, and lists only orders of its pair. */
  ghost predicate BooksValid(m: Manager) {
    forall k :: k in m.books ==>
      && OrderBook.Valid(m.books[k])
      && Agrees(m.books[k], m.ordersById)
      && (forall o :: Holds(m.books[k], o) ==> BookKey(o) == k)
  }

  /** Each index entry is filed under its own id and rests in the book of its pair. */
  ghost predicate IndexListed(m: Manager) {
    forall id :: id in m.ordersById ==>
      && m.ordersById[id].orderId == id
      && BookKey(m.ordersById[id]) in m.books
      && Holds(m.books[BookKey(m.ordersById[id])], m.ordersById[id])
  }

  /** The manager's invariant: the index and the books describe the same resting orders. */
  ghost predicate Valid(m: Manager) {
    SidesMatch(m) && BooksValid(m) && IndexListed(m)
  }
}
