/** OrderBook.java: the levels of one (instrument, side) pair over the id index shared by the manager. */
module OrderBook {
  import opened Wrappers
  import opened Validation
  import opened Orders
  import opened Prices
  import opened Levels

  /** ordersById: every resting order by id, shared by all books of one manager. */
  type Index = map<string, Order>

  /** One side of one instrument: levels by price and the incrementally kept extreme prices. */
  datatype Book = Book(side: Side, levels: map<int, Level>, minPrice: int, maxPrice: int)

  /** `new OrderBook(side, index)`: no levels, minPrice Long.MAX_VALUE, maxPrice 0. */
  function EmptyBook(side: Side): Book {
    Book(side, map[], LONG_MAX, 0)
  }

  /** The order rests in the book: its price has a level and that level lists it. */
  predicate Holds(b: Book, o: Order) {
    o.price in b.levels && o in b.levels[o.price].orders
  }

  /** The list at a price, empty when no level exists. */
  function OrdersAt(b: Book, price: int): seq<Order> {
    if price in b.levels then b.levels[price].orders else []
  }

  /** A level never persists empty, its totals are the fold of its list, and it lists valid orders of its price and side once each. */
  predicate LevelValid(side: Side, price: int, l: Level) {
    && |l.orders| > 0
    && Consistent(l)
    && DistinctIds(l.orders)
    && forall o :: o in l.orders ==> o.price == price && o.side == side && o.Valid()
  }

  /** The side-relevant extreme is the sentinel when there are no levels and the best key otherwise. */
  predicate BestValid(b: Book) {
    && (b.side == SELL ==> if b.levels == map[] then b.minPrice == LONG_MAX else IsMin(b.minPrice, b.levels.Keys))
    && (b.side == BUY ==> if b.levels == map[] then b.maxPrice == 0 else IsMax(b.maxPrice, b.levels.Keys))
  }

  /** The book's own invariant. */
  predicate Valid(b: Book) {
    && (forall p :: p in b.levels ==> LevelValid(b.side, p, b.levels[p]))
    && BestValid(b)
  }

  /** Every listed order is the index's current value for its id. */
  ghost predicate Agrees(b: Book, idx: Index) {
    forall o :: Holds(b, o) ==> o.orderId in idx && idx[o.orderId] == o
  }

  /** add: checks side and id uniqueness, appends at the tail of the price's level, records the order, widens min/max. */
  function Add(b: Book, idx: Index, o: Order): (r: Result<(Book, Index)>)
    ensures r.InvalidArgument? <==> o.side != b.side || o.orderId in idx
    ensures o.side != b.side ==> r == InvalidArgument(WrongSide)
    ensures o.side == b.side && o.orderId in idx ==> r == InvalidArgument(DuplicateId)
    ensures r.Ok? ==> r.value.1 == idx[o.orderId := o]
    ensures r.Ok? ==> r.value.0.side == b.side && r.value.0.levels.Keys == b.levels.Keys + {o.price}
    ensures r.Ok? ==> OrdersAt(r.value.0, o.price) == OrdersAt(b, o.price) + [o]
    ensures r.Ok? ==> forall p :: p != o.price ==> OrdersAt(r.value.0, p) == OrdersAt(b, p)
  {
    if o.side != b.side then InvalidArgument(WrongSide)
    else if o.orderId in idx then InvalidArgument(DuplicateId)
    else Ok((Insert(b, o), idx[o.orderId := o]))
  }

  /** The level and extreme-price updates of add, once its checks have passed. */
  function Insert(b: Book, o: Order): (r: Book)
    ensures r.side == b.side && r.levels.Keys == b.levels.Keys + {o.price}
    ensures OrdersAt(r, o.price) == OrdersAt(b, o.price) + [o]
    ensures forall p :: p != o.price && p in b.levels ==> r.levels[p] == b.levels[p]
    ensures forall p :: p != o.price ==> OrdersAt(r, p) == OrdersAt(b, p)
  {
    var level := if o.price in b.levels then Append(b.levels[o.price], o) else NewLevel(o);
    Book(b.side, b.levels[o.price := level], Min(b.minPrice, o.price), Max(b.maxPrice, o.price))
  }

  /** getBestPrice: empty without levels, else minPrice for SELL and maxPrice for BUY. */
  function BestPrice(b: Book): (r: Option<int>)
    ensures r.None? <==> b.levels == map[]
    ensures Valid(b) && r.Some? ==> r.value in b.levels
  {
    if b.levels == map[] then None
    else if b.side == SELL then Some(b.minPrice)
    else Some(b.maxPrice)
  }

  /** getOrderNumAtLevel. */
  function OrderNumAtLevel(b: Book, priceLevel: Long): (r: Result<int>)
    ensures r.InvalidArgument? <==> priceLevel <= 0
    ensures r.InvalidArgument? ==> r.reason == NonPositiveLevel
    ensures r.Ok? ==> r.value == |OrdersAt(b, priceLevel)|
  {
    if priceLevel <= 0 then InvalidArgument(NonPositiveLevel)
    else if priceLevel in b.levels then Ok(|b.levels[priceLevel].orders|)
    else Ok(0)
  }

  /** getTotalQuantityAtLevel: the running total, 0 for an absent level. */
  function TotalQuantityAtLevel(b: Book, priceLevel: Long): (r: Result<int>)
    ensures r.InvalidArgument? <==> priceLevel <= 0
    ensures r.InvalidArgument? ==> r.reason == NonPositiveLevel
    ensures r.Ok? && priceLevel !in b.levels ==> r.value == 0
    ensures r.Ok? && Valid(b) ==> r.value == SumQuantity(OrdersAt(b, priceLevel))
  {
    if priceLevel <= 0 then InvalidArgument(NonPositiveLevel)
    else if priceLevel in b.levels then Ok(b.levels[priceLevel].stats.totalQuantity)
    else Ok(0)
  }

  /** getTotalVolumeAtpriceLevel: the running sum of price times quantity, 0 for an absent level. */
  function TotalVolumeAtLevel(b: Book, priceLevel: Long): (r: Result<int>)
    ensures r.InvalidArgument? <==> priceLevel <= 0
    ensures r.InvalidArgument? ==> r.reason == NonPositiveLevel
    ensures r.Ok? && priceLevel !in b.levels ==> r.value == 0
    ensures r.Ok? && Valid(b) ==> r.value == SumVolume(OrdersAt(b, priceLevel))
    ensures r.Ok? && Valid(b) ==> r.value == priceLevel * SumQuantity(OrdersAt(b, priceLevel))
  {
    if priceLevel <= 0 then InvalidArgument(NonPositiveLevel)
    else if priceLevel in b.levels then
      var os := b.levels[priceLevel].orders;
      assert Valid(b) ==> SumVolume(os) == priceLevel * SumQuantity(os) by {
        if Valid(b) {
          VolumeIsPriceTimesQuantity(os, priceLevel);
        }
      }
      Ok(b.levels[priceLevel].stats.totalVolume)
    else Ok(0)
  }

  /** getOrdersAtLevel: a snapshot of the level's list, empty for an absent level. */
  function OrdersAtLevel(b: Book, priceLevel: Long): (r: Result<seq<Order>>)
    ensures r.InvalidArgument? <==> priceLevel <= 0
    ensures r.InvalidArgument? ==> r.reason == NonPositiveLevel
    ensures r.Ok? ==> r.value == OrdersAt(b, priceLevel)
    ensures r.Ok? && Valid(b) ==> forall o :: o in r.value ==> Holds(b, o) && o.price == priceLevel && o.side == b.side
  {
    if priceLevel <= 0 then InvalidArgument(NonPositiveLevel)
    else if priceLevel in b.levels then Ok(b.levels[priceLevel].orders)
    else Ok([])
  }

  /** removeAndResetMinMax: drops the order from its level, drops an emptied level, rescans the side-relevant extreme. */
  function RemoveAndResetMinMax(b: Book, toDelete: Order): (r: Book)
    requires toDelete.price in b.levels
    ensures r.side == b.side
    ensures OrdersAt(r, toDelete.price) == WithoutId(OrdersAt(b, toDelete.price), toDelete.orderId)
    ensures forall p :: p != toDelete.price ==> OrdersAt(r, p) == OrdersAt(b, p)
    ensures r.levels.Keys == if OrdersAt(r, toDelete.price) == [] then b.levels.Keys - {toDelete.price} else b.levels.Keys
  {
    var p := toDelete.price;
    var level := Remove(b.levels[p], toDelete);
    var levels := if |level.orders| == 0 then b.levels - {p} else b.levels[p := level];
    if b.side == SELL then Book(b.side, levels, RescanMin(levels.Keys), b.maxPrice)
    else Book(b.side, levels, b.minPrice, RescanMax(levels.Keys))
  }

  /** delete: validates the id, removes it from the index (failing if absent), then from its level. */
  function Delete(b: Book, idx: Index, orderId: string): (r: Result<(Book, Index, Order)>)
    requires orderId in idx ==> idx[orderId].price in b.levels
    ensures r.InvalidArgument? <==> IsBlank(orderId) || orderId !in idx
    ensures !IsBlank(orderId) && orderId !in idx ==> r == InvalidArgument(UnknownId)
    ensures r.Ok? ==> r.value.2 == idx[orderId] && r.value.1 == idx - {orderId}
    ensures r.Ok? ==> r.value.0 == RemoveAndResetMinMax(b, idx[orderId])
  {
    var id :- ValidateString(Some(orderId));
    if id !in idx then InvalidArgument(UnknownId)
    else
      var toDelete := idx[id];
      Ok((RemoveAndResetMinMax(b, toDelete), idx - {id}, toDelete))
  }

  /** modifyUp: the revision loses its place and joins the tail of the same level. */
  function ModifyUp(b: Book, order: Order, newOrder: Order): (r: (Book, bool))
    requires order.price in b.levels
    ensures r.1 && r.0.side == b.side && r.0.levels.Keys == b.levels.Keys
    ensures r.0.minPrice == b.minPrice && r.0.maxPrice == b.maxPrice
    ensures OrdersAt(r.0, order.price) == WithoutId(OrdersAt(b, order.price), order.orderId) + [newOrder]
    ensures forall p :: p != order.price ==> OrdersAt(r.0, p) == OrdersAt(b, p)
  {
    var level := Append(Remove(b.levels[order.price], order), newOrder);
    (b.(levels := b.levels[order.price := level]), true)
  }

  /** modifyDown: the revision takes the place of the first list entry equal to the old order, if any. */
  function ModifyDown(b: Book, order: Order, newOrder: Order): (r: (Book, bool))
    requires order.price in b.levels
    ensures r.1 <==> order in OrdersAt(b, order.price)
    ensures !r.1 ==> r.0 == b
    ensures r.0.side == b.side && r.0.levels.Keys == b.levels.Keys
    ensures r.0.minPrice == b.minPrice && r.0.maxPrice == b.maxPrice
    ensures r.1 ==> OrdersAt(r.0, order.price) == OrdersAt(b, order.price)[IndexOfOrder(OrdersAt(b, order.price), order) := newOrder]
    ensures forall p :: p != order.price ==> OrdersAt(r.0, p) == OrdersAt(b, p)
  {
    var level := b.levels[order.price];
    var index := IndexOfOrder(level.orders, order);
    if index != -1 then
      (b.(levels := b.levels[order.price := ReplaceAt(level, index, order, newOrder)]), true)
    else
      (b, false)
  }

  /** modify: revises the indexed order's quantity, re-indexes the revision, then moves it (increase) or replaces it in place (otherwise). */
  function Modify(b: Book, idx: Index, orderId: string, newQuantity: Long): (r: Result<(Book, Index, bool)>)
    requires orderId in idx ==> idx[orderId].price in b.levels
    ensures orderId !in idx ==> r == InvalidArgument(NullArgument)
    ensures orderId in idx && idx[orderId].Valid() ==> (r.Ok? <==> newQuantity > 0)
    ensures r.Ok? ==>
              var order := idx[orderId];
              var newOrder := order.(quantity := newQuantity);
              var before := OrdersAt(b, order.price);
              var after := OrdersAt(r.value.0, order.price);
              && r.value.1 == idx[order.orderId := newOrder]
              && r.value.0.side == b.side && r.value.0.levels.Keys == b.levels.Keys
              && r.value.0.minPrice == b.minPrice && r.value.0.maxPrice == b.maxPrice
              && (forall p :: p != order.price ==> OrdersAt(r.value.0, p) == OrdersAt(b, p))
              && (newQuantity > order.quantity ==> r.value.2 && after == WithoutId(before, order.orderId) + [newOrder])
              && (newQuantity <= order.quantity ==> (r.value.2 <==> order in before))
              && (newQuantity <= order.quantity && r.value.2 ==> after == before[IndexOfOrder(before, order) := newOrder])
  {
    var order := if orderId in idx then Some(idx[orderId]) else None;
    var newOrder :- Revise(order, newQuantity);
    var idx' := idx[newOrder.orderId := newOrder];
    var (book, changed) := if newQuantity > order.value.quantity then ModifyUp(b, order.value, newOrder)
                           else ModifyDown(b, order.value, newOrder);
    Ok((book, idx', changed))
  }
}
