/** Runs of OrderBookManager calls from a new manager: every reachable state keeps the invariant, and a drained pair reads empty. */
module ManagerRuns {
  import opened Wrappers
  import opened Validation
  import opened Orders
  import opened Levels
  import opened OrderBook
  import opened BookManager
  import opened ManagerInvariants

  /** One state-changing call of OrderBookManager; the queries leave the manager as it is. */
  datatype Call =
    | AddCall(order: Option<Order>)
    | ModifyCall(orderId: Option<string>, newQuantity: Long)
    | DeleteCall(orderId: Option<string>)

  /** A passed order was built by one of Order's constructors, all of which validate. */
  predicate WellFormed(c: Call) {
    c.AddCall? && c.order.Some? ==> c.order.value.Valid()
  }

  /** Every call of the run passes well-formed arguments. */
  predicate AllWellFormed(calls: seq<Call>) {
    forall k :: 0 <= k < |calls| ==> WellFormed(calls[k])
  }

  /**
   * What a call may do to the index of live orders: nothing (it threw, or answered without a
   * change), or the one change it names. An add files a new id; a modify revises the quantity of a
   * live id; a delete retires the id it names, which is absent afterwards in every case.
   */
  predicate IndexEffect(before: map<string, Order>, c: Call, after: map<string, Order>) {
    match c
    case AddCall(order) =>
      after == before || (order.Some? && order.value.orderId !in before && after == before[order.value.orderId := order.value])
    case ModifyCall(orderId, newQuantity) =>
      after == before ||
      (orderId.Some? && orderId.value in before && after == before[orderId.value := before[orderId.value].(quantity := newQuantity)])
    case DeleteCall(orderId) =>
      && (after == before || (orderId.Some? && after == before - {orderId.value}))
      && (orderId.Some? ==> orderId.value !in after)
  }

  /**
   * One call against the manager: a call that throws leaves the manager as it was, one that
   * returns commits its update. Either way the invariant holds afterwards and the index changes
   * only as the call names.
   */
  function Step(m: Manager, c: Call): (r: Manager)
    requires BookManager.Valid(m) && WellFormed(c)
    ensures BookManager.Valid(r)
    ensures IndexEffect(m.ordersById, c, r.ordersById)
  {
    ValidCovers(m);
    match c
    case AddCall(order) =>
      var res := AddOrder(m, order);
      if res.Ok? then
        AddOrderPreserves(m, order.value);
        res.value
      else m
    case ModifyCall(orderId, newQuantity) =>
      var res := ModifyOrder(m, orderId, newQuantity);
      if res.Ok? then
        ModifyOrderPreserves(m, orderId.value, newQuantity);
        ModifyOrderOutcome(m, orderId.value, newQuantity);
        res.value.0
      else m
    case DeleteCall(orderId) =>
      var res := DeleteOrder(m, orderId);
      if orderId.Some? then
        DeleteOrderOutcome(m, orderId.value);
        if res.Ok? then
          DeleteOrderPreserves(m, orderId.value);
          res.value.0
        else m
      else m
  }

  /** The manager after the first `n` calls, one after another. */
  function RunPrefix(m: Manager, calls: seq<Call>, n: nat): (r: Manager)
    requires BookManager.Valid(m) && AllWellFormed(calls) && n <= |calls|
    ensures BookManager.Valid(r)
    decreases n
  {
    if n == 0 then m else Step(RunPrefix(m, calls, n - 1), calls[n - 1])
  }

  /** Call `k` of a run changes the index only as it names. */
  lemma StepLinks(m: Manager, calls: seq<Call>, k: nat)
    requires BookManager.Valid(m) && AllWellFormed(calls) && k < |calls|
    ensures IndexEffect(RunPrefix(m, calls, k).ordersById, calls[k], RunPrefix(m, calls, k + 1).ordersById)
  {
  }

  /** The manager after every call of the run. */
  function Run(m: Manager, calls: seq<Call>): (r: Manager)
    requires BookManager.Valid(m) && AllWellFormed(calls)
    ensures BookManager.Valid(r)
  {
    RunPrefix(m, calls, |calls|)
  }

  /**
   * The manager a new OrderBookManagerImpl reaches by the run. It keeps the invariant, so every
   * later delete and modify finds its level.
   */
  function Reach(calls: seq<Call>): (r: Manager)
    requires AllWellFormed(calls)
    ensures BookManager.Valid(r) && LevelsCover(r)
  {
    EmptyValid();
    var r := Run(Empty(), calls);
    ValidCovers(r);
    r
  }

  /** The call is an add of an order with this id. */
  predicate AddsId(c: Call, id: string) {
    c.AddCall? && c.order.Some? && c.order.value.orderId == id
  }

  /** The call is an add of an order of this (instrument, side) pair. */
  predicate AddsFor(c: Call, instrument: string, side: Side) {
    c.AddCall? && c.order.Some? && c.order.value.instrument == instrument && c.order.value.side == side
  }

  /** Among the first `n` calls the id is deleted, and not added again afterwards. */
  predicate DeletedBy(calls: seq<Call>, n: nat, id: string) {
    exists k :: 0 <= k < n <= |calls| && calls[k] == DeleteCall(Some(id)) &&
                forall j :: k < j < n ==> !AddsId(calls[j], id)
  }

  /** The id is live in the index for the pair. */
  predicate LiveFor(index: map<string, Order>, id: string, instrument: string, side: Side) {
    id in index && index[id].instrument == instrument && index[id].side == side
  }

  /** A call that does not add the id for a pair leaves it not live for that pair. */
  lemma EffectKeepsNotLive(before: map<string, Order>, c: Call, after: map<string, Order>, id: string, instrument: string, side: Side)
    requires IndexEffect(before, c, after) && !LiveFor(before, id, instrument, side)
    requires !(AddsId(c, id) && AddsFor(c, instrument, side))
    ensures !LiveFor(after, id, instrument, side)
  {
  }

  /** A call that does not add the id leaves it absent. */
  lemma EffectKeepsAbsent(before: map<string, Order>, c: Call, after: map<string, Order>, id: string)
    requires IndexEffect(before, c, after) && id !in before && !AddsId(c, id)
    ensures id !in after
  {
  }

  /** A delete of an id leaves it absent. */
  lemma EffectRetires(before: map<string, Order>, id: string, after: map<string, Order>)
    requires IndexEffect(before, DeleteCall(Some(id)), after)
    ensures id !in after
  {
  }

  /** Each of the first `n` calls changes the index before it into the one after it only as it names. */
  predicate Linked(ixs: seq<map<string, Order>>, calls: seq<Call>, n: nat) {
    n < |ixs| && n <= |calls| && forall k :: 0 <= k < n ==> IndexEffect(ixs[k], calls[k], ixs[k + 1])
  }

  /** Along linked indexes, an id no call adds for a pair, and not live for it at the start, is not live for it at the end. */
  lemma {:induction false} NeverAddedNotLive(ixs: seq<map<string, Order>>, calls: seq<Call>, n: nat, id: string, instrument: string, side: Side)
    requires Linked(ixs, calls, n) && !LiveFor(ixs[0], id, instrument, side)
    requires forall k :: 0 <= k < n ==> !(AddsId(calls[k], id) && AddsFor(calls[k], instrument, side))
    ensures !LiveFor(ixs[n], id, instrument, side)
    decreases n
  {
    if n > 0 {
      NeverAddedNotLive(ixs, calls, n - 1, id, instrument, side);
      EffectKeepsNotLive(ixs[n - 1], calls[n - 1], ixs[n], id, instrument, side);
    }
  }

  /** Along linked indexes, an id deleted by call `k`, and not added again by a later call, is absent at the end. */
  lemma {:induction false} DeletedStaysAbsent(ixs: seq<map<string, Order>>, calls: seq<Call>, n: nat, id: string, k: nat)
    requires Linked(ixs, calls, n) && k < n
    requires calls[k] == DeleteCall(Some(id)) && forall j :: k < j < n ==> !AddsId(calls[j], id)
    ensures id !in ixs[n]
    decreases n
  {
    if k < n - 1 {
      DeletedStaysAbsent(ixs, calls, n - 1, id, k);
      EffectKeepsAbsent(ixs[n - 1], calls[n - 1], ixs[n], id);
    } else {
      EffectRetires(ixs[n - 1], id, ixs[n]);
    }
  }

  /** The indexes a run passes through, the start included. */
  function Indexes(m: Manager, calls: seq<Call>): (ixs: seq<map<string, Order>>)
    requires BookManager.Valid(m) && AllWellFormed(calls)
    ensures |ixs| == |calls| + 1
    ensures forall k :: 0 <= k <= |calls| ==> ixs[k] == RunPrefix(m, calls, k).ordersById
  {
    seq(|calls| + 1, k requires 0 <= k <= |calls| => RunPrefix(m, calls, k).ordersById)
  }

  /** The indexes a run passes through are linked by its calls. */
  lemma RunLinked(m: Manager, calls: seq<Call>)
    requires BookManager.Valid(m) && AllWellFormed(calls)
    ensures Linked(Indexes(m, calls), calls, |calls|)
  {
    var ixs := Indexes(m, calls);
    forall k | 0 <= k < |calls|
      ensures IndexEffect(ixs[k], calls[k], ixs[k + 1])
    {
      StepLinks(m, calls, k);
    }
  }

  /** A non-empty sequence has its head as a member. */
  lemma HeadMember<T>(s: seq<T>)
    ensures s != [] ==> s[0] in s
  {
  }

  /**
   * Once every order added for a pair has been deleted (and not re-added), the pair reads empty:
   * no best price, and at every positive level no orders, quantity 0 and volume 0.
   */
  lemma DrainedPairReadsEmpty(calls: seq<Call>, instrument: string, side: Side)
    requires AllWellFormed(calls) && !IsBlank(instrument)
    requires forall k :: 0 <= k < |calls| && AddsFor(calls[k], instrument, side) ==>
               DeletedBy(calls, |calls|, calls[k].order.value.orderId)
    ensures var m := Reach(calls);
            && GetBestPrice(m, Some(instrument), Some(side)) == Ok(None)
            && forall p: Long :: p > 0 ==>
                 && GetOrdersAtLevel(m, Some(instrument), Some(side), p) == Ok([])
                 && GetOrderNumAtLevel(m, Some(instrument), Some(side), p) == Ok(0)
                 && GetTotalQuantityAtLevel(m, Some(instrument), Some(side), p) == Ok(0)
                 && GetTotalVolumeAtLevel(m, Some(instrument), Some(side), p) == Ok(0)
  {
    EmptyValid();
    var m := Reach(calls);
    RunLinked(Empty(), calls);
    var ixs := Indexes(Empty(), calls);
    assert ixs[0] == Empty().ordersById && ixs[|calls|] == m.ordersById;
    forall x
      ensures !RestsIn(m, instrument, side, x)
    {
      if forall k :: 0 <= k < |calls| ==> !(AddsId(calls[k], x.orderId) && AddsFor(calls[k], instrument, side)) {
        NeverAddedNotLive(ixs, calls, |calls|, x.orderId, instrument, side);
      } else {
        var k :| 0 <= k < |calls| && AddsId(calls[k], x.orderId) && AddsFor(calls[k], instrument, side);
        var d :| 0 <= d < |calls| && calls[d] == DeleteCall(Some(x.orderId)) &&
                 forall j :: d < j < |calls| ==> !AddsId(calls[j], x.orderId);
        DeletedStaysAbsent(ixs, calls, |calls|, x.orderId, d);
      }
    }
    BestPriceOfResting(m, instrument, side);
    forall p: Long | p > 0
      ensures && GetOrdersAtLevel(m, Some(instrument), Some(side), p) == Ok([])
              && GetOrderNumAtLevel(m, Some(instrument), Some(side), p) == Ok(0)
              && GetTotalQuantityAtLevel(m, Some(instrument), Some(side), p) == Ok(0)
              && GetTotalVolumeAtLevel(m, Some(instrument), Some(side), p) == Ok(0)
    {
      LevelQueriesAgree(m, instrument, side, p);
      var list := GetOrdersAtLevel(m, Some(instrument), Some(side), p).value;
      HeadMember(list);
    }
  }

  /**
   * One round of ConcurrencyLifecycleTest.lifecycle(): three SELL and three BUY orders of
   * "microscope" at 300, 400 and 500, each side modified, then all six deleted. The ids stand for
   * the UUIDs the round draws.
   */
  function LifecycleCalls(ids: seq<string>): (calls: seq<Call>)
    requires |ids| == 6
    ensures |calls| == 18
  {
    [ AddCall(Some(Order(ids[0], "microscope", SELL, 300, 5))),
      AddCall(Some(Order(ids[1], "microscope", SELL, 400, 5))),
      AddCall(Some(Order(ids[2], "microscope", SELL, 500, 5))),
      ModifyCall(Some(ids[0]), 1), ModifyCall(Some(ids[1]), 1), ModifyCall(Some(ids[2]), 6),
      AddCall(Some(Order(ids[3], "microscope", BUY, 300, 5))),
      AddCall(Some(Order(ids[4], "microscope", BUY, 400, 5))),
      AddCall(Some(Order(ids[5], "microscope", BUY, 500, 50))),
      ModifyCall(Some(ids[3]), 1), ModifyCall(Some(ids[4]), 1), ModifyCall(Some(ids[5]), 6),
      DeleteCall(Some(ids[0])), DeleteCall(Some(ids[1])), DeleteCall(Some(ids[2])),
      DeleteCall(Some(ids[3])), DeleteCall(Some(ids[4])), DeleteCall(Some(ids[5])) ]
  }

  /** The orders a lifecycle round adds pass Order's validation. */
  lemma LifecycleWellFormed(ids: seq<string>)
    requires |ids| == 6 && forall j :: 0 <= j < 6 ==> !IsBlank(ids[j])
    ensures AllWellFormed(LifecycleCalls(ids))
  {
    var instrument := "microscope";
    assert !IsSpace(instrument[0]) && !ContainsSeparator(instrument);
  }

  /** Every order a lifecycle round adds is deleted later in the round, and never added again. */
  lemma LifecycleDeletesAdds(ids: seq<string>, side: Side)
    requires |ids| == 6
    ensures var calls := LifecycleCalls(ids);
            forall k :: 0 <= k < |calls| && AddsFor(calls[k], "microscope", side) ==>
              DeletedBy(calls, |calls|, calls[k].order.value.orderId)
  {
    var calls := LifecycleCalls(ids);
    forall k | 0 <= k < |calls| && AddsFor(calls[k], "microscope", side)
      ensures DeletedBy(calls, |calls|, calls[k].order.value.orderId)
    {
      var d := if k < 3 then 12 + k else 9 + k;
      assert calls[d] == DeleteCall(Some(calls[k].order.value.orderId));
    }
  }

  /**
   * After a lifecycle round from a new manager either side of "microscope" reads empty: no best
   * price, and no orders, quantity 0 and volume 0 at every level, as the test's check() expects.
   */
  lemma LifecycleReadsEmpty(ids: seq<string>, side: Side)
    requires |ids| == 6 && forall j :: 0 <= j < 6 ==> !IsBlank(ids[j])
    ensures AllWellFormed(LifecycleCalls(ids))
    ensures var m := Reach(LifecycleCalls(ids));
            && GetBestPrice(m, Some("microscope"), Some(side)) == Ok(None)
            && forall p: Long :: p > 0 ==>
                 && GetOrderNumAtLevel(m, Some("microscope"), Some(side), p) == Ok(0)
                 && GetTotalQuantityAtLevel(m, Some("microscope"), Some(side), p) == Ok(0)
                 && GetTotalVolumeAtLevel(m, Some("microscope"), Some(side), p) == Ok(0)
  {
    assert !IsSpace("microscope"[0]);
    LifecycleWellFormed(ids);
    LifecycleDeletesAdds(ids, side);
    DrainedPairReadsEmpty(LifecycleCalls(ids), "microscope", side);
  }
}
