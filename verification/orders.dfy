/** Order.java: the immutable order value, its validation, its book key and its Builder. */
module Orders {
  import opened Wrappers
  import opened Validation

  /** Java's 64-bit `long`, the type of prices, quantities and price levels. */
  type Long = x: int | -0x8000_0000_0000_0000 <= x <= 0x7fff_ffff_ffff_ffff

  /** Long.MAX_VALUE, the "no sell level yet" sentinel of OrderBook.minPrice. */
  const LONG_MAX: Long := 0x7fff_ffff_ffff_ffff

  /** The reserved sequence joining instrument and side in a book key. */
  const SEPARATOR: string := "::"

  /** Side.java is not part of this model; it is an enum whose toString() is the constant's name. */
  datatype Side = BUY | SELL {
    function Name(): (n: string)
      ensures |n| >= 3 && ':' !in n
      ensures n[|n| - 1] == (if BUY? then 'Y' else 'L')
    {
      match this
      case BUY => "BUY"
      case SELL => "SELL"
    }
  }

  /** The five fields of an order; Java's field-wise equals() is datatype equality. */
  datatype Order = Order(orderId: string, instrument: string, side: Side, price: Long, quantity: Long) {

    /** What Order.validate() demands of every constructed order. */
    predicate Valid() {
      && price > 0
      && quantity > 0
      && !IsBlank(instrument)
      && !IsBlank(orderId)
      && !ContainsSeparator(instrument)
    }
  }

  /** `p` occurs in `s` starting at index `i`. */
  predicate OccursAt(s: string, p: string, i: nat) {
    i + |p| <= |s| && s[i..i + |p|] == p
  }

  /** Two consecutive colons somewhere in `s`. */
  predicate ContainsSeparator(s: string) {
    exists j :: 0 <= j < |s| - 1 && s[j] == ':' && s[j + 1] == ':'
  }

  /** String.indexOf(p, from): the first occurrence of `p` at or after `from`, or -1. */
  function IndexOf(s: string, p: string, from: nat): (r: int)
    requires from <= |s|
    ensures r == -1 || (from <= r <= |s| && OccursAt(s, p, r))
    ensures r == -1 <==> forall j :: from <= j <= |s| ==> !OccursAt(s, p, j)
    ensures r != -1 ==> forall j :: from <= j < r ==> !OccursAt(s, p, j)
    decreases |s| - from
  {
    if OccursAt(s, p, from) then from
    else if from == |s| then -1
    else IndexOf(s, p, from + 1)
  }

  /** The separator occurs at `j` exactly when the characters at `j` and `j + 1` are both colons. */
  lemma SeparatorAt(s: string, j: nat)
    ensures OccursAt(s, SEPARATOR, j) <==> j < |s| - 1 && s[j] == ':' && s[j + 1] == ':'
  {
    if j + 2 <= |s| {
      assert s[j..j + 2] == [s[j], s[j + 1]];
    }
  }

  /** The `indexOf("::") == -1` test of validate() is exactly the absence of two consecutive colons. */
  lemma SeparatorSearch(s: string)
    ensures IndexOf(s, SEPARATOR, 0) == -1 <==> !ContainsSeparator(s)
  {
    var r := IndexOf(s, SEPARATOR, 0);
    if r != -1 {
      SeparatorAt(s, r);
    }
    if ContainsSeparator(s) {
      var j :| 0 <= j < |s| - 1 && s[j] == ':' && s[j + 1] == ':';
      SeparatorAt(s, j);
    }
  }

  /** The private all-values constructor followed by validate(): checks in the source's order. */
  function New(orderId: Option<string>, instrument: Option<string>, side: Option<Side>, price: Long, quantity: Long): (r: Result<Order>)
    ensures r.Ok? <==>
              && orderId.Some? && instrument.Some? && side.Some?
              && Order(orderId.value, instrument.value, side.value, price, quantity).Valid()
    ensures r.Ok? ==> r.value == Order(orderId.value, instrument.value, side.value, price, quantity)
    ensures price <= 0 ==> r == InvalidArgument(NonPositivePrice)
    ensures price > 0 && quantity <= 0 ==> r == InvalidArgument(NonPositiveQuantity)
  {
    if price <= 0 then InvalidArgument(NonPositivePrice)
    else if quantity <= 0 then InvalidArgument(NonPositiveQuantity)
    else
      var ins :- ValidateString(instrument);
      var id :- ValidateString(orderId);
      var sd :- ValidateObject(side);
      SeparatorSearch(ins);
      if IndexOf(ins, SEPARATOR, 0) != -1 then InvalidArgument(ReservedSeparator)
      else Ok(Order(id, ins, sd, price, quantity))
  }

  /** Order.sideInstrumentKey: instrument, then "::", then the side's name. */
  function SideInstrumentKey(instrument: string, side: Side): string {
    instrument + SEPARATOR + side.Name()
  }

  /** Order.getOrderBookKey. */
  function BookKey(o: Order): string {
    SideInstrumentKey(o.instrument, o.side)
  }

  /** `k` ends with `suffix`. */
  predicate HasSuffix(k: string, suffix: string) {
    |suffix| <= |k| && k[|k| - |suffix|..] == suffix
  }

  /** Splits a book key back into instrument and side: the inverse of SideInstrumentKey. */
  function ParseKey(k: string): Option<(string, Side)> {
    if HasSuffix(k, SEPARATOR + BUY.Name()) then Some((k[..|k| - 5], BUY))
    else if HasSuffix(k, SEPARATOR + SELL.Name()) then Some((k[..|k| - 6], SELL))
    else None
  }

  /** A concatenation splits back into its two parts. */
  lemma ConcatSplits(a: string, b: string)
    ensures (a + b)[..|a|] == a && (a + b)[|a|..] == b
  {
  }

  /** Parsing a book key gives back the instrument and side it was built from. */
  lemma KeyParses(instrument: string, side: Side)
    ensures ParseKey(SideInstrumentKey(instrument, side)) == Some((instrument, side))
  {
    var suffix := SEPARATOR + side.Name();
    var k := SideInstrumentKey(instrument, side);
    assert k == instrument + suffix;
    ConcatSplits(instrument, suffix);
    assert HasSuffix(k, suffix);
    if side == SELL {
      var buy := SEPARATOR + BUY.Name();
      assert k[|k| - 1] == 'L';
      assert k[|k| - |buy|..][|buy| - 1] == k[|k| - 1];
    }
  }

  /** The side a book key names, read from its last letter: "BUY" ends in 'Y' and "SELL" in 'L'. */
  function KeySide(k: string): Side {
    if k != [] && k[|k| - 1] == 'L' then SELL else BUY
  }

  /** A book key names the side it was built from. */
  lemma KeyNamesSide(instrument: string, side: Side)
    ensures KeySide(SideInstrumentKey(instrument, side)) == side
  {
    var k := SideInstrumentKey(instrument, side);
    assert k[|k| - 1] == side.Name()[|side.Name()| - 1];
  }

  /** Routing by key never merges two books: distinct (instrument, side) pairs have distinct keys. */
  lemma KeyInjective(i1: string, s1: Side, i2: string, s2: Side)
    ensures SideInstrumentKey(i1, s1) == SideInstrumentKey(i2, s2) <==> i1 == i2 && s1 == s2
  {
    KeyParses(i1, s1);
    KeyParses(i2, s2);
  }

  /** The fields of the order a Builder is filling in; `new Order()` leaves them null and 0. */
  datatype Draft = Draft(orderId: Option<string>, instrument: Option<string>, side: Option<Side>, price: Long, quantity: Long)

  /** Order.Builder: a mutable draft that hands out validated snapshots. */
  datatype Builder = Builder(draft: Draft) {

    /** clone(order): throws for null, else copies the order through the validating copy constructor. */
    function Clone(order: Option<Order>): (r: Result<Builder>)
      ensures r.Ok? <==> order.Some? && order.value.Valid()
      ensures order.None? ==> r == InvalidArgument(NullArgument)
      ensures r.Ok? ==> r.value.Get() == Ok(order.value)
    {
      var o :- ValidateObject(order);
      var copy :- New(Some(o.orderId), Some(o.instrument), Some(o.side), o.price, o.quantity);
      Ok(Builder(Draft(Some(copy.orderId), Some(copy.instrument), Some(copy.side), copy.price, copy.quantity)))
    }

    function SetOrderId(orderId: Option<string>): (r: Builder)
      ensures r.draft.orderId == orderId && r.draft.(orderId := draft.orderId) == draft
    {
      Builder(draft.(orderId := orderId))
    }

    function SetInstrument(instrument: Option<string>): (r: Builder)
      ensures r.draft.instrument == instrument && r.draft.(instrument := draft.instrument) == draft
    {
      Builder(draft.(instrument := instrument))
    }

    function SetSide(side: Option<Side>): (r: Builder)
      ensures r.draft.side == side && r.draft.(side := draft.side) == draft
    {
      Builder(draft.(side := side))
    }

    function SetPrice(price: Long): (r: Builder)
      ensures r.draft.price == price && r.draft.(price := draft.price) == draft
    {
      Builder(draft.(price := price))
    }

    function SetQuantity(quantity: Long): (r: Builder)
      ensures r.draft.quantity == quantity && r.draft.(quantity := draft.quantity) == draft
    {
      Builder(draft.(quantity := quantity))
    }

    /** build(...): a validated order from explicit values; the draft is not consulted. */
    function Build(orderId: Option<string>, instrument: Option<string>, side: Option<Side>, price: Long, quantity: Long): Result<Order> {
      New(orderId, instrument, side, price, quantity)
    }

    /** get(): a validated copy of the draft. */
    function Get(): (r: Result<Order>)
      ensures r.Ok? <==>
                && draft.orderId.Some? && draft.instrument.Some? && draft.side.Some?
                && Order(draft.orderId.value, draft.instrument.value, draft.side.value, draft.price, draft.quantity).Valid()
      ensures r.Ok? ==> r.value == Order(draft.orderId.value, draft.instrument.value, draft.side.value, draft.price, draft.quantity)
    {
      New(draft.orderId, draft.instrument, draft.side, draft.price, draft.quantity)
    }
  }

  /** `new Order.Builder()`: a draft with null strings and side, and zero price and quantity. */
  function FreshBuilder(): Builder {
    Builder(Draft(None, None, None, 0, 0))
  }

  /** `new Order.Builder().clone(order).setQuantity(q).get()`, the revision OrderBook.modify builds. */
  function Revise(order: Option<Order>, quantity: Long): (r: Result<Order>)
    ensures order.None? ==> r == InvalidArgument(NullArgument)
    ensures order.Some? && order.value.Valid() ==>
              (r.Ok? <==> quantity > 0) && (quantity <= 0 ==> r == InvalidArgument(NonPositiveQuantity))
    ensures r.Ok? ==> order.Some? && order.value.Valid() && r.value == order.value.(quantity := quantity)
  {
    var b :- FreshBuilder().Clone(order);
    b.SetQuantity(quantity).Get()
  }

  /** Setting every field through the setters and calling get() yields what build() yields. */
  lemma SettersAgreeWithBuild(b: Builder, orderId: Option<string>, instrument: Option<string>, side: Option<Side>, price: Long, quantity: Long)
    ensures b.SetOrderId(orderId).SetInstrument(instrument).SetSide(side).SetPrice(price).SetQuantity(quantity).Get()
            == b.Build(orderId, instrument, side, price, quantity)
  {
  }
}
