/** The order model: three variants sharing an identity (id, side) that never
    changes and a quantity part (size, time) that does; the factory that builds
    a variant from a tagged options payload; the object projection of each
    variant; and the sums over sequences of orders that the queues and sides
    keep as running aggregates. */
module Orders {
  import opened Types

  /** Prices and quantities are exact decimals, modelled as `real`. */
  datatype Order =
    | Limit(id: string, side: Side, size: real, time: int,
            price: real, origSize: real, timeInForce: TimeInForce,
            makerQty: real, takerQty: real, postOnly: bool, ocoStopPrice: Option<real>)
    | StopMarket(id: string, side: Side, size: real, time: int, stopPrice: real)
    | StopLimit(id: string, side: Side, size: real, time: int,
                price: real, stopPrice: real, timeInForce: TimeInForce, isOCO: bool)
  {
    /** The type tag of the variant. */
    function Type(): OrderType {
      match this
      case Limit(_, _, _, _, _, _, _, _, _, _, _) => LimitType
      case StopMarket(_, _, _, _, _) => StopMarketType
      case StopLimit(_, _, _, _, _, _, _, _) => StopLimitType
    }
  }

  type LimitOrder = o: Order | o.Limit?
    witness Limit("", Buy, 0.0, 0, 0.0, 0.0, GTC, 0.0, 0.0, false, None)

  /** A conditional order: stop-limit or stop-market. */
  type StopOrder = o: Order | !o.Limit?
    witness StopMarket("", Buy, 0.0, 0, 0.0)

  // ---------------------------------------------------------------------
  // Setters. Only size, time and (for the priced variants) price change.

  /** The size setter: the order with that size and nothing else changed. */
  function WithSize(o: Order, size: real): (r: Order)
    ensures r.size == size && r.(size := o.size) == o
  {
    o.(size := size)
  }

  /** The time setter: the order with that time and nothing else changed. */
  function WithTime(o: Order, time: int): (r: Order)
    ensures r.time == time && r.(time := o.time) == o
  {
    o.(time := time)
  }

  /** The price setter of the priced variants: the order with that price and
      nothing else changed. */
  function WithPrice(o: Order, price: real): (r: Order)
    requires o.Limit? || o.StopLimit?
    ensures (r.Limit? || r.StopLimit?) && r.price == price && r.(price := o.price) == o
  {
    o.(price := price)
  }

  /** A limit order with a new size and timestamp, everything else kept:
      the size setter followed by the time setter. */
  function Resized(o: LimitOrder, size: real, time: int): (r: LimitOrder)
    ensures r.id == o.id && r.side == o.side && r.price == o.price
    ensures r.size == size && r.time == time && r.origSize == o.origSize
    ensures r == WithTime(WithSize(o, size), time)
  {
    Limit(o.id, o.side, size, time, o.price, o.origSize, o.timeInForce,
          o.makerQty, o.takerQty, o.postOnly, o.ocoStopPrice)
  }

  /** The setters keep the identity and the variant, leave the original
      size of a limit order alone, and change exactly one field of the
      order's object form. */
  lemma SettersKeepIdentity(o: Order, size: real, time: int, price: real)
    ensures var s := WithSize(o, size);
      && s.id == o.id && s.side == o.side && s.Type() == o.Type()
      && (o.Limit? ==> s.origSize == o.origSize)
      && ToObject(s) == ToObject(o).(size := size)
    ensures var t := WithTime(o, time);
      && t.id == o.id && t.side == o.side && t.Type() == o.Type()
      && (o.Limit? ==> t.origSize == o.origSize)
      && ToObject(t) == ToObject(o).(time := time)
    ensures o.Limit? || o.StopLimit? ==>
      var p := WithPrice(o, price);
      && p.id == o.id && p.side == o.side && p.Type() == o.Type()
      && (o.Limit? ==> p.origSize == o.origSize)
      && ToObject(p) == ToObject(o).(price := price)
  {
  }

  // ---------------------------------------------------------------------
  // The factory.

  /** The options payload of the factory. It carries every field any variant
      reads; a variant ignores the fields it does not have. `id` and `time`
      are optional: a missing one is replaced by a generated identifier and by
      the current clock, which the factory receives as `freshId` and `now`. */
  datatype OrderOptions = OrderOptions(
    orderType: OrderType, id: Option<string>, side: Side, size: real, time: Option<int>,
    price: real, origSize: real, timeInForce: TimeInForce, makerQty: real, takerQty: real,
    stopPrice: real, postOnly: Option<bool>, ocoStopPrice: Option<real>, isOCO: Option<bool>)

  /** Builds the variant named by the type tag; any other tag fails. */
  function CreateOrder(opts: OrderOptions, freshId: string, now: int): (r: Result<Order>)
    ensures r.Ok? <==> opts.orderType in {LimitType, StopLimitType, StopMarketType}
    ensures r.Err? ==> r.error == InvalidOrderType
    ensures r.Ok? ==>
      && r.value.Type() == opts.orderType
      && r.value.id == opts.id.GetOr(freshId)
      && r.value.side == opts.side
      && r.value.size == opts.size
      && r.value.time == opts.time.GetOr(now)
    ensures r.Ok? && r.value.Limit? ==>
      && r.value.price == opts.price && r.value.origSize == opts.origSize
      && r.value.timeInForce == opts.timeInForce
      && r.value.makerQty == opts.makerQty && r.value.takerQty == opts.takerQty
      && r.value.postOnly == (opts.postOnly == Some(true))
      && r.value.ocoStopPrice == opts.ocoStopPrice
    ensures r.Ok? && r.value.StopLimit? ==>
      && r.value.price == opts.price && r.value.stopPrice == opts.stopPrice
      && r.value.timeInForce == opts.timeInForce
      && r.value.isOCO == (opts.isOCO == Some(true))
    ensures r.Ok? && r.value.StopMarket? ==> r.value.stopPrice == opts.stopPrice
  {
    var id := opts.id.GetOr(freshId);
    var time := opts.time.GetOr(now);
    match opts.orderType
    case LimitType =>
      Ok(Limit(id, opts.side, opts.size, time, opts.price, opts.origSize, opts.timeInForce,
               opts.makerQty, opts.takerQty, opts.postOnly.GetOr(false), opts.ocoStopPrice))
    case StopLimitType =>
      Ok(StopLimit(id, opts.side, opts.size, time, opts.price, opts.stopPrice,
                   opts.timeInForce, opts.isOCO.GetOr(false)))
    case StopMarketType =>
      Ok(StopMarket(id, opts.side, opts.size, time, opts.stopPrice))
    case _ => Err(InvalidOrderType)
  }

  // ---------------------------------------------------------------------
  // Object projection.

  /** The plain-object representation of each variant. */
  datatype OrderObject =
    | LimitObject(id: string, orderType: OrderType, side: Side, size: real, origSize: real,
                  price: real, time: int, timeInForce: TimeInForce, makerQty: real, takerQty: real)
    | StopMarketObject(id: string, orderType: OrderType, side: Side, size: real,
                       stopPrice: real, time: int)
    | StopLimitObject(id: string, orderType: OrderType, side: Side, size: real, price: real,
                      stopPrice: real, isOCO: bool, timeInForce: TimeInForce, time: int)

  /** The object form carries the order's type tag, id, side, size and
      time, and each variant's own terms. */
  function ToObject(o: Order): (r: OrderObject)
    ensures r.orderType == o.Type() && r.id == o.id && r.side == o.side
    ensures r.size == o.size && r.time == o.time
    ensures o.Limit? <==> r.LimitObject?
    ensures o.Limit? ==> r.price == o.price && r.origSize == o.origSize && r.timeInForce == o.timeInForce
                         && r.makerQty == o.makerQty && r.takerQty == o.takerQty
    ensures o.StopLimit? <==> r.StopLimitObject?
    ensures o.StopLimit? ==> r.price == o.price && r.stopPrice == o.stopPrice
                             && r.timeInForce == o.timeInForce && r.isOCO == o.isOCO
    ensures o.StopMarket? <==> r.StopMarketObject?
    ensures o.StopMarket? ==> r.stopPrice == o.stopPrice
  {
    match o
    case Limit(id, side, size, time, price, origSize, tif, maker, taker, _, _) =>
      LimitObject(id, LimitType, side, size, origSize, price, time, tif, maker, taker)
    case StopMarket(id, side, size, time, stopPrice) =>
      StopMarketObject(id, StopMarketType, side, size, stopPrice, time)
    case StopLimit(id, side, size, time, price, stopPrice, tif, isOCO) =>
      StopLimitObject(id, StopLimitType, side, size, price, stopPrice, isOCO, tif, time)
  }

  /** The options payload obtained by spreading an object representation;
      fields the representation lacks are absent (or zero where the payload
      has no room for absence, and then unread by that variant). */
  function ObjectOptions(obj: OrderObject): (r: OrderOptions)
    ensures r.orderType == obj.orderType && r.id == Some(obj.id) && r.time == Some(obj.time)
    ensures r.side == obj.side && r.size == obj.size
    ensures obj.LimitObject? ==>
      && r.price == obj.price && r.origSize == obj.origSize && r.timeInForce == obj.timeInForce
      && r.makerQty == obj.makerQty && r.takerQty == obj.takerQty
    ensures obj.StopLimitObject? ==>
      && r.price == obj.price && r.stopPrice == obj.stopPrice
      && r.timeInForce == obj.timeInForce && r.isOCO == Some(obj.isOCO)
    ensures obj.StopMarketObject? ==> r.stopPrice == obj.stopPrice
    ensures r.postOnly.None? && r.ocoStopPrice.None?
  {
    match obj
    case LimitObject(id, t, side, size, origSize, price, time, tif, maker, taker) =>
      OrderOptions(t, Some(id), side, size, Some(time), price, origSize, tif, maker, taker,
                   0.0, None, None, None)
    case StopMarketObject(id, t, side, size, stopPrice, time) =>
      OrderOptions(t, Some(id), side, size, Some(time), 0.0, 0.0, GTC, 0.0, 0.0,
                   stopPrice, None, None, None)
    case StopLimitObject(id, t, side, size, price, stopPrice, isOCO, tif, time) =>
      OrderOptions(t, Some(id), side, size, Some(time), price, 0.0, tif, 0.0, 0.0,
                   stopPrice, None, None, Some(isOCO))
  }

  /** Rebuilding an order from its object representation gives an order with
      the same representation. A limit order's postOnly flag and OCO stop price
      are not part of the representation, so they come back as their defaults;
      the other variants come back unchanged. */
  lemma RoundTrip(o: Order, freshId: string, now: int)
    ensures var r := CreateOrder(ObjectOptions(ToObject(o)), freshId, now);
      && r.Ok?
      && ToObject(r.value) == ToObject(o)
      && r.value == (if o.Limit? then o.(postOnly := false, ocoStopPrice := None) else o)
  {
  }

  /** A limit order's representation does not depend on postOnly or on the
      OCO stop price. */
  lemma LimitObjectForgets(o: LimitOrder, postOnly: bool, oco: Option<real>)
    ensures ToObject(o.(postOnly := postOnly, ocoStopPrice := oco)) == ToObject(o)
  {
  }

  // ---------------------------------------------------------------------
  // Sequences of orders.

  predicate UniqueIds(s: seq<Order>) {
    forall i, j | 0 <= i < j < |s| :: s[i].id != s[j].id
  }

  /** The sum of the sizes. */
  function SumSizes(s: seq<Order>): real {
    if s == [] then 0.0 else s[0].size + SumSizes(s[1..])
  }

  /** What one order contributes to a side's total: price times size. */
  function Amount(o: LimitOrder): real {
    o.price * o.size
  }

  /** The sum of price times size. */
  function Notional(s: seq<LimitOrder>): real {
    if s == [] then 0.0 else Amount(s[0]) + Notional(s[1..])
  }

  lemma {:induction false} SumSizesConcat(a: seq<Order>, b: seq<Order>)
    ensures SumSizes(a + b) == SumSizes(a) + SumSizes(b)
  {
    if a == [] {
      assert a + b == b;
    } else {
      assert (a + b)[1..] == a[1..] + b;
      SumSizesConcat(a[1..], b);
    }
  }

  lemma {:induction false} NotionalConcat(a: seq<LimitOrder>, b: seq<LimitOrder>)
    ensures Notional(a + b) == Notional(a) + Notional(b)
  {
    if a == [] {
      assert a + b == b;
    } else {
      assert (a + b)[1..] == a[1..] + b;
      NotionalConcat(a[1..], b);
    }
  }

  /** Removing the i-th order takes its size out of the sum. */
  lemma {:induction false} SumSizesRemove(s: seq<Order>, i: nat)
    requires i < |s|
    ensures SumSizes(s[..i] + s[i + 1..]) == SumSizes(s) - s[i].size
  {
    if i == 0 {
      assert s[..0] + s[1..] == s[1..];
    } else {
      var t := s[..i] + s[i + 1..];
      assert t[0] == s[0] && t[1..] == s[1..][..i - 1] + s[1..][i..];
      SumSizesRemove(s[1..], i - 1);
    }
  }

  /** Replacing the i-th order swaps its size in the sum. */
  lemma {:induction false} SumSizesReplace(s: seq<Order>, i: nat, x: Order)
    requires i < |s|
    ensures SumSizes(s[i := x]) == SumSizes(s) - s[i].size + x.size
  {
    var t := s[i := x];
    if i == 0 {
      assert t[1..] == s[1..];
    } else {
      assert t[0] == s[0] && t[1..] == s[1..][i - 1 := x];
      SumSizesReplace(s[1..], i - 1, x);
    }
  }

  /** Removing the i-th order takes its notional out of the sum. */
  lemma {:induction false} NotionalRemove(s: seq<LimitOrder>, i: nat)
    requires i < |s|
    ensures Notional(s[..i] + s[i + 1..]) == Notional(s) - Amount(s[i])
  {
    if i == 0 {
      assert s[..0] + s[1..] == s[1..];
    } else {
      var t := s[..i] + s[i + 1..];
      assert t[0] == s[0] && t[1..] == s[1..][..i - 1] + s[1..][i..];
      NotionalRemove(s[1..], i - 1);
    }
  }

  /** Replacing the i-th order swaps its notional in the sum. */
  lemma {:induction false} NotionalReplace(s: seq<LimitOrder>, i: nat, x: LimitOrder)
    requires i < |s|
    ensures Notional(s[i := x]) == Notional(s) - Amount(s[i]) + Amount(x)
  {
    var t := s[i := x];
    if i == 0 {
      assert t[1..] == s[1..];
    } else {
      assert t[0] == s[0] && t[1..] == s[1..][i - 1 := x];
      NotionalReplace(s[1..], i - 1, x);
    }
  }
}
