/** One side of the live limit book: a price-ordered map of order queues
    (descending for BUY, ascending for SELL) with four running aggregates,
    the number of orders, the number of levels, the volume and the total
    (the sum of price times size). */
module OrderSides {
  import opened Types
  import opened Orders
  import opened PriceTrees
  import opened OrderQueues
  import opened SideLevels

  // ---------------------------------------------------------------------
  // The side's operations as transitions of its record.

  /** append: the order joins the tail of the level of its price, which is
      created when missing. The invariant is kept: the aggregates still add
      up and a level exists exactly when it is non-empty. The side gains
      exactly that order. */
  function AppendTo(side: Side, s: SideState, o: LimitOrder): (r: SideState)
    requires Inv(side, s) && o.id !in QueueAt(s.prices, o.price).ordersMap
    ensures Inv(side, r)
    ensures multiset(r.Orders()) == multiset(s.Orders()) + multiset{o}
  {
    AppendKeeps(side, s.priceTree, s.prices, s.depth, s.numOrders, s.volume, s.total, o);
    Appended(side, s, o)
  }

  /** The record after append, field by field. */
  function Appended(side: Side, s: SideState, o: LimitOrder): SideState
    requires Inv(side, s) && o.id !in QueueAt(s.prices, o.price).ordersMap
  {
    SideState(
      TreeWith(side, s.priceTree, s.prices, o.price),
      s.prices[o.price := QueueAt(s.prices, o.price).Append(o)],
      if o.price in s.prices then s.depth else s.depth + 1,
      s.numOrders + 1, s.volume + o.size, s.total + Amount(o))
  }

  /** After append the order is the newest of its level, and every other
      level is as it was. */
  lemma AppendToLevels(side: Side, s: SideState, o: LimitOrder)
    requires Inv(side, s) && o.id !in QueueAt(s.prices, o.price).ordersMap
    ensures var r := AppendTo(side, s, o);
      && o.price in r.prices && r.prices[o.price].orders == QueueAt(s.prices, o.price).orders + [o]
      && forall p | p != o.price :: QueueAt(r.prices, p) == QueueAt(s.prices, p)
  {
  }

  /** remove of a resting order. The invariant is kept and the side loses
      exactly that order. */
  function RemoveFrom(side: Side, s: SideState, o: LimitOrder): (r: SideState)
    requires Inv(side, s) && o.price in s.prices && o in s.prices[o.price].orders
    ensures Inv(side, r)
    ensures multiset(r.Orders()) == multiset(s.Orders()) - multiset{o}
  {
    var r := Removed(side, s, o);
    assert Inv(side, r) && multiset(r.Orders()) == multiset(s.Orders()) - multiset{o} by {
      RemoveKeeps(side, s.priceTree, s.prices, s.depth, s.numOrders, s.volume, s.total, o);
    }
    r
  }

  /** The record after remove, field by field. */
  function Removed(side: Side, s: SideState, o: LimitOrder): SideState
    requires Inv(side, s) && o.price in s.prices && o in s.prices[o.price].orders
  {
    var q := s.prices[o.price].Remove(o);
    SideState(
      TreeAfter(s.priceTree, o.price, q), PricesAfter(s.prices, o.price, q),
      if q.orders == [] then s.depth - 1 else s.depth,
      s.numOrders - 1, s.volume - o.size, s.total - Amount(o))
  }

  /** After remove the order's id is gone from its price, the level is gone
      exactly when the order was its last, and every other level is as it
      was. */
  lemma RemoveFromLevels(side: Side, s: SideState, o: LimitOrder)
    requires Inv(side, s) && o.price in s.prices && o in s.prices[o.price].orders
    ensures var r := RemoveFrom(side, s, o);
      && (o.price in r.prices <==> |s.prices[o.price].orders| > 1)
      && o.id !in QueueAt(r.prices, o.price).ordersMap
      && forall p | p != o.price :: QueueAt(r.prices, p) == QueueAt(s.prices, p)
  {
    assert Level(o.price, s.prices[o.price]);
    RemoveLevels(s.prices, o);
  }

  /** updateOrderSize of a resting order, with the corrected total. The
      invariant is kept, including the total as the sum of price times size,
      and the levels stay where they are. */
  function ResizeIn(side: Side, s: SideState, o: LimitOrder, size: real, now: int): (r: SideState)
    requires Inv(side, s) && o.price in s.prices && o in s.prices[o.price].orders
    ensures Inv(side, r)
    ensures r.priceTree == s.priceTree && r.prices.Keys == s.prices.Keys
  {
    ResizeKeeps(side, s.priceTree, s.prices, s.depth, s.numOrders, s.volume, s.total, o, size, now);
    SideState(
      s.priceTree, s.prices[o.price := s.prices[o.price].Resize(o, size, now)], s.depth,
      s.numOrders, s.volume + (size - o.size), SizeUpdateTotal(s.total, o, size))
  }

  /** updateOrderSize keeps the order in its place (position j of the
      contents) with its new size and timestamp, and changes nothing else. */
  lemma ResizeInPlace(side: Side, s: SideState, o: LimitOrder, size: real, now: int) returns (j: nat)
    requires Inv(side, s) && o.price in s.prices && o in s.prices[o.price].orders
    ensures j < |s.Orders()| && s.Orders()[j] == o
    ensures ResizeIn(side, s, o, size, now).Orders() == s.Orders()[j := Resized(o, size, now)]
  {
    assert Level(o.price, s.prices[o.price]);
    j := ResizeStep(side, s.priceTree, s.prices, o, size, now);
  }

  /** The order updateOrderPrice rebuilds from the old one's object form:
      the same id, side and terms, the new price, the given size (or the old
      one), and the current time. */
  function Repriced(o: LimitOrder, size: Option<real>, price: real, now: int): (r: LimitOrder)
    ensures r.id == o.id && r.side == o.side && r.price == price
    ensures r.size == size.GetOr(o.size) && r.time == now
    ensures r.origSize == o.origSize && r.timeInForce == o.timeInForce
    ensures r.makerQty == o.makerQty && r.takerQty == o.takerQty
    ensures !r.postOnly && r.ocoStopPrice.None?
  {
    var opts := ObjectOptions(ToObject(o)).(size := size.GetOr(o.size), price := price, time := Some(now));
    var c := CreateOrder(opts, o.id, now);
    assert c.Ok? && c.value.Limit?;
    c.value
  }

  /** updateOrderPrice of a resting order: remove, then append of its
      rebuilt successor. The invariant is kept, the rebuilt order is the
      newest of the level of the new price, and the side holds it instead
      of the old one. */
  function RepriceIn(side: Side, s: SideState, o: LimitOrder, size: Option<real>, price: real, now: int)
    : (r: SideState)
    requires Inv(side, s) && o.price in s.prices && o in s.prices[o.price].orders
    requires price != o.price ==> o.id !in QueueAt(s.prices, price).ordersMap
    ensures var n := Repriced(o, size, price, now);
      && Inv(side, r)
      && price in r.prices && r.prices[price].orders != [] && Last(r.prices[price].orders) == n
      && multiset(r.Orders()) == multiset(s.Orders()) - multiset{o} + multiset{n}
  {
    var n := Repriced(o, size, price, now);
    var s1 := RemoveFrom(side, s, o);
    assert n.id !in QueueAt(s1.prices, n.price).ordersMap by {
      RemoveFromLevels(side, s, o);
    }
    var r := AppendTo(side, s1, n);
    assert price in r.prices && r.prices[price].orders != [] && Last(r.prices[price].orders) == n by {
      AppendToLevels(side, s1, n);
    }
    r
  }

  /** The newest element of a non-empty sequence. */
  function Last<T>(s: seq<T>): T
    requires s != []
  {
    s[|s| - 1]
  }

  // ---------------------------------------------------------------------
  // The side as the source keeps it.

  /** The loop of `orders`: the levels' orders concatenated, one level
      after another, taking the price keys in an order left open. */
  method CollectLevels(side: Side, pt: seq<real>, m: map<real, Queue>) returns (r: seq<LimitOrder>)
    requires Ordered(side, pt) && forall p | p in m :: p in pt
    ensures multiset(r) == multiset(Picked(pt, m, m.Keys))
  {
    r := [];
    var pending := m.Keys;
    ghost var done: set<real> := {};
    PickedNone(pt, m);
    while pending != {}
      invariant done !! pending && done + pending == m.Keys
      invariant multiset(r) == multiset(Picked(pt, m, done))
      decreases pending
    {
      ghost var w := SomeKey(pending);
      var p :| p in pending;
      PickedAdd(side, pt, m, done, p);
      r := r + m[p].orders;
      pending := pending - {p};
      done := done + {p};
    }
    assert done == m.Keys;
  }

  /** One side of the book. Its mutable state is the record above, whose
      components are the side's price tree, price map, level count, order
      count, volume and total; every method is specified by the transition
      on that record. */
  class OrderSide {
    const side: Side
    var state: SideState

    ghost predicate Valid()
      reads this
    {
      Inv(side, state)
    }

    constructor(side: Side)
      ensures Valid() && this.side == side
      ensures state == SideState([], map[], 0, 0, 0.0, 0.0)
    {
      this.side := side;
      state := SideState([], map[], 0, 0, 0.0, 0.0);
    }

    /** The number of resting orders. */
    method Len() returns (n: int)
      requires Valid()
      ensures n == |state.Orders()|
    {
      n := state.numOrders;
    }

    /** The number of price levels. */
    method Depth() returns (d: int)
      requires Valid()
      ensures d == |state.priceTree|
      ensures d == 0 <==> state.prices == map[]
    {
      d := state.depth;
      if d == 0 {
        assert forall p | p in state.prices :: p in state.priceTree;
      } else {
        assert state.priceTree[0] in state.prices;
      }
    }

    /** The summed size of the resting orders. */
    method Volume() returns (v: real)
      requires Valid()
      ensures v == SumSizes(state.Orders())
    {
      v := state.volume;
    }

    /** The summed price times size of the resting orders. */
    method Total() returns (t: real)
      requires Valid()
      ensures t == Notional(state.Orders())
    {
      t := state.total;
    }

    /** The level prices in tree order: ascending on SELL, descending on
        BUY, each a key of the price map and every key among them. */
    method PriceTree() returns (r: seq<real>)
      requires Valid()
      ensures side == Sell ==> forall i, j | 0 <= i < j < |r| :: r[i] < r[j]
      ensures side == Buy ==> forall i, j | 0 <= i < j < |r| :: r[i] > r[j]
      ensures forall p :: p in r <==> p in state.prices
    {
      r := state.priceTree;
      OrderedMeansSorted(side, r);
    }

    method Append(o: LimitOrder) returns (r: LimitOrder)
      requires Valid() && o.id !in QueueAt(state.prices, o.price).ordersMap
      modifies this
      ensures Valid() && r == o
      ensures state == AppendTo(side, old(state), o)
    {
      state := AppendTo(side, state, o);
      r := o;
    }

    /** Fails with INVALID_PRICE_LEVEL, changing nothing, when the order's
        price has no level. */
    method Remove(o: LimitOrder) returns (r: Result<LimitOrder>)
      requires Valid() && (o.price in state.prices ==> o in state.prices[o.price].orders)
      modifies this
      ensures Valid()
      ensures old(o.price !in state.prices) ==> r == Err(InvalidPriceLevel) && state == old(state)
      ensures old(o.price in state.prices) ==> r == Ok(o) && state == RemoveFrom(side, old(state), o)
    {
      if o.price !in state.prices {
        return Err(InvalidPriceLevel);
      }
      state := RemoveFrom(side, state, o);
      r := Ok(o);
    }

    /** Removes the order and appends its rebuilt successor at the new
        price; fails like remove when the old price has no level. */
    method UpdateOrderPrice(o: LimitOrder, size: Option<real>, price: real, now: int)
      returns (r: Result<LimitOrder>)
      requires Valid() && (o.price in state.prices ==> o in state.prices[o.price].orders)
      requires price != o.price ==> o.id !in QueueAt(state.prices, price).ordersMap
      modifies this
      ensures Valid()
      ensures old(o.price !in state.prices) ==> r == Err(InvalidPriceLevel) && state == old(state)
      ensures old(o.price in state.prices) ==>
        r == Ok(Repriced(o, size, price, now)) && state == RepriceIn(side, old(state), o, size, price, now)
    {
      var removed := Remove(o);
      if removed.Err? {
        return removed;
      }
      var n := Repriced(o, size, price, now);
      RemoveFromLevels(side, old(state), o);
      n := Append(n);
      r := Ok(n);
    }

    /** Resizes a resting order in place and moves the volume and the total
        by the difference. */
    method UpdateOrderSize(o: LimitOrder, size: real, now: int) returns (r: LimitOrder)
      requires Valid() && o.price in state.prices && o in state.prices[o.price].orders
      modifies this
      ensures Valid() && r == Resized(o, size, now)
      ensures state == ResizeIn(side, old(state), o, size, now)
    {
      state := ResizeIn(side, state, o, size, now);
      r := Resized(o, size, now);
    }

    /** The level with the highest price, if any. */
    function MaxPriceQueue(): (r: Option<Queue>)
      requires Valid()
      reads this
      ensures r.None? <==> state.prices == map[]
      ensures r.Some? ==> r.value.price in state.prices && state.prices[r.value.price] == r.value
      ensures r.Some? ==> forall p | p in state.prices :: p <= r.value.price
    {
      MaxMinExtreme(side, state.priceTree);
      if state.depth > 0 then Some(state.prices[state.priceTree[MaxAt(side, state.priceTree).value]])
      else assert state.prices == map[] by { EmptyTree(side, state); } None
    }

    /** The level with the lowest price, if any. */
    function MinPriceQueue(): (r: Option<Queue>)
      requires Valid()
      reads this
      ensures r.None? <==> state.prices == map[]
      ensures r.Some? ==> r.value.price in state.prices && state.prices[r.value.price] == r.value
      ensures r.Some? ==> forall p | p in state.prices :: r.value.price <= p
    {
      MaxMinExtreme(side, state.priceTree);
      if state.depth > 0 then Some(state.prices[state.priceTree[MinAt(side, state.priceTree).value]])
      else assert state.prices == map[] by { EmptyTree(side, state); } None
    }

    /** The level with the nearest price strictly below the given one. */
    function LowerThan(price: real): (r: Option<Queue>)
      requires Valid()
      reads this
      ensures r.Some? ==> r.value.price < price && r.value.price in state.prices
                          && state.prices[r.value.price] == r.value
      ensures r.Some? ==> forall p | p in state.prices && p < price :: p <= r.value.price
      ensures r.None? ==> forall p | p in state.prices :: price <= p
    {
      BelowNearest(side, state.priceTree, price);
      match Below(side, state.priceTree, price)
      case None => None
      case Some(k) => Some(state.prices[state.priceTree[k]])
    }

    /** The level with the nearest price strictly above the given one. */
    function GreaterThan(price: real): (r: Option<Queue>)
      requires Valid()
      reads this
      ensures r.Some? ==> price < r.value.price && r.value.price in state.prices
                          && state.prices[r.value.price] == r.value
      ensures r.Some? ==> forall p | p in state.prices && price < p :: r.value.price <= p
      ensures r.None? ==> forall p | p in state.prices :: p <= price
    {
      AboveNearest(side, state.priceTree, price);
      match Above(side, state.priceTree, price)
      case None => None
      case Some(k) => Some(state.prices[state.priceTree[k]])
    }

    /** Every resting order, level after level in the price map's key order,
        which the model leaves unspecified. */
    method Orders() returns (r: seq<LimitOrder>)
      requires Valid()
      ensures multiset(r) == multiset(state.Orders())
    {
      r := CollectLevels(side, state.priceTree, state.prices);
      PickedEvery(side, state);
    }
  }
}
