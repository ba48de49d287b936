/** The conditional book: one stop side per direction (bids hold BUY stop
    orders, asks hold SELL stop orders), the trigger rule that decides
    whether a stop order may fire at a market price, and the snapshot that
    lists both sides. */
module StopBooks {
  import opened Types
  import opened Orders
  import opened PriceTrees
  import opened StopQueues
  import opened StopSides

  /** Whether a stop order fires at the market price. A stop-limit BUY fires
      when the market is below its stop price and the stop price is at most
      its limit price; a stop-limit SELL when the market is above its stop
      price and the stop price is at least its limit price. A stop-market
      order only needs the market on the far side of its stop price. The
      comparisons with the market price are strict, so an order never fires
      at exactly its stop price. */
  function ValidConditionalOrder(marketPrice: real, o: StopOrder): (r: bool)
    ensures r ==> marketPrice != o.stopPrice
    ensures r && o.side == Buy ==> marketPrice < o.stopPrice
    ensures r && o.side == Sell ==> marketPrice > o.stopPrice
    ensures r && o.StopLimit? && o.side == Buy ==> o.stopPrice <= o.price
    ensures r && o.StopLimit? && o.side == Sell ==> o.stopPrice >= o.price
  {
    if o.StopLimit? then
      || (o.side == Buy && marketPrice < o.stopPrice && o.stopPrice <= o.price)
      || (o.side == Sell && marketPrice > o.stopPrice && o.stopPrice >= o.price)
    else
      || (o.side == Buy && marketPrice < o.stopPrice)
      || (o.side == Sell && marketPrice > o.stopPrice)
  }

  /** The trigger rule case by case, both ways. */
  lemma TriggerRules(marketPrice: real, o: StopOrder)
    ensures o.StopLimit? && o.side == Buy ==>
      (ValidConditionalOrder(marketPrice, o) <==> marketPrice < o.stopPrice <= o.price)
    ensures o.StopLimit? && o.side == Sell ==>
      (ValidConditionalOrder(marketPrice, o) <==> marketPrice > o.stopPrice >= o.price)
    ensures o.StopMarket? && o.side == Buy ==>
      (ValidConditionalOrder(marketPrice, o) <==> marketPrice < o.stopPrice)
    ensures o.StopMarket? && o.side == Sell ==>
      (ValidConditionalOrder(marketPrice, o) <==> marketPrice > o.stopPrice)
  {
  }

  /** One price level of a snapshot: the level's price and its orders, oldest
      first, as their object representations. */
  datatype SnapshotLevel = SnapshotLevel(price: real, orders: seq<OrderObject>)

  /** The object representations of the orders, in the same order. */
  function Objects(s: seq<StopOrder>): (r: seq<OrderObject>)
    ensures |r| == |s| && forall i | 0 <= i < |s| :: r[i] == ToObject(s[i])
  {
    seq(|s|, i requires 0 <= i < |s| => ToObject(s[i]))
  }

  class StopBook {
    const bids: StopSide
    const asks: StopSide

    ghost predicate Valid()
      reads this, bids, asks
    {
      && bids != asks
      && bids.side == Buy && asks.side == Sell
      && bids.Valid() && asks.Valid()
    }

    /** The stop side that holds the given direction. */
    function SideOf(side: Side): (s: StopSide)
      reads this
      ensures s == bids || s == asks
    {
      if side == Buy then bids else asks
    }

    constructor()
      ensures Valid() && fresh(bids) && fresh(asks)
      ensures bids.priceTree == [] && bids.prices == map[]
      ensures asks.priceTree == [] && asks.prices == map[]
    {
      bids := new StopSide(Buy);
      asks := new StopSide(Sell);
    }

    /** The order joins the side of its own direction; the other side is
        untouched. */
    method Add(o: StopOrder)
      requires Valid()
      modifies bids, asks
      ensures Valid()
      ensures var s := SideOf(o.side);
        && s.prices == PricesAfterAppend(old(s.prices), o)
        && s.priceTree == TreeAfterAppend(s.side, old(s.priceTree), old(s.prices), o.stopPrice)
      ensures unchanged(SideOf(if o.side == Buy then Sell else Buy))
    {
      var stopSide := if o.side == Buy then bids else asks;
      var _ := stopSide.Append(o);
    }

    /** Removal from the side of the given direction; the other side is
        untouched. */
    method Remove(side: Side, id: string, stopPrice: real) returns (r: Result<Option<StopOrder>>)
      requires Valid()
      modifies bids, asks
      ensures Valid()
      ensures var s := SideOf(side);
        && (stopPrice !in old(s.prices) ==> r == Err(InvalidPriceLevel) && unchanged(s))
        && (stopPrice in old(s.prices) ==>
              && r == Ok(old(s.prices)[stopPrice].Remove(id).0)
              && s.prices == PricesAfterRemove(old(s.prices), stopPrice, id)
              && s.priceTree == TreeAfterRemove(old(s.priceTree), old(s.prices), stopPrice, id))
      ensures unchanged(SideOf(if side == Buy then Sell else Buy))
    {
      var stopSide := if side == Buy then bids else asks;
      r := stopSide.Remove(id, stopPrice);
    }

    /** Drops a whole price level of the given direction; the other side is
        untouched. */
    method RemovePriceLevel(side: Side, priceLevel: real)
      requires Valid()
      modifies bids, asks
      ensures Valid()
      ensures var s := SideOf(side);
        && s.prices == old(s.prices) - {priceLevel}
        && s.priceTree == Delete(old(s.priceTree), priceLevel)
      ensures unchanged(SideOf(if side == Buy then Sell else Buy))
    {
      var stopSide := if side == Buy then bids else asks;
      stopSide.RemovePriceLevel(priceLevel);
    }

    /** The queues of the given direction whose stop price lies between the
        two prices, both included, in that side's tree order. */
    method GetConditionalOrders(side: Side, priceBefore: real, marketPrice: real)
      returns (queues: seq<StopLevel>)
      requires Valid()
      ensures var s := SideOf(side);
        queues == LevelsAt(s.prices, Within(s.priceTree, Min(priceBefore, marketPrice), Max(priceBefore, marketPrice)))
    {
      var stopSide := if side == Buy then bids else asks;
      queues := stopSide.Between(priceBefore, marketPrice);
    }

    /** Both sides level by level: bids in descending and asks in ascending
        price, each level's orders oldest first. */
    method Snapshot() returns (bidLevels: seq<SnapshotLevel>, askLevels: seq<SnapshotLevel>)
      requires Valid()
      ensures |bidLevels| == |bids.priceTree| && |askLevels| == |asks.priceTree|
      ensures forall i | 0 <= i < |bidLevels| ::
        && bidLevels[i].price == bids.priceTree[i] && bidLevels[i].price in bids.prices
        && bidLevels[i].orders == Objects(bids.prices[bidLevels[i].price].orders)
      ensures forall i | 0 <= i < |askLevels| ::
        && askLevels[i].price == asks.priceTree[i] && askLevels[i].price in asks.prices
        && askLevels[i].orders == Objects(asks.prices[askLevels[i].price].orders)
      ensures forall i, j | 0 <= i < j < |bidLevels| :: bidLevels[i].price > bidLevels[j].price
      ensures forall i, j | 0 <= i < j < |askLevels| :: askLevels[i].price < askLevels[j].price
    {
      bidLevels := Listing(bids);
      askLevels := Listing(asks);
    }

    /** One side level by level in tree order: the walk the snapshot makes
        over each side. */
    static method Listing(s: StopSide) returns (levels: seq<SnapshotLevel>)
      requires s.Valid()
      ensures |levels| == |s.priceTree|
      ensures forall i | 0 <= i < |levels| ::
        && levels[i].price == s.priceTree[i] && levels[i].price in s.prices
        && levels[i].orders == Objects(s.prices[levels[i].price].orders)
      ensures s.side == Buy ==> forall i, j | 0 <= i < j < |levels| :: levels[i].price > levels[j].price
      ensures s.side == Sell ==> forall i, j | 0 <= i < j < |levels| :: levels[i].price < levels[j].price
    {
      var tree := s.PriceTree();
      levels := [];
      var i := 0;
      while i < |tree|
        invariant 0 <= i <= |tree|
        invariant |levels| == i
        invariant forall k | 0 <= k < i ::
          && levels[k].price == tree[k] && levels[k].price in s.prices
          && levels[k].orders == Objects(s.prices[levels[k].price].orders)
      {
        var price := tree[i];
        assert price in tree;
        levels := levels + [SnapshotLevel(price, Objects(s.prices[price].orders))];
        i := i + 1;
      }
    }
  }
}
