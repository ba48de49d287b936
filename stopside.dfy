/** One side of the conditional book: stop orders grouped into FIFO queues
    by stop price, with the queues indexed by a price tree ordered like the
    limit book's side (BUY descending, SELL ascending), and the range query
    that finds the queues a price move has swept. */
module StopSides {
  import opened Types
  import opened Orders
  import opened PriceTrees
  import opened StopQueues

  /** The index is consistent: the tree holds each price once in the side's
      order, the map and the tree hold the same prices, and each price maps
      to a non-empty queue at that price whose orders all wait on it. */
  ghost predicate Grouped(side: Side, pt: seq<real>, m: map<real, StopLevel>) {
    && Ordered(side, pt)
    && (forall p :: p in m <==> p in pt)
    && (forall p | p in m ::
          m[p].price == p && m[p].orders != [] && forall o | o in m[p].orders :: o.stopPrice == p)
  }

  /** The stop prices the queued orders wait on. */
  ghost function StopPrices(m: map<real, StopLevel>): set<real> {
    set p, o | p in m && o in m[p].orders :: o.stopPrice
  }

  /** A tree whose keys are distinct has as many keys as distinct prices. */
  lemma {:induction false} DistinctCount(ks: seq<real>)
    requires forall i, j | 0 <= i < j < |ks| :: ks[i] != ks[j]
    ensures |set k | k in ks| == |ks|
  {
    if ks != [] {
      var t := ks[1..];
      DistinctCount(t);
      assert (set k | k in ks) == (set k | k in t) + {ks[0]};
      assert ks[0] !in t;
    }
  }

  /** Orders are grouped by stop price: there is one level per distinct stop
      price among the queued orders, and no other. */
  lemma OneLevelPerStopPrice(side: Side, pt: seq<real>, m: map<real, StopLevel>)
    requires Grouped(side, pt, m)
    ensures m.Keys == StopPrices(m)
    ensures |pt| == |StopPrices(m)|
  {
    forall p | p in m
      ensures p in StopPrices(m)
    {
      var o := m[p].orders[0];
      assert o in m[p].orders;
    }
    OrderedMeansSorted(side, pt);
    DistinctCount(pt);
    assert m.Keys == set k | k in pt;
  }

  /** The prices among ks that lie in the closed interval [lo, hi], in the
      order of ks. */
  function Within(ks: seq<real>, lo: real, hi: real): (r: seq<real>)
    ensures forall x :: x in r <==> x in ks && lo <= x <= hi
    ensures forall i | 0 <= i < |r| :: r[i] in ks
    ensures |r| <= |ks|
  {
    if ks == [] then []
    else
      var init := ks[..|ks| - 1];
      var k := ks[|ks| - 1];
      assert ks == init + [k];
      Within(init, lo, hi) + (if lo <= k <= hi then [k] else [])
  }

  /** Filtering keeps the side's order. */
  lemma {:induction false} WithinOrdered(side: Side, ks: seq<real>, lo: real, hi: real)
    requires Ordered(side, ks)
    ensures Ordered(side, Within(ks, lo, hi))
  {
    if ks != [] {
      var init := ks[..|ks| - 1];
      var k := ks[|ks| - 1];
      OrderedSlice(side, ks, 0, |ks| - 1);
      WithinOrdered(side, init, lo, hi);
      var w := Within(init, lo, hi);
      if lo <= k <= hi {
        forall i, j | 0 <= i < |w| && 0 <= j < 1
          ensures Before(side, w[i], [k][j])
        {
          assert w[i] in w;
          var i' :| 0 <= i' < |init| && init[i'] == w[i];
          assert ks[i'] == w[i];
        }
        OrderedConcat(side, w, [k]);
      }
    }
  }

  /** The queues at the given prices, in that order. */
  function LevelsAt(m: map<real, StopLevel>, ks: seq<real>): (r: seq<StopLevel>)
    requires forall k | k in ks :: k in m
    ensures |r| == |ks|
    ensures forall i | 0 <= i < |ks| :: ks[i] in m && r[i] == m[ks[i]]
  {
    if ks == [] then []
    else
      var k := ks[|ks| - 1];
      assert k in ks;
      LevelsAt(m, ks[..|ks| - 1]) + [m[k]]
  }

  /** One more key of the tree walked: the prices found so far, and that
      key if it lies in [lo, hi]. */
  lemma WithinStep(pt: seq<real>, i: nat, lo: real, hi: real)
    requires i < |pt|
    ensures Within(pt[..i + 1], lo, hi) ==
      Within(pt[..i], lo, hi) + if lo <= pt[i] <= hi then [pt[i]] else []
  {
    assert pt[..i + 1][..i] == pt[..i];
  }

  lemma LevelsAtStep(m: map<real, StopLevel>, ks: seq<real>, k: real)
    requires forall x | x in ks :: x in m
    requires k in m
    ensures forall x | x in ks + [k] :: x in m
    ensures LevelsAt(m, ks + [k]) == LevelsAt(m, ks) + [m[k]]
  {
    assert (ks + [k])[..|ks|] == ks;
  }

  function Min(a: real, b: real): real { if a <= b then a else b }

  function Max(a: real, b: real): real { if a <= b then b else a }

  /** The tree's comparator: positive when a comes after b in the side's
      order, negative when before, zero when equal. */
  function Compare(side: Side, a: real, b: real): (c: real)
    ensures c < 0.0 <==> Before(side, a, b)
    ensures c == 0.0 <==> a == b
  {
    if side == Sell then a - b else b - a
  }

  /** The queues after o joins the tail of the queue at its stop price, a
      fresh queue when that price has none. */
  function PricesAfterAppend(m: map<real, StopLevel>, o: StopOrder): (r: map<real, StopLevel>)
    ensures r.Keys == m.Keys + {o.stopPrice}
    ensures r[o.stopPrice].orders
      == (if o.stopPrice in m then m[o.stopPrice].orders else []) + [o]
    ensures forall q | q in m && q != o.stopPrice :: r[q] == m[q]
  {
    var p := o.stopPrice;
    m[p := (if p in m then m[p] else EmptyLevel(p)).Append(o)]
  }

  /** The tree after an append at p: p is inserted when it had no queue. */
  function TreeAfterAppend(side: Side, pt: seq<real>, m: map<real, StopLevel>, p: real): (r: seq<real>)
    requires Ordered(side, pt)
    ensures forall x :: x in r <==> x in pt || (x == p && p !in m)
    ensures p !in m ==> |r| == |pt| + 1
    ensures p in m ==> r == pt
  {
    if p in m then pt else Insert(side, pt, p)
  }

  /** The queues after the order with the id leaves the queue at p; a queue
      that empties is dropped. */
  function PricesAfterRemove(m: map<real, StopLevel>, p: real, id: string): (r: map<real, StopLevel>)
    requires p in m
    ensures r.Keys <= m.Keys
    ensures p in r <==> m[p].Remove(id).1.orders != []
    ensures p in r ==> r[p].orders == m[p].Remove(id).1.orders
    ensures forall q | q in m && q != p :: q in r && r[q] == m[q]
  {
    var rest := m[p].Remove(id).1;
    if rest.orders == [] then m - {p} else m[p := rest]
  }

  /** The tree after that removal: p goes when its queue empties. */
  function TreeAfterRemove(pt: seq<real>, m: map<real, StopLevel>, p: real, id: string): (r: seq<real>)
    requires p in m
    ensures forall x | x in r :: x in pt
    ensures forall x | x in pt && x != p :: x in r
    ensures m[p].Remove(id).1.orders != [] ==> r == pt
  {
    if m[p].Remove(id).1.orders == [] then Delete(pt, p) else pt
  }

  /** Appending keeps the index consistent. */
  lemma AppendGrouped(side: Side, pt: seq<real>, m: map<real, StopLevel>, o: StopOrder)
    requires Grouped(side, pt, m)
    ensures Grouped(side, TreeAfterAppend(side, pt, m, o.stopPrice), PricesAfterAppend(m, o))
  {
    var p := o.stopPrice;
    var pt', m' := TreeAfterAppend(side, pt, m, p), PricesAfterAppend(m, o);
    if p !in m {
      InsertOrdered(side, pt, p);
    }
    assert Ordered(side, pt');
    forall q | q in m'
      ensures m'[q].price == q && m'[q].orders != [] && forall x | x in m'[q].orders :: x.stopPrice == q
    {
      if q == p {
        var base := if p in m then m[p] else EmptyLevel(p);
        assert m'[p] == base.Append(o);
        assert forall x | x in base.orders :: x.stopPrice == p;
      } else {
        assert m'[q] == m[q];
      }
    }
  }

  /** Removing by id keeps the index consistent: an emptied queue leaves the
      map and the tree together. */
  lemma RemoveGrouped(side: Side, pt: seq<real>, m: map<real, StopLevel>, p: real, id: string)
    requires Grouped(side, pt, m) && p in m
    ensures Grouped(side, TreeAfterRemove(pt, m, p, id), PricesAfterRemove(m, p, id))
  {
    var rest := m[p].Remove(id).1;
    var pt', m' := TreeAfterRemove(pt, m, p, id), PricesAfterRemove(m, p, id);
    DeleteOrdered(side, pt, p);
    assert Ordered(side, pt');
    assert forall x :: x in m' <==> x in pt';
    forall q | q in m'
      ensures m'[q].price == q && m'[q].orders != [] && forall x | x in m'[q].orders :: x.stopPrice == q
    {
      if q == p {
        assert m'[p] == rest;
        assert forall x | x in rest.orders :: x in m[p].orders;
      } else {
        assert m'[q] == m[q];
      }
    }
  }

  /** Dropping a level keeps the index consistent, whether or not the level
      was there. */
  lemma RemoveLevelGrouped(side: Side, pt: seq<real>, m: map<real, StopLevel>, p: real)
    requires Grouped(side, pt, m)
    ensures Grouped(side, Delete(pt, p), m - {p})
    ensures forall x :: x in Delete(pt, p) <==> x in pt && x != p
  {
    DeleteOrdered(side, pt, p);
  }

  /** The test the walk makes on each tree key, with the bounds it sets up
      (BUY: from the higher price down to one below the lower, SELL: from
      the lower price up to one above the higher) and its trimming test,
      holds exactly on the closed interval [lowest, highest]. */
  lemma SweptIsClosed(side: Side, price: real, lowest: real, highest: real,
                      lowerBound: real, upperBound: real)
    requires lowest <= highest
    requires side == Buy ==> lowerBound == highest && upperBound == lowest - 1.0
    requires side == Sell ==> lowerBound == lowest && upperBound == highest + 1.0
    ensures (&& Compare(side, price, lowerBound) >= 0.0 && Compare(side, price, upperBound) < 0.0
             && ((side == Buy && price >= lowest) || (side == Sell && price <= highest)))
            <==> lowest <= price <= highest
  {
  }

  /** One side of the conditional book. */
  class StopSide {
    const side: Side
    var priceTree: seq<real>
    var prices: map<real, StopLevel>

    ghost predicate Valid()
      reads this
    {
      Grouped(side, priceTree, prices)
    }

    constructor(side: Side)
      ensures Valid() && this.side == side
      ensures priceTree == [] && prices == map[]
    {
      this.side := side;
      priceTree := [];
      prices := map[];
    }

    /** The order joins the tail of the queue at its stop price; that queue
        and its tree entry are created first when the price is new. */
    method Append(o: StopOrder) returns (r: StopOrder)
      requires Valid()
      modifies this
      ensures Valid() && r == o
      ensures prices == PricesAfterAppend(old(prices), o)
      ensures priceTree == TreeAfterAppend(side, old(priceTree), old(prices), o.stopPrice)
    {
      AppendGrouped(side, priceTree, prices, o);
      var price := o.stopPrice;
      if price !in prices {
        prices := prices[price := EmptyLevel(price)];
        priceTree := Insert(side, priceTree, price);
      }
      prices := prices[price := prices[price].Append(o)];
      r := o;
    }

    /** Removes the order with the id from the queue at the stop price. No
        queue there is an error that changes nothing; an id that queue does
        not hold gives nothing and changes nothing; a queue that empties is
        dropped from the map and the tree alike. */
    method Remove(id: string, stopPrice: real) returns (r: Result<Option<StopOrder>>)
      requires Valid()
      modifies this
      ensures Valid()
      ensures stopPrice !in old(prices) ==>
        r == Err(InvalidPriceLevel) && unchanged(this)
      ensures stopPrice in old(prices) ==>
        && r == Ok(old(prices)[stopPrice].Remove(id).0)
        && prices == PricesAfterRemove(old(prices), stopPrice, id)
        && priceTree == TreeAfterRemove(old(priceTree), old(prices), stopPrice, id)
      ensures r.Ok? && r.value.None? ==> prices == old(prices) && priceTree == old(priceTree)
      ensures r.Ok? && r.value.Some? ==>
        r.value.value.id == id && r.value.value in old(prices)[stopPrice].orders
    {
      if stopPrice !in prices {
        return Err(InvalidPriceLevel);
      }
      RemoveGrouped(side, priceTree, prices, stopPrice, id);
      var (found, rest) := prices[stopPrice].Remove(id);
      if rest.orders == [] {
        prices := prices - {stopPrice};
        priceTree := Delete(priceTree, stopPrice);
      } else {
        prices := prices[stopPrice := rest];
      }
      r := Ok(found);
    }

    /** Drops the queue at the price from the map and the tree, whether or
        not there is one. */
    method RemovePriceLevel(priceLevel: real)
      requires Valid()
      modifies this
      ensures Valid()
      ensures prices == old(prices) - {priceLevel}
      ensures priceTree == Delete(old(priceTree), priceLevel)
      ensures forall p :: p in priceTree <==> p in old(priceTree) && p != priceLevel
    {
      RemoveLevelGrouped(side, priceTree, prices, priceLevel);
      prices := prices - {priceLevel};
      priceTree := Delete(priceTree, priceLevel);
    }

    /** The queues a move between the two prices sweeps. The tree is walked
        from an inclusive lower bound to an exclusive upper bound in its own
        order, shifted by one on the exclusive end, and a further test on
        each price trims the shifted end back: the queues returned are
        exactly those whose price lies in the closed interval between the
        two prices, whichever is larger, in tree order. */
    method Between(priceBefore: real, marketPrice: real) returns (queues: seq<StopLevel>)
      requires Valid()
      ensures var lowest, highest := Min(priceBefore, marketPrice), Max(priceBefore, marketPrice);
        queues == LevelsAt(prices, Within(priceTree, lowest, highest))
      ensures forall q | q in queues ::
        q in prices.Values && Min(priceBefore, marketPrice) <= q.price <= Max(priceBefore, marketPrice)
      ensures forall p | p in prices && Min(priceBefore, marketPrice) <= p <= Max(priceBefore, marketPrice) ::
        prices[p] in queues
      ensures forall i, j | 0 <= i < j < |queues| :: Before(side, queues[i].price, queues[j].price)
    {
      queues := [];
      var lowerBound, upperBound := priceBefore, marketPrice;
      var highest := Max(priceBefore, marketPrice);
      var lowest := Min(priceBefore, marketPrice);
      if side == Buy {
        lowerBound := highest;
        upperBound := lowest - 1.0;
      } else {
        lowerBound := lowest;
        upperBound := highest + 1.0;
      }
      var i := 0;
      ghost var keys := [];
      while i < |priceTree|
        invariant 0 <= i <= |priceTree|
        invariant keys == Within(priceTree[..i], lowest, highest)
        invariant forall k | k in keys :: k in prices
        invariant queues == LevelsAt(prices, keys)
      {
        var price := priceTree[i];
        WithinStep(priceTree, i, lowest, highest);
        SweptIsClosed(side, price, lowest, highest, lowerBound, upperBound);
        if Compare(side, price, lowerBound) >= 0.0 && Compare(side, price, upperBound) < 0.0 {
          if (side == Buy && price >= lowest) || (side == Sell && price <= highest) {
            assert price in priceTree;
            LevelsAtStep(prices, keys, price);
            queues := queues + [prices[price]];
            keys := keys + [price];
          }
        }
        i := i + 1;
      }
      assert priceTree[..i] == priceTree;
      BetweenMeaning(side, priceTree, prices, lowest, highest);
    }

    /** The price tree, whose keys run in the side's order. */
    method PriceTree() returns (r: seq<real>)
      requires Valid()
      ensures r == priceTree
      ensures side == Sell ==> forall i, j | 0 <= i < j < |r| :: r[i] < r[j]
      ensures side == Buy ==> forall i, j | 0 <= i < j < |r| :: r[i] > r[j]
    {
      OrderedMeansSorted(side, priceTree);
      r := priceTree;
    }
  }

  /** What the queues of a closed price interval are: each lies in the
      interval, every queue in the interval is among them, and they run in
      tree order. */
  lemma BetweenMeaning(side: Side, pt: seq<real>, m: map<real, StopLevel>, lo: real, hi: real)
    requires Grouped(side, pt, m)
    ensures var qs := LevelsAt(m, Within(pt, lo, hi));
      && (forall q | q in qs :: q in m.Values && lo <= q.price <= hi)
      && (forall p | p in m && lo <= p <= hi :: m[p] in qs)
      && (forall i, j | 0 <= i < j < |qs| :: Before(side, qs[i].price, qs[j].price))
  {
    BetweenInside(side, pt, m, lo, hi);
    BetweenComplete(side, pt, m, lo, hi);
    BetweenInOrder(side, pt, m, lo, hi);
  }

  lemma BetweenInside(side: Side, pt: seq<real>, m: map<real, StopLevel>, lo: real, hi: real)
    requires Grouped(side, pt, m)
    ensures forall q | q in LevelsAt(m, Within(pt, lo, hi)) :: q in m.Values && lo <= q.price <= hi
  {
    var w := Within(pt, lo, hi);
    var qs := LevelsAt(m, w);
    forall q | q in qs
      ensures q in m.Values && lo <= q.price <= hi
    {
      var i :| 0 <= i < |qs| && qs[i] == q;
      assert w[i] in w;
    }
  }

  lemma BetweenComplete(side: Side, pt: seq<real>, m: map<real, StopLevel>, lo: real, hi: real)
    requires Grouped(side, pt, m)
    ensures forall p | p in m && lo <= p <= hi :: m[p] in LevelsAt(m, Within(pt, lo, hi))
  {
    var w := Within(pt, lo, hi);
    var qs := LevelsAt(m, w);
    forall p | p in m && lo <= p <= hi
      ensures m[p] in qs
    {
      var i :| 0 <= i < |w| && w[i] == p;
      assert qs[i] == m[p];
    }
  }

  lemma BetweenInOrder(side: Side, pt: seq<real>, m: map<real, StopLevel>, lo: real, hi: real)
    requires Grouped(side, pt, m)
    ensures var qs := LevelsAt(m, Within(pt, lo, hi));
      forall i, j | 0 <= i < j < |qs| :: Before(side, qs[i].price, qs[j].price)
  {
    var w := Within(pt, lo, hi);
    var qs := LevelsAt(m, w);
    WithinOrdered(side, pt, lo, hi);
    forall i, j | 0 <= i < j < |qs|
      ensures Before(side, qs[i].price, qs[j].price)
    {
      assert w[i] in w && w[j] in w;
    }
  }
}
