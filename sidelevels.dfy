/** The contents of one side of the live limit book as values: the price
    tree's keys in tree order, the map from price to the queue at that price,
    and the level count and running aggregates kept beside them, with the
    invariant that ties them together and the steps of the side's
    operations on them. */
module SideLevels {
  import opened Types
  import opened Orders
  import opened PriceTrees
  import opened OrderQueues

  // ---------------------------------------------------------------------
  // The side's contents as values: the tree's keys and the price map.

  /** The queue at price p, or a fresh empty one when p has no level. */
  function QueueAt(m: map<real, Queue>, p: real): (q: Queue)
    ensures p in m ==> q == m[p]
    ensures p !in m ==> q == EmptyQueue(p)
  {
    if p in m then m[p] else EmptyQueue(p)
  }

  /** The orders resting at price p. */
  function At(m: map<real, Queue>, p: real): seq<LimitOrder> {
    if p in m then m[p].orders else []
  }

  /** All resting orders, level after level in tree order, each level head
      first. */
  function Contents(pt: seq<real>, m: map<real, Queue>): seq<LimitOrder> {
    if pt == [] then [] else At(m, pt[0]) + Contents(pt[1..], m)
  }

  /** A well-formed side: the tree's keys are ordered and are exactly the
      price map's keys; every queue is valid, sits at its own price, holds
      only orders of that price and is not empty. */
  ghost predicate Shaped(side: Side, pt: seq<real>, m: map<real, Queue>) {
    && Ordered(side, pt)
    && (forall i | 0 <= i < |pt| :: pt[i] in m)
    && (forall p | p in m :: p in pt)
    && (forall p | p in m :: Level(p, m[p]))
  }

  /** A level of the side: a valid, non-empty queue at price p holding only
      orders of price p. */
  ghost predicate Level(p: real, q: Queue) {
    q.Valid() && q.price == p && q.orders != [] && forall x | x in q.orders :: x.price == p
  }

  /** The four aggregates are what the resting orders add up to. */
  ghost predicate Tallied(s: seq<LimitOrder>, n: int, v: real, t: real) {
    n == |s| && v == SumSizes(s) && t == Notional(s)
  }

  /** The invariant of a side's state: well formed, with the level count
      and the aggregates of its contents. */
  ghost predicate SideInv(side: Side, pt: seq<real>, m: map<real, Queue>, d: int, n: int, v: real, t: real) {
    Shaped(side, pt, m) && d == |pt| && Tallied(Contents(pt, m), n, v, t)
  }

  lemma {:induction false} ContentsConcat(a: seq<real>, b: seq<real>, m: map<real, Queue>)
    ensures Contents(a + b, m) == Contents(a, m) + Contents(b, m)
  {
    if a == [] {
      assert a + b == b;
    } else {
      assert (a + b)[1..] == a[1..] + b;
      ContentsConcat(a[1..], b, m);
    }
  }

  /** Contents only reads the levels the keys name. */
  lemma {:induction false} ContentsAgree(pt: seq<real>, m1: map<real, Queue>, m2: map<real, Queue>)
    requires forall i | 0 <= i < |pt| :: At(m1, pt[i]) == At(m2, pt[i])
    ensures Contents(pt, m1) == Contents(pt, m2)
  {
    if pt != [] {
      assert At(m1, pt[0]) == At(m2, pt[0]);
      forall i | 0 <= i < |pt[1..]|
        ensures At(m1, pt[1..][i]) == At(m2, pt[1..][i])
      {
        assert pt[1..][i] == pt[i + 1];
      }
      ContentsAgree(pt[1..], m1, m2);
    }
  }

  /** The contents split around the level at position k, whose key occurs
      nowhere else; replacing or dropping that level changes only its part. */
  lemma ContentsAround(pt: seq<real>, m: map<real, Queue>, k: nat, q: Queue)
    requires k < |pt| && pt[k] !in pt[..k] && pt[k] !in pt[k + 1..]
    ensures Contents(pt, m) == Contents(pt[..k], m) + At(m, pt[k]) + Contents(pt[k + 1..], m)
    ensures Contents(pt, m[pt[k] := q]) ==
      Contents(pt[..k], m) + q.orders + Contents(pt[k + 1..], m)
    ensures Contents(pt[..k] + pt[k + 1..], m - {pt[k]}) ==
      Contents(pt[..k], m) + Contents(pt[k + 1..], m)
  {
    var p, a, b := pt[k], pt[..k], pt[k + 1..];
    assert pt == a + [p] + b;
    var m' := m[p := q];
    ContentsConcat(a + [p], b, m);
    ContentsConcat(a, [p], m);
    ContentsConcat(a + [p], b, m');
    ContentsConcat(a, [p], m');
    ContentsConcat(a, b, m - {p});
    assert Contents([p], m) == At(m, p) by { assert [p][1..] == []; }
    assert Contents([p], m') == q.orders by { assert [p][1..] == []; }
    ContentsAgree(a, m, m');
    ContentsAgree(b, m, m');
    ContentsAgree(a, m, m - {p});
    ContentsAgree(b, m, m - {p});
  }

  /** The sums of three consecutive runs of orders add up. */
  lemma Sums3(a: seq<LimitOrder>, x: seq<LimitOrder>, b: seq<LimitOrder>)
    ensures SumSizes(a + x + b) == SumSizes(a) + SumSizes(x) + SumSizes(b)
    ensures Notional(a + x + b) == Notional(a) + Notional(x) + Notional(b)
  {
    SumSizesConcat(a + x, b);
    SumSizesConcat(a, x);
    NotionalConcat(a + x, b);
    NotionalConcat(a, x);
  }

  // ---------------------------------------------------------------------
  // The side's operations as steps on values.

  /** The tree after append: the key is inserted when the price had no level. */
  function TreeWith(side: Side, pt: seq<real>, m: map<real, Queue>, p: real): seq<real>
    requires Ordered(side, pt)
  {
    if p in m then pt else Insert(side, pt, p)
  }

  /** append keeps the side well formed and adds a level exactly when the
      price had none. */
  lemma AppendShaped(side: Side, pt: seq<real>, m: map<real, Queue>, o: LimitOrder)
    requires Shaped(side, pt, m) && o.id !in QueueAt(m, o.price).ordersMap
    ensures var pt', m' := TreeWith(side, pt, m, o.price), m[o.price := QueueAt(m, o.price).Append(o)];
      && Shaped(side, pt', m')
      && |pt'| == |pt| + (if o.price in m then 0 else 1)
  {
    var p := o.price;
    var pt', m' := TreeWith(side, pt, m, p), m[p := QueueAt(m, p).Append(o)];
    LevelAppend(p, QueueAt(m, p), o);
    if p !in m {
      InsertOrdered(side, pt, p);
    }
    assert forall i | 0 <= i < |pt'| :: pt'[i] in m';
    assert forall p' | p' in m' :: p' in pt';
  }

  /** Appending an order of the level's price to a level (or to a fresh
      empty queue) gives a level. */
  lemma LevelAppend(p: real, q: Queue, o: LimitOrder)
    requires q.Valid() && q.price == p && o.price == p && o.id !in q.ordersMap
    requires forall x | x in q.orders :: x.price == p
    ensures Level(p, q.Append(o))
  {
  }

  /** The contents around an existing level: what comes before and after it
      stays when the level is replaced, or dropped together with its key. */
  lemma AroundLevel(side: Side, pt: seq<real>, m: map<real, Queue>, p: real, q: Queue)
    returns (a: seq<LimitOrder>, b: seq<LimitOrder>)
    requires Ordered(side, pt) && p in m && p in pt
    ensures Contents(pt, m) == a + m[p].orders + b
    ensures Contents(pt, m[p := q]) == a + q.orders + b
    ensures Contents(Delete(pt, p), m - {p}) == a + b
  {
    var k := IndexOf(pt, p);
    OrderedUnique(side, pt, k);
    ContentsAround(pt, m, k, q);
    a, b := Contents(pt[..k], m), Contents(pt[k + 1..], m);
  }

  /** Appending to a new level: the new level goes between the contents
      before and after its key. */
  lemma AppendNewLevel(side: Side, pt: seq<real>, m: map<real, Queue>, p: real, q: Queue)
    returns (a: seq<LimitOrder>, b: seq<LimitOrder>)
    requires Ordered(side, pt) && p !in m && p !in pt
    ensures Contents(pt, m) == a + b
    ensures Contents(Insert(side, pt, p), m[p := q]) == a + q.orders + b
  {
    var pt' := Insert(side, pt, p);
    InsertOrdered(side, pt, p);
    var k := Rank(side, pt, p);
    assert pt'[..k] == pt[..k] && pt'[k + 1..] == pt[k..];
    assert pt == pt[..k] + pt[k..];
    ContentsConcat(pt[..k], pt[k..], m);
    ContentsAround(pt', m, k, q);
    a, b := Contents(pt[..k], m), Contents(pt[k..], m);
  }

  /** Adding one order to a middle run of orders adds it to the count, to
      both sums and to the multiset. */
  lemma TallyAppend(a: seq<LimitOrder>, x: seq<LimitOrder>, o: LimitOrder, b: seq<LimitOrder>)
    ensures |a + (x + [o]) + b| == |a + x + b| + 1
    ensures SumSizes(a + (x + [o]) + b) == SumSizes(a + x + b) + o.size
    ensures Notional(a + (x + [o]) + b) == Notional(a + x + b) + Amount(o)
    ensures multiset(a + (x + [o]) + b) == multiset(a + x + b) + multiset{o}
  {
    Sums3(a, x, b);
    Sums3(a, x + [o], b);
    SumSizesConcat(x, [o]);
    NotionalConcat(x, [o]);
    assert [o][1..] == [];
  }

  /** append: the side gains exactly that order, and its aggregates grow by
      the order's size and price times size. */
  lemma AppendStep(side: Side, pt: seq<real>, m: map<real, Queue>, o: LimitOrder)
    requires Ordered(side, pt) && (o.price in m <==> o.price in pt)
    requires QueueAt(m, o.price).Valid() && o.id !in QueueAt(m, o.price).ordersMap
    ensures var pt', m' := TreeWith(side, pt, m, o.price), m[o.price := QueueAt(m, o.price).Append(o)];
      && |Contents(pt', m')| == |Contents(pt, m)| + 1
      && SumSizes(Contents(pt', m')) == SumSizes(Contents(pt, m)) + o.size
      && Notional(Contents(pt', m')) == Notional(Contents(pt, m)) + Amount(o)
      && multiset(Contents(pt', m')) == multiset(Contents(pt, m)) + multiset{o}
  {
    var q := QueueAt(m, o.price);
    var a, b;
    if o.price in m {
      a, b := AroundLevel(side, pt, m, o.price, q.Append(o));
    } else {
      a, b := AppendNewLevel(side, pt, m, o.price, q.Append(o));
    }
    TallyAppend(a, q.orders, o, b);
    assert Contents(TreeWith(side, pt, m, o.price), m[o.price := q.Append(o)]) == a + (q.orders + [o]) + b;
    assert Contents(pt, m) == a + q.orders + b;
  }

  /** append keeps the invariant, with one more order, a new level exactly
      when the price had none, and the order's size and amount added. */
  lemma AppendKeeps(side: Side, pt: seq<real>, m: map<real, Queue>, d: int, n: int, v: real, t: real,
                    o: LimitOrder)
    requires SideInv(side, pt, m, d, n, v, t) && o.id !in QueueAt(m, o.price).ordersMap
    ensures SideInv(side, TreeWith(side, pt, m, o.price), m[o.price := QueueAt(m, o.price).Append(o)],
      if o.price in m then d else d + 1, n + 1, v + o.size, t + Amount(o))
    ensures multiset(Contents(TreeWith(side, pt, m, o.price), m[o.price := QueueAt(m, o.price).Append(o)]))
      == multiset(Contents(pt, m)) + multiset{o}
  {
    AppendShaped(side, pt, m, o);
    assert o.price in m ==> Level(o.price, m[o.price]);
    AppendStep(side, pt, m, o);
  }

  /** The levels after the level at p has become q: when q is empty the
      level is dropped, key and all; otherwise q takes its place. */
  function TreeAfter(pt: seq<real>, p: real, q: Queue): seq<real> {
    if q.orders == [] then Delete(pt, p) else pt
  }

  function PricesAfter(m: map<real, Queue>, p: real, q: Queue): map<real, Queue> {
    if q.orders == [] then m - {p} else m[p := q]
  }

  /** Removing an order from a level leaves a level unless it was the last. */
  lemma LevelRemove(p: real, q: Queue, o: LimitOrder)
    requires Level(p, q) && o in q.orders && q.Remove(o).orders != []
    ensures Level(p, q.Remove(o))
  {
    var r := q.Remove(o);
    forall x | x in r.orders
      ensures x.price == p
    {
      var i := q.ordersMap[o.id];
      assert x in q.orders[..i] || x in q.orders[i + 1..];
    }
  }

  /** remove keeps the side well formed, and drops the level exactly when
      the order was its last. */
  lemma RemoveShaped(side: Side, pt: seq<real>, m: map<real, Queue>, o: LimitOrder)
    requires Shaped(side, pt, m) && o.price in m && o in m[o.price].orders
    ensures var q := m[o.price].Remove(o);
      && Shaped(side, TreeAfter(pt, o.price, q), PricesAfter(m, o.price, q))
      && |TreeAfter(pt, o.price, q)| == |pt| - (if q.orders == [] then 1 else 0)
  {
    var p, q := o.price, m[o.price].Remove(o);
    var pt', m' := TreeAfter(pt, p, q), PricesAfter(m, p, q);
    if q.orders == [] {
      DeleteOrdered(side, pt, p);
    } else {
      LevelRemove(p, m[p], o);
    }
    assert forall i | 0 <= i < |pt'| :: pt'[i] in m';
    assert forall p' | p' in m' :: p' in pt';
  }

  /** Taking the i-th order out of a middle run of orders takes it out of
      the count, of both sums and of the multiset. */
  lemma TallyRemove(a: seq<LimitOrder>, x: seq<LimitOrder>, i: nat, b: seq<LimitOrder>)
    requires i < |x|
    ensures |a + (x[..i] + x[i + 1..]) + b| == |a + x + b| - 1
    ensures SumSizes(a + (x[..i] + x[i + 1..]) + b) == SumSizes(a + x + b) - x[i].size
    ensures Notional(a + (x[..i] + x[i + 1..]) + b) == Notional(a + x + b) - Amount(x[i])
  {
    Sums3(a, x, b);
    Sums3(a, x[..i] + x[i + 1..], b);
    SumSizesRemove(x, i);
    NotionalRemove(x, i);
  }

  lemma BagRemove(a: seq<LimitOrder>, x: seq<LimitOrder>, i: nat, b: seq<LimitOrder>)
    requires i < |x|
    ensures multiset(a + (x[..i] + x[i + 1..]) + b) == multiset(a + x + b) - multiset{x[i]}
  {
    assert x == x[..i] + [x[i]] + x[i + 1..];
  }

  /** The contents before and after remove: the order's level loses it,
      the levels around stay. */
  lemma RemoveContents(side: Side, pt: seq<real>, m: map<real, Queue>, o: LimitOrder)
    returns (a: seq<LimitOrder>, x: seq<LimitOrder>, i: nat, b: seq<LimitOrder>)
    requires Ordered(side, pt) && o.price in m && o.price in pt
    requires m[o.price].Valid() && o in m[o.price].orders
    ensures i < |x| && x[i] == o && Contents(pt, m) == a + x + b
    ensures var q := m[o.price].Remove(o);
      Contents(TreeAfter(pt, o.price, q), PricesAfter(m, o.price, q)) == a + (x[..i] + x[i + 1..]) + b
  {
    var q := m[o.price].Remove(o);
    x, i := m[o.price].orders, m[o.price].ordersMap[o.id];
    a, b := AroundLevel(side, pt, m, o.price, q);
    assert q.orders == x[..i] + x[i + 1..];
    if q.orders == [] {
      assert a + q.orders + b == a + b;
    }
  }

  /** remove: the side loses exactly that order, and its aggregates shrink
      by the order's size and price times size. */
  lemma RemoveStep(side: Side, pt: seq<real>, m: map<real, Queue>, o: LimitOrder)
    requires Ordered(side, pt) && o.price in m && o.price in pt
    requires m[o.price].Valid() && o in m[o.price].orders
    ensures var q := m[o.price].Remove(o);
      var c, c' := Contents(pt, m), Contents(TreeAfter(pt, o.price, q), PricesAfter(m, o.price, q));
      && |c'| == |c| - 1
      && SumSizes(c') == SumSizes(c) - o.size
      && Notional(c') == Notional(c) - Amount(o)
      && multiset(c') == multiset(c) - multiset{o}
  {
    var a, x, i, b := RemoveContents(side, pt, m, o);
    TallyRemove(a, x, i, b);
    BagRemove(a, x, i, b);
  }

  /** remove keeps the invariant, with one order fewer, one level fewer
      exactly when the order was the last of its level, and the order's size
      and amount taken out. */
  lemma RemoveKeeps(side: Side, pt: seq<real>, m: map<real, Queue>, d: int, n: int, v: real, t: real,
                    o: LimitOrder)
    requires SideInv(side, pt, m, d, n, v, t) && o.price in m && o in m[o.price].orders
    ensures var q := m[o.price].Remove(o);
      SideInv(side, TreeAfter(pt, o.price, q), PricesAfter(m, o.price, q),
        if q.orders == [] then d - 1 else d, n - 1, v - o.size, t - Amount(o))
    ensures var q := m[o.price].Remove(o);
      multiset(Contents(TreeAfter(pt, o.price, q), PricesAfter(m, o.price, q)))
        == multiset(Contents(pt, m)) - multiset{o}
  {
    RemoveShaped(side, pt, m, o);
    assert Level(o.price, m[o.price]);
    RemoveStep(side, pt, m, o);
  }

  /** Resizing an order keeps its level a level. */
  lemma LevelResize(p: real, q: Queue, o: LimitOrder, size: real, now: int)
    requires Level(p, q) && o in q.orders
    ensures Level(p, q.Resize(o, size, now))
  {
    var r := q.Resize(o, size, now);
    forall x | x in r.orders
      ensures x.price == p
    {
      var i := q.ordersMap[o.id];
      assert x == Resized(o, size, now) || x in q.orders by {
        var j :| 0 <= j < |r.orders| && r.orders[j] == x;
        if j != i { assert x == q.orders[j]; }
      }
    }
  }

  /** Replacing the i-th order of a middle run by y replaces it in place in
      the whole run. */
  lemma ReplaceInMiddle(a: seq<LimitOrder>, x: seq<LimitOrder>, i: nat, y: LimitOrder, b: seq<LimitOrder>)
    requires i < |x|
    ensures (a + x + b)[|a| + i] == x[i]
    ensures a + x[i := y] + b == (a + x + b)[|a| + i := y]
  {
  }

  /** The corrected total after a size update: the order stays at its own
      price, so the total changes by the new minus the old price times size
      at that price. */
  function SizeUpdateTotal(total: real, o: LimitOrder, size: real): (r: real)
    ensures r - total == o.price * (size - o.size)
  {
    total - Amount(o) + o.price * size
  }

  /** The total after a size update as the source computes it: the price
      term uses the price carried by the update when there is one, although
      the order keeps resting at its old price. */
  function SizeUpdateTotalAsWritten(total: real, o: LimitOrder, price: Option<real>, size: real): real {
    total + (size * price.GetOr(o.price) - o.size * o.price)
  }

  /** The two agree exactly when the update carries no other price or the
      new size is zero. */
  lemma AsWrittenAgreesIff(total: real, o: LimitOrder, price: Option<real>, size: real)
    ensures SizeUpdateTotalAsWritten(total, o, price, size) == SizeUpdateTotal(total, o, size)
      <==> price.None? || price.value == o.price || size == 0.0
  {
    if price.Some? && size != 0.0 {
      var d := size * price.value - size * o.price;
      assert d == size * (price.value - o.price);
      if price.value != o.price {
        assert d != 0.0;
      }
    }
  }

  /** A BUY order of size 5 at price 10 resized to 5 with an update that
      carries price 20: the resting notional stays 50, the as-written total
      becomes 100. */
  lemma AsWrittenTotalDrifts()
    ensures var o := Limit("a", Buy, 5.0, 0, 10.0, 5.0, GTC, 0.0, 0.0, false, None);
      && Notional([o]) == 50.0
      && Notional([Resized(o, 5.0, 1)]) == 50.0
      && SizeUpdateTotalAsWritten(Notional([o]), o, Some(20.0), 5.0) == 100.0
  {
    var o := Limit("a", Buy, 5.0, 0, 10.0, 5.0, GTC, 0.0, 0.0, false, None);
    assert [o][1..] == [];
    assert [Resized(o, 5.0, 1)][1..] == [];
  }

  /** The contents before and after updateOrderSize: the order is replaced
      by its resized value in its own place. */
  lemma ResizeContents(side: Side, pt: seq<real>, m: map<real, Queue>, o: LimitOrder, size: real, now: int)
    returns (a: seq<LimitOrder>, x: seq<LimitOrder>, i: nat, b: seq<LimitOrder>)
    requires Ordered(side, pt) && o.price in m && o.price in pt
    requires m[o.price].Valid() && o in m[o.price].orders
    ensures i < |x| && x[i] == o && Contents(pt, m) == a + x + b
    ensures Contents(pt, m[o.price := m[o.price].Resize(o, size, now)]) == a + x[i := Resized(o, size, now)] + b
  {
    x, i := m[o.price].orders, m[o.price].ordersMap[o.id];
    a, b := AroundLevel(side, pt, m, o.price, m[o.price].Resize(o, size, now));
  }

  /** updateOrderSize: the order is resized in its own place, at position j
      of the contents. */
  lemma ResizeStep(side: Side, pt: seq<real>, m: map<real, Queue>, o: LimitOrder, size: real, now: int)
    returns (j: nat)
    requires Ordered(side, pt) && o.price in m && o.price in pt
    requires m[o.price].Valid() && o in m[o.price].orders
    ensures j < |Contents(pt, m)| && Contents(pt, m)[j] == o
    ensures Contents(pt, m[o.price := m[o.price].Resize(o, size, now)]) ==
      Contents(pt, m)[j := Resized(o, size, now)]
  {
    var a, x, i, b := ResizeContents(side, pt, m, o, size, now);
    ReplaceInMiddle(a, x, i, Resized(o, size, now), b);
    j := |a| + i;
  }

  /** ... so the count stays and the volume and the notional follow. */
  lemma ResizeSums(side: Side, pt: seq<real>, m: map<real, Queue>, o: LimitOrder, size: real, now: int)
    requires Ordered(side, pt) && o.price in m && o.price in pt
    requires m[o.price].Valid() && o in m[o.price].orders
    ensures var c, c' := Contents(pt, m), Contents(pt, m[o.price := m[o.price].Resize(o, size, now)]);
      && |c'| == |c|
      && SumSizes(c') == SumSizes(c) + (size - o.size)
      && Notional(c') == Notional(c) - Amount(o) + Amount(Resized(o, size, now))
  {
    var j := ResizeStep(side, pt, m, o, size, now);
    SumSizesReplace(Contents(pt, m), j, Resized(o, size, now));
    NotionalReplace(Contents(pt, m), j, Resized(o, size, now));
  }

  lemma ResizeKeeps(side: Side, pt: seq<real>, m: map<real, Queue>, d: int, n: int, v: real, t: real,
                    o: LimitOrder, size: real, now: int)
    requires SideInv(side, pt, m, d, n, v, t) && o.price in m && o in m[o.price].orders
    ensures SideInv(side, pt, m[o.price := m[o.price].Resize(o, size, now)],
                    d, n, v + (size - o.size), SizeUpdateTotal(t, o, size))
  {
    assert Level(o.price, m[o.price]);
    LevelResize(o.price, m[o.price], o, size, now);
    LevelReplaced(side, pt, m, o.price, m[o.price].Resize(o, size, now));
    ResizeSums(side, pt, m, o, size, now);
    ResizedTotal(t, o, size, now);
  }

  /** The corrected total is the old total with the order's old notional
      swapped for its resized one. */
  lemma ResizedTotal(total: real, o: LimitOrder, size: real, now: int)
    ensures total - Amount(o) + Amount(Resized(o, size, now)) == SizeUpdateTotal(total, o, size)
  {
  }

  /** Replacing a level by another level at the same price keeps the side
      well formed. */
  lemma LevelReplaced(side: Side, pt: seq<real>, m: map<real, Queue>, p: real, q: Queue)
    requires Shaped(side, pt, m) && p in m && Level(p, q)
    ensures Shaped(side, pt, m[p := q])
  {
  }


  // ---------------------------------------------------------------------
  // The side's state as one record.

  /** The state of a side: the tree's keys, the price map, the level count
      and the three running aggregates. */
  datatype SideState = SideState(priceTree: seq<real>, prices: map<real, Queue>, depth: int,
                                 numOrders: int, volume: real, total: real)
  {
    /** The resting orders, level after level in tree order. */
    function Orders(): seq<LimitOrder> {
      Contents(priceTree, prices)
    }
  }

  /** The invariant of a side's record. */
  ghost predicate Inv(side: Side, s: SideState) {
    SideInv(side, s.priceTree, s.prices, s.depth, s.numOrders, s.volume, s.total)
  }

  // ---------------------------------------------------------------------
  // Collecting the orders level by level in any order of the levels.

  /** The contents of the levels whose keys are in S, in tree order. */
  function Picked(pt: seq<real>, m: map<real, Queue>, S: set<real>): seq<LimitOrder> {
    if pt == [] then []
    else (if pt[0] in S then At(m, pt[0]) else []) + Picked(pt[1..], m, S)
  }

  lemma {:induction false} PickedNone(pt: seq<real>, m: map<real, Queue>)
    ensures Picked(pt, m, {}) == []
  {
    if pt != [] {
      PickedNone(pt[1..], m);
    }
  }

  lemma {:induction false} PickedAll(pt: seq<real>, m: map<real, Queue>, S: set<real>)
    requires forall i | 0 <= i < |pt| :: pt[i] in S
    ensures Picked(pt, m, S) == Contents(pt, m)
  {
    if pt != [] {
      assert forall i | 0 <= i < |pt[1..]| :: pt[1..][i] == pt[i + 1];
      PickedAll(pt[1..], m, S);
    }
  }

  lemma {:induction false} PickedSkip(pt: seq<real>, m: map<real, Queue>, S: set<real>, p: real)
    requires p !in pt
    ensures Picked(pt, m, S + {p}) == Picked(pt, m, S)
  {
    if pt != [] {
      assert pt[0] != p && p !in pt[1..];
      PickedSkip(pt[1..], m, S, p);
    }
  }

  /** Picking one more key adds the orders of that level. */
  lemma {:induction false} PickedAdd(side: Side, pt: seq<real>, m: map<real, Queue>, S: set<real>, p: real)
    requires Ordered(side, pt) && p !in S && p in pt
    ensures multiset(Picked(pt, m, S + {p})) == multiset(Picked(pt, m, S)) + multiset(At(m, p))
  {
    OrderedSlice(side, pt, 1, |pt|);
    var T := S + {p};
    assert Picked(pt, m, T) == (if pt[0] in T then At(m, pt[0]) else []) + Picked(pt[1..], m, T);
    assert Picked(pt, m, S) == (if pt[0] in S then At(m, pt[0]) else []) + Picked(pt[1..], m, S);
    if pt[0] == p {
      OrderedUnique(side, pt, 0);
      PickedSkip(pt[1..], m, S, p);
    } else {
      assert p in pt[1..];
      PickedAdd(side, pt[1..], m, S, p);
      assert (pt[0] in T) == (pt[0] in S);
    }
  }

  /** Collecting every level gives the contents. */
  lemma PickedEvery(side: Side, s: SideState)
    requires Inv(side, s)
    ensures Picked(s.priceTree, s.prices, s.prices.Keys) == s.Orders()
  {
    PickedAll(s.priceTree, s.prices, s.prices.Keys);
  }

  /** A side with no levels has an empty price map. */
  lemma EmptyTree(side: Side, s: SideState)
    requires Inv(side, s) && s.depth <= 0
    ensures s.prices == map[]
  {
    assert forall p | p in s.prices :: p in s.priceTree;
  }

  /** After remove the order's id is gone from its price, the level is gone
      exactly when the order was its last, and every other level is as it
      was. */
  lemma RemoveLevels(m: map<real, Queue>, o: LimitOrder)
    requires o.price in m && m[o.price].Valid() && o in m[o.price].orders
    ensures var m' := PricesAfter(m, o.price, m[o.price].Remove(o));
      && (o.price in m' <==> |m[o.price].orders| > 1)
      && o.id !in QueueAt(m', o.price).ordersMap
      && forall p | p != o.price :: QueueAt(m', p) == QueueAt(m, p)
  {
  }
}
