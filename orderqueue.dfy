/** One price level of the limit book: a FIFO of limit orders at a single
    price, with its running volume and an index from order id to position
    in the FIFO. */
module OrderQueues {
  import opened Types
  import opened Orders

  /** The id-to-position index is exact: every indexed id names the order at
      its position, and every queued order is indexed at its own position. */
  ghost predicate IndexedBy(s: seq<Order>, m: map<string, nat>) {
    && (forall id | id in m :: m[id] < |s| && s[m[id]].id == id)
    && (forall i | 0 <= i < |s| :: s[i].id in m && m[s[i].id] == i)
  }

  /** An exact index can only exist when the queued ids are distinct. */
  lemma IndexedUnique(s: seq<Order>, m: map<string, nat>)
    requires IndexedBy(s, m)
    ensures UniqueIds(s)
    ensures forall id :: id in m <==> exists i | 0 <= i < |s| :: s[i].id == id
  {
    forall i, j | 0 <= i < j < |s|
      ensures s[i].id != s[j].id
    {
      assert m[s[i].id] == i && m[s[j].id] == j;
    }
  }

  /** The index after the order at position i (whose id is `id`) leaves:
      the id goes, and every position behind it moves one place up. */
  function Reindexed(m: map<string, nat>, id: string, i: nat): (r: map<string, nat>)
    ensures r.Keys == m.Keys - {id}
  {
    map k | k in m && k != id :: if m[k] > i then m[k] - 1 else m[k]
  }

  lemma IndexedRemove(s: seq<Order>, m: map<string, nat>, i: nat)
    requires IndexedBy(s, m) && i < |s|
    ensures IndexedBy(s[..i] + s[i + 1..], Reindexed(m, s[i].id, i))
  {
    var t := s[..i] + s[i + 1..];
    var r := Reindexed(m, s[i].id, i);
    forall id | id in r
      ensures r[id] < |t| && t[r[id]].id == id
    {
      assert m[id] != i;
      if m[id] > i { assert t[m[id] - 1] == s[m[id]]; } else { assert t[m[id]] == s[m[id]]; }
    }
    forall j | 0 <= j < |t|
      ensures t[j].id in r && r[t[j].id] == j
    {
      if j < i {
        assert t[j] == s[j] && m[s[j].id] == j;
      } else {
        assert t[j] == s[j + 1] && m[s[j + 1].id] == j + 1;
      }
    }
  }

  lemma IndexedReplace(s: seq<Order>, m: map<string, nat>, i: nat, x: Order)
    requires IndexedBy(s, m) && i < |s| && x.id == s[i].id
    ensures IndexedBy(s[i := x], m)
  {
  }

  /** The index-shifting loop of removal: every position behind `idx`
      moves one place up, the others stay. */
  method ShiftDown(m: map<string, nat>, idx: nat) returns (r: map<string, nat>)
    ensures r.Keys == m.Keys
    ensures forall id | id in m :: r[id] == if m[id] > idx then m[id] - 1 else m[id]
  {
    r := m;
    var pending := m.Keys;
    while pending != {}
      invariant pending <= r.Keys == m.Keys
      invariant forall id | id in r ::
        r[id] == if id in pending || m[id] <= idx then m[id] else m[id] - 1
      decreases pending
    {
      var id :| id in pending;
      if r[id] > idx {
        r := r[id := r[id] - 1];
      }
      pending := pending - {id};
    }
  }

  /** The index bookkeeping of removal as the source does it: the id is
      deleted, then the shifting loop runs over what is left. */
  method Unindex(m: map<string, nat>, id: string, idx: nat) returns (r: map<string, nat>)
    ensures r == Reindexed(m, id, idx)
  {
    var rest := map k | k in m && k != id :: m[k];
    r := ShiftDown(rest, idx);
  }

  /** The index after the head order's id gives way to a new head id. */
  function HeadReindexed(m: map<string, nat>, oldId: string, newId: string): (r: map<string, nat>)
    ensures r.Keys == m.Keys - {oldId} + {newId} && r[newId] == 0
  {
    (map id | id in m && id != oldId :: m[id])[newId := 0]
  }

  /** The index after the head order is replaced by one whose id is new or
      the same. */
  lemma IndexedHead(s: seq<Order>, m: map<string, nat>, x: Order)
    requires IndexedBy(s, m) && s != [] && (x.id == s[0].id || x.id !in m)
    ensures IndexedBy([x] + s[1..], HeadReindexed(m, s[0].id, x.id))
  {
    var t := [x] + s[1..];
    var r := HeadReindexed(m, s[0].id, x.id);
    forall j | 0 <= j < |t|
      ensures t[j].id in r && r[t[j].id] == j
    {
      if j > 0 {
        assert t[j] == s[j] && m[s[j].id] == j;
      }
    }
  }

  /** The state of a price level as a value: its price, its running volume,
      its orders head first, and the index from id to position. */
  datatype Queue = Queue(price: real, volume: real, orders: seq<LimitOrder>, ordersMap: map<string, nat>)
  {
    /** The volume is the sum of the queued sizes and the index is exact. */
    ghost predicate Valid() {
      volume == SumSizes(orders) && IndexedBy(orders, ordersMap)
    }

    /** The order joins at the tail; the volume grows by its size. */
    function Append(o: LimitOrder): (r: Queue)
      requires Valid() && o.id !in ordersMap
      ensures r.Valid() && r.price == price
      ensures r.orders == orders + [o] && r.volume == volume + o.size
    {
      SumSizesConcat(orders, [o]);
      Queue(price, volume + o.size, orders + [o], ordersMap[o.id := |orders|])
    }

    /** The head order is replaced by its successor value; the volume swaps
        their sizes. */
    function Update(oldOrder: LimitOrder, newOrder: LimitOrder): (r: Queue)
      requires Valid() && orders != [] && orders[0] == oldOrder
      requires newOrder.id == oldOrder.id || newOrder.id !in ordersMap
      ensures r.Valid() && r.price == price
      ensures r.orders == [newOrder] + orders[1..] && |r.orders| == |orders|
      ensures r.volume == volume - oldOrder.size + newOrder.size
    {
      SumSizesReplace(orders, 0, newOrder);
      assert orders[0 := newOrder] == [newOrder] + orders[1..];
      IndexedHead(orders, ordersMap, newOrder);
      Queue(price, volume - oldOrder.size + newOrder.size, [newOrder] + orders[1..],
            HeadReindexed(ordersMap, oldOrder.id, newOrder.id))
    }

    /** A queued order leaves; the orders behind it keep their relative
        order and move one place up. */
    function Remove(o: LimitOrder): (r: Queue)
      requires Valid() && o in orders
      ensures r.Valid() && r.price == price
      ensures var i := ordersMap[o.id];
        i < |orders| && orders[i] == o && r.orders == orders[..i] + orders[i + 1..]
      ensures r.volume == volume - o.size
      ensures o.id !in r.ordersMap && |r.orders| == |orders| - 1
    {
      var k :| 0 <= k < |orders| && orders[k] == o;
      assert ordersMap[orders[k].id] == k;
      var i := ordersMap[o.id];
      SumSizesRemove(orders, i);
      IndexedRemove(orders, ordersMap, i);
      Queue(price, volume - o.size, orders[..i] + orders[i + 1..], Reindexed(ordersMap, o.id, i))
    }

    /** A queued order gets a new size and timestamp in its own place. */
    function Resize(o: LimitOrder, size: real, now: int): (r: Queue)
      requires Valid() && o in orders
      ensures r.Valid() && r.price == price && r.ordersMap == ordersMap
      ensures var i := ordersMap[o.id];
        i < |orders| && orders[i] == o && r.orders == orders[i := Resized(o, size, now)]
      ensures r.volume == volume + (size - o.size)
    {
      var k :| 0 <= k < |orders| && orders[k] == o;
      assert ordersMap[orders[k].id] == k;
      var i := ordersMap[o.id];
      var x := Resized(o, size, now);
      SumSizesReplace(orders, i, x);
      IndexedReplace(orders, ordersMap, i, x);
      Queue(price, volume + (size - o.size), orders[i := x], ordersMap)
    }
  }

  /** An empty level at a price. */
  function EmptyQueue(price: real): (r: Queue)
    ensures r.Valid() && r.price == price && r.orders == []
  {
    Queue(price, 0.0, [], map[])
  }

  /** One price level as the source keeps it: a mutable object whose
      methods are specified by the value operations above. */
  class OrderQueue {
    const price: real
    var volume: real
    var orders: seq<LimitOrder>
    var ordersMap: map<string, nat>

    /** The object's current state as a value. */
    function State(): Queue
      reads this
    {
      Queue(price, volume, orders, ordersMap)
    }

    ghost predicate Valid()
      reads this
    {
      State().Valid()
    }

    constructor(price: real)
      ensures Valid() && State() == EmptyQueue(price)
    {
      this.price := price;
      volume := 0.0;
      orders := [];
      ordersMap := map[];
    }

    method Len() returns (n: nat)
      ensures n == |orders|
    {
      n := |orders|;
    }

    method ToArray() returns (r: seq<LimitOrder>)
      ensures r == orders
    {
      r := orders;
    }

    /** The running volume is the sum of the queued sizes. */
    method Volume() returns (v: real)
      requires Valid()
      ensures v == SumSizes(orders)
    {
      v := volume;
    }

    /** The oldest order, if any. */
    method Head() returns (r: Option<LimitOrder>)
      ensures r.None? <==> orders == []
      ensures r.Some? ==> r.value == orders[0]
    {
      r := if orders == [] then None else Some(orders[0]);
    }

    /** The newest order, if any. */
    method Tail() returns (r: Option<LimitOrder>)
      ensures r.None? <==> orders == []
      ensures r.Some? ==> r.value == orders[|orders| - 1]
    {
      r := if orders == [] then None else Some(orders[|orders| - 1]);
    }

    method Append(o: LimitOrder) returns (r: LimitOrder)
      requires Valid() && o.id !in ordersMap
      modifies this
      ensures Valid() && r == o
      ensures State() == old(State()).Append(o)
    {
      ghost var next := State().Append(o);
      volume, orders, ordersMap := volume + o.size, orders + [o], ordersMap[o.id := |orders|];
      r := o;
      assert State() == next;
    }

    method Update(oldOrder: LimitOrder, newOrder: LimitOrder)
      requires Valid() && orders != [] && orders[0] == oldOrder
      requires newOrder.id == oldOrder.id || newOrder.id !in ordersMap
      modifies this
      ensures Valid()
      ensures State() == old(State()).Update(oldOrder, newOrder)
    {
      ghost var next := State().Update(oldOrder, newOrder);
      volume, orders, ordersMap := volume - oldOrder.size + newOrder.size, [newOrder] + orders[1..],
        HeadReindexed(ordersMap, oldOrder.id, newOrder.id);
      assert State() == next;
    }

    /** Removal, with the source's loop that moves every index behind the
        removed one up by one place. */
    method Remove(o: LimitOrder)
      requires Valid() && o in orders
      modifies this
      ensures Valid()
      ensures State() == old(State()).Remove(o)
    {
      ghost var next := State().Remove(o);
      var idx := ordersMap[o.id];
      var shifted := Unindex(ordersMap, o.id, idx);
      volume, orders, ordersMap := volume - o.size, orders[..idx] + orders[idx + 1..], shifted;
      assert State() == next;
    }

    method UpdateOrderSize(o: LimitOrder, size: real, now: int)
      requires Valid() && o in orders
      modifies this
      ensures Valid()
      ensures State() == old(State()).Resize(o, size, now)
    {
      var k :| 0 <= k < |orders| && orders[k] == o;
      assert ordersMap[orders[k].id] == k;
      var i := ordersMap[o.id];
      ghost var next := State().Resize(o, size, now);
      volume, orders := volume + (size - o.size), orders[i := Resized(o, size, now)];
      assert State() == next;
    }
  }
}
