/** One trigger price of the conditional book: a FIFO of stop orders that
    wait on the same stop price. Only its observable behaviour is modelled
    (append at the tail, removal by id, removal of the head, length and the
    ordered contents). */
module StopQueues {
  import opened Types
  import opened Orders

  /** The position of the first order with this id, or |s| when none has it. */
  function FirstWith(s: seq<StopOrder>, id: string): (i: nat)
    ensures i <= |s|
    ensures i < |s| ==> s[i].id == id
    ensures forall j | 0 <= j < i :: s[j].id != id
  {
    if s == [] then 0
    else if s[0].id == id then 0
    else 1 + FirstWith(s[1..], id)
  }

  /** The state of a stop queue as a value: its price and its orders, oldest
      first. */
  datatype StopLevel = StopLevel(price: real, orders: seq<StopOrder>)
  {
    /** The order joins the tail, behind every order already queued. */
    function Append(o: StopOrder): (r: StopLevel)
      ensures r.price == price
      ensures |r.orders| == |orders| + 1 && r.orders[..|orders|] == orders && r.orders[|orders|] == o
      ensures multiset(r.orders) == multiset(orders) + multiset{o}
    {
      StopLevel(price, orders + [o])
    }

    /** Takes out the first order with the id, if there is one; the others
        keep their relative order. */
    function Remove(id: string): (r: (Option<StopOrder>, StopLevel))
      ensures r.1.price == price
      ensures r.0.None? <==> forall o | o in orders :: o.id != id
      ensures r.0.None? ==> r.1 == this
      ensures r.0.Some? ==>
        var i := FirstWith(orders, id);
        && r.0.value.id == id
        && i < |orders| && r.0.value == orders[i]
        && r.1.orders == orders[..i] + orders[i + 1..]
        && multiset(r.1.orders) + multiset{r.0.value} == multiset(orders)
    {
      var i := FirstWith(orders, id);
      if i == |orders| then (None, this)
      else
        assert orders == orders[..i] + [orders[i]] + orders[i + 1..];
        (Some(orders[i]), StopLevel(price, orders[..i] + orders[i + 1..]))
    }

    /** Takes out the oldest order, if there is one. */
    function RemoveFromHead(): (r: (Option<StopOrder>, StopLevel))
      ensures r.1.price == price
      ensures r.0.None? <==> orders == []
      ensures r.0.None? ==> r.1 == this
      ensures r.0.Some? ==> [r.0.value] + r.1.orders == orders
    {
      if orders == [] then (None, this)
      else (Some(orders[0]), StopLevel(price, orders[1..]))
    }
  }

  /** A fresh queue at a price holds nothing. */
  function EmptyLevel(price: real): (r: StopLevel)
    ensures r.price == price && r.orders == []
  {
    StopLevel(price, [])
  }

  /** The queue after appending each of xs in turn. */
  function AppendAll(l: StopLevel, xs: seq<StopOrder>): StopLevel
    decreases |xs|
  {
    if xs == [] then l else AppendAll(l.Append(xs[0]), xs[1..])
  }

  /** The orders obtained by removing from the head until the queue is empty. */
  function Drain(l: StopLevel): seq<StopOrder>
    decreases |l.orders|
  {
    var (h, rest) := l.RemoveFromHead();
    if h.None? then [] else [h.value] + Drain(rest)
  }

  lemma {:induction false} AppendAllContents(l: StopLevel, xs: seq<StopOrder>)
    ensures AppendAll(l, xs) == StopLevel(l.price, l.orders + xs)
    decreases |xs|
  {
    if xs != [] {
      AppendAllContents(l.Append(xs[0]), xs[1..]);
      assert l.orders + [xs[0]] + xs[1..] == l.orders + xs;
    }
  }

  lemma {:induction false} DrainContents(l: StopLevel)
    ensures Drain(l) == l.orders
    decreases |l.orders|
  {
    if l.orders != [] {
      DrainContents(StopLevel(l.price, l.orders[1..]));
    }
  }

  /** First in, first out: removing from the head gives back the orders in
      the order they were appended. */
  lemma FifoOrder(price: real, xs: seq<StopOrder>)
    ensures Drain(AppendAll(EmptyLevel(price), xs)) == xs
  {
    AppendAllContents(EmptyLevel(price), xs);
    DrainContents(AppendAll(EmptyLevel(price), xs));
  }

  /** Removing by id from a queue with distinct ids removes the order that
      carries the id, wherever it stands, and a second removal of the same
      id finds nothing. */
  lemma RemoveById(l: StopLevel, i: nat)
    requires UniqueIds(l.orders) && i < |l.orders|
    ensures var (r, rest) := l.Remove(l.orders[i].id);
      && r == Some(l.orders[i])
      && rest.orders == l.orders[..i] + l.orders[i + 1..]
      && rest.Remove(l.orders[i].id).0.None?
  {
    assert FirstWith(l.orders, l.orders[i].id) == i;
    IdGone(l.orders, i);
  }

  /** With distinct ids, no order left after taking out position i carries
      its id. */
  lemma IdGone(s: seq<StopOrder>, i: nat)
    requires UniqueIds(s) && i < |s|
    ensures forall o | o in s[..i] + s[i + 1..] :: o.id != s[i].id
  {
    var t := s[..i] + s[i + 1..];
    forall o | o in t
      ensures o.id != s[i].id
    {
      var j :| 0 <= j < |t| && t[j] == o;
      if j < i { assert o == s[j]; } else { assert o == s[j + 1]; }
    }
  }

  /** One stop queue as the source keeps it: a mutable object whose methods
      are specified by the value operations above. */
  class StopQueue {
    const price: real
    var orders: seq<StopOrder>

    function State(): StopLevel
      reads this
    {
      StopLevel(price, orders)
    }

    constructor(price: real)
      ensures State() == EmptyLevel(price)
    {
      this.price := price;
      orders := [];
    }

    method Len() returns (n: nat)
      ensures n == |orders|
    {
      n := |orders|;
    }

    /** The orders, oldest first. */
    method ToArray() returns (r: seq<StopOrder>)
      ensures r == orders
    {
      r := orders;
    }

    method Append(o: StopOrder) returns (r: StopOrder)
      modifies this
      ensures r == o
      ensures State() == old(State()).Append(o)
    {
      orders := orders + [o];
      r := o;
    }

    method Remove(id: string) returns (r: Option<StopOrder>)
      modifies this
      ensures (r, State()) == old(State()).Remove(id)
    {
      var i := FirstWith(orders, id);
      if i == |orders| {
        r := None;
      } else {
        r := Some(orders[i]);
        orders := orders[..i] + orders[i + 1..];
      }
    }

    method RemoveFromHead() returns (r: Option<StopOrder>)
      modifies this
      ensures (r, State()) == old(State()).RemoveFromHead()
    {
      if orders == [] {
        r := None;
      } else {
        r := Some(orders[0]);
        orders := orders[1..];
      }
    }
  }
}
