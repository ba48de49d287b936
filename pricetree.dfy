/** The price index of a book side. The red-black tree keyed by price is
    modelled by the sequence of its keys in in-order traversal, which is
    strictly increasing in the side's comparator; its `insert`, `remove`,
    `begin`, `end`, `lt` and `gt` become functions on that sequence. */
module PriceTrees {
  import opened Types

  /** The comparator a side builds its tree with (SELL sorts ascending, BUY
      descending), as the strict "a comes before b" it induces. */
  predicate Before(side: Side, a: real, b: real) {
    if side == Sell then a < b else a > b
  }

  /** The keys in tree order: each comes strictly before every later one. */
  ghost predicate Ordered(side: Side, ks: seq<real>) {
    forall i, j | 0 <= i < j < |ks| :: Before(side, ks[i], ks[j])
  }

  /** On SELL the keys ascend, on BUY they descend, and on either side no
      price occurs twice. */
  lemma OrderedMeansSorted(side: Side, ks: seq<real>)
    requires Ordered(side, ks)
    ensures side == Sell ==> forall i, j | 0 <= i < j < |ks| :: ks[i] < ks[j]
    ensures side == Buy ==> forall i, j | 0 <= i < j < |ks| :: ks[i] > ks[j]
    ensures forall i, j | 0 <= i < |ks| && 0 <= j < |ks| && i != j :: ks[i] != ks[j]
  {
    forall i, j | 0 <= i < |ks| && 0 <= j < |ks| && i != j
      ensures ks[i] != ks[j]
    {
      if i < j { assert Before(side, ks[i], ks[j]); } else { assert Before(side, ks[j], ks[i]); }
    }
  }

  lemma OrderedSlice(side: Side, ks: seq<real>, lo: nat, hi: nat)
    requires Ordered(side, ks) && lo <= hi <= |ks|
    ensures Ordered(side, ks[lo..hi])
  {
    var s := ks[lo..hi];
    forall i, j | 0 <= i < j < |s|
      ensures Before(side, s[i], s[j])
    {
      assert s[i] == ks[lo + i] && s[j] == ks[lo + j];
    }
  }

  lemma OrderedConcat(side: Side, a: seq<real>, b: seq<real>)
    requires Ordered(side, a) && Ordered(side, b)
    requires forall i, j | 0 <= i < |a| && 0 <= j < |b| :: Before(side, a[i], b[j])
    ensures Ordered(side, a + b)
  {
    var c := a + b;
    forall i, j | 0 <= i < j < |c|
      ensures Before(side, c[i], c[j])
    {
      if j < |a| {
        assert c[i] == a[i] && c[j] == a[j];
      } else if i < |a| {
        assert c[i] == a[i] && c[j] == b[j - |a|];
      } else {
        assert c[i] == b[i - |a|] && c[j] == b[j - |a|];
      }
    }
  }

  /** The key at position k occurs nowhere else. */
  lemma OrderedUnique(side: Side, ks: seq<real>, k: nat)
    requires Ordered(side, ks) && k < |ks|
    ensures ks[k] !in ks[..k] && ks[k] !in ks[k + 1..]
  {
  }

  /** The number of keys that come strictly before p: where the tree puts p. */
  function Rank(side: Side, ks: seq<real>, p: real): (n: nat)
    requires Ordered(side, ks)
    ensures n <= |ks|
    ensures forall i | 0 <= i < n :: Before(side, ks[i], p)
    ensures forall i | n <= i < |ks| :: !Before(side, ks[i], p)
  {
    if ks == [] || !Before(side, ks[0], p) then 0
    else 1 + Rank(side, ks[1..], p)
  }

  /** The tree's `insert` of a key. */
  function Insert(side: Side, ks: seq<real>, p: real): (r: seq<real>)
    requires Ordered(side, ks)
    ensures |r| == |ks| + 1
    ensures forall x :: x in r <==> x in ks || x == p
  {
    var n := Rank(side, ks, p);
    assert ks == ks[..n] + ks[n..];
    ks[..n] + [p] + ks[n..]
  }

  /** Inserting a new key keeps the keys ordered and adds exactly that key. */
  lemma InsertOrdered(side: Side, ks: seq<real>, p: real)
    requires Ordered(side, ks) && p !in ks
    ensures Ordered(side, Insert(side, ks, p))
    ensures forall x :: x in Insert(side, ks, p) <==> x in ks || x == p
    ensures |Insert(side, ks, p)| == |ks| + 1
  {
    var n := Rank(side, ks, p);
    var a, b := ks[..n], ks[n..];
    OrderedSlice(side, ks, 0, n);
    OrderedSlice(side, ks, n, |ks|);
    OrderedConcat(side, a, [p]);
    forall i, j | 0 <= i < |a + [p]| && 0 <= j < |b|
      ensures Before(side, (a + [p])[i], b[j])
    {
      assert b[j] == ks[n + j] && b[j] != p;
      if i < n { assert (a + [p])[i] == ks[i]; }
    }
    OrderedConcat(side, a + [p], b);
    assert ks == a + b;
  }

  /** The position of p among the keys, or |ks| when p is not a key. */
  function IndexOf(ks: seq<real>, p: real): (k: nat)
    ensures k <= |ks|
    ensures k < |ks| ==> ks[k] == p
    ensures k == |ks| <==> p !in ks
  {
    if ks == [] then 0
    else if ks[0] == p then 0
    else 1 + IndexOf(ks[1..], p)
  }

  /** The tree's `remove` of a key; a key that is absent leaves it as it is. */
  function Delete(ks: seq<real>, p: real): (r: seq<real>)
    ensures |r| == if p in ks then |ks| - 1 else |ks|
    ensures forall x | x in r :: x in ks
    ensures forall x | x in ks && x != p :: x in r
  {
    var k := IndexOf(ks, p);
    if k < |ks| then
      assert ks == ks[..k] + [p] + ks[k + 1..];
      ks[..k] + ks[k + 1..]
    else ks
  }

  /** Removing a key keeps the keys ordered and takes out exactly that key. */
  lemma DeleteOrdered(side: Side, ks: seq<real>, p: real)
    requires Ordered(side, ks)
    ensures Ordered(side, Delete(ks, p))
    ensures forall x :: x in Delete(ks, p) <==> x in ks && x != p
    ensures |Delete(ks, p)| == if p in ks then |ks| - 1 else |ks|
  {
    var k := IndexOf(ks, p);
    if k < |ks| {
      var a, b := ks[..k], ks[k + 1..];
      OrderedSlice(side, ks, 0, k);
      OrderedSlice(side, ks, k + 1, |ks|);
      forall i, j | 0 <= i < |a| && 0 <= j < |b|
        ensures Before(side, a[i], b[j])
      {
        assert a[i] == ks[i] && b[j] == ks[k + 1 + j];
      }
      OrderedConcat(side, a, b);
      OrderedUnique(side, ks, k);
      assert ks == a + [p] + b;
    }
  }

  /** The tree's `lt`: the position of the last key that comes strictly
      before p in the side's order, if any. */
  function Lt(side: Side, ks: seq<real>, p: real): (r: Option<nat>)
    ensures r.Some? ==> r.value < |ks| && Before(side, ks[r.value], p)
    ensures forall i | (if r.Some? then r.value + 1 else 0) <= i < |ks| ::
      !Before(side, ks[i], p)
  {
    if ks == [] then None
    else if Before(side, ks[|ks| - 1], p) then Some(|ks| - 1)
    else Lt(side, ks[..|ks| - 1], p)
  }

  /** The tree's `gt`: the position of the first key that comes strictly
      after p in the side's order, if any. */
  function Gt(side: Side, ks: seq<real>, p: real): (r: Option<nat>)
    ensures r.Some? ==> r.value < |ks| && Before(side, p, ks[r.value])
    ensures forall i | 0 <= i < (if r.Some? then r.value else |ks|) ::
      !Before(side, p, ks[i])
  {
    if ks == [] then None
    else if Before(side, p, ks[0]) then Some(0)
    else match Gt(side, ks[1..], p)
      case None => None
      case Some(j) => Some(j + 1)
  }

  /** The nearest key strictly below p in nominal price: the tree's `lt` on
      SELL (ascending) and its `gt` on BUY (descending). */
  function Below(side: Side, ks: seq<real>, p: real): (r: Option<nat>)
    ensures r.Some? ==> r.value < |ks| && ks[r.value] < p
  {
    if side == Sell then Lt(side, ks, p) else Gt(side, ks, p)
  }

  /** The nearest key strictly above p in nominal price: the tree's `gt` on
      SELL and its `lt` on BUY. */
  function Above(side: Side, ks: seq<real>, p: real): (r: Option<nat>)
    ensures r.Some? ==> r.value < |ks| && ks[r.value] > p
  {
    if side == Sell then Gt(side, ks, p) else Lt(side, ks, p)
  }

  /** `Below` finds the greatest key under p, and nothing exactly when no key
      is under p. */
  lemma BelowNearest(side: Side, ks: seq<real>, p: real)
    requires Ordered(side, ks)
    ensures var r := Below(side, ks, p);
      && (r.Some? ==> r.value < |ks| && ks[r.value] < p
                      && forall i | 0 <= i < |ks| && ks[i] < p :: ks[i] <= ks[r.value])
      && (r.None? ==> forall i | 0 <= i < |ks| :: ks[i] >= p)
  {
    OrderedMeansSorted(side, ks);
  }

  /** `Above` finds the least key over p, and nothing exactly when no key is
      over p. */
  lemma AboveNearest(side: Side, ks: seq<real>, p: real)
    requires Ordered(side, ks)
    ensures var r := Above(side, ks, p);
      && (r.Some? ==> r.value < |ks| && ks[r.value] > p
                      && forall i | 0 <= i < |ks| && ks[i] > p :: ks[i] >= ks[r.value])
      && (r.None? ==> forall i | 0 <= i < |ks| :: ks[i] <= p)
  {
    OrderedMeansSorted(side, ks);
  }

  /** The position of the highest key (the tree's `end` on SELL, its
      `begin` on BUY), when there is a key. */
  function MaxAt(side: Side, ks: seq<real>): (r: Option<nat>)
    ensures r.None? <==> ks == []
    ensures r.Some? ==> r.value < |ks|
  {
    if ks == [] then None else if side == Sell then Some(|ks| - 1) else Some(0)
  }

  /** The position of the lowest key (`begin` on SELL, `end` on BUY). */
  function MinAt(side: Side, ks: seq<real>): (r: Option<nat>)
    ensures r.None? <==> ks == []
    ensures r.Some? ==> r.value < |ks|
  {
    if ks == [] then None else if side == Sell then Some(0) else Some(|ks| - 1)
  }

  lemma MaxMinExtreme(side: Side, ks: seq<real>)
    requires Ordered(side, ks)
    ensures MaxAt(side, ks).None? <==> ks == []
    ensures MinAt(side, ks).None? <==> ks == []
    ensures MaxAt(side, ks).Some? ==>
      (MaxAt(side, ks).value < |ks| && forall i | 0 <= i < |ks| :: ks[i] <= ks[MaxAt(side, ks).value])
    ensures MinAt(side, ks).Some? ==>
      (MinAt(side, ks).value < |ks| && forall i | 0 <= i < |ks| :: ks[MinAt(side, ks).value] <= ks[i])
  {
    OrderedMeansSorted(side, ks);
  }

  /** A non-empty set of prices has an element. */
  lemma SomeKey(S: set<real>) returns (p: real)
    requires S != {}
    ensures p in S
  {
    if forall x: real :: x !in S {
      assert false;
    }
    p :| p in S;
  }
}
