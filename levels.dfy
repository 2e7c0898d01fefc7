/**
 * One side of the order book as a value: the `std::map<price, std::deque<Order>>`
 * of OrderBook.hpp written as a sequence of price levels in map order, best
 * price first. Bids are kept in descending price order, asks in ascending
 * order. This module gives what the book's operations do to one side:
 * `operator[]` + `push_back` (addOrder), the erase/remove_if passes of
 * cleanupExecutedOrders, and the GTD sweep.
 */
module Levels {
  import opened Orders

  /** A price key and the FIFO queue of orders resting at it. */
  datatype Level = Level(price: int, orders: seq<Order>)

  /** `p` ranks before `q` in the side's map order: higher first for bids, lower first for asks. */
  predicate Before(side: OrderType, p: int, q: int) {
    if side == BID then p > q else p < q
  }

  /** Strict map order: each key appears once and keys follow the side's comparator. */
  predicate Ordered(side: OrderType, levels: seq<Level>) {
    forall i, j :: 0 <= i < j < |levels| ==> Before(side, levels[i].price, levels[j].price)
  }

  /** Every level of `levels` comes after price `p` in the side's order. */
  predicate Above(side: OrderType, p: int, levels: seq<Level>) {
    forall l :: l in levels ==> Before(side, p, l.price)
  }

  /** Each resting order sits under its own price key, on its own side. */
  predicate Homed(side: OrderType, levels: seq<Level>) {
    forall l, o :: l in levels && o in l.orders ==> o.price == l.price && o.ordertype == side
  }

  predicate WellFormedSide(side: OrderType, levels: seq<Level>) {
    Ordered(side, levels) && Homed(side, levels)
  }

  /** No order with zero remaining quantity and no empty level. */
  predicate Compact(levels: seq<Level>) {
    forall l :: l in levels ==> l.orders != [] && forall o :: o in l.orders ==> o.quantity != 0
  }

  /** No resting order has a negative remaining quantity. */
  predicate NonNeg(levels: seq<Level>) {
    forall l, o :: l in levels && o in l.orders ==> o.quantity >= 0
  }

  /** Every resting order still has something left to trade. */
  predicate Positive(levels: seq<Level>) {
    forall l, o :: l in levels && o in l.orders ==> o.quantity > 0
  }

  function PriceSet(levels: seq<Level>): set<int> {
    set l | l in levels :: l.price
  }

  /** The side as the map it stands for. */
  function AsMap(levels: seq<Level>): map<int, seq<Order>>
    decreases |levels|
  {
    if levels == [] then map[] else AsMap(levels[1..])[levels[0].price := levels[0].orders]
  }

  /** The queue at price `p`, empty when there is no level at `p`. */
  function QueueAt(levels: seq<Level>, p: int): seq<Order> {
    if p in AsMap(levels) then AsMap(levels)[p] else []
  }

  /** Number of resting orders on the side. */
  function OrderCount(levels: seq<Level>): nat
    decreases |levels|
  {
    if levels == [] then 0 else |levels[0].orders| + OrderCount(levels[1..])
  }

  /** Sum of the remaining quantities of a queue. */
  function QueueQuantity(q: seq<Order>): int
    decreases |q|
  {
    if q == [] then 0 else q[0].quantity + QueueQuantity(q[1..])
  }

  /** Sum of the remaining quantities on the side. */
  function SideQuantity(levels: seq<Level>): int
    decreases |levels|
  {
    if levels == [] then 0 else QueueQuantity(levels[0].orders) + SideQuantity(levels[1..])
  }

  /** A side with a first level is ordered exactly when the rest is ordered and lies after that level. */
  lemma OrderedCons(side: OrderType, l: Level, rest: seq<Level>)
    ensures Ordered(side, [l] + rest) <==> Above(side, l.price, rest) && Ordered(side, rest)
  {
    if Above(side, l.price, rest) && Ordered(side, rest) {
      OrderedConsIntro(side, l, rest);
    }
    if Ordered(side, [l] + rest) {
      OrderedConsElim(side, l, rest);
    }
  }

  lemma OrderedConsIntro(side: OrderType, l: Level, rest: seq<Level>)
    requires Above(side, l.price, rest) && Ordered(side, rest)
    ensures Ordered(side, [l] + rest)
  {
    var s := [l] + rest;
    forall i, j | 0 <= i < j < |s| ensures Before(side, s[i].price, s[j].price) {
      assert s[j] == rest[j - 1];
      if i > 0 { assert s[i] == rest[i - 1]; }
      else { assert rest[j - 1] in rest; }
    }
  }

  lemma OrderedConsElim(side: OrderType, l: Level, rest: seq<Level>)
    requires Ordered(side, [l] + rest)
    ensures Above(side, l.price, rest) && Ordered(side, rest)
  {
    var s := [l] + rest;
    forall m | m in rest ensures Before(side, l.price, m.price) {
      var j :| 0 <= j < |rest| && rest[j] == m;
      assert s[0] == l && s[j + 1] == m;
    }
    forall i, j | 0 <= i < j < |rest| ensures Before(side, rest[i].price, rest[j].price) {
      assert s[i + 1] == rest[i] && s[j + 1] == rest[j];
    }
  }

  lemma {:induction false} AsMapKeys(levels: seq<Level>)
    ensures AsMap(levels).Keys == PriceSet(levels)
    decreases |levels|
  {
    if levels != [] {
      AsMapKeys(levels[1..]);
      assert PriceSet(levels) == PriceSet(levels[1..]) + {levels[0].price} by {
        assert forall l :: l in levels <==> l in levels[1..] || l == levels[0];
      }
    }
  }

  /** In an ordered side, the map entry of each level's key is that level's queue. */
  lemma {:induction false} AsMapAt(side: OrderType, levels: seq<Level>, k: nat)
    requires Ordered(side, levels) && k < |levels|
    ensures levels[k].price in AsMap(levels) && AsMap(levels)[levels[k].price] == levels[k].orders
    decreases |levels|
  {
    if k > 0 {
      AsMapAt(side, levels[1..], k - 1);
    }
  }

  /**
   * addOrder on one side: `side[order.price].push_back(order)`, which creates
   * the level when the key is absent.
   */
  function AddToSide(side: OrderType, levels: seq<Level>, o: Order): (r: seq<Level>)
    ensures forall l :: l in r ==> l in levels || l.price == o.price
    decreases |levels|
  {
    if levels == [] then
      [Level(o.price, [o])]
    else if levels[0].price == o.price then
      [Level(o.price, levels[0].orders + [o])] + levels[1..]
    else if Before(side, o.price, levels[0].price) then
      [Level(o.price, [o])] + levels
    else
      [levels[0]] + AddToSide(side, levels[1..], o)
  }

  /** Inserting keeps the map order of the side. */
  lemma {:induction false} AddToSideOrdered(side: OrderType, levels: seq<Level>, o: Order)
    requires Ordered(side, levels)
    ensures Ordered(side, AddToSide(side, levels, o))
    decreases |levels|
  {
    if levels != [] {
      var l0, rest := levels[0], levels[1..];
      assert levels == [l0] + rest;
      OrderedCons(side, l0, rest);
      if l0.price == o.price {
        OrderedCons(side, Level(o.price, l0.orders + [o]), rest);
      } else if Before(side, o.price, l0.price) {
        OrderedCons(side, Level(o.price, [o]), levels);
      } else {
        AddToSideOrdered(side, rest, o);
        OrderedCons(side, l0, AddToSide(side, rest, o));
      }
    }
  }

  /**
   * As a map, inserting changes exactly the entry at the order's price, which
   * gains the order at its tail (and is created holding just the order if it
   * was absent); every other level is unchanged.
   */
  lemma {:induction false} AddToSideMap(side: OrderType, levels: seq<Level>, o: Order)
    requires Ordered(side, levels)
    ensures AsMap(AddToSide(side, levels, o)) == AsMap(levels)[o.price := QueueAt(levels, o.price) + [o]]
    decreases |levels|
  {
    if levels != [] {
      var l0, rest := levels[0], levels[1..];
      if l0.price == o.price {
        AddAtBest(side, levels, o);
      } else if Before(side, o.price, l0.price) {
        NotAKey(side, levels, o.price);
        AddInFront(side, levels, o);
      } else {
        assert Ordered(side, rest) by { OrderedCons(side, l0, rest); assert levels == [l0] + rest; }
        AddToSideMap(side, rest, o);
        AddBehind(side, levels, o);
      }
    } else {
      assert AddToSide(side, levels, o)[1..] == [];
      assert QueueAt(levels, o.price) + [o] == [o];
    }
  }

  lemma AddAtBest(side: OrderType, levels: seq<Level>, o: Order)
    requires levels != [] && levels[0].price == o.price
    ensures AsMap(AddToSide(side, levels, o)) == AsMap(levels)[o.price := QueueAt(levels, o.price) + [o]]
  {
    var r := AddToSide(side, levels, o);
    assert r[1..] == levels[1..];
  }

  lemma AddInFront(side: OrderType, levels: seq<Level>, o: Order)
    requires levels != [] && levels[0].price != o.price && Before(side, o.price, levels[0].price)
    requires o.price !in AsMap(levels)
    ensures AsMap(AddToSide(side, levels, o)) == AsMap(levels)[o.price := QueueAt(levels, o.price) + [o]]
  {
    var r := AddToSide(side, levels, o);
    assert r == [Level(o.price, [o])] + levels;
    assert r[1..] == levels;
    assert AsMap(r) == AsMap(levels)[o.price := [o]];
    assert QueueAt(levels, o.price) + [o] == [o];
  }

  lemma AddBehind(side: OrderType, levels: seq<Level>, o: Order)
    requires levels != [] && levels[0].price != o.price && !Before(side, o.price, levels[0].price)
    requires AsMap(AddToSide(side, levels[1..], o)) == AsMap(levels[1..])[o.price := QueueAt(levels[1..], o.price) + [o]]
    ensures AsMap(AddToSide(side, levels, o)) == AsMap(levels)[o.price := QueueAt(levels, o.price) + [o]]
  {
    var r := AddToSide(side, levels, o);
    assert r[1..] == AddToSide(side, levels[1..], o);
    assert QueueAt(levels, o.price) == QueueAt(levels[1..], o.price);
  }

  /** A price ranked before the best level of an ordered side is not one of its keys. */
  lemma NotAKey(side: OrderType, levels: seq<Level>, p: int)
    requires Ordered(side, levels) && levels != [] && Before(side, p, levels[0].price)
    ensures p !in AsMap(levels)
  {
    AsMapKeys(levels);
    forall l | l in levels ensures l.price != p {
      var j :| 0 <= j < |levels| && levels[j] == l;
      if j > 0 { assert Before(side, levels[0].price, levels[j].price); }
    }
  }

  lemma {:induction false} AddToSideCount(side: OrderType, levels: seq<Level>, o: Order)
    ensures OrderCount(AddToSide(side, levels, o)) == OrderCount(levels) + 1
    decreases |levels|
  {
    var r := AddToSide(side, levels, o);
    if levels != [] {
      if levels[0].price == o.price {
        assert r[1..] == levels[1..];
      } else if Before(side, o.price, levels[0].price) {
        assert r[1..] == levels;
      } else {
        assert r[1..] == AddToSide(side, levels[1..], o);
        AddToSideCount(side, levels[1..], o);
      }
    }
  }

  /** Adding an order of this side's type keeps every order under its own key. */
  lemma {:induction false} AddToSideHomed(side: OrderType, levels: seq<Level>, o: Order)
    requires Homed(side, levels) && o.ordertype == side
    ensures Homed(side, AddToSide(side, levels, o))
    decreases |levels|
  {
    if levels != [] {
      var l0, rest := levels[0], levels[1..];
      if l0.price == o.price {
        var nl := Level(o.price, l0.orders + [o]);
        forall x | x in nl.orders ensures x.price == nl.price && x.ordertype == side {
          if x != o { assert x in l0.orders; }
        }
        assert AddToSide(side, levels, o) == [nl] + rest;
      } else if !Before(side, o.price, l0.price) {
        assert forall l :: l in rest ==> l in levels;
        AddToSideHomed(side, rest, o);
        assert AddToSide(side, levels, o) == [l0] + AddToSide(side, rest, o);
      }
    }
  }

  /** `std::remove_if` followed by `erase`: the queue without the orders `dead` selects, order kept. */
  function RemoveIf(q: seq<Order>, dead: Order -> bool): (r: seq<Order>)
    ensures |r| <= |q|
    decreases |q|
  {
    if q == [] then [] else (if dead(q[0]) then [] else [q[0]]) + RemoveIf(q[1..], dead)
  }

  /** remove_if keeps exactly the orders it does not select. */
  lemma {:induction false} RemoveIfMembers(q: seq<Order>, dead: Order -> bool)
    ensures forall o :: o in RemoveIf(q, dead) <==> o in q && !dead(o)
    decreases |q|
  {
    if q != [] {
      RemoveIfMembers(q[1..], dead);
      assert q == [q[0]] + q[1..];
    }
  }

  /** Filtering commutes with concatenation, so surviving orders keep their FIFO order. */
  lemma {:induction false} RemoveIfAppend(a: seq<Order>, b: seq<Order>, dead: Order -> bool)
    ensures RemoveIf(a + b, dead) == RemoveIf(a, dead) + RemoveIf(b, dead)
    decreases |a|
  {
    if a == [] {
      assert a + b == b;
    } else {
      assert (a + b)[0] == a[0];
      assert (a + b)[1..] == a[1..] + b;
      RemoveIfAppend(a[1..], b, dead);
    }
  }

  lemma {:induction false} RemoveIfNone(q: seq<Order>, dead: Order -> bool)
    requires forall o :: o in q ==> !dead(o)
    ensures RemoveIf(q, dead) == q
    decreases |q|
  {
    if q != [] {
      assert q[0] in q;
      forall o | o in q[1..] ensures !dead(o) {
        assert o in q;
      }
      RemoveIfNone(q[1..], dead);
      assert RemoveIf(q, dead) == [q[0]] + RemoveIf(q[1..], dead);
      assert q == [q[0]] + q[1..];
    }
  }

  /** Number of orders of the queue that `f` selects. */
  function CountIf(q: seq<Order>, f: Order -> bool): nat
    decreases |q|
  {
    if q == [] then 0 else (if f(q[0]) then 1 else 0) + CountIf(q[1..], f)
  }

  /** Number of orders of the side that `f` selects. */
  function SideCountIf(levels: seq<Level>, f: Order -> bool): nat
    decreases |levels|
  {
    if levels == [] then 0 else CountIf(levels[0].orders, f) + SideCountIf(levels[1..], f)
  }

  /** Counting one more level of a prefix adds that level's count. */
  lemma SideCountIfStep(levels: seq<Level>, k: nat, f: Order -> bool)
    requires k < |levels|
    ensures SideCountIf(levels[..k + 1], f) == SideCountIf(levels[..k], f) + CountIf(levels[k].orders, f)
  {
    assert levels[..k + 1] == levels[..k] + [levels[k]];
    SideCountIfAppend(levels[..k], [levels[k]], f);
    assert [levels[k]][1..] == [];
  }

  /** Counting over two runs of levels adds the two counts. */
  lemma {:induction false} SideCountIfAppend(xs: seq<Level>, ys: seq<Level>, f: Order -> bool)
    ensures SideCountIf(xs + ys, f) == SideCountIf(xs, f) + SideCountIf(ys, f)
    decreases |xs|
  {
    if xs == [] {
      assert xs + ys == ys;
    } else {
      assert (xs + ys)[0] == xs[0];
      assert (xs + ys)[1..] == xs[1..] + ys;
      SideCountIfAppend(xs[1..], ys, f);
    }
  }

  /** remove_if removes exactly the selected orders. */
  lemma {:induction false} RemoveIfCount(q: seq<Order>, f: Order -> bool)
    ensures |RemoveIf(q, f)| + CountIf(q, f) == |q|
    decreases |q|
  {
    if q != [] {
      RemoveIfCount(q[1..], f);
    }
  }

  /** A queue that holds a selected order has a positive count of them. */
  lemma {:induction false} CountIfPositive(q: seq<Order>, f: Order -> bool, i: nat)
    requires i < |q| && f(q[i])
    ensures CountIf(q, f) > 0
    decreases |q|
  {
    if i > 0 {
      CountIfPositive(q[1..], f, i - 1);
    }
  }

  /** The predicate of cleanupExecutedOrders' remove_if. */
  predicate IsExecuted(o: Order) {
    o.quantity == 0
  }

  /** The predicate of checkGTDOrders' remove_if. */
  predicate Expired(o: Order, now: int) {
    o.timeinforce == GTD && o.expirationDate <= now
  }

  function ExpiredAt(now: int): Order -> bool {
    o => Expired(o, now)
  }

  /** Removing zero-quantity orders leaves the sum of remaining quantities as it was. */
  lemma {:induction false} RemoveExecutedQuantity(q: seq<Order>)
    ensures QueueQuantity(RemoveIf(q, IsExecuted)) == QueueQuantity(q)
    decreases |q|
  {
    if q != [] {
      RemoveExecutedQuantity(q[1..]);
      var r := RemoveIf(q, IsExecuted);
      if IsExecuted(q[0]) {
        assert r == RemoveIf(q[1..], IsExecuted);
      } else {
        assert r == [q[0]] + RemoveIf(q[1..], IsExecuted);
        assert r[1..] == RemoveIf(q[1..], IsExecuted);
      }
    }
  }

  /**
   * cleanupExecutedOrders on one side: every queue loses its zero-quantity
   * orders, and every level left empty is erased.
   */
  function CleanSide(levels: seq<Level>): (r: seq<Level>)
    ensures Compact(r)
    decreases |levels|
  {
    if levels == [] then []
    else
      var kept := RemoveIf(levels[0].orders, IsExecuted);
      RemoveIfMembers(levels[0].orders, IsExecuted);
      (if kept == [] then [] else [Level(levels[0].price, kept)]) + CleanSide(levels[1..])
  }

  /** Cleanup only drops levels, so whatever lay after a price still does. */
  lemma {:induction false} CleanSideAbove(side: OrderType, p: int, levels: seq<Level>)
    requires Above(side, p, levels)
    ensures Above(side, p, CleanSide(levels))
    decreases |levels|
  {
    if levels != [] {
      assert levels[0] in levels;
      assert forall m :: m in levels[1..] ==> m in levels;
      CleanSideAbove(side, p, levels[1..]);
    }
  }

  lemma {:induction false} CleanSideAppend(xs: seq<Level>, ys: seq<Level>)
    ensures CleanSide(xs + ys) == CleanSide(xs) + CleanSide(ys)
    decreases |xs|
  {
    if xs == [] {
      assert xs + ys == ys;
    } else {
      assert (xs + ys)[0] == xs[0];
      assert (xs + ys)[1..] == xs[1..] + ys;
      CleanSideAppend(xs[1..], ys);
    }
  }

  /** Cleanup keeps the map order and leaves every surviving order under its own key. */
  lemma CleanSideWellFormed(side: OrderType, levels: seq<Level>)
    requires WellFormedSide(side, levels)
    ensures WellFormedSide(side, CleanSide(levels))
  {
    CleanSideOrdered(side, levels);
    CleanSideHomed(side, levels);
  }

  /** Cleanup keeps the map order: it only drops orders and levels. */
  lemma {:induction false} CleanSideOrdered(side: OrderType, levels: seq<Level>)
    requires Ordered(side, levels)
    ensures Ordered(side, CleanSide(levels))
    decreases |levels|
  {
    if levels != [] {
      var l0, rest := levels[0], levels[1..];
      assert levels == [l0] + rest;
      OrderedCons(side, l0, rest);
      CleanSideOrdered(side, rest);
      CleanSideAbove(side, l0.price, rest);
      var kept := RemoveIf(l0.orders, IsExecuted);
      if kept != [] {
        OrderedCons(side, Level(l0.price, kept), CleanSide(rest));
      }
    }
  }

  /** Cleanup leaves every surviving order under its own price key. */
  lemma {:induction false} CleanSideHomed(side: OrderType, levels: seq<Level>)
    requires Homed(side, levels)
    ensures Homed(side, CleanSide(levels))
    decreases |levels|
  {
    if levels != [] {
      var l0, rest := levels[0], levels[1..];
      assert forall m :: m in rest ==> m in levels;
      CleanSideHomed(side, rest);
      var kept := RemoveIf(l0.orders, IsExecuted);
      RemoveIfMembers(l0.orders, IsExecuted);
      assert l0 in levels;
      var head := if kept == [] then [] else [Level(l0.price, kept)];
      assert CleanSide(levels) == head + CleanSide(rest);
      forall l, o | l in head + CleanSide(rest) && o in l.orders ensures o.price == l.price && o.ordertype == side {
        if l in head {
          assert o in l0.orders;
        } else {
          assert l in CleanSide(rest);
        }
      }
    }
  }

  /** A side that is already compact is left as it is: cleanup is idempotent. */
  lemma {:induction false} CleanSideOfCompact(levels: seq<Level>)
    requires Compact(levels)
    ensures CleanSide(levels) == levels
    decreases |levels|
  {
    if levels != [] {
      var q := levels[0].orders;
      assert levels[0] in levels;
      assert forall o :: o in q ==> !IsExecuted(o);
      RemoveIfNone(q, IsExecuted);
      assert forall m :: m in levels[1..] ==> m in levels;
      CleanSideOfCompact(levels[1..]);
      assert levels == [levels[0]] + levels[1..];
    }
  }

  /** On a side with no negative quantities, cleanup leaves only orders with something left. */
  lemma {:induction false} CleanSidePositive(levels: seq<Level>)
    requires NonNeg(levels)
    ensures Positive(CleanSide(levels))
    decreases |levels|
  {
    if levels != [] {
      var l0, rest := levels[0], levels[1..];
      assert l0 in levels;
      assert forall m :: m in rest ==> m in levels;
      CleanSidePositive(rest);
      var kept := RemoveIf(l0.orders, IsExecuted);
      RemoveIfMembers(l0.orders, IsExecuted);
      var head := if kept == [] then [] else [Level(l0.price, kept)];
      assert CleanSide(levels) == head + CleanSide(rest);
      forall l, o | l in head && o in l.orders ensures o.quantity > 0 {
        assert o in l0.orders;
      }
    }
  }

  /**
   * Cleanup removes exactly the executed orders, so it keeps the total
   * remaining quantity of the side.
   */
  lemma {:induction false} CleanSideCount(levels: seq<Level>)
    ensures OrderCount(CleanSide(levels)) == OrderCount(levels) - SideCountIf(levels, IsExecuted)
    ensures SideQuantity(CleanSide(levels)) == SideQuantity(levels)
    decreases |levels|
  {
    if levels != [] {
      var q := levels[0].orders;
      var kept := RemoveIf(q, IsExecuted);
      CleanSideCount(levels[1..]);
      RemoveIfCount(q, IsExecuted);
      RemoveExecutedQuantity(q);
      var tail := CleanSide(levels[1..]);
      if kept != [] {
        var r := [Level(levels[0].price, kept)] + tail;
        assert r[1..] == tail;
      } else {
        assert CleanSide(levels) == tail;
      }
    }
  }

  /**
   * checkGTDOrders on one side: every queue loses its expired GTD orders;
   * the levels themselves all stay, even those left empty.
   */
  function SweepSide(levels: seq<Level>, now: int): (r: seq<Level>)
    ensures |r| == |levels|
    ensures forall k :: 0 <= k < |r| ==> r[k] == Level(levels[k].price, RemoveIf(levels[k].orders, ExpiredAt(now)))
  {
    seq(|levels|, k requires 0 <= k < |levels| => Level(levels[k].price, RemoveIf(levels[k].orders, ExpiredAt(now))))
  }

  lemma {:induction false} SweepCount(levels: seq<Level>, now: int)
    ensures OrderCount(SweepSide(levels, now)) == OrderCount(levels) - SideCountIf(levels, ExpiredAt(now))
    decreases |levels|
  {
    if levels != [] {
      SweepCount(levels[1..], now);
      RemoveIfCount(levels[0].orders, ExpiredAt(now));
      assert SweepSide(levels, now)[1..] == SweepSide(levels[1..], now);
    }
  }

  /**
   * The sweep removes exactly the GTD orders due at `now`: it keeps every DAY
   * order and every GTD order that expires later, and nothing else.
   */
  lemma SweepSideMembers(levels: seq<Level>, now: int)
    ensures forall k, o :: 0 <= k < |levels| ==>
              (o in SweepSide(levels, now)[k].orders <==>
               o in levels[k].orders && !(o.timeinforce == GTD && o.expirationDate <= now))
  {
    var r := SweepSide(levels, now);
    forall k | 0 <= k < |levels|
      ensures forall o :: o in r[k].orders <==> o in levels[k].orders && !Expired(o, now)
    {
      RemoveIfMembers(levels[k].orders, ExpiredAt(now));
    }
  }

  /** The sweep keeps every level and its key, so the side keeps its map order. */
  lemma SweepSideWellFormed(side: OrderType, levels: seq<Level>, now: int)
    requires WellFormedSide(side, levels)
    ensures WellFormedSide(side, SweepSide(levels, now))
  {
    var r := SweepSide(levels, now);
    forall i, j | 0 <= i < j < |r| ensures Before(side, r[i].price, r[j].price) {
      assert r[i].price == levels[i].price && r[j].price == levels[j].price;
    }
    forall l, o | l in r && o in l.orders ensures o.price == l.price && o.ordertype == side {
      var k :| 0 <= k < |r| && r[k] == l;
      RemoveIfMembers(levels[k].orders, ExpiredAt(now));
      assert o in levels[k].orders;
      assert levels[k] in levels;
    }
  }
}
