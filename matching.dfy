/**
 * The order book as a value and the specification of what its operations do
 * to it (OrderBook.cpp): addOrder, one pass of the matching loop, the
 * cleanup of executed orders, matchOrders as passes repeated until the loop
 * stops, and the GTD sweep that MatchingEngine::checkGTDOrders runs on the
 * book's two sides.
 */
module Matching {
  import opened Wrappers
  import opened Orders
  import opened Trading
  import opened Levels

  /** The two sides, the trade ledger and the id the next trade will get. */
  datatype BookState = BookState(bids: seq<Level>, asks: seq<Level>, trades: seq<Trade>, nextTradeId: int)

  /** Positions of a bid in the best bid queue and of an ask in the best ask queue. */
  datatype Pair = Pair(bid: nat, ask: nat)

  /** A fresh book: no orders, no trades, first trade id 1. */
  const EmptyBook: BookState := BookState([], [], [], 1)

  /** Both sides keep their map order and every order sits under its own key on its own side. */
  predicate SidesOk(b: BookState) {
    WellFormedSide(BID, b.bids) && WellFormedSide(ASK, b.asks)
  }

  /** Trades are numbered 1, 2, 3, ... in ledger order, and the next id follows the last. */
  predicate LedgerOk(b: BookState) {
    b.nextTradeId == |b.trades| + 1 && forall k :: 0 <= k < |b.trades| ==> b.trades[k].tradeId == k + 1
  }

  predicate WellFormed(b: BookState) {
    SidesOk(b) && LedgerOk(b)
  }

  /** Number of resting orders on both sides. */
  function Size(b: BookState): nat {
    OrderCount(b.bids) + OrderCount(b.asks)
  }

  /** Orders may trade with each other only on the same instrument, market and currency. */
  predicate Compatible(bid: Order, ask: Order) {
    bid.idinstrument == ask.idinstrument
    && bid.marketIdentificationCode == ask.marketIdentificationCode
    && bid.tradingCurrency == ask.tradingCurrency
  }

  /** The inner scan of a matching pass: the first ask of the queue the bid can trade with. */
  function FirstAsk(bid: Order, asks: seq<Order>): (r: Option<nat>)
    ensures r.Some? ==> r.value < |asks| && Compatible(bid, asks[r.value])
    ensures forall j :: 0 <= j < |asks| && (r.None? || j < r.value) ==> !Compatible(bid, asks[j])
    decreases |asks|
  {
    if asks == [] then None
    else if Compatible(bid, asks[0]) then Some(0)
    else
      match FirstAsk(bid, asks[1..])
      case None => None
      case Some(j) => Some(j + 1)
  }

  /**
   * The nested scan of a matching pass: bids in FIFO order, and for the first
   * bid that has a compatible ask, the first such ask.
   */
  function FirstPair(bids: seq<Order>, asks: seq<Order>): (r: Option<Pair>)
    ensures r.Some? ==> r.value.bid < |bids| && FirstAsk(bids[r.value.bid], asks) == Some(r.value.ask)
    ensures forall i :: 0 <= i < |bids| && (r.None? || i < r.value.bid) ==> FirstAsk(bids[i], asks).None?
    decreases |bids|
  {
    if bids == [] then None
    else
      match FirstAsk(bids[0], asks)
      case Some(j) => Some(Pair(0, j))
      case None =>
        match FirstPair(bids[1..], asks)
        case None => None
        case Some(p) => Some(Pair(p.bid + 1, p.ask))
  }

  /** The pair a pass trades is compatible, and no pair before it in scan order is. */
  lemma FirstPairMeans(bids: seq<Order>, asks: seq<Order>)
    ensures match FirstPair(bids, asks)
      case Some(p) =>
        && p.bid < |bids| && p.ask < |asks| && Compatible(bids[p.bid], asks[p.ask])
        && (forall i, j :: 0 <= i < p.bid && 0 <= j < |asks| ==> !Compatible(bids[i], asks[j]))
        && (forall j :: 0 <= j < p.ask ==> !Compatible(bids[p.bid], asks[j]))
      case None =>
        forall i, j :: 0 <= i < |bids| && 0 <= j < |asks| ==> !Compatible(bids[i], asks[j])
  {
    var r := FirstPair(bids, asks);
    forall i, j | 0 <= i < |bids| && 0 <= j < |asks| && (r.None? || i < r.value.bid)
      ensures !Compatible(bids[i], asks[j])
    {
      assert FirstAsk(bids[i], asks).None?;
    }
  }

  /** A level with the order at position `i` lowered by `q`. */
  function LowerAt(l: Level, i: nat, q: int): Level
    requires i < |l.orders|
  {
    Level(l.price, l.orders[i := l.orders[i].(quantity := l.orders[i].quantity - q)])
  }

  /** The best level of a side with the order at position `i` lowered by `q`. */
  function Fill(levels: seq<Level>, i: nat, q: int): seq<Level>
    requires levels != [] && i < |levels[0].orders|
  {
    [LowerAt(levels[0], i, q)] + levels[1..]
  }

  /** The trade a pass makes: the bid's market and currency, the ask's price, the smaller quantity. */
  function PassTrade(b: BookState, p: Pair, now: int): Trade
    requires b.bids != [] && b.asks != []
    requires p.bid < |b.bids[0].orders| && p.ask < |b.asks[0].orders|
  {
    var bid := b.bids[0].orders[p.bid];
    var ask := b.asks[0].orders[p.ask];
    Trade(b.nextTradeId, bid.idorder, ask.idorder, bid.marketIdentificationCode, bid.tradingCurrency,
          ask.price, Min(bid.quantity, ask.quantity), now)
  }

  /** The trading step of a pass: the trade is recorded and both orders lose its quantity. */
  function Execute(b: BookState, p: Pair, now: int): BookState
    requires b.bids != [] && b.asks != []
    requires p.bid < |b.bids[0].orders| && p.ask < |b.asks[0].orders|
  {
    var t := PassTrade(b, p, now);
    BookState(Fill(b.bids, p.bid, t.quantity), Fill(b.asks, p.ask, t.quantity), b.trades + [t], b.nextTradeId + 1)
  }

  /** cleanupExecutedOrders. */
  function Cleanup(b: BookState): BookState {
    b.(bids := CleanSide(b.bids), asks := CleanSide(b.asks))
  }

  /** Both sides hold orders and the best bid is not below the best ask: the loop runs a pass. */
  predicate Crossed(b: BookState) {
    b.bids != [] && b.asks != [] && b.bids[0].price >= b.asks[0].price
  }

  /**
   * matchOrders: while the book is crossed, a pass looks for a compatible pair
   * at the two best levels; it trades the first one it finds and cleans up,
   * and the loop goes on; a pass that finds none cleans up and ends the loop.
   */
  function MatchAll(b: BookState, now: int): BookState
    decreases Size(b)
  {
    if !Crossed(b) then b
    else
      match FirstPair(b.bids[0].orders, b.asks[0].orders)
      case None => Cleanup(b)
      case Some(p) =>
        PassShrinks(b, p, now);
        MatchAll(Cleanup(Execute(b, p, now)), now)
  }

  /** addOrder: the order joins the tail of the queue at its price on its own side. */
  function Placed(b: BookState, o: Order): BookState {
    if o.ordertype == BID then b.(bids := AddToSide(BID, b.bids, o))
    else b.(asks := AddToSide(ASK, b.asks, o))
  }

  /** checkGTDOrders on the book: both sides swept at `now`. */
  function Swept(b: BookState, now: int): BookState {
    b.(bids := SweepSide(b.bids, now), asks := SweepSide(b.asks, now))
  }

  /** Expired GTD orders on both sides. */
  function ExpiredCount(b: BookState, now: int): nat {
    SideCountIf(b.bids, ExpiredAt(now)) + SideCountIf(b.asks, ExpiredAt(now))
  }

  // ----- one pass -----

  /** Lowering one order keeps the number of orders on the side. */
  lemma FillCount(levels: seq<Level>, i: nat, q: int)
    requires levels != [] && i < |levels[0].orders|
    ensures OrderCount(Fill(levels, i, q)) == OrderCount(levels)
  {
    assert Fill(levels, i, q)[1..] == levels[1..];
  }

  /** Lowering one order by `q` lowers the side's remaining quantity by `q`. */
  lemma FillQuantity(levels: seq<Level>, i: nat, q: int)
    requires levels != [] && i < |levels[0].orders|
    ensures SideQuantity(Fill(levels, i, q)) == SideQuantity(levels) - q
  {
    var l0, rest := levels[0], levels[1..];
    assert levels == [l0] + rest;
    LowerAtQuantity(l0, rest, i, q);
  }

  lemma LowerAtQuantity(l: Level, rest: seq<Level>, i: nat, q: int)
    requires i < |l.orders|
    ensures SideQuantity([LowerAt(l, i, q)] + rest) == SideQuantity([l] + rest) - q
  {
    var m := LowerAt(l, i, q);
    assert ([m] + rest)[1..] == rest;
    assert ([l] + rest)[1..] == rest;
    QueueQuantityLowered(l.orders, m.orders, i, q);
  }

  /** Lowering one order keeps the side's keys, order and homes. */
  lemma FillWellFormed(side: OrderType, levels: seq<Level>, i: nat, q: int)
    requires levels != [] && i < |levels[0].orders|
    requires WellFormedSide(side, levels)
    ensures WellFormedSide(side, Fill(levels, i, q))
  {
    var r := Fill(levels, i, q);
    forall l, o | l in r && o in l.orders ensures o.price == l.price && o.ordertype == side {
      if l != r[0] {
        var k :| 0 <= k < |r| && r[k] == l;
        assert levels[k] == l;
      } else {
        var k :| 0 <= k < |r[0].orders| && r[0].orders[k] == o;
        assert levels[0].orders[k] in levels[0].orders;
        assert levels[0] in levels;
      }
    }
  }

  /**
   * Two queues that differ only in the quantity of the order at position `i`,
   * lower by `d` in the second, differ by `d` in their quantity sums.
   */
  lemma {:induction false} QueueQuantityLowered(q: seq<Order>, r: seq<Order>, i: nat, d: int)
    requires |r| == |q| && i < |q|
    requires r[i].quantity == q[i].quantity - d
    requires forall k :: 0 <= k < |q| && k != i ==> r[k].quantity == q[k].quantity
    ensures QueueQuantity(r) == QueueQuantity(q) - d
    decreases |q|
  {
    if i > 0 {
      QueueQuantityLowered(q[1..], r[1..], i - 1, d);
    } else {
      QueueQuantityKept(q[1..], r[1..]);
    }
  }

  /** Queues whose orders hold the same quantities position by position have the same sum. */
  lemma {:induction false} QueueQuantityKept(q: seq<Order>, r: seq<Order>)
    requires |r| == |q|
    requires forall k :: 0 <= k < |q| ==> r[k].quantity == q[k].quantity
    ensures QueueQuantity(r) == QueueQuantity(q)
    decreases |q|
  {
    if q != [] {
      QueueQuantityKept(q[1..], r[1..]);
    }
  }

  /** Lowering an order to zero gives cleanup something to remove. */
  lemma FillExecutes(levels: seq<Level>, i: nat, q: int)
    requires levels != [] && i < |levels[0].orders| && levels[0].orders[i].quantity == q
    ensures SideCountIf(Fill(levels, i, q), IsExecuted) > 0
  {
    var r := Fill(levels, i, q);
    CountIfPositive(r[0].orders, IsExecuted, i);
  }

  /** Every pass that trades takes at least one order off the book, so matchOrders ends. */
  lemma PassShrinks(b: BookState, p: Pair, now: int)
    requires b.bids != [] && b.asks != []
    requires p.bid < |b.bids[0].orders| && p.ask < |b.asks[0].orders|
    ensures Size(Cleanup(Execute(b, p, now))) < Size(b)
  {
    var t := PassTrade(b, p, now);
    var e := Execute(b, p, now);
    FillCount(b.bids, p.bid, t.quantity);
    FillCount(b.asks, p.ask, t.quantity);
    CleanSideCount(e.bids);
    CleanSideCount(e.asks);
    if t.quantity == b.bids[0].orders[p.bid].quantity {
      FillExecutes(b.bids, p.bid, t.quantity);
    } else {
      FillExecutes(b.asks, p.ask, t.quantity);
    }
  }

  /**
   * The trade of one pass: it joins the two orders the scan found, at the
   * ask's price, which the best bid reaches, carries the bid's market and
   * currency and the clock reading, and its quantity is the smaller of the
   * two. Both orders lose exactly that quantity, so at least one is left
   * with nothing; every other order and level stays as it was.
   */
  lemma PassTradeFacts(b: BookState, p: Pair, now: int)
    requires SidesOk(b) && Crossed(b)
    requires FirstPair(b.bids[0].orders, b.asks[0].orders) == Some(p)
    ensures var bid := b.bids[0].orders[p.bid];
      var ask := b.asks[0].orders[p.ask];
      var t := PassTrade(b, p, now);
      var e := Execute(b, p, now);
      && Compatible(bid, ask)
      && t.tradeId == b.nextTradeId && t.buyOrderId == bid.idorder && t.sellOrderId == ask.idorder
      && t.price == ask.price == b.asks[0].price <= b.bids[0].price == bid.price
      && t.marketIdentificationCode == bid.marketIdentificationCode
      && t.tradingCurrency == bid.tradingCurrency && t.timestamp == now
      && t.quantity == Min(bid.quantity, ask.quantity)
      && e.trades == b.trades + [t] && e.nextTradeId == b.nextTradeId + 1
      && e.bids[0].orders[p.bid] == bid.(quantity := bid.quantity - t.quantity)
      && e.asks[0].orders[p.ask] == ask.(quantity := ask.quantity - t.quantity)
      && (e.bids[0].orders[p.bid].quantity == 0 || e.asks[0].orders[p.ask].quantity == 0)
      && |e.bids| == |b.bids| && |e.asks| == |b.asks|
      && e.bids[0].price == b.bids[0].price && e.asks[0].price == b.asks[0].price
      && e.bids[1..] == b.bids[1..] && e.asks[1..] == b.asks[1..]
      && |e.bids[0].orders| == |b.bids[0].orders| && |e.asks[0].orders| == |b.asks[0].orders|
      && (forall i :: 0 <= i < |b.bids[0].orders| && i != p.bid ==> e.bids[0].orders[i] == b.bids[0].orders[i])
      && (forall j :: 0 <= j < |b.asks[0].orders| && j != p.ask ==> e.asks[0].orders[j] == b.asks[0].orders[j])
  {
    FirstPairMeans(b.bids[0].orders, b.asks[0].orders);
    assert b.bids[0] in b.bids && b.bids[0].orders[p.bid] in b.bids[0].orders;
    assert b.asks[0] in b.asks && b.asks[0].orders[p.ask] in b.asks[0].orders;
  }

  // ----- matchOrders -----

  /** With a side empty, matchOrders has nothing to do. */
  lemma MatchAllOneSided(b: BookState, now: int)
    requires b.bids == [] || b.asks == []
    ensures MatchAll(b, now) == b
  {
  }

  /** One step of matchOrders' loop, as the three ways MatchAll unfolds. */
  lemma MatchAllStep(b: BookState, now: int)
    ensures !Crossed(b) ==> MatchAll(b, now) == b
    ensures Crossed(b) && FirstPair(b.bids[0].orders, b.asks[0].orders).None? ==> MatchAll(b, now) == Cleanup(b)
    ensures Crossed(b) && FirstPair(b.bids[0].orders, b.asks[0].orders).Some? ==>
      var p := FirstPair(b.bids[0].orders, b.asks[0].orders).value;
      MatchAll(b, now) == MatchAll(Cleanup(Execute(b, p, now)), now)
  {
  }

  /** An uncrossed book is left exactly as it is; a crossed one comes out compact. */
  lemma {:induction false} MatchAllCompact(b: BookState, now: int)
    ensures !Crossed(b) ==> MatchAll(b, now) == b
    ensures Crossed(b) ==> Compact(MatchAll(b, now).bids) && Compact(MatchAll(b, now).asks)
    decreases Size(b)
  {
    if Crossed(b) {
      var fp := FirstPair(b.bids[0].orders, b.asks[0].orders);
      if fp.Some? {
        var p := fp.value;
        PassShrinks(b, p, now);
        var c := Cleanup(Execute(b, p, now));
        assert MatchAll(b, now) == MatchAll(c, now);
        MatchAllCompact(c, now);
      }
    }
  }

  /**
   * Where matchOrders stops on a compact book: one side is empty, the best bid
   * is below the best ask, or no order at the best bid is compatible with any
   * order at the best ask.
   */
  predicate Settled(b: BookState) {
    !Crossed(b) || FirstPair(b.bids[0].orders, b.asks[0].orders).None?
  }

  lemma {:induction false} MatchAllSettles(b: BookState, now: int)
    requires Compact(b.bids) && Compact(b.asks)
    ensures Settled(MatchAll(b, now))
    ensures Compact(MatchAll(b, now).bids) && Compact(MatchAll(b, now).asks)
    decreases Size(b)
  {
    if Crossed(b) {
      var fp := FirstPair(b.bids[0].orders, b.asks[0].orders);
      if fp.Some? {
        var p := fp.value;
        PassShrinks(b, p, now);
        var c := Cleanup(Execute(b, p, now));
        assert MatchAll(b, now) == MatchAll(c, now);
        MatchAllSettles(c, now);
      } else {
        CleanSideOfCompact(b.bids);
        CleanSideOfCompact(b.asks);
      }
    }
  }

  /** Trade ids run `first`, `first + 1`, ... along `ts`. */
  predicate Consecutive(ts: seq<Trade>, first: int) {
    forall k :: 0 <= k < |ts| ==> ts[k].tradeId == first + k
  }

  lemma ConsecutiveCons(t: Trade, ts: seq<Trade>, first: int)
    requires t.tradeId == first && Consecutive(ts, first + 1)
    ensures Consecutive([t] + ts, first)
  {
    forall k | 0 <= k < |[t] + ts| ensures ([t] + ts)[k].tradeId == first + k {
      if k > 0 {
        assert ([t] + ts)[k] == ts[k - 1];
      }
    }
  }

  /** The ledger and trade id after one trading pass. */
  lemma PassLedger(b: BookState, p: Pair, now: int)
    requires b.bids != [] && b.asks != []
    requires p.bid < |b.bids[0].orders| && p.ask < |b.asks[0].orders|
    ensures var c := Cleanup(Execute(b, p, now));
      && c.trades == b.trades + [PassTrade(b, p, now)]
      && c.nextTradeId == b.nextTradeId + 1
      && PassTrade(b, p, now).tradeId == b.nextTradeId
  {
  }

  /**
   * The ledger only grows: the old trades stay in place, the new ones carry
   * consecutive ids starting from the book's next id, and the next id moves
   * past them.
   */
  lemma {:induction false} MatchAllLedger(b: BookState, now: int)
    ensures var r := MatchAll(b, now);
      && |b.trades| <= |r.trades|
      && r.trades[..|b.trades|] == b.trades
      && Consecutive(r.trades[|b.trades|..], b.nextTradeId)
      && r.nextTradeId == b.nextTradeId + (|r.trades| - |b.trades|)
    decreases Size(b)
  {
    var r := MatchAll(b, now);
    if Crossed(b) && FirstPair(b.bids[0].orders, b.asks[0].orders).Some? {
      var p := FirstPair(b.bids[0].orders, b.asks[0].orders).value;
      PassShrinks(b, p, now);
      var c := Cleanup(Execute(b, p, now));
      assert r == MatchAll(c, now);
      PassLedger(b, p, now);
      MatchAllLedger(c, now);
      LedgerStep(b.trades, PassTrade(b, p, now), r.trades, b.nextTradeId);
    } else {
      assert r.trades == b.trades;
      LedgerUnchanged(b.trades, b.nextTradeId);
    }
  }

  /** A ledger that starts with `before` and then `t` starts with `before`, and numbering runs on through `t`. */
  lemma LedgerStep(before: seq<Trade>, t: Trade, all: seq<Trade>, first: int)
    requires |before| + 1 <= |all| && all[..|before| + 1] == before + [t]
    requires t.tradeId == first && Consecutive(all[|before| + 1..], first + 1)
    ensures all[..|before|] == before
    ensures Consecutive(all[|before|..], first)
  {
    assert all[..|before|] == (before + [t])[..|before|];
    assert all[|before|..] == [t] + all[|before| + 1..];
    ConsecutiveCons(t, all[|before| + 1..], first);
  }

  lemma LedgerUnchanged(ts: seq<Trade>, first: int)
    ensures ts[..|ts|] == ts && Consecutive(ts[|ts|..], first)
  {
    assert ts[|ts|..] == [];
  }

  /** One trading pass keeps both sides in map order with every order at home. */
  lemma PassSidesOk(b: BookState, p: Pair, now: int)
    requires SidesOk(b) && b.bids != [] && b.asks != []
    requires p.bid < |b.bids[0].orders| && p.ask < |b.asks[0].orders|
    ensures SidesOk(Cleanup(Execute(b, p, now)))
  {
    var e := Execute(b, p, now);
    var q := PassTrade(b, p, now).quantity;
    FillWellFormed(BID, b.bids, p.bid, q);
    FillWellFormed(ASK, b.asks, p.ask, q);
    CleanSideWellFormed(BID, e.bids);
    CleanSideWellFormed(ASK, e.asks);
  }

  /** One trading pass keeps a book well-formed, its new trade numbered next. */
  lemma PassWellFormed(b: BookState, p: Pair, now: int)
    requires WellFormed(b) && b.bids != [] && b.asks != []
    requires p.bid < |b.bids[0].orders| && p.ask < |b.asks[0].orders|
    ensures WellFormed(Cleanup(Execute(b, p, now)))
  {
    var c := Cleanup(Execute(b, p, now));
    PassSidesOk(b, p, now);
    PassLedger(b, p, now);
    forall k | 0 <= k < |c.trades| ensures c.trades[k].tradeId == k + 1 {
      if k < |b.trades| {
        assert c.trades[k] == b.trades[k];
      }
    }
  }

  /** A well-formed book stays well-formed: map order, homes and trade numbering all survive. */
  lemma {:induction false} MatchAllWellFormed(b: BookState, now: int)
    requires WellFormed(b)
    ensures WellFormed(MatchAll(b, now))
    decreases Size(b)
  {
    if Crossed(b) {
      var fp := FirstPair(b.bids[0].orders, b.asks[0].orders);
      if fp.Some? {
        var p := fp.value;
        PassShrinks(b, p, now);
        var c := Cleanup(Execute(b, p, now));
        PassWellFormed(b, p, now);
        MatchAllWellFormed(c, now);
        assert MatchAll(b, now) == MatchAll(c, now);
      } else {
        CleanSideWellFormed(BID, b.bids);
        CleanSideWellFormed(ASK, b.asks);
      }
    }
  }

  /** Appending a trade adds its quantity to the total. */
  lemma {:induction false} TotalQuantityCons(t: Trade, ts: seq<Trade>)
    ensures TotalQuantity([t] + ts) == t.quantity + TotalQuantity(ts)
    decreases |ts|
  {
    if ts != [] {
      var init := ts[..|ts| - 1];
      TotalQuantityCons(t, init);
      assert ([t] + ts)[..|ts|] == [t] + init;
    }
  }

  /** One trading pass takes the traded quantity off each side's remaining total. */
  lemma PassQuantity(b: BookState, p: Pair, now: int)
    requires b.bids != [] && b.asks != []
    requires p.bid < |b.bids[0].orders| && p.ask < |b.asks[0].orders|
    ensures var c := Cleanup(Execute(b, p, now));
      var q := PassTrade(b, p, now).quantity;
      && SideQuantity(c.bids) == SideQuantity(b.bids) - q
      && SideQuantity(c.asks) == SideQuantity(b.asks) - q
  {
    var e := Execute(b, p, now);
    var q := PassTrade(b, p, now).quantity;
    FillQuantity(b.bids, p.bid, q);
    FillQuantity(b.asks, p.ask, q);
    CleanSideCount(e.bids);
    CleanSideCount(e.asks);
  }

  /**
   * Quantity is conserved: each side loses exactly the quantity traded, and
   * nothing else about the remaining quantities changes.
   */
  lemma {:induction false} MatchAllConserves(b: BookState, now: int)
    ensures var r := MatchAll(b, now);
      && |b.trades| <= |r.trades|
      && SideQuantity(r.bids) == SideQuantity(b.bids) - TotalQuantity(r.trades[|b.trades|..])
      && SideQuantity(r.asks) == SideQuantity(b.asks) - TotalQuantity(r.trades[|b.trades|..])
    decreases Size(b)
  {
    var r := MatchAll(b, now);
    if Crossed(b) {
      var fp := FirstPair(b.bids[0].orders, b.asks[0].orders);
      if fp.Some? {
        var p := fp.value;
        PassShrinks(b, p, now);
        var c := Cleanup(Execute(b, p, now));
        assert r == MatchAll(c, now);
        PassLedger(b, p, now);
        PassQuantity(b, p, now);
        MatchAllConserves(c, now);
        MatchAllExtends(c, now);
        ConservesStep(b.trades, PassTrade(b, p, now), r.trades);
      } else {
        CleanSideCount(b.bids);
        CleanSideCount(b.asks);
        NothingTraded(b.trades);
      }
    } else {
      NothingTraded(b.trades);
    }
  }

  /** The trades matchOrders ends with begin with the ones it started from. */
  lemma {:induction false} MatchAllExtends(b: BookState, now: int)
    ensures |b.trades| <= |MatchAll(b, now).trades|
    ensures MatchAll(b, now).trades[..|b.trades|] == b.trades
    decreases Size(b)
  {
    if Crossed(b) {
      var fp := FirstPair(b.bids[0].orders, b.asks[0].orders);
      if fp.Some? {
        var p := fp.value;
        PassShrinks(b, p, now);
        var c := Cleanup(Execute(b, p, now));
        assert MatchAll(b, now) == MatchAll(c, now);
        PassLedger(b, p, now);
        MatchAllExtends(c, now);
        assert c.trades[..|b.trades|] == b.trades;
      }
    }
  }

  lemma NothingTraded(ts: seq<Trade>)
    ensures TotalQuantity(ts[|ts|..]) == 0
  {
    assert ts[|ts|..] == [];
  }

  /** Splitting off the first of the new trades splits its quantity off their total. */
  lemma ConservesStep(before: seq<Trade>, t: Trade, all: seq<Trade>)
    requires |before| + 1 <= |all| && all[..|before| + 1] == before + [t]
    ensures TotalQuantity(all[|before|..]) == t.quantity + TotalQuantity(all[|before| + 1..])
  {
    assert all[|before|..] == [t] + all[|before| + 1..];
    TotalQuantityCons(t, all[|before| + 1..]);
  }

  /**
   * On a book whose resting orders all have something left, a trading pass
   * trades a positive quantity and leaves only orders with something left.
   */
  lemma PassPositive(b: BookState, p: Pair, now: int)
    requires Positive(b.bids) && Positive(b.asks) && b.bids != [] && b.asks != []
    requires p.bid < |b.bids[0].orders| && p.ask < |b.asks[0].orders|
    ensures PassTrade(b, p, now).quantity > 0
    ensures var c := Cleanup(Execute(b, p, now)); Positive(c.bids) && Positive(c.asks)
  {
    var t := PassTrade(b, p, now);
    var e := Execute(b, p, now);
    assert b.bids[0] in b.bids && b.bids[0].orders[p.bid] in b.bids[0].orders;
    assert b.asks[0] in b.asks && b.asks[0].orders[p.ask] in b.asks[0].orders;
    FillNonNeg(b.bids, p.bid, t.quantity);
    FillNonNeg(b.asks, p.ask, t.quantity);
    CleanSidePositive(e.bids);
    CleanSidePositive(e.asks);
  }

  /** On a book whose resting orders all have something left, matchOrders keeps it so. */
  lemma {:induction false} MatchAllKeepsPositive(b: BookState, now: int)
    requires Positive(b.bids) && Positive(b.asks)
    ensures Positive(MatchAll(b, now).bids) && Positive(MatchAll(b, now).asks)
    decreases Size(b)
  {
    if Crossed(b) {
      var fp := FirstPair(b.bids[0].orders, b.asks[0].orders);
      if fp.Some? {
        var p := fp.value;
        PassShrinks(b, p, now);
        var c := Cleanup(Execute(b, p, now));
        assert MatchAll(b, now) == MatchAll(c, now);
        PassPositive(b, p, now);
        MatchAllKeepsPositive(c, now);
      } else {
        CleanSidePositive(b.bids);
        CleanSidePositive(b.asks);
      }
    }
  }

  /** Every trade of the ledger has a positive quantity. */
  predicate TradesPositive(ts: seq<Trade>) {
    forall k :: 0 <= k < |ts| ==> ts[k].quantity > 0
  }

  /**
   * On a book whose resting orders all have something left, every trade
   * matchOrders makes has a positive quantity: a ledger of positive trades
   * stays one.
   */
  lemma {:induction false} MatchAllPositive(b: BookState, now: int)
    requires Positive(b.bids) && Positive(b.asks) && TradesPositive(b.trades)
    ensures TradesPositive(MatchAll(b, now).trades)
    decreases Size(b)
  {
    if Crossed(b) && FirstPair(b.bids[0].orders, b.asks[0].orders).Some? {
      var c := PositivePass(b, now);
      MatchAllPositive(c, now);
    } else {
      assert MatchAll(b, now).trades == b.trades;
    }
  }

  /** A trading pass on a book with only positive orders and trades leaves such a book. */
  lemma PositivePass(b: BookState, now: int) returns (c: BookState)
    requires Positive(b.bids) && Positive(b.asks) && TradesPositive(b.trades)
    requires Crossed(b) && FirstPair(b.bids[0].orders, b.asks[0].orders).Some?
    ensures Size(c) < Size(b) && MatchAll(c, now) == MatchAll(b, now)
    ensures Positive(c.bids) && Positive(c.asks) && TradesPositive(c.trades)
  {
    var p := FirstPair(b.bids[0].orders, b.asks[0].orders).value;
    PassShrinks(b, p, now);
    c := Cleanup(Execute(b, p, now));
    var t := PassTrade(b, p, now);
    PassLedger(b, p, now);
    PassPositive(b, p, now);
    PositiveAppend(b.trades, t);
  }

  /** Appending a positive trade to a ledger of positive trades keeps it one. */
  lemma PositiveAppend(ts: seq<Trade>, t: Trade)
    requires TradesPositive(ts) && t.quantity > 0
    ensures TradesPositive(ts + [t])
  {
    forall k | 0 <= k < |ts| + 1 ensures (ts + [t])[k].quantity > 0 {
      if k < |ts| { assert (ts + [t])[k] == ts[k]; }
    }
  }

  /** Lowering an order by no more than it holds leaves no negative quantity on a positive side. */
  lemma FillNonNeg(levels: seq<Level>, i: nat, q: int)
    requires Positive(levels) && levels != [] && i < |levels[0].orders|
    requires 0 <= q <= levels[0].orders[i].quantity
    ensures NonNeg(Fill(levels, i, q))
  {
    var r := Fill(levels, i, q);
    forall l, o | l in r && o in l.orders ensures o.quantity >= 0 {
      if l != r[0] {
        var k :| 0 <= k < |r| && r[k] == l;
        assert levels[k] == l;
      } else {
        var k :| 0 <= k < |r[0].orders| && r[0].orders[k] == o;
        assert levels[0].orders[k] in levels[0].orders;
        assert levels[0] in levels;
      }
    }
  }

  // ----- addOrder and the GTD sweep -----

  /**
   * addOrder on a well-formed book: the order's side gains the order at the
   * tail of the queue at its price (a new level if the price was absent),
   * every other queue and the other side are unchanged, the book holds one
   * more order and stays well-formed.
   */
  lemma PlacedEffect(b: BookState, o: Order)
    requires WellFormed(b)
    ensures var r := Placed(b, o);
      && WellFormed(r)
      && Size(r) == Size(b) + 1
      && r.trades == b.trades && r.nextTradeId == b.nextTradeId
      && (o.ordertype == BID ==>
            r.asks == b.asks && AsMap(r.bids) == AsMap(b.bids)[o.price := QueueAt(b.bids, o.price) + [o]])
      && (o.ordertype == ASK ==>
            r.bids == b.bids && AsMap(r.asks) == AsMap(b.asks)[o.price := QueueAt(b.asks, o.price) + [o]])
  {
    var side := o.ordertype;
    var levels := if side == BID then b.bids else b.asks;
    AddToSideOrdered(side, levels, o);
    AddToSideHomed(side, levels, o);
    AddToSideMap(side, levels, o);
    AddToSideCount(side, levels, o);
  }

  /**
   * checkGTDOrders on a well-formed book: the book stays well-formed, keeps
   * its ledger and loses exactly its expired GTD orders.
   */
  lemma SweptEffect(b: BookState, now: int)
    requires WellFormed(b)
    ensures var r := Swept(b, now);
      && WellFormed(r)
      && r.trades == b.trades && r.nextTradeId == b.nextTradeId
      && Size(r) == Size(b) - ExpiredCount(b, now)
  {
    SweepSideWellFormed(BID, b.bids, now);
    SweepSideWellFormed(ASK, b.asks, now);
    SweepCount(b.bids, now);
    SweepCount(b.asks, now);
  }
}
