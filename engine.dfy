/**
 * The two stateful classes of the core: OrderBook (OrderBook.hpp /
 * OrderBook.cpp) and MatchingEngine (MatchingEngine.hpp /
 * MatchingEngine.cpp). They point at each other, the book reporting every
 * trade to its engine, so they live in one module.
 *
 * Each method is proved against the value-level specification of module
 * Matching: after it runs, the book's state is the specification function
 * applied to the state before.
 */
module Engine {
  import opened Wrappers
  import opened Instruments
  import opened Orders
  import opened Trading
  import opened Levels
  import opened Matching
  import opened Statistics
  import opened Catalog

  // ----- loops over the sides of the book -----

  /**
   * The cleanup loop of cleanupExecutedOrders over one side: each queue
   * loses its zero-quantity orders and a queue left empty loses its level.
   */
  method CompactLevels(levels: seq<Level>) returns (r: seq<Level>)
    ensures r == CleanSide(levels)
  {
    r := [];
    var k := 0;
    while k < |levels|
      invariant 0 <= k <= |levels|
      invariant r == CleanSide(levels[..k])
    {
      var kept := RemoveIf(levels[k].orders, IsExecuted);
      if kept != [] {
        r := r + [Level(levels[k].price, kept)];
      }
      assert levels[..k + 1] == levels[..k] + [levels[k]];
      CleanSideAppend(levels[..k], [levels[k]]);
      assert [levels[k]][1..] == [];
      k := k + 1;
    }
    assert levels[..k] == levels;
  }

  /**
   * The sweep loop of checkGTDOrders over one side: each queue loses its GTD
   * orders due at `now`, and `expired` counts them.
   */
  method SweepLevels(levels: seq<Level>, now: int) returns (r: seq<Level>, expired: nat)
    ensures r == SweepSide(levels, now)
    ensures expired == SideCountIf(levels, ExpiredAt(now))
  {
    r := [];
    expired := 0;
    var k := 0;
    while k < |levels|
      invariant 0 <= k <= |levels|
      invariant |r| == k
      invariant forall j :: 0 <= j < k ==> r[j] == Level(levels[j].price, RemoveIf(levels[j].orders, ExpiredAt(now)))
      invariant expired == SideCountIf(levels[..k], ExpiredAt(now))
    {
      r := r + [Level(levels[k].price, RemoveIf(levels[k].orders, ExpiredAt(now)))];
      expired := expired + CountIf(levels[k].orders, ExpiredAt(now));
      SideCountIfStep(levels, k, ExpiredAt(now));
      k := k + 1;
    }
    assert levels[..k] == levels;
  }

  /**
   * The nested scan of a matching pass: bids of the best bid queue in FIFO
   * order, and for each the asks of the best ask queue in FIFO order, until
   * the first compatible pair.
   */
  method FindPair(bids: seq<Order>, asks: seq<Order>) returns (r: Option<Pair>)
    ensures r == FirstPair(bids, asks)
  {
    var i := 0;
    while i < |bids|
      invariant 0 <= i <= |bids|
      invariant forall k :: 0 <= k < i ==> FirstAsk(bids[k], asks).None?
    {
      var j := 0;
      while j < |asks|
        invariant 0 <= j <= |asks|
        invariant forall k :: 0 <= k < j ==> !Compatible(bids[i], asks[k])
      {
        if Compatible(bids[i], asks[j]) {
          return Some(Pair(i, j));
        }
        j := j + 1;
      }
      i := i + 1;
    }
    return None;
  }

  /** The instrument an order is checked against must carry the order's id, MIC and currency. */
  predicate Listed(inst: Instrument, o: Order) {
    inst.idinstrument == o.idinstrument
    && inst.marketIdentificationCode == o.marketIdentificationCode
    && inst.tradingCurrency == o.tradingCurrency
  }

  /** Position of the first catalog instrument that lists the order. */
  function FindListed(insts: seq<Instrument>, o: Order): (r: Option<nat>)
    ensures r.Some? ==> r.value < |insts| && Listed(insts[r.value], o)
    ensures forall k :: 0 <= k < |insts| && (r.None? || k < r.value) ==> !Listed(insts[k], o)
    decreases |insts|
  {
    if insts == [] then None
    else if Listed(insts[0], o) then Some(0)
    else
      match FindListed(insts[1..], o)
      case None => None
      case Some(k) => Some(k + 1)
  }

  /**
   * The quantity check divides by the lot size of the instrument it runs
   * against; it runs only on the first listing instrument, only when the
   * price check passed, and divides only a positive quantity.
   */
  predicate LotSizeUsable(insts: seq<Instrument>, o: Order) {
    match FindListed(insts, o)
    case None => true
    case Some(k) => ValidatePrice(o, insts[k]) && o.quantity > 0 ==> insts[k].lotsize != 0
  }

  /**
   * addAndValidateOrder's decision: an instrument lists the order, and the
   * first one that does accepts its price and its quantity.
   */
  predicate Accepts(insts: seq<Instrument>, o: Order)
    requires LotSizeUsable(insts, o)
  {
    match FindListed(insts, o)
    case None => false
    case Some(k) => ValidatePrice(o, insts[k]) && ValidateQuantity(o, insts[k])
  }

  /**
   * The instrument addAndValidateOrder checks the order against is the first
   * one of the catalog that lists it; the order is accepted exactly when its
   * price is positive and on that instrument's tick grid and its quantity is
   * a positive whole number of that instrument's lots. An order that no
   * instrument lists is refused.
   */
  lemma AcceptsMeans(insts: seq<Instrument>, o: Order)
    requires LotSizeUsable(insts, o)
    ensures Accepts(insts, o) <==>
      exists k :: 0 <= k < |insts| && Listed(insts[k], o)
        && (forall j :: 0 <= j < k ==> !Listed(insts[j], o))
        && o.price > 0 && OnTickGrid(o.price, insts[k].pricedecimal)
        && o.quantity > 0 && insts[k].lotsize != 0 && CRem(o.quantity, insts[k].lotsize) == 0
    ensures (forall k :: 0 <= k < |insts| ==> !Listed(insts[k], o)) ==> !Accepts(insts, o)
  {
    var r := FindListed(insts, o);
    if r.Some? {
      var k := r.value;
      ValidatePriceMeansTick(o, insts[k]);
      if ValidatePrice(o, insts[k]) {
        ValidateQuantityMeansLots(o, insts[k]);
      }
      if Accepts(insts, o) {
        assert forall j :: 0 <= j < k ==> !Listed(insts[j], o);
      }
    }
  }

  // ----- the run loop's timers -----

  /** One day, one hour and half a minute, in seconds. */
  const DayLength: int := 86400
  const GTDCheckInterval: int := 3600
  const StatusInterval: int := 30

  /** The three time stamps the run loop keeps between iterations. */
  datatype LoopClock = LoopClock(lastStatusUpdate: int, lastGTDCheck: int, lastStatsReset: int)

  /** The run loop starts with all three time stamps at its first clock reading. */
  function StartClock(now: int): (c: LoopClock)
    ensures c.lastStatusUpdate == now && c.lastGTDCheck == now && c.lastStatsReset == now
  {
    LoopClock(now, now, now)
  }

  predicate ResetDue(c: LoopClock, now: int) { now - c.lastStatsReset > DayLength }
  predicate GTDCheckDue(c: LoopClock, now: int) { now - c.lastGTDCheck > GTDCheckInterval }
  predicate StatusDue(c: LoopClock, now: int) { now - c.lastStatusUpdate > StatusInterval }

  /** Each time stamp moves to `now` exactly when its action ran in this iteration. */
  function NextClock(c: LoopClock, now: int): (r: LoopClock)
    ensures r.lastStatsReset == (if now - c.lastStatsReset > DayLength then now else c.lastStatsReset)
    ensures r.lastGTDCheck == (if now - c.lastGTDCheck > GTDCheckInterval then now else c.lastGTDCheck)
    ensures r.lastStatusUpdate == (if now - c.lastStatusUpdate > StatusInterval then now else c.lastStatusUpdate)
  {
    LoopClock(if StatusDue(c, now) then now else c.lastStatusUpdate,
              if GTDCheckDue(c, now) then now else c.lastGTDCheck,
              if ResetDue(c, now) then now else c.lastStatsReset)
  }

  /**
   * No action runs twice within its own interval: once an iteration at
   * `now` has run an action, no later clock reading up to one interval of
   * that action on finds it due again (a day for the reset, an hour for the
   * GTD sweep, half a minute for the status update).
   */
  lemma NoActionTwiceWithinInterval(c: LoopClock, now: int, later: int)
    requires now <= later
    ensures var n := NextClock(c, now);
      && (ResetDue(c, now) && later <= now + DayLength ==> !ResetDue(n, later))
      && (GTDCheckDue(c, now) && later <= now + GTDCheckInterval ==> !GTDCheckDue(n, later))
      && (StatusDue(c, now) && later <= now + StatusInterval ==> !StatusDue(n, later))
  {
  }

  /** Statistics and book after one iteration of the run loop, as values. */
  function TickBook(b: BookState, c: LoopClock, now: int): BookState {
    var m := MatchAll(b, now);
    if GTDCheckDue(c, now) then Swept(m, now) else m
  }

  /**
   * A trade appended to a ledger that extends `start` keeps it extending
   * `start`, and recording the new part of the ledger records the trade last.
   */
  lemma LedgerGrows(start: seq<Trade>, ledger: seq<Trade>, t: Trade, s: Stats)
    requires |start| <= |ledger| && ledger[..|start|] == start
    ensures (ledger + [t])[..|start|] == start
    ensures RecordedAll(s, (ledger + [t])[|start|..]) == Recorded(RecordedAll(s, ledger[|start|..]), t)
  {
    var added := ledger[|start|..];
    assert (ledger + [t])[|start|..] == added + [t];
    assert (added + [t])[..|added|] == added;
  }

  // ----- the classes -----

  class OrderBook {
    /** Bid levels, best (highest) price first. */
    var bidOrders: seq<Level>
    /** Ask levels, best (lowest) price first. */
    var askOrders: seq<Level>
    var trades: seq<Trade>
    var nextTradeId: int
    var engine: MatchingEngine?

    /** The book's content as a value. */
    function State(): BookState
      reads this
    {
      BookState(bidOrders, askOrders, trades, nextTradeId)
    }

    ghost predicate Valid()
      reads this
    {
      WellFormed(State())
    }

    /** An empty book whose first trade will be number 1, reporting to no engine. */
    constructor ()
      ensures State() == EmptyBook && engine == null
      ensures Valid()
    {
      bidOrders := [];
      askOrders := [];
      trades := [];
      nextTradeId := 1;
      engine := null;
    }

    method SetMatchingEngine(e: MatchingEngine?)
      modifies this`engine
      ensures engine == e
    {
      engine := e;
    }

    /** notifyMatch: the engine, when there is one, records the trade. */
    method NotifyMatch(t: Trade)
      modifies Reported()`stats
      ensures engine != null ==> engine.stats == Recorded(old(engine.stats), t)
    {
      if engine != null {
        engine.UpdateStats(t);
      }
    }

    /**
     * addOrder: the order joins the tail of the queue at its price on its
     * own side; the book stays well-formed and holds one more order.
     */
    method AddOrder(o: Order)
      requires Valid()
      modifies this`bidOrders, this`askOrders
      ensures State() == Placed(old(State()), o)
      ensures Valid() && Size(State()) == Size(old(State())) + 1
    {
      PlacedEffect(State(), o);
      if o.ordertype == BID {
        bidOrders := AddToSide(BID, bidOrders, o);
      } else {
        askOrders := AddToSide(ASK, askOrders, o);
      }
    }

    /** cleanupExecutedOrders: the two sides compacted. */
    method CleanupExecutedOrders()
      modifies this`bidOrders, this`askOrders
      ensures State() == Cleanup(old(State()))
    {
      bidOrders := CompactLevels(bidOrders);
      askOrders := CompactLevels(askOrders);
    }

    /** getLastTrade: the most recent trade, none when no trade was made yet. */
    function GetLastTrade(): (r: Option<Trade>)
      reads this
      ensures r.None? <==> trades == []
      ensures r.Some? ==> r.value == trades[|trades| - 1]
    {
      if trades == [] then None else Some(trades[|trades| - 1])
    }

    /** The engine the book reports to, as a frame. */
    function Reported(): set<MatchingEngine>
      reads this
    {
      if engine == null then {} else {engine}
    }

    /**
     * The trading step of a matching pass on the pair `p` the scan found:
     * the trade is numbered, recorded and reported, and both orders lose its
     * quantity.
     */
    method ExecutePass(p: Pair, now: int) returns (trade: Trade)
      requires bidOrders != [] && askOrders != []
      requires p.bid < |bidOrders[0].orders| && p.ask < |askOrders[0].orders|
      modifies this`bidOrders, this`askOrders, this`trades, this`nextTradeId, Reported()`stats
      ensures trade == PassTrade(old(State()), p, now)
      ensures State() == Execute(old(State()), p, now)
      ensures engine != null ==> engine.stats == Recorded(old(engine.stats), trade)
    {
      var bid := bidOrders[0].orders[p.bid];
      var ask := askOrders[0].orders[p.ask];
      var tradeQuantity := Min(bid.quantity, ask.quantity);
      trade := Trade(nextTradeId, bid.idorder, ask.idorder, bid.marketIdentificationCode,
                     bid.tradingCurrency, ask.price, tradeQuantity, now);
      nextTradeId := nextTradeId + 1;
      trades := trades + [trade];
      NotifyMatch(trade);
      bidOrders := Fill(bidOrders, p.bid, tradeQuantity);
      askOrders := Fill(askOrders, p.ask, tradeQuantity);
    }

    /**
     * One pass of matchOrders' loop on a crossed book: the scan of the two
     * best queues, the trade when it finds a pair, and the cleanup. Without a
     * pair the book is where matchOrders stops; with one, a trade was made
     * and reported, and the book holds fewer orders and matches on to the
     * same end.
     */
    method MatchPass(now: int) returns (trade: Option<Trade>)
      requires bidOrders != [] && askOrders != []
      modifies this`bidOrders, this`askOrders, this`trades, this`nextTradeId, Reported()`stats
      ensures trade.None? ==> State() == MatchAll(old(State()), now) && trades == old(trades)
      ensures trade.None? && engine != null ==> engine.stats == old(engine.stats)
      ensures trade.Some? ==> MatchAll(State(), now) == MatchAll(old(State()), now)
      ensures trade.Some? ==> trades == old(trades) + [trade.value] && Size(State()) < Size(old(State()))
      ensures trade.Some? && engine != null ==> engine.stats == Recorded(old(engine.stats), trade.value)
    {
      ghost var pre := State();
      MatchAllStep(pre, now);
      if bidOrders[0].price < askOrders[0].price {
        return None;
      }
      var found := FindPair(bidOrders[0].orders, askOrders[0].orders);
      if found.None? {
        CleanupExecutedOrders();
        return None;
      }
      var t := ExecutePass(found.value, now);
      CleanupExecutedOrders();
      PassShrinks(pre, found.value, now);
      return Some(t);
    }

    /**
     * matchOrders: the book ends as the specification MatchAll says, the
     * result is the number of trades appended, and the engine (when there is
     * one) has recorded each of them in order.
     */
    method MatchOrders(now: int) returns (tradesExecuted: int)
      modifies this`bidOrders, this`askOrders, this`trades, this`nextTradeId, Reported()`stats
      ensures State() == MatchAll(old(State()), now)
      ensures |old(trades)| <= |trades| && trades[..|old(trades)|] == old(trades)
      ensures tradesExecuted == |trades| - |old(trades)|
      ensures engine != null ==> engine.stats == RecordedAll(old(engine.stats), trades[|old(trades)|..])
      ensures old(Valid()) ==> Valid()
    {
      ghost var b0 := State();
      ghost var s0 := if engine != null then engine.stats else Zeroed(0);
      tradesExecuted := 0;
      while bidOrders != [] && askOrders != []
        invariant MatchAll(State(), now) == MatchAll(b0, now)
        invariant |b0.trades| <= |trades| && trades[..|b0.trades|] == b0.trades
        invariant tradesExecuted == |trades| - |b0.trades|
        invariant engine != null ==> engine.stats == RecordedAll(s0, trades[|b0.trades|..])
        decreases Size(State())
      {
        ghost var before := trades;
        var trade := MatchPass(now);
        if trade.None? {
          break;
        }
        LedgerGrows(b0.trades, before, trade.value, s0);
        tradesExecuted := tradesExecuted + 1;
      }
      if bidOrders == [] || askOrders == [] {
        MatchAllOneSided(State(), now);
      }
      if WellFormed(b0) {
        MatchAllWellFormed(b0, now);
      }
    }
  }

  class MatchingEngine {
    var book: OrderBook
    var catalog: InstrumentManager
    var running: bool
    var stats: Stats

    /** The engine reports to itself through its book, whose content stays well-formed. */
    ghost predicate Valid()
      reads this, book
    {
      book.engine == this && book.Valid()
    }

    /**
     * Binds the engine to its book and catalog, stopped, with zeroed
     * statistics, and registers it with the book.
     */
    constructor (ob: OrderBook, im: InstrumentManager, now: int)
      modifies ob`engine
      ensures book == ob && catalog == im && !running && stats == Zeroed(now)
      ensures ob.engine == this
      ensures old(ob.Valid()) ==> Valid()
    {
      book := ob;
      catalog := im;
      running := false;
      stats := Zeroed(now);
      new;
      ob.SetMatchingEngine(this);
    }

    /** start: a stopped engine starts, with all statistics zeroed; a running one is left alone. */
    method Start(now: int)
      modifies this`running, this`stats
      ensures running
      ensures stats == if old(running) then old(stats) else Zeroed(now)
    {
      if !running {
        running := true;
        stats := Zeroed(now);
      }
    }

    /** stop: the engine is stopped, whatever it was. */
    method Stop()
      modifies this`running
      ensures !running
    {
      if running {
        running := false;
      }
    }

    /** isEngineRunning. */
    function IsEngineRunning(): (r: bool)
      reads this
      ensures r <==> running
    {
      running
    }

    /** resetDailyStats: the daily counters return to zero, the totals stay. */
    method ResetDailyStats(now: int)
      modifies this`stats
      ensures stats == DailyReset(old(stats), now)
    {
      stats := DailyReset(stats, now);
    }

    /** updateStats: one trade recorded in the counts and volumes. */
    method UpdateStats(t: Trade)
      modifies this`stats
      ensures stats == Recorded(old(stats), t)
    {
      stats := Recorded(stats, t);
    }

    /**
     * checkGTDOrders: both sides of the book lose their GTD orders due at
     * `now`; `expiredOrders` is how many there were. Emptied levels stay.
     */
    method CheckGTDOrders(now: int) returns (expiredOrders: nat)
      requires Valid()
      modifies book`bidOrders, book`askOrders
      ensures book.State() == Swept(old(book.State()), now)
      ensures expiredOrders == ExpiredCount(old(book.State()), now)
      ensures Valid() && Size(book.State()) == Size(old(book.State())) - expiredOrders
    {
      SweptEffect(book.State(), now);
      var bidExpired, askExpired;
      book.bidOrders, bidExpired := SweepLevels(book.bidOrders, now);
      book.askOrders, askExpired := SweepLevels(book.askOrders, now);
      expiredOrders := bidExpired + askExpired;
    }

    /**
     * The accepted path of addAndValidateOrder: the order is added to the
     * book, the book is matched (reporting each trade), and the last trade,
     * when there is one, is recorded once more.
     */
    method Admit(o: Order, now: int)
      requires Valid()
      modifies book`bidOrders, book`askOrders, book`trades, book`nextTradeId, this`stats
      ensures Valid()
      ensures |old(book.trades)| <= |book.trades|
      ensures book.State() == MatchAll(Placed(old(book.State()), o), now)
      ensures stats == IntakeStats(old(stats), book.trades[|old(book.trades)|..])
    {
      book.AddOrder(o);
      ghost var start := book.trades;
      var matches := book.MatchOrders(now);
      ghost var made := book.trades[|start|..];
      if matches > 0 {
        var lastTrade := book.GetLastTrade();
        assert lastTrade == Some(made[|made| - 1]);
        if lastTrade.Some? {
          UpdateStats(lastTrade.value);
        }
      }
    }

    /**
     * addAndValidateOrder: the order is checked against the first catalog
     * instrument that lists it; when it passes, it is added to the book, the
     * book is matched, and the last trade (if any) is recorded once more.
     */
    method AddAndValidateOrder(o: Order, now: int) returns (accepted: bool)
      requires Valid() && catalog.Valid()
      requires LotSizeUsable(catalog.instruments, o)
      modifies book`bidOrders, book`askOrders, book`trades, book`nextTradeId, this`stats
      ensures Valid()
      ensures accepted <==> Accepts(catalog.instruments, o)
      ensures |old(book.trades)| <= |book.trades|
      ensures accepted ==> book.State() == MatchAll(Placed(old(book.State()), o), now)
      ensures accepted ==> stats == IntakeStats(old(stats), book.trades[|old(book.trades)|..])
      ensures !accepted ==> book.State() == old(book.State()) && stats == old(stats)
    {
      var insts := catalog.GetInstruments();
      var i := 0;
      while i < |insts|
        invariant 0 <= i <= |insts|
        invariant forall k :: 0 <= k < i ==> !Listed(insts[k], o)
      {
        var inst := insts[i];
        if Listed(inst, o) {
          assert FindListed(insts, o) == Some(i);
          if ValidatePrice(o, inst) && ValidateQuantity(o, inst) {
            Admit(o, now);
            return true;
          }
          return false;
        }
        i := i + 1;
      }
      return false;
    }

    /**
     * The matching step of the run loop: one more attempt counted, the book
     * matched (reporting each trade), and the number of matches credited
     * once more to the successful matches.
     */
    method MatchAttempt(now: int) returns (matches: int)
      requires Valid()
      modifies book`bidOrders, book`askOrders, book`trades, book`nextTradeId, this`stats
      ensures Valid()
      ensures book.State() == MatchAll(old(book.State()), now)
      ensures |old(book.trades)| <= |book.trades| && matches == |book.trades| - |old(book.trades)|
      ensures stats == AttemptStats(old(stats), book.trades[|old(book.trades)|..])
    {
      stats := stats.(matchingAttempts := stats.matchingAttempts + 1);
      matches := book.MatchOrders(now);
      if matches > 0 {
        stats := stats.(successfulMatches := stats.successfulMatches + matches);
      }
    }

    /**
     * One iteration of the run loop at clock reading `now`: the daily reset
     * when a day has passed, one matching attempt (with the loop's own
     * credit of the matches), the GTD sweep when an hour has passed, and
     * the status time stamp when half a minute has passed.
     */
    method Tick(clock: LoopClock, now: int) returns (next: LoopClock, matches: int)
      requires Valid()
      modifies book`bidOrders, book`askOrders, book`trades, book`nextTradeId, this`stats
      ensures Valid()
      ensures next == NextClock(clock, now)
      ensures book.State() == TickBook(old(book.State()), clock, now)
      ensures |old(book.trades)| <= |book.trades| && matches == |book.trades| - |old(book.trades)|
      ensures stats == TickStats(old(stats), ResetDue(clock, now), now, book.trades[|old(book.trades)|..])
    {
      next := clock;
      if ResetDue(clock, now) {
        ResetDailyStats(now);
        next := next.(lastStatsReset := now);
      }
      matches := MatchAttempt(now);
      if GTDCheckDue(clock, now) {
        var expired := CheckGTDOrders(now);
        next := next.(lastGTDCheck := now);
      }
      if StatusDue(clock, now) {
        next := next.(lastStatusUpdate := now);
      }
    }
  }
}
