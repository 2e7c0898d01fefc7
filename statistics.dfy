/**
 * The engine's statistics aggregate (the `stats` struct of MatchingEngine.hpp)
 * and the pure effect of each operation that updates it (MatchingEngine.cpp).
 */
module Statistics {
  import opened Trading

  datatype Stats = Stats(
    dailyTradeCount: int,
    dailyVolume: int,
    lastReset: int,
    totalTradeCount: int,
    totalVolume: int,
    matchingAttempts: int,
    successfulMatches: int)

  /** All six counters at zero, last reset at `now` (the constructor and `start`). */
  function Zeroed(now: int): (s: Stats)
    ensures s.dailyTradeCount == 0 && s.dailyVolume == 0 && s.totalTradeCount == 0 && s.totalVolume == 0
    ensures s.matchingAttempts == 0 && s.successfulMatches == 0 && s.lastReset == now
  {
    Stats(0, 0, now, 0, 0, 0, 0)
  }

  /** updateStats: one more trade, its notional added to both volumes, one more successful match. */
  function Recorded(s: Stats, t: Trade): Stats {
    s.(dailyTradeCount := s.dailyTradeCount + 1,
       dailyVolume := s.dailyVolume + Notional(t),
       totalTradeCount := s.totalTradeCount + 1,
       totalVolume := s.totalVolume + Notional(t),
       successfulMatches := s.successfulMatches + 1)
  }

  /** updateStats applied to each trade of `ts` in turn. */
  function RecordedAll(s: Stats, ts: seq<Trade>): Stats
    decreases |ts|
  {
    if ts == [] then s else Recorded(RecordedAll(s, ts[..|ts| - 1]), ts[|ts| - 1])
  }

  /** resetDailyStats: the four daily-scoped counters go to zero, the totals stay. */
  function DailyReset(s: Stats, now: int): (r: Stats)
    ensures r.dailyTradeCount == 0 && r.dailyVolume == 0 && r.matchingAttempts == 0 && r.successfulMatches == 0
    ensures r.totalTradeCount == s.totalTradeCount && r.totalVolume == s.totalVolume && r.lastReset == now
  {
    s.(dailyTradeCount := 0, dailyVolume := 0, matchingAttempts := 0, successfulMatches := 0, lastReset := now)
  }

  /**
   * Recording a run of trades adds its length to both trade counts and to the
   * successful matches, adds its notional value to both volumes, and leaves
   * the attempts and the reset time alone.
   */
  lemma {:induction false} RecordedAllEffect(s: Stats, ts: seq<Trade>)
    ensures var r := RecordedAll(s, ts);
      && r.dailyTradeCount == s.dailyTradeCount + |ts|
      && r.totalTradeCount == s.totalTradeCount + |ts|
      && r.successfulMatches == s.successfulMatches + |ts|
      && r.dailyVolume == s.dailyVolume + TotalNotional(ts)
      && r.totalVolume == s.totalVolume + TotalNotional(ts)
      && r.matchingAttempts == s.matchingAttempts
      && r.lastReset == s.lastReset
    decreases |ts|
  {
    if ts != [] {
      RecordedAllEffect(s, ts[..|ts| - 1]);
    }
  }

  /**
   * The statistics after an accepted order whose matching produced
   * `newTrades`: the book reports every trade, then the intake path records
   * the last trade once more.
   */
  function IntakeStats(s: Stats, newTrades: seq<Trade>): Stats {
    var reported := RecordedAll(s, newTrades);
    if |newTrades| > 0 then Recorded(reported, newTrades[|newTrades| - 1]) else reported
  }

  /**
   * An accepted order that executes m > 0 trades raises the trade counts and
   * the successful matches by m + 1: the last trade is counted twice.
   */
  lemma IntakeCountsLastTradeTwice(s: Stats, newTrades: seq<Trade>)
    requires |newTrades| > 0
    ensures var r := IntakeStats(s, newTrades);
      && r.totalTradeCount == s.totalTradeCount + |newTrades| + 1
      && r.dailyTradeCount == s.dailyTradeCount + |newTrades| + 1
      && r.successfulMatches == s.successfulMatches + |newTrades| + 1
      && r.totalVolume == s.totalVolume + TotalNotional(newTrades) + Notional(newTrades[|newTrades| - 1])
      && r.matchingAttempts == s.matchingAttempts
  {
    RecordedAllEffect(s, newTrades);
  }

  /** An order that executes nothing leaves the statistics as they were. */
  lemma IntakeWithoutTrades(s: Stats)
    ensures IntakeStats(s, []) == s
  {
  }

  /**
   * The statistics after the matching step of the engine loop: one more
   * attempt, the per-trade reports of the book, and the loop's own credit
   * of the number of matches.
   */
  function AttemptStats(s: Stats, newTrades: seq<Trade>): Stats {
    var s1 := s.(matchingAttempts := s.matchingAttempts + 1);
    var s2 := RecordedAll(s1, newTrades);
    if |newTrades| > 0 then s2.(successfulMatches := s2.successfulMatches + |newTrades|) else s2
  }

  /** The statistics after one iteration of the engine loop: an optional daily reset, then the matching step. */
  function TickStats(s: Stats, resetDue: bool, now: int, newTrades: seq<Trade>): Stats {
    AttemptStats(if resetDue then DailyReset(s, now) else s, newTrades)
  }

  /**
   * One loop iteration counts exactly one attempt; each of its m trades is
   * counted twice in the successful matches (once per report, once by the
   * loop) but once in the trade counts.
   */
  lemma TickCounts(s: Stats, resetDue: bool, now: int, newTrades: seq<Trade>)
    ensures var r := TickStats(s, resetDue, now, newTrades);
      && r.matchingAttempts == (if resetDue then 0 else s.matchingAttempts) + 1
      && r.successfulMatches == (if resetDue then 0 else s.successfulMatches) + 2 * |newTrades|
      && r.totalTradeCount == s.totalTradeCount + |newTrades|
      && r.dailyTradeCount == (if resetDue then 0 else s.dailyTradeCount) + |newTrades|
      && r.dailyVolume == (if resetDue then 0 else s.dailyVolume) + TotalNotional(newTrades)
      && r.totalVolume == s.totalVolume + TotalNotional(newTrades)
      && r.lastReset == (if resetDue then now else s.lastReset)
  {
    var s0 := if resetDue then DailyReset(s, now) else s;
    RecordedAllEffect(s0.(matchingAttempts := s0.matchingAttempts + 1), newTrades);
  }

  /** A reset forgets exactly the daily part of whatever was recorded before it. */
  lemma ResetAfterRecording(s: Stats, ts: seq<Trade>, now: int)
    ensures DailyReset(RecordedAll(s, ts), now)
         == DailyReset(s, now).(totalTradeCount := s.totalTradeCount + |ts|,
                                totalVolume := s.totalVolume + TotalNotional(ts))
  {
    RecordedAllEffect(s, ts);
  }
}
