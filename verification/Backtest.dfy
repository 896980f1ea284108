/**
 `run_backtest`: one position at a time over a list of signals, and the
 aggregates over the executed trades.
 */
module Backtest {
  import opened MarketTypes
  import opened TradeSimulator
  import opened TradeTheorems
  import opened StrategyCore

  /** An executed trade together with the signal that opened it. */
  datatype Fill = Fill(signal: Signal, trade: Trade)

  datatype ProfitFactor = Undefined | Infinite | Ratio(value: real)

  datatype BacktestResult = BacktestResult(totalSignals: nat, tradesCount: nat, winCount: nat, lossCount: nat,
                                           scratchCount: nat, winRate: real, avgR: real, totalR: real,
                                           profitFactor: ProfitFactor, maxDrawdownR: real, avgBarsHeld: real,
                                           trades: seq<Trade>)

  function FillEnd(f: Fill): int {
    ExitIndex(f.signal, f.trade)
  }

  // ------------------------------------------------------------------------
  // Which signals trade
  // ------------------------------------------------------------------------

  /** The fills of `signals`, given the last bar covered by an open trade. */
  function Schedule(config: Config, bars: seq<Bar>, signals: seq<Signal>, openUntil: int): seq<Fill>
    requires signals != [] ==> |bars| > 0
  {
    if signals == [] then []
    else if signals[0].index <= openUntil then Schedule(config, bars, signals[1..], openUntil)
    else
      var f := Fill(signals[0], Simulate(config, signals[0], bars));
      [f] + Schedule(config, bars, signals[1..], FillEnd(f))
  }

  function TradesOf(fills: seq<Fill>): (trades: seq<Trade>)
    ensures |trades| == |fills| && forall k :: 0 <= k < |fills| ==> trades[k] == fills[k].trade
  {
    seq(|fills|, k requires 0 <= k < |fills| => fills[k].trade)
  }

  ghost predicate OnBars(bars: seq<Bar>, signals: seq<Signal>) {
    forall s :: s in signals ==> s.index < |bars|
  }

  lemma SimulatedSpan(config: Config, signal: Signal, bars: seq<Bar>)
    requires signal.index < |bars|
    ensures signal.index <= ExitIndex(signal, Simulate(config, signal, bars)) < |bars|
  {
    RunRespectsTtl(config, signal, bars, signal.index, Opening(signal));
  }

  /** Executed trades occupy pairwise disjoint, increasing bar intervals, whatever the order of the signals. */
  lemma {:induction false} FillsAreDisjoint(config: Config, bars: seq<Bar>, signals: seq<Signal>, openUntil: int)
    requires OnBars(bars, signals) && (signals != [] ==> |bars| > 0)
    ensures var fills := Schedule(config, bars, signals, openUntil);
            && (forall a :: 0 <= a < |fills| ==>
                  && fills[a].signal in signals
                  && fills[a].trade == Simulate(config, fills[a].signal, bars)
                  && openUntil < fills[a].signal.index <= FillEnd(fills[a]) < |bars|)
            && (forall a, b :: 0 <= a < b < |fills| ==> FillEnd(fills[a]) < fills[b].signal.index)
  {
    if signals != [] {
      var rest := signals[1..];
      assert signals == [signals[0]] + rest;
      if signals[0].index <= openUntil {
        FillsAreDisjoint(config, bars, rest, openUntil);
        assert Schedule(config, bars, signals, openUntil) == Schedule(config, bars, rest, openUntil);
      } else {
        var f := Fill(signals[0], Simulate(config, signals[0], bars));
        SimulatedSpan(config, f.signal, bars);
        FillsAreDisjoint(config, bars, rest, FillEnd(f));
        assert forall b :: 0 < b <= |Schedule(config, bars, rest, FillEnd(f))| ==>
            Schedule(config, bars, signals, openUntil)[b] == Schedule(config, bars, rest, FillEnd(f))[b - 1];
      }
    }
  }

  ghost predicate SortedByIndex(signals: seq<Signal>) {
    forall a, b :: 0 <= a < b < |signals| ==> signals[a].index <= signals[b].index
  }

  ghost predicate Covered(fills: seq<Fill>, s: Signal) {
    exists k :: 0 <= k < |fills| && fills[k].signal.index <= s.index <= FillEnd(fills[k])
  }

  /** For index-sorted signals, a signal past `openUntil` is executed or lies inside an executed trade. */
  lemma {:induction false} SkippedAreCovered(config: Config, bars: seq<Bar>, signals: seq<Signal>, openUntil: int,
                                             j: nat)
    requires OnBars(bars, signals) && SortedByIndex(signals) && j < |signals| && |bars| > 0
    requires signals[j].index > openUntil
    ensures Covered(Schedule(config, bars, signals, openUntil), signals[j])
  {
    var rest := signals[1..];
    var fills := Schedule(config, bars, signals, openUntil);
    if signals[0].index <= openUntil {
      SkippedAreCovered(config, bars, rest, openUntil, j - 1);
    } else {
      var f := Fill(signals[0], Simulate(config, signals[0], bars));
      SimulatedSpan(config, f.signal, bars);
      assert fills[0] == f;
      if signals[j].index > FillEnd(f) {
        SkippedAreCovered(config, bars, rest, FillEnd(f), j - 1);
        var later := Schedule(config, bars, rest, FillEnd(f));
        var k :| 0 <= k < |later| && later[k].signal.index <= signals[j].index <= FillEnd(later[k]);
        assert fills[k + 1] == later[k];
      }
    }
  }

  // ------------------------------------------------------------------------
  // Aggregates
  // ------------------------------------------------------------------------

  function TotalR(trades: seq<Trade>): real {
    if trades == [] then 0.0 else TotalR(trades[..|trades| - 1]) + trades[|trades| - 1].rMultiple
  }

  /** The cumulative-R equity curve; it starts at zero. */
  function Equity(trades: seq<Trade>, k: nat): real
    requires k <= |trades|
  {
    if k == 0 then 0.0 else Equity(trades, k - 1) + trades[k - 1].rMultiple
  }

  lemma {:induction false} EquityOfPrefix(trades: seq<Trade>, n: nat, k: nat)
    requires k <= n <= |trades|
    ensures Equity(trades[..n], k) == Equity(trades, k)
  {
    if k > 0 {
      EquityOfPrefix(trades, n, k - 1);
    }
  }

  /** The equity curve ends at the total. */
  lemma {:induction false} EquityEndsAtTotal(trades: seq<Trade>)
    ensures Equity(trades, |trades|) == TotalR(trades)
  {
    if trades != [] {
      EquityEndsAtTotal(trades[..|trades| - 1]);
      EquityOfPrefix(trades, |trades| - 1, |trades| - 1);
    }
  }

  datatype Outcome = Win | Loss | Scratch

  function OutcomeOf(t: Trade): Outcome {
    if t.rMultiple > 0.0 then Win else if t.rMultiple < 0.0 then Loss else Scratch
  }

  function Having(trades: seq<Trade>, o: Outcome): seq<Trade> {
    if trades == [] then []
    else
      var last := trades[|trades| - 1];
      if OutcomeOf(last) == o then Having(trades[..|trades| - 1], o) + [last] else Having(trades[..|trades| - 1], o)
  }

  function BarsHeldSum(trades: seq<Trade>): int {
    if trades == [] then 0 else BarsHeldSum(trades[..|trades| - 1]) + trades[|trades| - 1].barsHeld
  }

  lemma HavingNext(trades: seq<Trade>, o: Outcome)
    requires trades != []
    ensures var rest, last := trades[..|trades| - 1], trades[|trades| - 1];
            && |Having(trades, o)| == |Having(rest, o)| + (if OutcomeOf(last) == o then 1 else 0)
            && TotalR(Having(trades, o))
               == TotalR(Having(rest, o)) + (if OutcomeOf(last) == o then last.rMultiple else 0.0)
  {
    TotalAppend(Having(trades[..|trades| - 1], o), trades[|trades| - 1]);
  }

  lemma {:induction false} SignOfTotals(trades: seq<Trade>)
    ensures TotalR(Having(trades, Win)) >= 0.0 && (TotalR(Having(trades, Win)) == 0.0 <==> |Having(trades, Win)| == 0)
    ensures TotalR(Having(trades, Loss)) <= 0.0
    ensures TotalR(Having(trades, Loss)) == 0.0 <==> |Having(trades, Loss)| == 0
  {
    if trades != [] {
      SignOfTotals(trades[..|trades| - 1]);
      HavingNext(trades, Win);
      HavingNext(trades, Loss);
    }
  }

  /** Wins, losses and scratches partition the trades, and the total is gross win minus gross loss. */
  lemma {:induction false} OutcomesPartition(trades: seq<Trade>)
    ensures |Having(trades, Win)| + |Having(trades, Loss)| + |Having(trades, Scratch)| == |trades|
    ensures TotalR(trades) == TotalR(Having(trades, Win)) + TotalR(Having(trades, Loss))
    ensures TotalR(Having(trades, Win)) >= 0.0 && (TotalR(Having(trades, Win)) == 0.0 <==> |Having(trades, Win)| == 0)
    ensures TotalR(Having(trades, Loss)) <= 0.0
    ensures TotalR(Having(trades, Loss)) == 0.0 <==> |Having(trades, Loss)| == 0
  {
    SignOfTotals(trades);
    if trades != [] {
      OutcomesPartition(trades[..|trades| - 1]);
      HavingNext(trades, Win);
      HavingNext(trades, Loss);
      HavingNext(trades, Scratch);
    }
  }

  lemma TotalAppend(trades: seq<Trade>, t: Trade)
    ensures TotalR(trades + [t]) == TotalR(trades) + t.rMultiple
  {
    assert (trades + [t])[..|trades|] == trades;
  }

  function EquityCurve(trades: seq<Trade>): seq<real> {
    seq(|trades| + 1, k requires 0 <= k <= |trades| => Equity(trades, k))
  }

  /** `drop` is the largest of curve_i - curve_j over all i <= j. */
  ghost predicate IsLargestDrop(curve: seq<real>, drop: real) {
    && (forall i, j :: 0 <= i <= j < |curve| ==> curve[i] - curve[j] <= drop)
    && (exists i, j :: 0 <= i <= j < |curve| && drop == curve[i] - curve[j])
  }

  ghost predicate DropsWithin(curve: seq<real>, n: nat, drop: real)
    requires n <= |curve|
  {
    forall i, j :: 0 <= i <= j < n ==> curve[i] - curve[j] <= drop
  }

  /** Over the first `n` points, `peak` is the highest and `drop` the largest drop; the naturals say where. */
  ghost predicate Tracks(curve: seq<real>, n: nat, peak: real, drop: real, top: nat, from: nat, to: nat)
    requires n <= |curve|
  {
    && top < n && peak == curve[top] && (forall i :: 0 <= i < n ==> curve[i] <= peak)
    && from <= to < n && drop == curve[from] - curve[to] && DropsWithin(curve, n, drop)
  }

  lemma TracksOneMore(curve: seq<real>, n: nat, peak: real, drop: real, top: nat, from: nat, to: nat)
    returns (top': nat, from': nat, to': nat)
    requires n < |curve| && Tracks(curve, n, peak, drop, top, from, to)
    ensures var higher := Max(peak, curve[n]);
            Tracks(curve, n + 1, higher, Max(drop, higher - curve[n]), top', from', to')
  {
    top' := if curve[n] > peak then n else top;
    from', to' := from, to;
    if Max(peak, curve[n]) - curve[n] > drop { from', to' := top', n; }
  }

  lemma EquityNext(trades: seq<Trade>, k: nat)
    requires k < |trades|
    ensures EquityCurve(trades)[k + 1] == EquityCurve(trades)[k] + trades[k].rMultiple
  {}

  /** The one-pass drawdown is the largest drop from any point of the equity curve to any later one. */
  method MaxDrawdown(trades: seq<Trade>) returns (maxDd: real)
    ensures IsLargestDrop(EquityCurve(trades), maxDd)
  {
    ghost var curve := EquityCurve(trades);
    ghost var top: nat, from: nat, to: nat := 0, 0, 0;
    var peak, cumulative := 0.0, 0.0;
    maxDd := 0.0;
    for k := 0 to |trades|
      invariant cumulative == curve[k] && Tracks(curve, k + 1, peak, maxDd, top, from, to)
    {
      EquityNext(trades, k);
      top, from, to := TracksOneMore(curve, k + 1, peak, maxDd, top, from, to);
      cumulative := cumulative + trades[k].rMultiple;
      peak := Max(peak, cumulative);
      maxDd := Max(maxDd, peak - cumulative);
    }
  }

  /** The loop of `run_backtest` over the signals. */
  method ExecuteSignals(config: Config, data: seq<Bar>, signals: seq<Signal>) returns (trades: seq<Trade>)
    requires signals != [] ==> |data| > 0
    ensures trades == TradesOf(Schedule(config, data, signals, -1))
  {
    trades := [];
    var openUntil: int := -1;
    ghost var fills: seq<Fill> := [];
    for i := 0 to |signals|
      invariant fills + Schedule(config, data, signals[i..], openUntil) == Schedule(config, data, signals, -1)
      invariant trades == TradesOf(fills)
    {
      var signal := signals[i];
      ghost var rest := signals[i..];
      assert rest[0] == signal && rest[1..] == signals[i + 1..];
      if signal.index > openUntil {
        var trade := SimulateOne(config, signal, data);
        ghost var f := Fill(signal, trade);
        assert fills + ([f] + Schedule(config, data, rest[1..], FillEnd(f)))
            == (fills + [f]) + Schedule(config, data, rest[1..], FillEnd(f));
        trades := trades + [trade];
        fills := fills + [f];
        openUntil := signal.index + trade.barsHeld;
      }
    }
    assert fills + [] == fills;
  }

  /** What the aggregates of a result say about its trades. */
  ghost predicate Summarizes(trades: seq<Trade>, result: BacktestResult) {
    && result.trades == trades && result.tradesCount == |trades|
    && result.winCount == |Having(trades, Win)| && result.lossCount == |Having(trades, Loss)|
    && result.winCount + result.lossCount + result.scratchCount == |trades|
    && result.totalR == Equity(trades, |trades|)
    && IsLargestDrop(EquityCurve(trades), result.maxDrawdownR)
    && (result.profitFactor.Undefined? <==> result.winCount == 0 && result.lossCount == 0)
    && (result.profitFactor.Infinite? <==> result.winCount > 0 && result.lossCount == 0)
    && (result.profitFactor.Ratio? ==>
          Scaled(result.profitFactor.value, -TotalR(Having(trades, Loss)))
            == TotalR(Having(trades, Win)))
    && (result.profitFactor.Ratio? ==> (result.profitFactor.value > 1.0 <==> result.totalR > 0.0))
    && result.avgR == Mean(result.totalR, |trades|)
    && result.winRate == Mean(result.winCount as real, |trades|)
    && result.avgBarsHeld == Mean(BarsHeldSum(trades) as real, |trades|)
  }

  function ProfitFactorOf(trades: seq<Trade>): ProfitFactor {
    var grossWin, grossLoss := TotalR(Having(trades, Win)), Abs(TotalR(Having(trades, Loss)));
    if grossLoss > 0.0 then Ratio(grossWin / grossLoss) else if grossWin == 0.0 then Undefined else Infinite
  }

  function Scaled(factor: real, amount: real): real {
    factor * amount
  }

  /** The profit factor is what the gross loss must be scaled by to give the gross win. */
  lemma ProfitFactorMeaning(trades: seq<Trade>)
    ensures var pf := ProfitFactorOf(trades);
            var wins, losses := |Having(trades, Win)|, |Having(trades, Loss)|;
            && (pf.Undefined? <==> wins == 0 && losses == 0)
            && (pf.Infinite? <==> wins > 0 && losses == 0)
            && (pf.Ratio? ==> Scaled(pf.value, -TotalR(Having(trades, Loss))) == TotalR(Having(trades, Win)))
            && (pf.Ratio? ==> (pf.value > 1.0 <==> TotalR(trades) > 0.0))
  {
    OutcomesPartition(trades);
    var grossWin, grossLoss := TotalR(Having(trades, Win)), Abs(TotalR(Having(trades, Loss)));
    if grossLoss > 0.0 {
      RatioAboveOne(grossWin, grossLoss);
    }
  }

  function Mean(sum: real, n: nat): (mean: real)
    ensures n > 0 ==> mean * (n as real) == sum
  {
    if n > 0 then sum / (n as real) else 0.0
  }

  /** `run_backtest`: simulate, then aggregate. */
  method RunBacktest(config: Config, candles: seq<Candle>, signals: seq<Signal>) returns (result: BacktestResult)
    requires signals != [] ==> |candles| > 0
    ensures result.totalSignals == |signals|
    ensures Summarizes(TradesOf(Schedule(config, ComputeIndicators(candles), signals, -1)), result)
  {
    var trades := ExecuteSignals(config, ComputeIndicators(candles), signals);
    var maxDd := MaxDrawdown(trades);
    result := Summary(trades, |signals|, maxDd);
    SummaryIsRight(trades, |signals|, maxDd);
  }

  function Summary(trades: seq<Trade>, totalSignals: nat, maxDd: real): BacktestResult {
    var wins, losses, scratches := Having(trades, Win), Having(trades, Loss), Having(trades, Scratch);
    var n, totalR := |trades|, TotalR(trades);
    BacktestResult(totalSignals, n, |wins|, |losses|, |scratches|, Mean(|wins| as real, n), Mean(totalR, n),
                   totalR, ProfitFactorOf(trades), maxDd, Mean(BarsHeldSum(trades) as real, n), trades)
  }

  lemma SummaryIsRight(trades: seq<Trade>, totalSignals: nat, maxDd: real)
    requires IsLargestDrop(EquityCurve(trades), maxDd)
    ensures Summarizes(trades, Summary(trades, totalSignals, maxDd))
  {
    OutcomesPartition(trades);
    ProfitFactorMeaning(trades);
    EquityEndsAtTotal(trades);
  }

  lemma RatioAboveOne(a: real, b: real)
    requires b > 0.0
    ensures (a / b > 1.0 <==> a - b > 0.0) && Scaled(a / b, b) == a
  {
    DivOrder(b, a, b);
    DivOrder(a, b, b);
    assert b / b == 1.0;
  }

  lemma {:induction false} SumsBetween(trades: seq<Trade>, lo: real, hi: real, least: int, most: int)
    requires forall i :: 0 <= i < |trades| ==> lo <= trades[i].rMultiple <= hi && least <= trades[i].barsHeld <= most
    ensures Scaled(lo, |trades| as real) <= TotalR(trades) <= Scaled(hi, |trades| as real)
    ensures Scaled(least as real, |trades| as real) <= BarsHeldSum(trades) as real
    ensures BarsHeldSum(trades) as real <= Scaled(most as real, |trades| as real)
  {
    if trades != [] {
      var n := |trades| - 1;
      SumsBetween(trades[..n], lo, hi, least, most);
      OneFactorMore(lo, n);
      OneFactorMore(hi, n);
      OneFactorMore(least as real, n);
      OneFactorMore(most as real, n);
    }
  }

  lemma OneFactorMore(x: real, n: nat)
    ensures Scaled(x, (n + 1) as real) == Scaled(x, n as real) + x
  {}

  lemma MeanBetween(sum: real, n: nat, lo: real, hi: real)
    requires n > 0 && Scaled(lo, n as real) <= sum <= Scaled(hi, n as real)
    ensures lo <= Mean(sum, n) <= hi
  {
    var q, m := sum / n as real, n as real;
    assert q * m == sum;
    DivOrder(Scaled(lo, m), sum, m);
    DivOrder(sum, Scaled(hi, m), m);
    assert Scaled(lo, m) / m == lo && Scaled(hi, m) / m == hi;
  }

  /** The averages of a report lie between any bounds on its trades, and are zero without trades. */
  lemma AveragesBetween(trades: seq<Trade>, totalSignals: nat, maxDd: real, lo: real, hi: real, least: int, most: int)
    requires forall i :: 0 <= i < |trades| ==> lo <= trades[i].rMultiple <= hi && least <= trades[i].barsHeld <= most
    ensures var r := Summary(trades, totalSignals, maxDd);
            if trades == [] then r.avgR == r.avgBarsHeld == 0.0
            else lo <= r.avgR <= hi && least as real <= r.avgBarsHeld <= most as real
  {
    if trades != [] {
      SumsBetween(trades, lo, hi, least, most);
      MeanBetween(TotalR(trades), |trades|, lo, hi);
      MeanBetween(BarsHeldSum(trades) as real, |trades|, least as real, most as real);
    }
  }
}
