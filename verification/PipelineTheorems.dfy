/**
 The strategy end to end, from candles through detection to the backtest:
 bounds, no look-ahead across the whole pipeline, and long/short symmetry.
 */
module PipelineTheorems {
  import opened Wrappers
  import opened MarketTypes
  import opened TradeSimulator
  import opened TradeTheorems
  import opened StrategyCore
  import opened StrategyTheorems
  import opened Backtest

  /** The fills of backtesting the signals detected on the same candles. */
  function StrategyFills(config: Config, p: DetectParams, cs: seq<Candle>): seq<Fill> {
    DetectedOnBars(p, cs);
    Schedule(config, ComputeIndicators(cs), Detect(p, cs), -1)
  }

  lemma DetectedOnBars(p: DetectParams, cs: seq<Candle>)
    ensures OnBars(ComputeIndicators(cs), Detect(p, cs))
    ensures Detect(p, cs) != [] ==> |cs| > 0
    ensures SortedByIndex(Detect(p, cs))
    ensures Positioned(Entries(p, ComputeIndicators(cs)))
  {
    DetectedSignals(p, cs);
    var entries := Entries(p, ComputeIndicators(cs));
    EntriesPositioned(p, ComputeIndicators(cs));
    CollectEntries(entries, |cs|);
    AtLeastKeepsOrder(Collect(entries, |cs|), QualityFloor(p));
    if Detect(p, cs) != [] {
      assert Detect(p, cs)[0] in Detect(p, cs);
    }
  }

  lemma {:induction false} AtLeastKeepsOrder(signals: seq<Signal>, min: real)
    requires forall a, b :: 0 <= a < b < |signals| ==> signals[a].index < signals[b].index
    ensures SortedByIndex(AtLeast(signals, min))
  {
    if signals != [] {
      var rest, last := signals[..|signals| - 1], signals[|signals| - 1];
      AtLeastKeepsOrder(rest, min);
      AtLeastSub(rest, min);
      forall a | 0 <= a < |AtLeast(rest, min)| ensures AtLeast(rest, min)[a].index <= last.index {
        assert AtLeast(rest, min)[a] in rest;
      }
    }
  }

  // ------------------------------------------------------------------------
  // Bounds
  // ------------------------------------------------------------------------

  ghost predicate Consistent(cs: seq<Candle>) {
    forall k :: 0 <= k < |cs| ==> ConsistentCandle(cs[k])
  }

  /** A fill is the simulation of a detected signal on the indicator bars. */
  ghost predicate FromSignal(config: Config, p: DetectParams, cs: seq<Candle>, f: Fill) {
    f.signal in Detect(p, cs) && f.signal.index < |cs| && f.trade == Simulate(config, f.signal, ComputeIndicators(cs))
  }

  lemma FillOrigin(config: Config, p: DetectParams, cs: seq<Candle>, a: nat)
    ensures a < |StrategyFills(config, p, cs)| ==> FromSignal(config, p, cs, StrategyFills(config, p, cs)[a])
  {
    DetectedOnBars(p, cs);
    if a < |StrategyFills(config, p, cs)| { FillFacts(config, ComputeIndicators(cs), Detect(p, cs), a); }
  }

  lemma FillFacts(config: Config, bars: seq<Bar>, signals: seq<Signal>, a: nat)
    requires OnBars(bars, signals) && (signals != [] ==> |bars| > 0)
    requires a < |Schedule(config, bars, signals, -1)|
    ensures var f := Schedule(config, bars, signals, -1)[a];
            f.signal in signals && |bars| > 0 && f.trade == Simulate(config, f.signal, bars)
  {
    FillsAreDisjoint(config, bars, signals, -1);
  }

  /** A loss of at most 1R and, without partial exits, a win of at most the reward-to-risk ratio. */
  ghost predicate Bounded(config: Config, p: DetectParams, t: Trade) {
    t.rMultiple >= -1.0 && (!config.partialMode ==> t.rMultiple <= p.rewardRisk)
  }

  lemma FillBounds(config: Config, p: DetectParams, cs: seq<Candle>, a: nat)
    requires p.rewardRisk > 0.0 && Consistent(cs)
    ensures a < |StrategyFills(config, p, cs)| ==> Bounded(config, p, StrategyFills(config, p, cs)[a].trade)
  {
    if a < |StrategyFills(config, p, cs)| {
      FillOrigin(config, p, cs, a);
      DetectedSignals(p, cs);
      SignalBounds(config, p, cs, StrategyFills(config, p, cs)[a].signal);
    }
  }

  lemma SignalBounds(config: Config, p: DetectParams, cs: seq<Candle>, s: Signal)
    requires p.rewardRisk > 0.0 && Consistent(cs) && s.index < |cs|
    ensures EntryAt(p, IndicatorBar(cs, s.index), s.index) == Some(s) ==>
              Bounded(config, p, Simulate(config, s, ComputeIndicators(cs)))
  {
    if EntryAt(p, IndicatorBar(cs, s.index), s.index) == Some(s) {
      var bars := ComputeIndicators(cs);
      EntryIsWellPosed(p, bars[s.index], s.index);
      forall k | s.index <= k < |bars| ensures ConsistentBar(bars[k]) { assert ConsistentCandle(cs[k]); }
      LockIn(config, s, bars);
      if !config.partialMode { FullExitCap(config, s, bars); }
    }
  }

  /**
   On consistent candles with a positive reward-to-risk ratio, every executed trade loses at most 1R and, without
   partial exits, wins at most the ratio. Every detected signal is executed or lies inside an executed trade.
   */
  lemma StrategyBounds(config: Config, p: DetectParams, cs: seq<Candle>)
    requires p.rewardRisk > 0.0 && Consistent(cs)
    ensures var fills := StrategyFills(config, p, cs);
            && (forall a :: 0 <= a < |fills| ==> Bounded(config, p, fills[a].trade))
            && (forall s :: s in Detect(p, cs) ==> Covered(fills, s))
  {
    var fills := StrategyFills(config, p, cs);
    forall a | 0 <= a < |fills| ensures Bounded(config, p, fills[a].trade) {
      FillBounds(config, p, cs, a);
    }
    forall s | s in Detect(p, cs) ensures Covered(fills, s) {
      DetectedOnBars(p, cs);
      var j :| 0 <= j < |Detect(p, cs)| && Detect(p, cs)[j] == s;
      SkippedAreCovered(config, ComputeIndicators(cs), Detect(p, cs), -1, j);
    }
  }

  // ------------------------------------------------------------------------
  // No look-ahead
  // ------------------------------------------------------------------------

  lemma {:induction false} NothingPast(config: Config, bars: seq<Bar>, signals: seq<Signal>, openUntil: int)
    requires signals != [] ==> |bars| > 0
    requires forall s :: s in signals ==> s.index <= openUntil
    ensures Schedule(config, bars, signals, openUntil) == []
  {
    if signals != [] {
      assert signals[0] in signals;
      assert signals == [signals[0]] + signals[1..];
      NothingPast(config, bars, signals[1..], openUntil);
    }
  }

  /** Fills of the first `m` signals on the first `n` bars that did not run out of data are fills of the whole run. */
  lemma {:induction false} ScheduleIsCausal(config: Config, bars: seq<Bar>, n: nat, signals: seq<Signal>, m: nat,
                                            openUntil: int, a: nat)
    requires 0 < n <= |bars| && m <= |signals|
    requires forall s :: s in signals[..m] ==> s.index < n
    requires var early := Schedule(config, bars[..n], signals[..m], openUntil);
             a < |early| && early[a].trade.exitReason != EndOfData
    ensures var early, full := Schedule(config, bars[..n], signals[..m], openUntil),
                               Schedule(config, bars, signals, openUntil);
            a < |full| && full[a] == early[a]
    decreases m
  {
    var early, full := Schedule(config, bars[..n], signals[..m], openUntil), Schedule(config, bars, signals, openUntil);
    var s := signals[0];
    assert signals[..m][0] == s && signals[..m][1..] == signals[1..][..m - 1];
    assert s in signals[..m];
    assert signals[..m] == [s] + signals[1..][..m - 1];
    if s.index <= openUntil {
      ScheduleIsCausal(config, bars, n, signals[1..], m - 1, openUntil, a);
    } else {
      var t := Simulate(config, s, bars[..n]);
      SimulatedSpan(config, s, bars[..n]);
      if t.exitReason == EndOfData {
        RunAccounts(config, s, bars[..n], s.index, Opening(s));
        NothingPast(config, bars[..n], signals[1..][..m - 1], ExitIndex(s, t));
      } else {
        var e := ExitIndex(s, t);
        assert bars[..n][..e + 1] == bars[..e + 1];
        Causality(config, s, bars[..n], bars);
        if a > 0 {
          ScheduleIsCausal(config, bars, n, signals[1..], m - 1, e, a - 1);
        }
      }
    }
  }

  /** On index-sorted signals, those before bar `k` are a prefix. */
  lemma {:induction false} BeforeIsPrefix(signals: seq<Signal>, k: nat) returns (m: nat)
    requires SortedByIndex(signals)
    ensures m <= |signals| && Before(signals, k) == signals[..m]
    ensures forall i :: 0 <= i < |signals| ==> (signals[i].index < k <==> i < m)
  {
    m := 0;
    if signals != [] {
      var n := |signals| - 1;
      if signals[n].index < k {
        m := n + 1;
        BeforeId(signals, k);
      } else {
        m := BeforeIsPrefix(signals[..n], k);
        assert signals[..n][..m] == signals[..m];
      }
    }
  }

  /**
   Walk-forward: run the whole pipeline on the first `n` candles only. Every trade it closes for a reason other than
   running out of data is the same trade, at the same place, in the run over all candles.
   */
  lemma PipelineIsCausal(config: Config, p: DetectParams, cs: seq<Candle>, n: nat, a: nat)
    requires n <= |cs|
    ensures var early, full := StrategyFills(config, p, cs[..n]), StrategyFills(config, p, cs);
            a < |early| && early[a].trade.exitReason != EndOfData ==> a < |full| && full[a] == early[a]
  {
    var early := StrategyFills(config, p, cs[..n]);
    if a < |early| && early[a].trade.exitReason != EndOfData {
      var bars, signals := ComputeIndicators(cs), Detect(p, cs);
      DetectedOnBars(p, cs);
      DetectedOnBars(p, cs[..n]);
      IndicatorsArePrefixClosed(cs, n);
      DetectionIsCausal(p, cs, n);
      var m := BeforeIsPrefix(signals, n);
      ScheduleIsCausal(config, bars, n, signals, m, -1, a);
    }
  }

  // ------------------------------------------------------------------------
  // Long/short mirror
  // ------------------------------------------------------------------------

  function MirrorCandle(K: real, c: Candle): Candle {
    Candle(K - c.open, K - c.low, K - c.high, K - c.close)
  }

  function MirrorCandles(K: real, cs: seq<Candle>): (r: seq<Candle>)
    ensures |r| == |cs| && forall t :: 0 <= t < |cs| ==> r[t] == MirrorCandle(K, cs[t])
  {
    seq(|cs|, t requires 0 <= t < |cs| => MirrorCandle(K, cs[t]))
  }

  lemma BlendMirror(K: real, alpha: real, prior: real, next: real)
    ensures Blend(alpha, K - prior, K - next) == K - Blend(alpha, prior, next)
  {}

  /** Reflecting the candles reflects the EMAs, keeps the ATR, and swaps average gain and loss. */
  lemma {:induction false} SeriesMirror(K: real, cs: seq<Candle>, span: nat, window: nat, t: nat)
    requires span > 0 && window > 0 && t < |cs|
    ensures Ema(MirrorCandles(K, cs), span, t) == K - Ema(cs, span, t)
    ensures Atr(MirrorCandles(K, cs), window, t) == Atr(cs, window, t)
    ensures t > 0 ==> AvgGain(MirrorCandles(K, cs), window, t) == AvgLoss(cs, window, t)
    ensures t > 0 ==> AvgLoss(MirrorCandles(K, cs), window, t) == AvgGain(cs, window, t)
  {
    var ms := MirrorCandles(K, cs);
    TrueRangeMirror(K, cs, t);
    if t > 0 {
      SeriesMirror(K, cs, span, window, t - 1);
      BlendMirror(K, SpanAlpha(span), Ema(cs, span, t - 1), cs[t].close);
      assert UpMove(ms, t) == DownMove(cs, t) && DownMove(ms, t) == UpMove(cs, t);
    }
  }

  lemma TrueRangeMirror(K: real, cs: seq<Candle>, t: nat)
    requires t < |cs|
    ensures TrueRange(MirrorCandles(K, cs), t) == TrueRange(cs, t)
  {}

  lemma RsiMirror(gain: real, loss: real)
    requires gain >= 0.0 && loss >= 0.0
    ensures RsiOf(loss, gain) == Reflect(100.0, RsiOf(gain, loss))
  {
    if gain + loss > 0.0 {
      RsiAsShare(gain, loss);
      RsiAsShare(loss, gain);
      ShareSum(gain, loss);
      assert gain + loss == loss + gain;
    }
  }

  lemma RsiSeriesMirror(K: real, cs: seq<Candle>, t: nat)
    requires t < |cs|
    ensures Rsi(MirrorCandles(K, cs), RSI_WINDOW, t) == Reflect(100.0, Rsi(cs, RSI_WINDOW, t))
  {
    if t > 0 {
      SeriesMirror(K, cs, 1, RSI_WINDOW, t);
      AveragesNonnegative(cs, RSI_WINDOW, t);
      RsiMirror(AvgGain(cs, RSI_WINDOW, t), AvgLoss(cs, RSI_WINDOW, t));
    }
  }

  lemma IndicatorBarMirror(K: real, cs: seq<Candle>, t: nat)
    requires t < |cs|
    ensures IndicatorBar(MirrorCandles(K, cs), t) == MirrorBar(K, IndicatorBar(cs, t))
  {
    SeriesMirror(K, cs, EMA_TREND_SPAN, ATR_WINDOW, t);
    SeriesMirror(K, cs, EMA_FAST_SPAN, ATR_WINDOW, t);
    RsiSeriesMirror(K, cs, t);
    if t > 0 { RsiSeriesMirror(K, cs, t - 1); }
  }

  lemma IndicatorsMirror(K: real, cs: seq<Candle>)
    ensures ComputeIndicators(MirrorCandles(K, cs)) == MirrorBars(K, ComputeIndicators(cs))
  {
    forall t | 0 <= t < |cs|
      ensures IndicatorBar(MirrorCandles(K, cs), t) == MirrorBar(K, IndicatorBar(cs, t))
    {
      IndicatorBarMirror(K, cs, t);
    }
  }

  function MirrorEntry(K: real, e: Option<Signal>): Option<Signal> {
    if e.Some? then Some(MirrorSignal(K, e.value)) else None
  }

  lemma QualityMirror(K: real, d: Direction, b: Bar)
    requires Complete(b)
    ensures QualityAt(Opposite(d), MirrorBar(K, b)) == QualityAt(d, b)
  {
    var m := MirrorBar(K, b);
    assert Abs(m.close - m.ema200.value) == Abs(b.close - b.ema200.value);
    assert Abs(m.rsi.value - m.rsiPrev.value) == Abs(b.rsi.value - b.rsiPrev.value);
  }

  lemma StopsMirror(p: DetectParams, K: real, b: Bar)
    requires Complete(b)
    ensures ShortStop(p, MirrorBar(K, b)) == K - LongStop(p, b)
    ensures LongStop(p, MirrorBar(K, b)) == K - ShortStop(p, b)
  {}

  lemma TargetMirror(K: real, ratio: real, close: real, stop: real)
    ensures K - (close + ratio * (close - stop)) == (K - close) - ratio * ((K - stop) - (K - close))
  {
    assert (K - stop) - (K - close) == close - stop;
  }

  lemma EntryMirror(p: DetectParams, K: real, b: Bar, i: nat)
    requires p.shortRsiMin <= Overbought(p.rsiZone)
    ensures EntryAt(p, MirrorBar(K, b), i) == MirrorEntry(K, EntryAt(p, b, i))
  {
    if Complete(b) {
      if b.rsiPrev.value <= Oversold(p.rsiZone) {
        LongTurnsShort(p, K, b, i);
      }
      if b.rsiPrev.value >= Overbought(p.rsiZone) {
        ShortTurnsLong(p, K, b, i);
      }
    }
  }

  lemma LongTurnsShort(p: DetectParams, K: real, b: Bar, i: nat)
    requires Complete(b) && p.shortRsiMin <= Overbought(p.rsiZone) && b.rsiPrev.value <= Oversold(p.rsiZone)
    ensures ShortEntry(p, MirrorBar(K, b), i) == MirrorEntry(K, LongEntry(p, b, i))
  {
    QualityMirror(K, Long, b);
    StopsMirror(p, K, b);
    TargetMirror(K, p.rewardRisk, b.close, LongStop(p, b));
    var m := MirrorBar(K, b);
    assert ShortAllowed(p, m) == LongAllowed(p, b);
    assert ShortEntry(p, m, i).Some? ==> ShortEntry(p, m, i).value == MirrorSignal(K, LongEntry(p, b, i).value);
  }

  lemma ShortTurnsLong(p: DetectParams, K: real, b: Bar, i: nat)
    requires Complete(b) && p.shortRsiMin <= Overbought(p.rsiZone) && b.rsiPrev.value >= Overbought(p.rsiZone)
    ensures LongEntry(p, MirrorBar(K, b), i) == MirrorEntry(K, ShortEntry(p, b, i))
  {
    QualityMirror(K, Short, b);
    StopsMirror(p, K, b);
    TargetMirror(K, -p.rewardRisk, b.close, ShortStop(p, b));
    assert (-p.rewardRisk) * (b.close - ShortStop(p, b)) == p.rewardRisk * (ShortStop(p, b) - b.close);
    var m := MirrorBar(K, b);
    assert (-p.rewardRisk) * (m.close - LongStop(p, m)) == p.rewardRisk * (LongStop(p, m) - m.close);
    assert LongAllowed(p, m) == ShortAllowed(p, b);
    assert LongEntry(p, m, i).Some? ==> LongEntry(p, m, i).value == MirrorSignal(K, ShortEntry(p, b, i).value);
  }

  function MirrorSignals(K: real, signals: seq<Signal>): (r: seq<Signal>)
    ensures |r| == |signals| && forall k :: 0 <= k < |signals| ==> r[k] == MirrorSignal(K, signals[k])
  {
    seq(|signals|, k requires 0 <= k < |signals| => MirrorSignal(K, signals[k]))
  }

  lemma {:induction false} CollectMirror(K: real, entries: seq<Option<Signal>>, mirrored: seq<Option<Signal>>, k: nat)
    requires k <= |entries| == |mirrored|
    requires forall i :: 0 <= i < |entries| ==> mirrored[i] == MirrorEntry(K, entries[i])
    ensures Collect(mirrored, k) == MirrorSignals(K, Collect(entries, k))
  {
    if k > WARMUP_BARS {
      CollectMirror(K, entries, mirrored, k - 1);
    }
  }

  lemma {:induction false} AtLeastMirror(K: real, signals: seq<Signal>, min: real)
    ensures AtLeast(MirrorSignals(K, signals), min) == MirrorSignals(K, AtLeast(signals, min))
  {
    if signals != [] {
      var rest := signals[..|signals| - 1];
      AtLeastMirror(K, rest, min);
      assert MirrorSignals(K, signals)[..|signals| - 1] == MirrorSignals(K, rest);
    }
  }

  /** Detection on the reflected candles finds the reflected signals. */
  lemma DetectMirror(p: DetectParams, K: real, cs: seq<Candle>)
    requires p.shortRsiMin <= Overbought(p.rsiZone)
    ensures Detect(p, MirrorCandles(K, cs)) == MirrorSignals(K, Detect(p, cs))
  {
    var entries := Entries(p, ComputeIndicators(cs));
    var mirrored := Entries(p, ComputeIndicators(MirrorCandles(K, cs)));
    IndicatorsMirror(K, cs);
    forall i | 0 <= i < |cs| ensures mirrored[i] == MirrorEntry(K, entries[i]) {
      EntryMirror(p, K, ComputeIndicators(cs)[i], i);
    }
    CollectMirror(K, entries, mirrored, |cs|);
    AtLeastMirror(K, Collect(entries, |cs|), QualityFloor(p));
  }

  function MirrorFill(K: real, f: Fill): Fill {
    Fill(MirrorSignal(K, f.signal), MirrorTrade(K, f.trade))
  }

  function MirrorFills(K: real, fills: seq<Fill>): (r: seq<Fill>)
    ensures |r| == |fills| && forall k :: 0 <= k < |fills| ==> r[k] == MirrorFill(K, fills[k])
  {
    seq(|fills|, k requires 0 <= k < |fills| => MirrorFill(K, fills[k]))
  }

  lemma {:induction false} ScheduleMirror(config: Config, K: real, bars: seq<Bar>, signals: seq<Signal>, openUntil: int)
    requires signals != [] ==> |bars| > 0
    ensures Schedule(config, MirrorBars(K, bars), MirrorSignals(K, signals), openUntil)
         == MirrorFills(K, Schedule(config, bars, signals, openUntil))
  {
    if signals != [] {
      var s, rest := signals[0], signals[1..];
      assert MirrorSignals(K, signals)[1..] == MirrorSignals(K, rest);
      LongShortMirror(config, K, s, bars);
      if s.index <= openUntil {
        ScheduleMirror(config, K, bars, rest, openUntil);
      } else {
        ScheduleMirror(config, K, bars, rest, FillEnd(Fill(s, Simulate(config, s, bars))));
      }
    }
  }

  lemma FillsMirror(config: Config, p: DetectParams, K: real, cs: seq<Candle>)
    requires p.shortRsiMin <= Overbought(p.rsiZone)
    ensures StrategyFills(config, p, MirrorCandles(K, cs)) == MirrorFills(K, StrategyFills(config, p, cs))
  {
    DetectMirror(p, K, cs);
    IndicatorsMirror(K, cs);
    DetectedOnBars(p, cs);
    ScheduleMirror(config, K, ComputeIndicators(cs), Detect(p, cs), -1);
  }

  lemma {:induction false} SameEquity(a: seq<Trade>, b: seq<Trade>, k: nat)
    requires |a| == |b| && k <= |a|
    requires forall i :: 0 <= i < |a| ==> a[i].rMultiple == b[i].rMultiple
    ensures Equity(a, k) == Equity(b, k)
  {
    if k > 0 {
      SameEquity(a, b, k - 1);
    }
  }

  lemma FillsMirrorEquity(K: real, fills: seq<Fill>)
    ensures EquityCurve(TradesOf(MirrorFills(K, fills))) == EquityCurve(TradesOf(fills))
  {
    var a, b := TradesOf(fills), TradesOf(MirrorFills(K, fills));
    forall k | 0 <= k <= |fills| ensures Equity(a, k) == Equity(b, k) {
      SameEquity(a, b, k);
    }
  }

  /**
   Long/short symmetry of the whole pipeline: on the reflected candles the strategy takes the reflected trades, and
   its equity curve, hence its total and its drawdown, is the same.
   */
  lemma StrategyMirror(config: Config, p: DetectParams, K: real, cs: seq<Candle>)
    requires p.shortRsiMin <= Overbought(p.rsiZone)
    ensures var fills, mirrored := StrategyFills(config, p, cs), StrategyFills(config, p, MirrorCandles(K, cs));
            && mirrored == MirrorFills(K, fills)
            && EquityCurve(TradesOf(mirrored)) == EquityCurve(TradesOf(fills))
  {
    FillsMirror(config, p, K, cs);
    FillsMirrorEquity(K, StrategyFills(config, p, cs));
  }
}
