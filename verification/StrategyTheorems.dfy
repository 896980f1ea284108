/**
 Properties of the indicators and of signal detection: ranges, causality
 (no look-ahead), well-posed entries, and the long/short symmetry of the scan.
 */
module StrategyTheorems {
  import opened Wrappers
  import opened MarketTypes
  import opened StrategyCore
  import TS = TradeSimulator
  import TT = TradeTheorems

  // ------------------------------------------------------------------------
  // Ranges
  // ------------------------------------------------------------------------

  /** The EMA stays between any bounds on the closes seen so far, in particular their minimum and maximum. */
  lemma {:induction false} EmaWithinRange(cs: seq<Candle>, span: nat, t: nat, lo: real, hi: real)
    requires span > 0 && t < |cs|
    requires forall k :: 0 <= k <= t ==> lo <= cs[k].close <= hi
    ensures lo <= Ema(cs, span, t) <= hi
  {
    if t > 0 {
      EmaWithinRange(cs, span, t - 1, lo, hi);
      SpanAlphaBounds(span);
      BlendBelow(SpanAlpha(span), Ema(cs, span, t - 1), cs[t].close, lo);
      BlendAbove(SpanAlpha(span), Ema(cs, span, t - 1), cs[t].close, hi);
    }
  }

  /** ATR is never negative; only the first bar needs low <= high. */
  lemma {:induction false} AtrNonnegative(cs: seq<Candle>, window: nat, t: nat)
    requires window > 0 && t < |cs| && cs[0].low <= cs[0].high
    ensures Atr(cs, window, t) >= 0.0
  {
    if t > 0 {
      AtrNonnegative(cs, window, t - 1);
      WindowAlphaBounds(window);
      BlendBelow(WindowAlpha(window), Atr(cs, window, t - 1), TrueRange(cs, t), 0.0);
    }
  }

  /** RSI as a share: gains over gains plus losses. */
  lemma RsiAsShare(gain: real, loss: real)
    requires gain >= 0.0 && loss >= 0.0 && gain + loss > 0.0
    ensures RsiOf(gain, loss) == Some(100.0 * (gain / (gain + loss)))
    ensures 0.0 <= gain / (gain + loss) <= 1.0
  {
    var total := gain + loss;
    ShareBounds(gain, total);
    if loss > 0.0 {
      var rs := gain / loss;
      assert rs * loss == gain;
      assert (1.0 + rs) * loss == total;
      QuotientOf(loss, total, 1.0 + rs);
      assert 1.0 / (1.0 + rs) == loss / total;
      ShareSum(gain, loss);
      assert 100.0 / (1.0 + rs) == 100.0 * (1.0 / (1.0 + rs));
    }
  }

  lemma ShareBounds(part: real, total: real)
    requires 0.0 <= part <= total && total > 0.0
    ensures 0.0 <= part / total <= 1.0
  {
    TT.DivOrder(0.0, part, total);
    TT.DivOrder(part, total, total);
    assert total / total == 1.0;
  }

  lemma ShareSum(a: real, b: real)
    requires a + b > 0.0
    ensures a / (a + b) + b / (a + b) == 1.0
  {
    var x, y := a / (a + b), b / (a + b);
    assert x * (a + b) == a && y * (a + b) == b;
    assert (x + y) * (a + b) == a + b;
  }

  lemma QuotientOf(part: real, total: real, q: real)
    requires q > 0.0 && total > 0.0 && q * part == total
    ensures 1.0 / q == part / total
  {
    var x, y := 1.0 / q, part / total;
    assert x * q == 1.0;
    assert y * total == part;
    assert x * total == x * q * part;
    assert (x - y) * total == 0.0;
  }

  /** RSI lies in [0, 100] wherever it is defined, and is undefined exactly on a market that never moved. */
  lemma RsiInRange(cs: seq<Candle>, window: nat, t: nat)
    requires window > 0 && t < |cs|
    ensures Rsi(cs, window, t).Some? ==> 0.0 <= Rsi(cs, window, t).value <= 100.0
    ensures Rsi(cs, window, t).None? <==> t == 0 || AvgGain(cs, window, t) == AvgLoss(cs, window, t) == 0.0
  {
    if t > 0 {
      AveragesNonnegative(cs, window, t);
      var g, l := AvgGain(cs, window, t), AvgLoss(cs, window, t);
      if g + l > 0.0 {
        RsiAsShare(g, l);
      }
    }
  }

  /** The cap at 100 in `signal_quality` never bites. */
  lemma QualityCapRedundant(direction: Direction, close: real, ema200: real, ema50: real, rsi: real, rsiPrev: real,
                            atr: real, open: real)
    requires atr > 0.0
    ensures SignalQuality(direction, close, ema200, ema50, rsi, rsiPrev, atr, open)
         == RawQuality(direction, close, ema200, ema50, rsi, rsiPrev, atr, open)
    ensures 0.0 <= RawQuality(direction, close, ema200, ema50, rsi, rsiPrev, atr, open) <= 100.0
  {
    TT.DivOrder(0.0, Abs(close - ema200), atr);
    assert 0.0 / atr == 0.0;
  }

  // ------------------------------------------------------------------------
  // No look-ahead
  // ------------------------------------------------------------------------

  lemma {:induction false} SeriesArePrefixClosed(cs: seq<Candle>, n: nat, t: nat)
    requires t < n <= |cs|
    ensures Ema(cs[..n], EMA_TREND_SPAN, t) == Ema(cs, EMA_TREND_SPAN, t)
    ensures Ema(cs[..n], EMA_FAST_SPAN, t) == Ema(cs, EMA_FAST_SPAN, t)
    ensures Atr(cs[..n], ATR_WINDOW, t) == Atr(cs, ATR_WINDOW, t)
    ensures t > 0 ==> AvgGain(cs[..n], RSI_WINDOW, t) == AvgGain(cs, RSI_WINDOW, t)
    ensures t > 0 ==> AvgLoss(cs[..n], RSI_WINDOW, t) == AvgLoss(cs, RSI_WINDOW, t)
    ensures Rsi(cs[..n], RSI_WINDOW, t) == Rsi(cs, RSI_WINDOW, t)
  {
    if t > 0 {
      SeriesArePrefixClosed(cs, n, t - 1);
    }
  }

  /** The indicator rows of a prefix of the candles are a prefix of the indicator rows. */
  lemma IndicatorsArePrefixClosed(cs: seq<Candle>, n: nat)
    requires n <= |cs|
    ensures ComputeIndicators(cs[..n]) == ComputeIndicators(cs)[..n]
  {
    forall t | 0 <= t < n ensures IndicatorBar(cs[..n], t) == IndicatorBar(cs, t) {
      SeriesArePrefixClosed(cs, n, t);
      if t > 0 { SeriesArePrefixClosed(cs, n, t - 1); }
    }
  }

  lemma {:induction false} CollectIsPrefixClosed(entries: seq<Option<Signal>>, n: nat, k: nat)
    requires k <= n <= |entries|
    ensures Collect(entries[..n], k) == Collect(entries, k)
  {
    if k > WARMUP_BARS {
      CollectIsPrefixClosed(entries, n, k - 1);
    }
  }

  /** The signals whose bar lies before `k`. */
  function Before(signals: seq<Signal>, k: nat): seq<Signal> {
    if signals == [] then []
    else
      var last := signals[|signals| - 1];
      Before(signals[..|signals| - 1], k) + (if last.index < k then [last] else [])
  }

  lemma FiltersAppend(signals: seq<Signal>, s: Signal, k: nat, min: real)
    ensures Before(signals + [s], k) == if s.index < k then Before(signals, k) + [s] else Before(signals, k)
    ensures AtLeast(signals + [s], min)
         == if s.qualityScore >= min then AtLeast(signals, min) + [s] else AtLeast(signals, min)
  {
    assert (signals + [s])[..|signals|] == signals;
  }

  ghost predicate Positioned(entries: seq<Option<Signal>>) {
    forall i :: 0 <= i < |entries| && entries[i].Some? ==> entries[i].value.index == i
  }

  lemma BeforeWhole(entries: seq<Option<Signal>>, n: nat, min: real)
    requires n <= |entries| && Positioned(entries)
    ensures Before(AtLeast(Collect(entries, n), min), n) == AtLeast(Collect(entries, n), min)
  {
    CollectEntries(entries, n);
    AtLeastSub(Collect(entries, n), min);
    var kept := AtLeast(Collect(entries, n), min);
    forall i | 0 <= i < |kept| ensures kept[i].index < n { assert kept[i] in kept; }
    BeforeId(kept, n);
  }

  /** The signals of bars up to `n` that reach the quality floor. */
  function Kept(entries: seq<Option<Signal>>, n: nat, min: real): seq<Signal>
    requires n <= |entries|
  {
    AtLeast(Collect(entries, n), min)
  }

  lemma KeptStep(entries: seq<Option<Signal>>, n: nat, min: real)
    requires WARMUP_BARS < n <= |entries|
    ensures Kept(entries, n, min)
         == var e := entries[n - 1];
            if e.Some? && e.value.qualityScore >= min then Kept(entries, n - 1, min) + [e.value]
            else Kept(entries, n - 1, min)
  {
    if entries[n - 1].Some? {
      FiltersAppend(Collect(entries, n - 1), entries[n - 1].value, 0, min);
    }
  }

  lemma BeforeAppend(signals: seq<Signal>, s: Signal, k: nat)
    requires s.index >= k
    ensures Before(signals + [s], k) == Before(signals, k)
  {
    assert (signals + [s])[..|signals|] == signals;
  }

  lemma {:induction false} BeforeOfScan(entries: seq<Option<Signal>>, n: nat, k: nat, min: real)
    requires k <= n <= |entries| && Positioned(entries)
    ensures Before(Kept(entries, n, min), k) == Kept(entries, k, min)
    decreases n
  {
    if n == k {
      BeforeWhole(entries, n, min);
    } else if n > WARMUP_BARS {
      BeforeOfScan(entries, n - 1, k, min);
      KeptStep(entries, n, min);
      var last, prior := entries[n - 1], Kept(entries, n - 1, min);
      if last.Some? && last.value.qualityScore >= min {
        BeforeAppend(prior, last.value, k);
        assert Kept(entries, n, min) == prior + [last.value];
      } else {
        assert Kept(entries, n, min) == prior;
      }
    } else {
      assert Kept(entries, n, min) == [] && Kept(entries, k, min) == [];
    }
  }

  lemma {:induction false} BeforeId(signals: seq<Signal>, k: nat)
    requires forall i :: 0 <= i < |signals| ==> signals[i].index < k
    ensures Before(signals, k) == signals
  {
    if signals != [] {
      BeforeId(signals[..|signals| - 1], k);
    }
  }

  lemma {:induction false} AtLeastSub(signals: seq<Signal>, min: real)
    ensures forall s :: s in AtLeast(signals, min) <==> s in signals && s.qualityScore >= min
  {
    if signals != [] {
      AtLeastSub(signals[..|signals| - 1], min);
      assert signals == signals[..|signals| - 1] + [signals[|signals| - 1]];
    }
  }

  /** The collected signals are exactly the entries past the warm-up, in bar order. */
  lemma {:induction false} CollectEntries(entries: seq<Option<Signal>>, n: nat)
    requires n <= |entries| && Positioned(entries)
    ensures forall s :: s in Collect(entries, n) <==>
              WARMUP_BARS <= s.index < n && entries[s.index] == Some(s)
    ensures forall a, b :: 0 <= a < b < |Collect(entries, n)| ==>
              Collect(entries, n)[a].index < Collect(entries, n)[b].index
  {
    if n > WARMUP_BARS {
      CollectEntries(entries, n - 1);
      var rest := Collect(entries, n - 1);
      forall s ensures s in Collect(entries, n) <==> WARMUP_BARS <= s.index < n && entries[s.index] == Some(s) {
        assert s in Collect(entries, n) <==> s in rest || entries[n - 1] == Some(s);
      }
      forall a | 0 <= a < |rest| ensures rest[a].index < n - 1 {
        assert rest[a] in rest;
      }
    }
  }

  lemma EntriesPositioned(p: DetectParams, bars: seq<Bar>)
    ensures Positioned(Entries(p, bars))
  {}

  /** No look-ahead: detection on the first `k` candles is the full result restricted to index < k. */
  lemma DetectionIsCausal(p: DetectParams, cs: seq<Candle>, k: nat)
    requires k <= |cs|
    ensures Detect(p, cs[..k]) == Before(Detect(p, cs), k)
  {
    var entries := Entries(p, ComputeIndicators(cs));
    IndicatorsArePrefixClosed(cs, k);
    assert Entries(p, ComputeIndicators(cs[..k])) == entries[..k];
    CollectIsPrefixClosed(entries, k, k);
    EntriesPositioned(p, ComputeIndicators(cs));
    BeforeOfScan(entries, |cs|, k, QualityFloor(p));
  }

  // ------------------------------------------------------------------------
  // What a detected signal is
  // ------------------------------------------------------------------------

  /** An entry is at the close of its bar, reward and risk are in the ratio asked for, the stop is beyond the close. */
  lemma EntryIsWellPosed(p: DetectParams, b: Bar, i: nat)
    requires EntryAt(p, b, i).Some? && p.rewardRisk > 0.0
    ensures var s := EntryAt(p, b, i).value;
            && WellPosed(s) && s.entryPrice == b.close && s.index == i
            && TS.RMultiple(s, s.targetPrice) == p.rewardRisk
  {
    var s := EntryAt(p, b, i).value;
    var risk := Abs(s.entryPrice - s.stopLoss);
    assert risk > 0.0;
    PositiveProduct(p.rewardRisk, risk);
    assert TS.Gain(s.direction, s.entryPrice, s.targetPrice) == p.rewardRisk * risk;
  }

  lemma PositiveProduct(x: real, y: real)
    requires x > 0.0 && y > 0.0
    ensures x * y > 0.0 && (x * y) / y == x
  {
    var q := (x * y) / y;
    assert q * y == x * y;
    assert (q - x) * y == 0.0;
  }

  lemma DetectedSignals(p: DetectParams, cs: seq<Candle>)
    ensures var signals := Detect(p, cs);
            forall s :: s in signals <==>
              && WARMUP_BARS <= s.index < |cs|
              && EntryAt(p, IndicatorBar(cs, s.index), s.index) == Some(s)
              && s.qualityScore >= QualityFloor(p)
  {
    var entries := Entries(p, ComputeIndicators(cs));
    EntriesPositioned(p, ComputeIndicators(cs));
    CollectEntries(entries, |cs|);
    AtLeastSub(Collect(entries, |cs|), QualityFloor(p));
  }
}
