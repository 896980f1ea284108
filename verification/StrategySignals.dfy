/**
 What a detected signal means on the candles: the weights behind its
 indicators, the crossing and the trend that fire it, and its quality.
 */
module StrategySignals {
  import opened Wrappers
  import opened MarketTypes
  import opened StrategyCore
  import opened StrategyTheorems
  import TT = TradeTheorems

  // ------------------------------------------------------------------------
  // The weights of an exponential average
  // ------------------------------------------------------------------------

  /** The value times the `k`-th power of the factor. */
  function Faded(value: real, factor: real, k: nat): real {
    if k == 0 then value else factor * Faded(value, factor, k - 1)
  }

  /** The part of the values up to `j` in the average at `t`: each step back fades a value by `1 - alpha`. */
  function WeightedSum(xs: seq<real>, alpha: real, t: nat, j: nat): real
    requires j <= t && j < |xs|
  {
    if j == 0 then Faded(xs[0], 1.0 - alpha, t)
    else WeightedSum(xs, alpha, t, j - 1) + Faded(alpha * xs[j], 1.0 - alpha, t - j)
  }

  lemma {:induction false} OneStepOn(xs: seq<real>, alpha: real, t: nat, j: nat)
    requires j <= t && j < |xs|
    ensures WeightedSum(xs, alpha, t + 1, j) == (1.0 - alpha) * WeightedSum(xs, alpha, t, j)
  {
    if j > 0 {
      OneStepOn(xs, alpha, t, j - 1);
      var last := Faded(alpha * xs[j], 1.0 - alpha, t - j);
      assert Faded(alpha * xs[j], 1.0 - alpha, t + 1 - j) == (1.0 - alpha) * last;
      Distribute(1.0 - alpha, WeightedSum(xs, alpha, t, j - 1), last);
    }
  }

  lemma Distribute(d: real, x: real, y: real)
    ensures d * (x + y) == d * x + d * y
  {}

  /** An average that takes its next value by `Blend` is the weighted sum. */
  lemma OneMore(xs: seq<real>, alpha: real, t: nat, y: real)
    requires 0 < t < |xs| && y == WeightedSum(xs, alpha, t - 1, t - 1)
    ensures Blend(alpha, y, xs[t]) == WeightedSum(xs, alpha, t, t)
  {
    OneStepOn(xs, alpha, t - 1, t - 1);
    assert Faded(alpha * xs[t], 1.0 - alpha, 0) == alpha * xs[t];
  }

  lemma OneAlone(xs: seq<real>, alpha: real)
    requires xs != []
    ensures WeightedSum(xs, alpha, 0, 0) == xs[0]
  {}

  function Closes(cs: seq<Candle>): (xs: seq<real>)
    ensures |xs| == |cs| && forall t :: 0 <= t < |cs| ==> xs[t] == cs[t].close
  {
    seq(|cs|, t requires 0 <= t < |cs| => cs[t].close)
  }

  function Spreads(cs: seq<Candle>): (xs: seq<real>)
    ensures |xs| == |cs| && forall t :: 0 <= t < |cs| ==> xs[t] == Spread(cs, t)
  {
    seq(|cs|, t requires 0 <= t < |cs| => Spread(cs, t))
  }

  /** The way prices went in a bar, the gap from the last close included. */
  function Spread(cs: seq<Candle>, t: nat): real
    requires t < |cs|
  {
    if t == 0 then cs[0].high - cs[0].low
    else Max(cs[t].high, cs[t - 1].close) - Min(cs[t].low, cs[t - 1].close)
  }

  /** What a close gained on the one before it, or with a sign of -1 lost. */
  function Step(cs: seq<Candle>, sign: real, t: nat): real
    requires 0 < t < |cs|
  {
    Max(sign * (cs[t].close - cs[t - 1].close), 0.0)
  }

  /** The steps from bar 1 on. */
  function Steps(cs: seq<Candle>, sign: real): (xs: seq<real>)
    requires cs != []
    ensures |xs| == |cs| - 1 && forall t :: 0 <= t < |xs| ==> xs[t] == Step(cs, sign, t + 1)
  {
    seq(|cs| - 1, t requires 0 <= t < |cs| - 1 => Step(cs, sign, t + 1))
  }

  /** The EMA weighs a close `k` bars back by `a (1 - a)^k`, `a = 2 / (span + 1)`, and the first by what is left. */
  lemma {:induction false} EmaIsWeighted(cs: seq<Candle>, span: nat, t: nat)
    requires t < |cs|
    ensures Ema(cs, span, t) == WeightedSum(Closes(cs), 2.0 / (span as real + 1.0), t, t)
  {
    var a := 2.0 / (span as real + 1.0);
    assert (span + 1) as real == span as real + 1.0;
    if t == 0 {
      OneAlone(Closes(cs), a);
    } else {
      EmaIsWeighted(cs, span, t - 1);
      OneMore(Closes(cs), a, t, Ema(cs, span, t - 1));
    }
  }

  lemma TrueRangeIsSpread(cs: seq<Candle>, t: nat)
    requires t < |cs| && cs[t].low <= cs[t].high
    ensures TrueRange(cs, t) == Spread(cs, t)
  {}

  /** The ATR weighs the spreads of candles whose low is not above their high in the same way, for `a = 1 / window`. */
  lemma {:induction false} AtrIsWeighted(cs: seq<Candle>, window: nat, t: nat)
    requires window > 0 && t < |cs| && forall k :: 0 <= k <= t ==> cs[k].low <= cs[k].high
    ensures Atr(cs, window, t) == WeightedSum(Spreads(cs), 1.0 / (window as real), t, t)
  {
    TrueRangeIsSpread(cs, t);
    if t == 0 {
      OneAlone(Spreads(cs), 1.0 / (window as real));
    } else {
      AtrIsWeighted(cs, window, t - 1);
      OneMore(Spreads(cs), 1.0 / (window as real), t, Atr(cs, window, t - 1));
    }
  }

  lemma MovesAreSteps(cs: seq<Candle>, t: nat)
    requires 0 < t < |cs|
    ensures UpMove(cs, t) == Step(cs, 1.0, t) && DownMove(cs, t) == Step(cs, -1.0, t)
  {}

  /** And so do the averages of the gains and of the losses, from the second bar on. */
  lemma {:induction false} GainsAreWeighted(cs: seq<Candle>, window: nat, t: nat)
    requires window > 0 && 0 < t < |cs|
    ensures AvgGain(cs, window, t) == WeightedSum(Steps(cs, 1.0), 1.0 / (window as real), t - 1, t - 1)
    ensures AvgLoss(cs, window, t) == WeightedSum(Steps(cs, -1.0), 1.0 / (window as real), t - 1, t - 1)
  {
    var ups, downs, a := Steps(cs, 1.0), Steps(cs, -1.0), 1.0 / (window as real);
    MovesAreSteps(cs, t);
    if t == 1 {
      OneAlone(ups, a);
      OneAlone(downs, a);
    } else {
      GainsAreWeighted(cs, window, t - 1);
      OneMore(ups, a, t - 1, AvgGain(cs, window, t - 1));
      OneMore(downs, a, t - 1, AvgLoss(cs, window, t - 1));
    }
  }

  // ------------------------------------------------------------------------
  // Which bars fire
  // ------------------------------------------------------------------------

  /** The RSI levels of a zone: 30 and 70, or 40 and 60. */
  function Level(zone: RsiZone, direction: Direction): real {
    if zone == Extreme then (if direction == Long then 30.0 else 70.0)
    else if direction == Long then 40.0 else 60.0
  }

  /** `x` lies on the side of `y` that pays in this direction. */
  predicate Ahead(direction: Direction, x: real, y: real) {
    if direction == Long then x > y else x < y
  }

  /** The row of a bar: its prices, the EMAs over 200 and 50 closes, the RSI now and before, the ATR. */
  function Row(cs: seq<Candle>, i: nat): Bar
    requires 0 < i < |cs|
  {
    Bar(cs[i].open, cs[i].high, cs[i].low, cs[i].close, Some(Ema(cs, 200, i)), Some(Ema(cs, 50, i)),
        Rsi(cs, 14, i), Rsi(cs, 14, i - 1), Some(Atr(cs, 14, i)))
  }

  /** The RSI crossed the level of the zone between the two bars, back towards the middle. */
  predicate Crosses(p: DetectParams, b: Bar, d: Direction) {
    && b.rsiPrev.Some? && b.rsi.Some?
    && !Ahead(d, b.rsiPrev.value, Level(p.rsiZone, d)) && Ahead(d, b.rsi.value, Level(p.rsiZone, d))
  }

  function StopOf(p: DetectParams, b: Bar, d: Direction): real
    requires Complete(b)
  {
    if d == Long then b.low - p.atrMult * b.atr.value else b.high + p.atrMult * b.atr.value
  }

  /** The bar fires in this direction: a crossing on the right side of the trend that passes the gates. */
  predicate Fires(p: DetectParams, b: Bar, d: Direction) {
    && Complete(b) && Crosses(p, b, d) && Ahead(d, b.close, b.ema200.value)
    && (p.useEma50 ==> Ahead(d, b.close, b.ema50.value)) && (p.requireCandleColor ==> Ahead(d, b.close, b.open))
    && (d == Short && p.shortRsiMin > 0.0 ==> b.rsiPrev.value >= p.shortRsiMin)
    && Ahead(d, b.close, StopOf(p, b, d))
  }

  /** The signal it fires. */
  function SignalOf(p: DetectParams, b: Bar, d: Direction, i: nat): Signal
    requires Complete(b)
  {
    var stop := StopOf(p, b, d);
    if d == Long then
      Signal(Long, b.close, stop, b.close + Reward(p, b.close - stop), b.atr.value, b.rsi.value, b.rsiPrev.value,
             QualityAt(Long, b), i)
    else
      Signal(Short, b.close, stop, b.close - Reward(p, stop - b.close), b.atr.value, b.rsi.value,
             b.rsiPrev.value, QualityAt(Short, b), i)
  }

  /** A bar fires in one direction at most. */
  lemma OneDirection(p: DetectParams, b: Bar)
    requires Complete(b)
    ensures !(Crosses(p, b, Long) && Crosses(p, b, Short))
    ensures Crosses(p, b, Long) <==> CrossedUp(p.rsiZone, b.rsiPrev.value, b.rsi.value)
    ensures Crosses(p, b, Short) <==> CrossedDown(p.rsiZone, b.rsiPrev.value, b.rsi.value)
  {}

  lemma LongBar(p: DetectParams, b: Bar, i: nat)
    requires Complete(b)
    ensures Fires(p, b, Long) ==> EntryAt(p, b, i) == Some(SignalOf(p, b, Long, i))
    ensures EntryAt(p, b, i).Some? && EntryAt(p, b, i).value.direction == Long ==> Fires(p, b, Long)
  {
    OneDirection(p, b);
    assert StopOf(p, b, Long) == LongStop(p, b);
  }

  lemma ShortBar(p: DetectParams, b: Bar, i: nat)
    requires Complete(b)
    ensures Fires(p, b, Short) ==> EntryAt(p, b, i) == Some(SignalOf(p, b, Short, i))
    ensures EntryAt(p, b, i).Some? && EntryAt(p, b, i).value.direction == Short ==> Fires(p, b, Short)
  {
    OneDirection(p, b);
    assert StopOf(p, b, Short) == ShortStop(p, b);
  }

  /** A bar's entry is a signal if and only if the bar fires in its direction and the signal is the one it fires. */
  lemma EntryExactly(p: DetectParams, b: Bar, i: nat, s: Signal)
    ensures EntryAt(p, b, i) == Some(s) <==> Fires(p, b, s.direction) && s == SignalOf(p, b, s.direction, i)
  {
    if Complete(b) {
      if s.direction == Long { LongBar(p, b, i); } else { ShortBar(p, b, i); }
    }
  }

  /**
   A signal is detected if and only if its bar, past the first 200, fires in its direction - the RSI crossed the level
   of the zone, on the right side of the EMA 200, past the gates - and it is the one that bar fires, and scores enough.
   */
  lemma DetectedExactly(p: DetectParams, cs: seq<Candle>, s: Signal)
    ensures s in Detect(p, cs)
       <==> && 200 <= s.index < |cs| && Fires(p, Row(cs, s.index), s.direction)
            && s == SignalOf(p, Row(cs, s.index), s.direction, s.index)
            && s.qualityScore >= Max(0.0, Min(p.minQualityScore, 100.0))
  {
    DetectedSignals(p, cs);
    if 200 <= s.index < |cs| {
      assert IndicatorBar(cs, s.index) == Row(cs, s.index);
      EntryExactly(p, Row(cs, s.index), s.index, s);
    }
  }

  /** In particular longs are detected above the EMA 200 and shorts below it. */
  lemma DetectedInTrend(p: DetectParams, cs: seq<Candle>, s: Signal)
    requires s in Detect(p, cs)
    ensures 200 <= s.index < |cs|
    ensures if s.direction == Long then cs[s.index].close > Ema(cs, 200, s.index)
            else cs[s.index].close < Ema(cs, 200, s.index)
  {
    DetectedExactly(p, cs, s);
    TrendOfRow(p, cs, s.index, s.direction);
  }

  lemma TrendOfRow(p: DetectParams, cs: seq<Candle>, i: nat, d: Direction)
    requires 0 < i < |cs| && Fires(p, Row(cs, i), d)
    ensures Ahead(d, cs[i].close, Ema(cs, 200, i))
  {}

  // ------------------------------------------------------------------------
  // Quality
  // ------------------------------------------------------------------------

  function Points(max: real, part: real, whole: real): real
    requires whole > 0.0
  {
    if part >= whole then max else max * part / whole
  }

  /**
   The quality of a bar with a range: forty points for ten ATR from the EMA 200, twenty for the right side of the
   EMA 50, twenty-five for an RSI move of twenty, fifteen for the candle's colour, and in proportion below.
   */
  lemma QualityExactly(direction: Direction, close: real, ema200: real, ema50: real, rsi: real, rsiPrev: real,
                       atr: real, open: real)
    ensures atr > 0.0 ==>
              SignalQuality(direction, close, ema200, ema50, rsi, rsiPrev, atr, open)
              == Points(40.0, Abs(close - ema200), 10.0 * atr) + Points(25.0, Abs(rsi - rsiPrev), 20.0)
                 + (if Ahead(direction, close, ema50) then 20.0 else 0.0)
                 + (if Ahead(direction, close, open) then 15.0 else 0.0)
    ensures atr <= 0.0 ==> SignalQuality(direction, close, ema200, ema50, rsi, rsiPrev, atr, open) == 0.0
  {
    if atr > 0.0 {
      QualityCapRedundant(direction, close, ema200, ema50, rsi, rsiPrev, atr, open);
      DisplacementPoints(Abs(close - ema200), atr);
    }
  }

  lemma DisplacementPoints(distance: real, atr: real)
    requires atr > 0.0 && distance >= 0.0
    ensures Min(distance / atr, 10.0) / 10.0 * 40.0 == Points(40.0, distance, 10.0 * atr)
  {
    var q, r := distance / atr, 40.0 * distance / (10.0 * atr);
    assert q * atr == distance;
    assert r * (10.0 * atr) == 40.0 * distance;
    SameProduct(r, 4.0 * q, 10.0 * atr);
    TT.DivOrder(distance, 10.0 * atr, atr);
    TT.DivOrder(10.0 * atr, distance, atr);
    assert 10.0 * atr / atr == 10.0;
  }

  lemma SameProduct(x: real, y: real, z: real)
    requires z > 0.0 && x * z == y * z
    ensures x == y
  {
    assert (x - y) * z == 0.0;
  }
}
