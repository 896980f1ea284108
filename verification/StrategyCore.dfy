/**
 Indicators and signal detection of app/domain/strategy_core.py.

 Each pandas series is a function of a bar position; `ewm(adjust=False)` is the
 recursion it abbreviates, and NaN is `None`.
 */
module StrategyCore {
  import opened Wrappers
  import opened MarketTypes

  const RSI_WINDOW := 14
  const ATR_WINDOW := 14
  const EMA_TREND_SPAN := 200
  const EMA_FAST_SPAN := 50
  const WARMUP_BARS := EMA_TREND_SPAN

  datatype RsiZone = Extreme | Pullback

  datatype DetectParams = DetectParams(useEma50: bool, requireCandleColor: bool, atrMult: real, rsiZone: RsiZone,
                                       rewardRisk: real, minQualityScore: real, shortRsiMin: real)

  // ------------------------------------------------------------------------
  // Indicators
  // ------------------------------------------------------------------------

  /** One step of an exponential average with weight `alpha` on the next value. */
  function Blend(alpha: real, prior: real, next: real): real {
    (1.0 - alpha) * prior + alpha * next
  }

  function SpanAlpha(span: nat): real {
    2.0 / ((span + 1) as real)
  }

  function WindowAlpha(window: nat): real
    requires window > 0
  {
    1.0 / (window as real)
  }

  function Ema(cs: seq<Candle>, span: nat, t: nat): real
    requires t < |cs|
  {
    if t == 0 then cs[0].close else Blend(SpanAlpha(span), Ema(cs, span, t - 1), cs[t].close)
  }

  function UpMove(cs: seq<Candle>, t: nat): real
    requires 0 < t < |cs|
  {
    Max(cs[t].close - cs[t - 1].close, 0.0)
  }

  function DownMove(cs: seq<Candle>, t: nat): real
    requires 0 < t < |cs|
  {
    -Min(cs[t].close - cs[t - 1].close, 0.0)
  }

  function AvgGain(cs: seq<Candle>, window: nat, t: nat): real
    requires window > 0 && 0 < t < |cs|
  {
    if t == 1 then UpMove(cs, 1) else Blend(WindowAlpha(window), AvgGain(cs, window, t - 1), UpMove(cs, t))
  }

  function AvgLoss(cs: seq<Candle>, window: nat, t: nat): real
    requires window > 0 && 0 < t < |cs|
  {
    if t == 1 then DownMove(cs, 1) else Blend(WindowAlpha(window), AvgLoss(cs, window, t - 1), DownMove(cs, t))
  }

  /** The RSI of an average gain and loss: undefined when both are zero, 100 when only the loss is. */
  function RsiOf(gain: real, loss: real): Option<real>
    requires gain >= 0.0 && loss >= 0.0
  {
    if loss == 0.0 then (if gain > 0.0 then Some(100.0) else None)
    else
      assert gain / loss >= 0.0;
      Some(100.0 - 100.0 / (1.0 + gain / loss))
  }

  lemma {:induction false} AveragesNonnegative(cs: seq<Candle>, window: nat, t: nat)
    requires window > 0 && 0 < t < |cs|
    ensures AvgGain(cs, window, t) >= 0.0 && AvgLoss(cs, window, t) >= 0.0
  {
    if t > 1 {
      AveragesNonnegative(cs, window, t - 1);
      WindowAlphaBounds(window);
      BlendBelow(WindowAlpha(window), AvgGain(cs, window, t - 1), UpMove(cs, t), 0.0);
      BlendBelow(WindowAlpha(window), AvgLoss(cs, window, t - 1), DownMove(cs, t), 0.0);
    }
  }

  lemma WindowAlphaBounds(window: nat)
    requires window > 0
    ensures 0.0 < WindowAlpha(window) <= 1.0
  {}

  lemma SpanAlphaBounds(span: nat)
    requires span > 0
    ensures 0.0 < SpanAlpha(span) <= 1.0
  {}

  lemma NonnegativeProduct(x: real, y: real)
    requires x >= 0.0 && y >= 0.0
    ensures x * y >= 0.0
  {}

  lemma BlendBelow(alpha: real, prior: real, next: real, lo: real)
    requires 0.0 < alpha <= 1.0 && lo <= prior && lo <= next
    ensures lo <= Blend(alpha, prior, next)
  {
    NonnegativeProduct(1.0 - alpha, prior - lo);
    NonnegativeProduct(alpha, next - lo);
  }

  lemma BlendAbove(alpha: real, prior: real, next: real, hi: real)
    requires 0.0 < alpha <= 1.0 && prior <= hi && next <= hi
    ensures Blend(alpha, prior, next) <= hi
  {
    NonnegativeProduct(1.0 - alpha, hi - prior);
    NonnegativeProduct(alpha, hi - next);
  }

  function Rsi(cs: seq<Candle>, window: nat, t: nat): Option<real>
    requires window > 0 && t < |cs|
  {
    if t == 0 then None
    else
      AveragesNonnegative(cs, window, t);
      RsiOf(AvgGain(cs, window, t), AvgLoss(cs, window, t))
  }

  function TrueRange(cs: seq<Candle>, t: nat): real
    requires t < |cs|
  {
    var range := cs[t].high - cs[t].low;
    if t == 0 then range
    else Max(range, Max(Abs(cs[t].high - cs[t - 1].close), Abs(cs[t].low - cs[t - 1].close)))
  }

  function Atr(cs: seq<Candle>, window: nat, t: nat): real
    requires window > 0 && t < |cs|
  {
    if t == 0 then TrueRange(cs, 0) else Blend(WindowAlpha(window), Atr(cs, window, t - 1), TrueRange(cs, t))
  }

  function IndicatorBar(cs: seq<Candle>, t: nat): Bar
    requires t < |cs|
  {
    Bar(cs[t].open, cs[t].high, cs[t].low, cs[t].close,
        Some(Ema(cs, EMA_TREND_SPAN, t)), Some(Ema(cs, EMA_FAST_SPAN, t)),
        Rsi(cs, RSI_WINDOW, t), if t == 0 then None else Rsi(cs, RSI_WINDOW, t - 1),
        Some(Atr(cs, ATR_WINDOW, t)))
  }

  function ComputeIndicators(cs: seq<Candle>): (bars: seq<Bar>)
    ensures |bars| == |cs| && forall t :: 0 <= t < |cs| ==> bars[t] == IndicatorBar(cs, t)
  {
    seq(|cs|, t requires 0 <= t < |cs| => IndicatorBar(cs, t))
  }

  // ------------------------------------------------------------------------
  // Quality and entries
  // ------------------------------------------------------------------------

  /** The sum of the four quality components, before the cap at 100. */
  function RawQuality(direction: Direction, close: real, ema200: real, ema50: real, rsi: real, rsiPrev: real,
                      atr: real, open: real): real
    requires atr > 0.0
  {
    var displacement := Abs(close - ema200) / atr;
    var trendScore := Min(displacement, 10.0) / 10.0 * 40.0;
    var ema50Ok := if direction.Long? then close > ema50 else close < ema50;
    var ema50Score := if ema50Ok then 20.0 else 0.0;
    var rsiScore := Min(Abs(rsi - rsiPrev), 20.0) / 20.0 * 25.0;
    var colorOk := if direction.Long? then close > open else close < open;
    var colorScore := if colorOk then 15.0 else 0.0;
    trendScore + ema50Score + rsiScore + colorScore
  }

  function SignalQuality(direction: Direction, close: real, ema200: real, ema50: real, rsi: real, rsiPrev: real,
                         atr: real, open: real): real
  {
    if atr <= 0.0 then 0.0
    else Min(RawQuality(direction, close, ema200, ema50, rsi, rsiPrev, atr, open), 100.0)
  }

  function Oversold(zone: RsiZone): real { if zone.Pullback? then 40.0 else OVERSOLD }

  function Overbought(zone: RsiZone): real { if zone.Pullback? then 60.0 else OVERBOUGHT }

  predicate CrossedUp(zone: RsiZone, prev: real, now: real) {
    prev <= Oversold(zone) && now > Oversold(zone)
  }

  predicate CrossedDown(zone: RsiZone, prev: real, now: real) {
    prev >= Overbought(zone) && now < Overbought(zone)
  }

  /** The columns a bar must have to be looked at. */
  predicate Complete(b: Bar) {
    b.rsi.Some? && b.rsiPrev.Some? && b.atr.Some? && b.ema200.Some? && b.ema50.Some?
  }

  function QualityAt(direction: Direction, b: Bar): real
    requires Complete(b)
  {
    SignalQuality(direction, b.close, b.ema200.value, b.ema50.value, b.rsi.value, b.rsiPrev.value, b.atr.value, b.open)
  }

  function LongStop(p: DetectParams, b: Bar): real
    requires Complete(b)
  {
    b.low - p.atrMult * b.atr.value
  }

  function ShortStop(p: DetectParams, b: Bar): real
    requires Complete(b)
  {
    b.high + p.atrMult * b.atr.value
  }

  predicate LongAllowed(p: DetectParams, b: Bar)
    requires Complete(b)
  {
    && (p.useEma50 ==> b.close > b.ema50.value)
    && (p.requireCandleColor ==> b.close > b.open)
    && b.close - LongStop(p, b) > 0.0
  }

  predicate ShortAllowed(p: DetectParams, b: Bar)
    requires Complete(b)
  {
    && (p.useEma50 ==> b.close < b.ema50.value)
    && (p.requireCandleColor ==> b.close < b.open)
    && !(p.shortRsiMin > 0.0 && b.rsiPrev.value < p.shortRsiMin)
    && ShortStop(p, b) - b.close > 0.0
  }

  /** What a risk has to pay. */
  function Reward(p: DetectParams, risk: real): real {
    p.rewardRisk * risk
  }

  function LongEntry(p: DetectParams, b: Bar, i: nat): Option<Signal>
    requires Complete(b)
  {
    var stop := LongStop(p, b);
    if !LongAllowed(p, b) then None
    else Some(Signal(Long, b.close, stop, b.close + Reward(p, b.close - stop),
                     b.atr.value, b.rsi.value, b.rsiPrev.value, QualityAt(Long, b), i))
  }

  function ShortEntry(p: DetectParams, b: Bar, i: nat): Option<Signal>
    requires Complete(b)
  {
    var stop := ShortStop(p, b);
    if !ShortAllowed(p, b) then None
    else Some(Signal(Short, b.close, stop, b.close - Reward(p, stop - b.close),
                     b.atr.value, b.rsi.value, b.rsiPrev.value, QualityAt(Short, b), i))
  }

  /** The signal that bar `i` fires, if any. */
  function EntryAt(p: DetectParams, b: Bar, i: nat): Option<Signal> {
    if !Complete(b) then None
    else if CrossedUp(p.rsiZone, b.rsiPrev.value, b.rsi.value) && b.close > b.ema200.value then LongEntry(p, b, i)
    else if CrossedDown(p.rsiZone, b.rsiPrev.value, b.rsi.value) && b.close < b.ema200.value then ShortEntry(p, b, i)
    else None
  }

  function Entries(p: DetectParams, bars: seq<Bar>): (entries: seq<Option<Signal>>)
    ensures |entries| == |bars|
    ensures forall i :: 0 <= i < |bars| ==> entries[i] == EntryAt(p, bars[i], i)
  {
    seq(|bars|, i requires 0 <= i < |bars| => EntryAt(p, bars[i], i))
  }

  /** All signals of bars WARMUP_BARS..k, in bar order. */
  function Collect(entries: seq<Option<Signal>>, k: nat): seq<Signal>
    requires k <= |entries|
  {
    if k <= WARMUP_BARS then []
    else if entries[k - 1].Some? then Collect(entries, k - 1) + [entries[k - 1].value]
    else Collect(entries, k - 1)
  }

  function AtLeast(signals: seq<Signal>, min: real): seq<Signal> {
    if signals == [] then []
    else
      var last := signals[|signals| - 1];
      AtLeast(signals[..|signals| - 1], min) + (if last.qualityScore >= min then [last] else [])
  }

  function QualityFloor(p: DetectParams): real {
    Max(0.0, Min(p.minQualityScore, 100.0))
  }

  function Detect(p: DetectParams, cs: seq<Candle>): seq<Signal> {
    AtLeast(Collect(Entries(p, ComputeIndicators(cs)), |cs|), QualityFloor(p))
  }

  /** The scan of `detect_signals_core`. */
  method DetectSignals(p: DetectParams, cs: seq<Candle>) returns (signals: seq<Signal>)
    ensures signals == Detect(p, cs)
  {
    var found: seq<Signal> := [];
    if |cs| <= WARMUP_BARS {
      return [];
    }
    var data := ComputeIndicators(cs);
    var minQs := Max(0.0, Min(p.minQualityScore, 100.0));
    ghost var entries := Entries(p, data);
    for i := WARMUP_BARS to |data|
      invariant found == Collect(entries, i)
    {
      var row := data[i];
      if row.rsi.None? || row.rsiPrev.None? || row.atr.None? {
        continue;
      }
      var crossedUp := CrossedUp(p.rsiZone, row.rsiPrev.value, row.rsi.value);
      var crossedDown := CrossedDown(p.rsiZone, row.rsiPrev.value, row.rsi.value);
      if !(crossedUp || crossedDown) {
        continue;
      }
      if crossedUp && row.close > row.ema200.value {
        var entry := LongEntry(p, row, i);
        if entry.Some? { found := found + [entry.value]; }
      } else if crossedDown && row.close < row.ema200.value {
        var entry := ShortEntry(p, row, i);
        if entry.Some? { found := found + [entry.value]; }
      }
    }
    signals := [];
    for j := 0 to |found|
      invariant signals == AtLeast(found[..j], minQs)
    {
      assert found[..j + 1][..j] == found[..j];
      if found[j].qualityScore >= minQs { signals := signals + [found[j]]; }
    }
    assert found[..|found|] == found;
  }
}
