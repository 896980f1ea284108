/** Candles, indicator rows and signals, shared by the strategy modules. */
module MarketTypes {
  import opened Wrappers

  const OVERSOLD := 30.0
  const OVERBOUGHT := 70.0

  datatype Direction = Long | Short

  datatype Candle = Candle(open: real, high: real, low: real, close: real)

  /** A candle with the columns that `compute_indicators` appends. */
  datatype Bar = Bar(open: real, high: real, low: real, close: real,
                     ema200: Option<real>, ema50: Option<real>,
                     rsi: Option<real>, rsiPrev: Option<real>, atr: Option<real>)

  /** An entry signal; `index` is the position of its bar. */
  datatype Signal = Signal(direction: Direction, entryPrice: real, stopLoss: real, targetPrice: real,
                           atr: real, rsi: real, rsiPrev: real, qualityScore: real, index: nat)

  function Abs(x: real): real {
    if x < 0.0 then -x else x
  }

  function Min(x: real, y: real): real {
    if x <= y then x else y
  }

  function Max(x: real, y: real): real {
    if x >= y then x else y
  }

  predicate ConsistentCandle(c: Candle) {
    c.low <= c.open <= c.high && c.low <= c.close <= c.high
  }

  predicate ConsistentBar(b: Bar) {
    b.low <= b.open <= b.high && b.low <= b.close <= b.high
  }

  /** Stop, entry and target in trading order. */
  predicate WellPosed(s: Signal) {
    if s.direction.Long? then s.stopLoss < s.entryPrice < s.targetPrice
    else s.stopLoss > s.entryPrice > s.targetPrice
  }
}
