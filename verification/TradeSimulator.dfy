/**
 The bar-by-bar trade simulator of app/domain/rsi_trend_backtest.py.

 `SimulateOne` is the loop of the original. `Simulate` is the function it is
 proved against: one `BarStep` per bar, from the signal bar to the exit.
 Prices are exact reals; a missing indicator value is `None`.
 */
module TradeSimulator {
  import opened Wrappers
  import opened MarketTypes

  datatype ExitReason = StopLoss | Target | PartialTarget | RsiExtreme | TrendFlip | EndOfData | Ttl

  datatype ExitEma = Ema200 | Ema50

  /** The keyword arguments shared by every simulated trade. */
  datatype Config = Config(partialMode: bool, trailingStop: bool, exitEma: ExitEma, ttlBars: int)

  /** `fraction` is of the original position; `bar` is the bar whose time is stamped. */
  datatype PartialExit = PartialExit(fraction: real, price: real, rMultiple: real, reason: ExitReason, bar: int)

  datatype Trade = Trade(direction: Direction, entryPrice: real, stopLoss: real, targetPrice: real,
                         exitPrice: real, exitReason: ExitReason, rMultiple: real, barsHeld: int,
                         partials: seq<PartialExit>)

  /** The local variables of the simulation loop while the trade is open. */
  datatype Position = Position(remaining: real, realizedR: real, stop: real, t1Done: bool, rsiDone: bool,
                               trailingActive: bool, partials: seq<PartialExit>)

  datatype BarOutcome = Open(position: Position) | Closed(position: Position, price: real, reason: ExitReason)

  // ------------------------------------------------------------------------
  // One bar
  // ------------------------------------------------------------------------

  /** How far `price` lies from `entry` in the trade's favour. */
  function Gain(direction: Direction, entry: real, price: real): real {
    if direction.Long? then price - entry else entry - price
  }

  function Risk(signal: Signal): real {
    Abs(signal.entryPrice - signal.stopLoss)
  }

  /** Reward of `price` in units of the initial risk; zero when there is no risk. */
  function RMultiple(signal: Signal, price: real): real {
    if Risk(signal) <= 0.0 then 0.0
    else Gain(signal.direction, signal.entryPrice, price) / Risk(signal)
  }

  /** What a fraction of the position leaving at `price` adds to R. */
  function Contribution(signal: Signal, fraction: real, price: real): real {
    fraction * RMultiple(signal, price)
  }

  predicate StopHit(direction: Direction, bar: Bar, stop: real) {
    if direction.Long? then bar.low <= stop else bar.high >= stop
  }

  predicate TargetHit(direction: Direction, bar: Bar, target: real) {
    if direction.Long? then bar.high >= target else bar.low <= target
  }

  predicate RsiInExtreme(direction: Direction, rsi: real) {
    if direction.Long? then rsi > OVERBOUGHT else rsi < OVERSOLD
  }

  function ExitEmaOf(config: Config, bar: Bar): Option<real> {
    if config.exitEma.Ema200? then bar.ema200 else bar.ema50
  }

  predicate Flipped(direction: Direction, close: real, ema: real) {
    if direction.Long? then close < ema else close > ema
  }

  /** Half of what is still open leaves at `price`. */
  function TakeHalf(signal: Signal, position: Position, i: int, price: real, reason: ExitReason): Position {
    var half := position.remaining * 0.5;
    var r := Contribution(signal, half, price);
    position.(remaining := position.remaining - half,
              realizedR := position.realizedR + r,
              partials := position.partials + [PartialExit(half, price, r, reason, i)])
  }

  function CloseAll(signal: Signal, position: Position, price: real, reason: ExitReason): BarOutcome {
    Closed(position.(remaining := 0.0,
                     realizedR := position.realizedR + Contribution(signal, position.remaining, price)),
           price, reason)
  }

  function AfterTarget(config: Config, signal: Signal, bar: Bar, i: int, position: Position): Position {
    if TargetHit(signal.direction, bar, signal.targetPrice) && !position.t1Done then
      TakeHalf(signal, position, i, signal.targetPrice, PartialTarget)
        .(t1Done := true, stop := signal.entryPrice, trailingActive := config.trailingStop)
    else
      position
  }

  function AfterRsi(config: Config, signal: Signal, bar: Bar, i: int, position: Position): Position {
    if config.partialMode && position.t1Done && !position.rsiDone && bar.rsi.Some? &&
       RsiInExtreme(signal.direction, bar.rsi.value)
    then
      TakeHalf(signal, position, i, bar.close, RsiExtreme).(rsiDone := true)
    else
      position
  }

  function AfterTrail(signal: Signal, bar: Bar, position: Position): Position {
    if position.trailingActive && bar.atr.Some? then
      var candidate := if signal.direction.Long? then bar.close - bar.atr.value else bar.close + bar.atr.value;
      if Gain(signal.direction, position.stop, candidate) > 0.0 then position.(stop := candidate) else position
    else
      position
  }

  /** The trend-flip and time-to-live exits at the end of a bar. */
  function LateExits(config: Config, signal: Signal, bar: Bar, i: int, position: Position): BarOutcome {
    var ema := ExitEmaOf(config, bar);
    if ema.Some? && Flipped(signal.direction, bar.close, ema.value) then
      CloseAll(signal, position, bar.close, TrendFlip)
    else if config.ttlBars > 0 && i - signal.index >= config.ttlBars then
      CloseAll(signal, position, bar.close, Ttl)
    else
      Open(position)
  }

  /** Everything one bar does to an open position. */
  function BarStep(config: Config, signal: Signal, bar: Bar, i: int, position: Position): BarOutcome {
    if StopHit(signal.direction, bar, position.stop) then
      CloseAll(signal, position, position.stop, StopLoss)
    else if i <= signal.index then
      Open(position)
    else if TargetHit(signal.direction, bar, signal.targetPrice) && !position.t1Done && !config.partialMode then
      CloseAll(signal, position, signal.targetPrice, Target)
    else
      var p1 := AfterTarget(config, signal, bar, i, position);
      var p2 := AfterRsi(config, signal, bar, i, p1);
      var p3 := AfterTrail(signal, bar, p2);
      LateExits(config, signal, bar, i, p3)
  }

  // ------------------------------------------------------------------------
  // A whole trade
  // ------------------------------------------------------------------------

  function MakeTrade(signal: Signal, position: Position, price: real, reason: ExitReason, exitIndex: int): Trade {
    Trade(signal.direction, signal.entryPrice, signal.stopLoss, signal.targetPrice, price, reason,
          position.realizedR, exitIndex - signal.index, position.partials)
  }

  function Opening(signal: Signal): Position {
    Position(1.0, 0.0, signal.stopLoss, false, false, false, [])
  }

  /** The trade that results from holding `position` into bar `i`. */
  function RunFrom(config: Config, signal: Signal, bars: seq<Bar>, i: nat, position: Position): Trade
    requires |bars| > 0
    decreases |bars| - i
  {
    if i >= |bars| then
      var last := bars[|bars| - 1].close;
      var flat := CloseAll(signal, position, last, EndOfData);
      MakeTrade(signal, flat.position, last, EndOfData, |bars| - 1)
    else
      match BarStep(config, signal, bars[i], i, position)
      case Open(next) => RunFrom(config, signal, bars, i + 1, next)
      case Closed(final, price, reason) => MakeTrade(signal, final, price, reason, i)
  }

  function Simulate(config: Config, signal: Signal, bars: seq<Bar>): Trade
    requires |bars| > 0
  {
    RunFrom(config, signal, bars, signal.index, Opening(signal))
  }

  /** Step 2 of the loop in partial mode: half leaves at the target, the stop moves to the entry. */
  method TakePartialTarget(config: Config, signal: Signal, bar: Bar, i: int, position: Position) returns (p: Position)
    ensures p == AfterTarget(config, signal, bar, i, position)
  {
    p := position;
    var targetHit :=
      if signal.direction.Long? then bar.high >= signal.targetPrice else bar.low <= signal.targetPrice;
    if targetHit && !p.t1Done {
      p := TakeHalf(signal, p, i, signal.targetPrice, PartialTarget);
      p := p.(t1Done := true, stop := signal.entryPrice);
      p := p.(trailingActive := config.trailingStop);
    }
  }

  /** Step 3: the RSI re-enters its extreme zone, half of the rest leaves at the close. */
  method ReduceOnRsi(config: Config, signal: Signal, bar: Bar, i: int, position: Position) returns (p: Position)
    ensures p == AfterRsi(config, signal, bar, i, position)
  {
    p := position;
    if config.partialMode && p.t1Done && !p.rsiDone && bar.rsi.Some? {
      var extreme := if signal.direction.Long? then bar.rsi.value > OVERBOUGHT else bar.rsi.value < OVERSOLD;
      if extreme {
        p := TakeHalf(signal, p, i, bar.close, RsiExtreme);
        p := p.(rsiDone := true);
      }
    }
  }

  /** Step 3b: trail the stop one ATR behind the close, never backwards. */
  method TrailStop(signal: Signal, bar: Bar, position: Position) returns (p: Position)
    ensures p == AfterTrail(signal, bar, position)
  {
    p := position;
    if p.trailingActive && bar.atr.Some? {
      if signal.direction.Long? {
        var candidate := bar.close - bar.atr.value;
        if candidate > p.stop { p := p.(stop := candidate); }
      } else {
        var candidate := bar.close + bar.atr.value;
        if candidate < p.stop { p := p.(stop := candidate); }
      }
    }
  }

  /** The loop of `_simulate_one`. */
  method SimulateOne(config: Config, signal: Signal, bars: seq<Bar>) returns (trade: Trade)
    requires |bars| > 0
    ensures trade == Simulate(config, signal, bars)
  {
    var position := Opening(signal);
    var exitPrice, exitReason, exitIndex: int := signal.entryPrice, EndOfData, signal.index;
    var i := signal.index;
    while i < |bars|
      invariant position.remaining > 0.0
      invariant RunFrom(config, signal, bars, i, position) == Simulate(config, signal, bars)
    {
      var bar := bars[i];
      var outcome := Open(position);
      if StopHit(signal.direction, bar, position.stop) {
        outcome := CloseAll(signal, position, position.stop, StopLoss);
      } else if i > signal.index {
        if TargetHit(signal.direction, bar, signal.targetPrice) && !position.t1Done && !config.partialMode {
          outcome := CloseAll(signal, position, signal.targetPrice, Target);
        } else {
          var p := TakePartialTarget(config, signal, bar, i, position);
          p := ReduceOnRsi(config, signal, bar, i, p);
          p := TrailStop(signal, bar, p);
          outcome := LateExits(config, signal, bar, i, p);
        }
      }
      assert outcome == BarStep(config, signal, bar, i, position);
      position := outcome.position;
      if outcome.Closed? {
        exitPrice, exitReason, exitIndex := outcome.price, outcome.reason, i;
        break;
      }
      i := i + 1;
    }
    if position.remaining > 0.0 {
      // The series ends with the trade open: what is left goes out at the final close.
      exitPrice, exitReason, exitIndex := bars[|bars| - 1].close, EndOfData, |bars| - 1;
      position := CloseAll(signal, position, exitPrice, exitReason).position;
    }
    trade := MakeTrade(signal, position, exitPrice, exitReason, exitIndex);
  }
}
