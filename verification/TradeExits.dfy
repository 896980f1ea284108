/**
 Which bar closes a trade, and why: the first one on which an exit is due, in
 the order of precedence of the exits.
 */
module TradeExits {
  import opened Wrappers
  import opened MarketTypes
  import opened TradeSimulator
  import opened TradeTheorems

  ghost predicate Touches(signal: Signal, bar: Bar, stop: real) {
    if signal.direction == Long then bar.low <= stop else bar.high >= stop
  }

  /** The exit due on bar `i` with this stop in force: on the signal bar no other than the stop. */
  ghost function Due(config: Config, signal: Signal, bars: seq<Bar>, i: nat, stop: real): Option<ExitReason>
    requires i < |bars|
  {
    if Touches(signal, bars[i], stop) then Some(StopLoss)
    else if i == signal.index then None
    else if !config.partialMode && ReachesTarget(signal, bars[i]) then Some(Target)
    else if !OnTrendSide(config, signal, bars[i]) then Some(TrendFlip)
    else if 0 < config.ttlBars <= i - signal.index then Some(Ttl)
    else None
  }

  /** The trade is still open on bar `k`, and nothing is due there. */
  ghost predicate NothingDue(config: Config, signal: Signal, bars: seq<Bar>, k: nat)
    requires signal.index <= k < |bars|
  {
    var p := PositionAt(config, signal, bars, k);
    p.Some? && Due(config, signal, bars, k, p.value.stop) == None
  }

  /** Bar `e` closes the trade for the reason due, or is the last of the data. */
  ghost predicate ClosesAt(config: Config, signal: Signal, bars: seq<Bar>, e: nat, reason: ExitReason)
    requires signal.index <= e < |bars|
  {
    var p := PositionAt(config, signal, bars, e);
    && p.Some?
    && (Due(config, signal, bars, e, p.value.stop) == Some(reason) ||
          (e == |bars| - 1 && reason == EndOfData && Due(config, signal, bars, e, p.value.stop) == None))
  }

  lemma StepIsDue(config: Config, signal: Signal, bars: seq<Bar>, i: nat, p: Position)
    requires signal.index <= i < |bars| && (p.t1Done ==> config.partialMode)
    ensures match BarStep(config, signal, bars[i], i, p)
            case Open(n) => Due(config, signal, bars, i, p.stop) == None && (n.t1Done ==> config.partialMode)
            case Closed(_, _, reason) => Due(config, signal, bars, i, p.stop) == Some(reason)
  {}

  lemma {:induction false} RunCloses(config: Config, signal: Signal, bars: seq<Bar>, i: nat)
    requires signal.index <= i < |bars| && PositionAt(config, signal, bars, i).Some?
    requires PositionAt(config, signal, bars, i).value.t1Done ==> config.partialMode
    ensures var t := RunFrom(config, signal, bars, i, PositionAt(config, signal, bars, i).value);
            var e := ExitIndex(signal, t);
            && i <= e < |bars| && ClosesAt(config, signal, bars, e, t.exitReason)
            && forall k :: i <= k < e ==> NothingDue(config, signal, bars, k)
    decreases |bars| - i
  {
    var p := PositionAt(config, signal, bars, i).value;
    StepIsDue(config, signal, bars, i, p);
    var step := BarStep(config, signal, bars[i], i, p);
    if step.Open? && i + 1 < |bars| {
      assert PositionAt(config, signal, bars, i + 1) == Some(step.position);
      RunCloses(config, signal, bars, i + 1);
    }
  }

  /** A trade closes on the first bar on which an exit is due, for that reason, and otherwise with the data. */
  lemma ExitExact(config: Config, signal: Signal, bars: seq<Bar>)
    requires signal.index < |bars|
    ensures var t := Simulate(config, signal, bars);
            var e := ExitIndex(signal, t);
            && signal.index <= e < |bars| && ClosesAt(config, signal, bars, e, t.exitReason)
            && forall k :: signal.index <= k < e ==> NothingDue(config, signal, bars, k)
  {
    RunCloses(config, signal, bars, signal.index);
  }

  /** A trade is closed on its signal bar by the stop or the end of the data, and by nothing else. */
  lemma SignalBarExact(config: Config, signal: Signal, bars: seq<Bar>)
    requires signal.index < |bars|
    ensures var t := Simulate(config, signal, bars);
            && (t.barsHeld == 0 <==> signal.index == |bars| - 1 || Touches(signal, bars[signal.index], signal.stopLoss))
            && (t.exitReason in {TrendFlip, Ttl, Target} ==> t.barsHeld > 0)
            && (t.partials != [] ==> t.partials[0].bar > signal.index)
  {
    ExitExact(config, signal, bars);
    Conservation(config, signal, bars);
    var t := Simulate(config, signal, bars);
    if t.barsHeld > 0 { assert NothingDue(config, signal, bars, signal.index); }
  }
}
