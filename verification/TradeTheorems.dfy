/**
 What every simulated trade satisfies: conservation of the position, bounds on
 its R multiple, the ratcheting stop, the profit locked in by a partial target,
 causality, and long/short symmetry.
 */
module TradeTheorems {
  import opened Wrappers
  import opened MarketTypes
  import opened TradeSimulator

  // ------------------------------------------------------------------------
  // R arithmetic
  // ------------------------------------------------------------------------

  lemma RiskPositive(s: Signal)
    requires WellPosed(s)
    ensures Risk(s) > 0.0 && Gain(s.direction, s.entryPrice, s.stopLoss) == -Risk(s)
  {}

  lemma ROrder(s: Signal, p: real, q: real)
    requires WellPosed(s)
    ensures Gain(s.direction, p, q) >= 0.0 ==> RMultiple(s, p) <= RMultiple(s, q)
    ensures Gain(s.direction, p, q) > 0.0 ==> RMultiple(s, p) < RMultiple(s, q)
  {
    DivOrder(Gain(s.direction, s.entryPrice, p), Gain(s.direction, s.entryPrice, q), Risk(s));
  }

  lemma DivOrder(a: real, b: real, c: real)
    requires c > 0.0
    ensures a <= b ==> a / c <= b / c
    ensures a < b ==> a / c < b / c
  {
    var x, y := a / c, b / c;
    assert x * c == a && y * c == b;
    assert (y - x) * c == b - a;
  }

  lemma RAnchors(s: Signal)
    requires WellPosed(s)
    ensures RMultiple(s, s.stopLoss) == -1.0
    ensures RMultiple(s, s.entryPrice) == 0.0
    ensures RMultiple(s, s.targetPrice) > 0.0
  {
    RiskPositive(s);
    var risk := Risk(s);
    assert (-risk) / risk == -1.0;
    ROrder(s, s.entryPrice, s.targetPrice);
  }

  // ------------------------------------------------------------------------
  // Conservation
  // ------------------------------------------------------------------------

  /** What is still open after `n` halvings; there are never more than two. */
  function OpenFraction(n: nat): real {
    if n == 0 then 1.0 else if n == 1 then 0.5 else 0.25
  }

  /** A partial target at bar `b`, then perhaps an RSI reduction at the close of a bar no earlier. */
  ghost predicate Ledger(signal: Signal, bars: seq<Bar>, partials: seq<PartialExit>, limit: int) {
    && |partials| <= 2
    && (|partials| >= 1 ==>
          && partials[0] == PartialExit(0.5, signal.targetPrice, 0.5 * RMultiple(signal, signal.targetPrice),
                                        PartialTarget, partials[0].bar)
          && signal.index < partials[0].bar < limit
          && partials[0].bar < |bars|)
    && (|partials| == 2 ==>
          && partials[0].bar <= partials[1].bar < limit
          && partials[1].bar < |bars|
          && partials[1].price == bars[partials[1].bar].close
          && partials[1] == PartialExit(0.25, partials[1].price, 0.25 * RMultiple(signal, partials[1].price),
                                        RsiExtreme, partials[1].bar))
  }

  function Booked(partials: seq<PartialExit>): real {
    if partials == [] then 0.0 else Booked(partials[..|partials| - 1]) + partials[|partials| - 1].rMultiple
  }

  /** The position held into bar `i` agrees with its ledger of partial exits. */
  ghost predicate Conserved(config: Config, signal: Signal, bars: seq<Bar>, i: int, p: Position) {
    && Ledger(signal, bars, p.partials, i)
    && p.remaining == OpenFraction(|p.partials|)
    && p.realizedR == Booked(p.partials)
    && (p.t1Done <==> |p.partials| >= 1)
    && (p.rsiDone <==> |p.partials| == 2)
    && (p.t1Done ==> config.partialMode)
    && (p.trailingActive ==> p.t1Done)
  }

  lemma BookedAppend(partials: seq<PartialExit>, e: PartialExit)
    ensures Booked(partials + [e]) == Booked(partials) + e.rMultiple
  {
    assert (partials + [e])[..|partials|] == partials;
  }

  /** The position after the managed exits of bar `i`, before the flip and TTL checks. */
  function Managed(config: Config, signal: Signal, bar: Bar, i: int, p: Position): Position {
    AfterTrail(signal, bar, AfterRsi(config, signal, bar, i, AfterTarget(config, signal, bar, i, p)))
  }

  lemma FirstHalf(signal: Signal, p: Position, i: int, price: real, reason: ExitReason)
    requires p.partials == [] && p.remaining == 1.0 && p.realizedR == 0.0
    ensures var q := TakeHalf(signal, p, i, price, reason);
            && q.partials == [PartialExit(0.5, price, 0.5 * RMultiple(signal, price), reason, i)]
            && q.remaining == 0.5 && q.realizedR == Booked(q.partials)
  {
    var e := PartialExit(0.5, price, 0.5 * RMultiple(signal, price), reason, i);
    assert p.remaining * 0.5 == 0.5;
    assert p.partials + [e] == [e];
    BookedAppend(p.partials, e);
  }

  lemma SecondHalf(signal: Signal, p: Position, i: int, price: real, reason: ExitReason)
    requires |p.partials| == 1 && p.remaining == 0.5 && p.realizedR == Booked(p.partials)
    ensures var q := TakeHalf(signal, p, i, price, reason);
            && q.partials == [p.partials[0], PartialExit(0.25, price, 0.25 * RMultiple(signal, price), reason, i)]
            && q.remaining == 0.25 && q.realizedR == Booked(q.partials)
  {
    var e := PartialExit(0.25, price, 0.25 * RMultiple(signal, price), reason, i);
    assert p.remaining * 0.5 == 0.25;
    assert p.partials + [e] == [p.partials[0], e];
    BookedAppend(p.partials, e);
  }

  lemma TargetConserves(config: Config, signal: Signal, bars: seq<Bar>, i: nat, p: Position)
    requires signal.index < i < |bars| && Conserved(config, signal, bars, i, p)
    requires TargetHit(signal.direction, bars[i], signal.targetPrice) && !p.t1Done ==> config.partialMode
    ensures Conserved(config, signal, bars, i + 1, AfterTarget(config, signal, bars[i], i, p))
  {
    if TargetHit(signal.direction, bars[i], signal.targetPrice) && !p.t1Done {
      FirstHalf(signal, p, i, signal.targetPrice, PartialTarget);
    }
  }

  lemma RsiConserves(config: Config, signal: Signal, bars: seq<Bar>, i: nat, p: Position)
    requires signal.index < i < |bars| && Conserved(config, signal, bars, i + 1, p)
    ensures Conserved(config, signal, bars, i + 1, AfterRsi(config, signal, bars[i], i, p))
  {
    var q := AfterRsi(config, signal, bars[i], i, p);
    if q != p {
      SecondHalf(signal, p, i, bars[i].close, RsiExtreme);
    }
  }

  lemma ManagedConserves(config: Config, signal: Signal, bars: seq<Bar>, i: nat, p: Position)
    requires signal.index < i < |bars| && Conserved(config, signal, bars, i, p)
    requires TargetHit(signal.direction, bars[i], signal.targetPrice) && !p.t1Done ==> config.partialMode
    ensures Conserved(config, signal, bars, i + 1, Managed(config, signal, bars[i], i, p))
  {
    TargetConserves(config, signal, bars, i, p);
    RsiConserves(config, signal, bars, i, AfterTarget(config, signal, bars[i], i, p));
  }

  /** The bar in which a trade was closed. */
  function ExitIndex(signal: Signal, t: Trade): int {
    signal.index + t.barsHeld
  }

  /** A closed trade accounts for the whole position, and its exit price is the one its reason names. */
  ghost predicate Accounted(config: Config, signal: Signal, bars: seq<Bar>, t: Trade) {
    var e := ExitIndex(signal, t);
    && 0 <= e < |bars|
    && Ledger(signal, bars, t.partials, e + 1)
    && (t.partials != [] ==> config.partialMode)
    && t.rMultiple == Booked(t.partials) + OpenFraction(|t.partials|) * RMultiple(signal, t.exitPrice)
    && t.exitReason !in {PartialTarget, RsiExtreme}
    && (t.exitReason == Target ==> t.exitPrice == signal.targetPrice && t.partials == [] && !config.partialMode)
    && (t.exitReason == StopLoss && t.partials == [] ==> t.exitPrice == signal.stopLoss)
    && (t.exitReason in {TrendFlip, Ttl, EndOfData} ==> t.exitPrice == bars[e].close)
    && (t.exitReason == EndOfData ==> e == |bars| - 1)
  }

  lemma StepConserves(config: Config, signal: Signal, bars: seq<Bar>, i: nat, p: Position)
    requires signal.index <= i < |bars| && Conserved(config, signal, bars, i, p)
    requires !p.t1Done ==> p.stop == signal.stopLoss
    ensures match BarStep(config, signal, bars[i], i, p)
            case Open(n) => Conserved(config, signal, bars, i + 1, n) && (!n.t1Done ==> n.stop == signal.stopLoss)
            case Closed(f, price, reason) => Accounted(config, signal, bars, MakeTrade(signal, f, price, reason, i))
  {
    var bar := bars[i];
    if StopHit(signal.direction, bar, p.stop) || i <= signal.index {
    } else if TargetHit(signal.direction, bar, signal.targetPrice) && !p.t1Done && !config.partialMode {
    } else {
      ManagedConserves(config, signal, bars, i, p);
      LateExitAccounts(config, signal, bars, i, Managed(config, signal, bar, i, p));
    }
  }

  lemma LateExitAccounts(config: Config, signal: Signal, bars: seq<Bar>, i: nat, q: Position)
    requires signal.index <= i < |bars| && Conserved(config, signal, bars, i + 1, q)
    ensures match LateExits(config, signal, bars[i], i, q)
            case Open(n) => n == q
            case Closed(f, price, reason) => Accounted(config, signal, bars, MakeTrade(signal, f, price, reason, i))
  {}

  lemma {:induction false} RunAccounts(config: Config, signal: Signal, bars: seq<Bar>, i: nat, p: Position)
    requires signal.index <= i <= |bars| && signal.index < |bars| && Conserved(config, signal, bars, i, p)
    requires !p.t1Done ==> p.stop == signal.stopLoss
    ensures Accounted(config, signal, bars, RunFrom(config, signal, bars, i, p))
    decreases |bars| - i
  {
    if i < |bars| {
      StepConserves(config, signal, bars, i, p);
      match BarStep(config, signal, bars[i], i, p)
      case Open(n) => RunAccounts(config, signal, bars, i + 1, n);
      case Closed(_, _, _) =>
    }
  }

  /** The R of a list of exits: each fraction times the R of the price it left at. */
  function WeightedR(signal: Signal, partials: seq<PartialExit>): real {
    if partials == [] then 0.0
    else partials[0].fraction * RMultiple(signal, partials[0].price) + WeightedR(signal, partials[1..])
  }

  function ClosedFraction(partials: seq<PartialExit>): real {
    if partials == [] then 0.0 else partials[0].fraction + ClosedFraction(partials[1..])
  }

  /** A stopped trade left at the stop in force in its exit bar. */
  ghost predicate StoppedOut(config: Config, signal: Signal, bars: seq<Bar>, t: Trade) {
    var e := ExitIndex(signal, t);
    && signal.index <= e <= |bars| && PositionAt(config, signal, bars, e).Some?
    && t.exitPrice == PositionAt(config, signal, bars, e).value.stop
  }

  lemma {:induction false} StopIsInForce(config: Config, signal: Signal, bars: seq<Bar>, k: nat)
    requires signal.index <= k <= |bars| && |bars| > 0 && PositionAt(config, signal, bars, k).Some?
    ensures var t := RunFrom(config, signal, bars, k, PositionAt(config, signal, bars, k).value);
            t.exitReason == StopLoss ==> StoppedOut(config, signal, bars, t)
    decreases |bars| - k
  {
    if k < |bars| && PositionAt(config, signal, bars, k + 1).Some? {
      StopIsInForce(config, signal, bars, k + 1);
    }
  }

  /**
   Conservation: fractions add up to one, R is the fraction-weighted R of the exit prices, and the last of these is the
   price its reason names, for a stop the one then in force.
   */
  lemma Conservation(config: Config, signal: Signal, bars: seq<Bar>)
    requires signal.index < |bars|
    ensures var t := Simulate(config, signal, bars);
            var final := OpenFraction(|t.partials|);
            && Accounted(config, signal, bars, t)
            && ClosedFraction(t.partials) + final == 1.0
            && t.rMultiple == WeightedR(signal, t.partials) + final * RMultiple(signal, t.exitPrice)
            && (t.exitReason == StopLoss ==> StoppedOut(config, signal, bars, t))
  {
    RunAccounts(config, signal, bars, signal.index, Opening(signal));
    var t := Simulate(config, signal, bars);
    LedgerSums(signal, bars, t.partials, ExitIndex(signal, t) + 1);
    StopIsInForce(config, signal, bars, signal.index);
  }

  lemma LedgerSums(signal: Signal, bars: seq<Bar>, ps: seq<PartialExit>, limit: int)
    requires Ledger(signal, bars, ps, limit)
    ensures Booked(ps) == WeightedR(signal, ps)
    ensures ClosedFraction(ps) + OpenFraction(|ps|) == 1.0
  {
    if |ps| == 1 {
      assert ps[..0] == [] && ps[1..] == [];
    } else if |ps| == 2 {
      var first, second := ps[..1], ps[1..];
      assert first[..0] == [] && second[1..] == [];
      assert Booked(first) == ps[0].rMultiple && ClosedFraction(second) == 0.25;
      assert WeightedR(signal, second) == 0.25 * RMultiple(signal, ps[1].price);
    }
  }

  // ------------------------------------------------------------------------
  // Bounds and lock-in
  // ------------------------------------------------------------------------

  /** R of the close of the bar in which the partial target was taken. */
  function TargetBarR(signal: Signal, bars: seq<Bar>, partials: seq<PartialExit>): real
    requires partials != [] && 0 <= partials[0].bar < |bars|
  {
    RMultiple(signal, bars[partials[0].bar].close)
  }

  /** The worst R at which anything can still leave, given the partial exits so far. */
  function FloorR(signal: Signal, bars: seq<Bar>, partials: seq<PartialExit>): real {
    if partials != [] && 0 <= partials[0].bar < |bars| then Min(0.0, TargetBarR(signal, bars, partials)) else -1.0
  }

  /** Nothing has left, and nothing will leave, below the floor. */
  ghost predicate Floored(signal: Signal, bars: seq<Bar>, p: Position) {
    && RMultiple(signal, p.stop) >= (if p.t1Done then 0.0 else -1.0)
    && (p.partials != [] ==> FloorR(signal, bars, p.partials) > -1.0)
    && (|p.partials| == 2 ==> RMultiple(signal, p.partials[1].price) >= FloorR(signal, bars, p.partials))
  }

  /** A bar that leaves the stop untouched closes on the favourable side of it. */
  lemma CloseBeatsStop(signal: Signal, bar: Bar, stop: real)
    requires WellPosed(signal) && ConsistentBar(bar) && !StopHit(signal.direction, bar, stop)
    ensures RMultiple(signal, bar.close) > RMultiple(signal, stop)
  {
    ROrder(signal, stop, bar.close);
  }

  lemma TargetKeepsFloor(config: Config, signal: Signal, bars: seq<Bar>, i: nat, p: Position)
    requires WellPosed(signal) && signal.index < i < |bars| && ConsistentBar(bars[i])
    requires !StopHit(signal.direction, bars[i], p.stop)
    requires Conserved(config, signal, bars, i, p) && Floored(signal, bars, p)
    ensures var q := AfterTarget(config, signal, bars[i], i, p);
            Floored(signal, bars, q) && RMultiple(signal, bars[i].close) >= FloorR(signal, bars, q.partials)
  {
    RAnchors(signal);
    CloseBeatsStop(signal, bars[i], p.stop);
  }

  lemma RsiKeepsFloor(config: Config, signal: Signal, bars: seq<Bar>, i: nat, p: Position)
    requires i < |bars| && Conserved(config, signal, bars, i + 1, p) && Floored(signal, bars, p)
    requires RMultiple(signal, bars[i].close) >= FloorR(signal, bars, p.partials)
    ensures var q := AfterRsi(config, signal, bars[i], i, p);
            Floored(signal, bars, q) && FloorR(signal, bars, q.partials) == FloorR(signal, bars, p.partials)
  {
    var q := AfterRsi(config, signal, bars[i], i, p);
    if q != p {
      assert q.partials[0] == p.partials[0] && q.partials[1].price == bars[i].close;
    }
  }

  lemma TrailKeepsFloor(signal: Signal, bars: seq<Bar>, bar: Bar, p: Position)
    requires WellPosed(signal) && Floored(signal, bars, p)
    ensures Floored(signal, bars, AfterTrail(signal, bar, p))
  {
    ROrder(signal, p.stop, AfterTrail(signal, bar, p).stop);
  }

  lemma ManagedKeepsFloor(config: Config, signal: Signal, bars: seq<Bar>, i: nat, p: Position)
    requires WellPosed(signal) && signal.index < i < |bars| && ConsistentBar(bars[i])
    requires !StopHit(signal.direction, bars[i], p.stop)
    requires TargetHit(signal.direction, bars[i], signal.targetPrice) && !p.t1Done ==> config.partialMode
    requires Conserved(config, signal, bars, i, p) && Floored(signal, bars, p)
    ensures var q := Managed(config, signal, bars[i], i, p);
            Floored(signal, bars, q) && RMultiple(signal, bars[i].close) >= FloorR(signal, bars, q.partials)
  {
    var p1 := AfterTarget(config, signal, bars[i], i, p);
    TargetConserves(config, signal, bars, i, p);
    TargetKeepsFloor(config, signal, bars, i, p);
    RsiKeepsFloor(config, signal, bars, i, p1);
    TrailKeepsFloor(signal, bars, bars[i], AfterRsi(config, signal, bars[i], i, p1));
  }

  /** No exit of the trade, partial or final, was below the floor. */
  ghost predicate AboveFloor(signal: Signal, bars: seq<Bar>, t: Trade) {
    && RMultiple(signal, t.exitPrice) >= FloorR(signal, bars, t.partials)
    && (t.partials != [] ==> FloorR(signal, bars, t.partials) > -1.0)
    && (|t.partials| == 2 ==> RMultiple(signal, t.partials[1].price) >= FloorR(signal, bars, t.partials))
  }

  lemma StepKeepsFloor(config: Config, signal: Signal, bars: seq<Bar>, i: nat, p: Position)
    requires WellPosed(signal) && signal.index <= i < |bars| && ConsistentBar(bars[i])
    requires Conserved(config, signal, bars, i, p) && Floored(signal, bars, p)
    ensures match BarStep(config, signal, bars[i], i, p)
            case Open(n) =>
              Floored(signal, bars, n) && RMultiple(signal, bars[i].close) >= FloorR(signal, bars, n.partials)
            case Closed(f, price, reason) => AboveFloor(signal, bars, MakeTrade(signal, f, price, reason, i))
  {
    var bar := bars[i];
    RAnchors(signal);
    if StopHit(signal.direction, bar, p.stop) {
    } else if i <= signal.index {
      CloseBeatsStop(signal, bar, p.stop);
    } else if TargetHit(signal.direction, bar, signal.targetPrice) && !p.t1Done && !config.partialMode {
    } else {
      ManagedKeepsFloor(config, signal, bars, i, p);
      LateExitKeepsFloor(config, signal, bars, i, Managed(config, signal, bar, i, p));
    }
  }

  lemma LateExitKeepsFloor(config: Config, signal: Signal, bars: seq<Bar>, i: nat, q: Position)
    requires i < |bars| && Floored(signal, bars, q)
    requires RMultiple(signal, bars[i].close) >= FloorR(signal, bars, q.partials)
    ensures match LateExits(config, signal, bars[i], i, q)
            case Open(n) => n == q
            case Closed(f, price, reason) => AboveFloor(signal, bars, MakeTrade(signal, f, price, reason, i))
  {}

  lemma {:induction false} RunKeepsFloor(config: Config, signal: Signal, bars: seq<Bar>, i: nat, p: Position)
    requires WellPosed(signal) && signal.index <= i <= |bars| && signal.index < |bars|
    requires forall k :: signal.index <= k < |bars| ==> ConsistentBar(bars[k])
    requires Conserved(config, signal, bars, i, p) && Floored(signal, bars, p)
    requires !p.t1Done ==> p.stop == signal.stopLoss
    requires i > signal.index ==> RMultiple(signal, bars[i - 1].close) >= FloorR(signal, bars, p.partials)
    ensures AboveFloor(signal, bars, RunFrom(config, signal, bars, i, p))
    decreases |bars| - i
  {
    if i < |bars| {
      StepKeepsFloor(config, signal, bars, i, p);
      StepConserves(config, signal, bars, i, p);
      match BarStep(config, signal, bars[i], i, p)
      case Open(n) => RunKeepsFloor(config, signal, bars, i + 1, n);
      case Closed(_, _, _) =>
    }
  }

  /**
   Lock-in. Every trade ends at -1R or better. Once the partial target is taken, half of R(target) is
   banked and the rest cannot leave below the worse of breakeven and the close of that bar; so R is more than
   (R(target) - 1)/2, and at least R(target)/2 when that bar closed no worse than the entry.
   */
  lemma LockIn(config: Config, signal: Signal, bars: seq<Bar>)
    requires WellPosed(signal) && signal.index < |bars|
    requires forall k :: signal.index <= k < |bars| ==> ConsistentBar(bars[k])
    ensures var t := Simulate(config, signal, bars);
            && t.rMultiple >= -1.0
            && (t.partials != [] ==>
                  var b := t.partials[0].bar;
                  var rTarget := RMultiple(signal, signal.targetPrice);
                  && signal.index < b < |bars|
                  && t.rMultiple >= (rTarget + Min(0.0, RMultiple(signal, bars[b].close))) / 2.0
                  && t.rMultiple > (rTarget - 1.0) / 2.0
                  && (Gain(signal.direction, signal.entryPrice, bars[b].close) >= 0.0 ==>
                        t.rMultiple >= rTarget / 2.0))
  {
    var t := Simulate(config, signal, bars);
    RAnchors(signal);
    RunKeepsFloor(config, signal, bars, signal.index, Opening(signal));
    RunAccounts(config, signal, bars, signal.index, Opening(signal));
    BookedLedger(signal, bars, t.partials, ExitIndex(signal, t) + 1);
    if t.partials != [] {
      ROrder(signal, signal.entryPrice, bars[t.partials[0].bar].close);
    }
  }

  lemma BookedLedger(signal: Signal, bars: seq<Bar>, ps: seq<PartialExit>, limit: int)
    requires Ledger(signal, bars, ps, limit)
    ensures |ps| == 0 ==> Booked(ps) == 0.0
    ensures |ps| == 1 ==> Booked(ps) == 0.5 * RMultiple(signal, signal.targetPrice)
    ensures |ps| == 2 ==> Booked(ps) == 0.5 * RMultiple(signal, signal.targetPrice)
                                        + 0.25 * RMultiple(signal, ps[1].price)
  {
    if |ps| == 2 {
      assert Booked(ps[..1]) == ps[0].rMultiple;
    }
  }

  /** Without partial exits, a trade entered at the close of its signal bar earns at most R(target). */
  lemma {:induction false} RunCapped(config: Config, signal: Signal, bars: seq<Bar>, i: nat)
    requires WellPosed(signal) && signal.index <= i <= |bars| && signal.index < |bars| && !config.partialMode
    requires forall k :: signal.index <= k < |bars| ==> ConsistentBar(bars[k])
    requires i > signal.index ==> RMultiple(signal, bars[i - 1].close) <= RMultiple(signal, signal.targetPrice)
    requires bars[signal.index].close == signal.entryPrice
    ensures var t := RunFrom(config, signal, bars, i, Opening(signal));
            t.partials == [] && t.rMultiple <= RMultiple(signal, signal.targetPrice)
    decreases |bars| - i
  {
    RAnchors(signal);
    if i < |bars| {
      if !TargetHit(signal.direction, bars[i], signal.targetPrice) {
        ROrder(signal, bars[i].close, signal.targetPrice);
      }
      match BarStep(config, signal, bars[i], i, Opening(signal))
      case Open(n) =>
        assert n == Opening(signal);
        RunCapped(config, signal, bars, i + 1);
      case Closed(_, _, _) =>
    }
  }

  lemma FullExitCap(config: Config, signal: Signal, bars: seq<Bar>)
    requires WellPosed(signal) && signal.index < |bars| && !config.partialMode
    requires forall k :: signal.index <= k < |bars| ==> ConsistentBar(bars[k])
    requires bars[signal.index].close == signal.entryPrice
    ensures var t := Simulate(config, signal, bars);
            t.partials == [] && -1.0 <= t.rMultiple <= RMultiple(signal, signal.targetPrice)
  {
    RunCapped(config, signal, bars, signal.index);
    LockIn(config, signal, bars);
  }

  /** The circuit breaker: no trade is held longer than `ttlBars`, and a TTL exit is exactly that old. */
  lemma {:induction false} RunRespectsTtl(config: Config, signal: Signal, bars: seq<Bar>, i: nat, p: Position)
    requires signal.index <= i <= |bars| && signal.index < |bars|
    requires config.ttlBars > 0 ==> i <= signal.index + config.ttlBars
    ensures var t := RunFrom(config, signal, bars, i, p);
            && 0 <= t.barsHeld < |bars| - signal.index
            && (config.ttlBars > 0 ==> t.barsHeld <= config.ttlBars)
            && (t.exitReason == Ttl ==> t.barsHeld == config.ttlBars > 0)
    decreases |bars| - i
  {
    if i < |bars| {
      match BarStep(config, signal, bars[i], i, p)
      case Open(n) => RunRespectsTtl(config, signal, bars, i + 1, n);
      case Closed(_, _, _) =>
    }
  }

  // ------------------------------------------------------------------------
  // The ratchet
  // ------------------------------------------------------------------------

  /** The position held into bar `k`, or None once the trade is closed. */
  function PositionAt(config: Config, signal: Signal, bars: seq<Bar>, k: nat): Option<Position>
    requires signal.index <= k <= |bars|
    decreases k
  {
    if k == signal.index then Some(Opening(signal))
    else
      match PositionAt(config, signal, bars, k - 1)
      case None => None
      case Some(p) =>
        match BarStep(config, signal, bars[k - 1], k - 1, p)
        case Open(n) => Some(n)
        case Closed(_, _, _) => None
  }

  ghost predicate StopInForce(signal: Signal, p: Position) {
    && (p.trailingActive ==> p.t1Done)
    && Gain(signal.direction, signal.stopLoss, p.stop) >= 0.0
    && (if p.t1Done then Gain(signal.direction, signal.entryPrice, p.stop) >= 0.0 else p.stop == signal.stopLoss)
  }

  lemma StepRatchets(config: Config, signal: Signal, bar: Bar, i: int, p: Position)
    requires WellPosed(signal) && StopInForce(signal, p)
    ensures match BarStep(config, signal, bar, i, p)
            case Open(n) => StopInForce(signal, n) && Gain(signal.direction, p.stop, n.stop) >= 0.0
            case Closed(_, _, _) => true
  {
    var p1 := AfterTarget(config, signal, bar, i, p);
    assert StopInForce(signal, p1) && Gain(signal.direction, p.stop, p1.stop) >= 0.0;
    var p2 := AfterRsi(config, signal, bar, i, p1);
    assert StopInForce(signal, p2) && p2.stop == p1.stop;
    var p3 := AfterTrail(signal, bar, p2);
    assert StopInForce(signal, p3) && Gain(signal.direction, p2.stop, p3.stop) >= 0.0;
  }

  lemma {:induction false} StopsAreInForce(config: Config, signal: Signal, bars: seq<Bar>, k: nat)
    requires WellPosed(signal) && signal.index <= k <= |bars|
    requires PositionAt(config, signal, bars, k).Some?
    ensures StopInForce(signal, PositionAt(config, signal, bars, k).value)
    decreases k
  {
    if k > signal.index {
      StopsAreInForce(config, signal, bars, k - 1);
      StepRatchets(config, signal, bars[k - 1], k - 1, PositionAt(config, signal, bars, k - 1).value);
    }
  }

  /** The working stop never moves against the position, over any stretch of the trade. */
  lemma {:induction false} Ratchet(config: Config, signal: Signal, bars: seq<Bar>, j: nat, k: nat)
    requires WellPosed(signal) && signal.index <= j <= k <= |bars|
    requires PositionAt(config, signal, bars, k).Some?
    ensures PositionAt(config, signal, bars, j).Some?
    ensures var early, late := PositionAt(config, signal, bars, j).value, PositionAt(config, signal, bars, k).value;
            StopInForce(signal, late) && Gain(signal.direction, early.stop, late.stop) >= 0.0
    decreases k
  {
    StopsAreInForce(config, signal, bars, k);
    if j < k {
      Ratchet(config, signal, bars, j, k - 1);
      var p := PositionAt(config, signal, bars, k - 1).value;
      StopsAreInForce(config, signal, bars, k - 1);
      StepRatchets(config, signal, bars[k - 1], k - 1, p);
    }
  }

  /** `Simulate` is the run through those positions; a stopped trade leaves at the stop then in force. */
  lemma {:induction false} RunThrough(config: Config, signal: Signal, bars: seq<Bar>, k: nat)
    requires signal.index <= k <= |bars| && |bars| > 0 && PositionAt(config, signal, bars, k).Some?
    ensures var p := PositionAt(config, signal, bars, k).value;
            && Simulate(config, signal, bars) == RunFrom(config, signal, bars, k, p)
            && (k < |bars| && StopHit(signal.direction, bars[k], p.stop) ==>
                  var t := Simulate(config, signal, bars);
                  t.exitReason == StopLoss && t.exitPrice == p.stop && ExitIndex(signal, t) == k)
    decreases k
  {
    if k > signal.index {
      RunThrough(config, signal, bars, k - 1);
    }
  }

  // ------------------------------------------------------------------------
  // Exit discipline
  // ------------------------------------------------------------------------

  ghost predicate OnTrendSide(config: Config, signal: Signal, bar: Bar) {
    var ema := if config.exitEma == Ema200 then bar.ema200 else bar.ema50;
    ema == None || (if signal.direction == Long then bar.close >= ema.value else bar.close <= ema.value)
  }

  ghost predicate ReachesTarget(signal: Signal, bar: Bar) {
    if signal.direction == Long then bar.high >= signal.targetPrice else bar.low <= signal.targetPrice
  }

  ghost predicate InExtreme(signal: Signal, bar: Bar) {
    bar.rsi.Some? && (if signal.direction == Long then bar.rsi.value > 70.0 else bar.rsi.value < 30.0)
  }

  /** The partial exits were taken at the first bars before `i` that earn them: the first touch, the first extreme. */
  ghost predicate Prompt(signal: Signal, bars: seq<Bar>, i: int, partials: seq<PartialExit>) {
    && i <= |bars|
    && (forall k :: signal.index < k < i && (partials == [] || k < partials[0].bar) ==> !ReachesTarget(signal, bars[k]))
    && (partials != [] ==>
          && signal.index < partials[0].bar < |bars| && ReachesTarget(signal, bars[partials[0].bar])
          && forall k :: partials[0].bar <= k < i && (|partials| == 1 || k < partials[1].bar) ==>
               !InExtreme(signal, bars[k]))
    && (|partials| == 2 ==> signal.index < partials[1].bar < |bars| && InExtreme(signal, bars[partials[1].bar]))
  }

  /** No bar before `i` closed on the wrong side of the exit EMA. */
  ghost predicate InTrend(config: Config, signal: Signal, bars: seq<Bar>, i: int) {
    i <= |bars| && forall k :: signal.index < k < i ==> OnTrendSide(config, signal, bars[k])
  }

  /**
   Each exit reason names an event of the exit bar, and nothing earlier would have closed the trade. A stop or a full
   target ends the bar before its partial exits are looked at; every other exit comes after them.
   */
  ghost predicate ExitJustified(config: Config, signal: Signal, bars: seq<Bar>, t: Trade) {
    var e := ExitIndex(signal, t);
    && 0 <= e < |bars|
    && InTrend(config, signal, bars, e)
    && Prompt(signal, bars, if t.exitReason in {StopLoss, Target} then e else e + 1, t.partials)
    && (t.exitReason == TrendFlip ==> !OnTrendSide(config, signal, bars[e]))
    && (t.exitReason == Target ==> ReachesTarget(signal, bars[e]))
    && (t.exitReason == StopLoss ==>
          if signal.direction == Long then bars[e].low <= t.exitPrice else bars[e].high >= t.exitPrice)
    && (t.exitReason == Ttl ==> config.ttlBars > 0 && t.barsHeld >= config.ttlBars)
  }

  lemma TargetIsPrompt(config: Config, signal: Signal, bars: seq<Bar>, i: nat, p: Position)
    requires signal.index < i < |bars| && Conserved(config, signal, bars, i, p) && Prompt(signal, bars, i, p.partials)
    requires ReachesTarget(signal, bars[i]) && !p.t1Done ==> config.partialMode
    ensures Prompt(signal, bars, i, AfterTarget(config, signal, bars[i], i, p).partials)
    ensures var q := AfterTarget(config, signal, bars[i], i, p);
            if q.partials == [] then !ReachesTarget(signal, bars[i]) else q.partials[0].bar <= i
  {}

  lemma RsiIsPrompt(config: Config, signal: Signal, bars: seq<Bar>, i: nat, p: Position)
    requires signal.index < i < |bars| && Conserved(config, signal, bars, i + 1, p)
    requires Prompt(signal, bars, i, p.partials)
    requires if p.partials == [] then !ReachesTarget(signal, bars[i]) else p.partials[0].bar <= i
    ensures Prompt(signal, bars, i + 1, AfterRsi(config, signal, bars[i], i, p).partials)
  {
    var q := AfterRsi(config, signal, bars[i], i, p);
    if q != p {
      assert |p.partials| == 1 && q.partials[0] == p.partials[0] && q.partials[1].bar == i;
    }
  }

  lemma ManagedIsPrompt(config: Config, signal: Signal, bars: seq<Bar>, i: nat, p: Position)
    requires signal.index < i < |bars| && Conserved(config, signal, bars, i, p) && Prompt(signal, bars, i, p.partials)
    requires ReachesTarget(signal, bars[i]) && !p.t1Done ==> config.partialMode
    ensures Prompt(signal, bars, i + 1, Managed(config, signal, bars[i], i, p).partials)
  {
    TargetConserves(config, signal, bars, i, p);
    TargetIsPrompt(config, signal, bars, i, p);
    RsiIsPrompt(config, signal, bars, i, AfterTarget(config, signal, bars[i], i, p));
  }

  lemma LateExitIsDisciplined(config: Config, signal: Signal, bars: seq<Bar>, i: nat, q: Position)
    requires signal.index < i < |bars| && InTrend(config, signal, bars, i) && Prompt(signal, bars, i + 1, q.partials)
    ensures match LateExits(config, signal, bars[i], i, q)
            case Open(n) => n == q && InTrend(config, signal, bars, i + 1)
            case Closed(f, price, reason) => ExitJustified(config, signal, bars, MakeTrade(signal, f, price, reason, i))
  {}

  lemma StepIsDisciplined(config: Config, signal: Signal, bars: seq<Bar>, i: nat, p: Position)
    requires signal.index <= i < |bars| && Conserved(config, signal, bars, i, p)
    requires InTrend(config, signal, bars, i) && Prompt(signal, bars, i, p.partials)
    ensures match BarStep(config, signal, bars[i], i, p)
            case Open(n) => InTrend(config, signal, bars, i + 1) && Prompt(signal, bars, i + 1, n.partials)
            case Closed(f, price, reason) => ExitJustified(config, signal, bars, MakeTrade(signal, f, price, reason, i))
  {
    var bar := bars[i];
    if StopHit(signal.direction, bar, p.stop) || i <= signal.index {
    } else if TargetHit(signal.direction, bar, signal.targetPrice) && !p.t1Done && !config.partialMode {
    } else {
      ManagedIsPrompt(config, signal, bars, i, p);
      LateExitIsDisciplined(config, signal, bars, i, Managed(config, signal, bar, i, p));
    }
  }

  lemma {:induction false} RunIsDisciplined(config: Config, signal: Signal, bars: seq<Bar>, i: nat, p: Position)
    requires signal.index <= i <= |bars| && signal.index < |bars| && Conserved(config, signal, bars, i, p)
    requires !p.t1Done ==> p.stop == signal.stopLoss
    requires InTrend(config, signal, bars, i) && Prompt(signal, bars, i, p.partials)
    ensures ExitJustified(config, signal, bars, RunFrom(config, signal, bars, i, p))
    decreases |bars| - i
  {
    if i < |bars| {
      StepIsDisciplined(config, signal, bars, i, p);
      StepConserves(config, signal, bars, i, p);
      match BarStep(config, signal, bars[i], i, p)
      case Open(n) => RunIsDisciplined(config, signal, bars, i + 1, n);
      case Closed(_, _, _) =>
    }
  }

  /** The trade closes at the first bar that gives it a reason to, and takes its partial exits at the right bars. */
  lemma ExitDiscipline(config: Config, signal: Signal, bars: seq<Bar>)
    requires signal.index < |bars|
    ensures ExitJustified(config, signal, bars, Simulate(config, signal, bars))
  {
    RunIsDisciplined(config, signal, bars, signal.index, Opening(signal));
  }

  /** Where bar `j` would put a trailing stop. */
  function TrailLevel(signal: Signal, bar: Bar): Option<real> {
    if bar.atr.None? then None
    else if signal.direction == Long then Some(bar.close - bar.atr.value) else Some(bar.close + bar.atr.value)
  }

  /** The working stop is the best of breakeven and, when trailing, the trail levels since the partial target. */
  ghost predicate TrailingLaw(config: Config, signal: Signal, bars: seq<Bar>, k: nat, p: Position) {
    && k <= |bars|
    && (p.partials == [] ==> !p.t1Done && !p.trailingActive && p.stop == signal.stopLoss)
    && (p.partials != [] ==>
          var b := p.partials[0].bar;
          && signal.index < b <= k && p.t1Done && p.trailingActive == config.trailingStop
          && (config.trailingStop ==> forall j :: b <= j < k && TrailLevel(signal, bars[j]).Some? ==>
                Gain(signal.direction, TrailLevel(signal, bars[j]).value, p.stop) >= 0.0)
          && Gain(signal.direction, signal.entryPrice, p.stop) >= 0.0
          && (p.stop == signal.entryPrice ||
                (config.trailingStop && exists j :: b <= j < k && TrailLevel(signal, bars[j]) == Some(p.stop))))
  }

  lemma ReductionsTrail(config: Config, signal: Signal, bars: seq<Bar>, k: nat, p: Position)
    requires signal.index < k < |bars| && TrailingLaw(config, signal, bars, k, p)
    ensures var p1 := AfterTarget(config, signal, bars[k], k, p);
            TrailingLaw(config, signal, bars, k, AfterRsi(config, signal, bars[k], k, p1))
  {
    var p1 := AfterTarget(config, signal, bars[k], k, p);
    assert TrailingLaw(config, signal, bars, k, p1);
    var p2 := AfterRsi(config, signal, bars[k], k, p1);
    assert p1.partials != [] ==> p2.partials[0] == p1.partials[0];
  }

  lemma TrailTrails(config: Config, signal: Signal, bars: seq<Bar>, k: nat, p: Position)
    requires k < |bars| && TrailingLaw(config, signal, bars, k, p)
    ensures TrailingLaw(config, signal, bars, k + 1, AfterTrail(signal, bars[k], p))
  {
    var q := AfterTrail(signal, bars[k], p);
    assert Gain(signal.direction, p.stop, q.stop) >= 0.0;
    if q.stop != p.stop {
      assert TrailLevel(signal, bars[k]) == Some(q.stop);
    }
  }

  lemma StepTrails(config: Config, signal: Signal, bars: seq<Bar>, k: nat, p: Position)
    requires signal.index <= k < |bars| && TrailingLaw(config, signal, bars, k, p)
    ensures match BarStep(config, signal, bars[k], k, p)
            case Open(n) => TrailingLaw(config, signal, bars, k + 1, n)
            case Closed(_, _, _) => true
  {
    if k > signal.index {
      var p1 := AfterTarget(config, signal, bars[k], k, p);
      ReductionsTrail(config, signal, bars, k, p);
      TrailTrails(config, signal, bars, k, AfterRsi(config, signal, bars[k], k, p1));
    }
  }

  /** Exact value of the working stop at every bar of the trade. */
  lemma {:induction false} TrailingStopValue(config: Config, signal: Signal, bars: seq<Bar>, k: nat)
    requires signal.index <= k <= |bars| && PositionAt(config, signal, bars, k).Some?
    ensures TrailingLaw(config, signal, bars, k, PositionAt(config, signal, bars, k).value)
    decreases k
  {
    if k > signal.index {
      TrailingStopValue(config, signal, bars, k - 1);
      StepTrails(config, signal, bars, k - 1, PositionAt(config, signal, bars, k - 1).value);
    }
  }

  // ------------------------------------------------------------------------
  // What each managed exit is worth
  // ------------------------------------------------------------------------

  /** R of the position if the rest of it left at `price`. */
  function Worth(signal: Signal, p: Position, price: real): real {
    p.realizedR + Contribution(signal, p.remaining, price)
  }

  lemma HalfKeepsWorth(signal: Signal, p: Position, i: int, price: real, reason: ExitReason)
    ensures Worth(signal, TakeHalf(signal, p, i, price, reason), price) == Worth(signal, p, price)
  {
    var r, half := RMultiple(signal, price), p.remaining * 0.5;
    assert half * r + (p.remaining - half) * r == p.remaining * r;
  }

  /**
   Taking half at the target changes nothing for a position marked to the target. It secures half of that worth: at the
   new stop the rest is worth exactly zero. It happens at the first touch, and never again.
   */
  lemma TargetSecuresHalf(config: Config, signal: Signal, bar: Bar, i: int, p: Position, later: Bar, j: int)
    ensures var q := AfterTarget(config, signal, bar, i, p);
            && Worth(signal, q, signal.targetPrice) == Worth(signal, p, signal.targetPrice)
            && (q.t1Done <==> p.t1Done || ReachesTarget(signal, bar))
            && (!p.t1Done && q.t1Done ==>
                  && Worth(signal, q, q.stop) == (p.realizedR + Worth(signal, p, signal.targetPrice)) / 2.0
                  && RMultiple(signal, q.stop) == 0.0 && q.trailingActive == config.trailingStop)
            && q.rsiDone == p.rsiDone && (q.t1Done ==> AfterTarget(config, signal, later, j, q) == q)
  {
    HalfKeepsWorth(signal, p, i, signal.targetPrice, PartialTarget);
    var q := AfterTarget(config, signal, bar, i, p);
    if !p.t1Done && q.t1Done {
      assert RMultiple(signal, q.stop) == 0.0;
      assert q.remaining * 0.0 == 0.0;
      var r := RMultiple(signal, signal.targetPrice);
      assert (p.remaining * 0.5) * r == (p.remaining * r) / 2.0;
    }
  }

  /** The RSI reduction keeps the worth at the close and the stop, needs the partial target and happens once. */
  lemma ReductionKeepsWorth(config: Config, signal: Signal, bar: Bar, i: int, p: Position, later: Bar, j: int)
    ensures var q := AfterRsi(config, signal, bar, i, p);
            && Worth(signal, q, bar.close) == Worth(signal, p, bar.close)
            && q.stop == p.stop && q.t1Done == p.t1Done && q.trailingActive == p.trailingActive
            && (q.rsiDone <==> p.rsiDone || (config.partialMode && p.t1Done && InExtreme(signal, bar)))
            && (q.rsiDone ==> AfterRsi(config, signal, later, j, q) == q)
  {
    HalfKeepsWorth(signal, p, i, bar.close, RsiExtreme);
  }

  /** Trailing moves nothing but the stop, to the better of itself and the bar's trail level. */
  lemma TrailKeepsBest(signal: Signal, bar: Bar, p: Position)
    ensures var q := AfterTrail(signal, bar, p);
            && q == p.(stop := q.stop)
            && Gain(signal.direction, p.stop, q.stop) >= 0.0
            && (p.trailingActive && TrailLevel(signal, bar).Some? ==>
                  Gain(signal.direction, TrailLevel(signal, bar).value, q.stop) >= 0.0)
            && (q.stop == p.stop || (p.trailingActive && TrailLevel(signal, bar) == Some(q.stop)))
  {}

  // ------------------------------------------------------------------------
  // Causality
  // ------------------------------------------------------------------------

  lemma {:induction false} RunIsCausal(config: Config, signal: Signal, bars: seq<Bar>, other: seq<Bar>,
                                       i: nat, p: Position)
    requires signal.index <= i <= |bars| && |bars| > 0
    requires var t := RunFrom(config, signal, bars, i, p);
             var e := ExitIndex(signal, t);
             t.exitReason != EndOfData && e < |other| && (0 <= e ==> e < |bars| && bars[..e + 1] == other[..e + 1])
    ensures |other| > 0 && RunFrom(config, signal, other, i, p) == RunFrom(config, signal, bars, i, p)
    decreases |bars| - i
  {
    var t := RunFrom(config, signal, bars, i, p);
    ExitNotBefore(config, signal, bars, i, p);
    var e := ExitIndex(signal, t);
    assert bars[i] == bars[..e + 1][i] == other[..e + 1][i];
    match BarStep(config, signal, bars[i], i, p)
    case Open(n) => RunIsCausal(config, signal, bars, other, i + 1, n);
    case Closed(_, _, _) =>
  }

  lemma {:induction false} ExitNotBefore(config: Config, signal: Signal, bars: seq<Bar>, i: nat, p: Position)
    requires i <= |bars| && |bars| > 0
    ensures var t := RunFrom(config, signal, bars, i, p);
            t.exitReason != EndOfData ==> i <= ExitIndex(signal, t) < |bars|
    decreases |bars| - i
  {
    if i < |bars| {
      match BarStep(config, signal, bars[i], i, p)
      case Open(n) => ExitNotBefore(config, signal, bars, i + 1, n);
      case Closed(_, _, _) =>
    }
  }

  /** A trade not closed by the end of data depends on no bar after its exit. */
  lemma Causality(config: Config, signal: Signal, bars: seq<Bar>, other: seq<Bar>)
    requires signal.index < |bars|
    requires var t := Simulate(config, signal, bars);
             var e := ExitIndex(signal, t);
             t.exitReason != EndOfData && 0 <= e < |bars| && e < |other| && bars[..e + 1] == other[..e + 1]
    ensures Simulate(config, signal, other) == Simulate(config, signal, bars)
  {
    RunIsCausal(config, signal, bars, other, signal.index, Opening(signal));
  }

  // ------------------------------------------------------------------------
  // Long/short mirror
  // ------------------------------------------------------------------------

  function Opposite(d: Direction): Direction {
    if d.Long? then Short else Long
  }

  function Reflect(K: real, x: Option<real>): Option<real> {
    if x.Some? then Some(K - x.value) else None
  }

  /** The bar seen upside down: prices p become K - p, RSI r becomes 100 - r. */
  function MirrorBar(K: real, b: Bar): Bar {
    Bar(K - b.open, K - b.low, K - b.high, K - b.close, Reflect(K, b.ema200), Reflect(K, b.ema50),
        Reflect(100.0, b.rsi), Reflect(100.0, b.rsiPrev), b.atr)
  }

  function MirrorBars(K: real, bars: seq<Bar>): (r: seq<Bar>)
    ensures |r| == |bars| && forall k :: 0 <= k < |bars| ==> r[k] == MirrorBar(K, bars[k])
  {
    seq(|bars|, k requires 0 <= k < |bars| => MirrorBar(K, bars[k]))
  }

  function MirrorSignal(K: real, s: Signal): Signal {
    s.(direction := Opposite(s.direction), entryPrice := K - s.entryPrice, stopLoss := K - s.stopLoss,
       targetPrice := K - s.targetPrice, rsi := 100.0 - s.rsi, rsiPrev := 100.0 - s.rsiPrev)
  }

  function MirrorPartials(K: real, ps: seq<PartialExit>): (r: seq<PartialExit>)
    ensures |r| == |ps| && forall k :: 0 <= k < |ps| ==> r[k] == ps[k].(price := K - ps[k].price)
  {
    seq(|ps|, k requires 0 <= k < |ps| => ps[k].(price := K - ps[k].price))
  }

  function MirrorPosition(K: real, p: Position): Position {
    p.(stop := K - p.stop, partials := MirrorPartials(K, p.partials))
  }

  function MirrorTrade(K: real, t: Trade): Trade {
    t.(direction := Opposite(t.direction), entryPrice := K - t.entryPrice, stopLoss := K - t.stopLoss,
       targetPrice := K - t.targetPrice, exitPrice := K - t.exitPrice, partials := MirrorPartials(K, t.partials))
  }

  function MirrorOutcome(K: real, o: BarOutcome): BarOutcome {
    match o
    case Open(p) => Open(MirrorPosition(K, p))
    case Closed(p, price, reason) => Closed(MirrorPosition(K, p), K - price, reason)
  }

  lemma MirrorR(K: real, s: Signal, price: real)
    ensures RMultiple(MirrorSignal(K, s), K - price) == RMultiple(s, price)
  {
    assert Risk(MirrorSignal(K, s)) == Risk(s);
    assert Gain(Opposite(s.direction), K - s.entryPrice, K - price) == Gain(s.direction, s.entryPrice, price);
  }

  lemma MirrorHalf(K: real, s: Signal, p: Position, i: int, price: real, reason: ExitReason)
    ensures TakeHalf(MirrorSignal(K, s), MirrorPosition(K, p), i, K - price, reason)
         == MirrorPosition(K, TakeHalf(s, p, i, price, reason))
  {
    MirrorR(K, s, price);
    var half := p.remaining * 0.5;
    MirrorAppend(K, p.partials, PartialExit(half, price, Contribution(s, half, price), reason, i));
  }

  lemma MirrorAppend(K: real, ps: seq<PartialExit>, e: PartialExit)
    ensures MirrorPartials(K, ps + [e]) == MirrorPartials(K, ps) + [e.(price := K - e.price)]
  {}

  lemma MirrorTarget(config: Config, K: real, s: Signal, b: Bar, i: int, p: Position)
    ensures AfterTarget(config, MirrorSignal(K, s), MirrorBar(K, b), i, MirrorPosition(K, p))
         == MirrorPosition(K, AfterTarget(config, s, b, i, p))
  {
    MirrorHalf(K, s, p, i, s.targetPrice, PartialTarget);
  }

  lemma MirrorRsi(config: Config, K: real, s: Signal, b: Bar, i: int, p: Position)
    ensures AfterRsi(config, MirrorSignal(K, s), MirrorBar(K, b), i, MirrorPosition(K, p))
         == MirrorPosition(K, AfterRsi(config, s, b, i, p))
  {
    MirrorHalf(K, s, p, i, b.close, RsiExtreme);
  }

  lemma MirrorTrail(K: real, s: Signal, b: Bar, p: Position)
    ensures AfterTrail(MirrorSignal(K, s), MirrorBar(K, b), MirrorPosition(K, p))
         == MirrorPosition(K, AfterTrail(s, b, p))
  {}

  lemma MirrorClose(K: real, s: Signal, p: Position, price: real, reason: ExitReason)
    ensures CloseAll(MirrorSignal(K, s), MirrorPosition(K, p), K - price, reason)
         == MirrorOutcome(K, CloseAll(s, p, price, reason))
  {
    MirrorR(K, s, price);
  }

  lemma MirrorStep(config: Config, K: real, s: Signal, b: Bar, i: int, p: Position)
    ensures BarStep(config, MirrorSignal(K, s), MirrorBar(K, b), i, MirrorPosition(K, p))
         == MirrorOutcome(K, BarStep(config, s, b, i, p))
  {
    MirrorClose(K, s, p, p.stop, StopLoss);
    MirrorClose(K, s, p, s.targetPrice, Target);
    MirrorTarget(config, K, s, b, i, p);
    var p1 := AfterTarget(config, s, b, i, p);
    MirrorRsi(config, K, s, b, i, p1);
    var p2 := AfterRsi(config, s, b, i, p1);
    MirrorTrail(K, s, b, p2);
    MirrorLateExits(config, K, s, b, i, AfterTrail(s, b, p2));
  }

  lemma MirrorLateExits(config: Config, K: real, s: Signal, b: Bar, i: int, p: Position)
    ensures LateExits(config, MirrorSignal(K, s), MirrorBar(K, b), i, MirrorPosition(K, p))
         == MirrorOutcome(K, LateExits(config, s, b, i, p))
  {
    MirrorClose(K, s, p, b.close, TrendFlip);
    MirrorClose(K, s, p, b.close, Ttl);
  }

  lemma {:induction false} MirrorRun(config: Config, K: real, s: Signal, bars: seq<Bar>, i: nat, p: Position)
    requires |bars| > 0
    ensures RunFrom(config, MirrorSignal(K, s), MirrorBars(K, bars), i, MirrorPosition(K, p))
         == MirrorTrade(K, RunFrom(config, s, bars, i, p))
    decreases |bars| - i
  {
    if i < |bars| {
      MirrorStep(config, K, s, bars[i], i, p);
      match BarStep(config, s, bars[i], i, p)
      case Open(n) => MirrorRun(config, K, s, bars, i + 1, n);
      case Closed(_, _, _) =>
    } else {
      MirrorClose(K, s, p, bars[|bars| - 1].close, EndOfData);
    }
  }

  /** Simulating the reflected signal on the reflected bars reflects the trade; R, age, reason and fractions agree. */
  lemma LongShortMirror(config: Config, K: real, s: Signal, bars: seq<Bar>)
    requires |bars| > 0
    ensures var t := Simulate(config, s, bars);
            var m := Simulate(config, MirrorSignal(K, s), MirrorBars(K, bars));
            && m == MirrorTrade(K, t)
            && m.rMultiple == t.rMultiple && m.barsHeld == t.barsHeld && m.exitReason == t.exitReason
  {
    MirrorRun(config, K, s, bars, s.index, Opening(s));
    assert MirrorPosition(K, Opening(s)) == Opening(MirrorSignal(K, s));
  }
}
