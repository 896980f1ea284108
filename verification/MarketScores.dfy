/** Trap risk, the stop multiplier it feeds, and volume authenticity (app/domain/validation.py). */
module MarketScores {
  import opened Wrappers
  import opened MarketTypes
  import opened SignalGeometry

  datatype VolumeCandle = VolumeCandle(open: real, high: real, low: real, close: real, volume: real)

  function Tail(df: seq<VolumeCandle>, n: nat): seq<VolumeCandle> {
    if |df| <= n then df else df[|df| - n..]
  }

  function Rate(count: nat, outOf: nat): real
    requires outOf > 0
  {
    count as real / outOf as real
  }

  // ------------------------------------------------------------------------
  // Trap risk
  // ------------------------------------------------------------------------

  datatype TrapReason = FalseBreaksVeto | FalseBreaksOften | FalseBreaksSome | StopHunted | VolumeClimax | PrzFailed

  function Highest(d: seq<VolumeCandle>, lo: nat, hi: nat): (h: real)
    requires lo < hi <= |d|
    ensures forall i :: lo <= i < hi ==> d[i].high <= h
    decreases hi
  {
    if hi == lo + 1 then d[lo].high else Max(Highest(d, lo, hi - 1), d[hi - 1].high)
  }

  function Lowest(d: seq<VolumeCandle>, lo: nat, hi: nat): (l: real)
    requires lo < hi <= |d|
    ensures forall i :: lo <= i < hi ==> d[i].low >= l
    decreases hi
  {
    if hi == lo + 1 then d[lo].low else Min(Lowest(d, lo, hi - 1), d[hi - 1].low)
  }

  /** A bar pierces the extreme of the five bars before it by one percent and closes back inside. */
  predicate FalseBreakAt(d: seq<VolumeCandle>, i: nat)
    requires 5 <= i < |d|
  {
    var high, low := Highest(d, i - 5, i), Lowest(d, i - 5, i);
    (d[i].high > high * 1.01 && d[i].close < high) || (d[i].low < low * 0.99 && d[i].close > low)
  }

  predicate StopHuntAt(d: seq<VolumeCandle>, i: nat)
    requires 3 <= i < |d| - 1
  {
    d[i].low < Lowest(d, i - 3, i) * 0.995 && d[i + 1].close > d[i].high
  }

  predicate ClimaxAt(d: seq<VolumeCandle>, i: nat)
    requires 1 <= i < |d|
  {
    && d[i - 1].volume > 0.0 && d[i].volume > 2.0 * d[i - 1].volume
    && var price := if d[i].close > 0.0 then d[i].close else d[i].open;
       price > 0.0 && Abs(d[i].close - d[i].open) / price < 0.015
  }

  predicate FailsPrzAt(d: seq<VolumeCandle>, low: real, high: real, bullish: bool, i: nat)
    requires i < |d|
  {
    if bullish then low <= d[i].low <= high && d[i].close < low
    else low <= d[i].high <= high && d[i].close > high
  }

  function FalseBreaks(d: seq<VolumeCandle>, k: nat): (c: nat)
    requires 5 <= k <= |d|
    ensures c <= k - 5
  {
    if k == 5 then 0 else FalseBreaks(d, k - 1) + (if FalseBreakAt(d, k - 1) then 1 else 0)
  }

  function StopHunts(d: seq<VolumeCandle>, k: nat): (c: nat)
    requires 3 <= k < |d|
    ensures c <= k - 3
  {
    if k == 3 then 0 else StopHunts(d, k - 1) + (if StopHuntAt(d, k - 1) then 1 else 0)
  }

  function Climaxes(d: seq<VolumeCandle>, k: nat): (c: nat)
    requires 1 <= k <= |d|
    ensures c <= k - 1
  {
    if k == 1 then 0 else Climaxes(d, k - 1) + (if ClimaxAt(d, k - 1) then 1 else 0)
  }

  /** What the rate of false breakouts is called. */
  function BreakReasons(rate: real): seq<TrapReason> {
    if rate > 0.25 then [FalseBreaksVeto]
    else if rate > 0.15 then [FalseBreaksOften]
    else if rate > 0.08 then [FalseBreaksSome]
    else []
  }

  function Penalty(r: TrapReason): nat {
    match r
    case FalseBreaksOften => 20
    case FalseBreaksSome => 8
    case StopHunted => 15
    case VolumeClimax => 15
    case _ => 0
  }

  function Penalties(rs: seq<TrapReason>): nat {
    if rs == [] then 0 else Penalties(rs[..|rs| - 1]) + Penalty(rs[|rs| - 1])
  }

  /** Fifty less the penalties, but at least ten. */
  function ScoreOf(rs: seq<TrapReason>): int {
    if Penalties(rs) >= 40 then 10 else 50 - Penalties(rs)
  }

  predicate IsVeto(r: TrapReason) {
    r.FalseBreaksVeto? || r.PrzFailed?
  }

  predicate Vetoes(rs: seq<TrapReason>) {
    rs != [] && (IsVeto(rs[|rs| - 1]) || Vetoes(rs[..|rs| - 1]))
  }

  predicate FailsPrz(d: seq<VolumeCandle>, low: real, high: real, bullish: bool) {
    exists i :: 0 <= i < |d| && FailsPrzAt(d, low, high, bullish, i)
  }

  function Note(given: bool, r: TrapReason): seq<TrapReason> {
    if given then [r] else []
  }

  /** What is held against a window, in the order it is looked for. */
  function Reasons(d: seq<VolumeCandle>, low: real, high: real, bullish: bool): seq<TrapReason>
    requires |d| >= 15
  {
    BreakReasons(Rate(FalseBreaks(d, |d|), |d| - 5))
    + Note(Rate(StopHunts(d, |d| - 1), |d| - 4) > 0.10, StopHunted)
    + Note(Rate(Climaxes(d, |d|), |d| - 1) > 0.12, VolumeClimax)
    + Note(FailsPrz(d, low, high, bullish), PrzFailed)
  }

  datatype TrapRisk = TrapRisk(score: int, veto: bool, reasons: seq<TrapReason>)

  /** The source's cap of ninety never applies: the score starts at fifty and only falls. */
  method QuantTrapRisk(df: seq<VolumeCandle>, low: real, high: real, bullish: bool, lookback: nat) returns (r: TrapRisk)
    ensures var d := Tail(df, lookback);
            r.reasons == if |d| < 15 then [] else Reasons(d, low, high, bullish)
    ensures r.veto <==> Vetoes(r.reasons)
    ensures r.score == ScoreOf(r.reasons)
  {
    var d := Tail(df, lookback);
    var n := |d|;
    if n < 15 { return TrapRisk(50, false, []); }
    var breaks := CountFalseBreaks(d);
    var hunts := CountStopHunts(d);
    var climaxes := CountClimaxes(d);
    var failed := SearchPrzFailure(d, low, high, bullish);
    r := Assess(Rate(breaks, n - 5), Rate(hunts, n - 4), Rate(climaxes, n - 1), failed);
  }

  method Assess(breakRate: real, huntRate: real, climaxRate: real, failed: bool) returns (r: TrapRisk)
    ensures r.reasons == BreakReasons(breakRate) + Note(huntRate > 0.10, StopHunted)
                         + Note(climaxRate > 0.12, VolumeClimax) + Note(failed, PrzFailed)
    ensures r.veto <==> Vetoes(r.reasons)
    ensures r.score == ScoreOf(r.reasons)
  {
    var score, reasons := ChargeBreaks(breakRate);
    score, reasons := Charge(score, reasons, huntRate > 0.10, StopHunted);
    score, reasons := Charge(score, reasons, climaxRate > 0.12, VolumeClimax);
    score, reasons := Charge(score, reasons, failed, PrzFailed);
    score := if score < 10 then 10 else score;
    score := if score > 90 then 90 else score;
    r := TrapRisk(score, breakRate > 0.25 || failed, reasons);
  }

  method ChargeBreaks(rate: real) returns (score: int, reasons: seq<TrapReason>)
    ensures reasons == BreakReasons(rate) && score == 50 - Penalties(reasons)
    ensures Vetoes(reasons) <==> rate > 0.25
  {
    score, reasons := 50, [];
    if rate > 0.25 {
      reasons := [FalseBreaksVeto];
    } else if rate > 0.15 {
      score, reasons := score - 20, [FalseBreaksOften];
    } else if rate > 0.08 {
      score, reasons := score - 8, [FalseBreaksSome];
    }
  }

  /** Notes a reason and takes its penalty off the score. */
  method Charge(score: int, reasons: seq<TrapReason>, given: bool, r: TrapReason) returns (s: int, rs: seq<TrapReason>)
    requires score == 50 - Penalties(reasons)
    ensures rs == reasons + Note(given, r) && s == 50 - Penalties(rs)
    ensures Vetoes(rs) <==> Vetoes(reasons) || (given && IsVeto(r))
  {
    s, rs := score, reasons;
    if given {
      PenaltiesNext(reasons, r);
      s, rs := score - Penalty(r), reasons + [r];
    } else {
      assert reasons + [] == reasons;
    }
  }

  lemma PenaltiesNext(rs: seq<TrapReason>, r: TrapReason)
    ensures Penalties(rs + [r]) == Penalties(rs) + Penalty(r)
    ensures Vetoes(rs + [r]) <==> Vetoes(rs) || IsVeto(r)
  {
    assert (rs + [r])[..|rs|] == rs;
  }

  method CountFalseBreaks(d: seq<VolumeCandle>) returns (c: nat)
    requires |d| >= 5
    ensures c == FalseBreaks(d, |d|)
  {
    c := 0;
    for i := 5 to |d|
      invariant c == FalseBreaks(d, i)
    {
      if FalseBreakAt(d, i) { c := c + 1; }
    }
  }

  method CountStopHunts(d: seq<VolumeCandle>) returns (c: nat)
    requires |d| >= 4
    ensures c == StopHunts(d, |d| - 1)
  {
    c := 0;
    for i := 3 to |d| - 1
      invariant c == StopHunts(d, i)
    {
      if StopHuntAt(d, i) { c := c + 1; }
    }
  }

  method CountClimaxes(d: seq<VolumeCandle>) returns (c: nat)
    requires |d| >= 1
    ensures c == Climaxes(d, |d|)
  {
    c := 0;
    for i := 1 to |d|
      invariant c == Climaxes(d, i)
    {
      if ClimaxAt(d, i) { c := c + 1; }
    }
  }

  method SearchPrzFailure(d: seq<VolumeCandle>, low: real, high: real, bullish: bool) returns (failed: bool)
    ensures failed <==> FailsPrz(d, low, high, bullish)
  {
    for i := 0 to |d|
      invariant forall j :: 0 <= j < i ==> !FailsPrzAt(d, low, high, bullish, j)
    {
      if FailsPrzAt(d, low, high, bullish, i) { return true; }
    }
    return false;
  }

  // ------------------------------------------------------------------------
  // The stop multiplier
  // ------------------------------------------------------------------------

  function TrapMultiplier(score: int): real {
    if score < 60 then 1.0
    else if score < 75 then 1.0 + (score - 60) as real / 15.0 * 0.5
    else if score < 85 then 1.5 + (score - 75) as real / 10.0 * 0.3
    else Min(2.0, 1.8 + (score - 85) as real / 5.0 * 0.2)
  }

  /** The knee never jumps: one more point of trap score adds between nothing and 0.04. */
  lemma MultiplierStep(score: int)
    ensures 0.0 <= TrapMultiplier(score + 1) - TrapMultiplier(score) <= 0.04
  {
    if score >= 85 {
      assert 1.8 + (score + 1 - 85) as real / 5.0 * 0.2 == 1.8 + (score - 85) as real / 5.0 * 0.2 + 0.04;
    }
  }

  lemma {:induction false} MultiplierRises(low: int, high: int)
    requires low <= high
    ensures TrapMultiplier(low) <= TrapMultiplier(high)
    decreases high - low
  {
    if low < high {
      MultiplierRises(low, high - 1);
      MultiplierStep(high - 1);
    }
  }

  /** Within the contract's range, it widens exactly above 60 and is capped exactly from 90, not from 100. */
  lemma MultiplierRange(score: int)
    ensures 1.0 <= TrapMultiplier(score) <= 2.0
    ensures TrapMultiplier(score) == 1.0 <==> score <= 60
    ensures TrapMultiplier(score) == 2.0 <==> score >= 90
  {
    MultiplierRises(if score < 60 then score else 60, score);
    if score > 60 {
      MultiplierRises(61, score);
      assert TrapMultiplier(61) > 1.0;
    }
    if score >= 90 {
      MultiplierRises(90, score);
      assert TrapMultiplier(90) == 2.0;
    } else {
      MultiplierRises(score, 89);
      assert TrapMultiplier(89) < 2.0;
    }
  }

  /**
   Whatever is held against a window, the score it gets never widens a stop: outside the high-quant regime an A or B
   signal carries the very stop it was graded with, or, given an override, exactly that multiple up to the cap.
   */
  lemma TrapNeverWidens(c: Candidate, atr: real, first: StopArgs, second: StopArgs, t: Tuning, entry: real,
                        rs: seq<TrapReason>)
    requires TwoPasses(first, second, entry) && second.trap == TrapMultiplier(ScoreOf(rs))
    ensures second.trap == 1.0
    ensures second.regime != "high_quant" && second.grade in {Some("A"), Some("B")} ==>
              if second.bufferAtr.None? then ComputeStop(c, atr, second, t) == ComputeStop(c, atr, first, t)
              else EffectiveMult(second, t) == Min(second.bufferAtr.value, MAX_STOP_BUFFER_MULT)
  {
    MultiplierRange(ScoreOf(rs));
    assert second.grade in {Some("A"), Some("B")} ==> second.grade != Some("C") && second.grade != Some(REFERENCE);
  }

  // ------------------------------------------------------------------------
  // Volume authenticity
  // ------------------------------------------------------------------------

  predicate AlignedAt(d: seq<VolumeCandle>, i: nat)
    requires 1 <= i < |d|
  {
    (d[i].close > d[i - 1].close) == (d[i].volume > d[i - 1].volume)
  }

  function Aligned(d: seq<VolumeCandle>, k: nat): (c: nat)
    requires 1 <= k <= |d|
    ensures c <= k - 1
  {
    if k == 1 then 0 else Aligned(d, k - 1) + (if AlignedAt(d, k - 1) then 1 else 0)
  }

  function Sum(v: seq<real>): real {
    if v == [] then 0.0 else Sum(v[..|v| - 1]) + v[|v| - 1]
  }

  function Volumes(d: seq<VolumeCandle>): (v: seq<real>)
    ensures |v| == |d|
  {
    seq(|d|, i requires 0 <= i < |d| => d[i].volume)
  }

  function Mean(v: seq<real>): real
    requires v != []
  {
    Sum(v) / |v| as real
  }

  function Centred(v: seq<real>, m: real): (u: seq<real>)
    ensures |u| == |v|
  {
    seq(|v|, i requires 0 <= i < |v| => v[i] - m)
  }

  function Above(v: seq<real>, x: real): (c: nat)
    ensures c <= |v|
  {
    if v == [] then 0 else Above(v[..|v| - 1], x) + (if v[|v| - 1] > x then 1 else 0)
  }

  function SumSquares(v: seq<real>): real {
    if v == [] then 0.0 else SumSquares(v[..|v| - 1]) + Times(v[|v| - 1], v[|v| - 1])
  }

  /** The sum of products of neighbours. */
  function Lagged(v: seq<real>): real {
    if |v| <= 1 then 0.0 else Lagged(v[..|v| - 1]) + Times(v[|v| - 2], v[|v| - 1])
  }

  function Autocorrelation(v: seq<real>): real {
    if SumSquares(v) > 0.0 then Lagged(v) / SumSquares(v) else 0.0
  }

  lemma SquareNonnegative(x: real)
    ensures Times(x, x) >= 0.0
  {
    if x >= 0.0 { TimesOrder(0.0, x, x); } else { assert Times(x, x) == Times(-x, -x); }
  }

  lemma TwiceProduct(a: real, b: real)
    ensures 2.0 * Abs(Times(a, b)) <= Times(a, a) + Times(b, b)
  {
    SquareNonnegative(a - b);
    SquareNonnegative(a + b);
    assert Times(a - b, a - b) == a * a - 2.0 * (a * b) + b * b;
    assert Times(a + b, a + b) == a * a + 2.0 * (a * b) + b * b;
  }

  /** Each square pays for two neighbours; the last one is only half spent. */
  lemma {:induction false} LaggedBound(v: seq<real>)
    requires v != []
    ensures 2.0 * Abs(Lagged(v)) <= 2.0 * SumSquares(v) - Times(v[|v| - 1], v[|v| - 1])
  {
    var n := |v| - 1;
    if n == 0 {
      assert SumSquares(v[..0]) == 0.0;
      SquareNonnegative(v[0]);
    } else {
      LaggedBound(v[..n]);
      TwiceProduct(v[n - 1], v[n]);
    }
  }

  /** The lag-1 autocorrelation lies in [-1, 1], for every series. */
  lemma AutocorrelationBound(v: seq<real>)
    ensures -1.0 <= Autocorrelation(v) <= 1.0
  {
    var s := SumSquares(v);
    if s > 0.0 {
      LaggedBound(v);
      SquareNonnegative(v[|v| - 1]);
      var q := Lagged(v) / s;
      assert q * s == Lagged(v);
      if q > 1.0 { TimesOrder(1.0, q, s); }
      if q < -1.0 { TimesOrder(q, -1.0, s); }
    }
  }

  function SpikeRate(v: seq<real>): (r: real)
    requires v != []
  {
    if Mean(v) > 0.0 then Rate(Above(v, Mean(v) * 2.5), |v|) else 0.0
  }

  /** Python's `round`: to the nearest integer, halves to the even one. */
  function RoundHalfEven(x: real): int {
    var f := x.Floor;
    var part := x - f as real;
    if part < 0.5 then f else if part > 0.5 then f + 1 else if f % 2 == 0 then f else f + 1
  }

  /** The score before rounding, with neither the clamp of the autocorrelation part nor that of the total. */
  function Unclamped(d: seq<VolumeCandle>): real
    requires |d| >= 10
  {
    var v := Volumes(d);
    Rate(Aligned(d, |d|), |d| - 1) * 100.0 * 0.40
    + Max(0.0, 100.0 - SpikeRate(v) * 400.0) * 0.40
    + (50.0 + Autocorrelation(Centred(v, Mean(v))) * 50.0) * 0.20
  }

  lemma RateRange(count: nat, outOf: nat)
    requires count <= outOf && outOf > 0
    ensures 0.0 <= Rate(count, outOf) <= 1.0
  {
    var x, n := Rate(count, outOf), outOf as real;
    assert x * n == count as real;
    if x > 1.0 { TimesOrder(1.0, x, n); }
    if x < 0.0 { TimesOrder(x, 0.0, n); }
  }

  lemma UnclampedRange(d: seq<VolumeCandle>)
    requires |d| >= 10
    ensures 0.0 <= Unclamped(d) <= 100.0
    ensures 0 <= RoundHalfEven(Unclamped(d)) <= 100
  {
    var v := Volumes(d);
    RateRange(Aligned(d, |d|), |d| - 1);
    if Mean(v) > 0.0 { RateRange(Above(v, Mean(v) * 2.5), |v|); }
    AutocorrelationBound(Centred(v, Mean(v)));
  }

  method VolumeAuthenticity(df: seq<VolumeCandle>, window: nat) returns (score: int)
    ensures var d := Tail(df, window);
            score == if |d| < 10 then 50 else RoundHalfEven(Unclamped(d))
    ensures 0 <= score <= 100
  {
    var d := Tail(df, window);
    var n := |d|;
    if n < 10 { return 50; }
    var aligned := 0;
    for i := 1 to n
      invariant aligned == Aligned(d, i)
    {
      if AlignedAt(d, i) { aligned := aligned + 1; }
    }
    var v := Volumes(d);
    var mean := Mean(v);
    var autocorr := Autocorrelation(Centred(v, mean));
    AutocorrelationBound(Centred(v, mean));
    var alignScore := Rate(aligned, n - 1) * 100.0;
    var spikeScore := Max(0.0, 100.0 - SpikeRate(v) * 400.0);
    var autocorrScore := Max(0.0, 50.0 + autocorr * 50.0);
    var total := alignScore * 0.40 + spikeScore * 0.40 + autocorrScore * 0.20;
    UnclampedRange(d);
    assert total == Unclamped(d);
    var rounded := RoundHalfEven(total);
    score := if rounded < 0 then 0 else rounded;
    score := if score > 100 then 100 else score;
  }
}
