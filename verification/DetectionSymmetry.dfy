/**
 When detection treats longs and shorts alike, over price histories. The
 counterexample is a market at rest for 198 bars, then three moves that bring
 the RSI exactly to the edge of its zone and out of it again.
 */
module DetectionSymmetry {
  import opened Wrappers
  import opened MarketTypes
  import opened TradeTheorems
  import opened StrategyCore
  import opened StrategyTheorems
  import opened PipelineTheorems

  /** Consistent candles with positive prices, below the price they are reflected at. */
  ghost predicate History(K: real, cs: seq<Candle>) {
    Consistent(cs) && forall k :: 0 <= k < |cs| ==> 0.0 < cs[k].low && cs[k].high < K
  }

  ghost predicate DetectsMirrored(p: DetectParams, K: real, cs: seq<Candle>) {
    Detect(p, MirrorCandles(K, cs)) == MirrorSignals(K, Detect(p, cs))
  }

  // ------------------------------------------------------------------------
  // The history
  // ------------------------------------------------------------------------

  /** How far the moves before the last one go; the nearer a negative stop multiple is to -14, the less. */
  function Scale(atrMult: real): real {
    if atrMult >= 0.0 then 1.0 else (14.0 + atrMult) / 70.0
  }

  function Peak(zone: RsiZone, c: real): real { if zone.Pullback? then 100.0 + 14.0 * c else 100.0 + 6.0 * c }

  function Trough(zone: RsiZone, c: real): real { if zone.Pullback? then 100.0 - 5.5 * c else 100.0 - 7.0 * c }

  function Moves(zone: RsiZone, c: real): seq<Candle> {
    [Candle(100.0, Peak(zone, c), 100.0, Peak(zone, c)),
     Candle(Peak(zone, c), Peak(zone, c), Trough(zone, c), Trough(zone, c)),
     Candle(Trough(zone, c), 200.0, Trough(zone, c), 200.0)]
  }

  function Market(zone: RsiZone, c: real): (cs: seq<Candle>)
    ensures |cs| == 201 && (forall i :: 0 <= i < 198 ==> cs[i] == Candle(100.0, 100.0, 100.0, 100.0))
    ensures cs[198] == Moves(zone, c)[0] && cs[199] == Moves(zone, c)[1] && cs[200] == Moves(zone, c)[2]
  {
    seq(198, _ => Candle(100.0, 100.0, 100.0, 100.0)) + Moves(zone, c)
  }

  lemma MarketIsHistory(zone: RsiZone, c: real)
    requires 0.0 < c <= 1.0
    ensures History(300.0, Market(zone, c))
  {
    var cs := Market(zone, c);
    forall k | 0 <= k < |cs| ensures ConsistentCandle(cs[k]) && 0.0 < cs[k].low && cs[k].high < 300.0 {
      if k < 198 { assert cs[k] == Candle(100.0, 100.0, 100.0, 100.0); }
    }
  }

  lemma {:induction false} Resting(zone: RsiZone, c: real, span: nat, t: nat)
    requires t < 198
    ensures Ema(Market(zone, c), span, t) == 100.0 && Atr(Market(zone, c), ATR_WINDOW, t) == 0.0
    ensures t > 0 ==> AvgGain(Market(zone, c), RSI_WINDOW, t) == 0.0 && AvgLoss(Market(zone, c), RSI_WINDOW, t) == 0.0
  {
    var cs := Market(zone, c);
    assert cs[t] == Candle(100.0, 100.0, 100.0, 100.0);
    if t > 0 {
      assert cs[t - 1] == Candle(100.0, 100.0, 100.0, 100.0);
      Resting(zone, c, span, t - 1);
    }
  }

  lemma EmaMoves(zone: RsiZone, c: real, span: nat)
    ensures var a := SpanAlpha(span);
            Ema(Market(zone, c), span, 200)
            == Blend(a, Blend(a, Blend(a, 100.0, Peak(zone, c)), Trough(zone, c)), 200.0)
  {
    var peak, trough := Peak(zone, c), Trough(zone, c);
    Resting(zone, c, span, 197);
    assert Ema(Market(zone, c), span, 198) == Blend(SpanAlpha(span), 100.0, peak);
    assert Ema(Market(zone, c), span, 199) == Blend(SpanAlpha(span), Blend(SpanAlpha(span), 100.0, peak), trough);
  }

  /** The average range is a fourteenth of the last one and a rest that shrinks with the scale. */
  lemma AtrMoves(zone: RsiZone, c: real)
    requires 0.0 < c <= 1.0
    ensures var atr, range := Atr(Market(zone, c), ATR_WINDOW, 200), 200.0 - Trough(zone, c);
            0.0 < atr <= 9.8 && 0.0 <= atr - range / 14.0 <= 2.4 * c
  {
    var cs, w := Market(zone, c), 1.0 / 14.0;
    var peak, trough := Peak(zone, c), Trough(zone, c);
    Resting(zone, c, 1, 197);
    assert cs[197] == Candle(100.0, 100.0, 100.0, 100.0);
    assert WindowAlpha(ATR_WINDOW) == w;
    assert TrueRange(cs, 198) == peak - 100.0;
    assert TrueRange(cs, 199) == peak - trough;
    assert TrueRange(cs, 200) == 200.0 - trough;
    assert Atr(cs, ATR_WINDOW, 198) == w * (peak - 100.0);
    assert Atr(cs, ATR_WINDOW, 199) == Blend(w, w * (peak - 100.0), peak - trough);
  }

  /** Average gain and loss before the last move, and after it. */
  lemma AverageMoves(zone: RsiZone, c: real)
    requires 0.0 < c <= 1.0
    ensures var cs, w := Market(zone, c), 1.0 / 14.0;
            && AvgGain(cs, RSI_WINDOW, 199) == (1.0 - w) * (w * (Peak(zone, c) - 100.0))
            && AvgLoss(cs, RSI_WINDOW, 199) == w * (Peak(zone, c) - Trough(zone, c))
            && AvgGain(cs, RSI_WINDOW, 200) == Blend(w, AvgGain(cs, RSI_WINDOW, 199), 200.0 - Trough(zone, c))
            && AvgLoss(cs, RSI_WINDOW, 200) == (1.0 - w) * AvgLoss(cs, RSI_WINDOW, 199)
  {
    var cs, w := Market(zone, c), 1.0 / 14.0;
    var peak, trough := Peak(zone, c), Trough(zone, c);
    Resting(zone, c, 1, 197);
    assert cs[197] == Candle(100.0, 100.0, 100.0, 100.0);
    assert WindowAlpha(RSI_WINDOW) == w;
    assert UpMove(cs, 198) == peak - 100.0 && DownMove(cs, 198) == 0.0;
    assert UpMove(cs, 199) == 0.0 && DownMove(cs, 199) == peak - trough;
    assert UpMove(cs, 200) == 200.0 - trough && DownMove(cs, 200) == 0.0;
    assert AvgGain(cs, RSI_WINDOW, 198) == w * (peak - 100.0) && AvgLoss(cs, RSI_WINDOW, 198) == 0.0;
  }

  lemma ShareIs(part: real, total: real, q: real)
    requires total > 0.0 && part == q * total
    ensures part / total == q
  {
    assert (part / total - q) * total == 0.0;
  }

  lemma ShareAbove(part: real, total: real, q: real)
    requires total > 0.0 && part >= q * total
    ensures part / total >= q
  {
    ShareIs(q * total, total, q);
    DivOrder(q * total, part, total);
  }

  /** The RSI ends the fall exactly at the edge of the zone, and the rise above 80. */
  lemma RsiMoves(zone: RsiZone, c: real)
    requires 0.0 < c <= 1.0
    ensures Rsi(Market(zone, c), RSI_WINDOW, 199) == Some(Oversold(zone))
    ensures var rsi := Rsi(Market(zone, c), RSI_WINDOW, 200); rsi.Some? && rsi.value >= 80.0
  {
    var cs := Market(zone, c);
    AverageMoves(zone, c);
    var g, l := AvgGain(cs, RSI_WINDOW, 199), AvgLoss(cs, RSI_WINDOW, 199);
    assert g >= 0.0 && l >= 0.0;
    RsiAsShare(g, l);
    ShareIs(g, g + l, Oversold(zone) / 100.0);
    var g', l' := AvgGain(cs, RSI_WINDOW, 200), AvgLoss(cs, RSI_WINDOW, 200);
    assert g' >= 0.0 && l' >= 0.0;
    RsiAsShare(g', l');
    ShareAbove(g', g' + l', 0.8);
  }

  // ------------------------------------------------------------------------
  // The last bar
  // ------------------------------------------------------------------------

  function LastBar(zone: RsiZone, c: real): Bar {
    IndicatorBar(Market(zone, c), 200)
  }

  /** A bar that rises from the edge of the zone to far above its averages. */
  ghost predicate BreaksOut(zone: RsiZone, b: Bar) {
    && Complete(b) && b.open == b.low < 100.0 && b.close == b.high == 200.0
    && b.ema200.value <= 102.0 && b.ema50.value <= 110.0
    && b.rsiPrev.value == Oversold(zone) && b.rsi.value >= 80.0 && 0.0 < b.atr.value <= 9.8
  }

  lemma BlendsStayLow(zone: RsiZone, c: real)
    requires 0.0 < c <= 1.0
    ensures var peak, trough := Peak(zone, c), Trough(zone, c);
            && Blend(2.0 / 201.0, Blend(2.0 / 201.0, Blend(2.0 / 201.0, 100.0, peak), trough), 200.0) <= 102.0
            && Blend(2.0 / 51.0, Blend(2.0 / 51.0, Blend(2.0 / 51.0, 100.0, peak), trough), 200.0) <= 110.0
  {}

  lemma EmaBounds(zone: RsiZone, c: real)
    requires 0.0 < c <= 1.0
    ensures Ema(Market(zone, c), EMA_TREND_SPAN, 200) <= 102.0 && Ema(Market(zone, c), EMA_FAST_SPAN, 200) <= 110.0
  {
    EmaMoves(zone, c, EMA_TREND_SPAN);
    EmaMoves(zone, c, EMA_FAST_SPAN);
    BlendsStayLow(zone, c);
  }

  lemma LastBarAverages(zone: RsiZone, c: real)
    requires 0.0 < c <= 1.0
    ensures var b := LastBar(zone, c);
            && b.ema200.Some? && b.ema50.Some? && b.ema200.value <= 102.0 && b.ema50.value <= 110.0
            && b.atr.Some? && 0.0 < b.atr.value <= 9.8
  {
    EmaBounds(zone, c);
    AtrMoves(zone, c);
  }

  lemma LastBarRsi(zone: RsiZone, c: real)
    requires 0.0 < c <= 1.0
    ensures var b := LastBar(zone, c);
            && b.rsi.Some? && b.rsi.value >= 80.0 && b.rsiPrev == Some(Oversold(zone))
            && b.open == b.low == Trough(zone, c) && b.close == b.high == 200.0
  {
    RsiMoves(zone, c);
  }

  lemma LastBarBreaksOut(zone: RsiZone, c: real)
    requires 0.0 < c <= 1.0
    ensures BreaksOut(zone, LastBar(zone, c))
  {
    LastBarAverages(zone, c);
    LastBarRsi(zone, c);
  }

  /** The stop is below the entry although the multiple may be negative. */
  predicate StopsBelow(p: DetectParams, b: Bar)
    requires Complete(b)
  {
    b.close - LongStop(p, b) > 0.0
  }

  lemma RoomLeft(m: real, c: real, range: real, atr: real)
    requires 0.0 < c && m == 70.0 * c - 14.0 && range >= 94.0 && 0.0 <= atr - range / 14.0 <= 2.4 * c
    ensures range + m * atr > 0.0
  {
    var rest := atr - range / 14.0;
    NonnegativeProduct(c, range - 94.0);
    NonnegativeProduct(c, rest);
    assert m * atr == 5.0 * (c * range) + 70.0 * (c * rest) - range - 14.0 * rest;
    assert c * (range - 94.0) == c * range - 94.0 * c;
  }

  lemma StopsBelowIf(p: DetectParams, b: Bar, c: real)
    requires p.atrMult > -14.0 && c == Scale(p.atrMult) && Complete(b)
    requires b.close - b.low >= 94.0 && 0.0 <= b.atr.value - (b.close - b.low) / 14.0 <= 2.4 * c
    ensures StopsBelow(p, b)
  {
    if p.atrMult >= 0.0 {
      NonnegativeProduct(p.atrMult, b.atr.value);
    } else {
      RoomLeft(p.atrMult, c, b.close - b.low, b.atr.value);
    }
  }

  lemma LastBarStopsBelow(p: DetectParams, zone: RsiZone, c: real)
    requires p.atrMult > -14.0 && c == Scale(p.atrMult)
    ensures Complete(LastBar(zone, c)) && StopsBelow(p, LastBar(zone, c))
  {
    LastBarBreaksOut(zone, c);
    LastBarRsi(zone, c);
    AtrMoves(zone, c);
    StopsBelowIf(p, LastBar(zone, c), c);
  }

  lemma TopQuality(zone: RsiZone, b: Bar)
    requires BreaksOut(zone, b)
    ensures QualityAt(Long, b) == 100.0
  {
    ShareAbove(b.close - b.ema200.value, b.atr.value, 10.0);
    assert Abs(b.close - b.ema200.value) == b.close - b.ema200.value;
    assert Min(Abs(b.rsi.value - b.rsiPrev.value), 20.0) == 20.0;
  }

  /** The bar fires a long of top quality, whatever the other settings. */
  lemma LongFires(p: DetectParams, b: Bar)
    requires BreaksOut(p.rsiZone, b) && StopsBelow(p, b)
    ensures var e := EntryAt(p, b, 200);
            e.Some? && e.value.direction.Long? && e.value.qualityScore >= QualityFloor(p)
  {
    TopQuality(p.rsiZone, b);
  }

  /** Its mirror image fires nothing once the short side asks for more than the edge of the zone. */
  lemma ShortIsSilent(p: DetectParams, b: Bar)
    requires p.shortRsiMin > Overbought(p.rsiZone) && BreaksOut(p.rsiZone, b)
    ensures EntryAt(p, MirrorBar(300.0, b), 200) == None
  {}

  /** Of 201 candles only the last is past the warm-up. */
  lemma OnlyLastBar(p: DetectParams, cs: seq<Candle>)
    requires |cs| == 201
    ensures var e := EntryAt(p, IndicatorBar(cs, 200), 200);
            Detect(p, cs) == if e.Some? && e.value.qualityScore >= QualityFloor(p) then [e.value] else []
  {
    var entries := Entries(p, ComputeIndicators(cs));
    var e := EntryAt(p, IndicatorBar(cs, 200), 200);
    var found := if e.Some? then [e.value] else [];
    assert entries[200] == e && Collect(entries, 200) == [];
    assert Collect(entries, 201) == found;
    if e.Some? {
      assert found[..0] == [] && AtLeast(found[..0], QualityFloor(p)) == [];
    }
  }

  /** On this market a long is detected, and on its reflection nothing. */
  lemma OneSidedMarket(p: DetectParams)
    requires p.atrMult > -14.0 && p.shortRsiMin > Overbought(p.rsiZone)
    ensures var cs := Market(p.rsiZone, Scale(p.atrMult));
            && History(300.0, cs) && |Detect(p, cs)| == 1 && Detect(p, cs)[0].direction.Long?
            && Detect(p, MirrorCandles(300.0, cs)) == []
  {
    var c := Scale(p.atrMult);
    var cs, b := Market(p.rsiZone, c), LastBar(p.rsiZone, c);
    MarketIsHistory(p.rsiZone, c);
    LastBarBreaksOut(p.rsiZone, c);
    LastBarStopsBelow(p, p.rsiZone, c);
    LongFires(p, b);
    OnlyLastBar(p, cs);
    ShortIsSilent(p, b);
    IndicatorBarMirror(300.0, cs, 200);
    OnlyLastBar(p, MirrorCandles(300.0, cs));
  }

  // ------------------------------------------------------------------------
  // Multiples so negative that nothing fires
  // ------------------------------------------------------------------------

  /** The average range is at least a fourteenth of the bar's own. */
  lemma AtrHoldsRange(cs: seq<Candle>, t: nat)
    requires Consistent(cs) && t < |cs|
    ensures Atr(cs, ATR_WINDOW, t) >= (cs[t].high - cs[t].low) / 14.0
  {
    assert ConsistentCandle(cs[t]);
    if t > 0 {
      AtrNonnegative(cs, ATR_WINDOW, t - 1);
      assert WindowAlpha(ATR_WINDOW) == 1.0 / 14.0;
    }
  }

  lemma TooNegative(m: real, atr: real, range: real)
    requires m <= -14.0 && atr >= range / 14.0 && range >= 0.0
    ensures m * atr <= -range
  {
    NonnegativeProduct(-14.0 - m, atr);
    assert m * atr == -14.0 * atr - (-14.0 - m) * atr;
  }

  lemma SilentBar(p: DetectParams, b: Bar, i: nat)
    requires ConsistentBar(b) && p.atrMult <= -14.0
    requires b.atr.Some? ==> b.atr.value >= (b.high - b.low) / 14.0
    ensures EntryAt(p, b, i) == None
  {
    if Complete(b) {
      TooNegative(p.atrMult, b.atr.value, b.high - b.low);
      assert !LongAllowed(p, b) && !ShortAllowed(p, b);
    }
  }

  lemma NothingFires(p: DetectParams, cs: seq<Candle>, i: nat)
    requires Consistent(cs) && i < |cs| && p.atrMult <= -14.0
    ensures EntryAt(p, IndicatorBar(cs, i), i) == None
  {
    assert ConsistentCandle(cs[i]);
    AtrHoldsRange(cs, i);
    SilentBar(p, IndicatorBar(cs, i), i);
  }

  lemma MirrorConsistent(K: real, cs: seq<Candle>)
    requires Consistent(cs)
    ensures Consistent(MirrorCandles(K, cs))
  {
    var r := MirrorCandles(K, cs);
    forall t | 0 <= t < |r| ensures ConsistentCandle(r[t]) {
      assert ConsistentCandle(cs[t]) && r[t] == MirrorCandle(K, cs[t]);
    }
  }

  lemma NothingDetected(p: DetectParams, cs: seq<Candle>)
    requires Consistent(cs) && p.atrMult <= -14.0
    ensures Detect(p, cs) == []
  {
    DetectedSignals(p, cs);
    if Detect(p, cs) != [] {
      var s := Detect(p, cs)[0];
      assert s in Detect(p, cs);
      NothingFires(p, cs, s.index);
      assert false;
    }
  }

  /**
   Detection treats every price history and its reflection alike if and only if `short_rsi_min` does not exceed the
   overbought level of the zone, or the stop multiple is so negative that no signal is ever detected.
   */
  lemma DetectionSymmetryExact(p: DetectParams)
    ensures (forall K: real, cs: seq<Candle> | History(K, cs) :: DetectsMirrored(p, K, cs))
       <==> p.shortRsiMin <= Overbought(p.rsiZone) || p.atrMult <= -14.0
  {
    if p.shortRsiMin <= Overbought(p.rsiZone) {
      forall K: real, cs: seq<Candle> | History(K, cs) ensures DetectsMirrored(p, K, cs) {
        DetectMirror(p, K, cs);
      }
    } else if p.atrMult <= -14.0 {
      forall K: real, cs: seq<Candle> | History(K, cs) ensures DetectsMirrored(p, K, cs) {
        MirrorConsistent(K, cs);
        NothingDetected(p, cs);
        NothingDetected(p, MirrorCandles(K, cs));
      }
    } else {
      OneSidedMarket(p);
      assert !DetectsMirrored(p, 300.0, Market(p.rsiZone, Scale(p.atrMult)));
    }
  }
}
