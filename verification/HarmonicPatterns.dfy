/**
 Pattern validation over ZigZag windows and the entry projection of
 docs/harmonic_detector.py.
 */
module HarmonicPatterns {
  import opened Wrappers
  import opened MarketTypes
  import opened ZigZag

  const TP1_RATIO := 0.382
  const TP2_RATIO := 0.618
  const STOP_ATR_BUF := 0.7
  const STOP_FALLBACK_XA := 0.05
  const PRZ_GRADE_A := 0.02
  const PRZ_GRADE_B := 0.04

  datatype PatternName = Gartley | Bat | Butterfly | Crab | DeepCrab | Shark

  datatype Range = Range(lo: real, hi: real)

  datatype PatternSpec = PatternSpec(bXa: Range, cAb: Range, dXa: Range, cdBc: Range)

  function SpecOf(name: PatternName): PatternSpec {
    match name
    case Gartley => PatternSpec(Range(0.618, 0.618), Range(0.382, 0.886), Range(0.786, 0.786), Range(1.272, 1.618))
    case Bat => PatternSpec(Range(0.382, 0.50), Range(0.382, 0.886), Range(0.886, 0.886), Range(1.618, 2.618))
    case Butterfly => PatternSpec(Range(0.786, 0.786), Range(0.382, 0.886), Range(1.272, 1.618), Range(1.618, 2.24))
    case Crab => PatternSpec(Range(0.382, 0.618), Range(0.382, 0.886), Range(1.618, 1.618), Range(2.24, 3.618))
    case DeepCrab => PatternSpec(Range(0.886, 0.886), Range(0.382, 0.886), Range(1.618, 1.618), Range(2.0, 3.618))
    case Shark => PatternSpec(Range(0.382, 0.618), Range(1.13, 1.618), Range(0.886, 1.13), Range(1.618, 2.24))
  }

  predicate InRange(ratio: real, range: Range, tol: real) {
    range.lo * (1.0 - tol) <= ratio <= range.hi * (1.0 + tol)
  }

  // ------------------------------------------------------------------------
  // Five-point validation
  // ------------------------------------------------------------------------

  /** The five swing prices of a candidate pattern. */
  datatype Window = Window(x: real, a: real, b: real, c: real, d: real) {
    predicate Bullish() { a > x }
    function Xa(): real { Abs(a - x) }
    function Ab(): real { Abs(b - a) }
    function Bc(): real { Abs(c - b) }
    function Cd(): real { Abs(d - c) }
  }

  datatype PatternMatch = PatternMatch(name: PatternName, bullish: bool, window: Window, przLo: real, przHi: real,
                                       stop: real, tp1: real, tp2: real)

  /** Why a window is not the pattern, or the pattern it is; the original returns None for the first three. */
  datatype Verdict = ZeroLeg | WrongDirection | RatioMiss | Matched(m: PatternMatch)

  predicate DirectionOk(w: Window) {
    if w.Bullish() then w.b < w.a && w.c > w.b && w.d < w.c else w.b > w.a && w.c < w.b && w.d > w.c
  }

  predicate RatiosFit(w: Window, name: PatternName, tol: real)
    requires w.Xa() != 0.0 && w.Ab() != 0.0 && w.Bc() != 0.0
  {
    var spec := SpecOf(name);
    && InRange(w.Ab() / w.Xa(), spec.bXa, tol)
    && InRange(w.Bc() / w.Ab(), spec.cAb, tol)
    && InRange(Abs(w.a - w.d) / w.Xa(), spec.dXa, tol)
    && InRange(w.Cd() / w.Bc(), spec.cdBc, tol)
  }

  /** The two price measures of the completion point: along XA from A, and along BC from C. */
  function XaMeasure(w: Window, name: PatternName): Range {
    var r := SpecOf(name).dXa;
    if w.Bullish() then Range(w.a - w.Xa() * r.hi, w.a - w.Xa() * r.lo)
    else Range(w.a + w.Xa() * r.lo, w.a + w.Xa() * r.hi)
  }

  function BcMeasure(w: Window, name: PatternName): Range {
    var r := SpecOf(name).cdBc;
    if w.Bullish() then Range(w.c - w.Bc() * r.hi, w.c - w.Bc() * r.lo)
    else Range(w.c + w.Bc() * r.lo, w.c + w.Bc() * r.hi)
  }

  /** The overlap of two measures, or their hull when they do not overlap. */
  function Join(m1: Range, m2: Range): Range {
    var lo1, hi1 := Min(m1.lo, m1.hi), Max(m1.lo, m1.hi);
    var lo2, hi2 := Min(m2.lo, m2.hi), Max(m2.lo, m2.hi);
    var lo, hi := Max(lo1, lo2), Min(hi1, hi2);
    if lo > hi then Range(Min(lo1, lo2), Max(hi1, hi2)) else Range(lo, hi)
  }

  function ReversalZone(w: Window, name: PatternName): Range {
    Join(XaMeasure(w, name), BcMeasure(w, name))
  }

  function ValidatePattern(w: Window, name: PatternName, tol: real): Verdict {
    if w.Xa() == 0.0 || w.Ab() == 0.0 || w.Bc() == 0.0 then ZeroLeg
    else if !DirectionOk(w) then WrongDirection
    else if !RatiosFit(w, name, tol) then RatioMiss
    else
      var zone := ReversalZone(w, name);
      var buffer := 0.5 * w.Xa() * 0.1;
      var stop := if w.Bullish() then zone.lo - buffer else zone.hi + buffer;
      var tp1 := if w.Bullish() then w.d + (w.a - w.d) * TP1_RATIO else w.d - (w.d - w.a) * TP1_RATIO;
      var tp2 := if w.Bullish() then w.d + (w.a - w.d) * TP2_RATIO else w.d - (w.d - w.a) * TP2_RATIO;
      Matched(PatternMatch(name, w.Bullish(), w, zone.lo, zone.hi, stop, tp1, tp2))
  }

  // ------------------------------------------------------------------------
  // The scan
  // ------------------------------------------------------------------------

  function WindowAt(ps: seq<Pivot>, i: nat): Window
    requires 4 <= i < |ps|
  {
    Window(ps[i - 4].price, ps[i - 3].price, ps[i - 2].price, ps[i - 1].price, ps[i].price)
  }

  /** A match and the position of its D point in the pivot list. */
  datatype Hit = Hit(m: PatternMatch, d: Pivot)

  function HitsAt(ps: seq<Pivot>, i: nat, names: seq<PatternName>, tol: real): seq<Hit>
    requires 4 <= i < |ps|
  {
    if names == [] then []
    else
      var n := |names| - 1;
      var v := ValidatePattern(WindowAt(ps, i), names[n], tol);
      HitsAt(ps, i, names[..n], tol) + (if v.Matched? then [Hit(v.m, ps[i])] else [])
  }

  /** All hits of windows whose D point is among the first `k` pivots. */
  function HitsBefore(ps: seq<Pivot>, k: nat, names: seq<PatternName>, tol: real): seq<Hit>
    requires k <= |ps|
  {
    if k <= 4 then [] else HitsBefore(ps, k - 1, names, tol) + HitsAt(ps, k - 1, names, tol)
  }

  /** The inner loop of `scan`, over the enabled patterns. */
  method MatchWindow(ps: seq<Pivot>, i: nat, names: seq<PatternName>, tol: real) returns (hits: seq<Hit>)
    requires 4 <= i < |ps|
    ensures hits == HitsAt(ps, i, names, tol)
  {
    hits := [];
    for j := 0 to |names|
      invariant hits == HitsAt(ps, i, names[..j], tol)
    {
      assert names[..j + 1][..j] == names[..j];
      var v := ValidatePattern(WindowAt(ps, i), names[j], tol);
      if v.Matched? {
        hits := hits + [Hit(v.m, ps[i])];
      }
    }
    assert names[..|names|] == names;
  }

  /** `scan`: every window of five swings, or only the newest. */
  method ScanPatterns(cs: seq<Candle>, pct: real, tol: real, names: seq<PatternName>, onlyLatest: bool)
    returns (hits: seq<Hit>)
    ensures var zz := ZigZagOf(cs, pct);
            hits == if |zz| < 5 then []
                    else if onlyLatest then HitsAt(zz, |zz| - 1, names, tol)
                    else HitsBefore(zz, |zz|, names, tol)
  {
    var zz := ComputeZigZag(cs, pct);
    hits := [];
    if |zz| < 5 {
      return;
    }
    var start := if onlyLatest then |zz| - 1 else 4;
    for i := start to |zz|
      invariant hits == if !onlyLatest then HitsBefore(zz, i, names, tol)
                        else if i == start then [] else HitsAt(zz, |zz| - 1, names, tol)
    {
      var found := MatchWindow(zz, i, names, tol);
      hits := hits + found;
    }
  }

  // ------------------------------------------------------------------------
  // Theorems
  // ------------------------------------------------------------------------

  /** Five consecutive swings have no zero leg and the direction of a pattern. */
  lemma SwingWindow(cs: seq<Candle>, pct: real, ps: seq<Pivot>, i: nat)
    requires 0.0 < pct < 1.0 && 4 <= i < |ps| && Swings(cs, pct, ps)
    ensures var w := WindowAt(ps, i);
            && w.Xa() > 0.0 && w.Ab() > 0.0 && w.Bc() > 0.0 && DirectionOk(w)
            && (w.Bullish() <==> ps[i].kind == Low)
  {
    forall k | i - 4 < k <= i
      ensures if ps[k].kind == High then ps[k].price > ps[k - 1].price else ps[k].price < ps[k - 1].price
      ensures ps[k].kind != ps[k - 1].kind
    {
      assert Swing(pct, ps[k - 1], ps[k]);
      Thresholds(ps[k - 1].price, pct);
    }
    assert ps[i - 3].kind == ps[i - 1].kind != ps[i].kind;
  }

  /** On any window of a scan, the zero-leg and direction checks never reject: only the ratios decide. */
  lemma OnlyRatiosDecide(cs: seq<Candle>, pct: real, i: nat, name: PatternName, tol: real)
    requires PositivePrices(cs) && 0.0 < pct < 1.0 && 4 <= i < |ZigZagOf(cs, pct)|
    ensures var w := WindowAt(ZigZagOf(cs, pct), i);
            var v := ValidatePattern(w, name, tol);
            && v != ZeroLeg && v != WrongDirection
            && w.Xa() != 0.0 && w.Ab() != 0.0 && w.Bc() != 0.0
            && (v.Matched? <==> RatiosFit(w, name, tol))
  {
    ZigZagStructure(cs, pct);
    SwingWindow(cs, pct, ZigZagOf(cs, pct), i);
  }

  predicate Within(p: real, r: Range) { r.lo <= p <= r.hi }

  predicate Meet(r: Range, s: Range) { r.lo <= s.hi && s.lo <= r.hi }

  /** The zone is the intersection of the two measures when they meet, and otherwise the hull of both. */
  predicate Confluence(zone: Range, r: Range, s: Range, p: real) {
    && zone.lo <= zone.hi
    && (if Meet(r, s) then Within(p, zone) <==> Within(p, r) && Within(p, s)
        else
          && (Within(p, r) || Within(p, s) ==> Within(p, zone))
          && (zone.lo == r.lo || zone.lo == s.lo) && (zone.hi == r.hi || zone.hi == s.hi))
  }

  lemma JoinIsConfluence(r: Range, s: Range, p: real)
    requires r.lo <= r.hi && s.lo <= s.hi
    ensures Confluence(Join(r, s), r, s, p)
  {}

  lemma StopOutsideZone(w: Window, name: PatternName, tol: real)
    ensures match ValidatePattern(w, name, tol)
            case Matched(m) =>
              && Range(m.przLo, m.przHi) == ReversalZone(w, name)
              && (if m.bullish then m.stop < m.przLo else m.stop > m.przHi)
            case _ => true
  {}

  /** The zone is the exact confluence of the two measures, and never empty; the stop of a match lies outside it. */
  lemma ZoneIsConfluence(w: Window, name: PatternName, tol: real, p: real)
    ensures Confluence(ReversalZone(w, name), XaMeasure(w, name), BcMeasure(w, name), p)
    ensures match ValidatePattern(w, name, tol)
            case Matched(m) =>
              && Range(m.przLo, m.przHi) == ReversalZone(w, name)
              && (if m.bullish then m.stop < m.przLo else m.stop > m.przHi)
            case _ => true
  {
    MeasuresOrdered(w, name);
    JoinIsConfluence(XaMeasure(w, name), BcMeasure(w, name), p);
    StopOutsideZone(w, name, tol);
  }

  lemma MeasuresOrdered(w: Window, name: PatternName)
    ensures XaMeasure(w, name).lo <= XaMeasure(w, name).hi
    ensures BcMeasure(w, name).lo <= BcMeasure(w, name).hi
  {
    var spec := SpecOf(name);
    Scale(w.Xa(), spec.dXa.lo, spec.dXa.hi);
    Scale(w.Bc(), spec.cdBc.lo, spec.cdBc.hi);
  }

  lemma Scale(x: real, lo: real, hi: real)
    requires x >= 0.0 && lo <= hi
    ensures x * lo <= x * hi
  {}

  lemma RatioAtMost(part: real, whole: real, hi: real, top: real)
    requires whole > 0.0 && part / whole <= hi <= top
    ensures part <= whole * top
  {
    assert part / whole * whole == part;
    Scale(whole, part / whole, top);
  }

  lemma RatioAtLeast(part: real, whole: real, lo: real, bottom: real)
    requires whole > 0.0 && bottom <= lo <= part / whole
    ensures whole * bottom <= part
  {
    assert part / whole * whole == part;
    Scale(whole, bottom, part / whole);
  }

  /** D does not reach A: AB and CD together outweigh BC. */
  predicate DShortOfA(w: Window) {
    w.Ab() + w.Cd() > w.Bc()
  }

  lemma LegsOutweigh(name: PatternName, ab: real, bc: real, cd: real)
    requires ab > 0.0 && bc > 0.0
    requires bc <= ab * (SpecOf(name).cAb.hi * 1.5) && bc * (SpecOf(name).cdBc.lo * 0.5) <= cd
    ensures ab + cd > bc
  {}

  lemma Loosened(x: real, tol: real)
    requires x >= 0.0 && tol <= 0.5
    ensures x * (1.0 + tol) <= x * 1.5 && x * 0.5 <= x * (1.0 - tol)
  {
    Scale(x, 1.0 + tol, 1.5);
    Scale(x, 0.5, 1.0 - tol);
  }

  /** In every pattern, at any tolerance up to a half, BC is too short to carry D past A. */
  lemma MatchedIsShortOfA(w: Window, name: PatternName, tol: real)
    requires tol <= 0.5 && w.Xa() != 0.0 && w.Ab() > 0.0 && w.Bc() > 0.0 && RatiosFit(w, name, tol)
    ensures DShortOfA(w)
  {
    var hi, lo := SpecOf(name).cAb.hi, SpecOf(name).cdBc.lo;
    Loosened(hi, tol);
    Loosened(lo, tol);
    RatioAtMost(w.Bc(), w.Ab(), hi * (1.0 + tol), hi * 1.5);
    RatioAtLeast(w.Cd(), w.Bc(), lo * (1.0 - tol), lo * 0.5);
    LegsOutweigh(name, w.Ab(), w.Bc(), w.Cd());
  }

  /** The two targets climb from D towards A exactly when D is short of A, which up to a tolerance of a half it is. */
  lemma TargetsTowardsA(w: Window, name: PatternName, tol: real)
    ensures match ValidatePattern(w, name, tol)
            case Matched(m) =>
              && ((if m.bullish then w.d < m.tp1 < m.tp2 < w.a else w.d > m.tp1 > m.tp2 > w.a) <==> DShortOfA(w))
              && (tol <= 0.5 ==> DShortOfA(w))
            case _ => true
  {
    if tol <= 0.5 && ValidatePattern(w, name, tol).Matched? {
      MatchedIsShortOfA(w, name, tol);
    }
  }

  lemma {:induction false} HitsArePrefixClosed(ps: seq<Pivot>, qs: seq<Pivot>, k: nat, names: seq<PatternName>,
                                               tol: real)
    requires k <= |ps| && k <= |qs| && ps[..k] == qs[..k]
    ensures HitsBefore(ps, k, names, tol) == HitsBefore(qs, k, names, tol)
  {
    if k > 4 {
      assert forall j :: 0 <= j < k ==> ps[j] == ps[..k][j] == qs[j];
      assert ps[..k - 1] == qs[..k - 1];
      HitsArePrefixClosed(ps, qs, k - 1, names, tol);
      SameWindow(ps, qs, k - 1, names, tol);
    }
  }

  lemma {:induction false} SameWindow(ps: seq<Pivot>, qs: seq<Pivot>, i: nat, names: seq<PatternName>, tol: real)
    requires 4 <= i < |ps| && i < |qs| && WindowAt(ps, i) == WindowAt(qs, i) && ps[i] == qs[i]
    ensures HitsAt(ps, i, names, tol) == HitsAt(qs, i, names, tol)
  {
    if names != [] {
      SameWindow(ps, qs, i, names[..|names| - 1], tol);
    }
  }

  lemma {:induction false} HitsGrow(ps: seq<Pivot>, j: nat, k: nat, names: seq<PatternName>, tol: real)
    requires j <= k <= |ps|
    ensures HitsBefore(ps, j, names, tol) <= HitsBefore(ps, k, names, tol)
  {
    if j < k {
      HitsGrow(ps, j, k - 1, names, tol);
    }
  }

  /**
   No repaint of signals: every hit whose D point is a confirmed pivot of a prefix of the candles is reported, at the
   same place, by the full scan of any longer series. (The newest window ends at the extreme still forming.)
   */
  lemma HitsDoNotRepaint(cs: seq<Candle>, more: seq<Candle>, pct: real, names: seq<PatternName>, tol: real)
    requires PositivePrices(more) && 0.0 < pct < 1.0 && |cs| >= 6 && cs <= more
    ensures var confirmed := ScanTo(cs, pct, |cs|).pivots;
            var zz := ZigZagOf(more, pct);
            HitsBefore(confirmed, |confirmed|, names, tol) <= HitsBefore(zz, |zz|, names, tol)
  {
    var confirmed, zz := ScanTo(cs, pct, |cs|).pivots, ZigZagOf(more, pct);
    NoRepaint(cs, more, pct);
    ZigZagStructure(more, pct);
    var k := |confirmed|;
    assert confirmed <= ScanTo(more, pct, |more|).pivots <= zz;
    assert confirmed[..k] == zz[..k];
    HitsArePrefixClosed(confirmed, zz, k, names, tol);
    HitsGrow(zz, k, |zz|, names, tol);
  }

  // ------------------------------------------------------------------------
  // Entry projection from XABC
  // ------------------------------------------------------------------------

  datatype Mode = Aggressive | Ladder | Confirm

  datatype Rejection = BOutOfRange | CBeyondA | COutOfRange

  datatype Grade = A | B | C

  datatype EntryPlan = EntryPlan(bullish: bool, grade: Grade, przLo: real, przHi: real, center: real,
                                 orders: seq<real>, stop: real, tp1: real, tp2: real, rrTp1: real)

  function Min3(a: real, b: real, c: real): real { Min(a, Min(b, c)) }

  function Max3(a: real, b: real, c: real): real { Max(a, Max(b, c)) }

  /** The three independent projections of D. */
  function Projections(x: real, a: real, b: real, c: real, name: PatternName): (real, real, real) {
    var spec := SpecOf(name);
    var s := if a > x then 1.0 else -1.0;
    (a - s * Abs(a - x) * spec.dXa.lo,
     c - s * Abs(c - b) * ((spec.cdBc.lo + spec.cdBc.hi) / 2.0),
     c - s * Abs(b - a))
  }

  function Center(d: (real, real, real)): real {
    (d.0 + d.1 + d.2) / 3.0
  }

  function StopBuffer(xa: real, atr: real): real {
    if atr != 0.0 then atr * STOP_ATR_BUF else xa * STOP_FALLBACK_XA
  }

  /** `calc_entry`: the last divisor is positive because the stop lies strictly outside the zone. */
  function CalcEntry(x: real, a: real, b: real, c: real, name: PatternName, atr: real, mode: Mode, tol: real)
    : Result<EntryPlan, Rejection>
    requires a != x && b != a && atr >= 0.0
  {
    var spec := SpecOf(name);
    var bullish := a > x;
    var xa, ab, bc := Abs(a - x), Abs(b - a), Abs(c - b);
    if !InRange(ab / xa, spec.bXa, tol) then Failure(BOutOfRange)
    else if (bullish && c > a * 1.05) || (!bullish && c < a * 0.95) then Failure(CBeyondA)
    else if !InRange(bc / ab, spec.cAb, tol) then Failure(COutOfRange)
    else
      var d := Projections(x, a, b, c, name);
      var lo, hi, center := Min3(d.0, d.1, d.2), Max3(d.0, d.1, d.2), Center(d);
      var buffer := StopBuffer(xa, atr);
      var stop := if bullish then lo - buffer else hi + buffer;
      var orders := match mode
                    case Aggressive => [center]
                    case Ladder => [lo + (hi - lo) * 0.25, lo + (hi - lo) * 0.5, lo + (hi - lo) * 0.75]
                    case Confirm => [];
      var s := if bullish then 1.0 else -1.0;
      var tp1, tp2 := center + s * Abs(a - center) * TP1_RATIO, center + s * Abs(a - center) * TP2_RATIO;
      var width := hi - lo;
      var grade := if center == 0.0 then C
                   else if width / Abs(center) < PRZ_GRADE_A then A
                   else if width / Abs(center) < PRZ_GRADE_B then B else C;
      Success(EntryPlan(bullish, grade, lo, hi, center, orders, stop, tp1, tp2,
                        if center == stop then 0.0 else Abs(tp1 - center) / Abs(center - stop)))
  }

  /**
   Geometry of an accepted entry: the projections span the zone, every order lies in it in ascending order, the stop is
   strictly outside, and both targets are on the profitable side, the second further out.
   */
  lemma EntryGeometry(x: real, a: real, b: real, c: real, name: PatternName, atr: real, mode: Mode, tol: real)
    requires a != x && b != a && atr >= 0.0 && CalcEntry(x, a, b, c, name, atr, mode, tol).Success?
    ensures var e := CalcEntry(x, a, b, c, name, atr, mode, tol).value;
            var d := Projections(x, a, b, c, name);
            && Within(d.0, Range(e.przLo, e.przHi)) && Within(d.1, Range(e.przLo, e.przHi))
            && Within(d.2, Range(e.przLo, e.przHi)) && Within(e.center, Range(e.przLo, e.przHi))
            && (e.przLo == d.0 || e.przLo == d.1 || e.przLo == d.2)
            && (e.przHi == d.0 || e.przHi == d.1 || e.przHi == d.2)
            && (forall k :: 0 <= k < |e.orders| ==> Within(e.orders[k], Range(e.przLo, e.przHi)))
            && (forall k :: 0 < k < |e.orders| ==> e.orders[k - 1] <= e.orders[k])
            && (if e.bullish then e.stop < e.przLo else e.stop > e.przHi)
            && e.stop != e.center
            && (e.center != a ==> if e.bullish then e.center < e.tp1 < e.tp2 else e.center > e.tp1 > e.tp2)
  {
    var buffer := StopBuffer(Abs(a - x), atr);
    assert buffer > 0.0;
  }
}
