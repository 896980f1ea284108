/**
 What a match means in prices: where each leg must end, where the completion
 point lies, and which patterns one window can match together.
 */
module HarmonicMatches {
  import opened Wrappers
  import opened MarketTypes
  import opened ZigZag
  import opened HarmonicPatterns

  // ------------------------------------------------------------------------
  // One window
  // ------------------------------------------------------------------------

  /** The leg `part` is the given share of the leg `whole`, give or take the tolerance. */
  predicate LegFits(part: real, whole: real, range: Range, tol: real) {
    whole * (range.lo * (1.0 - tol)) <= part <= whole * (range.hi * (1.0 + tol))
  }

  lemma ProductOrder(x: real, y: real, z: real)
    requires z > 0.0
    ensures z * x <= z * y <==> x <= y
  {
    if x < y { assert z * (y - x) > 0.0; } else if y < x { assert z * (x - y) > 0.0; }
  }

  lemma RatioIsLeg(part: real, whole: real, range: Range, tol: real)
    requires whole > 0.0
    ensures InRange(part / whole, range, tol) <==> LegFits(part, whole, range, tol)
  {
    var q := part / whole;
    assert whole * q == part;
    ProductOrder(range.lo * (1.0 - tol), q, whole);
    ProductOrder(q, range.hi * (1.0 + tol), whole);
  }

  /** The five points zigzag, and the first leg goes the way its sign says. */
  predicate Zigzags(w: Window) {
    if w.a > w.x then w.b < w.a && w.b < w.c && w.d < w.c
    else w.a < w.x && w.b > w.a && w.b > w.c && w.d > w.c
  }

  predicate LegsFit(w: Window, name: PatternName, tol: real) {
    var spec := SpecOf(name);
    && LegFits(Abs(w.b - w.a), Abs(w.a - w.x), spec.bXa, tol)
    && LegFits(Abs(w.c - w.b), Abs(w.b - w.a), spec.cAb, tol)
    && LegFits(Abs(w.a - w.d), Abs(w.a - w.x), spec.dXa, tol)
    && LegFits(Abs(w.d - w.c), Abs(w.c - w.b), spec.cdBc, tol)
  }

  /** A window is a pattern if and only if it zigzags and its four legs fit; what the match records is then fixed. */
  lemma MatchedExactly(w: Window, name: PatternName, tol: real)
    ensures var v := ValidatePattern(w, name, tol);
            && (v.Matched? <==> Zigzags(w) && LegsFit(w, name, tol))
            && (v.Matched? ==>
                  && v.m.name == name && v.m.window == w && (v.m.bullish <==> w.a > w.x)
                  && v.m.tp1 - w.d == 0.382 * (w.a - w.d) && v.m.tp2 - w.d == 0.618 * (w.a - w.d)
                  && (if v.m.bullish then v.m.przLo - v.m.stop == 0.05 * (w.a - w.x)
                      else v.m.stop - v.m.przHi == 0.05 * (w.x - w.a)))
  {
    var spec := SpecOf(name);
    if Zigzags(w) {
      RatioIsLeg(w.Ab(), w.Xa(), spec.bXa, tol);
      RatioIsLeg(w.Bc(), w.Ab(), spec.cAb, tol);
      RatioIsLeg(Abs(w.a - w.d), w.Xa(), spec.dXa, tol);
      RatioIsLeg(w.Cd(), w.Bc(), spec.cdBc, tol);
    }
  }

  /** A measure of the completion point, from `start` along a leg, widened by the tolerance. */
  function Widened(start: real, leg: real, range: Range, tol: real, bullish: bool): Range {
    var near, far := leg * (range.lo * (1.0 - tol)), leg * (range.hi * (1.0 + tol));
    if bullish then Range(start - far, start - near) else Range(start + near, start + far)
  }

  lemma MeasuresAreWidened(w: Window, name: PatternName)
    ensures XaMeasure(w, name) == Widened(w.a, w.Xa(), SpecOf(name).dXa, 0.0, w.a > w.x)
    ensures BcMeasure(w, name) == Widened(w.c, w.Bc(), SpecOf(name).cdBc, 0.0, w.a > w.x)
  {}

  /**
   The two measures whose confluence is the reversal zone are those of D without tolerance: D of a match lies in the
   measure along BC widened by the tolerance and, for a tolerance up to a half, in that along XA.
   */
  lemma CompletionInMeasures(w: Window, name: PatternName, tol: real)
    requires ValidatePattern(w, name, tol).Matched?
    ensures XaMeasure(w, name) == Widened(w.a, w.Xa(), SpecOf(name).dXa, 0.0, w.a > w.x)
    ensures BcMeasure(w, name) == Widened(w.c, w.Bc(), SpecOf(name).cdBc, 0.0, w.a > w.x)
    ensures Within(w.d, Widened(w.c, w.Bc(), SpecOf(name).cdBc, tol, w.a > w.x))
    ensures tol <= 0.5 ==> Within(w.d, Widened(w.a, w.Xa(), SpecOf(name).dXa, tol, w.a > w.x))
  {
    MeasuresAreWidened(w, name);
    MatchedExactly(w, name, tol);
    if tol <= 0.5 { MatchedIsShortOfA(w, name, tol); }
  }

  // ------------------------------------------------------------------------
  // The scan
  // ------------------------------------------------------------------------

  /** On a window of the ZigZag the legs alone decide. */
  lemma WindowMatchedExactly(cs: seq<Candle>, pct: real, i: nat, name: PatternName, tol: real)
    requires PositivePrices(cs) && 0.0 < pct < 1.0 && 4 <= i < |ZigZagOf(cs, pct)|
    ensures var w := WindowAt(ZigZagOf(cs, pct), i);
            Zigzags(w) && (ValidatePattern(w, name, tol).Matched? <==> LegsFit(w, name, tol))
  {
    var w := WindowAt(ZigZagOf(cs, pct), i);
    ZigZagStructure(cs, pct);
    SwingWindow(cs, pct, ZigZagOf(cs, pct), i);
    MatchedExactly(w, name, tol);
  }

  /** The hit of a pattern in the window that ends in pivot `i`. */
  ghost predicate IsHit(ps: seq<Pivot>, i: nat, name: PatternName, tol: real, hit: Hit)
    requires 4 <= i < |ps|
  {
    ValidatePattern(WindowAt(ps, i), name, tol) == Matched(hit.m) && hit.d == ps[i]
  }

  ghost predicate HitAmong(ps: seq<Pivot>, i: nat, names: seq<PatternName>, tol: real, hit: Hit)
    requires 4 <= i < |ps|
  {
    exists name :: name in names && IsHit(ps, i, name, tol, hit)
  }

  lemma LastName(ps: seq<Pivot>, i: nat, names: seq<PatternName>, tol: real, hit: Hit)
    requires 4 <= i < |ps| && names != []
    ensures var n := |names| - 1;
            HitAmong(ps, i, names, tol, hit) <==>
              HitAmong(ps, i, names[..n], tol, hit) || IsHit(ps, i, names[n], tol, hit)
  {
    var n := |names| - 1;
    assert names == names[..n] + [names[n]];
    if HitAmong(ps, i, names[..n], tol, hit) {
      var name :| name in names[..n] && IsHit(ps, i, name, tol, hit);
      assert name in names;
    }
  }

  lemma LastHits(ps: seq<Pivot>, i: nat, names: seq<PatternName>, tol: real, hit: Hit)
    requires 4 <= i < |ps| && names != []
    ensures var n := |names| - 1;
            hit in HitsAt(ps, i, names, tol) <==>
              hit in HitsAt(ps, i, names[..n], tol) || IsHit(ps, i, names[n], tol, hit)
  {
    var n := |names| - 1;
    var v := ValidatePattern(WindowAt(ps, i), names[n], tol);
    var more: seq<Hit> := if v.Matched? then [Hit(v.m, ps[i])] else [];
    assert HitsAt(ps, i, names, tol) == HitsAt(ps, i, names[..n], tol) + more;
    assert hit in more <==> v == Matched(hit.m) && hit.d == ps[i];
  }

  lemma {:induction false} WindowHits(ps: seq<Pivot>, i: nat, names: seq<PatternName>, tol: real, hit: Hit)
    requires 4 <= i < |ps|
    ensures hit in HitsAt(ps, i, names, tol) <==> HitAmong(ps, i, names, tol, hit)
  {
    if names != [] {
      WindowHits(ps, i, names[..|names| - 1], tol, hit);
      LastName(ps, i, names, tol, hit);
      LastHits(ps, i, names, tol, hit);
    }
  }

  ghost predicate HitBefore(ps: seq<Pivot>, k: nat, names: seq<PatternName>, tol: real, hit: Hit)
    requires k <= |ps|
  {
    exists i :: 4 <= i < k && HitAmong(ps, i, names, tol, hit)
  }

  lemma LastWindow(ps: seq<Pivot>, k: nat, names: seq<PatternName>, tol: real, hit: Hit)
    requires 4 < k <= |ps|
    ensures HitBefore(ps, k, names, tol, hit)
       <==> HitBefore(ps, k - 1, names, tol, hit) || HitAmong(ps, k - 1, names, tol, hit)
  {
    if HitBefore(ps, k - 1, names, tol, hit) {
      var i :| 4 <= i < k - 1 && HitAmong(ps, i, names, tol, hit);
      assert 4 <= i < k && HitAmong(ps, i, names, tol, hit);
    }
  }

  /** The scan of all windows finds exactly the patterns asked for in the windows there are. */
  lemma {:induction false} HitsExactly(ps: seq<Pivot>, k: nat, names: seq<PatternName>, tol: real, hit: Hit)
    requires k <= |ps|
    ensures hit in HitsBefore(ps, k, names, tol) <==> HitBefore(ps, k, names, tol, hit)
  {
    if k > 4 {
      HitsExactly(ps, k - 1, names, tol, hit);
      WindowHits(ps, k - 1, names, tol, hit);
      LastWindow(ps, k, names, tol, hit);
    }
  }

  // ------------------------------------------------------------------------
  // Which patterns go together
  // ------------------------------------------------------------------------

  /** The tolerance from which the ranges of two patterns begin to overlap. */
  const OVERLAP: real := 25.0 / 418.0

  predicate RatiosOverlap(r: Range, s: Range, tol: real) {
    r.lo * (1.0 - tol) <= s.hi * (1.0 + tol) && s.lo * (1.0 - tol) <= r.hi * (1.0 + tol)
  }

  lemma SharedRatio(q: real, r: Range, s: Range, tol: real)
    requires InRange(q, r, tol) && InRange(q, s, tol)
    ensures RatiosOverlap(r, s, tol)
  {}

  lemma RangesApart(p: PatternName, q: PatternName, tol: real)
    requires p != q && tol < OVERLAP
    ensures !RatiosOverlap(SpecOf(p).bXa, SpecOf(q).bXa, tol) || !RatiosOverlap(SpecOf(p).cAb, SpecOf(q).cAb, tol)
         || !RatiosOverlap(SpecOf(p).dXa, SpecOf(q).dXa, tol)
  {}

  lemma OnePattern(w: Window, p: PatternName, q: PatternName, tol: real)
    requires ValidatePattern(w, p, tol).Matched? && ValidatePattern(w, q, tol).Matched? && tol < OVERLAP
    ensures p == q
  {
    SharedRatio(w.Ab() / w.Xa(), SpecOf(p).bXa, SpecOf(q).bXa, tol);
    SharedRatio(w.Bc() / w.Ab(), SpecOf(p).cAb, SpecOf(q).cAb, tol);
    SharedRatio(Abs(w.a - w.d) / w.Xa(), SpecOf(p).dXa, SpecOf(q).dXa, tol);
    if p != q { RangesApart(p, q, tol); }
  }

  /** A window between a butterfly and a deep crab. */
  const BETWEEN: Window := Window(0.0, 209000.0, 209000.0 - 174099.0, 209000.0 - 174099.0 + 0.886 * 174099.0,
                                  209000.0 - 1.618 * 209000.0)

  lemma BetweenLegs()
    ensures Zigzags(BETWEEN)
    ensures Abs(BETWEEN.a - BETWEEN.x) == 209000.0 && Abs(BETWEEN.b - BETWEEN.a) == 174099.0
    ensures Abs(BETWEEN.c - BETWEEN.b) == 154251.714 && Abs(BETWEEN.a - BETWEEN.d) == 338162.0
    ensures Abs(BETWEEN.d - BETWEEN.c) == 318314.714
  {}

  lemma BetweenIsButterfly(tol: real)
    requires OVERLAP <= tol
    ensures ValidatePattern(BETWEEN, Butterfly, tol).Matched?
  {
    BetweenLegs();
    MatchedExactly(BETWEEN, Butterfly, tol);
  }

  lemma BetweenIsDeepCrab(tol: real)
    requires OVERLAP <= tol
    ensures ValidatePattern(BETWEEN, DeepCrab, tol).Matched?
  {
    BetweenLegs();
    MatchedExactly(BETWEEN, DeepCrab, tol);
  }

  ghost predicate NoTwoMatch(tol: real) {
    forall w: Window, p: PatternName, q: PatternName ::
      ValidatePattern(w, p, tol).Matched? && ValidatePattern(w, q, tol).Matched? ==> p == q
  }

  /**
   No window matches two patterns if and only if the tolerance is below 25/418, about six percent: at that point the
   butterfly and the deep crab meet. The default of twelve percent is above it.
   */
  lemma PatternsDistinctExactly(tol: real)
    ensures NoTwoMatch(tol) <==> tol < OVERLAP
  {
    if tol < OVERLAP {
      forall w: Window, p: PatternName, q: PatternName
        | ValidatePattern(w, p, tol).Matched? && ValidatePattern(w, q, tol).Matched?
        ensures p == q
      {
        OnePattern(w, p, q, tol);
      }
    } else {
      BetweenIsButterfly(tol);
      BetweenIsDeepCrab(tol);
    }
  }

  // ------------------------------------------------------------------------
  // The projected entry
  // ------------------------------------------------------------------------

  predicate FarBeyondA(x: real, a: real, c: real) {
    if a > x then c > a * 1.05 else c < a * 0.95
  }

  /** An entry is refused for B, then for a C more than five percent past A, then for C, and for nothing else. */
  lemma EntryRefusedExactly(x: real, a: real, b: real, c: real, name: PatternName, atr: real, mode: Mode, tol: real)
    requires a != x && b != a && atr >= 0.0
    ensures var e := CalcEntry(x, a, b, c, name, atr, mode, tol);
            var bFits := LegFits(Abs(b - a), Abs(a - x), SpecOf(name).bXa, tol);
            var cFits := LegFits(Abs(c - b), Abs(b - a), SpecOf(name).cAb, tol);
            && (e == Failure(BOutOfRange) <==> !bFits)
            && (e == Failure(CBeyondA) <==> bFits && FarBeyondA(x, a, c))
            && (e == Failure(COutOfRange) <==> bFits && !FarBeyondA(x, a, c) && !cFits)
  {
    RatioIsLeg(Abs(b - a), Abs(a - x), SpecOf(name).bXa, tol);
    RatioIsLeg(Abs(c - b), Abs(b - a), SpecOf(name).cAb, tol);
  }

  /** `p` lies `distance` from `from`, in the direction of loss of the leg from X to A. */
  predicate Projects(bullish: bool, from: real, p: real, distance: real) {
    distance == if bullish then from - p else p - from
  }

  /** The projections: along XA by the pattern's least ratio, along BC by the middle of its range, and AB = CD. */
  lemma ProjectionsAre(x: real, a: real, b: real, c: real, name: PatternName)
    ensures var d := Projections(x, a, b, c, name);
            var spec := SpecOf(name);
            && Projects(a > x, a, d.0, spec.dXa.lo * Abs(a - x))
            && Projects(a > x, c, d.1, (spec.cdBc.lo + spec.cdBc.hi) / 2.0 * Abs(c - b))
            && Projects(a > x, c, d.2, Abs(b - a))
  {}

  predicate NarrowerThan(e: EntryPlan, share: real) {
    e.przHi - e.przLo < share * Abs(e.center)
  }

  lemma QuotientBelow(width: real, center: real, share: real)
    requires center > 0.0
    ensures width / center < share <==> width < share * center
  {
    var q := width / center;
    assert center * q == width;
    ProductOrder(share, q, center);
  }

  function GradeOf(width: real, center: real): Grade {
    if center == 0.0 then C
    else if width / Abs(center) < PRZ_GRADE_A then A
    else if width / Abs(center) < PRZ_GRADE_B then B else C
  }

  lemma GradeIs(width: real, center: real)
    requires width >= 0.0
    ensures GradeOf(width, center) == A <==> width < 0.02 * Abs(center)
    ensures GradeOf(width, center) == B <==> 0.02 * Abs(center) <= width < 0.04 * Abs(center)
  {
    if center != 0.0 {
      QuotientBelow(width, Abs(center), 0.02);
      QuotientBelow(width, Abs(center), 0.04);
    }
  }

  /** The grade of an accepted entry is that of the zone's width against its centre. */
  lemma EntryGrade(x: real, a: real, b: real, c: real, name: PatternName, atr: real, mode: Mode, tol: real)
    requires a != x && b != a && atr >= 0.0 && CalcEntry(x, a, b, c, name, atr, mode, tol).Success?
    ensures var e := CalcEntry(x, a, b, c, name, atr, mode, tol).value;
            && (e.grade == A <==> NarrowerThan(e, 0.02))
            && (e.grade == B <==> NarrowerThan(e, 0.04) && !NarrowerThan(e, 0.02))
  {
    var e := CalcEntry(x, a, b, c, name, atr, mode, tol).value;
    assert e.grade == GradeOf(e.przHi - e.przLo, e.center);
    GradeIs(e.przHi - e.przLo, e.center);
  }

  /** Centre, stop and targets of an accepted entry. */
  lemma EntryPrices(x: real, a: real, b: real, c: real, name: PatternName, atr: real, mode: Mode, tol: real)
    requires a != x && b != a && atr >= 0.0 && CalcEntry(x, a, b, c, name, atr, mode, tol).Success?
    ensures var e := CalcEntry(x, a, b, c, name, atr, mode, tol).value;
            var d := Projections(x, a, b, c, name);
            var buffer := if atr > 0.0 then 0.7 * atr else 0.05 * Abs(a - x);
            && (e.bullish <==> a > x) && 3.0 * e.center == d.0 + d.1 + d.2
            && Projects(e.bullish, if e.bullish then e.przLo else e.przHi, e.stop, buffer)
            && Projects(e.bullish, e.tp1, e.center, 0.382 * Abs(a - e.center))
            && Projects(e.bullish, e.tp2, e.center, 0.618 * Abs(a - e.center))
            && e.stop != e.center && e.rrTp1 == Abs(e.tp1 - e.center) / Abs(e.center - e.stop)
  {
    var e := CalcEntry(x, a, b, c, name, atr, mode, tol).value;
    EntryGeometry(x, a, b, c, name, atr, mode, tol);
  }

  /** One order at the centre, three at the quarters of the zone, or none. */
  lemma EntryOrders(x: real, a: real, b: real, c: real, name: PatternName, atr: real, mode: Mode, tol: real)
    requires a != x && b != a && atr >= 0.0 && CalcEntry(x, a, b, c, name, atr, mode, tol).Success?
    ensures var e := CalcEntry(x, a, b, c, name, atr, mode, tol).value;
            && (mode.Aggressive? ==> e.orders == [e.center])
            && (mode.Ladder? ==>
                  && |e.orders| == 3
                  && e.orders[0] - e.przLo == e.orders[1] - e.orders[0] == e.orders[2] - e.orders[1]
                  && e.orders[2] - e.orders[1] == e.przHi - e.orders[2])
            && (mode.Confirm? ==> e.orders == [])
  {}
}
