/**
 Stops, targets and grades of harmonic signals (app/domain/signals.py) and the
 candidate filter (app/domain/validation.py).
 */
module SignalGeometry {
  import opened Wrappers
  import opened MarketTypes

  const MAX_STOP_BUFFER_MULT := 2.0

  datatype Candidate = Candidate(family: string, name: string, bullish: bool, formed: bool, points: seq<real>,
                                 completionMin: real, completionMax: real, times: seq<int>)

  datatype Tuning = Tuning(conservative: real, standard: real, aggressive: real,
                           fib1: real, fib2: real, fib3: real, extended: set<string>,
                           maxDistance: real, maxAge: int, maxWidth: real)

  /** The optional arguments of `compute_stop`. */
  datatype StopArgs = StopArgs(level: string, swing: Option<real>, entry: Option<real>, trap: real,
                               regime: string, grade: Option<string>, bufferAtr: Option<real>)

  datatype Stop = Stop(price: real, invalidation: real)

  datatype Violation = ContractViolation | MissingPoint

  /** The points that A is read from, and so X. */
  predicate HasPoints(c: Candidate) {
    |c.points| >= 1 && (c.family == "XABCD" ==> |c.points| >= 2)
  }

  /** X, where the stop of this level is read from it. */
  predicate HasStopPoints(c: Candidate, level: string, t: Tuning) {
    |c.points| >= 1 || level == "conservative" || (level != "aggressive" && Lower(c.name) in t.extended)
  }

  function XPrice(c: Candidate): real
    requires |c.points| >= 1
  {
    c.points[0]
  }

  function APrice(c: Candidate): real
    requires HasPoints(c)
  {
    if c.family == "XABCD" then c.points[1] else c.points[0]
  }

  function PrzLow(c: Candidate): real {
    Min(c.completionMin, c.completionMax)
  }

  function PrzHigh(c: Candidate): real {
    Max(c.completionMin, c.completionMax)
  }

  predicate InPrz(c: Candidate, price: real) {
    PrzLow(c) <= price <= PrzHigh(c)
  }

  function Lower(s: string): string {
    if s == "" then "" else [if 'A' <= s[0] <= 'Z' then s[0] - 'A' + 'a' else s[0]] + Lower(s[1..])
  }

  // ------------------------------------------------------------------------
  // The buffer
  // ------------------------------------------------------------------------

  function RegimeFactor(regime: string): real {
    if regime == "high_quant" then 1.5 else 1.0
  }

  function GradeFactor(grade: Option<string>): real {
    if grade == Some("C") then 1.3 else if grade == Some("C(\U{53c2}\U{8003})") then 1.5 else 1.0
  }

  function Base(args: StopArgs, t: Tuning): real {
    if args.bufferAtr.Some? then args.bufferAtr.value
    else if args.level == "conservative" then t.conservative
    else if args.level == "aggressive" then t.aggressive
    else t.standard
  }

  function Times(x: real, y: real): real {
    x * y
  }

  function Chain(base: real, trap: real, regime: real, grade: real): real {
    Times(Times(Times(base, trap), regime), grade)
  }

  function EffectiveMult(args: StopArgs, t: Tuning): real {
    Min(Chain(Base(args, t), Max(1.0, args.trap), RegimeFactor(args.regime), GradeFactor(args.grade)),
        MAX_STOP_BUFFER_MULT)
  }

  // ------------------------------------------------------------------------
  // Stop and targets
  // ------------------------------------------------------------------------

  function Edge(c: Candidate): real {
    if c.bullish then PrzLow(c) else PrzHigh(c)
  }

  function BeyondX(c: Candidate): real
    requires |c.points| >= 1
  {
    if c.bullish then Min(XPrice(c), Edge(c)) else Max(XPrice(c), Edge(c))
  }

  function StructuralAnchor(c: Candidate, level: string, t: Tuning): real
    requires HasStopPoints(c, level, t)
  {
    if level == "conservative" then Edge(c)
    else if level == "aggressive" then BeyondX(c)
    else if Lower(c.name) in t.extended then Edge(c)
    else BeyondX(c)
  }

  /** A positive swing on the right side of the entry replaces a wider structural anchor. */
  predicate SwingApplies(c: Candidate, args: StopArgs, anchor: real) {
    && args.swing.Some? && args.entry.Some? && args.swing.value > 0.0
    && if c.bullish then anchor < args.swing.value < args.entry.value else anchor > args.swing.value > args.entry.value
  }

  function Anchor(c: Candidate, args: StopArgs, t: Tuning): real
    requires HasStopPoints(c, args.level, t)
  {
    var anchor := StructuralAnchor(c, args.level, t);
    if SwingApplies(c, args, anchor) then args.swing.value else anchor
  }

  predicate StopContract(c: Candidate, atr: real) {
    atr > 0.0 && PrzLow(c) > 0.0 && PrzHigh(c) > 0.0 && forall i :: 0 <= i < |c.points| ==> c.points[i] > 0.0
  }

  function ComputeStop(c: Candidate, atr: real, args: StopArgs, t: Tuning): Result<Stop, Violation> {
    if !StopContract(c, atr) then Failure(ContractViolation)
    else if !HasStopPoints(c, args.level, t) then Failure(MissingPoint)
    else
      var anchor, buffer := Anchor(c, args, t), Times(EffectiveMult(args, t), atr);
      var price := if c.bullish then anchor - buffer else anchor + buffer;
      if price <= 0.0 || anchor <= 0.0 then Failure(ContractViolation) else Success(Stop(price, anchor))
  }

  function Target(c: Candidate, entry: real, fib: real): real
    requires HasPoints(c)
  {
    var reach := Times(fib, Abs(APrice(c) - entry));
    if c.bullish then entry + reach else entry - reach
  }

  function ComputeTargets(c: Candidate, entry: real, t: Tuning): seq<real>
    requires HasPoints(c)
  {
    [Target(c, entry, t.fib1), Target(c, entry, t.fib2), Target(c, entry, t.fib3)]
  }

  predicate DirectionInvariantOk(bullish: bool, entry: real, stop: real, targets: seq<real>) {
    |targets| >= 3 &&
    if bullish then stop < entry <= targets[0] < targets[1] < targets[2]
    else stop > entry >= targets[0] > targets[1] > targets[2]
  }

  /** The signed distance of the stop beyond a price, in the direction of loss. */
  function Beyond(c: Candidate, stop: real, price: real): real {
    if c.bullish then price - stop else stop - price
  }

  // ------------------------------------------------------------------------
  // Buffer laws
  // ------------------------------------------------------------------------

  lemma TimesOrder(x: real, y: real, z: real)
    requires x <= y && z >= 0.0
    ensures Times(x, z) <= Times(y, z) && Times(z, x) <= Times(z, y)
    ensures x < y && z > 0.0 ==> Times(x, z) < Times(y, z) && Times(z, x) < Times(z, y)
  {
    if x < y && z > 0.0 {
      assert (y - x) * z > 0.0;
    } else if z > 0.0 {
      assert x == y;
    } else {
      assert z == 0.0;
    }
  }

  lemma TimesSign(x: real, f: real)
    requires f >= 1.0
    ensures (Times(x, f) > 0.0 <==> x > 0.0) && (x >= 0.0 ==> Times(x, f) >= x)
  {
    if x > 0.0 {
      TimesOrder(1.0, f, x);
    } else if x < 0.0 {
      TimesOrder(x, 0.0, f);
    }
  }

  lemma ChainSign(base: real, trap: real, regime: real, grade: real)
    requires trap >= 1.0 && regime >= 1.0 && grade >= 1.0
    ensures Chain(base, trap, regime, grade) > 0.0 <==> base > 0.0
    ensures base >= 0.0 ==> Chain(base, trap, regime, grade) >= base
  {
    TimesSign(base, trap);
    TimesSign(Times(base, trap), regime);
    TimesSign(Times(Times(base, trap), regime), grade);
  }

  lemma ChainOrder(base: real, t1: real, r1: real, g1: real, t2: real, r2: real, g2: real)
    requires base >= 0.0 && 1.0 <= t1 <= t2 && 1.0 <= r1 <= r2 && 1.0 <= g1 <= g2
    ensures Chain(base, t1, r1, g1) <= Chain(base, t2, r2, g2)
  {
    TimesOrder(t1, t2, base);
    TimesSign(base, t1);
    TimesSign(base, t2);
    TimesOrder(Times(base, t1), Times(base, t2), r1);
    TimesOrder(r1, r2, Times(base, t2));
    var x, y := Times(Times(base, t1), r1), Times(Times(base, t2), r2);
    TimesOrder(x, y, g1);
    TimesSign(Times(base, t2), r2);
    TimesOrder(g1, g2, y);
  }

  lemma BufferSign(args: StopArgs, t: Tuning, atr: real)
    requires atr > 0.0
    ensures Times(EffectiveMult(args, t), atr) > 0.0 <==> Base(args, t) > 0.0
    ensures Times(EffectiveMult(args, t), atr) <= 2.0 * atr
  {
    var m := EffectiveMult(args, t);
    ChainSign(Base(args, t), Max(1.0, args.trap), RegimeFactor(args.regime), GradeFactor(args.grade));
    if m > 0.0 { TimesOrder(0.0, m, atr); } else { TimesOrder(m, 0.0, atr); }
    TimesOrder(m, 2.0, atr);
  }

  /** The stop is at most two ATR beyond the invalidation point, and is beyond it exactly for a positive base. */
  lemma StopNearInvalidation(c: Candidate, atr: real, args: StopArgs, t: Tuning)
    requires ComputeStop(c, atr, args, t).Success?
    ensures var s := ComputeStop(c, atr, args, t).value;
            && Beyond(c, s.price, s.invalidation) <= 2.0 * atr
            && (Beyond(c, s.price, s.invalidation) > 0.0 <==> Base(args, t) > 0.0)
  {
    BufferSign(args, t, atr);
  }

  // ------------------------------------------------------------------------
  // Geometry
  // ------------------------------------------------------------------------

  predicate FibLadder(t: Tuning) {
    0.0 < t.fib1 < t.fib2 < t.fib3
  }

  lemma LadderOrder(t: Tuning, span: real)
    requires FibLadder(t) && span >= 0.0
    ensures span > 0.0 ==> 0.0 < Times(t.fib1, span) < Times(t.fib2, span) < Times(t.fib3, span)
    ensures span == 0.0 ==> Times(t.fib1, span) == Times(t.fib2, span)
  {
    TimesOrder(0.0, t.fib1, span);
    TimesOrder(t.fib1, t.fib2, span);
    TimesOrder(t.fib2, t.fib3, span);
  }

  lemma AnchorBehindEntry(c: Candidate, args: StopArgs, t: Tuning, entry: real)
    requires HasStopPoints(c, args.level, t) && InPrz(c, entry) && (args.entry.Some? ==> args.entry.value == entry)
    ensures if c.bullish then Anchor(c, args, t) <= entry else Anchor(c, args, t) >= entry
  {}

  /**
   For an entry inside the PRZ and an ordered ladder, `compute_stop` and `compute_targets` agree with
   `direction_invariant_ok`, for every level, family, swing, regime, grade and override, if and only if A is not the
   entry and the buffer exceeds minus the room between anchor and entry. For a base buffer that is not negative, that
   is: it is positive, or the anchor is not the entry.
   */
  lemma GeometryExact(c: Candidate, atr: real, args: StopArgs, t: Tuning, entry: real)
    requires HasPoints(c) && InPrz(c, entry) && (args.entry.Some? ==> args.entry.value == entry)
    requires FibLadder(t) && ComputeStop(c, atr, args, t).Success?
    ensures var stop := ComputeStop(c, atr, args, t).value.price;
            var room := Beyond(c, Anchor(c, args, t), entry);
            var ok := DirectionInvariantOk(c.bullish, entry, stop, ComputeTargets(c, entry, t));
            && (ok <==> APrice(c) != entry && room > -Times(EffectiveMult(args, t), atr))
            && (Base(args, t) >= 0.0 ==>
                  (ok <==> APrice(c) != entry && (Base(args, t) > 0.0 || entry != Anchor(c, args, t))))
  {
    BufferSign(args, t, atr);
    AnchorBehindEntry(c, args, t, entry);
    LadderOrder(t, Abs(APrice(c) - entry));
    ZeroBuffer(args, t, atr);
  }

  lemma ZeroBuffer(args: StopArgs, t: Tuning, atr: real)
    ensures Base(args, t) == 0.0 ==> Times(EffectiveMult(args, t), atr) == 0.0
  {
    if Base(args, t) == 0.0 {
      assert Chain(0.0, Max(1.0, args.trap), RegimeFactor(args.regime), GradeFactor(args.grade)) == 0.0;
    }
  }

  /** A bullish Gartley. */
  function Gartley(a: real): Candidate {
    Candidate("XABCD", "gartley", true, true, [100.0, a, 108.0, 115.0, 105.0], 104.0, 106.0, [])
  }

  /** A conservative stop with a zero override for an entry at the edge of the zone: the stop is the entry. */
  lemma ZeroBufferFails(t: Tuning)
    ensures var args := StopArgs("conservative", None, Some(104.0), 1.0, "normal", None, Some(0.0));
            && ComputeStop(Gartley(120.0), 2.0, args, t) == Success(Stop(104.0, 104.0))
            && !DirectionInvariantOk(true, 104.0, 104.0, ComputeTargets(Gartley(120.0), 104.0, t))
  {
    ZeroBuffer(StopArgs("conservative", None, Some(104.0), 1.0, "normal", None, Some(0.0)), t, 2.0);
  }

  // ------------------------------------------------------------------------
  // The three levels
  // ------------------------------------------------------------------------

  /** A stop without swing, factors or override. */
  function PlainArgs(level: string): StopArgs {
    StopArgs(level, None, None, 1.0, "normal", None, None)
  }

  predicate IsExtended(c: Candidate, t: Tuning) {
    Lower(c.name) in t.extended
  }

  /** The farther of X and the edge of the zone, in the direction of loss. */
  predicate IsBeyondX(c: Candidate, p: real)
    requires |c.points| >= 1
  {
    var edge := if c.bullish then PrzLow(c) else PrzHigh(c);
    && (p == c.points[0] || p == edge)
    && (if c.bullish then p <= c.points[0] && p <= edge else p >= c.points[0] && p >= edge)
  }

  /**
   Where each level puts its stop: the conservative one beyond the edge of the zone, the aggressive one beyond X, and
   the standard one, which every other name means, beyond either as the pattern is an extension or not; each by the
   ATR multiple of its own level, up to two.
   */
  lemma LevelsExactly(c: Candidate, atr: real, level: string, t: Tuning)
    requires |c.points| >= 1 && ComputeStop(c, atr, PlainArgs(level), t).Success?
    ensures var s := ComputeStop(c, atr, PlainArgs(level), t).value;
            var edge := if c.bullish then PrzLow(c) else PrzHigh(c);
            var atEdge := level == "conservative" || (level != "aggressive" && IsExtended(c, t));
            var mult := if level == "conservative" then t.conservative
                        else if level == "aggressive" then t.aggressive else t.standard;
            && (if atEdge then s.invalidation == edge else IsBeyondX(c, s.invalidation))
            && Beyond(c, s.price, s.invalidation) == Min(mult, 2.0) * atr
  {
    var args := PlainArgs(level);
    assert Chain(Base(args, t), 1.0, 1.0, 1.0) == Base(args, t);
    assert EffectiveMult(args, t) == Min(Base(args, t), 2.0);
  }

  /** Of ordered multiples, the conservative stop of an extension and the standard one of a retracement lie farther. */
  lemma LevelsOrdered(c: Candidate, atr: real, t: Tuning)
    requires |c.points| >= 1 && t.aggressive <= t.standard <= t.conservative
    requires ComputeStop(c, atr, PlainArgs("conservative"), t).Success?
    requires ComputeStop(c, atr, PlainArgs("standard"), t).Success?
    requires ComputeStop(c, atr, PlainArgs("aggressive"), t).Success?
    ensures var con, std, agg := ComputeStop(c, atr, PlainArgs("conservative"), t).value,
                                 ComputeStop(c, atr, PlainArgs("standard"), t).value,
                                 ComputeStop(c, atr, PlainArgs("aggressive"), t).value;
            && (IsExtended(c, t) ==> std.invalidation == con.invalidation && Beyond(c, con.price, std.price) >= 0.0)
            && (!IsExtended(c, t) ==> std.invalidation == agg.invalidation && Beyond(c, std.price, agg.price) >= 0.0)
            && Beyond(c, agg.invalidation, con.invalidation) >= 0.0
  {
    LevelsExactly(c, atr, "conservative", t);
    LevelsExactly(c, atr, "standard", t);
    LevelsExactly(c, atr, "aggressive", t);
    assert "standard" != "conservative" && "standard" != "aggressive" by {
      assert "standard"[0] != "conservative"[0] && "standard"[0] != "aggressive"[0];
    }
    TimesOrder(Min(t.aggressive, 2.0), Min(t.standard, 2.0), atr);
    TimesOrder(Min(t.standard, 2.0), Min(t.conservative, 2.0), atr);
  }

  // ------------------------------------------------------------------------
  // What the factors do to the buffer
  // ------------------------------------------------------------------------

  /** The product of the trap, regime and grade factors. */
  function Factors(args: StopArgs): real {
    Times(Times(Max(1.0, args.trap), RegimeFactor(args.regime)), GradeFactor(args.grade))
  }

  lemma FactorsAtLeastOne(args: StopArgs)
    ensures Factors(args) >= 1.0
  {
    TimesSign(Max(1.0, args.trap), RegimeFactor(args.regime));
    TimesSign(Times(Max(1.0, args.trap), RegimeFactor(args.regime)), GradeFactor(args.grade));
  }

  lemma ChainIsProduct(base: real, trap: real, regime: real, grade: real)
    ensures Chain(base, trap, regime, grade) == Times(base, Times(Times(trap, regime), grade))
  {}

  /**
   The factors scale every base, an override included: they leave the capped buffer as it is exactly when their
   product is one, the base is zero, or the cap applies to the base already.
   */
  lemma FactorsMatter(args: StopArgs, t: Tuning)
    ensures EffectiveMult(args, t) == Min(Times(Base(args, t), Factors(args)), MAX_STOP_BUFFER_MULT)
    ensures EffectiveMult(args, t) == Min(Base(args, t), MAX_STOP_BUFFER_MULT)
       <==> Factors(args) == 1.0 || Base(args, t) == 0.0 || Base(args, t) >= MAX_STOP_BUFFER_MULT
  {
    var base, f := Base(args, t), Factors(args);
    ChainIsProduct(base, Max(1.0, args.trap), RegimeFactor(args.regime), GradeFactor(args.grade));
    FactorsAtLeastOne(args);
    if f > 1.0 {
      if base > 0.0 { TimesOrder(1.0, f, base); }
      if base < 0.0 { TimesOrder(1.0, f, -base); }
    }
  }

  /** An override of half an ATR in a high-quant regime is three quarters of an ATR. */
  lemma OverrideIsScaled(t: Tuning)
    ensures EffectiveMult(StopArgs("standard", None, None, 1.0, "high_quant", None, Some(0.5)), t) == 0.75
  {}

  /** Raising a factor never brings the stop closer, and does not move the invalidation point. */
  lemma WideningNeverTightens(c: Candidate, atr: real, narrow: StopArgs, wide: StopArgs, t: Tuning)
    requires Base(narrow, t) >= 0.0
    requires wide == narrow.(trap := wide.trap, regime := wide.regime, grade := wide.grade)
    requires narrow.trap <= wide.trap && RegimeFactor(narrow.regime) <= RegimeFactor(wide.regime)
    requires GradeFactor(narrow.grade) <= GradeFactor(wide.grade)
    requires ComputeStop(c, atr, narrow, t).Success? && ComputeStop(c, atr, wide, t).Success?
    ensures var s, w := ComputeStop(c, atr, narrow, t).value, ComputeStop(c, atr, wide, t).value;
            w.invalidation == s.invalidation && Beyond(c, w.price, s.price) >= 0.0
  {
    ChainOrder(Base(narrow, t), Max(1.0, narrow.trap), RegimeFactor(narrow.regime), GradeFactor(narrow.grade),
               Max(1.0, wide.trap), RegimeFactor(wide.regime), GradeFactor(wide.grade));
    TimesOrder(EffectiveMult(narrow, t), EffectiveMult(wide, t), atr);
  }

  /** A swing anchor only ever brings the stop closer, and it stays short of the entry it was checked against. */
  lemma SwingTightens(c: Candidate, atr: real, args: StopArgs, t: Tuning)
    requires ComputeStop(c, atr, args, t).Success? && ComputeStop(c, atr, args.(swing := None), t).Success?
    ensures var s, plain := ComputeStop(c, atr, args, t).value, ComputeStop(c, atr, args.(swing := None), t).value;
            && Beyond(c, plain.price, s.price) >= 0.0
            && (SwingApplies(c, args, StructuralAnchor(c, args.level, t)) <==> s != plain)
            && (s != plain && Base(args, t) >= 0.0 ==> Beyond(c, s.price, args.entry.value) > 0.0)
  {
    BufferSign(args, t, atr);
    ZeroBuffer(args, t, atr);
  }

  // ------------------------------------------------------------------------
  // Risk/reward and grades
  // ------------------------------------------------------------------------

  function NetRr(entry: real, stop: real, target: real, fee: real, slippage: real): Option<real>
    requires entry > 0.0 && stop > 0.0 && target > 0.0 && fee >= 0.0 && slippage >= 0.0
  {
    var risk := Abs(entry - stop);
    var cost := Times(2.0 * (fee + slippage), entry);
    var reward, netRisk := Abs(target - entry) - cost, risk + cost;
    if risk <= 0.0 || reward <= 0.0 || netRisk <= 0.0 then None else Some(reward / netRisk)
  }

  datatype GradeArgs = GradeArgs(score: int, aligned: bool, counter: bool, aMin: int, widthPct: Option<real>)

  const REFERENCE := "C(\U{53c2}\U{8003})"

  function ReferenceOnly(score: int): Option<string> {
    if score >= 45 then Some(REFERENCE) else None
  }

  function Grade(a: GradeArgs, rr1: Option<real>, rr2: Option<real>): Option<string> {
    if rr1.None? || rr2.None? then None
    else if a.widthPct.Some? && a.widthPct.value >= 0.04 then ReferenceOnly(a.score)
    else if a.counter then ReferenceOnly(a.score)
    else if rr1.value < 1.0 || rr2.value < 1.5 then ReferenceOnly(a.score)
    else if a.score >= a.aMin && rr2.value >= 2.0 && a.aligned then Some("A")
    else if a.score >= 60 then Some("B")
    else ReferenceOnly(a.score)
  }

  function Rank(g: Option<string>): nat {
    if g.None? then 0 else if g.value == "A" then 3 else if g.value == "B" then 2 else 1
  }

  predicate RrAtMost(x: Option<real>, y: Option<real>) {
    x.None? || (y.Some? && x.value <= y.value)
  }

  lemma QuotientOrder(n: real, d: real, e: real)
    requires n > 0.0 && 0.0 < d <= e
    ensures n / e <= n / d && (d < e ==> n / e < n / d)
  {
    var x, y := n / e, n / d;
    assert x * e == n && y * d == n && y > 0.0;
    TimesOrder(d, e, y);
    if y < x {
      TimesOrder(y, x, e);
      assert false;
    }
  }

  /** What a target pays net of costs. */
  function NetReward(entry: real, target: real, fee: real, slippage: real): real {
    Abs(target - entry) - Times(2.0 * (fee + slippage), entry)
  }

  function NetRisk(entry: real, stop: real, fee: real, slippage: real): real {
    Abs(entry - stop) + Times(2.0 * (fee + slippage), entry)
  }

  /**
   Of two stops away from the entry, both have a ratio or neither has; and of a paying target the farther stop, and no
   other, has the lower ratio.
   */
  lemma FartherStopLowerRr(entry: real, near: real, far: real, target: real, fee: real, slippage: real)
    requires entry > 0.0 && near > 0.0 && far > 0.0 && target > 0.0 && fee >= 0.0 && slippage >= 0.0
    requires near != entry && far != entry
    ensures var x, y := NetRr(entry, far, target, fee, slippage), NetRr(entry, near, target, fee, slippage);
            && (x.Some? <==> NetReward(entry, target, fee, slippage) > 0.0) && (x.Some? <==> y.Some?)
            && (RrAtMost(x, y) <==> x.None? || Abs(entry - near) <= Abs(entry - far))
  {
    var cost := Times(2.0 * (fee + slippage), entry);
    TimesOrder(0.0, 2.0 * (fee + slippage), entry);
    var reward := NetReward(entry, target, fee, slippage);
    if reward > 0.0 {
      if Abs(entry - near) <= Abs(entry - far) {
        QuotientOrder(reward, Abs(entry - near) + cost, Abs(entry - far) + cost);
      } else {
        QuotientOrder(reward, Abs(entry - far) + cost, Abs(entry - near) + cost);
      }
    }
  }

  /** A ratio is below a gate exactly when the reward is below the gate times the net risk. */
  lemma BelowGate(entry: real, stop: real, target: real, fee: real, slippage: real, gate: real)
    requires entry > 0.0 && stop > 0.0 && target > 0.0 && fee >= 0.0 && slippage >= 0.0
    requires NetRr(entry, stop, target, fee, slippage).Some?
    ensures NetRr(entry, stop, target, fee, slippage).value < gate
       <==> NetReward(entry, target, fee, slippage) < Times(gate, NetRisk(entry, stop, fee, slippage))
  {
    var n, d := NetReward(entry, target, fee, slippage), NetRisk(entry, stop, fee, slippage);
    var q := n / d;
    assert Times(q, d) == n;
    if q < gate { TimesOrder(q, gate, d); } else { TimesOrder(gate, q, d); }
  }

  /** Lower ratios never earn a better grade. */
  lemma GradeFollowsRr(a: GradeArgs, low1: Option<real>, low2: Option<real>, high1: Option<real>, high2: Option<real>)
    requires RrAtMost(low1, high1) && RrAtMost(low2, high2)
    ensures Rank(Grade(a, low1, low2)) <= Rank(Grade(a, high1, high2))
  {}

  /** The engine's two calls of `compute_stop`: a plain one to grade with, then one with factors and override. */
  predicate TwoPasses(first: StopArgs, second: StopArgs, entry: real) {
    && first.entry == Some(entry) && first.trap == 1.0 && first.regime == "normal"
    && first.grade.None? && first.bufferAtr.None? && second.trap >= 1.0
    && second == first.(trap := second.trap, regime := second.regime, grade := second.grade,
                        bufferAtr := second.bufferAtr)
  }

  /** The second stop is at least as far as the first iff its multiple is, and without an override it always is. */
  lemma SecondStopExact(c: Candidate, atr: real, first: StopArgs, second: StopArgs, t: Tuning, entry: real)
    requires TwoPasses(first, second, entry)
    requires ComputeStop(c, atr, first, t).Success? && ComputeStop(c, atr, second, t).Success?
    ensures Beyond(c, ComputeStop(c, atr, second, t).value.price, ComputeStop(c, atr, first, t).value.price) >= 0.0
       <==> EffectiveMult(second, t) >= EffectiveMult(first, t)
    ensures second.bufferAtr.None? && Base(first, t) >= 0.0 ==> EffectiveMult(second, t) >= EffectiveMult(first, t)
  {
    var m1, m2 := EffectiveMult(first, t), EffectiveMult(second, t);
    if m1 <= m2 { TimesOrder(m1, m2, atr); } else { TimesOrder(m2, m1, atr); }
    if second.bufferAtr.None? && Base(first, t) >= 0.0 {
      WideningNeverTightens(c, atr, first, second, t);
    }
  }

  /** With an override that is not negative the comparison is one of risks. */
  lemma SecondRisk(c: Candidate, atr: real, first: StopArgs, second: StopArgs, t: Tuning, entry: real)
    requires InPrz(c, entry) && TwoPasses(first, second, entry)
    requires Base(first, t) > 0.0 && Base(second, t) >= 0.0
    requires ComputeStop(c, atr, first, t).Success? && ComputeStop(c, atr, second, t).Success?
    ensures var near, far := ComputeStop(c, atr, first, t).value.price, ComputeStop(c, atr, second, t).value.price;
            Abs(entry - near) <= Abs(entry - far) <==> EffectiveMult(second, t) >= EffectiveMult(first, t)
  {
    SecondStopExact(c, atr, first, second, t, entry);
    BufferSign(first, t, atr);
    BufferSign(second, t, atr);
    ZeroBuffer(second, t, atr);
    AnchorBehindEntry(c, first, t, entry);
    AnchorBehindEntry(c, second, t, entry);
  }

  /** The grade a stop deserves on the first two targets. */
  function GradeOf(a: GradeArgs, entry: real, stop: real, tp1: real, tp2: real, fee: real, slippage: real)
    : Option<string>
    requires entry > 0.0 && stop > 0.0 && tp1 > 0.0 && tp2 > 0.0 && fee >= 0.0 && slippage >= 0.0
  {
    Grade(a, NetRr(entry, stop, tp1, fee, slippage), NetRr(entry, stop, tp2, fee, slippage))
  }

  /**
   The reported ratio of a paying target is at most the one the signal was graded with if and only if the second stop
   is at least as far or on the entry itself, which for an override that is not negative is a comparison of the two
   multiples; the second stop then deserves no better grade than the one given, and otherwise no worse one.
   */
  lemma SecondPassExact(c: Candidate, atr: real, first: StopArgs, second: StopArgs, t: Tuning, entry: real,
                        a: GradeArgs, tp1: real, tp2: real, fee: real, slippage: real)
    requires InPrz(c, entry) && TwoPasses(first, second, entry) && Base(first, t) > 0.0
    requires ComputeStop(c, atr, first, t).Success? && ComputeStop(c, atr, second, t).Success?
    requires entry > 0.0 && tp1 > 0.0 && tp2 > 0.0 && fee >= 0.0 && slippage >= 0.0
    ensures var near, far := ComputeStop(c, atr, first, t).value.price, ComputeStop(c, atr, second, t).value.price;
            var farther := far == entry || Abs(entry - near) <= Abs(entry - far);
            var given, reported := NetRr(entry, near, tp1, fee, slippage), NetRr(entry, far, tp1, fee, slippage);
            && (NetReward(entry, tp1, fee, slippage) > 0.0 ==> (RrAtMost(reported, given) <==> farther))
            && (Base(second, t) >= 0.0 ==>
                  (farther <==> far == entry || EffectiveMult(second, t) >= EffectiveMult(first, t)))
            && (farther ==> Rank(GradeOf(a, entry, far, tp1, tp2, fee, slippage))
                              <= Rank(GradeOf(a, entry, near, tp1, tp2, fee, slippage)))
            && (!farther ==> Rank(GradeOf(a, entry, near, tp1, tp2, fee, slippage))
                               <= Rank(GradeOf(a, entry, far, tp1, tp2, fee, slippage)))
  {
    var near, far := ComputeStop(c, atr, first, t).value.price, ComputeStop(c, atr, second, t).value.price;
    BufferSign(first, t, atr);
    AnchorBehindEntry(c, first, t, entry);
    if Base(second, t) >= 0.0 { SecondRisk(c, atr, first, second, t, entry); }
    if far != entry {
      FartherStopLowerRr(entry, near, far, tp1, fee, slippage);
      FartherStopLowerRr(entry, near, far, tp2, fee, slippage);
    }
    if far == entry || Abs(entry - near) <= Abs(entry - far) {
      GradeFollowsRr(a, NetRr(entry, far, tp1, fee, slippage), NetRr(entry, far, tp2, fee, slippage),
                     NetRr(entry, near, tp1, fee, slippage), NetRr(entry, near, tp2, fee, slippage));
    } else {
      SecondGradeExact(a, entry, near, far, tp1, tp2, fee, slippage);
    }
  }

  /** Neither the width of the zone nor a counter-trend limits the grade. */
  predicate Gradable(a: GradeArgs) {
    !(a.widthPct.Some? && a.widthPct.value >= 0.04) && !a.counter
  }

  predicate PassesGates(rr1: real, rr2: real) {
    rr1 >= 1.0 && rr2 >= 1.5
  }

  predicate TopMarks(a: GradeArgs, rr2: real) {
    a.score >= a.aMin && a.aligned && rr2 >= 2.0
  }

  /** What higher ratios gain: the gates for a signal with the score or the marks to use them, or the top marks. */
  predicate HigherGradeFor(a: GradeArgs, low1: real, low2: real, high1: real, high2: real) {
    && Gradable(a) && PassesGates(high1, high2)
    && (if PassesGates(low1, low2) then TopMarks(a, high2) && !TopMarks(a, low2)
        else TopMarks(a, high2) || a.score >= 60)
  }

  lemma GradesDifferExactly(a: GradeArgs, low1: real, low2: real, high1: real, high2: real)
    requires low1 <= high1 && low2 <= high2
    ensures Grade(a, Some(low1), Some(low2)) != Grade(a, Some(high1), Some(high2))
       <==> HigherGradeFor(a, low1, low2, high1, high2)
  {
    assert |REFERENCE| == 5 && |"A"| == |"B"| == 1 && "A"[0] != "B"[0];
  }

  /** The ratios a stop and a second stop give, of which the second may be higher or lower. */
  predicate GradesPart(a: GradeArgs, given1: real, given2: real, second1: real, second2: real) {
    HigherGradeFor(a, given1, given2, second1, second2) || HigherGradeFor(a, second1, second2, given1, given2)
  }

  /**
   A nearer second stop, off the entry, deserves no worse a grade than the one given. Of two stops off the entry the
   grades differ exactly when both targets pay and the better ratios bring the signal over the gates or, with the score
   and the trend for it, to a second ratio of two; a stop on the entry deserves none.
   */
  lemma SecondGradeExact(a: GradeArgs, entry: real, near: real, far: real, tp1: real, tp2: real, fee: real,
                         slippage: real)
    requires entry > 0.0 && near > 0.0 && far > 0.0 && tp1 > 0.0 && tp2 > 0.0 && fee >= 0.0 && slippage >= 0.0
    requires near != entry
    ensures var given, second := GradeOf(a, entry, near, tp1, tp2, fee, slippage),
                                 GradeOf(a, entry, far, tp1, tp2, fee, slippage);
            var pays := NetReward(entry, tp1, fee, slippage) > 0.0 && NetReward(entry, tp2, fee, slippage) > 0.0;
            var x1, x2 := NetRr(entry, near, tp1, fee, slippage), NetRr(entry, near, tp2, fee, slippage);
            var y1, y2 := NetRr(entry, far, tp1, fee, slippage), NetRr(entry, far, tp2, fee, slippage);
            && (far != entry && Abs(entry - far) <= Abs(entry - near) ==> Rank(given) <= Rank(second))
            && (far == entry ==> second == None)
            && (far != entry ==> (pays <==> x1.Some? && x2.Some?) && (pays <==> y1.Some? && y2.Some?))
            && (far != entry ==>
                  (given != second <==> pays && GradesPart(a, x1.value, x2.value, y1.value, y2.value)))
  {
    if far != entry {
      FartherStopLowerRr(entry, near, far, tp1, fee, slippage);
      FartherStopLowerRr(entry, near, far, tp2, fee, slippage);
      FartherStopLowerRr(entry, far, near, tp1, fee, slippage);
      FartherStopLowerRr(entry, far, near, tp2, fee, slippage);
      var x1, x2 := NetRr(entry, near, tp1, fee, slippage), NetRr(entry, near, tp2, fee, slippage);
      var y1, y2 := NetRr(entry, far, tp1, fee, slippage), NetRr(entry, far, tp2, fee, slippage);
      OrderedGrades(a, x1, x2, y1, y2, Abs(entry - near) <= Abs(entry - far));
    }
  }

  /** Ratios that stand in the same order for both targets. */
  lemma OrderedGrades(a: GradeArgs, x1: Option<real>, x2: Option<real>, y1: Option<real>, y2: Option<real>, down: bool)
    requires (x1.Some? <==> y1.Some?) && (x2.Some? <==> y2.Some?)
    requires down ==> RrAtMost(y1, x1) && RrAtMost(y2, x2)
    requires !down ==> RrAtMost(x1, y1) && RrAtMost(x2, y2)
    ensures RrAtMost(x1, y1) && RrAtMost(x2, y2) ==> Rank(Grade(a, x1, x2)) <= Rank(Grade(a, y1, y2))
    ensures Grade(a, x1, x2) != Grade(a, y1, y2)
       <==> x1.Some? && x2.Some? && GradesPart(a, x1.value, x2.value, y1.value, y2.value)
  {
    if x1.Some? && x2.Some? {
      if down {
        GradesDifferExactly(a, y1.value, y2.value, x1.value, x2.value);
        HigherGradeOneWay(a, x1.value, x2.value, y1.value, y2.value);
      } else {
        GradesDifferExactly(a, x1.value, x2.value, y1.value, y2.value);
        HigherGradeOneWay(a, y1.value, y2.value, x1.value, x2.value);
      }
    }
  }

  lemma HigherGradeOneWay(a: GradeArgs, high1: real, high2: real, low1: real, low2: real)
    requires low1 <= high1 && low2 <= high2
    ensures !HigherGradeFor(a, high1, high2, low1, low2)
  {}

  // Two signals: the grade given, and what the reported stop would deserve.

  const STOCK: Tuning :=
    Tuning(1.0, 0.3, 0.25, 0.382, 0.618, 1.272,
           {"butterfly", "deep butterfly", "crab", "deep crab", "shark", "deep shark"}, 3.0, 20, 1.0)

  const FIRST: StopArgs := StopArgs("standard", None, Some(105.0), 1.0, "normal", None, None)

  const STRONG: GradeArgs := GradeArgs(90, true, false, 85, None)

  /** The second calls: a high-quant regime, and an override of 0.1 ATR. */
  const HIGH_QUANT: StopArgs := FIRST.(regime := "high_quant", grade := Some("A"))

  const OVERRIDDEN: StopArgs := FIRST.(grade := Some("B"), bufferAtr := Some(0.1))

  lemma GartleyStops(a: real)
    requires a > 0.0
    ensures TwoPasses(FIRST, HIGH_QUANT, 105.0) && TwoPasses(FIRST, OVERRIDDEN, 105.0)
    ensures ComputeStop(Gartley(a), 2.0, FIRST, STOCK) == Success(Stop(99.4, 100.0))
    ensures ComputeStop(Gartley(a), 2.0, HIGH_QUANT, STOCK) == Success(Stop(99.1, 100.0))
    ensures ComputeStop(Gartley(a), 2.0, OVERRIDDEN, STOCK) == Success(Stop(99.8, 100.0))
  {
    GartleyIsRetracement();
    assert StructuralAnchor(Gartley(a), "standard", STOCK) == 100.0;
  }

  /** The grade with the stop of an override or a regime, for the two targets of a Gartley with point A at `a`. */
  function GartleyGrade(a: real, stop: real): Option<string>
    requires a > 105.0 && stop > 0.0
  {
    GradeOf(STRONG, 105.0, stop, 105.0 + 0.382 * (a - 105.0), 105.0 + 0.618 * (a - 105.0), 0.0, 0.0)
  }

  lemma GartleyTargets(a: real)
    requires a > 105.0
    ensures ComputeTargets(Gartley(a), 105.0, STOCK)[..2]
         == [105.0 + 0.382 * (a - 105.0), 105.0 + 0.618 * (a - 105.0)]
  {}

  /** A high-quant signal graded A whose reported second ratio is below the A gate: its stop deserves a B. */
  lemma ReportedBelowGate()
    ensures ComputeStop(Gartley(123.5), 2.0, FIRST, STOCK) == Success(Stop(99.4, 100.0))
    ensures ComputeStop(Gartley(123.5), 2.0, HIGH_QUANT, STOCK) == Success(Stop(99.1, 100.0))
    ensures ComputeTargets(Gartley(123.5), 105.0, STOCK)[..2] == [112.067, 116.433]
    ensures GartleyGrade(123.5, 99.4) == Some("A") && GartleyGrade(123.5, 99.1) == Some("B")
    ensures NetRr(105.0, 99.1, 116.433, 0.0, 0.0).Some? && NetRr(105.0, 99.1, 116.433, 0.0, 0.0).value < 2.0
  {
    GartleyStops(123.5);
    GartleyTargets(123.5);
  }

  /** With an override of 0.1 ATR the reported stop deserves a better grade than the one given. */
  lemma OverrideDeservesBetter()
    ensures ComputeStop(Gartley(122.5), 2.0, FIRST, STOCK) == Success(Stop(99.4, 100.0))
    ensures ComputeStop(Gartley(122.5), 2.0, OVERRIDDEN, STOCK) == Success(Stop(99.8, 100.0))
    ensures ComputeTargets(Gartley(122.5), 105.0, STOCK)[..2] == [111.685, 115.815]
    ensures GartleyGrade(122.5, 99.4) == Some("B") && GartleyGrade(122.5, 99.8) == Some("A")
  {
    GartleyStops(122.5);
    GartleyTargets(122.5);
  }

  lemma GartleyIsRetracement()
    ensures Lower("gartley") !in STOCK.extended
  {
    assert |Lower("gartley")| == 7 && Lower("gartley")[0] == 'g';
  }

  // ------------------------------------------------------------------------
  // The candidate filter
  // ------------------------------------------------------------------------

  datatype Reason = StaleDistance | StaleAge | DegeneratePrz | Violated | Completed

  type Verdict = Result<Option<Reason>, Violation>

  const PLAIN: StopArgs := StopArgs("standard", None, None, 1.0, "normal", None, None)

  function PrzMid(c: Candidate): real {
    (PrzLow(c) + PrzHigh(c)) / 2.0
  }

  /** The closed bars after time `t`. */
  function Age(closeTimes: seq<int>, t: int): nat {
    if closeTimes == [] then 0
    else
      var n := |closeTimes| - 1;
      if closeTimes[n] > t then Age(closeTimes[..n], t) + 1 else Age(closeTimes[..n], t)
  }

  predicate TooOld(c: Candidate, closeTimes: Option<seq<int>>, t: Tuning) {
    closeTimes.Some? && c.times != [] && Age(closeTimes.value, c.times[|c.times| - 1]) > t.maxAge
  }

  predicate BadWidth(c: Candidate, atr: real, t: Tuning) {
    var width := PrzHigh(c) - PrzLow(c);
    !c.formed && (width <= 0.0 || (atr > 0.0 && width > Times(t.maxWidth, atr)))
  }

  predicate PastTarget(c: Candidate, price: real, t: Tuning)
    requires HasPoints(c)
  {
    var tp2 := Target(c, PrzMid(c), t.fib2);
    if c.bullish then price > tp2 else price < tp2
  }

  /**
   The reason to drop a candidate, if any. `compute_stop` raises when its contract does not hold or X is missing, and
   `compute_targets` when A is; neither is reached for a candidate that is stale or degenerate.
   */
  function RejectionReason(c: Candidate, price: real, atr: real, closeTimes: Option<seq<int>>, t: Tuning): Verdict {
    if atr > 0.0 && Abs(price - PrzMid(c)) > Times(t.maxDistance, atr) then Success(Some(StaleDistance))
    else if TooOld(c, closeTimes, t) then Success(Some(StaleAge))
    else if BadWidth(c, atr, t) then Success(Some(DegeneratePrz))
    else if atr > 0.0 && ComputeStop(c, atr, PLAIN, t).Failure? then Failure(ComputeStop(c, atr, PLAIN, t).error)
    else if atr > 0.0 && Beyond(c, ComputeStop(c, atr, PLAIN, t).value.price, price) < 0.0 then Success(Some(Violated))
    else if !HasPoints(c) then Failure(MissingPoint)
    else if PastTarget(c, price, t) then Success(Some(Completed))
    else Success(None)
  }

  /**
   A price inside the PRZ is never past the stop, however the candidate looks otherwise. At the middle of the PRZ it
   is not past the second target either, unless the target ladder is inverted.
   */
  lemma InZoneNotViolated(c: Candidate, price: real, atr: real, closeTimes: Option<seq<int>>, t: Tuning)
    requires InPrz(c, price) && t.standard > 0.0
    ensures RejectionReason(c, price, atr, closeTimes, t) != Success(Some(Violated))
    ensures price == PrzMid(c) && t.fib2 >= 0.0 ==>
              RejectionReason(c, price, atr, closeTimes, t) != Success(Some(Completed))
  {
    if atr > 0.0 && ComputeStop(c, atr, PLAIN, t).Success? {
      BufferSign(PLAIN, t, atr);
      AnchorBehindEntry(c, PLAIN, t, price);
    }
    if t.fib2 >= 0.0 && HasPoints(c) { TimesOrder(0.0, t.fib2, Abs(APrice(c) - PrzMid(c))); }
  }

  predicate DroppedEarly(c: Candidate, m: Market) {
    || (m.atr > 0.0 && Abs(m.price - PrzMid(c)) > Times(m.tuning.maxDistance, m.atr))
    || TooOld(c, m.closeTimes, m.tuning) || BadWidth(c, m.atr, m.tuning)
  }

  predicate PastStop(c: Candidate, m: Market) {
    var stop := ComputeStop(c, m.atr, PLAIN, m.tuning);
    stop.Success? && Beyond(c, stop.value.price, m.price) < 0.0
  }

  /** Without the points the targets need a candidate is dropped before they are read, or raises. */
  lemma MissingPointsExactly(c: Candidate, m: Market)
    requires !HasPoints(c)
    ensures Judge(c, m).Success? <==> DroppedEarly(c, m) || PastStop(c, m)
    ensures Judge(c, m).Success? ==> Judge(c, m).value.Some?
  {}

  datatype Rejection = Rejection(candidate: Candidate, reason: Reason)

  /** Everything a filter run depends on besides the candidates. */
  datatype Market = Market(price: real, atr: real, closeTimes: Option<seq<int>>, tuning: Tuning)

  function Judge(c: Candidate, m: Market): Verdict {
    RejectionReason(c, m.price, m.atr, m.closeTimes, m.tuning)
  }

  function Dropped(rs: seq<Rejection>): seq<Candidate> {
    if rs == [] then [] else Dropped(rs[..|rs| - 1]) + [rs[|rs| - 1].candidate]
  }

  datatype Sorting = Sorting(valid: seq<Candidate>, rejected: seq<Rejection>)

  function Place(s: Sorting, c: Candidate, reason: Option<Reason>): Sorting {
    if reason.None? then s.(valid := s.valid + [c]) else s.(rejected := s.rejected + [Rejection(c, reason.value)])
  }

  /** Valid and rejected candidates in their order; the exception of one candidate ends the filter. */
  function Split(cs: seq<Candidate>, judge: Candidate -> Verdict): Result<Sorting, Violation> {
    if cs == [] then Success(Sorting([], []))
    else
      var n := |cs| - 1;
      var before := Split(cs[..n], judge);
      if before.Failure? then before
      else if judge(cs[n]).Failure? then Failure(judge(cs[n]).error)
      else Success(Place(before.value, cs[n], judge(cs[n]).value))
  }

  lemma {:induction false} FailureLasts(cs: seq<Candidate>, judge: Candidate -> Verdict, k: nat)
    requires k <= |cs| && Split(cs[..k], judge).Failure?
    ensures Split(cs, judge) == Split(cs[..k], judge)
  {
    if k == |cs| {
      assert cs[..k] == cs;
    } else {
      var n := |cs| - 1;
      assert cs[..n][..k] == cs[..k];
      FailureLasts(cs[..n], judge, k);
    }
  }

  method FilterCandidates(cs: seq<Candidate>, m: Market) returns (r: Result<Sorting, Violation>)
    ensures r == Split(cs, c => Judge(c, m))
  {
    ghost var judge := c => Judge(c, m);
    var valid: seq<Candidate>, rejected: seq<Rejection> := [], [];
    var i := 0;
    while i < |cs|
      invariant 0 <= i <= |cs| && Split(cs[..i], judge) == Success(Sorting(valid, rejected))
    {
      assert cs[..i + 1][..i] == cs[..i];
      var verdict := Judge(cs[i], m);
      if verdict.Failure? {
        FailureLasts(cs, judge, i + 1);
        return Failure(verdict.error);
      }
      if verdict.value.None? {
        valid := valid + [cs[i]];
      } else {
        rejected := rejected + [Rejection(cs[i], verdict.value.value)];
      }
      i := i + 1;
    }
    assert cs[..i] == cs;
    return Success(Sorting(valid, rejected));
  }

  ghost predicate AllJudged(cs: seq<Candidate>, judge: Candidate -> Verdict) {
    forall i :: 0 <= i < |cs| ==> judge(cs[i]).Success?
  }

  ghost predicate AllKept(cs: seq<Candidate>, judge: Candidate -> Verdict) {
    forall i :: 0 <= i < |cs| ==> judge(cs[i]) == Success(None)
  }

  ghost predicate AllDropped(rs: seq<Rejection>, judge: Candidate -> Verdict) {
    forall i :: 0 <= i < |rs| ==> judge(rs[i].candidate) == Success(Some(rs[i].reason))
  }

  /** The filter raises exactly when some candidate does. */
  lemma {:induction false} RaisesExactly(cs: seq<Candidate>, judge: Candidate -> Verdict)
    ensures Split(cs, judge).Success? <==> AllJudged(cs, judge)
  {
    if cs != [] {
      var n := |cs| - 1;
      RaisesExactly(cs[..n], judge);
      assert forall i :: 0 <= i < n ==> cs[..n][i] == cs[i];
    }
  }

  lemma DroppedNext(rs: seq<Rejection>, r: Rejection)
    ensures Dropped(rs + [r]) == Dropped(rs) + [r.candidate]
  {
    assert (rs + [r])[..|rs|] == rs;
  }

  function Members(s: Sorting): multiset<Candidate> {
    multiset(s.valid) + multiset(Dropped(s.rejected))
  }

  lemma PlaceCounts(s: Sorting, c: Candidate, reason: Option<Reason>)
    ensures Members(Place(s, c, reason)) == Members(s) + multiset{c}
  {
    if reason.Some? { DroppedNext(s.rejected, Rejection(c, reason.value)); }
  }

  lemma SplitNext(cs: seq<Candidate>, judge: Candidate -> Verdict)
    requires cs != [] && Split(cs, judge).Success?
    ensures var n := |cs| - 1;
            && Split(cs[..n], judge).Success? && judge(cs[n]).Success?
            && Split(cs, judge).value == Place(Split(cs[..n], judge).value, cs[n], judge(cs[n]).value)
  {}

  lemma LastCounts<T>(s: seq<T>)
    requires s != []
    ensures multiset(s) == multiset(s[..|s| - 1]) + multiset{s[|s| - 1]}
  {
    assert s == s[..|s| - 1] + [s[|s| - 1]];
  }

  /** The filter loses and invents nothing. */
  lemma {:induction false} FilterPartitions(cs: seq<Candidate>, judge: Candidate -> Verdict)
    requires Split(cs, judge).Success?
    ensures Members(Split(cs, judge).value) == multiset(cs)
  {
    if cs != [] {
      var n := |cs| - 1;
      SplitNext(cs, judge);
      FilterPartitions(cs[..n], judge);
      PlaceCounts(Split(cs[..n], judge).value, cs[n], judge(cs[n]).value);
      LastCounts(cs);
    }
  }

  lemma PlaceSides(s: Sorting, c: Candidate, judge: Candidate -> Verdict)
    requires AllKept(s.valid, judge) && AllDropped(s.rejected, judge) && judge(c).Success?
    ensures AllKept(Place(s, c, judge(c).value).valid, judge)
    ensures AllDropped(Place(s, c, judge(c).value).rejected, judge)
  {}

  /** Every candidate is on its own side: the valid ones have no reason against them, the others the reason recorded. */
  lemma {:induction false} FilterJudges(cs: seq<Candidate>, judge: Candidate -> Verdict)
    requires Split(cs, judge).Success?
    ensures AllKept(Split(cs, judge).value.valid, judge) && AllDropped(Split(cs, judge).value.rejected, judge)
  {
    if cs != [] {
      SplitNext(cs, judge);
      FilterJudges(cs[..|cs| - 1], judge);
      PlaceSides(Split(cs[..|cs| - 1], judge).value, cs[|cs| - 1], judge);
    }
  }

  lemma {:induction false} NothingToDrop(cs: seq<Candidate>, judge: Candidate -> Verdict)
    requires AllKept(cs, judge)
    ensures Split(cs, judge) == Success(Sorting(cs, []))
  {
    if cs != [] {
      var n := |cs| - 1;
      NothingToDrop(cs[..n], judge);
      assert judge(cs[n]) == Success(None);
      assert Place(Sorting(cs[..n], []), cs[n], None) == Sorting(cs[..n] + [cs[n]], []);
      assert cs == cs[..n] + [cs[n]];
    }
  }

  /** Filtering what was kept, in the same market, keeps it all. */
  lemma FilterTwice(cs: seq<Candidate>, judge: Candidate -> Verdict)
    requires Split(cs, judge).Success?
    ensures Split(Split(cs, judge).value.valid, judge) == Success(Sorting(Split(cs, judge).value.valid, []))
  {
    FilterJudges(cs, judge);
    NothingToDrop(Split(cs, judge).value.valid, judge);
  }
}
