/**
 What trap risk and volume authenticity mean on the candles: which bars count,
 which shares of them are held against a window, and what each part is worth.
 */
module ScoreTheorems {
  import opened MarketTypes
  import opened SignalGeometry
  import opened MarketScores

  // ------------------------------------------------------------------------
  // Which bars count
  // ------------------------------------------------------------------------

  /** One percent past every high of the five bars before, and closed below one of them; or the same at the lows. */
  ghost predicate BreaksFalsely(d: seq<VolumeCandle>, i: nat)
    requires 5 <= i < |d|
  {
    || ((forall j :: i - 5 <= j < i ==> d[i].high > d[j].high * 1.01)
        && (exists j :: i - 5 <= j < i && d[i].close < d[j].high))
    || ((forall j :: i - 5 <= j < i ==> d[i].low < d[j].low * 0.99)
        && (exists j :: i - 5 <= j < i && d[i].close > d[j].low))
  }

  /** Half a percent below the lows of the three bars before, then a close above this bar's high. */
  ghost predicate Hunts(d: seq<VolumeCandle>, i: nat)
    requires 3 <= i < |d| - 1
  {
    (forall j :: i - 3 <= j < i ==> d[i].low < d[j].low * 0.995) && d[i + 1].close > d[i].high
  }

  /** More than twice the volume before, on a body below a hundredth and a half of a positive price. */
  predicate Climactic(d: seq<VolumeCandle>, i: nat)
    requires 1 <= i < |d|
  {
    var price := if d[i].close > 0.0 then d[i].close else d[i].open;
    && 0.0 < 2.0 * d[i - 1].volume < d[i].volume
    && -0.015 * price < d[i].close - d[i].open < 0.015 * price
  }

  lemma {:induction false} HighestIsAttained(d: seq<VolumeCandle>, lo: nat, hi: nat)
    requires lo < hi <= |d|
    ensures exists j :: lo <= j < hi && d[j].high == Highest(d, lo, hi)
    decreases hi
  {
    if hi == lo + 1 {
      assert d[lo].high == Highest(d, lo, hi);
    } else {
      HighestIsAttained(d, lo, hi - 1);
      assert d[hi - 1].high == Highest(d, lo, hi) || Highest(d, lo, hi) == Highest(d, lo, hi - 1);
    }
  }

  lemma {:induction false} LowestIsAttained(d: seq<VolumeCandle>, lo: nat, hi: nat)
    requires lo < hi <= |d|
    ensures exists j :: lo <= j < hi && d[j].low == Lowest(d, lo, hi)
    decreases hi
  {
    if hi == lo + 1 {
      assert d[lo].low == Lowest(d, lo, hi);
    } else {
      LowestIsAttained(d, lo, hi - 1);
      assert d[hi - 1].low == Lowest(d, lo, hi) || Lowest(d, lo, hi) == Lowest(d, lo, hi - 1);
    }
  }

  lemma FalseBreakMeans(d: seq<VolumeCandle>, i: nat)
    requires 5 <= i < |d|
    ensures FalseBreakAt(d, i) <==> BreaksFalsely(d, i)
  {
    HighestIsAttained(d, i - 5, i);
    LowestIsAttained(d, i - 5, i);
  }

  lemma StopHuntMeans(d: seq<VolumeCandle>, i: nat)
    requires 3 <= i < |d| - 1
    ensures StopHuntAt(d, i) <==> Hunts(d, i)
  {
    LowestIsAttained(d, i - 3, i);
  }

  lemma ClimaxMeans(d: seq<VolumeCandle>, i: nat)
    requires 1 <= i < |d|
    ensures ClimaxAt(d, i) <==> Climactic(d, i)
  {
    var price := if d[i].close > 0.0 then d[i].close else d[i].open;
    if price > 0.0 {
      var body := Abs(d[i].close - d[i].open);
      var q := body / price;
      assert Times(q, price) == body;
      if q < 0.015 { TimesOrder(q, 0.015, price); } else { TimesOrder(0.015, q, price); }
    }
  }

  ghost function BreakBars(d: seq<VolumeCandle>, k: nat): set<int>
    requires 5 <= k <= |d|
  {
    set i | 5 <= i < k && BreaksFalsely(d, i)
  }

  ghost function HuntBars(d: seq<VolumeCandle>, k: nat): set<int>
    requires 3 <= k < |d|
  {
    set i | 3 <= i < k && Hunts(d, i)
  }

  ghost function ClimaxBars(d: seq<VolumeCandle>, k: nat): set<int>
    requires 1 <= k <= |d|
  {
    set i | 1 <= i < k && Climactic(d, i)
  }

  lemma AddOne(s: set<int>, x: int, given: bool)
    requires x !in s
    ensures |s + (if given then {x} else {})| == |s| + (if given then 1 else 0)
  {}

  lemma BreakBarsNext(d: seq<VolumeCandle>, k: nat)
    requires 5 < k <= |d|
    ensures BreakBars(d, k) == BreakBars(d, k - 1) + (if BreaksFalsely(d, k - 1) then {k - 1} else {})
  {}

  lemma {:induction false} BreaksCounted(d: seq<VolumeCandle>, k: nat)
    requires 5 <= k <= |d|
    ensures FalseBreaks(d, k) == |BreakBars(d, k)|
  {
    if k > 5 {
      BreaksCounted(d, k - 1);
      FalseBreakMeans(d, k - 1);
      BreakBarsNext(d, k);
      AddOne(BreakBars(d, k - 1), k - 1, BreaksFalsely(d, k - 1));
    } else {
      assert BreakBars(d, k) == {};
    }
  }

  lemma HuntBarsNext(d: seq<VolumeCandle>, k: nat)
    requires 3 < k < |d|
    ensures HuntBars(d, k) == HuntBars(d, k - 1) + (if Hunts(d, k - 1) then {k - 1} else {})
  {}

  lemma {:induction false} HuntsCounted(d: seq<VolumeCandle>, k: nat)
    requires 3 <= k < |d|
    ensures StopHunts(d, k) == |HuntBars(d, k)|
  {
    if k > 3 {
      HuntsCounted(d, k - 1);
      StopHuntMeans(d, k - 1);
      HuntBarsNext(d, k);
      AddOne(HuntBars(d, k - 1), k - 1, Hunts(d, k - 1));
    } else {
      assert HuntBars(d, k) == {};
    }
  }

  lemma ClimaxBarsNext(d: seq<VolumeCandle>, k: nat)
    requires 1 < k <= |d|
    ensures ClimaxBars(d, k) == ClimaxBars(d, k - 1) + (if Climactic(d, k - 1) then {k - 1} else {})
  {}

  lemma {:induction false} ClimaxesCounted(d: seq<VolumeCandle>, k: nat)
    requires 1 <= k <= |d|
    ensures Climaxes(d, k) == |ClimaxBars(d, k)|
  {
    if k > 1 {
      ClimaxesCounted(d, k - 1);
      ClimaxMeans(d, k - 1);
      ClimaxBarsNext(d, k);
      AddOne(ClimaxBars(d, k - 1), k - 1, Climactic(d, k - 1));
    } else {
      assert ClimaxBars(d, k) == {};
    }
  }

  // ------------------------------------------------------------------------
  // What is held against a window
  // ------------------------------------------------------------------------

  lemma RateAbove(count: nat, outOf: nat, share: real)
    requires outOf > 0
    ensures Rate(count, outOf) > share <==> count as real > share * outOf as real
  {
    var q, n := Rate(count, outOf), outOf as real;
    assert Times(q, n) == count as real;
    if q > share { TimesOrder(share, q, n); } else { TimesOrder(q, share, n); }
  }

  /** A wick into the zone that closes through it. */
  ghost predicate ZoneFails(d: seq<VolumeCandle>, low: real, high: real, bullish: bool) {
    exists i :: 0 <= i < |d| && if bullish then low <= d[i].low <= high && d[i].close < low
                                else low <= d[i].high <= high && d[i].close > high
  }

  lemma ZoneFailsMeans(d: seq<VolumeCandle>, low: real, high: real, bullish: bool)
    ensures FailsPrz(d, low, high, bullish) <==> ZoneFails(d, low, high, bullish)
  {
    if ZoneFails(d, low, high, bullish) {
      var i :| 0 <= i < |d| && if bullish then low <= d[i].low <= high && d[i].close < low
                               else low <= d[i].high <= high && d[i].close > high;
      assert FailsPrzAt(d, low, high, bullish, i);
    }
  }

  /** False breaks in more than a quarter of the bars veto; above 15 or 8 in a hundred they are held against it. */
  lemma BreakReasonsExactly(count: nat, outOf: nat)
    requires outOf > 0
    ensures var rs := BreakReasons(Rate(count, outOf));
            && |rs| <= 1
            && (FalseBreaksVeto in rs <==> 4 * count > outOf)
            && (FalseBreaksOften in rs <==> 4 * count <= outOf && 20 * count > 3 * outOf)
            && (FalseBreaksSome in rs <==> 20 * count <= 3 * outOf && 25 * count > 2 * outOf)
            && StopHunted !in rs && VolumeClimax !in rs && PrzFailed !in rs
  {
    RateAbove(count, outOf, 0.25);
    RateAbove(count, outOf, 0.15);
    RateAbove(count, outOf, 0.08);
  }

  function Noted(breaks: seq<TrapReason>, hunted: bool, climax: bool, failed: bool): seq<TrapReason> {
    breaks + Note(hunted, StopHunted) + Note(climax, VolumeClimax) + Note(failed, PrzFailed)
  }

  predicate OnlyBreaks(breaks: seq<TrapReason>) {
    |breaks| <= 1 && StopHunted !in breaks && VolumeClimax !in breaks && PrzFailed !in breaks
  }

  lemma NotedExactly(breaks: seq<TrapReason>, hunted: bool, climax: bool, failed: bool)
    requires OnlyBreaks(breaks)
    ensures var rs := Noted(breaks, hunted, climax, failed);
            && (FalseBreaksVeto in rs <==> FalseBreaksVeto in breaks)
            && (FalseBreaksOften in rs <==> FalseBreaksOften in breaks)
            && (FalseBreaksSome in rs <==> FalseBreaksSome in breaks)
            && (StopHunted in rs <==> hunted) && (VolumeClimax in rs <==> climax) && (PrzFailed in rs <==> failed)
  {}

  lemma ReasonsAreNoted(d: seq<VolumeCandle>, low: real, high: real, bullish: bool)
    requires |d| >= 15
    ensures var n := |d|;
            Reasons(d, low, high, bullish)
            == NotedFor(FalseBreaks(d, n), StopHunts(d, n - 1), Climaxes(d, n), FailsPrz(d, low, high, bullish), n)
  {}

  /** What is noted for these counts among `n` bars. */
  function NotedFor(breaks: nat, hunts: nat, climaxes: nat, failed: bool, n: nat): seq<TrapReason>
    requires n >= 15
  {
    Noted(BreakReasons(Rate(breaks, n - 5)), Rate(hunts, n - 4) > 0.10, Rate(climaxes, n - 1) > 0.12, failed)
  }

  ghost predicate HeldExactly(rs: seq<TrapReason>, breaks: nat, hunts: nat, climaxes: nat, failed: bool, n: nat) {
    && (FalseBreaksVeto in rs <==> 4 * breaks > n - 5)
    && (FalseBreaksOften in rs <==> 4 * breaks <= n - 5 && 20 * breaks > 3 * (n - 5))
    && (FalseBreaksSome in rs <==> 20 * breaks <= 3 * (n - 5) && 25 * breaks > 2 * (n - 5))
    && (StopHunted in rs <==> 10 * hunts > n - 4)
    && (VolumeClimax in rs <==> 25 * climaxes > 3 * (n - 1))
    && (PrzFailed in rs <==> failed)
  }

  lemma NotedForCounts(breaks: nat, hunts: nat, climaxes: nat, failed: bool, n: nat)
    requires n >= 15
    ensures HeldExactly(NotedFor(breaks, hunts, climaxes, failed, n), breaks, hunts, climaxes, failed, n)
  {
    BreakReasonsExactly(breaks, n - 5);
    RateAbove(hunts, n - 4, 0.10);
    RateAbove(climaxes, n - 1, 0.12);
    NotedExactly(BreakReasons(Rate(breaks, n - 5)), Rate(hunts, n - 4) > 0.10, Rate(climaxes, n - 1) > 0.12, failed);
  }

  /** Exactly what is held against a window of at least fifteen bars. */
  lemma ReasonsExactly(d: seq<VolumeCandle>, low: real, high: real, bullish: bool)
    requires |d| >= 15
    ensures var n := |d|;
            HeldExactly(Reasons(d, low, high, bullish), |BreakBars(d, n)|, |HuntBars(d, n - 1)|, |ClimaxBars(d, n)|,
                        ZoneFails(d, low, high, bullish), n)
  {
    var n := |d|;
    ReasonsAreNoted(d, low, high, bullish);
    BreaksCounted(d, n);
    HuntsCounted(d, n - 1);
    ClimaxesCounted(d, n);
    ZoneFailsMeans(d, low, high, bullish);
    NotedForCounts(FalseBreaks(d, n), StopHunts(d, n - 1), Climaxes(d, n), FailsPrz(d, low, high, bullish), n);
  }

  function Cost(rs: seq<TrapReason>, r: TrapReason, points: nat): nat {
    if r in rs then points else 0
  }

  lemma OneReason(r: TrapReason)
    ensures Penalties([r]) == Penalty(r) && (Vetoes([r]) <==> IsVeto(r))
  {
    assert [r][..0] == [];
  }

  lemma CostOfOne(r: TrapReason, other: TrapReason, points: nat)
    ensures Cost([r], other, points) == if r == other then points else 0
  {}

  lemma BreakCosts(breaks: seq<TrapReason>)
    requires OnlyBreaks(breaks)
    ensures Penalties(breaks) == Cost(breaks, FalseBreaksOften, 20) + Cost(breaks, FalseBreaksSome, 8)
    ensures Vetoes(breaks) <==> FalseBreaksVeto in breaks
  {
    if breaks != [] {
      var r := breaks[0];
      assert breaks == [r] && r in breaks;
      OneReason(r);
      CostOfOne(r, FalseBreaksOften, 20);
      CostOfOne(r, FalseBreaksSome, 8);
    }
  }

  lemma NotesAddUp(breaks: seq<TrapReason>, hunted: bool, climax: bool, failed: bool)
    ensures var rs := Noted(breaks, hunted, climax, failed);
            && Penalties(rs) == Penalties(breaks) + (if hunted then 15 else 0) + (if climax then 15 else 0)
            && (Vetoes(rs) <==> Vetoes(breaks) || failed)
  {
    var r1 := breaks + Note(hunted, StopHunted);
    var r2 := r1 + Note(climax, VolumeClimax);
    NotesAdd(breaks, Note(hunted, StopHunted));
    NotesAdd(r1, Note(climax, VolumeClimax));
    NotesAdd(r2, Note(failed, PrzFailed));
  }

  lemma NotedCosts(breaks: seq<TrapReason>, hunted: bool, climax: bool, failed: bool)
    requires OnlyBreaks(breaks)
    ensures var rs := Noted(breaks, hunted, climax, failed);
            && Penalties(rs) == Cost(rs, FalseBreaksOften, 20) + Cost(rs, FalseBreaksSome, 8)
                                + Cost(rs, StopHunted, 15) + Cost(rs, VolumeClimax, 15)
            && (Vetoes(rs) <==> FalseBreaksVeto in rs || PrzFailed in rs)
  {
    NotedExactly(breaks, hunted, climax, failed);
    BreakCosts(breaks);
    NotesAddUp(breaks, hunted, climax, failed);
  }

  /** Each reason is named once, so the score is fifty less what each costs, but at least ten; two of them veto. */
  lemma RiskExactly(d: seq<VolumeCandle>, low: real, high: real, bullish: bool)
    requires |d| >= 15
    ensures var rs := Reasons(d, low, high, bullish);
            var cost := Cost(rs, FalseBreaksOften, 20) + Cost(rs, FalseBreaksSome, 8)
                        + Cost(rs, StopHunted, 15) + Cost(rs, VolumeClimax, 15);
            && ScoreOf(rs) == (if cost > 40 then 10 else 50 - cost)
            && (Vetoes(rs) <==> FalseBreaksVeto in rs || PrzFailed in rs)
  {
    var n := |d|;
    ReasonsAreNoted(d, low, high, bullish);
    BreakReasonsExactly(FalseBreaks(d, n), n - 5);
    NotedCosts(BreakReasons(Rate(FalseBreaks(d, n), n - 5)), Rate(StopHunts(d, n - 1), n - 4) > 0.10,
               Rate(Climaxes(d, n), n - 1) > 0.12, FailsPrz(d, low, high, bullish));
  }

  lemma NotesAdd(rs: seq<TrapReason>, note: seq<TrapReason>)
    requires |note| <= 1
    ensures Penalties(rs + note) == Penalties(rs) + (if note == [] then 0 else Penalty(note[0]))
    ensures Vetoes(rs + note) <==> Vetoes(rs) || (note != [] && IsVeto(note[0]))
  {
    if note == [] {
      assert rs + note == rs;
    } else {
      assert note == [note[0]];
      PenaltiesNext(rs, note[0]);
    }
  }

  // ------------------------------------------------------------------------
  // Volume authenticity
  // ------------------------------------------------------------------------

  predicate Agree(d: seq<VolumeCandle>, i: nat)
    requires 1 <= i < |d|
  {
    d[i].close > d[i - 1].close <==> d[i].volume > d[i - 1].volume
  }

  /** Bars on which price and volume rose together, or neither did. */
  ghost function Together(d: seq<VolumeCandle>, k: nat): set<int>
    requires 1 <= k <= |d|
  {
    set i | 1 <= i < k && Agree(d, i)
  }

  lemma {:induction false} AlignedCounted(d: seq<VolumeCandle>, k: nat)
    requires 1 <= k <= |d|
    ensures Aligned(d, k) == |Together(d, k)|
  {
    if k > 1 {
      AlignedCounted(d, k - 1);
      assert Together(d, k) == Together(d, k - 1) + if AlignedAt(d, k - 1) then {k - 1} else {};
    } else {
      assert Together(d, k) == {};
    }
  }

  ghost function Spikes(v: seq<real>, x: real): set<int> {
    set i | 0 <= i < |v| && v[i] > x
  }

  lemma {:induction false} SpikesCounted(v: seq<real>, x: real)
    ensures Above(v, x) == |Spikes(v, x)|
  {
    if v != [] {
      var n := |v| - 1;
      SpikesCounted(v[..n], x);
      assert forall i :: 0 <= i < n ==> v[..n][i] == v[i];
      assert Spikes(v, x) == Spikes(v[..n], x) + if v[n] > x then {n} else {};
    } else {
      assert Spikes(v, x) == {};
    }
  }

  /**
   The parts of the score: forty points for the share of bars on which price and volume agree; forty less four for
   each percent of volumes above two and a half times the mean, down to none; ten, and ten times the autocorrelation.
   */
  lemma ScoreParts(d: seq<VolumeCandle>)
    requires |d| >= 10
    ensures var v := Volumes(d);
            var spikes := if Mean(v) > 0.0 then |Spikes(v, 2.5 * Mean(v))| else 0;
            Unclamped(d) == 40.0 * Rate(|Together(d, |d|)|, |d| - 1)
                            + Max(0.0, 40.0 - 160.0 * Rate(spikes, |d|))
                            + 10.0 + 10.0 * Autocorrelation(Centred(v, Mean(v)))
  {
    var v := Volumes(d);
    AlignedCounted(d, |d|);
    SpikesCounted(v, Mean(v) * 2.5);
    assert Mean(v) * 2.5 == 2.5 * Mean(v);
    assert Mean(v) <= 0.0 ==> Rate(0, |d|) == 0.0;
  }

  lemma FullRate(n: nat)
    requires n > 0
    ensures Rate(n, n) == 1.0 && Rate(0, n) == 0.0
  {}

  /** At perfect agreement, no spikes and no autocorrelation the score is 90; agreement that never holds costs 40. */
  lemma ScoreAnchors(d: seq<VolumeCandle>)
    requires |d| >= 10 && Autocorrelation(Centred(Volumes(d), Mean(Volumes(d)))) == 0.0
    requires Spikes(Volumes(d), 2.5 * Mean(Volumes(d))) == {}
    ensures |Together(d, |d|)| == |d| - 1 ==> Unclamped(d) == 90.0
    ensures Together(d, |d|) == {} ==> Unclamped(d) == 50.0
  {
    ScoreParts(d);
    FullRate(|d| - 1);
    FullRate(|d|);
  }
}
