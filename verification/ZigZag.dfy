/**
 The ZigZag pivot machine of docs/harmonic_detector.py: a three-state scanner
 that turns candles into alternating swing highs and lows.
 */
module ZigZag {
  import opened MarketTypes

  datatype Kind = High | Low

  datatype Pivot = Pivot(idx: nat, price: real, kind: Kind)

  datatype Trend = Undecided | Rising | Falling

  /** The local variables of the scan; `pivots` are the confirmed ones. */
  datatype Scan = Scan(pivots: seq<Pivot>, trend: Trend, extIdx: nat, extPrice: real)

  function UpThreshold(price: real, pct: real): real {
    price * (1.0 + pct)
  }

  function DownThreshold(price: real, pct: real): real {
    price * (1.0 - pct)
  }

  function ScanStep(c: Candle, i: nat, pct: real, s: Scan): Scan {
    match s.trend
    case Undecided =>
      if c.high >= UpThreshold(s.extPrice, pct) then
        Scan(s.pivots + [Pivot(s.extIdx, s.extPrice, Low)], Rising, i, c.high)
      else if c.low <= DownThreshold(s.extPrice, pct) then
        Scan(s.pivots + [Pivot(s.extIdx, s.extPrice, High)], Falling, i, c.low)
      else if c.low < s.extPrice then
        s.(extIdx := i, extPrice := c.low)
      else s
    case Rising =>
      if c.high >= s.extPrice then
        s.(extIdx := i, extPrice := c.high)
      else if c.low <= DownThreshold(s.extPrice, pct) then
        Scan(s.pivots + [Pivot(s.extIdx, s.extPrice, High)], Falling, i, c.low)
      else s
    case Falling =>
      if c.low <= s.extPrice then
        s.(extIdx := i, extPrice := c.low)
      else if c.high >= UpThreshold(s.extPrice, pct) then
        Scan(s.pivots + [Pivot(s.extIdx, s.extPrice, Low)], Rising, i, c.high)
      else s
  }

  /** The scan after the first `n` candles. */
  function ScanTo(cs: seq<Candle>, pct: real, n: nat): Scan
    requires 1 <= n <= |cs|
  {
    if n == 1 then Scan([], Undecided, 0, cs[0].close)
    else ScanStep(cs[n - 1], n - 1, pct, ScanTo(cs, pct, n - 1))
  }

  /** The confirmed pivots, and the extreme still forming. */
  function WithTail(s: Scan): seq<Pivot> {
    match s.trend
    case Undecided => s.pivots
    case Rising => s.pivots + [Pivot(s.extIdx, s.extPrice, High)]
    case Falling => s.pivots + [Pivot(s.extIdx, s.extPrice, Low)]
  }

  /** Keeps each pivot whose kind differs from that of the row before it. */
  function Deduplicate(ps: seq<Pivot>): seq<Pivot> {
    if ps == [] then []
    else
      var n := |ps| - 1;
      Deduplicate(ps[..n]) + (if n > 0 && ps[n].kind == ps[n - 1].kind then [] else [ps[n]])
  }

  function ZigZagOf(cs: seq<Candle>, pct: real): seq<Pivot> {
    if |cs| < 6 then [] else Deduplicate(WithTail(ScanTo(cs, pct, |cs|)))
  }

  /** The loop of `zigzag`. */
  method ComputeZigZag(cs: seq<Candle>, pct: real) returns (zz: seq<Pivot>)
    ensures zz == ZigZagOf(cs, pct)
  {
    if |cs| < 6 {
      return [];
    }
    var pivots: seq<Pivot> := [];
    var trend := Undecided;
    var extIdx: nat, extPrice := 0, cs[0].close;
    for i := 1 to |cs|
      invariant Scan(pivots, trend, extIdx, extPrice) == ScanTo(cs, pct, i)
    {
      var h, l := cs[i].high, cs[i].low;
      if trend == Undecided {
        if h >= UpThreshold(extPrice, pct) {
          pivots := pivots + [Pivot(extIdx, extPrice, Low)];
          trend, extIdx, extPrice := Rising, i, h;
        } else if l <= DownThreshold(extPrice, pct) {
          pivots := pivots + [Pivot(extIdx, extPrice, High)];
          trend, extIdx, extPrice := Falling, i, l;
        } else if l < extPrice {
          extIdx, extPrice := i, l;
        }
      } else if trend == Rising {
        if h >= extPrice {
          extIdx, extPrice := i, h;
        } else if l <= DownThreshold(extPrice, pct) {
          pivots := pivots + [Pivot(extIdx, extPrice, High)];
          trend, extIdx, extPrice := Falling, i, l;
        }
      } else {
        if l <= extPrice {
          extIdx, extPrice := i, l;
        } else if h >= UpThreshold(extPrice, pct) {
          pivots := pivots + [Pivot(extIdx, extPrice, Low)];
          trend, extIdx, extPrice := Rising, i, h;
        }
      }
    }
    // The extreme still forming is kept as the last pivot.
    if trend == Rising {
      pivots := pivots + [Pivot(extIdx, extPrice, High)];
    } else if trend == Falling {
      pivots := pivots + [Pivot(extIdx, extPrice, Low)];
    }
    zz := Deduplicate(pivots);
  }

  // ------------------------------------------------------------------------
  // What a pivot list satisfies
  // ------------------------------------------------------------------------

  ghost predicate PositivePrices(cs: seq<Candle>) {
    (cs != [] ==> cs[0].close > 0.0) && forall k :: 0 <= k < |cs| ==> cs[k].low > 0.0 && cs[k].high > 0.0
  }

  /** From pivot `p` to pivot `q`: the other kind, a later bar, at least `pct` away. */
  ghost predicate Swing(pct: real, p: Pivot, q: Pivot) {
    && p.kind != q.kind && p.idx < q.idx && p.price > 0.0 && q.price > 0.0
    && (if q.kind == High then q.price >= UpThreshold(p.price, pct) else q.price <= DownThreshold(p.price, pct))
  }

  /** `q` is the extreme of its kind over the bars after `from` up to and including `to`, and sits on one of them. */
  ghost predicate ExtremeOver(cs: seq<Candle>, q: Pivot, from: int, to: int) {
    && from < q.idx <= to < |cs|
    && (if q.kind == High
        then cs[q.idx].high == q.price && forall j :: 0 <= j && from < j <= to ==> cs[j].high <= q.price
        else cs[q.idx].low == q.price && forall j :: 0 <= j && from < j <= to ==> cs[j].low >= q.price)
  }

  /** Bar `c` is the first after the pivot that moved `pct` against it. */
  ghost predicate ConfirmedAt(cs: seq<Candle>, pct: real, q: Pivot, c: nat) {
    && q.idx < c < |cs|
    && (if q.kind == High then cs[c].low <= DownThreshold(q.price, pct) else cs[c].high >= UpThreshold(q.price, pct))
    && (forall j :: q.idx < j < c ==>
          if q.kind == High then cs[j].low > DownThreshold(q.price, pct) else cs[j].high < UpThreshold(q.price, pct))
  }

  /** Bar `c` confirmed pivot `k`, which was still its stretch's extreme then, and pivot `k + 1` is not before it. */
  ghost predicate SettledBy(cs: seq<Candle>, pct: real, ps: seq<Pivot>, k: nat, c: nat)
    requires k < |ps| - 1
  {
    && ConfirmedAt(cs, pct, ps[k], c) && c <= ps[k + 1].idx
    && (k > 0 ==> ExtremeOver(cs, ps[k], ps[k - 1].idx, c))
  }

  ghost predicate Settled(cs: seq<Candle>, pct: real, ps: seq<Pivot>, k: nat)
    requires k < |ps| - 1
  {
    exists c: nat :: SettledBy(cs, pct, ps, k, c)
  }

  ghost predicate Swings(cs: seq<Candle>, pct: real, ps: seq<Pivot>) {
    && (forall k :: 0 < k < |ps| ==> Swing(pct, ps[k - 1], ps[k]))
    && (forall k :: 0 < k < |ps| ==> ExtremeOver(cs, ps[k], ps[k - 1].idx, ps[k].idx))
    && (forall k :: 0 <= k < |ps| - 1 ==> Settled(cs, pct, ps, k))
  }

  /** The machine's invariant after the first `n` candles. */
  ghost predicate ScanInvariant(cs: seq<Candle>, pct: real, n: nat, s: Scan) {
    && s.extIdx < n <= |cs| && s.extPrice > 0.0
    && Swings(cs, pct, WithTail(s))
    && (match s.trend
        case Undecided =>
          && s.pivots == []
          && (forall j :: s.extIdx < j < n ==>
                cs[j].high < UpThreshold(s.extPrice, pct) && cs[j].low > DownThreshold(s.extPrice, pct))
        case Rising =>
          && s.pivots != []
          && ExtremeOver(cs, Pivot(s.extIdx, s.extPrice, High), s.pivots[|s.pivots| - 1].idx, n - 1)
          && (forall j :: s.extIdx < j < n ==> cs[j].low > DownThreshold(s.extPrice, pct))
        case Falling =>
          && s.pivots != []
          && ExtremeOver(cs, Pivot(s.extIdx, s.extPrice, Low), s.pivots[|s.pivots| - 1].idx, n - 1)
          && (forall j :: s.extIdx < j < n ==> cs[j].high < UpThreshold(s.extPrice, pct)))
  }

  lemma Thresholds(price: real, pct: real)
    requires price > 0.0 && 0.0 < pct < 1.0
    ensures 0.0 < DownThreshold(price, pct) < price < UpThreshold(price, pct)
  {
    assert price * pct > 0.0;
    assert price * (1.0 - pct) > 0.0;
    assert price * (1.0 + pct) == price + price * pct;
    assert price * (1.0 - pct) == price - price * pct;
  }

  // ------------------------------------------------------------------------
  // The invariant holds over every run
  // ------------------------------------------------------------------------

  lemma ExtendSwings(cs: seq<Candle>, pct: real, ps: seq<Pivot>, q: Pivot)
    requires Swings(cs, pct, ps) && ps != []
    requires var last := ps[|ps| - 1];
             && Swing(pct, last, q) && ExtremeOver(cs, q, last.idx, q.idx) && ConfirmedAt(cs, pct, last, q.idx)
             && (|ps| > 1 ==> ExtremeOver(cs, last, ps[|ps| - 2].idx, q.idx))
    ensures Swings(cs, pct, ps + [q])
  {
    var qs := ps + [q];
    forall k | 0 <= k < |qs| - 1 ensures Settled(cs, pct, qs, k) {
      if k < |ps| - 1 {
        assert Settled(cs, pct, ps, k);
        var c: nat :| SettledBy(cs, pct, ps, k, c);
        assert SettledBy(cs, pct, qs, k, c);
      } else {
        assert SettledBy(cs, pct, qs, k, q.idx);
      }
    }
  }

  lemma MoveTail(cs: seq<Candle>, pct: real, front: seq<Pivot>, t: Pivot, q: Pivot)
    requires front != [] && Swings(cs, pct, front + [t])
    requires var last := front[|front| - 1];
             t.idx <= q.idx && Swing(pct, last, q) && ExtremeOver(cs, q, last.idx, q.idx)
    ensures Swings(cs, pct, front + [q])
  {
    var ps, qs := front + [t], front + [q];
    forall k | 0 <= k < |qs| - 1 ensures Settled(cs, pct, qs, k) {
      assert Settled(cs, pct, ps, k);
      var c: nat :| SettledBy(cs, pct, ps, k, c);
      assert SettledBy(cs, pct, qs, k, c);
    }
    forall k | 0 < k < |qs| ensures Swing(pct, qs[k - 1], qs[k]) && ExtremeOver(cs, qs[k], qs[k - 1].idx, qs[k].idx) {
      if k < |front| {
        assert Swing(pct, ps[k - 1], ps[k]) && ExtremeOver(cs, ps[k], ps[k - 1].idx, ps[k].idx);
      }
    }
  }

  /** A trend's extreme is a pivot-to-be: its swing from the last confirmed pivot is already there. */
  lemma TailFacts(cs: seq<Candle>, pct: real, n: nat, s: Scan)
    requires ScanInvariant(cs, pct, n, s) && s.trend != Undecided
    ensures var ps := WithTail(s);
            && |ps| == |s.pivots| + 1 && ps[..|s.pivots|] == s.pivots
            && Swing(pct, s.pivots[|s.pivots| - 1], ps[|s.pivots|])
  {
    var ps := WithTail(s);
    assert Swing(pct, ps[|ps| - 2], ps[|ps| - 1]);
  }

  lemma UndecidedStep(cs: seq<Candle>, pct: real, n: nat, s: Scan)
    requires PositivePrices(cs) && 0.0 < pct < 1.0 && n < |cs|
    requires ScanInvariant(cs, pct, n, s) && s.trend == Undecided
    ensures ScanInvariant(cs, pct, n + 1, ScanStep(cs[n], n, pct, s))
  {
    Thresholds(s.extPrice, pct);
    var t := ScanStep(cs[n], n, pct, s);
    if t.trend != Undecided {
      var p := t.pivots[0];
      assert t.pivots == [p] && ConfirmedAt(cs, pct, p, n);
      ExtendSwings(cs, pct, [p], WithTail(t)[1]);
      assert WithTail(t) == [p] + [WithTail(t)[1]];
    }
  }

  lemma RisingStep(cs: seq<Candle>, pct: real, n: nat, s: Scan)
    requires PositivePrices(cs) && 0.0 < pct < 1.0 && n < |cs|
    requires ScanInvariant(cs, pct, n, s) && s.trend == Rising
    ensures ScanInvariant(cs, pct, n + 1, ScanStep(cs[n], n, pct, s))
  {
    Thresholds(s.extPrice, pct);
    TailFacts(cs, pct, n, s);
    var t := ScanStep(cs[n], n, pct, s);
    var tail := Pivot(s.extIdx, s.extPrice, High);
    if t.trend == Falling {
      ExtendSwings(cs, pct, WithTail(s), Pivot(n, cs[n].low, Low));
      assert t.pivots == WithTail(s);
    } else if t != s {
      MoveTail(cs, pct, s.pivots, tail, Pivot(n, cs[n].high, High));
    }
  }

  lemma FallingStep(cs: seq<Candle>, pct: real, n: nat, s: Scan)
    requires PositivePrices(cs) && 0.0 < pct < 1.0 && n < |cs|
    requires ScanInvariant(cs, pct, n, s) && s.trend == Falling
    ensures ScanInvariant(cs, pct, n + 1, ScanStep(cs[n], n, pct, s))
  {
    Thresholds(s.extPrice, pct);
    TailFacts(cs, pct, n, s);
    var t := ScanStep(cs[n], n, pct, s);
    var tail := Pivot(s.extIdx, s.extPrice, Low);
    if t.trend == Rising {
      ExtendSwings(cs, pct, WithTail(s), Pivot(n, cs[n].high, High));
      assert t.pivots == WithTail(s);
    } else if t != s {
      MoveTail(cs, pct, s.pivots, tail, Pivot(n, cs[n].low, Low));
    }
  }

  lemma {:induction false} ScanKeepsInvariant(cs: seq<Candle>, pct: real, n: nat)
    requires PositivePrices(cs) && 0.0 < pct < 1.0 && 1 <= n <= |cs|
    ensures ScanInvariant(cs, pct, n, ScanTo(cs, pct, n))
  {
    if n > 1 {
      ScanKeepsInvariant(cs, pct, n - 1);
      var s := ScanTo(cs, pct, n - 1);
      match s.trend
      case Undecided => UndecidedStep(cs, pct, n - 1, s);
      case Rising => RisingStep(cs, pct, n - 1, s);
      case Falling => FallingStep(cs, pct, n - 1, s);
    }
  }

  lemma {:induction false} AlternatingIsDeduplicated(ps: seq<Pivot>)
    requires forall k :: 0 < k < |ps| ==> ps[k - 1].kind != ps[k].kind
    ensures Deduplicate(ps) == ps
  {
    if ps != [] {
      AlternatingIsDeduplicated(ps[..|ps| - 1]);
    }
  }

  /**
   Structure of the result: pivots alternate with increasing positions, consecutive ones are at least `pct` apart, each
   after the first is the extreme of its stretch, each but the last was confirmed before the next; and the final
   de-duplication changes nothing.
   */
  lemma ZigZagStructure(cs: seq<Candle>, pct: real)
    requires PositivePrices(cs) && 0.0 < pct < 1.0
    ensures Swings(cs, pct, ZigZagOf(cs, pct))
    ensures |cs| >= 6 ==> ZigZagOf(cs, pct) == WithTail(ScanTo(cs, pct, |cs|))
  {
    if |cs| >= 6 {
      ScanKeepsInvariant(cs, pct, |cs|);
      var ps := WithTail(ScanTo(cs, pct, |cs|));
      forall k | 0 < k < |ps| ensures ps[k - 1].kind != ps[k].kind {
        assert Swing(pct, ps[k - 1], ps[k]);
      }
      AlternatingIsDeduplicated(ps);
    }
  }

  // ------------------------------------------------------------------------
  // No repaint
  // ------------------------------------------------------------------------

  lemma {:induction false} ScanIsCausal(cs: seq<Candle>, more: seq<Candle>, pct: real, n: nat)
    requires 1 <= n <= |cs| && cs <= more
    ensures ScanTo(more, pct, n) == ScanTo(cs, pct, n)
  {
    if n > 1 {
      ScanIsCausal(cs, more, pct, n - 1);
    }
  }

  /** `late` continues `early`: confirmed pivots stand, and the forming extreme only moves outwards until confirmed. */
  ghost predicate Continues(early: Scan, late: Scan) {
    var m := |early.pivots|;
    && early.pivots <= late.pivots
    && (early.trend != Undecided ==>
          && |WithTail(late)| > m
          && var forming, settled := WithTail(early)[m], WithTail(late)[m];
             && settled.kind == forming.kind && forming.idx <= settled.idx
             && (if forming.kind == High then forming.price <= settled.price else settled.price <= forming.price))
  }

  lemma StepContinues(c: Candle, i: nat, pct: real, s: Scan)
    requires s.extIdx <= i
    ensures Continues(s, ScanStep(c, i, pct, s))
  {}

  lemma ContinuesTransitive(a: Scan, b: Scan, c: Scan)
    requires Continues(a, b) && Continues(b, c)
    requires a.trend != Undecided ==> b.trend != Undecided
    ensures Continues(a, c)
  {
    var m := |a.pivots|;
    if a.trend != Undecided && |b.pivots| > m {
      assert b.pivots[m] == c.pivots[m];
      assert WithTail(b)[m] == b.pivots[m] && WithTail(c)[m] == c.pivots[m];
    }
  }

  lemma {:induction false} ScanContinues(cs: seq<Candle>, pct: real, n: nat, m: nat)
    requires 1 <= n <= m <= |cs|
    ensures Continues(ScanTo(cs, pct, n), ScanTo(cs, pct, m))
    ensures ScanTo(cs, pct, m).extIdx < m
    ensures ScanTo(cs, pct, n).trend != Undecided ==> ScanTo(cs, pct, m).trend != Undecided
    decreases m
  {
    if m > n {
      ScanContinues(cs, pct, n, m - 1);
      StepContinues(cs[m - 1], m - 1, pct, ScanTo(cs, pct, m - 1));
      ContinuesTransitive(ScanTo(cs, pct, n), ScanTo(cs, pct, m - 1), ScanTo(cs, pct, m));
    } else if m > 1 {
      ScanContinues(cs, pct, m - 1, m - 1);
    }
  }

  /** No repaint: the confirmed pivots of a prefix are a prefix of those of the whole series, whatever comes after. */
  lemma NoRepaint(cs: seq<Candle>, more: seq<Candle>, pct: real)
    requires cs != [] && cs <= more
    ensures Continues(ScanTo(cs, pct, |cs|), ScanTo(more, pct, |more|))
    ensures ScanTo(cs, pct, |cs|).pivots <= ScanTo(more, pct, |more|).pivots
  {
    ScanIsCausal(cs, more, pct, |cs|);
    ScanContinues(more, pct, |cs|, |more|);
  }
}
