/**
 What the ZigZag is, without its machine: the only pivot list whose legs each
 end at the first reversal of their running extreme.
 */
module ZigZagLegs {
  import opened MarketTypes
  import opened ZigZag

  // ------------------------------------------------------------------------
  // One leg
  // ------------------------------------------------------------------------

  /** How far a candle reaches in the direction of a leg that ends in a pivot of this kind. */
  function Reach(c: Candle, kind: Kind): real {
    if kind == High then c.high else -c.low
  }

  /** Bar `i` is the last of the farthest bars from `from` to `to`. */
  ghost predicate Peak(cs: seq<Candle>, kind: Kind, from: nat, i: int, to: int) {
    && from <= i <= to < |cs|
    && (forall k :: from <= k <= i ==> Reach(cs[k], kind) <= Reach(cs[i], kind))
    && (forall k :: i < k <= to ==> Reach(cs[k], kind) < Reach(cs[i], kind))
  }

  function PriceOf(c: Candle, kind: Kind): real {
    if kind == High then c.high else c.low
  }

  predicate Reverses(c: Candle, kind: Kind, price: real, pct: real) {
    if kind == High then c.low <= price * (1.0 - pct) else c.high >= price * (1.0 + pct)
  }

  /** Bar `j` reverses the peak `i` of the leg so far. */
  ghost predicate TurnsAt(cs: seq<Candle>, pct: real, kind: Kind, from: nat, i: int, j: int) {
    Peak(cs, kind, from, i, j) && i < j && Reverses(cs[j], kind, PriceOf(cs[i], kind), pct)
  }

  /** No bar before `to` reversed the peak of the leg so far. */
  ghost predicate NoTurn(cs: seq<Candle>, pct: real, kind: Kind, from: nat, to: int) {
    forall i, j :: from <= i < j < to && j < |cs| ==> !TurnsAt(cs, pct, kind, from, i, j)
  }

  ghost predicate IsPeak(cs: seq<Candle>, q: Pivot, from: nat, to: int) {
    Peak(cs, q.kind, from, q.idx, to) && q.price == PriceOf(cs[q.idx], q.kind)
  }

  /** The leg from bar `from` ends in pivot `q`, which bar `c` is the first to reverse. */
  ghost predicate Leg(cs: seq<Candle>, pct: real, q: Pivot, from: nat, c: nat) {
    && IsPeak(cs, q, from, c) && TurnsAt(cs, pct, q.kind, from, q.idx, c) && NoTurn(cs, pct, q.kind, from, c)
  }

  // ------------------------------------------------------------------------
  // The first leg
  // ------------------------------------------------------------------------

  /** The first close, then the lows. */
  function Floor(cs: seq<Candle>, j: nat): real
    requires j < |cs|
  {
    if j == 0 then cs[0].close else cs[j].low
  }

  /** Bar `i` is the first of the lowest up to `to`. */
  ghost predicate Bottom(cs: seq<Candle>, i: int, to: int) {
    && 0 <= i <= to < |cs|
    && (forall k :: 0 <= k < i ==> Floor(cs, k) > Floor(cs, i))
    && (forall k :: i < k <= to ==> Floor(cs, k) >= Floor(cs, i))
  }

  /** A rise by `pct` makes the start a low; a fall, when there is no such rise, makes it a high. */
  predicate Leaves(c: Candle, price: real, pct: real, kind: Kind) {
    if kind == Low then c.high >= price * (1.0 + pct)
    else c.high < price * (1.0 + pct) && c.low <= price * (1.0 - pct)
  }

  ghost predicate Stays(cs: seq<Candle>, pct: real, i: int, j: int) {
    0 <= i < j < |cs| && Bottom(cs, i, j - 1) ==>
      !Leaves(cs[j], Floor(cs, i), pct, Low) && !Leaves(cs[j], Floor(cs, i), pct, High)
  }

  ghost predicate AllStay(cs: seq<Candle>, pct: real, to: int) {
    forall i, j :: 0 <= i < j < to ==> Stays(cs, pct, i, j)
  }

  /** The start of the first leg: the lowest point before bar `c`, the first bar to leave it by `pct`. */
  ghost predicate FirstLeg(cs: seq<Candle>, pct: real, q: Pivot, c: nat) {
    && c < |cs| && Bottom(cs, q.idx, c - 1) && q.price == Floor(cs, q.idx)
    && Leaves(cs[c], q.price, pct, q.kind) && AllStay(cs, pct, c)
  }

  // ------------------------------------------------------------------------
  // All legs of the first `n` candles
  // ------------------------------------------------------------------------

  function OtherKind(kind: Kind): Kind {
    if kind == High then Low else High
  }

  /** `turns[k]` is the bar that confirmed pivot `k`. */
  ghost predicate Confirmed(cs: seq<Candle>, pct: real, ps: seq<Pivot>, turns: seq<nat>, k: nat)
    requires k < |ps| && k < |turns|
  {
    if k == 0 then FirstLeg(cs, pct, ps[0], turns[0])
    else ps[k].kind == OtherKind(ps[k - 1].kind) && Leg(cs, pct, ps[k], turns[k - 1], turns[k])
  }

  ghost predicate AllConfirmed(cs: seq<Candle>, pct: real, ps: seq<Pivot>, turns: seq<nat>) {
    |turns| <= |ps| && forall k :: 0 <= k < |turns| ==> Confirmed(cs, pct, ps, turns, k)
  }

  /** The last pivot, of the leg that nothing has reversed by bar `n`. */
  ghost predicate Forming(cs: seq<Candle>, pct: real, q: Pivot, from: nat, n: nat) {
    n > 0 && IsPeak(cs, q, from, n - 1) && NoTurn(cs, pct, q.kind, from, n)
  }

  ghost predicate Legs(cs: seq<Candle>, pct: real, ps: seq<Pivot>, turns: seq<nat>, n: nat) {
    && n <= |cs|
    && (if turns == [] then ps == [] && AllStay(cs, pct, n)
        else
          var m := |turns|;
          && |ps| == m + 1 && AllConfirmed(cs, pct, ps, turns) && turns[m - 1] < n
          && ps[m].kind == OtherKind(ps[m - 1].kind) && Forming(cs, pct, ps[m], turns[m - 1], n))
  }

  // ------------------------------------------------------------------------
  // The machine computes the legs
  // ------------------------------------------------------------------------

  /** The bars that confirmed the pivots of a scan. */
  function Turns(cs: seq<Candle>, pct: real, n: nat): (turns: seq<nat>)
    requires 1 <= n <= |cs|
    ensures |turns| == |ScanTo(cs, pct, n).pivots|
  {
    if n == 1 then []
    else if |ScanTo(cs, pct, n).pivots| > |ScanTo(cs, pct, n - 1).pivots| then Turns(cs, pct, n - 1) + [n - 1]
    else Turns(cs, pct, n - 1)
  }

  ghost predicate LegState(cs: seq<Candle>, pct: real, n: nat, s: Scan, turns: seq<nat>) {
    && Legs(cs, pct, WithTail(s), turns, n) && |turns| == |s.pivots| && (s.trend == Undecided <==> turns == [])
    && (s.trend == Undecided ==> Bottom(cs, s.extIdx, n - 1) && s.extPrice == Floor(cs, s.extIdx))
  }

  lemma BottomIsOne(cs: seq<Candle>, i: int, j: int, to: int)
    requires Bottom(cs, i, to) && Bottom(cs, j, to)
    ensures i == j
  {
    var x, y := Floor(cs, i), Floor(cs, j);
  }

  lemma PeakIsOne(cs: seq<Candle>, kind: Kind, from: nat, i: int, j: int, to: int)
    requires Peak(cs, kind, from, i, to) && Peak(cs, kind, from, j, to)
    ensures i == j
  {
    var x, y := Reach(cs[i], kind), Reach(cs[j], kind);
  }

  lemma PeakBefore(cs: seq<Candle>, kind: Kind, from: nat, i: int, to: int)
    requires Peak(cs, kind, from, i, to) && i < to
    ensures Peak(cs, kind, from, i, to - 1)
  {}

  lemma StayOneMore(cs: seq<Candle>, pct: real, n: nat, i: nat)
    requires 1 <= n < |cs| && AllStay(cs, pct, n) && Bottom(cs, i, n - 1)
    requires !Leaves(cs[n], Floor(cs, i), pct, Low) && !Leaves(cs[n], Floor(cs, i), pct, High)
    ensures AllStay(cs, pct, n + 1)
  {
    forall k, j | 0 <= k < j < n + 1 ensures Stays(cs, pct, k, j) {
      if j == n && Bottom(cs, k, n - 1) { BottomIsOne(cs, i, k, n - 1); }
    }
  }

  lemma NoTurnOneMore(cs: seq<Candle>, pct: real, kind: Kind, from: nat, n: nat, i: nat)
    requires from < n < |cs| && NoTurn(cs, pct, kind, from, n) && Peak(cs, kind, from, i, n - 1)
    requires Reach(cs[n], kind) >= Reach(cs[i], kind) || !Reverses(cs[n], kind, PriceOf(cs[i], kind), pct)
    ensures NoTurn(cs, pct, kind, from, n + 1)
  {
    forall k, j | from <= k < j < n + 1 ensures !TurnsAt(cs, pct, kind, from, k, j) {
      if j == n && Peak(cs, kind, from, k, n) {
        PeakBefore(cs, kind, from, k, n);
        PeakIsOne(cs, kind, from, i, k, n - 1);
      }
    }
  }

  lemma UndecidedLegs(cs: seq<Candle>, pct: real, n: nat, s: Scan)
    requires 1 <= n < |cs| && LegState(cs, pct, n, s, []) && s.trend == Undecided
    ensures var t := ScanStep(cs[n], n, pct, s);
            LegState(cs, pct, n + 1, t, if |t.pivots| > |s.pivots| then [n] else [])
  {
    var t := ScanStep(cs[n], n, pct, s);
    if t.trend == Undecided {
      StayOneMore(cs, pct, n, s.extIdx);
    } else {
      var ps := WithTail(t);
      assert t.pivots == [ps[0]] && |ps| == 2 && FirstLeg(cs, pct, ps[0], n);
      assert Confirmed(cs, pct, ps, [n], 0);
      assert Forming(cs, pct, ps[1], n, n + 1);
    }
  }

  /** Confirmation only looks at the pivots and turns up to its own. */
  lemma ConfirmedStays(cs: seq<Candle>, pct: real, ps: seq<Pivot>, qs: seq<Pivot>, turns: seq<nat>, more: seq<nat>)
    requires |turns| <= |ps| && |turns| <= |qs| && ps[..|turns|] == qs[..|turns|] && turns <= more
    requires AllConfirmed(cs, pct, ps, turns)
    ensures forall k :: 0 <= k < |turns| ==> Confirmed(cs, pct, qs, more, k)
  {
    forall k | 0 <= k < |turns| ensures Confirmed(cs, pct, qs, more, k) {
      assert Confirmed(cs, pct, ps, turns, k);
      assert qs[k] == qs[..|turns|][k] && ps[k] == ps[..|turns|][k];
      if k > 0 { assert qs[k - 1] == qs[..|turns|][k - 1] && ps[k - 1] == ps[..|turns|][k - 1]; }
    }
  }

  /** The forming pivot is reversed: it is confirmed, and a leg of the other kind begins. */
  lemma TurnLegs(cs: seq<Candle>, pct: real, ps: seq<Pivot>, turns: seq<nat>, n: nat, q: Pivot)
    requires turns != [] && n < |cs| && Legs(cs, pct, ps, turns, n)
    requires var last := ps[|turns|];
             && Reach(cs[n], last.kind) < Reach(cs[last.idx], last.kind) && Reverses(cs[n], last.kind, last.price, pct)
             && q == Pivot(n, PriceOf(cs[n], OtherKind(last.kind)), OtherKind(last.kind))
    ensures Legs(cs, pct, ps + [q], turns + [n], n + 1)
  {
    var m := |turns|;
    assert Leg(cs, pct, ps[m], turns[m - 1], n);
    ConfirmedStays(cs, pct, ps, ps + [q], turns, turns + [n]);
    assert Confirmed(cs, pct, ps + [q], turns + [n], m);
    assert Forming(cs, pct, q, n, n + 1);
  }

  /** The forming pivot moves on, or stays. */
  lemma FormLegs(cs: seq<Candle>, pct: real, front: seq<Pivot>, last: Pivot, turns: seq<nat>, n: nat, q: Pivot)
    requires turns != [] && n < |cs| && |front| == |turns| && Legs(cs, pct, front + [last], turns, n)
    requires if Reach(cs[n], last.kind) >= Reach(cs[last.idx], last.kind)
             then q == Pivot(n, PriceOf(cs[n], last.kind), last.kind)
             else q == last && !Reverses(cs[n], last.kind, last.price, pct)
    ensures Legs(cs, pct, front + [q], turns, n + 1)
  {
    var m := |turns|;
    assert (front + [last])[m] == last;
    NoTurnOneMore(cs, pct, last.kind, turns[m - 1], n, last.idx);
    assert IsPeak(cs, q, turns[m - 1], n);
    ConfirmedStays(cs, pct, front + [last], front + [q], turns, turns);
    assert (front + [q])[m - 1] == (front + [last])[m - 1];
  }

  lemma TrendLegs(cs: seq<Candle>, pct: real, n: nat, s: Scan, turns: seq<nat>)
    requires 1 <= n < |cs| && LegState(cs, pct, n, s, turns) && s.trend != Undecided
    ensures var t := ScanStep(cs[n], n, pct, s);
            LegState(cs, pct, n + 1, t, if |t.pivots| > |s.pivots| then turns + [n] else turns)
  {
    var t := ScanStep(cs[n], n, pct, s);
    var kind := if s.trend == Rising then High else Low;
    var last := Pivot(s.extIdx, s.extPrice, kind);
    assert WithTail(s) == s.pivots + [last] && WithTail(s)[|turns|] == last;
    if |t.pivots| > |s.pivots| {
      var q := Pivot(n, PriceOf(cs[n], OtherKind(kind)), OtherKind(kind));
      TurnLegs(cs, pct, WithTail(s), turns, n, q);
      assert t.pivots == WithTail(s) && WithTail(t) == WithTail(s) + [q];
    } else {
      var q := Pivot(t.extIdx, t.extPrice, kind);
      FormLegs(cs, pct, s.pivots, last, turns, n, q);
    }
  }

  lemma StepLegs(cs: seq<Candle>, pct: real, n: nat, s: Scan, turns: seq<nat>)
    requires 1 <= n < |cs| && LegState(cs, pct, n, s, turns)
    ensures var t := ScanStep(cs[n], n, pct, s);
            LegState(cs, pct, n + 1, t, if |t.pivots| > |s.pivots| then turns + [n] else turns)
  {
    if s.trend == Undecided {
      UndecidedLegs(cs, pct, n, s);
      assert turns + [n] == [n];
    } else {
      TrendLegs(cs, pct, n, s, turns);
    }
  }

  lemma {:induction false} ScanHasLegs(cs: seq<Candle>, pct: real, n: nat)
    requires 1 <= n <= |cs|
    ensures LegState(cs, pct, n, ScanTo(cs, pct, n), Turns(cs, pct, n))
  {
    if n > 1 {
      ScanHasLegs(cs, pct, n - 1);
      StepLegs(cs, pct, n - 1, ScanTo(cs, pct, n - 1), Turns(cs, pct, n - 1));
    } else {
      assert Bottom(cs, 0, 0) && AllStay(cs, pct, 1);
    }
  }

  // ------------------------------------------------------------------------
  // There is no other list of legs
  // ------------------------------------------------------------------------

  lemma LeavingIsNoStay(cs: seq<Candle>, pct: real, q: Pivot, c: nat, to: int)
    requires FirstLeg(cs, pct, q, c) && c < to
    ensures !AllStay(cs, pct, to)
  {
    assert !Stays(cs, pct, q.idx, c);
  }

  lemma TurnIsNoRest(cs: seq<Candle>, pct: real, kind: Kind, from: nat, i: int, c: int, to: int)
    requires from <= i && TurnsAt(cs, pct, kind, from, i, c) && c < to
    ensures !NoTurn(cs, pct, kind, from, to)
  {}

  lemma FirstLegIsOne(cs: seq<Candle>, pct: real, p: Pivot, c: nat, q: Pivot, d: nat)
    requires FirstLeg(cs, pct, p, c) && FirstLeg(cs, pct, q, d)
    ensures p == q && c == d
  {
    if c < d {
      LeavingIsNoStay(cs, pct, p, c, d);
    } else if d < c {
      LeavingIsNoStay(cs, pct, q, d, c);
    } else {
      BottomIsOne(cs, p.idx, q.idx, c - 1);
    }
  }

  lemma LegIsOne(cs: seq<Candle>, pct: real, p: Pivot, c: nat, q: Pivot, d: nat, from: nat)
    requires Leg(cs, pct, p, from, c) && Leg(cs, pct, q, from, d) && p.kind == q.kind
    ensures p == q && c == d
  {
    if c < d {
      TurnIsNoRest(cs, pct, p.kind, from, p.idx, c, d);
    } else if d < c {
      TurnIsNoRest(cs, pct, p.kind, from, q.idx, d, c);
    } else {
      PeakIsOne(cs, p.kind, from, p.idx, q.idx, c);
    }
  }

  lemma {:induction false} ConfirmedIsOne(cs: seq<Candle>, pct: real, ps: seq<Pivot>, ts: seq<nat>, qs: seq<Pivot>,
                                          us: seq<nat>, k: nat)
    requires AllConfirmed(cs, pct, ps, ts) && AllConfirmed(cs, pct, qs, us) && k < |ts| && k < |us|
    ensures ps[k] == qs[k] && ts[k] == us[k]
  {
    assert Confirmed(cs, pct, ps, ts, k) && Confirmed(cs, pct, qs, us, k);
    if k == 0 {
      FirstLegIsOne(cs, pct, ps[0], ts[0], qs[0], us[0]);
    } else {
      ConfirmedIsOne(cs, pct, ps, ts, qs, us, k - 1);
      LegIsOne(cs, pct, ps[k], ts[k], qs[k], us[k], ts[k - 1]);
    }
  }

  /** A list that has more turns has one where the other's last leg is still forming. */
  lemma NotLonger(cs: seq<Candle>, pct: real, ps: seq<Pivot>, ts: seq<nat>, qs: seq<Pivot>, us: seq<nat>, n: nat)
    requires Legs(cs, pct, ps, ts, n) && Legs(cs, pct, qs, us, n)
    ensures |us| <= |ts|
  {
    var m := |ts|;
    if m < |us| {
      assert Confirmed(cs, pct, qs, us, m) && us[m] < n by { TurnsBefore(cs, pct, qs, us, n, m); }
      if m == 0 {
        LeavingIsNoStay(cs, pct, qs[0], us[0], n);
      } else {
        ConfirmedIsOne(cs, pct, ps, ts, qs, us, m - 1);
        TurnIsNoRest(cs, pct, ps[m].kind, ts[m - 1], qs[m].idx, us[m], n);
      }
    }
  }

  lemma {:induction false} TurnsBefore(cs: seq<Candle>, pct: real, ps: seq<Pivot>, ts: seq<nat>, n: nat, k: nat)
    requires Legs(cs, pct, ps, ts, n) && k < |ts|
    ensures ts[k] < n
    decreases |ts| - k
  {
    if k < |ts| - 1 {
      TurnsBefore(cs, pct, ps, ts, n, k + 1);
      assert Confirmed(cs, pct, ps, ts, k + 1);
    }
  }

  lemma LegsAreOne(cs: seq<Candle>, pct: real, ps: seq<Pivot>, ts: seq<nat>, qs: seq<Pivot>, us: seq<nat>, n: nat)
    requires Legs(cs, pct, ps, ts, n) && Legs(cs, pct, qs, us, n)
    ensures ps == qs
  {
    NotLonger(cs, pct, ps, ts, qs, us, n);
    NotLonger(cs, pct, qs, us, ps, ts, n);
    forall k | 0 <= k < |ts| ensures ps[k] == qs[k] && ts[k] == us[k] {
      ConfirmedIsOne(cs, pct, ps, ts, qs, us, k);
    }
    if ts != [] {
      var m := |ts|;
      PeakIsOne(cs, ps[m].kind, ts[m - 1], ps[m].idx, qs[m].idx, n - 1);
    }
  }

  ghost predicate HasLegs(cs: seq<Candle>, pct: real, ps: seq<Pivot>) {
    exists turns: seq<nat> :: Legs(cs, pct, ps, turns, |cs|)
  }

  lemma {:induction false} LegsAlternate(cs: seq<Candle>, pct: real, ps: seq<Pivot>, turns: seq<nat>, n: nat)
    requires Legs(cs, pct, ps, turns, n)
    ensures Deduplicate(ps) == ps
  {
    forall k | 0 < k < |ps| ensures ps[k - 1].kind != ps[k].kind {
      if k < |turns| { assert Confirmed(cs, pct, ps, turns, k); }
    }
    AlternatingIsDeduplicated(ps);
  }

  /**
   The result is the one list of pivots with these legs, for every threshold and every series: the first pivot is the
   first lowest point before the first bar to leave it by `pct`, every further one the last extreme of its leg before
   the first bar to reverse the leg so far by `pct`, and the last one the extreme of the leg still open.
   */
  lemma ZigZagExact(cs: seq<Candle>, pct: real, ps: seq<Pivot>)
    requires |cs| >= 6
    ensures ps == ZigZagOf(cs, pct) <==> HasLegs(cs, pct, ps)
  {
    var s, turns := ScanTo(cs, pct, |cs|), Turns(cs, pct, |cs|);
    ScanHasLegs(cs, pct, |cs|);
    LegsAlternate(cs, pct, WithTail(s), turns, |cs|);
    if HasLegs(cs, pct, ps) {
      var us: seq<nat> :| Legs(cs, pct, ps, us, |cs|);
      LegsAreOne(cs, pct, ps, us, WithTail(s), turns, |cs|);
    }
  }

  /** In particular the first pivot, of either kind, is the lowest of the first close and the lows until it is left. */
  lemma FirstPivotIsLowest(cs: seq<Candle>, pct: real)
    requires ZigZagOf(cs, pct) != []
    ensures var q := ZigZagOf(cs, pct)[0];
            exists c: nat :: FirstLeg(cs, pct, q, c) && q.idx < c && q.price <= cs[0].close
              && forall j :: 0 < j < c ==> q.price <= cs[j].low
  {
    var ps := ZigZagOf(cs, pct);
    ZigZagExact(cs, pct, ps);
    var turns: seq<nat> :| Legs(cs, pct, ps, turns, |cs|);
    assert Confirmed(cs, pct, ps, turns, 0);
    var c := turns[0];
    var lowest := Floor(cs, ps[0].idx);
    assert Floor(cs, 0) >= lowest;
    forall j | 0 < j < c ensures lowest <= cs[j].low {
      assert Floor(cs, j) >= lowest;
    }
  }
}
