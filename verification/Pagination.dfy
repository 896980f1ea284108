/**
 The three kline pagers: backwards under a cap (app/infra/marketdata.py),
 backwards to a start (scripts/_binance_stdlib.py) and forwards
 (scripts/run_backtest.py). The exchange is a sorted history of rows; each pager
 is compared with one range query over it.
 */
module Pagination {
  import opened Wrappers

  datatype Row = Row(openTime: int, payload: string)

  ghost predicate Before(h: seq<Row>, i: int, j: int)
    requires 0 <= i < |h| && 0 <= j < |h|
  {
    h[i].openTime < h[j].openTime
  }

  ghost predicate Increasing(h: seq<Row>) {
    forall i, j :: 0 <= i < j < |h| ==> Before(h, i, j)
  }

  predicate InBounds(r: Row, start: Option<int>, end: Option<int>) {
    (start.Some? ==> start.value <= r.openTime) && (end.Some? ==> r.openTime <= end.value)
  }

  /** The range query every pager is compared with: all rows within the inclusive bounds, in order. */
  function RowsBetween(h: seq<Row>, start: Option<int>, end: Option<int>): seq<Row> {
    if h == [] then []
    else if InBounds(h[0], start, end) then [h[0]] + RowsBetween(h[1..], start, end)
    else RowsBetween(h[1..], start, end)
  }

  function Last(rows: seq<Row>, n: nat): seq<Row> {
    if |rows| <= n then rows else rows[|rows| - n..]
  }

  function First(rows: seq<Row>, n: nat): seq<Row> {
    if |rows| <= n then rows else rows[..n]
  }

  /** The exchange: the newest rows up to `end`, or, given a start, the oldest from it; at most `limit`. */
  function Klines(h: seq<Row>, start: Option<int>, end: Option<int>, limit: nat): seq<Row> {
    if start.Some? then First(RowsBetween(h, start, end), limit) else Last(RowsBetween(h, start, end), limit)
  }

  /** `n` rows fill a whole number of pages. */
  predicate WholePages(n: nat, limit: nat)
    requires limit > 0
  {
    n == 0 || (n >= limit && WholePages(n - limit, limit))
  }

  // ------------------------------------------------------------------------
  // Range queries as slices
  // ------------------------------------------------------------------------

  lemma Order(h: seq<Row>, i: int, j: int)
    requires Increasing(h) && 0 <= i <= j < |h|
    ensures h[i].openTime <= h[j].openTime && (i < j ==> h[i].openTime < h[j].openTime)
  {
    if i < j { assert Before(h, i, j); }
  }

  /** The first `p` rows open before `t`, the others at or after it. */
  ghost predicate Splits(h: seq<Row>, t: int, p: nat) {
    p <= |h| && (p > 0 ==> h[p - 1].openTime < t) && (p < |h| ==> h[p].openTime >= t)
  }

  ghost predicate LowSplit(h: seq<Row>, start: Option<int>, lo: nat) {
    if start.Some? then Splits(h, start.value, lo) else lo == 0
  }

  ghost predicate HighSplit(h: seq<Row>, end: Option<int>, hi: nat) {
    if end.Some? then Splits(h, end.value + 1, hi) else hi == |h|
  }

  lemma {:induction false} FindSplit(h: seq<Row>, t: int, k: nat) returns (p: nat)
    requires k <= |h| && (k < |h| ==> h[k].openTime >= t)
    ensures Splits(h, t, p)
  {
    if k == 0 || h[k - 1].openTime < t {
      p := k;
    } else {
      p := FindSplit(h, t, k - 1);
    }
  }

  lemma FindBounds(h: seq<Row>, start: Option<int>, end: Option<int>) returns (lo: nat, hi: nat)
    ensures LowSplit(h, start, lo) && HighSplit(h, end, hi) && lo <= |h| && hi <= |h|
  {
    lo, hi := 0, |h|;
    if start.Some? { lo := FindSplit(h, start.value, |h|); }
    if end.Some? { hi := FindSplit(h, end.value + 1, |h|); }
  }

  lemma SplitAt(h: seq<Row>, t: int, p: nat, i: nat)
    requires Increasing(h) && Splits(h, t, p) && i < |h|
    ensures h[i].openTime < t <==> i < p
  {
    if i < p { Order(h, i, p - 1); } else { Order(h, p, i); }
  }

  /** Splits are unique and ordered like their times. */
  lemma SplitOrder(h: seq<Row>, s: int, p: nat, t: int, q: nat)
    requires Increasing(h) && Splits(h, s, p) && Splits(h, t, q) && s <= t
    ensures p <= q && (s == t ==> p == q)
  {
    if p > 0 { SplitAt(h, t, q, p - 1); }
    if s == t && q > 0 { SplitAt(h, s, p, q - 1); }
  }

  /** The two splits at a row that exists. */
  lemma SplitRow(h: seq<Row>, i: nat)
    requires Increasing(h) && i < |h|
    ensures Splits(h, h[i].openTime, i) && Splits(h, h[i].openTime + 1, i + 1)
  {
    if i > 0 { Order(h, i - 1, i); }
    if i + 1 < |h| { Order(h, i, i + 1); }
  }

  function Slice(h: seq<Row>, lo: nat, hi: nat): seq<Row>
    requires hi <= |h|
  {
    if lo <= hi then h[lo..hi] else []
  }

  lemma InBoundsAt(h: seq<Row>, start: Option<int>, end: Option<int>, lo: nat, hi: nat, i: nat)
    requires Increasing(h) && LowSplit(h, start, lo) && HighSplit(h, end, hi) && i < |h|
    ensures InBounds(h[i], start, end) <==> lo <= i < hi
  {
    if start.Some? { SplitAt(h, start.value, lo, i); }
    if end.Some? { SplitAt(h, end.value + 1, hi, i); }
  }

  lemma SliceHead(h: seq<Row>, a: nat, b: nat)
    requires a < b <= |h|
    ensures Slice(h, a, b) == [h[a]] + Slice(h, a + 1, b)
  {}

  lemma {:induction false} FilterSlice(h: seq<Row>, start: Option<int>, end: Option<int>, lo: nat, hi: nat,
                                       a: nat, b: nat)
    requires Increasing(h) && LowSplit(h, start, lo) && HighSplit(h, end, hi) && lo <= |h| && hi <= |h|
    requires a <= b <= |h|
    ensures RowsBetween(h[a..b], start, end) == Slice(h, if a < lo then lo else a, if b < hi then b else hi)
    decreases b - a
  {
    if a < b {
      assert h[a..b][0] == h[a] && h[a..b][1..] == h[a + 1..b];
      FilterSlice(h, start, end, lo, hi, a + 1, b);
      InBoundsAt(h, start, end, lo, hi, a);
      var top := if b < hi then b else hi;
      if lo <= a < top { SliceHead(h, a, top); }
    }
  }

  lemma BetweenIsSlice(h: seq<Row>, start: Option<int>, end: Option<int>, lo: nat, hi: nat)
    requires Increasing(h) && LowSplit(h, start, lo) && HighSplit(h, end, hi) && lo <= |h| && hi <= |h|
    ensures RowsBetween(h, start, end) == Slice(h, lo, hi)
  {
    FilterSlice(h, start, end, lo, hi, 0, |h|);
    assert h[0..|h|] == h;
  }

  /** The query returns exactly the rows within the bounds, sorted and without duplicates. */
  lemma {:induction false} RangeIsExact(h: seq<Row>, start: Option<int>, end: Option<int>)
    requires Increasing(h)
    ensures Increasing(RowsBetween(h, start, end))
    ensures forall r :: r in RowsBetween(h, start, end) <==> r in h && InBounds(r, start, end)
  {
    var lo, hi := FindBounds(h, start, end);
    BetweenIsSlice(h, start, end, lo, hi);
    var range := RowsBetween(h, start, end);
    forall i, j | 0 <= i < j < |range| ensures Before(range, i, j) {
      Order(h, lo + i, lo + j);
    }
    RowsBetweenMembers(h, start, end);
  }

  lemma {:induction false} RowsBetweenMembers(h: seq<Row>, start: Option<int>, end: Option<int>)
    ensures forall r :: r in RowsBetween(h, start, end) <==> r in h && InBounds(r, start, end)
  {
    if h != [] {
      RowsBetweenMembers(h[1..], start, end);
      assert h == [h[0]] + h[1..];
    }
  }

  // ------------------------------------------------------------------------
  // Pages
  // ------------------------------------------------------------------------

  lemma {:induction false} PageGap(x: nat, y: nat, limit: nat)
    requires limit > 0 && x < y && WholePages(x, limit) && WholePages(y, limit)
    ensures x + limit <= y
  {
    if x > 0 {
      PageGap(x - limit, y - limit, limit);
    }
  }

  /** The position where a page of `n` rows ending at position `a` starts, cut at `lo`. */
  function PageStart(a: nat, n: nat, lo: nat): nat {
    var from := if a <= n then 0 else a - n;
    if from < lo then lo else from
  }

  lemma NewestIsSlice(h: seq<Row>, end: Option<int>, n: nat, a: nat)
    requires Increasing(h) && HighSplit(h, end, a) && a <= |h|
    ensures Klines(h, None, end, n) == h[PageStart(a, n, 0)..a]
  {
    BetweenIsSlice(h, None, end, 0, a);
    assert h[0..a][PageStart(a, n, 0)..] == h[PageStart(a, n, 0)..a];
  }

  lemma Joined(h: seq<Row>, lo: nat, mid: nat, hi: nat)
    requires lo <= mid <= hi <= |h|
    ensures h[lo..mid] + h[mid..hi] == h[lo..hi]
  {}

  lemma PageIsSlice(h: seq<Row>, start: Option<int>, end: Option<int>, n: nat, lo: nat, a: nat)
    requires Increasing(h) && LowSplit(h, start, lo) && HighSplit(h, end, a) && lo <= |h| && a <= |h| && n > 0
    ensures var page := Klines(h, None, end, n);
            (if start.Some? then RowsBetween(page, start, None) else page) == Slice(h, PageStart(a, n, lo), a)
  {
    NewestIsSlice(h, end, n, a);
    if start.Some? {
      FilterSlice(h, start, None, lo, |h|, PageStart(a, n, 0), a);
    }
  }

  /** The newest page before position `a`, filtered to rows at or after `start`. */
  method RequestBack(h: seq<Row>, start: Option<int>, end: Option<int>, n: nat, ghost lo: nat, ghost a: nat)
    returns (batch: seq<Row>)
    requires Increasing(h) && LowSplit(h, start, lo) && HighSplit(h, end, a) && lo <= |h| && a <= |h| && n > 0
    ensures batch == Slice(h, PageStart(a, n, lo), a)
    ensures batch != [] ==> PageStart(a, n, lo) < a && Splits(h, batch[0].openTime, PageStart(a, n, lo))
    ensures batch != [] && start.Some? && batch[0].openTime <= start.value ==> PageStart(a, n, lo) <= lo
  {
    PageIsSlice(h, start, end, n, lo, a);
    batch := Klines(h, None, end, n);
    if start.Some? {
      batch := RowsBetween(batch, start, None);
    }
    if batch != [] {
      SplitRow(h, PageStart(a, n, lo));
      if start.Some? && batch[0].openTime <= start.value {
        SplitOrder(h, batch[0].openTime, PageStart(a, n, lo), start.value, lo);
      }
    }
  }

  /** The oldest page from position `b`. */
  method RequestForward(h: seq<Row>, cursor: int, end: int, limit: nat, ghost b: nat, ghost hi: nat)
    returns (batch: seq<Row>)
    requires Increasing(h) && limit > 0 && Splits(h, cursor, b) && Splits(h, end + 1, hi) && b <= hi
    ensures b + |batch| <= hi && |batch| <= limit && batch == h[b..b + |batch|]
    ensures |batch| < limit ==> b + |batch| == hi
  {
    BetweenIsSlice(h, Some(cursor), Some(end), b, hi);
    batch := Klines(h, Some(cursor), Some(end), limit);
  }

  // ------------------------------------------------------------------------
  // Backwards under a cap
  // ------------------------------------------------------------------------

  /** `_fetch_paginated`: exactly the last `numCandles` rows of the range, or all of them if there are fewer. */
  method FetchPaginated(h: seq<Row>, start: Option<int>, end: Option<int>, numCandles: nat, maxCandles: nat)
    returns (collected: seq<Row>)
    requires Increasing(h) && maxCandles > 0
    ensures collected == Last(RowsBetween(h, start, end), numCandles)
  {
    ghost var lo, hi := FindBounds(h, start, end);
    ghost var a: nat := hi;
    collected := [];
    var endTime := end;
    while |collected| < numCandles
      invariant a <= hi <= |h| && HighSplit(h, endTime, a) && (a < hi ==> lo <= a)
      invariant collected == h[a..hi] && |collected| <= numCandles
      decreases a
    {
      var batchSize := if numCandles - |collected| < maxCandles then numCandles - |collected| else maxCandles;
      var batch := RequestBack(h, start, endTime, batchSize, lo, a);
      if batch == [] {
        break;
      }
      ghost var from := PageStart(a, batchSize, lo);
      Joined(h, from, a, hi);
      collected := batch + collected;
      a := from;
      if |batch| < batchSize {
        break;
      }
      endTime := Some(batch[0].openTime - 1);
      if start.Some? && endTime.value < start.value {
        break;
      }
    }
    CappedRange(h, start, end, lo, hi, a, numCandles);
  }

  lemma CappedRange(h: seq<Row>, start: Option<int>, end: Option<int>, lo: nat, hi: nat, a: nat, n: nat)
    requires Increasing(h) && LowSplit(h, start, lo) && HighSplit(h, end, hi) && lo <= |h|
    requires a <= hi <= |h| && hi - a <= n && (a < hi ==> lo <= a) && (hi - a == n || a <= lo)
    ensures h[a..hi] == Last(RowsBetween(h, start, end), n)
  {
    BetweenIsSlice(h, start, end, lo, hi);
  }

  // ------------------------------------------------------------------------
  // Backwards to a start
  // ------------------------------------------------------------------------

  datatype FetchError = EndNotAfterStart | NoData

  predicate Opens(h: seq<Row>, t: int) {
    exists i :: 0 <= i < |h| && h[i].openTime == t
  }

  /**
   The one way the backward walk stops short: a page ends exactly at `start + 1` and there is a row at `start`, one
   millisecond earlier, that the loop guard `cursor > start` never asks for.
   */
  predicate StopsShort(h: seq<Row>, start: int, end: int, limit: nat)
    requires limit > 0
  {
    && Opens(h, start) && Opens(h, start + 1) && start + 1 <= end
    && WholePages(|RowsBetween(h, Some(start + 1), Some(end))|, limit)
  }

  function WalkBack(h: seq<Row>, start: int, end: int, limit: nat): Result<seq<Row>, FetchError>
    requires limit > 0
  {
    if end <= start then Failure(EndNotAfterStart)
    else if RowsBetween(h, None, Some(end)) == [] then Failure(NoData)
    else if StopsShort(h, start, end, limit) then Success(RowsBetween(h, Some(start + 1), Some(end)))
    else Success(RowsBetween(h, Some(start), Some(end)))
  }

  /** The walk may stop at position `a`: nothing older, the start reached, or the guard's blind spot. */
  ghost predicate MayStop(h: seq<Row>, start: int, limit: nat, hi: nat, a: nat)
    requires limit > 0
  {
    && a <= hi <= |h|
    && (a == 0 || (a < hi && h[a].openTime <= start) ||
        (a < hi && h[a].openTime == start + 1 && WholePages(hi - a, limit)))
  }

  /** A page boundary that the walk cannot step over: whole pages from it to `hi`. */
  ghost predicate Wall(h: seq<Row>, start: int, limit: nat, hi: nat, wall: nat)
    requires limit > 0
  {
    wall < hi <= |h| && h[wall].openTime == start + 1 && WholePages(hi - wall, limit)
  }

  /** The loop of `fetch_binance_klines`. `a` is where it stops; it does not pass a wall. */
  method CollectBack(h: seq<Row>, start: int, end: int, limit: nat, ghost hi: nat, ghost wall: Option<nat>)
    returns (rows: seq<Row>, ghost a: nat)
    requires Increasing(h) && limit > 0 && start < end && Splits(h, end + 1, hi)
    requires wall.Some? ==> Wall(h, start, limit, hi, wall.value)
    ensures MayStop(h, start, limit, hi, a) && rows == h[a..hi]
    ensures wall.Some? ==> wall.value <= a
  {
    rows := [];
    var cursor := end;
    a := hi;
    while cursor > start
      invariant a <= hi <= |h| && rows == h[a..hi] && Splits(h, cursor + 1, a) && WholePages(hi - a, limit)
      invariant start <= cursor <= end && (if a < hi then h[a].openTime == cursor + 1 else cursor == end)
      invariant wall.Some? ==> wall.value <= a
      decreases cursor - start
    {
      var batch := RequestBack(h, None, Some(cursor), limit, 0, a);
      if batch == [] {
        break;
      }
      ghost var from := PageStart(a, limit, 0);
      Joined(h, from, a, hi);
      if wall.Some? && wall.value < a {
        PageGap(hi - a, hi - wall.value, limit);
      }
      var firstOpen := batch[0].openTime;
      SplitAt(h, cursor + 1, a, from);
      SplitRow(h, from);
      if wall.Some? && wall.value == a {
        assert false;
      }
      rows := batch + rows;
      a := from;
      if firstOpen <= start {
        break;
      }
      cursor := firstOpen - 1;
      if |batch| < limit {
        break;
      }
    }
  }

  /** Rows one millisecond apart are neighbours. */
  lemma Neighbours(h: seq<Row>, t: int) returns (i: nat)
    requires Increasing(h) && Opens(h, t) && Opens(h, t + 1)
    ensures 0 < i < |h| && h[i - 1].openTime == t && h[i].openTime == t + 1
  {
    i :| 0 <= i < |h| && h[i].openTime == t + 1;
    var j :| 0 <= j < |h| && h[j].openTime == t;
    SplitRow(h, i);
    SplitRow(h, j);
    SplitOrder(h, t + 1, j + 1, t + 1, i);
  }

  /** Where the walk stops short, the row after the start is a wall. */
  lemma ShortIsWall(h: seq<Row>, start: int, end: int, limit: nat, hi: nat) returns (wall: nat)
    requires Increasing(h) && limit > 0 && StopsShort(h, start, end, limit) && Splits(h, end + 1, hi)
    ensures Wall(h, start, limit, hi, wall) && wall > 0 && h[wall - 1].openTime == start
    ensures RowsBetween(h, Some(start), Some(end)) == [h[wall - 1]] + RowsBetween(h, Some(start + 1), Some(end))
    ensures RowsBetween(h, Some(start + 1), Some(end)) == h[wall..hi]
  {
    wall := Neighbours(h, start);
    SplitRow(h, wall);
    SplitRow(h, wall - 1);
    SplitAt(h, end + 1, hi, wall);
    BetweenIsSlice(h, Some(start + 1), Some(end), wall, hi);
    BetweenIsSlice(h, Some(start), Some(end), wall - 1, hi);
  }

  /** At the blind spot, the walk has stopped short exactly when a row opens at the start. */
  lemma BlindSpot(h: seq<Row>, start: int, end: int, limit: nat, hi: nat, a: nat)
    requires Increasing(h) && limit > 0 && start < end && Splits(h, end + 1, hi)
    requires a < hi && h[a].openTime == start + 1 && WholePages(hi - a, limit)
    ensures RowsBetween(h, Some(start + 1), Some(end)) == h[a..hi]
    ensures StopsShort(h, start, end, limit) <==> a > 0 && h[a - 1].openTime == start
    ensures !StopsShort(h, start, end, limit) ==> RowsBetween(h, Some(start), Some(end)) == h[a..hi]
  {
    SplitRow(h, a);
    BetweenIsSlice(h, Some(start + 1), Some(end), a, hi);
    assert Opens(h, start + 1);
    if StopsShort(h, start, end, limit) {
      var wall := ShortIsWall(h, start, end, limit, hi);
      SplitRow(h, wall);
      SplitOrder(h, start + 1, wall, start + 1, a);
    } else {
      if a > 0 { Order(h, a - 1, a); }
      BetweenIsSlice(h, Some(start), Some(end), a, hi);
    }
  }

  /** Past the start, the walk has not stopped short and the filter leaves the range. */
  lemma PastStart(h: seq<Row>, start: int, end: int, limit: nat, hi: nat, a: nat, wall: Option<nat>)
    requires Increasing(h) && limit > 0 && start < end && Splits(h, end + 1, hi) && a <= hi
    requires a == 0 || (a < hi && h[a].openTime <= start)
    requires wall.Some? <==> StopsShort(h, start, end, limit)
    requires wall.Some? ==> Wall(h, start, limit, hi, wall.value) && 0 < wall.value <= a
    ensures !StopsShort(h, start, end, limit)
    ensures RowsBetween(h[a..hi], Some(start), None) == RowsBetween(h, Some(start), Some(end))
  {
    if wall.Some? {
      Order(h, wall.value, a);
    } else {
      var lo := FindSplit(h, start, |h|);
      FilterSlice(h, Some(start), None, lo, |h|, a, hi);
      BetweenIsSlice(h, Some(start), Some(end), lo, hi);
      if a > lo { Order(h, lo, a - 1); SplitAt(h, start, lo, a); SplitRow(h, a); SplitOrder(h, start, lo, start, a); }
    }
  }

  /** `fetch_binance_klines`; the original's page limit is 1000. */
  method FetchBack(h: seq<Row>, start: int, end: int, limit: nat) returns (result: Result<seq<Row>, FetchError>)
    requires Increasing(h) && limit > 0
    ensures result == WalkBack(h, start, end, limit)
  {
    if end <= start {
      return Failure(EndNotAfterStart);
    }
    ghost var hi := FindSplit(h, end + 1, |h|);
    ghost var wall: Option<nat> := None;
    if StopsShort(h, start, end, limit) {
      ghost var w := ShortIsWall(h, start, end, limit, hi);
      wall := Some(w);
    }
    ghost var a: nat;
    var rows;
    rows, a := CollectBack(h, start, end, limit, hi, wall);
    BetweenIsSlice(h, None, Some(end), 0, hi);
    if rows == [] {
      return Failure(NoData);
    }
    WalkResult(h, start, end, limit, hi, a, wall);
    result := Success(RowsBetween(rows, Some(start), None));
  }

  /** What the final filter returns when the walk stops at position `a`. */
  lemma WalkResult(h: seq<Row>, start: int, end: int, limit: nat, hi: nat, a: nat, wall: Option<nat>)
    requires Increasing(h) && limit > 0 && start < end && Splits(h, end + 1, hi) && MayStop(h, start, limit, hi, a)
    requires wall.Some? <==> StopsShort(h, start, end, limit)
    requires wall.Some? ==> Wall(h, start, limit, hi, wall.value) && 0 < wall.value <= a
    ensures RowsBetween(h[a..hi], Some(start), None)
         == if StopsShort(h, start, end, limit) then RowsBetween(h, Some(start + 1), Some(end))
            else RowsBetween(h, Some(start), Some(end))
  {
    if a == 0 || h[a].openTime <= start {
      PastStart(h, start, end, limit, hi, a, wall);
    } else {
      BlindSpot(h, start, end, limit, hi, a);
      var lo := FindSplit(h, start, |h|);
      SplitAt(h, start, lo, a);
      FilterSlice(h, Some(start), None, lo, |h|, a, hi);
    }
  }

  // ------------------------------------------------------------------------
  // Forwards
  // ------------------------------------------------------------------------

  /** The forward mirror image: a page ends exactly at `end - 1` and there is a row at `end`. */
  predicate StopsEarly(h: seq<Row>, start: int, end: int, limit: nat)
    requires limit > 0
  {
    && Opens(h, end) && Opens(h, end - 1) && start <= end - 1
    && WholePages(|RowsBetween(h, Some(start), Some(end - 1))|, limit)
  }

  function WalkForward(h: seq<Row>, start: int, end: int, limit: nat): seq<Row>
    requires limit > 0
  {
    if start >= end then []
    else if StopsEarly(h, start, end, limit) then RowsBetween(h, Some(start), Some(end - 1))
    else RowsBetween(h, Some(start), Some(end))
  }

  /** The state at the head of the loop: rows up to position `b` collected, the cursor just after them. */
  ghost predicate WalkingForward(h: seq<Row>, start: int, limit: nat, lo: nat, hi: nat, wall: Option<nat>,
                                 cursor: int, b: nat)
    requires limit > 0
  {
    && lo <= b <= hi <= |h| && Splits(h, cursor, b) && cursor >= start
    && (if b > lo then h[b - 1].openTime == cursor - 1 else cursor == start)
    && (b < hi ==> WholePages(b - lo, limit))
    && (wall.Some? ==> b <= wall.value)
  }

  ghost predicate ForwardWall(h: seq<Row>, end: int, limit: nat, lo: nat, hi: nat, wall: nat)
    requires limit > 0
  {
    lo < wall <= hi <= |h| && WholePages(wall - lo, limit) && h[wall - 1].openTime == end - 1
  }

  lemma PageForward(h: seq<Row>, start: int, end: int, limit: nat, lo: nat, hi: nat, wall: Option<nat>,
                    cursor: int, b: nat, to: nat)
    requires Increasing(h) && limit > 0 && cursor < end && WalkingForward(h, start, limit, lo, hi, wall, cursor, b)
    requires wall.Some? ==> ForwardWall(h, end, limit, lo, hi, wall.value)
    requires b < to <= hi && to <= b + limit && (to < b + limit ==> to == hi)
    ensures WalkingForward(h, start, limit, lo, hi, wall, h[to - 1].openTime + 1, to)
    ensures h[to - 1].openTime >= cursor
  {
    SplitAt(h, cursor, b, to - 1);
    SplitRow(h, to - 1);
    if wall.Some? && b < wall.value {
      PageGap(b - lo, wall.value - lo, limit);
    }
  }

  /** One request of the loop: the next page, after which the cursor is behind it. */
  method PageAfter(h: seq<Row>, start: int, end: int, limit: nat, ghost lo: nat, ghost hi: nat, ghost wall: Option<nat>,
                   cursor: int, ghost b: nat)
    returns (batch: seq<Row>)
    requires Increasing(h) && limit > 0 && cursor < end && WalkingForward(h, start, limit, lo, hi, wall, cursor, b)
    requires Splits(h, end + 1, hi) && (wall.Some? ==> ForwardWall(h, end, limit, lo, hi, wall.value))
    ensures b + |batch| <= hi && batch == h[b..b + |batch|] && (batch == [] ==> b == hi)
    ensures batch != [] ==>
              && batch[|batch| - 1].openTime >= cursor
              && WalkingForward(h, start, limit, lo, hi, wall, batch[|batch| - 1].openTime + 1, b + |batch|)
  {
    batch := RequestForward(h, cursor, end, limit, b, hi);
    if batch != [] {
      ghost var to := b + |batch|;
      PageForward(h, start, end, limit, lo, hi, wall, cursor, b, to);
      assert batch[|batch| - 1] == h[to - 1];
    }
  }

  /** The forward loop ends at the range's end, or after a full page that reaches the last millisecond before it. */
  ghost predicate ForwardEnd(h: seq<Row>, end: int, limit: nat, lo: nat, hi: nat, b: nat)
    requires limit > 0
  {
    && b <= hi <= |h|
    && (b == hi || (b > lo && h[b - 1].openTime >= end - 1 && WholePages(b - lo, limit)))
  }

  lemma ForwardStart(h: seq<Row>, start: int, end: int, limit: nat, lo: nat, hi: nat, wall: Option<nat>)
    requires Increasing(h) && limit > 0 && Splits(h, start, lo) && Splits(h, end + 1, hi) && start < end
    requires wall.Some? ==> ForwardWall(h, end, limit, lo, hi, wall.value)
    ensures WalkingForward(h, start, limit, lo, hi, wall, start, lo)
  {
    SplitOrder(h, start, lo, end + 1, hi);
  }

  lemma ForwardStop(h: seq<Row>, start: int, end: int, limit: nat, lo: nat, hi: nat, wall: Option<nat>,
                    cursor: int, b: nat)
    requires limit > 0 && start < end && WalkingForward(h, start, limit, lo, hi, wall, cursor, b)
    requires cursor >= end || b == hi
    ensures ForwardEnd(h, end, limit, lo, hi, b) && (wall.Some? ==> b <= wall.value)
  {}

  /** The loop of `_load_history`. `b` is where it stops; it does not pass a wall. */
  method CollectForward(h: seq<Row>, start: int, end: int, limit: nat, ghost lo: nat, ghost hi: nat,
                        ghost wall: Option<nat>)
    returns (rows: seq<Row>, ghost b: nat)
    requires Increasing(h) && limit > 0 && Splits(h, start, lo) && Splits(h, end + 1, hi) && start < end
    requires wall.Some? ==> ForwardWall(h, end, limit, lo, hi, wall.value)
    ensures lo <= b <= hi <= |h| && rows == h[lo..b] && (wall.Some? ==> b <= wall.value)
    ensures ForwardEnd(h, end, limit, lo, hi, b)
  {
    rows := [];
    var cursor := start;
    b := lo;
    ForwardStart(h, start, end, limit, lo, hi, wall);
    while cursor < end
      invariant lo <= b <= |h| && rows == h[lo..b]
      invariant WalkingForward(h, start, limit, lo, hi, wall, cursor, b)
      decreases end - cursor
    {
      var batch := PageAfter(h, start, end, limit, lo, hi, wall, cursor, b);
      if batch == [] {
        break;
      }
      Joined(h, lo, b, b + |batch|);
      rows := rows + batch;
      b := b + |batch|;
      cursor := batch[|batch| - 1].openTime + 1;
    }
    ForwardStop(h, start, end, limit, lo, hi, wall, cursor, b);
  }

  /** Where the walk stops early, the row before the end is a wall. */
  lemma EarlyIsWall(h: seq<Row>, start: int, end: int, limit: nat, lo: nat, hi: nat) returns (wall: nat)
    requires Increasing(h) && limit > 0 && StopsEarly(h, start, end, limit)
    requires Splits(h, start, lo) && Splits(h, end + 1, hi)
    ensures lo < wall == hi - 1 && h[wall - 1].openTime == end - 1 && h[wall].openTime == end
    ensures WholePages(wall - lo, limit) && RowsBetween(h, Some(start), Some(end - 1)) == h[lo..wall]
    ensures RowsBetween(h, Some(start), Some(end)) == RowsBetween(h, Some(start), Some(end - 1)) + [h[wall]]
  {
    wall := Neighbours(h, end - 1);
    SplitRow(h, wall);
    SplitOrder(h, end + 1, wall + 1, end + 1, hi);
    SplitAt(h, start, lo, wall - 1);
    BetweenIsSlice(h, Some(start), Some(end - 1), lo, wall);
    BetweenIsSlice(h, Some(start), Some(end), lo, hi);
  }

  /** A stop before the end of the range is an early stop. */
  lemma StopIsEarly(h: seq<Row>, start: int, end: int, limit: nat, lo: nat, hi: nat, b: nat)
    requires Increasing(h) && limit > 0 && start < end && Splits(h, start, lo) && Splits(h, end + 1, hi)
    requires lo < b < hi && h[b - 1].openTime >= end - 1 && WholePages(b - lo, limit)
    ensures StopsEarly(h, start, end, limit) && RowsBetween(h, Some(start), Some(end - 1)) == h[lo..b]
  {
    Order(h, b - 1, b);
    SplitAt(h, end + 1, hi, b);
    SplitRow(h, b);
    BetweenIsSlice(h, Some(start), Some(end - 1), lo, b);
    assert Opens(h, end) && Opens(h, end - 1);
  }

  /** The request loop of `_load_history`. */
  method LoadForward(h: seq<Row>, start: int, end: int, limit: nat) returns (rows: seq<Row>)
    requires Increasing(h) && limit > 0
    ensures rows == WalkForward(h, start, end, limit)
  {
    if start >= end {
      return [];
    }
    ghost var lo, hi := FindBounds(h, Some(start), Some(end));
    ghost var wall: Option<nat> := None;
    if StopsEarly(h, start, end, limit) {
      ghost var w := EarlyIsWall(h, start, end, limit, lo, hi);
      wall := Some(w);
    }
    ghost var b: nat;
    rows, b := CollectForward(h, start, end, limit, lo, hi, wall);
    BetweenIsSlice(h, Some(start), Some(end), lo, hi);
    if b < hi { StopIsEarly(h, start, end, limit, lo, hi, b); }
  }

  // ------------------------------------------------------------------------
  // Agreement
  // ------------------------------------------------------------------------

  /** The walks return the range if and only if they do not stop short; a short walk misses exactly one row. */
  lemma WalksExact(h: seq<Row>, start: int, end: int, limit: nat)
    requires Increasing(h) && limit > 0 && start < end && RowsBetween(h, None, Some(end)) != []
    ensures var range := RowsBetween(h, Some(start), Some(end));
            && (WalkBack(h, start, end, limit) == Success(range) <==> !StopsShort(h, start, end, limit))
            && (WalkForward(h, start, end, limit) == range <==> !StopsEarly(h, start, end, limit))
            && (StopsShort(h, start, end, limit) ==>
                  |range| > 0 && range[0].openTime == start && WalkBack(h, start, end, limit) == Success(range[1..]))
            && (StopsEarly(h, start, end, limit) ==>
                  var n := |range| - 1;
                  n >= 0 && range[n].openTime == end && WalkForward(h, start, end, limit) == range[..n])
  {
    var lo, hi := FindBounds(h, Some(start), Some(end));
    if StopsShort(h, start, end, limit) {
      var wall := ShortIsWall(h, start, end, limit, hi);
      assert h[wall - 1].openTime == start;
    }
    if StopsEarly(h, start, end, limit) {
      var wall := EarlyIsWall(h, start, end, limit, lo, hi);
      assert h[wall].openTime == end;
    }
  }

  /** One row a millisecond, from 0 to `limit`. */
  function Dense(limit: nat): (h: seq<Row>)
    ensures |h| == limit + 1 && forall i :: 0 <= i < |h| ==> h[i] == Row(i, "")
  {
    seq(limit + 1, i requires 0 <= i <= limit => Row(i, ""))
  }

  lemma DenseSlice(limit: nat, start: nat, end: nat)
    requires start <= end <= limit
    ensures Increasing(Dense(limit))
    ensures RowsBetween(Dense(limit), Some(start), Some(end)) == Dense(limit)[start..end + 1]
  {
    var h := Dense(limit);
    assert forall i, j :: 0 <= i < j < |h| ==> Before(h, i, j);
    assert Splits(h, start, start) && Splits(h, end + 1, end + 1);
    BetweenIsSlice(h, Some(start), Some(end), start, end + 1);
  }

  /** Whatever the page size: on one row a millisecond, a page and a row long, each walk loses a row of the range. */
  lemma AdjacentRowsAreLost(limit: nat)
    requires limit > 0
    ensures var h := Dense(limit);
            && RowsBetween(h, Some(0), Some(limit)) == h
            && WalkBack(h, 0, limit, limit) == Success(h[1..])
            && WalkForward(h, 0, limit, limit) == h[..limit]
  {
    var h := Dense(limit);
    DenseSlice(limit, 0, limit);
    DenseSlice(limit, 1, limit);
    DenseSlice(limit, 0, limit - 1);
    assert h[0..limit + 1] == h && h[1..limit + 1] == h[1..] && h[0..limit] == h[..limit];
    assert h[0].openTime == 0 && h[1].openTime == 1;
    assert h[limit - 1].openTime == limit - 1 && h[limit].openTime == limit;
    assert WholePages(limit - limit, limit);
    assert RowsBetween(h, None, Some(limit)) != [] by { RowsBetweenMembers(h, None, Some(limit)); assert h[0] in h; }
  }

  /** Open times more than one millisecond apart, as for every kline interval. */
  ghost predicate Spaced(h: seq<Row>) {
    forall t :: Opens(h, t) ==> !Opens(h, t + 1)
  }

  /** On any history with spaced open times and a large enough cap, all three pagers return the same range. */
  lemma PagersAgree(h: seq<Row>, start: int, end: int, numCandles: nat, limit: nat)
    requires Increasing(h) && Spaced(h) && limit > 0 && start < end
    requires numCandles >= |RowsBetween(h, Some(start), Some(end))| && RowsBetween(h, None, Some(end)) != []
    ensures var range := RowsBetween(h, Some(start), Some(end));
            && Last(range, numCandles) == range
            && WalkBack(h, start, end, limit) == Success(range)
            && WalkForward(h, start, end, limit) == range
  {
    assert !StopsShort(h, start, end, limit);
    assert Opens(h, end - 1) ==> !Opens(h, end - 1 + 1);
  }
}
