/**
 The sliding-window rate limiter of app/api/rate_limit.py: a pruned list of
 timestamps per key, compared with the full history of admissions.
 */
module RateLimiter {
  import opened Wrappers

  datatype Limit = Limit(requests: nat, window: real)

  /** The timestamps later than `cutoff`. */
  function Prune(ts: seq<real>, cutoff: real): seq<real> {
    if ts == [] then []
    else
      var n := |ts| - 1;
      if ts[n] > cutoff then Prune(ts[..n], cutoff) + [ts[n]] else Prune(ts[..n], cutoff)
  }

  type Table = map<string, seq<real>>

  function Stored(data: Table, key: string): seq<real> {
    if key in data then data[key] else []
  }

  function Admits(data: Table, key: string, limit: Limit, now: real): bool {
    |Prune(Stored(data, key), now - limit.window)| < limit.requests
  }

  /** The table after a request: pruned, and extended when the request is admitted. */
  function AfterRequest(data: Table, key: string, limit: Limit, now: real): Table {
    var kept := Prune(Stored(data, key), now - limit.window);
    data[key := if Admits(data, key, limit, now) then kept + [now] else kept]
  }

  function AfterRemaining(data: Table, key: string, limit: Limit, now: real): Table {
    data[key := Prune(Stored(data, key), now - limit.window)]
  }

  class SlidingWindowStore {
    var data: Table

    constructor ()
      ensures data == map[]
    {
      data := map[];
    }

    /** The loop of the list comprehension in `_prune`. */
    method PruneKey(key: string, cutoff: real)
      modifies this
      ensures data == old(data)[key := Prune(Stored(old(data), key), cutoff)]
    {
      var ts := Stored(data, key);
      var kept: seq<real> := [];
      for i := 0 to |ts|
        invariant kept == Prune(ts[..i], cutoff)
        invariant data == old(data)
      {
        assert ts[..i + 1][..i] == ts[..i];
        if ts[i] > cutoff {
          kept := kept + [ts[i]];
        }
      }
      assert ts[..|ts|] == ts;
      data := data[key := kept];
    }

    method IsAllowed(key: string, limit: Limit, now: real) returns (allowed: bool)
      modifies this
      ensures allowed == Admits(old(data), key, limit, now)
      ensures data == AfterRequest(old(data), key, limit, now)
    {
      PruneKey(key, now - limit.window);
      if |data[key]| >= limit.requests {
        return false;
      }
      data := data[key := data[key] + [now]];
      return true;
    }

    method Remaining(key: string, limit: Limit, now: real) returns (left: nat)
      modifies this
      ensures data == AfterRemaining(old(data), key, limit, now)
      ensures left == if |Stored(data, key)| < limit.requests then limit.requests - |Stored(data, key)| else 0
    {
      PruneKey(key, now - limit.window);
      left := if |data[key]| < limit.requests then limit.requests - |data[key]| else 0;
    }

    method Reset(key: string)
      modifies this
      ensures data == old(data) - {key}
    {
      data := data - {key};
    }
  }

  // ------------------------------------------------------------------------
  // The limiter
  // ------------------------------------------------------------------------

  function LimitFor(endpoint: string): (limit: Limit)
    ensures limit.requests > 0 && limit.window == 60.0
  {
    if endpoint == "analyze" then Limit(10, 60.0)
    else if endpoint == "batch_quotes" then Limit(30, 60.0)
    else if endpoint == "watchlist_crud" then Limit(60, 60.0)
    else if endpoint == "history" then Limit(120, 60.0)
    else if endpoint == "health" then Limit(300, 60.0)
    else if endpoint == "admin" then Limit(10, 60.0)
    else Limit(60, 60.0)
  }

  function Uid(userId: Option<string>): string {
    if userId.Some? && userId.value != "" then userId.value else "anonymous"
  }

  function KeyFor(userId: Option<string>, endpoint: string): string {
    Uid(userId) + ":" + endpoint
  }

  /** Python's int(): truncation towards zero. */
  function Truncate(x: real): int {
    if x >= 0.0 then x.Floor else -((-x).Floor)
  }

  /** Python's min(). */
  function Oldest(ts: seq<real>): real
    requires ts != []
  {
    var n := |ts| - 1;
    if n == 0 || ts[n] < Oldest(ts[..n]) then ts[n] else Oldest(ts[..n])
  }

  lemma {:induction false} OldestIsLeast(ts: seq<real>)
    requires ts != []
    ensures Oldest(ts) in ts && forall i :: 0 <= i < |ts| ==> Oldest(ts) <= ts[i]
  {
    var n := |ts| - 1;
    if n > 0 {
      OldestIsLeast(ts[..n]);
      assert ts == ts[..n] + [ts[n]];
    }
  }

  /** Seconds a refused caller is told to wait. */
  function ResetIn(ts: seq<real>, window: real, now: real): int {
    var resetIn := if ts == [] then Truncate(window) else Truncate(Oldest(ts) + window - now) + 1;
    if resetIn < 1 then 1 else resetIn
  }

  class Limiter {
    const store: SlidingWindowStore

    constructor (store: SlidingWindowStore)
      ensures this.store == store
    {
      this.store := store;
    }

    /** `check` reads the clock three times; other requests may come between, which the theorems below allow for. */
    method Check(userId: Option<string>, endpoint: string, now1: real, now2: real, now3: real)
      returns (allowed: bool, remaining: nat, resetIn: int)
      modifies store
      ensures var limit, key := LimitFor(endpoint), KeyFor(userId, endpoint);
              && allowed == Admits(old(store.data), key, limit, now1)
              && store.data == AfterRemaining(AfterRequest(old(store.data), key, limit, now1), key, limit, now2)
              && (allowed ==> resetIn == 0 && remaining == LeftAfter(store.data, key, limit))
              && (!allowed ==> remaining == 0 && resetIn == ResetIn(Stored(store.data, key), limit.window, now3))
    {
      var limit, key := LimitFor(endpoint), KeyFor(userId, endpoint);
      allowed := store.IsAllowed(key, limit, now1);
      remaining := store.Remaining(key, limit, now2);
      if allowed {
        return true, remaining, 0;
      }
      return false, 0, ResetIn(Stored(store.data, key), limit.window, now3);
    }
  }

  function LeftAfter(data: Table, key: string, limit: Limit): nat {
    if |Stored(data, key)| < limit.requests then limit.requests - |Stored(data, key)| else 0
  }

  /** What follows the last colon. */
  function LastPart(s: string): string {
    if s == [] || s[|s| - 1] == ':' then [] else LastPart(s[..|s| - 1]) + [s[|s| - 1]]
  }

  lemma {:induction false} EndpointOfKey(u: string, e: string)
    requires ':' !in e
    ensures LastPart(u + ":" + e) == e
  {
    var k := u + ":" + e;
    if e == [] {
      assert k[|k| - 1] == ':';
    } else {
      var n := |e| - 1;
      EndpointOfKey(u, e[..n]);
      assert k[..|k| - 1] == u + ":" + e[..n];
      assert k[|k| - 1] == e[n] && e[n] in e;
    }
  }

  /** Endpoint names contain no colon, so a key names one user and one endpoint, and its limit is fixed. */
  lemma KeyDeterminesLimit(u1: Option<string>, e1: string, u2: Option<string>, e2: string)
    requires ':' !in e1 && ':' !in e2
    ensures KeyFor(u1, e1) == KeyFor(u2, e2) <==> Uid(u1) == Uid(u2) && e1 == e2
  {
    var k1, k2 := KeyFor(u1, e1), KeyFor(u2, e2);
    EndpointOfKey(Uid(u1), e1);
    EndpointOfKey(Uid(u2), e2);
    if k1 == k2 {
      assert k1[..|k1| - |e1| - 1] == Uid(u1);
      assert k2[..|k2| - |e2| - 1] == Uid(u2);
    }
  }

  /** Requests per minute, of the six endpoints with limits of their own and of every other one. */
  lemma LimitsPerMinute(endpoint: string)
    ensures LimitFor("analyze") == Limit(10, 60.0) && LimitFor("batch_quotes") == Limit(30, 60.0)
    ensures LimitFor("watchlist_crud") == Limit(60, 60.0) && LimitFor("history") == Limit(120, 60.0)
    ensures LimitFor("health") == Limit(300, 60.0) && LimitFor("admin") == Limit(10, 60.0)
    ensures endpoint !in {"analyze", "batch_quotes", "watchlist_crud", "history", "health", "admin"} ==>
              LimitFor(endpoint) == Limit(60, 60.0)
  {
    assert "batch_quotes"[0] == 'b' && "watchlist_crud"[0] == 'w' && "history"[1] == 'i' && "health"[1] == 'e';
    assert "admin"[1] == 'd' && "analyze"[1] == 'n';
  }

  /** All callers without a name share one key per endpoint. */
  lemma AnonymousShare(endpoint: string, userId: string)
    ensures KeyFor(None, endpoint) == KeyFor(Some(""), endpoint) == "anonymous:" + endpoint
    ensures userId != "" ==> KeyFor(Some(userId), endpoint) == userId + ":" + endpoint
  {}

  // ------------------------------------------------------------------------
  // Runs
  // ------------------------------------------------------------------------

  datatype Op = Request(key: string, now: real) | AskRemaining(key: string, now: real) | Reset(key: string)

  type Limits = string -> Limit

  function Apply(data: Table, op: Op, limits: Limits): Table {
    match op
    case Request(key, now) => AfterRequest(data, key, limits(key), now)
    case AskRemaining(key, now) => AfterRemaining(data, key, limits(key), now)
    case Reset(key) => data - {key}
  }

  function Run(ops: seq<Op>, limits: Limits): Table {
    if ops == [] then map[] else Apply(Run(ops[..|ops| - 1], limits), ops[|ops| - 1], limits)
  }

  /** The full history of admissions for a key since its last reset, never pruned. */
  function Admitted(ops: seq<Op>, limits: Limits, key: string): seq<real> {
    if ops == [] then []
    else
      var rest, op := ops[..|ops| - 1], ops[|ops| - 1];
      var history := Admitted(rest, limits, key);
      if op.key != key then history
      else
        match op
        case Request(_, now) => if Admits(Run(rest, limits), key, limits(key), now) then history + [now] else history
        case AskRemaining(_, _) => history
        case Reset(_) => []
  }

  /** The cutoff of the last pruning of a key. */
  function Cutoff(ops: seq<Op>, limits: Limits, key: string): real {
    if ops == [] then 0.0
    else
      var op := ops[|ops| - 1];
      if op.key == key && !op.Reset? then op.now - limits(key).window else Cutoff(ops[..|ops| - 1], limits, key)
  }

  /** The clock does not go backwards, and has not passed `now`. */
  ghost predicate Clocked(ops: seq<Op>, now: real) {
    ops == [] ||
    var op := ops[|ops| - 1];
    if op.Reset? then Clocked(ops[..|ops| - 1], now) else op.now <= now && Clocked(ops[..|ops| - 1], op.now)
  }

  lemma {:induction false} ClockedLater(ops: seq<Op>, now: real, later: real)
    requires Clocked(ops, now) && now <= later
    ensures Clocked(ops, later)
  {
    if ops != [] && ops[|ops| - 1].Reset? {
      ClockedLater(ops[..|ops| - 1], now, later);
    }
  }

  lemma {:induction false} PrunePrune(ts: seq<real>, c: real, d: real)
    requires c <= d
    ensures Prune(Prune(ts, c), d) == Prune(ts, d)
  {
    if ts != [] {
      var n := |ts| - 1;
      PrunePrune(ts[..n], c, d);
      if ts[n] > c {
        PruneAppend(Prune(ts[..n], c), ts[n], d);
      }
    }
  }

  lemma PruneAppend(ts: seq<real>, t: real, c: real)
    ensures Prune(ts + [t], c) == if t > c then Prune(ts, c) + [t] else Prune(ts, c)
  {
    assert (ts + [t])[..|ts|] == ts;
  }

  ghost predicate AllUpTo(ts: seq<real>, now: real) {
    forall i :: 0 <= i < |ts| ==> ts[i] <= now
  }

  lemma PruneAgain(history: seq<real>, c: real, d: real)
    requires history != [] ==> c <= d
    ensures Prune(Prune(history, c), d) == Prune(history, d)
  {
    if history != [] {
      PrunePrune(history, c, d);
    }
  }

  /** The pruned list is the full history cut at the last cutoff; nothing in the history is later than the clock. */
  ghost predicate Agrees(data: Table, key: string, history: seq<real>, cutoff: real, now: real, w: real) {
    && Stored(data, key) == Prune(history, cutoff)
    && AllUpTo(history, now)
    && (history != [] ==> cutoff <= now - w)
  }

  lemma RequestAgrees(data: Table, key: string, limit: Limit, history: seq<real>, cutoff: real, now: real)
    requires Agrees(data, key, history, cutoff, now, limit.window) && limit.window > 0.0
    ensures var next := if Admits(data, key, limit, now) then history + [now] else history;
            Agrees(AfterRequest(data, key, limit, now), key, next, now - limit.window, now, limit.window)
    ensures Agrees(AfterRemaining(data, key, limit, now), key, history, now - limit.window, now, limit.window)
  {
    PruneAgain(history, cutoff, now - limit.window);
    PruneAppend(history, now, now - limit.window);
  }

  lemma OtherKeyAgrees(data: Table, op: Op, limits: Limits, key: string, history: seq<real>, cutoff: real,
                       now: real, later: real)
    requires op.key != key && now <= later && Agrees(data, key, history, cutoff, now, limits(key).window)
    ensures Agrees(Apply(data, op, limits), key, history, cutoff, later, limits(key).window)
  {}

  lemma ResetAgrees(data: Table, key: string, cutoff: real, now: real, w: real)
    ensures Agrees(data - {key}, key, [], cutoff, now, w)
  {}

  lemma {:induction false} ListIsHistory(ops: seq<Op>, limits: Limits, key: string, now: real)
    requires Clocked(ops, now) && limits(key).window > 0.0
    ensures Agrees(Run(ops, limits), key, Admitted(ops, limits, key), Cutoff(ops, limits, key), now, limits(key).window)
  {
    if ops != [] {
      var rest, op := ops[..|ops| - 1], ops[|ops| - 1];
      var data, history, cutoff := Run(rest, limits), Admitted(rest, limits, key), Cutoff(rest, limits, key);
      var clock := if op.Reset? then now else op.now;
      ListIsHistory(rest, limits, key, clock);
      if op.key != key {
        OtherKeyAgrees(data, op, limits, key, history, cutoff, clock, now);
      } else if op.Reset? {
        ResetAgrees(data, key, cutoff, now, limits(key).window);
      } else {
        RequestAgrees(data, key, limits(key), history, cutoff, clock);
      }
    }
  }

  /** The admissions in the window (t - w, t]. */
  function InWindow(ts: seq<real>, w: real, t: real): seq<real> {
    if ts == [] then []
    else
      var n := |ts| - 1;
      if t - w < ts[n] <= t then InWindow(ts[..n], w, t) + [ts[n]] else InWindow(ts[..n], w, t)
  }

  lemma {:induction false} WindowIsPrune(ts: seq<real>, w: real, t: real)
    requires AllUpTo(ts, t)
    ensures InWindow(ts, w, t) == Prune(ts, t - w)
  {
    if ts != [] {
      WindowIsPrune(ts[..|ts| - 1], w, t);
    }
  }

  lemma PrunedAdmits(data: Table, key: string, limit: Limit, history: seq<real>, cutoff: real, now: real)
    requires Agrees(data, key, history, cutoff, now, limit.window)
    ensures Admits(data, key, limit, now) <==> |Prune(history, now - limit.window)| < limit.requests
  {
    PruneAgain(history, cutoff, now - limit.window);
  }

  lemma AdmitsIfAgrees(ops: seq<Op>, limits: Limits, key: string, now: real, data: Table, history: seq<real>,
                       cutoff: real, limit: Limit)
    requires Clocked(ops, now) && limit == limits(key) && limit.window > 0.0
    requires data == Run(ops, limits) && history == Admitted(ops, limits, key) && cutoff == Cutoff(ops, limits, key)
    ensures Admits(data, key, limit, now) <==> |Prune(history, now - limit.window)| < limit.requests
  {
    ListIsHistory(ops, limits, key, now);
    PrunedAdmits(data, key, limit, history, cutoff, now);
  }

  lemma AdmitsByHistory(ops: seq<Op>, limits: Limits, key: string, now: real)
    requires Clocked(ops, now) && limits(key).window > 0.0
    ensures Admits(Run(ops, limits), key, limits(key), now)
       <==> |Prune(Admitted(ops, limits, key), now - limits(key).window)| < limits(key).requests
  {
    AdmitsIfAgrees(ops, limits, key, now, Run(ops, limits), Admitted(ops, limits, key), Cutoff(ops, limits, key),
                   limits(key));
  }

  lemma HistoryIsPast(ops: seq<Op>, limits: Limits, key: string, now: real)
    requires Clocked(ops, now) && limits(key).window > 0.0
    ensures AllUpTo(Admitted(ops, limits, key), now)
  {
    ListIsHistory(ops, limits, key, now);
  }

  /** A request is refused only when its window in the full history is already full, and admitted otherwise. */
  lemma RefusedOnlyWhenFull(ops: seq<Op>, limits: Limits, key: string, now: real)
    requires Clocked(ops, now) && limits(key).window > 0.0
    ensures Admits(Run(ops, limits), key, limits(key), now)
       <==> |InWindow(Admitted(ops, limits, key), limits(key).window, now)| < limits(key).requests
  {
    AdmitsByHistory(ops, limits, key, now);
    HistoryIsPast(ops, limits, key, now);
    WindowIsPrune(Admitted(ops, limits, key), limits(key).window, now);
  }

  /** Sliding the window to a later end over a history that ends by `now` loses admissions and gains none. */
  lemma {:induction false} LaterWindow(ts: seq<real>, w: real, now: real, t: real)
    requires AllUpTo(ts, now) && now <= t
    ensures |InWindow(ts, w, t)| <= |InWindow(ts, w, now)|
  {
    if ts != [] {
      LaterWindow(ts[..|ts| - 1], w, now, t);
    }
  }

  lemma WindowAppend(ts: seq<real>, a: real, w: real, t: real)
    ensures InWindow(ts + [a], w, t) == if t - w < a <= t then InWindow(ts, w, t) + [a] else InWindow(ts, w, t)
  {
    assert (ts + [a])[..|ts|] == ts;
  }

  /** No window, ending anywhere, ever holds more admissions than the limit. */
  lemma {:induction false} NeverExceeded(ops: seq<Op>, limits: Limits, key: string, now: real, t: real)
    requires Clocked(ops, now) && limits(key).window > 0.0
    ensures |InWindow(Admitted(ops, limits, key), limits(key).window, t)| <= limits(key).requests
  {
    if ops != [] {
      var rest, op := ops[..|ops| - 1], ops[|ops| - 1];
      var clock := if op.Reset? then now else op.now;
      NeverExceeded(rest, limits, key, clock, t);
      if op.key == key && op.Request? && Admits(Run(rest, limits), key, limits(key), op.now) {
        var history, w := Admitted(rest, limits, key), limits(key).window;
        RefusedOnlyWhenFull(rest, limits, key, op.now);
        WindowAppend(history, op.now, w, t);
        if t >= op.now {
          ListIsHistory(rest, limits, key, op.now);
          LaterWindow(history, w, op.now, t);
        }
      }
    }
  }

  lemma {:induction false} PruneMembers(ts: seq<real>, c: real)
    ensures forall x :: x in Prune(ts, c) <==> x in ts && x > c
  {
    if ts != [] {
      var n := |ts| - 1;
      PruneMembers(ts[..n], c);
      assert ts == ts[..n] + [ts[n]];
    }
  }

  lemma {:induction false} PruneDrops(ts: seq<real>, c: real, x: real)
    requires x in ts && x <= c
    ensures |Prune(ts, c)| < |ts|
  {
    var n := |ts| - 1;
    PruneSize(ts[..n], c);
    if ts[n] > c {
      assert x in ts[..n];
      PruneDrops(ts[..n], c, x);
    }
  }

  lemma {:induction false} PruneSize(ts: seq<real>, c: real)
    ensures |Prune(ts, c)| <= |ts|
  {
    if ts != [] { PruneSize(ts[..|ts| - 1], c); }
  }

  /** The advice is long enough: it is at least a second, and by then the oldest timestamp has left the window. */
  lemma WaitedLongEnough(ts: seq<real>, w: real, now: real, t: real)
    requires t >= now + ResetIn(ts, w, now) as real
    ensures t >= now + 1.0 && (ts != [] ==> Oldest(ts) <= t - w)
  {
    if ts != [] {
      TruncateBelow(Oldest(ts) + w - now);
    }
  }

  lemma TruncateBelow(x: real)
    ensures (Truncate(x) + 1) as real >= x
  {}

  lemma PruneDropsOldest(ts: seq<real>, c: real)
    requires ts != [] ==> Oldest(ts) <= c
    ensures ts != [] ==> |Prune(ts, c)| < |ts|
    ensures ts == [] ==> Prune(ts, c) == []
  {
    if ts != [] {
      OldestIsLeast(ts);
      PruneDrops(ts, c, Oldest(ts));
    }
  }

  /** Once the oldest of a window of at most the limit has left, the window is not full. */
  lemma WindowDrains(history: seq<real>, limit: nat, left: seq<real>, c: real, d: real)
    requires c <= d && limit > 0 && left == Prune(history, c) && |left| <= limit
    requires left != [] ==> Oldest(left) <= d
    ensures |Prune(history, d)| < limit
  {
    PrunePrune(history, c, d);
    PruneDropsOldest(left, d);
  }

  /** Admission at `now`, in terms of a history cut at the window's start. */
  lemma PrunedCount(ops: seq<Op>, limits: Limits, key: string, now: real, history: seq<real>, kept: seq<real>)
    requires Clocked(ops, now) && limits(key).window > 0.0
    requires history == Admitted(ops, limits, key) && kept == Prune(history, now - limits(key).window)
    ensures |kept| <= limits(key).requests
    ensures Admits(Run(ops, limits), key, limits(key), now) <==> |kept| < limits(key).requests
  {
    ListIsHistory(ops, limits, key, now);
    WindowIsPrune(history, limits(key).window, now);
    NeverExceeded(ops, limits, key, now, now);
    RefusedOnlyWhenFull(ops, limits, key, now);
  }

  lemma AdmittedOnceDrained(more: seq<Op>, limits: Limits, key: string, now: real, t: real, left: seq<real>)
    requires Clocked(more, t) && limits(key).window > 0.0 && now <= t
    requires left == Prune(Admitted(more, limits, key), now - limits(key).window)
    requires |left| <= limits(key).requests && limits(key).requests > 0
    requires left != [] ==> Oldest(left) <= t - limits(key).window
    ensures Admits(Run(more, limits), key, limits(key), t)
  {
    var history, w := Admitted(more, limits, key), limits(key).window;
    var kept := Prune(history, t - w);
    WindowDrains(history, limits(key).requests, left, now - w, t - w);
    PrunedCount(more, limits, key, t, history, kept);
  }

  /**
   Retry-after. A refused caller is told to wait `ResetIn` of the list as `check` left it at `now2`, measured at
   `now3`. A request of the same key at least that much later is admitted, provided nothing was admitted meanwhile.
   */
  lemma RetryAfter(ops: seq<Op>, more: seq<Op>, limits: Limits, key: string, now2: real, now3: real, t: real)
    requires Clocked(ops, now2) && now2 <= now3 && limits(key).window > 0.0 && limits(key).requests > 0
    requires Clocked(more, t) && Admitted(more, limits, key) == Admitted(ops, limits, key)
    requires var left := Prune(Admitted(ops, limits, key), now2 - limits(key).window);
             t >= now3 + ResetIn(left, limits(key).window, now3) as real
    ensures Admits(Run(more, limits), key, limits(key), t)
  {
    var left := Prune(Admitted(ops, limits, key), now2 - limits(key).window);
    PrunedCount(ops, limits, key, now2, Admitted(ops, limits, key), left);
    WaitedLongEnough(left, limits(key).window, now3, t);
    AdmittedOnceDrained(more, limits, key, now2, t, left);
  }

  /**
   The advice is not longer than it has to be: measured from the least timestamp it is the first whole second after
   that has left the window, and one second when it is due already. Without timestamps it is the window.
   */
  lemma AdviceExactly(ts: seq<real>, w: real, now: real)
    requires w >= 1.0
    ensures ts == [] ==> ResetIn(ts, w, now) == w.Floor
    ensures ts != [] ==>
              exists least :: least in ts && (forall t :: t in ts ==> least <= t)
                && (if least + w < now then ResetIn(ts, w, now) == 1
                    else least + w - now < ResetIn(ts, w, now) as real <= least + w - now + 1.0)
  {
    if ts != [] {
      OldestIsLeast(ts);
      var least := Oldest(ts);
      forall t | t in ts ensures least <= t {
        var i :| 0 <= i < |ts| && ts[i] == t;
      }
      TruncateIs(least + w - now);
    }
  }

  lemma TruncateIs(x: real)
    ensures x >= 0.0 ==> x - 1.0 < Truncate(x) as real <= x
    ensures x < 0.0 ==> Truncate(x) <= 0
  {}

  /** What `remaining` answers is the room that the full history leaves in the window. */
  lemma RemainingIsRoom(ops: seq<Op>, limits: Limits, key: string, now: real)
    requires Clocked(ops, now) && limits(key).window > 0.0
    ensures LeftAfter(AfterRemaining(Run(ops, limits), key, limits(key), now), key, limits(key))
         == limits(key).requests - |InWindow(Admitted(ops, limits, key), limits(key).window, now)|
  {
    ListIsHistory(ops, limits, key, now);
    NeverExceeded(ops, limits, key, now, now);
    RoomLeft(Run(ops, limits), key, limits(key), Admitted(ops, limits, key), Cutoff(ops, limits, key), now);
  }

  lemma RoomLeft(data: Table, key: string, limit: Limit, history: seq<real>, cutoff: real, now: real)
    requires Agrees(data, key, history, cutoff, now, limit.window)
    requires |InWindow(history, limit.window, now)| <= limit.requests
    ensures LeftAfter(AfterRemaining(data, key, limit, now), key, limit)
         == limit.requests - |InWindow(history, limit.window, now)|
  {
    PruneAgain(history, cutoff, now - limit.window);
    WindowIsPrune(history, limit.window, now);
  }
}
