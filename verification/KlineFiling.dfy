/**
 Under which params keys the kline cache finds a key again: those it was set
 under since it was last taken out.
 */
module KlineFiling {
  import opened Wrappers
  import MC = MemoryCache
  import Glob
  import opened KlineCache

  ghost predicate IndexHas(index: Index, pk: string, key: string) {
    pk in index && key in index[pk]
  }

  /** The key was set under the params key, and no invalidation has taken it out since. */
  ghost predicate Filed(ops: seq<Op>, key: string, pk: string) {
    if ops == [] then false
    else
      var rest, op := ops[..|ops| - 1], ops[|ops| - 1];
      if op.Set? then (op.key == key && op.paramsKey == pk) || Filed(rest, key, pk)
      else if op.Invalidate? && op.matches.Some? then
        Filed(rest, key, pk) && !(exists q :: op.matches.value(q) && Filed(rest, key, q))
      else Filed(rest, key, pk)
  }

  /** The operation, after these, takes the key out: it matches a params key the key is filed under. */
  ghost predicate Takes(ops: seq<Op>, op: Op, key: string) {
    op.Invalidate? && op.matches.Some? && exists q :: op.matches.value(q) && Filed(ops, key, q)
  }

  ghost predicate SetAndNotTaken(ops: seq<Op>, i: int, key: string, pk: string) {
    && 0 <= i < |ops| && ops[i].Set? && ops[i].key == key && ops[i].paramsKey == pk
    && forall j :: i < j < |ops| ==> !Takes(ops[..j], ops[j], key)
  }

  lemma {:induction false} FiledSince(ops: seq<Op>, key: string, pk: string)
    ensures Filed(ops, key, pk) <==> exists i :: SetAndNotTaken(ops, i, key, pk)
  {
    if ops != [] {
      var n := |ops| - 1;
      FiledSince(ops[..n], key, pk);
      forall j | 0 <= j < n ensures ops[..n][..j] == ops[..j] && ops[..n][j] == ops[j] {}
      if Filed(ops, key, pk) && Filed(ops[..n], key, pk) {
        var i :| SetAndNotTaken(ops[..n], i, key, pk);
        assert SetAndNotTaken(ops, i, key, pk);
      } else if Filed(ops, key, pk) {
        assert SetAndNotTaken(ops, n, key, pk);
      }
      if i :| SetAndNotTaken(ops, i, key, pk) && i < n {
        assert SetAndNotTaken(ops[..n], i, key, pk);
        assert !Takes(ops[..n], ops[n], key);
      }
    }
  }

  lemma StepFiles(s: State, op: Op, key: string, pk: string, maxSize: nat, ttl: real)
    ensures op.Get? ==> Apply(s, op, maxSize, ttl).index == s.index
    ensures op.Set? ==>
              (IndexHas(Apply(s, op, maxSize, ttl).index, pk, key) <==>
               (op.key == key && op.paramsKey == pk) || IndexHas(s.index, pk, key))
    ensures op.Invalidate? && op.matches.Some? ==>
              (IndexHas(Apply(s, op, maxSize, ttl).index, pk, key) <==>
               IndexHas(s.index, pk, key) && key !in Recorded(s.index, op.matches.value))
    ensures op.Invalidate? && op.matches.None? ==> Apply(s, op, maxSize, ttl) == s
  {
    if op.Invalidate? && op.matches.Some? {
      PruneHas(s.index, Recorded(s.index, op.matches.value), pk, key);
    }
  }

  lemma PruneHas(index: Index, keys: set<string>, pk: string, key: string)
    ensures IndexHas(Prune(index, keys), pk, key) <==> IndexHas(index, pk, key) && key !in keys
  {
    if IndexHas(index, pk, key) && key !in keys { assert key in index[pk] - keys; }
  }

  /** Over every run the index holds a key under exactly the params keys it is filed under. */
  lemma {:induction false} FiledExactly(ops: seq<Op>, key: string, maxSize: nat, ttl: real)
    ensures forall pk :: IndexHas(Run(ops, maxSize, ttl).index, pk, key) <==> Filed(ops, key, pk)
  {
    if ops != [] {
      var rest, op := ops[..|ops| - 1], ops[|ops| - 1];
      var s := Run(rest, maxSize, ttl);
      FiledExactly(rest, key, maxSize, ttl);
      if op.Invalidate? && op.matches.Some? { RecordedIs(s.index, op.matches.value, key); }
      forall pk ensures IndexHas(Run(ops, maxSize, ttl).index, pk, key) <==> Filed(ops, key, pk) {
        StepFiles(s, op, key, pk, maxSize, ttl);
      }
    }
  }

  lemma RecordedIs(index: Index, matches: string -> bool, key: string)
    ensures key in Recorded(index, matches) <==> exists pk :: matches(pk) && IndexHas(index, pk, key)
  {}

  /** An invalidation finds a key if and only if it was set under a matching params key and not taken out since. */
  lemma RecordedExactly(ops: seq<Op>, key: string, matches: string -> bool, maxSize: nat, ttl: real)
    ensures key in Recorded(Run(ops, maxSize, ttl).index, matches)
       <==> exists i, pk :: matches(pk) && SetAndNotTaken(ops, i, key, pk)
  {
    var index := Run(ops, maxSize, ttl).index;
    FiledExactly(ops, key, maxSize, ttl);
    RecordedIs(index, matches, key);
    if key in Recorded(index, matches) {
      var pk :| matches(pk) && IndexHas(index, pk, key);
      FiledSince(ops, key, pk);
    }
    if i, pk :| matches(pk) && SetAndNotTaken(ops, i, key, pk) {
      FiledSince(ops, key, pk);
      assert IndexHas(index, pk, key);
    }
  }

  /** A key under a params key in the index stays there until the cache has lost it. */
  lemma {:induction false} FiledWhileHeld(base: seq<Op>, more: seq<Op>, pk: string, key: string, maxSize: nat,
                                          ttl: real)
    requires IndexHas(Run(base, maxSize, ttl).index, pk, key) && NoSetOf(more, key)
    ensures var s := Run(base + more, maxSize, ttl);
            IndexHas(s.index, pk, key) || key !in MC.Keys(s.entries)
  {
    if more == [] {
      assert base + more == base;
    } else {
      var rest, op := more[..|more| - 1], more[|more| - 1];
      var all, most := base + more, base + rest;
      FiledWhileHeld(base, rest, pk, key, maxSize, ttl);
      assert all == most + [op];
      RunNext(most, op, maxSize, ttl);
      HeldStep(Run(most, maxSize, ttl), most, op, pk, key, maxSize, ttl);
    }
  }

  lemma HeldStep(s: State, ops: seq<Op>, op: Op, pk: string, key: string, maxSize: nat, ttl: real)
    requires s == Run(ops, maxSize, ttl) && !(op.Set? && op.key == key)
    requires IndexHas(s.index, pk, key) || key !in MC.Keys(s.entries)
    ensures var t := Apply(s, op, maxSize, ttl);
            IndexHas(t.index, pk, key) || key !in MC.Keys(t.entries)
  {
    IndexCoversCache(ops, maxSize, ttl);
    StepFiles(s, op, key, pk, maxSize, ttl);
    match op
    case Get(k, now) => EvictionKeepsKeys(s.entries, MC.Get(k, now), maxSize, ttl);
    case Set(k, payload, _, now) => EvictionKeepsKeys(s.entries, MC.Set(k, payload, now), maxSize, ttl);
    case Invalidate(matches) =>
      if matches.Some? { WithoutFacts(s.entries, Recorded(s.index, matches.value)); }
  }

  /**
   After a set of a key, an invalidation whose pattern finds the params key it was set under leaves no value for it,
   whatever other keys were set, read or invalidated in between.
   */
  lemma SetThenInvalidated(ops: seq<Op>, set_: Op, more: seq<Op>, matches: string -> bool, maxSize: nat, ttl: real)
    requires set_.Set? && NoSetOf(more, set_.key) && matches(set_.paramsKey)
    ensures var before := ops + [set_] + more;
            set_.key !in MC.Keys(Run(before + [Invalidate(Some(matches))], maxSize, ttl).entries)
  {
    var before := ops + [set_] + more;
    var s := Run(before, maxSize, ttl);
    assert (ops + [set_])[..|ops|] == ops;
    StepFiles(Run(ops, maxSize, ttl), set_, set_.key, set_.paramsKey, maxSize, ttl);
    FiledWhileHeld(ops + [set_], more, set_.paramsKey, set_.key, maxSize, ttl);
    assert (before + [Invalidate(Some(matches))])[..|before|] == before;
    WithoutFacts(s.entries, Recorded(s.index, matches));
    RecordedIs(s.index, matches, set_.key);
  }

  /** So a symbol's klines are dropped by its starred name, though the key itself does not mention it. */
  lemma SymbolIsInvalidated(key: string, payload: string, now: real, word: string, head: string, tail: string,
                            maxSize: nat, ttl: real)
    requires Glob.Plain("*" + word + "*") && '*' !in word && '?' !in word
    ensures var set_ := Set(key, payload, head + word + tail, now);
            var matches := Glob.Compiled("*" + word + "*", None);
            key !in MC.Keys(Run([set_, Invalidate(matches)], maxSize, ttl).entries)
  {
    var pattern := "*" + word + "*";
    var set_ := Set(key, payload, head + word + tail, now);
    var matches := Glob.Compiled(pattern, None);
    Glob.StarredFinds(word, head, tail);
    SetThenInvalidated([], set_, [], matches.value, maxSize, ttl);
    assert [] + [set_] + [] + [Invalidate(Some(matches.value))] == [set_, Invalidate(matches)];
  }
}
