/**
 The pattern index over the memory cache in app/infra/kline_cache.py, in its
 in-memory mode: `set` records every key under its params key, `invalidate`
 deletes the keys recorded under matching params keys.
 */
module KlineCache {
  import opened Wrappers
  import Glob
  import MC = MemoryCache
  import CT = CacheTheorems

  type Index = map<string, set<string>>

  /** The cache contents and the index, as one value. */
  datatype State = State(entries: seq<MC.Entry<string>>, index: Index)

  /** `matches` is the compiled pattern, searched in a params key; None is a pattern that does not compile. */
  datatype Op = Get(key: string, now: real)
              | Set(key: string, payload: string, paramsKey: string, now: real)
              | Invalidate(matches: Option<string -> bool>)

  function Record(index: Index, paramsKey: string, key: string): Index {
    index[paramsKey := (if paramsKey in index then index[paramsKey] else {}) + {key}]
  }

  /** The keys recorded under the params keys that match. */
  function Recorded(index: Index, matches: string -> bool): set<string> {
    set p, k | p in index && matches(p) && k in index[p] :: k
  }

  /** The index without `keys`, and without params keys left empty. */
  function Prune(index: Index, keys: set<string>): Index {
    map p | p in index && index[p] - keys != {} :: index[p] - keys
  }

  function Without(es: seq<MC.Entry<string>>, keys: set<string>): seq<MC.Entry<string>> {
    if es == [] then []
    else if es[0].key in keys then Without(es[1..], keys)
    else [es[0]] + Without(es[1..], keys)
  }

  function Apply(s: State, op: Op, maxSize: nat, ttl: real): State {
    match op
    case Get(key, now) => s.(entries := MC.Apply(s.entries, MC.Get(key, now), maxSize, ttl))
    case Set(key, payload, paramsKey, now) =>
      State(MC.Apply(s.entries, MC.Set(key, payload, now), maxSize, ttl), Record(s.index, paramsKey, key))
    case Invalidate(matches) =>
      if matches.None? then s
      else
        var keys := Recorded(s.index, matches.value);
        State(Without(s.entries, keys), Prune(s.index, keys))
  }

  function Run(ops: seq<Op>, maxSize: nat, ttl: real): State {
    if ops == [] then State([], map[]) else Apply(Run(ops[..|ops| - 1], maxSize, ttl), ops[|ops| - 1], maxSize, ttl)
  }

  predicate IsRecorded(index: Index, key: string) {
    exists p :: p in index && key in index[p]
  }

  /** Every key the cache holds is recorded under some params key, and no params key is empty. */
  ghost predicate Indexed(s: State) {
    && (forall k :: k in MC.Keys(s.entries) ==> IsRecorded(s.index, k))
    && (forall p :: p in s.index ==> s.index[p] != {})
  }

  class Cache {
    const enabled: bool
    const memory: MC.Cache<string>
    var patternIndex: Index

    ghost function View(): State
      reads this, memory
    {
      State(memory.data, patternIndex)
    }

    ghost predicate Valid()
      reads this, memory
    {
      memory.Valid() && Indexed(View())
    }

    constructor (enabled: bool, ttlSeconds: real)
      ensures Valid() && View() == State([], map[]) && this.enabled == enabled && fresh(memory)
      ensures memory.maxSize == 256 && memory.ttlSeconds == ttlSeconds
    {
      this.enabled := enabled;
      this.memory := new MC.Cache(256, ttlSeconds);
      this.patternIndex := map[];
    }

    method Get(key: string, now: real) returns (payload: Option<string>)
      requires Valid()
      modifies memory
      ensures Valid()
      ensures View() == if enabled then Apply(old(View()), Op.Get(key, now), memory.maxSize, memory.ttlSeconds)
                        else old(View())
      ensures payload == if enabled then MC.Lookup(old(memory.data), key, now) else None
    {
      if !enabled {
        return None;
      }
      StepIsIndexed(View(), Op.Get(key, now), memory.maxSize, memory.ttlSeconds);
      payload := memory.Get(key, now);
    }

    method Set(key: string, payload: string, paramsKey: string, now: real)
      requires Valid()
      modifies this, memory
      ensures Valid()
      ensures View() == if enabled
                        then Apply(old(View()), Op.Set(key, payload, paramsKey, now), memory.maxSize, memory.ttlSeconds)
                        else old(View())
    {
      if !enabled {
        return;
      }
      StepIsIndexed(View(), Op.Set(key, payload, paramsKey, now), memory.maxSize, memory.ttlSeconds);
      memory.Set(key, payload, now);
      if paramsKey !in patternIndex {
        patternIndex := patternIndex[paramsKey := {}];
      }
      patternIndex := patternIndex[paramsKey := patternIndex[paramsKey] + {key}];
      assert View() == Apply(old(View()), Op.Set(key, payload, paramsKey, now), memory.maxSize, memory.ttlSeconds);
    }

    /** Returns the number of recorded keys, whether or not the cache still held them. */
    method Invalidate(pattern: string, engine: Option<string -> bool>) returns (count: nat)
      requires Valid()
      modifies this, memory
      ensures Valid()
      ensures View() == if enabled
                        then Apply(old(View()), Op.Invalidate(Glob.Compiled(pattern, engine)), memory.maxSize,
                                   memory.ttlSeconds)
                        else old(View())
      ensures var matches := Glob.Compiled(pattern, engine);
              count == if enabled && matches.Some? then |Recorded(old(patternIndex), matches.value)| else 0
    {
      var matches := Glob.Compiled(pattern, engine);
      if !enabled || matches.None? {
        return 0;
      }
      StepIsIndexed(View(), Op.Invalidate(matches), memory.maxSize, memory.ttlSeconds);
      var keysToDelete := CollectKeys(patternIndex, matches.value);
      DeleteAll(keysToDelete);
      patternIndex := PruneIndex(patternIndex, keysToDelete);
      return |keysToDelete|;
    }

    method DeleteAll(keys: set<string>)
      requires memory.Valid()
      modifies memory
      ensures memory.Valid() && memory.data == Without(old(memory.data), keys)
    {
      var todo := keys;
      ghost var done: set<string> := {};
      WithoutNone(memory.data);
      while todo != {}
        invariant memory.Valid() && done + todo == keys
        invariant memory.data == Without(old(memory.data), done)
        decreases |todo|
      {
        var key :| key in todo;
        WithoutOneMore(old(memory.data), done, key);
        MC.RemoveFacts(memory.data, key);
        var _ := memory.Delete(key);
        todo := todo - {key};
        done := done + {key};
      }
    }
  }

  /** The loop of `invalidate` that gathers the keys under matching params keys. */
  method CollectKeys(index: Index, matches: string -> bool) returns (keys: set<string>)
    ensures keys == Recorded(index, matches)
  {
    keys := {};
    var todo := index.Keys;
    while todo != {}
      invariant todo <= index.Keys
      invariant forall k :: k in keys <==> exists p :: p in index && p !in todo && matches(p) && k in index[p]
      decreases |todo|
    {
      var p :| p in todo;
      if matches(p) {
        keys := keys + index[p];
      }
      todo := todo - {p};
    }
  }

  /** The loop of `invalidate` that cleans up the index. */
  method PruneIndex(index: Index, keys: set<string>) returns (pruned: Index)
    ensures pruned == Prune(index, keys)
  {
    pruned := index;
    var todo := index.Keys;
    while todo != {}
      invariant todo <= index.Keys
      invariant forall p :: p in pruned <==> p in index && (p in todo || index[p] - keys != {})
      invariant forall p :: p in pruned ==> pruned[p] == if p in todo then index[p] else index[p] - keys
      decreases |todo|
    {
      var p :| p in todo;
      pruned := pruned[p := pruned[p] - keys];
      if pruned[p] == {} {
        pruned := pruned - {p};
      }
      todo := todo - {p};
    }
  }

  // ------------------------------------------------------------------------
  // Theorems
  // ------------------------------------------------------------------------

  lemma {:induction false} WithoutNone(es: seq<MC.Entry<string>>)
    ensures Without(es, {}) == es
  {
    if es != [] { WithoutNone(es[1..]); }
  }

  lemma {:induction false} WithoutOneMore(es: seq<MC.Entry<string>>, keys: set<string>, key: string)
    ensures Without(es, keys + {key}) == MC.Remove(Without(es, keys), key)
  {
    if es != [] {
      WithoutOneMore(es[1..], keys, key);
      if es[0].key !in keys {
        assert Without(es, keys)[1..] == Without(es[1..], keys);
      }
    }
  }

  lemma {:induction false} WithoutFacts(es: seq<MC.Entry<string>>, keys: set<string>)
    ensures MC.Keys(Without(es, keys)) == MC.Keys(es) - keys
    ensures MC.Unique(es) ==> MC.Unique(Without(es, keys))
    ensures |Without(es, keys)| <= |es|
    ensures forall k :: k !in keys ==> MC.Find(Without(es, keys), k) == MC.Find(es, k)
  {
    if es != [] {
      WithoutFacts(es[1..], keys);
      if es[0].key !in keys {
        assert Without(es, keys)[1..] == Without(es[1..], keys);
      }
    }
  }

  lemma ReadKeepsKeys(es: seq<MC.Entry<string>>, key: string, now: real)
    requires MC.Unique(es)
    ensures MC.Keys(MC.AfterGet(es, key, now)) <= MC.Keys(es)
  {
    MC.RemoveFacts(es, key);
    if MC.Find(es, key).Some? { MC.TouchFacts(es, MC.Find(es, key).value); }
  }

  lemma TrimKeepsKeys(full: seq<MC.Entry<string>>, maxSize: nat)
    requires MC.Unique(full)
    ensures MC.Keys(MC.Trim(full, maxSize)) <= MC.Keys(full)
  {
    if |full| > maxSize { MC.DropIsUnique(full, |full| - maxSize); }
  }

  lemma EvictionKeepsKeys(es: seq<MC.Entry<string>>, op: MC.Op<string>, maxSize: nat, ttl: real)
    requires MC.Unique(es)
    ensures MC.Keys(MC.Apply(es, op, maxSize, ttl)) <= MC.Keys(es) + (if op.Set? then {op.key} else {})
  {
    match op
    case Get(key, now) => ReadKeepsKeys(es, key, now);
    case Set(key, value, now) =>
      var entry := MC.Entry(key, now + ttl, value);
      MC.TouchFacts(es, entry);
      TrimKeepsKeys(MC.Touch(es, entry), maxSize);
    case Delete(key) => MC.RemoveFacts(es, key);
    case Clear =>
  }

  lemma RecordKeeps(index: Index, paramsKey: string, key: string)
    ensures IsRecorded(Record(index, paramsKey, key), key)
    ensures forall k :: IsRecorded(index, k) ==> IsRecorded(Record(index, paramsKey, key), k)
  {
    var next := Record(index, paramsKey, key);
    assert paramsKey in next && key in next[paramsKey];
    forall k | IsRecorded(index, k) ensures IsRecorded(next, k) {
      var p :| p in index && k in index[p];
      assert p in next && k in next[p];
    }
  }

  lemma PruneKeeps(index: Index, keys: set<string>, key: string)
    requires IsRecorded(index, key) && key !in keys
    ensures IsRecorded(Prune(index, keys), key)
  {
    var p :| p in index && key in index[p];
    assert key in index[p] - keys;
    assert p in Prune(index, keys);
  }

  lemma StepIsIndexed(s: State, op: Op, maxSize: nat, ttl: real)
    requires Indexed(s) && MC.Unique(s.entries) && |s.entries| <= maxSize
    ensures Indexed(Apply(s, op, maxSize, ttl))
    ensures MC.Unique(Apply(s, op, maxSize, ttl).entries) && |Apply(s, op, maxSize, ttl).entries| <= maxSize
  {
    match op
    case Get(key, now) =>
      EvictionKeepsKeys(s.entries, MC.Get(key, now), maxSize, ttl);
      MC.ApplyIsValid(s.entries, MC.Get(key, now), maxSize, ttl);
    case Set(key, payload, paramsKey, now) =>
      EvictionKeepsKeys(s.entries, MC.Set(key, payload, now), maxSize, ttl);
      MC.ApplyIsValid(s.entries, MC.Set(key, payload, now), maxSize, ttl);
      RecordKeeps(s.index, paramsKey, key);
    case Invalidate(matches) =>
      if matches.Some? {
        var keys := Recorded(s.index, matches.value);
        WithoutFacts(s.entries, keys);
        forall k | k in MC.Keys(Without(s.entries, keys)) ensures IsRecorded(Prune(s.index, keys), k) {
          PruneKeeps(s.index, keys, k);
        }
      }
  }

  /** Every key held by the cache is recorded, through every set, eviction, expiry and invalidation. */
  lemma {:induction false} IndexCoversCache(ops: seq<Op>, maxSize: nat, ttl: real)
    ensures Indexed(Run(ops, maxSize, ttl))
    ensures MC.Unique(Run(ops, maxSize, ttl).entries) && |Run(ops, maxSize, ttl).entries| <= maxSize
  {
    if ops != [] {
      IndexCoversCache(ops[..|ops| - 1], maxSize, ttl);
      StepIsIndexed(Run(ops[..|ops| - 1], maxSize, ttl), ops[|ops| - 1], maxSize, ttl);
    }
  }

  ghost predicate NoSetOf(ops: seq<Op>, key: string) {
    forall i :: 0 <= i < |ops| ==> !(ops[i].Set? && ops[i].key == key)
  }

  lemma RunNext(ops: seq<Op>, op: Op, maxSize: nat, ttl: real)
    ensures Run(ops + [op], maxSize, ttl) == Apply(Run(ops, maxSize, ttl), op, maxSize, ttl)
  {
    assert (ops + [op])[..|ops|] == ops;
  }

  /** A key the cache does not hold stays away until it is set again. */
  lemma {:induction false} GoneUntilSet(ops: seq<Op>, more: seq<Op>, key: string, maxSize: nat, ttl: real)
    requires key !in MC.Keys(Run(ops, maxSize, ttl).entries) && NoSetOf(more, key)
    ensures key !in MC.Keys(Run(ops + more, maxSize, ttl).entries)
  {
    if more == [] {
      assert ops + more == ops;
    } else {
      var rest, op := more[..|more| - 1], more[|more| - 1];
      var all, most := ops + more, ops + rest;
      GoneUntilSet(ops, rest, key, maxSize, ttl);
      assert all == most + [op];
      RunNext(most, op, maxSize, ttl);
      IndexCoversCache(most, maxSize, ttl);
      GoneStep(Run(most, maxSize, ttl), op, key, maxSize, ttl);
    }
  }

  lemma GoneStep(s: State, op: Op, key: string, maxSize: nat, ttl: real)
    requires key !in MC.Keys(s.entries) && MC.Unique(s.entries) && !(op.Set? && op.key == key)
    ensures key !in MC.Keys(Apply(s, op, maxSize, ttl).entries)
  {
    match op
    case Get(k, now) => EvictionKeepsKeys(s.entries, MC.Get(k, now), maxSize, ttl);
    case Set(k, payload, _, now) => EvictionKeepsKeys(s.entries, MC.Set(k, payload, now), maxSize, ttl);
    case Invalidate(matches) =>
      if matches.Some? { WithoutFacts(s.entries, Recorded(s.index, matches.value)); }
  }

  /**
   After `invalidate`, no key recorded under a matching params key is served until it is set again; every key recorded
   only under other params keys keeps its entry.
   */
  lemma InvalidateIsExact(ops: seq<Op>, matches: string -> bool, more: seq<Op>, key: string, now: real,
                          maxSize: nat, ttl: real)
    ensures var s, t := Run(ops, maxSize, ttl), Run(ops + [Invalidate(Some(matches))], maxSize, ttl);
            && (key in Recorded(s.index, matches) && NoSetOf(more, key) ==>
                  MC.Lookup(Run(ops + [Invalidate(Some(matches))] + more, maxSize, ttl).entries, key, now) == None)
            && (key !in Recorded(s.index, matches) ==> MC.Find(t.entries, key) == MC.Find(s.entries, key))
  {
    var op := Invalidate(Some(matches));
    var s := Run(ops, maxSize, ttl);
    assert (ops + [op])[..|ops|] == ops;
    WithoutFacts(s.entries, Recorded(s.index, matches));
    if key in Recorded(s.index, matches) && NoSetOf(more, key) {
      GoneUntilSet(ops + [op], more, key, maxSize, ttl);
    }
  }

  /** What `invalidate` takes out of the cache. */
  function Removed(s: State, matches: string -> bool): int {
    |s.entries| - |Without(s.entries, Recorded(s.index, matches))|
  }

  lemma SetDifferenceSize(held: set<string>, keys: set<string>)
    ensures |held| - |held - keys| <= |keys|
    ensures |held| - |held - keys| == |keys| <==> keys <= held
  {
    assert |held| == |held - keys| + |held * keys| by { assert held == (held - keys) + held * keys; }
    CT.SubsetSize(held * keys, keys);
    if |held * keys| == |keys| && !(keys <= held) {
      var k :| k in keys && k !in held;
      CT.SubsetSize(held * keys, keys - {k});
    }
    if keys <= held { assert held * keys == keys; }
  }

  /** The count `invalidate` returns is the number it removes iff every matching recorded key is still held. */
  lemma CountIsExact(ops: seq<Op>, matches: string -> bool, maxSize: nat, ttl: real)
    ensures var s := Run(ops, maxSize, ttl);
            var count := |Recorded(s.index, matches)|;
            && Removed(s, matches) <= count
            && (Removed(s, matches) == count <==> Recorded(s.index, matches) <= MC.Keys(s.entries))
  {
    var s := Run(ops, maxSize, ttl);
    var keys := Recorded(s.index, matches);
    IndexCoversCache(ops, maxSize, ttl);
    WithoutFacts(s.entries, keys);
    CT.CountKeys(s.entries);
    CT.CountKeys(Without(s.entries, keys));
    SetDifferenceSize(MC.Keys(s.entries), keys);
  }

  /** A key that expired at a read is recorded but gone: `invalidate` counts one and removes none. */
  lemma ExpiredIsCounted()
    ensures var s := Run([Set("k", "v", "p", 0.0), Get("k", 2.0)], 256, 1.0);
            |Recorded(s.index, _ => true)| == 1 && Removed(s, _ => true) == 0
  {
    var set_, all := Set("k", "v", "p", 0.0), (_: string) => true;
    assert [set_, Get("k", 2.0)][..1] == [set_] && [set_][..0] == [];
    var e := MC.Entry("k", 1.0, "v");
    assert MC.Touch([], e) == [e];
    var none: Index, noKeys: set<string> := map[], {};
    assert noKeys + {"k"} == {"k"};
    assert Record(none, "p", "k") == map["p" := {"k"}];
    assert Run([set_], 256, 1.0) == Apply(Run([], 256, 1.0), set_, 256, 1.0);
    assert Run([set_], 256, 1.0) == State([e], map["p" := {"k"}]);
    assert MC.Remove([e], "k") == [];
    var s := Run([set_, Get("k", 2.0)], 256, 1.0);
    assert s == State([], map["p" := {"k"}]);
    assert "k" in s.index["p"];
    assert Recorded(s.index, all) == {"k"};
  }
}
