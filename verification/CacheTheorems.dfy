/**
 Theorems over runs of the cache: the LRU inclusion property across
 capacities, agreement with an unbounded map, and exact LRU survival.
 */
module CacheTheorems {
  import opened Wrappers
  import opened MemoryCache

  // ------------------------------------------------------------------------
  // Inclusion
  // ------------------------------------------------------------------------

  /** The entries whose key is in `keys`, in the same recency order. */
  ghost function Restrict<V>(es: seq<Entry<V>>, keys: set<string>): seq<Entry<V>> {
    if es == [] then []
    else if es[0].key in keys then [es[0]] + Restrict(es[1..], keys)
    else Restrict(es[1..], keys)
  }

  /**
   `small` holds a subset of the keys of `large`, with the same values and expiries, in the same recency order; and
   `large` is ahead by no more than the difference of the capacities.
   */
  ghost predicate Included<V>(small: seq<Entry<V>>, large: seq<Entry<V>>, k: nat, K: nat) {
    && Unique(small) && Unique(large)
    && |small| <= k && |large| <= K && |large| - |small| <= K - k
    && Keys(small) <= Keys(large)
    && small == Restrict(large, Keys(small))
  }

  lemma {:induction false} RestrictConcat<V>(a: seq<Entry<V>>, b: seq<Entry<V>>, keys: set<string>)
    ensures Restrict(a + b, keys) == Restrict(a, keys) + Restrict(b, keys)
  {
    if a == [] {
      assert a + b == b;
    } else {
      assert (a + b)[1..] == a[1..] + b;
      RestrictConcat(a[1..], b, keys);
    }
  }

  lemma {:induction false} RestrictRemove<V>(es: seq<Entry<V>>, keys: set<string>, key: string)
    ensures Restrict(Remove(es, key), keys) == Remove(Restrict(es, keys), key)
    ensures Restrict(es, keys - {key}) == Remove(Restrict(es, keys), key)
  {
    if es != [] {
      RestrictRemove(es[1..], keys, key);
      if es[0].key != key {
        assert Remove(es, key)[1..] == Remove(es[1..], key);
      }
      if es[0].key in keys {
        assert Restrict(es, keys)[1..] == Restrict(es[1..], keys);
      }
    }
  }

  lemma {:induction false} RestrictLarger<V>(es: seq<Entry<V>>, keys: set<string>, key: string)
    requires key !in Keys(es)
    ensures Restrict(es, keys + {key}) == Restrict(es, keys)
  {
    if es != [] {
      RestrictLarger(es[1..], keys, key);
    }
  }

  lemma {:induction false} RestrictFinds<V>(es: seq<Entry<V>>, keys: set<string>, key: string)
    requires key in keys
    ensures Find(Restrict(es, keys), key) == Find(es, key)
  {
    if es != [] {
      RestrictFinds(es[1..], keys, key);
      if es[0].key in keys {
        assert Restrict(es, keys)[1..] == Restrict(es[1..], keys);
      }
    }
  }

  /** A key the small cache holds is found in both, with the same entry. */
  lemma IncludedFinds<V>(small: seq<Entry<V>>, large: seq<Entry<V>>, k: nat, K: nat, key: string)
    requires Included(small, large, k, K)
    ensures Find(small, key).Some? ==> Find(large, key) == Find(small, key)
  {
    if key in Keys(small) {
      RestrictFinds(large, Keys(small), key);
    }
  }

  lemma RemoveKeepsInclusion<V>(small: seq<Entry<V>>, large: seq<Entry<V>>, k: nat, K: nat, key: string)
    requires Included(small, large, k, K)
    ensures Included(Remove(small, key), Remove(large, key), k, K)
  {
    RemoveFacts(small, key);
    RemoveFacts(large, key);
    RestrictRemove(large, Keys(small), key);
    RestrictRemove(large, Keys(small) - {key}, key);
    RemoveFacts(Remove(small, key), key);
    RemoveShrinks(small, key);
    RemoveShrinks(large, key);
  }

  lemma RemoveShrinks<V>(es: seq<Entry<V>>, key: string)
    requires Unique(es)
    ensures |Remove(es, key)| == if key in Keys(es) then |es| - 1 else |es|
  {
    RemoveFacts(es, key);
  }

  /** Touching the same entry in both, before any eviction. */
  lemma TouchKeepsInclusion<V>(small: seq<Entry<V>>, large: seq<Entry<V>>, k: nat, K: nat, e: Entry<V>)
    requires Included(small, large, k, K)
    ensures var s, l := Touch(small, e), Touch(large, e);
            && Keys(s) <= Keys(l) && s == Restrict(l, Keys(s)) && Unique(s) && Unique(l)
            && |l| - |s| <= K - k && |s| <= k + 1 && |l| <= K + 1
  {
    RemoveKeepsInclusion(small, large, k, K, e.key);
    TouchFacts(small, e);
    TouchFacts(large, e);
    RemoveFacts(small, e.key);
    RemoveFacts(large, e.key);
    var s, l := Remove(small, e.key), Remove(large, e.key);
    var keys := Keys(Touch(small, e));
    RestrictConcat(l, [e], keys);
    RestrictLarger(l, Keys(s), e.key);
    assert keys == Keys(s) + {e.key};
    assert Restrict([e], keys) == [e] by { assert [e][1..] == []; }
  }

  /** A hit in the large cache alone only moves an entry the small one does not have. */
  lemma LargeOnlyKeepsInclusion<V>(small: seq<Entry<V>>, large: seq<Entry<V>>, k: nat, K: nat, e: Entry<V>)
    requires Included(small, large, k, K) && e.key in Keys(large) && e.key !in Keys(small)
    ensures Included(small, Touch(large, e), k, K)
    ensures Included(small, Remove(large, e.key), k, K)
  {
    RemoveFacts(large, e.key);
    TouchFacts(large, e);
    RestrictRemove(large, Keys(small), e.key);
    RemoveFacts(small, e.key);
    RestrictConcat(Remove(large, e.key), [e], Keys(small));
    assert Restrict([e], Keys(small)) == [] by { assert [e][1..] == []; }
    assert small == Restrict(large, Keys(small));
  }

  lemma DropHead<V>(es: seq<Entry<V>>)
    requires Unique(es) && es != []
    ensures Remove(es, es[0].key) == es[1..]
  {
    RemoveFacts(es[1..], es[0].key);
  }

  lemma TrimOne<V>(es: seq<Entry<V>>, maxSize: nat)
    requires |es| <= maxSize + 1
    ensures Trim(es, maxSize) == if |es| > maxSize then es[1..] else es
  {}

  /** Evictions: the large cache never evicts a key that the small one keeps. */
  lemma TrimKeepsInclusion<V>(s: seq<Entry<V>>, l: seq<Entry<V>>, k: nat, K: nat)
    requires Keys(s) <= Keys(l) && s == Restrict(l, Keys(s)) && Unique(s) && Unique(l)
    requires |l| - |s| <= K - k && |s| <= k + 1 && |l| <= K + 1
    ensures Included(Trim(s, k), Trim(l, K), k, K)
  {
    TrimOne(s, k);
    TrimOne(l, K);
    var s', l' := Trim(s, k), Trim(l, K);
    if |s| > k {
      DropHead(s);
      RemoveFacts(s, s[0].key);
      RestrictRemove(l, Keys(s), s[0].key);
      assert s' == Restrict(l, Keys(s'));
    }
    if |l| > K {
      // The evicted key is the head of `l`; if `s` had it, it was its head too, and `s` was over capacity.
      DropHead(l);
      RemoveFacts(l, l[0].key);
      assert l[0].key in Keys(s) ==> s[0] == l[0];
      RestrictRemove(l, Keys(s'), l[0].key);
      RemoveFacts(s', l[0].key);
    }
  }

  lemma SetKeepsInclusion<V>(small: seq<Entry<V>>, large: seq<Entry<V>>, k: nat, K: nat, e: Entry<V>)
    requires Included(small, large, k, K)
    ensures Included(Trim(Touch(small, e), k), Trim(Touch(large, e), K), k, K)
  {
    TouchKeepsInclusion(small, large, k, K, e);
    TrimKeepsInclusion(Touch(small, e), Touch(large, e), k, K);
  }

  lemma GetKeepsInclusion<V>(small: seq<Entry<V>>, large: seq<Entry<V>>, k: nat, K: nat, key: string, now: real)
    requires Included(small, large, k, K)
    ensures Included(AfterGet(small, key, now), AfterGet(large, key, now), k, K)
    ensures Lookup(small, key, now).Some? ==> Lookup(large, key, now) == Lookup(small, key, now)
  {
    IncludedFinds(small, large, k, K, key);
    if Find(large, key).Some? {
      var e := Find(large, key).value;
      if key in Keys(small) {
        RemoveKeepsInclusion(small, large, k, K, key);
        TouchKeepsInclusion(small, large, k, K, e);
        TouchFacts(small, e);
        TouchFacts(large, e);
      } else {
        LargeOnlyKeepsInclusion(small, large, k, K, e);
      }
    }
  }

  /** One operation keeps inclusion, and a hit in the small cache is the same hit in the large one. */
  lemma StepKeepsInclusion<V>(small: seq<Entry<V>>, large: seq<Entry<V>>, k: nat, K: nat, op: Op<V>, ttl: real)
    requires k <= K && Included(small, large, k, K)
    ensures Included(Apply(small, op, k, ttl), Apply(large, op, K, ttl), k, K)
    ensures op.Get? && Lookup(small, op.key, op.now).Some? ==>
              Lookup(large, op.key, op.now) == Lookup(small, op.key, op.now)
  {
    if op.Get? {
      GetKeepsInclusion(small, large, k, K, op.key, op.now);
    } else if op.Set? {
      SetKeepsInclusion(small, large, k, K, Entry(op.key, op.now + ttl, op.value));
    } else if op.Delete? {
      RemoveKeepsInclusion(small, large, k, K, op.key);
    }
  }

  /** LRU inclusion: the same operations, under any clock, on caches of capacity k <= K. */
  lemma {:induction false} LruInclusion<V>(ops: seq<Op<V>>, k: nat, K: nat, ttl: real)
    requires k <= K
    ensures Included(Run([], ops, k, ttl), Run([], ops, K, ttl), k, K)
  {
    if ops != [] {
      var rest := ops[..|ops| - 1];
      LruInclusion(rest, k, K, ttl);
      StepKeepsInclusion(Run([], rest, k, ttl), Run([], rest, K, ttl), k, K, ops[|ops| - 1], ttl);
    }
  }

  // ------------------------------------------------------------------------
  // Agreement with an unbounded map
  // ------------------------------------------------------------------------

  datatype Stored<+V> = Stored(expires: real, value: V)

  /** What an unbounded map, never evicting and never expiring, holds after the operations. */
  function Latest<V>(ops: seq<Op<V>>, ttl: real): map<string, Stored<V>> {
    if ops == [] then map[]
    else
      var m := Latest(ops[..|ops| - 1], ttl);
      match ops[|ops| - 1]
      case Get(_, _) => m
      case Set(key, value, now) => m[key := Stored(now + ttl, value)]
      case Delete(key) => m - {key}
      case Clear => map[]
  }

  lemma {:induction false} RemoveMembers<V>(es: seq<Entry<V>>, key: string)
    ensures forall e :: e in Remove(es, key) <==> e in es && e.key != key
  {
    if es != [] {
      RemoveMembers(es[1..], key);
      assert es == [es[0]] + es[1..];
    }
  }

  /** Every cached entry is the last one set for its key. */
  lemma {:induction false} CacheAgrees<V>(ops: seq<Op<V>>, maxSize: nat, ttl: real)
    ensures Unique(Run([], ops, maxSize, ttl)) && |Run([], ops, maxSize, ttl)| <= maxSize
    ensures forall e :: e in Run([], ops, maxSize, ttl) ==>
              e.key in Latest(ops, ttl) && Latest(ops, ttl)[e.key] == Stored(e.expires, e.value)
  {
    if ops != [] {
      var rest, op := ops[..|ops| - 1], ops[|ops| - 1];
      CacheAgrees(rest, maxSize, ttl);
      var es := Run([], rest, maxSize, ttl);
      ApplyIsValid(es, op, maxSize, ttl);
      forall e | e in Apply(es, op, maxSize, ttl)
        ensures e.key in Latest(ops, ttl) && Latest(ops, ttl)[e.key] == Stored(e.expires, e.value)
      {
        ApplyMember(es, op, maxSize, ttl, e);
      }
    }
  }

  /** An entry after an operation is the one it set, or was there before and is not about its key. */
  lemma ApplyMember<V>(es: seq<Entry<V>>, op: Op<V>, maxSize: nat, ttl: real, e: Entry<V>)
    requires e in Apply(es, op, maxSize, ttl)
    ensures !op.Clear?
    ensures e in es || (op.Set? && e == Entry(op.key, op.now + ttl, op.value))
    ensures (op.Set? && e != Entry(op.key, op.now + ttl, op.value)) || op.Delete? ==> e.key != op.key
  {
    if !op.Clear? {
      RemoveMembers(es, op.key);
      if op.Set? {
        var f := Entry(op.key, op.now + ttl, op.value);
        assert e in Touch(es, f);
        assert e in Remove(es, f.key) || e == f;
      } else if op.Get? && Find(es, op.key).Some? && e !in Remove(es, op.key) {
        assert e == Find(es, op.key).value;
      }
    }
  }

  /** A hit returns the unexpired value last set; nothing else is ever returned, and the size stays bounded. */
  lemma HitsAreLatest<V>(ops: seq<Op<V>>, maxSize: nat, ttl: real, key: string, now: real)
    ensures |Run([], ops, maxSize, ttl)| <= maxSize
    ensures var hit := Lookup(Run([], ops, maxSize, ttl), key, now);
            hit.Some? ==> && key in Latest(ops, ttl)
                          && Latest(ops, ttl)[key].value == hit.value && now <= Latest(ops, ttl)[key].expires
  {
    CacheAgrees(ops, maxSize, ttl);
  }

  // ------------------------------------------------------------------------
  // Survival
  // ------------------------------------------------------------------------

  /** The entries more recently used than `key`. */
  ghost function After<V>(es: seq<Entry<V>>, key: string): seq<Entry<V>> {
    if es == [] then [] else if es[0].key == key then es[1..] else After(es[1..], key)
  }

  /** The key an operation touches: one set, or one hit by a get. */
  function TouchedBy<V>(es: seq<Entry<V>>, op: Op<V>): set<string> {
    match op
    case Get(key, now) => if Lookup(es, key, now).Some? then {key} else {}
    case Set(key, _, _) => {key}
    case Delete(_) => {}
    case Clear => {}
  }

  /** The keys touched while `ops` runs from `es`. */
  ghost function Touched<V>(es: seq<Entry<V>>, ops: seq<Op<V>>, maxSize: nat, ttl: real): set<string> {
    if ops == [] then {}
    else
      var rest := ops[..|ops| - 1];
      Touched(es, rest, maxSize, ttl) + TouchedBy(Run(es, rest, maxSize, ttl), ops[|ops| - 1])
  }

  /** No operation is about `key`, and the cache is not cleared. */
  ghost predicate LeavesAlone<V>(ops: seq<Op<V>>, key: string) {
    forall i :: 0 <= i < |ops| ==> !ops[i].Clear? && ops[i].key != key
  }

  /** Nothing leaves the cache except by eviction: no delete, and no get finds an expired entry. */
  ghost predicate OnlyEvicts<V>(es: seq<Entry<V>>, ops: seq<Op<V>>, maxSize: nat, ttl: real) {
    ops == [] ||
    var rest, op := ops[..|ops| - 1], ops[|ops| - 1];
    && OnlyEvicts(es, rest, maxSize, ttl)
    && !op.Delete?
    && (op.Get? ==> var found := Find(Run(es, rest, maxSize, ttl), op.key);
                    found.Some? ==> op.now <= found.value.expires)
  }

  lemma {:induction false} AfterFacts<V>(es: seq<Entry<V>>, key: string)
    requires Unique(es) && key in Keys(es)
    ensures Unique(After(es, key)) && Keys(After(es, key)) <= Keys(es) - {key}
    ensures |After(es, key)| < |es|
    ensures |After(es, key)| == |es| - 1 <==> es[0].key == key
    ensures |Keys(After(es, key))| == |After(es, key)|
  {
    if es[0].key != key {
      AfterFacts(es[1..], key);
    } else {
      CountKeys(es[1..]);
    }
  }

  lemma {:induction false} CountKeys<V>(es: seq<Entry<V>>)
    requires Unique(es)
    ensures |Keys(es)| == |es|
  {
    if es != [] {
      CountKeys(es[1..]);
    }
  }

  lemma {:induction false} AfterRemove<V>(es: seq<Entry<V>>, key: string, other: string)
    requires key != other
    ensures After(Remove(es, other), key) == Remove(After(es, key), other)
    ensures Find(Remove(es, other), key) == Find(es, key)
  {
    if es != [] {
      AfterRemove(es[1..], key, other);
      if es[0].key != other {
        assert Remove(es, other)[1..] == Remove(es[1..], other);
      }
    }
  }

  lemma {:induction false} AfterAppend<V>(es: seq<Entry<V>>, key: string, e: Entry<V>)
    requires key in Keys(es) && e.key != key
    ensures After(es + [e], key) == After(es, key) + [e]
    ensures Find(es + [e], key) == Find(es, key)
  {
    assert (es + [e])[1..] == es[1..] + [e];
    if es[0].key != key {
      AfterAppend(es[1..], key, e);
    }
  }

  lemma AfterTouch<V>(es: seq<Entry<V>>, key: string, e: Entry<V>)
    requires Unique(es) && key in Keys(es) && e.key != key
    ensures After(Touch(es, e), key) == Touch(After(es, key), e)
    ensures Find(Touch(es, e), key) == Find(es, key)
    ensures Keys(After(Touch(es, e), key)) == Keys(After(es, key)) + {e.key}
  {
    AfterRemove(es, key, e.key);
    RemoveFacts(es, e.key);
    AfterAppend(Remove(es, e.key), key, e);
    TouchFacts(After(es, key), e);
  }

  /** The fate of `key`: still held, with everything more recent among `touched`; or gone, and enough was touched. */
  ghost predicate Fate<V>(es: seq<Entry<V>>, e: Entry<V>, touched: set<string>, maxSize: nat, exact: bool) {
    && Unique(es) && |es| <= maxSize
    && (e.key in Keys(es) ==>
          && Find(es, e.key) == Some(e)
          && Keys(After(es, e.key)) <= touched
          && (exact ==> Keys(After(es, e.key)) == touched))
    && (e.key !in Keys(es) ==> |touched| >= maxSize)
  }

  lemma SubsetSize(a: set<string>, b: set<string>)
    requires a <= b
    ensures |a| <= |b|
  {
    if a != {} {
      var x :| x in a;
      SubsetSize(a - {x}, b - {x});
    }
  }

  lemma SetStep<V>(es: seq<Entry<V>>, e: Entry<V>, touched: set<string>, maxSize: nat, exact: bool, f: Entry<V>)
    requires maxSize > 0 && Fate(es, e, touched, maxSize, exact) && f.key != e.key
    ensures Fate(Trim(Touch(es, f), maxSize), e, touched + {f.key}, maxSize, exact)
  {
    var full := Touch(es, f);
    TouchFacts(es, f);
    TrimOne(full, maxSize);
    SubsetSize(touched, touched + {f.key});
    if |full| > maxSize {
      DropIsUnique(full, 1);
    }
    if e.key in Keys(es) {
      AfterTouch(es, e.key, f);
      AfterFacts(full, e.key);
      if full[0].key == e.key && |full| > maxSize {
        SubsetSize(Keys(After(full, e.key)), touched + {f.key});
      }
    } else {
      assert e.key !in Keys(full);
    }
  }

  lemma ReadStep<V>(es: seq<Entry<V>>, e: Entry<V>, touched: set<string>, maxSize: nat, key: string, now: real,
                    exact: bool)
    requires maxSize > 0 && Fate(es, e, touched, maxSize, exact) && key != e.key
    requires exact && Find(es, key).Some? ==> now <= Find(es, key).value.expires
    ensures Fate(AfterGet(es, key, now), e, touched + TouchedBy(es, Op<V>.Get(key, now)), maxSize, exact)
  {
    if Find(es, key).Some? {
      var f := Find(es, key).value;
      if now > f.expires {
        RemoveStep(es, e, touched, maxSize, key);
      } else {
        TouchFacts(es, f);
        SetStep(es, e, touched, maxSize, exact, f);
      }
    }
  }

  lemma FateStep<V>(es: seq<Entry<V>>, e: Entry<V>, touched: set<string>, maxSize: nat, ttl: real, op: Op<V>,
                    exact: bool)
    requires maxSize > 0 && Fate(es, e, touched, maxSize, exact) && !op.Clear? && op.key != e.key
    requires exact ==> !op.Delete?
    requires exact && op.Get? && Find(es, op.key).Some? ==> op.now <= Find(es, op.key).value.expires
    ensures Fate(Apply(es, op, maxSize, ttl), e, touched + TouchedBy(es, op), maxSize, exact)
  {
    match op
    case Set(key, value, now) => SetStep(es, e, touched, maxSize, exact, Entry(key, now + ttl, value));
    case Delete(key) => RemoveStep(es, e, touched, maxSize, key);
    case Get(key, now) => ReadStep(es, e, touched, maxSize, key, now, exact);
  }

  lemma RemoveStep<V>(es: seq<Entry<V>>, e: Entry<V>, touched: set<string>, maxSize: nat, key: string)
    requires Fate(es, e, touched, maxSize, false) && key != e.key
    ensures Fate(Remove(es, key), e, touched, maxSize, false)
  {
    RemoveFacts(es, key);
    AfterRemove(es, e.key, key);
    RemoveFacts(After(es, e.key), key);
  }

  lemma {:induction false} FateOfRun<V>(es: seq<Entry<V>>, e: Entry<V>, ops: seq<Op<V>>, maxSize: nat, ttl: real,
                                        exact: bool)
    requires maxSize > 0 && Fate(es, e, {}, maxSize, true) && LeavesAlone(ops, e.key)
    requires exact ==> OnlyEvicts(es, ops, maxSize, ttl)
    ensures Fate(Run(es, ops, maxSize, ttl), e, Touched(es, ops, maxSize, ttl), maxSize, exact)
  {
    if ops != [] {
      var rest, op := ops[..|ops| - 1], ops[|ops| - 1];
      FateOfRun(es, e, rest, maxSize, ttl, exact);
      FateStep(Run(es, rest, maxSize, ttl), e, Touched(es, rest, maxSize, ttl), maxSize, ttl, op, exact);
    }
  }

  /**
   LRU survival. Let `e` have just been touched in a valid cache and let the operations that follow leave its key alone.
   While fewer than `maxSize` distinct other keys are touched, `e` is still held unchanged, so a get before its expiry
   returns its value. When entries leave only by eviction that bound is exact: `e` survives if and only if fewer than
   `maxSize` other keys were touched.
   */
  lemma LruSurvival<V>(es: seq<Entry<V>>, e: Entry<V>, ops: seq<Op<V>>, maxSize: nat, ttl: real, now: real)
    requires maxSize > 0 && Unique(es) && |es| <= maxSize
    requires es != [] && es[|es| - 1] == e && LeavesAlone(ops, e.key)
    ensures |Touched(es, ops, maxSize, ttl)| < maxSize ==>
              && Find(Run(es, ops, maxSize, ttl), e.key) == Some(e)
              && (now <= e.expires ==> Lookup(Run(es, ops, maxSize, ttl), e.key, now) == Some(e.value))
    ensures OnlyEvicts(es, ops, maxSize, ttl) ==>
              (e.key in Keys(Run(es, ops, maxSize, ttl)) <==> |Touched(es, ops, maxSize, ttl)| < maxSize)
  {
    LastIsNewest(es);
    FateOfRun(es, e, ops, maxSize, ttl, false);
    if OnlyEvicts(es, ops, maxSize, ttl) {
      FateOfRun(es, e, ops, maxSize, ttl, true);
      var end := Run(es, ops, maxSize, ttl);
      if e.key in Keys(end) {
        AfterFacts(end, e.key);
      }
    }
  }

  lemma {:induction false} LastIsNewest<V>(es: seq<Entry<V>>)
    requires Unique(es) && es != []
    ensures var e := es[|es| - 1]; Find(es, e.key) == Some(e) && After(es, e.key) == []
  {
    if |es| > 1 {
      LastIsNewest(es[1..]);
    }
  }
}
