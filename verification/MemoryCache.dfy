/**
 The bounded TTL and LRU cache of app/infra/memory_cache.py.

 The OrderedDict is a sequence of entries, least recently used first. The class
 methods are proved against functions on that sequence, and the theorems are
 about runs of those functions under any clock.
 */
module MemoryCache {
  import opened Wrappers

  datatype Entry<+V> = Entry(key: string, expires: real, value: V)

  ghost function Keys<V>(es: seq<Entry<V>>): set<string> {
    if es == [] then {} else {es[0].key} + Keys(es[1..])
  }

  /** No key twice: what makes the sequence a dictionary. */
  ghost predicate Unique<V>(es: seq<Entry<V>>) {
    es == [] || (es[0].key !in Keys(es[1..]) && Unique(es[1..]))
  }

  function Find<V>(es: seq<Entry<V>>, key: string): (r: Option<Entry<V>>)
    ensures r.Some? ==> r.value in es && r.value.key == key
    ensures r.Some? <==> key in Keys(es)
  {
    if es == [] then None else if es[0].key == key then Some(es[0]) else Find(es[1..], key)
  }

  function Remove<V>(es: seq<Entry<V>>, key: string): seq<Entry<V>> {
    if es == [] then []
    else if es[0].key == key then Remove(es[1..], key)
    else [es[0]] + Remove(es[1..], key)
  }

  /** Evicts from the least recently used end. */
  function Trim<V>(es: seq<Entry<V>>, maxSize: nat): seq<Entry<V>> {
    if |es| > maxSize then es[|es| - maxSize..] else es
  }

  datatype Op<+V> = Get(key: string, now: real) | Set(key: string, value: V, now: real) | Delete(key: string) | Clear

  function Touch<V>(es: seq<Entry<V>>, e: Entry<V>): seq<Entry<V>> {
    Remove(es, e.key) + [e]
  }

  function AfterGet<V>(es: seq<Entry<V>>, key: string, now: real): seq<Entry<V>> {
    match Find(es, key)
    case None => es
    case Some(e) => if now > e.expires then Remove(es, key) else Touch(es, e)
  }

  function Lookup<V>(es: seq<Entry<V>>, key: string, now: real): Option<V> {
    match Find(es, key)
    case None => None
    case Some(e) => if now > e.expires then None else Some(e.value)
  }

  function Apply<V>(es: seq<Entry<V>>, op: Op<V>, maxSize: nat, ttl: real): seq<Entry<V>> {
    match op
    case Get(key, now) => AfterGet(es, key, now)
    case Set(key, value, now) => Trim(Touch(es, Entry(key, now + ttl, value)), maxSize)
    case Delete(key) => Remove(es, key)
    case Clear => []
  }

  /** The cache after a sequence of operations. */
  function Run<V>(es: seq<Entry<V>>, ops: seq<Op<V>>, maxSize: nat, ttl: real): seq<Entry<V>> {
    if ops == [] then es else Apply(Run(es, ops[..|ops| - 1], maxSize, ttl), ops[|ops| - 1], maxSize, ttl)
  }

  class Cache<V> {
    const maxSize: nat
    const ttlSeconds: real
    var data: seq<Entry<V>>

    ghost predicate Valid()
      reads this
    {
      maxSize > 0 && |data| <= maxSize && Unique(data)
    }

    /** The original rejects a non-positive `max_size` with a ValueError. */
    constructor (maxSize: nat, ttlSeconds: real)
      requires maxSize > 0
      ensures Valid() && data == [] && this.maxSize == maxSize && this.ttlSeconds == ttlSeconds
    {
      this.maxSize, this.ttlSeconds, data := maxSize, ttlSeconds, [];
    }

    method Get(key: string, now: real) returns (value: Option<V>)
      requires Valid()
      modifies this
      ensures Valid() && data == Apply(old(data), Op.Get(key, now), maxSize, ttlSeconds)
      ensures value == Lookup(old(data), key, now)
    {
      ApplyIsValid(data, Op.Get(key, now), maxSize, ttlSeconds);
      var item := Find(data, key);
      if item.None? {
        return None;
      }
      if now > item.value.expires {
        data := Remove(data, key);
        return None;
      }
      // The entry becomes the newest.
      data := Remove(data, key) + [item.value];
      return Some(item.value.value);
    }

    method Set(key: string, value: V, now: real)
      requires Valid()
      modifies this
      ensures Valid() && data == Apply(old(data), Op.Set(key, value, now), maxSize, ttlSeconds)
    {
      ApplyIsValid(data, Op.Set(key, value, now), maxSize, ttlSeconds);
      data := Remove(data, key) + [Entry(key, now + ttlSeconds, value)];
      ghost var full := data;
      // Evict the oldest items if over capacity.
      while |data| > maxSize
        invariant |data| >= |full| || |data| >= maxSize
        invariant |data| <= |full| && data == full[|full| - |data|..]
        decreases |data|
      {
        data := data[1..];
      }
    }

    method Delete(key: string) returns (found: bool)
      requires Valid()
      modifies this
      ensures Valid() && data == Apply(old(data), Op.Delete(key), maxSize, ttlSeconds)
      ensures found <==> Find(old(data), key).Some?
    {
      ApplyIsValid(data, Op.Delete(key), maxSize, ttlSeconds);
      found := Find(data, key).Some?;
      if found {
        data := Remove(data, key);
      } else {
        RemoveFacts(data, key);
      }
    }

    method Clear()
      requires Valid()
      modifies this
      ensures Valid() && data == Apply(old(data), Op.Clear, maxSize, ttlSeconds)
    {
      data := [];
    }
  }

  // ------------------------------------------------------------------------
  // Removing and restricting
  // ------------------------------------------------------------------------

  lemma {:induction false} RemoveFacts<V>(es: seq<Entry<V>>, key: string)
    ensures Keys(Remove(es, key)) == Keys(es) - {key}
    ensures Unique(es) ==> Unique(Remove(es, key))
    ensures key !in Keys(es) ==> Remove(es, key) == es
    ensures Unique(es) && key in Keys(es) ==> |Remove(es, key)| == |es| - 1
  {
    if es != [] {
      RemoveFacts(es[1..], key);
      if es[0].key != key {
        assert Remove(es, key)[1..] == Remove(es[1..], key);
      }
    }
  }

  lemma {:induction false} RemoveConcat<V>(a: seq<Entry<V>>, b: seq<Entry<V>>, key: string)
    ensures Remove(a + b, key) == Remove(a, key) + Remove(b, key)
  {
    if a == [] {
      assert a + b == b;
    } else {
      assert (a + b)[1..] == a[1..] + b;
      RemoveConcat(a[1..], b, key);
    }
  }

  lemma {:induction false} AppendFacts<V>(es: seq<Entry<V>>, e: Entry<V>)
    ensures Keys(es + [e]) == Keys(es) + {e.key}
    ensures Unique(es) && e.key !in Keys(es) ==> Unique(es + [e])
  {
    if es != [] {
      assert (es + [e])[1..] == es[1..] + [e];
      AppendFacts(es[1..], e);
    }
  }

  lemma TouchFacts<V>(es: seq<Entry<V>>, e: Entry<V>)
    ensures Keys(Touch(es, e)) == Keys(es) + {e.key}
    ensures Unique(es) ==> Unique(Touch(es, e))
    ensures Unique(es) ==> |Touch(es, e)| == if e.key in Keys(es) then |es| else |es| + 1
  {
    RemoveFacts(es, e.key);
    AppendFacts(Remove(es, e.key), e);
  }

  lemma {:induction false} DropIsUnique<V>(es: seq<Entry<V>>, n: nat)
    requires Unique(es) && n <= |es|
    ensures Unique(es[n..]) && Keys(es[n..]) <= Keys(es)
  {
    if n > 0 {
      DropIsUnique(es[1..], n - 1);
      assert es[1..][n - 1..] == es[n..];
    }
  }

  lemma ApplyIsValid<V>(es: seq<Entry<V>>, op: Op<V>, maxSize: nat, ttl: real)
    requires Unique(es) && |es| <= maxSize
    ensures Unique(Apply(es, op, maxSize, ttl)) && |Apply(es, op, maxSize, ttl)| <= maxSize
  {
    match op
    case Get(key, now) =>
      RemoveFacts(es, key);
      if Find(es, key).Some? { TouchFacts(es, Find(es, key).value); }
    case Set(key, value, now) =>
      var full := Touch(es, Entry(key, now + ttl, value));
      TouchFacts(es, Entry(key, now + ttl, value));
      if |full| > maxSize { DropIsUnique(full, |full| - maxSize); }
    case Delete(key) =>
      RemoveFacts(es, key);
    case Clear =>
  }
}
