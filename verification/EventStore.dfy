/**
 The event store in memory mode: the logs live in a bounded TTL cache by run,
 the counters in a dictionary that outlives them.
 */
module EventStore {
  import opened Wrappers
  import opened EventStream
  import MC = MemoryCache

  type Logs = seq<MC.Entry<seq<Event>>>

  /** What `get(run) or []` finds. */
  function LogAt(logs: Logs, run: string, now: real): seq<Event> {
    match MC.Lookup(logs, run, now)
    case None => []
    case Some(log) => log
  }

  /** The cache after an event is appended: read at `now`, written at `later`. */
  function Appended(logs: Logs, run: string, e: Event, now: real, later: real, maxSize: nat, ttl: real): Logs {
    MC.Apply(MC.AfterGet(logs, run, now), MC.Set(run, LogAt(logs, run, now) + [e], later), maxSize, ttl)
  }

  class VibeEventStore {
    const memory: MC.Cache<seq<Event>>
    var counters: map<string, int>

    ghost predicate Valid()
      reads memory
    {
      memory.Valid()
    }

    function NextOf(run: string): int
      reads this
    {
      (if run in counters then counters[run] else -1) + 1
    }

    constructor (ttlSeconds: real)
      ensures Valid() && fresh(memory) && memory.data == [] && counters == map[]
      ensures memory.maxSize == 256 && memory.ttlSeconds == ttlSeconds
    {
      memory := new MC.Cache(256, ttlSeconds);
      counters := map[];
    }

    method NextSeq(run: string) returns (seqNo: int)
      modifies this
      ensures seqNo == old(NextOf(run)) && counters == old(counters)[run := seqNo]
    {
      seqNo := (if run in counters then counters[run] else -1) + 1;
      counters := counters[run := seqNo];
    }

    /** Within its lifetime the run's log and counter have taken one step of `Published`. */
    method Publish(run: string, d: Draft, now: real, later: real) returns (id: string)
      requires Valid()
      modifies this, memory
      ensures Valid() && id == IdOf(d)
      ensures counters == old(counters)[run := old(NextOf(run))]
      ensures memory.data ==
                if d.wellFormed then Appended(old(memory.data), run, Stamp(d, old(NextOf(run))), now, later,
                                              memory.maxSize, memory.ttlSeconds)
                else old(memory.data)
      ensures d.wellFormed ==> forall t :: t <= later + memory.ttlSeconds ==>
                RunState(LogAt(memory.data, run, t), NextOf(run))
                == Published(RunState(LogAt(old(memory.data), run, now), old(NextOf(run))), d)
    {
      id := if d.id == "" then d.spareId else d.id;
      var seqNo := NextSeq(run);
      if d.number.Some? {
        seqNo := d.number.value;
      }
      if !d.wellFormed {
        return;
      }
      AppendedOwn(memory.data, run, Event(id, seqNo, d.kind), now, later, memory.maxSize, memory.ttlSeconds);
      var held := memory.Get(run, now);
      var events := if held.Some? then held.value else [];
      memory.Set(run, events + [Event(id, seqNo, d.kind)], later);
    }

    method FetchRange(run: string, offset: int, limit: nat, now: real) returns (events: seq<Event>)
      requires Valid()
      modifies memory
      ensures Valid() && memory.data == MC.AfterGet(old(memory.data), run, now)
      ensures events == Slice(LogAt(old(memory.data), run, now), offset, offset + limit)
    {
      var held := memory.Get(run, now);
      events := Slice(if held.Some? then held.value else [], offset, offset + limit);
    }

    method GetEvents(run: string, afterId: Option<string>, afterSeq: Option<int>, offset: Option<int>, limit: nat,
                     now: real)
      returns (events: seq<Event>)
      requires Valid()
      modifies memory
      ensures Valid() && memory.data == MC.AfterGet(old(memory.data), run, now)
      ensures events == EventsFor(LogAt(old(memory.data), run, now), afterId, afterSeq, offset, limit)
    {
      if afterSeq.Some? {
        events := FetchRange(run, afterSeq.value + 1, limit, now);
        return;
      }
      if afterId.Some? {
        var held := memory.Get(run, now);
        var filtered := ScanAfter(if held.Some? then held.value else [], afterId.value);
        events := if limit == 0 then filtered else Slice(filtered, -(limit as int), |filtered|);
        return;
      }
      events := FetchRange(run, if offset.Some? then offset.value else 0, limit, now);
    }

    method Clear(run: string)
      requires Valid()
      modifies this, memory
      ensures Valid() && memory.data == MC.Remove(old(memory.data), run) && counters == old(counters) - {run}
      ensures NextOf(run) == 0 && forall t :: LogAt(memory.data, run, t) == []
    {
      MC.RemoveFacts(memory.data, run);
      var _ := memory.Delete(run);
      counters := counters - {run};
    }
  }

  // ------------------------------------------------------------------------
  // What an append does to the logs
  // ------------------------------------------------------------------------

  lemma {:induction false} FindLast(logs: Logs, e: MC.Entry<seq<Event>>)
    requires e.key !in MC.Keys(logs)
    ensures MC.Find(logs + [e], e.key) == Some(e)
    ensures forall k :: k != e.key ==> MC.Find(logs + [e], k) == MC.Find(logs, k)
  {
    if logs != [] {
      FindLast(logs[1..], e);
      assert (logs + [e])[1..] == logs[1..] + [e];
    }
  }

  lemma {:induction false} FindOther(logs: Logs, run: string, other: string)
    requires other != run
    ensures MC.Find(MC.Remove(logs, run), other) == MC.Find(logs, other)
  {
    if logs != [] {
      FindOther(logs[1..], run, other);
      if logs[0].key != run { assert MC.Remove(logs, run)[1..] == MC.Remove(logs[1..], run); }
    }
  }

  lemma TouchFinds(logs: Logs, e: MC.Entry<seq<Event>>, other: string)
    ensures MC.Find(MC.Touch(logs, e), e.key) == Some(e)
    ensures other != e.key ==> MC.Find(MC.Touch(logs, e), other) == MC.Find(logs, other)
  {
    MC.RemoveFacts(logs, e.key);
    FindLast(MC.Remove(logs, e.key), e);
    if other != e.key { FindOther(logs, e.key, other); }
  }

  lemma ReadFinds(logs: Logs, run: string, now: real, other: string)
    requires other != run
    ensures MC.Find(MC.AfterGet(logs, run, now), other) == MC.Find(logs, other)
  {
    FindOther(logs, run, other);
    if MC.Find(logs, run).Some? { TouchFinds(logs, MC.Find(logs, run).value, other); }
  }

  /** Trimming a cache that is over by one drops its oldest entry and no other. */
  lemma TrimFinds(full: Logs, maxSize: nat, k: string)
    requires MC.Unique(full) && 0 < maxSize && |full| <= maxSize + 1
    ensures MC.Find(MC.Trim(full, maxSize), k)
         == if |full| > maxSize && full[0].key == k then None else MC.Find(full, k)
  {}

  /** Writing a new key to a full cache evicts the oldest one. */
  ghost predicate Evicts(held: Logs, maxSize: nat, run: string, k: string) {
    held != [] && |held| == maxSize && run !in MC.Keys(held) && held[0].key == k
  }

  /** Setting a key in a valid cache: who is found afterwards. */
  lemma SetFinds(held: Logs, e: MC.Entry<seq<Event>>, maxSize: nat, k: string)
    requires MC.Unique(held) && |held| <= maxSize && maxSize > 0
    ensures MC.Find(MC.Trim(MC.Touch(held, e), maxSize), e.key) == Some(e)
    ensures k != e.key ==> MC.Find(MC.Trim(MC.Touch(held, e), maxSize), k)
                           == if Evicts(held, maxSize, e.key, k) then None else MC.Find(held, k)
  {
    var full := MC.Touch(held, e);
    MC.TouchFacts(held, e);
    TouchFinds(held, e, k);
    TrimFinds(full, maxSize, k);
    TrimFinds(full, maxSize, e.key);
    if e.key !in MC.Keys(held) {
      MC.RemoveFacts(held, e.key);
      assert full == held + [e];
    }
  }

  lemma HeldIsValid(logs: Logs, run: string, now: real, maxSize: nat)
    requires MC.Unique(logs) && |logs| <= maxSize
    ensures MC.Unique(MC.AfterGet(logs, run, now)) && |MC.AfterGet(logs, run, now)| <= maxSize
  {
    MC.ApplyIsValid(logs, MC.Get(run, now), maxSize, 0.0);
  }

  lemma AppendedIsSet(logs: Logs, run: string, e: Event, now: real, later: real, maxSize: nat, ttl: real)
    ensures Appended(logs, run, e, now, later, maxSize, ttl)
         == var entry := MC.Entry(run, later + ttl, LogAt(logs, run, now) + [e]);
            MC.Trim(MC.Touch(MC.AfterGet(logs, run, now), entry), maxSize)
  {}

  lemma AppendedOwn(logs: Logs, run: string, e: Event, now: real, later: real, maxSize: nat, ttl: real)
    requires MC.Unique(logs) && |logs| <= maxSize && maxSize > 0
    ensures forall t :: t <= later + ttl ==>
              LogAt(Appended(logs, run, e, now, later, maxSize, ttl), run, t) == LogAt(logs, run, now) + [e]
  {
    var entry := MC.Entry(run, later + ttl, LogAt(logs, run, now) + [e]);
    HeldIsValid(logs, run, now, maxSize);
    AppendedIsSet(logs, run, e, now, later, maxSize, ttl);
    SetFinds(MC.AfterGet(logs, run, now), entry, maxSize, run);
  }

  /**
   Publishing to one run leaves every other run's log as it is or loses it, and loses exactly the least recently used
   one, when the cache is full and the publishing run has no log in it.
   */
  lemma OthersKeptOrEvicted(logs: Logs, run: string, e: Event, now: real, later: real, maxSize: nat, ttl: real,
                            other: string)
    requires MC.Unique(logs) && |logs| <= maxSize && maxSize > 0 && other != run
    ensures MC.Find(Appended(logs, run, e, now, later, maxSize, ttl), other)
         == if Evicts(MC.AfterGet(logs, run, now), maxSize, run, other) then None else MC.Find(logs, other)
  {
    var entry := MC.Entry(run, later + ttl, LogAt(logs, run, now) + [e]);
    HeldIsValid(logs, run, now, maxSize);
    AppendedIsSet(logs, run, e, now, later, maxSize, ttl);
    SetFinds(MC.AfterGet(logs, run, now), entry, maxSize, other);
    ReadFinds(logs, run, now, other);
  }
}
