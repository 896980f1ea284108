/**
 The per-run event log (app/infra/vibe_event_store.py): sequence numbers and
 the three cursors.
 */
module EventStream {
  import opened Wrappers

  /** The type of an event: the two that end a stream, and the rest. */
  datatype Kind = Done | Error | Progress(name: string)

  datatype Event = Event(id: string, number: int, kind: Kind)

  /** An event as handed to `publish`: `spareId` is the id generated for it, `wellFormed` the schema's verdict. */
  datatype Draft = Draft(id: string, spareId: string, number: Option<int>, kind: Kind, wellFormed: bool)

  /** The log of one run and the next sequence number it will hand out. */
  datatype RunState = RunState(log: seq<Event>, next: int)

  const FRESH: RunState := RunState([], 0)

  function IdOf(d: Draft): string {
    if d.id == "" then d.spareId else d.id
  }

  function Stamp(d: Draft, next: int): Event {
    Event(IdOf(d), if d.number.Some? then d.number.value else next, d.kind)
  }

  /** The number is drawn even when the event brings its own, and even when the event is then dropped. */
  function Published(s: RunState, d: Draft): RunState {
    RunState(if d.wellFormed then s.log + [Stamp(d, s.next)] else s.log, s.next + 1)
  }

  function ClampIndex(i: int, n: nat): (k: nat)
    ensures k <= n
  {
    if i < 0 then (if i + n < 0 then 0 else i + n) else if i > n then n else i
  }

  /** Python's `s[a:b]`, negative indices counting from the end. */
  function Slice<T>(s: seq<T>, a: int, b: int): seq<T> {
    var lo, hi := ClampIndex(a, |s|), ClampIndex(b, |s|);
    if lo <= hi then s[lo..hi] else []
  }

  function FirstN<T>(s: seq<T>, n: nat): seq<T> {
    if |s| <= n then s else s[..n]
  }

  /** `filtered[-limit:]`: the last `limit` of the list, but all of it for a limit of zero. */
  function LastPage<T>(s: seq<T>, limit: nat): seq<T> {
    if limit == 0 then s else Slice(s, -(limit as int), |s|)
  }

  /** The events after the first one with the given id; none when there is no such event. */
  function AfterId(log: seq<Event>, id: string): (rest: seq<Event>)
    ensures |rest| <= |log|
  {
    if log == [] then [] else if log[0].id == id then log[1..] else AfterId(log[1..], id)
  }

  function EventsFor(log: seq<Event>, afterId: Option<string>, afterSeq: Option<int>, offset: Option<int>, limit: nat)
    : seq<Event>
  {
    if afterSeq.Some? then Slice(log, afterSeq.value + 1, afterSeq.value + 1 + limit)
    else if afterId.Some? then LastPage(AfterId(log, afterId.value), limit)
    else
      var from := if offset.Some? then offset.value else 0;
      Slice(log, from, from + limit)
  }

  /** The loop with the `found` flag. */
  method ScanAfter(log: seq<Event>, id: string) returns (filtered: seq<Event>)
    ensures filtered == AfterId(log, id)
  {
    var found, i := false, 0;
    filtered := [];
    while i < |log|
      invariant 0 <= i <= |log|
      invariant AfterId(log, id) == if found then filtered + log[i..] else AfterId(log[i..], id)
      invariant !found ==> filtered == []
    {
      if found {
        filtered := filtered + [log[i]];
      } else if log[i].id == id {
        found := true;
      }
      i := i + 1;
    }
  }

  // ------------------------------------------------------------------------
  // Sequence numbers
  // ------------------------------------------------------------------------

  function Replay(drafts: seq<Draft>): (s: RunState)
    ensures s.next == |drafts| && |s.log| <= |drafts|
  {
    if drafts == [] then FRESH else Published(Replay(drafts[..|drafts| - 1]), drafts[|drafts| - 1])
  }

  /** No publisher chooses its own sequence number; the orchestrator never does. */
  ghost predicate Unnumbered(drafts: seq<Draft>) {
    forall i :: 0 <= i < |drafts| ==> drafts[i].number.None?
  }

  ghost predicate Ascending(log: seq<Event>) {
    forall i :: 0 < i < |log| ==> log[i - 1].number < log[i].number
  }

  /** A stored number is the position of the event among everything published, and never below its place in the log. */
  ghost predicate Placed(log: seq<Event>, drafts: seq<Draft>, i: int)
    requires 0 <= i < |log|
  {
    var k := log[i].number;
    i <= k < |drafts| && drafts[k].wellFormed && log[i] == Stamp(drafts[k], k)
  }

  lemma {:induction false} SeqLaw(drafts: seq<Draft>)
    requires Unnumbered(drafts)
    ensures Ascending(Replay(drafts).log)
    ensures forall i :: 0 <= i < |Replay(drafts).log| ==> Placed(Replay(drafts).log, drafts, i)
  {
    if drafts != [] {
      var n := |drafts| - 1;
      var before, after := Replay(drafts[..n]).log, Replay(drafts).log;
      SeqLaw(drafts[..n]);
      forall i | 0 <= i < |after|
        ensures Placed(after, drafts, i)
      {
        if i < |before| {
          assert Placed(before, drafts[..n], i);
        }
      }
      if drafts[n].wellFormed && before != [] {
        assert Placed(before, drafts[..n], |before| - 1);
      }
    }
  }

  /** Every well-formed event is stored, and keeps its position as its number. */
  lemma {:induction false} NothingLost(drafts: seq<Draft>, k: nat)
    requires Unnumbered(drafts) && k < |drafts| && drafts[k].wellFormed
    ensures Stamp(drafts[k], k) in Replay(drafts).log
  {
    var n := |drafts| - 1;
    if k < n {
      NothingLost(drafts[..n], k);
    }
  }

  ghost predicate Gapless(log: seq<Event>) {
    forall i :: 0 <= i < |log| ==> log[i].number == i
  }

  /** Nothing was stored after an event that had been dropped. */
  predicate DropsOnlyAtEnd(drafts: seq<Draft>) {
    drafts == [] ||
    var n := |drafts| - 1;
    if drafts[n].wellFormed then AllWellFormed(drafts[..n]) else DropsOnlyAtEnd(drafts[..n])
  }

  predicate AllWellFormed(drafts: seq<Draft>) {
    drafts == [] || (drafts[|drafts| - 1].wellFormed && AllWellFormed(drafts[..|drafts| - 1]))
  }

  lemma {:induction false} FullLog(drafts: seq<Draft>)
    requires Unnumbered(drafts)
    ensures AllWellFormed(drafts) <==> |Replay(drafts).log| == |drafts|
    ensures AllWellFormed(drafts) ==> Gapless(Replay(drafts).log)
  {
    if drafts != [] {
      FullLog(drafts[..|drafts| - 1]);
    }
  }

  lemma {:induction false} GaplessExactly(drafts: seq<Draft>)
    requires Unnumbered(drafts)
    ensures Gapless(Replay(drafts).log) <==> DropsOnlyAtEnd(drafts)
  {
    if drafts != [] {
      var n := |drafts| - 1;
      var before, after := Replay(drafts[..n]).log, Replay(drafts).log;
      if drafts[n].wellFormed {
        FullLog(drafts[..n]);
        assert after[|before|].number == n;
        assert AllWellFormed(drafts[..n]) ==> forall i :: 0 <= i < |after| && i < |before| ==> after[i] == before[i];
      } else {
        GaplessExactly(drafts[..n]);
      }
    }
  }

  /** What a cursor promises: the events whose number exceeds it. */
  function Beyond(log: seq<Event>, a: int): seq<Event> {
    if log == [] then []
    else
      var n := |log| - 1;
      if log[n].number > a then Beyond(log[..n], a) + [log[n]] else Beyond(log[..n], a)
  }

  ghost predicate CursorPage(log: seq<Event>, a: int, limit: nat) {
    EventsFor(log, None, Some(a), None, limit) == FirstN(Beyond(log, a), limit)
  }

  lemma {:induction false} NoneBeyond(log: seq<Event>, a: int)
    requires Gapless(log) && a >= |log| - 1
    ensures Beyond(log, a) == []
  {
    if log != [] { NoneBeyond(log[..|log| - 1], a); }
  }

  lemma {:induction false} BeyondIsSuffix(log: seq<Event>, a: int)
    requires Gapless(log) && -1 <= a < |log|
    ensures Beyond(log, a) == log[a + 1..]
  {
    if a == |log| - 1 {
      NoneBeyond(log, a);
    } else {
      var front, last := log[..|log| - 1], log[|log| - 1];
      BeyondIsSuffix(front, a);
      assert log[a + 1..] == front[a + 1..] + [last];
    }
  }

  lemma {:induction false} BeyondCounts(log: seq<Event>, a: int, i: nat)
    requires Ascending(log) && i < |log| && log[i].number > a
    ensures |Beyond(log, a)| >= |log| - i
  {
    var n := |log| - 1;
    if i < n {
      BeyondCounts(log[..n], a, i);
      AscendingBetween(log, i, n);
    }
  }

  lemma {:induction false} AscendingBetween(log: seq<Event>, i: nat, j: nat)
    requires Ascending(log) && i <= j < |log|
    ensures i < j ==> log[i].number < log[j].number
  {
    if i < j {
      AscendingBetween(log, i, j - 1);
    }
  }

  /** The cursor is right from -1, the start, on; `NegativeCursorExact` is about the integers below. */
  ghost predicate CursorHolds(log: seq<Event>) {
    forall a, limit: nat :: a >= -1 ==> CursorPage(log, a, limit)
  }

  lemma GaplessCursor(log: seq<Event>, a: int, limit: nat)
    requires Gapless(log) && a >= -1
    ensures CursorPage(log, a, limit)
  {
    if a < |log| { BeyondIsSuffix(log, a); } else { NoneBeyond(log, a); }
  }

  lemma GapBreaksCursor(log: seq<Event>, i: nat)
    requires Ascending(log) && i < |log| && log[i].number > i
    ensures !CursorPage(log, i, |log|)
  {
    BeyondCounts(log, i, i);
  }

  /**
   The indexed cursor returns the events numbered beyond it, for every cursor from -1 on and every page size, if and
   only if no event was stored after a dropped one.
   */
  lemma CursorExact(drafts: seq<Draft>)
    requires Unnumbered(drafts)
    ensures CursorHolds(Replay(drafts).log) <==> DropsOnlyAtEnd(drafts)
  {
    var log := Replay(drafts).log;
    GaplessExactly(drafts);
    if Gapless(log) {
      GaplessHolds(log);
    } else {
      SeqLaw(drafts);
      var i :| 0 <= i < |log| && log[i].number != i;
      assert Placed(log, drafts, i);
      GapBreaksCursor(log, i);
    }
  }

  /** The malformed first of two events shifts the second, which a client asking beyond 0 then misses. */
  lemma DroppedEventHidesNext(bad: Draft, good: Draft)
    requires !bad.wellFormed && good.wellFormed && good.number.None?
    ensures var log := Replay([bad, good]).log;
            EventsFor(log, None, Some(0), None, 50) == [] && Beyond(log, 0) == [Stamp(good, 1)]
  {
    assert [bad, good][..1] == [bad] && [bad][..0] == [];
    assert Replay([bad]) == RunState([], 1);
    var log := Replay([bad, good]).log;
    assert log == [Stamp(good, 1)] && log[..0] == [];
  }

  /** A run whose log was lost after `first` numbers were drawn: the counter goes on, the log starts again. */
  function ReplayFrom(first: nat, drafts: seq<Draft>): (s: RunState)
    ensures s.next == first + |drafts|
  {
    if drafts == [] then RunState([], first)
    else Published(ReplayFrom(first, drafts[..|drafts| - 1]), drafts[|drafts| - 1])
  }

  ghost predicate ShiftedBy(first: nat, log: seq<Event>, base: seq<Event>) {
    |log| == |base| && forall i :: 0 <= i < |log| ==> log[i] == base[i].(number := base[i].number + first)
  }

  lemma {:induction false} LossShifts(first: nat, drafts: seq<Draft>)
    requires Unnumbered(drafts)
    ensures ShiftedBy(first, ReplayFrom(first, drafts).log, Replay(drafts).log)
  {
    if drafts != [] { LossShifts(first, drafts[..|drafts| - 1]); }
  }

  /**
   After a loss the cursor is right from -1 on if and only if nothing was stored since, or no number had been
   drawn before and nothing was stored after a drop.
   */
  lemma CursorAfterLoss(first: nat, drafts: seq<Draft>)
    requires Unnumbered(drafts)
    ensures CursorHolds(ReplayFrom(first, drafts).log)
       <==> ReplayFrom(first, drafts).log == [] || (first == 0 && DropsOnlyAtEnd(drafts))
  {
    var log, base := ReplayFrom(first, drafts).log, Replay(drafts).log;
    LossShifts(first, drafts);
    if first == 0 {
      assert log == base;
      CursorExact(drafts);
      if log == [] { GaplessHolds(log); }
    } else if log == [] {
      GaplessHolds(log);
    } else {
      SeqLaw(drafts);
      assert Placed(base, drafts, 0);
      assert Ascending(log) && log[0].number >= first;
      GapBreaksCursor(log, 0);
    }
  }

  lemma GaplessHolds(log: seq<Event>)
    requires Gapless(log)
    ensures CursorHolds(log)
  {
    forall a, limit: nat | a >= -1 ensures CursorPage(log, a, limit) {
      GaplessCursor(log, a, limit);
    }
  }

  // ------------------------------------------------------------------------
  // Cursors below -1, from which the slice counts from the end of the log
  // ------------------------------------------------------------------------

  lemma {:induction false} BeyondAll(log: seq<Event>, a: int)
    requires forall i :: 0 <= i < |log| ==> log[i].number > a
    ensures Beyond(log, a) == log
  {
    if log != [] { BeyondAll(log[..|log| - 1], a); }
  }

  /** The page a cursor `back` places below -1 gives, of a log of `n` events: the first `limit`, or a wrong one. */
  predicate ReachesStart(n: nat, back: nat, limit: nat) {
    n == 0 || limit == 0 || (back == n && limit < n) || (back >= n && limit >= back + n)
  }

  lemma NegativePage(log: seq<Event>, a: int, limit: nat)
    requires Ascending(log) && a < -1 && forall i :: 0 <= i < |log| ==> log[i].number >= 0
    ensures CursorPage(log, a, limit) <==> ReachesStart(|log|, -(a + 1), limit)
  {
    var n, back := |log|, -(a + 1);
    var page := EventsFor(log, None, Some(a), None, limit);
    BeyondAll(log, a);
    if 0 < n && 0 < limit {
      if back < n {
        AscendingBetween(log, 0, n - back);
        assert FirstN(log, limit)[0] == log[0];
        assert page != [] ==> page[0] == log[n - back];
      } else {
        var hi := ClampIndex(limit - back, n);
        assert page == log[..hi];
        assert page == FirstN(log, limit) <==> hi == if n <= limit then n else limit;
      }
    }
  }

  /** A cursor below -1 gives the first page, as it should, exactly when it reaches the start of the log this way. */
  lemma NegativeCursorExact(first: nat, drafts: seq<Draft>, a: int, limit: nat)
    requires Unnumbered(drafts) && a < -1
    ensures var log := ReplayFrom(first, drafts).log;
            CursorPage(log, a, limit) <==> ReachesStart(|log|, -(a + 1), limit)
  {
    LossShifts(first, drafts);
    SeqLaw(drafts);
    var log, base := ReplayFrom(first, drafts).log, Replay(drafts).log;
    forall i | 0 <= i < |log| ensures log[i].number >= 0 {
      assert Placed(base, drafts, i);
    }
    NegativePage(log, a, limit);
  }

  /** So over all integers the cursor is right only for an empty log. */
  lemma EveryCursorExact(first: nat, drafts: seq<Draft>)
    requires Unnumbered(drafts)
    ensures var log := ReplayFrom(first, drafts).log;
            (forall a, limit: nat :: CursorPage(log, a, limit)) <==> log == []
  {
    var log := ReplayFrom(first, drafts).log;
    if log == [] {
      forall a, limit: nat ensures CursorPage(log, a, limit) {}
    } else {
      NegativeCursorExact(first, drafts, -2, 1);
      assert !CursorPage(log, -2, 1);
    }
  }

  /** Three events and none dropped: asked for what follows -2, the cursor gives the last event alone. */
  lemma NegativeCursorSkips(drafts: seq<Draft>)
    requires Unnumbered(drafts) && AllWellFormed(drafts) && |drafts| == 3
    ensures var log := Replay(drafts).log;
            && |log| == 3 && EventsFor(log, None, Some(-2), None, 50) == [log[2]]
            && FirstN(Beyond(log, -2), 50) == log
  {
    FullLog(drafts);
    var log := Replay(drafts).log;
    BeyondAll(log, -2);
  }

  // ------------------------------------------------------------------------
  // What is stored, and the plain offset
  // ------------------------------------------------------------------------

  /** The stored event has the id and the number its draft brings, and only for want of one those made for it. */
  lemma StoredAs(s: RunState, d: Draft)
    ensures Published(s, d).next == s.next + 1
    ensures !d.wellFormed ==> Published(s, d).log == s.log
    ensures d.wellFormed ==>
              && |Published(s, d).log| == |s.log| + 1 && s.log <= Published(s, d).log
              && var e := Published(s, d).log[|s.log|];
                 && e.kind == d.kind
                 && (if d.id != "" then e.id == d.id else e.id == d.spareId)
                 && (if d.number == None then e.number == s.next else Some(e.number) == d.number)
  {}

  /** The sequence cursor comes before the id cursor, and that before the offset, which is zero when not given. */
  lemma CursorPriority(log: seq<Event>, id: Option<string>, a: int, o: Option<int>, limit: nat)
    ensures EventsFor(log, id, Some(a), o, limit) == EventsFor(log, None, Some(a), None, limit)
    ensures id.Some? ==> EventsFor(log, id, None, o, limit) == EventsFor(log, id, None, None, limit)
    ensures EventsFor(log, None, None, None, limit) == EventsFor(log, None, None, Some(0), limit)
  {}

  /** From an offset within the log on, at most `limit` events; past its end, none. */
  lemma OffsetExact(log: seq<Event>, o: nat, limit: nat)
    ensures var page := EventsFor(log, None, None, Some(o), limit);
            && |page| == (if o >= |log| then 0 else if |log| - o <= limit then |log| - o else limit)
            && forall k :: 0 <= k < |page| ==> page[k] == log[o + k]
  {}

  // ------------------------------------------------------------------------
  // The event-id cursor
  // ------------------------------------------------------------------------

  lemma {:induction false} AfterIdIsSuffix(log: seq<Event>, id: string)
    ensures AfterId(log, id) == log[|log| - |AfterId(log, id)|..]
  {
    if log != [] && log[0].id != id {
      AfterIdIsSuffix(log[1..], id);
    }
  }

  lemma LastPageIs(s: seq<Event>, limit: nat)
    requires 0 < limit < |s|
    ensures LastPage(s, limit) == s[|s| - limit..]
  {
    assert ClampIndex(-(limit as int), |s|) == |s| - limit;
    assert s[|s| - limit..|s|] == s[|s| - limit..];
  }

  lemma PagesDiffer(log: seq<Event>, from: nat, limit: nat)
    requires Ascending(log) && from <= |log| && 0 < limit < |log| - from
    ensures LastPage(log[from..], limit) == log[|log| - limit..]
    ensures LastPage(log[from..], limit) != FirstN(log[from..], limit)
  {
    var rest := log[from..];
    LastPageIs(rest, limit);
    AscendingBetween(log, from, |log| - limit);
    assert rest[|rest| - limit..] == log[|log| - limit..];
    assert FirstN(rest, limit)[0] == log[from];
    assert log[|log| - limit..][0] == log[|log| - limit];
  }

  /** The id cursor hands out the next events iff no more than `limit` remain; otherwise it skips to the newest. */
  lemma IdCursorExact(drafts: seq<Draft>, id: string, limit: nat)
    requires Unnumbered(drafts)
    ensures var log := Replay(drafts).log;
            var rest := AfterId(log, id);
            var page := EventsFor(log, Some(id), None, None, limit);
            && (page == FirstN(rest, limit) <==> |rest| <= limit)
            && (limit > 0 && |rest| > limit ==> page == log[|log| - limit..])
  {
    var log := Replay(drafts).log;
    var rest := AfterId(log, id);
    AfterIdIsSuffix(log, id);
    if 0 < limit < |rest| {
      SeqLaw(drafts);
      PagesDiffer(log, |log| - |rest|, limit);
    }
  }
}
